// The 512 bytes of a sealed header (src/shared/security/envelope.c): public fields in one
// canonical form around salt, wrapped shares and tag, which are free.
module EnvelopeFormat {
  import opened Bytes
  import opened Envelope
  import opened Limits
  import opened Options
  import Policy
  import VolumeFormat

  const ENVELOPE_BYTES: nat := 512
  const CONSTRUCTION: nat := 0x0101
  const WRAPPED_BYTES: nat := 40

  /** A header as bytes see it. */
  datatype Record = Record(config: Config, salt: seq<byte>, wrapped: seq<byte>, tag: seq<byte>)

  /** The widths the fields have; the device identifier is read as one number. */
  predicate WellTyped(c: Config) {
    VolumeFormat.WellTyped(c.volume) && c.device < Power256(16)
  }

  predicate RecordValid(r: Record, capacity: uint64, limits: KdfLimits) {
    && WellTyped(r.config) && ConfigValid(r.config, capacity, limits)
    && |r.salt| == 32 && |r.wrapped| == WRAPPED_BYTES * r.config.volume.layers && |r.tag| == 32
  }

  /** The fields of fixed position, in the order they are stored. */
  function HeadFields(c: Config): seq<Field>
    requires WellTyped(c)
  {
    [Field(0, VolumeFormat.Encoding(c.volume)), Field(208, Policy.Encoding(c.policy)),
     VolumeFormat.Number(128, c.device, 16), VolumeFormat.Number(144, c.generation, 8),
     VolumeFormat.Number(152, c.profile, 2), VolumeFormat.Number(154, 1, 2), VolumeFormat.Number(156, c.iterations, 4),
     VolumeFormat.Number(192, CONSTRUCTION, 2), VolumeFormat.Number(194, c.volume.layers, 1),
     VolumeFormat.Number(196, WRAPPED_BYTES * c.volume.layers, 2), VolumeFormat.Number(200, c.tokenSlot, 4)]
  }

  function CipherFields(c: Config, n: nat): (r: seq<Field>)
    requires WellTyped(c) && n <= VolumeFormat.MAX_LAYERS
    ensures |r| == n
    ensures forall i :: 0 <= i < n ==> r[i] == VolumeFormat.Number(224 + 2 * i, c.volume.ciphers[i], 2)
  {
    seq(n, i requires 0 <= i < n => VolumeFormat.Number(224 + 2 * i, c.volume.ciphers[i], 2))
  }

  function PublicFields(c: Config): seq<Field>
    requires WellTyped(c) && c.volume.layers <= VolumeFormat.MAX_LAYERS
  {
    HeadFields(c) + CipherFields(c, c.volume.layers)
  }

  /** What no parser can check without the key. */
  function FreeFields(salt: seq<byte>, wrapped: seq<byte>, tag: seq<byte>): seq<Field> {
    [Field(160, salt), Field(256, wrapped), Field(416, tag)]
  }

  predicate Sized(r: Record) {
    && WellTyped(r.config) && r.config.volume.layers <= VolumeFormat.MAX_LAYERS
    && |r.salt| == 32 && |r.wrapped| == WRAPPED_BYTES * r.config.volume.layers && |r.tag| == 32
  }

  function Fields(r: Record): seq<Field>
    requires Sized(r)
  {
    PublicFields(r.config) + FreeFields(r.salt, r.wrapped, r.tag)
  }

  lemma DescriptorSize(c: Config)
    requires WellTyped(c)
    ensures |VolumeFormat.Encoding(c.volume)| == VolumeFormat.DESCRIPTOR_BYTES
  {
    VolumeFormat.NormalEncodesAlike(c.volume);
  }

  lemma HeadFits(c: Config)
    requires WellTyped(c)
    ensures Fits(HeadFields(c), 256) && Disjoint(HeadFields(c))
    ensures forall i :: 0 <= i < |HeadFields(c)| ==>
              var f := HeadFields(c)[i]; Apart(f, Field(160, Zeros(32))) && f.at + |f.bytes| <= 224
  {
    hide VolumeFormat.Encoding, Policy.Encoding, VolumeFormat.Number, Fill, Little, Zeros;
    DescriptorSize(c);
  }

  lemma DisjointJoin(a: seq<Field>, b: seq<Field>)
    requires Disjoint(a) && Disjoint(b)
    requires forall i, j :: 0 <= i < |a| && 0 <= j < |b| ==> Apart(a[i], b[j])
    ensures Disjoint(a + b)
  {
  }

  lemma PublicFits(c: Config)
    requires WellTyped(c) && c.volume.layers <= VolumeFormat.MAX_LAYERS
    ensures Fits(PublicFields(c), 256) && Disjoint(PublicFields(c))
    ensures forall i :: 0 <= i < |PublicFields(c)| ==> Apart(PublicFields(c)[i], Field(160, Zeros(32)))
  {
    hide HeadFields, VolumeFormat.Number, Zeros;
    HeadFits(c);
    DisjointJoin(HeadFields(c), CipherFields(c, c.volume.layers));
  }

  lemma FieldsFit(r: Record)
    requires Sized(r)
    ensures Fits(Fields(r), ENVELOPE_BYTES) && Disjoint(Fields(r))
  {
    hide PublicFields, Zeros;
    PublicFits(r.config);
    DisjointJoin(PublicFields(r.config), FreeFields(r.salt, r.wrapped, r.tag));
  }

  function Encoding(r: Record): (b: seq<byte>)
    requires Sized(r)
    ensures |b| == ENVELOPE_BYTES
  {
    FieldsFit(r);
    Fill(Fields(r), ENVELOPE_BYTES)
  }

  // ---- Writing -------------------------------------------------------------

  /** Stores the public fields of a valid configuration; nothing else is. */
  method Encode(c: Config, capacity: uint64, limits: KdfLimits, h: array<byte>) returns (ok: bool)
    requires WellTyped(c) && h.Length == ENVELOPE_BYTES
    modifies h
    ensures ok <==> ConfigValid(c, capacity, limits)
    ensures ok ==> Fits(PublicFields(c), ENVELOPE_BYTES) && h[..] == Fill(PublicFields(c), ENVELOPE_BYTES)
  {
    hide Fill, Little, VolumeFormat.Encoding, Policy.Encoding, VolumeFormat.Valid;
    Clear(h);
    if !(limits.minimum != 0 && limits.minimum <= c.iterations <= limits.maximum) || c.generation == 0
       || c.profile < 1 || c.profile > 4 || c.device == 0 {
      return false;
    }
    var descriptor, policy := new byte[VolumeFormat.DESCRIPTOR_BYTES], new byte[Policy.POLICY_BYTES];
    ok := VolumeFormat.Encode(c.volume, capacity, descriptor);
    if !ok {
      return;
    }
    ok := Policy.Encode(c.policy, policy);
    if !ok {
      return;
    }
    ghost var f := EncodeHead(c, descriptor[..], policy[..], h);
    SomeLayers(c.volume, capacity);
    for i := 0 to c.volume.layers
      invariant Fits(f, ENVELOPE_BYTES) && h[..] == Fill(f, ENVELOPE_BYTES)
      invariant f == HeadFields(c) + CipherFields(c, i)
    {
      f := PutField(h, 224 + 2 * i, c.volume.ciphers[i], 2, f);
      assert CipherFields(c, i + 1) == CipherFields(c, i) + [VolumeFormat.Number(224 + 2 * i, c.volume.ciphers[i], 2)];
    }
  }

  lemma SomeLayers(d: VolumeFormat.Descriptor, capacity: uint64)
    requires VolumeFormat.Valid(d, capacity)
    ensures 1 <= d.layers <= VolumeFormat.MAX_LAYERS && VolumeFormat.WellTyped(d)
  {
  }

  method EncodeHead(c: Config, descriptor: seq<byte>, policy: seq<byte>, h: array<byte>) returns (ghost f: seq<Field>)
    requires WellTyped(c) && h.Length == ENVELOPE_BYTES && h[..] == Fill([], ENVELOPE_BYTES)
    requires descriptor == VolumeFormat.Encoding(c.volume) && |descriptor| == VolumeFormat.DESCRIPTOR_BYTES
    requires policy == Policy.Encoding(c.policy)
    modifies h
    ensures f == HeadFields(c) && Fits(f, ENVELOPE_BYTES) && h[..] == Fill(f, ENVELOPE_BYTES)
  {
    hide Fill, Little, VolumeFormat.Encoding, Policy.Encoding, Fits;
    f := CopyField(h, 0, descriptor, []);
    f := CopyField(h, 208, policy, f);
    f := PutField(h, 128, c.device, 16, f);
    f := PutField(h, 144, c.generation, 8, f);
    f := PutField(h, 152, c.profile, 2, f);
    f := PutField(h, 154, 1, 2, f);
    f := PutField(h, 156, c.iterations, 4, f);
    f := PutField(h, 192, CONSTRUCTION, 2, f);
    f := PutField(h, 194, c.volume.layers, 1, f);
    f := PutField(h, 196, WRAPPED_BYTES * c.volume.layers, 2, f);
    f := PutField(h, 200, c.tokenSlot, 4, f);
  }

  // ---- Reading -------------------------------------------------------------

  lemma FieldReadsBack(r: Record, i: nat)
    requires Sized(r) && i < |Fields(r)|
    ensures var f := Fields(r)[i]; f.at + |f.bytes| <= ENVELOPE_BYTES && Slice(Encoding(r), f.at, |f.bytes|) == f.bytes
  {
    hide Fields, Fill;
    FieldsFit(r);
    SliceOfFill(Fields(r), ENVELOPE_BYTES, i);
  }

  lemma NumberReadsBack(r: Record, i: nat, at: nat, v: nat, n: nat)
    requires Sized(r) && i < |Fields(r)| && Fields(r)[i] == VolumeFormat.Number(at, v, n) && v < Power256(n)
    ensures at + n <= ENVELOPE_BYTES && Value(Slice(Encoding(r), at, n)) == v
  {
    hide Fields, Encoding, Little;
    FieldReadsBack(r, i);
    VolumeFormat.NumberIs(at, v, n);
  }

  /** The configuration that 512 bytes spell, whether or not they are canonical. */
  predicate Spells(h: seq<byte>, c: Config)
    requires |h| == ENVELOPE_BYTES
  {
    && c.device == Value(Slice(h, 128, 16)) && c.generation == Value(Slice(h, 144, 8))
    && c.profile == Value(Slice(h, 152, 2)) && c.iterations == Value(Slice(h, 156, 4))
    && c.tokenSlot == Value(Slice(h, 200, 4))
  }

  /** A version 0 descriptor is written as version 1. */
  function Normal(r: Record): Record {
    r.(config := r.config.(volume := VolumeFormat.Normal(r.config.volume)))
  }

  /** An encoding spells its configuration and carries its free fields. */
  lemma EncodingReadsBack(r: Record)
    requires Sized(r)
    ensures var h := Encoding(r);
      && Spells(h, r.config)
      && Slice(h, 0, VolumeFormat.DESCRIPTOR_BYTES) == VolumeFormat.Encoding(r.config.volume)
      && Slice(h, 208, Policy.POLICY_BYTES) == Policy.Encoding(r.config.policy)
      && Slice(h, 160, 32) == r.salt && Slice(h, 256, |r.wrapped|) == r.wrapped && Slice(h, 416, 32) == r.tag
  {
    hide Encoding, Fill, Little, VolumeFormat.Encoding, Policy.Encoding, VolumeFormat.Number, Power256;
    Powers();
    DescriptorSize(r.config);
    FieldReadsBack(r, 0);
    FieldReadsBack(r, 1);
    NumberReadsBack(r, 2, 128, r.config.device, 16);
    NumberReadsBack(r, 3, 144, r.config.generation, 8);
    NumberReadsBack(r, 4, 152, r.config.profile, 2);
    NumberReadsBack(r, 6, 156, r.config.iterations, 4);
    NumberReadsBack(r, 10, 200, r.config.tokenSlot, 4);
    var n := |PublicFields(r.config)|;
    assert Fields(r)[n] == Field(160, r.salt) && Fields(r)[n + 1] == Field(256, r.wrapped) && Fields(r)[n + 2] == Field(416, r.tag);
    FieldReadsBack(r, n);
    FieldReadsBack(r, n + 1);
    FieldReadsBack(r, n + 2);
  }

  lemma NormalAlike(r: Record, capacity: uint64, limits: KdfLimits)
    requires RecordValid(r, capacity, limits)
    ensures RecordValid(Normal(r), capacity, limits) && Normal(r).config.volume.version in {1, 2}
    ensures Sized(r) && Sized(Normal(r)) && Encoding(Normal(r)) == Encoding(r)
  {
    hide VolumeFormat.Encoding, Policy.Encoding, Fill, VolumeFormat.Number;
    SomeLayers(r.config.volume, capacity);
    VolumeFormat.NormalEncodesAlike(r.config.volume);
    assert Fields(Normal(r)) == Fields(r);
  }

  /** Whatever else a record is, its encoding determines it. */
  lemma EncodingIsInjective(r: Record, s: Record, capacity: uint64, limits: KdfLimits)
    requires RecordValid(r, capacity, limits) && RecordValid(s, capacity, limits)
    requires Sized(r) && Sized(s) && Encoding(r) == Encoding(s)
    ensures Normal(r) == Normal(s)
  {
    hide Encoding, VolumeFormat.Encoding, Policy.Encoding;
    EncodingReadsBack(r);
    EncodingReadsBack(s);
    VolumeFormat.ParseOfEncoding(r.config.volume);
    VolumeFormat.ParseOfEncoding(s.config.volume);
    PolicyKnown(r.config.policy, s.config.policy);
  }

  lemma PolicyKnown(p: Policy.AuthPolicy, q: Policy.AuthPolicy)
    requires Policy.Encoding(p) == Policy.Encoding(q)
    ensures p == q
  {
    hide Policy.Encoding;
    Policy.EncodingReadsBack(p);
    Policy.EncodingReadsBack(q);
  }

  lemma Ranges(h: seq<byte>)
    requires |h| == ENVELOPE_BYTES
    ensures Value(Slice(h, 128, 16)) < Power256(16) && Value(Slice(h, 144, 8)) <= UINT64_MAX
    ensures Value(Slice(h, 152, 2)) <= UINT16_MAX
    ensures Value(Slice(h, 156, 4)) <= UINT32_MAX && Value(Slice(h, 200, 4)) <= UINT32_MAX
  {
    hide Power256;
    Powers();
    LittleOfValue(Slice(h, 128, 16));
    LittleOfValue(Slice(h, 144, 8));
    LittleOfValue(Slice(h, 152, 2));
    LittleOfValue(Slice(h, 156, 4));
    LittleOfValue(Slice(h, 200, 4));
  }

  /** A record read off the bytes. */
  function RecordOf(h: seq<byte>, c: Config): Record
    requires |h| == ENVELOPE_BYTES && c.volume.layers <= VolumeFormat.MAX_LAYERS
  {
    Record(c, Slice(h, 160, 32), Slice(h, 256, WRAPPED_BYTES * c.volume.layers), Slice(h, 416, 32))
  }

  /** What the bytes of a valid record look like to the parser. */
  predicate Parseable(h: seq<byte>, c: Config, capacity: uint64, limits: KdfLimits) {
    && |h| == ENVELOPE_BYTES && Spells(h, c) && WellTyped(c) && ConfigValid(c, capacity, limits)
    && c.volume.layers <= VolumeFormat.MAX_LAYERS && c.volume.version in {1, 2}
    && Slice(h, 0, VolumeFormat.DESCRIPTOR_BYTES) == VolumeFormat.Encoding(c.volume)
    && Slice(h, 208, Policy.POLICY_BYTES) == Policy.Encoding(c.policy)
    && Sized(RecordOf(h, c)) && Encoding(RecordOf(h, c)) == h
  }

  lemma ValidIsParseable(r: Record, capacity: uint64, limits: KdfLimits)
    requires RecordValid(r, capacity, limits)
    ensures Sized(r) && Parseable(Encoding(r), Normal(r).config, capacity, limits)
    ensures RecordOf(Encoding(r), Normal(r).config) == Normal(r)
  {
    hide Encoding, VolumeFormat.Encoding, Policy.Encoding;
    NormalAlike(r, capacity, limits);
    EncodingReadsBack(r);
    EncodingReadsBack(Normal(r));
  }

  /** Accepts exactly the encodings of valid records, each as the configuration it encodes. */
  method Parse(h: seq<byte>, capacity: uint64, limits: KdfLimits) returns (r: Option<Config>)
    ensures r.Some? ==>
              && |h| == ENVELOPE_BYTES && r.value.volume.layers <= VolumeFormat.MAX_LAYERS
              && RecordValid(RecordOf(h, r.value), capacity, limits) && Sized(RecordOf(h, r.value))
              && Encoding(RecordOf(h, r.value)) == h
    ensures forall record :: RecordValid(record, capacity, limits) && Sized(record) && Encoding(record) == h ==>
              r == Some(Normal(record).config)
  {
    hide Encoding, VolumeFormat.Encoding, Policy.Encoding, VolumeFormat.Valid, Fill, Little, Fits, Slice;
    forall record | RecordValid(record, capacity, limits) && Sized(record) && Encoding(record) == h
      ensures Parseable(h, Normal(record).config, capacity, limits)
    {
      ValidIsParseable(record, capacity, limits);
    }
    r := ParseCanonical(h, capacity, limits);
    if r.Some? {
      SomeLayers(r.value.volume, capacity);
    }
  }

  /** What it takes to find a configuration in the bytes again. */
  lemma Findable(h: seq<byte>, c: Config, capacity: uint64, limits: KdfLimits)
    requires Parseable(h, c, capacity, limits)
    ensures |h| == ENVELOPE_BYTES && Spells(h, c)
    ensures VolumeFormat.WellTyped(c.volume) && VolumeFormat.Valid(c.volume, capacity)
    ensures VolumeFormat.Normal(c.volume) == c.volume && Policy.PolicyValid(c.policy)
    ensures Slice(h, 0, VolumeFormat.DESCRIPTOR_BYTES) == VolumeFormat.Encoding(c.volume)
    ensures Slice(h, 208, Policy.POLICY_BYTES) == Policy.Encoding(c.policy)
  {
    hide Encoding, VolumeFormat.Encoding, Policy.Encoding;
  }

  method ParseCanonical(h: seq<byte>, capacity: uint64, limits: KdfLimits) returns (r: Option<Config>)
    ensures r.Some? ==> Parseable(h, r.value, capacity, limits)
    ensures forall c :: Parseable(h, c, capacity, limits) ==> r == Some(c)
  {
    hide Encoding, VolumeFormat.Encoding, Policy.Encoding, VolumeFormat.Valid, Policy.PolicyValid, Fill, Little, Fits, Parseable, Slice,
         Value, Power256, VolumeFormat.Normal, ConfigValid, Sized, RecordOf, VolumeFormat.WellTyped;
    forall d | Parseable(h, d, capacity, limits)
      ensures |h| == ENVELOPE_BYTES && Spells(h, d)
      ensures VolumeFormat.WellTyped(d.volume) && VolumeFormat.Valid(d.volume, capacity)
      ensures VolumeFormat.Normal(d.volume) == d.volume && Policy.PolicyValid(d.policy)
      ensures Slice(h, 0, VolumeFormat.DESCRIPTOR_BYTES) == VolumeFormat.Encoding(d.volume)
      ensures Slice(h, 208, Policy.POLICY_BYTES) == Policy.Encoding(d.policy)
    {
      Findable(h, d, capacity, limits);
    }
    if |h| != ENVELOPE_BYTES {
      return None;
    }
    var volume := VolumeFormat.Decode(Slice(h, 0, VolumeFormat.DESCRIPTOR_BYTES), capacity);
    if volume.None? {
      return None;
    }
    var policy := Policy.Decode(Slice(h, 208, Policy.POLICY_BYTES));
    if policy.None? {
      return None;
    }
    var device := Get(h, 128, 16);
    var generation := Get(h, 144, 8);
    var profile := Get(h, 152, 2);
    var iterations := Get(h, 156, 4);
    var tokenSlot := Get(h, 200, 4);
    Ranges(h);
    SomeLayers(volume.value, capacity);
    var c := Config(volume.value, device, generation, profile, iterations, tokenSlot, policy.value);
    assert forall d :: Parseable(h, d, capacity, limits) ==> d == c;
    var ok := Canonical(h, c, capacity, limits);
    Found(h, c, ok, capacity, limits);
    return if ok then Some(c) else None;
  }

  lemma Found(h: seq<byte>, c: Config, ok: bool, capacity: uint64, limits: KdfLimits)
    requires |h| == ENVELOPE_BYTES && Spells(h, c) && WellTyped(c) && c.volume.version in {1, 2}
    requires Slice(h, 0, VolumeFormat.DESCRIPTOR_BYTES) == VolumeFormat.Encoding(c.volume)
    requires Slice(h, 208, Policy.POLICY_BYTES) == Policy.Encoding(c.policy)
    requires ok <==> ConfigValid(c, capacity, limits) && c.volume.layers <= VolumeFormat.MAX_LAYERS
                     && Sized(RecordOf(h, c)) && Encoding(RecordOf(h, c)) == h
    ensures ok <==> Parseable(h, c, capacity, limits)
  {
    hide Encoding, VolumeFormat.Encoding, Policy.Encoding;
  }

  /** Encodes the configuration again, copies the free fields over and compares. */
  method Canonical(h: seq<byte>, c: Config, capacity: uint64, limits: KdfLimits) returns (ok: bool)
    requires |h| == ENVELOPE_BYTES && WellTyped(c)
    ensures ok <==> ConfigValid(c, capacity, limits) && c.volume.layers <= VolumeFormat.MAX_LAYERS
                    && Sized(RecordOf(h, c)) && Encoding(RecordOf(h, c)) == h
  {
    hide VolumeFormat.Encoding, Policy.Encoding, VolumeFormat.Valid, Fill, Little, Fits, HeadFields, CipherFields;
    var canonical := new byte[ENVELOPE_BYTES];
    ok := Encode(c, capacity, limits, canonical);
    if !ok {
      return;
    }
    SomeLayers(c.volume, capacity);
    ghost var f := CopyField(canonical, 160, Slice(h, 160, 32), PublicFields(c));
    f := CopyField(canonical, 256, Slice(h, 256, WRAPPED_BYTES * c.volume.layers), f);
    f := CopyField(canonical, 416, Slice(h, 416, 32), f);
    assert f == Fields(RecordOf(h, c));
    ok := canonical[..] == h;
  }

  /** Decoding an encoding gives the record back, up to the spelling of version 0. */
  lemma DecodeOfEncode(r: Record, capacity: uint64, limits: KdfLimits)
    requires RecordValid(r, capacity, limits)
    ensures Sized(r) && RecordOf(Encoding(r), Normal(r).config) == Normal(r)
    ensures forall c :: Parseable(Encoding(r), c, capacity, limits) <==> c == Normal(r).config
  {
    hide Encoding, VolumeFormat.Encoding, Policy.Encoding;
    ValidIsParseable(r, capacity, limits);
    forall c | Parseable(Encoding(r), c, capacity, limits)
      ensures c == Normal(r).config
    {
      EncodingIsInjective(r, RecordOf(Encoding(r), c), capacity, limits);
    }
  }
}
