// The volume descriptor and its layout arithmetic (src/shared/storage/volume_format.c).
module VolumeFormat {
  import opened Bytes
  import opened Limits
  import opened Options

  const METADATA_BASE: nat := 2064
  const MAX_LAYERS: nat := 4

  datatype Descriptor = Descriptor(version: nat, volume: seq<byte>, blocks: uint64, layers: nat, ciphers: seq<nat>)

  /** Tag sectors for n data sectors. */
  function MetaSectors(n: nat): nat {
    n / 15 + (if n % 15 != 0 then 1 else 0)
  }

  /** Bitmap sectors for m tag sectors. */
  function MapSectors(m: nat): nat {
    m / 4096 + (if m % 4096 != 0 then 1 else 0)
  }

  function BitmapSectors(n: nat): nat { MapSectors(MetaSectors(n)) }

  function Footprint(n: nat): nat { n + MetaSectors(n) + BitmapSectors(n) }

  lemma MetaMonotone(m: nat, n: nat)
    requires m <= n
    ensures MetaSectors(m) <= MetaSectors(n)
  {
  }

  lemma MapMonotone(m: nat, n: nat)
    requires m <= n
    ensures MapSectors(m) <= MapSectors(n)
  {
  }

  lemma FootprintMonotone(m: nat, n: nat)
    requires m <= n
    ensures Footprint(m) <= Footprint(n)
  {
    hide MetaSectors, MapSectors;
    MetaMonotone(m, n);
    MapMonotone(MetaSectors(m), MetaSectors(n));
  }

  /** The largest volume whose data, tags and bitmap fit on a card of this capacity, by
      binary search. */
  method MaxBlocks(capacity: uint64) returns (low: uint64)
    ensures capacity <= METADATA_BASE ==> low == 0
    ensures low <= UINT32_MAX
    ensures capacity > METADATA_BASE ==> Footprint(low) <= capacity - METADATA_BASE
    ensures forall n :: low < n <= UINT32_MAX ==> capacity <= METADATA_BASE || Footprint(n) > capacity - METADATA_BASE
    // So no valid volume with a bitmap is larger, and one of this size is valid.
    ensures forall d :: Valid(d, capacity) && d.version == 2 && d.blocks <= UINT32_MAX ==> d.blocks <= low
    ensures forall d :: Valid(d, UINT64_MAX) && d.version == 2 && d.blocks == low ==> Valid(d, capacity)
  {
    forall d: Descriptor
      ensures Valid(d, capacity) && d.version == 2 && capacity > METADATA_BASE ==> Footprint(d.blocks) <= capacity - METADATA_BASE
      ensures Valid(d, UINT64_MAX) && d.version == 2 && capacity > METADATA_BASE && Footprint(d.blocks) <= capacity - METADATA_BASE
              ==> Valid(d, capacity)
    {
    }
    low := 0;
    if capacity <= METADATA_BASE {
      return;
    }
    var available := capacity - METADATA_BASE;
    var high := if available < UINT32_MAX then available else UINT32_MAX;
    while low < high
      invariant low <= high <= UINT32_MAX && high <= available
      invariant Footprint(low) <= available
      invariant forall n :: high < n <= UINT32_MAX ==> Footprint(n) > available
    {
      var n := low + (high - low + 1) / 2;
      if Footprint(n) <= available {
        low := n;
      } else {
        forall k | n <= k
          ensures Footprint(k) > available
        {
          FootprintMonotone(n, k);
        }
        high := n - 1;
      }
    }
  }

  // ---- The 128-byte descriptor ---------------------------------------------

  const DESCRIPTOR_BYTES: nat := 128

  const AES: nat := 1
  const CAMELLIA: nat := 2
  const SM4: nat := 3
  const ARIA: nat := 4
  const TWOFISH: nat := 5

  function KeyBytes(algorithm: nat): nat {
    if algorithm in {AES, CAMELLIA, ARIA, TWOFISH} then 64 else if algorithm == SM4 then 32 else 0
  }

  predicate WellTyped(d: Descriptor) {
    && |d.volume| == 16 && |d.ciphers| == MAX_LAYERS && d.version <= UINT16_MAX && d.layers < 256
    && forall i :: 0 <= i < MAX_LAYERS ==> d.ciphers[i] <= UINT16_MAX
  }

  function Bitmap(d: Descriptor): nat {
    if d.version == 2 then BitmapSectors(d.blocks) else 0
  }

  predicate Valid(d: Descriptor, capacity: uint64) {
    && WellTyped(d)
    && d.version <= 2 && d.blocks != 0 && 1 <= d.layers <= MAX_LAYERS
    && (exists i :: 0 <= i < 16 && d.volume[i] != 0)
    && (forall i :: 0 <= i < MAX_LAYERS ==> if i < d.layers then 1 <= d.ciphers[i] <= 5 else d.ciphers[i] == 0)
    && capacity >= METADATA_BASE + Bitmap(d) + MetaSectors(d.blocks) + d.blocks
  }

  method IsValid(d: Descriptor, capacity: uint64) returns (ok: bool)
    requires WellTyped(d)
    ensures ok <==> Valid(d, capacity)
  {
    if d.version > 2 || d.blocks == 0 || d.layers < 1 || d.layers > MAX_LAYERS {
      return false;
    }
    var nonzero := false;
    for i := 0 to 16
      invariant nonzero <==> exists k :: 0 <= k < i && d.volume[k] != 0
    {
      nonzero := nonzero || d.volume[i] != 0;
    }
    if !nonzero {
      return false;
    }
    for i := 0 to MAX_LAYERS
      invariant forall k :: 0 <= k < i ==> if k < d.layers then 1 <= d.ciphers[k] <= 5 else d.ciphers[k] == 0
    {
      if i < d.layers {
        if KeyBytes(d.ciphers[i]) == 0 {
          return false;
        }
      } else if d.ciphers[i] != 0 {
        return false;
      }
    }
    var n := d.blocks;
    var m := MetaSectors(n);
    var bitmap := Bitmap(d);
    return capacity >= METADATA_BASE && bitmap <= capacity - METADATA_BASE
        && m <= capacity - METADATA_BASE - bitmap && n <= capacity - METADATA_BASE - bitmap - m;
  }

  /** "FV2VOL01" */
  const MAGIC: seq<byte> := [0x46, 0x56, 0x32, 0x56, 0x4f, 0x4c, 0x30, 0x31]

  function Number(at: nat, v: nat, n: nat): (f: Field)
    ensures f.at == at && |f.bytes| == n
  {
    Field(at, Little(v, n))
  }

  function HeadFields(d: Descriptor): seq<Field> {
    [Field(0, MAGIC), Number(8, if d.version != 0 then d.version else 1, 2), Number(10, 512, 2),
     Field(16, d.volume), Number(32, 512, 4), Number(36, 1, 2), Number(38, 1, 2)]
  }

  function LayoutFields(d: Descriptor): seq<Field> {
    var m, bitmap := MetaSectors(d.blocks), Bitmap(d);
    [Number(40, d.blocks, 8), Number(48, METADATA_BASE + bitmap, 8), Number(56, m, 8),
     Number(64, METADATA_BASE + bitmap + m, 8), Number(72, 16, 8), Number(80, 2048, 8)]
  }

  function CipherFields(d: Descriptor): seq<Field>
    requires WellTyped(d)
  {
    [Number(88, d.layers, 1), Number(89, 1, 1), Number(92, d.ciphers[0], 2), Number(94, d.ciphers[1], 2),
     Number(96, d.ciphers[2], 2), Number(98, d.ciphers[3], 2)]
  }

  function BitmapFields(d: Descriptor): seq<Field> {
    if Bitmap(d) != 0 then [Number(100, METADATA_BASE, 8), Number(108, Bitmap(d), 8)] else []
  }

  function Fields(d: Descriptor): seq<Field>
    requires WellTyped(d)
  {
    HeadFields(d) + LayoutFields(d) + CipherFields(d) + BitmapFields(d)
  }

  lemma FieldsFit(d: Descriptor)
    requires WellTyped(d)
    ensures Fits(Fields(d), DESCRIPTOR_BYTES) && Disjoint(Fields(d))
  {
    hide Little, Number, MetaSectors, Bitmap;
    AscendingJoin(HeadFields(d), LayoutFields(d));
    AscendingJoin(HeadFields(d) + LayoutFields(d), CipherFields(d));
    AscendingJoin(HeadFields(d) + LayoutFields(d) + CipherFields(d), BitmapFields(d));
    assert Ascending(Fields(d));
    AscendingFits(Fields(d), DESCRIPTOR_BYTES);
  }

  function Encoding(d: Descriptor): seq<byte>
    requires WellTyped(d)
  {
    FieldsFit(d);
    Fill(Fields(d), DESCRIPTOR_BYTES)
  }

  /** Writes the descriptor, or leaves a zeroed record when it is not valid. */
  method Encode(d: Descriptor, capacity: uint64, out: array<byte>) returns (ok: bool)
    requires WellTyped(d) && out.Length == DESCRIPTOR_BYTES
    modifies out
    ensures ok <==> Valid(d, capacity)
    ensures out[..] == if ok then Encoding(d) else Zeros(DESCRIPTOR_BYTES)
  {
    hide Little, Valid, Fill, Fits;
    Clear(out);
    ok := IsValid(d, capacity);
    if !ok {
      return;
    }
    ghost var f := EncodeHead(d, out);
    f := EncodeLayout(d, out, f);
    f := EncodeCiphers(d, out, f);
    var bitmap := Bitmap(d);
    if bitmap != 0 {
      f := PutField(out, 100, METADATA_BASE, 8, f);
      f := PutField(out, 108, bitmap, 8, f);
    }
    assert f == Fields(d);
  }

  method EncodeHead(d: Descriptor, out: array<byte>) returns (ghost f: seq<Field>)
    requires WellTyped(d) && out.Length == DESCRIPTOR_BYTES && out[..] == Fill([], DESCRIPTOR_BYTES)
    modifies out
    ensures f == HeadFields(d) && Fits(f, DESCRIPTOR_BYTES) && out[..] == Fill(f, DESCRIPTOR_BYTES)
  {
    hide Little, Fill, Fits;
    f := CopyField(out, 0, MAGIC, []);
    f := PutField(out, 8, if d.version != 0 then d.version else 1, 2, f);
    f := PutField(out, 10, 512, 2, f);
    f := CopyField(out, 16, d.volume, f);
    f := PutField(out, 32, 512, 4, f);
    f := PutField(out, 36, 1, 2, f);
    f := PutField(out, 38, 1, 2, f);
  }

  method EncodeLayout(d: Descriptor, out: array<byte>, ghost fields: seq<Field>) returns (ghost f: seq<Field>)
    requires WellTyped(d) && out.Length == DESCRIPTOR_BYTES
    requires Fits(fields, DESCRIPTOR_BYTES) && out[..] == Fill(fields, DESCRIPTOR_BYTES)
    modifies out
    ensures f == fields + LayoutFields(d) && Fits(f, DESCRIPTOR_BYTES) && out[..] == Fill(f, DESCRIPTOR_BYTES)
  {
    hide Little, Fill, Fits;
    var m, bitmap := MetaSectors(d.blocks), Bitmap(d);
    f := PutField(out, 40, d.blocks, 8, fields);
    f := PutField(out, 48, METADATA_BASE + bitmap, 8, f);
    f := PutField(out, 56, m, 8, f);
    f := PutField(out, 64, METADATA_BASE + bitmap + m, 8, f);
    f := PutField(out, 72, 16, 8, f);
    f := PutField(out, 80, 2048, 8, f);
  }

  method EncodeCiphers(d: Descriptor, out: array<byte>, ghost fields: seq<Field>) returns (ghost f: seq<Field>)
    requires WellTyped(d) && out.Length == DESCRIPTOR_BYTES
    requires Fits(fields, DESCRIPTOR_BYTES) && out[..] == Fill(fields, DESCRIPTOR_BYTES)
    modifies out
    ensures f == fields + CipherFields(d) && Fits(f, DESCRIPTOR_BYTES) && out[..] == Fill(f, DESCRIPTOR_BYTES)
  {
    hide Little, Fill, Fits;
    f := PutField(out, 88, d.layers, 1, fields);
    f := PutField(out, 89, 1, 1, f);
    for i := 0 to MAX_LAYERS
      invariant Fits(f, DESCRIPTOR_BYTES) && out[..] == Fill(f, DESCRIPTOR_BYTES)
      invariant f == fields + CipherFields(d)[..2 + i]
    {
      f := PutField(out, 92 + 2 * i, d.ciphers[i], 2, f);
    }
  }

  /** The fields a descriptor is read from. */
  function Parse(b: seq<byte>): Descriptor
    requires |b| == DESCRIPTOR_BYTES
  {
    LittleOfValue(Slice(b, 40, 8));
    Descriptor(Value(Slice(b, 8, 2)), Slice(b, 16, 16), Value(Slice(b, 40, 8)), b[88],
               [Value(Slice(b, 92, 2)), Value(Slice(b, 94, 2)), Value(Slice(b, 96, 2)), Value(Slice(b, 98, 2))])
  }

  /** Layout version 0 is written as 1. */
  function Normal(d: Descriptor): Descriptor {
    if d.version == 0 then d.(version := 1) else d
  }

  lemma NumberReadsBack(d: Descriptor, i: nat, at: nat, v: nat, n: nat)
    requires WellTyped(d) && i < |Fields(d)| && Fields(d)[i] == Number(at, v, n) && v < Power256(n)
    ensures at + n <= DESCRIPTOR_BYTES && Value(Slice(Encoding(d), at, n)) == v
  {
    hide Little, Fields, Fill;
    FieldsFit(d);
    SliceOfFill(Fields(d), DESCRIPTOR_BYTES, i);
    NumberIs(at, v, n);
  }

  lemma NumberIs(at: nat, v: nat, n: nat)
    requires v < Power256(n)
    ensures Value(Number(at, v, n).bytes) == v && |Number(at, v, n).bytes| == n && Number(at, v, n).at == at
  {
    ValueOfLittle(v, n);
  }

  /** Decoding an encoding gives the descriptor back. */
  lemma ParseOfEncoding(d: Descriptor)
    requires WellTyped(d)
    ensures Parse(Encoding(d)) == Normal(d)
  {
    hide Little, Fill, Power256;
    Powers();
    var b := Encoding(d);
    var f := Fields(d);
    NumberReadsBack(d, 1, 8, if d.version != 0 then d.version else 1, 2);
    NumberReadsBack(d, 7, 40, d.blocks, 8);
    NumberReadsBack(d, 13, 88, d.layers, 1);
    NumberReadsBack(d, 15, 92, d.ciphers[0], 2);
    NumberReadsBack(d, 16, 94, d.ciphers[1], 2);
    NumberReadsBack(d, 17, 96, d.ciphers[2], 2);
    NumberReadsBack(d, 18, 98, d.ciphers[3], 2);
    FieldsFit(d);
    SliceOfFill(f, DESCRIPTOR_BYTES, 3);
    ByteValue(b, 88);
  }

  /** Number v stands at offset at in n bytes. */
  predicate Holds(b: seq<byte>, at: nat, n: nat, v: nat) {
    at + n <= |b| && Value(Slice(b, at, n)) == v
  }

  /** The regions an encoding describes: bitmap, tags and data follow one another from sector
      2064 on and end within the card, and no region is larger than what it holds needs. */
  predicate Regions(b: seq<byte>, d: Descriptor, capacity: nat, bitmap: nat, tags: nat)
    requires |b| == DESCRIPTOR_BYTES
  {
    && Holds(b, 48, 8, 2064 + bitmap) && Holds(b, 56, 8, tags) && Holds(b, 64, 8, 2064 + bitmap + tags)
    && 2064 + bitmap + tags + d.blocks <= capacity && 15 * (tags - 1) < d.blocks <= 15 * tags
    && (if d.version == 2 then
          4096 * (bitmap - 1) < tags <= 4096 * bitmap && Holds(b, 100, 8, 2064) && Holds(b, 108, 8, bitmap)
        else
          bitmap == 0 && forall i :: 100 <= i < 116 ==> b[i] == 0)
  }

  lemma EncodingRegions(d: Descriptor, capacity: uint64)
    requires Valid(d, capacity)
    ensures exists bitmap: nat, tags: nat :: Regions(Encoding(d), d, capacity, bitmap, tags)
  {
    hide Little, Fill, Power256, Valid;
    Powers();
    ValidBounds(d, capacity);
    var m, bitmap := MetaSectors(d.blocks), Bitmap(d);
    NumberReadsBack(d, 8, 48, METADATA_BASE + bitmap, 8);
    NumberReadsBack(d, 9, 56, m, 8);
    NumberReadsBack(d, 10, 64, METADATA_BASE + bitmap + m, 8);
    BitmapReadsBack(d);
    assert Regions(Encoding(d), d, capacity, bitmap, m);
  }

  /** The fields every encoding has in common. */
  lemma EncodingConstants(d: Descriptor)
    requires WellTyped(d)
    ensures Encoding(d)[..8] == [0x46, 0x56, 0x32, 0x56, 0x4f, 0x4c, 0x30, 0x31]
    ensures var b := Encoding(d);
      && Holds(b, 10, 2, 512) && Holds(b, 32, 4, 512) && Holds(b, 36, 2, 1) && Holds(b, 38, 2, 1)
      && Holds(b, 72, 8, 16) && Holds(b, 80, 8, 2048) && b[89] == 1
  {
    hide Little, Fill, Power256;
    Powers();
    NumberReadsBack(d, 2, 10, 512, 2);
    NumberReadsBack(d, 4, 32, 512, 4);
    NumberReadsBack(d, 5, 36, 1, 2);
    NumberReadsBack(d, 6, 38, 1, 2);
    NumberReadsBack(d, 11, 72, 16, 8);
    NumberReadsBack(d, 12, 80, 2048, 8);
    NumberReadsBack(d, 14, 89, 1, 1);
    ByteValue(Encoding(d), 89);
    FieldsFit(d);
    SliceOfFill(Fields(d), DESCRIPTOR_BYTES, 0);
    assert Slice(Encoding(d), 0, 8) == Encoding(d)[..8];
  }

  lemma ValidBounds(d: Descriptor, capacity: uint64)
    requires Valid(d, capacity)
    ensures WellTyped(d) && d.blocks != 0 && METADATA_BASE + Bitmap(d) + MetaSectors(d.blocks) + d.blocks <= capacity
  {
  }

  lemma BitmapReadsBack(d: Descriptor)
    requires WellTyped(d) && Bitmap(d) < Power256(8) && METADATA_BASE < Power256(8)
    ensures if Bitmap(d) != 0 then Holds(Encoding(d), 100, 8, METADATA_BASE) && Holds(Encoding(d), 108, 8, Bitmap(d))
            else forall i :: 100 <= i < 116 ==> Encoding(d)[i] == 0
  {
    hide Little, Fill, Power256, MetaSectors, MapSectors;
    FieldsFit(d);
    if Bitmap(d) != 0 {
      NumberReadsBack(d, 19, 100, METADATA_BASE, 8);
      NumberReadsBack(d, 20, 108, Bitmap(d), 8);
    } else {
      forall i | 100 <= i < 116
        ensures Encoding(d)[i] == 0
      {
        GapOfFill(Fields(d), DESCRIPTOR_BYTES, i);
      }
    }
  }

  lemma ByteValue(b: seq<byte>, at: nat)
    requires at < |b|
    ensures Value(Slice(b, at, 1)) == b[at]
  {
    assert Slice(b, at, 1)[1..] == [];
  }

  /** Accepts exactly the canonical encodings of valid descriptors. */
  method Decode(b: seq<byte>, capacity: uint64) returns (r: Option<Descriptor>)
    ensures r.Some? ==> |b| == DESCRIPTOR_BYTES && r.value.version in {1, 2} && Valid(r.value, capacity) && Encoding(r.value) == b
    ensures r.None? ==> forall d :: Valid(d, capacity) ==> Encoding(d) != b
    ensures forall d :: Valid(d, capacity) && Encoding(d) == b ==> r == Some(Normal(d))
  {
    hide Valid, Fill, Little;
    CanonicalOnly(b, capacity);
    if |b| != DESCRIPTOR_BYTES {
      return None;
    }
    var version := Get(b, 8, 2);
    if version != 1 && version != 2 {
      return None;
    }
    var blocks := Get(b, 40, 8);
    var c0 := Get(b, 92, 2);
    var c1 := Get(b, 94, 2);
    var c2 := Get(b, 96, 2);
    var c3 := Get(b, 98, 2);
    SmallFields(b);
    var d := Descriptor(version, b[16..32], blocks, b[88], [c0, c1, c2, c3]);
    assert d == Parse(b);
    var canonical := new byte[DESCRIPTOR_BYTES];
    var ok := Encode(d, capacity, canonical);
    if !ok || canonical[..] != b {
      return None;
    }
    return Some(d);
  }

  lemma SmallFields(b: seq<byte>)
    requires |b| == DESCRIPTOR_BYTES
    ensures Value(Slice(b, 40, 8)) <= UINT64_MAX
    ensures WellTyped(Parse(b))
  {
    Powers();
    LittleOfValue(Slice(b, 8, 2));
    LittleOfValue(Slice(b, 40, 8));
    LittleOfValue(Slice(b, 92, 2));
    LittleOfValue(Slice(b, 94, 2));
    LittleOfValue(Slice(b, 96, 2));
    LittleOfValue(Slice(b, 98, 2));
  }

  lemma CanonicalOnly(b: seq<byte>, capacity: uint64)
    ensures forall d :: Valid(d, capacity) && Encoding(d) == b ==>
              && |b| == DESCRIPTOR_BYTES && Parse(b) == Normal(d) && Normal(d).version in {1, 2}
              && Valid(Normal(d), capacity) && Encoding(Normal(d)) == b
  {
    hide Encoding, Parse;
    forall d | Valid(d, capacity) && Encoding(d) == b
      ensures && |b| == DESCRIPTOR_BYTES && Parse(b) == Normal(d) && Normal(d).version in {1, 2}
              && Valid(Normal(d), capacity) && Encoding(Normal(d)) == b
    {
      ParseOfEncoding(d);
      NormalEncodesAlike(d);
    }
  }

  lemma NormalEncodesAlike(d: Descriptor)
    requires WellTyped(d)
    ensures WellTyped(Normal(d)) && Encoding(Normal(d)) == Encoding(d) && |Encoding(d)| == DESCRIPTOR_BYTES
  {
    hide Little, Fill;
    FieldsFit(d);
    assert Fields(Normal(d)) == Fields(d);
  }
}
