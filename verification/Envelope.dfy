// The sealed vault header: a volume key split into XOR shares, one per cipher layer,
// each wrapped under a key derived from the credential (src/shared/security/envelope.c).
module Envelope {
  import opened Bytes
  import opened Keys
  import opened Limits
  import opened Policy
  import VolumeFormat

  /** 32 bytes of key material. */
  type Share = seq<bv8>

  const SHARE_BYTES: nat := 32

  datatype Config = Config(
    volume: VolumeFormat.Descriptor, device: nat, generation: uint64, profile: uint16, iterations: uint32,
    tokenSlot: uint32, policy: AuthPolicy)

  datatype KdfLimits = KdfLimits(minimum: uint32, maximum: uint32)

  /** What all derived keys depend on: the public header fields, salt, binding and secret. */
  datatype Origin = Origin(config: Config, salt: nat, binding: Binding, secret: seq<byte>)
  datatype DerivedKey = LayerKey(origin: Origin, layer: nat) | MacKey(origin: Origin)

  datatype Wrapped = Wrap(cipher: nat, key: DerivedKey, share: Share) | Unwrappable(noise: nat)
  datatype Tag = Mac(key: DerivedKey, config: Config, salt: nat, wrapped: seq<Wrapped>) | NoTag(noise: nat)

  /** One 512-byte header: canonical public fields, salt, wrapped shares and tag. */
  datatype Header = Header(config: Config, salt: nat, wrapped: seq<Wrapped>, tag: Tag)

  predicate ConfigValid(c: Config, capacity: uint64, limits: KdfLimits) {
    && limits.minimum != 0 && limits.minimum <= c.iterations <= limits.maximum
    && c.generation != 0 && 1 <= c.profile <= 4 && c.device != 0
    && VolumeFormat.Valid(c.volume, capacity) && PolicyValid(c.policy)
  }

  predicate Parses(h: Header, capacity: uint64, limits: KdfLimits) {
    ConfigValid(h.config, capacity, limits) && |h.wrapped| == h.config.volume.layers
  }

  /** Secrets a profile can hold: text, direction presses, or four dial positions. */
  predicate SecretFits(profile: uint16, secret: seq<byte>) {
    && 0 < |secret| <= 256 && 1 <= profile <= 4
    && (profile == 2 ==> forall i :: 0 <= i < |secret| ==> 1 <= secret[i] <= 5)
    && (profile in {3, 4} ==> |secret| == 4)
    && (profile == 3 ==> forall i :: 0 <= i < |secret| ==> secret[i] < 100)
    && (profile == 4 ==> forall i :: 0 <= i < |secret| ==> secret[i] < 64)
  }

  method CheckSecret(profile: uint16, secret: seq<byte>) returns (ok: bool)
    ensures ok <==> SecretFits(profile, secret)
  {
    if |secret| == 0 || |secret| > 256 || profile < 1 || profile > 4 {
      return false;
    }
    if profile == 2 {
      for i := 0 to |secret|
        invariant forall k :: 0 <= k < i ==> 1 <= secret[k] <= 5
      {
        if secret[i] < 1 || secret[i] > 5 {
          return false;
        }
      }
    }
    if profile == 3 || profile == 4 {
      if |secret| != 4 {
        return false;
      }
      for i := 0 to |secret|
        invariant forall k :: 0 <= k < i ==> secret[k] < if profile == 3 then 100 else 64
      {
        if secret[i] >= (if profile == 3 then 100 else 64) {
          return false;
        }
      }
    }
    ok := true;
  }

  function XorShares(a: Share, b: Share): (r: Share)
    requires |a| == |b|
    ensures |r| == |a|
  {
    seq(|a|, i requires 0 <= i < |a| => a[i] ^ b[i])
  }

  function NoShare(): (r: Share)
    ensures |r| == SHARE_BYTES
  {
    seq(SHARE_BYTES, _ => 0)
  }

  predicate AllShares(shares: seq<Share>) {
    forall i :: 0 <= i < |shares| ==> |shares[i]| == SHARE_BYTES
  }

  /** The XOR of all shares. */
  function XorAll(shares: seq<Share>): (r: Share)
    requires AllShares(shares)
    ensures |r| == SHARE_BYTES
  {
    if |shares| == 0 then NoShare() else XorShares(XorAll(shares[..|shares| - 1]), shares[|shares| - 1])
  }

  lemma XorSharesCancels(a: Share, b: Share)
    requires |a| == |b|
    ensures XorShares(XorShares(a, b), b) == a
    ensures XorShares(a, b) == XorShares(b, a)
  {
    forall i | 0 <= i < |a|
      ensures (a[i] ^ b[i]) ^ b[i] == a[i] && a[i] ^ b[i] == b[i] ^ a[i]
    {
      ByteXor(a[i], b[i]);
    }
  }

  lemma ByteXor(x: bv8, y: bv8)
    ensures (x ^ y) ^ y == x && x ^ y == y ^ x
  {
  }

  lemma XorAssociates(a: Share, b: Share, c: Share)
    requires |a| == |b| == |c|
    ensures XorShares(XorShares(a, b), c) == XorShares(a, XorShares(b, c))
  {
    forall i | 0 <= i < |a|
      ensures (a[i] ^ b[i]) ^ c[i] == a[i] ^ (b[i] ^ c[i])
    {
      ByteXorAssociates(a[i], b[i], c[i]);
    }
  }

  lemma ByteXorAssociates(x: bv8, y: bv8, z: bv8)
    ensures (x ^ y) ^ z == x ^ (y ^ z)
  {
  }

  /** Each slot wraps a share under its own layer's cipher and key. */
  predicate Wraps(h: Header, origin: Origin, shares: seq<Share>) {
    && |shares| == |h.wrapped| == h.config.volume.layers && VolumeFormat.WellTyped(h.config.volume)
    && h.config.volume.layers <= VolumeFormat.MAX_LAYERS
    && forall i :: 0 <= i < |shares| ==> h.wrapped[i] == Wrap(h.config.volume.ciphers[i], LayerKey(origin, i), shares[i])
  }

  /** The header authentically carries this key for this binding and secret. */
  ghost predicate Carries(h: Header, binding: Binding, secret: seq<byte>, vmk: Share) {
    && SecretFits(h.config.profile, secret)
    && h.tag == Mac(MacKey(OriginOf(h, binding, secret)), h.config, h.salt, h.wrapped)
    && exists shares :: AllShares(shares) && Wraps(h, OriginOf(h, binding, secret), shares) && XorAll(shares) == vmk
  }

  function OriginOf(h: Header, binding: Binding, secret: seq<byte>): Origin {
    Origin(h.config, h.salt, binding, secret)
  }

  datatype Opened = Rejected | Unsealed(vmk: Share)
  datatype Sealing = NotSealed | SealedAs(header: Header)

  /** Splits the key into one random share per layer but the last, which makes up the rest. */
  method Seal(c: Config, capacity: uint64, limits: KdfLimits, binding: Binding, secret: seq<byte>, vmk: Share,
              salt: nat, random: seq<Share>) returns (r: Sealing)
    requires |vmk| == SHARE_BYTES && AllShares(random)
    ensures r.SealedAs? ==> Parses(r.header, capacity, limits) && r.header.config == c
    ensures r.SealedAs? ==> Carries(r.header, binding, secret, vmk)
    // The first shares are the random ones.
    ensures r.SealedAs? ==> forall i :: 0 <= i < c.volume.layers - 1 ==>
              i < |random| && r.header.wrapped[i] == Wrap(c.volume.ciphers[i], LayerKey(Origin(c, salt, binding, secret), i), random[i])
    ensures ConfigValid(c, capacity, limits) && SecretFits(c.profile, secret) && |random| >= c.volume.layers - 1 ==> r.SealedAs?
  {
    var fits := CheckSecret(c.profile, secret);
    if !ConfigValid(c, capacity, limits) || !fits {
      return NotSealed;
    }
    var origin := Origin(c, salt, binding, secret);
    var last := vmk;
    var wrapped: seq<Wrapped> := [];
    ghost var shares: seq<Share> := [];
    for i := 0 to c.volume.layers
      invariant |wrapped| == |shares| == i && AllShares(shares) && |last| == SHARE_BYTES
      invariant forall k :: 0 <= k < i ==> wrapped[k] == Wrap(c.volume.ciphers[k], LayerKey(origin, k), shares[k])
      invariant forall k :: 0 <= k < i && k + 1 < c.volume.layers ==> k < |random| && shares[k] == random[k]
      invariant if i < c.volume.layers then XorShares(XorAll(shares), last) == vmk else XorAll(shares) == vmk
    {
      var share := last;
      ghost var before := last;
      if i + 1 < c.volume.layers {
        if i >= |random| {
          return NotSealed;
        }
        share := random[i];
        last := XorShares(last, share);
        XorSharesCancels(before, share);
        XorSharesCancels(last, share);
        XorAssociates(XorAll(shares), share, last);
      }
      assert (shares + [share])[..i] == shares;
      wrapped, shares := wrapped + [Wrap(c.volume.ciphers[i], LayerKey(origin, i), share)], shares + [share];
    }
    var h := Header(c, salt, wrapped, Mac(MacKey(origin), c, salt, wrapped));
    assert Wraps(h, origin, shares);
    return SealedAs(h);
  }

  /** Unwraps and recombines the shares of an authentic header. */
  method Open(h: Header, capacity: uint64, limits: KdfLimits, binding: Binding, secret: seq<byte>) returns (r: Opened)
    ensures r.Unsealed? ==> Parses(h, capacity, limits) && |r.vmk| == SHARE_BYTES && Carries(h, binding, secret, r.vmk)
    ensures Parses(h, capacity, limits) ==> forall vmk :: Carries(h, binding, secret, vmk) ==> r == Unsealed(vmk)
  {
    var fits := CheckSecret(h.config.profile, secret);
    if !Parses(h, capacity, limits) || !fits {
      return Rejected;
    }
    var origin := OriginOf(h, binding, secret);
    if h.tag != Mac(MacKey(origin), h.config, h.salt, h.wrapped) {
      return Rejected;
    }
    var candidate := NoShare();
    ghost var shares: seq<Share> := [];
    for i := 0 to h.config.volume.layers
      invariant |shares| == i && AllShares(shares) && candidate == XorAll(shares)
      invariant forall k :: 0 <= k < i ==> h.wrapped[k] == Wrap(h.config.volume.ciphers[k], LayerKey(origin, k), shares[k])
    {
      var w := h.wrapped[i];
      if w.Unwrappable? || w.cipher != h.config.volume.ciphers[i] || w.key != LayerKey(origin, i) || |w.share| != SHARE_BYTES {
        return Rejected;
      }
      assert (shares + [w.share])[..i] == shares;
      candidate, shares := XorShares(candidate, w.share), shares + [w.share];
    }
    assert Wraps(h, origin, shares);
    forall vmk | Carries(h, binding, secret, vmk)
      ensures vmk == candidate
    {
      CarriesOneKey(h, binding, secret, vmk, candidate);
    }
    return Unsealed(candidate);
  }

  lemma CarriesOneKey(h: Header, binding: Binding, secret: seq<byte>, vmk: Share, other: Share)
    requires Carries(h, binding, secret, vmk) && Carries(h, binding, secret, other)
    ensures vmk == other
  {
    var origin := OriginOf(h, binding, secret);
    var a :| AllShares(a) && Wraps(h, origin, a) && XorAll(a) == vmk;
    var b :| AllShares(b) && Wraps(h, origin, b) && XorAll(b) == other;
    assert a == b;
  }

  /** A header that opens for one binding and secret opens for no other. */
  lemma OnlyItsSecretOpens(h: Header, binding: Binding, secret: seq<byte>, vmk: Share, binding': Binding, secret': seq<byte>, vmk': Share)
    requires Carries(h, binding, secret, vmk) && Carries(h, binding', secret', vmk')
    ensures binding == binding' && secret == secret' && vmk == vmk'
  {
    CarriesOneKey(h, binding, secret, vmk, vmk');
  }
}
