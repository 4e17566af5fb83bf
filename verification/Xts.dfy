// XTS sector encryption (src/shared/crypto/cipher.c) and the ordered stack of layers over it
// (src/shared/crypto/pipeline.c), for any block cipher that can be inverted.
module Xts {
  import opened Bytes
  import opened Limits
  import opened VolumeFormat

  const SECTOR: nat := 512
  const BLOCK: nat := 16
  const MAX_STACK: nat := 4

  // ---- Bits ----------------------------------------------------------------

  function Power2(n: nat): (r: nat)
    ensures r > 0
  {
    if n == 0 then 1 else 2 * Power2(n - 1)
  }

  lemma EightBits()
    ensures Power2(8) == 256 && Power2(7) == 128
  {
    assert Power2(3) == 8 && Power2(6) == 8 * Power2(3) == 64;
  }

  /** Bit j of a. */
  predicate Bit(a: nat, j: nat) {
    if j == 0 then a % 2 == 1 else Bit(a / 2, j - 1)
  }

  /** Exclusive or of the low n bits. */
  function XorLow(a: nat, b: nat, n: nat): (r: nat)
    ensures r < Power2(n)
  {
    if n == 0 then 0 else (a + b) % 2 + 2 * XorLow(a / 2, b / 2, n - 1)
  }

  function Xor(a: byte, b: byte): byte {
    EightBits();
    XorLow(a, b, 8)
  }

  lemma {:induction false} XorLowBits(a: nat, b: nat, n: nat, j: nat)
    requires j < n
    ensures Bit(XorLow(a, b, n), j) == (Bit(a, j) != Bit(b, j))
  {
    Halved((a + b) % 2, XorLow(a / 2, b / 2, n - 1));
    if j == 0 {
      SumParity(a, b);
    } else {
      XorLowBits(a / 2, b / 2, n - 1, j - 1);
    }
  }

  lemma Halved(bit: nat, rest: nat)
    requires bit < 2
    ensures (bit + 2 * rest) / 2 == rest && (bit + 2 * rest) % 2 == bit
  {
  }

  lemma SumParity(a: nat, b: nat)
    ensures ((a + b) % 2 == 1) == ((a % 2 == 1) != (b % 2 == 1))
  {
  }

  lemma XorBits(a: byte, b: byte, j: nat)
    requires j < 8
    ensures Bit(Xor(a, b), j) == (Bit(a, j) != Bit(b, j))
  {
    XorLowBits(a, b, 8, j);
  }

  lemma {:induction false} LowBitsDetermine(a: nat, b: nat, n: nat)
    requires a < Power2(n) && b < Power2(n) && forall j: nat :: j < n ==> Bit(a, j) == Bit(b, j)
    ensures a == b
  {
    if n > 0 {
      assert Bit(a, 0) == Bit(b, 0);
      forall j: nat | j < n - 1
        ensures Bit(a / 2, j) == Bit(b / 2, j)
      {
        assert Bit(a, j + 1) == Bit(b, j + 1);
      }
      LowBitsDetermine(a / 2, b / 2, n - 1);
    }
  }

  lemma BitsDetermine(a: byte, b: byte)
    requires forall j: nat :: j < 8 ==> Bit(a, j) == Bit(b, j)
    ensures a == b
  {
    EightBits();
    LowBitsDetermine(a, b, 8);
  }

  lemma XorCancels(a: byte, b: byte)
    ensures Xor(Xor(a, b), b) == a
  {
    hide Bit, Xor;
    forall j: nat | j < 8
      ensures Bit(Xor(Xor(a, b), b), j) == Bit(a, j)
    {
      XorBits(a, b, j);
      XorBits(Xor(a, b), b, j);
    }
    BitsDetermine(Xor(Xor(a, b), b), a);
  }

  /** The byte shifted left with a carry shifted in. */
  function ShiftIn(a: byte, carry: bool): byte {
    (2 * a + (if carry then 1 else 0)) % 256
  }

  lemma {:induction false} BitsBelow(a: nat, n: nat, i: nat)
    requires a >= Power2(n) && i < n
    ensures Bit(a - Power2(n), i) == Bit(a, i)
  {
    var half := Power2(n - 1);
    assert (a - 2 * half) / 2 == a / 2 - half && (a - 2 * half) % 2 == a % 2;
    if i > 0 {
      BitsBelow(a / 2, n - 1, i - 1);
    }
  }

  lemma ShiftBits(a: byte, carry: bool, j: nat)
    requires j < 8
    ensures Bit(ShiftIn(a, carry), j) == if j == 0 then carry else Bit(a, j - 1)
  {
    var low, c := if a < 128 then a else a - 128, if carry then 1 else 0;
    assert ShiftIn(a, carry) == 2 * low + c && (2 * low + c) / 2 == low && (2 * low + c) % 2 == c;
    if j > 0 && a >= 128 {
      EightBits();
      BitsBelow(a, 7, j - 1);
    }
  }

  /** The low byte of the field's reduction polynomial: x^7 + x^2 + x + 1. */
  lemma ReductionByte(j: nat)
    requires j < 8
    ensures Bit(0x87, j) == (j in {0, 1, 2, 7})
    ensures !Bit(0, j)
  {
    NoBits(j);
    var a := 0x87;
    assert Bit(a, 0) && Bit(a / 2, 0) && Bit(a / 4, 0) && !Bit(a / 8, 0) && !Bit(a / 16, 0) && !Bit(a / 32, 0);
    assert !Bit(a / 64, 0) && Bit(a / 128, 0);
    assert Bit(a / 4, 1) == Bit(a / 8, 0) && Bit(a / 4, 2) == Bit(a / 8, 1) == Bit(a / 16, 0);
    assert Bit(a / 32, 1) == Bit(a / 64, 0) && Bit(a / 32, 2) == Bit(a / 64, 1) == Bit(a / 128, 0);
    assert Bit(a, j) == if j >= 5 then Bit(a / 32, j - 5) else if j >= 2 then Bit(a / 4, j - 2) else Bit(a, j) by {
      if j >= 2 {
        assert Bit(a, j) == Bit(a / 2, j - 1) == Bit(a / 4, j - 2);
        if j >= 5 {
          assert Bit(a / 4, j - 2) == Bit(a / 8, j - 3) == Bit(a / 16, j - 4) == Bit(a / 32, j - 5);
        }
      }
    }
  }

  lemma {:induction false} NoBits(j: nat)
    ensures !Bit(0, j)
  {
    if j > 0 {
      NoBits(j - 1);
    }
  }

  // ---- GF(2^128) -----------------------------------------------------------

  /** A block as a polynomial: coefficient k is bit k % 8 of byte k / 8. */
  function Poly(t: seq<byte>): (p: seq<bool>)
    requires |t| == BLOCK
    ensures |p| == 128
  {
    seq(128, k requires 0 <= k < 128 => Bit(t[k / 8], k % 8))
  }

  predicate Modulus(k: nat) {
    k in {0, 1, 2, 7, 128}
  }

  /** Multiply by x and reduce modulo x^128 + x^7 + x^2 + x + 1. */
  function TimesAlpha(p: seq<bool>): (r: seq<bool>)
    requires |p| == 128
    ensures |r| == 128
  {
    var shifted := [false] + p;
    if shifted[128] then seq(128, k requires 0 <= k < 128 => shifted[k] != Modulus(k)) else shifted[..128]
  }

  function TimesAlphaPower(p: seq<bool>, n: nat): (r: seq<bool>)
    requires |p| == 128
    ensures |r| == 128
  {
    if n == 0 then p else TimesAlpha(TimesAlphaPower(p, n - 1))
  }

  /** The bit shifted into byte k. */
  predicate CarryInto(t: seq<byte>, k: nat)
    requires k <= |t|
  {
    k > 0 && Bit(t[k - 1], 7)
  }

  predicate DoubledBytes(was: seq<byte>, t: seq<byte>) {
    && |was| == |t| == BLOCK
    && t[0] == Xor(ShiftIn(was[0], CarryInto(was, 0)), if CarryInto(was, 16) then 0x87 else 0)
    && forall k :: 1 <= k < BLOCK ==> t[k] == ShiftIn(was[k], CarryInto(was, k))
  }

  /** The byte-carry loop. */
  method Double(t: array<byte>)
    requires t.Length == BLOCK
    modifies t
    ensures DoubledBytes(old(t[..]), t[..])
  {
    hide Bit, ShiftIn, Xor;
    ghost var was := t[..];
    var carry := false;
    for i := 0 to BLOCK
      invariant carry == CarryInto(was, i)
      invariant forall k :: i <= k < BLOCK ==> t[k] == was[k]
      invariant forall k :: 0 <= k < i ==> t[k] == ShiftIn(was[k], CarryInto(was, k))
    {
      var next := Bit(t[i], 7);
      t[i] := ShiftIn(t[i], carry);
      carry := next;
    }
    t[0] := Xor(t[0], if carry then 0x87 else 0);
  }

  lemma DoubledBit(was: seq<byte>, t: seq<byte>, i: nat, j: nat)
    requires DoubledBytes(was, t) && i < BLOCK && j < 8
    ensures Bit(t[i], j)
         == ((if j == 0 then CarryInto(was, i) else Bit(was[i], j - 1)) != (i == 0 && CarryInto(was, 16) && j in {0, 1, 2, 7}))
  {
    hide Bit, ShiftIn, Xor;
    ReductionByte(j);
    ShiftBits(was[i], CarryInto(was, i), j);
    if i == 0 {
      XorBits(ShiftIn(was[0], CarryInto(was, 0)), if CarryInto(was, 16) then 0x87 else 0, j);
    }
  }

  lemma PolyAt(t: seq<byte>, k: nat)
    requires |t| == BLOCK && k < 128
    ensures Poly(t)[k] == Bit(t[k / 8], k % 8)
    ensures k > 0 ==> Poly(t)[k - 1] == if k % 8 == 0 then CarryInto(t, k / 8) else Bit(t[k / 8], k % 8 - 1)
    ensures Poly(t)[127] == CarryInto(t, 16)
  {
    hide Bit;
    if k > 0 {
      var h := k - 1;
      assert Poly(t)[h] == Bit(t[h / 8], h % 8);
    }
  }

  lemma TimesAlphaAt(p: seq<bool>, k: nat)
    requires |p| == 128 && k < 128
    ensures TimesAlpha(p)[k] == ((k > 0 && p[k - 1]) != (p[127] && k in {0, 1, 2, 7}))
  {
  }

  /** The byte-carry loop multiplies by alpha. */
  lemma Doubled(was: seq<byte>, t: seq<byte>)
    requires DoubledBytes(was, t)
    ensures Poly(t) == TimesAlpha(Poly(was))
  {
    hide Bit, Xor, ShiftIn, TimesAlpha, Poly, CarryInto;
    forall k: nat | k < 128
      ensures Poly(t)[k] == TimesAlpha(Poly(was))[k]
    {
      PolyAt(t, k);
      PolyAt(was, k);
      TimesAlphaAt(Poly(was), k);
      DoubledBit(was, t, k / 8, k % 8);
      NoCarryIn(was);
    }
  }

  lemma NoCarryIn(t: seq<byte>)
    ensures !CarryInto(t, 0)
  {
  }

  // ---- One layer -----------------------------------------------------------

  /** A keyed block cipher and the encryption of tweaks under its second key. */
  datatype Cipher = Cipher(encrypt: seq<byte> -> seq<byte>, decrypt: seq<byte> -> seq<byte>, tweak: seq<byte> -> seq<byte>)

  predicate InvertsAt(c: Cipher, b: seq<byte>) {
    && |c.encrypt(b)| == |c.decrypt(b)| == |c.tweak(b)| == BLOCK
    && c.decrypt(c.encrypt(b)) == b && c.encrypt(c.decrypt(b)) == b
  }

  ghost predicate Lawful(c: Cipher) {
    forall b: seq<byte> {:trigger InvertsAt(c, b)} :: |b| == BLOCK ==> InvertsAt(c, b)
  }

  function XorBlocks(a: seq<byte>, b: seq<byte>): (r: seq<byte>)
    requires |a| == |b| == BLOCK
    ensures |r| == BLOCK && forall i :: 0 <= i < BLOCK ==> r[i] == Xor(a[i], b[i])
  {
    var r := seq(BLOCK, i requires 0 <= i < BLOCK => Xor(a[i], b[i]));
    assert forall i :: 0 <= i < |r| ==> r[i] == Xor(a[i], b[i]);
    r
  }

  lemma XorBlocksCancel(a: seq<byte>, b: seq<byte>)
    requires |a| == |b| == BLOCK
    ensures XorBlocks(XorBlocks(a, b), b) == a
  {
    hide Xor;
    forall i | 0 <= i < BLOCK
      ensures XorBlocks(XorBlocks(a, b), b)[i] == a[i]
    {
      XorCancels(a[i], b[i]);
    }
  }

  /** The byte-carry successor of a tweak. */
  function Next(t: seq<byte>): (r: seq<byte>)
    requires |t| == BLOCK
    ensures DoubledBytes(t, r)
  {
    var r := seq(BLOCK, k requires 0 <= k < BLOCK =>
      if k == 0 then Xor(ShiftIn(t[0], CarryInto(t, 0)), if CarryInto(t, 16) then 0x87 else 0) else ShiftIn(t[k], CarryInto(t, k)));
    assert forall k :: 0 <= k < BLOCK ==> 0 <= r[k] < 256;
    r
  }

  /** The data-unit number, little-endian in a block. */
  function Unit(lba: uint64): (r: seq<byte>)
    ensures |r| == BLOCK
  {
    Little(lba, 8) + Zeros(8)
  }

  function TweakAt(c: Cipher, lba: uint64, j: nat): seq<byte>
    requires |c.tweak(Unit(lba))| == BLOCK
    ensures |TweakAt(c, lba, j)| == BLOCK
  {
    if j == 0 then c.tweak(Unit(lba)) else Next(TweakAt(c, lba, j - 1))
  }

  /** The tweak of block j is the sector's tweak times alpha to the j. */
  lemma {:induction false} TweakIsPower(c: Cipher, lba: uint64, j: nat)
    requires |c.tweak(Unit(lba))| == BLOCK
    ensures Poly(TweakAt(c, lba, j)) == TimesAlphaPower(Poly(c.tweak(Unit(lba))), j)
  {
    hide DoubledBytes, TimesAlpha, Next;
    if j > 0 {
      TweakIsPower(c, lba, j - 1);
      Doubled(TweakAt(c, lba, j - 1), TweakAt(c, lba, j));
    }
  }

  function Direction(c: Cipher, enc: bool): seq<byte> -> seq<byte> {
    if enc then c.encrypt else c.decrypt
  }

  function CryptBlock(c: Cipher, b: seq<byte>, t: seq<byte>, enc: bool): (r: seq<byte>)
    requires |b| == |t| == BLOCK
    ensures |r| == BLOCK
  {
    var x := Direction(c, enc)(XorBlocks(b, t));
    if |x| == BLOCK then XorBlocks(x, t) else t
  }

  lemma BlockRoundTrip(c: Cipher, b: seq<byte>, t: seq<byte>, enc: bool)
    requires Lawful(c) && |b| == |t| == BLOCK
    ensures CryptBlock(c, CryptBlock(c, b, t, enc), t, !enc) == b
  {
    hide Xor;
    assert InvertsAt(c, XorBlocks(b, t));
    XorBlocksCancel(Direction(c, enc)(XorBlocks(b, t)), t);
    XorBlocksCancel(b, t);
  }

  function BlockOf(data: seq<byte>, j: nat): (b: seq<byte>)
    requires |data| == SECTOR && j < 32
    ensures |b| == BLOCK
  {
    data[BLOCK * j..BLOCK * j + BLOCK]
  }

  /** Byte i of what one layer makes of a sector. */
  function CryptByte(c: Cipher, lba: uint64, data: seq<byte>, enc: bool, i: nat): byte
    requires |data| == SECTOR && |c.tweak(Unit(lba))| == BLOCK && i < SECTOR
  {
    CryptBlock(c, BlockOf(data, i / BLOCK), TweakAt(c, lba, i / BLOCK), enc)[i % BLOCK]
  }

  function CryptSector(c: Cipher, lba: uint64, data: seq<byte>, enc: bool): (r: seq<byte>)
    requires |data| == SECTOR && |c.tweak(Unit(lba))| == BLOCK
    ensures |r| == SECTOR && forall i :: 0 <= i < SECTOR ==> r[i] == CryptByte(c, lba, data, enc, i)
  {
    var r := seq(SECTOR, i requires 0 <= i < SECTOR => CryptByte(c, lba, data, enc, i));
    assert forall i :: 0 <= i < SECTOR ==> r[i] == CryptByte(c, lba, data, enc, i);
    r
  }

  lemma CryptedBlock(c: Cipher, lba: uint64, data: seq<byte>, enc: bool, j: nat)
    requires |data| == SECTOR && |c.tweak(Unit(lba))| == BLOCK && j < 32
    ensures BlockOf(CryptSector(c, lba, data, enc), j) == CryptBlock(c, BlockOf(data, j), TweakAt(c, lba, j), enc)
  {
    hide CryptBlock, TweakAt;
    var s := CryptSector(c, lba, data, enc);
    forall k | 0 <= k < BLOCK
      ensures BlockOf(s, j)[k] == CryptBlock(c, BlockOf(data, j), TweakAt(c, lba, j), enc)[k]
    {
      var i := BLOCK * j + k;
      assert i / BLOCK == j && i % BLOCK == k && BlockOf(s, j)[k] == s[i] == CryptByte(c, lba, data, enc, i);
    }
  }

  // ---- What that is, in the terms of section 5.3 of IEEE 1619-2007 ----------

  /** t is the data-unit number as a little-endian block. */
  predicate IsUnit(t: seq<byte>, lba: nat) {
    |t| == BLOCK && Value(t[..8]) == lba && forall k :: 8 <= k < BLOCK ==> t[k] == 0
  }

  /** There is one such block, and no two sectors share it. */
  lemma UnitIsNumber(lba: uint64, t: seq<byte>)
    ensures t == Unit(lba) <==> IsUnit(t, lba)
  {
    Powers();
    ValueOfLittle(lba, 8);
    assert Unit(lba)[..8] == Little(lba, 8);
    if IsUnit(t, lba) {
      LittleOfValue(t[..8]);
      assert t == t[..8] + t[8..] && t[8..] == Zeros(8);
    }
  }

  /** w is the tweak first times alpha to the j. */
  ghost predicate IsTweak(w: seq<byte>, first: seq<byte>, j: nat) {
    |w| == |first| == BLOCK && Poly(w) == TimesAlphaPower(Poly(first), j)
  }

  lemma PolyDetermines(a: seq<byte>, b: seq<byte>)
    requires |a| == |b| == BLOCK && Poly(a) == Poly(b)
    ensures a == b
  {
    hide Bit;
    forall i | 0 <= i < BLOCK
      ensures a[i] == b[i]
    {
      forall j: nat | j < 8
        ensures Bit(a[i], j) == Bit(b[i], j)
      {
        var k := 8 * i + j;
        assert k / 8 == i && k % 8 == j && Poly(a)[k] == Poly(b)[k];
      }
      BitsDetermine(a[i], b[i]);
    }
  }

  predicate Xored(a: seq<byte>, b: seq<byte>, w: seq<byte>) {
    |a| == |b| == |w| == BLOCK && forall i :: 0 <= i < BLOCK ==> a[i] == Xor(b[i], w[i])
  }

  /** Each block is masked with its tweak, enciphered or deciphered, and masked again. */
  ghost predicate IsXts(c: Cipher, lba: nat, data: seq<byte>, r: seq<byte>, enc: bool) {
    && |data| == |r| == SECTOR
    && forall t, j: nat, w, x :: IsUnit(t, lba) && j < 32 && IsTweak(w, c.tweak(t), j) && Xored(x, BlockOf(data, j), w) ==>
         Xored(BlockOf(r, j), if enc then c.encrypt(x) else c.decrypt(x), w)
  }

  /** That leaves nothing open: a sector has one result. */
  lemma XtsIsOne(c: Cipher, lba: uint64, data: seq<byte>, r: seq<byte>, q: seq<byte>, enc: bool)
    requires Lawful(c) && IsXts(c, lba, data, r, enc) && IsXts(c, lba, data, q, enc)
    ensures r == q
  {
    hide Xor, CryptSector, TweakAt, Poly, TimesAlphaPower, BlockOf, IsUnit, Lawful;
    var t := Unit(lba);
    UnitTweaks(c, lba);
    UnitIsNumber(lba, t);
    forall j: nat | j < 32
      ensures BlockOf(r, j) == BlockOf(q, j)
    {
      var w := TweakAt(c, lba, j);
      TweakIsPower(c, lba, j);
      var x := XorBlocks(BlockOf(data, j), w);
      assert Xored(x, BlockOf(data, j), w);
      assert IsTweak(w, c.tweak(t), j);
      var y := if enc then c.encrypt(x) else c.decrypt(x);
      assert Xored(BlockOf(r, j), y, w) && Xored(BlockOf(q, j), y, w);
    }
    BlocksDetermine(r, q);
  }

  /** Different sectors have different units. */
  lemma SectorsDiffer(a: uint64, b: uint64)
    ensures Unit(a) == Unit(b) <==> a == b
  {
    UnitIsNumber(a, Unit(a));
    UnitIsNumber(b, Unit(b));
  }

  lemma CryptIsXts(c: Cipher, lba: uint64, data: seq<byte>, enc: bool)
    requires |data| == SECTOR && Lawful(c) && |c.tweak(Unit(lba))| == BLOCK
    ensures IsXts(c, lba, data, CryptSector(c, lba, data, enc), enc)
  {
    hide Xor, CryptSector, TweakAt, Poly, TimesAlphaPower, BlockOf, IsUnit;
    var r := CryptSector(c, lba, data, enc);
    forall t, j: nat, w, x | IsUnit(t, lba) && j < 32 && IsTweak(w, c.tweak(t), j) && Xored(x, BlockOf(data, j), w)
      ensures Xored(BlockOf(r, j), if enc then c.encrypt(x) else c.decrypt(x), w)
    {
      UnitIsNumber(lba, t);
      TweakIsPower(c, lba, j);
      PolyDetermines(w, TweakAt(c, lba, j));
      CryptedBlock(c, lba, data, enc, j);
      assert x == XorBlocks(BlockOf(data, j), w);
      assert InvertsAt(c, x);
    }
  }

  /** One layer undoes itself, in either order. */
  lemma SectorRoundTrip(c: Cipher, lba: uint64, data: seq<byte>, enc: bool)
    requires |data| == SECTOR && Lawful(c) && |c.tweak(Unit(lba))| == BLOCK
    ensures CryptSector(c, lba, CryptSector(c, lba, data, enc), !enc) == data
  {
    hide Lawful, BlockOf, CryptSector, TweakAt;
    var there := CryptSector(c, lba, data, enc);
    forall j: nat | j < 32 {
      BlockBack(c, lba, data, enc, j);
    }
    BlocksDetermine(CryptSector(c, lba, there, !enc), data);
  }

  lemma BlockBack(c: Cipher, lba: uint64, data: seq<byte>, enc: bool, j: nat)
    requires |data| == SECTOR && Lawful(c) && |c.tweak(Unit(lba))| == BLOCK && j < 32
    ensures BlockOf(CryptSector(c, lba, CryptSector(c, lba, data, enc), !enc), j) == BlockOf(data, j)
  {
    hide CryptBlock, BlockOf, CryptSector, TweakAt, Lawful;
    CryptedBlock(c, lba, data, enc, j);
    CryptedBlock(c, lba, CryptSector(c, lba, data, enc), !enc, j);
    BlockRoundTrip(c, BlockOf(data, j), TweakAt(c, lba, j), enc);
  }

  lemma BlocksDetermine(a: seq<byte>, b: seq<byte>)
    requires |a| == |b| == SECTOR && forall j: nat :: j < 32 ==> BlockOf(a, j) == BlockOf(b, j)
    ensures a == b
  {
    forall i | 0 <= i < SECTOR
      ensures a[i] == b[i]
    {
      var j := i / BLOCK;
      assert BlockOf(a, j)[i % BLOCK] == a[i] && BlockOf(b, j)[i % BLOCK] == b[i];
    }
  }

  lemma DoublingIsNext(t: seq<byte>, r: seq<byte>)
    requires DoubledBytes(t, r)
    ensures r == Next(t)
  {
    hide Bit, ShiftIn, Xor;
  }

  predicate Overlap(a: nat, b: nat) {
    a != b && (if a > b then a - b else b - a) < SECTOR
  }

  /** Encrypt or decrypt one sector in place or between disjoint buffers. */
  method Crypt(c: Cipher, lba: uint64, input: array<byte>, at: nat, output: array<byte>, to: nat, enc: bool) returns (ok: bool)
    requires Lawful(c) && at + SECTOR <= input.Length && to + SECTOR <= output.Length
    modifies output
    ensures |c.tweak(Unit(lba))| == BLOCK
    ensures ok <==> !(input == output && Overlap(at, to))
    ensures ok <==> input != output || at == to || at + SECTOR <= to || to + SECTOR <= at
    ensures ok ==> output[to..to + SECTOR] == CryptSector(c, lba, old(input[at..at + SECTOR]), enc)
    ensures ok ==> IsXts(c, lba, old(input[at..at + SECTOR]), output[to..to + SECTOR], enc)
    ensures forall i :: 0 <= i < output.Length && !(ok && to <= i < to + SECTOR) ==> output[i] == old(output[i])
  {
    hide CryptSector, Lawful, TweakAt, CryptByte, IsXts;
    UnitTweaks(c, lba);
    if input == output && Overlap(at, to) {
      return false;
    }
    ghost var data := input[at..at + SECTOR];
    var tweak := new byte[BLOCK];
    LoadTweak(c, lba, tweak);
    for j := 0 to 32
      invariant tweak[..] == TweakAt(c, lba, j)
      invariant forall i :: BLOCK * j <= i < SECTOR ==> input[at + i] == data[i]
      invariant forall i :: 0 <= i < BLOCK * j ==> output[to + i] == CryptByte(c, lba, data, enc, i)
      invariant forall i :: 0 <= i < output.Length && !(to <= i < to + SECTOR) ==> output[i] == old(output[i])
    {
      CryptNth(c, lba, data, j, input, at, output, to, tweak, enc);
    }
    Crypted(c, lba, data, enc, output[to..to + SECTOR]);
    CryptIsXts(c, lba, data, enc);
    ok := true;
  }

  /** Transform block j and move the tweak on. */
  method CryptNth(c: Cipher, lba: uint64, ghost data: seq<byte>, j: nat, input: array<byte>, at: nat,
                  output: array<byte>, to: nat, tweak: array<byte>, enc: bool)
    requires Lawful(c) && at + SECTOR <= input.Length && to + SECTOR <= output.Length && j < 32
    requires |data| == SECTOR && |c.tweak(Unit(lba))| == BLOCK
    requires tweak.Length == BLOCK && tweak != output && tweak != input && tweak[..] == TweakAt(c, lba, j)
    requires forall i :: BLOCK * j <= i < BLOCK * j + BLOCK ==> input[at + i] == data[i]
    modifies output, tweak
    ensures tweak[..] == TweakAt(c, lba, j + 1)
    ensures forall i :: BLOCK * j <= i < BLOCK * j + BLOCK ==> output[to + i] == CryptByte(c, lba, data, enc, i)
    ensures forall i :: 0 <= i < output.Length && !(to + BLOCK * j <= i < to + BLOCK * j + BLOCK) ==> output[i] == old(output[i])
  {
    hide Lawful, CryptBlock, TweakAt, Next;
    ghost var t := tweak[..];
    assert input[at + BLOCK * j..at + BLOCK * j + BLOCK] == BlockOf(data, j);
    CryptOne(c, input, at + BLOCK * j, output, to + BLOCK * j, tweak, enc);
    ghost var x := CryptBlock(c, BlockOf(data, j), t, enc);
    forall i | BLOCK * j <= i < BLOCK * j + BLOCK
      ensures output[to + i] == CryptByte(c, lba, data, enc, i)
    {
      assert i / BLOCK == j && i % BLOCK == i - BLOCK * j;
      assert output[to + i] == output[to + BLOCK * j..to + BLOCK * j + BLOCK][i - BLOCK * j] == x[i - BLOCK * j];
    }
    Double(tweak);
    DoublingIsNext(t, tweak[..]);
    NextTweak(c, lba, j);
  }

  lemma UnitTweaks(c: Cipher, lba: uint64)
    requires Lawful(c)
    ensures |c.tweak(Unit(lba))| == BLOCK
  {
    assert InvertsAt(c, Unit(lba));
  }

  lemma NextTweak(c: Cipher, lba: uint64, j: nat)
    requires |c.tweak(Unit(lba))| == BLOCK
    ensures TweakAt(c, lba, j + 1) == Next(TweakAt(c, lba, j))
  {
  }

  lemma Crypted(c: Cipher, lba: uint64, data: seq<byte>, enc: bool, r: seq<byte>)
    requires |data| == |r| == SECTOR && |c.tweak(Unit(lba))| == BLOCK
    requires forall i :: 0 <= i < SECTOR ==> r[i] == CryptByte(c, lba, data, enc, i)
    ensures r == CryptSector(c, lba, data, enc)
  {
    hide CryptByte;
  }

  method LoadTweak(c: Cipher, lba: uint64, tweak: array<byte>)
    requires |c.tweak(Unit(lba))| == BLOCK && tweak.Length == BLOCK
    modifies tweak
    ensures tweak[..] == TweakAt(c, lba, 0)
  {
    var t := c.tweak(Unit(lba));
    for i := 0 to BLOCK
      invariant forall k :: 0 <= k < i ==> tweak[k] == t[k]
    {
      tweak[i] := t[i];
    }
  }

  /** One block: mask, transform, mask. */
  method CryptOne(c: Cipher, input: array<byte>, at: nat, output: array<byte>, to: nat, tweak: array<byte>, enc: bool)
    requires Lawful(c) && at + BLOCK <= input.Length && to + BLOCK <= output.Length
    requires tweak.Length == BLOCK && tweak != output && tweak != input
    modifies output
    ensures output[to..to + BLOCK] == CryptBlock(c, old(input[at..at + BLOCK]), tweak[..], enc)
    ensures forall i :: 0 <= i < output.Length && !(to <= i < to + BLOCK) ==> output[i] == old(output[i])
  {
    hide Xor;
    ghost var t, plain := tweak[..], input[at..at + BLOCK];
    var block := new byte[BLOCK];
    for i := 0 to BLOCK
      modifies block
      invariant forall k :: 0 <= k < i ==> block[k] == Xor(input[at + k], tweak[k])
    {
      block[i] := Xor(input[at + i], tweak[i]);
    }
    assert block[..] == XorBlocks(plain, t);
    var b := block[..];
    assert InvertsAt(c, b);
    var x := Direction(c, enc)(b);
    assert |x| == BLOCK;
    for i := 0 to BLOCK
      modifies output
      invariant forall k :: 0 <= k < i ==> output[to + k] == Xor(x[k], tweak[k])
      invariant forall k :: 0 <= k < output.Length && !(to <= k < to + BLOCK) ==> output[k] == old(output[k])
    {
      output[to + i] := Xor(x[i], tweak[i]);
    }
    assert output[to..to + BLOCK] == XorBlocks(x, t) == CryptBlock(c, plain, t, enc);
  }

  // ---- The stack of layers -------------------------------------------------

  ghost predicate StackLawful(layers: seq<Cipher>) {
    forall i :: 0 <= i < |layers| ==> Lawful(layers[i])
  }

  /** s are the stages of a sector on its way through the layers, the last one first to decrypt. */
  ghost predicate Stages(layers: seq<Cipher>, lba: nat, s: seq<seq<byte>>, enc: bool) {
    && |s| == |layers| + 1
    && forall i: nat :: i < |layers| ==> IsXts(layers[if enc then i else |layers| - 1 - i], lba, s[i], s[i + 1], enc)
  }

  /** r is data after all layers. */
  ghost predicate Layered(layers: seq<Cipher>, lba: nat, data: seq<byte>, r: seq<byte>, enc: bool) {
    exists s :: Stages(layers, lba, s, enc) && s[0] == data && s[|layers|] == r
  }

  lemma {:induction false} EncryptedIsLayered(layers: seq<Cipher>, lba: uint64, data: seq<byte>)
    requires StackLawful(layers) && |data| == SECTOR
    ensures Layered(layers, lba, data, Encrypted(layers, lba, data), true)
  {
    hide IsXts, CryptSector, Lawful;
    if |layers| == 0 {
      assert Stages(layers, lba, [data], true);
    } else {
      var n := |layers| - 1;
      var before := Encrypted(layers[..n], lba, data);
      EncryptedIsLayered(layers[..n], lba, data);
      var s :| Stages(layers[..n], lba, s, true) && s[0] == data && s[n] == before;
      UnitTweaks(layers[n], lba);
      CryptIsXts(layers[n], lba, before, true);
      var t := s + [CryptSector(layers[n], lba, before, true)];
      forall i: nat | i < |layers|
        ensures IsXts(layers[i], lba, t[i], t[i + 1], true)
      {
        assert i < n ==> layers[..n][i] == layers[i] && IsXts(layers[..n][i], lba, s[i], s[i + 1], true);
      }
      assert Stages(layers, lba, t, true);
    }
  }

  lemma {:induction false} DecryptedIsLayered(layers: seq<Cipher>, lba: uint64, data: seq<byte>)
    requires StackLawful(layers) && |data| == SECTOR
    ensures Layered(layers, lba, data, Decrypted(layers, lba, data), false)
  {
    hide IsXts, CryptSector, Lawful;
    if |layers| == 0 {
      assert Stages(layers, lba, [data], false);
    } else {
      var n := |layers| - 1;
      UnitTweaks(layers[n], lba);
      var next := CryptSector(layers[n], lba, data, false);
      CryptIsXts(layers[n], lba, data, false);
      DecryptedIsLayered(layers[..n], lba, next);
      var s :| Stages(layers[..n], lba, s, false) && s[0] == next && s[n] == Decrypted(layers[..n], lba, next);
      var t := [data] + s;
      forall i: nat | i < |layers|
        ensures IsXts(layers[n - i], lba, t[i], t[i + 1], false)
      {
        assert i > 0 ==> layers[..n][n - 1 - (i - 1)] == layers[n - i] && IsXts(layers[..n][n - 1 - (i - 1)], lba, s[i - 1], s[i - 1 + 1], false);
      }
      assert Stages(layers, lba, t, false);
    }
  }

  /** The first n layers applied in order. */
  ghost function Encrypted(layers: seq<Cipher>, lba: uint64, data: seq<byte>): (r: seq<byte>)
    requires StackLawful(layers) && |data| == SECTOR
    ensures |r| == SECTOR
  {
    if |layers| == 0 then data
    else
      UnitTweaks(layers[|layers| - 1], lba);
      CryptSector(layers[|layers| - 1], lba, Encrypted(layers[..|layers| - 1], lba, data), true)
  }

  /** The layers undone from the last to the first. */
  ghost function Decrypted(layers: seq<Cipher>, lba: uint64, data: seq<byte>): (r: seq<byte>)
    requires StackLawful(layers) && |data| == SECTOR
    ensures |r| == SECTOR
  {
    if |layers| == 0 then data
    else
      UnitTweaks(layers[|layers| - 1], lba);
      Decrypted(layers[..|layers| - 1], lba, CryptSector(layers[|layers| - 1], lba, data, false))
  }

  /** Decryption inverts encryption, and encryption decryption, for every stack. */
  lemma {:induction false} StackRoundTrip(layers: seq<Cipher>, lba: uint64, data: seq<byte>)
    requires StackLawful(layers) && |data| == SECTOR
    ensures Decrypted(layers, lba, Encrypted(layers, lba, data)) == data
    ensures Encrypted(layers, lba, Decrypted(layers, lba, data)) == data
  {
    hide CryptSector, Lawful;
    if |layers| > 0 {
      var last, rest := layers[|layers| - 1], layers[..|layers| - 1];
      UnitTweaks(last, lba);
      StackRoundTrip(rest, lba, data);
      SectorRoundTrip(last, lba, Encrypted(rest, lba, data), true);
      StackRoundTrip(rest, lba, CryptSector(last, lba, data, false));
      SectorRoundTrip(last, lba, data, false);
    }
  }

  /** now is data after i layers. */
  ghost predicate Progress(layers: seq<Cipher>, lba: uint64, data: seq<byte>, now: seq<byte>, i: nat, enc: bool)
    requires StackLawful(layers)
  {
    && |now| == |data| == SECTOR && i <= |layers|
    && (if enc then now == Encrypted(layers[..i], lba, data)
        else Decrypted(layers[..|layers| - i], lba, now) == Decrypted(layers, lba, data))
  }

  lemma ProgressStarts(layers: seq<Cipher>, lba: uint64, data: seq<byte>, enc: bool)
    requires StackLawful(layers) && |data| == SECTOR
    ensures Progress(layers, lba, data, data, 0, enc)
  {
    NoLayers(layers, lba, data);
  }

  lemma ProgressStep(layers: seq<Cipher>, lba: uint64, data: seq<byte>, now: seq<byte>, i: nat, enc: bool)
    requires StackLawful(layers) && i < |layers| && Progress(layers, lba, data, now, i, enc)
    requires var c := layers[if enc then i else |layers| - 1 - i]; |c.tweak(Unit(lba))| == BLOCK
    ensures var c := layers[if enc then i else |layers| - 1 - i];
      |now| == SECTOR && Progress(layers, lba, data, CryptSector(c, lba, now, enc), i + 1, enc)
  {
    hide CryptSector, Lawful, Encrypted, Decrypted;
    if enc {
      OneMore(layers, lba, data, i);
    } else {
      OneLess(layers, lba, now, |layers| - i);
    }
  }

  lemma ProgressEnds(layers: seq<Cipher>, lba: uint64, data: seq<byte>, now: seq<byte>, enc: bool)
    requires StackLawful(layers) && Progress(layers, lba, data, now, |layers|, enc)
    ensures |data| == SECTOR && now == if enc then Encrypted(layers, lba, data) else Decrypted(layers, lba, data)
  {
    NoLayers(layers, lba, now);
  }

  /** Run the stack over one sector; only the first layer reads the input. */
  method Run(layers: seq<Cipher>, lba: uint64, input: array<byte>, at: nat, output: array<byte>, to: nat, enc: bool)
    returns (ok: bool)
    requires StackLawful(layers) && at + SECTOR <= input.Length && to + SECTOR <= output.Length
    modifies output
    ensures ok <==> 0 < |layers| <= MAX_STACK && !(input == output && Overlap(at, to))
    ensures ok && enc ==> output[to..to + SECTOR] == Encrypted(layers, lba, old(input[at..at + SECTOR]))
    ensures ok && !enc ==> output[to..to + SECTOR] == Decrypted(layers, lba, old(input[at..at + SECTOR]))
    ensures ok ==> Layered(layers, lba, old(input[at..at + SECTOR]), output[to..to + SECTOR], enc)
    ensures forall i :: 0 <= i < output.Length && !(ok && to <= i < to + SECTOR) ==> output[i] == old(output[i])
  {
    hide CryptSector, Lawful, Encrypted, Decrypted, Progress, Layered;
    ghost var data := input[at..at + SECTOR];
    EncryptedIsLayered(layers, lba, data);
    DecryptedIsLayered(layers, lba, data);
    var n := |layers|;
    if n == 0 || n > MAX_STACK {
      return false;
    }
    ProgressStarts(layers, lba, data, enc);
    var first := if enc then 0 else n - 1;
    ok := Crypt(layers[first], lba, input, at, output, to, enc);
    if !ok {
      return;
    }
    ProgressStep(layers, lba, data, data, 0, enc);
    for i := 1 to n
      invariant Progress(layers, lba, data, output[to..to + SECTOR], i, enc)
      invariant forall k :: 0 <= k < output.Length && !(to <= k < to + SECTOR) ==> output[k] == old(output[k])
    {
      var index := if enc then i else n - 1 - i;
      ghost var now := output[to..to + SECTOR];
      ok := Crypt(layers[index], lba, output, to, output, to, enc);
      ProgressStep(layers, lba, data, now, i, enc);
    }
    ProgressEnds(layers, lba, data, output[to..to + SECTOR], enc);
    ok := true;
  }

  lemma NoLayers(layers: seq<Cipher>, lba: uint64, data: seq<byte>)
    requires StackLawful(layers) && |data| == SECTOR
    ensures Encrypted(layers[..0], lba, data) == Decrypted(layers[..0], lba, data) == data
    ensures layers[..|layers|] == layers
  {
  }

  lemma OneMore(layers: seq<Cipher>, lba: uint64, data: seq<byte>, i: nat)
    requires StackLawful(layers) && |data| == SECTOR && i < |layers| && |layers[i].tweak(Unit(lba))| == BLOCK
    ensures Encrypted(layers[..i + 1], lba, data) == CryptSector(layers[i], lba, Encrypted(layers[..i], lba, data), true)
  {
    hide CryptSector, Lawful;
    assert layers[..i + 1][..i] == layers[..i];
  }

  lemma OneLess(layers: seq<Cipher>, lba: uint64, now: seq<byte>, m: nat)
    requires StackLawful(layers) && |now| == SECTOR && 0 < m <= |layers| && |layers[m - 1].tweak(Unit(lba))| == BLOCK
    ensures Decrypted(layers[..m], lba, now) == Decrypted(layers[..m - 1], lba, CryptSector(layers[m - 1], lba, now, false))
  {
    hide CryptSector, Lawful;
    assert layers[..m][..m - 1] == layers[..m - 1];
  }

  // ---- Keys ----------------------------------------------------------------

  const KEY_SLOT: nat := 64

  /** SM4 takes two keys of 16 bytes, every other cipher two of 32; data and tweak key must differ. */
  predicate OwnKeysDiffer(algorithm: nat, k: seq<byte>)
    requires |k| == KEY_SLOT
  {
    if algorithm == SM4 then k[..16] != k[16..32] else k[..32] != k[32..]
  }

  /** As far as both ciphers use them. */
  predicate LayersDiffer(algorithm: nat, k: seq<byte>, other: nat, l: seq<byte>)
    requires |k| == |l| == KEY_SLOT
  {
    if algorithm == SM4 || other == SM4 then k[..32] != l[..32] else k != l
  }

  /** Only known ciphers; no layer's data and tweak keys coincide, and no two layers share an
      effective key. */
  predicate KeysAccepted(algorithms: seq<nat>, keys: seq<seq<byte>>)
    requires |keys| == |algorithms| && forall i :: 0 <= i < |keys| ==> |keys[i]| == KEY_SLOT
  {
    && 0 < |keys| <= MAX_STACK
    && (forall i :: 0 <= i < |keys| ==> 1 <= algorithms[i] <= 5 && OwnKeysDiffer(algorithms[i], keys[i]))
    && (forall i, j :: 0 <= j < i < |keys| ==> LayersDiffer(algorithms[i], keys[i], algorithms[j], keys[j]))
  }

  method CheckKeys(algorithms: seq<nat>, keys: seq<seq<byte>>) returns (ok: bool)
    requires |keys| == |algorithms| && forall i :: 0 <= i < |keys| ==> |keys[i]| == KEY_SLOT
    ensures ok <==> KeysAccepted(algorithms, keys)
  {
    var n := |keys|;
    KeySizes();
    if n == 0 || n > MAX_STACK {
      return false;
    }
    for i := 0 to n
      invariant forall k :: 0 <= k < i ==> 1 <= algorithms[k] <= 5 && OwnKeysDiffer(algorithms[k], keys[k])
      invariant forall k, j :: 0 <= j < k < i ==> LayersDiffer(algorithms[k], keys[k], algorithms[j], keys[j])
    {
      var bytes := KeyBytes(algorithms[i]);
      if bytes == 0 {
        return false;
      }
      for j := 0 to i
        invariant forall k :: 0 <= k < j ==> LayersDiffer(algorithms[i], keys[i], algorithms[k], keys[k])
      {
        var shorter := Least(bytes, KeyBytes(algorithms[j]));
        assert keys[i][..64] == keys[i] && keys[j][..64] == keys[j];
        if keys[i][..shorter] == keys[j][..shorter] {
          return false;
        }
      }
      var half := bytes / 2;
      if keys[i][..half] == keys[i][half..bytes] {
        return false;
      }
    }
    ok := true;
  }

  lemma KeySizes()
    ensures forall a {:trigger KeyBytes(a)} :: KeyBytes(a) in {0, 32, 64}
  {
  }
}
