// The authenticated sector store (src/shared/storage/auth_store.c): ciphertext, packed tags
// and, for large volumes, a bitmap of the metadata sectors in use.
module AuthStore {
  import opened Bytes
  import opened Card
  import opened BlockDevice
  import opened Limits
  import opened VolumeFormat

  const MAX_BATCH: nat := 128
  const CACHE_BLOCKS: nat := 10

  datatype Layout = Layout(bitmapBase: nat, bitmapBlocks: nat, base: nat, metadataBlocks: nat, dataBase: nat, blocks: nat)

  datatype BlockResult = Okay | InvalidArgument | NotReady | OutOfRange | IoError | IntegrityError

  /** What a reader finds at an address. */
  datatype Stored = Unset | Written(cipher: seq<byte>) | Corrupt

  predicate LayoutOk(l: Layout, capacity: nat) {
    && l.blocks > 0
    && l.metadataBlocks == MetaSectors(l.blocks)
    && (l.bitmapBlocks == 0 || l.bitmapBlocks == MapSectors(l.metadataBlocks))
    && l.base == l.bitmapBase + l.bitmapBlocks && l.dataBase == l.base + l.metadataBlocks
    && l.dataBase + l.blocks <= capacity
  }

  lemma MetaBound(l: Layout, capacity: nat, lba: nat)
    requires LayoutOk(l, capacity) && lba < l.blocks
    ensures lba / 15 < l.metadataBlocks && lba == 15 * (lba / 15) + lba % 15
  {
  }

  function SectorOf(m: nat): nat { m / BITS_PER_SECTOR }

  function BitOf(m: nat): nat { m % BITS_PER_SECTOR }

  lemma BitmapBound(l: Layout, capacity: nat, m: nat)
    requires LayoutOk(l, capacity) && l.bitmapBlocks > 0 && m < l.metadataBlocks
    ensures SectorOf(m) < l.bitmapBlocks && m == BITS_PER_SECTOR * SectorOf(m) + BitOf(m)
  {
  }

  /** The bitmap, the metadata and the data one after the other. */
  function LayoutAt(bitmap: bool, base: nat, blocks: nat): Layout {
    var meta := MetaSectors(blocks);
    var bits := if bitmap then MapSectors(meta) else 0;
    Layout(base, bits, base + bits, meta, base + bits + meta, blocks)
  }

  /** A valid descriptor is one whose store opens: its three regions follow one another
      within the card, so no address overflows. */
  lemma ValidVolumeOpens(d: Descriptor, capacity: uint64)
    requires VolumeFormat.WellTyped(d) && d.version <= 2 && d.blocks != 0 && capacity >= METADATA_BASE
    ensures LayoutOk(LayoutAt(d.version == 2, METADATA_BASE, d.blocks), capacity)
        <==> capacity >= METADATA_BASE + VolumeFormat.Bitmap(d) + MetaSectors(d.blocks) + d.blocks
    ensures VolumeFormat.Valid(d, capacity) ==> LayoutOk(LayoutAt(d.version == 2, METADATA_BASE, d.blocks), capacity)
    ensures d.version == 2 ==>
      (LayoutOk(LayoutAt(true, METADATA_BASE, d.blocks), capacity) <==> VolumeFormat.Footprint(d.blocks) <= capacity - METADATA_BASE)
  {
  }

  // ---- The meaning of the medium -------------------------------------------

  function ZeroTags(): Sector {
    Tags(seq(TAGS_PER_SECTOR, n => 0 as byte), seq(TAGS_PER_SECTOR, n => BrokenTag(0)))
  }

  function ZeroBits(): Sector {
    Bits(seq(BITS_PER_SECTOR, k => false))
  }

  /** Whether metadata sector m means anything. */
  predicate Initialised(v: seq<Sector>, l: Layout, m: nat)
    requires LayoutOk(l, |v|) && m < l.metadataBlocks
  {
    l.bitmapBlocks == 0 || (BitmapBound(l, |v|, m); BitAt(v[l.bitmapBase + SectorOf(m)], BitOf(m)))
  }

  function Metadata(v: seq<Sector>, l: Layout, m: nat): Sector
    requires LayoutOk(l, |v|) && m < l.metadataBlocks
  {
    if Initialised(v, l, m) then v[l.base + m] else ZeroTags()
  }

  /** What the cell of lba and the data at lba say together. */
  function Judge(key: nat, lba: nat, state: byte, tag: SectorTag, data: Sector): Stored {
    if state == 0 then Unset
    else if state == 1 && data.Data? && tag == SectorMac(key, lba, data.bytes) then Written(data.bytes)
    else Corrupt
  }

  function Look(v: seq<Sector>, l: Layout, key: nat, lba: nat): Stored
    requires LayoutOk(l, |v|) && lba < l.blocks
  {
    MetaBound(l, |v|, lba);
    var s := Metadata(v, l, lba / 15);
    Judge(key, lba, StateAt(s, lba % 15), TagAt(s, lba % 15), v[l.dataBase + lba])
  }

  // ---- What a write makes of it --------------------------------------------

  predicate Touches(lba: nat, n: nat, m: nat) {
    n > 0 && lba / 15 <= m <= (lba + n - 1) / 15
  }

  predicate InRange(lba: nat, n: nat, x: nat) {
    lba <= x < lba + n
  }

  function StampedState(s: Sector, lba: nat, n: nat, x: nat, k: nat): byte {
    if InRange(lba, n, x) then 1 else StateAt(s, k)
  }

  function StampedTag(s: Sector, key: nat, lba: nat, data: seq<seq<byte>>, x: nat, k: nat): SectorTag {
    if InRange(lba, |data|, x) then SectorMac(key, x, data[x - lba]) else TagAt(s, k)
  }

  /** Metadata sector m with the cells of the written addresses replaced. */
  function Stamped(s: Sector, m: nat, key: nat, lba: nat, data: seq<seq<byte>>): Sector {
    if !Touches(lba, |data|, m) then s
    else Tags(StampedStates(s, m, lba, |data|), StampedTags(s, m, key, lba, data))
  }

  function StampedStates(s: Sector, m: nat, lba: nat, n: nat): (r: seq<byte>)
    ensures |r| == TAGS_PER_SECTOR
    ensures forall k :: 0 <= k < TAGS_PER_SECTOR ==> r[k] == StampedState(s, lba, n, 15 * m + k, k)
  {
    var r := seq(TAGS_PER_SECTOR, k requires 0 <= k < TAGS_PER_SECTOR => StampedState(s, lba, n, 15 * m + k, k));
    assert forall k :: 0 <= k < |r| ==> r[k] == StampedState(s, lba, n, 15 * m + k, k);
    r
  }

  function StampedTags(s: Sector, m: nat, key: nat, lba: nat, data: seq<seq<byte>>): (r: seq<SectorTag>)
    ensures |r| == TAGS_PER_SECTOR
    ensures forall k :: 0 <= k < TAGS_PER_SECTOR ==> r[k] == StampedTag(s, key, lba, data, 15 * m + k, k)
  {
    seq(TAGS_PER_SECTOR, k requires 0 <= k < TAGS_PER_SECTOR => StampedTag(s, key, lba, data, 15 * m + k, k))
  }

  lemma RangeTouches(lba: nat, n: nat, x: nat)
    ensures InRange(lba, n, x) ==> Touches(lba, n, x / 15)
  {
  }

  /** The metadata sectors of batch b, stamped over those of v. */
  ghost predicate NewTags(v: seq<Sector>, l: Layout, key: nat, b: Batch, tags: seq<Sector>) {
    && LayoutOk(l, |v|) && |b.data| > 0
    && var first := b.lba / 15; var last := (b.lba + |b.data| - 1) / 15;
      && last < l.metadataBlocks && |tags| == last + 1 - first
      && forall i: nat :: i < |tags| ==> tags[i] == Stamped(Metadata(v, l, first + i), first + i, key, b.lba, b.data)
  }

  function Ciphers(data: seq<seq<byte>>): (r: seq<Sector>)
    ensures |r| == |data| && forall i :: 0 <= i < |r| ==> r[i] == Data(data[i])
  {
    seq(|data|, i requires 0 <= i < |data| => Data(data[i]))
  }

  /** v after a complete write of data at lba. */
  ghost predicate Updated(v: seq<Sector>, w: seq<Sector>, l: Layout, key: nat, lba: nat, data: seq<seq<byte>>) {
    && LayoutOk(l, |v|) && |w| == |v| && lba + |data| <= l.blocks
    && (forall x: nat :: x < l.blocks ==>
          w[l.dataBase + x] == if InRange(lba, |data|, x) then Data(data[x - lba]) else v[l.dataBase + x])
    && (forall m: nat :: m < l.metadataBlocks ==>
          w[l.base + m] == if Touches(lba, |data|, m) then Stamped(Metadata(v, l, m), m, key, lba, data) else v[l.base + m])
    && (forall m: nat :: m < l.metadataBlocks ==>
          (Initialised(w, l, m) <==> Initialised(v, l, m) || Touches(lba, |data|, m)))
  }

  /** Every written address reads back; every other address is undisturbed, including those
      sharing a metadata or bitmap sector with it. */
  lemma UpdatedReads(v: seq<Sector>, w: seq<Sector>, l: Layout, key: nat, lba: nat, data: seq<seq<byte>>, x: nat)
    requires Updated(v, w, l, key, lba, data) && x < l.blocks
    ensures Look(w, l, key, x) == if InRange(lba, |data|, x) then Written(data[x - lba]) else Look(v, l, key, x)
  {
    hide Initialised;
    MetaBound(l, |v|, x);
    RangeTouches(lba, |data|, x);
    var m := x / 15;
    if Touches(lba, |data|, m) {
      assert Metadata(w, l, m) == Stamped(Metadata(v, l, m), m, key, lba, data);
    } else {
      assert !InRange(lba, |data|, x);
      assert Metadata(w, l, m) == Metadata(v, l, m);
    }
  }

  // ---- What a cut write can leave ------------------------------------------

  /** The ciphertext the stored tag was made for, whatever the cell's state and data say. */
  function Leftover(v: seq<Sector>, l: Layout, key: nat, x: nat): Stored
    requires LayoutOk(l, |v|) && x < l.blocks
  {
    MetaBound(l, |v|, x);
    var t := TagAt(Metadata(v, l, x / 15), x % 15);
    if t.SectorMac? && t.key == key && t.lba == x then Written(t.cipher) else Corrupt
  }

  /** An earlier write of x that no reader sees left its tag, and this write could bring it
      back: the tag is for other contents than x reads as or is given, and the sector changes. */
  predicate Exposed(v: seq<Sector>, l: Layout, key: nat, lba: nat, data: seq<seq<byte>>, x: nat)
    requires LayoutOk(l, |v|) && x < l.blocks && InRange(lba, |data|, x)
  {
    && Leftover(v, l, key, x) !in {Look(v, l, key, x), Written(data[x - lba]), Corrupt}
    && v[l.dataBase + x] != Data(data[x - lba])
  }

  /** Every written address reads as before, as written or as an error, and every other
      address as before. */
  ghost predicate OldNewOrCorrupt(v: seq<Sector>, image: seq<Sector>, l: Layout, key: nat, lba: nat, data: seq<seq<byte>>) {
    && LayoutOk(l, |v|) && |image| == |v|
    && forall x: nat :: x < l.blocks ==>
         if InRange(lba, |data|, x) then Look(image, l, key, x) in {Look(v, l, key, x), Written(data[x - lba]), Corrupt}
         else Look(image, l, key, x) == Look(v, l, key, x)
  }

  /** A batch as it was given to the store. */
  datatype Batch = Batch(lba: nat, data: seq<seq<byte>>)

  predicate Gives(b: Batch, x: nat, c: seq<byte>) {
    InRange(b.lba, |b.data|, x) && b.data[x - b.lba] == c
  }

  /** One of the batches of h gave c to x. */
  ghost predicate Given(h: seq<Batch>, x: nat, c: seq<byte>) {
    exists k :: 0 <= k < |h| && Gives(h[k], x, c)
  }

  ghost predicate Touched(h: seq<Batch>, x: nat) {
    exists c :: Given(h, x, c)
  }

  lemma GivenMore(h: seq<Batch>, b: Batch)
    ensures forall x: nat, c :: Given(h + [b], x, c) <==> Given(h, x, c) || Gives(b, x, c)
  {
    forall x: nat, c
      ensures Given(h + [b], x, c) <==> Given(h, x, c) || Gives(b, x, c)
    {
      if Given(h, x, c) {
        var k :| 0 <= k < |h| && Gives(h[k], x, c);
        assert (h + [b])[k] == h[k];
      }
      if Gives(b, x, c) {
        assert (h + [b])[|h|] == b;
      }
    }
  }

  lemma TouchedMore(h: seq<Batch>, b: Batch)
    ensures forall x: nat :: Touched(h + [b], x) <==> Touched(h, x) || InRange(b.lba, |b.data|, x)
  {
    GivenMore(h, b);
    forall x: nat
      ensures Touched(h + [b], x) <==> Touched(h, x) || InRange(b.lba, |b.data|, x)
    {
      if Touched(h, x) {
        var c :| Given(h, x, c);
        assert Given(h + [b], x, c);
      }
      if InRange(b.lba, |b.data|, x) {
        assert Gives(b, x, b.data[x - b.lba]);
        assert Given(h + [b], x, b.data[x - b.lba]);
      }
    }
  }

  /** The same over any number of batches: the tag an earlier write left is for contents that
      no reader sees and none of the batches gives, and one of them changes the sector. */
  ghost predicate ExposedTo(v: seq<Sector>, l: Layout, key: nat, h: seq<Batch>, x: nat)
    requires LayoutOk(l, |v|) && x < l.blocks
  {
    && Leftover(v, l, key, x) !in {Look(v, l, key, x), Corrupt} && !Given(h, x, Leftover(v, l, key, x).cipher)
    && exists c :: Given(h, x, c) && v[l.dataBase + x] != Data(c)
  }

  /** One of the batches changes the tag of x. */
  ghost predicate Retagged(was: SectorTag, key: nat, h: seq<Batch>, x: nat) {
    exists c :: Given(h, x, c) && was != SectorMac(key, x, c)
  }

  /** One of the batches changes the sector or the tag of x. */
  ghost predicate Spoilable(v: seq<Sector>, l: Layout, key: nat, h: seq<Batch>, x: nat)
    requires LayoutOk(l, |v|) && x < l.blocks
  {
    MetaBound(l, |v|, x);
    || Retagged(TagAt(Metadata(v, l, x / 15), x % 15), key, h, x)
    || exists c :: Given(h, x, c) && v[l.dataBase + x] != Data(c)
  }

  /** What x may read as once the batches of h were written over v: as before, as one of them
      gave it or, if one of them changes anything, as an error; only if exposed, as an earlier
      write. What none of them is for reads as before. */
  ghost predicate ReadSince(r: Stored, v: seq<Sector>, l: Layout, key: nat, h: seq<Batch>, x: nat)
    requires LayoutOk(l, |v|) && x < l.blocks
  {
    || r == Look(v, l, key, x)
    || (r == Corrupt && Spoilable(v, l, key, h, x))
    || (r.Written? && Given(h, x, r.cipher))
    || (r == Leftover(v, l, key, x) && ExposedTo(v, l, key, h, x))
  }

  ghost predicate ReadsSince(image: seq<Sector>, v: seq<Sector>, l: Layout, key: nat, h: seq<Batch>) {
    && LayoutOk(l, |v|) && |image| == |v|
    && forall x: nat :: x < l.blocks ==> ReadSince(Look(image, l, key, x), v, l, key, h, x)
  }

  /** An address that reads back has no other leftover; nor has one never written. */
  lemma NoLeftover(v: seq<Sector>, l: Layout, key: nat, x: nat)
    requires LayoutOk(l, |v|) && x < l.blocks
    ensures Look(v, l, key, x).Written? ==> Leftover(v, l, key, x) == Look(v, l, key, x)
    ensures (MetaBound(l, |v|, x); !Initialised(v, l, x / 15)) ==> Look(v, l, key, x) == Unset && Leftover(v, l, key, x) == Corrupt
  {
    MetaBound(l, |v|, x);
  }

  // ---- Batches since the last sync -----------------------------------------

  /** The tag of x is as it was, for one of these batches or, if one of them changes it, broken by a cut. */
  ghost predicate TagSince(t: SectorTag, was: SectorTag, key: nat, h: seq<Batch>, x: nat) {
    || t == was
    || (t.BrokenTag? && Retagged(was, key, h, x))
    || (t.SectorMac? && t.key == key && t.lba == x && Given(h, x, t.cipher))
  }

  /** s shows for x what v shows or what these batches, cut anywhere, make of it. */
  ghost predicate CellSince(s: Sector, v: Sector, key: nat, h: seq<Batch>, x: nat) {
    && (StateAt(s, x % 15) == StateAt(v, x % 15) || (StateAt(s, x % 15) == 1 && Touched(h, x)))
    && TagSince(TagAt(s, x % 15), TagAt(v, x % 15), key, h, x)
  }

  /** The card may hold v with any part of the ciphertexts and tags of the batches of h; the
      bitmap is as in v. */
  ghost predicate Since(d: Disk, v: seq<Sector>, l: Layout, key: nat, h: seq<Batch>) {
    && LayoutOk(l, |v|) && |d.live| == |d.durable| == |v|
    && (forall j :: l.bitmapBase <= j < l.base ==> Sure(d, j, v[j]))
    && (forall x: nat :: x < l.blocks ==> DataSince(d, v, l, h, x) && TagsSince(d, v, l, key, h, x))
  }

  ghost predicate DataSince(d: Disk, v: seq<Sector>, l: Layout, h: seq<Batch>, x: nat)
    requires LayoutOk(l, |v|) && |d.durable| == |v| && x < l.blocks
  {
    forall s :: s in Values(d, l.dataBase + x) ==> s == v[l.dataBase + x] || (s.Data? && Given(h, x, s.bytes))
  }

  ghost predicate TagsSince(d: Disk, v: seq<Sector>, l: Layout, key: nat, h: seq<Batch>, x: nat)
    requires LayoutOk(l, |v|) && |d.durable| == |v| && x < l.blocks
  {
    MetaBound(l, |v|, x);
    var values, was := Values(d, l.base + x / 15), v[l.base + x / 15];
    Initialised(v, l, x / 15) ==> forall s :: s in values ==> CellSince(s, was, key, h, x)
  }

  /** A settled card. */
  lemma SettledSince(d: Disk, l: Layout, key: nat)
    requires DiskValid(d) && AllSure(d, 0, |d.live|) && LayoutOk(l, |d.live|)
    ensures Since(d, d.live, l, key, [])
  {
    hide MayBe, Initialised;
    forall x: nat | x < l.blocks
      ensures DataSince(d, d.live, l, [], x) && TagsSince(d, d.live, l, key, [], x)
    {
      MetaBound(l, |d.live|, x);
      assert Sure(d, l.dataBase + x, d.live[l.dataBase + x]) && Sure(d, l.base + x / 15, d.live[l.base + x / 15]);
    }
  }

  /** Tearing mixes cells and adds nothing but broken tags. */
  lemma TornSince(values: set<Sector>, s: Sector, v: Sector, key: nat, h: seq<Batch>, x: nat)
    requires MayBe(values, s) && forall a :: a in values ==> CellSince(a, v, key, h, x)
    ensures CellSince(s, v, key, h, x)
  {
    if s !in values {
      assert TornCell(values, s, x % 15);
    }
  }

  lemma SameBits(image: seq<Sector>, v: seq<Sector>, l: Layout)
    requires LayoutOk(l, |v|) && |image| == |v| && forall j :: l.bitmapBase <= j < l.base ==> image[j] == v[j]
    ensures forall m: nat :: m < l.metadataBlocks ==> (Initialised(image, l, m) <==> Initialised(v, l, m))
  {
    forall m: nat | m < l.metadataBlocks
      ensures Initialised(image, l, m) <==> Initialised(v, l, m)
    {
      if l.bitmapBlocks > 0 {
        BitmapBound(l, |v|, m);
      }
    }
  }

  /** An image of such a card, sector by sector. */
  lemma SinceParts(d: Disk, v: seq<Sector>, l: Layout, key: nat, h: seq<Batch>, image: seq<Sector>, x: nat)
    requires Since(d, v, l, key, h) && CrashImage(d, image) && x < l.blocks
    ensures x / 15 < l.metadataBlocks && |image| == |v|
    ensures Initialised(image, l, x / 15) <==> Initialised(v, l, x / 15)
    ensures Initialised(v, l, x / 15) ==> CellSince(image[l.base + x / 15], v[l.base + x / 15], key, h, x)
    ensures (forall c :: Given(h, x, c) ==> v[l.dataBase + x] == Data(c)) ==> image[l.dataBase + x] == v[l.dataBase + x]
  {
    hide MayBe, Initialised, CellSince;
    MetaBound(l, |v|, x);
    forall j | l.bitmapBase <= j < l.base
      ensures image[j] == v[j]
    {
      assert MayHold(d, j, image[j]) && Values(d, j) == {v[j]};
      OnlyOneValue(v[j]);
    }
    SameBits(image, v, l);
    assert DataSince(d, v, l, h, x) && TagsSince(d, v, l, key, h, x);
    if Initialised(v, l, x / 15) {
      TornSince(Values(d, l.base + x / 15), image[l.base + x / 15], v[l.base + x / 15], key, h, x);
    }
    if forall c :: Given(h, x, c) ==> v[l.dataBase + x] == Data(c) {
      OnlyThis(Values(d, l.dataBase + x), v[l.dataBase + x], image[l.dataBase + x]);
    }
  }

  lemma OnlyThis(values: set<Sector>, a: Sector, s: Sector)
    requires MayBe(values, s) && forall b :: b in values ==> b == a
    ensures s == a
  {
  }

  /** Whatever was written since the last sync and wherever it was cut, each address reads as
      then, as one of the batches gave it or as an error, and only if exposed as a write no
      reader saw; what they are not for reads as then. */
  lemma SinceReads(d: Disk, v: seq<Sector>, l: Layout, key: nat, h: seq<Batch>, image: seq<Sector>)
    requires Since(d, v, l, key, h) && CrashImage(d, image)
    ensures ReadsSince(image, v, l, key, h)
  {
    hide Initialised, Since, CrashImage;
    Imaged(d, v, l, key, h, image);
    forall x: nat | x < l.blocks
      ensures ReadSince(Look(image, l, key, x), v, l, key, h, x)
    {
      SinceParts(d, v, l, key, h, image, x);
      CellReads(image, v, l, key, h, x);
    }
  }

  lemma CellReads(image: seq<Sector>, v: seq<Sector>, l: Layout, key: nat, h: seq<Batch>, x: nat)
    requires LayoutOk(l, |v|) && |image| == |v| && x < l.blocks && x / 15 < l.metadataBlocks
    requires Initialised(image, l, x / 15) <==> Initialised(v, l, x / 15)
    requires Initialised(v, l, x / 15) ==> CellSince(image[l.base + x / 15], v[l.base + x / 15], key, h, x)
    requires (forall c :: Given(h, x, c) ==> v[l.dataBase + x] == Data(c)) ==> image[l.dataBase + x] == v[l.dataBase + x]
    ensures ReadSince(Look(image, l, key, x), v, l, key, h, x)
  {
    hide Initialised, Given;
    if forall c :: !Given(h, x, c) {
      assert image[l.dataBase + x] == v[l.dataBase + x];
    }
  }

  lemma Imaged(d: Disk, v: seq<Sector>, l: Layout, key: nat, h: seq<Batch>, image: seq<Sector>)
    requires Since(d, v, l, key, h) && CrashImage(d, image)
    ensures LayoutOk(l, |v|) && |image| == |v|
  {
  }

  /** What the data and metadata writes put at sector j. */
  function PlacedAt(v: seq<Sector>, l: Layout, key: nat, lba: nat, data: seq<seq<byte>>, j: nat): Sector
    requires LayoutOk(l, |v|) && j < |v|
  {
    if l.dataBase + lba <= j < l.dataBase + lba + |data| then Data(data[j - l.dataBase - lba])
    else if l.base <= j < l.dataBase && Touches(lba, |data|, j - l.base) then
      Stamped(Metadata(v, l, j - l.base), j - l.base, key, lba, data)
    else v[j]
  }

  ghost predicate Placed(v: seq<Sector>, w: seq<Sector>, l: Layout, key: nat, lba: nat, data: seq<seq<byte>>) {
    && LayoutOk(l, |v|) && |w| == |v| && lba + |data| <= l.blocks
    && forall j: nat :: j < |v| ==> w[j] == PlacedAt(v, l, key, lba, data, j)
  }

  lemma PlacedParts(v: seq<Sector>, w: seq<Sector>, l: Layout, key: nat, lba: nat, data: seq<seq<byte>>)
    requires Placed(v, w, l, key, lba, data)
    ensures forall x: nat :: x < l.blocks ==>
      w[l.dataBase + x] == if InRange(lba, |data|, x) then Data(data[x - lba]) else v[l.dataBase + x]
    ensures forall m: nat :: m < l.metadataBlocks ==>
      w[l.base + m] == if Touches(lba, |data|, m) then Stamped(Metadata(v, l, m), m, key, lba, data) else v[l.base + m]
    ensures forall m: nat :: m < l.metadataBlocks ==> (Initialised(w, l, m) <==> Initialised(v, l, m))
  {
    hide Metadata, Stamped, Initialised, Touches;
    assert forall j: nat :: j < l.base ==> w[j] == v[j];
    SameBits(w, v, l);
  }

  /** Once the bits are set as well, the write is complete. */
  lemma PlacedUpdates(v: seq<Sector>, w: seq<Sector>, z: seq<Sector>, l: Layout, key: nat, lba: nat, data: seq<seq<byte>>)
    requires LayoutOk(l, |v|) && |w| == |v| && lba + |data| <= l.blocks
    requires Placed(v, w, l, key, lba, data) && |data| > 0
    requires BitmapStep(w, z, l, lba / 15, (lba + |data| - 1) / 15 + 1)
    ensures Updated(v, z, l, key, lba, data)
  {
    hide Metadata, Stamped, Initialised, Placed;
    PlacedParts(v, w, l, key, lba, data);
    forall x: nat | x < l.blocks
      ensures z[l.dataBase + x] == if InRange(lba, |data|, x) then Data(data[x - lba]) else v[l.dataBase + x]
    {
    }
    forall m: nat | m < l.metadataBlocks
      ensures z[l.base + m] == if Touches(lba, |data|, m) then Stamped(Metadata(v, l, m), m, key, lba, data) else v[l.base + m]
    {
    }
  }

  /** The bits go last, so a bit that is set finds its tags and ciphertext in place. */
  lemma PublishedReads(v: seq<Sector>, w: seq<Sector>, image: seq<Sector>, l: Layout, key: nat, lba: nat, data: seq<seq<byte>>, x: nat)
    requires Placed(v, w, l, key, lba, data) && |data| > 0 && x < l.blocks && LayoutOk(l, |v|) && |image| == |v|
    requires Published(image, w, l, lba / 15, (lba + |data| - 1) / 15 + 1)
    ensures if InRange(lba, |data|, x) then Look(image, l, key, x) in {Look(v, l, key, x), Written(data[x - lba])}
            else Look(image, l, key, x) == Look(v, l, key, x)
  {
    hide Initialised, Placed;
    PlacedParts(v, w, l, key, lba, data);
    MetaBound(l, |v|, x);
    RangeTouches(lba, |data|, x);
    var m := x / 15;
    assert image[l.dataBase + x] == w[l.dataBase + x] && image[l.base + m] == w[l.base + m];
    if Touches(lba, |data|, m) && Initialised(image, l, m) {
      StampedAt(Metadata(v, l, m), m, key, lba, data, x % 15);
      assert 15 * m + x % 15 == x;
    }
  }

  lemma CellMore(s: Sector, v: Sector, key: nat, h: seq<Batch>, b: Batch, x: nat)
    requires CellSince(s, v, key, h, x)
    ensures CellSince(s, v, key, h + [b], x)
  {
    hide Given, Touched;
    GivenMore(h, b);
    TouchedMore(h, b);
  }

  /** Restamping a metadata sector a cut has left. */
  lemma StampedSince(s: Sector, v: Sector, key: nat, h: seq<Batch>, b: Batch, x: nat)
    requires CellSince(s, v, key, h, x)
    ensures CellSince(Stamped(s, x / 15, key, b.lba, b.data), v, key, h + [b], x)
  {
    hide Given, Touched, Stamped;
    GivenMore(h, b);
    TouchedMore(h, b);
    StampedAt(s, x / 15, key, b.lba, b.data, x % 15);
    assert 15 * (x / 15) + x % 15 == x;
  }

  /** The ciphertext of one more batch, completed or not. */
  lemma DataWriteSince(before: Disk, after: Disk, v: seq<Sector>, l: Layout, key: nat, h: seq<Batch>, b: Batch, ok: bool)
    requires DiskValid(before) && Since(before, v, l, key, h) && b.lba + |b.data| <= l.blocks
    requires Wrote(before, after, l.dataBase + b.lba, Ciphers(b.data), ok)
    ensures Since(after, v, l, key, h + [b])
  {
    hide MayBe, Initialised, CellSince, Given, DiskValid;
    GivenMore(h, b);
    assert |after.live| == |before.live| by { assert DiskValid(after); LiveSize(before, after); }
    forall x: nat | x < l.blocks
      ensures DataSince(after, v, l, h + [b], x) && TagsSince(after, v, l, key, h + [b], x)
    {
      MetaBound(l, |v|, x);
      assert DataSince(before, v, l, h, x) && TagsSince(before, v, l, key, h, x);
      assert Values(after, l.base + x / 15) == Values(before, l.base + x / 15);
      var values, was := Values(after, l.base + x / 15), v[l.base + x / 15];
      forall s | s in values && Initialised(v, l, x / 15)
        ensures CellSince(s, was, key, h + [b], x)
      {
        CellMore(s, was, key, h, b, x);
      }
    }
  }

  lemma LiveSize(before: Disk, after: Disk)
    requires DiskValid(before) && DiskValid(after) && after.durable == before.durable
    ensures |after.live| == |before.live|
  {
  }

  /** And its tags, stamped over what was read before. */
  lemma TagsWriteSince(start: Disk, before: Disk, after: Disk, v: seq<Sector>, l: Layout, key: nat, h: seq<Batch>, b: Batch,
                       tags: seq<Sector>, ok: bool)
    requires DiskValid(start) && Since(start, v, l, key, h) && DiskValid(before) && Since(before, v, l, key, h + [b])
    requires b.lba + |b.data| <= l.blocks && |b.data| > 0
    requires NewTags(start.live, l, key, b, tags) && Wrote(before, after, l.base + b.lba / 15, tags, ok)
    ensures Since(after, v, l, key, h + [b])
  {
    hide MayBe, Initialised, CellSince, Given, Stamped, DiskValid, Touches;
    LiveSize(before, after);
    ItsOwnImage(start);
    var first := b.lba / 15;
    forall x: nat | x < l.blocks
      ensures DataSince(after, v, l, h + [b], x) && TagsSince(after, v, l, key, h + [b], x)
    {
      var m := x / 15;
      SinceParts(start, v, l, key, h, start.live, x);
      assert DataSince(before, v, l, h + [b], x) && TagsSince(before, v, l, key, h + [b], x);
      assert Values(after, l.dataBase + x) == Values(before, l.dataBase + x);
      if Initialised(v, l, m) {
        StampedSince(start.live[l.base + m], v[l.base + m], key, h, b, x);
        if first <= m < first + |tags| {
          assert tags[m - first] == Stamped(Metadata(start.live, l, m), m, key, b.lba, b.data);
        }
      }
    }
  }

  lemma ItsOwnImage(d: Disk)
    requires DiskValid(d)
    ensures CrashImage(d, d.live)
  {
  }

  lemma WindowSliced(v: seq<Sector>, l: Layout, key: nat, b: Batch, first: nat, window: seq<Sector>)
    requires LayoutOk(l, |v|) && |b.data| > 0 && first + |window| <= l.metadataBlocks
    requires first <= b.lba / 15 <= (b.lba + |b.data| - 1) / 15 < first + |window|
    requires forall j: nat :: j < |window| ==> window[j] == Stamped(Metadata(v, l, first + j), first + j, key, b.lba, b.data)
    ensures NewTags(v, l, key, b, window[b.lba / 15 - first..(b.lba + |b.data| - 1) / 15 + 1 - first])
  {
    hide Metadata, Stamped, LayoutOk;
    var from := b.lba / 15;
    var tags := window[from - first..(b.lba + |b.data| - 1) / 15 + 1 - first];
    forall i: nat | i < |tags|
      ensures tags[i] == Stamped(Metadata(v, l, from + i), from + i, key, b.lba, b.data)
    {
      var j: nat := from + i - first;
      assert tags[i] == window[j] && first + j == from + i;
    }
  }

  lemma TagsFit(v: seq<Sector>, l: Layout, key: nat, b: Batch, tags: seq<Sector>)
    requires NewTags(v, l, key, b, tags)
    ensures l.base + b.lba / 15 + |tags| <= l.dataBase && l.bitmapBase <= l.base && |b.data| > 0
  {
    DivideMonotone(b.lba, b.lba + |b.data| - 1);
  }

  lemma ReplacedPlaced(v: seq<Sector>, w: seq<Sector>, l: Layout, key: nat, lba: nat, data: seq<seq<byte>>, tags: seq<Sector>)
    requires LayoutOk(l, |v|) && lba + |data| <= l.blocks && |data| > 0 && NewTags(v, l, key, Batch(lba, data), tags)
    requires l.base + lba / 15 + |tags| <= |v|
    requires w == Replace(Replace(v, l.dataBase + lba, Ciphers(data)), l.base + lba / 15, tags)
    ensures Placed(v, w, l, key, lba, data)
  {
    hide Metadata, Stamped;
    var first := lba / 15;
    forall j: nat | j < |v|
      ensures w[j] == PlacedAt(v, l, key, lba, data, j)
    {
      if l.base + first <= j < l.base + first + |tags| {
        var i: nat := j - l.base - first;
        assert tags[i] == Stamped(Metadata(v, l, first + i), first + i, key, lba, data);
      }
    }
  }

  // ---- Exactly what a power loss may leave ---------------------------------

  /** s shows x as written with c. */
  predicate Shows(s: Sector, key: nat, x: nat, c: seq<byte>) {
    StateAt(s, x % 15) == 1 && TagAt(s, x % 15) == SectorMac(key, x, c)
  }

  ghost predicate Shown(values: set<Sector>, key: nat, x: nat, c: seq<byte>) {
    exists s :: s in values && Shows(s, key, x, c)
  }

  /** All of it may be there: what v held, and the ciphertext and tag of every batch of h. */
  ghost predicate Reached(d: Disk, v: seq<Sector>, l: Layout, key: nat, h: seq<Batch>) {
    && LayoutOk(l, |v|) && |d.durable| == |v|
    && forall x: nat :: x < l.blocks ==> DataReached(d, v, l, h, x) && TagsReached(d, v, l, key, h, x)
  }

  ghost predicate DataReached(d: Disk, v: seq<Sector>, l: Layout, h: seq<Batch>, x: nat)
    requires LayoutOk(l, |v|) && |d.durable| == |v| && x < l.blocks
  {
    var values := Values(d, l.dataBase + x);
    v[l.dataBase + x] in values && forall c :: Given(h, x, c) ==> Data(c) in values
  }

  ghost predicate TagsReached(d: Disk, v: seq<Sector>, l: Layout, key: nat, h: seq<Batch>, x: nat)
    requires LayoutOk(l, |v|) && |d.durable| == |v| && x < l.blocks
  {
    MetaBound(l, |v|, x);
    var values := Values(d, l.base + x / 15);
    v[l.base + x / 15] in values && forall c :: Given(h, x, c) ==> Shown(values, key, x, c)
  }

  lemma SettledReached(d: Disk, l: Layout, key: nat)
    requires DiskValid(d) && AllSure(d, 0, |d.live|) && LayoutOk(l, |d.live|)
    ensures Reached(d, d.live, l, key, [])
  {
    hide MayBe;
    forall x: nat | x < l.blocks
      ensures DataReached(d, d.live, l, [], x) && TagsReached(d, d.live, l, key, [], x)
    {
      MetaBound(l, |d.live|, x);
      NoneGiven(x);
      assert Sure(d, l.dataBase + x, d.live[l.dataBase + x]) && Sure(d, l.base + x / 15, d.live[l.base + x / 15]);
    }
  }

  /** A batch whose ciphertext and tags were both issued, completed or not. */
  lemma BatchReached(start: Disk, middle: Disk, after: Disk, v: seq<Sector>, l: Layout, key: nat, h: seq<Batch>, b: Batch,
                     tags: seq<Sector>, ok: bool)
    requires DiskValid(start) && DiskValid(middle) && |start.live| == |v| && Reached(start, v, l, key, h)
    requires b.lba + |b.data| <= l.blocks && |b.data| > 0 && Wrote(start, middle, l.dataBase + b.lba, Ciphers(b.data), true)
    requires NewTags(start.live, l, key, b, tags) && |middle.live| == |start.live| && Wrote(middle, after, l.base + b.lba / 15, tags, ok)
    ensures Reached(after, v, l, key, h + [b])
  {
    hide MayBe, Initialised, Given, Stamped, DiskValid, Touches, Wrote, DataReached, TagsReached, Metadata;
    LiveSizes(start, middle, l.dataBase + b.lba, Ciphers(b.data));
    forall x: nat | x < l.blocks
      ensures |after.durable| == |v| && DataReached(after, v, l, h + [b], x) && TagsReached(after, v, l, key, h + [b], x)
    {
      MetaBound(l, |v|, x);
      BatchIssued(start, middle, after, l, key, b, tags, ok, x);
      ReachedMore(start, after, v, l, key, h, b, x);
    }
    BatchIssued(start, middle, after, l, key, b, tags, ok, b.lba);
  }

  lemma LiveSizes(before: Disk, after: Disk, at: nat, data: seq<Sector>)
    requires DiskValid(before) && DiskValid(after) && at + |data| <= |before.live| && Wrote(before, after, at, data, true)
    ensures |after.live| == |before.live|
  {
  }

  lemma ReachedMore(start: Disk, after: Disk, v: seq<Sector>, l: Layout, key: nat, h: seq<Batch>, b: Batch, x: nat)
    requires LayoutOk(l, |v|) && |start.durable| == |v| && after.durable == start.durable && x < l.blocks && x / 15 < l.metadataBlocks
    requires DataReached(start, v, l, h, x) && TagsReached(start, v, l, key, h, x)
    requires Values(start, l.dataBase + x) <= Values(after, l.dataBase + x)
    requires Values(start, l.base + x / 15) <= Values(after, l.base + x / 15)
    requires InRange(b.lba, |b.data|, x) ==> Data(b.data[x - b.lba]) in Values(after, l.dataBase + x)
    requires InRange(b.lba, |b.data|, x) ==>
      Shown(Values(after, l.base + x / 15), key, x, b.data[x - b.lba])
    ensures DataReached(after, v, l, h + [b], x) && TagsReached(after, v, l, key, h + [b], x)
  {
    hide Given;
    GivenMore(h, b);
    KeepsShown(Values(start, l.base + x / 15), Values(after, l.base + x / 15), key, h, x);
  }

  lemma KeepsShown(a: set<Sector>, b: set<Sector>, key: nat, h: seq<Batch>, x: nat)
    requires a <= b && forall c :: Given(h, x, c) ==> Shown(a, key, x, c)
    ensures forall c :: Given(h, x, c) ==> Shown(b, key, x, c)
  {
  }

  /** What such a batch adds at one address. */
  lemma BatchIssued(start: Disk, middle: Disk, after: Disk, l: Layout, key: nat, b: Batch, tags: seq<Sector>, ok: bool, x: nat)
    requires DiskValid(start) && DiskValid(middle) && |middle.live| == |start.live| && LayoutOk(l, |start.live|)
    requires x < l.blocks && x / 15 < l.metadataBlocks
    requires b.lba + |b.data| <= l.blocks && |b.data| > 0 && Wrote(start, middle, l.dataBase + b.lba, Ciphers(b.data), true)
    requires NewTags(start.live, l, key, b, tags) && |middle.live| == |start.live| && Wrote(middle, after, l.base + b.lba / 15, tags, ok)
    ensures after.durable == start.durable
    ensures Values(start, l.dataBase + x) <= Values(after, l.dataBase + x)
    ensures Values(start, l.base + x / 15) <= Values(after, l.base + x / 15)
    ensures InRange(b.lba, |b.data|, x) ==> Data(b.data[x - b.lba]) in Values(after, l.dataBase + x)
    ensures InRange(b.lba, |b.data|, x) ==>
      Shown(Values(after, l.base + x / 15), key, x, b.data[x - b.lba])
  {
    hide MayBe, Initialised, Stamped, Metadata, Touches;
    var first, m := b.lba / 15, x / 15;
    if InRange(b.lba, |b.data|, x) {
      DivideMonotone(b.lba, x);
      DivideMonotone(x, b.lba + |b.data| - 1);
      var t := tags[m - first];
      assert t == Stamped(Metadata(start.live, l, m), m, key, b.lba, b.data);
      StampedAt(Metadata(start.live, l, m), m, key, b.lba, b.data, x % 15);
      assert 15 * m + x % 15 == x;
      assert t in Values(after, l.base + m) && Shows(t, key, x, b.data[x - b.lba]);
    }
  }

  /** Some power loss leaves x reading as r. */
  ghost predicate MayReturn(d: Disk, l: Layout, key: nat, x: nat, r: Stored)
    requires LayoutOk(l, |d.durable|) && x < l.blocks
  {
    exists image :: CrashImage(d, image) && Look(image, l, key, x) == r
  }

  /** Two sectors chosen, the others as they read. */
  lemma Returns(d: Disk, v: seq<Sector>, l: Layout, key: nat, h: seq<Batch>, x: nat, s: Sector, g: Sector)
    requires DiskValid(d) && Since(d, v, l, key, h) && x < l.blocks && x / 15 < l.metadataBlocks && Initialised(v, l, x / 15)
    requires MayHold(d, l.base + x / 15, s) && MayHold(d, l.dataBase + x, g)
    ensures MayReturn(d, l, key, x, Judge(key, x, StateAt(s, x % 15), TagAt(s, x % 15), g))
  {
    hide MayBe, Initialised, TagsSince, DataSince;
    var image := d.live[l.base + x / 15 := s][l.dataBase + x := g];
    assert CrashImage(d, image);
    forall j | l.bitmapBase <= j < l.base
      ensures image[j] == v[j]
    {
      assert MayHold(d, j, image[j]) && Values(d, j) == {v[j]};
      OnlyOneValue(v[j]);
    }
    SameBits(image, v, l);
    assert Look(image, l, key, x) == Judge(key, x, StateAt(s, x % 15), TagAt(s, x % 15), g);
  }

  /** Whatever ReadSince allows at an address in a published metadata sector can come back. */
  lemma AllReturn(d: Disk, v: seq<Sector>, l: Layout, key: nat, h: seq<Batch>, x: nat, r: Stored)
    requires DiskValid(d) && Since(d, v, l, key, h) && Reached(d, v, l, key, h)
    requires x < l.blocks && x / 15 < l.metadataBlocks && Initialised(v, l, x / 15) && ReadSince(r, v, l, key, h, x)
    ensures MayReturn(d, l, key, x, r)
  {
    hide MayBe, Initialised, Since, Given, MayReturn, Reached;
    SinceSized(d, v, l, key, h);
    var m, a := l.base + x / 15, l.dataBase + x;
    ReachedAt(d, v, l, key, h, x);
    if r == Look(v, l, key, x) {
      Possible(d, m, v[m]);
      Possible(d, a, v[a]);
      Returns(d, v, l, key, h, x, v[m], v[a]);
    } else if r.Written? && Given(h, x, r.cipher) {
      var s :| s in Values(d, m) && Shows(s, key, x, r.cipher);
      Possible(d, m, s);
      Possible(d, a, Data(r.cipher));
      Returns(d, v, l, key, h, x, s, Data(r.cipher));
    } else if r == Corrupt {
      SpoiltReturns(d, v, l, key, h, x);
    } else {
      LeftoverReturns(d, v, l, key, h, x);
    }
  }

  lemma ReachedAt(d: Disk, v: seq<Sector>, l: Layout, key: nat, h: seq<Batch>, x: nat)
    requires Reached(d, v, l, key, h) && x < l.blocks && x / 15 < l.metadataBlocks
    ensures LayoutOk(l, |v|) && |d.durable| == |v|
    ensures v[l.base + x / 15] in Values(d, l.base + x / 15) && v[l.dataBase + x] in Values(d, l.dataBase + x)
    ensures forall c :: Given(h, x, c) ==>
      Data(c) in Values(d, l.dataBase + x) && Shown(Values(d, l.base + x / 15), key, x, c)
  {
    assert DataReached(d, v, l, h, x) && TagsReached(d, v, l, key, h, x);
  }

  lemma SpoiltReturns(d: Disk, v: seq<Sector>, l: Layout, key: nat, h: seq<Batch>, x: nat)
    requires DiskValid(d) && Since(d, v, l, key, h) && Reached(d, v, l, key, h)
    requires x < l.blocks && x / 15 < l.metadataBlocks && Initialised(v, l, x / 15) && Spoilable(v, l, key, h, x)
    ensures MayReturn(d, l, key, x, Corrupt)
  {
    hide MayBe, Initialised, Since, Given, MayReturn, Reached;
    SinceSized(d, v, l, key, h);
    var m, a := l.base + x / 15, l.dataBase + x;
    ReachedAt(d, v, l, key, h, x);
    if c :| Given(h, x, c) && v[a] != Data(c) {
      var s :| s in Values(d, m) && Shows(s, key, x, c);
      var g := if c == [0] then [1] else [0];
      DataTorn(v[a], c, g);
      MayBeMore();
      assert {v[a], Data(c)} <= Values(d, a);
      assert MayHold(d, a, Data(g));
      Possible(d, m, s);
      Returns(d, v, l, key, h, x, s, Data(g));
    } else {
      var c :| Given(h, x, c) && TagAt(v[m], x % 15) != SectorMac(key, x, c);
      var s :| s in Values(d, m) && Shows(s, key, x, c);
      var torn := Tags(States(s), TagsOf(s)[x % 15 := BrokenTag(0)]);
      TagBroken(v[m], s, torn, x % 15);
      MayBeMore();
      assert {v[m], s} <= Values(d, m);
      assert MayHold(d, m, torn);
      Possible(d, a, v[a]);
      Returns(d, v, l, key, h, x, torn, v[a]);
    }
  }

  /** A tag that changes may be broken while it does. */
  lemma TagBroken(a: Sector, s: Sector, torn: Sector, n: nat)
    requires n < TAGS_PER_SECTOR && TagAt(a, n) != TagAt(s, n) && TagAt(s, n).SectorMac?
    requires torn == Tags(States(s), TagsOf(s)[n := BrokenTag(0)])
    ensures MayBe({a, s}, torn)
  {
    forall k: nat | k < TAGS_PER_SECTOR
      ensures TornCell({a, s}, torn, k)
    {
      assert StateAt(torn, k) == StateAt(s, k) && (k != n ==> TagAt(torn, k) == TagAt(s, k));
    }
    forall k: nat | k < BITS_PER_SECTOR
      ensures TornBit({a, s}, torn, k)
    {
      assert BitAt(s, k) == BitAt(torn, k);
    }
  }

  lemma LeftoverReturns(d: Disk, v: seq<Sector>, l: Layout, key: nat, h: seq<Batch>, x: nat)
    requires DiskValid(d) && Since(d, v, l, key, h) && Reached(d, v, l, key, h)
    requires x < l.blocks && x / 15 < l.metadataBlocks && Initialised(v, l, x / 15) && ExposedTo(v, l, key, h, x)
    ensures MayReturn(d, l, key, x, Leftover(v, l, key, x))
  {
    hide MayBe, Initialised, Since, MayReturn, Reached, Given;
    SinceSized(d, v, l, key, h);
    var m, a, e := l.base + x / 15, l.dataBase + x, Leftover(v, l, key, x).cipher;
    ReachedAt(d, v, l, key, h, x);
    LeftoverTagged(v, l, key, x);
    var c :| Given(h, x, c) && v[a] != Data(c);
    var s :| s in Values(d, m) && Shows(s, key, x, c);
    var torn := Tags(States(v[m])[x % 15 := 1], TagsOf(v[m]));
    CellsTorn(v[m], s, torn);
    DataTorn(v[a], c, e);
    MayBeMore();
    assert {v[m], s} <= Values(d, m) && {v[a], Data(c)} <= Values(d, a);
    assert MayHold(d, m, torn) && MayHold(d, a, Data(e));
    Returns(d, v, l, key, h, x, torn, Data(e));
  }

  /** Batches are issued only over published metadata sectors: publishing syncs. */
  ghost predicate OverPublished(v: seq<Sector>, l: Layout, h: seq<Batch>) {
    && LayoutOk(l, |v|)
    && forall x: nat :: x < l.blocks && Touched(h, x) ==> (MetaBound(l, |v|, x); Initialised(v, l, x / 15))
  }

  /** So a power loss may leave an address exactly as ReadSince says, and no other way. */
  lemma ReturnsExactly(d: Disk, v: seq<Sector>, l: Layout, key: nat, h: seq<Batch>, x: nat, r: Stored)
    requires DiskValid(d) && Since(d, v, l, key, h) && Reached(d, v, l, key, h) && OverPublished(v, l, h) && x < l.blocks
    ensures |d.durable| == |v| && LayoutOk(l, |v|)
    ensures MayReturn(d, l, key, x, r) <==> ReadSince(r, v, l, key, h, x)
  {
    hide Initialised, Since, Reached, Look, MayBe;
    SinceSized(d, v, l, key, h);
    MetaBound(l, |v|, x);
    if MayReturn(d, l, key, x, r) {
      var image :| CrashImage(d, image) && Look(image, l, key, x) == r;
      SinceReads(d, v, l, key, h, image);
    }
    if ReadSince(r, v, l, key, h, x) {
      if Initialised(v, l, x / 15) {
        AllReturn(d, v, l, key, h, x, r);
      } else {
        ItsOwnImage(d);
        SinceReads(d, v, l, key, h, d.live);
        assert !Touched(h, x);
        Untouched(v, l, key, h, x, r);
        Untouched(v, l, key, h, x, Look(d.live, l, key, x));
      }
    }
  }

  lemma SinceSized(d: Disk, v: seq<Sector>, l: Layout, key: nat, h: seq<Batch>)
    requires Since(d, v, l, key, h)
    ensures LayoutOk(l, |v|) && |d.live| == |d.durable| == |v|
  {
  }

  lemma Untouched(v: seq<Sector>, l: Layout, key: nat, h: seq<Batch>, x: nat, r: Stored)
    requires LayoutOk(l, |v|) && x < l.blocks && !Touched(h, x) && ReadSince(r, v, l, key, h, x)
    ensures r == Look(v, l, key, x)
  {
    hide Look, Leftover, Given;
  }

  /** Every power loss leaves such an image. */
  ghost predicate KeepsSince(d: Disk, v: seq<Sector>, l: Layout, key: nat, h: seq<Batch>) {
    |d.live| == |d.durable| == |v| && forall image :: CrashImage(d, image) ==> ReadsSince(image, v, l, key, h)
  }

  lemma SinceKeeps(d: Disk, v: seq<Sector>, l: Layout, key: nat, h: seq<Batch>)
    requires Since(d, v, l, key, h)
    ensures KeepsSince(d, v, l, key, h)
  {
    hide ReadsSince;
    forall image | CrashImage(d, image) {
      SinceReads(d, v, l, key, h, image);
    }
  }

  lemma ReadMore(r: Stored, v: seq<Sector>, l: Layout, key: nat, h: seq<Batch>, b: Batch, x: nat)
    requires LayoutOk(l, |v|) && x < l.blocks && ReadSince(r, v, l, key, h, x)
    ensures ReadSince(r, v, l, key, h + [b], x)
  {
    hide Given, Touched, Look;
    GivenMore(h, b);
    TouchedMore(h, b);
    if ExposedTo(v, l, key, h, x) {
      var c :| Given(h, x, c) && v[l.dataBase + x] != Data(c);
      assert Given(h + [b], x, c);
    }
  }

  lemma KeepsMore(d: Disk, v: seq<Sector>, l: Layout, key: nat, h: seq<Batch>, b: Batch)
    requires KeepsSince(d, v, l, key, h)
    ensures KeepsSince(d, v, l, key, h + [b])
  {
    hide Look, ReadSince;
    forall image | CrashImage(d, image)
      ensures ReadsSince(image, v, l, key, h + [b])
    {
      assert ReadsSince(image, v, l, key, h);
      forall x: nat | x < l.blocks {
        ReadMore(Look(image, l, key, x), v, l, key, h, b, x);
      }
    }
  }

  /** Setting the bits of a batch that is in place: start is the card before it, u what the
      card held at the last sync before that. */
  lemma PublishedKeeps(start: Disk, d: Disk, u: seq<Sector>, w: seq<Sector>, l: Layout, key: nat, h: seq<Batch>, b: Batch)
    requires DiskValid(start) && Since(start, u, l, key, h) && Placed(start.live, w, l, key, b.lba, b.data) && |b.data| > 0
    requires PublishedAll(d, w, l, b.lba / 15, (b.lba + |b.data| - 1) / 15 + 1)
    ensures KeepsSince(d, u, l, key, h + [b])
  {
    hide Look, Published, PlacedAt, ReadSince, DiskValid, Since;
    var v := start.live;
    ItsOwnImage(start);
    SinceReads(start, u, l, key, h, v);
    forall image | CrashImage(d, image)
      ensures ReadsSince(image, u, l, key, h + [b])
    {
      assert |image| == |v|;
      forall x: nat | x < l.blocks
        ensures ReadSince(Look(image, l, key, x), u, l, key, h + [b], x)
      {
        ReadMore(Look(v, l, key, x), u, l, key, h, b, x);
        PublishedReads(v, w, image, l, key, b.lba, b.data, x);
        if InRange(b.lba, |b.data|, x) {
          NewRead(u, l, key, h, b, x);
        }
      }
    }
  }

  lemma NewRead(u: seq<Sector>, l: Layout, key: nat, h: seq<Batch>, b: Batch, x: nat)
    requires LayoutOk(l, |u|) && x < l.blocks && InRange(b.lba, |b.data|, x)
    ensures ReadSince(Written(b.data[x - b.lba]), u, l, key, h + [b], x)
  {
    GivenMore(h, b);
    assert Gives(b, x, b.data[x - b.lba]);
  }

  // ---- Exactly when a cut write is old, new or an error ---------------------

  /** The values each sector may have been given by the data and metadata writes. */
  function Allowed(v: seq<Sector>, l: Layout, key: nat, lba: nat, data: seq<seq<byte>>, j: nat): set<Sector>
    requires LayoutOk(l, |v|) && j < |v|
  {
    if l.dataBase + lba <= j < l.dataBase + lba + |data| then {v[j], Data(data[j - l.dataBase - lba])}
    else if l.base <= j < l.dataBase && Touches(lba, |data|, j - l.base) then
      {v[j], Stamped(Metadata(v, l, j - l.base), j - l.base, key, lba, data)}
    else {v[j]}
  }

  /** Ciphertext and tags were accepted and nothing has been synced since: each sector may be
      what it was or what it was given. */
  ghost predicate Issued(d: Disk, v: seq<Sector>, l: Layout, key: nat, lba: nat, data: seq<seq<byte>>) {
    && LayoutOk(l, |v|) && |d.live| == |d.durable| == |v| && lba + |data| <= l.blocks
    && forall j: nat :: j < |v| ==> Values(d, j) == Allowed(v, l, key, lba, data, j)
  }

  /** The two writes of a batch bring a settled card there. */
  lemma WritesIssue(before: Disk, middle: Disk, after: Disk, l: Layout, key: nat, lba: nat, data: seq<seq<byte>>,
                    tags: seq<Sector>, ok: bool)
    requires DiskValid(before) && AllSure(before, 0, |before.live|) && LayoutOk(l, |before.live|)
    requires lba + |data| <= l.blocks && |data| > 0
    requires Wrote(before, middle, l.dataBase + lba, Ciphers(data), true)
    requires var first := lba / 15; var last := (lba + |data| - 1) / 15;
      && last < l.metadataBlocks && |tags| == last + 1 - first && Wrote(middle, after, l.base + first, tags, ok)
      && forall i: nat :: i < |tags| ==> tags[i] == Stamped(Metadata(before.live, l, first + i), first + i, key, lba, data)
    ensures Issued(after, before.live, l, key, lba, data)
  {
    hide Metadata, Stamped, MayBe;
    var v, first := before.live, lba / 15;
    forall j: nat | j < |v|
      ensures Values(after, j) == Allowed(v, l, key, lba, data, j)
    {
      assert Sure(before, j, v[j]);
      if l.base + first <= j < l.base + first + |tags| {
        var i: nat := j - l.base - first;
        assert tags[i] == Stamped(Metadata(v, l, first + i), first + i, key, lba, data);
      }
    }
  }

  /** Every image of the cut write reads old, new or as an error exactly if no written
      address is exposed. */
  lemma CutCleanExactlyWhenNoneExposed(d: Disk, v: seq<Sector>, l: Layout, key: nat, lba: nat, data: seq<seq<byte>>)
    requires Issued(d, v, l, key, lba, data)
    ensures (forall image :: CrashImage(d, image) ==> OldNewOrCorrupt(v, image, l, key, lba, data))
       <==> (forall x: nat :: InRange(lba, |data|, x) ==> !Exposed(v, l, key, lba, data, x))
  {
    hide Look, Leftover, CrashImage, Allowed, Values, ReadSince;
    if x: nat :| InRange(lba, |data|, x) && Exposed(v, l, key, lba, data, x) {
      var image := ExposedReturns(v, l, key, lba, data, x);
      assert !OldNewOrCorrupt(v, image, l, key, lba, data);
    } else {
      var b := Batch(lba, data);
      IssuedSince(d, v, l, key, lba, data);
      forall image | CrashImage(d, image)
        ensures OldNewOrCorrupt(v, image, l, key, lba, data)
      {
        SinceReads(d, v, l, key, [b], image);
        forall x: nat | x < l.blocks {
          OneBatchReads(Look(image, l, key, x), v, l, key, b, x);
        }
      }
    }
  }

  lemma IssuedSince(d: Disk, v: seq<Sector>, l: Layout, key: nat, lba: nat, data: seq<seq<byte>>)
    requires Issued(d, v, l, key, lba, data)
    ensures Since(d, v, l, key, [Batch(lba, data)])
  {
    hide Initialised, Stamped, CellSince, Given, Touches;
    var b := Batch(lba, data);
    GivenMore([], b);
    assert [] + [b] == [b];
    forall x: nat | x < l.blocks
      ensures DataSince(d, v, l, [b], x) && TagsSince(d, v, l, key, [b], x)
    {
      MetaBound(l, |v|, x);
      var s := v[l.base + x / 15];
      UnchangedCell(s, key, b, x);
      assert Values(d, l.dataBase + x) == Allowed(v, l, key, lba, data, l.dataBase + x);
      assert Values(d, l.base + x / 15) == Allowed(v, l, key, lba, data, l.base + x / 15);
    }
  }

  lemma UnchangedCell(s: Sector, key: nat, b: Batch, x: nat)
    ensures CellSince(s, s, key, [b], x) && CellSince(Stamped(s, x / 15, key, b.lba, b.data), s, key, [b], x)
  {
    StampedSince(s, s, key, [], b, x);
    assert [] + [b] == [b];
  }

  lemma OneBatchReads(r: Stored, v: seq<Sector>, l: Layout, key: nat, b: Batch, x: nat)
    requires LayoutOk(l, |v|) && x < l.blocks && ReadSince(r, v, l, key, [b], x)
    ensures if InRange(b.lba, |b.data|, x)
            then r in {Look(v, l, key, x), Written(b.data[x - b.lba]), Corrupt}
                 || (r == Leftover(v, l, key, x) && Exposed(v, l, key, b.lba, b.data, x))
            else r == Look(v, l, key, x)
  {
    hide Look, Leftover, Given;
    GivenMore([], b);
    assert [] + [b] == [b];
    assert forall c :: !Given([], x, c) by { NoneGiven(x); }
    if InRange(b.lba, |b.data|, x) {
      assert Gives(b, x, b.data[x - b.lba]);
    }
  }

  lemma NoneGiven(x: nat)
    ensures forall c :: !Given([], x, c)
  {
  }

  /** What a caller can check beforehand: the address reads back, or its metadata sector has
      never been published. */
  lemma NoneExposed(v: seq<Sector>, l: Layout, key: nat, lba: nat, data: seq<seq<byte>>, x: nat)
    requires LayoutOk(l, |v|) && lba + |data| <= l.blocks && InRange(lba, |data|, x)
    requires Look(v, l, key, x).Written? || (MetaBound(l, |v|, x); !Initialised(v, l, x / 15))
    ensures !Exposed(v, l, key, lba, data, x)
  {
    NoLeftover(v, l, key, x);
  }

  /** The image in which the old tag meets the new state byte and its own ciphertext. */
  lemma ExposedReturns(v: seq<Sector>, l: Layout, key: nat, lba: nat, data: seq<seq<byte>>, x: nat)
    returns (image: seq<Sector>)
    requires LayoutOk(l, |v|) && lba + |data| <= l.blocks && InRange(lba, |data|, x) && Exposed(v, l, key, lba, data, x)
    ensures forall d :: Issued(d, v, l, key, lba, data) ==> CrashImage(d, image)
    ensures |image| == |v| && Look(image, l, key, x) == Leftover(v, l, key, x)
  {
    hide Initialised, Stamped, Look, Values, Allowed, MayBe, CrashImage, Issued;
    MetaBound(l, |v|, x);
    var m, n := x / 15, x % 15;
    LeftoverTagged(v, l, key, x);
    AllowedAt(v, l, key, lba, data, x);
    var s, c := v[l.base + m], Leftover(v, l, key, x).cipher;
    var torn := Tags(States(s)[n := 1], TagsOf(s));
    image := v[l.base + m := torn][l.dataBase + x := Data(c)];
    StateTorn(s, Stamped(s, m, key, lba, data), torn, m, key, lba, data, x);
    DataTorn(v[l.dataBase + x], data[x - lba], c);
    forall d | Issued(d, v, l, key, lba, data)
      ensures CrashImage(d, image)
    {
      IssuedImage(d, v, l, key, lba, data, image, l.base + m, l.dataBase + x);
    }
    LeftoverReads(v, image, l, key, x);
  }

  lemma AllowedAt(v: seq<Sector>, l: Layout, key: nat, lba: nat, data: seq<seq<byte>>, x: nat)
    requires LayoutOk(l, |v|) && lba + |data| <= l.blocks && InRange(lba, |data|, x)
    requires x / 15 < l.metadataBlocks && Initialised(v, l, x / 15)
    ensures Allowed(v, l, key, lba, data, l.base + x / 15) == {v[l.base + x / 15], Stamped(v[l.base + x / 15], x / 15, key, lba, data)}
    ensures Allowed(v, l, key, lba, data, l.dataBase + x) == {v[l.dataBase + x], Data(data[x - lba])}
  {
    hide Initialised, Stamped;
    RangeTouches(lba, |data|, x);
  }

  lemma LeftoverTagged(v: seq<Sector>, l: Layout, key: nat, x: nat)
    requires LayoutOk(l, |v|) && x < l.blocks && x / 15 < l.metadataBlocks && Leftover(v, l, key, x) != Corrupt
    ensures Initialised(v, l, x / 15) && v[l.base + x / 15].Tags? && Leftover(v, l, key, x).Written?
    ensures TagAt(v[l.base + x / 15], x % 15) == SectorMac(key, x, Leftover(v, l, key, x).cipher)
  {
  }

  lemma LeftoverReads(v: seq<Sector>, image: seq<Sector>, l: Layout, key: nat, x: nat)
    requires LayoutOk(l, |v|) && x < l.blocks && x / 15 < l.metadataBlocks && Initialised(v, l, x / 15)
    requires Leftover(v, l, key, x).Written?
    requires var s := v[l.base + x / 15];
      image == v[l.base + x / 15 := Tags(States(s)[x % 15 := 1], TagsOf(s))][l.dataBase + x := Data(Leftover(v, l, key, x).cipher)]
    ensures Look(image, l, key, x) == Leftover(v, l, key, x)
  {
    assert forall j: nat :: j < l.base ==> image[j] == v[j];
    SameBits(image, v, l);
  }

  lemma IssuedImage(d: Disk, v: seq<Sector>, l: Layout, key: nat, lba: nat, data: seq<seq<byte>>, image: seq<Sector>, a: nat, b: nat)
    requires Issued(d, v, l, key, lba, data) && |image| == |v| && a < |v| && b < |v|
    requires forall j :: 0 <= j < |v| && j != a && j != b ==> image[j] == v[j]
    requires MayBe(Allowed(v, l, key, lba, data, a), image[a]) && MayBe(Allowed(v, l, key, lba, data, b), image[b])
    ensures CrashImage(d, image)
  {
    hide MayBe;
    forall j | 0 <= j < |image|
      ensures MayHold(d, j, image[j])
    {
      if j != a && j != b {
        Possible(d, j, image[j]);
      }
    }
  }

  /** A torn metadata sector: every cell takes its state and its tag from one of two sectors. */
  lemma CellsTorn(s: Sector, b: Sector, torn: Sector)
    requires s.Tags? && torn.Tags?
    requires forall k: nat :: k < TAGS_PER_SECTOR ==>
      StateAt(torn, k) in {StateAt(s, k), StateAt(b, k)} && TagAt(torn, k) in {TagAt(s, k), TagAt(b, k)}
    requires s != b
    ensures MayBe({s, b}, torn)
  {
    forall k: nat | k < TAGS_PER_SECTOR
      ensures TornCell({s, b}, torn, k)
    {
    }
    forall k: nat | k < BITS_PER_SECTOR
      ensures TornBit({s, b}, torn, k)
    {
      assert BitAt(s, k) == BitAt(torn, k);
    }
  }

  lemma StateTorn(s: Sector, b: Sector, torn: Sector, m: nat, key: nat, lba: nat, data: seq<seq<byte>>, x: nat)
    requires s.Tags? && x / 15 == m && InRange(lba, |data|, x) && b == Stamped(s, m, key, lba, data)
    requires torn == Tags(States(s)[x % 15 := 1], TagsOf(s)) && TagAt(s, x % 15) != SectorMac(key, x, data[x - lba])
    ensures MayBe({s, b}, torn)
  {
    hide Stamped;
    StampedAt(s, m, key, lba, data, x % 15);
    assert 15 * m + x % 15 == x;
    forall k: nat | k < TAGS_PER_SECTOR
      ensures StateAt(torn, k) in {StateAt(s, k), StateAt(b, k)} && TagAt(torn, k) in {TagAt(s, k), TagAt(b, k)}
    {
    }
    CellsTorn(s, b, torn);
  }

  /** A sector that changes may, torn, hold any bytes. */
  lemma DataTorn(before: Sector, c: seq<byte>, g: seq<byte>)
    requires before != Data(c)
    ensures MayBe({before, Data(c)}, Data(g))
  {
    assert forall n: nat :: StateAt(Data(c), n) == StateAt(Data(g), n) && TagAt(Data(c), n) == TagAt(Data(g), n);
    assert forall n: nat :: BitAt(Data(c), n) == BitAt(Data(g), n);
    assert before in {before, Data(c)} && Data(c) in {before, Data(c)};
  }

  /** A run from a freshly formatted store that reads a write nobody saw. A neighbour's write
      publishes the metadata sector. The first write of x is cut with its ciphertext and tag
      in place but the state byte still unset, so x reads as unset. The second write of x is
      cut with only the state byte in place: x reads as the first. */
  lemma TwoCutsRevive(v: seq<Sector>, first: seq<Sector>, l: Layout, key: nat, y: nat, x: nat, c0: seq<byte>, c1: seq<byte>, c2: seq<byte>)
    returns (second: seq<Sector>, third: seq<Sector>)
    requires LayoutOk(l, |v|) && x < l.blocks && y < l.blocks && x != y && x / 15 == y / 15 && c1 != c2
    requires Image(v, l, key) == seq(l.blocks, i => Unset)
    requires forall i: nat :: i < l.blocks ==> Leftover(v, l, key, i) == Corrupt
    requires Updated(v, first, l, key, y, [c0])
    ensures |second| == |third| == |first| == |v|
    ensures forall d :: Issued(d, first, l, key, x, [c1]) ==> CrashImage(d, second)
    ensures Look(second, l, key, x) == Unset
    ensures forall d :: Issued(d, second, l, key, x, [c2]) ==> CrashImage(d, third)
    ensures Look(third, l, key, x) == Written(c1)
  {
    hide Initialised, Stamped, Issued, Metadata, Allowed, CrashImage, Look, Leftover, MayBe;
    MetaBound(l, |v|, x);
    UpdatedReads(v, first, l, key, y, [c0], x);
    RangeTouches(y, 1, y);
    assert Touches(y, 1, x / 15) && Initialised(first, l, x / 15);
    assert Image(v, l, key)[x] == Look(v, l, key, x);
    second := TagWithoutState(first, l, key, x, c1);
    assert Exposed(second, l, key, x, [c2], x);
    third := ExposedReturns(second, l, key, x, [c2], x);
  }

  /** The first cut of such a run: ciphertext and tag are in place, the state byte is not. */
  lemma TagWithoutState(v: seq<Sector>, l: Layout, key: nat, x: nat, c: seq<byte>) returns (image: seq<Sector>)
    requires LayoutOk(l, |v|) && x < l.blocks && x / 15 < l.metadataBlocks && Initialised(v, l, x / 15)
    requires Look(v, l, key, x) == Unset
    ensures |image| == |v| && image[l.dataBase + x] == Data(c)
    ensures forall d :: Issued(d, v, l, key, x, [c]) ==> CrashImage(d, image)
    ensures Look(image, l, key, x) == Unset && Leftover(image, l, key, x) == Written(c)
  {
    hide Initialised, Stamped, Issued, Allowed, CrashImage, MayBe, Leftover, Look;
    var m, n := x / 15, x % 15;
    UnsetCell(v, l, key, x);
    AllowedAt(v, l, key, x, [c], x);
    var s := v[l.base + m];
    var spoilt := Tags(States(s), TagsOf(s)[n := SectorMac(key, x, c)]);
    image := v[l.base + m := spoilt][l.dataBase + x := Data(c)];
    TagTorn(s, spoilt, m, key, x, c);
    Listed({v[l.dataBase + x], Data(c)}, Data(c));
    forall d | Issued(d, v, l, key, x, [c])
      ensures CrashImage(d, image)
    {
      IssuedImage(d, v, l, key, x, [c], image, l.base + m, l.dataBase + x);
    }
    assert forall j: nat :: j < l.base ==> image[j] == v[j];
    SameBits(image, v, l);
    SpoiltReads(image, l, key, x, c);
  }

  lemma UnsetCell(v: seq<Sector>, l: Layout, key: nat, x: nat)
    requires LayoutOk(l, |v|) && x < l.blocks && x / 15 < l.metadataBlocks && Initialised(v, l, x / 15)
    requires Look(v, l, key, x) == Unset
    ensures StateAt(v[l.base + x / 15], x % 15) == 0 && v[l.base + x / 15].Tags?
  {
  }

  lemma SpoiltReads(image: seq<Sector>, l: Layout, key: nat, x: nat, c: seq<byte>)
    requires LayoutOk(l, |image|) && x < l.blocks && x / 15 < l.metadataBlocks && Initialised(image, l, x / 15)
    requires StateAt(image[l.base + x / 15], x % 15) == 0 && TagAt(image[l.base + x / 15], x % 15) == SectorMac(key, x, c)
    ensures Look(image, l, key, x) == Unset && Leftover(image, l, key, x) == Written(c)
  {
  }

  lemma Listed(values: set<Sector>, s: Sector)
    requires s in values
    ensures MayBe(values, s)
  {
  }

  lemma TagTorn(s: Sector, torn: Sector, m: nat, key: nat, x: nat, c: seq<byte>)
    requires s.Tags? && x / 15 == m && StateAt(s, x % 15) == 0
    requires torn == Tags(States(s), TagsOf(s)[x % 15 := SectorMac(key, x, c)])
    ensures MayBe({s, Stamped(s, m, key, x, [c])}, torn)
  {
    hide Stamped;
    var b := Stamped(s, m, key, x, [c]);
    StampedAt(s, m, key, x, [c], x % 15);
    assert 15 * m + x % 15 == x;
    forall k: nat | k < TAGS_PER_SECTOR
      ensures StateAt(torn, k) in {StateAt(s, k), StateAt(b, k)} && TagAt(torn, k) in {TagAt(s, k), TagAt(b, k)}
    {
    }
    CellsTorn(s, b, torn);
  }

  // ---- The store -----------------------------------------------------------

  class AuthStore {
    const dev: Device
    const layout: Layout
    /** Stands for the authentication key and the volume it is for. */
    const key: nat
    var ready: bool
    var cacheFirst: nat
    var cache: seq<Sector>
    var initialised: seq<bool>
    var bitmapCached: bool
    var bitmapSector: nat
    var bitmapCache: Sector

    /** Opens when everything fits. */
    constructor Open(bitmap: bool, dev: Device, base: nat, blocks: nat, key: nat)
      ensures this.dev == dev && this.key == key && cache == [] && initialised == [] && !bitmapCached
      ensures layout == LayoutAt(bitmap, base, blocks)
      ensures ready <==> LayoutOk(layout, dev.BlockCount())
    {
      var l, capacity := LayoutAt(bitmap, base, blocks), dev.BlockCount();
      this.dev, this.key, layout := dev, key, l;
      ready := blocks > 0
        && !(base > capacity || l.bitmapBlocks > capacity - base || l.metadataBlocks > capacity - base - l.bitmapBlocks
             || blocks > capacity - base - l.bitmapBlocks - l.metadataBlocks);
      cacheFirst, cache, initialised := 0, [], [];
      bitmapCached, bitmapSector, bitmapCache := false, 0, ZeroBits();
    }

    ghost predicate Attached()
      reads this, dev
    {
      && dev.Valid() && LayoutOk(layout, |dev.Contents()|)
      && dev.Writable(layout.bitmapBase, layout.dataBase + layout.blocks - layout.bitmapBase)
    }

    /** The bitmap cache shadows the medium. */
    ghost predicate BitmapAgrees()
      requires Attached()
      reads this, dev
    {
      bitmapCached ==> bitmapSector < layout.bitmapBlocks && bitmapCache == dev.Contents()[layout.bitmapBase + bitmapSector]
    }

    predicate WindowOk()
      reads this
    {
      |cache| == |initialised| <= CACHE_BLOCKS && (|cache| > 0 ==> cacheFirst + |cache| <= layout.metadataBlocks)
    }

    ghost predicate BitsAgree()
      requires Attached()
      reads this, dev
    {
      && WindowOk()
      && (layout.bitmapBlocks > 0 ==>
            forall i :: 0 <= i < |cache| ==> initialised[i] == Initialised(dev.Contents(), layout, cacheFirst + i))
    }

    ghost predicate TagsAgree()
      requires Attached()
      reads this, dev
    {
      && WindowOk()
      && forall i :: 0 <= i < |cache| ==> cache[i] == Metadata(dev.Contents(), layout, cacheFirst + i)
    }

    ghost predicate Valid()
      reads this, dev
    {
      && dev.Sound()
      && (ready ==> Attached() && BitmapAgrees() && BitsAgree() && TagsAgree())
    }

    /** The window covers the metadata of these addresses. */
    predicate Covers(lba: nat, n: nat)
      reads this
    {
      n > 0 && |cache| > 0 && cacheFirst <= lba / 15 && (lba + n - 1) / 15 < cacheFirst + |cache|
    }

    method Fault(r: BlockResult) returns (result: BlockResult)
      modifies this`ready, this`cache, this`initialised, this`bitmapCached
      ensures result == r && !ready && cache == [] && !bitmapCached
    {
      ready, cache, initialised, bitmapCached := false, [], [], false;
      result := r;
    }

    method BitmapLoad(m: nat) returns (ok: bool)
      requires Attached() && BitmapAgrees() && layout.bitmapBlocks > 0 && m < layout.metadataBlocks
      modifies this`bitmapCached, this`bitmapSector, this`bitmapCache
      ensures BitmapAgrees()
      ensures ok ==> bitmapCached && bitmapSector == SectorOf(m)
      ensures dev.disk.reliable ==> ok
    {
      hide Device.Valid, Device.Contents;
      BitmapBound(layout, |dev.Contents()|, m);
      var sector := SectorOf(m);
      if bitmapCached && bitmapSector == sector {
        return true;
      }
      bitmapCached := false;
      var data;
      ok, data := dev.Read(layout.bitmapBase + sector, 1);
      if ok {
        bitmapSector, bitmapCached, bitmapCache := sector, true, data[0];
      }
    }

    method Validate(lba: nat, n: nat) returns (r: BlockResult)
      ensures r == (if n == 0 || n > MAX_BATCH then InvalidArgument else if !ready then NotReady
                    else if lba + n > layout.blocks then OutOfRange else Okay)
    {
      if n == 0 || n > MAX_BATCH {
        return InvalidArgument;
      }
      if !ready {
        return NotReady;
      }
      if lba >= layout.blocks || n > layout.blocks - lba {
        return OutOfRange;
      }
      return Okay;
    }

    /** Which of these metadata sectors are in use. */
    method LoadBits(first: nat, n: nat) returns (ok: bool, bits: seq<bool>)
      requires Attached() && BitmapAgrees() && layout.bitmapBlocks > 0 && first + n <= layout.metadataBlocks
      modifies this`bitmapCached, this`bitmapSector, this`bitmapCache
      ensures BitmapAgrees()
      ensures ok ==> |bits| == n && forall i :: 0 <= i < n ==> bits[i] == Initialised(dev.Contents(), layout, first + i)
      ensures dev.disk.reliable ==> ok
    {
      hide Device.Valid, Device.Contents;
      bits := [];
      for i := 0 to n
        invariant BitmapAgrees() && |bits| == i
        invariant forall j :: 0 <= j < i ==> bits[j] == Initialised(dev.Contents(), layout, first + j)
      {
        ok := BitmapLoad(first + i);
        if !ok {
          return;
        }
        bits := bits + [BitAt(bitmapCache, BitOf(first + i))];
      }
      ok := true;
    }

    /** Read the sectors in use run by run; the others are blank whatever they hold. */
    method LoadRuns(first: nat, bits: seq<bool>) returns (ok: bool, tags: seq<Sector>)
      requires Attached() && first + |bits| <= layout.metadataBlocks
      requires forall i :: 0 <= i < |bits| ==> bits[i] == Initialised(dev.Contents(), layout, first + i)
      ensures ok ==> |tags| == |bits| && forall i :: 0 <= i < |bits| ==> tags[i] == Metadata(dev.Contents(), layout, first + i)
      ensures dev.disk.reliable ==> ok
    {
      hide Device.Valid, Device.Contents, Initialised;
      tags := [];
      var i := 0;
      ghost var v := dev.Contents();
      while i < |bits|
        invariant 0 <= i <= |bits| && |tags| == i
        invariant forall j :: 0 <= j < i ==> tags[j] == Metadata(v, layout, first + j)
      {
        if !bits[i] {
          tags := tags + [ZeroTags()];
          i := i + 1;
        } else {
          var start := i;
          while i < |bits| && bits[i]
            invariant start <= i <= |bits| && (i == start ==> bits[i])
            invariant forall j :: start <= j < i ==> bits[j]
          {
            i := i + 1;
          }
          var run;
          ok, run := dev.Read(layout.base + first + start, i - start);
          if !ok {
            return;
          }
          forall j | start <= j < i
            ensures (tags + run)[j] == Metadata(v, layout, first + j)
          {
            assert bits[j] && (tags + run)[j] == run[j - start] == v[layout.base + first + j];
          }
          tags := tags + run;
        }
      }
      ok := true;
    }

    method LoadWindow(first: nat, n: nat) returns (ok: bool, bits: seq<bool>, tags: seq<Sector>)
      requires Attached() && BitmapAgrees() && first + n <= layout.metadataBlocks
      modifies this`bitmapCached, this`bitmapSector, this`bitmapCache
      ensures BitmapAgrees()
      ensures ok ==> |bits| == |tags| == n
      ensures ok ==> forall i :: 0 <= i < n ==> bits[i] == Initialised(dev.Contents(), layout, first + i)
      ensures ok ==> forall i :: 0 <= i < n ==> tags[i] == Metadata(dev.Contents(), layout, first + i)
      ensures dev.disk.reliable ==> ok
    {
      hide Device.Valid, Device.Contents;
      bits, tags := seq(n, i => true), [];
      if layout.bitmapBlocks == 0 {
        ok, tags := dev.Read(layout.base + first, n);
      } else {
        ok, bits := LoadBits(first, n);
        if ok {
          ok, tags := LoadRuns(first, bits);
        }
      }
    }

    /** Bring the metadata of these addresses into the window, which always has room. */
    method Load(lba: nat, n: nat) returns (r: BlockResult)
      requires ready && Valid() && 0 < n <= MAX_BATCH && lba + n <= layout.blocks
      modifies this`ready, this`cacheFirst, this`cache, this`initialised, this`bitmapCached, this`bitmapSector, this`bitmapCache
      ensures Valid() && (ready <==> r == Okay) && (r == Okay ==> Covers(lba, n))
      ensures r in {Okay, IoError} && (dev.disk.reliable ==> r == Okay)
    {
      hide Device.Valid, Device.Contents, Initialised, Metadata, Device.Settled, DiskValid, LayoutOk;
      var first, last := lba / 15, (lba + n - 1) / 15;
      MetaBound(layout, dev.BlockCount(), lba + n - 1);
      WindowFits(lba, n);
      if |cache| > 0 && first >= cacheFirst && last < cacheFirst + |cache| {
        return Okay;
      }
      cache, initialised := [], [];
      var ok, bits, tags := LoadWindow(first, last - first + 1);
      if !ok {
        r := Fault(IoError);
        return;
      }
      cacheFirst, cache, initialised := first, tags, bits;
      r := Okay;
    }

    predicate InWindow(x: nat)
      reads this
    {
      |cache| > 0 && cacheFirst <= x / 15 < cacheFirst + |cache|
    }

    /** The window's copy of the cell of an address. */
    function CellState(x: nat): byte
      requires InWindow(x)
      reads this
    {
      StateAt(cache[x / 15 - cacheFirst], x % 15)
    }

    function CellTag(x: nat): SectorTag
      requires InWindow(x)
      reads this
    {
      TagAt(cache[x / 15 - cacheFirst], x % 15)
    }

    predicate Matches(x: nat, s: Sector)
      requires InWindow(x)
      reads this
    {
      s.Data? && CellTag(x) == SectorMac(key, x, s.bytes)
    }

    lemma CoversEach(lba: nat, n: nat)
      requires Covers(lba, n)
      ensures forall x: nat :: InRange(lba, n, x) ==> InWindow(x)
    {
      forall x: nat | InRange(lba, n, x)
        ensures InWindow(x)
      {
        DivideMonotone(lba, x);
        DivideMonotone(x, lba + n - 1);
      }
    }

    lemma LookInWindow(x: nat)
      requires Attached() && TagsAgree() && x < layout.blocks && InWindow(x)
      ensures Look(dev.Contents(), layout, key, x)
           == Judge(key, x, CellState(x), CellTag(x), dev.Contents()[layout.dataBase + x])
    {
      hide Device.Valid, Device.Contents, Initialised, Metadata;
      MetaBound(layout, |dev.Contents()|, x);
      var i := x / 15 - cacheFirst;
      assert cache[i] == Metadata(dev.Contents(), layout, cacheFirst + i);
    }

    lemma LooksInWindow()
      requires Attached() && TagsAgree()
      ensures forall x: nat :: x < layout.blocks && InWindow(x) ==>
        Look(dev.Contents(), layout, key, x) == Judge(key, x, CellState(x), CellTag(x), dev.Contents()[layout.dataBase + x])
    {
      hide Look, Judge, CellState, CellTag, Attached, TagsAgree, InWindow;
      forall x: nat | x < layout.blocks && InWindow(x) {
        LookInWindow(x);
      }
    }

    /** Sort the addresses into unset and written. */
    method ReadStates(lba: nat, n: nat) returns (ok: bool, unset: seq<bool>)
      requires Covers(lba, n)
      ensures forall x: nat :: InRange(lba, n, x) ==> InWindow(x)
      ensures ok ==> |unset| == n && forall x: nat :: InRange(lba, n, x) ==> CellState(x) == if unset[x - lba] then 0 else 1
      ensures !ok ==> exists x: nat :: InRange(lba, n, x) && CellState(x) !in {0, 1}
    {
      CoversEach(lba, n);
      unset := [];
      for i := 0 to n
        invariant |unset| == i
        invariant forall x: nat :: InRange(lba, i, x) ==> CellState(x) == if unset[x - lba] then 0 else 1
      {
        assert InRange(lba, n, lba + i);
        var state := CellState(lba + i);
        if state !in {0, 1} {
          return false, unset;
        }
        unset := unset + [state == 0];
      }
      ok := true;
    }

    /** Read the written addresses run by run; the others read as zeros. */
    method ReadRuns(lba: nat, unset: seq<bool>) returns (ok: bool, data: seq<Sector>)
      requires Attached() && lba + |unset| <= layout.blocks
      ensures ok ==> |data| == |unset|
      ensures ok ==> forall i :: 0 <= i < |unset| ==>
        data[i] == if unset[i] then Data(Zeros(512)) else dev.Contents()[layout.dataBase + lba + i]
      ensures dev.disk.reliable ==> ok
    {
      hide Device.Valid, Device.Contents;
      data := [];
      var i := 0;
      ghost var v := dev.Contents();
      while i < |unset|
        invariant 0 <= i <= |unset| && |data| == i
        invariant forall j :: 0 <= j < i ==> data[j] == if unset[j] then Data(Zeros(512)) else v[layout.dataBase + lba + j]
      {
        if unset[i] {
          data := data + [Data(Zeros(512))];
          i := i + 1;
        } else {
          var start := i;
          i := i + 1;
          while i < |unset| && !unset[i]
            invariant start < i <= |unset|
            invariant forall j :: start <= j < i ==> !unset[j]
          {
            i := i + 1;
          }
          var run;
          ok, run := dev.Read(layout.dataBase + lba + start, i - start);
          if !ok {
            return;
          }
          forall j | start <= j < i
            ensures (data + run)[j] == v[layout.dataBase + lba + j]
          {
            assert (data + run)[j] == run[j - start] == v[layout.dataBase + lba + start + (j - start)];
          }
          data := data + run;
        }
      }
      ok := true;
    }

    /** Check every written address against its tag. */
    method CheckTags(lba: nat, unset: seq<bool>, data: seq<Sector>) returns (ok: bool, ciphers: seq<seq<byte>>)
      requires |data| == |unset| && forall x: nat :: InRange(lba, |unset|, x) ==> InWindow(x)
      ensures ok ==> |ciphers| == |unset|
      ensures ok ==> forall x: nat :: InRange(lba, |unset|, x) ==>
        if unset[x - lba] then ciphers[x - lba] == Zeros(512)
        else data[x - lba] == Data(ciphers[x - lba]) && Matches(x, data[x - lba])
      ensures !ok ==> exists x: nat :: InRange(lba, |unset|, x) && !unset[x - lba] && !Matches(x, data[x - lba])
    {
      ciphers := [];
      for i := 0 to |unset|
        invariant |ciphers| == i
        invariant forall x: nat :: InRange(lba, i, x) ==>
          if unset[x - lba] then ciphers[x - lba] == Zeros(512)
          else data[x - lba] == Data(ciphers[x - lba]) && Matches(x, data[x - lba])
      {
        assert InRange(lba, |unset|, lba + i);
        if !unset[i] && !Matches(lba + i, data[i]) {
          return false, ciphers;
        }
        ghost var before := ciphers;
        ciphers := ciphers + [if unset[i] then Zeros(512) else data[i].bytes];
        ghost var n := i + 1;
        forall x: nat | InRange(lba, n, x)
          ensures if unset[x - lba] then ciphers[x - lba] == Zeros(512)
                  else data[x - lba] == Data(ciphers[x - lba]) && Matches(x, data[x - lba])
        {
          if x < lba + i {
            assert InRange(lba, i, x) && ciphers[x - lba] == before[x - lba];
          }
        }
      }
      ok := true;
    }

    /** What the read found, in terms of the medium. */
    ghost predicate ReadRight(lba: nat, data: seq<seq<byte>>, unset: seq<bool>)
      requires Attached() && lba + |data| <= layout.blocks
      reads this, dev
    {
      && |data| == |unset|
      && forall x: nat :: InRange(lba, |data|, x) ==>
           if unset[x - lba] then Contents()[x] == Unset && data[x - lba] == Zeros(512)
           else Contents()[x] == Written(data[x - lba])
    }

    ghost predicate SomeCorrupt(lba: nat, n: nat)
      requires Attached() && lba + n <= layout.blocks
      reads this, dev
    {
      exists x: nat :: InRange(lba, n, x) && Contents()[x] == Corrupt
    }

    method ReadCells(lba: nat, n: nat) returns (r: BlockResult, data: seq<seq<byte>>, unset: seq<bool>)
      requires Attached() && TagsAgree() && Covers(lba, n) && lba + n <= layout.blocks
      ensures r in {Okay, IoError, IntegrityError} && (dev.disk.reliable ==> r != IoError)
      ensures r == Okay ==> |data| == n && ReadRight(lba, data, unset)
      ensures r == IntegrityError ==> SomeCorrupt(lba, n)
    {
      hide Device.Valid, Device.Contents, Initialised, Metadata, Look, LayoutOk, TagsAgree, CellState, CellTag;
      CoversEach(lba, n);
      LooksInWindow();
      data := [];
      var ok;
      ok, unset := ReadStates(lba, n);
      if !ok {
        return IntegrityError, data, unset;
      }
      var raw;
      ok, raw := ReadRuns(lba, unset);
      if !ok {
        return IoError, data, unset;
      }
      ok, data := CheckTags(lba, unset, raw);
      r := if ok then Okay else IntegrityError;
    }

    /** A batch read: what each address holds, or an error that spoils the whole batch. */
    method ReadBatch(lba: nat, n: nat) returns (r: BlockResult, data: seq<seq<byte>>, unset: seq<bool>)
      requires Valid()
      modifies this`ready, this`cacheFirst, this`cache, this`initialised, this`bitmapCached, this`bitmapSector, this`bitmapCache
      ensures Valid() && (ready <==> old(ready) && r != IoError)
      ensures r in {Okay, IntegrityError} ==> old(ready) && 0 < n <= MAX_BATCH && lba + n <= layout.blocks
      ensures r == Okay ==> |data| == n && ReadRight(lba, data, unset)
      ensures r == IntegrityError ==> SomeCorrupt(lba, n)
      ensures dev.disk.reliable && old(ready) && 0 < n <= MAX_BATCH && lba + n <= layout.blocks ==> r in {Okay, IntegrityError}
      ensures r != Okay ==> data == [] && unset == []
    {
      hide Device.Valid, Device.Contents, Initialised, Metadata, Look, LayoutOk, Device.Settled, DiskValid;
      data, unset := [], [];
      r := Validate(lba, n);
      if r != Okay {
        return;
      }
      r := Load(lba, n);
      if r != Okay {
        return;
      }
      r, data, unset := ReadCells(lba, n);
      if r != Okay {
        data, unset := [], [];
        cache, initialised := [], [];
        if r != IntegrityError {
          r := Fault(r);
        }
      }
    }

    /** Put the tags of the new ciphertext into the window. */
    method Stamp(lba: nat, data: seq<seq<byte>>)
      requires Covers(lba, |data|) && WindowOk()
      modifies this`cache
      ensures |cache| == |old(cache)|
      ensures forall j: nat :: j < |cache| ==> cache[j] == Stamped(old(cache)[j], cacheFirst + j, key, lba, data)
    {
      hide Stamped, SetCell;
      ghost var before := cache;
      CoversEach(lba, |data|);
      NothingStamped(before, cacheFirst, key, lba, data);
      for i := 0 to |data|
        invariant |cache| == |before|
        invariant forall j: nat :: j < |cache| ==> cache[j] == Stamped(before[j], cacheFirst + j, key, lba, data[..i])
      {
        assert InRange(lba, |data|, lba + i);
        var x := lba + i;
        var m := x / 15 - cacheFirst;
        StampLine(before, cache, cacheFirst, key, lba, data, i);
        cache := cache[m := SetCell(cache[m], x % 15, SectorMac(key, x, data[i]))];
      }
      assert data[..|data|] == data;
    }

    /** Set the bits of the metadata sectors from at on that share a bitmap sector. */
    method MarkRun(at: nat, end: nat) returns (next: nat, changed: bool)
      requires at < end && WindowOk() && |cache| > 0 && cacheFirst <= at && end <= cacheFirst + |cache|
      requires forall m: nat :: at <= m < end && SectorOf(m) == SectorOf(at) ==>
        initialised[m - cacheFirst] == BitAt(bitmapCache, BitOf(m))
      modifies this`bitmapCache
      ensures at < next <= end && (forall m: nat :: at <= m < next ==> SectorOf(m) == SectorOf(at))
      ensures next < end ==> SectorOf(next) != SectorOf(at)
      ensures Marked(old(bitmapCache), bitmapCache, SectorOf(at), at, next)
      ensures !changed ==> bitmapCache == old(bitmapCache)
    {
      ghost var before := bitmapCache;
      next, changed := at, false;
      while next == at || (next < end && SectorOf(next) == SectorOf(at))
        invariant at <= next <= end && (forall m: nat :: at <= m < next ==> SectorOf(m) == SectorOf(at))
        invariant forall b: nat :: b < BITS_PER_SECTOR ==>
          (BitAt(bitmapCache, b) <==> BitAt(before, b) || at <= 4096 * SectorOf(at) + b < next)
        invariant !changed ==> bitmapCache == before
        decreases end - next
      {
        var bit := BitOf(next);
        assert 4096 * SectorOf(next) + bit == next && SectorOf(next) == SectorOf(at);
        if !initialised[next - cacheFirst] {
          bitmapCache, changed := SetBit(bitmapCache, bit), true;
        }
        next := next + 1;
      }
    }

    ghost predicate BitsAgreeFrom(at: nat, end: nat)
      requires Attached()
      reads this, dev
    {
      && WindowOk() && |cache| > 0 && cacheFirst <= at && end <= cacheFirst + |cache|
      && forall m: nat :: at <= m < end ==> initialised[m - cacheFirst] == Initialised(dev.Contents(), layout, m)
    }

    lemma WindowBits(at: nat, end: nat)
      requires Attached() && BitmapAgrees() && BitsAgreeFrom(at, end)
      requires at < end && layout.bitmapBlocks > 0 && bitmapCached && bitmapSector == SectorOf(at)
      ensures forall m: nat :: at <= m < end && SectorOf(m) == SectorOf(at) ==>
        initialised[m - cacheFirst] == BitAt(bitmapCache, BitOf(m))
    {
      forall m: nat | at <= m < end && SectorOf(m) == SectorOf(at)
        ensures initialised[m - cacheFirst] == BitAt(bitmapCache, BitOf(m))
      {
        assert initialised[m - cacheFirst] == Initialised(dev.Contents(), layout, m);
      }
    }

    method StoreBitmap(sector: nat, ghost at: nat, ghost next: nat, ghost end: nat) returns (ok: bool)
      requires Attached() && layout.bitmapBlocks > 0 && sector < layout.bitmapBlocks && next <= end
      requires BitmapStep(dev.Contents(), dev.Contents()[layout.bitmapBase + sector := bitmapCache], layout, at, next)
      requires !dev.overlay ==> AllSure(dev.disk, 0, |dev.disk.live|)
      modifies dev`disk, dev`count, dev`targets
      ensures dev.Sound() && dev.disk.reliable == old(dev.disk.reliable)
      ensures ok ==> Attached() && dev.Contents() == old(dev.Contents())[layout.bitmapBase + sector := bitmapCache]
      ensures !dev.overlay ==> PublishedAll(dev.disk, old(dev.disk.live), layout, at, end)
      ensures ok && !dev.overlay ==> AllSure(dev.disk, 0, |dev.disk.live|)
      ensures dev.disk.reliable && dev.Unlogged() ==> ok
    {
      hide AllSure, Device.Settled, BitmapStep, PublishedAll, Device.LogReads, Wrote, View;
      ghost var v := dev.Contents();
      ghost var before := dev.disk;
      ok := dev.Write(layout.bitmapBase + sector, [bitmapCache]);
      if !dev.overlay {
        CutBitmap(before, dev.disk, layout, sector, bitmapCache, ok, at, next, end);
      }
      if !ok {
        return;
      }
      assert dev.Contents() == v[layout.bitmapBase + sector := bitmapCache];
      ok := dev.Sync();
      if !dev.overlay && ok {
        StepPublished(v, dev.disk, layout, at, next, end);
      }
    }

    /** Make one bitmap sector durable. */
    method PublishRun(at: nat, end: nat) returns (ok: bool, next: nat)
      requires Attached() && BitmapAgrees() && at < end && BitsAgreeFrom(at, end) && layout.bitmapBlocks > 0
      requires !dev.overlay ==> AllSure(dev.disk, 0, |dev.disk.live|)
      modifies this`bitmapCached, this`bitmapSector, this`bitmapCache, dev`disk, dev`count, dev`targets
      ensures dev.Sound() && dev.disk.reliable == old(dev.disk.reliable)
      ensures ok ==> at < next <= end && Attached() && BitmapAgrees()
      ensures ok ==> BitmapStep(old(dev.Contents()), dev.Contents(), layout, at, next)
      ensures !dev.overlay ==> PublishedAll(dev.disk, old(dev.disk.live), layout, at, end)
      ensures ok && !dev.overlay ==> AllSure(dev.disk, 0, |dev.disk.live|)
      ensures dev.disk.reliable && dev.Unlogged() ==> ok
    {
      hide Initialised, AllSure, Device.Settled, Marked, BitmapStep, PublishedAll, Wrote, View, Device.Valid, Device.Contents;
      dev.Usable();
      next := at;
      ghost var v := dev.Contents();
      BitmapBound(layout, |v|, at);
      if !dev.overlay {
        NothingPublished(dev.disk, layout, at, end);
      }
      ok := BitmapLoad(at);
      if !ok {
        return;
      }
      WindowBits(at, end);
      var sector := bitmapSector;
      ghost var s := bitmapCache;
      var changed;
      next, changed := MarkRun(at, end);
      BitsMarked(v, layout, sector, s, bitmapCache, at, next);
      if changed {
        ok := StoreBitmap(sector, at, next, end);
      } else {
        assert v == v[layout.bitmapBase + sector := bitmapCache];
      }
    }

    lemma WindowFrom(first: nat, n: nat)
      requires Attached() && BitsAgree() && layout.bitmapBlocks > 0
      requires |cache| > 0 && cacheFirst <= first && first + n <= cacheFirst + |cache|
      ensures BitsAgreeFrom(first, first + n)
    {
      hide Initialised;
      forall m: nat | first <= m < first + n
        ensures initialised[m - cacheFirst] == Initialised(dev.Contents(), layout, m)
      {
        var i := m - cacheFirst;
        assert initialised[i] == Initialised(dev.Contents(), layout, cacheFirst + i);
      }
    }

    /** Set the missing bits, each bitmap sector in turn, once all that was written is durable. */
    method PublishRuns(first: nat, n: nat) returns (ok: bool)
      requires Attached() && BitmapAgrees() && BitsAgreeFrom(first, first + n) && layout.bitmapBlocks > 0 && n > 0
      modifies this`bitmapCached, this`bitmapSector, this`bitmapCache, dev`disk, dev`count, dev`targets
      ensures dev.Sound() && dev.disk.reliable == old(dev.disk.reliable)
      ensures ok ==> Attached() && BitmapAgrees() && BitmapStep(old(dev.Contents()), dev.Contents(), layout, first, first + n)
      ensures !dev.overlay ==>
        dev.disk == old(dev.disk) || PublishedAll(dev.disk, old(dev.disk.live), layout, first, first + n)
      ensures ok && !dev.overlay ==> dev.disk == old(dev.disk) || AllSure(dev.disk, 0, |dev.disk.live|)
      ensures dev.disk.reliable && dev.Unlogged() ==> ok
    {
      hide Initialised, AllSure, Device.Settled, BitmapStep, PublishedAll, Device.LogReads, View, LayoutOk;
      ghost var v := dev.Contents();
      ok := dev.Sync();
      if !ok {
        return;
      }
      var at, end := first, first + n;
      NoStep(v, layout, first);
      if !dev.overlay {
        NothingPublished(dev.disk, layout, first, end);
      }
      while at < end
        invariant first <= at <= end && Attached() && BitmapAgrees() && dev.disk.reliable == old(dev.disk.reliable)
        invariant BitmapStep(v, dev.Contents(), layout, first, at) && BitsAgreeFrom(at, end)
        invariant !dev.overlay ==> AllSure(dev.disk, 0, |dev.disk.live|)
        invariant !dev.overlay ==> PublishedAll(dev.disk, v, layout, first, end)
      {
        ghost var w := dev.Contents();
        var next;
        ok, next := PublishRun(at, end);
        if !dev.overlay {
          StepThenPublished(v, w, dev.disk, layout, first, at, end);
        }
        if !ok {
          return;
        }
        StepStep(v, w, dev.Contents(), layout, first, at, next);
        StillUnset(w, dev.Contents(), layout, at, next);
        at := next;
      }
    }

    predicate AllSet(first: nat, n: nat)
      requires WindowOk() && |cache| > 0 && cacheFirst <= first && first + n <= cacheFirst + |cache|
      reads this
    {
      forall i :: first - cacheFirst <= i < first - cacheFirst + n ==> initialised[i]
    }

    lemma AllSetStep(first: nat, n: nat)
      requires Attached() && BitsAgree() && layout.bitmapBlocks > 0
      requires |cache| > 0 && cacheFirst <= first && first + n <= cacheFirst + |cache| && AllSet(first, n)
      ensures BitmapStep(dev.Contents(), dev.Contents(), layout, first, first + n)
    {
      hide Initialised;
      WindowFrom(first, n);
      forall m: nat | first <= m < first + n
        ensures Initialised(dev.Contents(), layout, m)
      {
        assert initialised[m - cacheFirst];
      }
      StepIfSet(dev.Contents(), layout, first, n);
    }

    method Publish(first: nat, n: nat) returns (ok: bool)
      requires Attached() && BitmapAgrees() && BitsAgree() && n > 0
      requires |cache| > 0 && cacheFirst <= first && first + n <= cacheFirst + |cache|
      modifies this`bitmapCached, this`bitmapSector, this`bitmapCache, this`initialised, dev`disk, dev`count, dev`targets
      ensures dev.Sound() && dev.disk.reliable == old(dev.disk.reliable)
      ensures ok ==> Attached() && BitmapAgrees() && BitsAgree()
      ensures ok ==> BitmapStep(old(dev.Contents()), dev.Contents(), layout, first, first + n)
      ensures !dev.overlay ==>
        dev.disk == old(dev.disk) || PublishedAll(dev.disk, old(dev.disk.live), layout, first, first + n)
      ensures ok && !dev.overlay ==> dev.disk == old(dev.disk) || AllSure(dev.disk, 0, |dev.disk.live|)
      ensures dev.disk.reliable && dev.Unlogged() ==> ok
      ensures layout.bitmapBlocks == 0 ==> ok && dev.disk == old(dev.disk) && dev.count == old(dev.count)
    {
      hide Initialised, AllSure, Device.Settled, BitmapStep, PublishedAll, Device.LogReads, View, LayoutOk, Device.Valid;
      hide Device.Contents, AllSet;
      dev.Usable();
      var offset := first - cacheFirst;
      ghost var v := dev.Contents();
      var before := initialised;
      if layout.bitmapBlocks == 0 {
        StepIfSet(v, layout, first, n);
        return true;
      }
      if AllSet(first, n) {
        AllSetStep(first, n);
        return true;
      }
      WindowFrom(first, n);
      ok := PublishRuns(first, n);
      if ok {
        StepBits(v, dev.Contents(), layout, first, n);
        initialised := seq(|before|, i requires 0 <= i < |before| => before[i] || offset <= i < offset + n);
      }
    }

    /** The window holds the metadata as it will be once data is written at lba. */
    ghost predicate StampedWindow(v: seq<Sector>, lba: nat, data: seq<seq<byte>>)
      requires LayoutOk(layout, |v|)
      reads this
    {
      && WindowOk()
      && forall j: nat :: j < |cache| ==>
           cache[j] == Stamped(Metadata(v, layout, cacheFirst + j), cacheFirst + j, key, lba, data)
    }

    /** The part of the window that covers these addresses. */
    function WindowTags(lba: nat, n: nat): seq<Sector>
      requires Covers(lba, n)
      reads this
    {
      cache[lba / 15 - cacheFirst..(lba + n - 1) / 15 + 1 - cacheFirst]
    }

    lemma WindowStamped(v: seq<Sector>, lba: nat, data: seq<seq<byte>>)
      requires LayoutOk(layout, |v|) && Covers(lba, |data|) && StampedWindow(v, lba, data) && lba + |data| <= layout.blocks
      ensures NewTags(v, layout, key, Batch(lba, data), WindowTags(lba, |data|)) && |WindowTags(lba, |data|)| <= |data|
    {
      hide Metadata, Stamped, LayoutOk;
      MetaBound(layout, |v|, lba + |data| - 1);
      TagsFew(lba, |data|);
      WindowSliced(v, layout, key, Batch(lba, data), cacheFirst, cache);
    }

    method StoreTags(ghost v: seq<Sector>, ghost sure: bool, ghost base: seq<Sector>, ghost h: seq<Batch>, ghost start: Disk,
                     lba: nat, data: seq<seq<byte>>) returns (ok: bool)
      requires Attached() && LayoutOk(layout, |v|) && Covers(lba, |data|) && lba + |data| <= layout.blocks
      requires StampedWindow(v, lba, data) && dev.Contents() == Replace(v, layout.dataBase + lba, Ciphers(data))
      requires sure ==> !dev.overlay && DiskValid(start) && start.live == v && Since(start, base, layout, key, h)
      requires sure ==> Since(dev.disk, base, layout, key, h + [Batch(lba, data)])
      requires sure ==> Wrote(start, dev.disk, layout.dataBase + lba, Ciphers(data), true)
      modifies dev`disk, dev`count, dev`targets
      ensures dev.Sound() && dev.disk.reliable == old(dev.disk.reliable)
      ensures ok ==> Attached() && Placed(v, dev.Contents(), layout, key, lba, data)
      ensures sure ==> Since(dev.disk, base, layout, key, h + [Batch(lba, data)])
      ensures sure && Reached(start, base, layout, key, h) ==> Reached(dev.disk, base, layout, key, h + [Batch(lba, data)])
      ensures dev.disk.reliable && old(dev.Room(|data|)) ==> ok
      ensures dev.count <= old(dev.count) + |data|
    {
      hide Initialised, AllSure, Device.Settled, Device.LogReads, View, Metadata, Stamped, Since, Reached, Placed, Wrote;
      hide Device.Valid, Device.Contents, Replace, StampedWindow, NewTags, WindowTags, Covers;
      dev.Usable();
      WindowStamped(v, lba, data);
      TagsFit(v, layout, key, Batch(lba, data), WindowTags(lba, |data|));
      var tags := WindowTags(lba, |data|);
      ghost var before := dev.disk;
      ok := dev.Write(layout.base + lba / 15, tags);
      if sure {
        TagsWriteSince(start, before, dev.disk, base, layout, key, h, Batch(lba, data), tags, ok);
        if Reached(start, base, layout, key, h) {
          SinceSized(start, base, layout, key, h);
          BatchReached(start, before, dev.disk, base, layout, key, h, Batch(lba, data), tags, ok);
        }
      }
      if ok {
        ReplacedPlaced(v, dev.Contents(), layout, key, lba, data, tags);
      }
    }

    /** The ciphertext goes first, then its tags. */
    method StoreSectors(ghost sure: bool, ghost base: seq<Sector>, ghost h: seq<Batch>, lba: nat, data: seq<seq<byte>>) returns (ok: bool)
      requires Attached() && Covers(lba, |data|) && lba + |data| <= layout.blocks
      requires StampedWindow(dev.Contents(), lba, data)
      requires sure ==> !dev.overlay && Since(dev.disk, base, layout, key, h)
      modifies dev`disk, dev`count, dev`targets
      ensures dev.Sound() && dev.disk.reliable == old(dev.disk.reliable)
      ensures ok ==> Attached() && Placed(old(dev.Contents()), dev.Contents(), layout, key, lba, data)
      ensures sure ==> Since(dev.disk, base, layout, key, h + [Batch(lba, data)])
      ensures sure && ok && old(Reached(dev.disk, base, layout, key, h)) ==> Reached(dev.disk, base, layout, key, h + [Batch(lba, data)])
      ensures dev.disk.reliable && old(dev.Room(2 * |data|)) ==> ok
      ensures dev.count <= old(dev.count) + 2 * |data|
    {
      hide AllSure, Device.Settled, Device.LogReads, View, StampedWindow, Since, Reached, Placed, Wrote;
      ghost var v := dev.Contents();
      ghost var before := dev.disk;
      ok := dev.Write(layout.dataBase + lba, Ciphers(data));
      if sure {
        DataWriteSince(before, dev.disk, base, layout, key, h, Batch(lba, data), ok);
      }
      if ok {
        ok := StoreTags(v, sure, base, h, before, lba, data);
      }
    }

    /** The bits of a batch whose ciphertext and tags are in place. */
    method PublishBatch(ghost sure: bool, ghost base: seq<Sector>, ghost h: seq<Batch>, ghost start: Disk, ghost v: seq<Sector>,
                        lba: nat, data: seq<seq<byte>>) returns (ok: bool)
      requires Attached() && BitmapAgrees() && BitsAgree() && Covers(lba, |data|) && lba + |data| <= layout.blocks
      requires LayoutOk(layout, |v|) && StampedWindow(v, lba, data) && Placed(v, dev.Contents(), layout, key, lba, data)
      requires sure ==> !dev.overlay && DiskValid(start) && start.live == v && Since(start, base, layout, key, h)
      requires sure ==> Since(dev.disk, base, layout, key, h + [Batch(lba, data)])
      modifies this`bitmapCached, this`bitmapSector, this`bitmapCache, this`initialised, dev`disk, dev`count, dev`targets
      ensures dev.Sound() && dev.disk.reliable == old(dev.disk.reliable)
      ensures ok ==> Attached() && BitmapAgrees() && BitsAgree() && TagsAgree()
      ensures ok ==> Updated(v, dev.Contents(), layout, key, lba, data)
      ensures sure ==> KeepsSince(dev.disk, base, layout, key, h + [Batch(lba, data)])
      ensures sure && ok ==> dev.disk == old(dev.disk) || AllSure(dev.disk, 0, |dev.disk.live|)
      ensures dev.disk.reliable && (dev.Unlogged() || layout.bitmapBlocks == 0) ==> ok
      ensures layout.bitmapBlocks == 0 ==> dev.count == old(dev.count)
    {
      hide Initialised, AllSure, Device.Settled, Device.LogReads, View, Since, Placed, KeepsSince, ReadsSince, Updated, BitmapStep;
      hide Metadata, Stamped, Device.Valid, Device.Contents, PublishedAll;
      ghost var w := dev.Contents();
      PlacedBits(v, w, layout, key, lba, data);
      dev.Usable();
      if sure {
        SinceKeeps(dev.disk, base, layout, key, h + [Batch(lba, data)]);
      }
      var first, last := lba / 15, (lba + |data| - 1) / 15;
      ghost var before := dev.disk;
      ok := Publish(first, last + 1 - first);
      if sure && dev.disk != before {
        PublishedKeeps(start, dev.disk, base, w, layout, key, h, Batch(lba, data));
      }
      if ok {
        PlacedUpdates(v, w, dev.Contents(), layout, key, lba, data);
        UpdatedMetadata(v, dev.Contents(), layout, key, lba, data);
      }
    }

    /** Ciphertext, tags and bits in that order; wherever it is cut, nothing unwritten suffers. */
    method StoreAll(ghost sure: bool, ghost base: seq<Sector>, ghost h: seq<Batch>, lba: nat, data: seq<seq<byte>>) returns (ok: bool)
      requires Attached() && BitmapAgrees() && BitsAgree() && Covers(lba, |data|) && lba + |data| <= layout.blocks
      requires StampedWindow(dev.Contents(), lba, data)
      requires sure ==> !dev.overlay && Since(dev.disk, base, layout, key, h)
      modifies this`bitmapCached, this`bitmapSector, this`bitmapCache, this`initialised, dev`disk, dev`count, dev`targets
      ensures dev.Sound() && dev.disk.reliable == old(dev.disk.reliable)
      ensures ok ==> Attached() && BitmapAgrees() && BitsAgree() && TagsAgree()
      ensures ok ==> Updated(old(dev.Contents()), dev.Contents(), layout, key, lba, data)
      ensures sure ==> KeepsSince(dev.disk, base, layout, key, h + [Batch(lba, data)])
      ensures sure && ok ==> Since(dev.disk, base, layout, key, h + [Batch(lba, data)]) || AllSure(dev.disk, 0, |dev.disk.live|)
      ensures sure && ok && old(Reached(dev.disk, base, layout, key, h)) ==>
        Reached(dev.disk, base, layout, key, h + [Batch(lba, data)]) || AllSure(dev.disk, 0, |dev.disk.live|)
      ensures dev.disk.reliable && (dev.Unlogged() || (layout.bitmapBlocks == 0 && old(dev.Room(2 * |data|)))) ==> ok
      ensures layout.bitmapBlocks == 0 ==> dev.count <= old(dev.count) + 2 * |data|
    {
      hide Initialised, AllSure, Device.Settled, Device.LogReads, View, Since, Reached, Placed, KeepsSince, Updated;
      hide Metadata, Stamped, Device.Valid, Device.Contents;
      dev.Usable();
      ghost var v, start := dev.Contents(), dev.disk;
      ok := StoreSectors(sure, base, h, lba, data);
      if ok {
        PlacedBits(v, dev.Contents(), layout, key, lba, data);
        ok := PublishBatch(sure, base, h, start, v, lba, data);
      } else if sure {
        SinceKeeps(dev.disk, base, layout, key, h + [Batch(lba, data)]);
      }
    }

    /** A batch write: afterwards the written addresses read back and all others are undisturbed.
        Whatever batches h were written before it since the card was base, a power loss at any
        point leaves each address as base or one of them had it, or as ReadSince says. */
    method Write(lba: nat, data: seq<seq<byte>>, ghost base: seq<Sector> := [], ghost h: seq<Batch> := []) returns (r: BlockResult)
      requires Valid()
      modifies this`ready, this`cacheFirst, this`cache, this`initialised, this`bitmapCached, this`bitmapSector, this`bitmapCache
      modifies dev`disk, dev`count, dev`targets
      ensures Valid() && (ready <==> old(ready) && r != IoError)
      ensures r == Okay ==> old(ready) && 0 < |data| <= MAX_BATCH && lba + |data| <= layout.blocks
      ensures dev.disk.reliable == old(dev.disk.reliable)
      ensures r == Okay ==> Contents() == Overwritten(old(Contents()), lba, data)
      ensures r == Okay ==> Updated(old(dev.Contents()), dev.Contents(), layout, key, lba, data)
      ensures r !in {Okay, IoError} ==> dev.disk == old(dev.disk) && dev.count == old(dev.count) && dev.targets == old(dev.targets)
      ensures r == IoError ==> old(ready) && 0 < |data| <= MAX_BATCH && lba + |data| <= layout.blocks
      ensures r in {Okay, IoError} && !dev.overlay && old(Since(dev.disk, base, layout, key, h)) ==>
        KeepsSince(dev.disk, base, layout, key, h + [Batch(lba, data)])
      ensures r == Okay && !dev.overlay && old(Since(dev.disk, base, layout, key, h)) ==>
        Since(dev.disk, base, layout, key, h + [Batch(lba, data)]) || AllSure(dev.disk, 0, |dev.disk.live|)
      ensures r == Okay && !dev.overlay && old(Since(dev.disk, base, layout, key, h) && Reached(dev.disk, base, layout, key, h)) ==>
        Reached(dev.disk, base, layout, key, h + [Batch(lba, data)]) || AllSure(dev.disk, 0, |dev.disk.live|)
      ensures (dev.disk.reliable && (dev.Unlogged() || (layout.bitmapBlocks == 0 && old(dev.Room(2 * |data|))))
               && old(ready) && 0 < |data| <= MAX_BATCH && lba + |data| <= layout.blocks) ==> r == Okay
      ensures layout.bitmapBlocks == 0 ==> dev.count <= old(dev.count) + 2 * |data|
    {
      hide Initialised, AllSure, Device.Settled, Device.LogReads, View, KeepsSince, Since, Reached, Updated, Metadata, Stamped, LayoutOk;
      hide Device.Valid, Device.Contents;
      r := Validate(lba, |data|);
      if r != Okay {
        return;
      }
      dev.Usable();
      ghost var v := dev.Contents();
      ghost var sure := !dev.overlay && Since(dev.disk, base, layout, key, h);
      r := Load(lba, |data|);
      if r != Okay {
        if sure {
          SinceKeeps(dev.disk, base, layout, key, h);
          KeepsMore(dev.disk, base, layout, key, h, Batch(lba, data));
        }
        return;
      }
      ghost var before := cache;
      Stamp(lba, data);
      assert StampedWindow(v, lba, data) by {
        assert forall j: nat :: j < |cache| ==> before[j] == Metadata(v, layout, cacheFirst + j);
      }
      var ok := StoreAll(sure, base, h, lba, data);
      if !ok {
        r := Fault(IoError);
      } else {
        UpdatedImage(v, dev.Contents(), layout, key, lba, data);
      }
    }

    /** Blank the bitmap, or else the metadata, whatever the medium held. */
    method Format(sectors: nat) returns (r: BlockResult)
      requires Valid()
      modifies this`ready, this`cacheFirst, this`cache, this`initialised, this`bitmapCached, this`bitmapSector, this`bitmapCache
      modifies dev`disk, dev`count, dev`targets
      ensures Valid() && (ready <==> old(ready) && r != IoError)
      ensures dev.disk.reliable == old(dev.disk.reliable)
      ensures r == Okay ==> old(ready) && Contents() == seq(layout.blocks, x => Unset)
      ensures r == Okay ==> forall x: nat :: x < layout.blocks ==> Leftover(dev.Contents(), layout, key, x) == Corrupt
      ensures r == Okay ==> dev.overlay || AllSure(dev.disk, 0, |dev.disk.live|)
      ensures dev.disk.reliable && dev.Unlogged() && old(ready) && 0 < sectors <= 256 ==> r == Okay
      ensures !old(ready) ==> r == NotReady
      ensures r == InvalidArgument <==> old(ready) && (sectors == 0 || sectors > 256)
      ensures r in {NotReady, InvalidArgument} ==> dev.disk == old(dev.disk)
    {
      hide AllSure, Device.Settled, View, Device.Valid, Device.Contents, Initialised;
      if !ready {
        return NotReady;
      }
      if sectors == 0 || sectors > 256 {
        return InvalidArgument;
      }
      cache, initialised, bitmapCached := [], [], false;
      var bitmap := layout.bitmapBlocks > 0;
      var ok := BlankRegion(if bitmap then layout.bitmapBase else layout.base,
                            if bitmap then layout.bitmapBlocks else layout.metadataBlocks,
                            if bitmap then ZeroBits() else ZeroTags(), sectors);
      if ok {
        ok := dev.Sync();
      }
      if !ok {
        r := Fault(IoError);
        return;
      }
      dev.Usable();
      BlankReads(dev.Contents(), layout, key);
      r := Okay;
    }

    method BlankRegion(start: nat, total: nat, blank: Sector, sectors: nat) returns (ok: bool)
      requires Attached() && layout.bitmapBase <= start && start + total <= layout.dataBase + layout.blocks && 0 < sectors
      modifies dev`disk, dev`count, dev`targets
      ensures dev.Sound() && dev.disk.reliable == old(dev.disk.reliable)
      ensures ok ==> Attached() && |dev.Contents()| == |old(dev.Contents())|
      ensures ok ==> forall j :: start <= j < start + total ==> dev.Contents()[j] == blank
      ensures dev.disk.reliable && dev.Unlogged() ==> ok
    {
      hide Device.Settled, View, Device.Valid, Device.Contents;
      dev.Usable();
      ghost var size := |dev.Contents()|;
      var first := 0;
      while first < total
        invariant 0 <= first <= total && Attached() && |dev.Contents()| == size && dev.disk.reliable == old(dev.disk.reliable)
        invariant forall j :: start <= j < start + first ==> dev.Contents()[j] == blank
      {
        var count := if total - first > sectors then sectors else total - first;
        ok := dev.Write(start + first, seq(count, i => blank));
        if !ok {
          return;
        }
        first := first + count;
      }
      dev.Usable();
      ok := true;
    }

    /** What the whole store holds. */
    ghost function Contents(): (r: seq<Stored>)
      requires Attached()
      reads this, dev
    {
      Image(dev.Contents(), layout, key)
    }
  }

  function Image(v: seq<Sector>, l: Layout, key: nat): (r: seq<Stored>)
    requires LayoutOk(l, |v|)
    ensures |r| == l.blocks && forall x :: 0 <= x < l.blocks ==> r[x] == Look(v, l, key, x)
  {
    seq(l.blocks, x requires 0 <= x < l.blocks => Look(v, l, key, x))
  }

  lemma BlankReads(v: seq<Sector>, l: Layout, key: nat)
    requires LayoutOk(l, |v|)
    requires l.bitmapBlocks > 0 ==> forall j :: l.bitmapBase <= j < l.base ==> v[j] == ZeroBits()
    requires l.bitmapBlocks == 0 ==> forall j :: l.base <= j < l.dataBase ==> v[j] == ZeroTags()
    ensures Image(v, l, key) == seq(l.blocks, x => Unset)
    ensures forall x: nat :: x < l.blocks ==> Leftover(v, l, key, x) == Corrupt
  {
    forall x: nat | x < l.blocks
      ensures Look(v, l, key, x) == Unset && Leftover(v, l, key, x) == Corrupt
    {
      MetaBound(l, |v|, x);
      if l.bitmapBlocks > 0 {
        BitmapBound(l, |v|, x / 15);
      }
    }
  }

  /** The store with data written at lba. */
  function Overwritten(s: seq<Stored>, lba: nat, data: seq<seq<byte>>): (r: seq<Stored>)
    requires lba + |data| <= |s|
    ensures |r| == |s|
  {
    s[..lba] + seq(|data|, i requires 0 <= i < |data| => Written(data[i])) + s[lba + |data|..]
  }

  lemma UpdatedImage(v: seq<Sector>, w: seq<Sector>, l: Layout, key: nat, lba: nat, data: seq<seq<byte>>)
    requires Updated(v, w, l, key, lba, data)
    ensures Image(w, l, key) == Overwritten(Image(v, l, key), lba, data)
  {
    hide Look;
    forall x: nat | x < l.blocks
      ensures Look(w, l, key, x) == Overwritten(Image(v, l, key), lba, data)[x]
    {
      UpdatedReads(v, w, l, key, lba, data, x);
    }
  }

  // ---- Runs of writes and syncs --------------------------------------------

  /** The store with these batches written in order. */
  function AfterAll(s: seq<Stored>, h: seq<Batch>): (r: seq<Stored>)
    ensures |r| == |s|
  {
    if h == [] then s
    else
      var r, b := AfterAll(s, h[..|h| - 1]), h[|h| - 1];
      if b.lba + |b.data| <= |s| then Overwritten(r, b.lba, b.data) else r
  }

  /** The batches that were taken up, whether or not they were completed. */
  function TakenUp(batches: seq<Batch>, results: seq<BlockResult>): seq<Batch>
    requires |results| <= |batches|
  {
    if results == [] then []
    else
      var k := |results| - 1;
      TakenUp(batches, results[..k]) + (if results[k] in {Okay, IoError} then [batches[k]] else [])
  }

  lemma SyncedKeeps(before: Disk, after: Disk, v: seq<Sector>, l: Layout, key: nat, h: seq<Batch>)
    requires DiskValid(before) && KeepsSince(before, v, l, key, h) && DiskValid(after) && AllSure(after, 0, |after.live|)
    requires after.live == before.live
    ensures KeepsSince(after, v, l, key, h)
  {
    hide ReadsSince;
    ItsOwnImage(before);
    OnlyLive(after);
  }

  /** The leftover of every address. */
  function Leftovers(v: seq<Sector>, l: Layout, key: nat): (r: seq<Stored>)
    requires LayoutOk(l, |v|)
    ensures |r| == l.blocks && forall x :: 0 <= x < l.blocks ==> r[x] == Leftover(v, l, key, x)
  {
    seq(l.blocks, x requires 0 <= x < l.blocks => Leftover(v, l, key, x))
  }

  lemma UpdatedLeftovers(v: seq<Sector>, w: seq<Sector>, l: Layout, key: nat, lba: nat, data: seq<seq<byte>>)
    requires Updated(v, w, l, key, lba, data)
    ensures Leftovers(w, l, key) == Overwritten(Leftovers(v, l, key), lba, data)
  {
    hide Initialised, Stamped;
    UpdatedMetadata(v, w, l, key, lba, data);
    forall x: nat | x < l.blocks
      ensures Leftover(w, l, key, x) == Overwritten(Leftovers(v, l, key), lba, data)[x]
    {
      MetaBound(l, |v|, x);
      StampedAt(Metadata(v, l, x / 15), x / 15, key, lba, data, x % 15);
      assert 15 * (x / 15) + x % 15 == x;
    }
  }

  /** A batch that was completed without a sync found its metadata sectors published. */
  lemma NowPublished(v: seq<Sector>, d: Disk, base: seq<Sector>, l: Layout, key: nat, h: seq<Batch>, b: Batch)
    requires DiskValid(d) && Updated(v, d.live, l, key, b.lba, b.data) && Since(d, base, l, key, h + [b]) && OverPublished(base, l, h)
    ensures OverPublished(base, l, h + [b])
  {
    hide Initialised, Since, DiskValid;
    TouchedMore(h, b);
    ItsOwnImage(d);
    SinceSized(d, base, l, key, h + [b]);
    forall x: nat | x < l.blocks && Touched(h + [b], x)
      ensures (MetaBound(l, |base|, x); Initialised(base, l, x / 15))
    {
      MetaBound(l, |base|, x);
      RangeTouches(b.lba, |b.data|, x);
      SinceParts(d, base, l, key, h + [b], d.live, x);
    }
  }

  /** A run in progress: base is the card at the last sync that settled it, when all of settled
      was in place; since was taken up after it. What was read and left over at the start is
      start and left. */
  ghost predicate Running(store: AuthStore, start: seq<Stored>, left: seq<Stored>, base: seq<Sector>, settled: seq<Batch>, since: seq<Batch>)
    reads store, store.dev
  {
    && store.Valid() && !store.dev.overlay && Stands(base, store.layout, store.key, start, left, settled)
    && KeepsSince(store.dev.disk, base, store.layout, store.key, since)
    && (store.ready ==>
          && Since(store.dev.disk, base, store.layout, store.key, since)
          && Reached(store.dev.disk, base, store.layout, store.key, since)
          && OverPublished(base, store.layout, since)
          && Stands(store.dev.disk.live, store.layout, store.key, start, left, settled + since))
  }

  /** v is the card with these batches written over it in order. */
  ghost predicate Stands(v: seq<Sector>, l: Layout, key: nat, start: seq<Stored>, left: seq<Stored>, h: seq<Batch>) {
    LayoutOk(l, |v|) && Image(v, l, key) == AfterAll(start, h) && Leftovers(v, l, key) == AfterAll(left, h)
  }

  lemma StandsMore(v: seq<Sector>, w: seq<Sector>, l: Layout, key: nat, start: seq<Stored>, left: seq<Stored>,
                   settled: seq<Batch>, since: seq<Batch>, b: Batch)
    requires Stands(v, l, key, start, left, settled + since) && Updated(v, w, l, key, b.lba, b.data)
    ensures Stands(w, l, key, start, left, settled + (since + [b]))
  {
    hide Look, Leftover, LayoutOk, Initialised, AfterAll;
    AfterMore(start, settled, since, b);
    AfterMore(left, settled, since, b);
    UpdatedImage(v, w, l, key, b.lba, b.data);
    UpdatedLeftovers(v, w, l, key, b.lba, b.data);
    assert LayoutOk(l, |w|);
  }

  lemma Settles(store: AuthStore, start: seq<Stored>, left: seq<Stored>, settled: seq<Batch>)
    requires store.Valid() && store.ready && !store.dev.overlay && AllSure(store.dev.disk, 0, |store.dev.disk.live|)
    requires Stands(store.dev.disk.live, store.layout, store.key, start, left, settled)
    ensures Running(store, start, left, store.dev.disk.live, settled, [])
  {
    hide AllSure, Device.Settled, Since, Reached, KeepsSince, LayoutOk, Stands;
    store.dev.Usable();
    StartSince(store.dev.disk, store.layout, store.key);
    assert settled + [] == settled;
  }

  method RunWrite(store: AuthStore, ghost start: seq<Stored>, ghost left: seq<Stored>, ghost base: seq<Sector>,
                  ghost settled: seq<Batch>, ghost since: seq<Batch>, b: Batch)
    returns (r: BlockResult, ghost base': seq<Sector>, ghost settled': seq<Batch>, ghost since': seq<Batch>)
    requires Running(store, start, left, base, settled, since)
    modifies store, store.dev
    ensures Running(store, start, left, base', settled', since')
    ensures settled' + since' == (settled + since) + (if r in {Okay, IoError} then [b] else [])
    ensures |since'| <= |since| + 1 && (store.ready ==> old(store.ready))
  {
    hide AllSure, Device.Settled, Device.LogReads, Since, Reached, KeepsSince, OverPublished, Stands, Device.Contents, LayoutOk, Look, Updated;
    store.dev.Usable();
    ghost var v := store.dev.disk.live;
    r := store.Write(b.lba, b.data, base, since);
    store.dev.Usable();
    base', settled', since' := base, settled, since;
    if r in {Okay, IoError} {
      since' := since + [b];
    }
    if r == Okay {
      StandsMore(v, store.dev.disk.live, store.layout, store.key, start, left, settled, since, b);
      if !AllSure(store.dev.disk, 0, |store.dev.disk.live|) {
        NowPublished(v, store.dev.disk, base, store.layout, store.key, since, b);
      }
    }
    if store.ready && AllSure(store.dev.disk, 0, |store.dev.disk.live|) {
      Settles(store, start, left, settled' + since');
      base', settled', since' := store.dev.disk.live, settled' + since', [];
    }
  }

  method RunSync(store: AuthStore, ghost start: seq<Stored>, ghost left: seq<Stored>, ghost base: seq<Sector>,
                 ghost settled: seq<Batch>, ghost since: seq<Batch>)
    returns (ok: bool, ghost base': seq<Sector>, ghost settled': seq<Batch>, ghost since': seq<Batch>)
    requires Running(store, start, left, base, settled, since)
    modifies store.dev
    ensures Running(store, start, left, base', settled', since') && settled' + since' == settled + since
    ensures |since'| <= |since| && store.ready == old(store.ready) && (ok && store.ready ==> since' == [])
  {
    hide AllSure, Device.Settled, Device.LogReads, Since, Reached, KeepsSince, OverPublished, LayoutOk, Look, Stands;
    base', settled', since' := base, settled, since;
    ghost var before := store.dev.disk;
    ok := store.dev.Sync();
    store.dev.Usable();
    if ok {
      SyncedKeeps(before, store.dev.disk, base, store.layout, store.key, since);
      if store.ready {
        Settles(store, start, left, settled + since);
        base', settled', since' := store.dev.disk.live, settled + since, [];
      }
    }
  }

  /** Any batches and any syncs between them, each failing or cut anywhere. base is the card at
      the last sync that settled it, no earlier than the last that succeeded, when all batches up
      to then were in place; a power loss leaves each address as it was then or as ReadSince says
      of the batches after it and, while the store has not failed, in exactly those ways. */
  method WriteRun(store: AuthStore, batches: seq<Batch>, syncs: seq<bool>)
    returns (results: seq<BlockResult>, oks: seq<bool>, ghost base: seq<Sector>, ghost settled: seq<Batch>, ghost since: seq<Batch>)
    requires store.Valid() && store.ready && !store.dev.overlay && AllSure(store.dev.disk, 0, |store.dev.disk.live|)
    requires |syncs| == |batches|
    modifies store, store.dev
    ensures store.Valid() && |results| == |oks| == |batches| && TakenUp(batches, results) == settled + since
    ensures store.ready ==> forall k :: 0 <= k < |batches| && syncs[k] && oks[k] ==> |since| <= |batches| - k - 1
    ensures LayoutOk(store.layout, |base|) && |store.dev.disk.durable| == |base|
    ensures Image(base, store.layout, store.key) == AfterAll(old(store.Contents()), settled)
    ensures Leftovers(base, store.layout, store.key) == AfterAll(old(Leftovers(store.dev.Contents(), store.layout, store.key)), settled)
    ensures forall image :: CrashImage(store.dev.disk, image) ==> ReadsSince(image, base, store.layout, store.key, since)
    ensures store.ready ==> forall x: nat, r :: x < store.layout.blocks ==>
      (MayReturn(store.dev.disk, store.layout, store.key, x, r) <==> ReadSince(r, base, store.layout, store.key, since, x))
    ensures store.ready ==> store.Contents() == AfterAll(old(store.Contents()), settled + since)
  {
    hide AllSure, Device.Settled, Since, LayoutOk, Look, Leftover, Running, ReadsSince, Stands;
    ghost var start, left := store.Contents(), Leftovers(store.dev.Contents(), store.layout, store.key);
    results, oks, base, settled, since := [], [], store.dev.disk.live, [], [];
    StartStands(store);
    Settles(store, start, left, []);
    for k := 0 to |batches|
      invariant |results| == |oks| == k && TakenUp(batches, results) == settled + since
      invariant Running(store, start, left, base, settled, since)
      invariant store.ready ==> forall j :: 0 <= j < k && syncs[j] && oks[j] ==> |since| <= k - j - 1
    {
      var r, ok;
      r, base, settled, since := RunWrite(store, start, left, base, settled, since, batches[k]);
      TakenMore(batches, results, r);
      results, ok := results + [r], false;
      if syncs[k] {
        ok, base, settled, since := RunSync(store, start, left, base, settled, since);
      }
      oks := oks + [ok];
    }
    RunKeeps(store, start, left, base, settled, since);
    if store.ready {
      RunExact(store, start, left, base, settled, since);
    }
  }

  lemma StartStands(store: AuthStore)
    requires store.Valid() && store.ready && !store.dev.overlay
    ensures store.dev.Contents() == store.dev.disk.live
    ensures Stands(store.dev.disk.live, store.layout, store.key,
                   store.Contents(), Leftovers(store.dev.Contents(), store.layout, store.key), [])
  {
    hide Look, Leftover, LayoutOk;
    store.dev.Usable();
  }

  lemma RunKeeps(store: AuthStore, start: seq<Stored>, left: seq<Stored>, base: seq<Sector>, settled: seq<Batch>, since: seq<Batch>)
    requires Running(store, start, left, base, settled, since)
    ensures store.Valid() && Stands(base, store.layout, store.key, start, left, settled) && |store.dev.disk.durable| == |base|
    ensures LayoutOk(store.layout, |base|) && Image(base, store.layout, store.key) == AfterAll(start, settled)
    ensures Leftovers(base, store.layout, store.key) == AfterAll(left, settled)
    ensures forall image :: CrashImage(store.dev.disk, image) ==> ReadsSince(image, base, store.layout, store.key, since)
    ensures store.ready ==> store.Contents() == AfterAll(start, settled + since)
  {
    store.dev.Usable();
  }

  lemma RunExact(store: AuthStore, start: seq<Stored>, left: seq<Stored>, base: seq<Sector>, settled: seq<Batch>, since: seq<Batch>)
    requires Running(store, start, left, base, settled, since) && store.ready
    ensures LayoutOk(store.layout, |base|) && |store.dev.disk.durable| == |base|
    ensures forall x: nat, r :: x < store.layout.blocks ==>
      (MayReturn(store.dev.disk, store.layout, store.key, x, r) <==> ReadSince(r, base, store.layout, store.key, since, x))
  {
    hide Since, Reached, OverPublished, Stands, MayReturn, ReadSince;
    store.dev.Usable();
    SinceSized(store.dev.disk, base, store.layout, store.key, since);
    forall x: nat, r | x < store.layout.blocks
      ensures MayReturn(store.dev.disk, store.layout, store.key, x, r) <==> ReadSince(r, base, store.layout, store.key, since, x)
    {
      ReturnsExactly(store.dev.disk, base, store.layout, store.key, since, x, r);
    }
  }

  lemma StartSince(d: Disk, l: Layout, key: nat)
    requires DiskValid(d) && AllSure(d, 0, |d.live|) && LayoutOk(l, |d.live|)
    ensures Since(d, d.live, l, key, []) && KeepsSince(d, d.live, l, key, [])
    ensures Reached(d, d.live, l, key, []) && OverPublished(d.live, l, [])
  {
    hide Since, KeepsSince, Reached, Given;
    SettledSince(d, l, key);
    SettledReached(d, l, key);
    SinceKeeps(d, d.live, l, key, []);
    forall x: nat
      ensures !Touched([], x)
    {
      NoneGiven(x);
    }
  }

  lemma TakenMore(batches: seq<Batch>, results: seq<BlockResult>, r: BlockResult)
    requires |results| < |batches|
    ensures TakenUp(batches, results + [r])
         == TakenUp(batches, results) + (if r in {Okay, IoError} then [batches[|results|]] else [])
  {
    assert (results + [r])[..|results|] == results;
  }

  lemma AfterMore(s: seq<Stored>, settled: seq<Batch>, since: seq<Batch>, b: Batch)
    ensures settled + (since + [b]) == (settled + since) + [b]
    ensures b.lba + |b.data| <= |s| ==>
      AfterAll(s, settled + (since + [b])) == Overwritten(AfterAll(s, settled + since), b.lba, b.data)
  {
    var h := settled + since + [b];
    assert settled + (since + [b]) == h && h[..|h| - 1] == settled + since;
  }

  lemma PlacedBits(v: seq<Sector>, w: seq<Sector>, l: Layout, key: nat, lba: nat, data: seq<seq<byte>>)
    requires Placed(v, w, l, key, lba, data)
    ensures |w| == |v| && forall j: nat :: j < l.base ==> w[j] == v[j]
    ensures forall m: nat :: m < l.metadataBlocks ==> (Initialised(w, l, m) <==> Initialised(v, l, m))
  {
    PlacedParts(v, w, l, key, lba, data);
  }

  lemma UpdatedMetadata(v: seq<Sector>, z: seq<Sector>, l: Layout, key: nat, lba: nat, data: seq<seq<byte>>)
    requires Updated(v, z, l, key, lba, data)
    ensures forall m: nat :: m < l.metadataBlocks ==> Metadata(z, l, m) == Stamped(Metadata(v, l, m), m, key, lba, data)
  {
    hide Initialised;
  }

  lemma NoStep(v: seq<Sector>, l: Layout, first: nat)
    requires LayoutOk(l, |v|)
    ensures BitmapStep(v, v, l, first, first)
  {
  }

  lemma StepIfSet(v: seq<Sector>, l: Layout, first: nat, n: nat)
    requires LayoutOk(l, |v|) && first + n <= l.metadataBlocks
    ensures (forall m: nat :: first <= m < first + n ==> Initialised(v, l, m)) ==> BitmapStep(v, v, l, first, first + n)
    ensures l.bitmapBlocks == 0 ==> BitmapStep(v, v, l, first, first + n)
  {
  }

  lemma StepBits(v: seq<Sector>, w: seq<Sector>, l: Layout, first: nat, n: nat)
    requires BitmapStep(v, w, l, first, first + n)
    ensures forall m: nat :: m < l.metadataBlocks ==> (Initialised(w, l, m) <==> Initialised(v, l, m) || first <= m < first + n)
  {
  }

  lemma StepStep(v: seq<Sector>, w: seq<Sector>, x: seq<Sector>, l: Layout, first: nat, at: nat, next: nat)
    requires BitmapStep(v, w, l, first, at) && BitmapStep(w, x, l, at, next) && first <= at <= next
    ensures BitmapStep(v, x, l, first, next)
  {
    hide Initialised;
  }

  lemma StillUnset(v: seq<Sector>, w: seq<Sector>, l: Layout, at: nat, next: nat)
    requires BitmapStep(v, w, l, at, next)
    ensures forall m: nat :: next <= m < l.metadataBlocks ==> (Initialised(w, l, m) <==> Initialised(v, l, m))
  {
  }

  lemma StepThenPublished(v: seq<Sector>, w: seq<Sector>, d: Disk, l: Layout, first: nat, at: nat, end: nat)
    requires BitmapStep(v, w, l, first, at) && PublishedAll(d, w, l, at, end) && first <= at <= end
    ensures PublishedAll(d, v, l, first, end)
  {
    hide Initialised;
    forall image | CrashImage(d, image)
      ensures Published(image, v, l, first, end)
    {
      assert Published(image, w, l, at, end);
    }
  }

  /** w is v with the bits of metadata sectors from .. to set. */
  ghost predicate BitmapStep(v: seq<Sector>, w: seq<Sector>, l: Layout, from: nat, to: nat) {
    && LayoutOk(l, |v|) && |w| == |v|
    && (forall j :: 0 <= j < |v| && !(l.bitmapBase <= j < l.base) ==> w[j] == v[j])
    && (forall m: nat :: m < l.metadataBlocks ==> (Initialised(w, l, m) <==> Initialised(v, l, m) || from <= m < to))
  }

  /** image is v with some of those bits set. */
  ghost predicate Published(image: seq<Sector>, v: seq<Sector>, l: Layout, from: nat, to: nat) {
    && LayoutOk(l, |v|) && |image| == |v|
    && (forall j :: 0 <= j < |v| && !(l.bitmapBase <= j < l.base) ==> image[j] == v[j])
    && (forall m: nat :: m < l.metadataBlocks && Initialised(v, l, m) ==> Initialised(image, l, m))
    && (forall m: nat :: m < l.metadataBlocks && Initialised(image, l, m) ==> Initialised(v, l, m) || from <= m < to)
  }

  ghost predicate PublishedAll(d: Disk, v: seq<Sector>, l: Layout, from: nat, to: nat) {
    |d.live| == |d.durable| == |v| && forall image :: CrashImage(d, image) ==> Published(image, v, l, from, to)
  }

  lemma OnlyLive(d: Disk)
    requires DiskValid(d) && AllSure(d, 0, |d.live|)
    ensures forall image :: CrashImage(d, image) ==> image == d.live
  {
    forall image | CrashImage(d, image)
      ensures image == d.live
    {
      forall i | 0 <= i < |d.live|
        ensures image[i] == d.live[i]
      {
        SureIsRead(d, i, d.live[i]);
      }
    }
  }

  lemma NothingPublished(d: Disk, l: Layout, from: nat, to: nat)
    requires DiskValid(d) && AllSure(d, 0, |d.live|) && LayoutOk(l, |d.live|)
    ensures PublishedAll(d, d.live, l, from, to)
  {
    OnlyLive(d);
  }

  predicate Marked(s: Sector, t: Sector, sector: nat, at: nat, next: nat) {
    forall b: nat :: b < BITS_PER_SECTOR ==> (BitAt(t, b) <==> BitAt(s, b) || at <= BITS_PER_SECTOR * sector + b < next)
  }

  /** Marking one bitmap sector changes the meaning of just the marked metadata sectors. */
  lemma BitsMarked(v: seq<Sector>, l: Layout, sector: nat, s: Sector, t: Sector, at: nat, next: nat)
    requires LayoutOk(l, |v|) && l.bitmapBlocks > 0 && sector < l.bitmapBlocks && v[l.bitmapBase + sector] == s
    requires Marked(s, t, sector, at, next) && (forall m: nat :: at <= m < next ==> SectorOf(m) == sector)
    ensures BitmapStep(v, v[l.bitmapBase + sector := t], l, at, next)
  {
    var w := v[l.bitmapBase + sector := t];
    forall m: nat | m < l.metadataBlocks
      ensures Initialised(w, l, m) <==> Initialised(v, l, m) || at <= m < next
    {
      BitmapBound(l, |v|, m);
    }
  }

  lemma CutBitmap(before: Disk, after: Disk, l: Layout, sector: nat, t: Sector, ok: bool, at: nat, next: nat, end: nat)
    requires DiskValid(before) && AllSure(before, 0, |before.live|) && LayoutOk(l, |before.live|)
    requires l.bitmapBlocks > 0 && sector < l.bitmapBlocks && next <= end
    requires Wrote(before, after, l.bitmapBase + sector, [t], ok)
    requires BitmapStep(before.live, before.live[l.bitmapBase + sector := t], l, at, next)
    ensures PublishedAll(after, before.live, l, at, end)
  {
    var p := l.bitmapBase + sector;
    var v, w := before.live, before.live[p := t];
    forall image | CrashImage(after, image)
      ensures Published(image, v, l, at, end)
    {
      forall j | 0 <= j < |v| && j != p
        ensures image[j] == v[j]
      {
        assert Sure(after, j, v[j]);
        SureIsRead(after, j, v[j]);
      }
      assert Values(after, p) == {v[p], t};
      forall m: nat | m < l.metadataBlocks
        ensures Initialised(image, l, m) == Initialised(v, l, m) || Initialised(image, l, m) == Initialised(w, l, m)
      {
        BitmapBound(l, |v|, m);
        if SectorOf(m) == sector {
          TornBits(Values(after, p), v[p], t, image[p], BitOf(m));
        }
      }
    }
  }

  lemma TornBits(values: set<Sector>, a: Sector, b: Sector, s: Sector, k: nat)
    requires values == {a, b} && MayBe(values, s) && k < BITS_PER_SECTOR
    ensures BitAt(s, k) == BitAt(a, k) || BitAt(s, k) == BitAt(b, k)
  {
    if s !in values {
      assert TornBit(values, s, k);
    }
  }

  lemma StepPublished(v: seq<Sector>, d: Disk, l: Layout, at: nat, next: nat, end: nat)
    requires DiskValid(d) && AllSure(d, 0, |d.live|) && BitmapStep(v, d.live, l, at, next) && next <= end
    ensures PublishedAll(d, v, l, at, end)
  {
    OnlyLive(d);
  }

  function SetBit(s: Sector, k: nat): (r: Sector)
    requires k < BITS_PER_SECTOR
    ensures forall b: nat :: b < BITS_PER_SECTOR ==> (BitAt(r, b) <==> b == k || BitAt(s, b))
  {
    Bits(seq(BITS_PER_SECTOR, b requires 0 <= b < BITS_PER_SECTOR => b == k || BitAt(s, b)))
  }

  /** One cell of a metadata sector set to written. */
  function SetCell(s: Sector, n: nat, tag: SectorTag): Sector
    requires n < TAGS_PER_SECTOR
  {
    Tags(States(s)[n := 1], TagsOf(s)[n := tag])
  }

  function States(s: Sector): (r: seq<byte>)
    ensures |r| == TAGS_PER_SECTOR && forall k :: 0 <= k < TAGS_PER_SECTOR ==> r[k] == StateAt(s, k)
  {
    var r := seq(TAGS_PER_SECTOR, k requires 0 <= k < TAGS_PER_SECTOR => StateAt(s, k));
    assert forall k :: 0 <= k < |r| ==> r[k] == StateAt(s, k);
    r
  }

  function TagsOf(s: Sector): (r: seq<SectorTag>)
    ensures |r| == TAGS_PER_SECTOR && forall k :: 0 <= k < TAGS_PER_SECTOR ==> r[k] == TagAt(s, k)
  {
    seq(TAGS_PER_SECTOR, k requires 0 <= k < TAGS_PER_SECTOR => TagAt(s, k))
  }

  lemma StampOne(s: Sector, m: nat, key: nat, lba: nat, data: seq<seq<byte>>, c: seq<byte>)
    ensures var x := lba + |data|;
      Stamped(s, m, key, lba, data + [c])
      == if x / 15 == m then SetCell(Stamped(s, m, key, lba, data), x % 15, SectorMac(key, x, c))
         else Stamped(s, m, key, lba, data)
  {
    var x := lba + |data|;
    var a, b := Stamped(s, m, key, lba, data), Stamped(s, m, key, lba, data + [c]);
    if x / 15 == m {
      var e := SetCell(a, x % 15, SectorMac(key, x, c));
      forall k | 0 <= k < TAGS_PER_SECTOR
        ensures b.states[k] == e.states[k] && b.tags[k] == e.tags[k]
      {
        assert 15 * m + k == x <==> k == x % 15;
        assert InRange(lba, |data|, 15 * m + k) ==> (data + [c])[15 * m + k - lba] == data[15 * m + k - lba];
        StampedAt(s, m, key, lba, data, k);
      }
      assert b.states == e.states && b.tags == e.tags;
    } else if Touches(lba, |data|, m) {
      DivideMonotone(x - 1, x);
      forall k | 0 <= k < TAGS_PER_SECTOR
        ensures b.states[k] == a.states[k] && b.tags[k] == a.tags[k]
      {
        assert 15 * m + k != x;
        assert InRange(lba, |data|, 15 * m + k) ==> (data + [c])[15 * m + k - lba] == data[15 * m + k - lba];
      }
      assert b.states == a.states && b.tags == a.tags;
    }
  }

  lemma NothingStamped(before: seq<Sector>, first: nat, key: nat, lba: nat, data: seq<seq<byte>>)
    ensures data[..0] == [] && forall j: nat :: j < |before| ==> before[j] == Stamped(before[j], first + j, key, lba, [])
  {
  }

  lemma StampLine(before: seq<Sector>, now: seq<Sector>, first: nat, key: nat, lba: nat, data: seq<seq<byte>>, i: nat)
    requires |now| == |before| && i < |data| && first <= (lba + i) / 15 < first + |now|
    requires forall j: nat :: j < |now| ==> now[j] == Stamped(before[j], first + j, key, lba, data[..i])
    ensures var x := lba + i; var m := x / 15 - first;
      forall j: nat :: j < |now| ==>
        now[m := SetCell(now[m], x % 15, SectorMac(key, x, data[i]))][j] == Stamped(before[j], first + j, key, lba, data[..i + 1])
  {
    hide Stamped, SetCell;
    assert data[..i + 1] == data[..i] + [data[i]];
    forall j: nat | j < |now| {
      StampOne(before[j], first + j, key, lba, data[..i], data[i]);
    }
  }

  /** The cells of a stamped sector. */
  lemma StampedAt(s: Sector, m: nat, key: nat, lba: nat, data: seq<seq<byte>>, k: nat)
    requires k < TAGS_PER_SECTOR
    ensures StateAt(Stamped(s, m, key, lba, data), k) == StampedState(s, lba, |data|, 15 * m + k, k)
    ensures TagAt(Stamped(s, m, key, lba, data), k) == StampedTag(s, key, lba, data, 15 * m + k, k)
  {
    RangeTouches(lba, |data|, 15 * m + k);
  }

  lemma DivideMonotone(a: nat, b: nat)
    requires a <= b
    ensures a / 15 <= b / 15
  {
  }

  lemma TagsFew(lba: nat, n: nat)
    requires n > 0
    ensures lba / 15 <= (lba + n - 1) / 15 && (lba + n - 1) / 15 + 1 - lba / 15 <= n
  {
  }

  lemma WindowFits(lba: nat, n: nat)
    requires 0 < n <= MAX_BATCH
    ensures 0 < (lba + n - 1) / 15 - lba / 15 + 1 <= CACHE_BLOCKS
  {
  }
}
