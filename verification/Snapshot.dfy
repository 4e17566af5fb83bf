// The older FIDO store (src/shared/fido/store.c:74-257): a whole image in one of two banks of
// its region, published by a manifest that is written last.
//
// The disk is the region alone, as for the journal that replaced this store.
module Snapshot {
  import opened AuthStore
  import opened BlockDevice
  import opened Bytes
  import opened Card
  import opened Limits
  import opened Options
  import opened Relocation
  import opened VolumeFormat
  import ImageUpgrade
  import Medium = AuthStore
  import Xts

  const BANK: nat := 1024
  const SMALL: nat := 65536
  const LARGE: nat := 131072
  const SECTOR: nat := 512
  const BATCH: nat := 8

  /** Each bank has its own layers and its own authentication key. */
  datatype BankKeys = BankKeys(layers: seq<seq<Xts.Cipher>>, tags: seq<nat>)

  ghost predicate KeysOk(keys: BankKeys) {
    && |keys.layers| == |keys.tags| == 2
    && forall b :: 0 <= b < 2 ==> Xts.StackLawful(keys.layers[b]) && 0 < |keys.layers[b]| <= Xts.MAX_STACK
  }

  // ---- Manifests -----------------------------------------------------------

  /** The manifest of a bank, if the sector is one. */
  function Candidate(s: Sector, bank: nat): Option<ManifestRecord> {
    if s.Manifest? && s.manifest.generation != 0 && s.manifest.bank == bank && s.manifest.bytes in {SMALL, LARGE}
    then Some(s.manifest) else None
  }

  /** The newer of two; two of one generation name nothing. */
  function Newer(a: Option<ManifestRecord>, b: Option<ManifestRecord>): Option<ManifestRecord> {
    if b.None? then a
    else if a.None? then b
    else if a.value.generation == b.value.generation then None
    else if a.value.generation < b.value.generation then b
    else a
  }

  function Selected(m: seq<Sector>): Option<ManifestRecord>
    requires |m| > BANK
  {
    Newer(Candidate(m[0], 0), Candidate(m[BANK], 1))
  }

  lemma SelectedIs(m: seq<Sector>, r: ManifestRecord)
    requires |m| > BANK && Selected(m) == Some(r)
    ensures r.bank < 2 && r.bytes in {SMALL, LARGE} && r.generation != 0 && m[BANK * r.bank] == Manifest(r)
    ensures var s := Candidate(m[BANK * (1 - r.bank)], 1 - r.bank); s.None? || s.value.generation < r.generation
  {
  }

  // ---- Images --------------------------------------------------------------

  function ImageLayout(base: nat, bytes: nat): Layout {
    LayoutAt(false, base + 1, bytes / SECTOR)
  }

  predicate WholeSectors(digest: seq<Sector>) {
    |digest| <= 256 && forall x :: 0 <= x < |digest| ==> digest[x].Data? && |digest[x].bytes| == SECTOR
  }

  /** The bank at base authentically holds just the ciphertext of this digest. */
  predicate Intact(v: seq<Sector>, base: nat, key: nat, bytes: nat, digest: seq<Sector>) {
    var l := ImageLayout(base, bytes);
    && LayoutOk(l, |v|) && |digest| == l.blocks && WholeSectors(digest)
    && forall x: nat :: x < l.blocks ==> Look(v, l, key, x) == Written(digest[x].bytes)
  }

  /** Where a bank of this size ends. */
  lemma BankFits(base: nat, bytes: nat, size: nat)
    requires bytes in {SMALL, LARGE} && base + SnapshotSectors(bytes) <= size
    ensures var l := ImageLayout(base, bytes);
      LayoutOk(l, size) && l.bitmapBase == base + 1 && l.dataBase + l.blocks == base + SnapshotSectors(bytes) && l.bitmapBlocks == 0
      && l.blocks == bytes / SECTOR <= 256 && l.blocks % BATCH == 0
  {
  }

  /** Being intact is a matter of the bank's own sectors, wherever they lie. */
  lemma IntactMoves(v: seq<Sector>, a: nat, w: seq<Sector>, b: nat, key: nat, bytes: nat, digest: seq<Sector>)
    requires bytes in {SMALL, LARGE} && a + SnapshotSectors(bytes) <= |v| && b + SnapshotSectors(bytes) <= |w|
    requires v[a..a + SnapshotSectors(bytes)] == w[b..b + SnapshotSectors(bytes)]
    ensures Intact(v, a, key, bytes, digest) ==> Intact(w, b, key, bytes, digest)
  {
    var n := SnapshotSectors(bytes);
    BankFits(a, bytes, |v|);
    BankFits(b, bytes, |w|);
    var l, k := ImageLayout(a, bytes), ImageLayout(b, bytes);
    forall x: nat | x < l.blocks
      ensures Look(v, l, key, x) == Look(w, k, key, x)
    {
      MetaBound(l, |v|, x);
      SameAt(v, a, w, b, n, 1 + x / 15);
      SameAt(v, a, w, b, n, 1 + l.metadataBlocks + x);
    }
  }

  lemma SameAt(v: seq<Sector>, a: nat, w: seq<Sector>, b: nat, n: nat, i: nat)
    requires a + n <= |v| && b + n <= |w| && v[a..a + n] == w[b..b + n] && i < n
    ensures v[a + i] == w[b + i]
  {
    assert v[a..a + n][i] == v[a + i] && w[b..b + n][i] == w[b + i];
  }

  ghost function PlainByte(layers: seq<Xts.Cipher>, digest: seq<Sector>, i: nat): byte
    requires Xts.StackLawful(layers) && WholeSectors(digest) && i / SECTOR < |digest|
  {
    SectorByte(layers, i / SECTOR, digest[i / SECTOR].bytes, i % SECTOR)
  }

  ghost function SectorByte(layers: seq<Xts.Cipher>, lba: nat, cipher: seq<byte>, k: nat): byte
    requires Xts.StackLawful(layers) && |cipher| == SECTOR && lba < 256 && k < SECTOR
  {
    Xts.Decrypted(layers, lba, cipher)[k]
  }

  /** The image the ciphertext of a digest decrypts to. */
  ghost function PlainBytes(layers: seq<Xts.Cipher>, digest: seq<Sector>): (r: seq<byte>)
    requires Xts.StackLawful(layers) && WholeSectors(digest)
    ensures |r| == SECTOR * |digest| && forall i: nat :: i < |r| ==> r[i] == PlainByte(layers, digest, i)
  {
    var r := seq(SECTOR * |digest|, i requires 0 <= i < SECTOR * |digest| => PlainByte(layers, digest, i));
    assert forall i: nat :: i < |r| ==> r[i] == PlainByte(layers, digest, i);
    r
  }

  /** What an open of the region gives. */
  ghost function Opens(m: seq<Sector>, keys: BankKeys): (r: Option<seq<byte>>)
    requires |m| == REGION && KeysOk(keys)
  {
    var s := Selected(m);
    if s.Some? && s.value.bank < 2 && Intact(m, BANK * s.value.bank, keys.tags[s.value.bank], s.value.bytes, s.value.digest)
    then Expanded(PlainBytes(keys.layers[s.value.bank], s.value.digest))
    else None
  }

  /** A small image is enlarged as it is opened. */
  function Expanded(image: seq<byte>): Option<seq<byte>> {
    if |image| == SMALL then (if Movable(image) then Some(Moved(image, ImageUpgrade.DELTA)) else None)
    else Some(image)
  }

  // ---- Reading an image ----------------------------------------------------

  datatype Outcome = Done | Invalid | LockedOut | Io | Damaged | Stale

  /** The bytes of the first n sectors of a digest. */
  ghost predicate Decoded(layers: seq<Xts.Cipher>, digest: seq<Sector>, output: seq<byte>)
    requires Xts.StackLawful(layers)
  {
    WholeSectors(digest) && SECTOR * |digest| <= |output| && output[..SECTOR * |digest|] == PlainBytes(layers, digest)
  }

  /** Every sector of an open store, written and whole. */
  ghost predicate Readable(auth: AuthStore, digest: seq<Sector>)
    requires auth.Attached()
    reads auth, auth.dev
  {
    && WholeSectors(digest) && |digest| <= auth.layout.blocks
    && forall x: nat :: x < |digest| ==> auth.Contents()[x] == Written(digest[x].bytes)
  }

  /** Nothing in the store is missing, damaged or short. */
  ghost predicate AllWhole(auth: AuthStore)
    requires auth.Attached()
    reads auth, auth.dev
  {
    forall x: nat :: x < auth.layout.blocks ==> auth.Contents()[x].Written? && |auth.Contents()[x].cipher| == SECTOR
  }

  method CopyOut(output: array<byte>, at: nat, data: seq<byte>)
    requires at + |data| <= output.Length
    modifies output
    ensures output[..at] == old(output[..at]) && output[at..at + |data|] == data
    ensures forall i :: at + |data| <= i < output.Length ==> output[i] == old(output[i])
  {
    for k := 0 to |data|
      invariant forall i :: 0 <= i < output.Length ==> output[i] == if at <= i < at + k then data[i - at] else old(output[i])
    {
      output[at + k] := data[k];
    }
  }

  /** Append one sector to what has been decrypted. */
  method DecryptOne(layers: seq<Xts.Cipher>, ghost digest: seq<Sector>, cipher: seq<byte>, lba: nat, output: array<byte>) returns (ok: bool)
    requires Xts.StackLawful(layers) && 0 < |layers| <= Xts.MAX_STACK && |cipher| == SECTOR
    requires lba == |digest| < 256 && Decoded(layers, digest, output[..]) && SECTOR * lba + SECTOR <= output.Length
    modifies output
    ensures ok && Decoded(layers, digest + [Data(cipher)], output[..])
  {
    hide Xts.StackLawful, Xts.Decrypted, PlainByte;
    ghost var before := output[..];
    var at := SECTOR * lba;
    CopyOut(output, at, cipher);
    ok := Xts.Run(layers, lba, output, at, output, at, false);
    ghost var more := digest + [Data(cipher)];
    assert WholeSectors(more);
    forall i: nat | i < SECTOR * |more|
      ensures output[i] == PlainByte(layers, more, i)
    {
      if i < at {
        assert output[i] == before[i] == before[..at][i] == PlainBytes(layers, digest)[i];
        EarlierByte(layers, digest, Data(cipher), i);
      } else {
        LastByte(layers, digest, cipher, i);
        assert output[i] == output[at..at + SECTOR][i - at];
      }
    }
  }

  lemma EarlierByte(layers: seq<Xts.Cipher>, digest: seq<Sector>, s: Sector, i: nat)
    requires Xts.StackLawful(layers) && WholeSectors(digest) && WholeSectors(digest + [s]) && i < SECTOR * |digest|
    ensures PlainByte(layers, digest + [s], i) == PlainByte(layers, digest, i)
  {
    hide Xts.StackLawful, Xts.Decrypted;
    assert (digest + [s])[i / SECTOR] == digest[i / SECTOR];
  }

  lemma LastByte(layers: seq<Xts.Cipher>, digest: seq<Sector>, cipher: seq<byte>, i: nat)
    requires Xts.StackLawful(layers) && WholeSectors(digest + [Data(cipher)]) && |cipher| == SECTOR && |digest| < 256
    requires SECTOR * |digest| <= i < SECTOR * |digest| + SECTOR
    ensures PlainByte(layers, digest + [Data(cipher)], i) == SectorByte(layers, |digest|, cipher, i - SECTOR * |digest|)
  {
    hide Xts.StackLawful, SectorByte, WholeSectors;
    InSector(|digest|, i);
    assert (digest + [Data(cipher)])[|digest|] == Data(cipher);
  }

  lemma InSector(x: nat, i: nat)
    requires SECTOR * x <= i < SECTOR * x + SECTOR
    ensures i / SECTOR == x && i % SECTOR == i - SECTOR * x
  {
  }

  /** Authenticate every sector of an image, in batches; decrypt them if there is somewhere to
      put them. The digest is what a hash over the ciphertext stands for. */
  method ReadImage(auth: AuthStore, layers: seq<Xts.Cipher>, output: array?<byte>) returns (r: Outcome, digest: seq<Sector>)
    requires auth.Valid() && auth.ready && auth.layout.blocks <= 256 && auth.layout.blocks % BATCH == 0
    requires Xts.StackLawful(layers) && 0 < |layers| <= Xts.MAX_STACK
    requires output != null ==> SECTOR * auth.layout.blocks <= output.Length
    modifies auth, output
    ensures auth.Valid() && (r == Done ==> auth.ready) && r in {Done, Io, Damaged}
    ensures r == Done ==> |digest| == auth.layout.blocks && Readable(auth, digest)
    ensures r == Done && output != null ==> Decoded(layers, digest, output[..])
    ensures old(AllWhole(auth)) && auth.dev.disk.reliable ==> r == Done
  {
    hide Device.Valid, Device.Contents, AuthStore.Valid, Readable, AllWhole, Xts.StackLawful, PlainByte, AuthStore.ReadRight,
         AuthStore.Attached, Decoded;
    NothingRead(auth);
    ghost var whole := AllWhole(auth);
    digest := [];
    var n := auth.layout.blocks;
    if output != null {
      NothingDecoded(layers, output[..]);
    }
    while |digest| < n
      invariant |digest| <= n && |digest| % BATCH == 0 && auth.Valid() && auth.ready && auth.Attached() && Readable(auth, digest)
      invariant output != null ==> Decoded(layers, digest, output[..])
      invariant AllWhole(auth) == whole
      decreases n - |digest|
    {
      r, digest := ReadNext(auth, layers, output, digest);
      if r != Done {
        return;
      }
    }
    r := Done;
  }

  /** One more batch. */
  method ReadNext(auth: AuthStore, layers: seq<Xts.Cipher>, output: array?<byte>, done: seq<Sector>) returns (r: Outcome, digest: seq<Sector>)
    requires auth.Valid() && auth.ready && Readable(auth, done) && |done| + BATCH <= auth.layout.blocks <= 256
    requires Xts.StackLawful(layers) && 0 < |layers| <= Xts.MAX_STACK
    requires output != null ==> SECTOR * auth.layout.blocks <= output.Length && Decoded(layers, done, output[..])
    modifies auth, output
    ensures auth.Valid() && r in {Done, Io, Damaged}
    ensures r == Done ==> auth.ready && auth.Attached() && |digest| == |done| + BATCH && Readable(auth, digest)
    ensures r == Done ==> AllWhole(auth) == old(AllWhole(auth))
    ensures r == Done && output != null ==> Decoded(layers, digest, output[..])
    ensures old(AllWhole(auth)) && auth.dev.disk.reliable ==> r == Done
  {
    hide Device.Valid, Device.Contents, AuthStore.Valid, Readable, AllWhole, Xts.StackLawful, PlainByte, AuthStore.ReadRight,
         AuthStore.Attached, Decoded;
    var data;
    ghost var unset;
    digest := done;
    r, data, unset := ReadWritten(auth, done);
    if r == Done {
      r, digest := AcceptBatch(auth, layers, output, done, data, unset);
    }
  }

  lemma NothingDecoded(layers: seq<Xts.Cipher>, output: seq<byte>)
    requires Xts.StackLawful(layers)
    ensures Decoded(layers, [], output)
  {
    hide Xts.StackLawful;
    assert output[..0] == PlainBytes(layers, []);
  }

  lemma NothingRead(auth: AuthStore)
    requires auth.Valid() && auth.ready
    ensures auth.Attached() && Readable(auth, [])
  {
    hide Device.Valid, Device.Contents, LayoutOk;
  }

  /** One batch, all of it written. */
  method ReadWritten(auth: AuthStore, digest: seq<Sector>) returns (r: Outcome, data: seq<seq<byte>>, ghost unset: seq<bool>)
    requires auth.Valid() && auth.ready && Readable(auth, digest) && |digest| + BATCH <= auth.layout.blocks
    modifies auth
    ensures auth.Valid() && (r == Done ==> auth.ready) && r in {Done, Io, Damaged}
    ensures r == Done ==> auth.Attached() && Readable(auth, digest) && AllWhole(auth) == old(AllWhole(auth))
    ensures r == Done ==> |data| == BATCH && auth.ReadRight(|digest|, data, unset) && true !in unset
    ensures old(AllWhole(auth)) && auth.dev.disk.reliable ==> r == Done
  {
    hide Device.Valid, Device.Contents, Device.Sound, AuthStore.BitmapAgrees, AuthStore.BitsAgree, AuthStore.TagsAgree;
    hide LayoutOk, Device.Writable, DiskValid, AuthStore.SomeCorrupt, AuthStore.ReadRight, Look;
    ghost var contents := auth.Contents();
    var lba, got, flags := |digest|, Okay, [];
    got, data, flags := auth.ReadBatch(lba, BATCH);
    assert got in {Okay, IntegrityError} ==> auth.Contents() == contents;
    unset := flags;
    if got == Okay && true in flags {
      UnsetNotWhole(auth, lba, data, flags);
    } else if got == IntegrityError {
      CorruptNotWhole(auth, lba, BATCH);
    }
    r := if got == Okay && true !in flags then Done else if got in {IntegrityError, Okay} then Damaged else Io;
  }

  lemma UnsetNotWhole(auth: AuthStore, lba: nat, data: seq<seq<byte>>, unset: seq<bool>)
    requires auth.Attached() && lba + |data| <= auth.layout.blocks && auth.ReadRight(lba, data, unset) && true in unset
    ensures !AllWhole(auth)
  {
    hide LayoutOk, Look;
    var k: nat :| k < |unset| && unset[k];
    assert InRange(lba, |data|, lba + k);
  }

  lemma CorruptNotWhole(auth: AuthStore, lba: nat, n: nat)
    requires auth.Attached() && lba + n <= auth.layout.blocks && auth.SomeCorrupt(lba, n)
    ensures !AllWhole(auth)
  {
    hide LayoutOk, Look;
  }

  method AcceptBatch(auth: AuthStore, layers: seq<Xts.Cipher>, output: array?<byte>, done: seq<Sector>,
                     data: seq<seq<byte>>, ghost unset: seq<bool>) returns (r: Outcome, digest: seq<Sector>)
    requires auth.Valid() && auth.ready && Readable(auth, done) && |done| + BATCH <= auth.layout.blocks <= 256
    requires |data| == BATCH && auth.ReadRight(|done|, data, unset) && true !in unset
    requires Xts.StackLawful(layers) && 0 < |layers| <= Xts.MAX_STACK
    requires output != null ==> SECTOR * auth.layout.blocks <= output.Length && Decoded(layers, done, output[..])
    modifies output
    ensures auth.Valid() && r in {Done, Damaged}
    ensures r == Done ==> auth.Attached() && |digest| == |done| + BATCH && Readable(auth, digest)
    ensures r == Done && output != null ==> Decoded(layers, digest, output[..])
    ensures AllWhole(auth) ==> r == Done
  {
    hide Device.Valid, Device.Contents, Device.Sound, AuthStore.BitmapAgrees, AuthStore.BitsAgree, AuthStore.TagsAgree;
    hide LayoutOk, Xts.StackLawful, Device.Writable, Decoded, DiskValid, AuthStore.Contents;
    digest := done;
    for i := 0 to BATCH
      invariant |digest| == |done| + i && Readable(auth, digest) && auth.Valid()
      invariant output != null ==> Decoded(layers, digest, output[..])
    {
      assert InRange(|done|, BATCH, |done| + i) && !unset[i];
      if |data[i]| != SECTOR {
        return Damaged, digest;
      }
      if output != null {
        var ok := DecryptOne(layers, digest, data[i], |digest|, output);
      }
      digest := digest + [Data(data[i])];
    }
    r := Done;
  }

  // ---- Which snapshot a region names ---------------------------------------

  /** The region names r and holds its image. */
  ghost predicate Names(m: seq<Sector>, keys: BankKeys, r: ManifestRecord)
    requires KeysOk(keys)
  {
    |m| == REGION && Selected(m) == Some(r) && r.bank < 2 && Intact(m, BANK * r.bank, keys.tags[r.bank], r.bytes, r.digest)
  }

  predicate Older(s: Sector, bank: nat, generation: nat) {
    Candidate(s, bank).Some? ==> s.manifest.generation < generation
  }

  /** Where the manifest of the other bank goes. */
  function Other(bank: nat): nat
    requires bank < 2
  {
    BANK * (1 - bank)
  }

  /** The region durably names r. */
  ghost predicate Current(d: Disk, keys: BankKeys, r: ManifestRecord)
    requires KeysOk(keys)
  {
    && DiskValid(d) && Names(d.live, keys, r)
    && AllSure(d, BANK * r.bank, BANK * r.bank + SnapshotSectors(r.bytes))
    && forall x :: x in Values(d, Other(r.bank)) ==> Older(x, 1 - r.bank, r.generation)
  }

  lemma NotNewer(d: Disk, i: nat, bank: nat, generation: nat, s: Sector)
    requires i < |d.durable| && MayHold(d, i, s) && forall x :: x in Values(d, i) ==> Older(x, bank, generation)
    ensures Older(s, bank, generation)
  {
  }

  /** The other bank's manifest being no newer, and r's bank being the same, names r again. */
  lemma SameNames(v: seq<Sector>, w: seq<Sector>, keys: BankKeys, r: ManifestRecord)
    requires KeysOk(keys) && Names(v, keys, r) && |w| == REGION && Older(w[Other(r.bank)], 1 - r.bank, r.generation)
    requires forall i :: BANK * r.bank <= i < BANK * r.bank + SnapshotSectors(r.bytes) ==> w[i] == v[i]
    ensures Names(w, keys, r)
  {
    hide Intact, Xts.StackLawful;
    SelectedIs(v, r);
    var a := BANK * r.bank;
    var n := SnapshotSectors(r.bytes);
    assert v[a..a + n] == w[a..a + n];
    IntactMoves(v, a, w, a, keys.tags[r.bank], r.bytes, r.digest);
  }

  /** So whatever power loss does, it is still r. */
  lemma CurrentNames(d: Disk, keys: BankKeys, r: ManifestRecord, image: seq<Sector>)
    requires KeysOk(keys) && Current(d, keys, r) && CrashImage(d, image)
    ensures Names(image, keys, r)
  {
    hide Intact, Xts.StackLawful, DiskValid, Selected, Older;
    var a := BANK * r.bank;
    SureRange(d, a, a + SnapshotSectors(r.bytes), image);
    NotNewer(d, Other(r.bank), 1 - r.bank, r.generation, image[Other(r.bank)]);
    SameNames(d.live, image, keys, r);
  }

  lemma StillSized(before: Disk, after: Disk, at: nat, data: seq<Sector>, ok: bool)
    requires DiskValid(before) && at + |data| <= |before.live| && Wrote(before, after, at, data, ok)
    ensures DiskValid(after) && |after.live| == |before.live| && after.reliable == before.reliable
  {
  }

  /** Writing something that is no manifest over the other bank's, cut or not. */
  lemma Invalidated(before: Disk, after: Disk, keys: BankKeys, r: ManifestRecord, s: Sector, ok: bool)
    requires KeysOk(keys) && Current(before, keys, r) && !s.Manifest? && Wrote(before, after, Other(r.bank), [s], ok)
    ensures Current(after, keys, r)
  {
    hide Intact, Xts.StackLawful, DiskValid, Selected;
    forall x | x in Values(after, Other(r.bank))
      ensures Older(x, 1 - r.bank, r.generation)
    {
    }
    StillSized(before, after, Other(r.bank), [s], ok);
    LiveMayBe(after, Other(r.bank));
    NotNewer(after, Other(r.bank), 1 - r.bank, r.generation, after.live[Other(r.bank)]);
    SameNames(before.live, after.live, keys, r);
  }

  lemma LiveMayBe(d: Disk, i: nat)
    requires DiskValid(d) && i < |d.live|
    ensures i < |d.durable| && MayHold(d, i, d.live[i])
  {
  }

  lemma SyncedCurrent(before: Disk, after: Disk, keys: BankKeys, r: ManifestRecord)
    requires KeysOk(keys) && Current(before, keys, r) && DiskValid(after)
    requires after == before.(durable := before.live, unsynced := map[])
    ensures Current(after, keys, r)
  {
    hide Intact, Xts.StackLawful, Selected, MayBe;
    SyncKeepsSure(before, after);
    LiveMayBe(before, Other(r.bank));
    NotNewer(before, Other(r.bank), 1 - r.bank, r.generation, before.live[Other(r.bank)]);
    assert Values(after, Other(r.bank)) == {after.live[Other(r.bank)]};
  }

  /** Nothing outside a range has changed or become less certain since it was m. */
  ghost predicate KeptOutside(d: Disk, m: seq<Sector>, low: nat, high: nat) {
    && DiskValid(d) && |d.live| == |m| == REGION
    && forall i: nat :: i < REGION && !(low <= i < high) ==> Sure(d, i, m[i])
  }

  /** Writing the body of the other bank disturbs nothing. */
  lemma BodyWritten(before: Disk, after: Disk, keys: BankKeys, r: ManifestRecord, bytes: nat)
    requires KeysOk(keys) && Current(before, keys, r) && AllSure(before, 0, REGION) && bytes in {SMALL, LARGE}
    requires KeptOutside(after, before.live, Other(r.bank) + 1, Other(r.bank) + SnapshotSectors(bytes))
    ensures Current(after, keys, r)
  {
    hide Intact, Xts.StackLawful, Selected, MayBe, Older;
    SelectedIs(before.live, r);
    forall i: nat | i < REGION && !(Other(r.bank) + 1 <= i < Other(r.bank) + SnapshotSectors(bytes))
      ensures after.live[i] == before.live[i]
    {
      SureIsRead(after, i, before.live[i]);
    }
    LiveMayBe(before, Other(r.bank));
    NotNewer(before, Other(r.bank), 1 - r.bank, r.generation, before.live[Other(r.bank)]);
    SameNames(before.live, after.live, keys, r);
  }

  /** Publishing the next snapshot: a power loss finds the one or the other. */
  lemma Publishing(before: Disk, after: Disk, keys: BankKeys, r: ManifestRecord, next: ManifestRecord, ok: bool, image: seq<Sector>)
    requires KeysOk(keys) && Current(before, keys, r) && AllSure(before, 0, REGION)
    requires next.bank == 1 - r.bank && next.generation > r.generation && next.bytes in {SMALL, LARGE}
    requires Intact(before.live, BANK * next.bank, keys.tags[next.bank], next.bytes, next.digest)
    requires Wrote(before, after, BANK * next.bank, [Manifest(next)], ok) && CrashImage(after, image)
    ensures Names(image, keys, r) || Names(image, keys, next)
  {
    hide Intact, Xts.StackLawful, DiskValid, MayBe, Selected;
    var at := BANK * next.bank;
    forall i: nat | i < REGION && i != at
      ensures image[i] == before.live[i]
    {
      assert Values(after, i) == Values(before, i) && Sure(before, i, before.live[i]);
      OnlyOneValue(before.live[i]);
      assert MayHold(after, i, image[i]);
    }
    if image[at] == Manifest(next) {
      PublishedNames(before.live, image, keys, r, next);
    } else {
      StillNoManifest(before, after, at, next, image[at]);
      SameNames(before.live, image, keys, r);
    }
  }

  lemma StillNoManifest(before: Disk, after: Disk, at: nat, next: ManifestRecord, s: Sector)
    requires at < |before.durable| && at < |after.durable| && MayHold(after, at, s) && s != Manifest(next)
    requires Values(after, at) == Values(before, at) + {Manifest(next)}
    ensures s in Values(before, at) || Candidate(s, next.bank).None?
  {
  }

  lemma PublishedNames(v: seq<Sector>, w: seq<Sector>, keys: BankKeys, r: ManifestRecord, next: ManifestRecord)
    requires KeysOk(keys) && Names(v, keys, r) && |w| == REGION && next.bank < 2 && w[BANK * next.bank] == Manifest(next)
    requires next.bank == 1 - r.bank && next.generation > r.generation && next.bytes in {SMALL, LARGE}
    requires Intact(v, BANK * next.bank, keys.tags[next.bank], next.bytes, next.digest)
    requires forall i: nat :: i < REGION && i != BANK * next.bank ==> w[i] == v[i]
    ensures Names(w, keys, next)
  {
    hide Xts.StackLawful;
    SelectedIs(v, r);
    BodyIntact(v, w, BANK * next.bank, keys.tags[next.bank], next.bytes, next.digest);
  }

  /** The manifest is no part of what it vouches for. */
  lemma BodyIntact(v: seq<Sector>, w: seq<Sector>, base: nat, key: nat, bytes: nat, digest: seq<Sector>)
    requires bytes in {SMALL, LARGE} && base + SnapshotSectors(bytes) <= |v| == |w|
    requires forall i: nat :: i < |v| && i != base ==> w[i] == v[i]
    ensures Intact(v, base, key, bytes, digest) ==> Intact(w, base, key, bytes, digest)
  {
    BankFits(base, bytes, |v|);
    var l := ImageLayout(base, bytes);
    forall x: nat | x < l.blocks
      ensures Look(v, l, key, x) == Look(w, l, key, x)
    {
      MetaBound(l, |v|, x);
    }
  }

  /** A commit begins by invalidating the other bank. That can leave a region naming nothing,
      unless the manifest it goes by is durable: a manifest whose sync failed reads back, and
      the store opens on it, but power loss may still take it away. */
  lemma CommitSafeExactlyWhenDurable(before: Disk, after: Disk, r: ManifestRecord, zero: Sector, ok: bool)
    requires DiskValid(before) && |before.live| == REGION && Selected(before.live) == Some(r) && r.bank < 2
    requires forall x :: x in Values(before, BANK * r.bank) ==> x == Manifest(r) || Candidate(x, r.bank).None?
    requires forall x :: x in Values(before, Other(r.bank)) ==> Older(x, 1 - r.bank, r.generation)
    requires !zero.Manifest? && Wrote(before, after, Other(r.bank), [zero], ok)
    ensures (forall image :: CrashImage(after, image) ==> Selected(image).Some?) <==> Sure(before, BANK * r.bank, Manifest(r))
  {
    hide DiskValid, MayBe;
    SelectedIs(before.live, r);
    StillSized(before, after, Other(r.bank), [zero], ok);
    var at, other := BANK * r.bank, Other(r.bank);
    assert Values(after, at) == Values(before, at);
    if Sure(before, at, Manifest(r)) {
      forall image | CrashImage(after, image)
        ensures Selected(image).Some?
      {
        SureIsRead(after, at, Manifest(r));
        assert forall x :: x in Values(after, other) ==> Older(x, 1 - r.bank, r.generation);
        NotNewer(after, other, 1 - r.bank, r.generation, image[other]);
      }
    } else {
      assert Values(before, at) != {};
      var x :| x in Values(before, at) && x != Manifest(r);
      LostManifest(after, at, other, x, zero);
    }
  }

  /** A manifest whose write was accepted, with the sync after it or without. */
  ghost predicate Recorded(before: Disk, after: Disk, next: ManifestRecord, synced: bool) {
    && DiskValid(before) && |before.live| == REGION && next.bank < 2
    && exists cut :: Wrote(before, cut, BANK * next.bank, [Manifest(next)], true)
                     && after == if synced then cut.(durable := cut.live, unsynced := map[]) else cut
  }

  /** A commit whose manifest was accepted but not synced reports a failure. Opened again, the
      store goes by it, and the next commit invalidates the bank before it: from then on a
      power loss leaves a region that names a snapshot exactly if the manifest had been synced. */
  lemma CommitThenOpen(before: Disk, found: Disk, after: Disk, r: ManifestRecord, next: ManifestRecord, zero: Sector, synced: bool, ok: bool)
    requires Recorded(before, found, next, synced) && AllSure(before, 0, REGION) && Selected(before.live) == Some(r)
    requires next.bank == 1 - r.bank && next.generation > r.generation && next.bytes in {SMALL, LARGE}
    requires !before.live[BANK * next.bank].Manifest? && !zero.Manifest?
    requires DiskValid(found) && |found.live| == REGION && Wrote(found, after, Other(next.bank), [zero], ok)
    ensures Selected(found.live) == Some(next)
    ensures (forall image :: CrashImage(after, image) ==> Selected(image).Some?) <==> synced
  {
    hide MayBe;
    SelectedIs(before.live, r);
    var at, other := BANK * next.bank, Other(next.bank);
    var cut :| Wrote(before, cut, at, [Manifest(next)], true)
               && found == if synced then cut.(durable := cut.live, unsynced := map[]) else cut;
    assert Sure(before, at, before.live[at]) && Sure(before, other, before.live[other]);
    assert Values(cut, at) == {before.live[at], Manifest(next)} && Values(cut, other) == {Manifest(r)};
    CommitSafeExactlyWhenDurable(found, after, next, zero, ok);
  }

  lemma LostManifest(d: Disk, at: nat, other: nat, x: Sector, zero: Sector)
    requires DiskValid(d) && |d.live| == REGION && {at, other} == {0, BANK}
    requires x in Values(d, at) && zero in Values(d, other)
    requires Candidate(x, at / BANK).None? && !zero.Manifest?
    ensures exists image :: CrashImage(d, image) && Selected(image).None?
  {
    hide MayBe;
    var image := d.durable[at := x][other := zero];
    forall i | 0 <= i < |image|
      ensures MayHold(d, i, image[i])
    {
      Possible(d, i, image[i]);
    }
    assert CrashImage(d, image);
  }

  // ---- Writing an image ----------------------------------------------------

  function SectorOfImage(image: seq<byte>, x: nat): (p: seq<byte>)
    requires SECTOR * x + SECTOR <= |image|
    ensures |p| == SECTOR
  {
    image[SECTOR * x..SECTOR * x + SECTOR]
  }

  /** The digest of an image as these layers encrypt it. */
  ghost predicate DigestOf(layers: seq<Xts.Cipher>, image: seq<byte>, digest: seq<Sector>)
    requires Xts.StackLawful(layers)
  {
    && WholeSectors(digest) && SECTOR * |digest| <= |image|
    && forall x: nat :: x < |digest| ==> digest[x].bytes == Xts.Encrypted(layers, x, SectorOfImage(image, x))
  }

  lemma DigestDecodes(layers: seq<Xts.Cipher>, image: seq<byte>, digest: seq<Sector>)
    requires Xts.StackLawful(layers) && DigestOf(layers, image, digest) && |image| == SECTOR * |digest|
    ensures PlainBytes(layers, digest) == image
  {
    hide Xts.StackLawful, Xts.Encrypted, Xts.Decrypted;
    forall i: nat | i < |image|
      ensures PlainByte(layers, digest, i) == image[i]
    {
      var x := i / SECTOR;
      InSector(x, i);
      Xts.StackRoundTrip(layers, x, SectorOfImage(image, x));
    }
  }

  /** One batch of an image, encrypted for the sectors from first on. */
  method EncryptBatch(layers: seq<Xts.Cipher>, image: seq<byte>, first: nat) returns (ok: bool, data: seq<seq<byte>>)
    requires Xts.StackLawful(layers) && 0 < |layers| <= Xts.MAX_STACK
    requires first + BATCH <= 256 && SECTOR * (first + BATCH) <= |image|
    ensures ok && |data| == BATCH
    ensures forall k: nat :: k < BATCH ==> data[k] == Xts.Encrypted(layers, first + k, SectorOfImage(image, first + k))
  {
    hide Xts.Encrypted, Xts.Decrypted, Xts.StackLawful;
    data := [];
    ok := true;
    for k := 0 to BATCH
      invariant ok && |data| == k
      invariant forall j: nat :: j < k ==> data[j] == Xts.Encrypted(layers, first + j, SectorOfImage(image, first + j))
    {
      var plain := SectorOfImage(image, first + k);
      var p := new byte[SECTOR](i requires 0 <= i < SECTOR => plain[i]);
      assert p[0..SECTOR] == plain;
      ok := Xts.Run(layers, first + k, p, 0, p, 0, true);
      data := data + [p[0..SECTOR]];
    }
  }

  /** Encrypt an image into an empty store. */
  method WriteBody(auth: AuthStore, layers: seq<Xts.Cipher>, image: seq<byte>) returns (ok: bool, digest: seq<Sector>)
    requires auth.Valid() && auth.ready && auth.layout.blocks <= 256 && auth.layout.blocks % BATCH == 0
    requires Xts.StackLawful(layers) && 0 < |layers| <= Xts.MAX_STACK && |image| == SECTOR * auth.layout.blocks
    modifies auth, auth.dev`disk, auth.dev`count, auth.dev`targets
    ensures auth.Valid() && auth.dev.disk.reliable == old(auth.dev.disk.reliable)
    ensures ok ==> auth.ready && |digest| == auth.layout.blocks && DigestOf(layers, image, digest) && Readable(auth, digest)
    ensures auth.dev.disk.reliable && !auth.dev.overlay ==> ok
  {
    hide Device.Valid, Device.Contents, Device.Sound, AuthStore.BitmapAgrees, AuthStore.BitsAgree, AuthStore.TagsAgree;
    hide LayoutOk, Xts.StackLawful, Device.Writable, DiskValid, KeepsSince, Since, Updated, Xts.Encrypted, Look;
    digest := [];
    while |digest| < auth.layout.blocks
      invariant |digest| <= auth.layout.blocks && |digest| % BATCH == 0 && auth.Valid() && auth.ready && Readable(auth, digest)
      invariant DigestOf(layers, image, digest) && auth.dev.disk.reliable == old(auth.dev.disk.reliable)
      decreases auth.layout.blocks - |digest|
    {
      var data;
      ok, data := EncryptBatch(layers, image, |digest|);
      ghost var before, lba := auth.Contents(), |digest|;
      var r := auth.Write(|digest|, data);
      if r != Okay {
        return false, digest;
      }
      digest := digest + Ciphers(data);
      forall x: nat | x < |digest|
        ensures auth.Contents()[x] == Written(digest[x].bytes)
      {
        assert auth.Contents()[x] == Overwritten(before, lba, data)[x];
      }
      forall x: nat | x < |digest|
        ensures digest[x].bytes == Xts.Encrypted(layers, x, SectorOfImage(image, x))
      {
        if x >= lba {
          var k: nat := x - lba;
          assert data[k] == Xts.Encrypted(layers, lba + k, SectorOfImage(image, lba + k));
        }
      }
    }
    ok := true;
  }

  /** Blank the bank, write the image, make it durable and read it back from the medium. */
  method FillBank(auth: AuthStore, layers: seq<Xts.Cipher>, image: seq<byte>) returns (r: Outcome, digest: seq<Sector>)
    requires auth.Valid() && auth.ready && auth.layout.blocks <= 256 && auth.layout.blocks % BATCH == 0 && !auth.dev.overlay
    requires Xts.StackLawful(layers) && 0 < |layers| <= Xts.MAX_STACK && |image| == SECTOR * auth.layout.blocks
    modifies auth, auth.dev`disk, auth.dev`count, auth.dev`targets
    ensures auth.Valid() && auth.dev.disk.reliable == old(auth.dev.disk.reliable)
    ensures r == Done ==> auth.ready && |digest| == auth.layout.blocks && DigestOf(layers, image, digest) && Readable(auth, digest)
    ensures r == Done ==> AllSure(auth.dev.disk, 0, |auth.dev.disk.live|)
    ensures auth.dev.disk.reliable ==> r == Done
  {
    hide Device.Valid, Device.Contents, Device.Sound, AuthStore.BitsAgree, AuthStore.TagsAgree;
    hide LayoutOk, Xts.StackLawful, Device.Writable, DiskValid, DigestOf, Look;
    digest := [];
    var formatted := auth.Format(CACHE_BLOCKS);
    if formatted != Okay {
      return Io, digest;
    }
    var ok;
    ok, digest := WriteBody(auth, layers, image);
    if !ok {
      return Io, digest;
    }
    ok := SyncStore(auth);
    if !ok {
      return Io, digest;
    }
    ReadableWhole(auth, digest);
    var found;
    r, found := ReadImage(auth, layers, null);
    if r == Done {
      SameReadable(auth, digest, found);
    }
    if r == Done && found != digest {
      r := Io;
    }
  }

  /** Make the store durable; what is read next comes from the medium. */
  method SyncStore(auth: AuthStore) returns (ok: bool)
    requires auth.Valid() && auth.ready
    modifies auth`cache, auth`initialised, auth.dev`disk
    ensures auth.Valid() && auth.dev.disk.reliable == old(auth.dev.disk.reliable)
    ensures auth.Contents() == old(auth.Contents())
    ensures ok ==> AllSure(auth.dev.disk, 0, |auth.dev.disk.live|)
    ensures auth.dev.disk.reliable ==> ok
  {
    hide Device.Valid, Device.Contents, LayoutOk, AllSure;
    auth.dev.Usable();
    ok := auth.dev.Sync();
    auth.dev.Usable();
    auth.cache, auth.initialised := [], [];
  }

  lemma SameReadable(auth: AuthStore, a: seq<Sector>, b: seq<Sector>)
    requires auth.Attached() && Readable(auth, a) && Readable(auth, b) && |a| == |b|
    ensures a == b
  {
    hide LayoutOk, Look;
    forall x: nat | x < |a|
      ensures a[x] == b[x]
    {
      assert auth.Contents()[x] == Written(a[x].bytes) == Written(b[x].bytes);
    }
  }

  lemma ReadableWhole(auth: AuthStore, digest: seq<Sector>)
    requires auth.Attached() && Readable(auth, digest) && |digest| == auth.layout.blocks
    ensures AllWhole(auth)
  {
    hide LayoutOk, Look;
  }

  /** A store that reads whole holds an intact image. */
  lemma ReadableIntact(auth: AuthStore, base: nat, bytes: nat, digest: seq<Sector>)
    requires auth.Attached() && !auth.dev.overlay && bytes in {SMALL, LARGE} && auth.layout == ImageLayout(base, bytes)
    requires Readable(auth, digest) && |digest| == auth.layout.blocks
    ensures Intact(auth.dev.disk.live, base, auth.key, bytes, digest)
  {
    hide Look;
    forall x: nat | x < auth.layout.blocks
      ensures Look(auth.dev.disk.live, auth.layout, auth.key, x) == Written(digest[x].bytes)
    {
      assert auth.Contents()[x] == Written(digest[x].bytes);
    }
  }

  lemma IntactReadable(auth: AuthStore, base: nat, bytes: nat, digest: seq<Sector>)
    requires auth.Attached() && !auth.dev.overlay && bytes in {SMALL, LARGE} && auth.layout == ImageLayout(base, bytes)
    requires Intact(auth.dev.disk.live, base, auth.key, bytes, digest)
    ensures |digest| == auth.layout.blocks && Readable(auth, digest) && AllWhole(auth)
  {
    hide Look;
    forall x: nat | x < auth.layout.blocks
      ensures auth.Contents()[x] == Written(digest[x].bytes)
    {
    }
  }

  /** One store has one digest. */
  lemma OneDigest(v: seq<Sector>, base: nat, key: nat, bytes: nat, a: seq<Sector>, b: seq<Sector>)
    requires Intact(v, base, key, bytes, a) && Intact(v, base, key, bytes, b)
    ensures a == b
  {
    hide Look;
    var l := ImageLayout(base, bytes);
    forall x: nat | x < |a|
      ensures a[x] == b[x]
    {
      assert Look(v, l, key, x) == Written(a[x].bytes) && Look(v, l, key, x) == Written(b[x].bytes);
    }
  }

  /** The snapshot r is of this image. */
  ghost predicate Carries(r: ManifestRecord, keys: BankKeys, image: seq<byte>)
    requires KeysOk(keys)
  {
    r.bank < 2 && r.bytes == |image| == SECTOR * |r.digest| && DigestOf(keys.layers[r.bank], image, r.digest)
  }

  /** Whatever power loss does, the region names from, or next with this image. */
  ghost predicate Either(d: Disk, keys: BankKeys, from: ManifestRecord, next: ManifestRecord, image: seq<byte>)
    requires KeysOk(keys)
  {
    && |d.durable| == REGION
    && forall m :: CrashImage(d, m) ==> Names(m, keys, from) || (Carries(next, keys, image) && Names(m, keys, next))
  }

  lemma CurrentEither(d: Disk, keys: BankKeys, from: ManifestRecord, next: ManifestRecord, image: seq<byte>)
    requires KeysOk(keys) && Current(d, keys, from)
    ensures Either(d, keys, from, next, image)
  {
    hide Names, KeysOk;
    forall m | CrashImage(d, m)
      ensures Names(m, keys, from)
    {
      CurrentNames(d, keys, from, m);
    }
    SizeOfCurrent(d, keys, from);
  }

  lemma SizeOfCurrent(d: Disk, keys: BankKeys, r: ManifestRecord)
    requires KeysOk(keys) && Current(d, keys, r)
    ensures |d.live| == |d.durable| == REGION
  {
  }

  lemma PublishingEither(before: Disk, after: Disk, keys: BankKeys, from: ManifestRecord, next: ManifestRecord, image: seq<byte>, ok: bool)
    requires KeysOk(keys) && Current(before, keys, from) && AllSure(before, 0, REGION) && Carries(next, keys, image)
    requires next.bank == 1 - from.bank && next.generation > from.generation && next.bytes in {SMALL, LARGE}
    requires Intact(before.live, BANK * next.bank, keys.tags[next.bank], next.bytes, next.digest)
    requires Wrote(before, after, BANK * next.bank, [Manifest(next)], ok)
    ensures Either(after, keys, from, next, image)
  {
    hide Names, Intact, Carries, Xts.StackLawful;
    forall m | CrashImage(after, m)
      ensures Names(m, keys, from) || Names(m, keys, next)
    {
      Publishing(before, after, keys, from, next, ok, m);
    }
    SizeOfCurrent(before, keys, from);
  }

  lemma SyncedEither(before: Disk, after: Disk, keys: BankKeys, from: ManifestRecord, next: ManifestRecord, image: seq<byte>)
    requires KeysOk(keys) && Either(before, keys, from, next, image) && DiskValid(before)
    requires after == before.(durable := before.live, unsynced := map[])
    ensures Either(after, keys, from, next, image)
  {
    hide Names, Carries, Xts.StackLawful, MayBe;
    SyncedIsSure(after);
    forall m | CrashImage(after, m)
      ensures CrashImage(before, m)
    {
      forall i | 0 <= i < |m|
        ensures MayHold(before, i, m[i])
      {
        SureIsRead(after, i, after.live[i]);
      }
    }
  }

  /** A manifest over a durable image, once durable, is the one the region goes by. */
  lemma NowCurrent(before: Disk, after: Disk, keys: BankKeys, next: ManifestRecord)
    requires KeysOk(keys) && DiskValid(after) && |before.live| == |after.live| == REGION && AllSure(after, 0, REGION)
    requires next.bank < 2 && next.generation != 0 && next.bytes in {SMALL, LARGE}
    requires after.live == before.live[BANK * next.bank := Manifest(next)]
    requires Older(before.live[Other(next.bank)], 1 - next.bank, next.generation)
    requires Intact(before.live, BANK * next.bank, keys.tags[next.bank], next.bytes, next.digest)
    ensures Current(after, keys, next)
  {
    hide Xts.StackLawful, MayBe;
    BodyIntact(before.live, after.live, BANK * next.bank, keys.tags[next.bank], next.bytes, next.digest);
    assert Sure(after, Other(next.bank), after.live[Other(next.bank)]);
  }

  lemma WholeIfIntact(auth: AuthStore, base: nat, bytes: nat, digest: seq<Sector>)
    requires auth.Attached() && !auth.dev.overlay && bytes in {SMALL, LARGE} && auth.layout == ImageLayout(base, bytes)
    ensures Intact(auth.dev.disk.live, base, auth.key, bytes, digest) ==> AllWhole(auth)
  {
    hide Intact, LayoutOk;
    if Intact(auth.dev.disk.live, base, auth.key, bytes, digest) {
      IntactReadable(auth, base, bytes, digest);
    }
  }

  lemma DigestIfIntact(v: seq<Sector>, base: nat, key: nat, bytes: nat, a: seq<Sector>, b: seq<Sector>)
    requires Intact(v, base, key, bytes, a)
    ensures Intact(v, base, key, bytes, b) ==> a == b
    ensures WholeSectors(a) && |a| == bytes / SECTOR
  {
    if Intact(v, base, key, bytes, b) {
      OneDigest(v, base, key, bytes, a, b);
    }
  }

  lemma NamesOpens(m: seq<Sector>, keys: BankKeys, r: ManifestRecord, plain: seq<byte>)
    requires KeysOk(keys) && Names(m, keys, r) && WholeSectors(r.digest) && plain == PlainBytes(keys.layers[r.bank], r.digest)
    ensures Opens(m, keys) == Expanded(plain)
  {
    hide Xts.StackLawful, Intact, PlainByte;
  }

  lemma NamedOpens(m: seq<Sector>, keys: BankKeys)
    requires KeysOk(keys) && |m| == REGION
    ensures Opens(m, keys).Some? ==> Selected(m).Some? && Names(m, keys, Selected(m).value)
  {
    hide Xts.StackLawful, PlainByte;
  }

  /** Two regions that name one snapshot open to one image. */
  lemma SameOpens(v: seq<Sector>, w: seq<Sector>, keys: BankKeys, r: ManifestRecord)
    requires KeysOk(keys) && Names(v, keys, r) && Names(w, keys, r)
    ensures Opens(v, keys) == Opens(w, keys)
  {
    hide Xts.StackLawful, PlainByte, Expanded;
  }

  lemma CarriesOpens(m: seq<Sector>, keys: BankKeys, r: ManifestRecord, image: seq<byte>)
    requires KeysOk(keys) && Names(m, keys, r) && Carries(r, keys, image) && |image| == LARGE
    ensures Opens(m, keys) == Some(image)
  {
    hide Xts.StackLawful, PlainByte, Intact, Xts.Encrypted;
    DigestDecodes(keys.layers[r.bank], image, r.digest);
    NamesOpens(m, keys, r, image);
  }

  /** Whatever power loss does, the region opens to one of these. */
  ghost predicate OpensTo(d: Disk, keys: BankKeys, allowed: set<Option<seq<byte>>>)
    requires KeysOk(keys)
  {
    |d.durable| == REGION && forall m :: CrashImage(d, m) ==> Opens(m, keys) in allowed
  }

  lemma EitherOpens(d: Disk, keys: BankKeys, from: ManifestRecord, next: ManifestRecord, image: seq<byte>, before: seq<Sector>)
    requires KeysOk(keys) && Either(d, keys, from, next, image) && |before| == REGION && Names(before, keys, from) && |image| == LARGE
    ensures OpensTo(d, keys, {Opens(before, keys), Some(image)})
  {
    hide KeysOk, Names, Carries, Opens;
    forall m | CrashImage(d, m)
      ensures Opens(m, keys) in {Opens(before, keys), Some(image)}
    {
      if Names(m, keys, from) {
        SameOpens(before, m, keys, from);
      } else {
        CarriesOpens(m, keys, next, image);
      }
    }
  }

  lemma CurrentOpens(d: Disk, keys: BankKeys, r: ManifestRecord)
    requires KeysOk(keys) && Current(d, keys, r)
    ensures |d.live| == REGION && OpensTo(d, keys, {Opens(d.live, keys)})
  {
    hide KeysOk, Names, Opens;
    SizeOfCurrent(d, keys, r);
    forall m | CrashImage(d, m)
      ensures Opens(m, keys) == Opens(d.live, keys)
    {
      CurrentNames(d, keys, r, m);
      SameOpens(d.live, m, keys, r);
    }
  }

  /** What an upgrade in memory gives is the move of the smaller image. */
  lemma UpgradedMoved(m: seq<byte>, w: seq<byte>, data: seq<nat>, rom: seq<nat>)
    requires |m| == SMALL && |w| == LARGE
    requires if ImageUpgrade.AllOnes(m) then ImageUpgrade.AllOnes(w) else ImageUpgrade.Upgraded(m, w, data, rom)
    ensures Movable(m) && w == Moved(m, ImageUpgrade.DELTA)
  {
    if ImageUpgrade.AllOnes(m) {
      assert w == Ones(ImageUpgrade.DELTA) + m;
    } else {
      UpgradeIsMove(m, w, data, rom);
    }
  }

  class SnapshotStore {
    const dev: Device
    const keys: BankKeys
    var generation: uint64
    var bank: nat
    var digest: seq<Sector>
    var ready: bool
    /** A manifest was written and is not known to be durable. */
    var doubtful: bool

    constructor (dev: Device, keys: BankKeys)
      ensures this.dev == dev && this.keys == keys && !ready && !doubtful
    {
      this.dev, this.keys, generation, bank, digest, ready, doubtful := dev, keys, 0, 0, [], false, false;
    }

    /** Once closed, the region can be opened again without a power loss: the snapshot it names
        is durable. */
    ghost predicate Reopenable()
      requires KeysOk(keys)
      reads this`doubtful, dev
    {
      doubtful || forall r :: Names(dev.disk.live, keys, r) ==> Current(dev.disk, keys, r)
    }

    lemma CurrentReopens(r: ManifestRecord)
      requires KeysOk(keys) && Current(dev.disk, keys, r)
      ensures Reopenable()
    {
      hide Intact, Xts.StackLawful;
    }

    /** How the parts are wired together. */
    ghost predicate Wired()
      reads dev
    {
      !dev.overlay && KeysOk(keys) && dev.Valid() && dev.kept == map[] && dev.size == |dev.disk.live| == REGION
    }

    /** Which snapshot the region names. Anything that is not an authentic manifest is no
        commit; a sector that cannot be read is an error, not an absence. */
    method Scan() returns (r: Outcome, latest: ManifestRecord)
      requires Wired()
      ensures r in {Done, Io, Damaged}
      ensures r == Done ==> Selected(dev.disk.live) == Some(latest)
      ensures r == Damaged ==> Selected(dev.disk.live) == None
      ensures dev.disk.reliable ==> r != Io
    {
      latest := ManifestRecord(0, 0, 0, []);
      var found := false;
      for b := 0 to 2
        invariant b == 0 ==> !found
        invariant b == 1 ==> (if found then Candidate(dev.disk.live[0], 0) == Some(latest) else Candidate(dev.disk.live[0], 0) == None)
        invariant b == 2 ==> (if found then Selected(dev.disk.live) == Some(latest) else Selected(dev.disk.live) == None)
      {
        var ok, s := dev.ReadSector(BANK * b);
        if !ok {
          return Io, latest;
        }
        var candidate := Candidate(s, b);
        if candidate.Some? {
          if found && candidate.value.generation == latest.generation {
            return Damaged, latest;
          }
          if !found || candidate.value.generation > latest.generation {
            latest, found := candidate.value, true;
          }
        }
      }
      r := if found then Done else Damaged;
    }

    /** Before a bank is rewritten its manifest is durably gone. */
    method Invalidate(b: nat, ghost from: Option<ManifestRecord>) returns (ok: bool)
      requires Wired() && b < 2 && (from.Some? ==> Current(dev.disk, keys, from.value) && from.value.bank == 1 - b)
      modifies dev`disk, dev`count, dev`targets
      ensures Wired() && dev.disk.reliable == old(dev.disk.reliable) && dev.disk.live[Other(b)] == old(dev.disk.live[Other(b)])
      ensures from.Some? ==> Current(dev.disk, keys, from.value)
      ensures ok ==> AllSure(dev.disk, 0, REGION) && dev.disk.live[BANK * b] == Data(Zeros(SECTOR))
      ensures dev.disk.reliable ==> ok
    {
      hide Xts.StackLawful, Current, AllSure, DiskValid, Replace;
      ghost var before := dev.disk;
      dev.Usable();
      ok := dev.Write(BANK * b, [Data(Zeros(SECTOR))]);
      dev.Usable();
      if from.Some? {
        Invalidated(before, dev.disk, keys, from.value, Data(Zeros(SECTOR)), ok);
      }
      StillSized(before, dev.disk, BANK * b, [Data(Zeros(SECTOR))], ok);
      if !ok {
        return;
      }
      ghost var cut := dev.disk;
      ok := dev.Sync();
      if from.Some? && ok {
        SyncedCurrent(cut, dev.disk, keys, from.value);
      }
    }

    /** Write the body of a bank, durably, disturbing nothing else. */
    method Fill(b: nat, image: seq<byte>, ghost from: Option<ManifestRecord>) returns (r: Outcome, digest: seq<Sector>)
      requires Wired() && b < 2 && |image| == LARGE && AllSure(dev.disk, 0, REGION)
      requires from.Some? ==> Current(dev.disk, keys, from.value) && from.value.bank == 1 - b
      modifies dev`disk, dev`count, dev`targets, dev`kept
      ensures Wired() && dev.disk.reliable == old(dev.disk.reliable) && dev.disk.live[Other(b)] == old(dev.disk.live[Other(b)])
      ensures from.Some? ==> Current(dev.disk, keys, from.value)
      ensures r == Done ==> AllSure(dev.disk, 0, REGION) && DigestOf(keys.layers[b], image, digest) && |image| == SECTOR * |digest|
      ensures r == Done ==> Intact(dev.disk.live, BANK * b, keys.tags[b], |image|, digest)
      ensures dev.disk.reliable ==> r == Done
    {
      hide Xts.StackLawful, Current, DigestOf, Intact, Look;
      var base := BANK * b;
      BankFits(base, |image|, REGION);
      ghost var before := dev.disk;
      ghost var low, high := base + 1, base + SnapshotSectors(|image|);
      dev.kept := map i: nat | i < REGION && !(low <= i < high) :: before.live[i];
      var auth := new AuthStore.Open(false, dev, base + 1, |image| / SECTOR, keys.tags[b]);
      r, digest := FillBank(auth, keys.layers[b], image);
      KeptNow(before.live, low, high);
      SureIsRead(dev.disk, Other(b), before.live[Other(b)]);
      if from.Some? {
        BodyWritten(before, dev.disk, keys, from.value, |image|);
      }
      if r == Done {
        ReadableIntact(auth, base, |image|, digest);
      }
      dev.kept := map[];
    }

    lemma KeptNow(m: seq<Sector>, low: nat, high: nat)
      requires !dev.overlay && dev.Sound() && dev.size == |m| == REGION
      requires dev.kept == map i: nat | i < REGION && !(low <= i < high) :: m[i]
      ensures KeptOutside(dev.disk, m, low, high)
    {
      forall i: nat | i < REGION && !(low <= i < high)
        ensures Sure(dev.disk, i, m[i])
      {
        assert i in dev.kept;
      }
    }

    /** The manifest goes last, over a durable image. */
    method PublishManifest(next: ManifestRecord, image: seq<byte>, ghost from: Option<ManifestRecord>) returns (ok: bool)
      requires Wired() && AllSure(dev.disk, 0, REGION) && Carries(next, keys, image) && next.bytes == LARGE && next.generation > 0
      requires Intact(dev.disk.live, BANK * next.bank, keys.tags[next.bank], next.bytes, next.digest)
      requires Older(dev.disk.live[Other(next.bank)], 1 - next.bank, next.generation)
      requires from.Some? ==> Current(dev.disk, keys, from.value) && from.value.bank == 1 - next.bank && from.value.generation < next.generation
      modifies this`doubtful, dev`disk, dev`count, dev`targets
      ensures Wired() && dev.disk.reliable == old(dev.disk.reliable) && doubtful == !ok
      ensures from.Some? ==> Either(dev.disk, keys, from.value, next, image)
      ensures ok ==> Current(dev.disk, keys, next) && AllSure(dev.disk, 0, REGION)
      ensures dev.disk.reliable ==> ok
    {
      hide Xts.StackLawful, Current, AllSure, DiskValid, Intact, DigestOf, Older, Either;
      ghost var before := dev.disk;
      var base := BANK * next.bank;
      dev.Usable();
      doubtful := true;
      ok := dev.Write(base, [Manifest(next)]);
      dev.Usable();
      StillSized(before, dev.disk, base, [Manifest(next)], ok);
      if from.Some? {
        PublishingEither(before, dev.disk, keys, from.value, next, image, ok);
      }
      if !ok {
        return;
      }
      ghost var cut := dev.disk;
      ok := dev.Sync();
      if !ok {
        return;
      }
      if from.Some? {
        SyncedEither(cut, dev.disk, keys, from.value, next, image);
      }
      NowCurrent(before, dev.disk, keys, next);
      var check;
      ok, check := dev.ReadSector(base);
      ok := ok && check == Manifest(next);
      doubtful := !ok;
    }

    /** Write an image into a bank and, once all of it is durable and has been read back,
        publish it. Until the manifest is written the region names what it named before. */
    method WriteSnapshot(b: nat, g: uint64, image: seq<byte>, ghost from: Option<ManifestRecord>)
      returns (r: Outcome, next: ManifestRecord)
      requires Wired() && b < 2 && g > 0 && |image| == LARGE && Older(dev.disk.live[Other(b)], 1 - b, g)
      requires from.Some? ==> Current(dev.disk, keys, from.value) && from.value.bank == 1 - b && from.value.generation < g
      modifies this`doubtful, dev`disk, dev`count, dev`targets, dev`kept
      ensures r == Done ==> !doubtful
      ensures from.Some? && r != Done ==> doubtful || Current(dev.disk, keys, from.value)
      ensures Wired() && next.bank == b && next.generation == g && dev.disk.reliable == old(dev.disk.reliable)
      ensures from.Some? ==> Either(dev.disk, keys, from.value, next, image)
      ensures r == Done ==> Current(dev.disk, keys, next) && Carries(next, keys, image) && AllSure(dev.disk, 0, REGION)
      ensures dev.disk.reliable ==> r == Done
    {
      hide Xts.StackLawful, Older, Names, Either, MayBe, Intact, DigestOf, Readable, AllSure, Selected, DiskValid;
      next := ManifestRecord(g, b, |image|, []);
      var ok := Invalidate(b, from);
      if from.Some? {
        CurrentEither(dev.disk, keys, from.value, next, image);
      }
      if !ok {
        return Io, next;
      }
      var digest;
      r, digest := Fill(b, image, from);
      if from.Some? {
        CurrentEither(dev.disk, keys, from.value, next, image);
      }
      if r != Done {
        return;
      }
      next := next.(digest := digest);
      ok := PublishManifest(next, image, from);
      r := if ok then Done else Io;
    }

    /** The snapshot an open store goes by. */
    function Bound(): ManifestRecord
      reads this
    {
      ManifestRecord(generation, bank, SECTOR * |digest|, digest)
    }

    ghost predicate Valid()
      reads this, dev
    {
      Wired() && (ready ==> generation > 0 && bank < 2 && Names(dev.disk.live, keys, Bound()))
    }

    method Bind(r: ManifestRecord)
      requires r.generation > 0 && r.bytes == SECTOR * |r.digest|
      modifies this
      ensures ready && Bound() == r
    {
      generation, bank, digest, ready := r.generation, r.bank, r.digest, true;
    }

    method Close()
      modifies this`ready
      ensures !ready
    {
      ready := false;
    }

    /** Another user of the card syncs it. */
    method CardSync() returns (ok: bool)
      requires Valid()
      modifies this`doubtful, dev`disk
      ensures Valid() && dev.disk == if ok then old(dev.disk).(durable := old(dev.disk.live), unsynced := map[]) else old(dev.disk)
      ensures doubtful == (old(doubtful) && !ok) && DiskValid(dev.disk) && (ok ==> AllSure(dev.disk, 0, REGION))
    {
      hide Names, KeysOk;
      ok := dev.Sync();
      doubtful := doubtful && !ok;
    }

    /** Read the selected image, enlarging a small one. Nothing is given but the whole image
        that its manifest vouches for. */
    method Open(unlocked: bool, image: array<byte>) returns (r: Outcome)
      requires Wired() && image.Length == LARGE
      modifies this, image
      ensures Valid() && ready == (r == Done)
      ensures r == Done ==> unlocked && Opens(dev.disk.live, keys) == Some(image[..])
      ensures r != Done ==> image[..] == Zeros(LARGE)
      ensures unlocked && dev.disk.reliable && Opens(dev.disk.live, keys).Some? ==> r == Done
    {
      hide Xts.StackLawful, Intact, Selected, DiskValid, Moved, Movable, Opens, Names, PlainByte;
      Close();
      Clear(image);
      if !unlocked {
        return LockedOut;
      }
      NamedOpens(dev.disk.live, keys);
      var snap;
      r, snap := Scan();
      if r != Done {
        return;
      }
      SelectedIs(dev.disk.live, snap);
      r := ReadSelected(snap, image);
      if r != Done {
        Clear(image);
        return;
      }
      ghost var plain := image[..snap.bytes];
      NamesOpens(dev.disk.live, keys, snap, plain);
      if snap.bytes == SMALL {
        var ok := Enlarge(image);
        if !ok {
          Clear(image);
          return Damaged;
        }
      } else {
        assert image[..LARGE] == image[..];
      }
      Bind(snap);
    }

    method Enlarge(image: array<byte>) returns (ok: bool)
      requires image.Length == LARGE
      modifies image
      ensures ok <==> Movable(old(image[..SMALL]))
      ensures ok ==> image[..] == Moved(old(image[..SMALL]), ImageUpgrade.DELTA)
    {
      hide Moved;
      ghost var plain := image[..SMALL];
      ghost var data, rom;
      ok, data, rom := ImageUpgrade.Upgrade(image);
      if ok {
        UpgradedMoved(plain, image[..], data, rom);
      }
    }

    /** Read and check the image of a manifest. */
    method ReadSelected(snap: ManifestRecord, image: array<byte>) returns (r: Outcome)
      requires Wired() && Selected(dev.disk.live) == Some(snap) && image.Length == LARGE
      modifies image
      ensures r == Done ==> Names(dev.disk.live, keys, snap) && snap.bytes == SECTOR * |snap.digest| && WholeSectors(snap.digest)
      ensures r == Done ==> snap.bytes <= LARGE && image[..snap.bytes] == PlainBytes(keys.layers[snap.bank], snap.digest)
      ensures dev.disk.reliable && Names(dev.disk.live, keys, snap) ==> r == Done
    {
      hide Xts.StackLawful, DiskValid, PlainByte, Intact, AllWhole, Readable, LayoutOk, WholeSectors, Selected;
      SelectedIs(dev.disk.live, snap);
      var base := BANK * snap.bank;
      BankFits(base, snap.bytes, REGION);
      var auth := new AuthStore.Open(false, dev, base + 1, snap.bytes / SECTOR, keys.tags[snap.bank]);
      WholeIfIntact(auth, base, snap.bytes, snap.digest);
      var found;
      r, found := ReadImage(auth, keys.layers[snap.bank], image);
      if r == Done {
        ReadableIntact(auth, base, snap.bytes, found);
        DigestIfIntact(dev.disk.live, base, auth.key, snap.bytes, found, snap.digest);
        if found != snap.digest {
          r := Damaged;
        }
      }
    }

    /** Replace the image. Whatever fails and wherever power is lost, the region opens to the
        old image or the new one, provided the old one was durable to begin with. */
    method Commit(unlocked: bool, image: seq<byte>) returns (r: Outcome)
      requires Valid() && |image| == LARGE
      modifies this, dev`disk, dev`count, dev`targets, dev`kept
      ensures Valid() && ready == (r == Done) && dev.disk.reliable == old(dev.disk.reliable)
      ensures r == Done ==> old(ready) && unlocked && Opens(dev.disk.live, keys) == Some(image) && Current(dev.disk, keys, Bound())
      ensures r == Done ==> generation == old(generation) + 1 && bank == 1 - old(bank)
      ensures old(ready && Current(dev.disk, keys, Bound())) ==>
        OpensTo(dev.disk, keys, {old(Opens(dev.disk.live, keys)), Some(image)}) && Reopenable()
      ensures !old(ready) || !unlocked ==> dev.disk == old(dev.disk) && doubtful == old(doubtful)
      ensures old(ready) && unlocked && dev.disk.reliable && old(generation) < UINT64_MAX ==> r == Done
    {
      hide Xts.StackLawful, Intact, Current, Names, Opens, DiskValid, OpensTo, Candidate, Older, Either, Carries, Reopenable;
      ghost var durable := Current(dev.disk, keys, Bound());
      if durable {
        CurrentReopens(Bound());
      }
      if !ready || !unlocked {
        if ready {
          StillOpens(Some(image));
        }
        Close();
        return LockedOut;
      }
      StillOpens(Some(image));
      SelectsBound();
      var current;
      r, current := Scan();
      if r != Done {
        Close();
        return;
      }
      if current.generation != generation || current.bank != bank || current.digest != digest || current.generation == UINT64_MAX {
        Close();
        return Stale;
      }
      ghost var before, bound := dev.disk, Bound();
      ghost var from := if Current(before, keys, bound) then Some(bound) else None;
      var next;
      r, next := WriteSnapshot(1 - bank, generation + 1, image, from);
      if from.Some? {
        EitherOpens(dev.disk, keys, bound, next, image, before.live);
      }
      if r != Done {
        Close();
        MayReopen(bound);
        return;
      }
      NewlyBound(next, image);
      Bind(next);
      CurrentReopens(next);
    }

    lemma MayReopen(r: ManifestRecord)
      requires KeysOk(keys)
      ensures doubtful || Current(dev.disk, keys, r) ==> Reopenable()
    {
      hide Names, Current;
      if Current(dev.disk, keys, r) {
        CurrentReopens(r);
      }
    }

    lemma StillOpens(other: Option<seq<byte>>)
      requires Valid() && ready
      ensures Current(dev.disk, keys, Bound()) ==> OpensTo(dev.disk, keys, {Opens(dev.disk.live, keys), other})
    {
      hide Names, Current, Opens, KeysOk;
      if Current(dev.disk, keys, Bound()) {
        CurrentOpens(dev.disk, keys, Bound());
      }
    }

    /** The bank the next snapshot spares holds an older manifest. */
    lemma SelectsBound()
      requires Valid() && ready
      ensures Selected(dev.disk.live) == Some(Bound()) && bank < 2
      ensures generation < UINT64_MAX ==> Older(dev.disk.live[Other(1 - bank)], bank, generation + 1)
    {
      hide Intact, Xts.StackLawful;
      SelectedIs(dev.disk.live, Bound());
    }

    lemma NewlyBound(next: ManifestRecord, image: seq<byte>)
      requires Wired() && Current(dev.disk, keys, next) && Carries(next, keys, image) && |image| == LARGE
      ensures Opens(dev.disk.live, keys) == Some(image) && next.bytes == SECTOR * |next.digest| && next.bank < 2
      ensures Names(dev.disk.live, keys, next)
    {
      hide Intact, Xts.StackLawful, Opens;
      CarriesOpens(dev.disk.live, keys, next, image);
    }

    /** Start afresh: both manifests go before anything else is written. */
    method Initialise(confirmed: bool, unlocked: bool) returns (r: Outcome)
      requires Wired()
      modifies this, dev`disk, dev`count, dev`targets, dev`kept
      ensures Valid() && ready == (r == Done) && dev.disk.reliable == old(dev.disk.reliable)
      ensures r == Done ==> confirmed && unlocked && Opens(dev.disk.live, keys) == Some(Ones(LARGE)) && Current(dev.disk, keys, Bound())
      ensures r == Done ==> generation == 1 && bank == 0
      ensures !confirmed || !unlocked ==> dev.disk == old(dev.disk)
      ensures confirmed && unlocked && dev.disk.reliable ==> r == Done
    {
      hide Xts.StackLawful, Current, Names, Opens, DiskValid, Carries, Replace;
      Close();
      if !confirmed {
        return Invalid;
      }
      if !unlocked {
        return LockedOut;
      }
      for b := 0 to 2
        invariant Wired() && !ready && dev.disk.reliable == old(dev.disk.reliable)
        invariant forall c :: 0 <= c < b ==> dev.disk.live[BANK * c] == Data(Zeros(SECTOR))
      {
        ghost var before := dev.disk;
        dev.Usable();
        var ok := dev.Write(BANK * b, [Data(Zeros(SECTOR))]);
        dev.Usable();
        StillSized(before, dev.disk, BANK * b, [Data(Zeros(SECTOR))], ok);
        if !ok {
          return Io;
        }
      }
      var ok := dev.Sync();
      if !ok {
        return Io;
      }
      var next;
      var image := Ones(LARGE);
      assert dev.disk.live[Other(0)] == Data(Zeros(SECTOR)) by {
        assert dev.disk.live[BANK * 1] == Data(Zeros(SECTOR));
      }
      r, next := WriteSnapshot(0, 1, image, None);
      if r == Done {
        NewlyBound(next, image);
        Bind(next);
      }
    }
  }

  // ---- Every run -----------------------------------------------------------

  /** What an open store would give, and what a power loss may leave. */
  datatype Abstract = Abstract(current: Option<seq<byte>>, durable: set<seq<byte>>)

  datatype Request = CommitImage(image: seq<byte>) | Reopen | CardSync | PowerLoss

  /** A commit replaces the image at once, and only what was committed, or was being
      committed, survives. */
  ghost predicate Step(s: Abstract, q: Request, ok: bool, t: Abstract) {
    match q
    case CommitImage(image) =>
      if ok then s.current.Some? && t == Abstract(Some(image), {image})
      else t.current == None && t.durable <= s.durable + (if s.current.Some? then {image} else {})
    case Reopen => (!ok && t == Abstract(None, s.durable)) || Returns(s, ok, t)
    case CardSync => t.current == s.current && t.durable <= s.durable
    case PowerLoss => Returns(s, ok, t)
  }

  /** The store is opened on one of the images that survive, and on no other from then on. */
  ghost predicate Returns(s: Abstract, ok: bool, t: Abstract) {
    exists image :: image in s.durable && t == Abstract(if ok then Some(image) else None, {image})
  }

  ghost predicate Survives(d: Disk, keys: BankKeys, durable: set<seq<byte>>)
    requires KeysOk(keys)
  {
    DiskValid(d) && |d.live| == REGION
    && forall m :: CrashImage(d, m) ==> Opens(m, keys).Some? && Opens(m, keys).value in durable
  }

  ghost predicate Represents(store: SnapshotStore, s: Abstract)
    reads store, store.dev
  {
    && store.Valid() && Survives(store.dev.disk, store.keys, s.durable) && store.Reopenable()
    && (if store.ready then Current(store.dev.disk, store.keys, store.Bound()) && s.current == Opens(store.dev.disk.live, store.keys)
        else s.current == None)
  }

  lemma OpensSurvives(d: Disk, keys: BankKeys, allowed: set<Option<seq<byte>>>, durable: set<seq<byte>>)
    requires KeysOk(keys) && DiskValid(d) && |d.live| == REGION && OpensTo(d, keys, allowed)
    requires forall o :: o in allowed ==> o.Some? && o.value in durable
    ensures Survives(d, keys, durable)
  {
    hide Opens, KeysOk;
  }

  lemma SurvivesLive(d: Disk, keys: BankKeys, durable: set<seq<byte>>)
    requires KeysOk(keys) && Survives(d, keys, durable)
    ensures Opens(d.live, keys).Some? && Opens(d.live, keys).value in durable
  {
    hide Opens, KeysOk, MayBe;
    assert CrashImage(d, d.live);
  }

  /** After a power loss everything that reads is durable. */
  lemma SureCurrent(d: Disk, keys: BankKeys, r: ManifestRecord)
    requires KeysOk(keys) && DiskValid(d) && AllSure(d, 0, REGION) && Names(d.live, keys, r)
    ensures Current(d, keys, r)
  {
    hide Intact, Xts.StackLawful, MayBe;
    SelectedIs(d.live, r);
    assert Sure(d, Other(r.bank), d.live[Other(r.bank)]);
  }

  method HandleCommit(store: SnapshotStore, ghost s: Abstract, image: seq<byte>) returns (ok: bool, ghost t: Abstract)
    requires Represents(store, s) && |image| == LARGE
    modifies store, store.dev
    ensures Represents(store, t) && Step(s, CommitImage(image), ok, t)
  {
    hide Xts.StackLawful, Intact, Names, Opens, Current, OpensTo, Candidate;
    var unlocked := *;
    ghost var was, before := store.ready, store.dev.disk;
    SurvivesLive(before, store.keys, s.durable);
    var r := store.Commit(unlocked, image);
    store.dev.Usable();
    ok := r == Done;
    if ok {
      t := Abstract(Some(image), {image});
      CurrentOpens(store.dev.disk, store.keys, store.Bound());
      OpensSurvives(store.dev.disk, store.keys, {Opens(store.dev.disk.live, store.keys)}, {image});
    } else {
      t := Abstract(None, s.durable + (if was then {image} else {}));
      if was {
        OpensSurvives(store.dev.disk, store.keys, {Opens(before.live, store.keys), Some(image)}, t.durable);
      }
    }
  }

  /** The store is closed and opened again on the card as it is. A careful caller waits for a
      sync of the card, or a power loss, when a manifest is doubtful. */
  method HandleReopen(store: SnapshotStore, ghost s: Abstract)
    returns (next: SnapshotStore, ok: bool, image: seq<byte>, ghost t: Abstract)
    requires Represents(store, s)
    modifies store`ready
    ensures next == store || (fresh(next) && fresh(next.dev))
    ensures Represents(next, t) && Step(s, Reopen, ok, t) && (ok ==> t.current == Some(image)) && next.keys == store.keys
  {
    hide Xts.StackLawful, Intact, Names, Opens, Candidate, Current;
    store.Close();
    next, ok, image, t := store, false, [], Abstract(None, s.durable);
    if store.doubtful {
      return;
    }
    SurvivesLive(store.dev.disk, store.keys, s.durable);
    NamedOpens(store.dev.disk.live, store.keys);
    next, ok, image, t := OpenAgain(store.dev.disk, store.keys, s, Selected(store.dev.disk.live).value);
  }

  /** A new store on a card that durably names one of the snapshots that survive. */
  method OpenAgain(card: Disk, keys: BankKeys, ghost s: Abstract, ghost r: ManifestRecord)
    returns (next: SnapshotStore, ok: bool, image: seq<byte>, ghost t: Abstract)
    requires KeysOk(keys) && Current(card, keys, r) && |card.live| == REGION && DiskValid(card)
    requires Opens(card.live, keys).Some? && Opens(card.live, keys).value in s.durable
    ensures fresh(next) && fresh(next.dev)
    ensures Represents(next, t) && Returns(s, ok, t) && (ok ==> t.current == Some(image)) && next.keys == keys
  {
    hide Xts.StackLawful, Intact, Opens, Candidate, Selected;
    ghost var stored := Opens(card.live, keys).value;
    var dev := new Device.OverCard(card);
    next := new SnapshotStore(dev, keys);
    var unlocked := *;
    var buffer := new byte[LARGE];
    var opening := next.Open(unlocked, buffer);
    ok := opening == Done;
    image := buffer[..];
    t := Abstract(if ok then Some(stored) else None, {stored});
    CurrentOpens(card, keys, r);
    OpensSurvives(card, keys, {Some(stored)}, {stored});
    next.CurrentReopens(r);
  }

  /** Some other user of the card syncs it. */
  method HandleSync(store: SnapshotStore, ghost s: Abstract) returns (ok: bool, ghost t: Abstract)
    requires Represents(store, s)
    modifies store, store.dev
    ensures Represents(store, t) && Step(s, CardSync, ok, t)
  {
    hide Xts.StackLawful, Intact, Names, Opens, Candidate, Current, KeysOk;
    ghost var before := store.dev.disk;
    SurvivesLive(before, store.keys, s.durable);
    ok := store.CardSync();
    t := s;
    if ok {
      ghost var image := Opens(before.live, store.keys).value;
      OnlyLiveNow(store.dev.disk, store.keys, image);
      SyncedReopens(store);
    }
  }

  lemma SyncedReopens(store: SnapshotStore)
    requires KeysOk(store.keys) && DiskValid(store.dev.disk) && AllSure(store.dev.disk, 0, REGION)
    ensures store.Reopenable()
    ensures forall r :: Names(store.dev.disk.live, store.keys, r) ==> Current(store.dev.disk, store.keys, r)
  {
    hide Names, Current, KeysOk;
    forall r | Names(store.dev.disk.live, store.keys, r)
      ensures Current(store.dev.disk, store.keys, r)
    {
      SureCurrent(store.dev.disk, store.keys, r);
    }
  }

  /** Power is lost and the store opened again. */
  method HandlePowerLoss(store: SnapshotStore, ghost s: Abstract)
    returns (next: SnapshotStore, ok: bool, image: seq<byte>, ghost t: Abstract)
    requires Represents(store, s)
    ensures fresh(next) && fresh(next.dev)
    ensures Represents(next, t) && Step(s, PowerLoss, ok, t) && (ok ==> t.current == Some(image)) && next.keys == store.keys
  {
    hide Xts.StackLawful, Intact, Names, Opens, Candidate, Current;
    var card := Card.PowerCycle(store.dev.disk);
    SyncedIsSure(card);
    NamedOpens(card.live, store.keys);
    ghost var r := Selected(card.live).value;
    SureCurrent(card, store.keys, r);
    next, ok, image, t := OpenAgain(card, store.keys, s, r);
  }

  lemma OnlyLiveNow(d: Disk, keys: BankKeys, image: seq<byte>)
    requires KeysOk(keys) && DiskValid(d) && |d.live| == REGION && AllSure(d, 0, REGION) && Opens(d.live, keys) == Some(image)
    ensures Survives(d, keys, {image})
  {
    hide Opens, KeysOk;
    OnlyLive(d);
  }

  /** Every run: whatever fails and whenever power is lost, each opening gives the one image
      that survived, commits replace it at once, and the store that is left stands for the
      last state. */
  method Lifetime(first: SnapshotStore, ghost start: Abstract, requests: seq<Request>)
    returns (last: SnapshotStore, replies: seq<bool>, images: seq<seq<byte>>, ghost states: seq<Abstract>)
    requires Represents(first, start) && forall q :: q in requests && q.CommitImage? ==> |q.image| == LARGE
    modifies first, first.dev
    ensures |replies| == |requests| && |states| == |replies| + 1 && states[0] == start
    ensures forall k :: 0 <= k < |replies| ==> Step(states[k], requests[k], replies[k], states[k + 1])
    ensures |images| == |replies| && Represents(last, states[|replies|]) && last.keys == first.keys
    ensures forall k :: 0 <= k < |replies| && replies[k] && requests[k] in {Reopen, PowerLoss} ==> states[k + 1].current == Some(images[k])
  {
    hide Represents, Step;
    var store := first;
    replies, images, states := [], [], [start];
    for k := 0 to |requests|
      invariant |replies| == |images| == k && |states| == k + 1 && states[0] == start
      invariant Represents(store, states[k]) && store.keys == first.keys
      invariant forall j :: 0 <= j < k && replies[j] && requests[j] in {Reopen, PowerLoss} ==> states[j + 1].current == Some(images[j])
      invariant store == first || (fresh(store) && fresh(store.dev))
      invariant forall j :: 0 <= j < k ==> Step(states[j], requests[j], replies[j], states[j + 1])
    {
      var ok, found;
      ghost var t;
      found := [];
      match requests[k] {
        case CommitImage(image) =>
          ok, t := HandleCommit(store, states[k], image);
        case Reopen =>
          store, ok, found, t := HandleReopen(store, states[k]);
        case CardSync =>
          ok, t := HandleSync(store, states[k]);
        case PowerLoss =>
          store, ok, found, t := HandlePowerLoss(store, states[k]);
      }
      replies, images, states := replies + [ok], images + [found], states + [t];
    }
    last := store;
  }
}
