// Moving a snapshot of the older store into the journal's home region
// (src/shared/fido/store.c:475-552). The snapshot is first copied to where the log will be,
// so that it survives every write to the home region it used to lie in.
module Migration {
  import opened AuthStore
  import opened BlockDevice
  import opened Bytes
  import opened Card
  import opened FidoStore
  import opened Limits
  import opened Options
  import opened Relocation
  import opened ImageUpgrade
  import Medium = AuthStore
  import Snapshot
  import Xts

  /** A disk whose bytes can all be read. */
  function Known(b: seq<byte>): (r: DiskBytes)
    ensures |r| == |b| && forall i :: 0 <= i < |b| ==> r[i] == Some(b[i])
  {
    seq(|b|, i requires 0 <= i < |b| => Some(b[i]))
  }

  lemma KnownPatch(w: seq<byte>, at: nat, data: seq<byte>)
    requires at + |data| <= |w|
    ensures Patched(Known(w), at, data) == Known(Splice(w, Field(at, data)))
  {
  }

  /** The disk an image becomes. */
  function Migrated(m: seq<byte>): (r: Option<DiskBytes>)
    ensures r.Some? ==> |r.value| == DISK_BYTES
  {
    if |m| in {Snapshot.SMALL, Snapshot.LARGE} && Relocation.Movable(m) then Some(Known(Moved(m, DISK_BYTES - |m|))) else None
  }

  /** The image of a snapshot in sectors of its own. */
  ghost function SourceImage(keys: Snapshot.BankKeys, s: seq<Sector>, bank: nat, bytes: nat, digest: seq<Sector>): Option<seq<byte>>
    requires Snapshot.KeysOk(keys)
  {
    if bank < 2 && bytes in {Snapshot.SMALL, Snapshot.LARGE} && Snapshot.Intact(s, 0, keys.tags[bank], bytes, digest)
    then Some(Snapshot.PlainBytes(keys.layers[bank], digest))
    else None
  }

  // ---- Reading the source --------------------------------------------------

  /** The staged snapshot is intact. */
  ghost predicate Sourced(dev: Device, keys: Snapshot.BankKeys, digest: seq<Sector>)
    requires Snapshot.KeysOk(keys)
    reads dev
  {
    var c := dev.newest;
    && dev.overlay && dev.Settled() && dev.recovering && c.state == MIGRATE && c.oldBank < 2
    && c.oldBytes in {Snapshot.SMALL, Snapshot.LARGE}
    && Snapshot.Intact(dev.staged, 0, keys.tags[c.oldBank], c.oldBytes, digest)
  }

  /** What is read where it was staged is what was staged. */
  lemma StagedIntact(dev: Device, keys: Snapshot.BankKeys, digest: seq<Sector>)
    requires Snapshot.KeysOk(keys) && Sourced(dev, keys, digest)
    ensures DiskValid(dev.disk) && |dev.disk.live| == REGION
    ensures Snapshot.Intact(dev.disk.live, J_START, keys.tags[dev.newest.oldBank], dev.newest.oldBytes, digest)
  {
    hide Snapshot.Intact, Xts.StackLawful, MayBe;
    StagedRead(dev);
    var n := SnapshotSectors(dev.newest.oldBytes);
    assert dev.staged[0..n] == dev.disk.live[J_START..J_START + n];
    Snapshot.IntactMoves(dev.staged, 0, dev.disk.live, J_START, keys.tags[dev.newest.oldBank], dev.newest.oldBytes, digest);
  }

  lemma StagedRead(dev: Device)
    requires dev.Settled() && dev.recovering && dev.newest.state == MIGRATE
    ensures DiskValid(dev.disk) && |dev.disk.live| == REGION && |dev.staged| == SnapshotSectors(dev.newest.oldBytes)
    ensures dev.staged == Staged(dev.disk.live, dev.newest)
  {
    hide MayBe, Newest;
    forall i | 0 <= i < |dev.staged|
      ensures dev.staged[i] == Staged(dev.disk.live, dev.newest)[i]
    {
      SureIsRead(dev.disk, J_START + i, dev.staged[i]);
    }
  }

  lemma WholeIfSomeIntact(auth: AuthStore, base: nat, bytes: nat)
    requires auth.Attached() && !auth.dev.overlay && bytes in {Snapshot.SMALL, Snapshot.LARGE}
    requires auth.layout == Snapshot.ImageLayout(base, bytes)
    ensures (exists x :: Snapshot.Intact(auth.dev.disk.live, base, auth.key, bytes, x)) ==> Snapshot.AllWhole(auth)
  {
    hide Snapshot.Intact, LayoutOk, Snapshot.AllWhole;
    if x :| Snapshot.Intact(auth.dev.disk.live, base, auth.key, bytes, x) {
      Snapshot.WholeIfIntact(auth, base, bytes, x);
    }
  }

  /** The store of a snapshot that lies at base of the card as it is now. */
  method OpenBank(d: Disk, base: nat, key: nat, bytes: nat) returns (auth: AuthStore)
    requires DiskValid(d) && bytes in {Snapshot.SMALL, Snapshot.LARGE} && base + SnapshotSectors(bytes) <= |d.live|
    ensures fresh(auth) && fresh(auth.dev) && auth.Valid() && auth.ready && auth.key == key
    ensures auth.layout == Snapshot.ImageLayout(base, bytes) && !auth.dev.overlay && auth.dev.disk == d
    ensures auth.layout.blocks == bytes / SECTOR <= 256 && auth.layout.blocks % Snapshot.BATCH == 0
  {
    hide DiskValid;
    Snapshot.BankFits(base, bytes, |d.live|);
    var card := new Device.OverCard(d);
    auth := new AuthStore.Open(false, card, base + 1, bytes / SECTOR, key);
  }

  /** Authenticate a whole snapshot on the card; its digest tells which one it is. */
  method ReadBank(d: Disk, base: nat, layers: seq<Xts.Cipher>, key: nat, bytes: nat) returns (ok: bool, digest: seq<Sector>)
    requires DiskValid(d) && bytes in {Snapshot.SMALL, Snapshot.LARGE} && base + SnapshotSectors(bytes) <= |d.live|
    requires Xts.StackLawful(layers) && 0 < |layers| <= Xts.MAX_STACK
    ensures ok ==> Snapshot.Intact(d.live, base, key, bytes, digest)
    ensures d.reliable && (exists x :: Snapshot.Intact(d.live, base, key, bytes, x)) ==> ok
  {
    hide Xts.StackLawful, DiskValid, Snapshot.Intact, LayoutOk, Snapshot.AllWhole, Snapshot.Readable;
    var auth := OpenBank(d, base, key, bytes);
    WholeIfSomeIntact(auth, base, bytes);
    var r;
    r, digest := Snapshot.ReadImage(auth, layers, null);
    ok := r == Snapshot.Done;
    if ok {
      Snapshot.ReadableIntact(auth, base, bytes, digest);
    }
  }

  /** One sector of the source, authenticated and decrypted. */
  method OldSector(d: Disk, base: nat, layers: seq<Xts.Cipher>, key: nat, bytes: nat, ghost digest: seq<Sector>, lba: nat)
    returns (ok: bool, p: seq<byte>)
    requires DiskValid(d) && bytes in {Snapshot.SMALL, Snapshot.LARGE} && base + SnapshotSectors(bytes) <= |d.live|
    requires Xts.StackLawful(layers) && 0 < |layers| <= Xts.MAX_STACK && lba < bytes / SECTOR
    requires Snapshot.Intact(d.live, base, key, bytes, digest)
    ensures |p| == SECTOR
    ensures ok ==> |digest| == bytes / SECTOR && Snapshot.WholeSectors(digest)
    ensures ok ==> p == Snapshot.SectorOfImage(Snapshot.PlainBytes(layers, digest), lba)
    ensures d.reliable ==> ok
  {
    hide Xts.StackLawful, Xts.Decrypted, DiskValid, LayoutOk, Snapshot.Intact, Look, Device.Valid, Device.Contents, Device.Sound;
    hide AuthStore.BitmapAgrees, AuthStore.BitsAgree, AuthStore.TagsAgree, Snapshot.PlainByte;
    p := Zeros(SECTOR);
    var auth := OpenBank(d, base, key, bytes);
    SectorIntact(auth, base, bytes, digest, lba);
    var r, data, unset := auth.ReadBatch(lba, 1);
    NotCorrupt(auth, lba);
    if r != Okay {
      return false, p;
    }
    assert InRange(lba, 1, lba);
    var output := new byte[SECTOR](i requires 0 <= i < SECTOR => if i < |data[0]| then data[0][i] else 0);
    assert output[0..SECTOR] == data[0];
    ok := Xts.Run(layers, lba, output, 0, output, 0, false);
    p := output[0..SECTOR];
    DecryptedSector(layers, digest, lba, p);
  }

  lemma SectorIntact(auth: AuthStore, base: nat, bytes: nat, digest: seq<Sector>, lba: nat)
    requires auth.Attached() && !auth.dev.overlay && auth.layout == Snapshot.ImageLayout(base, bytes) && lba < auth.layout.blocks
    requires Snapshot.Intact(auth.dev.disk.live, base, auth.key, bytes, digest)
    ensures |digest| == bytes / SECTOR && Snapshot.WholeSectors(digest)
    ensures auth.Contents()[lba] == Written(digest[lba].bytes)
  {
    hide Look;
  }

  lemma NotCorrupt(auth: AuthStore, lba: nat)
    requires auth.Attached() && lba + 1 <= auth.layout.blocks && auth.Contents()[lba].Written?
    ensures !auth.SomeCorrupt(lba, 1)
  {
    hide Look;
  }

  lemma DecryptedSector(layers: seq<Xts.Cipher>, digest: seq<Sector>, lba: nat, p: seq<byte>)
    requires Xts.StackLawful(layers) && Snapshot.WholeSectors(digest) && lba < |digest|
    requires p == Xts.Decrypted(layers, lba, digest[lba].bytes)
    ensures p == Snapshot.SectorOfImage(Snapshot.PlainBytes(layers, digest), lba)
  {
    hide Xts.StackLawful, Xts.Decrypted;
    var plain := Snapshot.PlainBytes(layers, digest);
    forall k: nat | k < SECTOR
      ensures p[k] == Snapshot.SectorOfImage(plain, lba)[k]
    {
      var i := SECTOR * lba + k;
      Snapshot.InSector(lba, i);
      assert plain[i] == Snapshot.PlainByte(layers, digest, i);
    }
  }

  /** Bytes of the source, sector by sector. */
  method OldRead(d: Disk, base: nat, layers: seq<Xts.Cipher>, key: nat, bytes: nat, ghost digest: seq<Sector>, offset: nat, n: nat)
    returns (ok: bool, out: seq<byte>)
    requires DiskValid(d) && bytes in {Snapshot.SMALL, Snapshot.LARGE} && base + SnapshotSectors(bytes) <= |d.live|
    requires Xts.StackLawful(layers) && 0 < |layers| <= Xts.MAX_STACK && offset + n <= bytes
    requires Snapshot.Intact(d.live, base, key, bytes, digest)
    ensures |digest| == bytes / SECTOR && Snapshot.WholeSectors(digest)
    ensures ok ==> out == Slice(Snapshot.PlainBytes(layers, digest), offset, n)
    ensures d.reliable ==> ok
  {
    hide Xts.StackLawful, DiskValid, LayoutOk, Look, Snapshot.PlainByte;
    ghost var plain := Snapshot.PlainBytes(layers, digest);
    hide Snapshot.Intact;
    out := [];
    while |out| < n
      invariant |out| <= n && out == plain[offset..offset + |out|]
      decreases n - |out|
    {
      var at := offset + |out|;
      var take := SECTOR - at % SECTOR;
      if take > n - |out| {
        take := n - |out|;
      }
      var p;
      ok, p := OldSector(d, base, layers, key, bytes, digest, at / SECTOR);
      if !ok {
        return;
      }
      SectorPart(plain, at, take);
      out := out + p[at % SECTOR..at % SECTOR + take];
      assert plain[offset..at] + plain[at..at + take] == plain[offset..at + take];
    }
    ok := true;
  }

  lemma SectorPart(plain: seq<byte>, at: nat, take: nat)
    requires SECTOR * (at / SECTOR) + SECTOR <= |plain| && take <= SECTOR - at % SECTOR
    ensures at + take <= |plain|
    ensures Snapshot.SectorOfImage(plain, at / SECTOR)[at % SECTOR..at % SECTOR + take] == plain[at..at + take]
  {
    var x, k := at / SECTOR, at % SECTOR;
    var sector := Snapshot.SectorOfImage(plain, x);
    var part, direct := sector[k..k + take], plain[at..at + take];
    forall i | 0 <= i < take
      ensures part[i] == direct[i]
    {
      assert sector[k + i] == plain[SECTOR * x + (k + i)];
    }
  }

  // ---- Writing the destination ---------------------------------------------

  /** A migration under way: the source is safe and the destination works. */
  ghost predicate Moving(store: FidoStore, keys: Snapshot.BankKeys, digest: seq<Sector>)
    requires Snapshot.KeysOk(keys)
    reads store, store.auth, store.dev
  {
    store.Working() && store.ready && Sourced(store.dev, keys, digest)
  }

  /** What remains of one that has failed. */
  ghost predicate Stranded(store: FidoStore)
    reads store, store.auth, store.dev
  {
    store.Bound() && |store.slots| == SLOTS && store.dev.Settled()
  }

  ghost function SourceOf(dev: Device, keys: Snapshot.BankKeys, digest: seq<Sector>): (m: seq<byte>)
    requires Snapshot.KeysOk(keys) && Sourced(dev, keys, digest)
    reads dev
    ensures |m| == dev.newest.oldBytes
  {
    Snapshot.PlainBytes(keys.layers[dev.newest.oldBank], digest)
  }

  lemma MovingStands(store: FidoStore, keys: Snapshot.BankKeys, digest: seq<Sector>)
    requires Snapshot.KeysOk(keys) && Moving(store, keys, digest)
    ensures Stranded(store) && store.dev.newest.oldBytes in {Snapshot.SMALL, Snapshot.LARGE}
  {
    hide Snapshot.Intact, Xts.StackLawful, Device.Settled, FidoStore.CacheAgrees;
  }

  /** Bytes of the source, from where it was staged. */
  method OldBytes(store: FidoStore, keys: Snapshot.BankKeys, c: ControlRecord, ghost digest: seq<Sector>, offset: nat, n: nat)
    returns (ok: bool, out: seq<byte>)
    requires Snapshot.KeysOk(keys) && Moving(store, keys, digest) && c == store.dev.newest && offset + n <= c.oldBytes
    ensures ok ==> out == Slice(SourceOf(store.dev, keys, digest), offset, n)
    ensures store.dev.disk.reliable ==> ok
  {
    hide Snapshot.Intact, Xts.StackLawful, FidoStore.Working, Snapshot.PlainByte, Device.Settled;
    StagedIntact(store.dev, keys, digest);
    ok, out := OldRead(store.dev.disk, J_START, keys.layers[c.oldBank], keys.tags[c.oldBank], c.oldBytes, digest, offset, n);
  }

  /** Write to the destination. */
  method WriteOn(store: FidoStore, authorised: bool, ghost keys: Snapshot.BankKeys, ghost digest: seq<Sector>, ghost w: seq<byte>,
                 at: nat, data: seq<byte>)
    returns (ok: bool)
    requires Snapshot.KeysOk(keys) && Moving(store, keys, digest) && at + |data| <= |w| == DISK_BYTES && store.Image() == Known(w)
    modifies store`slots, store`ready, store.auth, store.dev`disk, store.dev`count, store.dev`targets
    ensures Stranded(store)
    ensures ok ==> Moving(store, keys, digest) && store.Image() == Known(Splice(w, Field(at, data)))
    ensures ok ==> SourceOf(store.dev, keys, digest) == old(SourceOf(store.dev, keys, digest))
    ensures store.dev.disk.reliable == old(store.dev.disk.reliable) && (store.dev.disk.reliable && authorised ==> ok)
  {
    hide Snapshot.Intact, Xts.StackLawful, Device.Settled, FidoStore.Image, AuthStore.Valid, FidoStore.CacheAgrees, IsHomeLayout;
    KnownPatch(w, at, data);
    ok := store.Write(authorised, at, data);
  }

  /** Copy the whole image to the end of a blank disk. */
  method CopyImage(store: FidoStore, authorised: bool, keys: Snapshot.BankKeys, c: ControlRecord, ghost digest: seq<Sector>) returns (ok: bool)
    requires Snapshot.KeysOk(keys) && Moving(store, keys, digest) && c == store.dev.newest
    requires store.Image() == Known(Ones(DISK_BYTES))
    modifies store`slots, store`ready, store.auth, store.dev`disk, store.dev`count, store.dev`targets
    ensures Stranded(store)
    ensures ok ==> Moving(store, keys, digest)
    ensures ok ==> store.Image() == Known(Ones(DISK_BYTES - c.oldBytes) + SourceOf(store.dev, keys, digest))
    ensures store.dev.disk.reliable == old(store.dev.disk.reliable) && (store.dev.disk.reliable && authorised ==> ok)
    ensures ok ==> SourceOf(store.dev, keys, digest) == old(SourceOf(store.dev, keys, digest))
  {
    hide Snapshot.Intact, Xts.StackLawful, Device.Settled, FidoStore.Image, FidoStore.Working, Snapshot.PlainByte, Sourced;
    ghost var m := SourceOf(store.dev, keys, digest);
    var delta := DISK_BYTES - c.oldBytes;
    var at := 0;
    MovingStands(store, keys, digest);
    CopiedNone(m);
    while at < c.oldBytes
      invariant 0 <= at <= c.oldBytes && at % SECTOR == 0 && Stranded(store) && store.dev.disk.reliable == old(store.dev.disk.reliable)
      invariant Moving(store, keys, digest) && SourceOf(store.dev, keys, digest) == m && store.Image() == Known(Copied(m, at))
    {
      var p;
      ok, p := OldBytes(store, keys, c, digest, at, SECTOR);
      if !ok {
        return;
      }
      ok := WriteOn(store, authorised, keys, digest, Copied(m, at), delta + at, p);
      if !ok {
        return;
      }
      CopiedMore(m, at, p);
      at := at + SECTOR;
    }
    assert m[..at] == m;
    ok := true;
  }

  /** The destination once the first n bytes of m have been copied. */
  function Copied(m: seq<byte>, n: nat): (w: seq<byte>)
    requires n <= |m| <= DISK_BYTES
    ensures |w| == DISK_BYTES
  {
    Ones(DISK_BYTES - |m|) + m[..n] + Ones(|m| - n)
  }

  lemma CopiedNone(m: seq<byte>)
    requires |m| <= DISK_BYTES
    ensures Copied(m, 0) == Ones(DISK_BYTES)
  {
  }

  lemma CopiedMore(m: seq<byte>, n: nat, p: seq<byte>)
    requires n + SECTOR <= |m| <= DISK_BYTES && p == Slice(m, n, SECTOR)
    ensures Splice(Copied(m, n), Field(DISK_BYTES - |m| + n, p)) == Copied(m, n + SECTOR)
  {
  }

  // ---- Moving the links ----------------------------------------------------

  lemma SubSlice(m: seq<byte>, at: nat, n: nat, k: nat, j: nat)
    requires at + n <= |m| && k + j <= n
    ensures Slice(Slice(m, at, n), k, j) == Slice(m, at + k, j)
  {
    forall i | 0 <= i < j
      ensures Slice(Slice(m, at, n), k, j)[i] == Slice(m, at + k, j)[i]
    {
      assert Slice(m, at, n)[k + i] == m[at + (k + i)] == m[(at + k) + i];
    }
  }

  /** Read the record at offset and check it against the one before it. */
  method CheckRecord(store: FidoStore, keys: Snapshot.BankKeys, c: ControlRecord, ghost digest: seq<Sector>, previous: nat, offset: nat)
    returns (ok: bool, following: nat)
    requires Snapshot.KeysOk(keys) && Moving(store, keys, digest) && c == store.dev.newest && offset < previous <= c.oldBytes
    ensures ok ==> offset + 12 <= previous && RecordOk(SourceOf(store.dev, keys, digest), previous, offset)
    ensures ok ==> following == Word(SourceOf(store.dev, keys, digest), offset)
    ensures store.dev.disk.reliable && RecordOk(SourceOf(store.dev, keys, digest), previous, offset) ==> ok
  {
    hide Sourced, SourceOf, Snapshot.KeysOk, Value, FidoStore.Working;
    ghost var m := SourceOf(store.dev, keys, digest);
    following := 0;
    if previous - offset < 12 {
      return false, following;
    }
    var h;
    ok, h := OldBytes(store, keys, c, digest, offset, 12);
    if !ok {
      return;
    }
    SubSlice(m, offset, 12, 0, 4);
    SubSlice(m, offset, 12, 4, 4);
    SubSlice(m, offset, 12, 10, 2);
    following := Get(h, 0, 4);
    var back := Get(h, 4, 4);
    var length := Get(h, 10, 2);
    var header := 12;
    if back != ADDRESS_BASE + previous {
      return false, following;
    }
    if length == 65535 {
      if previous - offset < 16 {
        return false, following;
      }
      var longer;
      ok, longer := OldBytes(store, keys, c, digest, offset + 12, 4);
      if !ok {
        return;
      }
      SubSlice(m, offset + 12, 4, 0, 4);
      length := Get(longer, 0, 4);
      header := 16;
    }
    ok := length <= previous - offset - header;
  }

  /** Walk one list of the source, checking it, and write its links where they now belong. */
  method MoveList(store: FidoStore, authorised: bool, keys: Snapshot.BankKeys, c: ControlRecord, ghost digest: seq<Sector>, ghost w0: seq<byte>,
                  start: nat, end: nat) returns (ok: bool)
    requires Snapshot.KeysOk(keys) && Moving(store, keys, digest) && c == store.dev.newest
    requires start <= end && end + 4 <= c.oldBytes <= |w0| == DISK_BYTES && store.Image() == Known(w0)
    modifies store`slots, store`ready, store.auth, store.dev`disk, store.dev`count, store.dev`targets
    ensures Stranded(store)
    ensures ok ==> Moving(store, keys, digest) && SourceOf(store.dev, keys, digest) == old(SourceOf(store.dev, keys, digest))
    ensures ok ==> var m := SourceOf(store.dev, keys, digest);
      List(m, start, end).Some? && store.Image() == Known(WithList(w0, m, DISK_BYTES - |m|, start, end))
    ensures store.dev.disk.reliable == old(store.dev.disk.reliable)
    ensures store.dev.disk.reliable && authorised && List(old(SourceOf(store.dev, keys, digest)), start, end).Some? ==> ok
  {
    hide Sourced, SourceOf, Snapshot.KeysOk, Value, Word, RecordOk, Splice, NextLink, Links, FidoStore.Working, FidoStore.Image, Device.Settled;
    ghost var m := SourceOf(store.dev, keys, digest);
    var delta := DISK_BYTES - c.oldBytes;
    MovingStands(store, keys, digest);
    var head;
    ok, head := OldBytes(store, keys, c, digest, end, 4);
    if !ok {
      return;
    }
    SubSlice(m, end, 4, 0, 4);
    var next: nat := Get(head, 0, 4);
    assert next == Word(m, end) by {
      WordIs(m, end, head);
    }
    ok := WriteOn(store, authorised, keys, digest, w0, delta + end, NextLink(next, delta));
    if !ok {
      return;
    }
    ghost var w := Splice(w0, Field(delta + end, NextLink(Word(m, end), delta)));
    var previous: nat := end;
    while next != 0
      invariant Stranded(store) && Moving(store, keys, digest) && SourceOf(store.dev, keys, digest) == m
      invariant |w| == DISK_BYTES && store.Image() == Known(w) && previous <= end
      invariant store.dev.disk.reliable == old(store.dev.disk.reliable)
      invariant List(m, start, end).Some? <==> Walk(m, start, previous, next).Some?
      invariant List(m, start, end).Some? ==> WithList(w0, m, delta, start, end) == Linked(w, m, delta, start, previous, next)
      decreases previous
    {
      if next < ADDRESS_BASE + start || next >= ADDRESS_BASE + previous {
        return false;
      }
      var offset: nat := next - ADDRESS_BASE;
      var following: nat;
      ok, following := CheckRecord(store, keys, c, digest, previous, offset);
      if !ok {
        return;
      }
      ok := WriteOn(store, authorised, keys, digest, w, delta + offset, Links(following, previous, delta));
      if !ok {
        return;
      }
      w := Splice(w, Field(delta + offset, Links(Word(m, offset), previous, delta)));
      previous, next := offset, following;
    }
  }

  lemma WordIs(m: seq<byte>, at: nat, b: seq<byte>)
    requires at + 4 <= |m| && b == Slice(m, at, 4)
    ensures Value(Slice(b, 0, 4)) == Word(m, at)
  {
    assert Slice(b, 0, 4) == b;
  }

  /** Whether the source is blank. */
  method SourceBlank(store: FidoStore, keys: Snapshot.BankKeys, c: ControlRecord, ghost digest: seq<Sector>) returns (ok: bool, blank: bool)
    requires Snapshot.KeysOk(keys) && Moving(store, keys, digest) && c == store.dev.newest
    ensures ok ==> (blank <==> AllOnes(SourceOf(store.dev, keys, digest)))
    ensures store.dev.disk.reliable ==> ok
  {
    hide Sourced, SourceOf, Snapshot.KeysOk, FidoStore.Working;
    ghost var m := SourceOf(store.dev, keys, digest);
    blank := true;
    MovingStands(store, keys, digest);
    var at := 0;
    while at < c.oldBytes && blank
      invariant 0 <= at <= c.oldBytes && at % SECTOR == 0
      invariant blank ==> forall i :: 0 <= i < at ==> m[i] == 255
      invariant !blank ==> !AllOnes(m)
      decreases c.oldBytes - at, blank
    {
      var p;
      ok, p := OldBytes(store, keys, c, digest, at, SECTOR);
      if !ok {
        return;
      }
      blank := OnesOnly(p);
      if blank {
        forall i | at <= i < at + SECTOR
          ensures m[i] == 255
        {
          assert m[i] == p[i - at];
        }
      } else {
        var k: nat :| k < |p| && p[k] != 255;
        assert m[at + k] == p[k];
      }
      at := at + SECTOR;
    }
    ok := true;
  }

  method OnesOnly(p: seq<byte>) returns (blank: bool)
    ensures blank <==> AllOnes(p)
  {
    for i := 0 to |p|
      invariant forall k :: 0 <= k < i ==> p[k] == 255
    {
      if p[i] != 255 {
        return false;
      }
    }
    blank := true;
  }

  /** Move the links of the copied image, unless it is blank. */
  method MoveLinks(store: FidoStore, authorised: bool, keys: Snapshot.BankKeys, c: ControlRecord, ghost digest: seq<Sector>) returns (ok: bool)
    requires Snapshot.KeysOk(keys) && Moving(store, keys, digest) && c == store.dev.newest
    requires store.Image() == Known(Ones(DISK_BYTES - c.oldBytes) + SourceOf(store.dev, keys, digest))
    modifies store`slots, store`ready, store.auth, store.dev`disk, store.dev`count, store.dev`targets
    ensures Stranded(store)
    ensures ok ==> Moving(store, keys, digest)
    ensures ok ==> Migrated(SourceOf(store.dev, keys, digest)) == Some(store.Image())
    ensures store.dev.disk.reliable == old(store.dev.disk.reliable)
    ensures store.dev.disk.reliable && authorised && old(Migrated(SourceOf(store.dev, keys, digest))).Some? ==> ok
    ensures ok ==> SourceOf(store.dev, keys, digest) == old(SourceOf(store.dev, keys, digest))
  {
    hide Sourced, SourceOf, Snapshot.KeysOk, FidoStore.Working, FidoStore.Image, Device.Settled, WithList, AllOnes;
    ghost var m := SourceOf(store.dev, keys, digest);
    MovingStands(store, keys, digest);
    var size := c.oldBytes;
    ghost var w := Ones(DISK_BYTES - size) + m;
    var blank;
    ok, blank := SourceBlank(store, keys, c, digest);
    if !ok || blank {
      return;
    }
    ok := MoveList(store, authorised, keys, c, digest, w, 0, DataEnd(size));
    if !ok {
      return;
    }
    w := WithList(w, m, DISK_BYTES - size, 0, DataEnd(size));
    ok := MoveList(store, authorised, keys, c, digest, w, RomStart(size), RomEnd(size));
  }

  // ---- The migration -------------------------------------------------------

  /** The disk a migration ends with. */
  ghost function MigratesTo(keys: Snapshot.BankKeys, r: Recovered): Option<DiskBytes>
    requires Snapshot.KeysOk(keys)
  {
    match r
    case Migrating(c, staged) => FromSource(SourceImage(keys, staged, c.oldBank, c.oldBytes, c.digest))
    case Legacy(h) =>
      if |h| != J_HOME then None else
      var named := Snapshot.Selected(h);
      if named.None? || named.value.bank >= 2 then None
      else FromSource(SourceImage(keys, BankOf(h, named.value), named.value.bank, named.value.bytes, named.value.digest))
    case _ => None
  }

  /** The sectors of a bank, from its manifest on. */
  function BankOf(h: seq<Sector>, r: ManifestRecord): seq<Sector>
    requires |h| >= J_HOME && r.bank < 2
  {
    h[Snapshot.BANK * r.bank..Snapshot.BANK * r.bank + SnapshotSectors(r.bytes)]
  }

  function FromSource(m: Option<seq<byte>>): Option<DiskBytes> {
    if m.Some? then Migrated(m.value) else None
  }

  /** Power loss leaves the migration to be done again, or its result. */
  ghost predicate OrDone(store: FidoStore, keys: Snapshot.BankKeys, was: Recovered)
    requires Snapshot.KeysOk(keys)
    reads store.dev
  {
    && store.Bound() && LayoutOk(store.auth.layout, J_HOME)
    && (RecoversTo(store.dev.disk, {was})
        || (MigratesTo(keys, was).Some? && store.RecoversOrHolds({was}, MigratesTo(keys, was).value)))
  }

  lemma RecordSane(dev: Device, c: ControlRecord)
    requires dev.Settled() && dev.newest == c && c.state == MIGRATE
    ensures c.oldBank < 2 && c.oldBytes in {Snapshot.SMALL, Snapshot.LARGE}
  {
    hide StagedAt;
  }

  lemma SourceFound(store: FidoStore, keys: Snapshot.BankKeys, digest: seq<Sector>)
    requires Snapshot.KeysOk(keys) && store.Working() && store.dev.recovering && store.dev.newest.state == MIGRATE
    requires var c := store.dev.newest;
      && c.oldBank < 2 && c.oldBytes in {Snapshot.SMALL, Snapshot.LARGE} && |store.dev.disk.live| == REGION
      && Snapshot.Intact(store.dev.disk.live, J_START, keys.tags[c.oldBank], c.oldBytes, digest)
    ensures Sourced(store.dev, keys, digest)
  {
    hide Snapshot.Intact, Xts.StackLawful, LayoutOk, IsHomeLayout, FidoStore.CacheAgrees;
    var c := store.dev.newest;
    StagedRead(store.dev);
    var n := SnapshotSectors(c.oldBytes);
    assert store.dev.staged[0..n] == store.dev.disk.live[J_START..J_START + n];
    Snapshot.IntactMoves(store.dev.disk.live, J_START, store.dev.staged, 0, keys.tags[c.oldBank], c.oldBytes, digest);
  }

  /** A source that can be migrated reads where it was staged. */
  lemma SourceThere(dev: Device, keys: Snapshot.BankKeys, c: ControlRecord)
    requires Snapshot.KeysOk(keys) && dev.Settled() && dev.recovering && dev.newest == c && c.state == MIGRATE && dev.overlay
    requires c.oldBank < 2 && c.oldBytes in {Snapshot.SMALL, Snapshot.LARGE} && MigratesTo(keys, Migrating(c, dev.staged)).Some?
    ensures |dev.disk.live| == REGION
    ensures Snapshot.Intact(dev.disk.live, J_START, keys.tags[c.oldBank], c.oldBytes, c.digest)
  {
    hide Snapshot.Intact, Xts.StackLawful, Migrated, Device.Settled, Snapshot.PlainByte;
    StagedIntact(dev, keys, c.digest);
  }

  lemma SourceMigrates(store: FidoStore, keys: Snapshot.BankKeys)
    requires Snapshot.KeysOk(keys) && Sourced(store.dev, keys, store.dev.newest.digest)
    ensures MigratesTo(keys, Migrating(store.dev.newest, store.dev.staged))
         == Migrated(SourceOf(store.dev, keys, store.dev.newest.digest))
  {
    hide Snapshot.Intact, Xts.StackLawful, Migrated, Snapshot.PlainByte;
  }

  lemma BlankIsOnes()
    ensures BlankDisk(-1) == Known(Ones(DISK_BYTES))
  {
  }

  lemma MigratedReadable(store: FidoStore, m: seq<byte>)
    requires store.Working() && Migrated(m) == Some(store.Image())
    ensures store.AllWritten()
  {
    hide FidoStore.Working, FidoStore.Image, Moved, Relocation.Movable;
    store.ReadableWritten();
  }

  /** Copy and relink the image into a blank home region, durably, and read it back. */
  method BuildHome(store: FidoStore, authorised: bool, keys: Snapshot.BankKeys, c: ControlRecord) returns (ok: bool)
    requires Snapshot.KeysOk(keys) && Moving(store, keys, c.digest) && c == store.dev.newest
    modifies store`slots, store`ready, store.auth, store.dev`disk, store.dev`count, store.dev`targets
    ensures Stranded(store)
    ensures ok ==> store.Working() && store.ready && AllSure(store.dev.disk, 0, REGION)
    ensures ok ==> MigratesTo(keys, Migrating(c, store.dev.staged)) == Some(store.Image())
    ensures store.dev.disk.reliable == old(store.dev.disk.reliable)
    ensures store.dev.disk.reliable && authorised && MigratesTo(keys, Migrating(c, store.dev.staged)).Some? ==> ok
  {
    hide Snapshot.Intact, Xts.StackLawful, IsHomeLayout, MigratesTo, Migrated, FidoStore.Image, FidoStore.CacheAgrees, Snapshot.PlainByte;
    hide Device.Settled, AllSure, AuthStore.Valid, BlankDisk, FidoStore.AllWritten;
    SourceMigrates(store, keys);
    ok := store.Blank(authorised, -1);
    if !ok {
      return;
    }
    BlankIsOnes();
    ok := CopyImage(store, authorised, keys, c, c.digest);
    if !ok {
      return;
    }
    ok := MoveLinks(store, authorised, keys, c, c.digest);
    if !ok {
      return;
    }
    SourceMigrates(store, keys);
    MigratedReadable(store, SourceOf(store.dev, keys, c.digest));
    ok := store.SyncHome();
    if !ok {
      return;
    }
    MigratedReadable(store, SourceOf(store.dev, keys, c.digest));
    ok := store.VerifyHome();
  }

  /** Make the rebuilt home region the store, twice over: the record of the migration goes
      before the log may overwrite its source. */
  method PublishHome(store: FidoStore, keys: Snapshot.BankKeys, c: ControlRecord) returns (ok: bool)
    requires Snapshot.KeysOk(keys) && store.Working() && store.ready && LayoutOk(store.auth.layout, J_HOME)
    requires store.dev.recovering && c == store.dev.newest && c.state == MIGRATE && AllSure(store.dev.disk, 0, REGION)
    requires MigratesTo(keys, Migrating(c, store.dev.staged)) == Some(store.Image())
    modifies store.dev
    ensures DiskValid(store.dev.disk) && |store.dev.disk.live| == REGION && store.dev.Reopenable()
    ensures OrDone(store, keys, Migrating(c, old(store.dev.staged)))
    ensures ok ==> store.Working() && store.ready && !store.dev.recovering && store.Image() == old(store.Image())
    ensures ok ==> |store.dev.home| == J_HOME && store.Seen(store.dev.home) == store.Image()
    ensures ok ==> RecoversTo(store.dev.disk, {Home(store.dev.home)})
    ensures old(store.dev.disk.reliable && store.dev.sequence + 2 <= UINT64_MAX) ==> ok
  {
    hide Snapshot.Intact, Xts.StackLawful, LayoutOk, IsHomeLayout, Plain, Recover, RecoversTo, MigratesTo, Openable;
    hide FidoStore.RecoversOrHolds, Device.Contents, Device.Valid, FidoStore.CacheAgrees, AllSure;
    ghost var was, image := Migrating(c, store.dev.staged), store.Image();
    ghost var h := store.dev.home;
    ok, h := EndMigration(store, was);
    if !ok {
      return;
    }
    ok := RenewHome(store);
    store.Holds({}, h, image);
    assert {Home(h)} == {} + {Home(h)};
    store.MoreRecovers({}, {was}, image);
  }

  /** The first of the two records. */
  method EndMigration(store: FidoStore, ghost was: Recovered) returns (ok: bool, ghost h: seq<Sector>)
    requires store.Working() && store.ready && LayoutOk(store.auth.layout, J_HOME) && AllSure(store.dev.disk, 0, REGION)
    requires store.dev.recovering && was == Unfinished(store.dev.newest, store.dev.staged)
    modifies store.dev
    ensures DiskValid(store.dev.disk) && |store.dev.disk.live| == REGION && store.dev.disk.reliable == old(store.dev.disk.reliable)
    ensures store.RecoversOrHolds({was}, old(store.Image())) && store.dev.Reopenable()
    ensures |h| == J_HOME && store.Seen(h) == old(store.Image())
    ensures ok ==> store.Working() && !store.dev.recovering && store.dev.count == 0 && store.Image() == old(store.Image())
    ensures ok ==> store.dev.home == h && store.dev.sequence == old(store.dev.sequence) + 1
    ensures old(store.dev.disk.reliable && store.dev.sequence < UINT64_MAX) ==> ok
  {
    hide Xts.StackLawful, LayoutOk, IsHomeLayout, Plain, Recover, RecoversTo, FidoStore.RecoversOrHolds, Device.Contents, Device.Valid, Openable;
    ghost var image := store.Image();
    store.dev.Sized();
    store.SeenNow();
    SureWithin(store.dev.disk, 0, J_HOME);
    store.dev.Usable();
    h := store.dev.Contents();
    ok := store.dev.EndRebuild();
    assert {was, Home(h)} == {was} + {Home(h)};
    store.Holds({was}, h, image);
    if ok {
      store.dev.Usable();
    }
  }

  /** The second. */
  method RenewHome(store: FidoStore) returns (ok: bool)
    requires store.Working() && store.ready && LayoutOk(store.auth.layout, J_HOME) && !store.dev.recovering && store.dev.count == 0
    modifies store.dev
    ensures DiskValid(store.dev.disk) && |store.dev.disk.live| == REGION && RecoversTo(store.dev.disk, {Home(old(store.dev.home))})
    ensures store.dev.Reopenable()
    ensures ok ==> store.Working() && !store.dev.recovering && store.Image() == old(store.Image())
    ensures ok ==> store.dev.home == old(store.dev.home)
    ensures ok ==> |store.dev.home| == J_HOME && store.Seen(store.dev.home) == store.Image()
    ensures old(store.dev.disk.reliable && store.dev.sequence < UINT64_MAX) ==> ok
  {
    hide Xts.StackLawful, LayoutOk, IsHomeLayout, Plain, Recover, RecoversTo, Device.Contents, Device.Valid, View, Openable;
    HomeIsContents(store.dev);
    store.dev.Usable();
    ok := store.dev.Renew();
    if ok {
      store.dev.Usable();
      store.SeenNow();
    }
  }

  lemma HomeIsContents(dev: Device)
    requires dev.Valid() && dev.overlay && !dev.recovering && dev.count == 0
    ensures dev.Contents() == dev.home
  {
    hide View;
    EmptyView(dev.disk.live);
  }

  /** Move the staged snapshot into the home region. The source is outside it and outlives
      every write; only when the result is durable and has been read back is it published. */
  method MigrateFinish(store: FidoStore, authorised: bool, keys: Snapshot.BankKeys, c: ControlRecord) returns (ok: bool)
    requires Snapshot.KeysOk(keys) && store.Working() && store.ready && LayoutOk(store.auth.layout, J_HOME)
    requires store.dev.recovering && c == store.dev.newest && c.state == MIGRATE
    modifies store`slots, store`ready, store.auth, store.dev
    ensures DiskValid(store.dev.disk) && |store.dev.disk.live| == REGION && store.Bound() && |store.slots| == SLOTS
    ensures store.dev.Reopenable()
    ensures OrDone(store, keys, Migrating(c, old(store.dev.staged)))
    ensures ok ==> store.Working() && store.ready && !store.dev.recovering
    ensures ok ==> MigratesTo(keys, Migrating(c, old(store.dev.staged))) == Some(store.Image())
    ensures ok ==> |store.dev.home| == J_HOME && store.Seen(store.dev.home) == store.Image()
    ensures ok ==> RecoversTo(store.dev.disk, {Home(store.dev.home)})
    ensures (old(store.dev.disk.reliable && store.dev.sequence + 2 <= UINT64_MAX) && authorised
             && MigratesTo(keys, Migrating(c, old(store.dev.staged))).Some?) ==> ok
  {
    hide Snapshot.Intact, Xts.StackLawful, LayoutOk, IsHomeLayout, Plain, Recover, RecoversTo, Device.Contents, Device.Valid, Openable;
    hide MigratesTo, FidoStore.RecoversOrHolds, Migrated, FidoStore.CacheAgrees, Sourced, SourceOf;
    ghost var was := Migrating(c, store.dev.staged);
    RecordSane(store.dev, c);
    store.dev.Sized();
    store.dev.SettledReopens();
    store.dev.HomeRecovers();
    if MigratesTo(keys, was).Some? {
      SourceThere(store.dev, keys, c);
    }
    var digest;
    ok, digest := ReadBank(store.dev.disk, J_START, keys.layers[c.oldBank], keys.tags[c.oldBank], c.oldBytes);
    if ok && MigratesTo(keys, was).Some? {
      Snapshot.DigestIfIntact(store.dev.disk.live, J_START, keys.tags[c.oldBank], c.oldBytes, digest, c.digest);
    }
    if !ok || digest != c.digest {
      return false;
    }
    SourceFound(store, keys, digest);
    ok := BuildHome(store, authorised, keys, c);
    if !ok {
      store.dev.Sized();
      store.dev.SettledReopens();
      store.dev.HomeRecovers();
      return;
    }
    ok := PublishHome(store, keys, c);
  }

  // ---- Starting one --------------------------------------------------------

  /** No records, and a home region that power loss does not change. */
  ghost predicate Unmigrated(d: Disk, home: seq<Sector>) {
    && DiskValid(d) && |d.live| == REGION && Anchored(d) && Newest(d.live) == Absent
    && AllSure(d, 0, J_HOME) && d.live[..J_HOME] == home
  }

  lemma UnmigratedOpens(d: Disk, home: seq<Sector>)
    requires Unmigrated(d, home)
    ensures Openable(d)
  {
    hide MayBe;
  }

  lemma UnmigratedRecovers(d: Disk, home: seq<Sector>)
    requires Unmigrated(d, home)
    ensures RecoversTo(d, {Legacy(home)})
  {
    hide MayBe;
    forall m | CrashImage(d, m)
      ensures Recover(m) == Legacy(home)
    {
      AnchoredScans(d, m);
      SureRange(d, 0, J_HOME, m);
    }
  }

  lemma StagingKeeps(before: Disk, after: Disk, home: seq<Sector>, at: nat, s: Sector, ok: bool)
    requires Unmigrated(before, home) && J_START <= at < J_CONTROL && Wrote(before, after, at, [s], ok)
    ensures Unmigrated(after, home) && after.reliable == before.reliable
    ensures ok ==> after.live == before.live[at := s]
  {
    hide MayBe;
    assert forall i :: 0 <= i < REGION && i != at ==> after.live[i] == before.live[i] && Values(after, i) == Values(before, i);
  }

  /** Copy a snapshot to where it will be safe from the home region. */
  method Stage(dev: Device, from: nat, n: nat, ghost home: seq<Sector>) returns (ok: bool)
    requires Unmigrated(dev.disk, home) && from + n <= J_HOME && n <= 275
    modifies dev`disk
    ensures Unmigrated(dev.disk, home) && dev.disk.reliable == old(dev.disk.reliable)
    ensures ok ==> dev.disk.live[J_START..J_START + n] == home[from..from + n]
    ensures dev.disk.reliable ==> ok
  {
    hide Unmigrated, Newest, DiskValid, MayBe;
    UnmigratedParts(dev.disk, home);
    for i := 0 to n
      invariant Unmigrated(dev.disk, home) && dev.disk.reliable == old(dev.disk.reliable)
      invariant |dev.disk.live| == REGION && |home| == J_HOME && dev.disk.live[J_START..J_START + i] == home[from..from + i]
    {
      UnmigratedParts(dev.disk, home);
      var s;
      ok, s := dev.ReadSector(from + i);
      if !ok {
        return;
      }
      ghost var before := dev.disk;
      ok := dev.WriteSector(J_START + i, s);
      StagingKeeps(before, dev.disk, home, J_START + i, s, ok);
      if !ok {
        return;
      }
      UnmigratedParts(dev.disk, home);
      assert s == before.live[..J_HOME][from + i] == home[from + i];
      StagedOne(before.live, dev.disk.live, home, from, i);
    }
    ok := true;
  }

  lemma StagedOne(before: seq<Sector>, after: seq<Sector>, home: seq<Sector>, from: nat, i: nat)
    requires |before| == REGION && J_START + i < REGION && from + i < |home|
    requires after == before[J_START + i := home[from + i]]
    requires before[J_START..J_START + i] == home[from..from + i]
    ensures after[J_START..J_START + i + 1] == home[from..from + i + 1]
  {
    assert after[J_START..J_START + i + 1] == before[J_START..J_START + i] + [home[from + i]];
    assert home[from..from + i + 1] == home[from..from + i] + [home[from + i]];
  }

  lemma UnmigratedParts(d: Disk, home: seq<Sector>)
    requires Unmigrated(d, home)
    ensures DiskValid(d) && |d.live| == REGION && |home| == J_HOME && d.live[..J_HOME] == home && Newest(d.live) == Absent
  {
  }

  // ---- What an open gives --------------------------------------------------

  /** The disk an open gives, if it gives one. */
  ghost function Yields(layers: seq<Xts.Cipher>, l: Layout, key: nat, keys: Snapshot.BankKeys, r: Recovered): Option<DiskBytes>
    requires Xts.StackLawful(layers) && LayoutOk(l, J_HOME) && Snapshot.KeysOk(keys)
  {
    match r
    case Home(h) => if |h| == J_HOME then Some(Plain(layers, Medium.Image(h, l, key))) else None
    case Fresh(p) => if p <= 1 then Some(BlankDisk(p)) else None
    case _ => MigratesTo(keys, r)
  }

  /** Whatever power loss does, a later open gives this. */
  ghost predicate YieldsOnly(store: FidoStore, keys: Snapshot.BankKeys, want: Option<DiskBytes>)
    requires Snapshot.KeysOk(keys)
    reads store.dev
  {
    && store.Bound() && LayoutOk(store.auth.layout, J_HOME) && DiskValid(store.dev.disk) && |store.dev.disk.live| == REGION
    && forall m :: CrashImage(store.dev.disk, m) ==>
         Yields(store.layers, store.auth.layout, store.auth.key, keys, Recover(m)) == want
  }

  lemma RecoversYields(store: FidoStore, keys: Snapshot.BankKeys, allowed: set<Recovered>, want: Option<DiskBytes>)
    requires Snapshot.KeysOk(keys) && store.Bound() && LayoutOk(store.auth.layout, J_HOME)
    requires DiskValid(store.dev.disk) && |store.dev.disk.live| == REGION && RecoversTo(store.dev.disk, allowed)
    requires forall r :: r in allowed ==> Yields(store.layers, store.auth.layout, store.auth.key, keys, r) == want
    ensures YieldsOnly(store, keys, want)
  {
    hide Yields, Recover, LayoutOk, Xts.StackLawful;
  }

  lemma HoldsYields(store: FidoStore, keys: Snapshot.BankKeys, allowed: set<Recovered>, image: DiskBytes)
    requires Snapshot.KeysOk(keys) && store.Bound() && LayoutOk(store.auth.layout, J_HOME)
    requires DiskValid(store.dev.disk) && |store.dev.disk.live| == REGION && store.RecoversOrHolds(allowed, image)
    requires forall r :: r in allowed ==> Yields(store.layers, store.auth.layout, store.auth.key, keys, r) == Some(image)
    ensures YieldsOnly(store, keys, Some(image))
  {
    hide Recover, LayoutOk, Xts.StackLawful, Plain, MigratesTo, BlankDisk;
  }

  lemma OrDoneYields(store: FidoStore, keys: Snapshot.BankKeys, was: Recovered)
    requires Snapshot.KeysOk(keys) && DiskValid(store.dev.disk) && |store.dev.disk.live| == REGION && was.Migrating?
    requires OrDone(store, keys, was)
    ensures YieldsOnly(store, keys, MigratesTo(keys, was))
  {
    hide Recover, LayoutOk, Xts.StackLawful, MigratesTo, RecoversTo, FidoStore.RecoversOrHolds, YieldsOnly;
    if RecoversTo(store.dev.disk, {was}) {
      RecoversYields(store, keys, {was}, MigratesTo(keys, was));
    } else {
      HoldsYields(store, keys, {was}, MigratesTo(keys, was).value);
    }
  }

  /** The staged copy stands for the snapshot it was made from. */
  lemma StagedForSelected(keys: Snapshot.BankKeys, home: seq<Sector>, snap: ManifestRecord, c: ControlRecord, staged: seq<Sector>)
    requires Snapshot.KeysOk(keys) && |home| == J_HOME && Snapshot.Selected(home) == Some(snap) && staged == BankOf(home, snap)
    requires c.oldBank == snap.bank < 2 && c.oldBytes == snap.bytes && c.digest == snap.digest
    ensures MigratesTo(keys, Migrating(c, staged)) == MigratesTo(keys, Legacy(home))
  {
    hide Snapshot.Intact, Snapshot.Selected, Migrated;
  }

  /** Find the snapshot to migrate. */
  method FindSnapshot(d: Disk, keys: Snapshot.BankKeys) returns (ok: bool, snap: ManifestRecord)
    requires DiskValid(d) && |d.live| == REGION && Snapshot.KeysOk(keys)
    ensures ok ==> Snapshot.Selected(d.live) == Some(snap)
    ensures d.reliable && Snapshot.Selected(d.live).Some? ==> ok
  {
    hide Snapshot.Selected, DiskValid, Xts.StackLawful;
    var card := new Device.OverCard(d);
    var snapshots := new Snapshot.SnapshotStore(card, keys);
    var r;
    r, snap := snapshots.Scan();
    ok := r == Snapshot.Done;
  }

  lemma SelectedAtHome(m: seq<Sector>)
    requires |m| == REGION
    ensures Snapshot.Selected(m[..J_HOME]) == Snapshot.Selected(m)
  {
  }

  lemma StartsUnmigrated(d: Disk)
    requires DiskValid(d) && |d.live| == REGION && Openable(d) && Newest(d.live) == Absent
    ensures Unmigrated(d, d.live[..J_HOME])
  {
    hide MayBe;
  }

  lemma StillLegacy(store: FidoStore, keys: Snapshot.BankKeys, home: seq<Sector>)
    requires Snapshot.KeysOk(keys) && store.Bound() && LayoutOk(store.auth.layout, J_HOME) && Unmigrated(store.dev.disk, home)
    ensures YieldsOnly(store, keys, MigratesTo(keys, Legacy(home)))
  {
    hide YieldsOnly, RecoversTo, LayoutOk, Xts.StackLawful, MigratesTo;
    UnmigratedRecovers(store.dev.disk, home);
    RecoversYields(store, keys, {Legacy(home)}, MigratesTo(keys, Legacy(home)));
  }

  lemma AnnouncedYields(store: FidoStore, keys: Snapshot.BankKeys, home: seq<Sector>, c: ControlRecord, staged: seq<Sector>)
    requires Snapshot.KeysOk(keys) && store.Bound() && LayoutOk(store.auth.layout, J_HOME)
    requires DiskValid(store.dev.disk) && |store.dev.disk.live| == REGION
    requires RecoversTo(store.dev.disk, {Legacy(home), Migrating(c, staged)})
    requires MigratesTo(keys, Migrating(c, staged)) == MigratesTo(keys, Legacy(home))
    ensures YieldsOnly(store, keys, MigratesTo(keys, Legacy(home)))
  {
    hide YieldsOnly, RecoversTo, LayoutOk, Xts.StackLawful, MigratesTo;
    RecoversYields(store, keys, {Legacy(home), Migrating(c, staged)}, MigratesTo(keys, Legacy(home)));
  }

  lemma WholeSlice(s: seq<Sector>, n: nat)
    requires |s| == n
    ensures s[0..n] == s
  {
  }

  lemma BankSlice(home: seq<Sector>, snap: ManifestRecord, m: seq<Sector>)
    requires |m| == REGION && home == m[..J_HOME] && snap.bank < 2
    ensures var a, n := Snapshot.BANK * snap.bank, SnapshotSectors(snap.bytes);
      BankOf(home, snap)[0..n] == m[a..a + n]
  {
    var a, n := Snapshot.BANK * snap.bank, SnapshotSectors(snap.bytes);
    assert a + n <= J_HOME;
    assert m[..J_HOME][a..a + n] == m[a..a + n];
    WholeSlice(BankOf(home, snap), n);
  }

  /** A snapshot that can be migrated reads where it lies and where it has been staged. */
  lemma LegacyThere(keys: Snapshot.BankKeys, home: seq<Sector>, m: seq<Sector>)
    requires Snapshot.KeysOk(keys) && |m| == REGION && home == m[..J_HOME] && MigratesTo(keys, Legacy(home)).Some?
    ensures Snapshot.Selected(home) == Snapshot.Selected(m) && Snapshot.Selected(m).Some?
    ensures var snap := Snapshot.Selected(m).value;
      snap.bank < 2 && snap.bytes in {Snapshot.SMALL, Snapshot.LARGE}
      && Snapshot.Intact(m, Snapshot.BANK * snap.bank, keys.tags[snap.bank], snap.bytes, snap.digest)
  {
    hide Snapshot.Intact, Snapshot.Selected, Migrated, Xts.StackLawful;
    SelectedAtHome(m);
    var snap := Snapshot.Selected(home).value;
    Snapshot.SelectedIs(m, snap);
    var a, n := Snapshot.BANK * snap.bank, SnapshotSectors(snap.bytes);
    BankSlice(home, snap, m);
    Snapshot.IntactMoves(BankOf(home, snap), 0, m, a, keys.tags[snap.bank], snap.bytes, snap.digest);
  }

  lemma StagedThere(keys: Snapshot.BankKeys, home: seq<Sector>, snap: ManifestRecord, m: seq<Sector>)
    requires Snapshot.KeysOk(keys) && |m| == REGION && |home| == J_HOME && MigratesTo(keys, Legacy(home)).Some?
    requires Snapshot.Selected(home) == Some(snap) && snap.bank < 2 && snap.bytes in {Snapshot.SMALL, Snapshot.LARGE}
    requires m[J_START..J_START + SnapshotSectors(snap.bytes)] == BankOf(home, snap)
    ensures Snapshot.Intact(m, J_START, keys.tags[snap.bank], snap.bytes, snap.digest)
  {
    hide Snapshot.Intact, Snapshot.Selected, Migrated, Xts.StackLawful;
    var n := SnapshotSectors(snap.bytes);
    WholeSlice(BankOf(home, snap), n);
    Snapshot.IntactMoves(BankOf(home, snap), 0, m, J_START, keys.tags[snap.bank], snap.bytes, snap.digest);
  }

  /** Check the selected snapshot, stage it durably and check it again where it was staged. */
  method Prepare(dev: Device, keys: Snapshot.BankKeys, ghost home: seq<Sector>) returns (ok: bool, c: ControlRecord)
    requires Snapshot.KeysOk(keys) && Unmigrated(dev.disk, home)
    modifies dev`disk
    ensures Unmigrated(dev.disk, home) && dev.disk.reliable == old(dev.disk.reliable)
    ensures ok ==> AllSure(dev.disk, 0, REGION) && |dev.disk.live| == REGION && BodyValid(c) && c.state == MIGRATE
    ensures ok ==> MigratesTo(keys, Migrating(c.(number := 1), Staged(dev.disk.live, c))) == MigratesTo(keys, Legacy(home))
    ensures dev.disk.reliable && MigratesTo(keys, Legacy(home)).Some? ==> ok
  {
    hide Snapshot.Intact, Xts.StackLawful, MigratesTo, Unmigrated, DiskValid, Snapshot.Selected, AllSure, Newest;
    UnmigratedParts(dev.disk, home);
    ghost var good := MigratesTo(keys, Legacy(home)).Some?;
    if good {
      LegacyThere(keys, home, dev.disk.live);
    }
    c := ControlRecord(0, MIGRATE, 0, 0, 0, -1, []);
    var snap;
    ok, snap := FindSnapshot(dev.disk, keys);
    if !ok {
      return;
    }
    SelectedAtHome(dev.disk.live);
    Snapshot.SelectedIs(dev.disk.live, snap);
    var base := Snapshot.BANK * snap.bank;
    var digest;
    ok, digest := ReadBank(dev.disk, base, keys.layers[snap.bank], keys.tags[snap.bank], snap.bytes);
    if ok && good {
      Snapshot.DigestIfIntact(dev.disk.live, base, keys.tags[snap.bank], snap.bytes, digest, snap.digest);
    }
    if !ok || digest != snap.digest {
      return false, c;
    }
    ok := Stage(dev, base, SnapshotSectors(snap.bytes), home);
    UnmigratedParts(dev.disk, home);
    if !ok {
      return;
    }
    ghost var before := dev.disk;
    ok := dev.Sync();
    SyncedUnmigrated(before, dev.disk, home);
    if !ok {
      return;
    }
    UnmigratedParts(dev.disk, home);
    if good {
      StagedThere(keys, home, snap, dev.disk.live);
    }
    ok, digest := ReadBank(dev.disk, J_START, keys.layers[snap.bank], keys.tags[snap.bank], snap.bytes);
    if ok && good {
      Snapshot.DigestIfIntact(dev.disk.live, J_START, keys.tags[snap.bank], snap.bytes, digest, snap.digest);
    }
    if !ok || digest != snap.digest {
      return false, c;
    }
    c := ControlRecord(0, MIGRATE, 0, snap.bank, snap.bytes, -1, snap.digest);
    assert Staged(dev.disk.live, c) == BankOf(home, snap);
    StagedForSelected(keys, home, snap, c.(number := 1), Staged(dev.disk.live, c));
  }

  lemma SyncedUnmigrated(before: Disk, after: Disk, home: seq<Sector>)
    requires Unmigrated(before, home) && DiskValid(after)
    requires after == before || after == before.(durable := before.live, unsynced := map[])
    ensures Unmigrated(after, home)
  {
    hide MayBe, Newest;
    if after != before {
      SyncKeepsSure(before, after);
    }
  }

  /** Migrate the snapshot a region without records goes by. Cut anywhere, the region still
      stands for the same disk, by the snapshot, by its staged copy or by itself. */
  method MigrateStart(store: FidoStore, authorised: bool, keys: Snapshot.BankKeys) returns (ok: bool)
    requires Snapshot.KeysOk(keys) && store.Starting() && Newest(store.dev.disk.live) == Absent
    modifies store`slots, store`ready, store.auth, store.dev
    ensures store.Bound() && |store.slots| == SLOTS && LayoutOk(store.auth.layout, J_HOME)
    ensures YieldsOnly(store, keys, old(MigratesTo(keys, Legacy(store.dev.disk.live[..J_HOME])))) && store.dev.Reopenable()
    ensures ok ==> store.Working() && store.ready && !store.dev.recovering
    ensures ok ==> old(MigratesTo(keys, Legacy(store.dev.disk.live[..J_HOME]))) == Some(store.Image())
    ensures ok ==> |store.dev.home| == J_HOME && store.Seen(store.dev.home) == store.Image()
    ensures ok ==> RecoversTo(store.dev.disk, {Home(store.dev.home)})
    ensures authorised && old(store.dev.disk.reliable && MigratesTo(keys, Legacy(store.dev.disk.live[..J_HOME])).Some?) ==> ok
  {
    hide Snapshot.Intact, Xts.StackLawful, LayoutOk, IsHomeLayout, Recover, RecoversTo, MigratesTo, YieldsOnly, OrDone, Newest, Openable;
    hide DiskValid, Unmigrated, Snapshot.Selected, AllSure, Device.Valid, Device.Contents, Plain;
    ghost var home := store.dev.disk.live[..J_HOME];
    ghost var want := MigratesTo(keys, Legacy(home));
    StartsUnmigrated(store.dev.disk);
    StillLegacy(store, keys, home);
    var c;
    ok, c := Prepare(store.dev, keys, home);
    StillLegacy(store, keys, home);
    UnmigratedOpens(store.dev.disk, home);
    if !ok {
      return;
    }
    UnmigratedParts(store.dev.disk, home);
    ghost var staged := Staged(store.dev.disk.live, c);
    ok := store.dev.BeginMigration(c);
    AnnouncedYields(store, keys, home, c.(number := 1), staged);
    if !ok {
      return;
    }
    store.EmptyWorks();
    ok := MigrateFinish(store, authorised, keys, c.(number := 1));
    OrDoneYields(store, keys, Migrating(c.(number := 1), staged));
  }

  lemma NoneFromBroken(layers: seq<Xts.Cipher>, l: Layout, key: nat, keys: Snapshot.BankKeys, r: Recovered)
    requires Xts.StackLawful(layers) && LayoutOk(l, J_HOME) && Snapshot.KeysOk(keys)
    ensures r.Broken? ==> Yields(layers, l, key, keys, r).None?
  {
  }

  /** Open the store, whatever was under way when power was lost: a committed transaction is
      replayed, an announced reset or migration finished, an older store migrated. However
      often opening is cut, the next one gives the same disk. */
  method OpenStore(store: FidoStore, authorised: bool, keys: Snapshot.BankKeys) returns (ok: bool)
    requires Snapshot.KeysOk(keys) && store.Starting()
    modifies store`slots, store`ready, store.auth, store.dev
    ensures store.Bound() && |store.slots| == SLOTS && LayoutOk(store.auth.layout, J_HOME)
    ensures ok == store.ready && (ok ==> authorised && store.Working() && !store.dev.recovering)
    ensures store.dev.Reopenable()
    ensures ok ==> |store.dev.home| == J_HOME && store.Seen(store.dev.home) == store.Image()
    ensures ok ==> RecoversTo(store.dev.disk, {Home(store.dev.home)})
    ensures var want := old(Yields(store.layers, store.auth.layout, store.auth.key, keys, Recover(store.dev.disk.live)));
      && YieldsOnly(store, keys, want) && (ok ==> want == Some(store.Image()))
      && (authorised && want.Some? && old(store.dev.disk.reliable && Number(Newest(store.dev.disk.live)) + 2 <= UINT64_MAX) ==> ok)
  {
    hide Xts.StackLawful, LayoutOk, IsHomeLayout, Plain, RecoversTo, BlankDisk, FidoStore.RecoversOrHolds, AllSure, Device.Contents, Openable;
    hide Device.Valid, MigratesTo, YieldsOnly, OrDone, DiskValid, Newest, ReplayOk, View;
    ghost var r := Recover(store.dev.disk.live);
    ghost var want := Yields(store.layers, store.auth.layout, store.auth.key, keys, r);
    if !authorised {
      OpenableRecovers(store.dev.disk);
      RecoversYields(store, keys, {r}, want);
      store.Fail();
      return false;
    }
    NoneFromBroken(store.layers, store.auth.layout, store.auth.key, keys, r);
    var found;
    ok, found := store.dev.Open();
    RecoversYields(store, keys, {r}, want);
    if !ok {
      store.Fail();
      return;
    }
    if found.Absent? {
      ok := MigrateStart(store, authorised, keys);
    } else {
      store.EmptyWorks();
      store.SeenNow();
      if found.record.state == RESET {
        store.NewestPolicy(found.record);
        ok := store.FinishReset(authorised, found.record.policy);
        HoldsYields(store, keys, {r}, BlankDisk(found.record.policy));
      } else if found.record.state == MIGRATE {
        ok := MigrateFinish(store, authorised, keys, found.record);
        OrDoneYields(store, keys, r);
      } else {
        store.StillRecovers();
      }
    }
    if !ok {
      store.Fail();
    }
  }
}
