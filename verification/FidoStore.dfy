// The FIDO engine's byte-addressed disk (src/shared/fido/store.c:359-474): encrypted sectors
// in an authenticated store, over the journal's overlay, behind a small plaintext cache.
module FidoStore {
  import opened Bytes
  import opened Card
  import opened BlockDevice
  import opened AuthStore
  import Medium = AuthStore
  import opened Limits
  import opened Options
  import FreshDisk
  import ImageUpgrade
  import Xts

  const DISK_BYTES: nat := 843776
  const SECTOR: nat := 512
  const BATCH: nat := 8
  const SLOTS: nat := 8

  /** The home region holds tags, then data, and no bitmap. */
  predicate IsHomeLayout(l: Layout) {
    l.blocks == J_DATA && l.bitmapBase == l.bitmapBlocks == 0
  }

  lemma HomeLayoutFits(blocks: nat)
    requires blocks == J_DATA
    ensures var l := LayoutAt(false, 0, blocks); IsHomeLayout(l) && LayoutOk(l, J_HOME)
  {
  }

  datatype Slot = Vacant | Holding(lba: nat, bytes: seq<byte>)

  /** The plaintext of a sector, if it can be read at all. */
  ghost function PlainOf(layers: seq<Xts.Cipher>, s: Stored, lba: nat): (p: Option<seq<byte>>)
    requires Xts.StackLawful(layers)
    ensures p.Some? ==> |p.value| == SECTOR
  {
    if s.Written? && |s.cipher| == SECTOR && lba <= UINT64_MAX then Some(Xts.Decrypted(layers, lba, s.cipher)) else None
  }

  ghost function ByteAt(layers: seq<Xts.Cipher>, contents: seq<Stored>, i: nat): Option<byte>
    requires Xts.StackLawful(layers) && i / SECTOR < |contents|
  {
    var p := PlainOf(layers, contents[i / SECTOR], i / SECTOR);
    if p.Some? then Some(p.value[i % SECTOR]) else None
  }

  /** The store as one array of bytes; a byte that cannot be read is None. */
  ghost function Plain(layers: seq<Xts.Cipher>, contents: seq<Stored>): (r: seq<Option<byte>>)
    requires Xts.StackLawful(layers)
    ensures |r| == SECTOR * |contents|
    ensures forall i: nat :: i < |r| ==> r[i] == ByteAt(layers, contents, i)
  {
    seq(SECTOR * |contents|, i requires 0 <= i < SECTOR * |contents| => ByteAt(layers, contents, i))
  }

  /** s with data written over it at offset. */
  function Patched(s: seq<Option<byte>>, offset: nat, data: seq<byte>): (r: seq<Option<byte>>)
    requires offset + |data| <= |s|
    ensures |r| == |s|
    ensures forall i :: 0 <= i < |s| ==> r[i] == if offset <= i < offset + |data| then Some(data[i - offset]) else s[i]
  {
    s[..offset] + seq(|data|, i requires 0 <= i < |data| => Some(data[i])) + s[offset + |data|..]
  }

  /** Writing the encryption of p to a sector changes exactly its 512 bytes. */
  lemma SectorPatch(layers: seq<Xts.Cipher>, contents: seq<Stored>, lba: nat, p: seq<byte>)
    requires Xts.StackLawful(layers) && lba < |contents| && lba <= UINT64_MAX && |p| == SECTOR
    ensures PlainOf(layers, Written(Xts.Encrypted(layers, lba, p)), lba) == Some(p)
    ensures Plain(layers, Overwritten(contents, lba, [Xts.Encrypted(layers, lba, p)]))
         == Patched(Plain(layers, contents), SECTOR * lba, p)
  {
    hide Xts.Encrypted, Xts.Decrypted, Xts.StackLawful;
    Xts.StackRoundTrip(layers, lba, p);
    var after := Overwritten(contents, lba, [Xts.Encrypted(layers, lba, p)]);
    forall i: nat | i < SECTOR * |contents|
      ensures ByteAt(layers, after, i) == Patched(Plain(layers, contents), SECTOR * lba, p)[i]
    {
      if i / SECTOR == lba {
        assert i == SECTOR * lba + i % SECTOR;
      }
    }
  }

  /** Every cached plaintext is what its sector decrypts to. */
  ghost predicate CacheOf(layers: seq<Xts.Cipher>, slots: seq<Slot>, contents: seq<Stored>)
    requires Xts.StackLawful(layers) && |contents| == J_DATA
  {
    forall k :: 0 <= k < |slots| && slots[k].Holding? ==>
      && slots[k].lba < J_DATA && slots[k].lba % SLOTS == k
      && PlainOf(layers, contents[slots[k].lba], slots[k].lba) == Some(slots[k].bytes)
  }

  lemma CacheWithout(layers: seq<Xts.Cipher>, slots: seq<Slot>, contents: seq<Stored>, lba: nat, c: seq<byte>)
    requires Xts.StackLawful(layers) && |contents| == J_DATA && |slots| == SLOTS && lba < J_DATA && CacheOf(layers, slots, contents)
    ensures CacheOf(layers, slots[lba % SLOTS := Vacant], Overwritten(contents, lba, [c]))
  {
    hide Xts.StackLawful, PlainOf;
  }

  class FidoStore {
    const layers: seq<Xts.Cipher>
    const dev: Device
    const auth: AuthStore
    var slots: seq<Slot>
    var ready: bool

    /** Nothing is read yet. */
    constructor Bind(dev: Device, layers: seq<Xts.Cipher>, key: nat)
      requires dev.overlay && Xts.StackLawful(layers) && 0 < |layers| <= Xts.MAX_STACK
      ensures this.dev == dev && this.layers == layers && auth.key == key && fresh(auth)
      ensures Bound() && slots == Vacated() && ready && LayoutOk(auth.layout, J_HOME)
      ensures auth.ready && auth.cache == [] && auth.initialised == [] && !auth.bitmapCached
    {
      hide LayoutOk, LayoutAt, IsHomeLayout, Xts.StackLawful;
      var blocks := J_DATA;
      HomeLayoutFits(blocks);
      this.dev, this.layers := dev, layers;
      auth := new AuthStore.Open(false, dev, 0, blocks, key);
      slots, ready := Vacated(), true;
    }

    /** How the parts are wired together. */
    ghost predicate Bound() {
      && dev.overlay && auth.dev == dev && IsHomeLayout(auth.layout)
      && Xts.StackLawful(layers) && 0 < |layers| <= Xts.MAX_STACK
    }

    ghost predicate Working()
      reads this, auth, dev
    {
      Bound() && |slots| == SLOTS && auth.Valid() && auth.ready && CacheAgrees()
    }

    ghost predicate CacheAgrees()
      requires Bound() && auth.Attached()
      reads this, auth, dev
    {
      CacheOf(layers, slots, auth.Contents())
    }

    ghost predicate Valid()
      reads this, auth, dev
    {
      Bound() && |slots| == SLOTS && (ready ==> Working())
    }

    /** The disk as the engine sees it. */
    ghost function Image(): (r: seq<Option<byte>>)
      requires Working()
      reads this, auth, dev
      ensures |r| == DISK_BYTES
    {
      Plain(layers, auth.Contents())
    }

    /** One sector's plaintext, from the cache or decrypted after authentication. */
    method ReadSector(lba: nat, p: array<byte>) returns (ok: bool)
      requires Working() && lba < J_DATA && p.Length == SECTOR
      modifies this`slots, auth, p
      ensures Bound() && |slots| == SLOTS && auth.Valid() && (ok ==> Working())
      ensures ok ==> auth.Contents() == old(auth.Contents())
      ensures ok ==> PlainOf(layers, auth.Contents()[lba], lba) == Some(p[..])
      ensures dev.disk.reliable && old(PlainOf(layers, auth.Contents()[lba], lba)).Some? ==> ok
    {
      hide Xts.Decrypted, Xts.StackLawful, LayoutOk, Device.Valid, Device.Contents, Device.Settled, DiskValid, IsHomeLayout;
      hide AuthStore.BitmapAgrees, AuthStore.BitsAgree, AuthStore.TagsAgree;
      HomeSectors(auth.layout);
      var slot := lba % SLOTS;
      if slots[slot].Holding? && slots[slot].lba == lba {
        Fill(p, slots[slot].bytes);
        return true;
      }
      var r, data, unset := auth.ReadBatch(lba, 1);
      if r == Okay {
        assert InRange(lba, 1, lba);
      }
      if r != Okay || unset[0] || |data[0]| != SECTOR {
        return false;
      }
      Fill(p, data[0]);
      assert p[0..SECTOR] == p[..];
      ok := Xts.Run(layers, lba, p, 0, p, 0, false);
      assert p[0..SECTOR] == p[..];
      slots := slots[slot := Holding(lba, p[..])];
    }

    method Fill(p: array<byte>, bytes: seq<byte>)
      requires p.Length == |bytes|
      modifies p
      ensures p[..] == bytes
    {
      for i := 0 to p.Length
        invariant forall k :: 0 <= k < i ==> p[k] == bytes[k]
      {
        p[i] := bytes[i];
      }
    }

    /** Encrypt p in place and store it; its cached plaintext is dropped first. */
    method WriteSector(lba: nat, p: array<byte>) returns (ok: bool)
      requires Working() && lba < J_DATA && p.Length == SECTOR
      modifies this`slots, auth, p, dev`disk, dev`count, dev`targets
      ensures Bound() && |slots| == SLOTS && auth.Valid() && (ok ==> Working())
      ensures ok ==> Image() == Patched(old(Image()), SECTOR * lba, old(p[..]))
      ensures dev.disk.reliable == old(dev.disk.reliable) && (dev.disk.reliable && old(dev.Room(2)) ==> ok)
      ensures dev.count <= old(dev.count) + 2
    {
      hide CacheOf, PlainOf, Plain;
      hide Xts.Decrypted, Xts.Encrypted, Xts.StackLawful, LayoutOk, Device.Valid, Device.Contents, Device.Settled, DiskValid;
      hide AuthStore.BitmapAgrees, AuthStore.BitsAgree, AuthStore.TagsAgree, KeepsSince, Since, Updated, IsHomeLayout;
      ghost var plain, contents := p[..], auth.Contents();
      HomeSectors(auth.layout);
      CacheWithout(layers, slots, contents, lba, Xts.Encrypted(layers, lba, plain));
      slots := slots[lba % SLOTS := Vacant];
      assert p[0..SECTOR] == p[..];
      ok := Xts.Run(layers, lba, p, 0, p, 0, true);
      assert p[0..SECTOR] == p[..];
      var r := auth.Write(lba, [p[..]]);
      if r != Okay {
        return false;
      }
      SectorPatch(layers, contents, lba, plain);
    }

    lemma StillRecovers()
      requires Bound() && auth.Valid()
      ensures dev.Settled() && (!dev.recovering ==> RecoversTo(dev.disk, {Home(dev.home)}))
      ensures DiskValid(dev.disk) && |dev.disk.live| == REGION
    {
      hide Xts.StackLawful, LayoutOk, IsHomeLayout;
      dev.HomeRecovers();
    }

    lemma SizedNow()
      requires Working()
      ensures DiskValid(dev.disk) && |dev.disk.live| == REGION && dev.Valid()
    {
      dev.Sized();
    }

    method Fail()
      modifies this`ready
      ensures !ready
    {
      ready := false;
    }

    method Fetch(lba: nat, p: array<byte>) returns (ok: bool)
      requires Working() && lba < J_DATA && p.Length == SECTOR
      modifies this`slots, auth, p
      ensures Bound() && |slots| == SLOTS && auth.Valid() && (ok ==> Working())
      ensures ok ==> Image() == old(Image())
      ensures ok ==> forall k :: 0 <= k < SECTOR ==> Image()[SECTOR * lba + k] == Some(p[k])
      ensures dev.disk.reliable && old(SectorReads(lba)) ==> ok
    {
      hide Xts.StackLawful, PlainOf, Plain, CacheAgrees, Device.Valid, Device.Contents, Device.Settled, DiskValid, LayoutOk;
      HomeSectors(auth.layout);
      ok := ReadSector(lba, p);
      if ok {
        SectorBytes(layers, auth.Contents(), lba, p[..]);
      }
    }

    /** Some byte of the sector can be read, and so all of it. */
    ghost predicate SectorReads(lba: nat)
      requires Working() && lba < J_DATA
      reads this, auth, dev
    {
      PlainOf(layers, auth.Contents()[lba], lba).Some?
    }

    lemma ByteReads(offset: nat)
      requires Working() && offset < DISK_BYTES
      ensures Image()[offset].Some? <==> SectorReads(offset / SECTOR)
    {
      hide Xts.StackLawful, CacheAgrees;
      assert Image()[offset] == ByteAt(layers, auth.Contents(), offset);
    }

    /** Read part of one sector. */
    method ReadChunk(offset: nat, n: nat) returns (ok: bool, out: seq<byte>)
      requires Working() && offset < DISK_BYTES && n <= SECTOR - offset % SECTOR
      modifies this`slots, auth
      ensures Bound() && |slots| == SLOTS && auth.Valid() && (ok ==> Working() && Image() == old(Image()))
      ensures ok ==> |out| == n && offset + n <= DISK_BYTES
      ensures ok ==> forall i :: 0 <= i < n ==> Image()[offset + i] == Some(out[i])
      ensures dev.disk.reliable && old(Image()[offset]).Some? ==> ok
    {
      hide Working, Image, Bound, AuthStore.Valid, SectorReads;
      ByteReads(offset);
      var lba, at := offset / SECTOR, offset % SECTOR;
      var p := new byte[SECTOR];
      ok := Fetch(lba, p);
      out := p[at..at + n];
      if ok {
        ChunkReads(Image(), lba, p[..], at, out);
      }
    }

    method Insert(p: array<byte>, at: nat, chunk: seq<byte>)
      requires at + |chunk| <= p.Length
      modifies p
      ensures p[..] == old(p[..])[..at] + chunk + old(p[..])[at + |chunk|..]
    {
      for k := 0 to |chunk|
        invariant forall i :: 0 <= i < p.Length ==> p[i] == if at <= i < at + k then chunk[i - at] else old(p[i])
      {
        p[at + k] := chunk[k];
      }
    }

    /** Read a sector, change part of it and write it back. */
    method WriteChunk(offset: nat, chunk: seq<byte>) returns (ok: bool)
      requires Working() && offset < DISK_BYTES && |chunk| <= SECTOR - offset % SECTOR
      modifies this`slots, auth, dev`disk, dev`count, dev`targets
      ensures Bound() && |slots| == SLOTS && auth.Valid() && (ok ==> Working())
      ensures ok ==> offset + |chunk| <= |old(Image())| && Image() == Patched(old(Image()), offset, chunk)
      ensures dev.disk.reliable == old(dev.disk.reliable)
      ensures dev.disk.reliable && old(dev.Room(2)) && old(Image()[offset]).Some? ==> ok
      ensures dev.count <= old(dev.count) + 2
    {
      hide Working, Image, Bound, AuthStore.Valid, Patched, Device.Valid, Device.Room, AuthStore.Contents, IsHomeLayout;
      ByteReads(offset);
      var lba, at := offset / SECTOR, offset % SECTOR;
      ghost var image := Image();
      var p := new byte[SECTOR];
      ok := Fetch(lba, p);
      if !ok {
        return;
      }
      ghost var was := p[..];
      Insert(p, at, chunk);
      ChunkPatch(image, lba, was, at, chunk);
      ok := WriteSector(lba, p);
    }

    ghost predicate ReadableAt(offset: nat, n: nat)
      requires Valid() && ready && offset + n <= DISK_BYTES
      reads this, auth, dev
    {
      forall i: nat :: offset <= i < offset + n ==> Image()[i].Some?
    }

    /** Read bytes [offset, offset + n). The device must still be authorised. */
    method Read(authorised: bool, offset: nat, n: nat) returns (ok: bool, out: seq<byte>)
      requires Valid()
      modifies this`slots, this`ready, auth
      ensures Valid() && ready == ok
      ensures ok ==> old(ready) && authorised && offset + n <= DISK_BYTES && |out| == n && Image() == old(Image())
      ensures ok ==> forall i :: 0 <= i < n ==> Image()[offset + i] == Some(out[i])
      ensures old(ready) && !dev.recovering ==> RecoversTo(dev.disk, {Home(dev.home)})
      ensures old(ready) && authorised && offset + n <= DISK_BYTES && dev.disk.reliable && old(ReadableAt(offset, n)) ==> ok
    {
      hide Image, RecoversTo, AuthStore.Valid, CacheAgrees, Xts.StackLawful, IsHomeLayout, Device.Settled;
      out := [];
      if ready {
        StillRecovers();
      }
      if !ready || !authorised || offset > DISK_BYTES || n > DISK_BYTES - offset {
        Fail();
        return false, out;
      }
      var done := 0;
      ghost var readable := ReadableAt(offset, n);
      while done < n
        invariant 0 <= done <= n == done + (n - done) && |out| == done && ready && Working() && Image() == old(Image())
        invariant forall i :: 0 <= i < done ==> Image()[offset + i] == Some(out[i])
        invariant readable ==> forall i: nat :: offset <= i < offset + n ==> Image()[i].Some?
      {
        var take := SECTOR - (offset + done) % SECTOR;
        if take > n - done {
          take := n - done;
        }
        var part;
        ok, part := ReadChunk(offset + done, take);
        if !ok {
          Fail();
          return;
        }
        out, done := out + part, done + take;
      }
      ok := true;
    }

    /** Write bytes at offset: the disk is then exactly the old one with them in place, and
        until a commit nothing a power loss would recover has changed. */
    method Write(authorised: bool, offset: nat, data: seq<byte>) returns (ok: bool)
      requires Valid()
      modifies this`slots, this`ready, auth, dev`disk, dev`count, dev`targets
      ensures Valid() && ready == ok && dev.disk.reliable == old(dev.disk.reliable)
      ensures ok ==> old(ready) && authorised && offset + |data| <= DISK_BYTES
      ensures ok ==> offset + |data| <= |old(Image())| && Image() == Patched(old(Image()), offset, data)
      ensures old(ready) ==> dev.Settled()
      ensures !old(ready) ==> dev.disk == old(dev.disk)
      ensures old(ready) && !dev.recovering ==> RecoversTo(dev.disk, {Home(dev.home)})
      // Each sector it touches takes up to two places of the log: its ciphertext and its tag.
      ensures (old(ready) && authorised && offset + |data| <= DISK_BYTES && dev.disk.reliable
               && old(dev.Room(2 * Sectors(offset, |data|))) && old(ReadableAt(offset, |data|))) ==> ok
      ensures dev.count <= old(dev.count) + 2 * Sectors(offset, |data|)
    {
      hide Image, RecoversTo, AuthStore.Valid, CacheAgrees, Xts.StackLawful, IsHomeLayout, Device.Settled, Patched;
      if ready {
        StillRecovers();
      }
      if !ready || !authorised || offset > DISK_BYTES || |data| > DISK_BYTES - offset {
        Fail();
        return false;
      }
      ok := WriteChunks(offset, data);
      StillRecovers();
      if !ok {
        Fail();
      }
    }

    /** Write sector by sector. */
    method WriteChunks(offset: nat, data: seq<byte>) returns (ok: bool)
      requires Working() && ready && offset + |data| <= DISK_BYTES
      modifies this`slots, auth, dev`disk, dev`count, dev`targets
      ensures Bound() && |slots| == SLOTS && auth.Valid() && (ok ==> Working())
      ensures ok ==> offset + |data| <= |old(Image())| && Image() == Patched(old(Image()), offset, data)
      ensures dev.disk.reliable == old(dev.disk.reliable)
      ensures dev.disk.reliable && old(dev.Room(2 * Sectors(offset, |data|))) && old(ReadableAt(offset, |data|)) ==> ok
      ensures dev.count <= old(dev.count) + 2 * Sectors(offset, |data|)
    {
      hide Image, AuthStore.Valid, CacheAgrees, Xts.StackLawful, IsHomeLayout, Device.Settled, Patched;
      ghost var image := Image();
      var done := 0;
      PatchNone(image, offset);
      while done < |data|
        invariant 0 <= done <= |data| && Working() && dev.disk.reliable == old(dev.disk.reliable)
        invariant Image() == Patched(image, offset, data[..done])
        invariant dev.count <= old(dev.count) + 2 * Sectors(offset, done)
        invariant 0 < done < |data| ==> (offset + done) % SECTOR == 0
      {
        SectorsNext(offset, done, |data|);
        var take := SECTOR - (offset + done) % SECTOR;
        if take > |data| - done {
          take := |data| - done;
        }
        PatchAfter(image, offset, data[..done]);
        ok := WriteChunk(offset + done, data[done..done + take]);
        if !ok {
          return;
        }
        PatchMore(image, offset, data, done, take);
        done := done + take;
      }
      assert data[..|data|] == data;
      ok := true;
    }

    /** The disk the engine would see if this were the home region. */
    ghost function Seen(home: seq<Sector>): seq<Option<byte>>
      requires Bound() && |home| == J_HOME && LayoutOk(auth.layout, J_HOME)
    {
      Plain(layers, Medium.Image(home, auth.layout, auth.key))
    }

    lemma SeenNow()
      requires Working()
      ensures LayoutOk(auth.layout, J_HOME) && |dev.Contents()| == J_HOME && Seen(dev.Contents()) == Image()
    {
      hide Xts.StackLawful, CacheAgrees;
    }

    /** Drop both caches. */
    method Forget()
      requires Working()
      modifies this`slots, auth`cache, auth`initialised
      ensures Working() && Image() == old(Image()) && auth.Contents() == old(auth.Contents())
      ensures slots == Vacated() && auth.cache == [] && auth.initialised == [] && !auth.bitmapCached
    {
      hide Xts.StackLawful, LayoutOk, Device.Valid, Device.Contents;
      auth.cache, auth.initialised := [], [];
      slots := Vacated();
    }

    /** Make everything written so far permanent, all of it or none. */
    method Commit(authorised: bool) returns (ok: bool)
      requires Valid() && (ready ==> !dev.recovering)
      modifies this`ready, auth`cache, auth`initialised, dev
      ensures Valid() && ready == ok && (ready ==> !dev.recovering)
      ensures ok ==> old(ready) && authorised && Image() == old(Image())
      ensures ok ==> LayoutOk(auth.layout, J_HOME) && |dev.home| == J_HOME && Seen(dev.home) == Image()
      ensures ok ==> RecoversTo(dev.disk, {Home(dev.home)})
      ensures old(ready) ==> DiskValid(dev.disk) && |dev.disk.live| == REGION && dev.Reopenable()
      ensures old(ready) ==> RecoversTo(dev.disk, {Home(old(dev.home)), Home(old(dev.Contents()))})
      ensures !old(ready) ==> dev.disk == old(dev.disk) && dev.doubtful == old(dev.doubtful)
      ensures old(ready && authorised && dev.disk.reliable) ==> (ok <==> old(dev.count) == 0 || old(dev.sequence) + 2 <= UINT64_MAX)
    {
      hide Xts.StackLawful, LayoutOk, IsHomeLayout, Device.Contents, Device.Valid, RecoversTo, Plain, Openable;
      if !ready {
        return false;
      }
      StillRecovers();
      dev.SettledReopens();
      AlsoRecovers(dev.disk, Home(dev.home), Home(dev.Contents()));
      if !authorised {
        Fail();
        return false;
      }
      SeenNow();
      ok := dev.Commit();
      if !ok {
        Fail();
        return;
      }
      auth.cache, auth.initialised := [], [];
      dev.Usable();
      SeenNow();
    }

    /** One batch of the blank image, encrypted for the sectors from first on. */
    method BlankBatch(first: nat) returns (ok: bool, data: seq<seq<byte>>)
      requires Bound() && first + BATCH <= J_DATA
      ensures ok && |data| == BATCH && forall k :: 0 <= k < BATCH ==> data[k] == Xts.Encrypted(layers, first + k, BlankSector())
    {
      hide Xts.Encrypted, Xts.Decrypted, Xts.StackLawful;
      var p := new byte[BATCH * SECTOR](_ => 255);
      data := [];
      ok := true;
      for k := 0 to BATCH
        invariant ok && |data| == k
        invariant forall i :: SECTOR * k <= i < p.Length ==> p[i] == 255
        invariant forall j :: 0 <= j < k ==> data[j] == Xts.Encrypted(layers, first + j, BlankSector())
      {
        assert p[SECTOR * k..SECTOR * k + SECTOR] == BlankSector();
        ok := Xts.Run(layers, first + k, p, SECTOR * k, p, SECTOR * k, true);
        data := data + [p[SECTOR * k..SECTOR * k + SECTOR]];
      }
    }

    /** Fill the whole disk with ones. */
    method BlankSectors() returns (ok: bool)
      requires Working() && auth.Contents() == seq(J_DATA, x => Unset)
      modifies auth, dev`disk, dev`count, dev`targets
      ensures Bound() && auth.Valid() && (ok ==> auth.ready) && dev.disk.reliable == old(dev.disk.reliable)
      ensures dev.disk.reliable && dev.recovering ==> ok
      ensures ok ==> forall k: nat :: k < J_DATA ==> auth.Contents()[k] == Written(Xts.Encrypted(layers, k, BlankSector()))
    {
      hide Xts.Encrypted, Xts.StackLawful, LayoutOk, Device.Valid, Device.Contents, Device.Settled, DiskValid, CacheAgrees;
      hide AuthStore.BitmapAgrees, AuthStore.BitsAgree, AuthStore.TagsAgree, KeepsSince, Since, Updated, IsHomeLayout, AuthStore.Contents;
      HomeSectors(auth.layout);
      var i := 0;
      while i < J_DATA
        invariant 0 <= i <= J_DATA && i % BATCH == 0 && auth.Valid() && auth.ready && |auth.Contents()| == J_DATA
        invariant dev.disk.reliable == old(dev.disk.reliable)
        invariant forall k: nat :: k < i ==> auth.Contents()[k] == Written(Xts.Encrypted(layers, k, BlankSector()))
      {
        var data;
        ok, data := BlankBatch(i);
        var r := auth.Write(i, data);
        if r != Okay {
          return false;
        }
        i := i + BATCH;
      }
      ok := true;
    }

    ghost predicate AllWritten()
      requires Bound() && auth.Attached()
      reads this, auth, dev
    {
      forall k: nat :: k < J_DATA ==> auth.Contents()[k].Written?
    }

    lemma NotAllWritten(lba: nat, data: seq<seq<byte>>, unset: seq<bool>)
      requires Bound() && auth.Attached() && lba + |data| <= J_DATA && auth.ReadRight(lba, data, unset) && true in unset
      ensures !AllWritten()
    {
      hide Xts.StackLawful, LayoutOk;
      var k: nat :| k < |unset| && unset[k];
      assert InRange(lba, |data|, lba + k);
    }

    lemma CorruptNotWritten(lba: nat, n: nat)
      requires Bound() && auth.Attached() && lba + n <= J_DATA && auth.SomeCorrupt(lba, n)
      ensures !AllWritten()
    {
      hide Xts.StackLawful, LayoutOk;
    }

    /** Every byte of the disk can be read exactly when every sector is whole. */
    lemma ReadableWritten()
      requires Working() && (forall i: nat :: i < DISK_BYTES ==> Image()[i].Some?)
      ensures AllWritten()
    {
      hide Xts.StackLawful, LayoutOk, CacheAgrees;
      forall k: nat | k < J_DATA
        ensures auth.Contents()[k].Written?
      {
        assert Image()[SECTOR * k] == ByteAt(layers, auth.Contents(), SECTOR * k);
      }
    }

    /** Authenticate every sector straight from the medium. */
    method VerifyHome() returns (ok: bool)
      requires Working()
      modifies this`slots, auth
      ensures Bound() && |slots| == SLOTS && auth.Valid() && (ok ==> Working() && Image() == old(Image()))
      ensures ok ==> forall k: nat :: k < J_DATA ==> auth.Contents()[k].Written?
      ensures dev.disk.reliable && old(AllWritten()) ==> ok
    {
      hide Xts.StackLawful, LayoutOk, Device.Valid, Device.Contents, Device.Settled, DiskValid;
      hide AuthStore.BitmapAgrees, AuthStore.BitsAgree, AuthStore.TagsAgree, IsHomeLayout, AuthStore.SomeCorrupt;
      ghost var written := AllWritten();
      HomeSectors(auth.layout);
      ghost var contents := auth.Contents();
      Forget();
      var i := 0;
      while i < J_DATA
        invariant 0 <= i <= J_DATA && i % BATCH == 0 && slots == Vacated()
        invariant auth.Valid() && auth.ready && auth.Contents() == contents && AllWritten() == written
        invariant forall k: nat :: k < i ==> contents[k].Written?
      {
        var r, data, unset := auth.ReadBatch(i, BATCH);
        if r != Okay || true in unset {
          if r == Okay {
            NotAllWritten(i, data, unset);
          } else if r == IntegrityError {
            CorruptNotWritten(i, BATCH);
          }
          return false;
        }
        forall k: nat | i <= k < i + BATCH
          ensures contents[k].Written?
        {
          assert InRange(i, BATCH, k) && !unset[k - i];
        }
        i := i + BATCH;
      }
      ok := true;
    }

    lemma VacantWorks()
      requires Bound() && slots == Vacated() && auth.Valid() && auth.ready
      ensures Working()
    {
      hide Xts.StackLawful, LayoutOk, Device.Valid, Device.Contents, IsHomeLayout;
    }

    lemma EmptyWorks()
      requires Bound() && slots == Vacated() && dev.Valid() && LayoutOk(auth.layout, J_HOME)
      requires auth.ready && auth.cache == [] && auth.initialised == [] && !auth.bitmapCached
      ensures Working()
    {
      hide Xts.StackLawful, IsHomeLayout;
    }

    lemma BlankImage()
      requires Working() && forall k: nat :: k < J_DATA ==> auth.Contents()[k] == Written(Xts.Encrypted(layers, k, BlankSector()))
      ensures Image() == BlankDisk(-1)
    {
      hide Xts.StackLawful, LayoutOk, Device.Valid, Device.Contents, Xts.Encrypted, Xts.Decrypted, CacheAgrees;
      forall i: nat | i < DISK_BYTES
        ensures Image()[i] == Some(255 as byte)
      {
        var k := i / SECTOR;
        Xts.StackRoundTrip(layers, k, BlankSector());
        assert auth.Contents()[k] == Written(Xts.Encrypted(layers, k, BlankSector()));
        assert Image()[i] == ByteAt(layers, auth.Contents(), i);
      }
    }

    /** The resident key that keeps the verification policy across a reset. */
    method WritePolicy(authorised: bool, policy: nat) returns (ok: bool)
      requires Working() && ready && policy <= 1
      modifies this`slots, this`ready, auth, dev`disk, dev`count, dev`targets
      ensures Bound() && |slots| == SLOTS && dev.Settled() && dev.disk.reliable == old(dev.disk.reliable)
      ensures ok ==> Working() && ready && Image() == WithPolicy(old(Image()), policy)
      ensures dev.disk.reliable && dev.recovering && authorised && old(ReadableAt(0, DISK_BYTES)) ==> ok
      ensures ok && old(ReadableAt(0, DISK_BYTES)) ==> ReadableAt(0, DISK_BYTES)
    {
      hide Image, Patched, AuthStore.Valid, CacheAgrees, Xts.StackLawful, IsHomeLayout, Device.Settled;
      ghost var image := Image();
      ok := Write(authorised, ROM_LIST, Zeros(12));
      if !ok {
        return;
      }
      PatchReadable(image, ROM_LIST, Zeros(12));
      image := Image();
      ok := Write(authorised, POLICY_RECORD, PolicyRecord(policy));
      if !ok {
        return;
      }
      PatchReadable(image, POLICY_RECORD, PolicyRecord(policy));
      image := Image();
      ok := Write(authorised, DATA_LIST, Little(4096 + POLICY_RECORD, 4) + Zeros(4));
      PatchReadable(image, DATA_LIST, Little(4096 + POLICY_RECORD, 4) + Zeros(4));
    }

    method SyncHome() returns (ok: bool)
      requires Working()
      modifies dev`disk
      ensures dev.Settled() && dev.disk.reliable == old(dev.disk.reliable)
      ensures ok ==> Working() && Image() == old(Image()) && AllSure(dev.disk, 0, REGION)
      ensures dev.disk.reliable ==> ok
    {
      hide Xts.StackLawful, LayoutOk, IsHomeLayout;
      ok := dev.Sync();
    }

    /** Another user of the card syncs it. */
    method CardSync() returns (ok: bool)
      requires Valid() && DiskValid(dev.disk)
      modifies dev`disk, dev`doubtful
      ensures Valid() && (ready ==> Image() == old(Image()))
      ensures dev.disk == if ok then old(dev.disk).(durable := old(dev.disk.live), unsynced := map[]) else old(dev.disk)
      ensures DiskValid(dev.disk) && (ok ==> AllSure(dev.disk, 0, |dev.disk.live|))
      ensures dev.doubtful == (old(dev.doubtful) && !ok)
    {
      hide Xts.StackLawful, LayoutOk, IsHomeLayout, Plain, Device.Contents, Device.Settled;
      ok := dev.SyncedFromOutside();
    }

    /** Rebuild the disk in place: all ones, and the kept policy if there is one. */
    method Blank(authorised: bool, policy: int) returns (ok: bool)
      requires Working() && ready && dev.recovering && policy <= 1
      modifies this`slots, this`ready, auth, dev`disk, dev`count, dev`targets
      ensures Bound() && |slots| == SLOTS && dev.Settled() && dev.disk.reliable == old(dev.disk.reliable)
      ensures ok ==> Working() && ready && AllSure(dev.disk, 0, REGION) && Image() == BlankDisk(policy)
      ensures dev.disk.reliable && (policy >= 0 ==> authorised) ==> ok
    {
      hide Xts.StackLawful, AllWritten, Patched, LayoutOk, IsHomeLayout, CacheAgrees, Image, AllSure, WithPolicy, AuthStore.Attached, Device.Settled;
      hide AuthStore.BitmapAgrees, AuthStore.BitsAgree, AuthStore.TagsAgree;
      HomeSectors(auth.layout);
      Forget();
      var r := auth.Format(CACHE_BLOCKS);
      if r != Okay {
        return false;
      }
      VacantWorks();
      ok := BlankSectors();
      if !ok {
        return;
      }
      VacantWorks();
      BlankImage();
      BlankReadable();
      if policy >= 0 {
        ok := WritePolicy(authorised, policy);
        if !ok {
          return;
        }
      }
      ReadableWritten();
      ok := SyncHome();
      if !ok {
        return;
      }
      ReadableWritten();
      ok := VerifyHome();
    }

    /** Power loss leaves one of the given outcomes, or a home region holding this image. */
    ghost predicate RecoversOrHolds(allowed: set<Recovered>, image: seq<Option<byte>>)
      requires Bound() && LayoutOk(auth.layout, J_HOME)
      reads dev
    {
      && |dev.disk.durable| == REGION
      && forall m :: CrashImage(dev.disk, m) ==>
           Recover(m) in allowed || (Recover(m).Home? && |Recover(m).sectors| == J_HOME && Seen(Recover(m).sectors) == image)
    }

    lemma Holds(allowed: set<Recovered>, h: seq<Sector>, image: seq<Option<byte>>)
      requires Bound() && LayoutOk(auth.layout, J_HOME) && |h| == J_HOME && Seen(h) == image
      ensures RecoversTo(dev.disk, allowed) ==> RecoversOrHolds(allowed, image)
      ensures RecoversTo(dev.disk, allowed + {Home(h)}) ==> RecoversOrHolds(allowed, image)
    {
      hide Recover, Plain, IsHomeLayout, LayoutOk, Xts.StackLawful;
    }

    lemma StillHolds(allowed: set<Recovered>, image: seq<Option<byte>>)
      requires Bound() && LayoutOk(auth.layout, J_HOME) && RecoversTo(dev.disk, allowed)
      ensures RecoversOrHolds(allowed, image)
    {
    }

    /** Blank the disk under a durable reset record, then retire the record. */
    method FinishReset(authorised: bool, policy: int) returns (ok: bool)
      requires Working() && ready && dev.recovering && policy <= 1 && dev.newest.state == RESET && dev.newest.policy == policy
      requires LayoutOk(auth.layout, J_HOME)
      modifies this`slots, this`ready, auth, dev
      ensures DiskValid(dev.disk) && |dev.disk.live| == REGION && dev.Reopenable()
      ensures Bound() && |slots| == SLOTS && RecoversOrHolds({Fresh(policy)}, BlankDisk(policy))
      ensures ok ==> Working() && ready && !dev.recovering && Image() == BlankDisk(policy)
      ensures ok ==> Erased(Image(), policy)
      ensures ok ==> |dev.home| == J_HOME && Seen(dev.home) == Image() && RecoversTo(dev.disk, {Home(dev.home)})
      ensures old(dev.disk.reliable) && (policy >= 0 ==> authorised) && old(dev.sequence) < UINT64_MAX ==> ok
      ensures ok ==> old(dev.sequence) < UINT64_MAX
    {
      hide Xts.StackLawful, LayoutOk, IsHomeLayout, Plain, Recover, RecoversTo, BlankDisk, RecoversOrHolds, Erased;
      hide Device.Contents, Device.Valid, Openable;
      BlankIsErased(policy);
      ok := Blank(authorised, policy);
      dev.Sized();
      dev.SettledReopens();
      dev.HomeRecovers();
      StillHolds({Fresh(policy)}, BlankDisk(policy));
      if !ok {
        return;
      }
      SeenNow();
      SureWithin(dev.disk, 0, J_HOME);
      dev.Usable();
      ghost var h := dev.Contents();
      ok := dev.EndRebuild();
      if ok {
        dev.Usable();
        SeenNow();
      }
      assert {Fresh(policy), Home(h)} == {Fresh(policy)} + {Home(h)};
      Holds({Fresh(policy)}, h, BlankDisk(policy));
    }

    /** Erase everything. A cut leaves the old disk or an announced reset that an open completes. */
    method Reset(authorised: bool, policy: int) returns (ok: bool)
      requires Valid() && (ready ==> !dev.recovering)
      modifies this`slots, this`ready, auth, dev
      ensures Valid() && ready == ok && (ready ==> !dev.recovering)
      ensures ok ==> old(ready) && authorised && -1 <= policy <= 1 && Image() == BlankDisk(policy)
      ensures ok ==> Erased(Image(), policy)
      ensures old(ready && dev.disk.reliable) && authorised && -1 <= policy <= 1 ==> (ok <==> old(dev.sequence) + 2 <= UINT64_MAX)
      ensures ok ==> |dev.home| == J_HOME && LayoutOk(auth.layout, J_HOME) && Seen(dev.home) == Image()
      ensures ok ==> RecoversTo(dev.disk, {Home(dev.home)})
      ensures old(ready) ==> DiskValid(dev.disk) && |dev.disk.live| == REGION && dev.Reopenable()
      ensures old(ready) && !(-1 <= policy <= 1) ==> RecoversTo(dev.disk, {Home(old(dev.home))})
      ensures !old(ready) ==> dev.disk == old(dev.disk) && dev.doubtful == old(dev.doubtful)
      ensures old(ready) && -1 <= policy <= 1 ==>
        LayoutOk(auth.layout, J_HOME) && RecoversOrHolds({Home(old(dev.home)), Fresh(policy)}, BlankDisk(policy))
    {
      hide Xts.StackLawful, IsHomeLayout, CacheAgrees, Plain, Recover, RecoversTo, BlankDisk, RecoversOrHolds, Erased;
      hide Device.Contents, View, Openable;
      if !ready {
        return false;
      }
      StillRecovers();
      dev.SettledReopens();
      SeenNow();
      var current: ScanResult;
      if -1 <= policy <= 1 {
        AlsoRecovers(dev.disk, Home(dev.home), Fresh(policy));
        StillHolds({Home(dev.home), Fresh(policy)}, BlankDisk(policy));
      }
      if policy < -1 || policy > 1 || !authorised {
        Fail();
        return false;
      }
      dev.Usable();
      ok, current := dev.ControlScan();
      if !ok || !current.Found? || current.record.number != dev.sequence || current.record.state != CLEAN {
        Fail();
        return false;
      }
      Forget();
      ghost var home := dev.home;
      ok := dev.BeginRebuild(ControlRecord(0, RESET, 0, 0, 0, policy, []));
      AlsoRecovers(dev.disk, Home(home), Fresh(policy));
      StillHolds({Home(home), Fresh(policy)}, BlankDisk(policy));
      if !ok {
        Fail();
        return;
      }
      EmptyWorks();
      ok := FinishReset(authorised, policy);
      MoreRecovers({Fresh(policy)}, {Home(home), Fresh(policy)}, BlankDisk(policy));
      if !ok {
        Fail();
      }
    }

    lemma MoreRecovers(a: set<Recovered>, b: set<Recovered>, image: seq<Option<byte>>)
      requires Bound() && LayoutOk(auth.layout, J_HOME) && RecoversOrHolds(a, image) && a <= b
      ensures RecoversOrHolds(b, image)
    {
    }

    /** Just bound to a region that may be opened. */
    ghost predicate Starting()
      reads this, auth, dev
    {
      && Bound() && slots == Vacated() && ready && LayoutOk(auth.layout, J_HOME)
      && auth.ready && auth.cache == [] && auth.initialised == [] && !auth.bitmapCached
      && DiskValid(dev.disk) && |dev.disk.live| == REGION && Openable(dev.disk)
      && dev.count == 0 && dev.targets == [] && !dev.recovering && dev.sequence == 0
    }

    lemma NewestPolicy(c: ControlRecord)
      requires dev.Settled() && dev.newest == c
      ensures c.policy <= 1
    {
    }

    /** Create an empty store over whatever the region holds. */
    method Initialise() returns (ok: bool)
      requires Starting()
      modifies this`slots, this`ready, auth, dev
      ensures Bound() && |slots| == SLOTS && (ok <==> ready) && LayoutOk(auth.layout, J_HOME) && (ok ==> Working() && ready && !dev.recovering)
      ensures ok ==> Image() == BlankDisk(-1) && Erased(Image(), -1)
      ensures ok ==> |dev.home| == J_HOME && Seen(dev.home) == Image() && RecoversTo(dev.disk, {Home(dev.home)})
      ensures RecoversOrHolds({old(Recover(dev.disk.live)), Fresh(-1)}, BlankDisk(-1)) && dev.Reopenable()
      ensures DiskValid(dev.disk) && |dev.disk.live| == REGION
      ensures ok ==> !old(Newest(dev.disk.live)).Bad? && old(Number(Newest(dev.disk.live))) + 2 <= UINT64_MAX
      ensures old(dev.disk.reliable && !Newest(dev.disk.live).Bad? && Number(Newest(dev.disk.live)) + 2 <= UINT64_MAX) ==> ok
    {
      hide Xts.StackLawful, LayoutOk, IsHomeLayout, Plain, RecoversTo, BlankDisk, RecoversOrHolds, Device.Contents;
      hide Device.Valid, Recover, Openable, Newest, Erased;
      ghost var r := Recover(dev.disk.live);
      ok := dev.BeginFresh();
      StillHolds({r, Fresh(-1)}, BlankDisk(-1));
      if !ok {
        Fail();
        return;
      }
      EmptyWorks();
      ok := FinishReset(true, -1);
      MoreRecovers({Fresh(-1)}, {r, Fresh(-1)}, BlankDisk(-1));
      if !ok {
        Fail();
      }
    }
  }

  /** How many sectors n bytes at offset lie in. */
  function Sectors(offset: nat, n: nat): nat {
    if n == 0 then 0 else (offset + n - 1) / SECTOR - offset / SECTOR + 1
  }

  lemma SectorsNext(offset: nat, done: nat, n: nat)
    requires done < n && (done > 0 ==> (offset + done) % SECTOR == 0)
    ensures var take := Least(SECTOR - (offset + done) % SECTOR, n - done);
      Sectors(offset, done) + 1 == Sectors(offset, done + take) <= Sectors(offset, n)
      && (done + take < n ==> (offset + done + take) % SECTOR == 0)
  {
  }

  const ROM_LIST: nat := 843764
  const DATA_LIST: nat := 827372
  const POLICY_RECORD: nat := 827358

  function PolicyRecord(policy: nat): (r: seq<byte>)
    requires policy <= 1
    ensures |r| == 14
  {
    Zeros(4) + Little(4096 + DATA_LIST, 4) + Little(0x1123, 2) + Little(2, 2) + [1, policy]
  }

  function WithPolicy(image: seq<Option<byte>>, policy: nat): seq<Option<byte>>
    requires |image| == DISK_BYTES && policy <= 1
  {
    Patched(Patched(Patched(image, ROM_LIST, Zeros(12)), POLICY_RECORD, PolicyRecord(policy)),
            DATA_LIST, Little(4096 + POLICY_RECORD, 4) + Zeros(4))
  }

  /** The disk a reset leaves. */
  function BlankDisk(policy: int): (r: seq<Option<byte>>)
    requires policy <= 1
  {
    var ones: seq<Option<byte>> := seq(DISK_BYTES, i => Some(255 as byte));
    if policy < 0 then ones else WithPolicy(ones, policy)
  }

  lemma PartOf(m: seq<byte>, at: nat, a: seq<byte>, b: seq<byte>, c: seq<byte>)
    requires at + |a + b + c| <= |m| && m[at..at + |a + b + c|] == a + b + c
    ensures m[at + |a|..at + |a| + |b|] == b
  {
    var s, t := m[at..at + |a + b + c|], m[at + |a|..at + |a| + |b|];
    forall k | 0 <= k < |b|
      ensures t[k] == b[k]
    {
      assert t[k] == m[at + |a| + k] == s[|a| + k] == (a + b + c)[|a| + k];
    }
  }

  /** A little-endian field that has been written reads back. */
  lemma FieldReads(m: seq<byte>, at: nat, v: nat, n: nat)
    requires at + n <= |m| && v < Power256(n) && m[at..at + n] == Little(v, n)
    ensures Value(Slice(m, at, n)) == v
  {
    ValueOfLittle(v, n);
  }

  /** What a reset leaves is the disk it has to leave: this policy kept, and nothing else. */
  lemma BlankIsErased(policy: int)
    requires policy <= 1
    ensures Erased(BlankDisk(policy), policy)
  {
    hide FreshDisk.Fresh, FreshDisk.KeepsPolicy, PolicyRecord, Little, Value;
    var image := BlankDisk(policy);
    var m := seq(DISK_BYTES, i requires 0 <= i < DISK_BYTES => if image[i].Some? then image[i].value else 0);
    assert FreshDisk.Reads(image, m);
    if policy < 0 {
      BlankOnes(m, policy);
    } else {
      PolicyBytes(m, policy);
      PolicyFields(m, policy);
    }
  }

  /** There is one such disk. */
  lemma ErasedIsOne(a: seq<Option<byte>>, b: seq<Option<byte>>, policy: int)
    requires Erased(a, policy) && Erased(b, policy)
    ensures a == b
  {
    FreshDisk.FreshDiskIsOne(a, b, policy);
  }

  lemma BlankOnes(m: seq<byte>, policy: int)
    requires policy < 0 && |m| == DISK_BYTES && forall i :: 0 <= i < |m| ==> m[i] == 255
    ensures FreshDisk.Fresh(m, policy)
  {
  }

  lemma PolicyBytes(m: seq<byte>, policy: nat)
    requires policy <= 1 && FreshDisk.Reads(BlankDisk(policy), m)
    ensures |m| == DISK_BYTES && m[POLICY_RECORD..DATA_LIST] == PolicyRecord(policy)
    ensures m[DATA_LIST..DATA_LIST + 4] == Little(4096 + POLICY_RECORD, 4)
    ensures m[ROM_LIST..ROM_LIST + 4] == Zeros(4)
    ensures forall i :: DATA_LIST + 4 <= i < DATA_LIST + 8 || ROM_LIST <= i < DISK_BYTES ==> m[i] == 0
    ensures forall i :: 0 <= i < ROM_LIST && !(POLICY_RECORD <= i < DATA_LIST + 8) ==> m[i] == 255
  {
    hide PolicyRecord, Little;
  }

  lemma PolicyFields(m: seq<byte>, policy: nat)
    requires policy <= 1 && |m| == DISK_BYTES && m[POLICY_RECORD..DATA_LIST] == PolicyRecord(policy)
    requires m[DATA_LIST..DATA_LIST + 4] == Little(4096 + POLICY_RECORD, 4) && m[ROM_LIST..ROM_LIST + 4] == Zeros(4)
    requires forall i :: DATA_LIST + 4 <= i < DATA_LIST + 8 || ROM_LIST <= i < DISK_BYTES ==> m[i] == 0
    requires forall i :: 0 <= i < ROM_LIST && !(POLICY_RECORD <= i < DATA_LIST + 8) ==> m[i] == 255
    ensures FreshDisk.Fresh(m, policy)
  {
    hide Little, Value;
    Powers();
    ZerosAreLittle(4);
    var a, b, c, d := Zeros(4), Little(4096 + DATA_LIST, 4), Little(0x1123, 2), Little(2, 2);
    PartOf(m, POLICY_RECORD, [], a, b + c + d + [1, policy]);
    PartOf(m, POLICY_RECORD, a, b, c + d + [1, policy]);
    PartOf(m, POLICY_RECORD, a + b, c, d + [1, policy]);
    PartOf(m, POLICY_RECORD, a + b + c, d, [1, policy]);
    PartOf(m, POLICY_RECORD, a + b + c + d, [1, policy], []);
    assert m[POLICY_RECORD + 12..POLICY_RECORD + 14] == [1, policy];
    FieldReads(m, POLICY_RECORD, 0, 4);
    FieldReads(m, POLICY_RECORD + 4, 4096 + DATA_LIST, 4);
    FieldReads(m, POLICY_RECORD + 8, 0x1123, 2);
    FieldReads(m, POLICY_RECORD + 10, 2, 2);
    FieldReads(m, DATA_LIST, 4096 + POLICY_RECORD, 4);
    FieldReads(m, ROM_LIST, 0, 4);
    FreshDisk.PolicyKept(m, policy);
  }

  lemma {:induction false} ZerosAreLittle(n: nat)
    ensures Zeros(n) == Little(0, n)
  {
    if n > 0 {
      ZerosAreLittle(n - 1);
      assert Zeros(n) == [0] + Zeros(n - 1);
    }
  }

  /** Read as the engine's image, the disk keeps this policy and nothing else. */
  ghost predicate Erased(image: seq<Option<byte>>, policy: int) {
    |image| == DISK_BYTES && FreshDisk.FreshDisk(image, policy)
  }

  function Vacated(): (r: seq<Slot>)
    ensures |r| == SLOTS && forall k :: 0 <= k < SLOTS ==> r[k] == Vacant
  {
    seq(SLOTS, k => Vacant)
  }

  function BlankSector(): (r: seq<byte>)
    ensures |r| == SECTOR && forall i :: 0 <= i < SECTOR ==> r[i] == 255
  {
    seq(SECTOR, _ => 255)
  }

  lemma SectorBytes(layers: seq<Xts.Cipher>, contents: seq<Stored>, lba: nat, p: seq<byte>)
    requires Xts.StackLawful(layers) && lba < |contents| && PlainOf(layers, contents[lba], lba) == Some(p)
    ensures |p| == SECTOR && SECTOR * lba + SECTOR <= |Plain(layers, contents)|
    ensures forall k :: 0 <= k < SECTOR ==> Plain(layers, contents)[SECTOR * lba + k] == Some(p[k])
  {
    hide Xts.StackLawful;
    forall k | 0 <= k < SECTOR
      ensures Plain(layers, contents)[SECTOR * lba + k] == Some(p[k])
    {
      var i := SECTOR * lba + k;
      assert i / SECTOR == lba && i % SECTOR == k;
      assert Plain(layers, contents)[i] == ByteAt(layers, contents, i);
    }
  }

  /** Writing back a sector whose middle has changed changes only the middle. */
  lemma ChunkPatch(image: seq<Option<byte>>, lba: nat, p: seq<byte>, at: nat, chunk: seq<byte>)
    requires |p| == SECTOR && at + |chunk| <= SECTOR && SECTOR * lba + SECTOR <= |image|
    requires forall k :: 0 <= k < SECTOR ==> image[SECTOR * lba + k] == Some(p[k])
    ensures Patched(image, SECTOR * lba, p[..at] + chunk + p[at + |chunk|..]) == Patched(image, SECTOR * lba + at, chunk)
  {
    var q := p[..at] + chunk + p[at + |chunk|..];
    var a, b := Patched(image, SECTOR * lba, q), Patched(image, SECTOR * lba + at, chunk);
    forall i | 0 <= i < |image|
      ensures a[i] == b[i]
    {
      if SECTOR * lba <= i < SECTOR * lba + SECTOR {
        var k := i - SECTOR * lba;
        assert image[SECTOR * lba + k] == Some(p[k]);
      }
    }
  }

  /** Part of a sector that has been read. */
  lemma ChunkReads(image: seq<Option<byte>>, lba: nat, p: seq<byte>, at: nat, out: seq<byte>)
    requires |p| == SECTOR && at + |out| <= SECTOR && out == p[at..at + |out|] && SECTOR * lba + SECTOR <= |image|
    requires forall k :: 0 <= k < SECTOR ==> image[SECTOR * lba + k] == Some(p[k])
    ensures forall i :: 0 <= i < |out| ==> image[SECTOR * lba + at + i] == Some(out[i])
  {
    forall i | 0 <= i < |out|
      ensures image[SECTOR * lba + at + i] == Some(out[i])
    {
      var k := at + i;
      assert image[SECTOR * lba + k] == Some(p[k]);
    }
  }

  lemma PatchReadable(image: seq<Option<byte>>, offset: nat, data: seq<byte>)
    requires offset + |data| <= |image|
    ensures (forall i: nat :: i < |image| ==> image[i].Some?) ==>
      forall i: nat :: i < |image| ==> Patched(image, offset, data)[i].Some?
  {
  }

  lemma BlankReadable()
    ensures forall i: nat :: i < DISK_BYTES ==> BlankDisk(-1)[i].Some?
  {
  }

  lemma PatchNone(image: seq<Option<byte>>, offset: nat)
    requires offset <= |image|
    ensures Patched(image, offset, []) == image
  {
  }

  lemma PatchAfter(image: seq<Option<byte>>, offset: nat, data: seq<byte>)
    requires offset + |data| < |image|
    ensures Patched(image, offset, data)[offset + |data|] == image[offset + |data|]
  {
  }

  lemma PatchMore(image: seq<Option<byte>>, offset: nat, data: seq<byte>, done: nat, take: nat)
    requires offset + |data| <= |image| && done + take <= |data|
    ensures Patched(Patched(image, offset, data[..done]), offset + done, data[done..done + take])
         == Patched(image, offset, data[..done + take])
  {
  }

  lemma HomeSectors(l: Layout)
    requires IsHomeLayout(l)
    ensures l.blocks == J_DATA <= UINT64_MAX && l.bitmapBlocks == 0
  {
  }

  type DiskBytes = seq<Option<byte>>
}
