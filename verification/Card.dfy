// A removable card as the firmware sees it: writes may be cut, torn, lost or reordered
// until a sync succeeds. A sector is modelled by what it authenticates.
module Card {
  import opened Bytes
  import opened Envelope
  import opened Limits

  const TAGS_PER_SECTOR: nat := 15
  const BITS_PER_SECTOR: nat := 4096

  /** A sector tag is the key, address and ciphertext it was computed from. */
  datatype SectorTag = SectorMac(key: nat, lba: nat, cipher: seq<byte>) | BrokenTag(noise: nat)

  /** A control record; its digest is the list of log sectors it was computed from. */
  datatype ControlRecord = ControlRecord(
    number: uint64, state: nat, count: nat, oldBank: nat, oldBytes: nat, policy: int, digest: seq<Sector>)

  /** The record that publishes a snapshot; its digest is the list of ciphertext sectors it was computed from. */
  datatype ManifestRecord = ManifestRecord(generation: uint64, bank: nat, bytes: nat, digest: seq<Sector>)

  datatype Sector =
    | Data(bytes: seq<byte>)
    | Sealed(header: Header)
    | Tags(states: seq<byte>, tags: seq<SectorTag>)
    | Bits(bits: seq<bool>)
    | Control(record: ControlRecord)
    | Manifest(manifest: ManifestRecord)
    | Entry(number: uint64, slot: nat, target: nat, payload: Sector)

  /** Sectors no accident produces. */
  predicate Authentic(s: Sector) {
    s.Sealed? || s.Control? || s.Manifest? || s.Entry?
  }

  // A sector read as metadata or bitmap, whatever it holds.

  function StateAt(s: Sector, n: nat): byte {
    if s.Tags? && n < |s.states| then s.states[n] else 2
  }

  function TagAt(s: Sector, n: nat): SectorTag {
    if s.Tags? && n < |s.tags| then s.tags[n] else BrokenTag(0)
  }

  predicate BitAt(s: Sector, k: nat) {
    s.Bits? && k < |s.bits| && s.bits[k]
  }

  /** live is what reads return, durable what the last sync left, unsynced what was written since. */
  datatype Disk = Disk(live: seq<Sector>, durable: seq<Sector>, unsynced: map<nat, set<Sector>>, reliable: bool)

  predicate DiskValid(d: Disk) {
    && |d.live| == |d.durable|
    && forall i :: 0 <= i < |d.live| ==> MayHold(d, i, d.live[i])
  }

  /** Whatever power loss does, this sector holds x. */
  predicate Sure(d: Disk, i: nat, x: Sector) {
    i < |d.durable| && Values(d, i) == {x}
  }

  lemma SureIsRead(d: Disk, i: nat, x: Sector)
    requires DiskValid(d) && Sure(d, i, x)
    ensures d.live[i] == x
    ensures forall image :: CrashImage(d, image) ==> image[i] == x
  {
    OnlyOneValue(x);
  }

  lemma OnlyOneValue(x: Sector)
    ensures forall s :: MayBe({x}, s) ==> s == x
  {
  }

  /** A sector that reads back as authentic was written so. */
  lemma AuthenticIsWritten(d: Disk, i: nat, s: Sector)
    requires i < |d.durable| && MayHold(d, i, s) && Authentic(s)
    ensures s in Values(d, i)
  {
  }

  lemma SyncedIsSure(d: Disk)
    requires |d.live| == |d.durable| && d.live == d.durable && d.unsynced == map[]
    ensures DiskValid(d) && forall i :: 0 <= i < |d.live| ==> Sure(d, i, d.live[i])
  {
    forall i | 0 <= i < |d.live|
      ensures MayHold(d, i, d.live[i]) && Sure(d, i, d.live[i])
    {
    }
  }

  /** A sync makes nothing less certain. */
  lemma SyncKeepsSure(before: Disk, after: Disk)
    requires DiskValid(before) && after == before.(durable := before.live, unsynced := map[])
    ensures forall i: nat, x :: Sure(before, i, x) ==> Sure(after, i, x)
  {
    forall i: nat, x | Sure(before, i, x)
      ensures Sure(after, i, x)
    {
      SureIsRead(before, i, x);
    }
  }

  /** The values a sector was given since it was last known to be durable. */
  function Values(d: Disk, i: nat): set<Sector>
    requires i < |d.durable|
  {
    {d.durable[i]} + (if i in d.unsynced then d.unsynced[i] else {})
  }

  /** A mixture of these values: every metadata cell comes from one of them or, for a tag
      they disagree about, is broken. */
  predicate Torn(values: set<Sector>, s: Sector) {
    && !Authentic(s)
    && (exists v, w :: v in values && w in values && v != w)
    && (forall n: nat :: n < TAGS_PER_SECTOR ==> TornCell(values, s, n))
    && (forall k: nat :: k < BITS_PER_SECTOR ==> TornBit(values, s, k))
  }

  predicate TornCell(values: set<Sector>, s: Sector, n: nat) {
    && (exists v :: v in values && StateAt(v, n) == StateAt(s, n))
    && ((exists v :: v in values && TagAt(v, n) == TagAt(s, n))
        || (TagAt(s, n).BrokenTag? && exists v, w :: v in values && w in values && TagAt(v, n) != TagAt(w, n)))
  }

  predicate TornBit(values: set<Sector>, s: Sector, k: nat) {
    exists v :: v in values && BitAt(v, k) == BitAt(s, k)
  }

  predicate MayHold(d: Disk, i: nat, s: Sector)
    requires i < |d.durable|
  {
    MayBe(Values(d, i), s)
  }

  predicate MayBe(values: set<Sector>, s: Sector) {
    s in values || Torn(values, s)
  }

  /** What the card may hold after losing power now. */
  predicate CrashImage(d: Disk, image: seq<Sector>) {
    && |image| == |d.durable|
    && forall i :: 0 <= i < |image| ==> MayHold(d, i, image[i])
  }

  /** The whole effect of writing data at first, completed or not. */
  predicate Wrote(before: Disk, after: Disk, first: nat, data: seq<Sector>, ok: bool)
    requires DiskValid(before) && first + |data| <= |before.live|
  {
    && DiskValid(after) && after.durable == before.durable && after.reliable == before.reliable
    && (forall i :: 0 <= i < |before.live| && !(first <= i < first + |data|) ==>
          after.live[i] == before.live[i] && Values(after, i) == Values(before, i))
    && (forall i :: first <= i < first + |data| ==>
          && Values(after, i) == Values(before, i) + {data[i - first]}
          && (ok ==> after.live[i] == data[i - first]))
  }

  method Read(d: Disk, first: nat, n: nat) returns (ok: bool, data: seq<Sector>)
    requires DiskValid(d)
    ensures ok ==> first + n <= |d.live| && data == d.live[first..first + n]
    ensures d.reliable && first + n <= |d.live| ==> ok
    ensures !ok ==> data == []
  {
    ok := *;
    ok := (ok || d.reliable) && first + n <= |d.live|;
    data := if ok then d.live[first..first + n] else [];
  }

  method Write(d: Disk, first: nat, data: seq<Sector>) returns (ok: bool, after: Disk)
    requires DiskValid(d)
    ensures first + |data| > |d.live| ==> !ok && after == d
    ensures first + |data| <= |d.live| ==> Wrote(d, after, first, data, ok)
    ensures d.reliable && first + |data| <= |d.live| ==> ok
  {
    ok := *;
    ok := ok || d.reliable;
    if first + |data| > |d.live| {
      return false, d;
    }
    after := d;
    for i := 0 to |data|
      invariant Wrote(d, after, first, data[..i], ok)
    {
      var next := WriteOne(after, first + i, data[i], ok);
      WroteOneMore(d, after, next, first, data[..i], data[i], next.live[first + i], ok);
      assert data[..i + 1] == data[..i] + [data[i]];
      after := next;
    }
    assert data[..|data|] == data;
  }

  lemma MayBeMore()
    ensures forall a, b, s :: a <= b && MayBe(a, s) ==> MayBe(b, s)
  {
    forall a: set<Sector>, b: set<Sector>, s | a <= b && MayBe(a, s)
      ensures MayBe(b, s)
    {
      if Torn(a, s) {
        TornMore(a, b, s);
      }
    }
  }

  lemma TornMore(a: set<Sector>, b: set<Sector>, s: Sector)
    requires a <= b && Torn(a, s)
    ensures Torn(b, s)
  {
    forall n: nat | n < TAGS_PER_SECTOR
      ensures TornCell(b, s, n)
    {
      assert TornCell(a, s, n);
    }
    forall k: nat | k < BITS_PER_SECTOR
      ensures TornBit(b, s, k)
    {
      assert TornBit(a, s, k);
    }
  }

  lemma Possible(d: Disk, i: nat, x: Sector)
    requires i < |d.durable| && x in Values(d, i)
    ensures MayHold(d, i, x)
  {
  }

  method WriteOne(d: Disk, i: nat, x: Sector, ok: bool) returns (after: Disk)
    requires DiskValid(d) && i < |d.live|
    ensures after.durable == d.durable && after.reliable == d.reliable
    ensures |after.live| == |d.live| && after.live == d.live[i := after.live[i]]
    ensures after.unsynced == d.unsynced[i := (if i in d.unsynced then d.unsynced[i] else {}) + {x}]
    ensures MayHold(after, i, after.live[i]) && (ok ==> after.live[i] == x)
  {
    hide MayBe;
    MayBeMore();
    var noted := d.(unsynced := d.unsynced[i := (if i in d.unsynced then d.unsynced[i] else {}) + {x}]);
    var s := if ok then x else d.live[i];
    var torn := *;
    Possible(noted, i, x);
    assert MayHold(noted, i, d.live[i]) by {
      assert Values(d, i) <= Values(noted, i);
      assert MayHold(d, i, d.live[i]);
    }
    if !ok && torn {
      s :| MayHold(noted, i, s);
      assert MayHold(noted, i, s);
    }
    after := noted.(live := noted.live[i := s]);
    assert Values(after, i) == Values(noted, i);
    assert after.live[i] == s;
  }

  lemma WroteOneMore(d: Disk, before: Disk, after: Disk, first: nat, data: seq<Sector>, x: Sector, s: Sector, ok: bool)
    requires DiskValid(d) && first + |data| + 1 <= |d.live|
    requires Wrote(d, before, first, data, ok)
    requires var at := first + |data|;
      && after.durable == before.durable && after.reliable == before.reliable
      && after.live == before.live[at := s]
      && after.unsynced == before.unsynced[at := (if at in before.unsynced then before.unsynced[at] else {}) + {x}]
      && MayHold(after, at, s) && (ok ==> s == x)
    ensures Wrote(d, after, first, data + [x], ok)
  {
    hide MayBe;
  }

  method Sync(d: Disk) returns (ok: bool, after: Disk)
    requires DiskValid(d)
    ensures after == if ok then d.(durable := d.live, unsynced := map[]) else d
    ensures DiskValid(after)
    ensures d.reliable ==> ok
  {
    ok := *;
    ok := ok || d.reliable;
    after := if ok then d.(durable := d.live, unsynced := map[]) else d;
    if ok {
      SyncedIsSure(after);
    }
  }

  /** Power is lost and comes back: the card holds one of its crash images. */
  method PowerCycle(d: Disk) returns (after: Disk)
    requires DiskValid(d)
    ensures DiskValid(after) && after.unsynced == map[] && CrashImage(d, after.live)
  {
    assert CrashImage(d, d.durable) by {
      forall i | 0 <= i < |d.durable| {
        Possible(d, i, d.durable[i]);
      }
    }
    var image :| CrashImage(d, image);
    var reliable := *;
    assert CrashImage(d, image);
    after := Disk(image, image, map[], reliable);
    SyncedIsSure(after);
  }
}
