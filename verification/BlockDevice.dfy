// The block device the authenticated store talks to: either the card itself, or the FIDO
// journal's copy-on-write overlay of its region (src/shared/fido/store.c:268-358).
//
// For the overlay the disk is the region alone: home sectors, then a log of entries, then
// two control records at its end.
module BlockDevice {
  import opened Bytes
  import opened Card
  import opened Limits

  const J_DATA: nat := 1648
  const J_HOME: nat := 1758
  const J_START: nat := 1758
  const J_CONTROL: nat := 2046
  const J_ENTRIES: nat := 128
  const REGION: nat := 2048

  const CLEAN: nat := 0
  const READY: nat := 1
  const RESET: nat := 2
  const MIGRATE: nat := 3

  // ---- Control records -----------------------------------------------------

  predicate RecordValid(c: ControlRecord, index: nat) {
    && c.number != 0 && c.number % 2 == index && c.state <= MIGRATE && c.count <= J_ENTRIES && c.policy <= 1
    && (c.state == MIGRATE ==> c.oldBank <= 1 && c.oldBytes in {65536, 131072})
  }

  datatype ScanResult = Found(record: ControlRecord) | Absent | Bad

  /** The newest authentic record of the two, if all authentic ones are valid. */
  function ScanControls(even: Sector, odd: Sector): ScanResult {
    if even.Control? && !RecordValid(even.record, 0) then Bad
    else if odd.Control? && !RecordValid(odd.record, 1) then Bad
    else if even.Control? && (!odd.Control? || even.record.number >= odd.record.number) then Found(even.record)
    else if odd.Control? then Found(odd.record)
    else Absent
  }

  function ControlSector(number: nat): nat {
    J_CONTROL + number % 2
  }

  function Newest(m: seq<Sector>): ScanResult
    requires |m| == REGION
  {
    ScanControls(m[J_CONTROL], m[J_CONTROL + 1])
  }

  function Number(r: ScanResult): nat {
    if r.Found? then r.record.number else 0
  }

  // ---- Log entries ---------------------------------------------------------

  function HeaderAt(k: nat): nat { J_START + 2 * k }

  function PayloadAt(k: nat): nat { J_START + 2 * k + 1 }

  /** Entry k of transaction number is authentic and names a home sector. */
  predicate EntryOk(m: seq<Sector>, k: nat, number: nat) {
    && |m| == REGION && k < J_ENTRIES
    && m[HeaderAt(k)].Entry? && m[HeaderAt(k)].number == number && m[HeaderAt(k)].slot == k
    && m[HeaderAt(k)].target < J_HOME && m[HeaderAt(k)].payload == m[PayloadAt(k)]
  }

  predicate EntriesOk(m: seq<Sector>, n: nat, number: nat) {
    && |m| == REGION && n <= J_ENTRIES
    && forall k :: 0 <= k < n ==> EntryOk(m, k, number)
  }

  function TargetOf(s: Sector): nat {
    if s.Entry? then s.target else 0
  }

  /** The homes the first n entries are for, in order. */
  function Targets(m: seq<Sector>, n: nat): (t: seq<nat>)
    requires |m| == REGION && n <= J_ENTRIES
    ensures |t| == n && forall k :: 0 <= k < n ==> t[k] == TargetOf(m[HeaderAt(k)])
  {
    seq(n, k requires 0 <= k < n => TargetOf(m[HeaderAt(k)]))
  }

  predicate Distinct(t: seq<nat>) {
    forall i, j :: 0 <= i < j < |t| ==> t[i] != t[j]
  }

  /** Everything the digest covers. */
  function LogSectors(m: seq<Sector>, n: nat): seq<Sector>
    requires |m| == REGION && n <= J_ENTRIES
  {
    m[J_START..J_START + 2 * n]
  }

  /** The first entry for lba, or the number of entries. */
  function Find(t: seq<nat>, lba: nat): (k: nat)
    ensures k <= |t|
    ensures k < |t| ==> t[k] == lba
    ensures forall i :: 0 <= i < k ==> t[i] != lba
  {
    if |t| == 0 || t[0] == lba then 0 else 1 + Find(t[1..], lba)
  }

  /** The home region as seen through the log. */
  function View(m: seq<Sector>, t: seq<nat>): (v: seq<Sector>)
    requires |m| == REGION && |t| <= J_ENTRIES
    ensures |v| == J_HOME
  {
    seq(J_HOME, lba requires 0 <= lba < J_HOME => var k := Find(t, lba); if k < |t| then m[PayloadAt(k)] else m[lba])
  }

  /** Writing the entries home one after the other. */
  function Replayed(m: seq<Sector>, t: seq<nat>, n: nat): (h: seq<Sector>)
    requires |m| == REGION && n <= |t| <= J_ENTRIES && forall k :: 0 <= k < |t| ==> t[k] < J_HOME
    ensures |h| == J_HOME
  {
    if n == 0 then m[..J_HOME] else Replayed(m, t, n - 1)[t[n - 1] := m[PayloadAt(n - 1)]]
  }

  lemma {:induction false} ReplayedAt(m: seq<Sector>, t: seq<nat>, n: nat, lba: nat)
    requires |m| == REGION && n <= |t| <= J_ENTRIES && Distinct(t) && lba < J_HOME
    requires forall k :: 0 <= k < |t| ==> t[k] < J_HOME
    ensures Replayed(m, t, n)[lba] == if Find(t, lba) < n then m[PayloadAt(Find(t, lba))] else m[lba]
  {
    if n > 0 {
      ReplayedAt(m, t, n - 1, lba);
    }
  }

  /** Replaying the log in order gives the overlay's view. */
  lemma ReplayIsView(m: seq<Sector>, t: seq<nat>)
    requires |m| == REGION && |t| <= J_ENTRIES && Distinct(t) && forall k :: 0 <= k < |t| ==> t[k] < J_HOME
    ensures Replayed(m, t, |t|) == View(m, t)
  {
    forall lba | 0 <= lba < J_HOME
      ensures Replayed(m, t, |t|)[lba] == View(m, t)[lba]
    {
      ReplayedAt(m, t, |t|, lba);
    }
  }

  // ---- What a later open recovers ------------------------------------------

  /** The home region an open will find or rebuild. Fresh is the blank volume of a reset;
      a migration goes by its record and the snapshot staged for it; a region without records
      may hold snapshots of the older format. */
  datatype Recovered =
    | Home(sectors: seq<Sector>)
    | Fresh(policy: int)
    | Migrating(record: ControlRecord, staged: seq<Sector>)
    | Legacy(sectors: seq<Sector>)
    | Broken

  /** A snapshot of so many bytes with its manifest and tags, in sectors. */
  function SnapshotSectors(bytes: nat): nat {
    if bytes == 65536 then 138 else 275
  }

  function Staged(m: seq<Sector>, c: ControlRecord): (s: seq<Sector>)
    requires |m| == REGION
    ensures |s| == SnapshotSectors(c.oldBytes)
  {
    m[J_START..J_START + SnapshotSectors(c.oldBytes)]
  }

  predicate ReplayOk(m: seq<Sector>, c: ControlRecord) {
    && EntriesOk(m, c.count, c.number) && Distinct(Targets(m, c.count)) && LogSectors(m, c.count) == c.digest
  }

  function Recover(m: seq<Sector>): Recovered
    requires |m| == REGION
  {
    match Newest(m)
    case Bad => Broken
    case Absent => Legacy(m[..J_HOME])
    case Found(c) =>
      if c.state == CLEAN then Home(m[..J_HOME])
      else if c.state == READY then (if ReplayOk(m, c) then Home(View(m, Targets(m, c.count))) else Broken)
      else if c.state == RESET then Fresh(c.policy)
      else Migrating(c, Staged(m, c))
  }

  /** Every power loss now leaves something an open turns into one of these. */
  ghost predicate RecoversTo(d: Disk, allowed: set<Recovered>) {
    |d.durable| == REGION && forall m :: CrashImage(d, m) ==> Recover(m) in allowed
  }

  predicate AllSure(d: Disk, from: nat, to: nat) {
    && |d.live| == |d.durable|
    && forall i :: from <= i < to && i < |d.live| ==> Sure(d, i, d.live[i])
  }

  /** The control records are durable. */
  predicate Anchored(d: Disk) {
    && |d.live| == |d.durable| == REGION && AllSure(d, J_CONTROL, REGION) && !Newest(d.live).Bad?
  }

  lemma SureWithin(d: Disk, from: nat, to: nat)
    requires AllSure(d, 0, REGION) && to <= REGION
    ensures AllSure(d, from, to)
  {
  }

  lemma SureRange(d: Disk, from: nat, to: nat, m: seq<Sector>)
    requires DiskValid(d) && AllSure(d, from, to) && CrashImage(d, m) && from <= to <= |d.live|
    ensures m[from..to] == d.live[from..to]
    ensures forall i :: from <= i < to ==> m[i] == d.live[i]
  {
    forall i | from <= i < to
      ensures m[i] == d.live[i]
    {
      SureIsRead(d, i, d.live[i]);
    }
  }

  lemma AnchoredScans(d: Disk, m: seq<Sector>)
    requires DiskValid(d) && Anchored(d) && CrashImage(d, m)
    ensures Newest(m) == Newest(d.live)
  {
    SureRange(d, J_CONTROL, REGION, m);
  }

  /** Between transactions a power loss loses nothing and gains nothing. */
  lemma CleanRecovers(d: Disk)
    requires DiskValid(d) && Anchored(d) && AllSure(d, 0, J_HOME)
    requires Newest(d.live).Found? && Newest(d.live).record.state == CLEAN
    ensures RecoversTo(d, {Home(d.live[..J_HOME])})
  {
    forall m | CrashImage(d, m)
      ensures Recover(m) == Home(d.live[..J_HOME])
    {
      AnchoredScans(d, m);
      SureRange(d, 0, J_HOME, m);
    }
  }

  /** The log of transaction c is durable and intact, and every home sector it does not
      rewrite durably holds what base holds. */
  ghost predicate Announced(d: Disk, c: ControlRecord, base: seq<Sector>) {
    && |d.live| == |d.durable| == |base| == REGION && c.count <= J_ENTRIES
    && AllSure(d, J_START, J_START + 2 * c.count) && ReplayOk(d.live, c)
    && (forall i :: J_START <= i < J_START + 2 * c.count ==> base[i] == d.live[i])
    && (forall i :: 0 <= i < J_HOME && i !in Targets(d.live, c.count) ==> Sure(d, i, base[i]))
  }

  /** Replaying an announced transaction gives its result, however much of it has been
      written home already. */
  lemma AnnouncedReplays(d: Disk, c: ControlRecord, base: seq<Sector>, m: seq<Sector>)
    requires DiskValid(d) && Announced(d, c, base) && CrashImage(d, m)
    ensures ReplayOk(m, c) && View(m, Targets(m, c.count)) == View(base, Targets(base, c.count))
  {
    SureRange(d, J_START, J_START + 2 * c.count, m);
    SameLog(d.live, m, c);
    SameLog(d.live, base, c);
    var t := Targets(m, c.count);
    forall i | 0 <= i < J_HOME
      ensures View(m, t)[i] == View(base, t)[i]
    {
      if Find(t, i) == |t| {
        assert i !in Targets(d.live, c.count);
        SureIsRead(d, i, base[i]);
      } else {
        assert m[PayloadAt(Find(t, i))] == base[PayloadAt(Find(t, i))];
      }
    }
    assert View(m, t) == View(base, t);
  }

  lemma ReadyRecovers(d: Disk, c: ControlRecord, base: seq<Sector>)
    requires DiskValid(d) && Anchored(d) && Newest(d.live) == Found(c) && c.state == READY && Announced(d, c, base)
    ensures RecoversTo(d, {Home(View(base, Targets(base, c.count)))})
  {
    forall m | CrashImage(d, m)
      ensures Recover(m) == Home(View(base, Targets(base, c.count)))
    {
      AnchoredScans(d, m);
      AnnouncedReplays(d, c, base, m);
    }
  }

  lemma SameLog(a: seq<Sector>, b: seq<Sector>, c: ControlRecord)
    requires |a| == |b| == REGION && c.count <= J_ENTRIES
    requires forall i :: J_START <= i < J_START + 2 * c.count ==> a[i] == b[i]
    ensures Targets(a, c.count) == Targets(b, c.count) && LogSectors(a, c.count) == LogSectors(b, c.count)
    ensures EntriesOk(a, c.count, c.number) ==> EntriesOk(b, c.count, c.number)
    ensures ReplayOk(a, c) ==> ReplayOk(b, c)
  {
    assert forall k :: 0 <= k < c.count ==> a[HeaderAt(k)] == b[HeaderAt(k)] && a[PayloadAt(k)] == b[PayloadAt(k)];
    if EntriesOk(a, c.count, c.number) {
      forall k | 0 <= k < c.count
        ensures EntryOk(b, k, c.number)
      {
        assert EntryOk(a, k, c.number);
      }
    }
  }

  /** The newest record announces a log, and no number is left for the record that would retire it. */
  predicate Exhausted(m: seq<Sector>)
    requires |m| == REGION
  {
    Newest(m).Found? && Newest(m).record.state == READY && Newest(m).record.number == UINT64_MAX
  }

  // ---- What an open may start from -----------------------------------------

  /** What the open reads is durable, as far as it goes by it: the control records and then
      whatever the newest one stands for. The rest of the region may still be unsynced. */
  ghost predicate Openable(d: Disk) {
    && |d.live| == |d.durable| == REGION && AllSure(d, J_CONTROL, REGION)
    && match Newest(d.live)
       case Bad => true
       case Absent => AllSure(d, 0, J_HOME)
       case Found(c) =>
         if c.state == CLEAN then AllSure(d, 0, J_HOME)
         else if c.state == READY then
           AllSure(d, J_START, J_START + 2 * c.count) && (ReplayOk(d.live, c) ==> Announced(d, c, d.live))
         else if c.state == RESET then true
         else StagedAt(d, c, Staged(d.live, c))
  }

  /** A region that has just been powered up or synced can be found. */
  lemma SureOpenable(d: Disk)
    requires DiskValid(d) && |d.live| == REGION && AllSure(d, 0, REGION)
    ensures Openable(d)
  {
    hide MayBe;
    if Newest(d.live).Found? {
      NewestValid(d.live, Newest(d.live).record);
      StagedNow(d, Newest(d.live).record);
    }
  }

  /** Opening such a region, cut anywhere before it writes, leaves what it read. */
  lemma OpenableRecovers(d: Disk)
    requires DiskValid(d) && |d.live| == REGION && Openable(d)
    ensures RecoversTo(d, {Recover(d.live)})
  {
    hide MayBe, Recover;
    NothingCut(d);
    forall m | CrashImage(d, m)
      ensures Recover(m) == Recover(d.live)
    {
      SureRange(d, J_CONTROL, REGION, m);
      StillRecovered(d, d, m);
    }
  }

  /** As long as its newest record stays the newest, such a region recovers the same, whatever
      has become of the other control sector. */
  lemma StillRecovered(before: Disk, d: Disk, m: seq<Sector>)
    requires DiskValid(before) && |before.live| == REGION && Openable(before)
    requires DiskValid(d) && KeepsBelowControls(before, d) && CrashImage(d, m) && Newest(m) == Newest(before.live)
    ensures Recover(m) == Recover(before.live)
  {
    hide MayBe, View, ReplayOk, Announced, AllSure;
    match Newest(before.live) {
      case Bad =>
      case Absent => HomeIsRead(before, d, m);
      case Found(c) =>
        NewestValid(before.live, c);
        if c.state == CLEAN {
          HomeIsRead(before, d, m);
        } else if c.state == READY {
          ReadyReadsAlike(before, d, c, m);
        } else if c.state == MIGRATE {
          StagedKept(before, d, c);
          StagedIsRead(d, c, Staged(before.live, c), m);
        }
    }
  }

  lemma HomeIsRead(before: Disk, d: Disk, m: seq<Sector>)
    requires AllSure(before, 0, J_HOME) && DiskValid(d) && KeepsBelowControls(before, d) && CrashImage(d, m)
    ensures m[..J_HOME] == before.live[..J_HOME]
  {
    hide MayBe;
    KeepsSure(before, d, 0, J_HOME);
    SureRange(d, 0, J_HOME, m);
    SameHome(before, d);
  }

  lemma StagedKept(before: Disk, d: Disk, c: ControlRecord)
    requires |before.live| == REGION && StagedAt(before, c, Staged(before.live, c)) && KeepsBelowControls(before, d)
    ensures StagedAt(d, c, Staged(before.live, c))
  {
  }

  lemma ReadyReadsAlike(before: Disk, d: Disk, c: ControlRecord, m: seq<Sector>)
    requires DiskValid(before) && |before.live| == REGION && c.count <= J_ENTRIES
    requires AllSure(before, J_START, J_START + 2 * c.count) && (ReplayOk(before.live, c) ==> Announced(before, c, before.live))
    requires DiskValid(d) && KeepsBelowControls(before, d) && CrashImage(d, m)
    ensures ReplayOk(m, c) <==> ReplayOk(before.live, c)
    ensures ReplayOk(m, c) ==> View(m, Targets(m, c.count)) == View(before.live, Targets(before.live, c.count))
  {
    hide View, MayBe, ReplayOk, DiskValid;
    var log := J_START + 2 * c.count;
    KeepsSure(before, d, J_START, log);
    SureRange(d, J_START, log, m);
    SameBelowLog(before, d, log);
    SameLog(before.live, m, c);
    SameLog(m, before.live, c);
    if ReplayOk(before.live, c) {
      SameLog(before.live, d.live, c);
      AnnouncedReplays(d, c, before.live, m);
    }
  }

  lemma SameBelowLog(before: Disk, d: Disk, n: nat)
    requires KeepsBelowControls(before, d) && n <= J_CONTROL
    ensures forall i :: 0 <= i < n ==> d.live[i] == before.live[i]
  {
    forall i | 0 <= i < n
      ensures d.live[i] == before.live[i]
    {
      assert d.live[..J_CONTROL][i] == before.live[..J_CONTROL][i];
    }
  }

  lemma OpenableAnchored(d: Disk)
    requires |d.live| == REGION && Openable(d) && !Newest(d.live).Bad?
    ensures Anchored(d)
  {
  }

  /** A replay that stopped can be taken up again. */
  lemma AnnouncedOpenable(d: Disk, c: ControlRecord, base: seq<Sector>)
    requires DiskValid(d) && Anchored(d) && Newest(d.live) == Found(c) && c.state == READY && Announced(d, c, base)
    ensures Openable(d)
  {
    hide MayBe;
    forall i | 0 <= i < J_HOME && i !in Targets(d.live, c.count)
      ensures Sure(d, i, d.live[i])
    {
      SureIsRead(d, i, base[i]);
    }
  }

  // ---- Writing a control record --------------------------------------------

  /** after differs from before in control sectors only, and has lost no certainty. */
  ghost predicate KeepsBelowControls(before: Disk, after: Disk) {
    && |before.live| == |before.durable| == |after.live| == |after.durable| == REGION
    && after.live[..J_CONTROL] == before.live[..J_CONTROL]
    && forall i, x :: 0 <= i < J_CONTROL && Sure(before, i, x) ==> Sure(after, i, x)
  }

  lemma KeepsSure(before: Disk, after: Disk, from: nat, to: nat)
    requires KeepsBelowControls(before, after) && AllSure(before, from, to) && to <= J_CONTROL
    ensures AllSure(after, from, to)
  {
    forall i | from <= i < to
      ensures Sure(after, i, after.live[i])
    {
      assert after.live[..J_CONTROL][i] == before.live[..J_CONTROL][i];
      assert Sure(before, i, before.live[i]);
    }
  }

  /** Power loss keeps the old newest record or makes c the newest. */
  ghost predicate Between(d: Disk, from: ScanResult, c: ControlRecord)
    requires |d.durable| == REGION
  {
    forall m :: CrashImage(d, m) ==> Newest(m) == from || Newest(m) == Found(c)
  }

  /** Numbers alternate between the two sectors, so the successor of the newest record
      replaces the other one. */
  lemma SuccessorIsNewest(m: seq<Sector>, c: ControlRecord)
    requires |m| == REGION && !Newest(m).Bad? && c.number == Number(Newest(m)) + 1 && RecordValid(c, c.number % 2)
    ensures Newest(m[ControlSector(c.number) := Control(c)]) == Found(c)
  {
  }

  /** A control write that may have been cut anywhere. */
  lemma CutControlWrite(before: Disk, after: Disk, c: ControlRecord, ok: bool)
    requires DiskValid(before) && Anchored(before)
    requires c.number == Number(Newest(before.live)) + 1 && RecordValid(c, c.number % 2)
    requires Wrote(before, after, ControlSector(c.number), [Control(c)], ok)
    ensures KeepsBelowControls(before, after) && Between(after, Newest(before.live), c)
    ensures Newest(after.live) == Newest(before.live) || Newest(after.live) == Found(c)
    ensures ok ==> Newest(after.live) == Found(c) && after.live[ControlSector(c.number)] == Control(c)
  {
    var at := ControlSector(c.number);
    forall m: seq<Sector> | CrashImage(after, m) || m == after.live
      ensures Newest(m) == Newest(before.live) || Newest(m) == Found(c)
    {
      forall i | J_CONTROL <= i < REGION && i != at
        ensures m[i] == before.live[i]
      {
        assert Values(after, i) == Values(before, i) == {before.live[i]};
        OnlyOneValue(before.live[i]);
      }
      assert Values(after, at) == {before.live[at], Control(c)};
      assert MayHold(after, at, m[at]);
      if m[at] == Control(c) {
        SuccessorIsNewest(before.live, c);
      } else if m[at].Control? {
        AuthenticIsWritten(after, at, m[at]);
      }
    }
  }

  /** A sync makes certain whatever is read, and nothing else changes. */
  lemma SyncedControlWrite(before: Disk, cut: Disk, after: Disk, c: ControlRecord)
    requires DiskValid(cut) && KeepsBelowControls(before, cut) && DiskValid(after)
    requires Newest(cut.live) == Newest(before.live) || Newest(cut.live) == Found(c)
    requires after == cut.(durable := cut.live, unsynced := map[]) && AllSure(after, 0, REGION)
    ensures KeepsBelowControls(before, after) && Between(after, Newest(before.live), c)
  {
    forall m | CrashImage(after, m)
      ensures Newest(m) == Newest(cut.live)
    {
      SureRange(after, J_CONTROL, REGION, m);
    }
    forall i: nat, x | i < J_CONTROL && Sure(before, i, x)
      ensures Sure(after, i, x)
    {
      SureIsRead(cut, i, x);
      assert Sure(after, i, after.live[i]);
    }
  }

  predicate BodyValid(c: ControlRecord) {
    c.state <= MIGRATE && c.count <= J_ENTRIES && c.policy <= 1
    && (c.state == MIGRATE ==> c.oldBank <= 1 && c.oldBytes in {65536, 131072})
  }

  // ---- Writing the log and the home region ---------------------------------

  /** v with data written at lba. */
  function Replace(v: seq<Sector>, lba: nat, data: seq<Sector>): (r: seq<Sector>)
    requires lba + |data| <= |v|
    ensures |r| == |v|
    ensures forall i :: 0 <= i < |v| ==> r[i] == if lba <= i < lba + |data| then data[i - lba] else v[i]
  {
    v[..lba] + data + v[lba + |data|..]
  }

  lemma ReplaceNone(v: seq<Sector>, lba: nat, data: seq<Sector>)
    requires lba + |data| <= |v|
    ensures Replace(v, lba, data[..0]) == v
  {
  }

  lemma ReplaceNext(v: seq<Sector>, lba: nat, data: seq<Sector>, i: nat)
    requires lba + |data| <= |v| && i < |data|
    ensures Replace(v, lba, data[..i + 1]) == Replace(v, lba, data[..i])[lba + i := data[i]]
  {
  }

  /** The newest record is durable and, unless the home region is being rebuilt under it,
      so is the home region. */
  predicate SettledAt(d: Disk, sequence: nat, recovering: bool)
    requires |d.live| == REGION
  {
    && Anchored(d) && Newest(d.live).Found? && Number(Newest(d.live)) == sequence
    && (if recovering then Newest(d.live).record.state in {RESET, MIGRATE}
        else Newest(d.live).record.state == CLEAN && AllSure(d, 0, J_HOME))
  }

  /** Writing the log disturbs neither the control records nor the home region. */
  lemma LogWriteKeeps(before: Disk, after: Disk, at: nat, x: Sector, ok: bool, sequence: nat)
    requires DiskValid(before) && |before.live| == REGION && J_START <= at < J_CONTROL
    requires Wrote(before, after, at, [x], ok) && SettledAt(before, sequence, false)
    ensures DiskValid(after) && |after.live| == REGION && SettledAt(after, sequence, false)
    ensures Newest(after.live) == Newest(before.live)
    ensures after.live[..J_HOME] == before.live[..J_HOME] && after.reliable == before.reliable
    ensures ok ==> after.live == before.live[at := x]
  {
    assert forall i :: 0 <= i < REGION && i != at ==> after.live[i] == before.live[i] && Values(after, i) == Values(before, i);
  }

  /** Nor does writing the home region disturb the rest. */
  lemma HomeWriteKeeps(before: Disk, after: Disk, at: nat, data: seq<Sector>, ok: bool)
    requires DiskValid(before) && |before.live| == REGION && at + |data| <= J_HOME
    requires Wrote(before, after, at, data, ok) && Anchored(before)
    ensures Anchored(after) && Newest(after.live) == Newest(before.live)
    ensures forall n: nat :: n <= J_CONTROL && AllSure(before, J_START, n) ==> AllSure(after, J_START, n)
    ensures after.live[J_HOME..] == before.live[J_HOME..]
    ensures forall c, staged :: StagedAt(before, c, staged) ==> StagedAt(after, c, staged)
    ensures ok ==> after.live == Replace(before.live, at, data)
  {
    assert forall i :: J_HOME <= i < REGION ==> after.live[i] == before.live[i] && Values(after, i) == Values(before, i);
  }

  lemma {:induction false} FindIs(t: seq<nat>, lba: nat, k: nat)
    requires k <= |t| && (k < |t| ==> t[k] == lba) && forall i :: 0 <= i < k ==> t[i] != lba
    ensures Find(t, lba) == k
  {
    if k > 0 {
      FindIs(t[1..], lba, k - 1);
    }
  }

  /** The targets after logging lba. */
  function Logged(t: seq<nat>, lba: nat): seq<nat> {
    if Find(t, lba) < |t| then t else t + [lba]
  }

  function WithEntry(m: seq<Sector>, k: nat, number: uint64, lba: nat, s: Sector): (r: seq<Sector>)
    requires |m| == REGION && k < J_ENTRIES
    ensures |r| == REGION
  {
    m[PayloadAt(k) := s][HeaderAt(k) := Entry(number, k, lba, s)]
  }

  lemma FindLogged(t: seq<nat>, lba: nat, x: nat)
    ensures var t2 := Logged(t, lba);
      Find(t2, x) == if x == lba || Find(t, x) < |t| then Find(t, x) else |t2|
  {
    var t2 := Logged(t, lba);
    FindIs(t2, x, if x == lba || Find(t, x) < |t| then Find(t, x) else |t2|);
  }

  lemma LoggedEntries(m: seq<Sector>, t: seq<nat>, number: uint64, lba: nat, s: Sector)
    requires |m| == REGION && lba < J_HOME && Find(t, lba) < J_ENTRIES && |t| <= J_ENTRIES
    requires EntriesOk(m, |t|, number) && Targets(m, |t|) == t && Distinct(t)
    ensures var t2, m2 := Logged(t, lba), WithEntry(m, Find(t, lba), number, lba, s);
      |t2| <= J_ENTRIES && EntriesOk(m2, |t2|, number) && Targets(m2, |t2|) == t2 && Distinct(t2)
  {
    hide Find;
    var t2, m2 := Logged(t, lba), WithEntry(m, Find(t, lba), number, lba, s);
    forall i | 0 <= i < |t2|
      ensures EntryOk(m2, i, number) && TargetOf(m2[HeaderAt(i)]) == t2[i]
    {
      if i < |t| {
        assert EntryOk(m, i, number) && TargetOf(m[HeaderAt(i)]) == t[i];
      }
    }
    assert Targets(m2, |t2|) == t2;
  }

  /** Logging a sector changes exactly that sector of the view. */
  lemma LoggedView(m: seq<Sector>, t: seq<nat>, number: uint64, lba: nat, s: Sector)
    requires |m| == REGION && lba < J_HOME && Find(t, lba) < J_ENTRIES && |t| <= J_ENTRIES
    ensures |Logged(t, lba)| <= J_ENTRIES
    ensures View(WithEntry(m, Find(t, lba), number, lba, s), Logged(t, lba)) == View(m, t)[lba := s]
  {
    hide Find;
    var t2, m2 := Logged(t, lba), WithEntry(m, Find(t, lba), number, lba, s);
    forall x: nat | x < J_HOME
      ensures View(m2, t2)[x] == View(m, t)[lba := s][x]
    {
      FindLogged(t, lba, x);
    }
  }

  lemma EmptyView(m: seq<Sector>)
    requires |m| == REGION
    ensures View(m, []) == m[..J_HOME]
  {
  }

  lemma NothingCut(d: Disk)
    requires |d.live| == |d.durable| == REGION
    ensures KeepsBelowControls(d, d)
  {
  }

  lemma NoEntries(m: seq<Sector>, t: seq<nat>, number: uint64)
    requires |m| == REGION && |t| == 0
    ensures EntriesOk(m, 0, number) && Targets(m, 0) == t
  {
  }

  /** The first n entries of base are home, as far as reads can tell. */
  predicate Rewriting(m: seq<Sector>, c: ControlRecord, base: seq<Sector>, n: nat) {
    && |base| == |m| == REGION && n <= c.count && ReplayOk(base, c)
    && (forall k :: 0 <= k < c.count ==> Targets(base, c.count)[k] < J_HOME)
    && m[..J_HOME] == Replayed(base, Targets(base, c.count), n) && m[J_HOME..] == base[J_HOME..]
  }

  /** A replay that has written the first n entries home. */
  ghost predicate Replaying(d: Disk, c: ControlRecord, base: seq<Sector>, n: nat) {
    && DiskValid(d) && Rewriting(d.live, c, base, n)
    && Anchored(d) && Newest(d.live) == Found(c) && Announced(d, c, base)
  }

  /** Of the entries of c the first n were written home since before, the last perhaps cut. */
  ghost predicate PartlyHome(before: Disk, after: Disk, c: ControlRecord, n: nat) {
    && |before.live| == |before.durable| == |after.live| == REGION && n <= c.count <= J_ENTRIES
    && DiskValid(after) && after.reliable == before.reliable && after.durable == before.durable
    && var t := Targets(before.live, c.count);
      && (forall i :: 0 <= i < REGION && i !in t[..n] ==> after.live[i] == before.live[i] && Values(after, i) == Values(before, i))
      && forall k :: 0 <= k < n ==> t[k] < J_HOME && Values(after, t[k]) == Values(before, t[k]) + {before.live[PayloadAt(k)]}
  }

  lemma RewritingStarts(m: seq<Sector>, c: ControlRecord)
    requires |m| == REGION && ReplayOk(m, c)
    ensures Rewriting(m, c, m, 0)
  {
    forall k | 0 <= k < c.count
      ensures Targets(m, c.count)[k] < J_HOME
    {
      assert EntryOk(m, k, c.number);
    }
  }

  /** One more entry home, cut or not. */
  lemma RewritingStep(start: Disk, before: Disk, after: Disk, c: ControlRecord, n: nat, ok: bool)
    requires DiskValid(before) && |start.live| == |start.durable| == |before.live| == REGION
    requires Rewriting(before.live, c, start.live, n) && PartlyHome(start, before, c, n)
    requires n < c.count && Targets(start.live, c.count)[n] < J_HOME
    requires Wrote(before, after, Targets(start.live, c.count)[n], [start.live[PayloadAt(n)]], ok)
    ensures PartlyHome(start, after, c, n + 1) && (ok ==> Rewriting(after.live, c, start.live, n + 1))
  {
    hide MayBe, EntryOk, LogSectors, Targets, Wrote, PartlyHome;
    var t := Targets(start.live, c.count);
    PartlyStep(start, before, after, c, n, ok);
    RewrittenLive(before, after, t[n], start.live[PayloadAt(n)], ok);
    if ok {
      assert after.live[..J_HOME] == before.live[..J_HOME][t[n] := start.live[PayloadAt(n)]];
    }
  }

  lemma RewrittenLive(before: Disk, after: Disk, at: nat, x: Sector, ok: bool)
    requires DiskValid(before) && |before.live| == REGION && at < J_HOME && Wrote(before, after, at, [x], ok)
    ensures ok ==> after.live == before.live[at := x]
  {
  }

  lemma PartlyStep(start: Disk, before: Disk, after: Disk, c: ControlRecord, n: nat, ok: bool)
    requires DiskValid(before) && |start.live| == |start.durable| == |before.live| == REGION && PartlyHome(start, before, c, n)
    requires n < c.count && Distinct(Targets(start.live, c.count)) && Targets(start.live, c.count)[n] < J_HOME
    requires Wrote(before, after, Targets(start.live, c.count)[n], [start.live[PayloadAt(n)]], ok)
    ensures PartlyHome(start, after, c, n + 1)
  {
    hide MayBe, Targets;
    var t := Targets(start.live, c.count);
    assert t[..n + 1] == t[..n] + [t[n]];
    assert forall k :: 0 <= k < n ==> t[k] != t[n];
  }

  /** An announced transaction that is being written home stays announced. */
  lemma PartlyAnnounced(before: Disk, after: Disk, c: ControlRecord, n: nat)
    requires DiskValid(before) && |before.live| == REGION && Anchored(before) && Announced(before, c, before.live)
    requires PartlyHome(before, after, c, n)
    ensures Anchored(after) && Newest(after.live) == Newest(before.live) && Announced(after, c, before.live)
  {
    hide MayBe, ReplayOk, RecordValid;
    var t := Targets(before.live, c.count);
    forall i | J_HOME <= i < REGION
      ensures i !in t[..n] && after.live[i] == before.live[i] && Values(after, i) == Values(before, i)
    {
    }
    SameLog(before.live, after.live, c);
    forall i | 0 <= i < J_HOME && i !in Targets(after.live, c.count)
      ensures Sure(after, i, before.live[i])
    {
      assert i !in t[..n] && Sure(before, i, before.live[i]);
    }
  }

  lemma ReplayingOpens(d: Disk, c: ControlRecord, base: seq<Sector>, n: nat)
    requires Replaying(d, c, base, n) && c.state == READY
    ensures Openable(d)
  {
    hide Openable;
    AnnouncedOpenable(d, c, base);
  }

  lemma ReplayingRecovers(d: Disk, c: ControlRecord, base: seq<Sector>)
    requires DiskValid(d) && |d.live| == REGION && Anchored(d) && Newest(d.live) == Found(c) && c.state == READY
    requires Announced(d, c, base) && Newest(base) == Found(c) && ReplayOk(base, c)
    ensures RecoversTo(d, {Recover(base)})
  {
    ReadyRecovers(d, c, base);
  }

  lemma NoneHome(d: Disk, c: ControlRecord)
    requires DiskValid(d) && |d.live| == REGION && c.count <= J_ENTRIES
    ensures PartlyHome(d, d, c, 0)
  {
  }

  lemma PartlySized(before: Disk, after: Disk, c: ControlRecord, n: nat)
    requires PartlyHome(before, after, c, n)
    ensures DiskValid(after) && |after.live| == REGION && after.reliable == before.reliable && n <= c.count <= J_ENTRIES
  {
  }

  /** From a region an open may find, at any point of the copying. */
  lemma HomeAnnounced(start: Disk, d: Disk, c: ControlRecord, n: nat)
    requires DiskValid(start) && |start.live| == REGION && Openable(start)
    requires Newest(start.live) == Found(c) && c.state == READY && ReplayOk(start.live, c) && PartlyHome(start, d, c, n)
    ensures DiskValid(d) && |d.live| == REGION && d.reliable == start.reliable
    ensures RecoversTo(d, {Recover(start.live)}) && Openable(d) && Newest(d.live) == Found(c)
    ensures Rewriting(d.live, c, start.live, c.count) ==> Replaying(d, c, start.live, c.count)
  {
    hide Announced, ReplayOk, Anchored, Recover, RecoversTo, Rewriting;
    OpenableAnchored(start);
    PartlyAnnounced(start, d, c, n);
    ReplayingRecovers(d, c, start.live);
    AnnouncedOpenable(d, c, start.live);
  }

  lemma ReplayReads(m: seq<Sector>, c: ControlRecord, base: seq<Sector>, n: nat, k: nat)
    requires Rewriting(m, c, base, n) && k < c.count
    ensures EntryOk(m, k, c.number) && m[PayloadAt(k)] == base[PayloadAt(k)]
    ensures TargetOf(m[HeaderAt(k)]) == Targets(base, c.count)[k] < J_HOME
  {
    assert EntryOk(base, k, c.number);
    assert m[HeaderAt(k)] == m[J_HOME..][HeaderAt(k) - J_HOME] == base[J_HOME..][HeaderAt(k) - J_HOME] == base[HeaderAt(k)];
    assert m[PayloadAt(k)] == m[J_HOME..][PayloadAt(k) - J_HOME] == base[J_HOME..][PayloadAt(k) - J_HOME] == base[PayloadAt(k)];
  }

  lemma {:induction false} ReplayedTarget(m: seq<Sector>, c: ControlRecord, base: seq<Sector>, k: nat)
    requires Rewriting(m, c, base, c.count) && k < c.count
    ensures Targets(base, c.count)[k] < J_HOME && m[Targets(base, c.count)[k]] == base[PayloadAt(k)]
  {
    var t := Targets(base, c.count);
    ReplayedAt(base, t, c.count, t[k]);
    FindIs(t, t[k], k);
    assert m[t[k]] == m[..J_HOME][t[k]];
  }

  lemma SyncKeepsReplay(before: Disk, after: Disk, c: ControlRecord, base: seq<Sector>, ok: bool)
    requires Replaying(before, c, base, c.count) && c.state == READY && Newest(base) == Found(c)
    requires after == if ok then before.(durable := before.live, unsynced := map[]) else before
    requires DiskValid(after) && (ok ==> AllSure(after, 0, |after.live|))
    ensures Replaying(after, c, base, c.count) && RecoversTo(after, {Recover(base)})
    ensures ok ==> AllSure(after, 0, REGION)
  {
    if ok {
      forall i | 0 <= i < J_HOME && i !in Targets(after.live, c.count)
        ensures Sure(after, i, base[i])
      {
        assert Sure(before, i, base[i]);
        SureIsRead(before, i, base[i]);
      }
    }
    ReplayingRecovers(after, c, base);
  }

  lemma NewestValid(m: seq<Sector>, c: ControlRecord)
    requires |m| == REGION && Newest(m) == Found(c)
    ensures RecordValid(c, c.number % 2)
  {
  }

  lemma ControlsValid(m: seq<Sector>, n: nat)
    requires |m| == REGION && !Newest(m).Bad? && m[ControlSector(n)].Control?
    ensures RecordValid(m[ControlSector(n)].record, n % 2)
  {
  }

  lemma SettledClean(d: Disk, c: ControlRecord)
    requires DiskValid(d) && |d.live| == REGION && AllSure(d, 0, REGION) && Anchored(d)
    requires Newest(d.live) == Found(c) && c.state == CLEAN
    ensures SettledAt(d, c.number, false)
  {
  }

  /** Everything the log says has been written home. */
  lemma ReplayDone(d: Disk, c: ControlRecord, base: seq<Sector>)
    requires Replaying(d, c, base, c.count) && c.state == READY && Newest(base) == Found(c)
    ensures Recover(base) == Home(d.live[..J_HOME]) == Home(View(base, Targets(base, c.count)))
  {
    ReplayIsView(base, Targets(base, c.count));
  }

  /** The record that ends a replay may be cut: either way the result is recovered. */
  lemma EndingRecovers(before: Disk, after: Disk, c: ControlRecord, base: seq<Sector>, clean: ControlRecord)
    requires Replaying(before, c, base, c.count) && c.state == READY && Newest(base) == Found(c) && AllSure(before, 0, REGION)
    requires DiskValid(after) && KeepsBelowControls(before, after) && Between(after, Found(c), clean) && clean.state == CLEAN
    ensures RecoversTo(after, {Recover(base)}) && Recover(base) == Home(after.live[..J_HOME])
  {
    ReplayDone(before, c, base);
    KeepsSure(before, after, 0, J_HOME);
    KeepsSure(before, after, J_START, J_START + 2 * c.count);
    assert after.live[..J_HOME] == after.live[..J_CONTROL][..J_HOME] == before.live[..J_HOME];
    forall i | J_START <= i < J_START + 2 * c.count
      ensures after.live[i] == before.live[i]
    {
      assert after.live[..J_CONTROL][i] == before.live[..J_CONTROL][i];
    }
    SameLog(before.live, after.live, c);
    assert Announced(after, c, base);
    forall m | CrashImage(after, m)
      ensures Recover(m) == Home(View(base, Targets(base, c.count)))
    {
      SureRange(after, 0, J_HOME, m);
      AnnouncedReplays(after, c, base, m);
    }
  }

  lemma AlsoRecovers(d: Disk, a: Recovered, b: Recovered)
    ensures RecoversTo(d, {a}) ==> RecoversTo(d, {a, b}) && RecoversTo(d, {b, a})
  {
  }

  /** While a complete log is being announced, a power loss recovers either the home region
      as it is or the log's view of it. */
  lemma AnnouncingRecovers(before: Disk, after: Disk, o: ControlRecord, c: ControlRecord)
    requires DiskValid(before) && |before.live| == REGION && AllSure(before, 0, REGION)
    requires Newest(before.live) == Found(o) && o.state == CLEAN && c.state == READY && ReplayOk(before.live, c)
    requires DiskValid(after) && KeepsBelowControls(before, after) && Between(after, Found(o), c)
    ensures RecoversTo(after, {Home(before.live[..J_HOME]), Home(View(before.live, Targets(before.live, c.count)))})
    ensures Newest(after.live) == Found(c) ==>
      ReplayOk(after.live, c) && Recover(after.live) == Home(View(before.live, Targets(before.live, c.count)))
  {
    forall m | (CrashImage(after, m) || m == after.live) && |m| == REGION && Newest(m) in {Found(o), Found(c)}
      ensures Recover(m) in {Home(before.live[..J_HOME]), Home(View(before.live, Targets(before.live, c.count)))}
      ensures Newest(m) == Found(c) ==>
        ReplayOk(m, c) && Recover(m) == Home(View(before.live, Targets(before.live, c.count)))
    {
      KeepsSure(before, after, 0, J_CONTROL);
      if CrashImage(after, m) {
        SureRange(after, 0, J_CONTROL, m);
      }
      assert after.live[..J_CONTROL] == after.live[0..J_CONTROL];
      assert m[..J_CONTROL] == before.live[..J_CONTROL];
      SameBelow(before.live, m, c);
    }
  }

  lemma SameBelow(a: seq<Sector>, b: seq<Sector>, c: ControlRecord)
    requires |a| == |b| == REGION && a[..J_CONTROL] == b[..J_CONTROL] && c.count <= J_ENTRIES && ReplayOk(a, c)
    ensures a[..J_HOME] == b[..J_HOME] && ReplayOk(b, c)
    ensures View(a, Targets(a, c.count)) == View(b, Targets(b, c.count))
  {
    forall i | 0 <= i < J_CONTROL
      ensures a[i] == b[i]
    {
      assert a[..J_CONTROL][i] == b[..J_CONTROL][i];
    }
    SameLog(a, b, c);
    assert View(a, Targets(a, c.count)) == View(b, Targets(b, c.count));
  }

  /** What an open makes of an unfinished rebuild. */
  function Unfinished(c: ControlRecord, staged: seq<Sector>): Recovered {
    if c.state == RESET then Fresh(c.policy) else Migrating(c, staged)
  }

  /** The snapshot a migration reads from is durable. */
  predicate StagedAt(d: Disk, c: ControlRecord, staged: seq<Sector>) {
    c.state == MIGRATE ==>
      |staged| == SnapshotSectors(c.oldBytes) && |d.durable| == REGION
      && forall i :: 0 <= i < |staged| ==> Sure(d, J_START + i, staged[i])
  }

  lemma RebuildAnnounced(before: Disk, after: Disk, o: ControlRecord, c: ControlRecord)
    requires DiskValid(before) && |before.live| == REGION && AllSure(before, 0, J_HOME)
    requires Newest(before.live) == Found(o) && o.state == CLEAN && c.state == RESET
    requires DiskValid(after) && KeepsBelowControls(before, after) && Between(after, Found(o), c)
    ensures RecoversTo(after, {Home(before.live[..J_HOME]), Fresh(c.policy)})
  {
    KeepsSure(before, after, 0, J_HOME);
    assert after.live[..J_HOME] == after.live[..J_CONTROL][..J_HOME] == before.live[..J_HOME];
    forall m | CrashImage(after, m)
      ensures Recover(m) in {Home(before.live[..J_HOME]), Fresh(c.policy)}
    {
      SureRange(after, 0, J_HOME, m);
    }
  }

  lemma FreshAnnounced(before: Disk, after: Disk, c: ControlRecord)
    requires DiskValid(before) && |before.live| == REGION && Openable(before)
    requires DiskValid(after) && KeepsBelowControls(before, after) && Between(after, Newest(before.live), c)
    requires c.state == RESET && !Newest(before.live).Bad?
    ensures RecoversTo(after, {Recover(before.live), Fresh(c.policy)})
  {
    hide MayBe, Openable, DiskValid;
    forall m | CrashImage(after, m)
      ensures Recover(m) in {Recover(before.live), Fresh(c.policy)}
    {
      if Newest(m) == Newest(before.live) {
        StillRecovered(before, after, m);
      }
    }
  }

  /** Rebuilding the home region under a durable record. */
  lemma RebuildingRecovers(d: Disk, c: ControlRecord, staged: seq<Sector>)
    requires DiskValid(d) && Anchored(d) && Newest(d.live) == Found(c) && c.state in {RESET, MIGRATE} && StagedAt(d, c, staged)
    ensures RecoversTo(d, {Unfinished(c, staged)})
  {
    forall m | CrashImage(d, m)
      ensures Recover(m) == Unfinished(c, staged)
    {
      AnchoredScans(d, m);
      StagedIsRead(d, c, staged, m);
    }
  }

  lemma StagedIsRead(d: Disk, c: ControlRecord, staged: seq<Sector>, m: seq<Sector>)
    requires DiskValid(d) && StagedAt(d, c, staged) && CrashImage(d, m) && |m| == REGION
    ensures c.state == MIGRATE ==> Staged(m, c) == staged == Staged(d.live, c)
  {
    if c.state == MIGRATE {
      forall i | 0 <= i < |staged|
        ensures Staged(m, c)[i] == staged[i] == Staged(d.live, c)[i]
      {
        SureIsRead(d, J_START + i, staged[i]);
      }
    }
  }

  /** A record over a disk that is durable leaves what it names durable. */
  lemma StagedNow(d: Disk, c: ControlRecord)
    requires |d.live| == REGION && AllSure(d, 0, REGION)
    ensures StagedAt(d, c, Staged(d.live, c))
  {
    forall i | 0 <= i < |Staged(d.live, c)|
      ensures Sure(d, J_START + i, Staged(d.live, c)[i])
    {
      assert Staged(d.live, c)[i] == d.live[J_START + i];
    }
  }

  /** Announcing a migration: a power loss finds the snapshots or their staged copy. */
  lemma MigrationAnnounced(before: Disk, after: Disk, c: ControlRecord)
    requires DiskValid(before) && |before.live| == REGION && AllSure(before, 0, REGION)
    requires Newest(before.live) == Absent && c.state == MIGRATE
    requires DiskValid(after) && KeepsBelowControls(before, after) && Between(after, Absent, c)
    ensures RecoversTo(after, {Legacy(before.live[..J_HOME]), Migrating(c, Staged(before.live, c))})
  {
    KeepsSure(before, after, 0, J_CONTROL);
    forall m | CrashImage(after, m)
      ensures Recover(m) in {Legacy(before.live[..J_HOME]), Migrating(c, Staged(before.live, c))}
    {
      SureRange(after, 0, J_CONTROL, m);
      assert m[..J_CONTROL] == before.live[..J_CONTROL];
      assert m[..J_HOME] == m[..J_CONTROL][..J_HOME] && before.live[..J_HOME] == before.live[..J_CONTROL][..J_HOME];
      StagedBelow(m, before.live, c);
    }
  }

  lemma StagedBelow(a: seq<Sector>, b: seq<Sector>, c: ControlRecord)
    requires |a| == |b| == REGION && a[..J_CONTROL] == b[..J_CONTROL]
    ensures Staged(a, c) == Staged(b, c)
  {
    forall i | 0 <= i < SnapshotSectors(c.oldBytes)
      ensures Staged(a, c)[i] == Staged(b, c)[i]
    {
      var j := J_START + i;
      assert a[j] == a[..J_CONTROL][j] == b[..J_CONTROL][j] == b[j];
    }
  }

  lemma RebuildEnds(before: Disk, after: Disk, c: ControlRecord, staged: seq<Sector>, clean: ControlRecord)
    requires DiskValid(before) && |before.live| == REGION && AllSure(before, 0, J_HOME) && StagedAt(before, c, staged)
    requires Newest(before.live) == Found(c) && c.state in {RESET, MIGRATE} && clean.state == CLEAN
    requires DiskValid(after) && KeepsBelowControls(before, after) && Between(after, Found(c), clean)
    ensures RecoversTo(after, {Unfinished(c, staged), Home(before.live[..J_HOME])})
  {
    KeepsSure(before, after, 0, J_HOME);
    assert StagedAt(after, c, staged);
    assert after.live[..J_HOME] == after.live[..J_CONTROL][..J_HOME] == before.live[..J_HOME];
    forall m | CrashImage(after, m)
      ensures Recover(m) in {Unfinished(c, staged), Home(before.live[..J_HOME])}
    {
      StagedIsRead(after, c, staged, m);
      SureRange(after, 0, J_HOME, m);
    }
  }

  lemma RenewRecovers(before: Disk, after: Disk, o: ControlRecord, clean: ControlRecord)
    requires DiskValid(before) && |before.live| == REGION && AllSure(before, 0, J_HOME)
    requires Newest(before.live) == Found(o) && o.state == CLEAN && clean.state == CLEAN
    requires DiskValid(after) && KeepsBelowControls(before, after) && Between(after, Found(o), clean)
    ensures RecoversTo(after, {Home(before.live[..J_HOME])})
  {
    KeepsSure(before, after, 0, J_HOME);
    assert after.live[..J_HOME] == after.live[..J_CONTROL][..J_HOME] == before.live[..J_HOME];
    forall m | CrashImage(after, m)
      ensures Recover(m) == Home(before.live[..J_HOME])
    {
      SureRange(after, 0, J_HOME, m);
    }
  }

  /** The record before c is durable, and nothing but c and older records were written over c's sector. */
  predicate Precedes(d: Disk, o: ControlRecord, c: ControlRecord) {
    && |d.durable| == REGION && Sure(d, ControlSector(o.number), Control(o)) && o.number + 1 == c.number
    && forall x :: x in Values(d, ControlSector(c.number)) && x.Control? ==>
         x.record == c || (RecordValid(x.record, c.number % 2) && x.record.number < o.number)
  }

  /** Entry k changes the sector it is for. */
  predicate Alters(m: seq<Sector>, c: ControlRecord, k: nat) {
    && |m| == REGION && k < c.count <= J_ENTRIES
    && var t := Targets(m, c.count)[k];
      t < J_HOME && m[t] != m[PayloadAt(k)]
  }

  /** Writing b over a can leave something else. */
  ghost predicate Tears(a: Sector, b: Sector) {
    exists g :: MayBe({a, b}, g) && g != a && g != b
  }

  /** None of the first n entries changes anything or, if one does, it is the only one of all
      that does and its sector cannot be torn. */
  ghost predicate Harmless(m: seq<Sector>, c: ControlRecord, n: nat) {
    && |m| == REGION && n <= c.count <= J_ENTRIES
    && forall k :: 0 <= k < n && Alters(m, c, k) ==>
         !Tears(m[Targets(m, c.count)[k]], m[PayloadAt(k)]) && forall j :: 0 <= j < c.count && Alters(m, c, j) ==> j == k
  }

  /** A data sector that changes can always be torn. */
  lemma DataTears(m: seq<Sector>, c: ControlRecord, n: nat, k: nat)
    requires k < n <= c.count && Alters(m, c, k) && m[Targets(m, c.count)[k]].Data? && m[PayloadAt(k)].Data?
    ensures !Harmless(m, c, n)
  {
    var a, b := m[Targets(m, c.count)[k]], m[PayloadAt(k)];
    var g := Garbage(a, b);
    TornData({a, b}, a, b, g);
    assert MayBe({a, b}, g) && Tears(a, b);
  }

  /** Replay trusts the record it has read. Up to its sync a power loss recovers the old disk or
      the new one exactly if the record is durable or what is home so far is harmless. */
  lemma ReplaySafeExactlyWhenDurable(before: Disk, after: Disk, o: ControlRecord, c: ControlRecord, n: nat)
    requires DiskValid(before) && |before.live| == REGION && AllSure(before, 0, J_CONTROL)
    requires Newest(before.live) == Found(c) && c.state == READY && ReplayOk(before.live, c)
    requires Precedes(before, o, c) && o.state == CLEAN && PartlyHome(before, after, c, n)
    ensures RecoversTo(after, {Home(before.live[..J_HOME]), Home(View(before.live, Targets(before.live, c.count)))})
        <==> Sure(before, ControlSector(c.number), Control(c)) || Harmless(before.live, c, n)
  {
    hide View, ReplayOk, RecoversTo, Recover, Newest, PartlyHome, Alters, Tears;
    var at := ControlSector(c.number);
    NewestValid(before.live, c);
    SureIsRead(before, ControlSector(o.number), Control(o));
    ControlsValid(before.live, o.number);
    CountFits(before.live, c);
    PartlySized(before, after, c, n);
    if Sure(before, at, Control(c)) {
      SureIsRead(before, at, Control(c));
      assert AllSure(before, J_CONTROL, REGION);
      DurableReplayRecovers(before, after, c, n);
      AlsoRecovers(after, Home(View(before.live, Targets(before.live, c.count))), Home(before.live[..J_HOME]));
    } else if Harmless(before.live, c, n) {
      HarmlessRecovers(before, after, o, c, n);
    } else {
      var m := LostRecord(before, after, o, c, n);
      NotRecovered(after, m, {Home(before.live[..J_HOME]), Home(View(before.live, Targets(before.live, c.count)))});
    }
  }

  /** A record whose write was accepted, with the sync after it or without. */
  ghost predicate Recorded(before: Disk, after: Disk, c: ControlRecord, synced: bool) {
    && DiskValid(before) && |before.live| == REGION
    && exists cut :: Wrote(before, cut, ControlSector(c.number), [Control(c)], true)
                     && after == if synced then cut.(durable := cut.live, unsynced := map[]) else cut
  }

  /** Either way it is what an open finds; it is durable exactly if the sync succeeded. */
  lemma RecordedReads(before: Disk, after: Disk, o: ControlRecord, c: ControlRecord, synced: bool)
    requires Recorded(before, after, c, synced) && AllSure(before, 0, REGION) && Newest(before.live) == Found(o)
    requires c.number == o.number + 1 && RecordValid(c, c.number % 2)
    ensures DiskValid(before) && |before.live| == REGION && DiskValid(after) && |after.live| == REGION
    ensures AllSure(after, 0, if synced then REGION else J_CONTROL) && Newest(after.live) == Found(c)
    ensures after.live == before.live[ControlSector(c.number) := Control(c)]
    ensures Sure(after, ControlSector(o.number), Control(o))
    ensures var at := ControlSector(c.number);
      && (synced ==> Values(after, at) == {Control(c)})
      && (!synced ==> Values(after, at) == {before.live[at], Control(c)} && before.live[at] != Control(c))
      && (before.live[at].Control? ==> RecordValid(before.live[at].record, c.number % 2) && before.live[at].record.number < o.number)
  {
    hide MayBe, RecordValid;
    var at := ControlSector(c.number);
    var cut :| Wrote(before, cut, at, [Control(c)], true)
               && after == if synced then cut.(durable := cut.live, unsynced := map[]) else cut;
    NewestValid(before.live, o);
    SuccessorIsNewest(before.live, c);
    OlderRecord(before.live, o);
    assert Values(cut, at) == {before.live[at], Control(c)};
    assert cut.live == before.live[at := Control(c)];
    if synced {
      SyncedIsSure(after);
    } else {
      forall i | 0 <= i < REGION && i != at
        ensures Sure(after, i, after.live[i])
      {
        assert Values(after, i) == Values(before, i) && Sure(before, i, before.live[i]);
      }
    }
    assert ControlSector(o.number) != at && after.live[ControlSector(o.number)] == Control(o);
  }

  lemma OlderRecord(m: seq<Sector>, o: ControlRecord)
    requires |m| == REGION && Newest(m) == Found(o)
    ensures m[ControlSector(o.number)] == Control(o)
    ensures var s := m[ControlSector(o.number + 1)];
      s.Control? ==> RecordValid(s.record, (o.number + 1) % 2) && s.record.number < o.number
  {
  }

  /** A commit whose record was accepted but not synced reports a failure. Opened again, the
      store finds that record and replays it; however far that has come before its sync, a power
      loss recovers the old disk or the new one exactly if the record had been synced or what is
      home so far is harmless. */
  lemma CommitThenOpen(before: Disk, found: Disk, after: Disk, o: ControlRecord, c: ControlRecord, synced: bool, n: nat)
    requires Recorded(before, found, c, synced) && AllSure(before, 0, REGION) && Newest(before.live) == Found(o) && o.state == CLEAN
    requires c.state == READY && c.number == o.number + 1 && RecordValid(c, c.number % 2) && ReplayOk(before.live, c)
    requires DiskValid(found) && |found.live| == REGION && PartlyHome(found, after, c, n)
    ensures Newest(found.live) == Found(c) && ReplayOk(found.live, c)
    ensures RecoversTo(after, {Home(before.live[..J_HOME]), Home(View(before.live, Targets(before.live, c.count)))})
        <==> synced || Harmless(before.live, c, n)
  {
    hide View, ReplayOk, RecoversTo, Recover, Newest, MayBe, Recorded, RecordValid, PartlyHome, Harmless;
    RecordedReads(before, found, o, c, synced);
    assert found.live[..J_CONTROL] == before.live[..J_CONTROL];
    CountFits(before.live, c);
    SameBelow(before.live, found.live, c);
    SameHarm(before.live, found.live, c, n);
    ReplaySafeExactlyWhenDurable(found, after, o, c, n);
  }

  lemma SameHarm(a: seq<Sector>, b: seq<Sector>, c: ControlRecord, n: nat)
    requires |a| == |b| == REGION && a[..J_CONTROL] == b[..J_CONTROL] && c.count <= J_ENTRIES
    ensures Harmless(a, c, n) <==> Harmless(b, c, n)
  {
    hide Tears, View;
    forall i | 0 <= i < J_CONTROL
      ensures a[i] == b[i]
    {
      assert a[..J_CONTROL][i] == b[..J_CONTROL][i];
    }
    SameLog(a, b, c);
    assert forall k: nat :: k < c.count ==> (Alters(a, c, k) <==> Alters(b, c, k)) && a[PayloadAt(k)] == b[PayloadAt(k)];
  }

  lemma CountFits(m: seq<Sector>, c: ControlRecord)
    requires ReplayOk(m, c)
    ensures c.count <= J_ENTRIES
  {
  }

  /** A commit whose last record was accepted but not synced. Opened again, the store goes by
      it; from the first log sector of the next transaction on, a power loss recovers the disk
      exactly if the record had been synced: otherwise the record before it comes back and
      finds its log overwritten. */
  lemma RetireThenWrite(before: Disk, found: Disk, after: Disk, c: ControlRecord, clean: ControlRecord, s: Sector, synced: bool, ok: bool)
    requires Recorded(before, found, clean, synced) && AllSure(before, 0, REGION) && Newest(before.live) == Found(c)
    requires c.state == READY && c.count > 0 && ReplayOk(before.live, c)
    requires clean.state == CLEAN && clean.number == c.number + 1 && RecordValid(clean, clean.number % 2)
    requires DiskValid(found) && |found.live| == REGION && s != before.live[PayloadAt(0)]
    requires Wrote(found, after, PayloadAt(0), [s], ok)
    ensures Recover(found.live) == Home(before.live[..J_HOME])
    ensures RecoversTo(after, {Home(before.live[..J_HOME])}) <==> synced
  {
    hide View, ReplayOk, MayBe, Recorded, RecordValid, Newest;
    RecordedReads(before, found, c, clean, synced);
    assert found.live[..J_HOME] == before.live[..J_HOME];
    if synced {
      SureWithin(found, J_CONTROL, REGION);
      SureWithin(found, 0, J_HOME);
      LogWriteKeeps(found, after, PayloadAt(0), s, ok, clean.number);
      CleanRecovers(after);
    } else {
      var m := LostRetirement(before, found, after, c, clean, s, ok);
      NotRecovered(after, m, {Home(before.live[..J_HOME])});
    }
  }

  lemma LostRetirement(before: Disk, found: Disk, after: Disk, c: ControlRecord, clean: ControlRecord, s: Sector, ok: bool)
    returns (m: seq<Sector>)
    requires DiskValid(before) && |before.live| == REGION && Newest(before.live) == Found(c) && c.state == READY
    requires c.count > 0 && ReplayOk(before.live, c) && s != before.live[PayloadAt(0)]
    requires DiskValid(found) && |found.live| == REGION && found.live == before.live[ControlSector(clean.number) := Control(clean)]
    requires before.live[ControlSector(clean.number)] in Values(found, ControlSector(clean.number))
    requires Wrote(found, after, PayloadAt(0), [s], ok)
    ensures CrashImage(after, m) && Recover(m) == Broken
  {
    hide View, MayBe;
    var at := ControlSector(clean.number);
    m := after.live[at := before.live[at]][PayloadAt(0) := s];
    Possible(after, at, before.live[at]);
    Possible(after, PayloadAt(0), s);
    assert m[J_CONTROL] == before.live[J_CONTROL] && m[J_CONTROL + 1] == before.live[J_CONTROL + 1];
    assert EntryOk(before.live, 0, c.number);
    assert m[HeaderAt(0)] == before.live[HeaderAt(0)];
    assert !EntryOk(m, 0, c.number);
  }

  lemma NotRecovered(d: Disk, m: seq<Sector>, allowed: set<Recovered>)
    requires |d.durable| == REGION && CrashImage(d, m) && Recover(m) !in allowed
    ensures !RecoversTo(d, allowed)
  {
  }

  lemma DurableReplayRecovers(before: Disk, after: Disk, c: ControlRecord, n: nat)
    requires DiskValid(before) && |before.live| == REGION && AllSure(before, 0, J_CONTROL) && Anchored(before)
    requires Newest(before.live) == Found(c) && c.state == READY && ReplayOk(before.live, c)
    requires PartlyHome(before, after, c, n)
    ensures RecoversTo(after, {Home(View(before.live, Targets(before.live, c.count)))})
  {
    hide View, ReplayOk, Newest, PartlyHome;
    NewestValid(before.live, c);
    assert Announced(before, c, before.live);
    PartlySized(before, after, c, n);
    PartlyAnnounced(before, after, c, n);
    ReadyRecovers(after, c, before.live);
  }

  /** While what is home is harmless, power loss finds the record or the one before. */
  lemma HarmlessRecovers(before: Disk, after: Disk, o: ControlRecord, c: ControlRecord, n: nat)
    requires DiskValid(before) && |before.live| == REGION && AllSure(before, 0, J_CONTROL)
    requires Newest(before.live) == Found(c) && c.state == READY && ReplayOk(before.live, c) && o.state == CLEAN
    requires Precedes(before, o, c) && PartlyHome(before, after, c, n) && Harmless(before.live, c, n)
    ensures RecoversTo(after, {Home(before.live[..J_HOME]), Home(View(before.live, Targets(before.live, c.count)))})
  {
    hide View, ReplayOk, MayBe, PartlyHome, Harmless;
    PartlySized(before, after, c, n);
    forall m: seq<Sector> | CrashImage(after, m)
      ensures Recover(m) in {Home(before.live[..J_HOME]), Home(View(before.live, Targets(before.live, c.count)))}
    {
      CutReplay(before, after, o, c, n, m);
      if Newest(m) == Found(o) {
        HarmlessHome(before, after, c, n, m);
      }
    }
  }

  /** The records and the log after a cut replay. */
  lemma CutReplay(before: Disk, after: Disk, o: ControlRecord, c: ControlRecord, n: nat, m: seq<Sector>)
    requires DiskValid(before) && |before.live| == REGION && AllSure(before, 0, J_CONTROL)
    requires Newest(before.live) == Found(c) && ReplayOk(before.live, c)
    requires Precedes(before, o, c) && PartlyHome(before, after, c, n) && |after.live| == REGION && CrashImage(after, m)
    ensures |m| == REGION && Newest(m) in {Found(o), Found(c)}
    ensures ReplayOk(m, c) && View(m, Targets(m, c.count)) == View(before.live, Targets(before.live, c.count))
  {
    hide View, ReplayOk, MayBe, PartlyHome;
    var at := ControlSector(c.number);
    NewestValid(before.live, c);
    CountFits(before.live, c);
    SureIsRead(before, ControlSector(o.number), Control(o));
    ControlsValid(before.live, o.number);
    PartlySized(before, after, c, n);
    PartlyElsewhere(before, after, c, n);
    OnlyOneValue(Control(o));
    assert MayHold(after, ControlSector(o.number), m[ControlSector(o.number)]);
    if m[at].Control? {
      AuthenticIsWritten(after, at, m[at]);
    }
    StillAnnounced(before, after, c, n);
    AnnouncedReplays(after, c, before.live, m);
  }

  lemma PartlyElsewhere(before: Disk, after: Disk, c: ControlRecord, n: nat)
    requires PartlyHome(before, after, c, n)
    ensures forall i :: J_HOME <= i < REGION ==> after.live[i] == before.live[i] && Values(after, i) == Values(before, i)
    ensures forall i :: 0 <= i < REGION && i !in Targets(before.live, c.count)[..n] ==> Values(after, i) == Values(before, i)
  {
  }

  /** Whatever has become of the record. */
  lemma StillAnnounced(before: Disk, after: Disk, c: ControlRecord, n: nat)
    requires DiskValid(before) && |before.live| == REGION && AllSure(before, 0, J_CONTROL) && ReplayOk(before.live, c)
    requires PartlyHome(before, after, c, n)
    ensures Announced(after, c, before.live)
  {
    hide MayBe, ReplayOk, PartlyHome;
    CountFits(before.live, c);
    PartlySized(before, after, c, n);
    PartlyElsewhere(before, after, c, n);
    SameLog(before.live, after.live, c);
  }

  /** What is at home then is the old disk or the new one. */
  lemma HarmlessHome(before: Disk, after: Disk, c: ControlRecord, n: nat, m: seq<Sector>)
    requires DiskValid(before) && |before.live| == |m| == REGION && AllSure(before, 0, J_CONTROL) && ReplayOk(before.live, c)
    requires PartlyHome(before, after, c, n) && Harmless(before.live, c, n) && CrashImage(after, m)
    ensures m[..J_HOME] in {before.live[..J_HOME], View(before.live, Targets(before.live, c.count))}
  {
    hide View, MayBe, PartlyHome, EntryOk, LogSectors, Harmless;
    PartlySized(before, after, c, n);
    var v, t := before.live, Targets(before.live, c.count);
    forall i: nat | i < J_HOME && m[i] != v[i]
      ensures exists k :: 0 <= k < n && t[k] == i && Alters(v, c, k) && m[i] == v[PayloadAt(k)]
    {
      HarmlessSector(before, after, c, n, m, i);
    }
    if i: nat :| i < J_HOME && m[i] != v[i] {
      var k :| 0 <= k < n && t[k] == i && Alters(v, c, k) && m[i] == v[PayloadAt(k)];
      OneAlters(v, c, n, k);
      forall j: nat | j < J_HOME
        ensures m[j] == View(v, t)[j]
      {
        ViewUnlessAltered(v, c, j);
      }
      assert m[..J_HOME] == View(v, t);
    } else {
      assert m[..J_HOME] == v[..J_HOME];
    }
  }

  lemma OneAlters(m: seq<Sector>, c: ControlRecord, n: nat, k: nat)
    requires Harmless(m, c, n) && k < n && Alters(m, c, k)
    ensures forall j :: 0 <= j < c.count && Alters(m, c, j) ==> j == k
  {
  }

  /** The new disk differs from the old one where an entry changes it. */
  lemma ViewUnlessAltered(m: seq<Sector>, c: ControlRecord, j: nat)
    requires ReplayOk(m, c) && j < J_HOME
    ensures (forall k :: 0 <= k < c.count && Targets(m, c.count)[k] == j ==> !Alters(m, c, k)) ==> View(m, Targets(m, c.count))[j] == m[j]
    ensures forall k :: 0 <= k < c.count && Targets(m, c.count)[k] == j ==> View(m, Targets(m, c.count))[j] == m[PayloadAt(k)]
  {
    hide EntryOk, LogSectors;
    var t := Targets(m, c.count);
    forall k | 0 <= k < c.count && t[k] == j
      ensures View(m, t)[j] == m[PayloadAt(k)]
    {
      FindIs(t, j, k);
    }
    if Find(t, j) < c.count {
      assert t[Find(t, j)] == j;
    }
  }

  lemma HarmlessSector(before: Disk, after: Disk, c: ControlRecord, n: nat, m: seq<Sector>, i: nat)
    requires DiskValid(before) && |before.live| == |m| == REGION && AllSure(before, 0, J_CONTROL)
    requires PartlyHome(before, after, c, n) && Harmless(before.live, c, n) && CrashImage(after, m)
    requires i < J_HOME && m[i] != before.live[i]
    ensures exists k :: 0 <= k < n && Targets(before.live, c.count)[k] == i && Alters(before.live, c, k) && m[i] == before.live[PayloadAt(k)]
  {
    hide MayBe, Harmless, PartlyHome;
    PartlySized(before, after, c, n);
    var v, t := before.live, Targets(before.live, c.count);
    assert Sure(before, i, v[i]) && MayHold(after, i, m[i]);
    PartlyElsewhere(before, after, c, n);
    OnlyOneValue(v[i]);
    var k: nat :| k < n && t[k] == i;
    PartlyValues(before, after, c, n, k);
    assert Values(after, i) == {v[i], v[PayloadAt(k)]};
    NotTorn(v, c, n, k, m[i]);
  }

  lemma NotTorn(m: seq<Sector>, c: ControlRecord, n: nat, k: nat, g: Sector)
    requires Harmless(m, c, n) && k < n && Alters(m, c, k) && MayBe({m[Targets(m, c.count)[k]], m[PayloadAt(k)]}, g)
    ensures g in {m[Targets(m, c.count)[k]], m[PayloadAt(k)]}
  {
  }

  lemma PartlyValues(before: Disk, after: Disk, c: ControlRecord, n: nat, k: nat)
    requires PartlyHome(before, after, c, n) && k < n
    ensures var t := Targets(before.live, c.count)[k];
      t < J_HOME && Values(after, t) == Values(before, t) + {before.live[PayloadAt(k)]}
    ensures forall i :: J_HOME <= i < REGION ==> Values(after, i) == Values(before, i)
  {
  }

  /** A power loss that forgets the record and leaves a home region that is neither. */
  lemma LostRecord(before: Disk, after: Disk, o: ControlRecord, c: ControlRecord, n: nat) returns (m: seq<Sector>)
    requires DiskValid(before) && |before.live| == REGION && AllSure(before, 0, J_CONTROL) && ReplayOk(before.live, c)
    requires RecordValid(c, c.number % 2) && RecordValid(o, o.number % 2) && c.count <= J_ENTRIES && o.state == CLEAN
    requires Precedes(before, o, c) && !Sure(before, ControlSector(c.number), Control(c))
    requires PartlyHome(before, after, c, n) && !Harmless(before.live, c, n)
    ensures CrashImage(after, m) && |m| == REGION
    ensures Recover(m) !in {Home(before.live[..J_HOME]), Home(View(before.live, Targets(before.live, c.count)))}
  {
    hide View, ReplayOk, Targets, MayBe, PartlyHome, Harmless, Newest, RecordValid;
    var at := ControlSector(c.number);
    var x :| x in Values(before, at) && x != Control(c);
    var v, t := View(before.live, Targets(before.live, c.count)), Targets(before.live, c.count);
    PartlySized(before, after, c, n);
    PartlyElsewhere(before, after, c, n);
    var k, i, g, j, b := NeitherHome(before, after, c, n);
    m := after.live[at := x][i := g][j := b];
    Possible(after, at, x);
    StillLive(before, after, c, n, o);
    RecordLost(before, o, c, m, x);
    assert m[..J_HOME][i] != before.live[..J_HOME][i];
    assert m[..J_HOME][i] != v[i] || m[..J_HOME][j] != v[j];
  }

  lemma StillLive(before: Disk, after: Disk, c: ControlRecord, n: nat, o: ControlRecord)
    requires DiskValid(before) && |before.live| == REGION && PartlyHome(before, after, c, n)
    requires Sure(before, ControlSector(o.number), Control(o))
    ensures after.live[ControlSector(o.number)] == Control(o)
  {
    hide MayBe;
    PartlyElsewhere(before, after, c, n);
    SureIsRead(before, ControlSector(o.number), Control(o));
  }

  lemma RecordLost(before: Disk, o: ControlRecord, c: ControlRecord, m: seq<Sector>, x: Sector)
    requires |m| == REGION && Precedes(before, o, c) && RecordValid(o, o.number % 2) && x in Values(before, ControlSector(c.number))
    requires m[ControlSector(o.number)] == Control(o) && m[ControlSector(c.number)] == x != Control(c)
    ensures Newest(m) == Found(o)
  {
  }

  /** What two home sectors may hold that together are neither old nor new. */
  lemma NeitherHome(before: Disk, after: Disk, c: ControlRecord, n: nat) returns (k: nat, i: nat, g: Sector, j: nat, b: Sector)
    requires DiskValid(before) && |before.live| == REGION && AllSure(before, 0, J_CONTROL) && ReplayOk(before.live, c)
    requires PartlyHome(before, after, c, n) && |after.durable| == REGION && n <= c.count <= J_ENTRIES && !Harmless(before.live, c, n)
    ensures i < J_HOME && j < J_HOME && MayHold(after, i, g) && MayHold(after, j, b) && (i == j ==> g == b)
    ensures g != before.live[i]
    ensures var v := View(before.live, Targets(before.live, c.count)); g != v[i] || b != v[j]
  {
    hide View, MayBe, PartlyHome, ReplayOk;
    var m, t := before.live, Targets(before.live, c.count);
    k :| 0 <= k < n && Alters(m, c, k)
         && (Tears(m[t[k]], m[PayloadAt(k)]) || exists l :: 0 <= l < c.count && Alters(m, c, l) && l != k);
    i := t[k];
    PartlyValues(before, after, c, n, k);
    assert Sure(before, i, m[i]);
    assert Values(after, i) == {m[i], m[PayloadAt(k)]};
    ViewUnlessAltered(m, c, i);
    if Tears(m[i], m[PayloadAt(k)]) {
      g :| MayBe({m[i], m[PayloadAt(k)]}, g) && g != m[i] && g != m[PayloadAt(k)];
      j, b := i, g;
    } else {
      var l :| 0 <= l < c.count && Alters(m, c, l) && l != k;
      g, j := m[PayloadAt(k)], t[l];
      b := m[j];
      TargetsDiffer(m, c, k, l);
      ViewUnlessAltered(m, c, j);
      Possible(after, i, g);
      StillPossible(before, after, c, n, j);
    }
  }

  lemma TargetsDiffer(m: seq<Sector>, c: ControlRecord, k: nat, l: nat)
    requires ReplayOk(m, c) && k < c.count && l < c.count && k != l
    ensures Targets(m, c.count)[k] != Targets(m, c.count)[l]
  {
  }

  /** A home sector may still hold what it held. */
  lemma StillPossible(before: Disk, after: Disk, c: ControlRecord, n: nat, j: nat)
    requires PartlyHome(before, after, c, n) && j < J_HOME && Sure(before, j, before.live[j])
    ensures MayHold(after, j, before.live[j])
  {
    hide MayBe;
    var t := Targets(before.live, c.count);
    if j in t[..n] {
      var k: nat :| k < n && t[k] == j;
      PartlyValues(before, after, c, n, k);
    } else {
      PartlyElsewhere(before, after, c, n);
    }
    Possible(after, j, before.live[j]);
  }

  lemma TornData(values: set<Sector>, a: Sector, b: Sector, g: Sector)
    requires a in values && b in values && a != b && a.Data? && b.Data? && g.Data?
    ensures Torn(values, g)
  {
    assert forall n: nat :: StateAt(a, n) == StateAt(g, n) && TagAt(a, n) == TagAt(g, n) && BitAt(a, n) == BitAt(g, n);
  }

  /** Bytes neither sector holds. */
  function Garbage(a: Sector, b: Sector): (g: Sector)
    ensures g.Data? && g != a && g != b
  {
    if Data([0]) != a && Data([0]) != b then Data([0]) else if Data([1]) != a && Data([1]) != b then Data([1]) else Data([2])
  }

  class Device {
    /** Whether this is the journal's overlay rather than the card. */
    const overlay: bool
    var disk: Disk
    var sequence: uint64
    var count: nat
    var targets: seq<nat>
    var recovering: bool
    /** A control record was written and is not known to be durable. */
    var doubtful: bool
    /** The newest control record and, outside a rebuild, the home region: the disk durably holds both. */
    ghost var newest: ControlRecord
    ghost var home: seq<Sector>
    /** The snapshot a migration reads from; on a card, the sectors nothing may write to. */
    ghost var staged: seq<Sector>
    ghost var kept: map<nat, Sector>
    ghost const size: nat

    constructor OverCard(d: Disk)
      requires DiskValid(d)
      ensures Valid() && !overlay && disk == d && kept == map[] && size == |d.live|
    {
      overlay, disk, sequence, count, targets, recovering, doubtful := false, d, 0, 0, [], false, false;
      kept, size := map[], |d.live|;
    }

    constructor OverRegion(d: Disk)
      ensures overlay && disk == d && sequence == 0 && count == 0 && targets == [] && !recovering && !doubtful
    {
      overlay, disk, sequence, count, targets, recovering, doubtful := true, d, 0, 0, [], false, false;
    }

    /** What stays true of the overlay's disk whatever fails. */
    ghost predicate Settled()
      reads this
    {
      && DiskValid(disk) && |disk.live| == REGION && SettledAt(disk, sequence, recovering)
      && Newest(disk.live) == Found(newest) && (!recovering ==> disk.live[..J_HOME] == home)
      && (recovering ==> StagedAt(disk, newest, staged))
    }

    /** What stays true of a card whatever fails. */
    ghost predicate Fenced()
      reads this
    {
      |disk.live| == size && forall i :: i in kept ==> Sure(disk, i, kept[i])
    }

    ghost predicate Sound()
      reads this
    {
      DiskValid(disk) && if overlay then Settled() else Fenced()
    }

    /** Writing here is allowed. */
    ghost predicate Writable(lba: nat, n: nat)
      reads this
    {
      !overlay ==> forall i :: lba <= i < lba + n ==> i !in kept
    }

    /** The log of the open transaction is readable and complete. */
    predicate LogReads()
      reads this
    {
      && |disk.live| == REGION && count == |targets| <= J_ENTRIES && Distinct(targets)
      && (count > 0 ==> sequence < UINT64_MAX && !recovering)
      && (count > 0 ==> EntriesOk(disk.live, count, sequence + 1) && Targets(disk.live, count) == targets)
    }

    ghost predicate Valid()
      reads this
    {
      Sound() && (overlay ==> LogReads())
    }

    /** Writes go straight to the medium. */
    predicate Unlogged()
      reads this
    {
      !overlay || recovering
    }

    /** So many more sectors can be written whatever they are: straight, or into what is left
        of the log. */
    predicate Room(n: nat)
      reads this
    {
      Unlogged() || (sequence < UINT64_MAX && count + n <= J_ENTRIES)
    }

    /** Once closed, the region can be opened again without a power loss, unless a control
        record is doubtful. */
    ghost predicate Reopenable()
      reads this
    {
      doubtful || Openable(disk)
    }

    lemma SettledReopens()
      requires Settled()
      ensures Openable(disk)
    {
      if recovering {
        StagedIsRead(disk, newest, staged, disk.live);
      }
    }

    /** What a reader sees. */
    ghost function Contents(): (v: seq<Sector>)
      requires Valid()
      reads this
    {
      if overlay then View(disk.live, targets) else disk.live
    }

    function BlockCount(): (n: nat)
      reads this
      ensures Valid() ==> n == |Contents()|
    {
      if overlay then J_HOME else |disk.live|
    }

    lemma Sized()
      requires Settled()
      ensures DiskValid(disk) && |disk.live| == REGION
    {
    }

    lemma HomeRecovers()
      requires Settled()
      ensures !recovering ==> RecoversTo(disk, {Home(home)})
      ensures recovering ==> RecoversTo(disk, {Unfinished(newest, staged)})
    {
      if recovering {
        RebuildingRecovers(disk, newest, staged);
      } else {
        CleanRecovers(disk);
      }
    }

    lemma Usable()
      requires Valid()
      ensures DiskValid(disk) && Sound() && (overlay ==> Settled()) && (!overlay ==> Contents() == disk.live)
    {
    }

    method ReadSector(i: nat) returns (ok: bool, s: Sector)
      requires DiskValid(disk)
      ensures ok ==> i < |disk.live| && s == disk.live[i]
      ensures disk.reliable && i < |disk.live| ==> ok
    {
      var data;
      ok, data := Card.Read(disk, i, 1);
      s := if ok then data[0] else Data([]);
    }

    method WriteSector(i: nat, s: Sector) returns (ok: bool)
      requires DiskValid(disk) && i < |disk.live|
      modifies this`disk
      ensures Wrote(old(disk), disk, i, [s], ok)
      ensures disk.reliable ==> ok
    {
      ok, disk := Card.Write(disk, i, [s]);
    }

    method ControlScan() returns (ok: bool, r: ScanResult)
      requires DiskValid(disk) && |disk.live| == REGION
      ensures ok ==> r == Newest(disk.live)
      ensures disk.reliable ==> ok
    {
      r := Absent;
      for i := 0 to 2
        invariant i == 0 ==> r == Absent
        invariant i == 1 ==> (if disk.live[J_CONTROL].Control? then RecordValid(disk.live[J_CONTROL].record, 0)
                                && r == Found(disk.live[J_CONTROL].record) else r == Absent)
        invariant i == 2 ==> r == Newest(disk.live)
      {
        var s;
        ok, s := ReadSector(J_CONTROL + i);
        if !ok {
          return;
        }
        if s.Control? {
          var c := s.record;
          if c.number == 0 || c.number % 2 != i || c.state > MIGRATE || c.count > J_ENTRIES || c.policy > 1
             || (c.state == MIGRATE && (c.oldBank > 1 || (c.oldBytes != 65536 && c.oldBytes != 131072))) {
            return true, Bad;
          }
          if !r.Found? || s.record.number > r.record.number {
            r := Found(s.record);
          }
        }
      }
      ok := true;
    }

    method EntryRead(k: nat, number: uint64) returns (ok: bool, target: nat, payload: Sector, header: Sector)
      requires DiskValid(disk) && |disk.live| == REGION
      ensures ok ==> EntryOk(disk.live, k, number)
      ensures ok ==> header == disk.live[HeaderAt(k)] && payload == disk.live[PayloadAt(k)] && target == TargetOf(header)
      ensures disk.reliable && EntryOk(disk.live, k, number) ==> ok
    {
      header, payload, target := Data([]), Data([]), 0;
      if k >= J_ENTRIES {
        return false, target, payload, header;
      }
      ok, header := ReadSector(HeaderAt(k));
      if !ok {
        return;
      }
      ok, payload := ReadSector(PayloadAt(k));
      if !ok {
        return;
      }
      target := TargetOf(header);
      ok := header.Entry? && header.number == number && header.slot == k && target < J_HOME && header.payload == payload;
    }

    method FindTarget(lba: nat) returns (k: nat)
      requires count == |targets|
      ensures k == Find(targets, lba)
    {
      k := 0;
      while k < count && targets[k] != lba
        invariant k <= count
        invariant forall i :: 0 <= i < k ==> targets[i] != lba
      {
        k := k + 1;
      }
      FindIs(targets, lba, k);
    }

    /** One sector of the view. */
    method ReadThrough(lba: nat) returns (ok: bool, s: Sector)
      requires DiskValid(disk) && LogReads() && lba < J_HOME && count > 0
      ensures ok ==> s == View(disk.live, targets)[lba]
      ensures disk.reliable ==> ok
    {
      var k := FindTarget(lba);
      if k < count {
        var target, header;
        assert EntryOk(disk.live, k, sequence + 1);
        ok, target, s, header := EntryRead(k, sequence + 1);
        ok := ok && target == lba;
      } else {
        ok, s := ReadSector(lba);
      }
    }

    method ReadLogged(lba: nat, n: nat) returns (ok: bool, data: seq<Sector>)
      requires DiskValid(disk) && LogReads() && count > 0 && lba + n <= J_HOME
      ensures ok ==> data == View(disk.live, targets)[lba..lba + n]
      ensures disk.reliable ==> ok
    {
      hide View, EntriesOk, Targets, Distinct, DiskValid;
      data := [];
      for i := 0 to n
        invariant data == View(disk.live, targets)[lba..lba + i]
      {
        var s;
        ok, s := ReadThrough(lba + i);
        if !ok {
          return;
        }
        data := data + [s];
      }
      ok := true;
    }

    method Read(lba: nat, n: nat) returns (ok: bool, data: seq<Sector>)
      requires Valid()
      ensures ok ==> lba + n <= |Contents()| && data == Contents()[lba..lba + n]
      ensures disk.reliable && lba + n <= |Contents()| ==> ok
    {
      hide View, Settled, EntriesOk, Targets, Distinct, DiskValid;
      data := [];
      if !overlay {
        ok, data := Card.Read(disk, lba, n);
      } else if lba > J_HOME || n > J_HOME - lba {
        ok := false;
      } else if count == 0 {
        ok, data := Card.Read(disk, lba, n);
        EmptyView(disk.live);
      } else {
        ok, data := ReadLogged(lba, n);
      }
    }

    /** The payload goes first: the header authenticates both. */
    method WriteEntry(k: nat, lba: nat, s: Sector) returns (ok: bool)
      requires Settled() && !recovering && k < J_ENTRIES && sequence < UINT64_MAX
      modifies this`disk
      ensures Settled() && Newest(disk.live) == old(Newest(disk.live))
      ensures disk.live[..J_HOME] == old(disk.live[..J_HOME]) && disk.reliable == old(disk.reliable)
      ensures ok ==> disk.live == WithEntry(old(disk.live), k, sequence + 1, lba, s)
      ensures disk.reliable ==> ok
    {
      hide Wrote, Newest, SettledAt, DiskValid;
      ghost var before := disk;
      ok := WriteSector(PayloadAt(k), s);
      LogWriteKeeps(before, disk, PayloadAt(k), s, ok, sequence);
      if !ok {
        return;
      }
      ghost var middle := disk;
      ok := WriteSector(HeaderAt(k), Entry(sequence + 1, k, lba, s));
      LogWriteKeeps(middle, disk, HeaderAt(k), Entry(sequence + 1, k, lba, s), ok, sequence);
    }

    /** Put one sector into the log. */
    method LogSector(lba: nat, s: Sector) returns (ok: bool)
      requires overlay && Settled() && LogReads() && !recovering && lba < J_HOME
      modifies this`disk, this`count, this`targets
      ensures Settled() && Newest(disk.live) == old(Newest(disk.live))
      ensures disk.live[..J_HOME] == old(disk.live[..J_HOME]) && disk.reliable == old(disk.reliable)
      ensures ok ==> LogReads() && View(disk.live, targets) == old(View(disk.live, targets))[lba := s]
      ensures count <= old(count) + 1 && (ok ==> sequence < UINT64_MAX && count > 0)
      ensures old(disk.reliable) && old(sequence) < UINT64_MAX && old(count) < J_ENTRIES ==> ok
    {
      hide View, EntriesOk, Targets, Distinct, Find, Newest, SettledAt, DiskValid, WithEntry;
      var k := FindTarget(lba);
      if k == J_ENTRIES || sequence == UINT64_MAX {
        return false;
      }
      ghost var m := disk.live;
      ok := WriteEntry(k, lba, s);
      if !ok {
        return;
      }
      LoggedView(m, targets, sequence + 1, lba, s);
      if count == 0 {
        NoEntries(m, targets, sequence + 1);
      }
      LoggedEntries(m, targets, sequence + 1, lba, s);
      if k == count {
        targets := targets + [lba];
        count := count + 1;
      }
    }

    method WriteLogged(lba: nat, data: seq<Sector>) returns (ok: bool)
      requires overlay && Settled() && LogReads() && !recovering && lba + |data| <= J_HOME
      modifies this`disk, this`count, this`targets
      ensures Settled() && Newest(disk.live) == old(Newest(disk.live))
      ensures disk.live[..J_HOME] == old(disk.live[..J_HOME]) && disk.reliable == old(disk.reliable)
      ensures ok ==> LogReads() && View(disk.live, targets) == Replace(old(View(disk.live, targets)), lba, data)
      ensures old(disk.reliable) && old(sequence) < UINT64_MAX && old(count) + |data| <= J_ENTRIES ==> ok
      ensures ok && |data| > 0 ==> sequence < UINT64_MAX && count > 0
      ensures count <= old(count) + |data|
    {
      hide View, EntriesOk, Targets, Distinct, Anchored, AllSure, Newest, Replace;
      if count == 0 {
        var c;
        ok, c := ControlScan();
        if !ok || !c.Found? || c.record.number != sequence || c.record.state != CLEAN {
          return false;
        }
      }
      ghost var view := View(disk.live, targets);
      ReplaceNone(view, lba, data);
      for i := 0 to |data|
        invariant Settled() && LogReads() && Newest(disk.live) == old(Newest(disk.live))
        invariant disk.live[..J_HOME] == old(disk.live[..J_HOME]) && disk.reliable == old(disk.reliable)
        invariant view == old(View(disk.live, targets)) && View(disk.live, targets) == Replace(view, lba, data[..i])
        invariant count <= old(count) + i && (i > 0 ==> sequence < UINT64_MAX && count > 0)
      {
        ok := LogSector(lba + i, data[i]);
        if !ok {
          return;
        }
        ReplaceNext(view, lba, data, i);
      }
      assert data[..|data|] == data;
      ok := true;
    }

    method WriteHome(lba: nat, data: seq<Sector>) returns (ok: bool)
      requires overlay && Settled() && LogReads() && recovering && lba + |data| <= J_HOME
      modifies this`disk
      ensures Settled() && Newest(disk.live) == old(Newest(disk.live)) && disk.reliable == old(disk.reliable)
      ensures disk.live[J_HOME..] == old(disk.live[J_HOME..])
      ensures forall n: nat :: n <= J_CONTROL && old(AllSure(disk, J_START, n)) ==> AllSure(disk, J_START, n)
      ensures ok ==> LogReads() && View(disk.live, targets) == Replace(old(View(disk.live, targets)), lba, data)
      ensures disk.reliable ==> ok
    {
      hide View, Anchored, Newest, AllSure;
      ghost var before := disk;
      ok, disk := Card.Write(disk, lba, data);
      HomeWriteKeeps(before, disk, lba, data, ok);
      if ok {
        EmptyView(before.live);
        EmptyView(disk.live);
        assert Replace(before.live, lba, data)[..J_HOME] == Replace(before.live[..J_HOME], lba, data);
      }
    }

    method Write(lba: nat, data: seq<Sector>) returns (ok: bool)
      requires Valid() && Writable(lba, |data|)
      modifies this`disk, this`count, this`targets
      ensures Sound() && DiskValid(disk) && disk.reliable == old(disk.reliable)
      ensures ok ==> Valid() && lba + |data| <= |old(Contents())| && Contents() == Replace(old(Contents()), lba, data)
      ensures disk.reliable && lba + |data| <= |old(Contents())| && old(Room(|data|)) ==> ok
      ensures count <= old(count) + |data|
      ensures ok && overlay && !recovering && |data| > 0 ==> sequence < UINT64_MAX && count > 0
      ensures !overlay && lba + |data| > |old(disk.live)| ==> disk == old(disk)
      ensures !overlay && lba + |data| <= |old(disk.live)| ==> Wrote(old(disk), disk, lba, data, ok)
      ensures overlay ==> Newest(disk.live) == old(Newest(disk.live))
      ensures overlay && !recovering ==> disk.live[..J_HOME] == old(disk.live[..J_HOME])
      ensures overlay && recovering ==> disk.live[J_HOME..] == old(disk.live[J_HOME..])
      ensures overlay && recovering ==>
        forall n: nat :: n <= J_CONTROL && old(AllSure(disk, J_START, n)) ==> AllSure(disk, J_START, n)
    {
      hide View, Anchored, AllSure, Newest, EntriesOk, Targets, Distinct;
      if !overlay {
        ok, disk := Card.Write(disk, lba, data);
      } else if lba > J_HOME || |data| > J_HOME - lba {
        ok := false;
      } else if recovering {
        ok := WriteHome(lba, data);
      } else {
        ok := WriteLogged(lba, data);
      }
    }

    method Sync() returns (ok: bool)
      requires DiskValid(disk)
      modifies this`disk
      ensures disk == if ok then old(disk).(durable := old(disk.live), unsynced := map[]) else old(disk)
      ensures DiskValid(disk) && (ok ==> AllSure(disk, 0, |disk.live|))
      ensures old(Sound()) ==> Sound()
      ensures old(Valid()) ==> Valid() && Contents() == old(Contents())
      ensures disk.reliable ==> ok
    {
      hide View, EntriesOk, Targets, Newest;
      ghost var before := disk;
      ok, disk := Card.Sync(disk);
      if ok {
        SyncedIsSure(disk);
        SyncKeepsSure(before, disk);
      }
    }

    /** Another user of the card syncs it. */
    method SyncedFromOutside() returns (ok: bool)
      requires DiskValid(disk)
      modifies this`disk, this`doubtful
      ensures disk == if ok then old(disk).(durable := old(disk.live), unsynced := map[]) else old(disk)
      ensures DiskValid(disk) && (ok ==> AllSure(disk, 0, |disk.live|)) && doubtful == (old(doubtful) && !ok)
      ensures old(Valid()) ==> Valid() && Contents() == old(Contents())
    {
      hide View, EntriesOk, Targets, Newest;
      ok := Sync();
      doubtful := doubtful && !ok;
    }

    /** Make c, numbered after the newest record, the newest one. */
    method ControlWrite(c: ControlRecord) returns (ok: bool, written: ControlRecord)
      requires DiskValid(disk) && |disk.live| == REGION && Anchored(disk) && Number(Newest(disk.live)) == sequence
      requires BodyValid(c)
      modifies this`disk, this`sequence, this`doubtful
      ensures disk.reliable == old(disk.reliable) && DiskValid(disk) && |disk.live| == REGION
      ensures KeepsBelowControls(old(disk), disk)
      ensures if old(sequence) == UINT64_MAX then doubtful == old(doubtful) else doubtful == !ok
      ensures old(sequence) == UINT64_MAX ==> !ok && disk == old(disk)
      ensures old(sequence) < UINT64_MAX ==>
        written == c.(number := old(sequence) + 1) && Between(disk, old(Newest(disk.live)), written)
      ensures ok ==> old(sequence) < UINT64_MAX && sequence == written.number
      ensures ok ==> AllSure(disk, 0, REGION) && Anchored(disk) && Newest(disk.live) == Found(written)
      ensures !ok ==> sequence == old(sequence)
      ensures disk.reliable && old(sequence) < UINT64_MAX ==> ok
    {
      hide Newest, KeepsBelowControls, Between, Wrote, AllSure;
      if sequence == UINT64_MAX {
        NothingCut(disk);
        return false, c;
      }
      written := c.(number := sequence + 1);
      var at := ControlSector(written.number);
      ghost var before := disk;
      doubtful := true;
      ok := WriteSector(at, Control(written));
      CutControlWrite(before, disk, written, ok);
      if !ok {
        return;
      }
      ghost var cut := disk;
      ok := Sync();
      if !ok {
        return;
      }
      SyncedControlWrite(before, cut, disk, written);
      var check;
      ok, check := ReadSector(at);
      ok := ok && check == Control(written);
      if ok {
        sequence, doubtful := written.number, false;
        SureWithin(disk, J_CONTROL, REGION);
      }
    }

    /** Check the log of c and collect what its digest is taken over. */
    method Digest(c: ControlRecord) returns (ok: bool, digest: seq<Sector>)
      requires DiskValid(disk) && |disk.live| == REGION && c.count <= J_ENTRIES
      ensures ok ==> ReplayOk(disk.live, c.(digest := digest))
      ensures disk.reliable && EntriesOk(disk.live, c.count, c.number) && Distinct(Targets(disk.live, c.count)) ==> ok
    {
      hide DiskValid, EntryOk;
      digest := [];
      var seen: seq<nat> := [];
      ghost var t := Targets(disk.live, c.count);
      for i := 0 to c.count
        invariant digest == LogSectors(disk.live, i) && EntriesOk(disk.live, i, c.number)
        invariant |seen| == i && seen == t[..i] && Distinct(seen)
      {
        var target, payload, header;
        ok, target, payload, header := EntryRead(i, c.number);
        if !ok {
          return;
        }
        for k := 0 to i
          invariant forall j :: 0 <= j < k ==> seen[j] != target
        {
          if seen[k] == target {
            assert t[k] == t[i];
            return false, digest;
          }
        }
        seen := seen + [target];
        digest := digest + [header, payload];
      }
      ok := true;
    }

    /** Copy the entries of c home in order, whether or not its record is durable. */
    method WriteEntriesHome(c: ControlRecord) returns (ok: bool, ghost n: nat)
      requires DiskValid(disk) && |disk.live| == REGION && ReplayOk(disk.live, c)
      modifies this`disk
      ensures PartlyHome(old(disk), disk, c, n)
      ensures ok ==> n == c.count && Rewriting(disk.live, c, old(disk.live), n)
      ensures disk.reliable ==> ok
    {
      hide Wrote, Replayed, Targets, Distinct, LogSectors, EntryOk, DiskValid, Rewriting, PartlyHome;
      ghost var start := disk;
      RewritingStarts(disk.live, c);
      NoneHome(disk, c);
      for i := 0 to c.count
        invariant DiskValid(disk) && |disk.live| == REGION && disk.reliable == start.reliable
        invariant Rewriting(disk.live, c, start.live, i) && PartlyHome(start, disk, c, i)
      {
        var target, payload, header;
        n := i;
        ReplayReads(disk.live, c, start.live, i, i);
        ok, target, payload, header := EntryRead(i, c.number);
        if !ok {
          return;
        }
        ghost var before := disk;
        ok := WriteSector(target, payload);
        n := i + 1;
        RewritingStep(start, before, disk, c, i, ok);
        PartlySized(start, disk, c, n);
        if !ok {
          return;
        }
      }
      ok, n := true, c.count;
    }

    /** Read everything back. */
    method VerifyHome(c: ControlRecord, ghost base: seq<Sector>) returns (ok: bool)
      requires DiskValid(disk) && |disk.live| == REGION && Rewriting(disk.live, c, base, c.count)
      ensures disk.reliable ==> ok
    {
      hide Rewriting, DiskValid, EntryOk;
      for i := 0 to c.count {
        var target, payload, header, check;
        ReplayReads(disk.live, c, base, c.count, i);
        ReplayedTarget(disk.live, c, base, i);
        ok, target, payload, header := EntryRead(i, c.number);
        if !ok {
          return;
        }
        ok, check := ReadSector(target);
        if !ok || check != payload {
          return false;
        }
      }
      ok := true;
    }

    /** Write the log of c home, then retire it. Cut anywhere, an open recovers the same. */
    method Replay(c: ControlRecord) returns (ok: bool)
      requires overlay && DiskValid(disk) && |disk.live| == REGION && Openable(disk)
      requires Newest(disk.live) == Found(c) && c.state == READY && c.number == sequence && !recovering
      modifies this`disk, this`sequence, this`doubtful, this`count, this`targets, this`newest, this`home
      ensures DiskValid(disk) && |disk.live| == REGION && disk.reliable == old(disk.reliable)
      ensures RecoversTo(disk, {Recover(old(disk.live))}) && Reopenable()
      ensures ok ==> Settled() && LogReads() && count == 0 && Recover(old(disk.live)) == Home(home)
      ensures ok ==> sequence == old(sequence) + 1 && newest == ControlRecord(sequence, CLEAN, 0, 0, 0, -1, [])
      ensures ok ==> old(sequence) < UINT64_MAX
      ensures old(sequence) == UINT64_MAX ==> Newest(disk.live) == Found(c) && Openable(disk)
      ensures disk.reliable && old(sequence) < UINT64_MAX && ReplayOk(old(disk.live), c) ==> ok
    {
      hide Recover, Replaying, Wrote, Anchored, Newest, Targets, LogSectors, EntryOk, DiskValid, AllSure;
      hide RecoversTo, Between, KeepsBelowControls, SettledAt, RecordValid, View, Openable;
      ghost var base := disk.live;
      NewestValid(base, c);
      var digest;
      ok, digest := Digest(c);
      if !ok || digest != c.digest {
        OpenableRecovers(disk);
        return false;
      }
      ghost var start, n := disk, 0;
      ok, n := WriteEntriesHome(c);
      ghost var written := disk;
      HomeAnnounced(start, written, c, n);
      if !ok {
        return;
      }
      ok := Sync();
      SyncKeepsReplay(written, disk, c, base, ok);
      ReplayingOpens(disk, c, base, c.count);
      if !ok {
        return;
      }
      ok := VerifyHome(c, base);
      if !ok {
        return;
      }
      ghost var before := disk;
      var clean;
      ok, clean := ControlWrite(ControlRecord(0, CLEAN, 0, 0, 0, -1, []));
      if sequence < UINT64_MAX || ok {
        EndingRecovers(before, disk, c, base, clean);
      }
      if ok {
        SettledClean(disk, clean);
        count, targets, newest, home := 0, [], clean, disk.live[..J_HOME];
        SettledReopens();
      }
    }

    /** Announce the log, write it home, retire it. Whatever fails and wherever power is
        lost, an open recovers the state before or the state after, and after success only
        the latter. */
    method Commit() returns (ok: bool)
      requires overlay && Valid() && !recovering
      modifies this`disk, this`sequence, this`doubtful, this`count, this`targets, this`newest, this`home
      ensures DiskValid(disk) && |disk.live| == REGION && disk.reliable == old(disk.reliable)
      ensures RecoversTo(disk, {Home(old(home)), Home(old(Contents()))}) && Reopenable()
      ensures ok ==> Valid() && count == 0 && Contents() == home == old(Contents())
      ensures ok ==> RecoversTo(disk, {Home(home)})
      ensures old(disk.reliable) ==> (ok <==> old(count) == 0 || old(sequence) + 2 <= UINT64_MAX)
      ensures old(disk.reliable && count > 0 && sequence + 1 == UINT64_MAX) ==> Exhausted(disk.live) && Openable(disk)
    {
      hide View, Recover, RecoversTo, EntriesOk, Targets, Distinct, KeepsBelowControls, Between, DiskValid, AllSure, Newest, Openable;
      var current;
      ghost var before := disk;
      SettledReopens();
      CleanRecovers(disk);
      AlsoRecovers(disk, Home(before.live[..J_HOME]), Home(Contents()));
      ok, current := ControlScan();
      if !ok || !current.Found? || current.record.number != sequence || current.record.state != CLEAN {
        return false;
      }
      EmptyView(disk.live);
      if count == 0 {
        return true;
      }
      ok := Sync();
      SettledReopens();
      CleanRecovers(disk);
      AlsoRecovers(disk, Home(before.live[..J_HOME]), Home(Contents()));
      if !ok {
        return;
      }
      ghost var synced := disk;
      var ready := ControlRecord(sequence + 1, READY, count, 0, 0, -1, []);
      var digest;
      ok, digest := Digest(ready);
      if !ok {
        return;
      }
      var c;
      ok, c := ControlWrite(ready.(digest := digest));
      AnnouncingRecovers(synced, disk, current.record, c);
      if !ok {
        return;
      }
      SureOpenable(disk);
      ok := Replay(c);
      AlsoRecovers(disk, Home(old(Contents())), Home(before.live[..J_HOME]));
      if ok {
        EmptyView(disk.live);
      }
    }

    /** Announce that the home region is about to be rebuilt. */
    method BeginRebuild(c: ControlRecord) returns (ok: bool)
      requires overlay && Settled() && !recovering && BodyValid(c) && c.state == RESET
      modifies this
      ensures DiskValid(disk) && |disk.live| == REGION && disk.reliable == old(disk.reliable)
      ensures old(sequence) < UINT64_MAX ==> RecoversTo(disk, {Home(old(home)), Fresh(c.policy)})
      ensures old(sequence) == UINT64_MAX ==> RecoversTo(disk, {Home(old(home))})
      ensures Reopenable()
      ensures ok ==> Valid() && recovering && count == 0 && old(sequence) < UINT64_MAX
      ensures ok ==> newest == c.(number := old(sequence) + 1) && sequence == old(sequence) + 1
      ensures disk.reliable && old(sequence) < UINT64_MAX ==> ok
    {
      hide View, RecoversTo, KeepsBelowControls, Between, DiskValid, AllSure, Newest, Openable;
      CleanRecovers(disk);
      SettledReopens();
      ghost var before := disk;
      count, targets := 0, [];
      var written;
      ok, written := ControlWrite(c);
      if old(sequence) < UINT64_MAX {
        RebuildAnnounced(before, disk, Newest(before.live).record, written);
      }
      if ok {
        recovering, newest := true, written;
        SettledReopens();
      }
    }

    /** The home region is rebuilt and durable: make it the store again. */
    method EndRebuild() returns (ok: bool)
      requires overlay && Valid() && recovering && AllSure(disk, 0, J_HOME)
      modifies this
      ensures DiskValid(disk) && |disk.live| == REGION && disk.reliable == old(disk.reliable)
      ensures RecoversTo(disk, {Unfinished(old(newest), old(staged)), Home(old(Contents()))}) && Reopenable()
      ensures ok ==> Valid() && !recovering && count == 0 && Contents() == home == old(Contents())
      ensures ok ==> RecoversTo(disk, {Home(home)}) && sequence == old(sequence) + 1
      ensures ok ==> newest == ControlRecord(sequence, CLEAN, 0, 0, 0, -1, [])
      ensures disk.reliable && old(sequence) < UINT64_MAX ==> ok
    {
      hide View, RecoversTo, KeepsBelowControls, Between, DiskValid, AllSure, Newest, Openable;
      EmptyView(disk.live);
      SettledReopens();
      RebuildingRecovers(disk, newest, staged);
      AlsoRecovers(disk, Unfinished(newest, staged), Home(Contents()));
      ghost var before := disk;
      var written;
      ok, written := ControlWrite(ControlRecord(0, CLEAN, 0, 0, 0, -1, []));
      if old(sequence) < UINT64_MAX {
        RebuildEnds(before, disk, newest, staged, written);
      }
      if ok {
        recovering, newest, home := false, written, disk.live[..J_HOME];
        SameHome(before, disk);
        EmptyView(disk.live);
        SettledClean(disk, written);
        CleanRecovers(disk);
        SettledReopens();
      }
    }

    /** Supersede the record before the newest, which says the same. */
    method Renew() returns (ok: bool)
      requires overlay && Valid() && !recovering && count == 0
      modifies this
      ensures DiskValid(disk) && |disk.live| == REGION && disk.reliable == old(disk.reliable)
      ensures RecoversTo(disk, {Home(old(home))}) && Reopenable()
      ensures ok ==> Valid() && !recovering && count == 0 && Contents() == home == old(home)
      ensures ok ==> newest == ControlRecord(sequence, CLEAN, 0, 0, 0, -1, [])
      ensures disk.reliable && old(sequence) < UINT64_MAX ==> ok
    {
      hide View, RecoversTo, KeepsBelowControls, Between, DiskValid, AllSure, Newest, Openable;
      EmptyView(disk.live);
      CleanRecovers(disk);
      SettledReopens();
      ghost var before := disk;
      var written;
      ok, written := ControlWrite(ControlRecord(0, CLEAN, 0, 0, 0, -1, []));
      if old(sequence) < UINT64_MAX {
        RenewRecovers(before, disk, newest, written);
      }
      if ok {
        newest := written;
        SameHome(before, disk);
        EmptyView(disk.live);
        SettledClean(disk, written);
        SettledReopens();
      }
    }

    /** Announce that the snapshot staged in the log area is being moved into the home region. */
    method BeginMigration(c: ControlRecord) returns (ok: bool)
      requires overlay && DiskValid(disk) && |disk.live| == REGION && AllSure(disk, 0, REGION) && Newest(disk.live) == Absent
      requires count == 0 && targets == [] && !recovering && sequence == 0 && BodyValid(c) && c.state == MIGRATE
      modifies this
      ensures DiskValid(disk) && |disk.live| == REGION && disk.reliable == old(disk.reliable)
      ensures RecoversTo(disk, {Legacy(old(disk.live)[..J_HOME]), Migrating(c.(number := 1), Staged(old(disk.live), c))})
      ensures Reopenable()
      ensures ok ==> Valid() && recovering && newest == c.(number := 1) && staged == Staged(old(disk.live), c)
      ensures disk.reliable ==> ok
    {
      hide View, RecoversTo, KeepsBelowControls, Between, DiskValid, AllSure, Newest;
      SureWithin(disk, J_CONTROL, REGION);
      ghost var before := disk;
      var written;
      ok, written := ControlWrite(c);
      MigrationAnnounced(before, disk, written);
      if ok {
        recovering, newest, staged := true, written, Staged(before.live, c);
        StagedNow(disk, written);
        SameStaged(before, disk, written);
        SettledReopens();
      }
    }

    /** Announce a reset whatever the region holds, as long as its control records are not damaged. */
    method BeginFresh() returns (ok: bool)
      requires overlay && DiskValid(disk) && |disk.live| == REGION && Openable(disk)
      requires count == 0 && targets == [] && !recovering && sequence == 0
      modifies this
      ensures DiskValid(disk) && |disk.live| == REGION && disk.reliable == old(disk.reliable)
      ensures RecoversTo(disk, {Recover(old(disk.live)), Fresh(-1)}) && Reopenable()
      ensures ok ==> Valid() && recovering && newest == ControlRecord(sequence, RESET, 0, 0, 0, -1, [])
      ensures ok ==> !old(Newest(disk.live)).Bad? && sequence == old(Number(Newest(disk.live))) + 1
      ensures old(disk.reliable) ==> (ok <==> !old(Newest(disk.live)).Bad? && old(Number(Newest(disk.live))) < UINT64_MAX)
    {
      hide View, RecoversTo, KeepsBelowControls, Between, DiskValid, AllSure, Newest, Recover, Openable;
      OpenableRecovers(disk);
      AlsoRecovers(disk, Recover(disk.live), Fresh(-1));
      ghost var before := disk;
      var found;
      ok, found := ControlScan();
      if !ok || found.Bad? {
        return false;
      }
      if found.Found? {
        sequence := found.record.number;
      }
      OpenableAnchored(disk);
      ghost var number := sequence;
      var written;
      ok, written := ControlWrite(ControlRecord(0, RESET, 0, 0, 0, -1, []));
      if number < UINT64_MAX {
        FreshAnnounced(before, disk, written);
      }
      if ok {
        recovering, newest := true, written;
        SettledReopens();
      }
    }

    /** What opening finds, after a power loss or a close. A transaction that was announced is
        finished; cut anywhere, it will be found again. */
    method Open() returns (ok: bool, found: ScanResult)
      requires overlay && DiskValid(disk) && |disk.live| == REGION && Openable(disk)
      requires count == 0 && targets == [] && !recovering && sequence == 0
      modifies this
      ensures DiskValid(disk) && |disk.live| == REGION && disk.reliable == old(disk.reliable)
      ensures RecoversTo(disk, {Recover(old(disk.live))}) && Reopenable()
      ensures ok ==> found == old(Newest(disk.live)) && !found.Bad?
      ensures ok && found.Absent? ==> disk == old(disk) && sequence == 0 && !recovering && count == 0 && targets == []
      ensures ok && found.Found? ==> Valid() && count == 0
      ensures ok && found.Found? ==> recovering == (found.record.state in {RESET, MIGRATE})
      ensures ok && found.Found? && found.record.state != READY ==> disk == old(disk) && sequence == found.record.number
      ensures ok && found.Found? && !recovering ==> old(Recover(disk.live)) == Home(home) && Contents() == home
      ensures ok && found.Found? && recovering ==> newest == found.record && old(Recover(disk.live)) == Unfinished(newest, staged)
      ensures old(disk.reliable) ==> (ok <==> !old(Recover(disk.live)).Broken? && !old(Exhausted(disk.live)))
      ensures old(Exhausted(disk.live)) ==> !ok && Exhausted(disk.live) && Openable(disk)
    {
      hide View, RecoversTo, AllSure, ReplayOk, Announced;
      OpenableRecovers(disk);
      EmptyView(disk.live);
      ok, found := ControlScan();
      if !ok || found.Bad? {
        return false, found;
      }
      if found.Absent? {
        return;
      }
      sequence := found.record.number;
      if found.record.state == READY {
        ok := Replay(found.record);
        EmptyView(disk.live);
      } else {
        recovering := found.record.state in {RESET, MIGRATE};
        newest, home, staged := found.record, disk.live[..J_HOME], Staged(disk.live, found.record);
      }
    }
  }

  // ---- The end of the numbers ----------------------------------------------

  /** An exhausted region never opens again: not on the live card and not after any power loss. */
  method NeverOpens(card: Disk, outages: seq<bool>) returns (everOpen: bool)
    requires DiskValid(card) && |card.live| == REGION && Openable(card) && Exhausted(card.live)
    ensures !everOpen
  {
    hide Openable, Recover, RecoversTo, DiskValid, AllSure;
    everOpen := false;
    var disk := card;
    for i := 0 to |outages|
      invariant !everOpen && DiskValid(disk) && |disk.live| == REGION && Openable(disk) && Exhausted(disk.live)
    {
      if outages[i] {
        ghost var before := disk;
        disk := Card.PowerCycle(disk);
        StaysExhausted(before, disk);
      }
      var dev := new Device.OverRegion(disk);
      var ok, found := dev.Open();
      everOpen := everOpen || ok;
      disk := dev.disk;
    }
  }

  lemma StaysExhausted(before: Disk, after: Disk)
    requires DiskValid(before) && |before.live| == REGION && Openable(before) && Exhausted(before.live)
    requires DiskValid(after) && after.unsynced == map[] && CrashImage(before, after.live)
    ensures |after.live| == REGION && Openable(after) && Exhausted(after.live)
  {
    hide MayBe;
    AnchoredScans(before, after.live);
    forall i | 0 <= i < |after.live|
      ensures Sure(after, i, after.live[i])
    {
      assert Values(after, i) == {after.durable[i]} && MayHold(after, i, after.live[i]);
      OnlyOneValue(after.durable[i]);
    }
    SureOpenable(after);
  }

  /** The run that gets there, without a single fault: one number is left, a sector is written
      and committed. The commit announces the log and cannot retire it, so it fails, and what
      it announced can never be read again. */
  method LastCommit(card: Disk, lba: nat, s: Sector, outages: seq<bool>)
    returns (isOpen: bool, written: bool, committed: bool, everOpen: bool)
    requires DiskValid(card) && |card.live| == REGION && Openable(card) && card.reliable && lba < J_HOME
    requires Newest(card.live).Found? && Newest(card.live).record.state == CLEAN && Number(Newest(card.live)) == UINT64_MAX - 1
    ensures isOpen && written && !committed && !everOpen
  {
    hide Openable, RecoversTo, DiskValid, AllSure, View, ReplayOk;
    written, committed, everOpen := false, false, false;
    var dev := new Device.OverRegion(card);
    var found;
    isOpen, found := dev.Open();
    written := dev.Write(lba, [s]);
    committed := dev.Commit();
    everOpen := NeverOpens(dev.disk, outages);
  }

  /** There is such a card. */
  lemma OneNumberLeft() returns (card: Disk)
    ensures DiskValid(card) && |card.live| == REGION && Openable(card) && card.reliable
    ensures Newest(card.live).Found? && Newest(card.live).record.state == CLEAN && Number(Newest(card.live)) == UINT64_MAX - 1
  {
    var c := ControlRecord(UINT64_MAX - 1, CLEAN, 0, 0, 0, -1, []);
    var m: seq<Sector> := seq(REGION, i => if i == J_CONTROL then Control(c) else Data([]));
    card := Disk(m, m, map[], true);
    SyncedIsSure(card);
    SureOpenable(card);
  }

  lemma SameStaged(before: Disk, after: Disk, c: ControlRecord)
    requires KeepsBelowControls(before, after)
    ensures Staged(after.live, c) == Staged(before.live, c)
  {
    StagedBelow(after.live, before.live, c);
  }

  lemma SameHome(before: Disk, after: Disk)
    requires KeepsBelowControls(before, after)
    ensures after.live[..J_HOME] == before.live[..J_HOME]
  {
    assert after.live[..J_HOME] == after.live[..J_CONTROL][..J_HOME];
    assert before.live[..J_HOME] == before.live[..J_CONTROL][..J_HOME];
  }
}
