// Every run of the FIDO disk: requests, faults and power losses in any order, from a store that
// may still be a snapshot of the older format (src/shared/fido/store.c:377-552).
module FidoLifetime {
  import opened AuthStore
  import opened BlockDevice
  import opened Bytes
  import opened Card
  import opened FidoStore
  import opened Migration
  import opened Options
  import Snapshot
  import Xts

  /** The abstract store: what the engine sees while the store is open, and what a power loss
      may leave. */
  datatype Abstract = Abstract(current: Option<DiskBytes>, durable: set<DiskBytes>)

  datatype Request =
    | ReadAt(offset: nat, n: nat)
    | WriteAt(offset: nat, data: seq<byte>)
    | CommitAll
    | ResetTo(policy: int)
    | Reopen
    | Initialise
    | CardSync
    | PowerLoss

  datatype Reply = Done(bytes: seq<byte>) | Failed

  /** The one rule of the store: reads and writes act on one array of bytes, a commit moves
      all of it at once, and only what was committed, or was being committed, survives. */
  ghost predicate Step(s: Abstract, q: Request, r: Reply, t: Abstract) {
    match q
    case ReadAt(offset, n) =>
      t.durable == s.durable
      && (if r.Failed? then t.current == None else
            s.current.Some? && t == s && offset + n <= |s.current.value| && |r.bytes| == n
            && forall i :: 0 <= i < n ==> s.current.value[offset + i] == Some(r.bytes[i]))
    case WriteAt(offset, data) =>
      t.durable == s.durable
      && (if r.Failed? then t.current == None else
            s.current.Some? && offset + |data| <= |s.current.value|
            && t.current == Some(Patched(s.current.value, offset, data)))
    case CommitAll =>
      if r.Failed? then t.current == None && t.durable <= s.durable + (if s.current.Some? then {s.current.value} else {})
      else s.current.Some? && t.current == s.current && t.durable == {s.current.value}
    case ResetTo(policy) =>
      if r.Failed? then t.current == None && forall d :: d in t.durable ==> d in s.durable || (-1 <= policy <= 1 && Erased(d, policy))
      else s.current.Some? && -1 <= policy <= 1 && t.current.Some? && Erased(t.current.value, policy) && t.durable == {t.current.value}
    case Reopen =>
      (r.Failed? && t.current == None && t.durable == s.durable) || Returns(s, r, t)
    case Initialise =>
      if r.Failed? then t.current == None && forall d :: d in t.durable ==> d in s.durable || Erased(d, -1)
      else t.current.Some? && Erased(t.current.value, -1) && t.durable == {t.current.value}
    case CardSync =>
      t.current == s.current && t.durable <= s.durable
    case PowerLoss => Returns(s, r, t)
  }

  /** The store is opened on one of the disks that survive, and on no other from then on. */
  ghost predicate Returns(s: Abstract, r: Reply, t: Abstract) {
    exists image :: image in s.durable && t.durable == {image} && t.current == (if r.Failed? then None else Some(image))
  }

  ghost predicate IsRun(states: seq<Abstract>, requests: seq<Request>, replies: seq<Reply>) {
    && |states| == |replies| + 1 && |replies| <= |requests|
    && forall k :: 0 <= k < |replies| ==> Step(states[k], requests[k], replies[k], states[k + 1])
  }

  /** Whatever power loss does now, an open gives one of these. */
  ghost predicate Survives(store: FidoStore, keys: Snapshot.BankKeys, d: Disk, durable: set<DiskBytes>)
    requires Snapshot.KeysOk(keys)
  {
    && store.Bound() && LayoutOk(store.auth.layout, J_HOME) && DiskValid(d) && |d.live| == REGION
    && forall m :: CrashImage(d, m) ==> Within(store, keys, durable, Recover(m))
  }

  ghost predicate Within(store: FidoStore, keys: Snapshot.BankKeys, durable: set<DiskBytes>, r: Recovered)
    requires Snapshot.KeysOk(keys) && store.Bound() && LayoutOk(store.auth.layout, J_HOME)
  {
    var y := Yields(store.layers, store.auth.layout, store.auth.key, keys, r);
    y.Some? && y.value in durable
  }

  lemma SurvivesOne(store: FidoStore, keys: Snapshot.BankKeys, durable: set<DiskBytes>, r: Recovered)
    requires Snapshot.KeysOk(keys) && Survives(store, keys, store.dev.disk, durable) && RecoversTo(store.dev.disk, {r})
    ensures Within(store, keys, durable, r)
  {
    hide Within, LayoutOk, Xts.StackLawful, Recover, Snapshot.KeysOk;
    DurableIsImage(store.dev.disk);
  }

  lemma DurableIsImage(d: Disk)
    requires DiskValid(d)
    ensures CrashImage(d, d.durable)
  {
    forall i | 0 <= i < |d.durable| {
      Possible(d, i, d.durable[i]);
    }
  }

  lemma RecoveredSurvives(store: FidoStore, keys: Snapshot.BankKeys, durable: set<DiskBytes>, allowed: set<Recovered>)
    requires Snapshot.KeysOk(keys) && store.Bound() && LayoutOk(store.auth.layout, J_HOME)
    requires DiskValid(store.dev.disk) && |store.dev.disk.live| == REGION && RecoversTo(store.dev.disk, allowed)
    requires forall r :: r in allowed ==> Within(store, keys, durable, r)
    ensures Survives(store, keys, store.dev.disk, durable)
  {
    hide Within, LayoutOk, Xts.StackLawful, Recover, Snapshot.KeysOk;
  }

  lemma HeldSurvives(store: FidoStore, keys: Snapshot.BankKeys, durable: set<DiskBytes>, allowed: set<Recovered>, image: DiskBytes)
    requires Snapshot.KeysOk(keys) && store.Bound() && LayoutOk(store.auth.layout, J_HOME)
    requires DiskValid(store.dev.disk) && |store.dev.disk.live| == REGION
    requires store.RecoversOrHolds(allowed, image) && image in durable
    requires forall r :: r in allowed ==> Within(store, keys, durable, r)
    ensures Survives(store, keys, store.dev.disk, durable)
  {
    hide LayoutOk, Xts.StackLawful, Recover, Plain, BlankDisk, Snapshot.KeysOk, MigratesTo;
  }

  lemma YieldedSurvives(store: FidoStore, keys: Snapshot.BankKeys, image: DiskBytes)
    requires Snapshot.KeysOk(keys) && YieldsOnly(store, keys, Some(image))
    ensures Survives(store, keys, store.dev.disk, {image})
  {
    hide LayoutOk, Xts.StackLawful, Recover, Yields, Snapshot.KeysOk;
  }

  /** The object represents the abstract state. */
  ghost predicate Represents(store: FidoStore, keys: Snapshot.BankKeys, s: Abstract)
    reads store, store.auth, store.dev
  {
    && Snapshot.KeysOk(keys) && store.Valid() && Survives(store, keys, store.dev.disk, s.durable) && LayoutOk(store.auth.layout, J_HOME)
    && store.dev.Reopenable()
    && (if store.ready then !store.dev.recovering && s.current == Some(store.Image()) else s.current == None)
  }

  method HandleRead(store: FidoStore, keys: Snapshot.BankKeys, ghost s: Abstract, offset: nat, n: nat) returns (r: Reply, ghost t: Abstract)
    requires Represents(store, keys, s)
    modifies store, store.auth
    ensures Represents(store, keys, t) && Step(s, ReadAt(offset, n), r, t)
  {
    hide FidoStore.Working, FidoStore.Image, Survives, LayoutOk, FidoStore.Bound;
    var authorised := *;
    var ok, bytes := store.Read(authorised, offset, n);
    r := if ok then Done(bytes) else Failed;
    t := if ok then s else s.(current := None);
  }

  method HandleWrite(store: FidoStore, keys: Snapshot.BankKeys, ghost s: Abstract, offset: nat, data: seq<byte>) returns (r: Reply, ghost t: Abstract)
    requires Represents(store, keys, s)
    modifies store, store.auth, store.dev
    ensures Represents(store, keys, t) && Step(s, WriteAt(offset, data), r, t)
  {
    hide FidoStore.Image, Survives, LayoutOk, Xts.StackLawful, RecoversTo, AuthStore.Valid, FidoStore.CacheAgrees;
    var authorised := *;
    ghost var was := store.ready;
    if store.ready {
      store.StillRecovers();
      SurvivesOne(store, keys, s.durable, Home(store.dev.home));
    }
    var ok := store.Write(authorised, offset, data);
    r := if ok then Done([]) else Failed;
    t := if ok then s.(current := Some(store.Image())) else s.(current := None);
    if was {
      store.dev.Sized();
      store.dev.SettledReopens();
      RecoveredSurvives(store, keys, s.durable, {Home(store.dev.home)});
    }
  }

  method HandleCommit(store: FidoStore, keys: Snapshot.BankKeys, ghost s: Abstract) returns (r: Reply, ghost t: Abstract)
    requires Represents(store, keys, s)
    modifies store, store.auth, store.dev
    ensures Represents(store, keys, t) && Step(s, CommitAll, r, t)
  {
    hide FidoStore.Image, Survives, LayoutOk, Xts.StackLawful, RecoversTo, AuthStore.Valid, FidoStore.CacheAgrees, Plain;
    hide Device.Valid, Device.Contents, Device.Settled;
    var authorised := *;
    ghost var was, h, c := store.ready, store.dev.home, [];
    if was {
      store.StillRecovers();
      SurvivesOne(store, keys, s.durable, Home(h));
      store.SeenNow();
      store.SizedNow();
      c := store.dev.Contents();
    }
    var ok := store.Commit(authorised);
    r := if ok then Done([]) else Failed;
    if ok {
      t := Abstract(s.current, {s.current.value});
      store.SizedNow();
      RecoveredSurvives(store, keys, t.durable, {Home(store.dev.home)});
    } else {
      t := if was then Abstract(None, s.durable + {s.current.value}) else s;
      if was {
        RecoveredSurvives(store, keys, t.durable, {Home(h), Home(c)});
      }
    }
  }

  method HandleReset(store: FidoStore, keys: Snapshot.BankKeys, ghost s: Abstract, policy: int) returns (r: Reply, ghost t: Abstract)
    requires Represents(store, keys, s)
    modifies store, store.auth, store.dev
    ensures Represents(store, keys, t) && Step(s, ResetTo(policy), r, t)
  {
    hide FidoStore.Image, Survives, LayoutOk, Xts.StackLawful, RecoversTo, AuthStore.Valid, FidoStore.CacheAgrees, Plain;
    hide Device.Valid, Device.Contents, Device.Settled, BlankDisk, FidoStore.RecoversOrHolds, Erased;
    var authorised := *;
    ghost var was, h := store.ready, store.dev.home;
    if policy <= 1 {
      BlankIsErased(policy);
    }
    if was {
      store.StillRecovers();
      SurvivesOne(store, keys, s.durable, Home(h));
    }
    var ok := store.Reset(authorised, policy);
    r := if ok then Done([]) else Failed;
    if ok {
      t := Abstract(Some(BlankDisk(policy)), {BlankDisk(policy)});
      store.SizedNow();
      RecoveredSurvives(store, keys, t.durable, {Home(store.dev.home)});
    } else {
      t := if was && -1 <= policy <= 1 then Abstract(None, s.durable + {BlankDisk(policy)}) else s.(current := None);
      if was {
        if -1 <= policy <= 1 {
          HeldSurvives(store, keys, t.durable, {Home(h), Fresh(policy)}, BlankDisk(policy));
        } else {
          RecoveredSurvives(store, keys, t.durable, {Home(h)});
        }
      }
    }
  }

  /** The store is closed and opened again on the card as it is, as every lock and unlock does:
      what was not committed is gone. A careful caller waits for a sync of the card, or a power
      loss, when a control record is doubtful. */
  method HandleReopen(store: FidoStore, keys: Snapshot.BankKeys, ghost s: Abstract) returns (next: FidoStore, r: Reply, ghost t: Abstract)
    requires Represents(store, keys, s)
    modifies store`ready
    ensures next == store || (fresh(next) && fresh(next.auth) && fresh(next.dev))
    ensures Represents(next, keys, t) && Step(s, Reopen, r, t)
    ensures next.layers == store.layers && next.auth.key == store.auth.key
  {
    hide FidoStore.Image, LayoutOk, Xts.StackLawful, RecoversTo, AuthStore.Valid, FidoStore.CacheAgrees, Plain, Openable;
    hide Device.Valid, Device.Contents, Device.Settled, BlankDisk, FidoStore.RecoversOrHolds, Recover, AllSure;
    store.Fail();
    next, r, t := store, Failed, s.(current := None);
    if store.dev.doubtful {
      return;
    }
    next, r, t := OpenAgain(store, keys, s, store.dev.disk);
  }

  /** A new store on a card that holds one of the disks that survive. */
  method OpenAgain(store: FidoStore, keys: Snapshot.BankKeys, ghost s: Abstract, card: Disk)
    returns (next: FidoStore, r: Reply, ghost t: Abstract)
    requires Snapshot.KeysOk(keys) && store.Bound() && LayoutOk(store.auth.layout, J_HOME)
    requires Survives(store, keys, store.dev.disk, s.durable) && CrashImage(store.dev.disk, card.live)
    requires DiskValid(card) && |card.live| == REGION && Openable(card)
    ensures fresh(next) && fresh(next.auth) && fresh(next.dev)
    ensures Represents(next, keys, t) && Returns(s, r, t)
    ensures next.layers == store.layers && next.auth.key == store.auth.key
  {
    hide FidoStore.Image, LayoutOk, Xts.StackLawful, RecoversTo, AuthStore.Valid, FidoStore.CacheAgrees, Plain, Openable;
    hide Device.Valid, Device.Contents, Device.Settled, BlankDisk, FidoStore.RecoversOrHolds, Recover, AllSure;
    ghost var found := Recover(card.live);
    assert Within(store, keys, s.durable, found);
    ghost var image := Yields(store.layers, store.auth.layout, store.auth.key, keys, found).value;
    var dev := new Device.OverRegion(card);
    next := new FidoStore.Bind(dev, store.layers, store.auth.key);
    SameLayout(next.auth.layout, store.auth.layout);
    var authorised := *;
    var ok := OpenStore(next, authorised, keys);
    r := if ok then Done([]) else Failed;
    t := Abstract(if ok then Some(image) else None, {image});
    YieldedSurvives(next, keys, image);
  }

  /** An empty store is created in place of the old one, on the live card and under the same
      care as a reopening. */
  method HandleInitialise(store: FidoStore, keys: Snapshot.BankKeys, ghost s: Abstract)
    returns (next: FidoStore, r: Reply, ghost t: Abstract)
    requires Represents(store, keys, s)
    modifies store`ready
    ensures next == store || (fresh(next) && fresh(next.auth) && fresh(next.dev))
    ensures Represents(next, keys, t) && Step(s, Initialise, r, t)
    ensures next.layers == store.layers && next.auth.key == store.auth.key
  {
    hide FidoStore.Image, LayoutOk, Xts.StackLawful, RecoversTo, AuthStore.Valid, FidoStore.CacheAgrees, Plain, Openable;
    hide Device.Valid, Device.Contents, Device.Settled, BlankDisk, FidoStore.RecoversOrHolds, Recover, AllSure;
    store.Fail();
    next, r, t := store, Failed, s.(current := None);
    var confirmed := *;
    if store.dev.doubtful || !confirmed {
      return;
    }
    next, r, t := CreateAgain(store, keys, s, store.dev.disk);
  }

  /** A new and empty store on a card that holds one of the disks that survive. */
  method CreateAgain(store: FidoStore, keys: Snapshot.BankKeys, ghost s: Abstract, card: Disk)
    returns (next: FidoStore, r: Reply, ghost t: Abstract)
    requires Snapshot.KeysOk(keys) && store.Bound() && LayoutOk(store.auth.layout, J_HOME)
    requires Survives(store, keys, store.dev.disk, s.durable) && CrashImage(store.dev.disk, card.live)
    requires DiskValid(card) && |card.live| == REGION && Openable(card)
    ensures fresh(next) && fresh(next.auth) && fresh(next.dev)
    ensures Represents(next, keys, t) && Step(s, Initialise, r, t)
    ensures next.layers == store.layers && next.auth.key == store.auth.key
  {
    hide FidoStore.Image, LayoutOk, Xts.StackLawful, RecoversTo, AuthStore.Valid, FidoStore.CacheAgrees, Plain, Openable;
    hide Device.Valid, Device.Contents, Device.Settled, BlankDisk, FidoStore.RecoversOrHolds, Recover, AllSure, Newest, Erased;
    BlankIsErased(-1);
    ghost var found := Recover(card.live);
    assert Within(store, keys, s.durable, found);
    var dev := new Device.OverRegion(card);
    next := new FidoStore.Bind(dev, store.layers, store.auth.key);
    SameLayout(next.auth.layout, store.auth.layout);
    var ok := next.Initialise();
    r := if ok then Done([]) else Failed;
    if ok {
      t := Abstract(Some(BlankDisk(-1)), {BlankDisk(-1)});
      RecoveredSurvives(next, keys, t.durable, {Home(next.dev.home)});
    } else {
      t := Abstract(None, s.durable + {BlankDisk(-1)});
      HeldSurvives(next, keys, t.durable, {found, Fresh(-1)}, BlankDisk(-1));
    }
  }

  /** Some other user of the card syncs it. */
  method HandleSync(store: FidoStore, keys: Snapshot.BankKeys, ghost s: Abstract) returns (r: Reply, ghost t: Abstract)
    requires Represents(store, keys, s)
    modifies store.dev
    ensures Represents(store, keys, t) && Step(s, CardSync, r, t)
  {
    hide FidoStore.Image, LayoutOk, Xts.StackLawful, RecoversTo, Plain, Openable, Yields, Recover;
    ghost var before := store.dev.disk;
    var ok := store.CardSync();
    r, t := if ok then Done([]) else Failed, s;
    if ok {
      SureOpenable(store.dev.disk);
      OnlyLiveSurvives(store, keys, before, s.durable);
    }
  }

  lemma OnlyLiveSurvives(store: FidoStore, keys: Snapshot.BankKeys, before: Disk, durable: set<DiskBytes>)
    requires Snapshot.KeysOk(keys) && Survives(store, keys, before, durable) && DiskValid(store.dev.disk)
    requires store.dev.disk == before.(durable := before.live, unsynced := map[]) && AllSure(store.dev.disk, 0, REGION)
    ensures Survives(store, keys, store.dev.disk, durable)
  {
    hide LayoutOk, Xts.StackLawful, Recover, Within, Snapshot.KeysOk;
    forall m | CrashImage(store.dev.disk, m)
      ensures Within(store, keys, durable, Recover(m))
    {
      SureRange(store.dev.disk, 0, REGION, m);
      assert m == m[0..REGION] == before.live[0..REGION] == before.live;
      assert CrashImage(before, before.live);
    }
  }

  /** Power is lost and the store opened again. */
  method HandlePowerLoss(store: FidoStore, keys: Snapshot.BankKeys, ghost s: Abstract) returns (next: FidoStore, r: Reply, ghost t: Abstract)
    requires Represents(store, keys, s)
    ensures fresh(next) && fresh(next.auth) && fresh(next.dev)
    ensures Represents(next, keys, t) && Step(s, PowerLoss, r, t)
    ensures next.layers == store.layers && next.auth.key == store.auth.key
  {
    hide FidoStore.Image, LayoutOk, Xts.StackLawful, RecoversTo, AuthStore.Valid, FidoStore.CacheAgrees, Plain, Openable, AllSure;
    hide Device.Valid, Device.Contents, Device.Settled, Recover;
    var card := Card.PowerCycle(store.dev.disk);
    PoweredUp(card);
    SureOpenable(card);
    next, r, t := OpenAgain(store, keys, s, card);
  }

  lemma PoweredUp(card: Disk)
    requires DiskValid(card) && card.unsynced == map[] && card.live == card.durable
    ensures AllSure(card, 0, |card.live|)
  {
    SyncedIsSure(card);
  }

  lemma SameLayout(a: Layout, b: Layout)
    requires IsHomeLayout(a) && IsHomeLayout(b) && LayoutOk(a, J_HOME) && LayoutOk(b, J_HOME)
    ensures a == b
  {
  }

  /** Every run: whatever is asked, whatever fails and whenever power is lost, the store behaves
      as one array of bytes with an atomic commit. */
  method Lifetime(first: FidoStore, keys: Snapshot.BankKeys, ghost start: Abstract, requests: seq<Request>)
    returns (last: FidoStore, replies: seq<Reply>, ghost states: seq<Abstract>)
    requires Represents(first, keys, start)
    modifies first, first.auth, first.dev
    ensures |replies| == |requests| && IsRun(states, requests, replies) && states[0] == start
    ensures Represents(last, keys, states[|replies|])
    ensures last.layers == first.layers && last.auth.key == first.auth.key
  {
    hide Represents, Step;
    var store := first;
    replies, states := [], [start];
    for k := 0 to |requests|
      invariant |replies| == k && |states| == k + 1 && states[0] == start
      invariant Represents(store, keys, states[k]) && store.layers == first.layers && store.auth.key == first.auth.key
      invariant store == first || (fresh(store) && fresh(store.auth) && fresh(store.dev))
      invariant forall j :: 0 <= j < k ==> Step(states[j], requests[j], replies[j], states[j + 1])
    {
      var r;
      ghost var s, t := states[k], states[k];
      match requests[k] {
        case ReadAt(offset, n) =>
          r, t := HandleRead(store, keys, s, offset, n);
        case WriteAt(offset, data) =>
          r, t := HandleWrite(store, keys, s, offset, data);
        case CommitAll =>
          r, t := HandleCommit(store, keys, s);
        case ResetTo(policy) =>
          r, t := HandleReset(store, keys, s, policy);
        case Reopen =>
          store, r, t := HandleReopen(store, keys, s);
        case Initialise =>
          store, r, t := HandleInitialise(store, keys, s);
        case CardSync =>
          r, t := HandleSync(store, keys, s);
        case PowerLoss =>
          store, r, t := HandlePowerLoss(store, keys, s);
      }
      replies, states := replies + [r], states + [t];
    }
    last := store;
  }
}
