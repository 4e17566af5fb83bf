// USB mass storage on two cores (src/pico/device/usb_storage.c, usb_storage_bridge.c and
// usb_vault_io.h): core 0 answers the host while the worker on core 1 moves one batch at a time
// between a shared buffer and the vault.
//
// The worker, the interrupt handler and session changes may act between any two steps of
// core 0; every core-0 method therefore calls Interfere wherever it looks at shared state.
module UsbStorage {
  import opened Bytes
  import opened Options

  const IO_BYTES: nat := 32768
  const BLOCK: nat := 512

  datatype Mode = Locked | Full | PasskeysOnly | FilesReadOnly

  predicate Files(m: Mode) { m == Full || m == FilesReadOnly }

  predicate Writable(m: Mode) { m == Full }

  datatype Result = Okay | InvalidArgument | NotReady | OutOfRange | ReadOnly | MediumError

  datatype Request = Request(write: bool, lba: nat, bytes: nat, generation: nat)

  datatype Response = Response(result: Result, blocks: nat, generation: nat, unlocked: bool, mode: Mode)

  /** m with data written at byte at. */
  function Patch(m: seq<byte>, at: nat, data: seq<byte>): (r: seq<byte>)
    requires at + |data| <= |m|
    ensures |r| == |m|
    ensures forall i :: 0 <= i < |m| ==> r[i] == if at <= i < at + |data| then data[i - at] else m[i]
  {
    m[..at] + data + m[at + |data|..]
  }

  /** Nothing has changed outside the range of q, nor anywhere if q is no write. */
  predicate Untouched(q: Option<Request>, was: seq<byte>, now: seq<byte>) {
    && |now| == |was|
    && forall i: nat :: i < |was| && !(q.Some? && q.value.write && Covers(BLOCK * q.value.lba, q.value.bytes, i)) ==> now[i] == was[i]
  }

  predicate Covers(first: nat, n: nat, i: nat) {
    first <= i < first + n
  }

  lemma UntouchedOn(q: Option<Request>, r: Option<Request>, a: seq<byte>, b: seq<byte>, c: seq<byte>)
    requires Untouched(q, a, b) && Untouched(r, b, c) && r in {q, None}
    ensures Untouched(q, a, c)
  {
  }

  lemma UntouchedSame(q: Option<Request>, m: seq<byte>)
    ensures Untouched(q, m, m)
  {
  }

  lemma SameSize(q: Option<Request>, was: seq<byte>, now: seq<byte>)
    requires Untouched(q, was, now)
    ensures |now| == |was|
  {
  }

  lemma UntouchedIdle(q: Option<Request>, was: seq<byte>, now: seq<byte>)
    requires Untouched(q, was, now) && (q.None? || !q.value.write)
    ensures now == was
  {
  }

  // ---- The worker ----------------------------------------------------------

  class Worker {
    /** The decrypted volume. */
    var medium: seq<byte>
    /** The batch buffer. Core 0 may touch it only while no request is outstanding. */
    var scratch: seq<byte>
    var unlocked: bool
    var mode: Mode
    var generation: nat
    /** The generation core 0 is told; a lock announces the next one before it takes effect. */
    var published: nat
    var invalidated: bool
    var request: Option<Request>
    var response: Option<Response>
    /** Nobody else acts: no bus event, lock, unlock or expiry, no failure of the card, and
        nothing else in the queue. */
    const steady: bool

    /** Unlocked for files, with no lock on its way. */
    predicate Calm()
      reads this
    {
      !invalidated && published == generation && unlocked && mode in {Full, FilesReadOnly}
    }

    predicate StillCalm(m: Mode, g: nat)
      reads this
    {
      Calm() && mode == m && generation == g
    }

    /** Left alone the worker neither unlocks nor forgets a bus event. */
    predicate Quiet(wasUnlocked: bool, wasInvalidated: bool, g: nat)
      reads this
    {
      (unlocked ==> wasUnlocked) && invalidated == wasInvalidated && generation >= g
    }

    /** What a batch deserves: all of it is done, or none for this reason. */
    function Judge(q: Request): Result
      reads this
    {
      if q.bytes == 0 || q.bytes % BLOCK != 0 then InvalidArgument
      else if !unlocked || mode !in {Full, FilesReadOnly} || q.generation != generation then NotReady
      else if q.write && mode != Full then ReadOnly
      else if BLOCK * q.lba + q.bytes > |medium| then OutOfRange
      else Okay
    }

    /** If the request has been carried out, this is its response. */
    predicate Answered(was: Option<Request>, result: Result)
      reads this
    {
      was.Some? && request.None? ==> response == Some(Response(result, |medium| / BLOCK, generation, true, mode))
    }

    predicate Valid()
      reads this
    {
      && |scratch| == IO_BYTES && !(request.Some? && response.Some?)
      && generation <= published <= generation + 1
      && (request.Some? ==> request.value.bytes <= IO_BYTES)
    }

    constructor (medium: seq<byte>, unlocked: bool, mode: Mode, steady: bool)
      ensures Valid() && this.medium == medium && this.steady == steady && request.None? && response.None?
      ensures this.unlocked == unlocked && this.mode == mode && generation == published == 0 && !invalidated
    {
      this.medium, this.steady, scratch := medium, steady, Zeros(IO_BYTES);
      this.unlocked, this.mode, generation, published, invalidated := unlocked, mode, 0, 0, false;
      request, response := None, None;
    }

    /** Check and perform one batch. */
    method VaultIo(q: Request) returns (result: Result)
      requires Valid() && q.bytes <= IO_BYTES
      modifies this`medium, this`scratch
      ensures Valid() && |medium| == |old(medium)| && (!q.write || result !in {Okay, MediumError} ==> medium == old(medium))
      ensures Untouched(Some(q), old(medium), medium)
      ensures result == Okay ==> unlocked && Files(mode) && q.generation == generation && (q.write ==> Writable(mode))
      ensures result == Okay ==> BLOCK * q.lba + q.bytes <= |medium| && 0 < q.bytes
      ensures result == Okay && q.write ==> medium == Patch(old(medium), BLOCK * q.lba, old(scratch)[..q.bytes])
      ensures result == Okay && !q.write ==> scratch[..q.bytes] == medium[BLOCK * q.lba..BLOCK * q.lba + q.bytes]
      ensures result == old(Judge(q)) || (result == MediumError && old(Judge(q)) == Okay && !steady)
      ensures result in {Okay, MediumError} && q.write ==> scratch == Zeros(IO_BYTES)
    {
      if q.bytes == 0 || q.bytes % BLOCK != 0 {
        return InvalidArgument;
      }
      if !unlocked || !Files(mode) || q.generation != generation {
        return NotReady;
      }
      if q.write && !Writable(mode) {
        return ReadOnly;
      }
      var at := BLOCK * q.lba;
      if at + q.bytes > |medium| {
        return OutOfRange;
      }
      var failed := *;
      failed := failed && !steady;
      if q.write {
        // A write consumes the plaintext; one that fails may have stored anything in its range.
        var stored := scratch[..q.bytes];
        if failed {
          assert |Zeros(q.bytes)| == q.bytes;
          stored :| |stored| == q.bytes;
        }
        medium := Patch(medium, at, stored);
        scratch := Zeros(IO_BYTES);
      } else {
        scratch := medium[at..at + q.bytes] + scratch[q.bytes..];
      }
      result := if failed then MediumError else Okay;
    }

    /** Revoke first. */
    method Announce()
      modifies this`published
      ensures published == generation + 1
    {
      published := generation + 1;
    }

    /** Then lock. */
    method Lock()
      modifies this`unlocked, this`mode, this`generation, this`published
      ensures !unlocked && generation == old(generation) + 1 && published == generation
    {
      Announce();
      unlocked, mode, generation := false, Locked, generation + 1;
    }

    /** A response tells the truth about what has happened to the medium and the buffer. */
    predicate Honest(q: Request, r: Response)
      reads this
    {
      r.result == Okay ==>
        && r.generation == q.generation && r.unlocked && Files(r.mode) && (q.write ==> Writable(r.mode))
        && BLOCK * q.lba + q.bytes <= |medium| && q.bytes <= |scratch|
        && (!q.write ==> scratch[..q.bytes] == medium[BLOCK * q.lba..BLOCK * q.lba + q.bytes])
    }

    /** Carry out the outstanding request. */
    method Execute()
      requires Valid() && request.Some?
      modifies this
      ensures Valid() && request.None? && response.Some? && |medium| == |old(medium)|
      ensures old(published) <= published && Untouched(old(request), old(medium), medium)
      ensures var q, r := old(request.value), response.value;
        && Honest(q, r) && (!q.write ==> medium == old(medium))
        && (q.write && r.result == Okay ==> medium == Patch(old(medium), BLOCK * q.lba, old(scratch)[..q.bytes]))
      // A lock that was announced, or a bus event, comes first.
      ensures old(invalidated || published != generation) ==> !unlocked && generation == old(generation) + 1 && response.value.result != Okay
      ensures response.value.generation == generation && response.value.unlocked == unlocked && response.value.mode == mode
      ensures response.value.blocks == if mode in {Full, FilesReadOnly} then |medium| / BLOCK else 0
      ensures response.value.result == MediumError ==> !unlocked
      ensures steady && old(Calm()) ==> StillCalm(old(mode), old(generation)) && Answered(old(request), old(Judge(request.value)))
      ensures steady ==> Quiet(old(unlocked), old(invalidated), old(generation))
    {
      var q := request.value;
      var locks, expired := *, *;
      locks, expired := locks && !steady, expired && !steady;
      if locks || invalidated || published != generation {
        Lock();
      }
      var result := VaultIo(q);
      if result == MediumError {
        Lock();
      } else if result == Okay && expired {
        Lock();
        scratch := Zeros(IO_BYTES);
        result := NotReady;
      }
      response := Some(Response(result, if Files(mode) then |medium| / BLOCK else 0, generation, unlocked, mode));
      request := None;
    }

    /** What may have become of an outstanding request, its medium and its buffer. */
    ghost predicate Progress(was: Option<Request>, wasResponse: Option<Response>, wasMedium: seq<byte>, wasScratch: seq<byte>)
      reads this
    {
      if was.None? || request.Some? then
        request == was && response == wasResponse && medium == wasMedium && scratch == wasScratch
      else
        var q := was.value;
        && response.Some? && Honest(q, response.value) && |medium| == |wasMedium| && (!q.write ==> medium == wasMedium)
        && Untouched(was, wasMedium, medium)
        && (q.write && response.value.result == Okay ==>
              && q.bytes <= |wasScratch| && BLOCK * q.lba + q.bytes <= |medium|
              && medium == Patch(wasMedium, BLOCK * q.lba, wasScratch[..q.bytes]))
    }

    /** One thing that may happen elsewhere: an interrupt, a lock being announced or carried
        out, an unlock, or the outstanding request being carried out. */
    method Step()
      requires Valid()
      modifies this
      ensures Valid() && Progress(old(request), old(response), old(medium), old(scratch)) && old(published) <= published
      ensures steady && old(Calm()) ==> StillCalm(old(mode), old(generation))
      ensures steady ==> Quiet(old(unlocked), old(invalidated), old(generation))
      ensures steady && old(Calm() && request.Some?) ==> Answered(old(request), old(Judge(request.value)))
    {
      var interrupt, lock, unlock := *, *, *;
      interrupt, lock, unlock := interrupt && !steady, lock && !steady, unlock && !steady;
      if interrupt {
        invalidated := true;
      } else if published != generation {
        Lock();
      } else if lock {
        Announce();
      } else if unlock {
        if !unlocked {
          var granted: Mode := *;
          unlocked, mode, generation := true, granted, generation + 1;
          published := generation;
        }
      } else if request.Some? {
        Execute();
      }
    }

    /** Anything that may happen elsewhere between two steps of core 0. */
    method Interfere()
      requires Valid()
      modifies this
      ensures Valid() && Progress(old(request), old(response), old(medium), old(scratch)) && old(published) <= published
      ensures steady && old(Calm()) ==> StillCalm(old(mode), old(generation))
      ensures steady ==> Quiet(old(unlocked), old(invalidated), old(generation))
      ensures steady && old(Calm() && request.Some?) ==> Answered(old(request), old(Judge(request.value)))
    {
      var steps := *;
      if steps < 0 {
        steps := 0;
      }
      for i := 0 to steps
        invariant Valid() && Progress(old(request), old(response), old(medium), old(scratch)) && old(published) <= published
        invariant steady && old(Calm()) ==> StillCalm(old(mode), old(generation)) && |medium| == |old(medium)|
        invariant steady ==> Quiet(old(unlocked), old(invalidated), old(generation))
        invariant steady && old(Calm() && request.Some?) ==> Answered(old(request), old(Judge(request.value)))
      {
        Step();
      }
    }

    /** Wait for the outstanding request. */
    method Finish()
      requires Valid()
      modifies this
      ensures Valid() && request.None? && |medium| == |old(medium)| && old(published) <= published
      ensures Untouched(old(request), old(medium), medium)
      ensures old(request).None? ==> response == old(response) && medium == old(medium) && scratch == old(scratch)
      ensures old(request).Some? ==> response.Some?
      ensures old(request).Some? && !old(request.value).write ==> medium == old(medium)
      ensures steady && old(Calm()) ==> StillCalm(old(mode), old(generation))
      ensures steady ==> Quiet(old(unlocked), old(invalidated), old(generation))
    {
      Interfere();
      if request.Some? {
        Execute();
      }
    }
  }

  // ---- How far a command has got -------------------------------------------

  /** A command: its direction, its range, what is left of it, the batch under way, the
      generation published when it was accepted, and the bytes taken from the host or, of the
      range of a read, passed over so far. */
  datatype Flow = Flow(
    write: bool, busy: bool, last: bool, lba: nat, left: nat, batchBytes: nat, generation: nat,
    first: nat, total: nat, original: seq<byte>, moved: seq<byte>, batch: seq<byte>)

  /** A response given in the command's own session. */
  predicate Trusted(f: Flow, r: Response) {
    r.generation == f.generation && r.unlocked && Files(r.mode) && (f.write ==> Writable(r.mode))
  }

  predicate Flows(f: Flow, medium: seq<byte>, scratch: seq<byte>, request: Option<Request>, outcome: Option<Response>) {
    && f.left <= f.total && f.left % BLOCK == f.total % BLOCK == f.first % BLOCK == 0
    && BLOCK * f.lba == f.first + (f.total - f.left) && |scratch| == IO_BYTES
    && f.first + f.total <= |f.original| == |medium|
    && (if f.write then WriteFlows(f, medium, scratch, request, outcome) else ReadFlows(f, medium, scratch, request, outcome))
  }

  /** The batches taken so far cover the range from its start without gap or overlap, and all
      but the one under way are on the medium. */
  predicate WriteFlows(f: Flow, medium: seq<byte>, scratch: seq<byte>, request: Option<Request>, outcome: Option<Response>)
    requires f.first + f.total <= |f.original| && f.left <= f.total && |scratch| == IO_BYTES
  {
    && |f.moved| == (if f.last then f.total else f.total - f.left) && |f.batch| <= |f.moved|
    && (f.last ==> f.batchBytes == f.left && f.busy)
    && (if f.busy then
          && |f.batch| == f.batchBytes <= IO_BYTES && f.batch == f.moved[|f.moved| - |f.batch|..]
          && (request.Some? ==>
                && request.value.write && request.value.bytes == f.batchBytes && request.value.generation == f.generation
                && BLOCK * request.value.lba == f.first + |f.moved| - |f.batch| && scratch[..f.batchBytes] == f.batch)
          && (outcome.None? ==> medium == Patch(f.original, f.first, f.moved[..|f.moved| - |f.batch|]))
          && (outcome.Some? && outcome.value.result == Okay ==>
                Trusted(f, outcome.value) && medium == Patch(f.original, f.first, f.moved))
        else f.batch == [] && medium == Patch(f.original, f.first, f.moved))
  }

  /** What the host has been given is the start of the range, and a batch that has come back
      holds what follows. */
  predicate ReadFlows(f: Flow, medium: seq<byte>, scratch: seq<byte>, request: Option<Request>, outcome: Option<Response>)
    requires f.first + f.total <= |f.original| && f.left <= f.total && |scratch| == IO_BYTES
    requires BLOCK * f.lba == f.first + (f.total - f.left)
  {
    && medium == f.original && f.moved == f.original[f.first..f.first + (f.total - f.left)] && !f.last
    && (f.busy ==>
          && 0 < f.batchBytes <= IO_BYTES && f.batchBytes <= f.left
          && (request.Some? ==> request.value == Request(false, f.lba, f.batchBytes, f.generation))
          && (outcome.Some? && outcome.value.result == Okay ==>
                && Trusted(f, outcome.value)
                && scratch[..f.batchBytes] == f.original[BLOCK * f.lba..BLOCK * f.lba + f.batchBytes]))
  }

  /** A refused response promises nothing. */
  lemma RefusalFlows(f: Flow, medium: seq<byte>, scratch: seq<byte>, outcome: Option<Response>, r: Response)
    requires Flows(f, medium, scratch, None, outcome) && outcome.Some? && (r == outcome.value || r.result != Okay)
    ensures Flows(f, medium, scratch, None, Some(r))
  {
  }

  /** The worker carries the batch out. */
  lemma ExecutedFlows(f: Flow, wasMedium: seq<byte>, wasScratch: seq<byte>, q: Request, medium: seq<byte>, scratch: seq<byte>, r: Response)
    requires Flows(f, wasMedium, wasScratch, Some(q), None) && f.busy
    requires |scratch| == IO_BYTES && |medium| == |wasMedium| && (!q.write ==> medium == wasMedium)
    requires r.result == Okay ==> r.generation == q.generation && r.unlocked && Files(r.mode) && (q.write ==> Writable(r.mode))
    requires r.result == Okay ==> BLOCK * q.lba + q.bytes <= |medium| && q.bytes <= IO_BYTES
    requires r.result == Okay && !q.write ==> scratch[..q.bytes] == medium[BLOCK * q.lba..BLOCK * q.lba + q.bytes]
    requires r.result == Okay && q.write ==> medium == Patch(wasMedium, BLOCK * q.lba, wasScratch[..q.bytes])
    ensures Flows(f, medium, scratch, None, Some(r))
  {
    if f.write {
      ExecutedWrite(f, wasMedium, wasScratch, q, medium, scratch, r);
    }
  }

  lemma ExecutedWrite(f: Flow, wasMedium: seq<byte>, wasScratch: seq<byte>, q: Request, medium: seq<byte>, scratch: seq<byte>, r: Response)
    requires Flows(f, wasMedium, wasScratch, Some(q), None) && f.busy && f.write && |scratch| == IO_BYTES && |medium| == |wasMedium|
    requires r.result == Okay ==> r.generation == q.generation && r.unlocked && Files(r.mode) && Writable(r.mode)
    requires r.result == Okay ==> BLOCK * q.lba + |f.batch| <= |wasMedium| && medium == Patch(wasMedium, BLOCK * q.lba, f.batch)
    ensures Flows(f, medium, scratch, None, Some(r))
  {
    if r.result == Okay {
      PatchOn(f.original, f.first, f.moved, |f.batch|);
    }
  }

  /** Adding the next batch behind those already written. */
  lemma PatchOn(m: seq<byte>, at: nat, data: seq<byte>, n: nat)
    requires at + |data| <= |m| && n <= |data|
    ensures var k := |data| - n; Patch(Patch(m, at, data[..k]), at + k, data[k..]) == Patch(m, at, data)
  {
  }

  // ---- Core 0 --------------------------------------------------------------

  predicate Queued(asyncPending: bool, asyncReady: bool, request: Option<Request>, response: Option<Response>) {
    (asyncPending <==> request.Some? || response.Some?) && !(asyncPending && asyncReady)
  }

  predicate Matched(pending: bool, ready: bool, asyncPending: bool, asyncReady: bool) {
    (pending <==> asyncPending || asyncReady) && !(pending && ready)
  }

  /** Bytes moved, for the display. */
  class Activity {
    var read: nat
    var write: nat

    constructor () {
      read, write := 0, 0;
    }
  }

  class Storage {
    const w: Worker
    const activity: Activity
    var asyncPending: bool
    var asyncReady: bool
    var asyncResponse: Response
    var commandActive: bool
    var commandWrite: bool
    var pending: bool
    var ready: bool
    var finalWrite: bool
    var commandLba: nat
    var commandLeft: nat
    var pendingBytes: nat
    var commandGeneration: nat
    var completed: Response
    /** The command as a whole. */
    ghost var flow: Flow
    /** The generation published when the last call passed its checks. */
    ghost var verdict: nat

    /** The fields say what the record says. */
    ghost predicate Synced()
      reads this
    {
      && flow.write == commandWrite && flow.busy == (pending || ready) && flow.last == finalWrite
      && flow.lba == commandLba && flow.left == commandLeft && flow.batchBytes == pendingBytes
      && flow.generation == commandGeneration
    }

    /** The response to the batch under way, wherever it has got to. */
    function Outcome(): Option<Response>
      reads this, w
    {
      if ready then Some(completed) else if asyncReady then Some(asyncResponse) else w.response
    }

    /** Who owns what: a batch is under way exactly while a request or its response is. */
    predicate Wired()
      reads this, w
    {
      Bridged() && Matched(pending, ready, asyncPending, asyncReady) && (pending || ready ==> commandActive)
    }

    /** The queue ends of the two cores agree. */
    predicate Bridged()
      reads this, w
    {
      w.Valid() && Queued(asyncPending, asyncReady, w.request, w.response)
    }

    ghost predicate Flowing()
      reads this, w
    {
      Synced() && Flows(flow, w.medium, w.scratch, w.request, Outcome())
    }

    ghost predicate Valid()
      reads this, w
    {
      Wired() && (commandActive ==> Flowing())
    }

    /** Nothing stands in the way of the command: no one else acts, the session is the one it
        began in, and whatever of it has come back was done. */
    ghost predicate Smooth()
      reads this, w
    {
      && w.steady && w.Calm()
      && (commandActive ==> commandGeneration == w.generation && (commandWrite ==> Writable(w.mode)))
      && (w.request.Some? ==> commandActive && w.Judge(w.request.value) == Okay)
      && (pending || ready ==> Went(Outcome()))
    }

    /** Not yet answered, or done in this session. */
    predicate Went(outcome: Option<Response>)
      reads w
    {
      outcome.Some? ==> outcome.value == Response(Okay, |w.medium| / BLOCK, w.generation, true, w.mode)
    }

    constructor (w: Worker)
      requires w.Valid() && w.request.None? && w.response.None?
      ensures Valid() && this.w == w && !commandActive
    {
      this.w := w;
      activity := new Activity();
      asyncPending, asyncReady, asyncResponse := false, false, Response(NotReady, 0, 0, false, Locked);
      commandActive, commandWrite, pending, ready, finalWrite := false, false, false, false, false;
      commandLba, commandLeft, pendingBytes, commandGeneration := 0, 0, 0, 0;
      completed := Response(NotReady, 0, 0, false, Locked);
      flow := Flow(false, false, false, 0, 0, 0, 0, 0, 0, [], [], []);
    }

    /** Other agents act; the command is where it was, or its batch has been carried out. */
    method Interfere()
      requires Valid()
      modifies w
      ensures old(w.published) <= w.published
      ensures Untouched(old(w.request), old(w.medium), w.medium)
      ensures w.request in {old(w.request), None}
      ensures Valid() && |w.medium| == |old(w.medium)|
      ensures old(w.request).None? ==> w.request.None? && w.response == old(w.response) && w.medium == old(w.medium) && w.scratch == old(w.scratch)
      ensures w.steady ==> w.Quiet(old(w.unlocked), old(w.invalidated), old(w.generation))
      ensures w.steady && old(w.Calm()) ==> w.StillCalm(old(w.mode), old(w.generation))
      ensures old(Smooth()) ==> Smooth()
    {
      hide Flows, Patch, Untouched;
      ghost var q, medium, scratch := w.request, w.medium, w.scratch;
      UntouchedSame(q, medium);
      w.Interfere();
      if commandActive && q.Some? && w.request.None? {
        ExecutedFlows(flow, medium, scratch, q.value, w.medium, w.scratch, w.response.value);
      }
    }

    /** A response from another session, or after a bus event, is a refusal. */
    function Suppressed(r: Response): Response
      reads w
    {
      if w.invalidated || r.generation != w.published then Response(NotReady, 0, r.generation, false, Locked) else r
    }

    /** Take the response of the batch under way if it is there. */
    method AsyncTake() returns (ok: bool, r: Response)
      requires Bridged()
      modifies this`asyncPending, this`asyncReady, this`asyncResponse, w`response
      ensures Bridged()
      ensures ok <==> old(asyncReady) || (old(asyncPending) && old(w.response).Some?)
      ensures ok ==> !asyncPending && !asyncReady && w.response.None?
      ensures ok ==> r == Suppressed(if old(asyncReady) then old(asyncResponse) else old(w.response).value)
      ensures ok && (w.invalidated || r.generation != w.published) ==>
                r.result == NotReady && r.blocks == 0 && !r.unlocked && r.mode == Locked
      ensures ok ==> r.generation == (if old(asyncReady) then old(asyncResponse) else old(w.response).value).generation
      ensures !ok ==> asyncPending == old(asyncPending) && asyncReady == old(asyncReady) && w.response == old(w.response)
    {
      if asyncPending && w.response.Some? {
        asyncResponse, w.response := w.response.value, None;
        asyncPending, asyncReady := false, true;
      }
      r := asyncResponse;
      if !asyncReady {
        return false, r;
      }
      asyncReady := false;
      r := Suppressed(r);
      ok := true;
    }

    /** Wait until the worker has let go of the buffer. */
    method AsyncWait()
      requires Bridged()
      modifies this`asyncPending, this`asyncReady, this`asyncResponse, w
      ensures old(w.published) <= w.published
      ensures Bridged() && !asyncPending && w.request.None? && |w.medium| == |old(w.medium)|
      ensures asyncReady == old(asyncReady || asyncPending)
      ensures Untouched(old(w.request), old(w.medium), w.medium)
      ensures w.steady ==> w.Quiet(old(w.unlocked), old(w.invalidated), old(w.generation))
      ensures w.steady && old(w.Calm()) ==> w.StillCalm(old(w.mode), old(w.generation))
    {
      if asyncPending {
        w.Finish();
        asyncResponse, w.response := w.response.value, None;
        asyncPending, asyncReady := false, true;
      } else {
        w.Interfere();
      }
    }

    /** Abandon the command. The buffer is wiped only once the worker has finished with it. */
    method ClearPipeline()
      requires Wired()
      modifies this, w
      ensures old(w.published) <= w.published
      ensures Valid() && !commandActive && !pending && !ready && !finalWrite
      ensures w.scratch == Zeros(IO_BYTES) && |w.medium| == |old(w.medium)| && w.request.None? && w.response.None?
      ensures Untouched(old(w.request), old(w.medium), w.medium)
      ensures w.steady ==> w.Quiet(old(w.unlocked), old(w.invalidated), old(w.generation))
      ensures w.steady && old(w.Calm()) ==> w.StillCalm(old(w.mode), old(w.generation))
    {
      AsyncWait();
      var ok, discarded := AsyncTake();
      pending, ready, finalWrite, commandActive := false, false, false, false;
      Wipe();
    }

    /** Only ever called while no request is outstanding. */
    method Wipe()
      requires w.Valid() && w.request.None?
      modifies w`scratch
      ensures w.scratch == Zeros(IO_BYTES) && w.Valid()
    {
      w.scratch := Zeros(IO_BYTES);
    }

    /** Take the response of the batch under way as the command's result. */
    method TakeBatch()
      requires Valid() && pending
      modifies this`asyncPending, this`asyncReady, this`asyncResponse, this`pending, this`ready, this`completed, w`response
      ensures Valid() && (pending || ready) && commandActive
      ensures ready && completed.result == Okay ==> !w.invalidated && completed.generation == w.published
      ensures old(Smooth()) ==> Smooth()
    {
      hide Flows;
      ghost var outcome := Outcome();
      var taken, r := AsyncTake();
      if taken {
        completed, pending, ready := r, false, true;
        RefusalFlows(flow, w.medium, w.scratch, outcome, r);
      }
    }

    /** See whether the batch under way has come back. */
    method Harvest() returns (ok: bool)
      requires Valid() && commandActive
      modifies this`asyncPending, this`asyncReady, this`asyncResponse, this`pending, this`ready, this`completed, activity, w
      ensures old(w.published) <= w.published
      ensures Valid() && ok == ready
      ensures old(ready) ==> ready
      ensures (pending || ready) == old(pending || ready) && w.request in {old(w.request), None}
      ensures Untouched(old(w.request), old(w.medium), w.medium)
      // What is counted as written was written.
      ensures activity.read == old(activity.read) && activity.write in {old(activity.write), old(activity.write) + pendingBytes}
      ensures activity.write != old(activity.write) ==> old(pending) && ready && commandWrite && completed.result == Okay
      ensures old(Smooth() && pending) && ready && commandWrite ==> activity.write == old(activity.write) + pendingBytes
      ensures w.steady && old(w.Calm()) ==> w.StillCalm(old(w.mode), old(w.generation))
      ensures old(Smooth()) ==> Smooth()
    {
      hide Flows, Untouched;
      Interfere();
      if pending {
        TakeBatch();
        if ready && commandWrite && commandGeneration == w.published && completed.result == Okay && completed.unlocked
           && completed.generation == commandGeneration && Writable(completed.mode) {
          activity.write := activity.write + pendingBytes;
        }
      }
      ok := ready;
    }

    /** Put a request into the queue unless the session is going away or the queue is in use. */
    method AsyncSubmit(q: Request) returns (ok: bool)
      requires Bridged() && q.bytes <= IO_BYTES
      modifies this`asyncPending, w`request
      ensures Bridged() && asyncReady == old(asyncReady)
      ensures ok ==> !old(asyncPending) && asyncPending && w.request == Some(q) && w.response.None?
      ensures ok ==> !w.invalidated && q.generation == w.published
      ensures !ok ==> asyncPending == old(asyncPending) && w.request == old(w.request)
      ensures w.steady && old(!w.invalidated && !asyncPending && !asyncReady) && q.generation == w.published ==> ok
    {
      var busy, full := *, *;
      busy, full := busy && !w.steady, full && !w.steady;
      if busy || w.invalidated || asyncPending || asyncReady || q.generation != w.published || full {
        return false;
      }
      w.request, asyncPending := Some(q), true;
      ok := true;
    }

    /** Hand the buffer to the worker. */
    method StartBatch(write: bool, bytes: nat) returns (ok: bool)
      requires Wired() && commandActive && !pending && !ready && bytes <= IO_BYTES
      modifies this`asyncPending, this`pending, this`ready, this`pendingBytes, w
      ensures old(w.published) <= w.published
      ensures Wired() && w.medium == old(w.medium) && w.scratch == old(w.scratch) && !ready && pending == ok && asyncReady == old(asyncReady)
      ensures ok ==> w.request == Some(Request(write, commandLba, bytes, commandGeneration)) && pendingBytes == bytes
      ensures !ok ==> pendingBytes == old(pendingBytes) && w.request.None?
      ensures w.steady && old(w.Calm()) ==> w.StillCalm(old(w.mode), old(w.generation))
      ensures old(Smooth()) ==> ok
      ensures old(Smooth()) && write == commandWrite && 0 < bytes && bytes % BLOCK == 0 && BLOCK * commandLba + bytes <= |w.medium| ==> Smooth()
    {
      w.Interfere();
      if commandGeneration != w.published {
        return false;
      }
      ok := AsyncSubmit(Request(write, commandLba, bytes, commandGeneration));
      if ok {
        pendingBytes, pending, ready := bytes, true, false;
      }
    }

    /** After a bus event lock the vault and abandon the command. */
    method Poll()
      requires Valid()
      modifies this, w
      ensures old(w.published) <= w.published
      ensures Valid() && |w.medium| == |old(w.medium)|
      ensures commandActive ==> flow == old(flow) && old(commandActive)
      ensures commandActive && !old(pending) ==> !pending && w.medium == old(w.medium) && w.scratch == old(w.scratch)
      ensures w.request in {old(w.request), None}
      ensures Untouched(old(w.request), old(w.medium), w.medium)
      ensures w.steady && old(w.Calm()) ==> w.StillCalm(old(w.mode), old(w.generation))
      ensures old(Smooth()) ==> Smooth()
      ensures old(Smooth()) && old(commandActive) ==> commandActive && flow == old(flow)
      // A bus event is answered by a lock, unless something else is under way.
      ensures w.steady && old(w.invalidated) ==> !w.unlocked && !w.invalidated && old(w.generation) < w.generation && !commandActive
    {
      hide Flows, Untouched;
      ghost var q, medium := w.request, w.medium;
      Interfere();
      var busy := *;
      busy := busy && !w.steady;
      if busy || !w.invalidated {
        return;
      }
      w.invalidated := false;
      ghost var middle, r := w.medium, w.request;
      AsyncWait();
      UntouchedOn(q, r, medium, middle, w.medium);
      middle := w.medium;
      w.Lock();
      ClearPipeline();
      UntouchedOn(q, None, medium, middle, w.medium);
    }

    method Status() returns (r: Response)
      requires w.Valid()
      modifies w
      ensures old(w.published) <= w.published
      ensures w.Valid() && w.Progress(old(w.request), old(w.response), old(w.medium), old(w.scratch))
      ensures Files(r.mode) && r.unlocked ==> r.blocks == |w.medium| / BLOCK && r.generation == w.published
      ensures r.blocks == if r.mode in {Full, FilesReadOnly} then |w.medium| / BLOCK else 0
      ensures w.steady && old(w.Calm()) ==> w.StillCalm(old(w.mode), old(w.generation))
      ensures w.steady && old(w.Calm()) ==> r == Response(Okay, |w.medium| / BLOCK, w.generation, true, w.mode)
    {
      w.Interfere();
      r := Suppressed(Response(Okay, if Files(w.mode) then |w.medium| / BLOCK else 0, w.generation, w.unlocked, w.mode));
    }

    method Accept(write: bool, lba: nat, bytes: nat, generation: nat)
      requires Wired() && !commandActive && !finalWrite && bytes % BLOCK == 0 && BLOCK * lba + bytes <= |w.medium|
      modifies this`commandActive, this`commandWrite, this`commandLba, this`commandLeft, this`commandGeneration, this`flow
      ensures Valid() && commandActive && !pending && !ready
      ensures flow == Flow(write, false, false, lba, bytes, pendingBytes, generation, BLOCK * lba, bytes, w.medium, [], [])
      ensures w.steady && w.Calm() && w.request.None? && generation == w.generation && (write ==> Writable(w.mode)) ==> Smooth()
    {
      hide Flows, Queued, Matched;
      commandActive, commandWrite, commandLba, commandLeft, commandGeneration := true, write, lba, bytes, generation;
      flow := Flow(write, false, false, lba, bytes, pendingBytes, generation, BLOCK * lba, bytes, w.medium, [], []);
      FreshFlows(flow, w.medium, w.scratch, w.request, Outcome());
    }

    /** Validate a host command. Nothing is read or written before this accepts the whole range. */
    method Begin(write: bool, lba: nat, bytes: nat, blockSize: nat) returns (r: Result)
      requires Valid()
      modifies this, w
      ensures old(w.published) <= w.published
      ensures Valid() && (commandActive <==> r == Okay)
      ensures r == Okay ==> 0 < bytes && bytes % BLOCK == 0 && BLOCK * lba + bytes <= |w.medium| && !pending && !ready
      ensures r == Okay ==> commandGeneration == w.published
      // An earlier command's last batch may still reach the medium; nothing else does.
      ensures Untouched(old(w.request), old(w.medium), w.medium)
      ensures r == Okay ==>
        flow == Flow(write, false, false, lba, bytes, pendingBytes, commandGeneration, BLOCK * lba, bytes, w.medium, [], [])
      ensures blockSize != BLOCK || bytes == 0 || bytes % BLOCK != 0 ==> r == InvalidArgument
      // When nobody else acts the answer is the one the range and the mode deserve.
      ensures w.steady && old(w.Calm()) && blockSize == BLOCK && bytes > 0 && bytes % BLOCK == 0 ==>
        && Smooth() && w.StillCalm(old(w.mode), old(w.generation))
        && r == if |w.medium| < BLOCK then NotReady else if write && w.mode != Full then ReadOnly
                else if BLOCK * lba + bytes > |w.medium| then OutOfRange else Okay
    {
      ClearPipeline();
      if blockSize != BLOCK || bytes == 0 || bytes % BLOCK != 0 {
        return InvalidArgument;
      }
      var status := Status();
      if !status.unlocked || status.blocks == 0 || !Files(status.mode) {
        return NotReady;
      }
      if write && !Writable(status.mode) {
        return ReadOnly;
      }
      if lba >= status.blocks || bytes / BLOCK > status.blocks - lba {
        return OutOfRange;
      }
      RangeFits(bytes, lba, |w.medium|);
      Accept(write, lba, bytes, status.generation);
      r := Okay;
    }

    /** The batch that came back was written: it is part of what is settled. */
    method Settle()
      requires Valid() && commandActive && commandWrite && !pending && !finalWrite
      requires ready ==> completed.result == Okay
      modifies this`ready, this`flow, w`scratch
      ensures Valid() && !ready && commandActive && w.request.None? && flow == old(flow).(busy := false, batch := [])
      ensures old(Smooth()) ==> Smooth()
    {
      hide Flows;
      SettledFlows(flow, w.medium, w.scratch, Outcome());
      flow := flow.(busy := false, batch := []);
      if ready {
        ready := false;
        Wipe();
      }
      IdleFlows(flow, w.medium, w.scratch, w.request, Outcome());
    }

    /** What is left of a command lies within the volume. */
    lemma InRange(bytes: nat)
      requires Valid() && commandActive && bytes <= commandLeft
      ensures BLOCK * commandLba + bytes <= |w.medium|
    {
      hide WriteFlows, ReadFlows;
    }

    /** Put data into the buffer and hand it to the worker. */
    method SubmitWrite(data: seq<byte>) returns (started: bool)
      requires Valid() && commandActive && commandWrite && !pending && !ready && !finalWrite
      requires 0 < |data| <= IO_BYTES && |data| % BLOCK == 0 && |data| <= commandLeft
      modifies this`asyncPending, this`pending, this`ready, this`pendingBytes, this`flow, w
      ensures old(w.published) <= w.published && w.medium == old(w.medium)
      ensures Wired() && !ready && pending == started
      ensures started ==> flow == old(flow) && pendingBytes == |data| && Flows(Taking(flow, data), w.medium, w.scratch, w.request, Outcome())
      ensures !started ==> Valid() && flow == old(flow).(batchBytes := pendingBytes)
      ensures old(Smooth()) ==> started && Smooth()
    {
      hide Flows, Taking;
      InRange(|data|);
      w.scratch := data + w.scratch[|data|..];
      started := StartBatch(true, |data|);
      if started {
        IdleFlows(flow, w.medium, w.scratch, None, None);
        StartedFlows(flow, data, w.medium, w.scratch, w.request.value, Outcome());
      } else {
        Wipe();
        flow := flow.(batchBytes := pendingBytes);
        IdleFlows(flow, w.medium, w.scratch, w.request, Outcome());
      }
    }

    /** Take one batch from the host, once the one before it is on the medium. */
    method WriteBatch(data: seq<byte>) returns (r: Reply)
      requires Valid() && commandActive && commandWrite && !pending && !finalWrite
      requires ready ==> completed.result == Okay
      requires 0 < |data| <= IO_BYTES && |data| % BLOCK == 0 && |data| <= commandLeft
      modifies this, w
      ensures old(w.published) <= w.published && w.medium == old(w.medium)
      ensures Valid() && commandActive && commandWrite
      ensures flow.first == old(flow.first) && flow.total == old(flow.total) && flow.original == old(flow.original)
      ensures flow.write == old(flow.write) && flow.generation == old(flow.generation) && verdict == old(verdict)
      ensures r == Retry || r == Moved(|data|)
      ensures r.Moved? ==> !finalWrite && flow.moved == old(flow.moved) + data && commandLeft == old(commandLeft) - |data| > 0
      ensures r.Retry? && finalWrite ==> flow.moved == old(flow.moved) + data && |data| == commandLeft == old(commandLeft)
      ensures r.Retry? && !finalWrite ==> flow.moved == old(flow.moved) && commandLeft == old(commandLeft)
      ensures old(Smooth()) ==> Smooth() && pending && (r.Moved? <==> |data| < old(commandLeft))
    {
      hide Flows, Queued, Matched, Patch, Smooth;
      Settle();
      var started := SubmitWrite(data);
      r := Retry;
      if started {
        r := Take(data);
      }
    }

    /** The batch is the worker's now. The last one is not taken back until it is done. */
    method Take(data: seq<byte>) returns (r: Reply)
      requires Wired() && pending && !ready && commandActive && commandWrite && !finalWrite
      requires flow.write && !flow.last && flow.lba == commandLba && flow.left == commandLeft && flow.generation == commandGeneration
      requires Flows(Taking(flow, data), w.medium, w.scratch, w.request, Outcome())
      requires |data| == pendingBytes <= commandLeft
      modifies this`flow, this`finalWrite, this`commandLeft, this`commandLba
      ensures Valid() && flow == Taking(old(flow), data)
      ensures r == if |data| == old(commandLeft) then Retry else Moved(|data|)
      ensures finalWrite == (|data| == old(commandLeft))
      ensures commandLeft == if finalWrite then old(commandLeft) else old(commandLeft) - |data|
      ensures old(Smooth()) ==> Smooth()
    {
      hide Flows, Queued, Patch;
      flow := Taking(flow, data);
      if |data| == commandLeft {
        finalWrite := true;
        return Retry;
      }
      commandLeft, commandLba := commandLeft - |data|, commandLba + |data| / BLOCK;
      r := Moved(|data|);
    }

    /** The last batch is on the medium: only now may the command be reported complete. */
    method FinishWrite()
      requires Valid() && commandActive && commandWrite && finalWrite && ready && completed.result == Okay
      modifies this`finalWrite, this`ready, this`commandActive, w`scratch
      ensures old(w.published) <= w.published && w.medium == old(w.medium)
      ensures Valid() && !commandActive && flow == old(flow) && verdict == old(verdict) && completed == old(completed)
      ensures Complete(flow, w.medium)
      ensures old(Smooth()) ==> Smooth()
    {
      WrittenFlows(flow, w.medium, w.scratch, Outcome());
      finalWrite, ready, commandActive := false, false, false;
      Wipe();
    }

    /** Ask the worker for the next batch of the command. */
    method SubmitRead(bytes: nat)
      requires Valid() && commandActive && !commandWrite && !pending && !ready
      requires 0 < bytes <= IO_BYTES && bytes <= commandLeft
      modifies this`asyncPending, this`pending, this`ready, this`pendingBytes, this`flow, w
      ensures old(w.published) <= w.published
      ensures Valid() && commandActive && !ready && w.medium == old(w.medium)
      ensures flow == old(flow).(busy := pending, batchBytes := pendingBytes) && (pending ==> pendingBytes == bytes)
      ensures old(Smooth()) && bytes % BLOCK == 0 ==> Smooth() && pending
    {
      hide Flows;
      InRange(bytes);
      ghost var was, medium, scratch := flow, w.medium, w.scratch;
      var started := StartBatch(false, bytes);
      flow := flow.(busy := pending, batchBytes := pendingBytes);
      AskedFlows(was, flow, medium, scratch, w.request, Outcome());
    }

    lemma LeftWhole()
      requires Valid() && commandActive
      ensures commandLeft % BLOCK == 0
    {
      hide WriteFlows, ReadFlows;
    }

    /** Give the batch that came back to the host and prefetch the next. */
    method Deliver(bytes: nat) returns (out: seq<byte>)
      requires Valid() && commandActive && !commandWrite && ready && completed.result == Okay
      requires 0 < bytes <= IO_BYTES && bytes <= commandLeft && bytes % BLOCK == 0
      modifies this`asyncPending, this`pending, this`ready, this`pendingBytes, this`commandLeft, this`commandLba, this`commandActive
      modifies this`flow, w, activity
      ensures old(w.published) <= w.published
      ensures Valid() && |out| == bytes
      ensures flow.first == old(flow.first) && flow.total == old(flow.total) && flow.original == old(flow.original)
      ensures flow.write == old(flow.write) && flow.generation == old(flow.generation)
      ensures verdict == old(verdict) && completed == old(completed)
      ensures flow.moved == old(flow.moved) + GivenNext(old(flow), bytes) && |GivenNext(old(flow), bytes)| == bytes
      ensures forall i :: 0 <= i < bytes && i < old(pendingBytes) ==> out[i] == GivenNext(old(flow), bytes)[i]
      ensures commandActive <==> commandLeft > 0
      ensures commandLeft == old(commandLeft) - bytes && w.medium == old(w.medium)
      ensures commandActive && (pending || ready) ==> pendingBytes == Least(commandLeft, IO_BYTES)
      ensures !commandActive ==> Complete(flow, w.medium)
      ensures activity.write == old(activity.write) && activity.read == old(activity.read) + bytes
      // The next batch is asked for at once.
      ensures old(Smooth()) ==> Smooth() && (commandActive ==> pending)
    {
      hide Flows, GivenNext, Complete;
      LeftWhole();
      DeliveredFlows(flow, w.medium, w.scratch, w.request, Outcome(), bytes);
      out := w.scratch[..bytes];
      Wipe();
      ready := false;
      commandLeft, commandLba := commandLeft - bytes, commandLba + bytes / BLOCK;
      activity.read := activity.read + bytes;
      flow := Given(flow, bytes);
      IdleFlows(flow, w.medium, w.scratch, w.request, Outcome());
      if commandLeft > 0 {
        SubmitRead(if commandLeft < IO_BYTES then commandLeft else IO_BYTES);
      } else {
        commandActive := false;
      }
    }

    /** Why the batch that came back cannot be used, or Okay. */
    function Verdict(): Result
      reads this, w
    {
      if completed.result != Okay || !completed.unlocked || commandGeneration != w.published || !Files(completed.mode)
         || completed.generation != commandGeneration || (commandWrite && !Writable(completed.mode)) then
        if completed.result == Okay && completed.generation == commandGeneration && completed.unlocked
           && Files(completed.mode) && commandWrite && !Writable(completed.mode) then ReadOnly
        else if completed.result != Okay then completed.result else NotReady
      else Okay
    }

    /** A batch can be used only when it was done, in this session and with the rights it needs;
        otherwise its own reason is given, if it has one. */
    lemma VerdictMeans()
      ensures Verdict() == Okay <==>
        && completed.result == Okay && completed.unlocked && completed.generation == commandGeneration == w.published
        && completed.mode in {Full, FilesReadOnly} && (commandWrite ==> completed.mode == Full)
      ensures completed.result != Okay ==> Verdict() == completed.result
      ensures completed.result == Okay && Verdict() != Okay ==>
        Verdict() == if completed.generation == commandGeneration && completed.unlocked && commandWrite && completed.mode == FilesReadOnly
                     then ReadOnly else NotReady
    {
    }

    /** A call for the next part of the command. */
    predicate Fitting(lba: nat, offset: nat, bytes: nat, write: bool)
      reads this
    {
      commandActive && commandWrite == write && lba + offset / BLOCK == commandLba && bytes <= commandLeft
    }

    /** Everything that can stop a transfer before any of it is done. */
    method Check(lba: nat, offset: nat, bytes: nat, write: bool) returns (r: Option<Reply>)
      requires Valid()
      modifies this, w, activity
      ensures old(w.published) <= w.published
      ensures Valid() && (r.Some? ==> !r.value.Moved?)
      ensures r.Some? && commandActive ==> flow == old(flow) && finalWrite == old(finalWrite)
      ensures r.None? ==> old(commandActive) && commandActive && commandWrite == write && !pending && flow == old(flow)
      ensures r.None? ==> finalWrite == old(finalWrite)
      ensures r.None? ==> verdict == w.published == flow.generation
      ensures r.Some? && r.value.Retry? ==> old(commandActive) && commandActive
      ensures commandActive ==> pendingBytes == old(pendingBytes) && (pending || ready) == old(pending || ready)
      ensures r.None? ==> (ready == old(pending || ready)) && (ready ==> completed.result == Okay && completed.generation == commandGeneration)
      ensures r.None? ==> 0 < bytes <= IO_BYTES && bytes % BLOCK == 0 && bytes <= commandLeft && lba + offset / BLOCK == commandLba
      ensures Untouched(old(w.request), old(w.medium), w.medium)
      ensures bytes == 0 || bytes > IO_BYTES || bytes % BLOCK != 0 || offset % BLOCK != 0 ==> r == Some(Refused(InvalidArgument))
      // When nothing stands in its way the next part of the command is only ever put off.
      ensures old(Smooth()) && 0 < bytes <= IO_BYTES && bytes % BLOCK == 0 && offset % BLOCK == 0 ==>
        && Smooth()
        && if old(Fitting(lba, offset, bytes, write)) then r == None || (r == Some(Retry) && pending)
           else if old(commandActive && commandWrite == write) then r == Some(Refused(InvalidArgument))
           else r == Some(Refused(NotReady))
    {
      hide Flows, Patch, Untouched, Trusted, Queued, Worker.Judge;
      ghost var q, medium := w.request, w.medium;
      UntouchedSame(q, medium);
      if bytes == 0 || bytes > IO_BYTES || bytes % BLOCK != 0 || offset % BLOCK != 0 {
        return Some(Refused(InvalidArgument));
      }
      Poll();
      ghost var middle, polled := w.medium, w.request;
      if w.invalidated || (commandActive && commandGeneration != w.published) {
        if commandActive && pending {
          var back := Harvest();
          UntouchedOn(q, polled, medium, middle, w.medium);
          middle, polled := w.medium, w.request;
          if !back {
            return Some(Retry);
          }
        }
        ClearPipeline();
        UntouchedOn(q, polled, medium, middle, w.medium);
        return Some(Refused(NotReady));
      }
      if !commandActive || commandWrite != write {
        return Some(Refused(NotReady));
      }
      if lba + offset / BLOCK != commandLba || bytes > commandLeft {
        return Some(Refused(InvalidArgument));
      }
      r := Returned();
      UntouchedOn(q, polled, medium, middle, w.medium);
    }

    /** Whether the batch under way, if there is one, has come back and can be used. */
    method Returned() returns (r: Option<Reply>)
      requires Valid() && commandActive && commandGeneration == w.published
      modifies this, w, activity
      ensures old(w.published) <= w.published
      ensures Valid() && (r.Some? ==> !r.value.Moved?)
      ensures commandActive ==> flow == old(flow) && finalWrite == old(finalWrite) && commandWrite == old(commandWrite)
      ensures commandActive ==> pendingBytes == old(pendingBytes) && (pending || ready) == old(pending || ready)
      ensures r.None? ==>
                && commandActive && !pending && verdict == w.published == flow.generation
                && commandLba == old(commandLba) && commandLeft == old(commandLeft)
                && (ready ==> completed.result == Okay && completed.generation == commandGeneration)
      ensures r.Some? && r.value.Retry? ==> commandActive
      ensures Untouched(old(w.request), old(w.medium), w.medium) && w.request in {old(w.request), None}
      ensures old(Smooth()) ==> Smooth() && (r == None || (r == Some(Retry) && pending))
    {
      hide Flows, Patch, Untouched, Trusted, Queued, Worker.Judge;
      ghost var q, medium := w.request, w.medium;
      UntouchedSame(q, medium);
      ghost var middle, polled := w.medium, w.request;
      if pending {
        var back := Harvest();
        middle, polled := w.medium, w.request;
        if !back {
          return Some(Retry);
        }
      }
      if ready {
        var result := Verdict();
        if result != Okay {
          ClearPipeline();
          UntouchedOn(q, polled, medium, middle, w.medium);
          return Some(Refused(result));
        }
      }
      verdict := w.published;
      return None;
    }

    /** One call from the USB stack. It gives Retry until the batch it is about is settled, and
        is then made again with the same arguments. */
    method Transfer(lba: nat, offset: nat, data: seq<byte>, bytes: nat, write: bool) returns (r: Reply, out: seq<byte>)
      requires Valid() && (write ==> |data| == bytes)
      modifies this, w, activity
      ensures old(w.published) <= w.published
      ensures Valid()
      // Nothing is delivered or confirmed under any but the command's own generation, which no
      // published one precedes again.
      ensures r.Moved? ==> old(w.published) <= verdict == flow.generation <= w.published
      ensures r.Moved? && (!write || old(finalWrite)) ==> completed.result == Okay && completed.generation == flow.generation
      ensures !r.Refused? ==> commandGeneration == old(commandGeneration)
      ensures !r.Refused? ==> flow.generation == old(flow.generation)
      ensures r.Moved? ==> r.bytes == bytes && old(commandActive && commandWrite == write && lba + offset / BLOCK == commandLba)
      ensures r.Moved? ==>
        flow.first == old(flow.first) && flow.total == old(flow.total) && flow.original == old(flow.original) && flow.write == write
      // A write is taken batch by batch, and reported complete only with all of it on the medium.
      ensures r.Moved? && write && !old(finalWrite) ==> commandActive && !finalWrite && flow.moved == old(flow.moved) + data
      ensures r.Moved? && write && old(finalWrite) ==> !commandActive && flow.moved == old(flow.moved) && Complete(flow, w.medium)
      ensures r.Retry? && write && commandActive ==> flow.moved == old(flow.moved) + (if finalWrite && !old(finalWrite) then data else [])
      // A read gives the next bytes of the range as far as the batch goes that was fetched, or
      // nothing but zeros: a caller that asks again for no more than before gets them all.
      ensures r.Moved? && !write ==> |out| == bytes == |GivenNext(old(flow), bytes)| && flow.moved == old(flow.moved) + GivenNext(old(flow), bytes)
      ensures r.Moved? && !write ==> forall i :: 0 <= i < bytes && i < old(pendingBytes) ==> out[i] == GivenNext(old(flow), bytes)[i]
      ensures r.Moved? && !write && bytes <= old(pendingBytes) ==> out == GivenNext(old(flow), bytes)
      ensures r.Moved? && !write && !commandActive ==> Complete(flow, w.medium)
      ensures !write && !r.Moved? ==> out == Zeros(bytes)
      ensures r.Retry? ==> commandActive && flow.first == old(flow.first) && flow.total == old(flow.total)
      ensures r.Retry? ==> flow.original == old(flow.original) && commandLeft == old(commandLeft) && flow.write == old(flow.write)
      ensures r.Retry? && !write ==> flow.moved == old(flow.moved)
      ensures r.Retry? && !write && commandWrite == write && (pending || ready) ==> pendingBytes == if old(pending || ready) then old(pendingBytes) else bytes
      ensures r.Moved? && !write ==> old(pending || ready)
      ensures r.Moved? && !write && commandActive && (pending || ready) ==> pendingBytes == Least(commandLeft, IO_BYTES)
      ensures r.Moved? && commandActive ==> commandLeft == old(commandLeft) - bytes > 0
      ensures r.Retry? && write ==> finalWrite == (old(finalWrite) || (finalWrite && bytes == commandLeft))
      ensures Untouched(old(w.request), old(w.medium), w.medium)
      // When nothing stands in its way the next part is done, or its batch is under way.
      ensures old(Smooth() && Fitting(lba, offset, bytes, write)) && 0 < bytes <= IO_BYTES && bytes % BLOCK == 0 && offset % BLOCK == 0
              ==> Smooth() && !r.Refused? && (r.Retry? ==> pending)
    {
      hide Flows, Patch, Complete, GivenNext, Queued, Untouched;
      out := Zeros(bytes);
      var stop := Check(lba, offset, bytes, write);
      if stop.Some? {
        assert old(flow.moved) + [] == old(flow.moved);
        return stop.value, out;
      }
      if write {
        LastIsBusy(flow, w.medium, w.scratch, w.request, Outcome());
        if finalWrite {
          FinishWrite();
          r := Moved(bytes);
        } else {
          r := WriteBatch(data);
          assert old(flow.moved) + [] == old(flow.moved);
        }
      } else if !ready {
        SubmitRead(bytes);
        r := Retry;
      } else {
        out := Deliver(bytes);
        r := Moved(bytes);
      }
    }
  }

  /** The bytes of the range that follow those already given. */
  function GivenNext(f: Flow, bytes: nat): seq<byte> {
    if BLOCK * f.lba + bytes <= |f.original| then f.original[BLOCK * f.lba..BLOCK * f.lba + bytes] else []
  }

  function Given(f: Flow, bytes: nat): Flow
    requires bytes <= f.left
  {
    f.(busy := false, left := f.left - bytes, lba := f.lba + bytes / BLOCK, moved := f.moved + GivenNext(f, bytes))
  }

  /** A finished command: all of a write is on the medium and nothing else of it has changed;
      all of a read has been given as the medium has it. */
  predicate Complete(f: Flow, medium: seq<byte>) {
    && |f.moved| == f.total && f.first + f.total <= |f.original|
    && (if f.write then medium == Patch(f.original, f.first, f.moved)
        else medium == f.original && f.moved == medium[f.first..f.first + f.total])
  }

  lemma LastIsBusy(f: Flow, medium: seq<byte>, scratch: seq<byte>, request: Option<Request>, outcome: Option<Response>)
    requires Flows(f, medium, scratch, request, outcome)
    ensures f.last ==> f.busy && f.write && f.batchBytes == f.left
  {
  }

  lemma WrittenFlows(f: Flow, medium: seq<byte>, scratch: seq<byte>, outcome: Option<Response>)
    requires Flows(f, medium, scratch, None, outcome) && f.write && f.last && outcome.Some? && outcome.value.result == Okay
    ensures Complete(f, medium)
  {
  }

  lemma AskedFlows(f: Flow, g: Flow, medium: seq<byte>, scratch: seq<byte>, request: Option<Request>, outcome: Option<Response>)
    requires (exists q, o :: Flows(f, medium, scratch, q, o)) && !f.write && !f.busy
    requires g == f.(busy := g.busy, batchBytes := g.batchBytes)
    requires if g.busy then request == Some(Request(false, f.lba, g.batchBytes, f.generation)) && outcome.None?
                            && 0 < g.batchBytes <= IO_BYTES && g.batchBytes <= f.left
             else request.None?
    ensures Flows(g, medium, scratch, request, outcome)
  {
  }

  lemma WholeBlocks(n: nat, k: nat)
    requires n % BLOCK == 0 && k % BLOCK == 0 && k <= n
    ensures BLOCK * (k / BLOCK) == k && (n - k) % BLOCK == 0
  {
  }

  lemma DeliveredFlows(f: Flow, medium: seq<byte>, scratch: seq<byte>, request: Option<Request>, outcome: Option<Response>, bytes: nat)
    requires Flows(f, medium, scratch, request, outcome) && !f.write && f.busy && outcome.Some? && outcome.value.result == Okay
    requires 0 < bytes <= f.left && bytes <= IO_BYTES && bytes % BLOCK == 0
    ensures |scratch| == IO_BYTES && |GivenNext(f, bytes)| == bytes
    ensures forall i :: 0 <= i < bytes && i < f.batchBytes ==> scratch[i] == GivenNext(f, bytes)[i]
    ensures Flows(Given(f, bytes), medium, scratch, None, None)
    ensures bytes == f.left ==> Complete(Given(f, bytes), medium)
  {
    forall i | 0 <= i < bytes && i < f.batchBytes
      ensures scratch[i] == GivenNext(f, bytes)[i]
    {
      assert scratch[i] == scratch[..f.batchBytes][i];
    }
    GivenFlows(f, medium, scratch, request, outcome, bytes);
  }

  lemma GivenFlows(f: Flow, medium: seq<byte>, scratch: seq<byte>, request: Option<Request>, outcome: Option<Response>, bytes: nat)
    requires Flows(f, medium, scratch, request, outcome) && !f.write && bytes <= f.left && bytes % BLOCK == 0
    ensures Flows(Given(f, bytes), medium, scratch, None, None)
    ensures bytes == f.left ==> Complete(Given(f, bytes), medium)
  {
    hide Patch;
    var g, at := Given(f, bytes), BLOCK * f.lba;
    WholeBlocks(f.left, bytes);
    JoinSlices(f.original, f.first, at, at + bytes);
    assert g.first + (g.total - g.left) == at + bytes == BLOCK * g.lba;
  }

  /** The command once it has taken data as its next batch. */
  function Taking(f: Flow, data: seq<byte>): Flow {
    var g := f.(busy := true, batchBytes := |data|, moved := f.moved + data, batch := data);
    if |data| >= f.left then g.(last := true)
    else g.(left := f.left - |data|, lba := f.lba + |data| / BLOCK)
  }

  lemma SettledFlows(f: Flow, medium: seq<byte>, scratch: seq<byte>, outcome: Option<Response>)
    requires Flows(f, medium, scratch, None, outcome) && f.write && !f.last
    requires f.busy ==> outcome.Some? && outcome.value.result == Okay
    ensures Flows(f.(busy := false, batch := []), medium, scratch, None, None)
  {
  }

  /** While nothing is under way the buffer does not matter. */
  lemma IdleFlows(f: Flow, medium: seq<byte>, scratch: seq<byte>, request: Option<Request>, outcome: Option<Response>)
    requires !f.busy && |scratch| == IO_BYTES
    requires exists s, q, o, n :: Flows(f.(batchBytes := n), medium, s, q, o)
    ensures Flows(f, medium, scratch, request, outcome)
  {
  }

  lemma StartedFlows(f: Flow, data: seq<byte>, medium: seq<byte>, scratch: seq<byte>, q: Request, outcome: Option<Response>)
    requires Flows(f, medium, scratch, None, None) && f.write && !f.busy && !f.last && outcome.None?
    requires 0 < |data| <= IO_BYTES && |data| % BLOCK == 0 && |data| <= f.left && scratch[..|data|] == data
    requires q == Request(true, f.lba, |data|, f.generation)
    ensures Flows(Taking(f, data), medium, scratch, Some(q), outcome)
  {
    hide Patch;
    var g := Taking(f, data);
    WholeBlocks(f.left, |data|);
    assert g.moved[..|g.moved| - |data|] == f.moved && g.moved[|g.moved| - |data|..] == data;
  }

  lemma RangeFits(bytes: nat, lba: nat, size: nat)
    requires bytes % BLOCK == 0 && lba < size / BLOCK && bytes / BLOCK <= size / BLOCK - lba
    ensures BLOCK * lba + bytes <= size
  {
  }

  lemma FreshFlows(f: Flow, medium: seq<byte>, scratch: seq<byte>, request: Option<Request>, outcome: Option<Response>)
    requires !f.busy && !f.last && f.left == f.total && f.total % BLOCK == 0 && f.first == BLOCK * f.lba
    requires f.first + f.total <= |medium| && f.original == medium && f.moved == f.batch == [] && |scratch| == IO_BYTES
    ensures Flows(f, medium, scratch, request, outcome)
  {
    assert Patch(medium, f.first, []) == medium;
  }

  /** What the host is told: so many bytes done, try again, or refused. */
  datatype Reply = Moved(bytes: nat) | Retry | Refused(result: Result)

  // ---- Whole commands ------------------------------------------------------

  lemma LastChunk(t: Storage)
    requires t.Valid() && t.commandActive && t.finalWrite
    ensures t.commandWrite && t.pendingBytes == t.commandLeft
  {
    LastIsBusy(t.flow, t.w.medium, t.w.scratch, t.w.request, t.Outcome());
  }

  /** A host writes data in chunks, repeating a call while it is told to. However the two cores
      and the session changes interleave, a command reported complete is on the medium, all of
      it and nothing else, and one session generation was in force from its acceptance to the
      verdict on its last batch. Complete or not, nothing outside its range has changed, except
      by a batch of an earlier command that was still under way. */
  method HostWrite(t: Storage, lba: nat, data: seq<byte>, chunk: nat, tries: nat)
    returns (done: bool, refused: bool, ghost before: seq<byte>, ghost session: nat)
    requires t.Valid() && 0 < chunk <= IO_BYTES && chunk % BLOCK == 0
    modifies t, t.w, t.activity
    ensures t.Valid() && !(done && refused)
    // A writable volume that nobody else disturbs refuses no range that it has.
    ensures old(t.w.steady && t.w.Calm()) && 0 < |data| && |data| % BLOCK == 0 ==>
              (refused <==> old(t.w.mode) != Full || BLOCK * lba + |data| > |before|)
    ensures done ==> BLOCK * lba + |data| <= |before| && t.w.medium == Patch(before, BLOCK * lba, data)
    ensures Untouched(old(t.w.request), old(t.w.medium), before)
    ensures Untouched(Some(Request(true, lba, |data|, session)), before, t.w.medium)
    ensures done ==> old(t.w.published) <= session == t.commandGeneration == t.completed.generation <= t.w.published
  {
    hide Flows, Patch, Storage.Wired, Untouched, Storage.Smooth, Worker.Valid, Worker.Calm, Trusted;
    var begun := t.Begin(true, lba, |data|, BLOCK);
    before, session := t.w.medium, t.w.published;
    ghost var whole := Some(Request(true, lba, |data|, session));
    UntouchedSame(whole, before);
    if begun != Okay {
      return false, true, before, session;
    }
    ghost var able := old(t.w.steady && t.w.Calm());
    var sent: nat := 0;
    for i := 0 to tries
      invariant Writing(t, lba, data, chunk, sent, before) && t.commandGeneration == session
      invariant Untouched(whole, before, t.w.medium) && old(t.w.published) <= session <= t.w.published
      invariant able ==> t.Smooth()
    {
      var r;
      r, sent := WriteOn(t, lba, data, chunk, sent, before, whole);
      if r.Refused? {
        return false, true, before, session;
      }
      if r.Moved? && !t.commandActive {
        return true, false, before, session;
      }
    }
    done, refused := false, false;
  }

  /** A write under way of which so many bytes were taken. */
  ghost predicate Writing(t: Storage, lba: nat, data: seq<byte>, chunk: nat, sent: nat, before: seq<byte>)
    reads t, t.w
  {
    && t.Valid() && t.commandActive && t.flow.write && t.flow.original == before
    && t.flow.generation == t.commandGeneration
    && t.flow.first == BLOCK * lba && t.flow.total == |data| && t.commandLeft == |data| - sent > 0
    && sent % BLOCK == |data| % BLOCK == 0 && BLOCK * lba + |data| <= |before|
    && t.flow.moved == data[..if t.finalWrite then |data| else sent]
    && (t.finalWrite ==> |data| - sent <= chunk)
  }

  /** One call with the bytes that follow, or again with the last ones. */
  method WriteOn(t: Storage, lba: nat, data: seq<byte>, chunk: nat, sent: nat, ghost before: seq<byte>, ghost whole: Option<Request>)
    returns (r: Reply, now: nat)
    requires Writing(t, lba, data, chunk, sent, before) && 0 < chunk <= IO_BYTES && chunk % BLOCK == 0
    requires whole.Some? && whole.value.write && whole.value.lba == lba && whole.value.bytes == |data|
    requires Untouched(whole, before, t.w.medium)
    modifies t, t.w, t.activity
    ensures t.Valid() && Untouched(whole, before, t.w.medium) && old(t.w.published) <= t.w.published
    ensures !r.Refused? && !(r.Moved? && !t.commandActive) ==> Writing(t, lba, data, chunk, now, before)
    ensures !r.Refused? ==> t.commandGeneration == old(t.commandGeneration)
    ensures r.Moved? && !t.commandActive ==>
              t.completed.generation == t.commandGeneration && t.w.medium == Patch(before, BLOCK * lba, data)
    ensures old(t.Smooth()) ==> t.Smooth() && !r.Refused?
  {
    hide Flows, Patch, Storage.Wired, Untouched, Storage.Smooth, Worker.Valid, Worker.Calm, Trusted;
    now := sent;
    var bytes := Least(chunk, |data| - sent);
    if t.finalWrite {
      LastChunk(t);
    }
    ReadNeedsNoChunk(t);
    NextPart(t, lba, sent);
    var part := data[sent..sent + bytes];
    assert data[..sent] + part == data[..sent + bytes];
    ghost var q, medium := t.w.request, t.w.medium;
    RequestWithin(t);
    var out;
    r, out := t.Transfer(lba, sent, part, bytes, true);
    UntouchedWithin(whole, q, before, medium, t.w.medium);
    if r.Moved? {
      if !t.commandActive {
        CompleteWrite(t.flow, t.w.medium, data);
      }
      now := sent + bytes;
    }
  }

  /** A call that goes on where the last one ended is for the next part. */
  lemma NextPart(t: Storage, lba: nat, sent: nat)
    requires t.Valid() && t.commandActive && t.flow.first == BLOCK * lba && sent % BLOCK == 0
    requires t.flow.total == sent + t.commandLeft
    ensures lba + sent / BLOCK == t.commandLba
  {
    hide WriteFlows, ReadFlows;
  }

  /** What is under way of a command lies within its range. */
  lemma RequestWithin(t: Storage)
    requires t.Valid() && t.commandActive
    ensures t.w.request.Some? && t.w.request.value.write ==>
      t.flow.first <= BLOCK * t.w.request.value.lba
      && BLOCK * t.w.request.value.lba + t.w.request.value.bytes <= t.flow.first + t.flow.total
  {
    hide Patch;
  }

  lemma UntouchedWithin(whole: Option<Request>, q: Option<Request>, a: seq<byte>, b: seq<byte>, c: seq<byte>)
    requires whole.Some? && whole.value.write && Untouched(whole, a, b) && Untouched(q, b, c)
    requires q.Some? && q.value.write ==>
      BLOCK * whole.value.lba <= BLOCK * q.value.lba
      && BLOCK * q.value.lba + q.value.bytes <= BLOCK * whole.value.lba + whole.value.bytes
    ensures Untouched(whole, a, c)
  {
  }

  lemma CompleteWrite(f: Flow, medium: seq<byte>, data: seq<byte>)
    requires Complete(f, medium) && f.write && f.moved == data[..|data|]
    ensures f.first + |data| <= |f.original| && medium == Patch(f.original, f.first, data)
  {
    assert data[..|data|] == data;
  }

  lemma ReadNeedsNoChunk(t: Storage)
    requires t.Valid() && t.commandActive && t.flow.write
    ensures t.commandWrite
  {
  }

  /** A host reads in chunks: what a complete command has given is the medium's content, under
      one session generation throughout. */
  method HostRead(t: Storage, lba: nat, size: nat, chunk: nat, tries: nat)
    returns (done: bool, refused: bool, data: seq<byte>, ghost session: nat)
    requires t.Valid() && 0 < chunk <= IO_BYTES && chunk % BLOCK == 0
    modifies t, t.w, t.activity
    ensures t.Valid() && !(done && refused)
    ensures old(t.w.steady && t.w.Calm()) && 0 < size && size % BLOCK == 0 ==>
              (refused <==> BLOCK * lba + size > |old(t.w.medium)|)
    ensures done ==> BLOCK * lba + size <= |t.w.medium| && data == t.w.medium[BLOCK * lba..BLOCK * lba + size]
    ensures Untouched(old(t.w.request), old(t.w.medium), t.w.medium)
    ensures done ==> old(t.w.published) <= session == t.commandGeneration == t.completed.generation <= t.w.published
  {
    hide Flows, Patch, Storage.Wired, GivenNext, Untouched, Storage.Smooth, Worker.Valid, Worker.Calm, Trusted;
    data, session := [], 0;
    var begun := t.Begin(false, lba, size, BLOCK);
    SameSize(old(t.w.request), old(t.w.medium), t.w.medium);
    if begun != Okay {
      return false, true, data, session;
    }
    ghost var able := old(t.w.steady && t.w.Calm());
    session := t.w.published;
    for i := 0 to tries
      invariant Reading(t, lba, size, chunk, data) && t.commandGeneration == session
      invariant Untouched(old(t.w.request), old(t.w.medium), t.w.medium)
      invariant old(t.w.published) <= session <= t.w.published
      invariant able ==> t.Smooth()
    {
      var r;
      r, data := ReadOn(t, lba, size, chunk, data);
      if r.Refused? {
        return false, true, data, session;
      }
      if r.Moved? && !t.commandActive {
        return true, false, data, session;
      }
    }
    done, refused := false, false;
  }

  /** A read under way that has given these bytes. */
  ghost predicate Reading(t: Storage, lba: nat, size: nat, chunk: nat, data: seq<byte>)
    reads t, t.w
  {
    && t.Valid() && t.commandActive && !t.flow.write && t.flow.first == BLOCK * lba && t.flow.total == size
    && t.flow.generation == t.commandGeneration
    && t.commandLeft == size - |data| > 0 && |data| % BLOCK == size % BLOCK == 0 && t.flow.moved == data
    && (t.pending || t.ready ==> Least(chunk, t.commandLeft) <= t.pendingBytes)
  }

  /** One call for the bytes that follow. */
  method ReadOn(t: Storage, lba: nat, size: nat, chunk: nat, data: seq<byte>) returns (r: Reply, now: seq<byte>)
    requires Reading(t, lba, size, chunk, data) && 0 < chunk <= IO_BYTES && chunk % BLOCK == 0
    modifies t, t.w, t.activity
    ensures t.Valid() && t.w.medium == old(t.w.medium) && old(t.w.published) <= t.w.published
    ensures !r.Refused? && !(r.Moved? && !t.commandActive) ==> Reading(t, lba, size, chunk, now)
    ensures !r.Refused? ==> t.commandGeneration == old(t.commandGeneration)
    ensures r.Moved? ==> t.completed.generation == t.commandGeneration
    ensures r.Moved? && !t.commandActive ==> BLOCK * lba + size <= |t.w.medium| && now == t.w.medium[BLOCK * lba..BLOCK * lba + size]
    ensures old(t.Smooth()) ==> t.Smooth() && !r.Refused?
  {
    hide Flows, Patch, Storage.Wired, GivenNext, Untouched, Storage.Smooth, Worker.Valid, Worker.Calm, Trusted;
    now := data;
    var bytes := Least(chunk, size - |data|);
    ghost var q, medium := t.w.request, t.w.medium;
    NoFinalWrite(t);
    ReadRequest(t);
    NextPart(t, lba, |data|);
    var out;
    r, out := t.Transfer(lba, |data|, [], bytes, false);
    UntouchedIdle(q, medium, t.w.medium);
    if r.Moved? {
      now := data + out;
    }
  }

  lemma ReadRequest(t: Storage)
    requires t.Valid() && t.commandActive && !t.flow.write
    ensures t.w.request.None? || !t.w.request.value.write
  {
  }

  lemma NoFinalWrite(t: Storage)
    requires t.Valid() && t.commandActive && !t.flow.write
    ensures !t.finalWrite && !t.commandWrite
  {
  }
}
