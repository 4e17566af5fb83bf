// The idle timer of an unlocked session (src/shared/security/session_timer.c) and the mailbox
// through which the other core reports activity to it (src/pico/device/session_timeout.c).
module SessionTimeout {
  import opened Limits

  // ---- The timer -----------------------------------------------------------

  /** When a timer of so many seconds started now runs out. */
  function DeadlineOf(seconds: uint32, now: uint64): uint64 {
    if 1000 * seconds > UINT64_MAX - now then UINT64_MAX else now + 1000 * seconds
  }

  class Timer {
    var deadline: uint64
    var timeout: uint32
    /** The moment the current deadline was reckoned from. */
    ghost var latest: uint64

    ghost predicate Valid()
      reads this
    {
      if timeout == 0 then deadline == 0 else deadline == DeadlineOf(timeout, latest)
    }

    constructor ()
      ensures Valid() && timeout == 0
    {
      deadline, timeout, latest := 0, 0, 0;
    }

    predicate Expired(now: uint64)
      reads this
    {
      timeout != 0 && now >= deadline
    }

    predicate Running(now: uint64)
      reads this
    {
      timeout != 0 && now < deadline
    }

    method Start(seconds: uint32, now: uint64)
      modifies this
      ensures Valid() && timeout == seconds && latest == now
      // It runs for so many thousands of milliseconds, or to the end of the clock.
      ensures forall t: uint64 :: Running(t) <==> seconds != 0 && t < now + 1000 * seconds && t < UINT64_MAX
    {
      timeout, latest := seconds, now;
      deadline := if seconds != 0 then DeadlineOf(seconds, now) else 0;
    }

    method Stop()
      modifies this
      ensures Valid() && timeout == 0
    {
      timeout, deadline := 0, 0;
    }

    /** Activity renews a running timer; it can neither revive an expired one nor bring the
        deadline closer, however late it is reported. */
    method Touch(now: uint64) returns (ok: bool)
      requires Valid()
      modifies this`deadline, this`latest
      ensures Valid() && ok == old(Running(now))
      ensures !ok ==> deadline == old(deadline)
      ensures ok ==> old(deadline) <= deadline && DeadlineOf(timeout, now) <= deadline
      ensures ok ==> deadline in {old(deadline), DeadlineOf(timeout, now)}
      ensures ok ==> forall t: uint64 :: Running(t) <==> old(Running(t)) || (t < now + 1000 * timeout && t < UINT64_MAX)
    {
      if timeout == 0 || Expired(now) {
        return false;
      }
      var next := DeadlineOf(timeout, now);
      if next > deadline {
        deadline, latest := next, now;
      }
      ok := true;
    }

    /** Whole seconds left, rounded up and never more than the timeout. */
    function Remaining(now: uint64): (r: uint32)
      reads this
    {
      if timeout == 0 || Expired(now) then 0
      else
        var milliseconds := deadline - now;
        var seconds := milliseconds / 1000 + (if milliseconds % 1000 != 0 then 1 else 0);
        if seconds > timeout then timeout else seconds
    }

    lemma RemainingIsCeiling(now: uint64)
      ensures Remaining(now) == 0 <==> !Running(now)
      ensures Running(now) ==> Remaining(now) <= timeout && 1000 * (Remaining(now) - 1) < deadline - now
      ensures Running(now) && Remaining(now) < timeout ==> deadline - now <= 1000 * Remaining(now)
    {
    }
  }

  // ---- The mailbox ---------------------------------------------------------

  /** The publisher raises the sequence, stores a generation and raises the sequence again,
      each in one atomic step. */
  class Mailbox {
    var sequence: uint32
    var generation: uint32
    /** All increments so far; the generations completely published; the one being stored. */
    ghost var count: nat
    ghost var published: seq<uint32>

    ghost predicate Valid()
      reads this
    {
      && sequence == count % WRAP && count / 2 == |published|
      && (count % 2 == 0 && |published| > 0 ==> generation == published[|published| - 1])
    }

    constructor ()
      ensures Valid() && count == 0 && published == []
    {
      sequence, generation, count, published := 0, 0, 0, [];
    }

    /** One atomic step of the publisher, whichever comes next for it. */
    method PublisherStep()
      requires Valid()
      modifies this
      ensures Valid() && count >= old(count) && old(published) <= published
      ensures count == old(count) && count % 2 == 0 ==> generation == old(generation)
    {
      var store, value: uint32 := *, *;
      EvenCount(count);
      if sequence % 2 == 0 {
        sequence, count := (sequence + 1) % WRAP, count + 1;
      } else if store {
        generation := value;
      } else {
        published := published + [generation];
        sequence, count := (sequence + 1) % WRAP, count + 1;
      }
    }

    /** Anything the publisher may do between two steps of the worker. */
    method Interfere()
      requires Valid()
      modifies this
      ensures Valid() && count >= old(count) && old(published) <= published
      ensures count == old(count) && count % 2 == 0 ==> generation == old(generation)
    {
      var steps := *;
      if steps < 0 {
        steps := 0;
      }
      for i := 0 to steps
        invariant Valid() && count >= old(count) && old(published) <= published
        invariant count == old(count) && count % 2 == 0 ==> generation == old(generation)
      {
        PublisherStep();
      }
    }

    /** Take the newest event, without waiting for one that is half written. Unless the
        sequence wraps round while this runs, the event taken is the one published whole with
        the sequence taken, and no event completed before the call is passed over. */
    method Take(consumed: uint32) returns (ok: bool, taken: uint32, event: uint32, ghost which: nat)
      requires Valid() && (count == 0 ==> consumed == 0)
      modifies this
      ensures Valid() && count >= old(count) && old(published) <= published
      ensures ok <==> taken != consumed
      ensures ok ==> taken % 2 == 0
      ensures count == 0 ==> taken == 0
      ensures ok && count - old(count) < WRAP ==> taken == 2 * which % WRAP && old(count) <= 2 * which <= count
      ensures ok && count - old(count) < WRAP ==> 0 < which <= |published| && event == published[which - 1]
      // An event that is complete and not yet taken is taken unless another one comes in between.
      ensures count == old(count) && count % 2 == 0 ==> (ok <==> sequence != consumed)
    {
      ok, taken, event, which := false, consumed, 0, 0;
      Interfere();
      var first := sequence;
      ghost var seen := count;
      if first % 2 == 1 || first == consumed {
        return;
      }
      Interfere();
      var value := generation;
      Interfere();
      var again := sequence;
      if again != first {
        return;
      }
      ok, taken, event, which := true, first, value, seen / 2;
      if count - old(count) < WRAP {
        SameCount(seen, count);
        EvenCount(seen);
      }
      Interfere();
    }
  }

  lemma SameCount(a: nat, b: nat)
    requires a <= b && b - a < WRAP && a % WRAP == b % WRAP
    ensures a == b
  {
  }

  lemma EvenCount(n: nat)
    ensures n % WRAP % 2 == n % 2
  {
  }

  // ---- The session ---------------------------------------------------------

  class Session {
    const timer: Timer
    const mailbox: Mailbox
    var timerGeneration: uint32
    var consumed: uint32
    var shown: uint32
    /** How often the session has been locked. */
    var locks: nat

    ghost predicate Valid()
      reads this, timer, mailbox
    {
      timer.Valid() && mailbox.Valid() && (mailbox.count == 0 ==> consumed == 0)
    }

    constructor (mailbox: Mailbox)
      requires mailbox.Valid()
      ensures Valid() && this.mailbox == mailbox && fresh(timer) && timer.timeout == 0 && locks == 0
    {
      this.mailbox := mailbox;
      timer := new Timer();
      timerGeneration, consumed, shown, locks := 0, 0, 0, 0;
    }

    method Start(seconds: uint32, now: uint64, generation: uint32)
      requires Valid()
      modifies this`timerGeneration, this`consumed, this`shown, timer, mailbox
      ensures Valid() && timer.timeout == seconds && timerGeneration == generation && shown == timer.Remaining(now)
      ensures seconds > 0 ==> timer.deadline == DeadlineOf(seconds, now)
      ensures forall t: uint64 :: timer.Running(t) <==> seconds != 0 && t < now + 1000 * seconds && t < UINT64_MAX
      // Activity reported before is not this session's.
      ensures consumed == mailbox.sequence
    {
      timerGeneration := generation;
      mailbox.Interfere();
      consumed := mailbox.sequence;
      timer.Start(seconds, now);
      shown := timer.Remaining(now);
    }

    method Stop()
      requires Valid()
      modifies this`timerGeneration, this`consumed, this`shown, timer, mailbox
      ensures Valid() && timer.timeout == 0 && timerGeneration == 0 && shown == 0 && consumed == mailbox.sequence
      ensures mailbox.count >= old(mailbox.count)
    {
      timer.Stop();
      timerGeneration := 0;
      mailbox.Interfere();
      consumed := mailbox.sequence;
      shown := 0;
    }

    /** The last event is complete, of this generation, and has not been taken. */
    ghost predicate Waiting(generation: uint32)
      reads this, mailbox
    {
      && mailbox.count % 2 == 0 && mailbox.sequence != consumed
      && |mailbox.published| > 0 && mailbox.published[|mailbox.published| - 1] == generation
    }

    /** Whether an event for this session's generation is waiting. */
    method TakeActivity(generation: uint32) returns (ok: bool, ghost which: nat)
      requires Valid()
      modifies this`consumed, mailbox
      ensures Valid() && mailbox.count >= old(mailbox.count)
      ensures ok && mailbox.count - old(mailbox.count) < WRAP ==>
        && 0 < which <= |mailbox.published| && mailbox.published[which - 1] == generation
        && old(mailbox.count) <= 2 * which && consumed == 2 * which % WRAP != old(consumed)
      ensures old(Waiting(generation)) && mailbox.count == old(mailbox.count) ==> ok
    {
      var found, taken, event;
      found, taken, event, which := mailbox.Take(consumed);
      consumed := taken;
      ok := found && event == generation;
    }

    /** A session whose time is up is locked whatever activity is waiting; otherwise waiting
        activity of this session can only move its deadline back. */
    method Poll(now: uint64, generation: uint32) returns (locked: bool, ghost which: nat)
      requires Valid()
      modifies this, timer, mailbox
      ensures Valid() && mailbox.count >= old(mailbox.count)
      ensures locked <==> generation == old(timerGeneration) && old(timer.Expired(now))
      ensures locks == old(locks) + (if locked then 1 else 0)
      ensures locked || generation != old(timerGeneration) ==> timer.timeout == 0 && timerGeneration == 0 && shown == 0
      ensures !locked && generation == old(timerGeneration) ==>
        timer.timeout == old(timer.timeout) && timerGeneration == generation && shown == timer.Remaining(now)
      ensures !locked && generation == old(timerGeneration) ==> old(timer.deadline) <= timer.deadline
      // A deadline moves only for an event of this very session that was not taken before.
      ensures !locked && generation == old(timerGeneration) && timer.deadline != old(timer.deadline)
              && mailbox.count - old(mailbox.count) < WRAP ==>
        && 0 < which <= |mailbox.published| && mailbox.published[which - 1] == generation
        && old(mailbox.count) <= 2 * which && consumed == 2 * which % WRAP != old(consumed)
      // And for such an event it does, unless another one comes in between.
      ensures old(Waiting(generation) && timer.Running(now)) && generation == old(timerGeneration) && mailbox.count == old(mailbox.count) ==>
        forall t: uint64 :: t < now + 1000 * timer.timeout && t < UINT64_MAX ==> timer.Running(t)
    {
      which := 0;
      if generation != timerGeneration {
        Stop();
        return false, which;
      }
      if timer.Expired(now) {
        Stop();
        locks := locks + 1;
        return true, which;
      }
      var active;
      active, which := TakeActivity(generation);
      if active {
        var renewed := timer.Touch(now);
      }
      shown := timer.Remaining(now);
      locked := false;
    }

    /** Activity seen by the worker itself. */
    method Activity(now: uint64, generation: uint32) returns (locked: bool)
      requires Valid()
      modifies this, timer, mailbox
      ensures Valid()
      ensures locked <==> generation == old(timerGeneration) && old(timer.Expired(now))
      ensures locked || generation != old(timerGeneration) ==> timer.timeout == 0
      ensures !locked && generation == old(timerGeneration) ==> old(timer.deadline) <= timer.deadline
      ensures !locked && generation == old(timerGeneration) && old(timer.Running(now)) ==>
        DeadlineOf(timer.timeout, now) <= timer.deadline && shown == timer.Remaining(now)
      ensures !locked && generation == old(timerGeneration) && old(timer.Running(now)) ==>
        forall t: uint64 :: t < now + 1000 * timer.timeout && t < UINT64_MAX ==> timer.Running(t)
    {
      ghost var which;
      locked, which := Poll(now, generation);
      if locked {
        return;
      }
      var renewed := timer.Touch(now);
      shown := timer.Remaining(now);
    }
  }
}
