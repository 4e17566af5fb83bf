// The vault's lifecycle: charging attempts before a credential is evaluated, and keeping
// one of two header copies matched to the anchored hash (src/shared/security/vault.c).
module Vault {
  import opened Bytes
  import opened DeviceState
  import opened Card
  import opened Enrollment
  import opened Envelope
  import opened Keys
  import opened Limits
  import opened Otp
  import opened Policy
  import VolumeFormat

  datatype Result = Success | Invalid | StateError | Denied | AuthFailed | IoError | NeedsMirror

  predicate StateValid(s: State) {
    if s.status == EmptyVault then s.attempts == 0 && !s.pending && s.generation == 0
    else s.generation != 0 && PolicyValid(s.policy) && s.attempts <= s.policy.maxAttempts && (s.pending ==> s.attempts != 0)
  }

  method CheckState(s: State) returns (ok: bool)
    ensures ok <==> StateValid(s)
  {
    if s.status == EmptyVault {
      return s.attempts == 0 && !s.pending && s.generation == 0;
    }
    var policy := new byte[POLICY_BYTES];
    var encodes := Policy.Encode(s.policy, policy);
    if s.generation == 0 || !encodes || s.attempts > s.policy.maxAttempts || (s.pending && s.attempts == 0) {
      return false;
    }
    ok := true;
  }

  predicate Limited(s: State) {
    s.policy.limitAction != NoLimit
  }

  predicate Live(s: State) {
    s.status in {EmptyVault, Active}
  }

  /** The attempts recorded durably cover every evaluation made since the last durable reset. */
  ghost predicate Charged(m: Media, device: nat, evaluations: nat)
    requires MediaShaped(m)
  {
    forall s :: Holds(m, device, s) && Live(s) ==> evaluations <= s.attempts
  }

  /** No state that lets a credential be tried governs the vault. */
  ghost predicate Stopped(m: Media, device: nat)
    requires MediaShaped(m)
  {
    forall s :: Holds(m, device, s) ==> !Live(s)
  }

  lemma AnchoredIsHeld(authority: EnrollmentDevice, s: State)
    requires authority.Valid() && authority.Anchored(s)
    ensures Holds(authority.Durable(), authority.device, s)
  {
  }

  lemma AnchoredHolds(authority: EnrollmentDevice, s: State)
    requires authority.Valid() && MaskSafe(authority.otp.mask) && authority.Anchored(s)
    ensures Holds(authority.Durable(), authority.device, s)
    ensures forall t :: Holds(authority.Durable(), authority.device, t) ==> t == s
  {
    OnlyHolds(authority, s);
  }

  // ---- Headers -------------------------------------------------------------

  function HeaderSector(slot: nat): nat { 8 * slot }

  function SectorHash(x: Sector): Hash {
    if x.Sealed? then HashOf(x.header) else ZeroHash
  }

  predicate Matches(c: Config, s: State) {
    && c.generation == s.generation && c.tokenSlot == s.tokenSlot && c.device == s.device
    && c.volume.volume == s.volume && c.policy == s.policy
  }

  /** Slot surely carries the header of this hash, whatever power loss does. */
  predicate SureHeader(card: Disk, slot: nat, hash: Hash) {
    hash.HashOf? && Sure(card, HeaderSector(slot), Sealed(hash.header))
  }

  /** While the vault is active, one of the two slots surely carries the anchored header. */
  ghost predicate HeaderSafe(m: Media, device: nat, card: Disk)
    requires MediaShaped(m)
  {
    forall s :: Holds(m, device, s) && s.status == Active ==> SureHeader(card, 0, s.headerHash) || SureHeader(card, 1, s.headerHash)
  }

  /** A slot has changed since a sync last succeeded exactly when power loss may undo it. */
  ghost predicate Tracked(card: Disk, unsaved: set<nat>)
    requires |card.live| == |card.durable|
  {
    forall slot: nat :: slot < 2 && HeaderSector(slot) < |card.live| ==>
      (slot in unsaved <==> !Sure(card, HeaderSector(slot), card.live[HeaderSector(slot)]))
  }

  /** Every copy that reads as the anchored header was synced after it was last saved. */
  ghost predicate CopiesSaved(m: Media, device: nat, card: Disk, unsaved: set<nat>)
    requires MediaShaped(m)
  {
    forall s, slot: nat :: Holds(m, device, s) && s.status == Active && slot < 2 && HeaderSector(slot) < |card.live|
      && SectorHash(card.live[HeaderSector(slot)]) == s.headerHash && s.headerHash != ZeroHash
      ==> slot !in unsaved
  }

  /** The anchor does not move: a live state afterwards is one of a vault that was as live before
      and names the header that was anchored then. */
  ghost predicate AnchorStays(before: Media, after: Media, device: nat)
    requires MediaShaped(before) && MediaShaped(after)
  {
    forall t :: Holds(after, device, t) && Live(t) ==>
      exists s :: Holds(before, device, s) && s.status == t.status && s.headerHash == t.headerHash
  }

  /** A vault at its limit is locked or condemned, as its policy says. */
  predicate AtLimit(t: State) {
    && Limited(t) && t.attempts == t.policy.maxAttempts && !t.pending
    && (t.policy.limitAction == LimitAction.Destroy ==> t.status == DestroyPending)
    && (t.policy.limitAction == LimitAction.Lockout ==> t.status == Locked)
  }

  /** What looking at a credential may make of a state: only its count changes, until an active
      vault is at its limit. */
  predicate Progress(s: State, t: State) {
    || t == s
    || (&& s.status == Active && s.sequence < t.sequence
        && t == s.(sequence := t.sequence, attempts := t.attempts, pending := t.pending, status := t.status)
        && (t.status == Active || AtLimit(t)))
  }

  /** What governs afterwards governed before or comes from what did. */
  ghost predicate Advances(before: Media, after: Media, device: nat)
    requires MediaShaped(before) && MediaShaped(after)
  {
    forall t :: Holds(after, device, t) ==> exists s :: Holds(before, device, s) && Progress(s, t)
  }

  lemma AdvancesOn(a: Media, b: Media, c: Media, device: nat)
    requires MediaShaped(a) && MediaShaped(b) && MediaShaped(c)
    requires Advances(a, b, device) && Advances(b, c, device)
    ensures Advances(a, c, device)
  {
    hide Holds;
    forall t | Holds(c, device, t)
      ensures exists s :: Holds(a, device, s) && Progress(s, t)
    {
      var s :| Holds(b, device, s) && Progress(s, t);
      var r :| Holds(a, device, r) && Progress(r, s);
      assert Progress(r, t);
    }
  }

  lemma AdvancesAnchor(before: Media, after: Media, device: nat)
    requires MediaShaped(before) && MediaShaped(after) && Advances(before, after, device)
    ensures AnchorStays(before, after, device)
  {
    hide Holds;
  }

  lemma Unadvanced(m: Media, device: nat)
    requires MediaShaped(m)
    ensures Advances(m, m, device)
  {
    hide Holds;
    assert forall s :: Progress(s, s);
  }

  lemma AnchorNames(before: Media, after: Media, device: nat)
    requires MediaShaped(before) && MediaShaped(after) && AnchorStays(before, after, device)
    ensures forall t :: Holds(after, device, t) && Live(t) ==>
      exists s :: Holds(before, device, s) && s.status == t.status && s.headerHash == t.headerHash
  {
  }

  lemma AnchorUnmoved(m: Media, device: nat)
    requires MediaShaped(m)
    ensures AnchorStays(m, m, device)
  {
  }

  lemma AnchorKeepsHeaders(before: Media, after: Media, device: nat, card: Disk, unsaved: set<nat>)
    requires MediaShaped(before) && MediaShaped(after) && AnchorStays(before, after, device)
    ensures HeaderSafe(before, device, card) ==> HeaderSafe(after, device, card)
    ensures CopiesSaved(before, device, card, unsaved) ==> CopiesSaved(after, device, card, unsaved)
  {
    hide Holds, SureHeader;
  }

  /** A copy of the header survives every power loss. */
  ghost predicate HeaderSurvives(card: Disk, h: Header) {
    && HeaderSector(1) < |card.durable|
    && forall image :: CrashImage(card, image) ==> image[HeaderSector(0)] == Sealed(h) || image[HeaderSector(1)] == Sealed(h)
  }

  /** That is exactly when one slot is sure: two doubtful copies can both be lost. */
  lemma SurvivesExactlyWhenSure(card: Disk, h: Header)
    requires DiskValid(card) && HeaderSector(1) < |card.durable|
    ensures HeaderSurvives(card, h) <==> SureHeader(card, 0, HashOf(h)) || SureHeader(card, 1, HashOf(h))
  {
    var x := Sealed(h);
    if SureHeader(card, 0, HashOf(h)) {
      SureIsRead(card, 0, x);
    } else if SureHeader(card, 1, HashOf(h)) {
      SureIsRead(card, 8, x);
    } else {
      var a :| a in Values(card, 0) && a != x;
      var b :| b in Values(card, 8) && b != x;
      var image := card.durable[0 := a][8 := b];
      forall i | 0 <= i < |image|
        ensures MayHold(card, i, image[i])
      {
        Possible(card, i, image[i]);
      }
      assert CrashImage(card, image);
    }
  }

  /** The card after a header was written to a slot and not synced. */
  ghost predicate SaveCut(before: Disk, after: Disk, slot: nat, h: Header)
  {
    DiskValid(before) && HeaderSector(slot) < |before.live| && exists ok :: Wrote(before, after, HeaderSector(slot), [Sealed(h)], ok)
  }

  /** A slot is sure after such a write exactly if it surely read so before. */
  lemma SlotWritten(before: Disk, after: Disk, at: nat, x: Sector, ok: bool)
    requires DiskValid(before) && at < |before.live| && Authentic(x) && Wrote(before, after, at, [x], ok)
    ensures Sure(after, at, after.live[at]) <==> Sure(before, at, before.live[at]) && before.live[at] == x
  {
    hide Card.Torn;
    assert Values(after, at) == Values(before, at) + {x} && before.durable[at] in Values(before, at);
    if Sure(before, at, x) {
      OnlyOneValue(x);
    }
    if Sure(after, at, after.live[at]) {
      assert x in Values(after, at);
      assert Values(before, at) == {x};
      OnlyOneValue(x);
    }
  }

  lemma StaysTracked(before: Disk, unsaved: set<nat>, slot: nat, h: Header, after: Disk, ok: bool)
    requires DiskValid(before) && Tracked(before, unsaved) && slot < 2 && HeaderSector(slot) < |before.live|
    requires Wrote(before, after, HeaderSector(slot), [Sealed(h)], ok)
    ensures |after.live| == |after.durable|
    ensures Tracked(after, if before.live[HeaderSector(slot)] == Sealed(h) then unsaved else unsaved + {slot})
  {
    hide MayBe;
    SlotWritten(before, after, HeaderSector(slot), Sealed(h), ok);
  }

  lemma NotSure(card: Disk, i: nat, x: Sector, y: Sector)
    requires i < |card.durable| && y in Values(card, i) && x != y
    ensures !Sure(card, i, x)
  {
  }

  /** When only one copy can be sure of the header, it survives exactly if that one is. */
  lemma SurvivesByOneCopy(card: Disk, slot: nat, h: Header)
    requires DiskValid(card) && slot < 2 && HeaderSector(1) < |card.live|
    requires !Sure(card, HeaderSector(1 - slot), Sealed(h))
    ensures HeaderSurvives(card, h) <==> Sure(card, HeaderSector(slot), Sealed(h))
  {
    hide HeaderSurvives, Sure;
    SurvivesExactlyWhenSure(card, h);
    assert !SureHeader(card, 1 - slot, HashOf(h));
    assert SureHeader(card, slot, HashOf(h)) <==> Sure(card, HeaderSector(slot), Sealed(h));
    assert slot == 0 || slot == 1;
  }

  /** A change overwrites the copy it did not select. At any cut of that write the anchored
      header survives exactly if the selected copy was synced after it was last saved. */
  lemma ChangeSafeExactlyWhenSaved(card: Disk, unsaved: set<nat>, slot: nat, before: Header, renewed: Header, after: Disk, ok: bool)
    requires DiskValid(card) && Tracked(card, unsaved) && slot < 2 && HeaderSector(1) < |card.live|
    requires card.live[HeaderSector(slot)] == Sealed(before) && renewed != before
    requires Wrote(card, after, HeaderSector(1 - slot), [Sealed(renewed)], ok)
    ensures HeaderSurvives(after, before) <==> slot !in unsaved
  {
    hide HeaderSurvives, MayBe;
    assert HeaderSector(slot) != HeaderSector(1 - slot) && HeaderSector(slot) < |card.live|;
    assert Values(after, HeaderSector(slot)) == Values(card, HeaderSector(slot));
    assert Sealed(renewed) in Values(after, HeaderSector(1 - slot));
    SurvivesByOneCopy(after, slot, before);
  }

  /** A run that loses the header. Slot 0 is spoiled and slot 1 durable. An unlock repairs
      slot 0 but its sync fails; a change then selects slot 0, which reads as the anchored
      header, and overwrites slot 1. Both steps are what RepairHeaderCopy and ReplaceHeader
      leave when the sync fails. Each alone keeps the header readable; a power loss after the
      second leaves no copy. */
  lemma RepairThenChangeLosesHeader(card: Disk, h: Header, renewed: Header)
    returns (repaired: Disk, changed: Disk, image: seq<Sector>)
    requires DiskValid(card) && card.live == card.durable && card.unsynced == map[] && HeaderSector(1) < |card.live|
    requires card.live[HeaderSector(0)] != Sealed(h) && card.live[HeaderSector(1)] == Sealed(h) && renewed != h
    ensures HeaderSurvives(card, h)
    ensures SaveCut(card, repaired, 0, h)
    ensures HeaderSurvives(repaired, h) && repaired.live[HeaderSector(0)] == Sealed(h)
    ensures SaveCut(repaired, changed, 1, renewed)
    ensures CrashImage(changed, image) && image[HeaderSector(0)] != Sealed(h) && image[HeaderSector(1)] != Sealed(h)
  {
    hide Card.Torn;
    SyncedIsSure(card);
    SurvivesExactlyWhenSure(card, h);
    repaired := card.(live := card.live[0 := Sealed(h)], unsynced := map[0 := {Sealed(h)}]);
    assert Values(repaired, 8) == {Sealed(h)};
    assert Wrote(card, repaired, 0, [Sealed(h)], true);
    SurvivesExactlyWhenSure(repaired, h);
    changed := repaired.(live := repaired.live[8 := Sealed(renewed)], unsynced := map[0 := {Sealed(h)}, 8 := {Sealed(renewed)}]);
    assert Wrote(repaired, changed, 8, [Sealed(renewed)], true);
    image := card.durable[8 := Sealed(renewed)];
    assert CrashImage(changed, image);
  }

  /** An open vault: what the session was unsealed from. */
  ghost predicate OpenedBy(h: Header, token: Token, slot: nat, secret: seq<byte>, vmk: Share) {
    Carries(h, BindingOf(token, slot, h.config.volume.volume), secret, vmk)
  }

  lemma OnlyHolds(authority: EnrollmentDevice, s: State)
    requires authority.Valid() && MaskSafe(authority.otp.mask) && Holds(authority.Durable(), authority.device, s)
    ensures forall t :: Holds(authority.Durable(), authority.device, t) ==> t == s
  {
    forall t | Holds(authority.Durable(), authority.device, t)
      ensures t == s
    {
      HoldsOne(authority.Durable(), authority.device, s, t);
    }
  }

  /** The sectors that hold the two headers; volumes start behind them. */
  const HEADERS: nat := 16

  predicate FormattedTo(before: Disk, after: Disk)
    requires DiskValid(before)
  {
    && DiskValid(after) && |after.live| == |before.live| && after.reliable == before.reliable
    && forall i :: 0 <= i < HEADERS && i < |before.live| ==>
         after.live[i] == before.live[i] && Values(after, i) == Values(before, i)
  }

  class Platform {
    const authority: EnrollmentDevice
    const limits: KdfLimits
    var card: Disk
    /** The working keys of the volume can be derived and its store opens with them. */
    const mountable: bool
    /** The last save of a header failed and none has succeeded since: what a caller that
        watches the results can tell. */
    var doubtful: bool
    /** The slots whose contents have changed since a sync last succeeded. */
    ghost var unsaved: set<nat>
    /** Evaluations of a credential under an enabled limit since it was last durably reset. */
    ghost var evaluations: nat
    /** All evaluations of a credential there have ever been. */
    ghost var tried: nat

    ghost predicate Valid()
      reads this, authority, authority.otp, authority.chip
    {
      && authority.Valid() && DiskValid(card) && |card.live| <= UINT64_MAX
      && Tracked(card, unsaved) && (!doubtful ==> unsaved == {})
      && Safe(authority.Durable(), authority.device)
      && Charged(authority.Durable(), authority.device, evaluations)
    }

    ghost function Owned(): set<object>
      reads this, authority
    {
      {this, authority, authority.otp, authority.chip}
    }

    constructor (authority: EnrollmentDevice, card: Disk, limits: KdfLimits, mountable: bool)
      requires authority.Valid() && DiskValid(card) && |card.live| <= UINT64_MAX
      requires Safe(authority.Durable(), authority.device)
      ensures Valid() && this.authority == authority && this.card == card && evaluations == 0 && doubtful
    {
      this.authority, this.card, this.limits, this.mountable, doubtful := authority, card, limits, mountable, true;
      evaluations, tried := 0, 0;
      unsaved := set slot: nat | slot < 2 && HeaderSector(slot) < |card.live|
                                 && !Sure(card, HeaderSector(slot), card.live[HeaderSector(slot)]);
    }

    /** The state is numbered like the anchored one and can be encoded; when the slot is revoked,
        it says that the vault is destroyed. */
    ghost predicate Follows(s: State)
      requires authority.Valid()
      reads authority, authority.otp, authority.chip
    {
      && s.tokenSlot == authority.tokenSlot
      && if authority.terminal then
           && SlotState(authority.otp.mask, s.tokenSlot) == Revoked && s.status == Destroyed
           && BurnedToken(authority.otp.tokens[s.tokenSlot])
         else
           Encodable(s, authority.device) && exists last :: authority.Anchored(last) && last.sequence == s.sequence
    }

    method Commit(s: State, ghost from: Media) returns (ok: bool, next: State)
      requires authority.Valid() && DiskValid(card) && Safe(authority.Durable(), authority.device)
      requires Leads(from, authority.Durable(), authority.device)
      modifies authority.chip
      ensures authority.Valid() && Safe(authority.Durable(), authority.device)
      ensures Leads(from, authority.Durable(), authority.device)
      ensures next == s.(sequence := if s.sequence == UINT64_MAX then s.sequence else s.sequence + 1)
      ensures ok ==> s.tokenSlot == authority.tokenSlot
      ensures ok && !authority.terminal ==> authority.Anchored(next) && Holds(authority.Durable(), authority.device, next)
      ensures ok && !authority.terminal ==> forall t :: Holds(authority.Durable(), authority.device, t) ==> t == next
      ensures authority.terminal ==> authority.Durable() == old(authority.Durable())
      // Without faults a state that may follow the anchored one is refused exactly when the numbers have run out.
      ensures s.sequence == UINT64_MAX ==> !ok && authority.Durable() == old(authority.Durable())
      ensures old(authority.Reliable() && Follows(s)) ==> (ok <==> s.sequence < UINT64_MAX)
      ensures authority.chip.reliable == old(authority.chip.reliable)
      ensures forall t :: Holds(authority.Durable(), authority.device, t) ==>
                old(Holds(authority.Durable(), authority.device, t)) || (t == next && !authority.terminal)
    {
      hide Leads, MaskSafe, LogSafe, MaskGrows, TokensGrow, LogStep;
      ghost var before := authority.Durable();
      next := s;
      if s.sequence == UINT64_MAX {
        return false, next;
      }
      next := s.(sequence := s.sequence + 1);
      ok := authority.Commit(s.sequence, next);
      LeadsBy(from, before, authority.Durable(), authority.device);
      if ok && !authority.terminal {
        AnchoredHolds(authority, next);
      }
    }

    ghost predicate HeadersSafe()
      requires Valid()
      reads this, authority, authority.otp, authority.chip
    {
      HeaderSafe(authority.Durable(), authority.device, card)
    }

    ghost predicate HeadersSaved()
      requires Valid()
      reads this, authority, authority.otp, authority.chip
    {
      CopiesSaved(authority.Durable(), authority.device, card, unsaved)
    }

    /** The media checks every operation makes; a card may be pulled at any time. */
    method CardPresent() returns (ok: bool)
      ensures card.reliable ==> ok
    {
      ok := *;
      ok := ok || card.reliable;
    }

    /** What the device is left with when a vault that was in this state is refused for good: an
        active one at its limit is destroyed or locked, as its policy says. */
    ghost predicate Refused(before: Media, s: State)
      requires authority.Valid()
      reads this, authority, authority.otp, authority.chip
    {
      if s.status == DestroyPending || (s.status == Active && s.policy.limitAction == LimitAction.Destroy) then
        && s.tokenSlot < TOKEN_SLOTS && SlotState(authority.otp.mask, s.tokenSlot) == Revoked
        && BurnedToken(authority.otp.tokens[s.tokenSlot]) && authority.terminal
      else if s.status == Active then
        && authority.otp.mask == before.mask && authority.otp.tokens == before.tokens
        && exists t :: Governs(t) && t.status == Locked && Progress(s, t)
      else
        authority.Durable() == before
    }

    /** The numbers that are left suffice to enforce the limit. */
    predicate Enforceable(s: State) {
      if s.status == Active && s.policy.limitAction == LimitAction.Destroy then s.sequence + 1 < UINT64_MAX else s.sequence < UINT64_MAX
    }

    /** Without faults, a load answers this state. */
    ghost predicate Presented(s: State)
      requires authority.Valid()
      reads authority, authority.otp, authority.chip
    {
      authority.Reliable() && authority.Anchored(s) && authority.Presentable(s)
    }

    /** The attempt limit is reached: lock or destroy, durably. */
    method Limit(s: State, ghost from: Media) returns (r: Result, last: State)
      requires Valid() && Leads(from, authority.Durable(), authority.device)
      requires s.status == Active ==> Limited(s) && s.attempts == s.policy.maxAttempts
      modifies authority, authority.otp, authority.chip
      ensures Valid()
      ensures Leads(from, authority.Durable(), authority.device) && authority.tokenSlot == old(authority.tokenSlot)
      ensures r in {Denied, StateError}
      // At every cut: what governed before, or what its policy makes of an active state.
      ensures forall t :: Holds(authority.Durable(), authority.device, t) ==>
                || old(Holds(authority.Durable(), authority.device, t))
                || (s.status == Active && t.sequence == s.sequence + 1 && AtLimit(t) && Progress(s, t))
      ensures r == Denied && (s.status == DestroyPending || (s.status == Active && old(authority.Anchored(s)))) ==>
                Refused(old(authority.Durable()), s)
      ensures r == Denied && s.status in {Active, DestroyPending} && old(authority.Anchored(s)) ==>
                Stopped(authority.Durable(), authority.device)
      ensures old(Presented(s)) && s.status in {Active, DestroyPending} ==> (r == Denied <==> Enforceable(s))
      // Destroying does not wait for the last record.
      ensures old(Presented(s)) && (s.status == DestroyPending || (s.status == Active && s.policy.limitAction == LimitAction.Destroy
                                                                   && s.sequence < UINT64_MAX))
              ==> Refused(old(authority.Durable()), s)
      ensures old(authority.Reliable() && authority.tokenSlot == s.tokenSlot && authority.Destroyable()) && s.status == DestroyPending
              ==> (r == Denied <==> s.sequence < UINT64_MAX)
    {
      hide Holds, Leads, MaskSafe, LogSafe, MaskGrows, TokensGrow, LogStep, DiskValid, Tracked, StateValid, Safe;
      last := s;
      AnchoredValid();
      var ok;
      if last.status == Active {
        last := last.(status := if last.policy.limitAction == LimitAction.Destroy then DestroyPending else Locked, pending := false);
        ok, last := Commit(last, from);
        if !ok {
          return StateError, last;
        }
        assert AtLimit(last) && Progress(s, last);
        assert old(authority.Anchored(s)) ==> Governs(last);
      }
      if last.status == DestroyPending {
        ok, last := FinishDestruction(last, from);
        if !ok {
          return StateError, last;
        }
      }
      return Denied, last;
    }

    /** Revokes the slot, burns its token and records that both are done. */
    method FinishDestruction(s: State, ghost from: Media) returns (ok: bool, last: State)
      requires Valid() && Leads(from, authority.Durable(), authority.device) && s.status == DestroyPending
      modifies authority, authority.otp, authority.chip
      ensures Valid() && Leads(from, authority.Durable(), authority.device) && authority.tokenSlot == old(authority.tokenSlot)
      ensures forall t :: Holds(authority.Durable(), authority.device, t) ==> old(Holds(authority.Durable(), authority.device, t))
      ensures ok ==> Refused(old(authority.Durable()), s)
      ensures old(authority.Reliable() && authority.tokenSlot == s.tokenSlot && authority.Destroyable()) ==>
                Refused(old(authority.Durable()), s) && (ok <==> s.sequence < UINT64_MAX)
    {
      hide Holds, Leads, MaskSafe, LogSafe, MaskGrows, TokensGrow, LogStep, DiskValid, Tracked, StateValid, Safe;
      last := s;
      ghost var marked := authority.Durable();
      ok := authority.Destroy(last.tokenSlot);
      LeadsBy(from, marked, authority.Durable(), authority.device);
      if !ok {
        return;
      }
      last := last.(status := Destroyed);
      ok, last := Commit(last, from);
    }

    /** The one state that governs, as an operation in progress knows it. */
    ghost predicate Governs(s: State)
      requires authority.Valid()
      reads this, authority, authority.otp, authority.chip
    {
      && authority.Anchored(s) && s.tokenSlot == authority.tokenSlot
      && Holds(authority.Durable(), authority.device, s)
      && forall t :: Holds(authority.Durable(), authority.device, t) ==> t == s
    }

    /** No attempt is left. */
    predicate Exhausted(s: State) {
      s.status == Active && Limited(s) && s.attempts == s.policy.maxAttempts
    }

    /** The mark of an attempt that was cut short is cleared; the attempt still counts. */
    predicate Unmarked(was: State, s: State) {
      was.pending && s.sequence == was.sequence + 1 && s == was.(pending := false, sequence := s.sequence)
    }

    /** An open found nothing but a revoked slot. */
    ghost predicate SlotRevoked()
      requires authority.Valid()
      reads authority, authority.otp, authority.chip
    {
      authority.terminal && SlotState(authority.otp.mask, authority.tokenSlot) == Revoked
    }

    ghost predicate SlotBurned()
      requires authority.Valid()
      reads authority, authority.otp, authority.chip
    {
      BurnedToken(authority.otp.tokens[authority.tokenSlot])
    }

    /** The state as a load answered it. */
    ghost predicate Loaded(s: State)
      requires Valid()
      reads this, authority, authority.otp, authority.chip
    {
      && StateValid(s)
      && if authority.terminal then
           s == authority.Projection() && SlotState(authority.otp.mask, authority.tokenSlot) == Revoked
         else
           Governs(s) && s.status != Destroyed
    }

    /** Enforces the limit, or clears the mark of an attempt that was cut short. */
    method Settle(was: State, ghost from: Media) returns (r: Result, s: State)
      requires Valid() && Leads(from, authority.Durable(), authority.device) && Loaded(was)
      modifies authority, authority.otp, authority.chip
      ensures Valid() && Leads(from, authority.Durable(), authority.device)
      ensures Advances(old(authority.Durable()), authority.Durable(), authority.device)
      ensures r in {Success, Denied, StateError}
      ensures r == Success ==> authority.otp.reliable == old(authority.otp.reliable) && authority.chip.reliable == old(authority.chip.reliable)
      ensures r == Success ==>
                && !old(authority.terminal) && Live(was) && !Exhausted(was)
                && Governs(s) && !authority.terminal && Holds(authority.Durable(), authority.device, s)
                && !s.pending && StateValid(s) && !Exhausted(s) && authority.tokenSlot == old(authority.tokenSlot)
                && authority.otp.mask == old(authority.otp.mask) && authority.otp.tokens == old(authority.otp.tokens)
                && (s.status == EmptyVault ==> authority.Durable() == old(authority.Durable()))
                && (s == was || Unmarked(was, s))
      ensures r == Denied ==> (!Live(was) || Exhausted(was)) && Refused(old(authority.Durable()), was)
      ensures r == Denied && !old(authority.terminal) ==> Stopped(authority.Durable(), authority.device)
      ensures old(authority.Reliable()) && Enforceable(was) ==> r == if Live(was) && !Exhausted(was) then Success else Denied
      ensures old(authority.Reliable() && authority.terminal) ==>
                r == Denied && SlotBurned() && authority.tokenSlot == old(authority.tokenSlot)
    {
      hide Holds, Leads, MaskSafe, LogSafe, MaskGrows, TokensGrow, LogStep, Step, DiskValid, Tracked, Safe;
      ghost var before := authority.Durable();
      Unadvanced(before, authority.device);
      if !authority.terminal {
        AnchoredValid();
      }
      s := was;
      if s.status == DestroyPending || (s.status == Active && Limited(s) && s.attempts == s.policy.maxAttempts) {
        r, s := Limit(s, from);
        return;
      }
      if s.status in {Locked, Destroyed} {
        return Denied, s;
      }
      if s.pending {
        s := s.(pending := false);
        var ok;
        ok, s := Commit(s, from);
        if !ok {
          return StateError, s;
        }
      }
      return Success, s;
    }

    /** Brings the durable state up to date before anything else looks at it. */
    method Recover(ghost from: Media) returns (r: Result, s: State)
      requires Valid() && Leads(from, authority.Durable(), authority.device)
      modifies authority, authority.otp, authority.chip
      ensures Valid()
      ensures Leads(from, authority.Durable(), authority.device)
      ensures old(Stopped(authority.Durable(), authority.device)) ==> Stopped(authority.Durable(), authority.device) && r != Success
      ensures Advances(old(authority.Durable()), authority.Durable(), authority.device)
      ensures r in {Success, Denied, StateError}
      ensures r == Success ==> authority.otp.reliable == old(authority.otp.reliable) && authority.chip.reliable == old(authority.chip.reliable)
      ensures r == Success ==>
                && Governs(s) && !authority.terminal && Live(s) && !s.pending && StateValid(s) && !Exhausted(s)
                && authority.otp.mask == old(authority.otp.mask) && authority.otp.tokens == old(authority.otp.tokens)
                && authority.tokenSlot == old(authority.tokenSlot)
                && (s.status == EmptyVault ==> authority.Durable() == old(authority.Durable()))
      ensures forall was :: old(authority.Anchored(was)) ==>
                && (r == Success ==> s == was || Unmarked(was, s))
                && (r == Denied ==> (!Live(was) || Exhausted(was)) && Refused(old(authority.Durable()), was))
                && (r == Denied ==> Stopped(authority.Durable(), authority.device))
                && (old(Presented(was)) && Enforceable(was) ==> r == if Live(was) && !Exhausted(was) then Success else Denied)
      // A revoked slot is finished off.
      ensures old(authority.Reliable() && SlotRevoked()) ==> r == Denied && SlotBurned() && authority.tokenSlot == old(authority.tokenSlot)
    {
      hide Holds, Leads, Safe, DiskValid, Tracked, Step, Refused, Charged, Progress, StateValid, FlashJournal.Loads, SlotState;
      hide EnrollmentDevice.Anchored, Governs;
      hide Advances, FormattedTo;
      ghost var before := authority.Durable();
      Unadvanced(before, authority.device);
      var ok;
      ok, s := LoadValid();
      assert forall was :: old(authority.Anchored(was)) ==> authority.Anchored(was);
      assert forall was :: old(Presented(was)) ==> Presented(was);
      if !ok {
        return StateError, s;
      }
      r, s := Settle(s, from);
      StoppedStays(before, authority.Durable());
    }

    method LoadValid() returns (ok: bool, s: State)
      requires Valid()
      ensures ok ==> Loaded(s) && forall was :: authority.Anchored(was) ==> was == s && !authority.terminal
      ensures forall was :: Presented(was) ==> ok && s == was && authority.Reliable()
      ensures authority.Reliable() && SlotRevoked() ==> ok
    {
      hide Holds, Safe, DiskValid, Tracked, Charged, FlashJournal.Loads, SlotState;
      ok, s := authority.Load();
      AnchoredValid();
      var valid := CheckState(s);
      if !ok || !valid {
        return false, s;
      }
      LoadedHere(s);
    }

    lemma LoadedHere(s: State)
      requires Valid() && StateValid(s)
      requires if authority.terminal then
                 SlotState(authority.otp.mask, authority.tokenSlot) == Revoked && s == authority.Projection()
               else
                 authority.Anchored(s) && authority.Presentable(s)
      ensures Loaded(s) && forall was :: authority.Anchored(was) ==> was == s
    {
      hide Holds;
      AnchoredValid();
    }

    lemma StoppedStays(before: Media, after: Media)
      requires MediaShaped(before) && MediaShaped(after) && Advances(before, after, authority.device)
      ensures Stopped(before, authority.device) ==> Stopped(after, authority.device)
    {
      hide Holds;
    }

    /** What a load can answer is a valid state that governs. */
    lemma AnchoredValid()
      requires Valid()
      ensures forall s :: authority.Anchored(s) ==>
        && StateValid(s) && s.tokenSlot < TOKEN_SLOTS && Encodable(s, authority.device)
        && Holds(authority.Durable(), authority.device, s)
        && forall t :: Holds(authority.Durable(), authority.device, t) ==> t == s
    {
      hide Holds;
      forall s | authority.Anchored(s)
        ensures StateValid(s) && s.tokenSlot < TOKEN_SLOTS && Encodable(s, authority.device)
        ensures Holds(authority.Durable(), authority.device, s)
        ensures forall t :: Holds(authority.Durable(), authority.device, t) ==> t == s
      {
        AnchoredHolds(authority, s);
        LoadedEncodableHere(authority.Durable(), authority.device, s);
      }
    }

    /** A copy of the header reads back, and it is what the state names. */
    ghost predicate Selectable(s: State, h: Header)
      requires |card.live| <= UINT64_MAX
      reads `card
    {
      && s.headerHash == HashOf(h) && Parses(h, |card.live|, limits) && Matches(h.config, s)
      && exists slot: nat :: slot < 2 && HeaderSector(slot) < |card.live| && card.live[HeaderSector(slot)] == Sealed(h)
    }

    /** Nothing fails, this state governs an active vault that is not at its limit nor near the
        end of its numbers, and a copy of this header, which it names, can be read. */
    ghost predicate Workable(s: State, h: Header)
      requires Valid()
      reads this, authority, authority.otp, authority.chip
    {
      && Presented(s) && card.reliable && mountable && Selectable(s, h)
      && s.status == Active && !Exhausted(s) && s.sequence <= UINT64_MAX - 6
    }

    /** Once the right secret was accepted nothing has failed, and the header and what is to be
        known of the state are the same. */
    ghost predicate Continues(was: State, right: Header, s: State, h: Header)
      requires Valid()
      reads this, authority, authority.otp, authority.chip
    {
      && h == right && authority.Reliable() && card.reliable && Selectable(s, h)
      && s.policy == was.policy && s.sequence < UINT64_MAX && s.attempts == 0
    }

    /** The secret opens the header on this device. */
    ghost predicate Opens(h: Header, secret: seq<byte>)
      requires authority.Valid()
      reads authority, authority.otp, authority.chip
    {
      exists vmk :: OpenedBy(h, authority.otp.tokens[authority.tokenSlot], authority.tokenSlot, secret, vmk)
    }

    /** A wrong secret took one attempt of a limited vault. */
    predicate Counted(was: State, s: State) {
      && Progress(was, s) && s.status == Active && !Exhausted(s)
      && (Limited(was) ==> s.attempts == was.attempts + 1)
    }

    /** What an answer says about the state that governed before: accepted or rejected, it governs
        still, with another count; denied, it is refused for good. */
    ghost predicate Answered(r: Result, before: Media, was: State, s: State)
      requires authority.Valid()
      reads this, authority, authority.otp, authority.chip
    {
      && (r == Success ==> Governs(s) && Progress(was, s))
      && (r == AuthFailed ==> Governs(s) && Counted(was, s))
      && (r == Denied ==> Refused(before, was) && (was.status != EmptyVault ==> Stopped(authority.Durable(), authority.device)))
    }

    /** Accepted exactly if it is the right one; the last wrong one is refused for good. */
    predicate Decided(r: Result, was: State, opens: bool) {
      r == if opens then Success
           else if Limited(was) && was.attempts + 1 == was.policy.maxAttempts then Denied
           else AuthFailed
    }

    /** The first slot whose header is the anchored one. An unreadable copy is passed over. */
    method SelectHeader(s: State) returns (r: Result, h: Header, slot: nat)
      requires DiskValid(card) && |card.live| <= UINT64_MAX
      ensures r == Success ==>
                && slot < 2 && HeaderSector(slot) < |card.live| && card.live[HeaderSector(slot)] == Sealed(h)
                && s.headerHash == HashOf(h) && Parses(h, |card.live|, limits) && Matches(h.config, s)
                && h.config.generation == s.generation && h.config.tokenSlot == s.tokenSlot && h.config.device == s.device
                && h.config.volume.volume == s.volume && h.config.policy == s.policy
      ensures r in {Success, IoError}
      ensures forall right :: card.reliable && Selectable(s, right) ==> r == Success && h == right
    {
      hide Parses;
      h := *;
      slot := 0;
      var ok := CardPresent();
      if !ok {
        return IoError, h, slot;
      }
      while slot < 2
        invariant forall right, k: nat :: k < slot && card.reliable && Selectable(s, right) && HeaderSector(k) < |card.live| ==>
                    card.live[HeaderSector(k)] != Sealed(right)
      {
        var data;
        ok, data := Read(card, HeaderSector(slot), 1);
        if ok && data[0].Sealed? && SectorHash(data[0]) == s.headerHash {
          h := data[0].header;
          if Parses(h, |card.live|, limits) && Matches(h.config, s) {
            return Success, h, slot;
          }
        }
        slot := slot + 1;
      }
      return IoError, h, slot;
    }

    /** Writes, syncs and reads back one copy. */
    method SaveHeader(slot: nat, h: Header) returns (ok: bool)
      requires DiskValid(card) && slot < 2 && Tracked(card, unsaved)
      modifies this`card, this`doubtful, this`unsaved
      ensures DiskValid(card) && |card.live| == old(|card.live|) && card.reliable == old(card.reliable)
      ensures Tracked(card, unsaved) && unsaved <= old(unsaved) + {slot} && doubtful == !ok
      ensures ok ==> unsaved == {}
      ensures HeaderSector(slot) < |card.live| ==> Sealed(h) in Values(card, HeaderSector(slot))
      ensures HeaderSector(slot) < |card.live| && unsaved != {} ==> SaveCut(old(card), card, slot, h)
      ensures ok ==> HeaderSector(slot) < |card.live| && card.live[HeaderSector(slot)] == Sealed(h)
      ensures ok ==> SureHeader(card, slot, HashOf(h)) && (forall i :: 0 <= i < |card.live| ==> Sure(card, i, card.live[i]))
      ensures forall i: nat, x :: i != HeaderSector(slot) && old(Sure(card, i, x)) ==> Sure(card, i, x)
      ensures forall hash :: hash == HashOf(h) && old(SureHeader(card, slot, hash)) ==> SureHeader(card, slot, hash)
      ensures forall i :: 0 <= i < |card.live| && i != HeaderSector(slot) ==> card.live[i] == old(card.live[i])
      ensures card.reliable && HeaderSector(slot) < |card.live| ==> ok
    {
      hide MayBe;
      var data;
      forall i: nat, x | Sure(card, i, x)
        ensures card.live[i] == x
      {
        SureIsRead(card, i, x);
      }
      doubtful := true;
      ghost var before := card;
      ok, card := Write(card, HeaderSector(slot), [Sealed(h)]);
      if HeaderSector(slot) < |card.live| {
        unsaved := if before.live[HeaderSector(slot)] == Sealed(h) then unsaved else unsaved + {slot};
        StaysTracked(before, old(unsaved), slot, h, card, ok);
      }
      if !ok {
        return;
      }
      ok, card := Sync(card);
      if !ok {
        return;
      }
      SyncedIsSure(card);
      unsaved := {};
      ok, data := Read(card, HeaderSector(slot), 1);
      ok := ok && data[0] == Sealed(h);
      doubtful := !ok;
    }

    /** Under an enabled limit an attempt is recorded before the credential is looked at. */
    method Charge(s: State, ghost from: Media) returns (ok: bool, next: State)
      requires Valid() && Leads(from, authority.Durable(), authority.device)
      requires Governs(s) && s.status == Active && !Exhausted(s)
      modifies authority.chip
      ensures Valid() && Leads(from, authority.Durable(), authority.device)
      ensures Advances(old(authority.Durable()), authority.Durable(), authority.device)
      ensures authority.chip.reliable == old(authority.chip.reliable)
      ensures !Limited(s) ==> ok && next == s && authority.Durable() == old(authority.Durable())
      ensures ok ==> Governs(next) && Progress(s, next) && next.status == Active
      ensures ok && Limited(s) ==>
                next.attempts == s.attempts + 1 && next.pending && evaluations < next.attempts && next.sequence == s.sequence + 1
      ensures Limited(s) && s.sequence == UINT64_MAX ==> !ok && authority.Durable() == old(authority.Durable())
      ensures old(authority.Reliable()) && s.sequence < UINT64_MAX ==> ok
    {
      hide Leads, Holds, MaskSafe, LogSafe, MaskGrows, TokensGrow, LogStep, StateValid, Tracked;
      AnchoredValid();
      Unadvanced(authority.Durable(), authority.device);
      ok, next := true, s;
      if Limited(s) {
        next := next.(attempts := next.attempts + 1, pending := true);
        ok, next := Commit(next, from);
      }
    }

    /** Evaluates the credential once. */
    method Try(s: State, h: Header, secret: seq<byte>) returns (attempt: Opened)
      requires Valid() && Governs(s) && s.status == Active && (Limited(s) ==> evaluations < s.attempts)
      requires Parses(h, |card.live|, limits) && Matches(h.config, s)
      modifies this`evaluations, this`tried
      ensures Valid()
      ensures tried <= old(tried) + 1 && evaluations == old(evaluations) + (if Limited(s) then tried - old(tried) else 0)
      ensures attempt.Unsealed? ==>
                && |attempt.vmk| == SHARE_BYTES
                && OpenedBy(h, authority.otp.tokens[authority.tokenSlot], authority.tokenSlot, secret, attempt.vmk)
      ensures authority.Reliable() ==> (attempt.Unsealed? <==> Opens(h, secret))
    {
      hide Leads, Holds, MaskSafe, LogSafe, Carries;
      attempt := Rejected;
      var bound, binding := authority.GetBinding(s.volume, s.tokenSlot);
      if bound {
        attempt := Open(h, |card.live|, limits, binding, secret);
        tried := tried + 1;
        evaluations := if Limited(s) then evaluations + 1 else evaluations;
      }
    }

    /** Records the outcome: the counter is cleared only by a success that is durable. */
    method Record(s: State, success: bool, ghost from: Media) returns (ok: bool, next: State)
      requires Valid() && Leads(from, authority.Durable(), authority.device)
      requires Governs(s) && s.status == Active
      modifies this`evaluations, authority.chip
      ensures Valid() && Leads(from, authority.Durable(), authority.device)
      ensures Advances(old(authority.Durable()), authority.Durable(), authority.device)
      ensures authority.chip.reliable == old(authority.chip.reliable)
      ensures !Limited(s) ==> ok && next == s && authority.Durable() == old(authority.Durable()) && evaluations == old(evaluations)
      ensures evaluations in {0, old(evaluations)}
      ensures ok ==> Governs(next) && Progress(s, next) && next.status == Active
      ensures ok && Limited(s) ==>
                && next.sequence == s.sequence + 1 && !next.pending
                && if success then next.attempts == 0 == evaluations else next.attempts == s.attempts
      ensures old(authority.Reliable()) && s.sequence < UINT64_MAX ==> ok
    {
      hide Leads, Holds, MaskSafe, LogSafe, MaskGrows, TokensGrow, LogStep, StateValid, Tracked;
      AnchoredValid();
      Unadvanced(authority.Durable(), authority.device);
      ok, next := true, s;
      if Limited(s) {
        next := next.(pending := false, attempts := if success then 0 else next.attempts);
        ok, next := Commit(next, from);
        if success && Holds(authority.Durable(), authority.device, next) {
          ghost var last := next;
          OnlyHolds(authority, last);
          evaluations := 0;
        }
      }
    }

    /** Selects the header, charges the attempt, evaluates the credential and records the outcome. */
    method Attempt(was: State, secret: seq<byte>, ghost from: Media)
      returns (r: Result, attempt: Opened, s: State, h: Header, slot: nat)
      requires Valid() && Leads(from, authority.Durable(), authority.device)
      requires Governs(was) && was.status == Active && !Exhausted(was)
      modifies this`evaluations, this`tried, authority, authority.otp, authority.chip
      ensures Valid() && Leads(from, authority.Durable(), authority.device)
      ensures Advances(old(authority.Durable()), authority.Durable(), authority.device)
      ensures evaluations <= old(evaluations) + 1 && tried <= old(tried) + 1
      ensures r in {Success, Denied, AuthFailed, IoError, StateError}
      ensures r == Success ==>
                && Governs(s) && s.status == Active && s.headerHash == HashOf(h) && Matches(h.config, s)
                && slot < 2 && HeaderSector(slot) < |card.live| && card.live[HeaderSector(slot)] == Sealed(h)
                && attempt.Unsealed? && |attempt.vmk| == SHARE_BYTES
                && OpenedBy(h, authority.otp.tokens[authority.tokenSlot], authority.tokenSlot, secret, attempt.vmk)
      ensures r == Success ==> s.attempts == 0 && (Limited(s) ==> evaluations == 0) && s.sequence <= was.sequence + 2
      ensures Answered(r, old(authority.Durable()), was, s)
      ensures r == Success ==> authority.otp.reliable == old(authority.otp.reliable) && authority.chip.reliable == old(authority.chip.reliable)
      ensures r == Success ==> authority.otp.tokens == old(authority.otp.tokens) && authority.tokenSlot == old(authority.tokenSlot)
      ensures forall right :: old(authority.Reliable() && card.reliable && Selectable(was, right)) && was.sequence <= UINT64_MAX - 4 ==>
                Decided(r, was, old(Opens(right, secret))) && (r == Success ==> Continues(was, right, s, h))
    {
      hide Holds, Leads, Safe, Charged, Carries, OpenedBy, Advances, DiskValid, Tracked, StateValid, Parses, Encodable, Opens;
      hide EnrollmentDevice.Anchored;
      ghost var before := authority.Durable();
      Unadvanced(before, authority.device);
      attempt, s := Rejected, was;
      r, h, slot := SelectHeader(s);
      assert forall right :: old(card.reliable && Selectable(was, right)) ==> card.reliable && Selectable(was, right);
      if r != Success {
        return;
      }
      assert forall right :: old(card.reliable && Selectable(was, right)) ==> right == h;
      assert Opens(h, secret) <==> old(Opens(h, secret));
      var ok;
      ok, attempt, s := Evaluate(was, h, secret, from);
      ghost var recorded := authority.Durable();
      if !ok {
        r := StateError;
        return;
      }
      if attempt.Rejected? {
        if Limited(s) && s.attempts == s.policy.maxAttempts {
          ghost var last := s;
          r, s := Limit(s, from);
          LimitAdvances(recorded, authority.Durable(), last);
          if r == Denied {
            RefusedSince(before, recorded, was, last);
          }
          AdvancesOn(before, recorded, authority.Durable(), authority.device);
        } else {
          r := AuthFailed;
        }
      }
    }

    /** Charges the attempt, evaluates the credential and records the outcome. */
    method Evaluate(was: State, h: Header, secret: seq<byte>, ghost from: Media) returns (ok: bool, attempt: Opened, s: State)
      requires Valid() && Leads(from, authority.Durable(), authority.device)
      requires Governs(was) && was.status == Active && !Exhausted(was)
      requires Parses(h, |card.live|, limits) && Matches(h.config, was)
      modifies this`evaluations, this`tried, authority.chip
      ensures Valid() && Leads(from, authority.Durable(), authority.device)
      ensures Advances(old(authority.Durable()), authority.Durable(), authority.device)
      ensures evaluations <= old(evaluations) + 1 && tried <= old(tried) + 1
      ensures authority.chip.reliable == old(authority.chip.reliable)
      ensures ok ==>
                && Governs(s) && Progress(was, s) && s.status == Active && s.sequence <= was.sequence + 2
                && (Limited(was) && attempt.Rejected? ==> s.attempts == was.attempts + 1 && !s.pending)
      ensures ok && attempt.Unsealed? ==>
                && |attempt.vmk| == SHARE_BYTES && s.attempts == 0
                && OpenedBy(h, authority.otp.tokens[authority.tokenSlot], authority.tokenSlot, secret, attempt.vmk)
                && (Limited(s) ==> s.attempts == 0 == evaluations)
      ensures old(authority.Reliable()) && was.sequence <= UINT64_MAX - 2 ==> ok && (attempt.Unsealed? <==> old(Opens(h, secret)))
    {
      hide Holds, Leads, Safe, Charged, Carries, OpenedBy, Advances, DiskValid, Tracked, StateValid, Parses, Encodable;
      hide EnrollmentDevice.Anchored;
      ghost var before := authority.Durable();
      attempt := Rejected;
      ok, s := Charge(was, from);
      ghost var charged := authority.Durable();
      if !ok {
        return;
      }
      attempt := Try(s, h, secret);
      ok, s := Record(s, attempt.Unsealed?, from);
      if ok {
        UnlimitedUncounted(s);
      }
      AdvancesOn(before, charged, authority.Durable(), authority.device);
    }

    /** A refusal counts from where the attempt began. */
    lemma RefusedSince(before: Media, after: Media, was: State, s: State)
      requires authority.Valid() && before.mask == after.mask && before.tokens == after.tokens
      requires was.status == s.status == Active && Progress(was, s) && Refused(after, s)
      ensures Refused(before, was)
    {
      hide Governs;
    }

    /** An attempt that follows a recovery answers for the state before it. */
    lemma AnsweredSince(r: Result, before: Media, after: Media, was: State, ready: State, s: State)
      requires authority.Valid() && before.mask == after.mask && before.tokens == after.tokens
      requires (was == ready || Unmarked(was, ready)) && ready.status == Active && Answered(r, after, ready, s)
      ensures Answered(r, before, was, s)
    {
      hide Governs, Refused, Stopped;
      if r == Denied {
        RefusedSince(before, after, was, ready);
      }
    }

    lemma UnlimitedUncounted(s: State)
      requires Valid() && Governs(s) && s.status == Active
      ensures !Limited(s) ==> s.attempts == 0
    {
      hide Holds, Charged, Tracked, MaskSafe, LogSafe, StateValid;
      AnchoredValid();
    }

    lemma LimitAdvances(before: Media, after: Media, s: State)
      requires MediaShaped(before) && MediaShaped(after) && Holds(before, authority.device, s)
      requires forall t :: Holds(after, authority.device, t) ==> Holds(before, authority.device, t) || Progress(s, t)
      ensures Advances(before, after, authority.device)
    {
      hide Holds;
      assert forall t :: Progress(t, t);
    }

    /** Recovers, then tries the credential once. */
    method Authenticate(secret: seq<byte>) returns (r: Result, attempt: Opened, s: State, h: Header, slot: nat)
      requires Valid()
      modifies this`evaluations, this`tried, authority, authority.otp, authority.chip
      ensures Valid()
      ensures Leads(old(authority.Durable()), authority.Durable(), authority.device)
      ensures old(Stopped(authority.Durable(), authority.device)) ==>
                Stopped(authority.Durable(), authority.device) && tried == old(tried) && evaluations == old(evaluations) && r != Success
      ensures Advances(old(authority.Durable()), authority.Durable(), authority.device)
      ensures evaluations <= old(evaluations) + 1 && tried <= old(tried) + 1 && r != NeedsMirror
      ensures r == Success ==>
                && Governs(s) && s.status == Active && s.headerHash == HashOf(h) && Matches(h.config, s)
                && slot < 2 && HeaderSector(slot) < |card.live| && card.live[HeaderSector(slot)] == Sealed(h)
                && attempt.Unsealed? && |attempt.vmk| == SHARE_BYTES
                && OpenedBy(h, authority.otp.tokens[authority.tokenSlot], authority.tokenSlot, secret, attempt.vmk)
      ensures r == Success ==> s.attempts == 0 && (Limited(s) ==> evaluations == 0)
      ensures forall was :: old(authority.Anchored(was)) ==> Answered(r, old(authority.Durable()), was, s)
      ensures r == Success ==> authority.otp.reliable == old(authority.otp.reliable) && authority.chip.reliable == old(authority.chip.reliable)
      ensures r == Success ==> authority.otp.tokens == old(authority.otp.tokens) && authority.tokenSlot == old(authority.tokenSlot)
      // Without faults the secret decides.
      ensures forall was, right :: old(Workable(was, right)) ==>
                Decided(r, was, old(Opens(right, secret))) && (r == Success ==> Continues(was, right, s, h))
    {
      hide Holds, Leads, Safe, Charged, Stopped, Step, OpenedBy, Advances, DiskValid, Tracked, StateValid, Parses;
      hide EnrollmentDevice.Anchored, Governs, Progress, Counted;
      ghost var from := authority.Durable();
      LeadsStays(from, authority.device);
      attempt, h, slot := Rejected, *, 0;
      r, s := Recover(from);
      ghost var recovered := authority.Durable();
      if r != Success {
        return;
      }
      if s.status != Active {
        r := Denied;
        return;
      }
      ghost var ready := s;
      assert forall was, right :: old(Workable(was, right)) ==>
          card.reliable && Selectable(ready, right) && (old(Opens(right, secret)) <==> Opens(right, secret));
      r, attempt, s, h, slot := Attempt(s, secret, from);
      AdvancesOn(from, recovered, authority.Durable(), authority.device);
      forall was | old(authority.Anchored(was))
        ensures Answered(r, from, was, s)
      {
        AnsweredSince(r, from, recovered, was, ready, s);
      }
    }

    /** A header with this credential can take the place of the present one. */
    ghost predicate Renewable(config: Config, profile: uint16, iterations: uint32, policy: AuthPolicy,
                              replacement: seq<byte>, random: seq<Share>)
      requires |card.live| <= UINT64_MAX
      reads `card
    {
      exists c :: Renewed(config, c, profile, iterations, policy) && Sealable(c, replacement, random)
    }

    /** Seals the volume key of an open session under a new credential. */
    method Reseal(s: State, config: Config, key: Share, replacement: seq<byte>, profile: uint16, iterations: uint32,
                  policy: AuthPolicy, approved: bool, salt: nat, random: seq<Share>)
      returns (ok: bool, header: Header)
      requires Valid() && Governs(s) && s.status == Active && |key| == SHARE_BYTES && AllShares(random)
      requires Matches(config, s) && s.generation < UINT64_MAX
      ensures ok ==>
                && OpenedBy(header, authority.otp.tokens[authority.tokenSlot], authority.tokenSlot, replacement, key)
                && header.config == config.(generation := config.generation + 1, profile := profile,
                                            iterations := iterations, policy := policy)
      ensures ok && !approved ==> policy == s.policy
      ensures ok ==> ConfigValid(header.config, |card.live|, limits)
      ensures authority.Reliable() && (approved || policy == s.policy)
              && Renewable(config, profile, iterations, policy, replacement, random)
              ==> ok
    {
      hide Holds, Safe, Charged, Carries;
      header := *;
      if !approved && policy != s.policy {
        return false, header;
      }
      var c := config.(generation := config.generation + 1, profile := profile, iterations := iterations, policy := policy);
      var bound, binding := authority.GetBinding(c.volume.volume, c.tokenSlot);
      if !bound {
        return false, header;
      }
      var sealing := Seal(c, |card.live|, limits, binding, replacement, key, salt, random);
      if sealing.NotSealed? {
        return false, header;
      }
      return true, sealing.header;
    }

    /** Some copy reads as the header, and a copy survives every power loss exactly if that one
        was synced after it was last saved. */
    ghost predicate SurvivesIfSaved(h: Header)
      requires |card.live| == |card.durable| && HeaderSector(1) < |card.live|
      reads `card, `unsaved
    {
      exists slot: nat :: slot < 2 && ReadsAs(slot, h) && (HeaderSurvives(card, h) <==> slot !in unsaved)
    }

    predicate ReadsAs(slot: nat, h: Header)
      requires slot < 2 && HeaderSector(1) < |card.live|
      reads `card
    {
      card.live[HeaderSector(slot)] == Sealed(h)
    }

    /** The other copy could not be saved. */
    lemma OtherUnsaved(slot: nat, before: Header, after: Header)
      requires DiskValid(card) && Tracked(card, unsaved) && slot < 2 && HeaderSector(slot) < |card.live|
      requires card.live[HeaderSector(slot)] == Sealed(before)
      requires HeaderSector(1 - slot) < |card.live| ==> Sealed(after) in Values(card, HeaderSector(1 - slot))
      ensures slot !in unsaved ==> SureHeader(card, slot, HashOf(before))
      ensures after != before && HeaderSector(1) < |card.live| ==> SurvivesIfSaved(before)
    {
      hide HeaderSurvives, MayBe;
      if after != before && HeaderSector(1) < |card.live| {
        NotSure(card, HeaderSector(1 - slot), Sealed(before), Sealed(after));
        SurvivesByOneCopy(card, slot, before);
        assert ReadsAs(slot, before);
      }
    }

    lemma RenewedFollows(s: State, next: State)
      requires Valid() && Governs(s) && s.status == Active
      requires next == s.(generation := next.generation, policy := next.policy, headerHash := next.headerHash) && next.headerHash.HashOf?
      ensures s.attempts == 0 && next.generation != 0 && PolicyValid(next.policy) ==> Follows(next)
    {
      hide Holds, Charged, Tracked, MaskSafe, LogSafe, StateValid;
      AnchoredValid();
    }

    /** Moves the anchor from the header in slot to a new one: the other copy first, durably,
        then the anchor, then this copy. */
    method ReplaceHeader(s: State, slot: nat, before: Header, after: Header, ghost from: Media) returns (r: Result, next: State)
      requires Valid() && Leads(from, authority.Durable(), authority.device)
      requires Governs(s) && s.status == Active && s.headerHash == HashOf(before)
      requires slot < 2 && HeaderSector(slot) < |card.live| && card.live[HeaderSector(slot)] == Sealed(before)
      modifies this`card, this`doubtful, this`unsaved, authority.chip
      ensures Valid() && Leads(from, authority.Durable(), authority.device)
      ensures r != IoError || slot !in old(unsaved) ==> HeadersSafe()
      ensures r == IoError ==> authority.Durable() == old(authority.Durable())
      ensures r == IoError && after != before && HeaderSector(1) < |card.live|
              ==> SurvivesIfSaved(before) && (unsaved != {} ==> SaveCut(old(card), card, 1 - slot, after))
      ensures r in {Success, NeedsMirror, IoError, StateError}
      ensures forall t :: Holds(authority.Durable(), authority.device, t) ==>
                old(Holds(authority.Durable(), authority.device, t)) || (t.status == Active && t.headerHash == HashOf(after))
      ensures next == s.(sequence := next.sequence, generation := after.config.generation, policy := after.config.policy,
                         headerHash := HashOf(after))
      ensures r in {Success, NeedsMirror} ==> Governs(next) && SureHeader(card, 1 - slot, HashOf(after))
      ensures r == Success ==> SureHeader(card, slot, HashOf(after))
      ensures old(authority.Reliable() && card.reliable && HeaderSector(1) < |card.live|) && s.sequence < UINT64_MAX
              && s.attempts == 0 && after.config.generation != 0 && PolicyValid(after.config.policy)
              ==> r == Success
    {
      hide Leads, Holds, MaskSafe, LogSafe, MaskGrows, TokensGrow, LogStep, HeaderSurvives, Sure, Values, MayBe, StateValid, Tracked, Safe;
      hide PolicyValid, SaveCut, SurvivesIfSaved, Encodable;
      next := s.(generation := after.config.generation, policy := after.config.policy, headerHash := HashOf(after));
      var ok := SaveHeader(1 - slot, after);
      assert card.live[HeaderSector(slot)] == Sealed(before);
      if !ok {
        OtherUnsaved(slot, before, after);
        return IoError, next;
      }
      assert SureHeader(card, slot, HashOf(before));
      RenewedFollows(s, next);
      ok, next := Commit(next, from);
      if !ok {
        return StateError, next;
      }
      ok := SaveHeader(slot, after);
      r := if ok then Success else NeedsMirror;
    }

    /** Formatting and filling a new volume rewrites the sectors behind the headers in ways
        other parts specify; whatever it syncs becomes durable. */
    method FormatVolume() returns (ok: bool)
      requires DiskValid(card) && Tracked(card, unsaved)
      modifies this`card, this`unsaved
      ensures DiskValid(card) && |card.live| == old(|card.live|) && card.reliable == old(card.reliable)
      ensures card.reliable && mountable ==> ok
      ensures Tracked(card, unsaved) && unsaved <= old(unsaved)
      ensures forall i :: 0 <= i < HEADERS && i < |card.live| ==> card.live[i] == old(card).live[i]
    {
      hide Card.Torn, MayBe;
      ok := *;
      ok := ok || (card.reliable && mountable);
      var synced;
      synced, card := Sync(card);
      if synced {
        SyncedIsSure(card);
        unsaved := {};
      }
      assert FormattedTo(card, card);
      var formatted :| FormattedTo(card, formatted);
      assert FormattedTo(card, formatted);
      card := formatted;
    }

    /** Creates the vault: both header copies are durable before the state becomes active. */
    method Create(volume: VolumeFormat.Descriptor, profile: uint16, iterations: uint32, policy: AuthPolicy,
                  secret: seq<byte>, key: Share, salt: nat, random: seq<Share>)
      returns (r: Result, header: Header, next: State)
      requires Valid() && |key| == SHARE_BYTES && AllShares(random) && volume.version == 2
      modifies this`card, this`doubtful, this`unsaved, authority, authority.otp, authority.chip
      ensures Valid()
      ensures Leads(old(authority.Durable()), authority.Durable(), authority.device)
      ensures old(Stopped(authority.Durable(), authority.device)) ==> Stopped(authority.Durable(), authority.device) && r != Success
      ensures old(HeadersSafe()) ==> HeadersSafe()
      // Only an empty vault gets a new header, and it carries this key.
      ensures AnchorStays(old(authority.Durable()), authority.Durable(), authority.device)
              || exists s :: old(Holds(authority.Durable(), authority.device, s)) && s.status == EmptyVault
      ensures forall t :: Holds(authority.Durable(), authority.device, t) && t.status == Active ==>
                || (exists s :: old(Holds(authority.Durable(), authority.device, s)) && s.status == Active && s.headerHash == t.headerHash)
                || (t.headerHash == HashOf(header)
                    && OpenedBy(header, authority.otp.tokens[authority.tokenSlot], authority.tokenSlot, secret, key))
      ensures r == Success ==>
                && Governs(next) && next.status == Active && next.headerHash == HashOf(header) && Matches(header.config, next)
                && header.config.generation == 1 && header.config.volume == volume
                && OpenedBy(header, authority.otp.tokens[authority.tokenSlot], authority.tokenSlot, secret, key)
                && SureHeader(card, 0, HashOf(header)) && SureHeader(card, 1, HashOf(header))
      // Without faults an empty vault is created from whatever a header can be made of.
      ensures old(Creatable(volume, profile, iterations, policy, secret, random)) ==> r == Success
    {
      hide Holds, Leads, Safe, Charged, Stopped, OpenedBy, AnchorStays, HeaderSafe, SureHeader, Step, StateValid;
      hide Refused, Advances, Progress, Tracked, DiskValid, ConfigValid, EnrollmentDevice.Anchored;
      ghost var from := authority.Durable();
      LeadsStays(from, authority.device);
      header := *;
      var s;
      r, s := Recover(from);
      ghost var middle := authority.Durable();
      AdvancesAnchor(from, middle, authority.device);
      AnchorNames(from, middle, authority.device);
      AnchorKeepsHeaders(from, authority.Durable(), authority.device, card, unsaved);
      next := s;
      if r != Success {
        return;
      }
      if s.status != EmptyVault {
        r := Denied;
        return;
      }
      var ok := CardPresent();
      if !ok {
        r := Invalid;
        return;
      }
      ok, header := SealNew(s, volume, profile, iterations, policy, secret, key, salt, random);
      var initialized := *;
      initialized := initialized || mountable;
      if !ok || !initialized {
        r := Invalid;
        return;
      }
      r, next := Publish(s, header, from);
    }

    /** A header can be made of this. */
    predicate Sealable(c: Config, secret: seq<byte>, random: seq<Share>)
      requires |card.live| <= UINT64_MAX
      reads `card
    {
      ConfigValid(c, |card.live|, limits) && SecretFits(c.profile, secret) && |random| + 1 >= c.volume.layers
    }

    ghost predicate Creatable(volume: VolumeFormat.Descriptor, profile: uint16, iterations: uint32, policy: AuthPolicy,
                              secret: seq<byte>, random: seq<Share>)
      requires Valid()
      reads this, authority, authority.otp, authority.chip
    {
      && card.reliable && mountable
      && exists s :: Presented(s) && s.status == EmptyVault && s.sequence <= UINT64_MAX - 2
                     && Sealable(Config(volume, s.device, 1, profile, iterations, s.tokenSlot, policy), secret, random)
    }

    method SealNew(s: State, volume: VolumeFormat.Descriptor, profile: uint16, iterations: uint32, policy: AuthPolicy,
                   secret: seq<byte>, key: Share, salt: nat, random: seq<Share>)
      returns (ok: bool, header: Header)
      requires Valid() && Governs(s) && s.status == EmptyVault && |key| == SHARE_BYTES && AllShares(random)
      ensures ok ==>
                && header.config == Config(volume, s.device, 1, profile, iterations, s.tokenSlot, policy)
                && ConfigValid(header.config, |card.live|, limits)
                && OpenedBy(header, authority.otp.tokens[authority.tokenSlot], authority.tokenSlot, secret, key)
      ensures authority.Reliable() && Sealable(Config(volume, s.device, 1, profile, iterations, s.tokenSlot, policy), secret, random) ==> ok
    {
      hide Holds, Safe, Charged, Carries;
      header := *;
      var c := Config(volume, s.device, 1, profile, iterations, s.tokenSlot, policy);
      var bound, binding := authority.GetBinding(volume.volume, c.tokenSlot);
      if !bound {
        return false, header;
      }
      var sealing := Seal(c, |card.live|, limits, binding, secret, key, salt, random);
      if sealing.NotSealed? {
        return false, header;
      }
      return true, sealing.header;
    }

    /** Formats the volume, saves both header copies, and only then anchors the first. */
    method Publish(s: State, header: Header, ghost from: Media) returns (r: Result, next: State)
      requires Valid() && Leads(from, authority.Durable(), authority.device)
      requires Governs(s) && s.status == EmptyVault && ConfigValid(header.config, |card.live|, limits)
      modifies this`card, this`doubtful, this`unsaved, authority.chip
      ensures Valid() && Leads(from, authority.Durable(), authority.device) && HeadersSafe()
      ensures forall t :: Holds(authority.Durable(), authority.device, t) ==>
                old(Holds(authority.Durable(), authority.device, t)) || (t.status == Active && t.headerHash == HashOf(header))
      ensures r == Success ==>
                && Governs(next) && SureHeader(card, 0, HashOf(header)) && SureHeader(card, 1, HashOf(header))
                && next == s.(sequence := next.sequence, status := Active, generation := 1, policy := header.config.policy,
                              volume := header.config.volume.volume, headerHash := HashOf(header))
      ensures old(authority.Reliable() && card.reliable && mountable) && s.sequence < UINT64_MAX ==> r == Success
    {
      hide Holds, Leads, MaskSafe, LogSafe, MaskGrows, TokensGrow, LogStep, Safe, Tracked, MayBe, Values;
      r, next := IoError, s;
      var ok := FormatVolume();
      if !ok {
        return;
      }
      ok := SaveHeader(0, header);
      if !ok {
        return;
      }
      ok := SaveHeader(1, header);
      if !ok {
        return;
      }
      next := s.(status := Active, generation := 1, policy := header.config.policy, volume := header.config.volume.volume,
                 headerHash := HashOf(header));
      ok, next := Commit(next, from);
      r := if ok then Success else StateError;
    }

    /** Loads the state and selects the anchored header again. */
    method Reread(ghost state: State, ghost current: Header) returns (ok: bool, s: State, h: Header, slot: nat)
      requires Valid() && Governs(state) && state.status == Active && state.headerHash == HashOf(current)
      ensures ok ==> s == state && h == current && Matches(h.config, s) && s.generation < UINT64_MAX
      ensures ok ==> slot < 2 && HeaderSector(slot) < |card.live| && card.live[HeaderSector(slot)] == Sealed(h)
      ensures ok && HeadersSaved() ==> slot !in unsaved
      ensures authority.Reliable() && card.reliable && Selectable(state, current) && state.generation < UINT64_MAX ==> ok
    {
      hide Holds, Safe, Charged, CopiesSaved, StateValid, Tracked, MayBe, Parses;
      AnchoredValid();
      h, slot := *, 0;
      ok, s := authority.Load();
      assert authority.Anchored(state) && authority.Presentable(state);
      assert authority.Reliable() ==> ok && s == state;
      var valid := CheckState(s);
      if !ok || !valid || s.status != Active {
        return false, s, h, slot;
      }
      AnchoredIsHeld(authority, s);
      var r;
      ghost var found := Selectable(state, current);
      r, h, slot := SelectHeader(s);
      assert found ==> Selectable(s, current);
      if r != Success || s.generation == UINT64_MAX {
        return false, s, h, slot;
      }
      SelectedIsSaved(s, slot);
    }

    /** Rereads the anchored header, seals the key anew and moves the anchor. */
    method Rekey(ghost state: State, ghost current: Header, config: Config, key: Share, replacement: seq<byte>,
                 profile: uint16, iterations: uint32, policy: AuthPolicy, approved: bool, salt: nat, random: seq<Share>,
                 ghost from: Media)
      returns (r: Result, header: Header, next: State)
      requires Valid() && Leads(from, authority.Durable(), authority.device)
      requires Governs(state) && state.status == Active && state.headerHash == HashOf(current) && config == current.config
      requires |key| == SHARE_BYTES && AllShares(random)
      modifies this`card, this`doubtful, this`unsaved, authority.chip
      ensures Valid() && Leads(from, authority.Durable(), authority.device)
      ensures old(HeadersSafe() && HeadersSaved()) ==> HeadersSafe()
      ensures r == IoError && HeaderSector(1) < |card.live| ==> SurvivesIfSaved(current) && header != current
      ensures forall t :: Holds(authority.Durable(), authority.device, t) ==> t.status == Active
      ensures forall t :: Holds(authority.Durable(), authority.device, t) ==>
                || t.headerHash == HashOf(current)
                || (t.headerHash == HashOf(header)
                    && OpenedBy(header, authority.otp.tokens[authority.tokenSlot], authority.tokenSlot, replacement, key)
                    && Renewed(current.config, header.config, profile, iterations, policy))
      ensures r in {Success, NeedsMirror} ==>
                && OpenedBy(header, authority.otp.tokens[authority.tokenSlot], authority.tokenSlot, replacement, key)
                && Renewed(current.config, header.config, profile, iterations, policy)
                && Governs(next) && next.status == Active && next.headerHash == HashOf(header) && Matches(header.config, next)
      ensures r == Success ==> SureHeader(card, 0, HashOf(header)) && SureHeader(card, 1, HashOf(header))
      ensures old(authority.Reliable() && card.reliable && Selectable(state, current))
              && (approved || policy == state.policy) && state.sequence < UINT64_MAX && state.attempts == 0
              && old(Renewable(config, profile, iterations, policy, replacement, random))
              ==> r == Success
    {
      hide Holds, Leads, Safe, Charged, Step, OpenedBy, SureHeader, HeaderSafe, CopiesSaved, HeaderSurvives, SurvivesIfSaved;
      hide StateValid, Tracked, MayBe, AnchorStays, SaveCut, ConfigValid, Parses, Renewable, EnrollmentDevice.Anchored;
      header := *;
      RoomForHeaders(config, profile, iterations, policy, replacement, random);
      var ok, s, h, slot := Reread(state, current);
      assert Renewable(config, profile, iterations, policy, replacement, random)
        <==> old(Renewable(config, profile, iterations, policy, replacement, random));
      next := s;
      if !ok {
        r := StateError;
        return;
      }
      ok, header := Reseal(s, config, key, replacement, profile, iterations, policy, approved, salt, random);
      if !ok {
        r := Invalid;
        return;
      }
      r, next := ReplaceHeader(s, slot, h, header, from);
    }

    lemma RoomForHeaders(config: Config, profile: uint16, iterations: uint32, policy: AuthPolicy,
                         replacement: seq<byte>, random: seq<Share>)
      requires |card.live| <= UINT64_MAX
      ensures Renewable(config, profile, iterations, policy, replacement, random) ==>
                HeaderSector(1) < |card.live| && PolicyValid(policy) && config.generation < UINT64_MAX
    {
    }

    lemma SelectedIsSaved(s: State, slot: nat)
      requires Valid() && Governs(s) && s.status == Active && slot < 2 && HeaderSector(slot) < |card.live|
      requires s.headerHash != ZeroHash && SectorHash(card.live[HeaderSector(slot)]) == s.headerHash
      ensures HeadersSaved() ==> slot !in unsaved
    {
      hide Holds;
    }
  }

  /** The configuration a credential change produces. */
  predicate Renewed(before: Config, after: Config, profile: uint16, iterations: uint32, policy: AuthPolicy) {
    && before.generation < UINT64_MAX
    && after == before.(generation := before.generation + 1, profile := profile, iterations := iterations, policy := policy)
  }

  class Session {
    var unlocked: bool
    var config: Config
    var vmk: Share
    var repairPending: bool

    constructor ()
      ensures !unlocked
    {
      unlocked, repairPending := false, false;
      config, vmk := *, *;
    }

    method Lock()
      modifies this
      ensures !unlocked
    {
      unlocked, repairPending := false, false;
    }

    /** Derives the working keys and opens the volume; any of that may fail. */
    method Initialize(p: Platform, c: Config, key: Share) returns (ok: bool)
      requires this !in p.Owned()
      modifies this
      ensures unlocked == ok && (ok ==> config == c && vmk == key && !repairPending)
      ensures p.mountable ==> ok
    {
      ok := *;
      ok := ok || p.mountable;
      config, vmk, unlocked, repairPending := c, key, ok, false;
    }

    /** Authenticates and starts a session; a copy of the header may be repaired on the way.
        On success, state is what governs and header what the session was unsealed from. */
    method Unlock(p: Platform, secret: seq<byte>, repair: bool) returns (r: Result, ghost state: State, ghost header: Header)
      requires p.Valid() && this !in p.Owned()
      modifies this, p, p.authority, p.authority.otp, p.authority.chip
      ensures p.Valid()
      ensures Leads(old(p.authority.Durable()), p.authority.Durable(), p.authority.device)
      ensures old(Stopped(p.authority.Durable(), p.authority.device)) ==>
                Stopped(p.authority.Durable(), p.authority.device) && p.tried == old(p.tried) && p.evaluations == old(p.evaluations) && r != Success
      ensures r != NeedsMirror && (unlocked <==> r == Success)
      ensures r == Success ==> p.Governs(state) && state.status == Active && state.headerHash == HashOf(header)
      ensures r == Success ==>
                && config == header.config && |vmk| == SHARE_BYTES && Matches(config, state)
                && (exists slot: nat :: Copied(p, slot, header, repair))
                && OpenedBy(header, p.authority.otp.tokens[p.authority.tokenSlot], p.authority.tokenSlot, secret, vmk)
      ensures r == Success ==> state.attempts == 0 && (Limited(state) ==> p.evaluations == 0)
      ensures r == Success ==>
                p.authority.otp.tokens == old(p.authority.otp.tokens) && p.authority.tokenSlot == old(p.authority.tokenSlot)
      ensures r == Success ==> forall was, right :: old(p.Workable(was, right)) ==>
                p.card.reliable && (!repair ==> p.Continues(was, right, state, header))
      ensures old(p.HeadersSafe()) ==> p.HeadersSafe()
      ensures Advances(old(p.authority.Durable()), p.authority.Durable(), p.authority.device)
      ensures AnchorStays(old(p.authority.Durable()), p.authority.Durable(), p.authority.device)
      // Without faults the secret decides: the right one is accepted while an attempt is left.
      ensures forall was, right :: old(p.Workable(was, right)) ==> p.Decided(r, was, old(p.Opens(right, secret)))
      ensures r in {AuthFailed, Denied} ==> forall was :: old(p.authority.Anchored(was)) ==> p.Answered(r, old(p.authority.Durable()), was, state)
      ensures !repair ==> p.card == old(p.card) && p.unsaved == old(p.unsaved) && p.doubtful == old(p.doubtful)
    {
      hide Holds, Leads, Safe, Charged, Stopped, Step, Carries, OpenedBy, SureHeader, HeaderSafe, AnchorStays, Tracked, DiskValid, Parses, StateValid;
      hide Advances, Progress, EnrollmentDevice.Anchored, Platform.Answered, Platform.Workable, Platform.Opens, Platform.Selectable;
      Lock();
      assert forall was, right :: old(p.Workable(was, right)) ==>
          p.Workable(was, right) && (old(p.Opens(right, secret)) <==> p.Opens(right, secret));
      FaultFree(p);
      assert forall was :: old(p.authority.Anchored(was)) ==> p.authority.Anchored(was);
      var attempt, s, h, slot;
      r, attempt, s, h, slot := p.Authenticate(secret);
      AdvancesAnchor(old(p.authority.Durable()), p.authority.Durable(), p.authority.device);
      AnchorKeepsHeaders(old(p.authority.Durable()), p.authority.Durable(), p.authority.device, p.card, p.unsaved);
      state, header := s, h;
      if r != Success {
        return;
      }
      r := Start(p, h, slot, attempt.vmk, repair);
    }

    /** The header reads back from the slot it was found in and, unless a repair is outstanding
        or was not asked for, from the other one too. */
    predicate Copied(p: Platform, slot: nat, h: Header, repair: bool)
      reads this, p
    {
      && slot < 2 && HeaderSector(slot) < |p.card.live| && p.card.live[HeaderSector(slot)] == Sealed(h)
      && (repairPending ==> repair)
      && (repair && !repairPending ==> HeaderSector(1) < |p.card.live| && p.card.live[HeaderSector(1 - slot)] == Sealed(h))
    }

    /** Starts a session on the header selected from slot. The other copy is repaired, but a
        repair that fails does not end the session. */
    method Start(p: Platform, h: Header, slot: nat, key: Share, repair: bool) returns (r: Result)
      requires p.Valid() && this !in p.Owned() && slot < 2
      requires HeaderSector(slot) < |p.card.live| && p.card.live[HeaderSector(slot)] == Sealed(h)
      requires forall s :: Holds(p.authority.Durable(), p.authority.device, s) ==> s.headerHash == HashOf(h)
      modifies this, p`card, p`doubtful, p`unsaved
      ensures p.Valid() && r in {Success, StateError, IoError} && (unlocked <==> r == Success)
      ensures r == Success ==> config == h.config && vmk == key && Copied(p, slot, h, repair)
      ensures old(p.HeadersSafe()) ==> p.HeadersSafe()
      ensures old(p.card.reliable && p.mountable) ==> r == Success
      ensures p.card.reliable == old(p.card.reliable)
      ensures !repair ==> p.card == old(p.card) && p.unsaved == old(p.unsaved) && p.doubtful == old(p.doubtful)
    {
      hide Holds, Leads, Safe, Charged, Step, SureHeader, HeaderSafe, Tracked, DiskValid;
      var ok := Initialize(p, h.config, key);
      r := if ok then Success else StateError;
      if ok && repair {
        var repaired := RepairHeaderCopy(p, 1 - slot, h);
        repairPending := !repaired;
        var present := p.CardPresent();
        if !present {
          r := IoError;
        }
      }
      if r != Success {
        Lock();
      }
    }

    lemma FaultFree(p: Platform)
      requires p.Valid()
      ensures forall was, right :: p.Workable(was, right) ==> p.card.reliable && p.mountable && was.headerHash == HashOf(right)
    {
    }

    method RepairHeaderCopy(p: Platform, slot: nat, h: Header) returns (ok: bool)
      requires p.Valid() && slot < 2
      requires forall s :: Holds(p.authority.Durable(), p.authority.device, s) ==> s.headerHash == HashOf(h)
      modifies p`card, p`doubtful, p`unsaved
      ensures p.Valid() && |p.card.live| == old(|p.card.live|)
      ensures old(p.HeadersSafe()) ==> p.HeadersSafe()
      ensures p.card.reliable == old(p.card.reliable)
      ensures ok ==> HeaderSector(slot) < |p.card.live| && p.card.live[HeaderSector(slot)] == Sealed(h)
      ensures forall i :: 0 <= i < |p.card.live| && i != HeaderSector(slot) ==> p.card.live[i] == old(p.card.live[i])
      ensures p.card.reliable && HeaderSector(slot) < |p.card.live| ==> ok
      ensures !ok && HeaderSector(slot) < |p.card.live| && p.unsaved != {} ==> SaveCut(old(p.card), p.card, slot, h)
    {
      hide Holds, Safe;
      var data;
      ok, data := Read(p.card, HeaderSector(slot), 1);
      if ok && data[0] == Sealed(h) {
        return true;
      }
      ok := p.SaveHeader(slot, h);
    }

    /** Checks a credential against the open session without disturbing it on success. */
    method Reverify(p: Platform, candidate: Session, secret: seq<byte>) returns (r: Result, ghost header: Header)
      requires p.Valid() && this !in p.Owned() && candidate !in p.Owned() && candidate != this
      modifies this, candidate, p, p.authority, p.authority.otp, p.authority.chip
      ensures p.Valid()
      ensures Leads(old(p.authority.Durable()), p.authority.Durable(), p.authority.device)
      ensures old(Stopped(p.authority.Durable(), p.authority.device)) ==>
                Stopped(p.authority.Durable(), p.authority.device) && p.tried == old(p.tried) && p.evaluations == old(p.evaluations) && r != Success
      ensures old(p.HeadersSafe()) ==> p.HeadersSafe()
      ensures AnchorStays(old(p.authority.Durable()), p.authority.Durable(), p.authority.device)
      ensures r == Success ==> old(unlocked) && unlocked && vmk == old(vmk) && config == old(config)
      // The candidate opens the header that is anchored, and finds the session's key in it.
      ensures r == Success ==> exists t :: p.Governs(t) && t.status == Active && t.headerHash == HashOf(header)
      ensures r == Success ==>
                && header.config.generation == config.generation && header.config.volume.volume == config.volume.volume
                && OpenedBy(header, p.authority.otp.tokens[p.authority.tokenSlot], p.authority.tokenSlot, secret, vmk)
      ensures r != Success ==> !unlocked
      ensures !candidate.unlocked
      // Without faults the secret that carries the session's key is confirmed.
      ensures forall was, right :: old(unlocked && p.Workable(was, right))
                && right.config.generation == old(config.generation) && right.config.volume.volume == old(config.volume.volume)
                && old(OpenedBy(right, p.authority.otp.tokens[p.authority.tokenSlot], p.authority.tokenSlot, secret, vmk))
                ==> r == Success
    {
      hide Holds, Leads, Safe, Charged, Stopped, Step, Carries, OpenedBy, HeaderSafe, AnchorStays;
      hide Advances, Progress, Platform.Refused, Platform.Workable, Platform.Selectable;
      if !unlocked {
        candidate.Lock();
        LeadsStays(p.authority.Durable(), p.authority.device);
        AnchorUnmoved(p.authority.Durable(), p.authority.device);
        r, header := Denied, *;
        return;
      }
      ghost var state;
      ghost var token, slot := p.authority.otp.tokens[p.authority.tokenSlot], p.authority.tokenSlot;
      r, state, header := candidate.Unlock(p, secret, false);
      if r == Success && OpenedBy(header, token, slot, secret, vmk) {
        OpenedOnce(header, token, slot, secret, candidate.vmk, vmk);
      }
      if r == Success && (candidate.vmk != vmk || candidate.config.volume.volume != config.volume.volume
                          || candidate.config.generation != config.generation) {
        r := StateError;
      }
      candidate.Lock();
      if r != Success {
        Lock();
      }
    }

    /** Seals the same key under a new credential. The copy that is not anchored is written
        and synced first; then the anchor moves; then the other copy follows. */
    method ChangeCredential(p: Platform, current: seq<byte>, replacement: seq<byte>, profile: uint16, iterations: uint32,
                            policy: AuthPolicy, approved: bool, salt: nat, random: seq<Share>)
      returns (r: Result, ghost before: Header, ghost after: Header, ghost key: Share)
      requires p.Valid() && this !in p.Owned() && AllShares(random)
      modifies this, p, p.authority, p.authority.otp, p.authority.chip
      ensures p.Valid() && !unlocked
      ensures Leads(old(p.authority.Durable()), p.authority.Durable(), p.authority.device)
      ensures old(Stopped(p.authority.Durable(), p.authority.device)) ==>
                Stopped(p.authority.Durable(), p.authority.device) && p.tried == old(p.tried) && p.evaluations == old(p.evaluations)
      ensures old(p.HeadersSafe() && p.HeadersSaved()) ==> p.HeadersSafe()
      // What is renewed is the header that was anchored.
      ensures after != before || r in {Success, NeedsMirror} ==>
                exists s :: old(Holds(p.authority.Durable(), p.authority.device, s)) && s.status == Active && s.headerHash == HashOf(before)
      // A change that stopped after its first write: exactly when the old header is still safe.
      ensures r == IoError && after != before && HeaderSector(1) < |p.card.live| ==> p.SurvivesIfSaved(before)
      ensures forall t :: Holds(p.authority.Durable(), p.authority.device, t) && Live(t) ==>
                || (exists s :: old(Holds(p.authority.Durable(), p.authority.device, s)) && s.status == t.status && s.headerHash == t.headerHash)
                || (t.status == Active && t.headerHash == HashOf(after)
                    && OpenedBy(before, p.authority.otp.tokens[p.authority.tokenSlot], p.authority.tokenSlot, current, key)
                    && OpenedBy(after, p.authority.otp.tokens[p.authority.tokenSlot], p.authority.tokenSlot, replacement, key)
                    && Renewed(before.config, after.config, profile, iterations, policy))
      ensures r in {Success, NeedsMirror} ==>
                && OpenedBy(before, p.authority.otp.tokens[p.authority.tokenSlot], p.authority.tokenSlot, current, key)
                && OpenedBy(after, p.authority.otp.tokens[p.authority.tokenSlot], p.authority.tokenSlot, replacement, key)
                && Renewed(before.config, after.config, profile, iterations, policy)
      ensures r in {Success, NeedsMirror} ==>
                exists s :: p.Governs(s) && s.status == Active && s.headerHash == HashOf(after) && Matches(after.config, s)
      ensures r == Success ==> SureHeader(p.card, 0, HashOf(after)) && SureHeader(p.card, 1, HashOf(after))
      // Without faults the right secret may be replaced by any that a header can be made with.
      ensures forall was, right :: old(p.Workable(was, right) && p.Opens(right, current))
                && (approved || policy == was.policy) && old(p.Renewable(right.config, profile, iterations, policy, replacement, random))
                ==> r == Success
    {
      hide Holds, Leads, Safe, Charged, Stopped, Step, Carries, OpenedBy, SureHeader, HeaderSafe, CopiesSaved, Renewed, Platform.SurvivesIfSaved;
      hide Advances, Progress, Platform.Refused, Platform.Workable, Platform.Selectable, Platform.Renewable;
      ghost var from := p.authority.Durable();
      ghost var state;
      r, state, before := Unlock(p, current, false);
      after, key := before, vmk;
      KeepsHeaders(from, p.authority.Durable(), p);
      if r == Success {
        var header, next;
        r, header, next := p.Rekey(state, before, config, vmk, replacement, profile, iterations, policy, approved, salt, random, from);
        after := header;
      }
      Lock();
    }

    lemma KeepsHeaders(before: Media, after: Media, p: Platform)
      requires MediaShaped(before) && MediaShaped(after)
      ensures AnchorStays(before, after, p.authority.device) && CopiesSaved(before, p.authority.device, p.card, p.unsaved)
              ==> CopiesSaved(after, p.authority.device, p.card, p.unsaved)
    {
      hide Holds, SureHeader;
      if AnchorStays(before, after, p.authority.device) {
        AnchorKeepsHeaders(before, after, p.authority.device, p.card, p.unsaved);
      }
    }
  }

  // ---- The volume master key ----------------------------------------------

  /** The header carries this key for whatever secret opens it. */
  ghost predicate Carrier(h: Header, key: Share) {
    exists binding, secret :: Carries(h, binding, secret, key)
  }

  lemma CarriesOne(h: Header, binding: Binding, secret: seq<byte>, vmk: Share, key: Share)
    requires Carries(h, binding, secret, vmk) && Carrier(h, key)
    ensures vmk == key
  {
    hide Carries;
    var b, s :| Carries(h, b, s, key);
    OnlyItsSecretOpens(h, binding, secret, vmk, b, s, key);
  }

  ghost predicate SealsKey(hash: Hash, key: Share) {
    hash.HashOf? && Carrier(hash.header, key)
  }

  /** The vault is created, and while it is active the anchored header carries this key. */
  ghost predicate SealedKey(m: Media, device: nat, key: Share)
    requires MediaShaped(m)
  {
    forall s :: Holds(m, device, s) && Live(s) ==> s.status == Active && SealsKey(s.headerHash, key)
  }

  /** And an open session has it. */
  ghost predicate KeyKept(p: Platform, session: Session, key: Share)
    requires p.Valid()
    reads p, p.authority, p.authority.otp, p.authority.chip, session
  {
    SealedKey(p.authority.Durable(), p.authority.device, key) && (session.unlocked ==> session.vmk == key)
  }

  lemma KeyStays(before: Media, after: Media, device: nat, key: Share)
    requires MediaShaped(before) && MediaShaped(after) && AnchorStays(before, after, device) && SealedKey(before, device, key)
    ensures SealedKey(after, device, key)
  {
    hide Holds, SealsKey;
  }

  lemma OpenedIsKey(h: Header, token: Token, slot: nat, secret: seq<byte>, vmk: Share, key: Share)
    requires OpenedBy(h, token, slot, secret, vmk) && SealsKey(HashOf(h), key)
    ensures vmk == key
  {
    CarriesOne(h, BindingOf(token, slot, h.config.volume.volume), secret, vmk, key);
  }

  /** A secret opens a header to one key. */
  lemma OpenedOnce(h: Header, token: Token, slot: nat, secret: seq<byte>, vmk: Share, key: Share)
    requires OpenedBy(h, token, slot, secret, vmk) && OpenedBy(h, token, slot, secret, key)
    ensures vmk == key
  {
    OpenedSeals(h, token, slot, secret, key);
    OpenedIsKey(h, token, slot, secret, vmk, key);
  }

  lemma OpenedSeals(h: Header, token: Token, slot: nat, secret: seq<byte>, vmk: Share)
    requires OpenedBy(h, token, slot, secret, vmk)
    ensures SealsKey(HashOf(h), vmk)
  {
  }

  lemma SealStays(kept: bool, before: Media, p: Platform, key: Share)
    requires p.Valid() && MediaShaped(before) && AnchorStays(before, p.authority.Durable(), p.authority.device)
    requires kept ==> SealedKey(before, p.authority.device, key)
    ensures kept ==> SealedKey(p.authority.Durable(), p.authority.device, key)
  {
    hide Holds, AnchorStays, SealedKey, Safe, Charged;
    if kept {
      KeyStays(before, p.authority.Durable(), p.authority.device, key);
    }
  }

  lemma NotEmpty(m: Media, device: nat, key: Share)
    requires MediaShaped(m) && SealedKey(m, device, key)
    ensures forall s :: Holds(m, device, s) ==> s.status != EmptyVault
  {
    hide Holds, SealsKey;
  }

  /** Creating a vault seals the key it was given. */
  lemma CreatedKey(p: Platform, s: State, h: Header, secret: seq<byte>, key: Share)
    requires p.Valid() && p.Governs(s) && s.status == Active && s.headerHash == HashOf(h)
    requires OpenedBy(h, p.authority.otp.tokens[p.authority.tokenSlot], p.authority.tokenSlot, secret, key)
    ensures SealedKey(p.authority.Durable(), p.authority.device, key)
  {
    hide Holds, OpenedBy, SealsKey, Safe, Charged, MaskSafe, LogSafe;
    OpenedSeals(h, p.authority.otp.tokens[p.authority.tokenSlot], p.authority.tokenSlot, secret, key);
  }

  /** What an unlock finds. */
  lemma UnlockedKey(p: Platform, s: State, h: Header, secret: seq<byte>, vmk: Share, key: Share)
    requires p.Valid() && SealedKey(p.authority.Durable(), p.authority.device, key) && p.Governs(s)
    requires s.status == Active && s.headerHash == HashOf(h)
    requires OpenedBy(h, p.authority.otp.tokens[p.authority.tokenSlot], p.authority.tokenSlot, secret, vmk)
    ensures vmk == key
  {
    hide Holds, OpenedBy, SealsKey, Safe, Charged, MaskSafe, LogSafe;
    OpenedIsKey(h, p.authority.otp.tokens[p.authority.tokenSlot], p.authority.tokenSlot, secret, vmk, key);
  }

  /** What a change of the credential leaves, cut anywhere. */
  lemma ChangedKey(before: Media, p: Platform, current: seq<byte>, replacement: seq<byte>, b: Header, a: Header, k: Share, key: Share)
    requires p.Valid() && MediaShaped(before) && SealedKey(before, p.authority.device, key)
    requires a != b ==> exists s :: Holds(before, p.authority.device, s) && s.status == Active && s.headerHash == HashOf(b)
    requires forall t :: Holds(p.authority.Durable(), p.authority.device, t) && Live(t) ==>
      || (exists s :: Holds(before, p.authority.device, s) && s.status == t.status && s.headerHash == t.headerHash)
      || (t.status == Active && t.headerHash == HashOf(a) && a != b
          && OpenedBy(b, p.authority.otp.tokens[p.authority.tokenSlot], p.authority.tokenSlot, current, k)
          && OpenedBy(a, p.authority.otp.tokens[p.authority.tokenSlot], p.authority.tokenSlot, replacement, k))
    ensures SealedKey(p.authority.Durable(), p.authority.device, key)
  {
    hide Holds, OpenedBy, SealsKey, Safe, Charged, MaskSafe, LogSafe;
    var token, slot := p.authority.otp.tokens[p.authority.tokenSlot], p.authority.tokenSlot;
    forall t | Holds(p.authority.Durable(), p.authority.device, t) && Live(t)
      ensures t.status == Active && SealsKey(t.headerHash, key)
    {
      if !(exists s :: Holds(before, p.authority.device, s) && s.status == t.status && s.headerHash == t.headerHash) {
        OpenedIsKey(b, token, slot, current, k, key);
        OpenedSeals(a, token, slot, replacement, k);
      }
    }
  }

  // ---- Whole lifetimes -----------------------------------------------------

  /** Whatever was tried so far stays within the policy's limit. */
  lemma EvaluationsBounded(p: Platform, s: State)
    requires p.Valid() && Holds(p.authority.Durable(), p.authority.device, s) && Live(s)
    ensures p.evaluations <= s.attempts <= s.policy.maxAttempts
  {
    LoadedEncodableHere(p.authority.Durable(), p.authority.device, s);
  }

  lemma LoadedEncodableHere(m: Media, device: nat, s: State)
    requires MediaShaped(m) && Holds(m, device, s)
    ensures Encodable(s, device)
  {
    hide FlashJournal.Loads, SlotState;
    var a: nat :| UsableSlot(m.mask, a) && FlashJournal.Loads(KeyFor(m.tokens, a, device), device, m.pages, FlashJournal.Ok(s));
    LoadedEncodable(KeyFor(m.tokens, a, device), device, m.pages);
  }

  datatype Request =
    | Reset
    | RecoverOnly
    | TryDestruction
    | TryUnlock(secret: seq<byte>)
    | TryReverify(secret: seq<byte>)
    | TryCreate(volume: VolumeFormat.Descriptor, profile: uint16, iterations: uint32, policy: AuthPolicy,
                secret: seq<byte>, key: Share, salt: nat, random: seq<Share>)
    | TryChange(current: seq<byte>, replacement: seq<byte>, profile: uint16, iterations: uint32, policy: AuthPolicy,
                approved: bool, salt: nat, random: seq<Share>)

  predicate WellFormed(q: Request) {
    && (q.TryCreate? ==> |q.key| == SHARE_BYTES && AllShares(q.random) && q.volume.version == 2)
    && (q.TryChange? ==> AllShares(q.random))
  }

  /** Any sequence of requests, power cuts and faults: evaluations stay charged throughout,
      and once no live state governs, none ever happens again. However often the credential
      changes, a created vault keeps its master key, in its anchored header and in every
      session. A careful caller does not change the credential while its last save is
      doubtful; then a copy of the anchored header survives the whole run. */
  method Lifetime(p: Platform, session: Session, requests: seq<Request>, careful: bool, ghost key: Share)
    requires p.Valid() && session !in p.Owned()
    requires forall q :: q in requests ==> WellFormed(q)
    modifies session, p, p.authority, p.authority.otp, p.authority.chip
    ensures p.Valid()
    ensures Leads(old(p.authority.Durable()), p.authority.Durable(), p.authority.device)
    ensures forall s :: Holds(p.authority.Durable(), p.authority.device, s) && Live(s) ==>
              p.evaluations <= s.attempts <= s.policy.maxAttempts
    ensures old(Stopped(p.authority.Durable(), p.authority.device)) ==>
              Stopped(p.authority.Durable(), p.authority.device) && p.tried == old(p.tried) && p.evaluations == old(p.evaluations)
    ensures careful && old(p.HeadersSafe()) ==> p.HeadersSafe()
    ensures old(KeyKept(p, session, key)) ==> KeyKept(p, session, key)
  {
    hide Holds, Leads, Safe, Charged, Stopped, HeaderSafe, SealedKey;
    ghost var from := p.authority.Durable();
    LeadsStays(from, p.authority.device);
    for i := 0 to |requests|
      invariant p.Valid()
      invariant Leads(from, p.authority.Durable(), p.authority.device)
      invariant old(Stopped(p.authority.Durable(), p.authority.device)) ==>
                  Stopped(p.authority.Durable(), p.authority.device) && p.tried == old(p.tried) && p.evaluations == old(p.evaluations)
      invariant careful && old(p.HeadersSafe()) ==> p.HeadersSafe()
      invariant old(KeyKept(p, session, key)) ==> KeyKept(p, session, key)
    {
      ghost var before := p.authority.Durable();
      Serve(p, session, requests[i], careful, key);
      LeadsJoin(from, before, p.authority.Durable(), p.authority.device);
    }
    forall s | Holds(p.authority.Durable(), p.authority.device, s) && Live(s)
      ensures p.evaluations <= s.attempts <= s.policy.maxAttempts
    {
      EvaluationsBounded(p, s);
    }
  }

  method Serve(p: Platform, session: Session, q: Request, careful: bool, ghost key: Share)
    requires p.Valid() && session !in p.Owned() && WellFormed(q)
    modifies session, p, p.authority, p.authority.otp, p.authority.chip
    ensures p.Valid()
    ensures Leads(old(p.authority.Durable()), p.authority.Durable(), p.authority.device)
    ensures old(Stopped(p.authority.Durable(), p.authority.device)) ==>
              Stopped(p.authority.Durable(), p.authority.device) && p.tried == old(p.tried) && p.evaluations == old(p.evaluations)
    ensures careful && old(p.HeadersSafe()) ==> p.HeadersSafe()
    ensures old(KeyKept(p, session, key)) ==> KeyKept(p, session, key)
  {
    hide Holds, Leads, Safe, Charged, Stopped, OpenedBy, AnchorStays, HeaderSafe, SureHeader, Step, StateValid, Tracked;
    hide SealedKey, SealsKey;
    ghost var before := p.authority.Durable();
    ghost var kept := KeyKept(p, session, key);
    LeadsStays(before, p.authority.device);
    match q {
      case Reset => PowerLost(p, session);
      case RecoverOnly =>
        var r, s := p.Recover(before);
        AdvancesAnchor(before, p.authority.Durable(), p.authority.device);
        AnchorKeepsHeaders(before, p.authority.Durable(), p.authority.device, p.card, p.unsaved);
        SealStays(kept, before, p, key);
      case TryDestruction =>
        RequestDestruction(p);
        SealStays(kept, before, p, key);
      case TryUnlock(secret) =>
        var r, state, header := session.Unlock(p, secret, true);
        SealStays(kept, before, p, key);
        if kept && session.unlocked {
          UnlockedKey(p, state, header, secret, session.vmk, key);
        }
      case TryReverify(secret) =>
        var candidate := new Session();
        var r, header := session.Reverify(p, candidate, secret);
        SealStays(kept, before, p, key);
      case TryCreate(volume, profile, iterations, policy, secret, newKey, salt, random) =>
        var r, header, next := p.Create(volume, profile, iterations, policy, secret, newKey, salt, random);
        if kept {
          NotEmpty(before, p.authority.device, key);
          SealStays(kept, before, p, key);
        }
      case TryChange(current, replacement, profile, iterations, policy, approved, salt, random) =>
        if !careful || !p.doubtful {
          var r, b, a, k := session.ChangeCredential(p, current, replacement, profile, iterations, policy, approved, salt, random);
          if kept {
            ChangedKey(before, p, current, replacement, b, a, k, key);
          }
        }
    }
  }

  method RequestDestruction(p: Platform)
    requires p.Valid()
    modifies p.authority, p.authority.otp, p.authority.chip
    ensures p.Valid()
    ensures Leads(old(p.authority.Durable()), p.authority.Durable(), p.authority.device)
    ensures old(Stopped(p.authority.Durable(), p.authority.device)) ==> Stopped(p.authority.Durable(), p.authority.device)
    ensures old(p.HeadersSafe()) ==> p.HeadersSafe()
    ensures AnchorStays(old(p.authority.Durable()), p.authority.Durable(), p.authority.device)
  {
    hide Holds, Leads, MaskSafe, LogSafe, Step, SureHeader;
    ghost var before := p.authority.Durable();
    LeadsStays(before, p.authority.device);
    var ok := p.authority.RequestDestruction();
    LeadsBy(before, before, p.authority.Durable(), p.authority.device);
  }

  /** Power is lost: the card settles, the session is gone, and enrollment is opened again. */
  method PowerLost(p: Platform, session: Session)
    requires p.Valid() && session !in p.Owned()
    modifies session, p`card, p`doubtful, p`unsaved, p.authority
    ensures p.Valid() && p.authority.Durable() == old(p.authority.Durable()) && p.tried == old(p.tried) && p.evaluations == old(p.evaluations)
    ensures !session.unlocked && CrashImage(old(p.card), p.card.live)
    ensures old(p.HeadersSafe()) ==> p.HeadersSafe()
    ensures !p.doubtful
  {
    hide Holds, Safe, Charged;
    session.Lock();
    ghost var before := p.card;
    p.card := PowerCycle(p.card);
    p.unsaved, p.doubtful := {}, false;
    SureAfterPowerLoss(before, p.card);
    var r := p.authority.Open();
  }

  lemma SureAfterPowerLoss(before: Disk, after: Disk)
    requires DiskValid(before) && DiskValid(after) && after.unsynced == map[] && CrashImage(before, after.live)
    ensures forall i: nat, x :: Sure(before, i, x) ==> Sure(after, i, x)
    ensures forall i: nat :: i < |after.live| ==> Sure(after, i, after.live[i])
  {
    forall i: nat | i < |after.live|
      ensures Sure(after, i, after.live[i])
    {
      OnlyOneValue(after.durable[i]);
      assert MayHold(after, i, after.live[i]);
    }
    forall i: nat, x | Sure(before, i, x)
      ensures Sure(after, i, x)
    {
      SureIsRead(before, i, x);
    }
  }
}
