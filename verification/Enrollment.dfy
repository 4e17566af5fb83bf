// Token slots and the state log they key (src/shared/security/enrollment.c).
//
// A slot is claimed, filled, made usable and later revoked by setting mask bits; its
// token keys the log. The order of those writes is what every cut relies on.
module Enrollment {
  import opened Bytes
  import opened DeviceState
  import opened FlashJournal
  import opened Keys
  import opened Limits
  import opened Options
  import opened Otp
  import opened Policy

  /** Everything that survives a reset. */
  datatype Media = Media(mask: seq<bv24>, tokens: seq<Token>, pages: seq<Page>)

  predicate MediaShaped(m: Media) {
    Shaped(m.mask, m.tokens) && |m.pages| == PAGES
  }

  function KeyFor(tokens: seq<Token>, slot: nat, device: nat): Key
    requires slot < |tokens|
  {
    JournalKey(tokens[slot], slot, device)
  }

  predicate UsableSlot(mask: seq<bv24>, slot: nat)
    requires |mask| == MASK_ROWS
  {
    slot < TOKEN_SLOTS && SlotState(mask, slot) == Usable
  }

  /** No two slots compete: at most one is usable, and never beside one being set up or revoked. */
  ghost predicate MaskSafe(mask: seq<bv24>)
    requires |mask| == MASK_ROWS
  {
    && (forall a :: 0 <= a < TOKEN_SLOTS ==> SlotState(mask, a) != Malformed)
    && forall a, b :: 0 <= a < TOKEN_SLOTS && 0 <= b < TOKEN_SLOTS && a != b && SlotState(mask, a) == Usable ==>
         SlotState(mask, b) in {Unused, Revoked}
  }

  /** A usable slot always finds its log, which is never empty. */
  ghost predicate LogSafe(m: Media, device: nat)
    requires MediaShaped(m)
  {
    forall a: nat :: UsableSlot(m.mask, a) ==>
      && Coherent(KeyFor(m.tokens, a, device), device, m.pages)
      && !Loads(KeyFor(m.tokens, a, device), device, m.pages, Empty)
  }

  ghost predicate Safe(m: Media, device: nat) {
    MediaShaped(m) && MaskSafe(m.mask) && LogSafe(m, device)
  }

  /** The state that durably governs the vault: what the usable slot's log answers. */
  ghost predicate Holds(m: Media, device: nat, s: State)
    requires MediaShaped(m)
  {
    exists a: nat :: UsableSlot(m.mask, a) && Loads(KeyFor(m.tokens, a, device), device, m.pages, Ok(s))
  }

  /** There is at most one such state. */
  lemma HoldsOne(m: Media, device: nat, s: State, t: State)
    requires MediaShaped(m) && MaskSafe(m.mask)
    requires Holds(m, device, s) && Holds(m, device, t)
    ensures s == t
  {
    hide Loads, SlotState;
    var a: nat :| UsableSlot(m.mask, a) && Loads(KeyFor(m.tokens, a, device), device, m.pages, Ok(s));
    var b: nat :| UsableSlot(m.mask, b) && Loads(KeyFor(m.tokens, b, device), device, m.pages, Ok(t));
    LoadsIsFunctional(KeyFor(m.tokens, a, device), device, m.pages, Ok(s), Ok(t));
  }

  /** The order in which a slot's states can follow each other. */
  predicate Reaches(from: MaskState, to: MaskState) {
    || from == to
    || from == Unused
    || (from == Started && to in {Usable, Revoking, Revoked})
    || (from in {Usable, Revoking} && to == Revoked)
  }

  ghost predicate MaskGrows(before: seq<bv24>, after: seq<bv24>)
    requires |before| == |after| == MASK_ROWS
  {
    forall a :: 0 <= a < TOKEN_SLOTS ==> Reaches(SlotState(before, a), SlotState(after, a))
  }

  predicate TokenGrows(before: Token, after: Token) {
    |before| == |after| && forall i :: 0 <= i < |before| ==> Subset(before[i], after[i])
  }

  ghost predicate TokensGrow(before: seq<Token>, after: seq<Token>) {
    |before| == |after| && forall a :: 0 <= a < |before| ==> TokenGrows(before[a], after[a])
  }

  /** While a slot is usable its token stays and its log changes only by commits under its key. */
  ghost predicate LogStep(before: Media, after: Media, device: nat)
    requires MediaShaped(before) && MediaShaped(after)
  {
    forall a: nat :: UsableSlot(before.mask, a) ==>
      && (UsableSlot(after.mask, a) ==> after.tokens[a] == before.tokens[a])
      && (before.pages == after.pages
          || exists s :: Outcome(KeyFor(before.tokens, a, device), device, before.pages, after.pages, s))
  }

  /** What any operation does to the memories, wherever it is cut. */
  ghost predicate Step(before: Media, after: Media, device: nat)
    requires MediaShaped(before)
  {
    && MediaShaped(after)
    && MaskGrows(before.mask, after.mask)
    && TokensGrow(before.tokens, after.tokens)
    && LogStep(before, after, device)
  }

  ghost predicate StaysSafe(before: Media, after: Media, device: nat)
    requires MediaShaped(before) && MediaShaped(after)
  {
    && (MaskSafe(before.mask) ==> MaskSafe(after.mask))
    && (Safe(before, device) ==> Safe(after, device))
  }

  /** Done with for good: revoked and burned, or passed over because its rows were occupied. */
  predicate Retired(mask: seq<bv24>, tokens: seq<Token>, slot: nat)
    requires Shaped(mask, tokens) && slot < TOKEN_SLOTS
  {
    || (SlotState(mask, slot) == Revoked && BurnedToken(tokens[slot]))
    || (SlotState(mask, slot) == Unused && !BlankToken(tokens[slot]))
  }

  /** Slots are used in ascending order, each one only when all before it are retired. */
  ghost predicate Orderly(m: Media)
    requires MediaShaped(m)
  {
    forall a: nat, b: nat :: a < b < TOKEN_SLOTS && SlotState(m.mask, b) != Unused ==> Retired(m.mask, m.tokens, a)
  }

  lemma RowsGrow(u: bv24, v: bv24)
    requires Subset(u, v)
    ensures u == BURNED ==> v == BURNED
    ensures u != 0 ==> v != 0
  {
  }

  lemma StaysRetired(before: Media, after: Media, slot: nat)
    requires MediaShaped(before) && MediaShaped(after) && slot < TOKEN_SLOTS
    requires MaskGrows(before.mask, after.mask) && TokensGrow(before.tokens, after.tokens)
    requires SlotState(before.mask, slot) == Unused ==> SlotState(after.mask, slot) == Unused
    ensures Retired(before.mask, before.tokens, slot) ==> Retired(after.mask, after.tokens, slot)
  {
    hide SlotState, Subset;
    var t, u := before.tokens[slot], after.tokens[slot];
    assert TokenGrows(t, u);
    forall i | 0 <= i < |t|
      ensures t[i] == BURNED ==> u[i] == BURNED
      ensures t[i] != 0 ==> u[i] != 0
    {
      RowsGrow(t[i], u[i]);
    }
  }

  /** Nothing that leaves untouched slots untouched upsets the order. */
  lemma OrderKept(before: Media, after: Media)
    requires MediaShaped(before) && MediaShaped(after)
    requires MaskGrows(before.mask, after.mask) && TokensGrow(before.tokens, after.tokens)
    requires forall a :: 0 <= a < TOKEN_SLOTS && SlotState(before.mask, a) == Unused ==> SlotState(after.mask, a) == Unused
    ensures Orderly(before) ==> Orderly(after)
  {
    hide SlotState, Subset;
    forall a: nat | a < TOKEN_SLOTS {
      StaysRetired(before, after, a);
    }
  }

  /** Nor does claiming the first slot that is not retired. */
  lemma OrderExtended(before: Media, after: Media, slot: nat)
    requires MediaShaped(before) && MediaShaped(after) && slot < TOKEN_SLOTS
    requires MaskGrows(before.mask, after.mask) && TokensGrow(before.tokens, after.tokens)
    requires forall a :: 0 <= a < TOKEN_SLOTS && a != slot ==> SlotState(after.mask, a) == SlotState(before.mask, a)
    requires SlotState(before.mask, slot) == Unused && BlankToken(before.tokens[slot])
    requires forall a: nat :: a < slot ==> Retired(before.mask, before.tokens, a)
    ensures Orderly(before) ==> Orderly(after)
  {
    hide SlotState, Subset;
    assert !Retired(before.mask, before.tokens, slot);
    forall a: nat | a < slot {
      StaysRetired(before, after, a);
    }
  }

  /** So burning the highest revoked slot, which is the one an open finds, burns every one. */
  lemma LastBurnIsEnough(m: Media, last: nat)
    requires MediaShaped(m) && Orderly(m) && LastRevoked(m.mask, Some(last)) && BurnedToken(m.tokens[last])
    ensures forall a :: 0 <= a < TOKEN_SLOTS && SlotState(m.mask, a) == Revoked ==> BurnedToken(m.tokens[a])
  {
    hide SlotState;
    forall a: nat | a < TOKEN_SLOTS && SlotState(m.mask, a) == Revoked
      ensures BurnedToken(m.tokens[a])
    {
      if a < last {
        assert Retired(m.mask, m.tokens, a);
      }
    }
  }

  lemma CodeFits(to: MaskState)
    ensures Code(to) & 7 == Code(to)
    ensures to != Malformed ==> Classify(Code(to)) == to
  {
  }

  lemma CodeOf(bits: bv24, to: MaskState)
    ensures (Move(Classify(bits), to) || Classify(bits) == to) && to != Malformed ==> Subset(bits, Code(to))
    ensures Classify(bits) == to && to != Malformed ==> bits == Code(to)
  {
    match Classify(bits)
    case Unused => assert bits == 0;
    case Started => assert bits == 4;
    case Usable => assert bits == 6;
    case Revoking => assert bits == 5;
    case Revoked => assert bits == 7;
    case Malformed =>
  }

  lemma MoveFits(row: bv24, k: nat, to: MaskState)
    requires k < 8
    ensures Move(Classify(MaskField(row, k)), to) || Classify(MaskField(row, k)) == to ==>
              to == Malformed || Subset(MaskField(row, k), Code(to))
    ensures Classify(MaskField(row, k)) == to && to != Malformed ==> WithField(row, k, Code(to)) == row
    ensures to != Malformed ==> MaskField(WithField(row, k, Code(to)), k) == Code(to)
    ensures to != Malformed && Subset(MaskField(row, k), Code(to)) ==> Program(row, WithField(row, k, Code(to))) == WithField(row, k, Code(to))
  {
    hide MaskField, WithField, Torn, Subset, Code, Classify, Program;
    FieldUnchanged(row, k);
    CodeFits(to);
    CodeOf(MaskField(row, k), to);
    FieldOfPlaced(row, Code(to), k);
    if Subset(MaskField(row, k), Code(to)) {
      FieldProgrammed(row, k, Code(to));
    }
  }

  lemma RowWritten(mask: seq<bv24>, slot: nat, to: MaskState, after: bv24)
    requires |mask| == MASK_ROWS && slot < TOKEN_SLOTS && to != Malformed
    requires Move(SlotState(mask, slot), to)
    requires Torn(mask[slot / 8], WithField(mask[slot / 8], slot % 8, Code(to)), after)
    ensures SlotState(mask[slot / 8 := after], slot) in {SlotState(mask, slot), to}
    ensures after == WithField(mask[slot / 8], slot % 8, Code(to)) ==> SlotState(mask[slot / 8 := after], slot) == to
    ensures forall a :: 0 <= a < TOKEN_SLOTS && a != slot ==> SlotState(mask[slot / 8 := after], a) == SlotState(mask, a)
  {
    hide MaskField, WithField, Torn;
    var row, k := mask[slot / 8], slot % 8;
    CodeFits(to);
    MoveFits(row, k, to);
    TornGainsBits(row, k, Code(to), after);
    MoveIsAtomic(MaskField(row, k), to, MaskField(after, k));
    FieldOfPlaced(row, Code(to), k);
    forall a | 0 <= a < TOKEN_SLOTS && a != slot
      ensures SlotState(mask[slot / 8 := after], a) == SlotState(mask, a)
    {
      if a / 8 == slot / 8 {
        TornKeepsNeighbours(row, k, Code(to), after, a % 8);
      }
    }
  }

  /** The highest revoked slot, if any. */
  ghost predicate LastRevoked(mask: seq<bv24>, last: Option<nat>)
    requires |mask| == MASK_ROWS
  {
    && (last.Some? ==> last.value < TOKEN_SLOTS && SlotState(mask, last.value) == Revoked)
    && forall a :: 0 <= a < TOKEN_SLOTS && SlotState(mask, a) == Revoked ==> last.Some? && a <= last.value
  }

  lemma RowKept(tokens: seq<Token>, slot: nat, row: nat)
    requires slot < |tokens| && row < |tokens[slot]|
    ensures tokens == tokens[slot := tokens[slot][row := tokens[slot][row]]]
    ensures Subset(tokens[slot][row], tokens[slot][row])
  {
    assert tokens[slot] == tokens[slot][row := tokens[slot][row]];
  }

  lemma Burning(v: bv24)
    ensures Program(v, BURNED) == BURNED
  {
  }

  lemma SubsetOrder()
    ensures forall a: bv24 :: Subset(a, a)
    ensures forall a: bv24, b: bv24, c: bv24 :: Subset(a, b) && Subset(b, c) ==> Subset(a, c)
  {
  }

  ghost predicate NoneUsable(mask: seq<bv24>)
    requires |mask| == MASK_ROWS
  {
    forall a :: 0 <= a < TOKEN_SLOTS ==> SlotState(mask, a) != Usable
  }

  /** Some slot is revoked and none is in any other use. */
  ghost predicate OnlyRevoked(mask: seq<bv24>)
    requires |mask| == MASK_ROWS
  {
    && (forall a :: 0 <= a < TOKEN_SLOTS ==> SlotState(mask, a) in {Unused, Revoked})
    && exists a :: 0 <= a < TOKEN_SLOTS && SlotState(mask, a) == Revoked
  }

  ghost predicate Untouched(mask: seq<bv24>)
    requires |mask| == MASK_ROWS
  {
    forall a :: 0 <= a < TOKEN_SLOTS ==> SlotState(mask, a) == Unused
  }

  /** Some slot was left behind by a setup or a revocation that never ended. */
  ghost predicate Interrupted(mask: seq<bv24>)
    requires |mask| == MASK_ROWS
  {
    exists a :: 0 <= a < TOKEN_SLOTS && SlotState(mask, a) in {Started, Revoking}
  }

  ghost predicate AllTokensBlank(tokens: seq<Token>) {
    forall a :: 0 <= a < |tokens| ==> BlankToken(tokens[a])
  }

  ghost predicate AllPagesBlank(pages: seq<Page>) {
    forall i :: 0 <= i < |pages| ==> pages[i] == Blank
  }

  /** An untouched slot is left whose rows nobody has written. */
  ghost predicate SlotLeft(m: Media)
    requires MediaShaped(m)
  {
    exists a :: 0 <= a < TOKEN_SLOTS && SlotState(m.mask, a) == Unused && BlankToken(m.tokens[a])
  }

  /** The slot s names is usable, and s is what its log answers. */
  ghost predicate Presents(m: Media, device: nat, s: State)
    requires MediaShaped(m)
  {
    && UsableSlot(m.mask, s.tokenSlot) && s.status != Destroyed
    && Loads(KeyFor(m.tokens, s.tokenSlot, device), device, m.pages, Ok(s))
  }

  lemma NoneUsableHere(mask: seq<bv24>)
    requires |mask| == MASK_ROWS && forall a: nat :: !UsableSlot(mask, a)
    ensures NoneUsable(mask)
  {
    forall a | 0 <= a < TOKEN_SLOTS
      ensures SlotState(mask, a) != Usable
    {
      assert !UsableSlot(mask, a);
    }
  }

  lemma BlankMaskUnused(mask: seq<bv24>)
    requires |mask| == MASK_ROWS && forall r :: 0 <= r < MASK_ROWS ==> mask[r] == 0
    ensures forall a :: 0 <= a < TOKEN_SLOTS ==> SlotState(mask, a) == Unused
  {
    forall k | 0 <= k < 8
      ensures MaskField(0, k) == 0
    {
    }
  }

  lemma UntouchedBefore(before: seq<bv24>, after: seq<bv24>, slot: nat)
    requires |before| == |after| == MASK_ROWS && slot < TOKEN_SLOTS && MaskGrows(before, after)
    ensures SlotState(after, slot) == Unused ==> SlotState(before, slot) == Unused
  {
    hide SlotState;
  }

  lemma TokensStay(tokens: seq<Token>)
    ensures TokensGrow(tokens, tokens)
  {
    hide Subset;
    SubsetOrder();
  }

  lemma TokensGrowOn(a: seq<Token>, b: seq<Token>, c: seq<Token>)
    requires TokensGrow(a, b) && TokensGrow(b, c)
    ensures TokensGrow(a, c)
  {
    hide Subset;
    SubsetOrder();
    forall i | 0 <= i < |a|
      ensures TokenGrows(a[i], c[i])
    {
      assert TokenGrows(a[i], b[i]) && TokenGrows(b[i], c[i]);
    }
  }

  lemma MaskGrowsOn(a: seq<bv24>, b: seq<bv24>, c: seq<bv24>)
    requires |a| == |b| == |c| == MASK_ROWS && MaskGrows(a, b) && MaskGrows(b, c)
    ensures MaskGrows(a, c)
  {
    hide MaskField;
  }

  lemma StepStays(m: Media, device: nat)
    requires MediaShaped(m)
    ensures Step(m, m, device) && StaysSafe(m, m, device)
  {
    TokensStay(m.tokens);
  }

  /** With no usable slot the log belongs to nobody. */
  lemma StepWithoutUsable(before: Media, after: Media, device: nat)
    requires MediaShaped(before) && MediaShaped(after) && NoneUsable(before.mask) && NoneUsable(after.mask)
    requires MaskGrows(before.mask, after.mask) && TokensGrow(before.tokens, after.tokens)
    requires MaskSafe(before.mask) ==> MaskSafe(after.mask)
    ensures Step(before, after, device) && StaysSafe(before, after, device)
  {
  }

  lemma BlankLog(key: Key, device: nat, pages: seq<Page>)
    requires |pages| == PAGES && AllPagesBlank(pages)
    ensures Loads(key, device, pages, Empty) && Coherent(key, device, pages)
  {
  }

  function FirstState(slot: nat, device: nat): State
    requires slot < TOKEN_SLOTS
  {
    State(EmptyVault, 1, device, NO_VOLUME, 0, ZeroHash, 0, false, slot, DEFAULT_POLICY)
  }

  /** A device that has just been set up: no vault yet, and until one is created the tenth wrong
      secret would destroy it, five idle minutes would lock it and its screen stays on. */
  predicate Newborn(s: State, slot: nat, device: nat) {
    && s.status == EmptyVault && s.sequence == 1 && s.device == device && s.tokenSlot == slot
    && s.generation == 0 && s.attempts == 0 && !s.pending
    && s.policy == AuthPolicy(10, LimitAction.Destroy, 300, 0)
  }

  /** With every slot untouched or retired but the given one, the mask is safe. */
  lemma OneSlot(mask: seq<bv24>, slot: nat)
    requires |mask| == MASK_ROWS && slot < TOKEN_SLOTS
    requires forall a :: 0 <= a < TOKEN_SLOTS && a != slot ==> SlotState(mask, a) in {Unused, Revoked}
    requires SlotState(mask, slot) != Malformed
    ensures MaskSafe(mask)
    ensures SlotState(mask, slot) != Usable ==> NoneUsable(mask)
  {
    hide MaskField;
  }

  /** A slot that has just become usable on top of a loadable log. */
  lemma StepMadeUsable(before: Media, after: Media, slot: nat, device: nat)
    requires MediaShaped(before) && MediaShaped(after) && slot < TOKEN_SLOTS && NoneUsable(before.mask)
    requires MaskGrows(before.mask, after.mask) && TokensGrow(before.tokens, after.tokens)
    requires MaskSafe(after.mask)
    requires forall a :: 0 <= a < TOKEN_SLOTS && a != slot ==> SlotState(after.mask, a) != Usable
    requires Coherent(KeyFor(after.tokens, slot, device), device, after.pages)
    requires Loads(KeyFor(after.tokens, slot, device), device, after.pages, Ok(FirstState(slot, device)))
    ensures Step(before, after, device) && StaysSafe(before, after, device)
  {
    hide MaskField, Loads, Coherent, TokensGrow;
    LoadsExcludes(KeyFor(after.tokens, slot, device), device, after.pages, Ok(FirstState(slot, device)));
  }

  /** A commit under the usable slot's key. */
  lemma StepCommitted(before: Media, after: Media, slot: nat, device: nat, s: State)
    requires MediaShaped(before) && MediaShaped(after) && UsableSlot(before.mask, slot)
    requires before.mask == after.mask && before.tokens == after.tokens
    requires var key := KeyFor(before.tokens, slot, device);
      Outcome(key, device, before.pages, after.pages, s)
      && (Coherent(key, device, before.pages) ==> Coherent(key, device, after.pages))
    ensures MaskSafe(before.mask) ==> Step(before, after, device) && StaysSafe(before, after, device)
  {
    hide MaskField, Coherent, Loads, Outcome;
    TokensStay(before.tokens);
    if MaskSafe(before.mask) {
      assert forall a: nat :: UsableSlot(before.mask, a) ==> a == slot;
      NotEmptied(KeyFor(before.tokens, slot, device), device, before.pages, after.pages, s);
    }
  }

  lemma LoadedEncodable(key: Key, device: nat, pages: seq<Page>)
    requires |pages| == PAGES
    ensures forall s :: Loads(key, device, pages, Ok(s)) ==> Encodable(s, device)
  {
  }

  /** After an attempt to commit s, what governs is s or what governed before. */
  lemma HoldsCommitted(before: Media, after: Media, slot: nat, device: nat, s: State)
    requires MediaShaped(before) && MediaShaped(after) && UsableSlot(before.mask, slot) && MaskSafe(before.mask)
    requires before.mask == after.mask && before.tokens == after.tokens
    requires Outcome(KeyFor(before.tokens, slot, device), device, before.pages, after.pages, s)
    ensures forall t :: Holds(after, device, t) ==> t == s || Holds(before, device, t)
  {
    hide Loads, SlotState;
    forall t | Holds(after, device, t)
      ensures t == s || Holds(before, device, t)
    {
      var a: nat :| UsableSlot(after.mask, a) && Loads(KeyFor(after.tokens, a, device), device, after.pages, Ok(t));
      assert a == slot;
      assert UsableSlot(before.mask, slot);
    }
  }

  lemma NotEmptied(key: Key, device: nat, before: seq<Page>, after: seq<Page>, s: State)
    requires |before| == |after| == PAGES && Outcome(key, device, before, after, s)
    ensures !Loads(key, device, before, Empty) ==> !Loads(key, device, after, Empty)
  {
    hide Loads;
  }

  /** Revoking the usable slot and burning its token. */
  lemma StepRevoked(before: Media, after: Media, slot: nat, device: nat)
    requires MediaShaped(before) && MediaShaped(after) && slot < TOKEN_SLOTS && before.pages == after.pages
    requires SlotState(before.mask, slot) in {Usable, Revoked} && SlotState(after.mask, slot) in {SlotState(before.mask, slot), Revoked}
    requires forall a :: 0 <= a < TOKEN_SLOTS && a != slot ==> SlotState(after.mask, a) == SlotState(before.mask, a)
    requires after.tokens == before.tokens[slot := after.tokens[slot]] && TokenGrows(before.tokens[slot], after.tokens[slot])
    requires SlotState(after.mask, slot) == Usable ==> after.tokens == before.tokens
    ensures Step(before, after, device) && StaysSafe(before, after, device)
    ensures forall a: nat :: UsableSlot(after.mask, a) ==> UsableSlot(before.mask, a) && after.tokens[a] == before.tokens[a]
  {
    hide MaskField, Coherent, Loads, Outcome;
    TokensStay(before.tokens);
    assert forall a: nat :: UsableSlot(after.mask, a) ==> UsableSlot(before.mask, a) && after.tokens[a] == before.tokens[a];
  }

  lemma HoldsAfterRevoking(before: Media, after: Media, slot: nat, device: nat)
    requires MediaShaped(before) && MediaShaped(after) && slot < TOKEN_SLOTS && before.pages == after.pages
    requires forall a: nat :: UsableSlot(after.mask, a) ==> UsableSlot(before.mask, a) && after.tokens[a] == before.tokens[a]
    ensures forall t :: Holds(after, device, t) ==> Holds(before, device, t)
  {
    hide Loads, SlotState;
  }

  /** A commit followed by steps that leave the log alone. */
  lemma StepOn(a: Media, b: Media, c: Media, device: nat)
    requires MediaShaped(a) && Step(a, b, device) && Step(b, c, device) && b.pages == c.pages
    ensures Step(a, c, device)
  {
    hide MaskField, Coherent, Loads, Outcome, Safe;
    TokensGrowOn(a.tokens, b.tokens, c.tokens);
  }

  // ---- Runs ----------------------------------------------------------------

  /** A run: any operations, each cut anywhere, with resets between them. */
  ghost predicate IsMediaRun(run: seq<Media>, device: nat) {
    && |run| > 0 && MediaShaped(run[0])
    && forall k :: 0 <= k < |run| - 1 ==> MediaShaped(run[k]) && Step(run[k], run[k + 1], device)
  }

  /** Some run of operations takes the first media to the second. */
  ghost predicate Leads(before: Media, after: Media, device: nat) {
    exists run :: IsMediaRun(run, device) && run[0] == before && run[|run| - 1] == after
  }

  lemma LeadsStays(m: Media, device: nat)
    requires MediaShaped(m)
    ensures Leads(m, m, device)
  {
    assert IsMediaRun([m], device);
  }

  lemma LeadsBy(a: Media, b: Media, c: Media, device: nat)
    requires MediaShaped(b) && Leads(a, b, device) && Step(b, c, device)
    ensures Leads(a, c, device)
  {
    hide Step;
    var run :| IsMediaRun(run, device) && run[0] == a && run[|run| - 1] == b;
    assert IsMediaRun(run + [c], device);
  }

  lemma LeadsJoin(a: Media, b: Media, c: Media, device: nat)
    requires Leads(a, b, device) && Leads(b, c, device)
    ensures Leads(a, c, device)
  {
    hide Step;
    var one :| IsMediaRun(one, device) && one[0] == a && one[|one| - 1] == b;
    var two :| IsMediaRun(two, device) && two[0] == b && two[|two| - 1] == c;
    var run := one + two[1..];
    forall k | 0 <= k < |run| - 1
      ensures MediaShaped(run[k]) && Step(run[k], run[k + 1], device)
    {
      if k < |one| - 1 {
        assert run[k] == one[k] && run[k + 1] == one[k + 1];
      } else {
        var j := k - (|one| - 1);
        assert run[k] == two[j] && run[j + |one|] == two[j + 1];
      }
    }
    assert MediaShaped(run[0]) && run[0] == one[0];
    assert run[|run| - 1] == two[|two| - 1];
    assert IsMediaRun(run, device);
  }

  /** A slot's state only moves forward, so a revoked slot never becomes usable again. */
  lemma {:induction false} RunMovesForward(run: seq<Media>, device: nat, slot: nat, k: nat)
    requires IsMediaRun(run, device) && k < |run| && slot < TOKEN_SLOTS
    ensures MediaShaped(run[k])
    ensures Reaches(SlotState(run[0].mask, slot), SlotState(run[k].mask, slot))
    ensures SlotState(run[0].mask, slot) == Revoked ==> !UsableSlot(run[k].mask, slot)
  {
    hide MaskField, Safe;
    if k > 0 {
      RunMovesForward(run, device, slot, k - 1);
      assert Step(run[k - 1], run[k - 1 + 1], device);
    }
  }

  predicate NotOlder(from: LoadResult, to: LoadResult) {
    || to == from
    || to == Corrupt
    || (to.Ok? && from != Corrupt && (from.Ok? ==> to.state.sequence > from.state.sequence))
  }

  /** As long as a slot stays usable, over any run, its log never answers an older state. */
  lemma {:induction false} UsableLogNeverGoesBack(run: seq<Media>, device: nat, slot: nat, k: nat, from: LoadResult, to: LoadResult)
    requires IsMediaRun(run, device) && k < |run|
    requires UsableSlot(run[0].mask, slot) && MediaShaped(run[k]) && UsableSlot(run[k].mask, slot)
    requires Loads(KeyFor(run[0].tokens, slot, device), device, run[0].pages, from)
    requires Loads(KeyFor(run[k].tokens, slot, device), device, run[k].pages, to)
    ensures run[k].tokens[slot] == run[0].tokens[slot]
    ensures NotOlder(from, to)
  {
    hide Loads, SlotState, Outcome, Safe;
    if k == 0 {
      LoadsIsFunctional(KeyFor(run[0].tokens, slot, device), device, run[0].pages, from, to);
    } else {
      assert Step(run[k - 1], run[k - 1 + 1], device);
      RunMovesForward(run, device, slot, k - 1);
      var key := KeyFor(run[k - 1].tokens, slot, device);
      assert UsableSlot(run[k - 1].mask, slot);
      LoadsIsTotal(key, device, run[k - 1].pages);
      var last :| Loads(key, device, run[k - 1].pages, last);
      UsableLogNeverGoesBack(run, device, slot, k - 1, from, last);
      if run[k - 1].pages == run[k].pages {
        LoadsIsFunctional(key, device, run[k].pages, last, to);
      } else {
        var s :| Outcome(key, device, run[k - 1].pages, run[k].pages, s);
        StepFollows(key, device, run[k - 1].pages, run[k].pages, s, last, to);
      }
    }
  }

  datatype Flag = Yes | No | Unreadable
  datatype Inventory = Inventory(maskBlank: Flag, tokensBlank: Flag, flashBlank: Flag)
  datatype OpenResult = Ready | Fresh | SetupNeeded | Inconsistent

  class EnrollmentDevice {
    const otp: OtpMemory
    const chip: FlashChip
    const device: nat
    var isOpen: bool
    var terminal: bool
    var tokenSlot: nat
    var journal: Journal?

    function Durable(): Media
      reads this, otp, chip
    {
      Media(otp.mask, otp.tokens, chip.pages)
    }

    predicate Reliable()
      reads this, otp, chip
    {
      otp.reliable && chip.reliable
    }

    ghost predicate Valid()
      reads this, otp, chip
    {
      && otp.Valid() && chip.Valid() && tokenSlot < TOKEN_SLOTS
      && (isOpen ==> (
            && journal != null && journal.chip == chip && journal.id == device
            && journal.key == KeyFor(otp.tokens, tokenSlot, device)))
    }

    constructor (otp: OtpMemory, chip: FlashChip, device: nat)
      requires otp.Valid() && chip.Valid()
      ensures Valid() && this.otp == otp && this.chip == chip && this.device == device && !isOpen && !terminal
    {
      this.otp, this.chip, this.device := otp, chip, device;
      isOpen, terminal, tokenSlot, journal := false, false, 0, null;
    }

    // ---- One mask field --------------------------------------------------

    method MaskRead(slot: nat) returns (ok: bool, state: MaskState)
      requires otp.Valid()
      ensures ok ==> slot < TOKEN_SLOTS && state == SlotState(otp.mask, slot)
      ensures otp.reliable && slot < TOKEN_SLOTS ==> ok
    {
      if slot >= TOKEN_SLOTS {
        return false, Unused;
      }
      var row;
      ok, row := otp.ReadMaskRow(slot / 8);
      state := Classify(MaskField(row, slot % 8));
    }

    /** Moves one field forward. A cut leaves the old or the new state of that slot and
        every other slot as it was. */
    method MaskWrite(slot: nat, to: MaskState) returns (ok: bool)
      requires otp.Valid() && slot < TOKEN_SLOTS && to in {Started, Usable, Revoking, Revoked}
      requires Move(SlotState(otp.mask, slot), to) || SlotState(otp.mask, slot) == to
      modifies otp`mask
      ensures otp.Valid()
      ensures SlotState(otp.mask, slot) in {old(SlotState(otp.mask, slot)), to}
      ensures forall a :: 0 <= a < TOKEN_SLOTS && a != slot ==> SlotState(otp.mask, a) == old(SlotState(otp.mask, a))
      ensures ok ==> SlotState(otp.mask, slot) == to
      ensures otp.reliable ==> ok
    {
      hide MaskField, WithField, Code, Classify, Torn, Subset, Program;
      ghost var before := otp.mask;
      var k := slot % 8;
      var v;
      ok, v := otp.ReadMaskRow(slot / 8);
      if !ok {
        return;
      }
      CodeFits(to);
      MoveFits(v, k, to);
      var current := MaskField(v, k);
      if !Subset(current, Code(to)) {
        return false;
      }
      var next := WithField(v, k, Code(to));
      if v == next {
        return true;
      }
      ok := otp.CanProgram();
      if !ok {
        return;
      }
      ok := otp.WriteMaskRow(slot / 8, next);
      ghost var after := otp.mask[slot / 8];
      RowWritten(before, slot, to, after);
      if !ok {
        return;
      }
      ok, v := otp.ReadMaskRow(slot / 8);
      ok := ok && v == next;
    }

    /** Scans every slot before anything is chosen. */
    method InspectMask() returns (ok: bool, ready: Option<nat>, lastRevoked: Option<nat>, started: bool)
      requires otp.Valid()
      ensures ok ==> MaskSafe(otp.mask)
      ensures ok ==> (forall a: nat :: UsableSlot(otp.mask, a) <==> ready == Some(a))
      ensures ok ==> (started <==> Interrupted(otp.mask))
      ensures ok ==> LastRevoked(otp.mask, lastRevoked)
      ensures otp.reliable && MaskSafe(otp.mask) ==> ok
    {
      hide SlotState;
      ready, lastRevoked, started := None, None, false;
      for slot := 0 to TOKEN_SLOTS
        invariant forall a :: 0 <= a < slot ==> SlotState(otp.mask, a) != Malformed
        invariant forall a :: 0 <= a < slot ==> (SlotState(otp.mask, a) == Usable <==> ready == Some(a))
        invariant ready.Some? ==> ready.value < slot
        invariant started <==> exists a :: 0 <= a < slot && SlotState(otp.mask, a) in {Started, Revoking}
        invariant lastRevoked.Some? ==> lastRevoked.value < slot && SlotState(otp.mask, lastRevoked.value) == Revoked
        invariant forall a :: 0 <= a < slot && SlotState(otp.mask, a) == Revoked ==> lastRevoked.Some? && a <= lastRevoked.value
      {
        var state;
        ok, state := MaskRead(slot);
        if !ok {
          return;
        }
        match state {
          case Unused =>
          case Started => started := true;
          case Revoking => started := true;
          case Revoked => lastRevoked := Some(slot);
          case Usable =>
            if ready.Some? {
              return false, ready, lastRevoked, started;
            }
            ready := Some(slot);
          case Malformed => return false, ready, lastRevoked, started;
        }
      }
      ok := !(ready.Some? && started);
    }

    // ---- Token rows ------------------------------------------------------

    method TokenBlank(slot: nat) returns (f: Flag)
      requires otp.Valid() && slot < TOKEN_SLOTS
      ensures f == Yes ==> BlankToken(otp.tokens[slot])
      ensures f == No ==> !BlankToken(otp.tokens[slot])
      ensures otp.reliable ==> f != Unreadable
    {
      for i := 0 to TOKEN_ROWS
        invariant forall j :: 0 <= j < i ==> otp.tokens[slot][j] == 0
      {
        var ok, raw := otp.ReadTokenRow(slot, i);
        if !ok {
          return Unreadable;
        }
        if raw != 0 {
          return No;
        }
      }
      return Yes;
    }

    method Burned(slot: nat) returns (f: Flag)
      requires otp.Valid() && slot < TOKEN_SLOTS
      ensures f == Yes ==> BurnedToken(otp.tokens[slot])
      ensures f == No ==> !BurnedToken(otp.tokens[slot])
      ensures otp.reliable ==> f != Unreadable
    {
      for i := 0 to TOKEN_ROWS
        invariant forall j :: 0 <= j < i ==> otp.tokens[slot][j] == BURNED
      {
        var ok, raw := otp.ReadTokenRow(slot, i);
        if !ok {
          return Unreadable;
        }
        if raw != BURNED {
          return No;
        }
      }
      return Yes;
    }

    method BurnRow(slot: nat, row: nat) returns (ok: bool)
      requires otp.Valid() && slot < TOKEN_SLOTS && row < TOKEN_ROWS
      modifies otp`tokens
      ensures otp.Valid()
      ensures exists v :: Subset(old(otp.tokens)[slot][row], v)
                && otp.tokens == old(otp.tokens)[slot := old(otp.tokens)[slot][row := v]]
      ensures ok ==> otp.tokens[slot][row] == BURNED
      ensures otp.reliable ==> ok
    {
      hide Program;
      var v;
      ok, v := otp.ReadTokenRow(slot, row);
      RowKept(otp.tokens, slot, row);
      if !ok || v == BURNED {
        return;
      }
      ok := otp.CanProgram();
      if !ok {
        return;
      }
      Burning(v);
      ok := otp.WriteTokenRow(slot, row, BURNED);
      if !ok {
        return;
      }
      ok, v := otp.ReadTokenRow(slot, row);
      ok := ok && v == BURNED;
    }

    /** Destroys a token row by row; interrupted, it can be resumed. */
    method FinishBurn(slot: nat) returns (ok: bool)
      requires otp.Valid() && slot < TOKEN_SLOTS
      modifies otp`tokens
      ensures otp.Valid()
      ensures otp.tokens == old(otp.tokens)[slot := otp.tokens[slot]]
      ensures TokenGrows(old(otp.tokens)[slot], otp.tokens[slot])
      ensures ok ==> BurnedToken(otp.tokens[slot])
      ensures otp.reliable ==> ok
    {
      hide Subset;
      SubsetOrder();
      for i := 0 to TOKEN_ROWS
        invariant otp.Valid()
        invariant otp.tokens == old(otp.tokens)[slot := otp.tokens[slot]]
        invariant TokenGrows(old(otp.tokens)[slot], otp.tokens[slot])
        invariant forall j :: 0 <= j < i ==> otp.tokens[slot][j] == BURNED
      {
        ok := BurnRow(slot, i);
        if !ok {
          return;
        }
      }
      ok := true;
    }

    method FlashBlank() returns (f: Flag)
      requires chip.Valid()
      ensures f == Yes ==> AllPagesBlank(chip.pages)
      ensures f == No ==> !AllPagesBlank(chip.pages)
      ensures chip.reliable ==> f != Unreadable
    {
      for i := 0 to PAGES
        invariant forall j :: 0 <= j < i ==> chip.pages[j] == Blank
      {
        var ok, p := chip.Read(i);
        if !ok {
          return Unreadable;
        }
        if p != Blank {
          return No;
        }
      }
      return Yes;
    }

    method Inspect() returns (v: Inventory)
      requires Valid()
      ensures v.maskBlank == Yes ==> forall r :: 0 <= r < MASK_ROWS ==> otp.mask[r] == 0
      ensures v.maskBlank == No ==> exists r :: 0 <= r < MASK_ROWS && otp.mask[r] != 0
      ensures v.tokensBlank == Yes ==> AllTokensBlank(otp.tokens)
      ensures v.tokensBlank == No ==> !AllTokensBlank(otp.tokens)
      ensures v.flashBlank == Yes ==> AllPagesBlank(chip.pages)
      ensures v.flashBlank == No ==> !AllPagesBlank(chip.pages)
      ensures Reliable() ==> Unreadable !in {v.maskBlank, v.tokensBlank, v.flashBlank}
    {
      var mask := MaskBlank();
      var tokens := Yes;
      var flash := FlashBlank();
      for slot := 0 to TOKEN_SLOTS
        invariant tokens == Yes ==> forall a :: 0 <= a < slot ==> BlankToken(otp.tokens[a])
        invariant tokens == No ==> exists a :: 0 <= a < slot && !BlankToken(otp.tokens[a])
        invariant otp.reliable ==> tokens != Unreadable
      {
        var b := TokenBlank(slot);
        if b == Unreadable {
          tokens := Unreadable;
        } else if b == No && tokens == Yes {
          tokens := No;
        }
      }
      return Inventory(mask, tokens, flash);
    }

    method MaskBlank() returns (f: Flag)
      requires otp.Valid()
      ensures f == Yes ==> forall r :: 0 <= r < MASK_ROWS ==> otp.mask[r] == 0
      ensures f == No ==> exists r :: 0 <= r < MASK_ROWS && otp.mask[r] != 0
      ensures otp.reliable ==> f != Unreadable
    {
      for row := 0 to MASK_ROWS
        invariant forall r :: 0 <= r < row ==> otp.mask[r] == 0
      {
        var ok, v := otp.ReadMaskRow(row);
        if !ok {
          return Unreadable;
        }
        if v != 0 {
          return No;
        }
      }
      return Yes;
    }

    /** Erases a log nobody can use: allowed only before any slot was ever touched. */
    method PrepareFlash() returns (ok: bool)
      requires Valid()
      modifies this, chip`pages
      ensures Valid()
      ensures Step(old(Durable()), Durable(), device) && StaysSafe(old(Durable()), Durable(), device)
      ensures otp.mask == old(otp.mask) && otp.tokens == old(otp.tokens)
      ensures ok ==> AllPagesBlank(chip.pages)
      ensures chip.pages != old(chip.pages) ==> forall r :: 0 <= r < MASK_ROWS ==> otp.mask[r] == 0
      ensures Reliable() ==>
                (ok <==> (forall r :: 0 <= r < MASK_ROWS ==> otp.mask[r] == 0) && AllTokensBlank(otp.tokens))
    {
      hide Safe, MaskField, Loads, Coherent, Outcome;
      StepStays(Durable(), device);
      var v := Inspect();
      if v.maskBlank != Yes || v.tokensBlank != Yes || v.flashBlank == Unreadable {
        return false;
      }
      for page := 3 to 61
        modifies {}
      {
        ok := otp.CanProgram();
        if !ok {
          return;
        }
      }
      isOpen, journal := false, null;
      BlankMaskUnused(otp.mask);
      TokensStay(otp.tokens);
      if v.flashBlank == Yes {
        return true;
      }
      ok := EraseLog();
      StepWithoutUsable(old(Durable()), Durable(), device);
    }

    method EraseLog() returns (ok: bool)
      requires chip.Valid()
      modifies chip`pages
      ensures chip.Valid()
      ensures ok ==> AllPagesBlank(chip.pages)
      ensures chip.reliable ==> ok
    {
      ok := chip.Erase(0);
      if !ok {
        return;
      }
      ok := chip.Erase(1);
      if !ok {
        return;
      }
      var f := FlashBlank();
      ok := f == Yes;
    }

    // ---- Opening ---------------------------------------------------------

    /** Derives the log key from a slot's token. */
    method OpenToken(slot: nat) returns (ok: bool)
      requires Valid() && slot < TOKEN_SLOTS
      modifies this
      ensures Valid() && ok == isOpen && !terminal
      ensures ok ==> tokenSlot == slot
      ensures otp.reliable ==> ok
    {
      isOpen, terminal, journal := false, false, null;
      var token;
      ok, token := otp.ReadSecret(slot);
      if !ok {
        return;
      }
      journal := new Journal(chip, JournalKey(token, slot, device), device);
      tokenSlot, isOpen := slot, true;
    }

    /** What Load answers once a revoked slot is all there is: no volume, no usable key. */
    function Projection(): State
      reads this, otp
      requires otp.Valid() && tokenSlot < TOKEN_SLOTS
    {
      State(if BurnedToken(otp.tokens[tokenSlot]) then Destroyed else DestroyPending,
            0, device, NO_VOLUME, 1, ZeroHash, 0, false, tokenSlot, DEFAULT_POLICY)
    }

    /** The state a load answers, when one does. */
    ghost predicate Anchored(s: State)
      reads this, otp, chip
      requires Valid()
    {
      && isOpen && !terminal && UsableSlot(otp.mask, tokenSlot)
      && Loads(KeyFor(otp.tokens, tokenSlot, device), device, chip.pages, Ok(s))
    }

    /** A state this device could have written for its usable slot. */
    predicate Presentable(s: State)
      reads this
    {
      s.tokenSlot == tokenSlot && s.status != Destroyed
    }

    method Load() returns (ok: bool, s: State)
      requires Valid()
      ensures forall t :: Reliable() && Anchored(t) && Presentable(t) ==> ok && s == t
      ensures ok && terminal ==> SlotState(otp.mask, tokenSlot) == Revoked && s == Projection()
      ensures ok && !terminal ==>
                && isOpen && UsableSlot(otp.mask, tokenSlot) && s.tokenSlot == tokenSlot
                && s.status != Destroyed && Loads(KeyFor(otp.tokens, tokenSlot, device), device, chip.pages, Ok(s))
      ensures Reliable() && terminal && SlotState(otp.mask, tokenSlot) == Revoked ==> ok
    {
      hide Loads;
      s := State(EmptyVault, 0, 0, NO_VOLUME, 0, ZeroHash, 0, false, 0, DEFAULT_POLICY);
      var state;
      ok, state := MaskRead(tokenSlot);
      if !ok {
        return;
      }
      if terminal {
        if state != Revoked {
          return false, s;
        }
        var b := Burned(tokenSlot);
        if b == Unreadable {
          return false, s;
        }
        s := State(if b == Yes then Destroyed else DestroyPending,
                   0, device, NO_VOLUME, 1, ZeroHash, 0, false, tokenSlot, DEFAULT_POLICY);
        return true, s;
      }
      if !isOpen || state != Usable {
        return false, s;
      }
      var r;
      ok, r := journal.Load();
      if ok {
        LoadsExcludes(journal.key, device, chip.pages, r);
      }
      if !ok || !r.Ok? || r.state.tokenSlot != tokenSlot {
        return false, s;
      }
      return r.state.status in {EmptyVault, Active, Locked, DestroyPending}, r.state;
    }

    /** Chooses what the mask allows. A usable slot without its log is denied; a revoked
        one authorises nothing but finishing its destruction. */
    method Open() returns (r: OpenResult)
      requires Valid()
      modifies this
      ensures Valid()
      ensures r == Ready && !terminal ==> exists s :: Anchored(s) && Presentable(s)
      ensures r == Ready && terminal ==> !isOpen && LastRevoked(otp.mask, Some(tokenSlot))
      ensures r in {Fresh, SetupNeeded} ==> !isOpen && !terminal
      ensures Reliable() || r != Inconsistent ==>
                && (r == Ready && !terminal <==> MaskSafe(otp.mask) && exists s :: Presents(Durable(), device, s))
                && (r == Ready && terminal <==> OnlyRevoked(otp.mask))
                && (r == SetupNeeded <==>
                    && MaskSafe(otp.mask) && NoneUsable(otp.mask)
                    && (Interrupted(otp.mask) || (Untouched(otp.mask) && !AllTokensBlank(otp.tokens))))
                && (r == Fresh <==> Untouched(otp.mask) && AllTokensBlank(otp.tokens) && AllPagesBlank(chip.pages))
    {
      hide Loads, SlotState;
      isOpen, terminal, journal := false, false, null;
      var ok, ready, lastRevoked, started := InspectMask();
      if !ok {
        return Inconsistent;
      }
      if ready.Some? {
        ok := OpenToken(ready.value);
        if !ok {
          return Inconsistent;
        }
        var s;
        ok, s := Load();
        assert ok ==> Presents(Durable(), device, s);
        assert forall t :: Presents(Durable(), device, t) ==> Anchored(t) && Presentable(t);
        return if ok then Ready else Inconsistent;
      }
      NoneUsableHere(otp.mask);
      if started {
        return SetupNeeded;
      }
      if lastRevoked.Some? {
        terminal, tokenSlot := true, lastRevoked.value;
        return Ready;
      }
      var inventory := Inspect();
      if Unreadable in {inventory.maskBlank, inventory.tokensBlank, inventory.flashBlank} {
        return Inconsistent;
      }
      if inventory.tokensBlank == No {
        return SetupNeeded;
      }
      return if inventory.flashBlank == Yes then Fresh else Inconsistent;
    }

    // ---- Provisioning ----------------------------------------------------

    /** Retires every slot left behind by an interrupted setup or revocation. */
    method RetireAbandoned() returns (ok: bool)
      requires Valid() && !isOpen && MaskSafe(otp.mask) && NoneUsable(otp.mask)
      modifies otp
      ensures Valid() && otp.reliable == old(otp.reliable)
      ensures MaskSafe(otp.mask) && NoneUsable(otp.mask)
      ensures MaskGrows(old(otp.mask), otp.mask) && TokensGrow(old(otp.tokens), otp.tokens)
      ensures forall a :: 0 <= a < TOKEN_SLOTS && old(SlotState(otp.mask, a)) == Unused ==>
                SlotState(otp.mask, a) == Unused && otp.tokens[a] == old(otp.tokens)[a]
      ensures ok ==> forall a :: 0 <= a < TOKEN_SLOTS ==> SlotState(otp.mask, a) in {Unused, Revoked}
      ensures ok ==> forall a :: 0 <= a < TOKEN_SLOTS && SlotState(otp.mask, a) == Revoked ==> BurnedToken(otp.tokens[a])
      ensures otp.reliable ==> ok
    {
      hide SlotState, Subset;
      SubsetOrder();
      TokensStay(otp.tokens);
      for slot := 0 to TOKEN_SLOTS
        invariant Valid() && otp.reliable == old(otp.reliable)
        invariant MaskSafe(otp.mask) && NoneUsable(otp.mask)
        invariant MaskGrows(old(otp.mask), otp.mask) && TokensGrow(old(otp.tokens), otp.tokens)
        invariant forall a :: 0 <= a < TOKEN_SLOTS && old(SlotState(otp.mask, a)) == Unused ==>
                    SlotState(otp.mask, a) == Unused && otp.tokens[a] == old(otp.tokens)[a]
        invariant forall a :: 0 <= a < slot ==> SlotState(otp.mask, a) in {Unused, Revoked}
        invariant forall a :: 0 <= a < slot && SlotState(otp.mask, a) == Revoked ==> BurnedToken(otp.tokens[a])
      {
        var state;
        ok, state := MaskRead(slot);
        if !ok {
          return;
        }
        if state == Started {
          ok := MaskWrite(slot, Revoking);
          if !ok {
            return;
          }
          state := Revoking;
        }
        if state == Revoking {
          ok := MaskWrite(slot, Revoked);
          if !ok {
            return;
          }
          state := Revoked;
        }
        if state == Revoked {
          ok := FinishBurn(slot);
          if !ok {
            return;
          }
        }
      }
      ok := true;
    }

    /** The first untouched slot whose rows are blank; occupied ones are passed over. */
    method ChooseSlot() returns (ok: bool, slot: nat)
      requires Valid()
      ensures ok ==> slot < TOKEN_SLOTS && SlotState(otp.mask, slot) == Unused && BlankToken(otp.tokens[slot])
      ensures ok ==> forall a: nat :: a < slot ==> !(SlotState(otp.mask, a) == Unused && BlankToken(otp.tokens[a]))
      ensures otp.reliable && (exists a :: 0 <= a < TOKEN_SLOTS && SlotState(otp.mask, a) == Unused && BlankToken(otp.tokens[a])) ==> ok
    {
      hide MaskField;
      slot := 0;
      while slot < TOKEN_SLOTS
        invariant slot <= TOKEN_SLOTS
        invariant forall a :: 0 <= a < slot ==> !(SlotState(otp.mask, a) == Unused && BlankToken(otp.tokens[a]))
      {
        var state;
        ok, state := MaskRead(slot);
        if !ok {
          return;
        }
        if state == Unused {
          var b := TokenBlank(slot);
          if b == Unreadable {
            return false, slot;
          }
          if b == Yes {
            return true, slot;
          }
        }
        slot := slot + 1;
      }
      ok := false;
    }

    method WriteToken(slot: nat, t: Token) returns (ok: bool)
      requires otp.Valid() && slot < TOKEN_SLOTS && |t| == TOKEN_ROWS
      modifies otp`tokens
      ensures otp.Valid() && otp.tokens == old(otp.tokens)[slot := otp.tokens[slot]]
      ensures TokenGrows(old(otp.tokens)[slot], otp.tokens[slot])
      ensures otp.reliable && old(BlankToken(otp.tokens[slot])) ==> ok && otp.tokens[slot] == t
    {
      hide Subset, Program;
      SubsetOrder();
      var b := TokenBlank(slot);
      if b != Yes {
        return false;
      }
      ok := otp.CanProgram();
      if !ok {
        return;
      }
      ok := otp.WriteSecret(slot, t);
    }

    /** Claims a blank slot, fills it, erases and restarts the log, then makes it usable. */
    method FillSlot(slot: nat, random: Option<Token>) returns (ok: bool)
      requires Valid() && !isOpen && slot < TOKEN_SLOTS && (random.Some? ==> |random.value| == TOKEN_ROWS)
      requires forall a :: 0 <= a < TOKEN_SLOTS ==> SlotState(otp.mask, a) in {Unused, Revoked}
      requires SlotState(otp.mask, slot) == Unused && BlankToken(otp.tokens[slot])
      modifies this, otp, chip
      ensures Valid() && otp.reliable == old(otp.reliable) && chip.reliable == old(chip.reliable)
      ensures MaskGrows(old(otp.mask), otp.mask) && TokensGrow(old(otp.tokens), otp.tokens)
      ensures forall a :: 0 <= a < TOKEN_SLOTS && a != slot ==> SlotState(otp.mask, a) == old(SlotState(otp.mask, a))
      ensures SlotState(otp.mask, slot) in {Unused, Started, Usable}
      ensures SlotState(otp.mask, slot) == Usable ==>
                && Coherent(KeyFor(otp.tokens, slot, device), device, chip.pages)
                && Loads(KeyFor(otp.tokens, slot, device), device, chip.pages, Ok(FirstState(slot, device)))
      ensures ok ==>
                && isOpen && !terminal && tokenSlot == slot && SlotState(otp.mask, slot) == Usable
                && random.Some? && otp.tokens[slot] == random.value
      ensures Reliable() && random.Some? ==> ok
    {
      hide Loads, Coherent, Outcome, MaskField, Subset;
      TokensStay(otp.tokens);
      ok := MaskWrite(slot, Started);
      if !ok || random.None? {
        return false;
      }
      ok := WriteToken(slot, random.value);
      if !ok {
        return;
      }
      var verify;
      ok, verify := otp.ReadSecret(slot);
      if !ok || verify != random.value {
        return false;
      }
      ok := OpenToken(slot);
      if !ok {
        return;
      }
      ok := EraseLog();
      if !ok {
        return;
      }
      BlankLog(journal.key, device, chip.pages);
      var first := FirstState(slot, device);
      var r := journal.Commit(0, first);
      if r != Done {
        return false;
      }
      ok := MaskWrite(slot, Usable);
    }

    /** Sets up a fresh token and log. Only this erases a log, and only while no slot is
        usable: a cut before the last mask write leaves a slot that will be retired, and the
        last one finds a log that is already there. */
    method Provision(random: Option<Token>) returns (ok: bool)
      requires Valid() && (random.Some? ==> |random.value| == TOKEN_ROWS)
      modifies this, otp, chip
      ensures Valid() && otp.reliable == old(otp.reliable) && chip.reliable == old(chip.reliable)
      ensures Step(old(Durable()), Durable(), device) && StaysSafe(old(Durable()), Durable(), device)
      ensures old(Orderly(Durable())) ==> Orderly(Durable())
      ensures ok ==>
                && isOpen && UsableSlot(otp.mask, tokenSlot)
                && exists s :: Loads(KeyFor(otp.tokens, tokenSlot, device), device, chip.pages, Ok(s)) && s.status == EmptyVault
      ensures ok && old(NoneUsable(otp.mask)) ==>
                && random.Some? && otp.tokens[tokenSlot] == random.value
                && SlotState(old(otp.mask), tokenSlot) == Unused && BlankToken(old(otp.tokens)[tokenSlot])
                && exists s :: Anchored(s) && Newborn(s, tokenSlot, device)
      ensures !NoneUsable(old(otp.mask)) ==> Durable() == old(Durable())
      ensures Reliable() ==>
                (ok <==> && old(MaskSafe(otp.mask))
                         && if old(NoneUsable(otp.mask)) then random.Some? && old(SlotLeft(Durable()))
                            else exists s :: Presents(Durable(), device, s) && s.status == EmptyVault)
    {
      hide Loads, Coherent, Outcome, SlotState, Subset, Step, StaysSafe, Reaches, Safe, Orderly, Retired;
      StepStays(Durable(), device);
      var ready, lastRevoked, started;
      ok, ready, lastRevoked, started := InspectMask();
      if !ok {
        return;
      }
      if ready.Some? {
        var r := Open();
        if r != Ready {
          return false;
        }
        ghost var t :| Anchored(t) && Presentable(t);
        var s;
        ok, s := Load();
        assert Anchored(t) && Presentable(t);
        assert ok ==> Presents(Durable(), device, s);
        forall t | ok && Presents(Durable(), device, t)
          ensures t == s
        {
          LoadsIsFunctional(KeyFor(otp.tokens, tokenSlot, device), device, chip.pages, Ok(s), Ok(t));
        }
        return ok && s.status == EmptyVault;
      }
      NoneUsableHere(otp.mask);
      isOpen, terminal, journal := false, false, null;
      ok := RetireAbandoned();
      StepWithoutUsable(old(Durable()), Durable(), device);
      OrderKept(old(Durable()), Durable());
      if !ok {
        return;
      }
      var slot;
      ok, slot := ChooseSlot();
      if !ok {
        return;
      }
      ok := otp.CanProgram();
      if !ok {
        return;
      }
      ok := otp.CanProgram();
      if !ok {
        return;
      }
      ghost var retired := Durable();
      AllRetired(slot);
      UntouchedBefore(old(otp.mask), otp.mask, slot);
      assert old(SlotState(otp.mask, slot)) == Unused && old(BlankToken(otp.tokens[slot]));
      ok := FillSlot(slot, random);
      OrderExtended(retired, Durable(), slot);
      OneSlot(otp.mask, slot);
      TokensGrowOn(old(otp.tokens), retired.tokens, otp.tokens);
      MaskGrowsOn(old(otp.mask), retired.mask, otp.mask);
      ghost var filled := Durable();
      if SlotState(otp.mask, slot) == Usable {
        StepMadeUsable(old(Durable()), filled, slot, device);
      } else {
        StepWithoutUsable(old(Durable()), filled, device);
      }
      if !ok {
        isOpen, journal := false, null;
      }
      assert ok ==> Anchored(FirstState(slot, device)) && Newborn(FirstState(slot, device), slot, device);
    }

    lemma AllRetired(slot: nat)
      requires Valid() && slot < TOKEN_SLOTS
      requires forall a :: 0 <= a < TOKEN_SLOTS ==> SlotState(otp.mask, a) in {Unused, Revoked}
      requires forall a :: 0 <= a < TOKEN_SLOTS && SlotState(otp.mask, a) == Revoked ==> BurnedToken(otp.tokens[a])
      requires forall a: nat :: a < slot ==> !(SlotState(otp.mask, a) == Unused && BlankToken(otp.tokens[a]))
      ensures forall a: nat :: a < slot ==> Retired(otp.mask, otp.tokens, a)
    {
      hide SlotState;
    }

    // ---- The authority the vault sees ------------------------------------

    /** Without faults these commits succeed. */
    ghost predicate Committable(previous: uint64, s: State)
      reads this, otp, chip
      requires Valid()
    {
      && s.tokenSlot == tokenSlot
      && if terminal then
           SlotState(otp.mask, tokenSlot) == Revoked && s.status == Destroyed && BurnedToken(otp.tokens[tokenSlot])
         else
           && Encodable(s, device) && previous < UINT64_MAX && s.sequence == previous + 1
           && exists last :: Anchored(last) && last.sequence == previous
    }

    method Commit(previous: uint64, s: State) returns (ok: bool)
      requires Valid() && MaskSafe(otp.mask)
      modifies chip
      ensures Valid() && chip.reliable == old(chip.reliable)
      ensures Step(old(Durable()), Durable(), device) && StaysSafe(old(Durable()), Durable(), device)
      ensures otp.mask == old(otp.mask) && otp.tokens == old(otp.tokens)
      ensures ok && !terminal ==> Safe(old(Durable()), device) ==> Anchored(s)
      ensures forall t :: Holds(Durable(), device, t) ==> old(Holds(Durable(), device, t)) || (t == s && !terminal)
      ensures ok ==> s.tokenSlot == tokenSlot
      ensures ok && !terminal ==> isOpen && s.sequence == previous + 1
      ensures ok && terminal ==> s.status == Destroyed && BurnedToken(otp.tokens[tokenSlot])
      ensures terminal || !UsableSlot(otp.mask, tokenSlot) ==> chip.pages == old(chip.pages)
      ensures Reliable() && old(Committable(previous, s)) ==> ok
    {
      hide Loads, Coherent, Outcome, MaskField;
      StepStays(Durable(), device);
      if s.tokenSlot != tokenSlot {
        return false;
      }
      var state;
      ok, state := MaskRead(tokenSlot);
      if !ok {
        return;
      }
      if terminal {
        if state != Revoked || s.status != Destroyed {
          return false;
        }
        var b := Burned(tokenSlot);
        return b == Yes;
      }
      if !isOpen || state != Usable {
        return false;
      }
      var r := journal.Commit(previous, s);
      StepCommitted(old(Durable()), Durable(), tokenSlot, device, s);
      HoldsCommitted(old(Durable()), Durable(), tokenSlot, device, s);
      ok := r == Done;
    }

    /** Only a usable slot yields a binding, and only for its own volume. */
    method GetBinding(volume: seq<byte>, slot: nat) returns (ok: bool, b: Binding)
      requires Valid()
      ensures ok ==>
                && slot == tokenSlot && UsableSlot(otp.mask, slot) && b == BindingOf(otp.tokens[slot], slot, volume)
                && exists s :: Anchored(s) && s.status in {EmptyVault, Active} && (s.status == Active ==> s.volume == volume)
      ensures Reliable() && slot == tokenSlot
              && (exists s :: Anchored(s) && Presentable(s) && s.status in {EmptyVault, Active} && (s.status == Active ==> s.volume == volume))
              ==> ok
    {
      hide Loads;
      b := BindingOf([], slot, volume);
      var s;
      ok, s := Load();
      if !ok || s.tokenSlot != slot || s.status !in {EmptyVault, Active} || (s.status == Active && s.volume != volume) {
        return false, b;
      }
      var token;
      ok, token := otp.ReadSecret(slot);
      b := BindingOf(token, slot, volume);
    }

    /** Without faults destruction runs to its end. */
    ghost predicate Destroyable()
      reads this, otp, chip
      requires Valid()
    {
      if terminal then
        SlotState(otp.mask, tokenSlot) == Revoked && !BurnedToken(otp.tokens[tokenSlot])
      else
        exists s :: Anchored(s) && s.tokenSlot == tokenSlot && s.status == DestroyPending
    }

    method Destroy(slot: nat) returns (ok: bool)
      requires Valid()
      modifies this, otp
      ensures Valid() && otp.reliable == old(otp.reliable) && tokenSlot == old(tokenSlot)
      ensures Step(old(Durable()), Durable(), device) && StaysSafe(old(Durable()), Durable(), device)
      ensures chip.pages == old(chip.pages)
      ensures old(Orderly(Durable())) ==> Orderly(Durable())
      ensures forall a :: 0 <= a < TOKEN_SLOTS && SlotState(otp.mask, a) != old(SlotState(otp.mask, a)) ==>
                a == slot && SlotState(otp.mask, a) == Revoked
      ensures forall a :: 0 <= a < TOKEN_SLOTS && otp.tokens[a] != old(otp.tokens)[a] ==> a == slot
      ensures forall t :: Holds(Durable(), device, t) ==> old(Holds(Durable(), device, t))
      ensures ok ==> slot == tokenSlot && terminal && SlotState(otp.mask, slot) == Revoked && BurnedToken(otp.tokens[slot])
      ensures old(terminal) ==> terminal
      ensures Reliable() && slot == tokenSlot && old(Destroyable()) ==> ok
    {
      hide Loads, Coherent, Outcome, MaskField, Subset;
      SubsetOrder();
      StepStays(Durable(), device);
      if slot >= TOKEN_SLOTS {
        return false;
      }
      ghost var pending := Destroyable() && !terminal;
      ghost var t := FirstState(slot, device);
      if pending {
        t :| Anchored(t) && t.tokenSlot == tokenSlot && t.status == DestroyPending;
      }
      var s;
      ok, s := Load();
      assert Reliable() && pending ==> Anchored(t) && Presentable(t);
      if !ok || s.tokenSlot != slot || s.status != DestroyPending {
        return false;
      }
      ok := MaskWrite(slot, Revoked);
      StepRevoked(old(Durable()), Durable(), slot, device);
      OrderKept(old(Durable()), Durable());
      HoldsAfterRevoking(old(Durable()), Durable(), slot, device);
      if !ok {
        return;
      }
      terminal, isOpen, journal := true, false, null;
      ok := FinishBurn(slot);
      StepRevoked(old(Durable()), Durable(), slot, device);
      OrderKept(old(Durable()), Durable());
      HoldsAfterRevoking(old(Durable()), Durable(), slot, device);
    }

    /** A vault whose destruction can be requested. */
    predicate Condemnable(s: State)
      reads this
    {
      s.tokenSlot == tokenSlot && s.status in {Active, Locked, DestroyPending} && s.sequence + 1 < UINT64_MAX
    }

    /** Marks the vault for destruction, revokes its slot and burns its token. After a reset
        the mask alone is enough to finish. */
    method RequestDestruction() returns (ok: bool)
      requires Valid() && MaskSafe(otp.mask)
      modifies this, otp, chip
      ensures Valid()
      ensures Step(old(Durable()), Durable(), device) && StaysSafe(old(Durable()), Durable(), device)
      ensures old(Orderly(Durable())) ==> Orderly(Durable())
      ensures forall t :: Holds(Durable(), device, t) ==> old(Holds(Durable(), device, t)) || t.status == DestroyPending
      ensures ok ==> SlotState(otp.mask, tokenSlot) == Revoked && BurnedToken(otp.tokens[tokenSlot])
      ensures old(Reliable() && terminal && SlotState(otp.mask, tokenSlot) == Revoked) ==> ok
      ensures forall s :: old(Reliable() && Safe(Durable(), device) && Anchored(s) && Condemnable(s)) ==> ok
    {
      hide Loads, Coherent, Outcome, SlotState, Reaches, Safe;
      StepStays(Durable(), device);
      var s;
      ok, s := Load();
      assert forall t :: old(Anchored(t)) ==> Anchored(t);
      LoadedEncodable(KeyFor(otp.tokens, tokenSlot, device), device, chip.pages);
      if !ok {
        return;
      }
      if s.status == Destroyed {
        return true;
      }
      if s.status == EmptyVault || s.sequence == UINT64_MAX {
        return false;
      }
      if s.status != DestroyPending {
        var previous := s.sequence;
        s := s.(sequence := s.sequence + 1, status := DestroyPending, pending := false);
        ok := Commit(previous, s);
        assert old(Orderly(Durable())) ==> Orderly(Durable());
        if !ok {
          return;
        }
      }
      ghost var marked := Durable();
      ok := Destroy(s.tokenSlot);
      StepOn(old(Durable()), marked, Durable(), device);
      if !ok || s.sequence == UINT64_MAX {
        return false;
      }
      var previous := s.sequence;
      s := s.(sequence := s.sequence + 1, status := Destroyed);
      ok := Commit(previous, s);
    }

    /** Power is lost: what the device object knows is gone. */
    method PowerLost()
      requires Valid()
      modifies this
      ensures Valid() && !isOpen && !terminal
    {
      isOpen, terminal, journal := false, false, null;
    }
  }

  // ---- Whole lifetimes -----------------------------------------------------

  datatype Operation =
    | PowerLoss
    | TryOpen
    | TryPrepare
    | TryProvision(random: Option<Token>)
    | TryLoad
    | TryCommit(previous: uint64, state: State)
    | TryDestroy(slot: nat)
    | TryRequestDestruction

  /** From untouched memory, through any operations with faults and resets between and inside
      them: no two slots ever compete, a usable slot always finds its log, states only move
      forward, and every slot before the last one used is retired for good. */
  method Lifetime(d: EnrollmentDevice, operations: seq<Operation>)
    requires d.Valid() && forall r :: 0 <= r < MASK_ROWS ==> d.otp.mask[r] == 0
    requires forall q :: q in operations && q.TryProvision? && q.random.Some? ==> |q.random.value| == TOKEN_ROWS
    modifies d, d.otp, d.chip
    ensures d.Valid()
    ensures Safe(d.Durable(), d.device) && Orderly(d.Durable())
    ensures Leads(old(d.Durable()), d.Durable(), d.device)
  {
    hide MaskSafe, LogSafe, Leads, Step, StaysSafe, Orderly, SlotState;
    ghost var from := d.Durable();
    BlankMaskUnused(d.otp.mask);
    UntouchedIsSafe(from, d.device);
    LeadsStays(from, d.device);
    for i := 0 to |operations|
      invariant d.Valid() && Safe(d.Durable(), d.device) && Orderly(d.Durable())
      invariant Leads(from, d.Durable(), d.device)
    {
      ghost var before := d.Durable();
      Operate(d, operations[i]);
      LeadsBy(from, before, d.Durable(), d.device);
    }
  }

  lemma UntouchedIsSafe(m: Media, device: nat)
    requires MediaShaped(m) && forall a :: 0 <= a < TOKEN_SLOTS ==> SlotState(m.mask, a) == Unused
    ensures Safe(m, device) && Orderly(m)
  {
    hide SlotState;
  }

  method Operate(d: EnrollmentDevice, q: Operation)
    requires d.Valid() && Safe(d.Durable(), d.device) && Orderly(d.Durable())
    requires q.TryProvision? && q.random.Some? ==> |q.random.value| == TOKEN_ROWS
    modifies d, d.otp, d.chip
    ensures d.Valid() && Safe(d.Durable(), d.device) && Orderly(d.Durable())
    ensures Step(old(d.Durable()), d.Durable(), d.device)
  {
    hide MaskSafe, LogSafe, Step, Orderly, SlotState;
    StepStays(d.Durable(), d.device);
    match q {
      case PowerLoss => d.PowerLost();
      case TryOpen => var r := d.Open();
      case TryPrepare => var ok := d.PrepareFlash(); SameOrder(old(d.Durable()), d.Durable());
      case TryProvision(random) => var ok := d.Provision(random);
      case TryLoad => var ok, s := d.Load();
      case TryCommit(previous, state) => var ok := d.Commit(previous, state); SameOrder(old(d.Durable()), d.Durable());
      case TryDestroy(slot) => var ok := d.Destroy(slot);
      case TryRequestDestruction => var ok := d.RequestDestruction();
    }
  }

  lemma SameOrder(a: Media, b: Media)
    requires MediaShaped(a) && MediaShaped(b) && a.mask == b.mask && a.tokens == b.tokens
    ensures Orderly(a) ==> Orderly(b)
  {
  }

  /** What a start does about a destruction that was cut: it finds the last revoked slot, burns
      what is left of its token, and with it no revoked token is left. */
  method ResumeDestruction(d: EnrollmentDevice) returns (ok: bool)
    requires d.Valid() && Safe(d.Durable(), d.device) && Orderly(d.Durable())
    modifies d, d.otp
    ensures d.Valid() && Safe(d.Durable(), d.device) && Orderly(d.Durable())
    ensures ok ==> NoneUsable(d.otp.mask)
    ensures ok ==> forall a :: 0 <= a < TOKEN_SLOTS && SlotState(d.otp.mask, a) == Revoked ==> BurnedToken(d.otp.tokens[a])
    ensures old(d.Reliable() && OnlyRevoked(d.otp.mask)) ==> ok
  {
    hide LogSafe, Step, Orderly, SlotState, Loads;
    var r := d.Open();
    if r != Ready || !d.terminal {
      return false;
    }
    var s;
    ok, s := d.Load();
    if !ok {
      return;
    }
    if s.status != Destroyed {
      ok := d.Destroy(d.tokenSlot);
    }
    if ok {
      LastBurnIsEnough(d.Durable(), d.tokenSlot);
    }
  }
}
