// Write-once memory: 24-bit rows whose bits only ever go from 0 to 1
// (src/shared/security/enrollment.c, src/pico/platform/authority.c).
module Otp {
  import opened DeviceState
  import opened Keys

  const MASK_ROWS: nat := 64
  const TOKEN_ROWS: nat := 16
  const BURNED: bv24 := 0xffffff

  datatype MaskState = Unused | Started | Usable | Revoking | Revoked | Malformed

  /** Eight three-bit fields share a row. */
  function FieldMask(k: nat): bv24
    requires k < 8
  {
    match k
    case 0 => 0x7 case 1 => 0x38 case 2 => 0x1c0 case 3 => 0xe00
    case 4 => 0x7000 case 5 => 0x38000 case 6 => 0x1c0000 case _ => 0xe00000
  }

  function Place(bits: bv24, k: nat): bv24
    requires k < 8
  {
    match k
    case 0 => bits case 1 => bits << 3 case 2 => bits << 6 case 3 => bits << 9
    case 4 => bits << 12 case 5 => bits << 15 case 6 => bits << 18 case _ => bits << 21
  }

  function MaskField(row: bv24, k: nat): bv24
    requires k < 8
  {
    match k
    case 0 => row & 7 case 1 => (row >> 3) & 7 case 2 => (row >> 6) & 7 case 3 => (row >> 9) & 7
    case 4 => (row >> 12) & 7 case 5 => (row >> 15) & 7 case 6 => (row >> 18) & 7 case _ => (row >> 21) & 7
  }

  /** A row with field k replaced. */
  function WithField(row: bv24, k: nat, bits: bv24): bv24
    requires k < 8
  {
    Merge(row, FieldMask(k), Place(bits, k))
  }

  function Merge(row: bv24, m: bv24, p: bv24): bv24 {
    (row & !m) | p
  }

  function Under(row: bv24, m: bv24): bv24 {
    row & m
  }

  /** What programming value over row gives. */
  function Program(row: bv24, value: bv24): bv24 {
    row | value
  }

  predicate Subset(a: bv24, b: bv24) {
    a & !b == 0
  }

  /** What a cut while programming value over row can leave. */
  predicate Torn(row: bv24, value: bv24, after: bv24) {
    Subset(row, after) && Subset(after, Program(row, value))
  }

  lemma MasksDisjoint(j: nat, k: nat)
    requires k < 8 && j < 8 && j != k
    ensures Under(FieldMask(k), FieldMask(j)) == 0
  {
  }

  lemma TornElsewhere(row: bv24, m: bv24, n: bv24, p: bv24, after: bv24)
    requires Under(m, n) == 0 && Subset(p, m)
    requires Torn(row, Merge(row, m, p), after)
    ensures Under(after, n) == Under(row, n)
  {
  }

  lemma TornUnderMask(row: bv24, m: bv24, p: bv24, after: bv24)
    requires Subset(p, m) && Subset(Under(row, m), p)
    requires Torn(row, Merge(row, m, p), after)
    ensures Subset(Under(row, m), Under(after, m))
    ensures Subset(Under(after, m), p)
  {
  }

  lemma MergedUnderMask(row: bv24, m: bv24, p: bv24)
    ensures Under(Merge(row, m, p), m) == Under(p, m)
  {
    assert (row & !m) & m == 0;
    assert Under(Merge(row, m, p), m) == ((row & !m) & m) | (p & m);
  }

  lemma FieldOfEqual(row: bv24, other: bv24, k: nat)
    requires k < 8 && Under(row, FieldMask(k)) == Under(other, FieldMask(k))
    ensures MaskField(row, k) == MaskField(other, k)
  {
  }

  lemma FieldOfSubset(row: bv24, other: bv24, k: nat)
    requires k < 8 && Subset(Under(row, FieldMask(k)), Under(other, FieldMask(k)))
    ensures Subset(MaskField(row, k), MaskField(other, k))
  {
  }

  lemma FieldWithin(row: bv24, bits: bv24, k: nat)
    requires k < 8 && bits & 7 == bits
    ensures Subset(Under(row, FieldMask(k)), Place(bits, k)) <==> Subset(MaskField(row, k), bits)
    ensures Subset(Place(bits, k), FieldMask(k))
  {
  }

  lemma FieldOfPlace(bits: bv24, k: nat)
    requires k < 8 && bits & 7 == bits
    ensures MaskField(Place(bits, k), k) == bits
  {
  }

  /** A completed write of one field. */
  lemma FieldOfPlaced(row: bv24, bits: bv24, k: nat)
    requires k < 8 && bits & 7 == bits
    ensures MaskField(WithField(row, k, bits), k) == bits
  {
    hide MaskField, FieldMask, Place, Subset, Under, Merge;
    FieldWithin(row, bits, k);
    MergedUnderMask(row, FieldMask(k), Place(bits, k));
    FieldOfEqual(WithField(row, k, bits), Place(bits, k), k);
    FieldOfPlace(bits, k);
  }

  lemma MergedSame(row: bv24, m: bv24)
    ensures Merge(row, m, Under(row, m)) == row
  {
  }

  lemma UnderOfField(row: bv24, k: nat)
    requires k < 8
    ensures Under(row, FieldMask(k)) == Place(MaskField(row, k), k)
    ensures MaskField(row, k) & 7 == MaskField(row, k)
  {
  }

  /** Writing the bits a field already has changes nothing. */
  lemma FieldUnchanged(row: bv24, k: nat)
    requires k < 8
    ensures WithField(row, k, MaskField(row, k)) == row
  {
    hide MaskField, FieldMask, Place, Under, Merge;
    UnderOfField(row, k);
    MergedSame(row, FieldMask(k));
  }

  lemma MergedGains(row: bv24, m: bv24, p: bv24)
    requires Subset(Under(row, m), p)
    ensures Subset(row, Merge(row, m, p))
  {
  }

  lemma OrOfSubset(row: bv24, other: bv24)
    requires Subset(row, other)
    ensures Program(row, other) == other
  {
  }

  /** Programming over a row adds only the bits of the field. */
  lemma FieldProgrammed(row: bv24, k: nat, bits: bv24)
    requires k < 8 && bits & 7 == bits && Subset(MaskField(row, k), bits)
    ensures Program(row, WithField(row, k, bits)) == WithField(row, k, bits)
  {
    hide MaskField, FieldMask, Place, Subset, Under, Merge;
    FieldWithin(row, bits, k);
    MergedGains(row, FieldMask(k), Place(bits, k));
    OrOfSubset(row, WithField(row, k, bits));
  }

  /** A write of one field, completed or cut, leaves every other field alone. */
  lemma TornKeepsNeighbours(row: bv24, k: nat, bits: bv24, after: bv24, j: nat)
    requires k < 8 && j < 8 && j != k && bits & 7 == bits
    requires Torn(row, WithField(row, k, bits), after)
    ensures MaskField(after, j) == MaskField(row, j)
  {
    hide MaskField, FieldMask, Place, Subset, Torn, Under, Merge;
    FieldWithin(row, bits, k);
    MasksDisjoint(j, k);
    TornElsewhere(row, FieldMask(k), FieldMask(j), Place(bits, k), after);
    FieldOfEqual(after, row, j);
  }

  /** It moves its own field from the old bits towards the new ones. */
  lemma TornGainsBits(row: bv24, k: nat, bits: bv24, after: bv24)
    requires k < 8 && bits & 7 == bits && Subset(MaskField(row, k), bits)
    requires Torn(row, WithField(row, k, bits), after)
    ensures Subset(MaskField(row, k), MaskField(after, k)) && Subset(MaskField(after, k), bits)
  {
    hide MaskField, FieldMask, Place, Subset, Torn, Under, Merge;
    FieldWithin(row, bits, k);
    TornUnderMask(row, FieldMask(k), Place(bits, k), after);
    FieldOfSubset(row, after, k);
    FieldWithin(after, bits, k);
  }

  // ---- Slot states ---------------------------------------------------------

  function Code(s: MaskState): bv24 {
    match s
    case Unused => 0 case Started => 4 case Usable => 6 case Revoking => 5 case _ => 7
  }

  function Classify(bits: bv24): MaskState {
    if bits == 0 then Unused else if bits == 4 then Started else if bits == 6 then Usable
    else if bits == 5 then Revoking else if bits == 7 then Revoked else Malformed
  }

  /** The moves the firmware makes, each of which sets exactly one bit. */
  predicate Move(from: MaskState, to: MaskState) {
    || (from == Unused && to == Started)
    || (from == Started && to in {Usable, Revoking})
    || (from in {Usable, Revoking} && to == Revoked)
  }

  /** A cut move has happened or has not: no other state is ever visible. */
  lemma MoveIsAtomic(bits: bv24, to: MaskState, after: bv24)
    requires Move(Classify(bits), to)
    requires Subset(bits, after) && Subset(after, Code(to))
    ensures after == bits || after == Code(to)
  {
  }

  /** Revoking an abandoned slot in one write could expose it as usable when cut. */
  lemma DirectRevocationExposes()
    ensures exists after: bv24 :: Subset(Code(Started), after) && Subset(after, Code(Revoked)) && Classify(after) == Usable
  {
    assert Subset(Code(Started), Code(Usable)) && Subset(Code(Usable), Code(Revoked));
  }

  // ---- The memory ----------------------------------------------------------

  class OtpMemory {
    var mask: seq<bv24>
    var tokens: seq<Token>
    var reliable: bool

    predicate Valid()
      reads this
    {
      Shaped(mask, tokens)
    }

    constructor (mask: seq<bv24>, tokens: seq<Token>, reliable: bool)
      requires Shaped(mask, tokens)
      ensures Valid() && this.mask == mask && this.tokens == tokens && this.reliable == reliable
    {
      this.mask, this.tokens, this.reliable := mask, tokens, reliable;
    }

    method ReadMaskRow(row: nat) returns (ok: bool, v: bv24)
      requires Valid() && row < MASK_ROWS
      ensures ok ==> v == mask[row]
      ensures reliable ==> ok
    {
      ok := *;
      ok := ok || reliable;
      v := mask[row];
    }

    method WriteMaskRow(row: nat, value: bv24) returns (ok: bool)
      requires Valid() && row < MASK_ROWS
      modifies this`mask
      ensures Valid()
      ensures exists v :: Torn(old(mask)[row], value, v) && mask == old(mask)[row := v]
      ensures reliable ==> ok && mask == old(mask)[row := Program(old(mask)[row], value)]
    {
      ok := *;
      ok := ok || reliable;
      var full := Program(mask[row], value);
      assert Torn(mask[row], value, full);
      var v :| Torn(mask[row], value, v) && (reliable ==> v == full);
      mask := mask[row := v];
    }

    method ReadTokenRow(slot: nat, row: nat) returns (ok: bool, v: bv24)
      requires Valid() && slot < TOKEN_SLOTS && row < TOKEN_ROWS
      ensures ok ==> v == tokens[slot][row]
      ensures reliable ==> ok
    {
      ok := *;
      ok := ok || reliable;
      v := tokens[slot][row];
    }

    method WriteTokenRow(slot: nat, row: nat, value: bv24) returns (ok: bool)
      requires Valid() && slot < TOKEN_SLOTS && row < TOKEN_ROWS
      modifies this`tokens
      ensures Valid()
      ensures exists v :: Torn(old(tokens)[slot][row], value, v) && tokens == old(tokens)[slot := old(tokens)[slot][row := v]]
      ensures reliable ==> ok && tokens == old(tokens)[slot := old(tokens)[slot][row := Program(old(tokens)[slot][row], value)]]
    {
      ok := *;
      ok := ok || reliable;
      var full := Program(tokens[slot][row], value);
      assert Torn(tokens[slot][row], value, full);
      var v :| Torn(tokens[slot][row], value, v) && (reliable ==> v == full);
      tokens := tokens[slot := tokens[slot][row := v]];
    }

    /** Sixteen error-corrected rows are read together; a damaged row may fail the read. */
    method ReadSecret(slot: nat) returns (ok: bool, t: Token)
      requires Valid() && slot < TOKEN_SLOTS
      ensures ok ==> t == tokens[slot]
      ensures reliable ==> ok
    {
      ok := *;
      ok := ok || reliable;
      t := tokens[slot];
    }

    method WriteSecret(slot: nat, t: Token) returns (ok: bool)
      requires Valid() && slot < TOKEN_SLOTS && |t| == TOKEN_ROWS
      modifies this`tokens
      ensures Valid()
      ensures exists v :: TornToken(old(tokens)[slot], t, v) && tokens == old(tokens)[slot := v]
      ensures reliable && BlankToken(old(tokens)[slot]) ==> ok && tokens == old(tokens)[slot := t]
    {
      ok := *;
      ok := ok || reliable;
      var before := tokens[slot];
      var full: Token := seq(TOKEN_ROWS, i requires 0 <= i < TOKEN_ROWS => Program(before[i], t[i]));
      assert TornToken(before, t, full);
      var v :| TornToken(before, t, v) && (reliable ==> v == full);
      assert TornToken(before, t, v);
      assert BlankToken(before) ==> full == t by {
        if BlankToken(before) {
          forall i | 0 <= i < TOKEN_ROWS
            ensures full[i] == t[i]
          {
            assert before[i] == 0;
          }
        }
      }
      tokens := tokens[slot := v];
    }

    method CanProgram() returns (ok: bool)
      ensures reliable ==> ok
    {
      ok := *;
      ok := ok || reliable;
    }
  }

  predicate Shaped(mask: seq<bv24>, tokens: seq<Token>) {
    && |mask| == MASK_ROWS && |tokens| == TOKEN_SLOTS
    && forall i :: 0 <= i < TOKEN_SLOTS ==> |tokens[i]| == TOKEN_ROWS
  }

  predicate BlankToken(t: Token) {
    forall i :: 0 <= i < |t| ==> t[i] == 0
  }

  predicate BurnedToken(t: Token) {
    forall i :: 0 <= i < |t| ==> t[i] == BURNED
  }

  predicate TornToken(before: Token, value: Token, after: Token) {
    && |before| == |value| == |after|
    && forall i :: 0 <= i < |before| ==> Torn(before[i], value[i], after[i])
  }

  function SlotState(mask: seq<bv24>, slot: nat): MaskState
    requires |mask| == MASK_ROWS && slot < TOKEN_SLOTS
  {
    Classify(MaskField(mask[slot / 8], slot % 8))
  }
}
