// Growing a 64 KiB engine image to 128 KiB (src/shared/fido/image_upgrade.c): the image moves
// to the end of the larger store and the links of its two record lists move with it.
module ImageUpgrade {
  import opened Bytes
  import opened Limits
  import opened Options

  const OLD_BYTES: nat := 65536
  const NEW_BYTES: nat := 131072
  const ADDRESS_BASE: nat := 4096
  const DELTA: nat := 65536
  const ROM_END: nat := 65524
  const ROM_START: nat := 49140
  const DATA_END: nat := 49132

  function Word(m: seq<byte>, at: nat): nat
    requires at + 4 <= |m|
  {
    Value(Slice(m, at, 4))
  }

  function Half(m: seq<byte>, at: nat): nat
    requires at + 2 <= |m|
  {
    Value(Slice(m, at, 2))
  }

  /** A record that starts at offset and ends before previous: it links back to previous and
      its contents fit. */
  predicate RecordOk(m: seq<byte>, previous: nat, offset: nat)
    requires previous <= |m| && offset <= previous
  {
    && previous - offset >= 12 && Word(m, offset + 4) == ADDRESS_BASE + previous
    && (if Half(m, offset + 10) == 65535 then previous - offset >= 16 && Word(m, offset + 12) <= previous - offset - 16
        else Half(m, offset + 10) <= previous - offset - 12)
  }

  /** The offsets of the records from the link next on, each below the one before. */
  function Walk(m: seq<byte>, start: nat, previous: nat, next: nat): (r: Option<seq<nat>>)
    requires previous <= |m|
    decreases previous
  {
    if next == 0 then Some([])
    else if next < ADDRESS_BASE + start || next >= ADDRESS_BASE + previous then None
    else
      var offset := next - ADDRESS_BASE;
      if !RecordOk(m, previous, offset) then None
      else
        var rest := Walk(m, start, offset, Word(m, offset));
        if rest.None? then None else Some([offset] + rest.value)
  }

  function List(m: seq<byte>, start: nat, end: nat): Option<seq<nat>>
    requires end + 4 <= |m|
  {
    Walk(m, start, end, Word(m, end))
  }

  method GetWord(image: array<byte>, at: nat) returns (v: nat)
    requires at + 4 <= image.Length
    ensures v == Word(image[..], at)
  {
    v := Get(image[..], at, 4);
  }

  method GetHalf(image: array<byte>, at: nat) returns (v: nat)
    requires at + 2 <= image.Length
    ensures v == Half(image[..], at)
  {
    v := Get(image[..], at, 2);
  }

  /** The read-only check before anything is changed. */
  method ValidList(image: array<byte>, start: nat, end: nat) returns (ok: bool)
    requires end + 4 <= image.Length
    ensures ok <==> List(image[..], start, end).Some?
  {
    hide Word, Half;
    var previous: nat := end;
    var next: nat := GetWord(image, end);
    while next != 0
      invariant previous <= end
      invariant List(image[..], start, end).Some? <==> Walk(image[..], start, previous, next).Some?
      decreases previous
    {
      if next < ADDRESS_BASE + start || next >= ADDRESS_BASE + previous {
        return false;
      }
      var offset := next - ADDRESS_BASE;
      if previous - offset < 12 {
        return false;
      }
      var back := GetWord(image, offset + 4);
      if back != ADDRESS_BASE + previous {
        return false;
      }
      var length := GetHalf(image, offset + 10);
      var header := 12;
      if length == 65535 {
        if previous - offset < 16 {
          return false;
        }
        length := GetWord(image, offset + 12);
        header := 16;
      }
      if length > previous - offset - header {
        return false;
      }
      previous := offset;
      next := GetWord(image, offset);
    }
    ok := true;
  }

  // ---- What relocation means -----------------------------------------------

  function Shift(link: nat, delta: nat): nat {
    if link == 0 then 0 else link + delta
  }

  function Shifted(offsets: seq<nat>, delta: nat): (r: seq<nat>)
    ensures |r| == |offsets| && forall k :: 0 <= k < |r| ==> r[k] == offsets[k] + delta
  {
    seq(|offsets|, k requires 0 <= k < |offsets| => offsets[k] + delta)
  }

  /** The bytes that hold links: the head, and the first eight bytes of every record. */
  predicate IsLink(offsets: seq<nat>, end: nat, i: nat) {
    end <= i < end + 4 || exists k :: 0 <= k < |offsets| && offsets[k] <= i < offsets[k] + 8
  }

  /** Where the record before number k starts, or the head of the list. */
  function Before(offsets: seq<nat>, end: nat, k: nat): nat
    requires k < |offsets|
  {
    if k == 0 then end else offsets[k - 1]
  }

  /** Each record lies below the previous one with room for its header. */
  predicate Descending(offsets: seq<nat>, end: nat) {
    forall k: nat :: k < |offsets| ==> offsets[k] + 12 <= Before(offsets, end, k)
  }

  predicate RecordRelinked(m: seq<byte>, w: seq<byte>, o: nat)
    requires o + 8 <= |m| == |w|
  {
    Word(w, o) == Shift(Word(m, o), DELTA) && Word(w, o + 4) == Word(m, o + 4) + DELTA
  }

  /** w is m with the links of one list moved and nothing else changed. */
  predicate Relinked(m: seq<byte>, w: seq<byte>, end: nat, offsets: seq<nat>) {
    && |w| == |m| && end + 4 <= |m|
    && (forall k :: 0 <= k < |offsets| ==> offsets[k] + 12 <= end)
    && Word(w, end) == Shift(Word(m, end), DELTA)
    && (forall k :: 0 <= k < |offsets| ==> RecordRelinked(m, w, offsets[k]))
    && (forall i: nat :: i < |m| && !IsLink(offsets, end, i) ==> w[i] == m[i])
  }

  lemma {:induction false} WalkDescends(m: seq<byte>, start: nat, previous: nat, next: nat)
    requires previous <= |m| && Walk(m, start, previous, next).Some?
    ensures var offsets := Walk(m, start, previous, next).value;
      Descending(offsets, previous) && forall k :: 0 <= k < |offsets| ==> start <= offsets[k] && offsets[k] + 12 <= previous
    decreases previous
  {
    if next != 0 {
      WalkDescends(m, start, next - ADDRESS_BASE, Word(m, next - ADDRESS_BASE));
    }
  }

  lemma {:induction false} SameWalk(m: seq<byte>, w: seq<byte>, start: nat, previous: nat, next: nat)
    requires previous <= |m| && previous <= |w| && forall i :: start <= i < previous ==> w[i] == m[i]
    ensures Walk(w, start, previous, next) == Walk(m, start, previous, next)
    decreases previous
  {
    if next != 0 && ADDRESS_BASE + start <= next < ADDRESS_BASE + previous {
      var offset := next - ADDRESS_BASE;
      if previous - offset >= 12 {
        SameFields(m, w, previous, offset);
        SameWalk(m, w, start, offset, Word(m, offset));
      }
    }
  }

  lemma SameFields(m: seq<byte>, w: seq<byte>, previous: nat, offset: nat)
    requires offset + 12 <= previous <= |m| && previous <= |w| && forall i :: offset <= i < previous ==> w[i] == m[i]
    ensures Word(w, offset) == Word(m, offset) && RecordOk(w, previous, offset) == RecordOk(m, previous, offset)
  {
    assert Slice(w, offset, 4) == Slice(m, offset, 4) && Slice(w, offset + 4, 4) == Slice(m, offset + 4, 4);
    assert Slice(w, offset + 10, 2) == Slice(m, offset + 10, 2);
    if previous - offset >= 16 {
      assert Slice(w, offset + 12, 4) == Slice(m, offset + 12, 4);
    }
  }

  lemma NoRecords(m: seq<byte>, start: nat, previous: nat)
    requires previous <= |m|
    ensures Walk(m, start, previous, 0) == Some([])
  {
  }

  lemma Unfold(m: seq<byte>, start: nat, previous: nat, next: nat)
    requires previous <= |m| && next != 0 && Walk(m, start, previous, next).Some?
    ensures ADDRESS_BASE + start <= next < ADDRESS_BASE + previous && next - ADDRESS_BASE + 12 <= previous
    ensures var offset := next - ADDRESS_BASE; var offsets := Walk(m, start, previous, next).value;
      && RecordOk(m, previous, offset) && |offsets| > 0 && offsets[0] == offset
      && Walk(m, start, offset, Word(m, offset)) == Some(offsets[1..])
  {
  }

  lemma Fold(m: seq<byte>, start: nat, previous: nat, next: nat, rest: seq<nat>)
    requires previous <= |m| && ADDRESS_BASE + start <= next < ADDRESS_BASE + previous
    requires var offset := next - ADDRESS_BASE;
      offset + 12 <= previous && RecordOk(m, previous, offset) && Walk(m, start, offset, Word(m, offset)) == Some(rest)
    ensures Walk(m, start, previous, next) == Some([next - ADDRESS_BASE] + rest)
  {
  }

  // ---- Relocation ----------------------------------------------------------

  method PutWord(image: array<byte>, at: nat, v: nat)
    requires at + 4 <= image.Length && v <= UINT32_MAX
    modifies image
    ensures Word(image[..], at) == v
    ensures forall i :: 0 <= i < image.Length && !(at <= i < at + 4) ==> image[i] == old(image[i])
  {
    hide Little, Value;
    ghost var before := image[..];
    Put(image, at, v, 4);
    Powers();
    ValueOfLittle(v, 4);
    SliceOfSplice(before, Field(at, Little(v, 4)), at, 4);
    forall i | 0 <= i < image.Length && !(at <= i < at + 4)
      ensures image[i] == before[i]
    {
      assert image[i] == image[..][i];
    }
  }

  lemma WordKept(m: seq<byte>, w: seq<byte>, at: nat)
    requires at + 4 <= |m| && at + 4 <= |w| && forall i :: at <= i < at + 4 ==> w[i] == m[i]
    ensures Word(w, at) == Word(m, at)
  {
    assert Slice(w, at, 4) == Slice(m, at, 4);
  }

  /** Move the links of one list in place. */
  method Relocate(image: array<byte>, ghost start: nat, end: nat) returns (ghost offsets: seq<nat>)
    requires end + 4 <= image.Length && end <= OLD_BYTES && List(image[..], start, end).Some?
    modifies image
    ensures offsets == old(List(image[..], start, end)).value
    ensures Relinked(old(image[..]), image[..], end, offsets)
  {
    hide Word, Half, IsLink, Walk, RecordOk, PartlyRelinked, Relinked;
    ghost var m := image[..];
    offsets := List(m, start, end).value;
    WalkDescends(m, start, end, Word(m, end));
    var next: nat := GetWord(image, end);
    WalkBound(m, start, end, next);
    if next != 0 {
      PutWord(image, end, next + DELTA);
    }
    ghost var previous: nat := end;
    ghost var done: nat := 0;
    HeadMoved(m, image[..], end);
    while next != 0
      invariant done <= |offsets| && previous <= end && Walk(m, start, previous, next) == Some(offsets[done..])
      invariant previous == if done == 0 then end else offsets[done - 1]
      invariant PartlyRelinked(m, image[..], end, offsets[..done], previous)
      decreases previous
    {
      Unfold(m, start, previous, next);
      var offset := next - ADDRESS_BASE;
      WalkBound(m, start, offset, Word(m, offset));
      assert offsets[done..][0] == offset && offsets[done..][1..] == offsets[done + 1..];
      assert offsets[..done + 1] == offsets[..done] + [offset];
      next := RelinkOne(image, m, end, offsets[..done], previous, offset);
      previous, done := offset, done + 1;
      WalkBound(m, start, previous, next);
    }
    NoRecords(m, start, previous);
    assert offsets[..done] == offsets;
    AllRelinked(m, image[..], end, offsets, previous);
  }

  lemma WalkBound(m: seq<byte>, start: nat, previous: nat, next: nat)
    requires previous <= |m| && previous <= OLD_BYTES && Walk(m, start, previous, next).Some?
    ensures next < ADDRESS_BASE + OLD_BYTES
  {
  }

  /** The records done are relinked; nothing below previous has been touched. */
  ghost predicate PartlyRelinked(m: seq<byte>, w: seq<byte>, end: nat, done: seq<nat>, previous: nat) {
    && Relinked(m, w, end, done) && previous <= end
    && (forall k :: 0 <= k < |done| ==> previous <= done[k])
    && (forall i :: 0 <= i < previous ==> w[i] == m[i])
  }

  lemma HeadMoved(m: seq<byte>, w: seq<byte>, end: nat)
    requires |w| == |m| && end + 4 <= |m| && Word(w, end) == Shift(Word(m, end), DELTA)
    requires forall i :: 0 <= i < |m| && !(end <= i < end + 4) ==> w[i] == m[i]
    ensures PartlyRelinked(m, w, end, [], end)
  {
  }

  method RelinkOne(image: array<byte>, ghost m: seq<byte>, ghost end: nat, ghost done: seq<nat>, ghost previous: nat, offset: nat)
    returns (next: nat)
    requires PartlyRelinked(m, image[..], end, done, previous) && offset + 12 <= previous && end <= OLD_BYTES
    requires RecordOk(m, previous, offset) && Word(m, offset) < ADDRESS_BASE + OLD_BYTES
    modifies image
    ensures next == Word(m, offset)
    ensures PartlyRelinked(m, image[..], end, done + [offset], offset)
  {
    hide Word, Half, IsLink;
    ghost var before := image[..];
    WordKept(m, before, offset);
    WordKept(m, before, offset + 4);
    next := GetWord(image, offset);
    PutWord(image, offset, if next != 0 then next + DELTA else 0);
    WordKept(before, image[..], offset + 4);
    var back := GetWord(image, offset + 4);
    ghost var middle := image[..];
    PutWord(image, offset + 4, back + DELTA);
    WordKept(middle, image[..], offset);
    OneRelinked(m, before, image[..], end, done, previous, offset);
  }

  lemma OneRelinked(m: seq<byte>, w: seq<byte>, x: seq<byte>, end: nat, done: seq<nat>, previous: nat, offset: nat)
    requires PartlyRelinked(m, w, end, done, previous) && offset + 12 <= previous && |x| == |w|
    requires RecordRelinked(m, x, offset)
    requires forall i :: 0 <= i < |w| && !(offset <= i < offset + 8) ==> x[i] == w[i]
    ensures PartlyRelinked(m, x, end, done + [offset], offset)
  {
    hide Word;
    var all := done + [offset];
    WordKept(w, x, end);
    forall k | 0 <= k < |all|
      ensures RecordRelinked(m, x, all[k])
    {
      if k < |done| {
        assert RecordRelinked(m, w, done[k]);
        WordKept(w, x, done[k]);
        WordKept(w, x, done[k] + 4);
      }
    }
    forall i: nat | i < |m| && !IsLink(all, end, i)
      ensures x[i] == m[i]
    {
      assert all[|done|] == offset;
      forall k | 0 <= k < |done|
        ensures !(done[k] <= i < done[k] + 8)
      {
        assert all[k] == done[k];
      }
    }
  }

  lemma AllRelinked(m: seq<byte>, w: seq<byte>, end: nat, offsets: seq<nat>, previous: nat)
    requires PartlyRelinked(m, w, end, offsets, previous)
    ensures Relinked(m, w, end, offsets)
  {
  }

  // ---- The upgrade ---------------------------------------------------------

  predicate MovedRecord(m: seq<byte>, w: seq<byte>, delta: nat, o: nat)
    requires o + 12 <= |m| && o + delta + 12 <= |w|
  {
    Word(w, o + delta) == Shift(Word(m, o), delta) && Word(w, o + delta + 4) == Word(m, o + 4) + delta
  }

  /** From its ninth byte on, a record is what it was. */
  predicate KeptContents(m: seq<byte>, w: seq<byte>, delta: nat, o: nat, previous: nat) {
    previous <= |m| && previous + delta <= |w| && forall i :: o + 8 <= i < previous ==> w[i + delta] == m[i]
  }

  /** Every record of the list has moved with its contents. */
  predicate AllMoved(m: seq<byte>, w: seq<byte>, delta: nat, previous: nat, offsets: seq<nat>) {
    && previous <= |m| && previous + delta <= |w| && Descending(offsets, previous)
    && (forall k :: 0 <= k < |offsets| ==> offsets[k] + 12 <= previous && MovedRecord(m, w, delta, offsets[k]))
    && (forall k: nat :: k < |offsets| ==> KeptContents(m, w, delta, offsets[k], Before(offsets, previous, k)))
  }

  lemma AllMovedTail(m: seq<byte>, w: seq<byte>, delta: nat, previous: nat, offsets: seq<nat>)
    requires AllMoved(m, w, delta, previous, offsets) && |offsets| > 0
    ensures AllMoved(m, w, delta, offsets[0], offsets[1..]) && offsets[0] + 12 <= previous
    ensures MovedRecord(m, w, delta, offsets[0]) && KeptContents(m, w, delta, offsets[0], previous)
  {
    hide MovedRecord, KeptContents;
    var rest := offsets[1..];
    assert Before(offsets, previous, 0) == previous;
    forall k: nat | k < |rest|
      ensures rest[k] + 12 <= Before(rest, offsets[0], k) && rest[k] + 12 <= offsets[0] && rest[k] + 12 <= previous
      ensures MovedRecord(m, w, delta, rest[k]) && KeptContents(m, w, delta, rest[k], Before(rest, offsets[0], k))
    {
      var h := k + 1;
      assert rest[k] == offsets[h] && Before(rest, offsets[0], k) == Before(offsets, previous, h);
      DescendingOrder(offsets, previous, 0, h);
    }
  }

  /** The list seen in the larger image: the same records in the same order, each delta
      further on, linked forwards and backwards as before. */
  lemma {:induction false} ShiftedWalk(m: seq<byte>, w: seq<byte>, delta: nat, start: nat, previous: nat, next: nat, offsets: seq<nat>)
    requires previous <= |m| && previous + delta <= |w| && Walk(m, start, previous, next) == Some(offsets)
    requires AllMoved(m, w, delta, previous, offsets)
    ensures Walk(w, start + delta, previous + delta, Shift(next, delta)) == Some(Shifted(offsets, delta))
    decreases previous
  {
    hide Word, Half, AllMoved, KeptContents, Walk, RecordOk;
    if next == 0 {
      NoRecords(m, start, previous);
      NoRecords(w, start + delta, previous + delta);
    } else {
      Unfold(m, start, previous, next);
      var offset, rest := next - ADDRESS_BASE, offsets[1..];
      AllMovedTail(m, w, delta, previous, offsets);
      MovedOk(m, w, delta, previous, offset);
      ShiftedWalk(m, w, delta, start, offset, Word(m, offset), rest);
      Fold(w, start + delta, previous + delta, next + delta, Shifted(rest, delta));
      assert Shifted(offsets, delta) == [offset + delta] + Shifted(rest, delta);
    }
  }

  /** A moved record is as well formed as it was. */
  lemma MovedOk(m: seq<byte>, w: seq<byte>, delta: nat, previous: nat, offset: nat)
    requires previous <= |m| && previous + delta <= |w| && offset + 12 <= previous && RecordOk(m, previous, offset)
    requires MovedRecord(m, w, delta, offset) && KeptContents(m, w, delta, offset, previous)
    ensures RecordOk(w, previous + delta, offset + delta) && Word(w, offset + delta) == Shift(Word(m, offset), delta)
  {
    hide Word, Half;
    ContentsRead(m, w, delta, offset, previous);
  }

  lemma ContentsRead(m: seq<byte>, w: seq<byte>, delta: nat, o: nat, previous: nat)
    requires KeptContents(m, w, delta, o, previous) && o + 12 <= previous
    ensures Half(w, o + delta + 10) == Half(m, o + 10)
    ensures o + 16 <= previous ==> Word(w, o + delta + 12) == Word(m, o + 12)
  {
    assert Slice(w, o + delta + 10, 2) == Slice(m, o + 10, 2);
    if o + 16 <= previous {
      assert Slice(w, o + delta + 12, 4) == Slice(m, o + 12, 4);
    }
  }

  predicate AllOnes(m: seq<byte>) {
    forall i :: 0 <= i < |m| ==> m[i] == 255
  }

  // An image's two lists: the second fills the space up to its head at the image's end, the
  // first everything below.

  const ROM_BYTES: nat := 16384
  const SMALLEST: nat := 16404

  function RomEnd(size: nat): nat
    requires size >= SMALLEST
  {
    size - 12
  }

  function RomStart(size: nat): nat
    requires size >= SMALLEST
  {
    RomEnd(size) - ROM_BYTES
  }

  function DataEnd(size: nat): nat
    requires size >= SMALLEST
  {
    RomStart(size) - 8
  }

  /** w is m moved to the end of a larger image: ones before it, both lists with the same
      records in the same order delta further on, and every other byte as it was. */
  ghost predicate Relocated(m: seq<byte>, w: seq<byte>, delta: nat, data: seq<nat>, rom: seq<nat>)
    requires |m| >= SMALLEST
  {
    && |w| == |m| + delta
    && List(m, 0, DataEnd(|m|)) == Some(data) && List(m, RomStart(|m|), RomEnd(|m|)) == Some(rom)
    && (forall i :: 0 <= i < delta ==> w[i] == 255)
    && List(w, delta, DataEnd(|m|) + delta) == Some(Shifted(data, delta))
    && List(w, RomStart(|m|) + delta, RomEnd(|m|) + delta) == Some(Shifted(rom, delta))
    && (forall i: nat :: i < |m| && !IsLink(data, DataEnd(|m|), i) && !IsLink(rom, RomEnd(|m|), i) ==> w[i + delta] == m[i])
  }

  /** What an upgrade turns the first 64 KiB, m, into. */
  ghost predicate Upgraded(m: seq<byte>, w: seq<byte>, data: seq<nat>, rom: seq<nat>) {
    |m| == OLD_BYTES && Relocated(m, w, DELTA, data, rom)
  }

  /** Move the first 64 KiB to the end and blank what they leave. */
  method MoveUp(image: array<byte>)
    requires image.Length == NEW_BYTES
    modifies image
    ensures forall i :: 0 <= i < DELTA ==> image[i] == 255
    ensures forall i :: 0 <= i < OLD_BYTES ==> image[i + DELTA] == old(image[i])
  {
    for i := 0 to OLD_BYTES
      invariant forall k :: 0 <= k < OLD_BYTES ==> image[k] == old(image[k])
      invariant forall k :: 0 <= k < i ==> image[k + DELTA] == old(image[k])
    {
      image[i + DELTA] := image[i];
    }
    for i := 0 to DELTA
      invariant forall k :: 0 <= k < i ==> image[k] == 255
      invariant forall k :: 0 <= k < OLD_BYTES ==> image[k + DELTA] == old(image[k])
    {
      image[i] := 255;
    }
  }

  /** Both relocations and the move together shift one list. */
  lemma ListMoved(m: seq<byte>, a: seq<byte>, w: seq<byte>, start: nat, end: nat, offsets: seq<nat>)
    requires |m| == |a| == |w| == NEW_BYTES && start <= end && end + 4 <= OLD_BYTES && List(m, start, end) == Some(offsets)
    requires Relinked(m, a, end, offsets)
    requires forall i :: start <= i < end + 4 ==> w[i + DELTA] == a[i]
    ensures List(w, start + DELTA, end + DELTA) == Some(Shifted(offsets, DELTA))
  {
    hide Word, Walk, MovedRecord, KeptContents;
    WalkDescends(m, start, end, Word(m, end));
    ShiftedWord(a, w, end);
    forall k: nat | k < |offsets|
      ensures offsets[k] + 12 <= end && MovedRecord(m, w, DELTA, offsets[k]) && KeptContents(m, w, DELTA, offsets[k], Before(offsets, end, k))
    {
      OneMoved(m, a, w, start, end, offsets, k);
    }
    ShiftedWalk(m, w, DELTA, start, end, Word(m, end), offsets);
  }

  lemma OneMoved(m: seq<byte>, a: seq<byte>, w: seq<byte>, start: nat, end: nat, offsets: seq<nat>, k: nat)
    requires |m| == |a| == |w| == NEW_BYTES && start <= end && end + 4 <= OLD_BYTES && Relinked(m, a, end, offsets)
    requires Descending(offsets, end) && k < |offsets| && start <= offsets[k] && offsets[k] + 12 <= end
    requires forall i :: start <= i < end + 4 ==> w[i + DELTA] == a[i]
    ensures MovedRecord(m, w, DELTA, offsets[k]) && KeptContents(m, w, DELTA, offsets[k], Before(offsets, end, k))
  {
    hide Word, IsLink;
    var o := offsets[k];
    assert RecordRelinked(m, a, o);
    ShiftedWord(a, w, o);
    ShiftedWord(a, w, o + 4);
    BeforeBound(offsets, end, k);
    forall i: nat | o + 8 <= i < Before(offsets, end, k)
      ensures w[i + DELTA] == m[i]
    {
      NotLink(offsets, end, k, i);
    }
  }

  lemma ShiftedWord(a: seq<byte>, w: seq<byte>, at: nat)
    requires at + 4 <= |a| && at + DELTA + 4 <= |w| && forall i :: at <= i < at + 4 ==> w[i + DELTA] == a[i]
    ensures Word(w, at + DELTA) == Word(a, at)
  {
    assert Slice(w, at + DELTA, 4) == Slice(a, at, 4);
  }

  /** Between a record's links and the record before it there are no links. */
  lemma NotLink(offsets: seq<nat>, end: nat, k: nat, i: nat)
    requires Descending(offsets, end) && k < |offsets| && offsets[k] + 8 <= i < Before(offsets, end, k)
    ensures !IsLink(offsets, end, i)
  {
    BeforeBound(offsets, end, k);
    forall j | 0 <= j < |offsets|
      ensures !(offsets[j] <= i < offsets[j] + 8)
    {
      DescendingOrder(offsets, end, if j < k then j else k, if j < k then k else j);
      if j < k {
        DescendingOrder(offsets, end, j, k - 1);
      }
    }
  }

  lemma BeforeBound(offsets: seq<nat>, end: nat, k: nat)
    requires Descending(offsets, end) && k < |offsets|
    ensures Before(offsets, end, k) <= end
  {
    if k > 0 {
      DescendingOrder(offsets, end, k - 1, k - 1);
    }
  }

  lemma {:induction false} DescendingOrder(offsets: seq<nat>, end: nat, j: nat, k: nat)
    requires Descending(offsets, end) && j <= k < |offsets|
    ensures j < k ==> offsets[k] + 12 <= offsets[j]
    ensures offsets[j] + 12 <= end
    decreases k
  {
    assert offsets[k] + 12 <= Before(offsets, end, k);
    if j < k {
      DescendingOrder(offsets, end, j, k - 1);
    } else if 0 < k {
      DescendingOrder(offsets, end, k - 1, k - 1);
    }
  }

  lemma SameList(m: seq<byte>, w: seq<byte>, start: nat, end: nat)
    requires end + 4 <= |m| && end + 4 <= |w| && start <= end && forall i :: start <= i < end + 4 ==> w[i] == m[i]
    ensures List(w, start, end) == List(m, start, end)
  {
    WordKept(m, w, end);
    SameWalk(m, w, start, end, Word(m, end));
  }

  /** A list's links lie between its start and its head. */
  lemma LinksWithin(m: seq<byte>, start: nat, end: nat, offsets: seq<nat>, i: nat)
    requires end + 4 <= |m| && start <= end && List(m, start, end) == Some(offsets)
    ensures IsLink(offsets, end, i) ==> start <= i < end + 4
  {
    WalkDescends(m, start, end, Word(m, end));
  }

  lemma RomUntouched(m: seq<byte>, a: seq<byte>, data: seq<nat>)
    requires |m| == NEW_BYTES && List(m, 0, DATA_END) == Some(data) && Relinked(m, a, DATA_END, data)
    ensures List(a, ROM_START, ROM_END) == List(m, ROM_START, ROM_END)
  {
    hide Word, IsLink;
    forall i: nat | ROM_START <= i < ROM_END + 4
      ensures a[i] == m[i]
    {
      LinksWithin(m, 0, DATA_END, data, i);
    }
    SameList(m, a, ROM_START, ROM_END);
  }

  lemma UpgradeDone(m: seq<byte>, whole: seq<byte>, a: seq<byte>, b: seq<byte>, w: seq<byte>, data: seq<nat>, rom: seq<nat>)
    requires |whole| == |w| == NEW_BYTES && m == whole[..OLD_BYTES]
    requires List(whole, 0, DATA_END) == Some(data) && Relinked(whole, a, DATA_END, data)
    requires List(a, ROM_START, ROM_END) == Some(rom) == List(whole, ROM_START, ROM_END) && Relinked(a, b, ROM_END, rom)
    requires (forall i :: 0 <= i < DELTA ==> w[i] == 255) && (forall i :: 0 <= i < OLD_BYTES ==> w[i + DELTA] == b[i])
    ensures Upgraded(m, w, data, rom)
  {
    hide Word, IsLink;
    SameList(whole, m, 0, DATA_END);
    SameList(whole, m, ROM_START, ROM_END);
    forall i: nat | i < DATA_END + 4
      ensures w[i + DELTA] == a[i]
    {
      LinksWithin(a, ROM_START, ROM_END, rom, i);
    }
    ListMoved(whole, a, w, 0, DATA_END, data);
    ListMoved(a, b, w, ROM_START, ROM_END, rom);
  }

  /** Accepts blank images and images whose two lists are well formed, and nothing else; a
      refused image is left as it was. */
  method Upgrade(image: array<byte>) returns (ok: bool, ghost data: seq<nat>, ghost rom: seq<nat>)
    requires image.Length == NEW_BYTES
    modifies image
    ensures var m := old(image[..OLD_BYTES]);
      ok <==> AllOnes(m) || (List(m, 0, DATA_END).Some? && List(m, ROM_START, ROM_END).Some?)
    ensures !ok ==> image[..] == old(image[..])
    ensures ok && old(AllOnes(image[..OLD_BYTES])) ==> AllOnes(image[..])
    ensures ok && !old(AllOnes(image[..OLD_BYTES])) ==> Upgraded(old(image[..OLD_BYTES]), image[..], data, rom)
  {
    hide Word, Half, IsLink;
    ghost var m, whole := image[..OLD_BYTES], image[..];
    data, rom := [], [];
    var i := 0;
    while i < OLD_BYTES && image[i] == 255
      invariant 0 <= i <= OLD_BYTES && forall k :: 0 <= k < i ==> image[k] == 255
    {
      i := i + 1;
    }
    if i == OLD_BYTES {
      for k := 0 to NEW_BYTES
        invariant forall j :: 0 <= j < k ==> image[j] == 255
      {
        image[k] := 255;
      }
      return true, data, rom;
    }
    assert m[i] != 255;
    SameList(whole, m, 0, DATA_END);
    SameList(whole, m, ROM_START, ROM_END);
    var first := ValidList(image, 0, DATA_END);
    if !first {
      return false, data, rom;
    }
    var second := ValidList(image, ROM_START, ROM_END);
    if !second {
      return false, data, rom;
    }
    data := Relocate(image, 0, DATA_END);
    ghost var a := image[..];
    RomUntouched(whole, a, data);
    rom := Relocate(image, ROM_START, ROM_END);
    ghost var b := image[..];
    MoveUp(image);
    UpgradeDone(m, whole, a, b, image[..], data, rom);
    ok := true;
  }
}
