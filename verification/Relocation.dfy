// Moving an engine image to the end of a larger disk by rewriting its links where they land
// (src/shared/fido/store.c:494-516), as one function of the image and the distance.
module Relocation {
  import opened Bytes
  import opened ImageUpgrade
  import opened Limits
  import opened Options

  function Ones(n: nat): (r: seq<byte>)
    ensures |r| == n && forall i :: 0 <= i < n ==> r[i] == 255
  {
    seq(n, _ => 255)
  }

  /** The first four bytes of a record, or of a list's head, delta further on. */
  function NextLink(link: nat, delta: nat): (r: seq<byte>)
    ensures |r| == 4
  {
    Little(Shift(link, delta), 4)
  }

  /** The first eight bytes of the record before which previous starts. */
  function Links(link: nat, previous: nat, delta: nat): (r: seq<byte>)
    ensures |r| == 8
  {
    NextLink(link, delta) + Little(ADDRESS_BASE + previous + delta, 4)
  }

  /** w once the records of m's list from the link next on have been linked in it. */
  function Linked(w: seq<byte>, m: seq<byte>, delta: nat, start: nat, previous: nat, next: nat): (r: seq<byte>)
    requires previous <= |m| && |w| == |m| + delta && Walk(m, start, previous, next).Some?
    ensures |r| == |w|
    decreases previous
  {
    if next == 0 then w
    else
      var offset := next - ADDRESS_BASE;
      Linked(Splice(w, Field(delta + offset, Links(Word(m, offset), previous, delta))), m, delta, start, offset, Word(m, offset))
  }

  function WithList(w: seq<byte>, m: seq<byte>, delta: nat, start: nat, end: nat): (r: seq<byte>)
    requires |w| == |m| + delta && end + 4 <= |m| && List(m, start, end).Some?
    ensures |r| == |w|
  {
    Linked(Splice(w, Field(delta + end, NextLink(Word(m, end), delta))), m, delta, start, end, Word(m, end))
  }

  predicate Movable(m: seq<byte>) {
    |m| >= SMALLEST
    && (AllOnes(m) || (List(m, 0, DataEnd(|m|)).Some? && List(m, RomStart(|m|), RomEnd(|m|)).Some?))
  }

  /** The image in a disk delta larger. */
  function Moved(m: seq<byte>, delta: nat): (w: seq<byte>)
    requires Movable(m)
    ensures |w| == |m| + delta
  {
    var w := Ones(delta) + m;
    if AllOnes(m) then w
    else WithList(WithList(w, m, delta, 0, DataEnd(|m|)), m, delta, RomStart(|m|), RomEnd(|m|))
  }

  // ---- What it means -------------------------------------------------------

  /** Whether byte i of the larger disk holds a link of one of these records. */
  predicate InRecords(offsets: seq<nat>, delta: nat, i: nat) {
    exists k :: 0 <= k < |offsets| && offsets[k] + delta <= i < offsets[k] + delta + 8
  }

  /** Everything the list's records were given, and what was left alone. */
  predicate LinkedAs(w: seq<byte>, r: seq<byte>, m: seq<byte>, delta: nat, previous: nat, offsets: seq<nat>) {
    && |r| == |w| == |m| + delta && previous <= |m|
    && (forall k :: 0 <= k < |offsets| ==> offsets[k] + 12 <= previous && MovedRecord(m, r, delta, offsets[k]))
    && (forall i: nat :: i < |r| && !InRecords(offsets, delta, i) ==> r[i] == w[i])
  }

  lemma SplicedWords(w: seq<byte>, at: nat, a: nat, b: nat)
    requires at + 8 <= |w| && a <= UINT32_MAX && b <= UINT32_MAX
    ensures var r := Splice(w, Field(at, Little(a, 4) + Little(b, 4)));
      Word(r, at) == a && Word(r, at + 4) == b && forall i :: 0 <= i < |w| && !(at <= i < at + 8) ==> r[i] == w[i]
  {
    hide Little, Value;
    var r := Splice(w, Field(at, Little(a, 4) + Little(b, 4)));
    Powers();
    ValueOfLittle(a, 4);
    ValueOfLittle(b, 4);
    assert Slice(r, at, 4) == Little(a, 4) && Slice(r, at + 4, 4) == Little(b, 4);
  }

  lemma SplicedWord(w: seq<byte>, at: nat, a: nat)
    requires at + 4 <= |w| && a <= UINT32_MAX
    ensures var r := Splice(w, Field(at, Little(a, 4)));
      Word(r, at) == a && forall i :: 0 <= i < |w| && !(at <= i < at + 4) ==> r[i] == w[i]
  {
    hide Little, Value;
    var r := Splice(w, Field(at, Little(a, 4)));
    Powers();
    ValueOfLittle(a, 4);
    assert Slice(r, at, 4) == Little(a, 4);
  }

  lemma {:induction false} LinkedRecords(w: seq<byte>, m: seq<byte>, delta: nat, start: nat, previous: nat, next: nat)
    requires previous <= |m| && |w| == |m| + delta && Walk(m, start, previous, next).Some?
    requires ADDRESS_BASE + |m| + delta <= UINT32_MAX
    ensures LinkedAs(w, Linked(w, m, delta, start, previous, next), m, delta, previous, Walk(m, start, previous, next).value)
    decreases previous
  {
    hide Word, Half, RecordOk, Links, Splice;
    if next == 0 {
      NoRecords(m, start, previous);
    } else {
      Unfold(m, start, previous, next);
      var offset, offsets := next - ADDRESS_BASE, Walk(m, start, previous, next).value;
      var x := Splice(w, Field(delta + offset, Links(Word(m, offset), previous, delta)));
      FirstLinked(w, x, m, delta, start, previous, offset);
      LinkedRecords(x, m, delta, start, offset, Word(m, offset));
      var r := Linked(x, m, delta, start, offset, Word(m, offset));
      JoinLinked(w, x, r, m, delta, previous, offsets);
    }
  }

  lemma FirstLinked(w: seq<byte>, x: seq<byte>, m: seq<byte>, delta: nat, start: nat, previous: nat, offset: nat)
    requires offset + 12 <= previous <= |m| && |w| == |m| + delta && RecordOk(m, previous, offset)
    requires Walk(m, start, offset, Word(m, offset)).Some? && ADDRESS_BASE + |m| + delta <= UINT32_MAX
    requires x == Splice(w, Field(delta + offset, Links(Word(m, offset), previous, delta)))
    ensures |x| == |w| && MovedRecord(m, x, delta, offset)
    ensures forall i: nat :: i < |w| && !(offset + delta <= i < offset + delta + 8) ==> x[i] == w[i]
  {
    hide Word, Half, Splice, Little;
    assert Shift(Word(m, offset), delta) <= UINT32_MAX;
    SplicedWords(w, delta + offset, Shift(Word(m, offset), delta), ADDRESS_BASE + previous + delta);
  }

  lemma JoinLinked(w: seq<byte>, x: seq<byte>, r: seq<byte>, m: seq<byte>, delta: nat, previous: nat, offsets: seq<nat>)
    requires |offsets| > 0 && offsets[0] + 12 <= previous <= |m| && |x| == |w| == |m| + delta
    requires MovedRecord(m, x, delta, offsets[0])
    requires forall i: nat :: i < |w| && !(offsets[0] + delta <= i < offsets[0] + delta + 8) ==> x[i] == w[i]
    requires LinkedAs(x, r, m, delta, offsets[0], offsets[1..])
    ensures LinkedAs(w, r, m, delta, previous, offsets)
  {
    hide Word, Half;
    var rest := offsets[1..];
    forall i: nat | offsets[0] + delta <= i < offsets[0] + delta + 8
      ensures r[i] == x[i]
    {
      assert forall k :: 0 <= k < |rest| ==> rest[k] + 12 <= offsets[0];
    }
    assert MovedRecord(m, r, delta, offsets[0]) by {
      WordKept(x, r, offsets[0] + delta);
      WordKept(x, r, offsets[0] + delta + 4);
    }
    forall k | 0 <= k < |offsets|
      ensures offsets[k] + 12 <= previous && MovedRecord(m, r, delta, offsets[k])
    {
      if k > 0 {
        assert offsets[k] == rest[k - 1];
      }
    }
    forall i: nat | i < |r| && !InRecords(offsets, delta, i)
      ensures r[i] == w[i]
    {
      forall k | 0 <= k < |rest|
        ensures !(rest[k] + delta <= i < rest[k] + delta + 8)
      {
        assert rest[k] == offsets[k + 1];
      }
    }
  }

  /** The head and the records of one list, moved. */
  predicate ListedAs(w: seq<byte>, r: seq<byte>, m: seq<byte>, delta: nat, end: nat, offsets: seq<nat>) {
    && |r| == |w| == |m| + delta && end + 4 <= |m|
    && Word(r, end + delta) == Shift(Word(m, end), delta)
    && (forall k :: 0 <= k < |offsets| ==> offsets[k] + 12 <= end && MovedRecord(m, r, delta, offsets[k]))
    && (forall i: nat :: i < |r| && !IsLink(Shifted(offsets, delta), end + delta, i) ==> r[i] == w[i])
  }

  lemma WithListMeans(w: seq<byte>, m: seq<byte>, delta: nat, start: nat, end: nat)
    requires |w| == |m| + delta && end + 4 <= |m| && List(m, start, end).Some? && ADDRESS_BASE + |m| + delta <= UINT32_MAX
    ensures ListedAs(w, WithList(w, m, delta, start, end), m, delta, end, List(m, start, end).value)
  {
    hide Word, Half, RecordOk, Splice, Little, Walk, MovedRecord;
    var x := Splice(w, Field(delta + end, NextLink(Word(m, end), delta)));
    var offsets, r := List(m, start, end).value, WithList(w, m, delta, start, end);
    assert Shift(Word(m, end), delta) <= UINT32_MAX by {
      LinkBound(m, start, end, Word(m, end));
    }
    SplicedWord(w, delta + end, Shift(Word(m, end), delta));
    LinkedRecords(x, m, delta, start, end, Word(m, end));
    assert forall i: nat :: end + delta <= i < end + delta + 4 ==> !InRecords(offsets, delta, i);
    WordKept(x, r, end + delta);
    forall i: nat | i < |r| && !IsLink(Shifted(offsets, delta), end + delta, i)
      ensures r[i] == w[i]
    {
      forall k | 0 <= k < |offsets|
        ensures !(offsets[k] + delta <= i < offsets[k] + delta + 8)
      {
        assert Shifted(offsets, delta)[k] == offsets[k] + delta;
      }
    }
  }

  lemma LinkBound(m: seq<byte>, start: nat, previous: nat, next: nat)
    requires previous <= |m| && Walk(m, start, previous, next).Some?
    ensures next < ADDRESS_BASE + |m| || next == 0
  {
  }

  lemma ShiftedLink(offsets: seq<nat>, end: nat, delta: nat, i: nat)
    requires i >= delta
    ensures IsLink(Shifted(offsets, delta), end + delta, i) <==> IsLink(offsets, end, i - delta)
  {
    var s := Shifted(offsets, delta);
    if exists k :: 0 <= k < |offsets| && offsets[k] <= i - delta < offsets[k] + 8 {
      var k :| 0 <= k < |offsets| && offsets[k] <= i - delta < offsets[k] + 8;
      assert s[k] <= i < s[k] + 8;
    }
    if exists k :: 0 <= k < |s| && s[k] <= i < s[k] + 8 {
      var k :| 0 <= k < |s| && s[k] <= i < s[k] + 8;
      assert offsets[k] <= i - delta < offsets[k] + 8;
    }
  }

  lemma NotShifted(offsets: seq<nat>, end: nat, delta: nat, i: nat)
    requires i < delta
    ensures !IsLink(Shifted(offsets, delta), end + delta, i)
  {
  }

  /** A list linked as above, over a copy of m, is the list delta further on. */
  lemma ListedIsShifted(w: seq<byte>, r: seq<byte>, m: seq<byte>, delta: nat, start: nat, end: nat)
    requires end + 4 <= |m| && start <= end && List(m, start, end).Some?
    requires ListedAs(w, r, m, delta, end, List(m, start, end).value)
    requires forall i: nat :: start + delta <= i < end + delta ==> w[i] == m[i - delta]
    ensures List(r, start + delta, end + delta) == Some(Shifted(List(m, start, end).value, delta))
  {
    hide Word, Half, Walk, MovedRecord, RecordOk, IsLink, KeptContents;
    var offsets := List(m, start, end).value;
    WalkDescends(m, start, end, Word(m, end));
    forall k: nat | k < |offsets|
      ensures KeptContents(m, r, delta, offsets[k], Before(offsets, end, k))
    {
      RecordKept(w, r, m, delta, start, end, offsets, k);
    }
    ShiftedWalk(m, r, delta, start, end, Word(m, end), offsets);
  }

  lemma RecordKept(w: seq<byte>, r: seq<byte>, m: seq<byte>, delta: nat, start: nat, end: nat, offsets: seq<nat>, k: nat)
    requires Descending(offsets, end) && k < |offsets| && start <= offsets[k] && ListedAs(w, r, m, delta, end, offsets)
    requires forall i: nat :: start + delta <= i < end + delta ==> w[i] == m[i - delta]
    ensures KeptContents(m, r, delta, offsets[k], Before(offsets, end, k))
  {
    hide Word, Half, MovedRecord, IsLink, Descending;
    BeforeBound(offsets, end, k);
    forall i: nat | offsets[k] + 8 <= i < Before(offsets, end, k)
      ensures r[i + delta] == m[i]
    {
      var j := i + delta;
      NotLink(offsets, end, k, i);
      ShiftedLink(offsets, end, delta, j);
      assert r[j] == w[j];
    }
  }

  /** The move keeps both lists and every payload. */
  lemma MovedRelocates(m: seq<byte>, delta: nat)
    requires Movable(m) && !AllOnes(m) && ADDRESS_BASE + |m| + delta <= UINT32_MAX
    ensures Relocated(m, Moved(m, delta), delta, List(m, 0, DataEnd(|m|)).value, List(m, RomStart(|m|), RomEnd(|m|)).value)
  {
    hide Word, Half, Walk, RecordOk, IsLink, MovedRecord;
    var size := |m|;
    var data, rom := List(m, 0, DataEnd(size)).value, List(m, RomStart(size), RomEnd(size)).value;
    var w := Ones(delta) + m;
    var a := WithList(w, m, delta, 0, DataEnd(size));
    var b := WithList(a, m, delta, RomStart(size), RomEnd(size));
    WithListMeans(w, m, delta, 0, DataEnd(size));
    WithListMeans(a, m, delta, RomStart(size), RomEnd(size));
    ListedIsShifted(w, a, m, delta, 0, DataEnd(size));
    forall i: nat | RomStart(size) + delta <= i < RomEnd(size) + delta
      ensures a[i] == m[i - delta]
    {
      LinksWithin(m, 0, DataEnd(size), data, i - delta);
      ShiftedLink(data, DataEnd(size), delta, i);
    }
    ListedIsShifted(a, b, m, delta, RomStart(size), RomEnd(size));
    forall i: nat | delta <= i < DataEnd(size) + delta + 4
      ensures b[i] == a[i]
    {
      LinksWithin(m, RomStart(size), RomEnd(size), rom, i - delta);
      ShiftedLink(rom, RomEnd(size), delta, i);
    }
    SameList(a, b, delta, DataEnd(size) + delta);
    forall i: nat | i < delta
      ensures b[i] == 255
    {
      NotShifted(data, DataEnd(size), delta, i);
      NotShifted(rom, RomEnd(size), delta, i);
      assert b[i] == a[i] == w[i];
    }
    forall i: nat | i < size && !IsLink(data, DataEnd(size), i) && !IsLink(rom, RomEnd(size), i)
      ensures b[i + delta] == m[i]
    {
      var j := i + delta;
      ShiftedLink(data, DataEnd(size), delta, j);
      ShiftedLink(rom, RomEnd(size), delta, j);
      assert b[j] == a[j] == w[j];
    }
  }

  // ---- One transformation --------------------------------------------------

  /** A walk says what the links of its records are. */
  lemma {:induction false} WalkLinks(m: seq<byte>, start: nat, previous: nat, next: nat, k: nat)
    requires previous <= |m| && Walk(m, start, previous, next).Some? && k < |Walk(m, start, previous, next).value|
    ensures var offsets := Walk(m, start, previous, next).value;
      && Descending(offsets, previous) && Before(offsets, previous, k) <= previous && offsets[k] + 12 <= previous
      && Word(m, offsets[k] + 4) == ADDRESS_BASE + Before(offsets, previous, k)
      && Word(m, offsets[k]) == LinkAfter(offsets, k)
    decreases previous
  {
    hide Word, Half, Walk, RecordOk, Before, LinkAfter, Descending;
    WalkDescends(m, start, previous, next);
    WalkNotEmpty(m, start, previous, next);
    Unfold(m, start, previous, next);
    var offset, offsets := next - ADDRESS_BASE, Walk(m, start, previous, next).value;
    RecordBack(m, previous, offset);
    BeforeBound(offsets, previous, k);
    DescendingOrder(offsets, previous, k, k);
    LinksOfTail(offsets, previous, k);
    if k > 0 {
      WalkLinks(m, start, offset, Word(m, offset), k - 1);
    } else {
      FirstLink(m, start, offset, Word(m, offset));
    }
  }

  lemma WalkNotEmpty(m: seq<byte>, start: nat, previous: nat, next: nat)
    requires previous <= |m| && Walk(m, start, previous, next).Some? && |Walk(m, start, previous, next).value| > 0
    ensures next != 0
  {
  }

  lemma RecordBack(m: seq<byte>, previous: nat, offset: nat)
    requires previous <= |m| && offset <= previous && RecordOk(m, previous, offset)
    ensures previous - offset >= 12 && Word(m, offset + 4) == ADDRESS_BASE + previous
  {
  }

  /** The neighbours of a record, seen from the list without its first. */
  lemma LinksOfTail(offsets: seq<nat>, previous: nat, k: nat)
    requires k < |offsets|
    ensures k > 0 ==> offsets[1..][k - 1] == offsets[k]
    ensures k > 0 ==> Before(offsets[1..], offsets[0], k - 1) == Before(offsets, previous, k)
    ensures k > 0 ==> LinkAfter(offsets[1..], k - 1) == LinkAfter(offsets, k)
    ensures k == 0 ==> Before(offsets, previous, k) == previous && LinkAfter(offsets, k) == HeadLink(offsets[1..])
  {
  }

  /** The link record k holds: to the next record, or none. */
  function LinkAfter(offsets: seq<nat>, k: nat): nat {
    if k + 1 < |offsets| then ADDRESS_BASE + offsets[k + 1] else 0
  }

  function HeadLink(offsets: seq<nat>): nat {
    if |offsets| == 0 then 0 else ADDRESS_BASE + offsets[0]
  }

  lemma FirstLink(m: seq<byte>, start: nat, previous: nat, next: nat)
    requires previous <= |m| && Walk(m, start, previous, next).Some?
    ensures next == HeadLink(Walk(m, start, previous, next).value)
  {
  }

  /** Four bytes with one value are the same bytes. */
  lemma WordDetermines(a: seq<byte>, b: seq<byte>, at: nat)
    requires at + 4 <= |a| && at + 4 <= |b| && Word(a, at) == Word(b, at)
    ensures forall i :: at <= i < at + 4 ==> a[i] == b[i]
  {
    hide Little, Value;
    LittleOfValue(Slice(a, at, 4));
    LittleOfValue(Slice(b, at, 4));
    forall i | at <= i < at + 4
      ensures a[i] == b[i]
    {
      assert a[i] == Slice(a, at, 4)[i - at] && b[i] == Slice(b, at, 4)[i - at];
    }
  }

  lemma ListLinks(v: seq<byte>, w: seq<byte>, start: nat, end: nat, offsets: seq<nat>, i: nat)
    requires end + 4 <= |v| && end + 4 <= |w| && List(v, start, end) == Some(offsets) == List(w, start, end)
    requires IsLink(offsets, end, i)
    ensures i < end + 4 && v[i] == w[i]
  {
    hide Word, Half, Walk;
    FirstLink(v, start, end, Word(v, end));
    FirstLink(w, start, end, Word(w, end));
    WordDetermines(v, w, end);
    if !(end <= i < end + 4) {
      var k: nat :| k < |offsets| && offsets[k] <= i < offsets[k] + 8;
      WalkLinks(v, start, end, Word(v, end), k);
      WalkLinks(w, start, end, Word(w, end), k);
      WordDetermines(v, w, offsets[k]);
      WordDetermines(v, w, offsets[k] + 4);
    }
  }

  /** There is only one image a move can give. */
  lemma RelocationIsUnique(m: seq<byte>, v: seq<byte>, w: seq<byte>, delta: nat, data: seq<nat>, rom: seq<nat>)
    requires |m| >= SMALLEST && Relocated(m, v, delta, data, rom) && Relocated(m, w, delta, data, rom)
    ensures v == w
  {
    hide Word, Half, Walk, IsLink, List;
    forall i: nat | i < |v|
      ensures v[i] == w[i]
    {
      if i >= delta {
        var j := i - delta;
        ShiftedLink(data, DataEnd(|m|), delta, i);
        ShiftedLink(rom, RomEnd(|m|), delta, i);
        if IsLink(data, DataEnd(|m|), j) {
          ListLinks(v, w, delta, DataEnd(|m|) + delta, Shifted(data, delta), i);
        } else if IsLink(rom, RomEnd(|m|), j) {
          ListLinks(v, w, RomStart(|m|) + delta, RomEnd(|m|) + delta, Shifted(rom, delta), i);
        } else {
          assert v[j + delta] == w[j + delta];
        }
      }
    }
  }

  /** So the older store's upgrade in memory computes what the move does. */
  lemma UpgradeIsMove(m: seq<byte>, w: seq<byte>, data: seq<nat>, rom: seq<nat>)
    requires Upgraded(m, w, data, rom) && !AllOnes(m)
    ensures Movable(m) && w == Moved(m, DELTA)
  {
    hide Word, Half, Walk, IsLink, List;
    MovedRelocates(m, DELTA);
    RelocationIsUnique(m, w, Moved(m, DELTA), DELTA, data, rom);
  }

  /** Where a list may start does not matter to a list that starts later. */
  lemma {:induction false} WalkFrom(m: seq<byte>, start: nat, later: nat, previous: nat, next: nat)
    requires previous <= |m| && Walk(m, start, previous, next).Some?
    requires forall k :: 0 <= k < |Walk(m, start, previous, next).value| ==> Walk(m, start, previous, next).value[k] >= later
    ensures Walk(m, later, previous, next) == Walk(m, start, previous, next)
    decreases previous
  {
    hide Word, Half;
    if next != 0 {
      Unfold(m, start, previous, next);
      var offset, offsets := next - ADDRESS_BASE, Walk(m, start, previous, next).value;
      assert offsets[0] == offset;
      WalkFrom(m, start, later, offset, Word(m, offset));
      Fold(m, later, previous, next, offsets[1..]);
    }
  }

  /** An image with lists never looks blank. */
  lemma ListedNotOnes(m: seq<byte>, start: nat, end: nat)
    requires end + 4 <= |m| && List(m, start, end).Some? && ADDRESS_BASE + |m| <= UINT32_MAX
    ensures !AllOnes(m)
  {
    hide Value;
    if AllOnes(m) {
      assert Slice(m, end, 4) == [255, 255, 255, 255];
      OnesValue();
    }
  }

  lemma OnesValue()
    ensures Value([255, 255, 255, 255]) == UINT32_MAX
  {
    assert Value([255]) == 255 && Value([255, 255]) == 65535;
    assert [255, 255, 255, 255][1..] == [255, 255, 255] && [255, 255, 255][1..] == [255, 255];
  }

  /** Moving twice is moving once: a small image gives the same disk whether it is moved
      there at once or was enlarged on the way. */
  lemma MovesCompose(m: seq<byte>, first: nat, second: nat)
    requires Movable(m) && ADDRESS_BASE + |m| + first + second <= UINT32_MAX
    ensures Movable(Moved(m, first)) && Moved(Moved(m, first), second) == Moved(m, first + second)
  {
    hide Word, Half, Walk, IsLink, List, Linked, WithList;
    var once := Moved(m, first);
    if AllOnes(m) {
      assert AllOnes(once);
      assert Moved(once, second) == Moved(m, first + second);
    } else {
      var size := |m|;
      var data, rom := List(m, 0, DataEnd(size)).value, List(m, RomStart(size), RomEnd(size)).value;
      MovedRelocates(m, first);
      OnceMovable(m, once, first, data, rom);
      MovedRelocates(once, second);
      TwiceRelocates(m, once, Moved(once, second), first, second, data, rom);
      MovedRelocates(m, first + second);
      RelocationIsUnique(m, Moved(once, second), Moved(m, first + second), first + second, data, rom);
    }
  }

  lemma OnceMovable(m: seq<byte>, once: seq<byte>, delta: nat, data: seq<nat>, rom: seq<nat>)
    requires |m| >= SMALLEST && Relocated(m, once, delta, data, rom) && ADDRESS_BASE + |once| <= UINT32_MAX
    ensures Movable(once) && !AllOnes(once)
    ensures List(once, 0, DataEnd(|once|)) == Some(Shifted(data, delta))
    ensures List(once, RomStart(|once|), RomEnd(|once|)) == Some(Shifted(rom, delta))
  {
    hide Word, Half, Walk, IsLink;
    ListedNotOnes(once, RomStart(|once|), RomEnd(|once|));
    WalkFrom(once, delta, 0, DataEnd(|once|), Word(once, DataEnd(|once|)));
  }

  lemma TwiceRelocates(m: seq<byte>, once: seq<byte>, twice: seq<byte>, first: nat, second: nat, data: seq<nat>, rom: seq<nat>)
    requires |m| >= SMALLEST && Relocated(m, once, first, data, rom)
    requires Relocated(once, twice, second, Shifted(data, first), Shifted(rom, first))
    ensures Relocated(m, twice, first + second, data, rom)
  {
    hide Word, Half, Walk, IsLink;
    var size, delta := |m|, first + second;
    assert Shifted(Shifted(data, first), second) == Shifted(data, delta);
    assert Shifted(Shifted(rom, first), second) == Shifted(rom, delta);
    WalkFrom(twice, second, delta, DataEnd(size) + delta, Word(twice, DataEnd(size) + delta));
    forall i: nat | i < delta
      ensures twice[i] == 255
    {
      if i >= second {
        var j := i - second;
        NotShifted(data, DataEnd(size), first, j);
        NotShifted(rom, RomEnd(size), first, j);
        assert twice[j + second] == once[j];
      }
    }
    forall i: nat | i < size && !IsLink(data, DataEnd(size), i) && !IsLink(rom, RomEnd(size), i)
      ensures twice[i + delta] == m[i]
    {
      var j := i + first;
      ShiftedLink(data, DataEnd(size), first, j);
      ShiftedLink(rom, RomEnd(size), first, j);
      assert twice[j + second] == once[j] == m[i];
    }
  }
}
