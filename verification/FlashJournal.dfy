// The two-bank state log kept in NOR flash (src/shared/security/journal.c).
//
// Sixteen records of two 256-byte pages each live in two erasable banks. A record is
// a body page followed by a commit page. Both pages are authenticated, so a page is
// modelled by what it authenticates: a body, a commit marker for a body, the erased
// pattern, or bytes that authenticate nothing.
module FlashJournal {
  import opened Bytes
  import opened Limits
  import opened DeviceState
  import opened Keys
  import Policy

  const RECORDS: nat := 16
  const BANK_RECORDS: nat := 8
  const PAGES: nat := 32

  datatype Page =
    | Blank
    | Body(key: Key, state: State)
    | Marker(key: Key, state: State)
    | Garbage(noise: nat)

  /** NOR flash seen through the journal's three callbacks. Unless the chip is
      reliable any call may fail, and a failing program or erase leaves the pages
      it touches half done. */
  class FlashChip {
    var pages: seq<Page>
    var reliable: bool

    predicate Valid()
      reads this
    {
      |pages| == PAGES
    }

    constructor (contents: seq<Page>, reliable: bool)
      requires |contents| == PAGES
      ensures Valid() && pages == contents && this.reliable == reliable
    {
      pages := contents;
      this.reliable := reliable;
    }

    method Read(i: nat) returns (ok: bool, p: Page)
      requires Valid() && i < PAGES
      ensures ok ==> p == pages[i]
      ensures reliable ==> ok
    {
      ok := *;
      ok := ok || reliable;
      p := pages[i];
    }

    method Program(i: nat, p: Page) returns (ok: bool)
      requires Valid() && i < PAGES
      modifies this`pages
      ensures Valid()
      ensures exists q :: pages == old(pages)[i := q] && ProgramOutcome(old(pages)[i], p, q)
      ensures reliable ==> ok
      ensures reliable && old(pages)[i] == Blank ==> pages == old(pages)[i := p]
    {
      ok := *;
      ok := ok || reliable;
      var perfect := if pages[i] == Blank then p else pages[i];
      assert ProgramOutcome(pages[i], p, perfect);
      var q :| ProgramOutcome(pages[i], p, q) && (reliable ==> q == perfect);
      pages := pages[i := q];
    }

    method Erase(bank: nat) returns (ok: bool)
      requires Valid() && bank < 2
      modifies this`pages
      ensures Valid()
      ensures EraseOutcome(old(pages), pages, bank)
      ensures reliable ==> ok && forall i :: 16 * bank <= i < 16 * bank + 16 ==> pages[i] == Blank
    {
      ok := *;
      ok := ok || reliable;
      var before := pages;
      var erased := seq(PAGES, i requires 0 <= i < PAGES => if 16 * bank <= i < 16 * bank + 16 then Blank else before[i]);
      assert EraseOutcome(before, erased, bank);
      var q :| EraseOutcome(before, q, bank) && (reliable ==> q == erased);
      assert EraseOutcome(before, q, bank);
      pages := q;
    }
  }

  /** Programming only clears bits: on anything but an erased page it cannot produce
      new authentic content. */
  predicate ProgramOutcome(before: Page, p: Page, after: Page) {
    after == before || after.Garbage? || (before.Blank? && after == p)
  }

  predicate EraseOutcome(before: seq<Page>, after: seq<Page>, bank: nat)
    requires |before| == PAGES
  {
    && |after| == PAGES
    && forall i :: 0 <= i < PAGES ==>
         (after[i] == before[i] || (16 * bank <= i < 16 * bank + 16 && (after[i].Blank? || after[i].Garbage?)))
  }

  datatype LoadResult = Ok(state: State) | Empty | Corrupt

  // ---- What the pages mean -------------------------------------------------

  datatype Decoded = Nothing | Record(state: State)

  function Decode(key: Key, id: nat, pages: seq<Page>, i: nat): Decoded
    requires |pages| == PAGES && i < RECORDS
  {
    if pages[2 * i].Body? && pages[2 * i].key == key && Encodable(pages[2 * i].state, id)
       && pages[2 * i + 1] == Marker(key, pages[2 * i].state)
    then Record(pages[2 * i].state) else Nothing
  }

  predicate BlankRecord(pages: seq<Page>, i: nat)
    requires |pages| == PAGES && i < RECORDS
  {
    pages[2 * i].Blank? && pages[2 * i + 1].Blank?
  }

  /** A touched commit page that does not complete an authentic record. */
  predicate Suspect(key: Key, id: nat, pages: seq<Page>, i: nat)
    requires |pages| == PAGES && i < RECORDS
  {
    !pages[2 * i + 1].Blank? && Decode(key, id, pages, i).Nothing?
  }

  /** Record k contradicts an earlier record i that is the newest of those before k. */
  predicate Clash(key: Key, id: nat, pages: seq<Page>, i: nat, k: nat)
    requires |pages| == PAGES && i < k < RECORDS
  {
    && Decode(key, id, pages, i).Record? && Decode(key, id, pages, k).Record?
    && Decode(key, id, pages, i) != Decode(key, id, pages, k)
    && Decode(key, id, pages, i).state.sequence == Decode(key, id, pages, k).state.sequence
    && forall j :: 0 <= j < k && Decode(key, id, pages, j).Record? ==>
         Decode(key, id, pages, j).state.sequence <= Decode(key, id, pages, k).state.sequence
  }

  ghost predicate Damaged(key: Key, id: nat, pages: seq<Page>, n: nat)
    requires |pages| == PAGES && n <= RECORDS
  {
    || (exists i :: 0 <= i < n && Suspect(key, id, pages, i))
    || (exists i, k :: 0 <= i < k < n && Clash(key, id, pages, i, k))
  }

  /** Record i is authentic and no authentic record among the first n is newer. */
  ghost predicate Newest(key: Key, id: nat, pages: seq<Page>, n: nat, i: nat)
    requires |pages| == PAGES && i < n <= RECORDS
  {
    && Decode(key, id, pages, i).Record?
    && forall j :: 0 <= j < n && Decode(key, id, pages, j).Record? ==>
         Decode(key, id, pages, j).state.sequence <= Decode(key, id, pages, i).state.sequence
  }

  /** What a load of these pages must answer. */
  ghost predicate Loads(key: Key, id: nat, pages: seq<Page>, r: LoadResult)
    requires |pages| == PAGES
  {
    match r
    case Ok(s) =>
      && !Damaged(key, id, pages, RECORDS)
      && exists i :: 0 <= i < RECORDS && Newest(key, id, pages, RECORDS, i) && Decode(key, id, pages, i).state == s
    case Empty =>
      forall i :: 0 <= i < RECORDS ==> BlankRecord(pages, i)
    case Corrupt =>
      || Damaged(key, id, pages, RECORDS)
      || ((forall i :: 0 <= i < RECORDS ==> Decode(key, id, pages, i).Nothing?)
          && exists i :: 0 <= i < RECORDS && !BlankRecord(pages, i))
  }

  /** Authentic records with equal sequence numbers agree. */
  ghost predicate Coherent(key: Key, id: nat, pages: seq<Page>)
    requires |pages| == PAGES
  {
    forall i, k :: 0 <= i < RECORDS && 0 <= k < RECORDS
      && Decode(key, id, pages, i).Record? && Decode(key, id, pages, k).Record?
      && Decode(key, id, pages, i).state.sequence == Decode(key, id, pages, k).state.sequence
      ==> Decode(key, id, pages, i) == Decode(key, id, pages, k)
  }

  /** Pages answer exactly one load result. */
  lemma {:induction false} LoadsIsFunctional(key: Key, id: nat, pages: seq<Page>, r: LoadResult, t: LoadResult)
    requires |pages| == PAGES
    requires Loads(key, id, pages, r) && Loads(key, id, pages, t)
    ensures r == t
  {
    if r.Ok? {
      LoadsOkExcludes(key, id, pages, r.state, t);
    } else if t.Ok? {
      LoadsOkExcludes(key, id, pages, t.state, r);
    } else {
      BlankIsUndamaged(key, id, pages);
    }
  }

  lemma BlankIsUndamaged(key: Key, id: nat, pages: seq<Page>)
    requires |pages| == PAGES
    ensures Loads(key, id, pages, Empty) ==> !Loads(key, id, pages, Corrupt)
  {
    if Damaged(key, id, pages, RECORDS) {
      if i :| 0 <= i < RECORDS && Suspect(key, id, pages, i) {
        assert !BlankRecord(pages, i);
      } else {
        var i, k :| 0 <= i < k < RECORDS && Clash(key, id, pages, i, k);
        assert !BlankRecord(pages, i);
      }
    }
  }

  lemma LoadsOkExcludes(key: Key, id: nat, pages: seq<Page>, s: State, t: LoadResult)
    requires |pages| == PAGES
    requires Loads(key, id, pages, Ok(s))
    ensures Loads(key, id, pages, t) ==> t == Ok(s)
  {
    var i :| 0 <= i < RECORDS && Newest(key, id, pages, RECORDS, i) && Decode(key, id, pages, i).state == s;
    assert !BlankRecord(pages, i);
    if t.Ok? && Loads(key, id, pages, t) {
      var k :| 0 <= k < RECORDS && Newest(key, id, pages, RECORDS, k) && Decode(key, id, pages, k).state == t.state;
      if i < k {
        assert !Clash(key, id, pages, i, k);
      } else if k < i {
        assert !Clash(key, id, pages, k, i);
      }
    }
  }

  datatype ScanStatus = ScanOk | ScanEmpty | ScanIo | ScanCorrupt

  /** What scan has learnt from the first n records. */
  ghost predicate Scanned(key: Key, id: nat, pages: seq<Page>, n: nat, r: ScanResult)
    requires |pages| == PAGES && n <= RECORDS
  {
    r.Shaped() && ScannedNewest(key, id, pages, n, r) && ScannedUse(pages, n, r)
  }

  ghost predicate ScannedNewest(key: Key, id: nat, pages: seq<Page>, n: nat, r: ScanResult)
    requires |pages| == PAGES && n <= RECORDS
  {
    && !Damaged(key, id, pages, n)
    && (r.found ==> (
          && r.latestIndex < n && Newest(key, id, pages, n, r.latestIndex)
          && Decode(key, id, pages, r.latestIndex) == Record(r.latest)))
    && (!r.found ==> forall i :: 0 <= i < n ==> Decode(key, id, pages, i).Nothing?)
  }

  ghost predicate ScannedUse(pages: seq<Page>, n: nat, r: ScanResult)
    requires |pages| == PAGES && n <= RECORDS && r.Shaped()
  {
    && (r.nonBlank <==> exists i :: 0 <= i < n && !BlankRecord(pages, i))
    && LastUsed(pages, n, 0, r.lastUsed[0])
    && LastUsed(pages, n, 1, r.lastUsed[1])
    && -1 <= r.firstBlank < n
    && (r.firstBlank >= 0 ==> BlankRecord(pages, r.firstBlank))
    && (forall i :: 0 <= i < (if r.firstBlank < 0 then n else r.firstBlank) ==> !BlankRecord(pages, i))
  }

  /** The index of the last touched record of bank b among the first n, or -1. */
  ghost predicate LastUsed(pages: seq<Page>, n: nat, b: nat, last: int)
    requires |pages| == PAGES && n <= RECORDS
  {
    && (last == -1 || (0 <= last < n && last / BANK_RECORDS == b && !BlankRecord(pages, last)))
    && forall i :: last < i < n && 0 <= i && i / BANK_RECORDS == b ==> BlankRecord(pages, i)
  }

  datatype ScanResult = ScanResult(
    latest: State, latestIndex: nat, lastUsed: seq<int>, firstBlank: int,
    found: bool, nonBlank: bool)
  {
    predicate Shaped() { |lastUsed| == 2 }
  }

  /** A record that decodes and does not contradict the newest one so far adds no damage. */
  lemma UndamagedExtends(key: Key, id: nat, pages: seq<Page>, n: nat, r: ScanResult)
    requires |pages| == PAGES && n < RECORDS
    requires Scanned(key, id, pages, n, r)
    requires !Suspect(key, id, pages, n)
    requires r.found && Decode(key, id, pages, n).Record?
             && Decode(key, id, pages, n).state.sequence == r.latest.sequence
             ==> Decode(key, id, pages, n).state == r.latest
    ensures !Damaged(key, id, pages, n + 1)
  {
    forall i, k | 0 <= i < k < n + 1
      ensures !Clash(key, id, pages, i, k)
    {
      if k == n && Decode(key, id, pages, i).Record? {
        if i < r.latestIndex {
          assert !Clash(key, id, pages, i, r.latestIndex);
        } else if r.latestIndex < i {
          assert !Clash(key, id, pages, r.latestIndex, i);
        }
      }
    }
  }

  // ---- What a commit may leave behind --------------------------------------

  /** The states a commit of s after previous is meant for. */
  ghost predicate Accepts(key: Key, id: nat, pages: seq<Page>, previous: nat, s: State)
    requires |pages| == PAGES
  {
    && previous < UINT64_MAX && s.sequence == previous + 1 && Encodable(s, id)
    && ((Loads(key, id, pages, Empty) && previous == 0)
        || exists last :: Loads(key, id, pages, Ok(last)) && last.sequence == previous)
  }

  /** The whole effect of an attempt to commit s, cut anywhere. */
  ghost predicate Outcome(key: Key, id: nat, before: seq<Page>, after: seq<Page>, s: State)
    requires |before| == |after| == PAGES
  {
    || before == after
    || (Loads(key, id, before, Empty) && s.sequence == 1
        && forall t :: Loads(key, id, after, t) ==> t == Ok(s) || t == Corrupt)
    || exists last :: OutcomeAfter(key, id, before, after, last, s)
  }

  /** A newest record and everything else written in its bank is kept. */
  ghost predicate OutcomeAfter(key: Key, id: nat, before: seq<Page>, after: seq<Page>, last: State, s: State)
    requires |before| == |after| == PAGES
  {
    && Loads(key, id, before, Ok(last)) && s.sequence == last.sequence + 1
    && (forall t :: Loads(key, id, after, t) ==> t == Ok(last) || t == Ok(s) || t == Corrupt)
    && exists i :: 0 <= i < RECORDS && Newest(key, id, before, RECORDS, i) && KeepsBank(before, after, i / BANK_RECORDS)
  }

  predicate KeepsBank(before: seq<Page>, after: seq<Page>, bank: nat)
    requires |before| == |after| == PAGES
  {
    forall p :: 0 <= p < PAGES && p / 16 == bank && !before[p].Blank? ==> after[p] == before[p]
  }

  /** Nothing happened after mid, or record index, blank in mid, was programmed with s up to some point. */
  predicate Programmed(key: Key, mid: seq<Page>, after: seq<Page>, index: nat, s: State)
    requires |mid| == |after| == PAGES && index < RECORDS
  {
    after == mid ||
    (&& BlankRecord(mid, index)
    && (forall p :: 0 <= p < PAGES && p / 2 != index ==> after[p] == mid[p])
    && (after[2 * index].Blank? || after[2 * index].Garbage? || after[2 * index] == Body(key, s))
    && (after[2 * index + 1].Blank? || (after[2 * index] == Body(key, s)
        && (after[2 * index + 1].Garbage? || after[2 * index + 1] == Marker(key, s)))))
  }

  lemma DecodeAfter(key: Key, id: nat, before: seq<Page>, mid: seq<Page>, after: seq<Page>, bank: nat, index: nat, s: State, i: nat)
    requires |before| == |after| == PAGES && bank < 2 && index < RECORDS && i < RECORDS
    requires EraseOutcome(before, mid, bank) && Programmed(key, mid, after, index, s)
    ensures i == index ==> Decode(key, id, after, i) in {Nothing, Record(s), Decode(key, id, mid, i)}
    ensures i != index ==> Decode(key, id, after, i) == Decode(key, id, mid, i)
    ensures Decode(key, id, mid, i) in {Nothing, Decode(key, id, before, i)}
    ensures i / BANK_RECORDS != bank ==> Decode(key, id, mid, i) == Decode(key, id, before, i)
  {
  }

  lemma CutAfterRecord(key: Key, id: nat, before: seq<Page>, mid: seq<Page>, after: seq<Page>, newest: nat, index: nat, s: State, t: LoadResult)
    requires |before| == |after| == PAGES && newest < RECORDS && index < RECORDS
    requires !Damaged(key, id, before, RECORDS) && Newest(key, id, before, RECORDS, newest)
    requires EraseOutcome(before, mid, 1 - newest / BANK_RECORDS) && Programmed(key, mid, after, index, s)
    ensures Loads(key, id, after, t) ==> t == Ok(Decode(key, id, before, newest).state) || t == Ok(s) || t == Corrupt
  {
    forall i | 0 <= i < RECORDS {
      DecodeAfter(key, id, before, mid, after, 1 - newest / BANK_RECORDS, index, s, i);
    }
    assert !BlankRecord(after, newest);
    if t.Ok? && Loads(key, id, after, t) {
      var k :| 0 <= k < RECORDS && Newest(key, id, after, RECORDS, k) && Decode(key, id, after, k).state == t.state;
      if Decode(key, id, after, k) != Record(s) {
        assert Decode(key, id, before, k) == Decode(key, id, after, k);
        if k < newest {
          assert !Clash(key, id, before, k, newest);
        } else if newest < k {
          assert !Clash(key, id, before, newest, k);
        }
      }
    }
  }

  lemma OutcomeWithRecord(key: Key, id: nat, before: seq<Page>, mid: seq<Page>, after: seq<Page>, r: ScanResult, index: nat, s: State)
    requires |before| == |after| == PAGES && index < RECORDS
    requires Scanned(key, id, before, RECORDS, r) && r.found && s.sequence == r.latest.sequence + 1
    requires EraseOutcome(before, mid, 1 - r.latestIndex / BANK_RECORDS) && Programmed(key, mid, after, index, s)
    ensures Outcome(key, id, before, after, s)
  {
    forall t | Loads(key, id, after, t)
      ensures t == Ok(r.latest) || t == Ok(s) || t == Corrupt
    {
      CutAfterRecord(key, id, before, mid, after, r.latestIndex, index, s, t);
    }
    assert KeepsBank(before, after, r.latestIndex / BANK_RECORDS);
    assert OutcomeAfter(key, id, before, after, r.latest, s);
  }

  lemma OutcomeFirst(key: Key, id: nat, before: seq<Page>, after: seq<Page>, index: nat, s: State)
    requires |before| == |after| == PAGES && index < RECORDS
    requires Loads(key, id, before, Empty) && s.sequence == 1 && Programmed(key, before, after, index, s)
    ensures Outcome(key, id, before, after, s)
  {
    forall t | before != after && Loads(key, id, after, t)
      ensures t == Ok(s) || t == Corrupt
    {
      if t.Ok? {
        var k :| 0 <= k < RECORDS && Newest(key, id, after, RECORDS, k) && Decode(key, id, after, k).state == t.state;
        DecodeAfter(key, id, before, before, after, 0, index, s, k);
        assert BlankRecord(before, k);
      } else {
        assert BlankRecord(after, index) ==> before == after;
      }
    }
  }

  /** A completed record on top of a coherent log is what loads next. */
  lemma CompletedLoads(key: Key, id: nat, before: seq<Page>, mid: seq<Page>, after: seq<Page>, bank: nat, index: nat, s: State)
    requires |before| == |after| == PAGES && bank < 2 && index < RECORDS && Encodable(s, id)
    requires !Damaged(key, id, before, RECORDS) && Coherent(key, id, before)
    requires forall i :: 0 <= i < RECORDS && Decode(key, id, before, i).Record? ==> Decode(key, id, before, i).state.sequence < s.sequence
    requires EraseOutcome(before, mid, bank) && (mid == before || forall p :: 16 * bank <= p < 16 * bank + 16 ==> mid[p].Blank?)
    requires BlankRecord(mid, index)
    requires after == mid[2 * index := Body(key, s)][2 * index + 1 := Marker(key, s)]
    ensures Loads(key, id, after, Ok(s)) && Coherent(key, id, after)
  {
    forall i | 0 <= i < RECORDS
      ensures !Suspect(key, id, after, i)
      ensures i != index ==> Decode(key, id, after, i) in {Nothing, Decode(key, id, before, i)}
    {
      DecodeAfter(key, id, before, mid, after, bank, index, s, i);
      assert !Suspect(key, id, before, i);
    }
    assert Decode(key, id, after, index) == Record(s);
    assert Newest(key, id, after, RECORDS, index);
  }

  /** Slot index of mid may take the record after the ones scanned in before. */
  predicate Ready(before: seq<Page>, mid: seq<Page>, r: ScanResult, bank: nat, index: nat)
    requires |before| == |mid| == PAGES && index < RECORDS
  {
    && BlankRecord(mid, index) && EraseOutcome(before, mid, bank)
    && (mid == before || forall p :: 16 * bank <= p < 16 * bank + 16 ==> mid[p].Blank?)
    && (if r.found then bank == 1 - r.latestIndex / BANK_RECORDS else mid == before)
  }

  lemma AcceptsAfter(key: Key, id: nat, pages: seq<Page>, last: State, s: State)
    requires |pages| == PAGES && Loads(key, id, pages, Ok(last)) && Encodable(s, id)
    requires s.sequence == last.sequence + 1 && last.sequence < UINT64_MAX
    ensures Accepts(key, id, pages, last.sequence, s)
  {
  }

  lemma OlderThanNext(key: Key, id: nat, pages: seq<Page>, r: ScanResult, s: State)
    requires |pages| == PAGES && Scanned(key, id, pages, RECORDS, r)
    requires r.found ==> s.sequence == r.latest.sequence + 1
    ensures forall i :: 0 <= i < RECORDS && Decode(key, id, pages, i).Record? ==> Decode(key, id, pages, i).state.sequence < s.sequence
  {
  }

  lemma NoOutcome(key: Key, id: nat, before: seq<Page>, s: State)
    requires |before| == PAGES
    ensures Outcome(key, id, before, before, s)
  {
  }

  lemma CutCoherent(key: Key, id: nat, before: seq<Page>, mid: seq<Page>, after: seq<Page>, bank: nat, index: nat, s: State)
    requires |before| == |mid| == |after| == PAGES && bank < 2 && index < RECORDS
    requires forall i :: 0 <= i < RECORDS && Decode(key, id, before, i).Record? ==> Decode(key, id, before, i).state.sequence < s.sequence
    requires EraseOutcome(before, mid, bank) && Programmed(key, mid, after, index, s)
    ensures Coherent(key, id, before) ==> Coherent(key, id, after)
  {
    forall i | 0 <= i < RECORDS
      ensures Decode(key, id, after, i) in {Nothing, Record(s), Decode(key, id, before, i)}
    {
      DecodeAfter(key, id, before, mid, after, bank, index, s, i);
    }
  }

  lemma Cut(key: Key, id: nat, before: seq<Page>, mid: seq<Page>, after: seq<Page>, r: ScanResult, bank: nat, index: nat, s: State)
    requires |before| == |mid| == |after| == PAGES && bank < 2 && index < RECORDS
    requires Scanned(key, id, before, RECORDS, r)
    requires Ready(before, mid, r, bank, index) && Programmed(key, mid, after, index, s)
    requires if r.found then s.sequence == r.latest.sequence + 1 else s.sequence == 1 && Loads(key, id, before, Empty)
    ensures Outcome(key, id, before, after, s)
    ensures Coherent(key, id, before) ==> Coherent(key, id, after)
  {
    CutCoherent(key, id, before, mid, after, bank, index, s);
    if r.found {
      OutcomeWithRecord(key, id, before, mid, after, r, index, s);
    } else {
      OutcomeFirst(key, id, before, after, index, s);
    }
  }

  lemma Completed(key: Key, id: nat, before: seq<Page>, mid: seq<Page>, after: seq<Page>, r: ScanResult, bank: nat, index: nat, s: State)
    requires |before| == |mid| == |after| == PAGES && bank < 2 && index < RECORDS && Encodable(s, id)
    requires Scanned(key, id, before, RECORDS, r)
    requires r.found ==> s.sequence == r.latest.sequence + 1
    requires Ready(before, mid, r, bank, index)
    requires after == mid[2 * index := Body(key, s)][2 * index + 1 := Marker(key, s)]
    ensures Coherent(key, id, before) ==> Loads(key, id, after, Ok(s)) && Coherent(key, id, after)
  {
    if Coherent(key, id, before) {
      CompletedLoads(key, id, before, mid, after, bank, index, s);
    }
  }

  /** The slot after the last one used in the newest record's bank is blank, if there is one. */
  lemma TargetIndex(key: Key, id: nat, pages: seq<Page>, r: ScanResult)
    requires |pages| == PAGES && Scanned(key, id, pages, RECORDS, r) && r.found
    ensures var bank := r.latestIndex / BANK_RECORDS; var index := r.lastUsed[bank] + 1;
      && bank < 2 && bank * BANK_RECORDS < index <= (bank + 1) * BANK_RECORDS
      && (index < (bank + 1) * BANK_RECORDS ==> BlankRecord(pages, index))
  {
    var bank := r.latestIndex / BANK_RECORDS;
    assert LastUsed(pages, RECORDS, bank, r.lastUsed[bank]);
    assert !BlankRecord(pages, r.latestIndex);
  }

  lemma LoadsExcludes(key: Key, id: nat, pages: seq<Page>, r: LoadResult)
    requires |pages| == PAGES && Loads(key, id, pages, r)
    ensures forall t :: Loads(key, id, pages, t) ==> t == r
  {
    forall t | Loads(key, id, pages, t)
      ensures t == r
    {
      LoadsIsFunctional(key, id, pages, r, t);
    }
  }

  // ---- Runs ----------------------------------------------------------------

  lemma {:induction false} SomeNewest(key: Key, id: nat, pages: seq<Page>, n: nat)
    requires |pages| == PAGES && 0 < n <= RECORDS
    ensures (exists i :: 0 <= i < n && Newest(key, id, pages, n, i))
            || forall i :: 0 <= i < n ==> Decode(key, id, pages, i).Nothing?
  {
    var last := n - 1;
    if last > 0 {
      SomeNewest(key, id, pages, last);
    }
    if Decode(key, id, pages, last).Record? {
      if i :| 0 <= i < last && Newest(key, id, pages, last, i) {
        assert Newest(key, id, pages, n, i) || Newest(key, id, pages, n, last);
      } else {
        assert Newest(key, id, pages, n, last);
      }
    } else if i :| 0 <= i < last && Newest(key, id, pages, last, i) {
      assert Newest(key, id, pages, n, i);
    }
  }

  /** Any pages answer some load result. */
  lemma LoadsIsTotal(key: Key, id: nat, pages: seq<Page>)
    requires |pages| == PAGES
    ensures exists r :: Loads(key, id, pages, r)
  {
    SomeNewest(key, id, pages, RECORDS);
    if i :| !Damaged(key, id, pages, RECORDS) && 0 <= i < RECORDS && Newest(key, id, pages, RECORDS, i) {
      assert Loads(key, id, pages, Ok(Decode(key, id, pages, i).state));
    } else if i :| 0 <= i < RECORDS && !BlankRecord(pages, i) {
      assert Loads(key, id, pages, Corrupt);
    } else {
      assert Loads(key, id, pages, Empty);
    }
  }

  /** A run of commit attempts, each cut anywhere: log k+1 is what attempt k left of log k. */
  ghost predicate IsRun(key: Key, id: nat, logs: seq<seq<Page>>, attempts: seq<State>) {
    && |logs| == |attempts| + 1
    && (forall k :: 0 <= k < |logs| ==> |logs[k]| == PAGES)
    && forall k :: 0 <= k < |attempts| ==> Outcome(key, id, logs[k], logs[k + 1], attempts[k])
  }

  /** What a later load may answer, when the log once answered from. */
  predicate Follows(from: LoadResult, attempts: seq<State>, to: LoadResult) {
    || to == from
    || to == Corrupt
    || (to.Ok? && from != Corrupt && to.state in attempts && (from.Ok? ==> to.state.sequence > from.state.sequence))
  }

  /** Over every run a load answers what was loaded before, a state attempted since, or a
      denial: never an older state, never again an empty log, nothing once it is denied. */
  lemma {:induction false} RunNeverGoesBack(key: Key, id: nat, logs: seq<seq<Page>>, attempts: seq<State>, from: LoadResult, to: LoadResult)
    requires IsRun(key, id, logs, attempts)
    requires Loads(key, id, logs[0], from) && Loads(key, id, logs[|attempts|], to)
    ensures Follows(from, attempts, to)
    decreases |attempts|
  {
    var n := |attempts|;
    if n == 0 {
      LoadsIsFunctional(key, id, logs[0], from, to);
    } else {
      hide Loads;
      LoadsIsTotal(key, id, logs[n - 1]);
      var last :| Loads(key, id, logs[n - 1], last);
      assert IsRun(key, id, logs[..n], attempts[..n - 1]);
      RunNeverGoesBack(key, id, logs[..n], attempts[..n - 1], from, last);
      assert attempts == attempts[..n - 1] + [attempts[n - 1]];
      StepFollows(key, id, logs[n - 1], logs[n], attempts[n - 1], last, to);
    }
  }

  lemma StepFollows(key: Key, id: nat, before: seq<Page>, after: seq<Page>, s: State, last: LoadResult, to: LoadResult)
    requires |before| == |after| == PAGES && Outcome(key, id, before, after, s)
    requires Loads(key, id, before, last) && Loads(key, id, after, to)
    ensures Follows(last, [s], to)
  {
    hide Loads;
    LoadsExcludes(key, id, before, last);
    LoadsExcludes(key, id, after, to);
  }

  // ---- Scanning ------------------------------------------------------------

  /** The effect of one more record on what has been learnt. */
  function Advance(r: ScanResult, i: nat, body: Page, marker: Page): ScanResult
    requires r.Shaped() && i < RECORDS
    requires marker.Blank? || body.Body?
  {
    if body.Blank? && marker.Blank? then
      if r.firstBlank < 0 then r.(firstBlank := i) else r
    else
      var used := r.(nonBlank := true, lastUsed := r.lastUsed[i / BANK_RECORDS := i]);
      if !marker.Blank? && (!r.found || body.state.sequence > r.latest.sequence) then
        used.(found := true, latest := body.state, latestIndex := i)
      else
        used
  }

  predicate Agrees(r: ScanResult, s: State) {
    r.found && s.sequence == r.latest.sequence ==> s == r.latest
  }

  lemma NothingScanned(key: Key, id: nat, pages: seq<Page>, r: ScanResult)
    requires |pages| == PAGES && !r.found && !r.nonBlank && r.firstBlank == -1 && r.lastUsed == [-1, -1]
    ensures Scanned(key, id, pages, 0, r)
  {
  }

  lemma ScanStep(key: Key, id: nat, pages: seq<Page>, i: nat, r: ScanResult)
    requires |pages| == PAGES && i < RECORDS
    requires Scanned(key, id, pages, i, r)
    requires !Suspect(key, id, pages, i)
    requires Decode(key, id, pages, i).Record? ==> Agrees(r, Decode(key, id, pages, i).state)
    ensures Scanned(key, id, pages, i + 1, Advance(r, i, pages[2 * i], pages[2 * i + 1]))
  {
    UndamagedExtends(key, id, pages, i, r);
    NewestStep(key, id, pages, i, r);
    UseStep(pages, i, r);
  }

  lemma NewestStep(key: Key, id: nat, pages: seq<Page>, i: nat, r: ScanResult)
    requires |pages| == PAGES && i < RECORDS && r.Shaped()
    requires ScannedNewest(key, id, pages, i, r) && !Damaged(key, id, pages, i + 1)
    requires !Suspect(key, id, pages, i)
    ensures ScannedNewest(key, id, pages, i + 1, Advance(r, i, pages[2 * i], pages[2 * i + 1]))
  {
    hide Damaged;
  }

  lemma UseStep(pages: seq<Page>, i: nat, r: ScanResult)
    requires |pages| == PAGES && i < RECORDS && r.Shaped()
    requires pages[2 * i + 1].Blank? || pages[2 * i].Body?
    requires ScannedUse(pages, i, r)
    ensures ScannedUse(pages, i + 1, Advance(r, i, pages[2 * i], pages[2 * i + 1]))
  {
    assert BlankRecord(pages, i) <==> pages[2 * i].Blank? && pages[2 * i + 1].Blank?;
  }

  lemma ScanVerdict(key: Key, id: nat, pages: seq<Page>, r: ScanResult)
    requires |pages| == PAGES && Scanned(key, id, pages, RECORDS, r)
    ensures r.found ==> Loads(key, id, pages, Ok(r.latest))
    ensures !r.found && r.nonBlank ==> Loads(key, id, pages, Corrupt)
    ensures !r.found && !r.nonBlank ==> Loads(key, id, pages, Empty) && r.firstBlank == 0
  {
    if !r.found && !r.nonBlank {
      assert BlankRecord(pages, 0);
    }
  }

  lemma SuspectDenies(key: Key, id: nat, pages: seq<Page>, i: nat)
    requires |pages| == PAGES && i < RECORDS && Suspect(key, id, pages, i)
    ensures Loads(key, id, pages, Corrupt)
  {
  }

  lemma ClashDenies(key: Key, id: nat, pages: seq<Page>, i: nat, r: ScanResult)
    requires |pages| == PAGES && i < RECORDS
    requires Scanned(key, id, pages, i, r)
    requires Decode(key, id, pages, i).Record? && !Agrees(r, Decode(key, id, pages, i).state)
    ensures Loads(key, id, pages, Corrupt)
  {
    assert Clash(key, id, pages, r.latestIndex, i);
  }

  // ---- The log -------------------------------------------------------------

  datatype CommitResult = Done | Io | Refused

  /** What a record may hold. */
  method CheckState(s: State, id: nat) returns (ok: bool)
    ensures ok <==> Encodable(s, id)
  {
    if s.sequence == 0 || s.device != id || s.tokenSlot >= TOKEN_SLOTS {
      return false;
    }
    if s.status == EmptyVault {
      if s.generation != 0 || s.attempts != 0 || s.pending || s.volume != NO_VOLUME || s.headerHash != ZeroHash {
        return false;
      }
    } else if s.generation == 0 || s.attempts > s.policy.maxAttempts || (s.pending && s.attempts == 0)
              || s.volume == NO_VOLUME || s.headerHash == ZeroHash {
      return false;
    }
    var policy := new byte[Policy.POLICY_BYTES];
    ok := Policy.Encode(s.policy, policy);
  }

  class Journal {
    const chip: FlashChip
    const key: Key
    const id: nat

    constructor (chip: FlashChip, key: Key, id: nat)
      ensures this.chip == chip && this.key == key && this.id == id
    {
      this.chip := chip;
      this.key := key;
      this.id := id;
    }

    method ReadRecord(i: nat) returns (ok: bool, body: Page, commit: Page)
      requires chip.Valid() && i < RECORDS
      ensures ok ==> body == chip.pages[2 * i] && commit == chip.pages[2 * i + 1]
      ensures chip.reliable ==> ok
    {
      ok, body := chip.Read(2 * i);
      commit := body;
      if ok {
        ok, commit := chip.Read(2 * i + 1);
      }
    }

    /** One pass over both banks. Only an untouched commit page proves that no commit
        was attempted; anything else that does not decode denies the whole log. */
    method Scan() returns (status: ScanStatus, r: ScanResult)
      requires chip.Valid()
      ensures status in {ScanOk, ScanEmpty} ==> Scanned(key, id, chip.pages, RECORDS, r)
      ensures status == ScanOk ==> r.found && Loads(key, id, chip.pages, Ok(r.latest))
      ensures status == ScanEmpty ==> !r.found && Loads(key, id, chip.pages, Empty) && r.firstBlank == 0
      ensures status == ScanCorrupt ==> Loads(key, id, chip.pages, Corrupt)
      ensures chip.reliable ==> status != ScanIo
    {
      hide ScannedNewest, ScannedUse, Loads;
      var latest: State := *;
      var latestBody, latestMarker := Blank, Blank;
      var latestIndex, firstBlank, found, nonBlank := 0, -1, false, false;
      var lastUsed := [-1, -1];
      r := ScanResult(latest, 0, lastUsed, -1, false, false);
      NothingScanned(key, id, chip.pages, r);
      for i := 0 to RECORDS
        invariant r == ScanResult(latest, latestIndex, lastUsed, firstBlank, found, nonBlank)
        invariant Scanned(key, id, chip.pages, i, r)
        invariant found ==> latestBody == Body(key, latest) && latestMarker == Marker(key, latest)
      {
        ghost var before := r;
        var ok, body, marker := ReadRecord(i);
        if !ok {
          return ScanIo, r;
        }
        if body.Blank? && marker.Blank? {
          if firstBlank < 0 {
            firstBlank := i;
          }
        } else {
          nonBlank := true;
          lastUsed := lastUsed[i / BANK_RECORDS := i];
          if !marker.Blank? {
            var encodable := false;
            if body.Body? {
              encodable := CheckState(body.state, id);
            }
            if !(body.Body? && body.key == key && encodable && marker == Marker(key, body.state)) {
              SuspectDenies(key, id, chip.pages, i);
              return ScanCorrupt, r;
            }
            var s := body.state;
            if found && s.sequence == latest.sequence && (body != latestBody || marker != latestMarker) {
              ClashDenies(key, id, chip.pages, i, r);
              return ScanCorrupt, r;
            }
            if !found || s.sequence > latest.sequence {
              found, latest, latestIndex, latestBody, latestMarker := true, s, i, body, marker;
            }
          }
        }
        r := ScanResult(latest, latestIndex, lastUsed, firstBlank, found, nonBlank);
        ScanStep(key, id, chip.pages, i, before);
      }
      ScanVerdict(key, id, chip.pages, r);
      if found {
        status := ScanOk;
      } else if nonBlank {
        status := ScanCorrupt;
      } else {
        status := ScanEmpty;
      }
    }

    method Load() returns (ok: bool, r: LoadResult)
      requires chip.Valid()
      ensures ok ==> Loads(key, id, chip.pages, r)
      ensures chip.reliable ==> ok
    {
      hide Loads;
      var status, scan := Scan();
      ok := status != ScanIo;
      r := if status == ScanOk then Ok(scan.latest) else if status == ScanEmpty then Empty else Corrupt;
    }

    /** Finds the slot for the next record, erasing the other bank when the newest
        record's bank is full. */
    method Reserve(scan: ScanResult, ghost s: State) returns (ok: bool, index: nat, ghost bank: nat)
      requires chip.Valid() && Scanned(key, id, chip.pages, RECORDS, scan)
      requires if scan.found then s.sequence == scan.latest.sequence + 1
               else s.sequence == 1 && Loads(key, id, chip.pages, Empty) && scan.firstBlank == 0
      modifies chip`pages
      ensures chip.Valid() && index < RECORDS && bank < 2
      ensures Outcome(key, id, old(chip.pages), chip.pages, s)
      ensures chip.reliable ==> ok
      ensures Coherent(key, id, old(chip.pages)) ==> Coherent(key, id, chip.pages)
      ensures ok ==> Ready(old(chip.pages), chip.pages, scan, bank, index)
      // The next record of the bank in use, or the first of the other one.
      ensures ok ==>
                if !scan.found then index == 0 && chip.pages == old(chip.pages)
                else var home := scan.latestIndex / BANK_RECORDS;
                  if scan.lastUsed[home] + 1 < (home + 1) * BANK_RECORDS then index == scan.lastUsed[home] + 1 && chip.pages == old(chip.pages)
                  else index == (1 - home) * BANK_RECORDS
    {
      hide Loads, Newest, Decode, Damaged, Outcome, Coherent;
      ghost var before := chip.pages;
      index, bank := 0, 0;
      if !scan.found {
        OutcomeFirst(key, id, before, before, 0, s);
        return true, scan.firstBlank, 0;
      }
      TargetIndex(key, id, before, scan);
      var home := scan.latestIndex / BANK_RECORDS;
      bank := 1 - home;
      OutcomeWithRecord(key, id, before, before, before, scan, 0, s);
      OlderThanNext(key, id, before, scan, s);
      var next := scan.lastUsed[home] + 1;
      if next < (home + 1) * BANK_RECORDS {
        return true, next, bank;
      }
      ok := chip.Erase(1 - home);
      ghost var mid := chip.pages;
      OutcomeWithRecord(key, id, before, mid, mid, scan, 0, s);
      CutCoherent(key, id, before, mid, mid, 1 - home, 0, s);
      if !ok {
        return false, 0, bank;
      }
      index := (1 - home) * BANK_RECORDS;
      for i := 0 to BANK_RECORDS
        invariant chip.pages == mid
        invariant forall k :: index <= k < index + i ==> BlankRecord(mid, k)
      {
        var readable, body, marker := ReadRecord(index + i);
        if !readable || !body.Blank? || !marker.Blank? {
          return false, 0, bank;
        }
      }
      forall p | 16 * bank <= p < 16 * bank + 16
        ensures mid[p].Blank?
      {
        assert BlankRecord(mid, p / 2);
      }
      assert BlankRecord(mid, index);
    }

    /** Programs and verifies the body page before the page that makes it a record. */
    method Write(index: nat, s: State) returns (r: CommitResult)
      requires chip.Valid() && index < RECORDS
      modifies chip`pages
      ensures chip.Valid()
      ensures Programmed(key, old(chip.pages), chip.pages, index, s)
      ensures r == Refused ==> chip.pages == old(chip.pages) && (chip.reliable ==> !BlankRecord(chip.pages, index))
      ensures r == Done ==>
                && BlankRecord(old(chip.pages), index)
                && chip.pages == old(chip.pages)[2 * index := Body(key, s)][2 * index + 1 := Marker(key, s)]
      ensures chip.reliable ==> r != Io
    {
      var ok, body, marker := ReadRecord(index);
      if !ok || !body.Blank? || !marker.Blank? {
        return Refused;
      }
      ok := chip.Program(2 * index, Body(key, s));
      if !ok {
        return Io;
      }
      ok, body := chip.Read(2 * index);
      if !ok || body != Body(key, s) {
        return Io;
      }
      ok := chip.Program(2 * index + 1, Marker(key, s));
      if !ok {
        return Io;
      }
      ok, body, marker := ReadRecord(index);
      if !ok || body != Body(key, s) || marker != Marker(key, s) {
        return Io;
      }
      return Done;
    }

    /** Appends s after the record numbered previous. Whatever fails on the way, a later
        load answers what it answered before, the new state, or a denial. */
    method Commit(previous: uint64, s: State) returns (r: CommitResult)
      requires chip.Valid()
      modifies chip`pages
      ensures chip.Valid()
      ensures Outcome(key, id, old(chip.pages), chip.pages, s)
      ensures Coherent(key, id, old(chip.pages)) ==> Coherent(key, id, chip.pages)
      ensures r == Done && Coherent(key, id, old(chip.pages)) ==> Loads(key, id, chip.pages, Ok(s))
      ensures r == Done ==> Accepts(key, id, old(chip.pages), previous, s)
      ensures chip.reliable && Accepts(key, id, old(chip.pages), previous, s) ==> r == Done
      ensures chip.reliable && r != Done ==> r == Refused && chip.pages == old(chip.pages)
    {
      hide Loads, Coherent, Outcome, Scanned;
      ghost var before := chip.pages;
      NoOutcome(key, id, before, s);
      if previous == UINT64_MAX || s.sequence != previous + 1 {
        return Refused;
      }
      var status, scan := Scan();
      if status == ScanOk {
        LoadsExcludes(key, id, before, Ok(scan.latest));
      } else if status == ScanEmpty {
        LoadsExcludes(key, id, before, Empty);
      } else if status == ScanCorrupt {
        LoadsExcludes(key, id, before, Corrupt);
      }
      if status == ScanIo || status == ScanCorrupt
         || (if status == ScanEmpty then previous != 0 else scan.latest.sequence != previous) {
        return Refused;
      }
      var encodable := CheckState(s, id);
      if !encodable {
        return Refused;
      }
      assert status in {ScanOk, ScanEmpty};
      if status == ScanOk {
        AcceptsAfter(key, id, before, scan.latest, s);
      }
      assert Accepts(key, id, before, previous, s);
      var ok, index, bank := Reserve(scan, s);
      if !ok {
        return Io;
      }
      ghost var mid := chip.pages;
      r := Write(index, s);
      Cut(key, id, before, mid, chip.pages, scan, bank, index, s);
      if r == Done {
        Completed(key, id, before, mid, chip.pages, scan, bank, index, s);
      }
    }
  }
}
