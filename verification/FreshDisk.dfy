// What a reset has to leave on the disk, as the engine will read it: two empty lists, or the
// one record that keeps the verification policy (src/shared/fido/store.c:440-460).
module FreshDisk {
  import opened Bytes
  import opened ImageUpgrade
  import opened Limits
  import opened Options
  import Relocation

  const POLICY_ID: nat := 0x1123

  /** Room for both lists and the record. */
  const LEAST: nat := SMALLEST + 14

  function RecordAt(size: nat): nat
    requires size >= LEAST
  {
    DataEnd(size) - 14
  }

  /** The record at o: the last of its list, linked back to the list's head, and in it two
      bytes, the second of which is the policy. */
  ghost predicate KeepsPolicy(m: seq<byte>, o: nat, head: nat, policy: int)
    requires o + 14 <= |m|
  {
    && Word(m, o) == 0 && Word(m, o + 4) == ADDRESS_BASE + head
    && Half(m, o + 8) == POLICY_ID && Half(m, o + 10) == 2
    && m[o + 12] == 1 && m[o + 13] == policy
  }

  /** Without a policy all bytes are ones. With one the data list is that single record, the
      other list is empty, and outside the record and the two heads all bytes are ones. */
  ghost predicate Fresh(m: seq<byte>, policy: int) {
    && |m| >= LEAST
    && if policy < 0 then AllOnes(m)
       else
         var data, rom, o := DataEnd(|m|), RomEnd(|m|), RecordAt(|m|);
         && List(m, 0, data) == Some([o]) && KeepsPolicy(m, o, data, policy)
         && List(m, RomStart(|m|), rom) == Some([])
         && (forall i :: data + 4 <= i < data + 8 ==> m[i] == 0)
         && (forall i :: rom + 4 <= i < |m| ==> m[i] == 0)
         && (forall i :: 0 <= i < |m| && !(o <= i < data + 8) && i < rom ==> m[i] == 255)
  }

  /** The same of a disk whose bytes can all be read. */
  ghost predicate FreshDisk(image: seq<Option<byte>>, policy: int) {
    exists m :: Reads(image, m) && Fresh(m, policy)
  }

  ghost predicate Reads(image: seq<Option<byte>>, m: seq<byte>) {
    |image| == |m| && forall i :: 0 <= i < |m| ==> image[i] == Some(m[i])
  }

  lemma HalfDetermines(a: seq<byte>, b: seq<byte>, at: nat)
    requires at + 2 <= |a| && at + 2 <= |b| && Half(a, at) == Half(b, at)
    ensures a[at] == b[at] && a[at + 1] == b[at + 1]
  {
    hide Little, Value;
    LittleOfValue(Slice(a, at, 2));
    LittleOfValue(Slice(b, at, 2));
    assert forall i :: at <= i < at + 2 ==> a[i] == Slice(a, at, 2)[i - at] && b[i] == Slice(b, at, 2)[i - at];
  }

  lemma ListHeads(m: seq<byte>, policy: int)
    requires Fresh(m, policy) && policy >= 0
    ensures Word(m, DataEnd(|m|)) == ADDRESS_BASE + RecordAt(|m|) && Word(m, RomEnd(|m|)) == 0
  {
    hide Word, Half;
    Relocation.FirstLink(m, 0, DataEnd(|m|), Word(m, DataEnd(|m|)));
    Relocation.FirstLink(m, RomStart(|m|), RomEnd(|m|), Word(m, RomEnd(|m|)));
  }

  /** That leaves no byte open. */
  lemma FreshIsOne(m: seq<byte>, w: seq<byte>, policy: int)
    requires |m| == |w| && Fresh(m, policy) && Fresh(w, policy)
    ensures m == w
  {
    hide Word, Half, List;
    if policy >= 0 {
      var data, rom, o := DataEnd(|m|), RomEnd(|m|), RecordAt(|m|);
      ListHeads(m, policy);
      ListHeads(w, policy);
      Relocation.WordDetermines(m, w, data);
      Relocation.WordDetermines(m, w, rom);
      Relocation.WordDetermines(m, w, o);
      Relocation.WordDetermines(m, w, o + 4);
      HalfDetermines(m, w, o + 8);
      HalfDetermines(m, w, o + 10);
    }
    assert forall i :: 0 <= i < |m| ==> m[i] == w[i];
  }

  lemma FreshDiskIsOne(a: seq<Option<byte>>, b: seq<Option<byte>>, policy: int)
    requires |a| == |b| && FreshDisk(a, policy) && FreshDisk(b, policy)
    ensures a == b
  {
    hide Fresh;
    var m :| Reads(a, m) && Fresh(m, policy);
    var w :| Reads(b, w) && Fresh(w, policy);
    FreshIsOne(m, w, policy);
  }

  /** Such bytes make such a disk. */
  lemma PolicyKept(m: seq<byte>, policy: nat)
    requires |m| >= LEAST && policy < 256 && ADDRESS_BASE + |m| <= UINT32_MAX
    requires Word(m, DataEnd(|m|)) == ADDRESS_BASE + RecordAt(|m|) && Word(m, RomEnd(|m|)) == 0
    requires KeepsPolicy(m, RecordAt(|m|), DataEnd(|m|), policy)
    requires forall i :: DataEnd(|m|) + 4 <= i < DataEnd(|m|) + 8 || RomEnd(|m|) + 4 <= i < |m| ==> m[i] == 0
    requires forall i :: 0 <= i < RomEnd(|m|) && !(RecordAt(|m|) <= i < DataEnd(|m|) + 8) ==> m[i] == 255
    ensures Fresh(m, policy)
  {
    hide Word, Half, Walk;
    var data, o := DataEnd(|m|), RecordAt(|m|);
    NoRecords(m, 0, o);
    Fold(m, 0, data, ADDRESS_BASE + o, []);
    assert [o] + [] == [o];
    NoRecords(m, RomStart(|m|), RomEnd(|m|));
  }
}
