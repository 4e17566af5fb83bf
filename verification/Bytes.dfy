// Little-endian fields laid out in fixed-size byte records.
module Bytes {
  import opened Limits

  type byte = b: int | 0 <= b < 256

  function Least(a: nat, b: nat): nat {
    if a < b then a else b
  }

  lemma JoinSlices(s: seq<byte>, a: nat, b: nat, c: nat)
    requires a <= b <= c <= |s|
    ensures s[a..b] + s[b..c] == s[a..c]
    ensures s[..b] + s[b..c] == s[..c]
  {
  }

  function Power256(n: nat): (r: nat)
    ensures r > 0
  {
    if n == 0 then 1 else 256 * Power256(n - 1)
  }

  /** The n low bytes of v, least significant first. */
  function Little(v: nat, n: nat): (r: seq<byte>)
    ensures |r| == n
  {
    if n == 0 then [] else [v % 256] + Little(v / 256, n - 1)
  }

  function Value(b: seq<byte>): nat {
    if |b| == 0 then 0 else b[0] + 256 * Value(b[1..])
  }

  lemma {:induction false} ValueOfLittle(v: nat, n: nat)
    requires v < Power256(n)
    ensures Value(Little(v, n)) == v
  {
    if n > 0 {
      assert v / 256 < Power256(n - 1);
      ValueOfLittle(v / 256, n - 1);
      assert Little(v, n)[1..] == Little(v / 256, n - 1);
    }
  }

  lemma {:induction false} LittleOfValue(b: seq<byte>)
    ensures Little(Value(b), |b|) == b
    ensures Value(b) < Power256(|b|)
  {
    if |b| > 0 {
      LittleOfValue(b[1..]);
      assert Value(b) % 256 == b[0] && Value(b) / 256 == Value(b[1..]);
      assert b == [b[0]] + b[1..];
    }
  }

  lemma Powers()
    ensures Power256(1) == 256 && Power256(2) == UINT16_MAX + 1
    ensures Power256(4) == UINT32_MAX + 1 && Power256(8) == UINT64_MAX + 1
  {
    assert Power256(3) == 256 * Power256(2) && Power256(4) == 256 * Power256(3);
    assert Power256(5) == 256 * Power256(4) && Power256(6) == 256 * Power256(5);
    assert Power256(7) == 256 * Power256(6) && Power256(8) == 256 * Power256(7);
  }

  function Zeros(n: nat): (r: seq<byte>)
    ensures |r| == n && forall i :: 0 <= i < n ==> r[i] == 0
  {
    seq(n, _ => 0)
  }

  /** One field of a record: where it starts and its bytes. */
  datatype Field = Field(at: nat, bytes: seq<byte>)

  predicate Fits(fields: seq<Field>, size: nat) {
    forall i :: 0 <= i < |fields| ==> fields[i].at + |fields[i].bytes| <= size
  }

  predicate Apart(f: Field, g: Field) {
    f.at + |f.bytes| <= g.at || g.at + |g.bytes| <= f.at
  }

  predicate Disjoint(fields: seq<Field>) {
    forall i, j :: 0 <= i < j < |fields| ==> Apart(fields[i], fields[j])
  }

  /** Each field starts where the previous one has ended. */
  predicate Ascending(fields: seq<Field>) {
    forall i :: 0 < i < |fields| ==> fields[i - 1].at + |fields[i - 1].bytes| <= fields[i].at
  }

  lemma {:induction false} AscendingApart(fields: seq<Field>, i: nat, j: nat)
    requires Ascending(fields) && i < j < |fields|
    ensures fields[i].at + |fields[i].bytes| <= fields[j].at
    decreases j
  {
    if i < j - 1 {
      AscendingApart(fields, i, j - 1);
    }
  }

  lemma AscendingJoin(a: seq<Field>, b: seq<Field>)
    requires Ascending(a) && Ascending(b)
    requires |a| > 0 && |b| > 0 ==> a[|a| - 1].at + |a[|a| - 1].bytes| <= b[0].at
    ensures Ascending(a + b)
  {
  }

  lemma AscendingFits(fields: seq<Field>, size: nat)
    requires Ascending(fields)
    requires |fields| > 0 ==> fields[|fields| - 1].at + |fields[|fields| - 1].bytes| <= size
    ensures Disjoint(fields) && Fits(fields, size)
  {
    forall i, j | 0 <= i < j < |fields|
      ensures Apart(fields[i], fields[j])
      ensures fields[i].at + |fields[i].bytes| <= fields[j].at
    {
      AscendingApart(fields, i, j);
    }
  }

  /** A zeroed record with the fields written into it one after the other. */
  function Fill(fields: seq<Field>, size: nat): (r: seq<byte>)
    requires Fits(fields, size)
    ensures |r| == size
  {
    if |fields| == 0 then Zeros(size)
    else Splice(Fill(fields[..|fields| - 1], size), fields[|fields| - 1])
  }

  function Splice(b: seq<byte>, f: Field): (r: seq<byte>)
    requires f.at + |f.bytes| <= |b|
    ensures |r| == |b|
  {
    b[..f.at] + f.bytes + b[f.at + |f.bytes|..]
  }

  function Slice(b: seq<byte>, at: nat, n: nat): (r: seq<byte>)
    requires at + n <= |b|
    ensures |r| == n
  {
    b[at..at + n]
  }

  lemma SliceOfSplice(b: seq<byte>, f: Field, at: nat, n: nat)
    requires f.at + |f.bytes| <= |b| && at + n <= |b|
    ensures at + n <= f.at || f.at + |f.bytes| <= at ==> Slice(Splice(b, f), at, n) == Slice(b, at, n)
    ensures Slice(Splice(b, f), f.at, |f.bytes|) == f.bytes
  {
  }

  /** Every field can be read back. */
  lemma {:induction false} SliceOfFill(fields: seq<Field>, size: nat, i: nat)
    requires Fits(fields, size) && Disjoint(fields) && i < |fields|
    ensures Slice(Fill(fields, size), fields[i].at, |fields[i].bytes|) == fields[i].bytes
    decreases |fields|
  {
    var last := |fields| - 1;
    var rest := Fill(fields[..last], size);
    if i < last {
      SliceOfFill(fields[..last], size, i);
      assert Apart(fields[i], fields[last]);
    }
    SliceOfSplice(rest, fields[last], fields[i].at, |fields[i].bytes|);
  }

  /** Bytes no field covers stay zero. */
  lemma {:induction false} GapOfFill(fields: seq<Field>, size: nat, k: nat)
    requires Fits(fields, size) && k < size
    requires forall i :: 0 <= i < |fields| ==> k < fields[i].at || fields[i].at + |fields[i].bytes| <= k
    ensures Fill(fields, size)[k] == 0
    decreases |fields|
  {
    if |fields| > 0 {
      GapOfFill(fields[..|fields| - 1], size, k);
    }
  }

  lemma FillMore(fields: seq<Field>, f: Field, size: nat)
    requires Fits(fields, size) && f.at + |f.bytes| <= size
    ensures Fits(fields + [f], size)
    ensures Fill(fields + [f], size) == Splice(Fill(fields, size), f)
  {
    assert (fields + [f])[..|fields|] == fields;
  }

  lemma {:induction false} ValueGrows(b: seq<byte>, x: byte)
    ensures Value(b + [x]) == Value(b) + x * Power256(|b|)
  {
    if |b| == 0 {
      assert ([] + [x])[1..] == [];
    } else {
      assert (b + [x])[1..] == b[1..] + [x];
      ValueGrows(b[1..], x);
    }
  }

  /** The source's get: ors the bytes together from the low end. */
  method Get(p: seq<byte>, at: nat, n: nat) returns (v: nat)
    requires at + n <= |p|
    ensures v == Value(Slice(p, at, n))
  {
    v := 0;
    var scale: nat := 1;
    for i := 0 to n
      invariant v == Value(p[at..at + i]) && scale == Power256(i)
    {
      ValueGrows(p[at..at + i], p[at + i]);
      assert p[at..at + i + 1] == p[at..at + i] + [p[at + i]];
      v := v + p[at + i] * scale;
      scale := 256 * scale;
    }
  }

  /** The source's put: stores the bytes one by one from the low end. */
  method Put(p: array<byte>, at: nat, v: nat, n: nat)
    requires at + n <= p.Length
    modifies p
    ensures p[..] == Splice(old(p[..]), Field(at, Little(v, n)))
  {
    var rest := v;
    for i := 0 to n
      invariant Little(v, n)[i..] == Little(rest, n - i)
      invariant p[..at] == old(p[..at]) && p[at + n..] == old(p[at + n..])
      invariant p[at..at + i] == Little(v, n)[..i]
    {
      assert Little(rest, n - i)[0] == rest % 256 && Little(rest, n - i)[1..] == Little(rest / 256, n - i - 1);
      assert Little(v, n)[i] == Little(v, n)[i..][0] && Little(v, n)[i + 1..] == Little(v, n)[i..][1..];
      p[at + i] := rest % 256;
      rest := rest / 256;
      assert p[at..at + i + 1] == p[at..at + i] + [p[at + i]];
    }
    assert p[at..at + n] == Little(v, n);
    assert p[..] == p[..at] + p[at..at + n] + p[at + n..];
  }

  /** memcpy of a whole field. */
  method Copy(p: array<byte>, at: nat, b: seq<byte>)
    requires at + |b| <= p.Length
    modifies p
    ensures p[..] == Splice(old(p[..]), Field(at, b))
  {
    for i := 0 to |b|
      invariant p[..at] == old(p[..at]) && p[at + |b|..] == old(p[at + |b|..])
      invariant p[at..at + i] == b[..i]
    {
      p[at + i] := b[i];
      assert p[at..at + i + 1] == p[at..at + i] + [b[i]] && b[..i + 1] == b[..i] + [b[i]];
    }
    assert p[..] == p[..at] + p[at..at + |b|] + p[at + |b|..];
  }

  /** Put, keeping track of which fields the record is made of. */
  method PutField(p: array<byte>, at: nat, v: nat, n: nat, ghost fields: seq<Field>) returns (ghost more: seq<Field>)
    requires at + n <= p.Length && Fits(fields, p.Length) && p[..] == Fill(fields, p.Length)
    modifies p
    ensures more == fields + [Field(at, Little(v, n))]
    ensures Fits(more, p.Length) && p[..] == Fill(more, p.Length)
  {
    more := fields + [Field(at, Little(v, n))];
    FillMore(fields, Field(at, Little(v, n)), p.Length);
    Put(p, at, v, n);
  }

  method CopyField(p: array<byte>, at: nat, b: seq<byte>, ghost fields: seq<Field>) returns (ghost more: seq<Field>)
    requires at + |b| <= p.Length && Fits(fields, p.Length) && p[..] == Fill(fields, p.Length)
    modifies p
    ensures more == fields + [Field(at, b)]
    ensures Fits(more, p.Length) && p[..] == Fill(more, p.Length)
  {
    more := fields + [Field(at, b)];
    FillMore(fields, Field(at, b), p.Length);
    Copy(p, at, b);
  }

  method Clear(p: array<byte>)
    modifies p
    ensures p[..] == Zeros(p.Length)
    ensures p[..] == Fill([], p.Length)
  {
    for i := 0 to p.Length
      invariant forall k :: 0 <= k < i ==> p[k] == 0
    {
      p[i] := 0;
    }
  }
}
