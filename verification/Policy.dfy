// Retry and timeout policy and its 16-byte encoding (src/shared/security/policy.c).
module Policy {
  import opened Bytes
  import opened Limits
  import opened Options

  datatype LimitAction = NoLimit | Destroy | Lockout

  datatype AuthPolicy = AuthPolicy(maxAttempts: uint32, limitAction: LimitAction, autoLock: uint32, screenSleep: uint16)

  const DEFAULT_POLICY := AuthPolicy(10, Destroy, 300, 0)
  const POLICY_BYTES: nat := 16

  predicate PolicyValid(p: AuthPolicy) {
    && (p.limitAction == NoLimit <==> p.maxAttempts == 0)
    && p.autoLock in {0, 60, 120, 300, 600, 900, 1800}
    && p.screenSleep in {0, 30, 60, 120, 300, 600, 0xffff}
  }

  function ActionCode(a: LimitAction): nat {
    match a
    case Destroy => 1 case Lockout => 2 case NoLimit => 5
  }

  function Fields(p: AuthPolicy): seq<Field> {
    [Field(0, [1]), Field(2, [16]), Field(4, Little(p.maxAttempts, 4)), Field(8, [ActionCode(p.limitAction)]),
     Field(10, Little(p.autoLock, 4)), Field(14, Little(p.screenSleep, 2))]
  }

  lemma FieldsFit(p: AuthPolicy)
    ensures Fits(Fields(p), POLICY_BYTES) && Disjoint(Fields(p))
  {
    AscendingFits(Fields(p), POLICY_BYTES);
  }

  function Encoding(p: AuthPolicy): (r: seq<byte>)
    ensures |r| == POLICY_BYTES
  {
    FieldsFit(p);
    Fill(Fields(p), POLICY_BYTES)
  }

  method Encode(p: AuthPolicy, out: array<byte>) returns (ok: bool)
    requires out.Length == POLICY_BYTES
    modifies out
    ensures ok <==> PolicyValid(p)
    ensures out[..] == if ok then Encoding(p) else Zeros(POLICY_BYTES)
  {
    hide Little, Fill, Fits;
    Clear(out);
    if p.limitAction == NoLimit {
      if p.maxAttempts != 0 {
        return false;
      }
    } else if p.maxAttempts == 0 {
      return false;
    }
    if p.autoLock !in {0, 60, 120, 300, 600, 900, 1800} {
      return false;
    }
    if p.screenSleep !in {0, 30, 60, 120, 300, 600, 0xffff} {
      return false;
    }
    ghost var f := CopyField(out, 0, [1], []);
    f := CopyField(out, 2, [16], f);
    f := PutField(out, 4, p.maxAttempts, 4, f);
    f := CopyField(out, 8, [ActionCode(p.limitAction)], f);
    f := PutField(out, 10, p.autoLock, 4, f);
    f := PutField(out, 14, p.screenSleep, 2, f);
    assert f == Fields(p);
    return true;
  }

  lemma EncodingReadsBack(p: AuthPolicy)
    ensures Value(Slice(Encoding(p), 4, 4)) == p.maxAttempts
    ensures Slice(Encoding(p), 8, 1) == [ActionCode(p.limitAction)]
    ensures Value(Slice(Encoding(p), 10, 4)) == p.autoLock
    ensures Value(Slice(Encoding(p), 14, 2)) == p.screenSleep
    ensures Encoding(p)[9] == 0
  {
    Powers();
    FieldsFit(p);
    SliceOfFill(Fields(p), POLICY_BYTES, 2);
    SliceOfFill(Fields(p), POLICY_BYTES, 3);
    SliceOfFill(Fields(p), POLICY_BYTES, 4);
    SliceOfFill(Fields(p), POLICY_BYTES, 5);
    ValueOfLittle(p.maxAttempts, 4);
    ValueOfLittle(p.autoLock, 4);
    ValueOfLittle(p.screenSleep, 2);
    GapOfFill(Fields(p), POLICY_BYTES, 9);
  }

  /** The bytes that are the same in every encoding, and the one that names the action. */
  lemma EncodingConstants(p: AuthPolicy)
    ensures Encoding(p)[..4] == [1, 0, 16, 0] && Encoding(p)[9] == 0
    ensures Encoding(p)[8] == if p.limitAction == Destroy then 1 else if p.limitAction == Lockout then 2 else 5
  {
    hide Little, Fill;
    FieldsFit(p);
    SliceOfFill(Fields(p), POLICY_BYTES, 0);
    SliceOfFill(Fields(p), POLICY_BYTES, 1);
    SliceOfFill(Fields(p), POLICY_BYTES, 3);
    var b := Encoding(p);
    assert Slice(b, 0, 1)[0] == b[0] && Slice(b, 2, 1)[0] == b[2] && Slice(b, 8, 1)[0] == b[8];
    GapOfFill(Fields(p), POLICY_BYTES, 1);
    GapOfFill(Fields(p), POLICY_BYTES, 3);
    GapOfFill(Fields(p), POLICY_BYTES, 9);
  }

  /** Accepts exactly the canonical encodings of valid policies, each as the policy it encodes. */
  method Decode(b: seq<byte>) returns (r: Option<AuthPolicy>)
    ensures forall p :: PolicyValid(p) && Encoding(p) == b ==> r == Some(p)
    ensures r.Some? ==> PolicyValid(r.value) && Encoding(r.value) == b
  {
    hide Little, Fill, Encoding;
    forall p
      ensures |Encoding(p)| == POLICY_BYTES
      ensures Value(Slice(Encoding(p), 4, 4)) == p.maxAttempts
      ensures Slice(Encoding(p), 8, 1) == [ActionCode(p.limitAction)]
      ensures Value(Slice(Encoding(p), 10, 4)) == p.autoLock
      ensures Value(Slice(Encoding(p), 14, 2)) == p.screenSleep
      ensures Encoding(p)[9] == 0
    {
      EncodingReadsBack(p);
    }
    if |b| != POLICY_BYTES {
      return None;
    }
    var attempts := Get(b, 4, 4);
    var lock := Get(b, 10, 4);
    var sleep := Get(b, 14, 2);
    var code := (b[8] as int) + 256 * (b[9] as int);
    Ranges(b);
    assert Slice(b, 8, 1) == [b[8]];
    if code !in {1, 2, 5} {
      return None;
    }
    var p := AuthPolicy(attempts, if code == 5 then NoLimit else if code == 1 then Destroy else Lockout, lock, sleep);
    var canonical := new byte[POLICY_BYTES];
    var ok := Encode(p, canonical);
    if !ok || canonical[..] != b {
      return None;
    }
    return Some(p);
  }

  lemma Ranges(b: seq<byte>)
    requires |b| == POLICY_BYTES
    ensures Value(Slice(b, 4, 4)) <= UINT32_MAX && Value(Slice(b, 10, 4)) <= UINT32_MAX
    ensures Value(Slice(b, 14, 2)) <= UINT16_MAX
  {
    Powers();
    LittleOfValue(Slice(b, 4, 4));
    LittleOfValue(Slice(b, 10, 4));
    LittleOfValue(Slice(b, 14, 2));
  }
}
