/** What a step of the validator set leaves alone: every seat it does not name, and of the seat it
    names everything but what it is for. */
module ValidatorFrames {
  import opened Machine
  import opened SignBytes
  import opened Validators
  import opened Rotation
  import opened SetChanges
  import opened ValidatorRuns

  // ---------------------------------------------------------------------------
  // Seats
  // ---------------------------------------------------------------------------

  /** The operation is about this root. */
  predicate Names(op: Op, root: Bytes) {
    match op
    case Change(cert) => SubjectRoot(cert.body) == root
    case Rotate(cert) => cert.rootPk == root
    case Reweight(roots, _) => root in roots
  }

  /** What the operation makes of the seat of a root it names. */
  function Renewed(c: ChainRules, op: Op, seat: Option<Validator>): Option<Validator> {
    match op
    case Change(cert) =>
      (match cert.body.change
       case Admit(root, key, power) => Some(Validator(c.addressOf(key), root, key, 0, power))
       case Remove(_) => None
       case SetPower(_, power) => if seat.Some? then Some(seat.value.(votingPower := power)) else None)
    case Rotate(cert) => if seat.Some? then Some(seat.value.(publicKey := cert.newOpPk, epoch := cert.epoch)) else None
    case Reweight(_, power) => if seat.Some? then Some(seat.value.(votingPower := power)) else None
  }

  lemma ChangeSeats(c: ChainRules, s: Seats, cert: SetChangeCert, height: u64, root: Bytes)
    requires WellFormed(s) && Applied(c, s, Change(cert), height).Some? && SeatOf(s, root).Some?
    ensures SeatOf(Step(c, s, Change(cert), height), root)
            == if SubjectRoot(cert.body) == root then Renewed(c, Change(cert), SeatOf(s, root)) else SeatOf(s, root)
  {
    AcceptedChangeInRange(c, s, cert, height);
    hide VerifyCert, InWindow, WellFormed, SeatOf, Reweighed, WithoutRoot, NewSet, AddressSeated;
    match cert.body.change
    case Admit(root', key, power) =>
      AdmitKeepsSeat(s, NewValidator(c.addressOf, root', key, power), root);
    case Remove(root') =>
      if root' == root {
        RemovedSeatGone(s, root');
      } else {
        RemoveKeepsSeat(s, root', root);
      }
    case SetPower(root', power) => ReweighKeepsSeat(s, {root'}, power, root);
  }

  lemma RotationSeats(c: ChainRules, s: Seats, cert: RotationCert, height: u64, root: Bytes)
    requires WellFormed(s) && Applied(c, s, Rotate(cert), height).Some? && SeatOf(s, root).Some?
    ensures SeatOf(Step(c, s, Rotate(cert), height), root)
            == if cert.rootPk == root then Renewed(c, Rotate(cert), SeatOf(s, root)) else SeatOf(s, root)
  {
    var rules := RotationRules(height, c.chainId, c.v2From);
    RotationKeepsTheSet(c.verify, s, cert, rules);
    SeatIsMember(s, root);
    hide WellFormed, ApplyRotation, SeatOf;
    var r := ApplyRotation(c.verify, s, cert, rules).value;
    var k :| 0 <= k < |s| && s[k] == SeatOf(s, root).value;
    assert r[k] in r;
    MemberIsSeat(r, r[k]);
  }

  /** A step that applies leaves exactly this: a seat it names is renewed as the operation says and
      in no other field, and every other root keeps its seat in all fields, or stays without one. */
  lemma StepSeats(c: ChainRules, s: Seats, op: Op, height: u64, root: Bytes)
    requires WellFormed(s) && InBound(op) && Applied(c, s, op, height).Some?
    ensures !Names(op, root) ==> SeatOf(Step(c, s, op, height), root) == SeatOf(s, root)
    ensures Names(op, root) ==> SeatOf(Step(c, s, op, height), root) == Renewed(c, op, SeatOf(s, root))
  {
    hide WellFormed, ApplySetChange, ApplyRotation, SeatOf, ReweightRoots;
    if SeatOf(s, root).Some? {
      match op
      case Change(cert) => ChangeSeats(c, s, cert, height, root);
      case Rotate(cert) => RotationSeats(c, s, cert, height, root);
      case Reweight(roots, power) => ReweightSeats(c, s, roots, power, height, root);
    } else {
      UnseatedSeats(c, s, op, height, root);
    }
  }

  lemma ReweightSeats(c: ChainRules, s: Seats, roots: set<Bytes>, power: u64, height: u64, root: Bytes)
    requires WellFormed(s) && 1 <= power <= MAX_VOTING_POWER && SeatOf(s, root).Some?
    requires Applied(c, s, Reweight(roots, power), height).Some?
    ensures SeatOf(Step(c, s, Reweight(roots, power), height), root)
            == Some(if root in roots then SeatOf(s, root).value.(votingPower := power) else SeatOf(s, root).value)
  {
    hide WellFormed, SeatOf, NewSet, Reweighed;
    ReweighKeepsSeat(s, roots, power, root);
  }

  lemma UnseatedSeats(c: ChainRules, s: Seats, op: Op, height: u64, root: Bytes)
    requires WellFormed(s) && InBound(op) && Applied(c, s, op, height).Some? && SeatOf(s, root).None?
    ensures SeatOf(Step(c, s, op, height), root) == if Names(op, root) then Renewed(c, op, None) else None
  {
    hide WellFormed, ApplySetChange, ApplyRotation, SeatOf, ReweightRoots, NewSet;
    if AdmitsRoot(c, s, op, height, root) {
      AdmissionStartsAtEpochZero(c, s, op.cert, height);
    } else {
      if SeatOf(Step(c, s, op, height), root).Some? {
        OnlyAdmissionSeats(c, s, op, height, root);
      }
    }
  }

  predicate NeverNamed(trace: Trace, root: Bytes) {
    forall i :: 0 <= i < |trace| ==> !Names(trace[i].1, root)
  }

  /** Over every run, a root that no step names keeps its seat in all fields, or stays without one,
      whatever happens to the others. */
  lemma {:induction false} UnnamedSeatStays(c: ChainRules, s: Seats, trace: Trace, root: Bytes)
    requires WellFormed(s) && AllInBound(trace) && NeverNamed(trace, root)
    ensures SeatOf(Run(c, s, trace), root) == SeatOf(s, root)
    decreases |trace|
  {
    hide WellFormed, InBound, Names, Applied, SeatOf;
    if trace != [] {
      var op, height := trace[0].1, trace[0].0;
      StepWellFormed(c, s, op, height);
      if Applied(c, s, op, height).Some? {
        StepSeats(c, s, op, height, root);
      }
      UnnamedSeatStays(c, Step(c, s, op, height), trace[1..], root);
    }
  }

  // ---------------------------------------------------------------------------
  // Power
  // ---------------------------------------------------------------------------

  function PowerAt(s: Seats, root: Bytes): nat {
    if SeatOf(s, root).Some? then SeatOf(s, root).value.votingPower else 0
  }

  lemma {:induction false} PlacePower(v: Validator, s: Seats)
    ensures TruePower(Place(v, s)) == v.votingPower + TruePower(s)
    decreases |s|
  {
    if s != [] {
      PlacePower(v, s[1..]);
    }
  }

  lemma {:induction false} NewSetPower(vals: seq<Validator>)
    ensures TruePower(NewSet(vals)) == TruePower(vals)
    decreases |vals|
  {
    if vals != [] {
      NewSetPower(vals[1..]);
      PlacePower(vals[0], NewSet(vals[1..]));
    }
  }

  lemma {:induction false} AppendPower(s: Seats, v: Validator)
    ensures TruePower(s + [v]) == TruePower(s) + v.votingPower
    decreases |s|
  {
    if s == [] {
      assert [v][1..] == [];
    } else {
      AppendPower(s[1..], v);
      assert (s + [v])[1..] == s[1..] + [v];
    }
  }

  lemma {:induction false} WithoutPower(s: Seats, root: Bytes)
    requires DistinctSeats(s)
    ensures TruePower(WithoutRoot(s, root)) + PowerAt(s, root) == TruePower(s)
    decreases |s|
  {
    if s != [] {
      WithoutPower(s[1..], root);
      HeadDiffers(s);
      SeatOfCorrect(s[1..], root);
      if s[0].rootPk != root {
        assert WithoutRoot(s, root)[1..] == WithoutRoot(s[1..], root);
      } else {
        assert WithoutRoot(s, root) == WithoutRoot(s[1..], root);
        assert PowerAt(s[1..], root) == 0;
      }
    }
  }

  lemma {:induction false} ReweighedPower(s: Seats, root: Bytes, power: u64)
    requires DistinctSeats(s) && SeatOf(s, root).Some?
    ensures TruePower(Reweighed(s, {root}, power)) + PowerAt(s, root) == TruePower(s) + power
    decreases |s|
  {
    var r := Reweighed(s, {root}, power);
    assert r[1..] == Reweighed(s[1..], {root}, power);
    HeadDiffers(s);
    if s[0].rootPk == root {
      assert r[1..] == s[1..];
    } else {
      ReweighedPower(s[1..], root, power);
    }
  }

  /** A set change moves the total power by exactly what its subject gains or loses. */
  lemma ChangeMovesPower(c: ChainRules, s: Seats, cert: SetChangeCert, height: u64)
    requires WellFormed(s) && Applied(c, s, Change(cert), height).Some?
    ensures var r, root := Step(c, s, Change(cert), height), SubjectRoot(cert.body);
            TruePower(r) - TruePower(s) == PowerAt(r, root) - PowerAt(s, root)
  {
    StepSeats(c, s, Change(cert), height, SubjectRoot(cert.body));
    DistinctOf(s);
    hide VerifyCert, InWindow, WellFormed, SeatOf, NewSet, AddressSeated, DistinctSeats, TruePower;
    match cert.body.change
    case Admit(root, key, power) =>
      var newcomer := NewValidator(c.addressOf, root, key, power);
      NewSetPower(s + [newcomer]);
      AppendPower(s, newcomer);
    case Remove(root) =>
      NewSetPower(WithoutRoot(s, root));
      WithoutPower(s, root);
    case SetPower(root, power) =>
      NewSetPower(Reweighed(s, {root}, power));
      ReweighedPower(s, root, power);
  }

  // ---------------------------------------------------------------------------
  // Verdicts
  // ---------------------------------------------------------------------------

  /** Every refusal of a rotation by name, in plain integers: no such root, an epoch that is not
      newer, a height that is not there yet, one too long ago, a signature of the older domain where
      the newer one is asked for, and any other signature. */
  lemma RotationVerdictIff(verify: RootVerify, s: Seats, cert: RotationCert, rules: RotationRules)
    ensures var r, seat := ApplyRotation(verify, s, cert, rules), SeatOf(s, cert.rootPk);
            var newer := seat.Some? && cert.epoch > seat.value.epoch;
            var v2, next := rules.height >= rules.v2From, Min(rules.height + 1, U64_MAX);
            var open := !v2 || cert.validFromHeight <= next <= cert.validFromHeight + 100_000;
            && (r == Err(NoSuchRoot) <==> seat.None?)
            && (r == Err(StaleEpoch) <==> seat.Some? && !newer)
            && (r == Err(FutureHeight) <==> newer && v2 && cert.validFromHeight > next)
            && (r == Err(PastHorizon) <==> newer && v2 && next > cert.validFromHeight + 100_000)
            && (r == Err(SignedUnderV1) <==>
                  newer && open && v2 && !VerifySig(verify, cert, V2, rules.chainId) && VerifySig(verify, cert, V1, []))
            && (r == Err(BadSignature) <==>
                  newer && open && !VerifySig(verify, cert, V1, []) && (v2 ==> !VerifySig(verify, cert, V2, rules.chainId)))
            && r != Err(WrongRoot)
  {
    hide VerifySig, Rotated;
    SeatOfCorrect(s, cert.rootPk);
    WindowVerdict(cert, rules);
    hide CheckWindow, DistinctSeats;
  }

  lemma WindowVerdict(cert: RotationCert, rules: RotationRules)
    ensures var v2, next := rules.height >= rules.v2From, Min(rules.height + 1, U64_MAX);
            && (CheckWindow(cert, rules).Pass? <==> !v2 || cert.validFromHeight <= next <= cert.validFromHeight + 100_000)
            && (CheckWindow(cert, rules) == Fail(FutureHeight) <==> v2 && cert.validFromHeight > next)
            && (CheckWindow(cert, rules) == Fail(PastHorizon) <==> v2 && next > cert.validFromHeight + 100_000)
            && (CheckWindow(cert, rules).Fail? ==> CheckWindow(cert, rules).error in {FutureHeight, PastHorizon})
  {
  }

  /** What is wrong with an approval, given the roots that came before it. */
  predicate BadApproval(verify: RootVerify, s: Seats, body: SetChangeBody, a: Approval, seen: seq<Bytes>, e: ChangeError) {
    if a.rootPk in seen then e == DuplicateApproval
    else if SeatOf(s, a.rootPk).None? then e == ApprovalNotSeated
    else !ApprovalVerifies(verify, a, body) && e == InvalidApproval
  }

  function RootsOf(approvals: seq<Approval>): (r: seq<Bytes>)
    ensures |r| == |approvals| && forall i :: 0 <= i < |r| ==> r[i] == approvals[i].rootPk
  {
    seq(|approvals|, i requires 0 <= i < |approvals| => approvals[i].rootPk)
  }

  ghost predicate FirstBadApproval(verify: RootVerify, s: Seats, body: SetChangeBody, approvals: seq<Approval>,
                                   seen: seq<Bytes>, i: int, e: ChangeError) {
    && 0 <= i < |approvals| && BadApproval(verify, s, body, approvals[i], seen + RootsOf(approvals[..i]), e)
    && forall j, x :: 0 <= j < i ==> !BadApproval(verify, s, body, approvals[j], seen + RootsOf(approvals[..j]), x)
  }

  /** A list of approvals is refused for the first of them that repeats a root, has no seat or does
      not verify. */
  lemma {:induction false} TallyRefusesFirstBad(verify: RootVerify, s: Seats, body: SetChangeBody, approvals: seq<Approval>,
                                                seen: seq<Bytes>, approving: u64)
    requires Tally(verify, s, body, approvals, seen, approving).Err?
    ensures var e := Tally(verify, s, body, approvals, seen, approving).error;
            exists i :: FirstBadApproval(verify, s, body, approvals, seen, i, e)
    decreases |approvals|
  {
    hide ApprovalVerifies;
    var a, rest := approvals[0], approvals[1..];
    var e := Tally(verify, s, body, approvals, seen, approving).error;
    assert seen + RootsOf(approvals[..0]) == seen;
    if a.rootPk !in seen && Genuine(verify, s, body, a) {
      var next := SatAdd(approving, SeatOf(s, a.rootPk).value.votingPower, U64_MAX);
      TallyRefusesFirstBad(verify, s, body, rest, seen + [a.rootPk], next);
      var i :| FirstBadApproval(verify, s, body, rest, seen + [a.rootPk], i, e);
      forall j: int | 0 <= j <= i ensures seen + RootsOf(approvals[..j + 1]) == seen + [a.rootPk] + RootsOf(rest[..j]) {
        assert RootsOf(approvals[..j + 1]) == [a.rootPk] + RootsOf(rest[..j]);
      }
      forall j: int, x | 0 <= j < i + 1 ensures !BadApproval(verify, s, body, approvals[j], seen + RootsOf(approvals[..j]), x) {
        if j > 0 {
          assert approvals[j] == rest[j - 1];
          assert !BadApproval(verify, s, body, rest[j - 1], seen + [a.rootPk] + RootsOf(rest[..j - 1]), x);
        }
      }
      assert FirstBadApproval(verify, s, body, approvals, seen, i + 1, e);
    } else {
      assert FirstBadApproval(verify, s, body, approvals, seen, 0, e);
    }
  }

  /** Every refusal of a certificate by name: the first defect of its shape, another chain, no
      approvals at all, the first bad approval, or too little power. */
  lemma CertVerdictIff(verify: RootVerify, cert: SetChangeCert, s: Seats, chainId: Bytes)
    ensures var b, v := cert.body, VerifyCert(verify, cert, s, chainId);
            var keyed := b.change.Admit? ==> b.change.publicKey != [];
            var powered := !b.change.Remove? ==> 1 <= b.change.votingPower <= 0x1_0000_0000;
            var whole := b.chainId != [] && b.notBefore <= b.notAfter && |b.change.rootPk| == 48;
            && (v == Fail(EmptyChainId) <==> b.chainId == [])
            && (v == Fail(WindowInverted) <==> b.chainId != [] && b.notAfter < b.notBefore)
            && (v == Fail(RootPkLength) <==> b.chainId != [] && b.notBefore <= b.notAfter && |b.change.rootPk| != 48)
            && (v == Fail(EmptyOperationalKey) <==> whole && !keyed)
            && (v == Fail(PowerZero) <==> whole && keyed && !b.change.Remove? && b.change.votingPower == 0)
            && (v == Fail(PowerTooLarge) <==> whole && keyed && !b.change.Remove? && b.change.votingPower > 0x1_0000_0000)
            && (v == Fail(WrongChain) <==> whole && keyed && powered && b.chainId != chainId)
            && (v == Fail(NoApprovals) <==> whole && keyed && powered && b.chainId == chainId && cert.approvals == [])
            && (v.Fail? && v.error in {DuplicateApproval, ApprovalNotSeated, InvalidApproval} ==>
                  && whole && keyed && powered && b.chainId == chainId
                  && exists i :: FirstBadApproval(verify, s, b, cert.approvals, [], i, v.error))
            && (v.Fail? ==>
                  v.error in {EmptyChainId, WindowInverted, RootPkLength, EmptyOperationalKey, PowerZero, PowerTooLarge, WrongChain,
                              NoApprovals, DuplicateApproval, ApprovalNotSeated, InvalidApproval, NotSupermajority})
            && (v == Fail(NotSupermajority) ==> whole && keyed && powered && b.chainId == chainId && cert.approvals != [])
  {
    hide ApprovalVerifies, QuorumTest;
    TallyErrors(verify, s, cert.body, cert.approvals, [], 0);
    if Tally(verify, s, cert.body, cert.approvals, [], 0).Err? {
      TallyRefusesFirstBad(verify, s, cert.body, cert.approvals, [], 0);
    }
    hide Tally;
  }

  lemma {:induction false} TallyErrors(verify: RootVerify, s: Seats, body: SetChangeBody, approvals: seq<Approval>,
                                       seen: seq<Bytes>, approving: u64)
    ensures var t := Tally(verify, s, body, approvals, seen, approving);
            t.Err? ==> t.error in {DuplicateApproval, ApprovalNotSeated, InvalidApproval}
    decreases |approvals|
  {
    hide ApprovalVerifies;
    if approvals != [] && SeatOf(s, approvals[0].rootPk).Some? {
      TallyErrors(verify, s, body, approvals[1..], seen + [approvals[0].rootPk],
                  SatAdd(approving, SeatOf(s, approvals[0].rootPk).value.votingPower, U64_MAX));
    }
  }

  /** The set already is as the change says. */
  predicate AlreadySo(s: Seats, change: SetChange) {
    match change
    case Admit(root, _, _) => SeatOf(s, root).Some?
    case Remove(root) => SeatOf(s, root).None?
    case SetPower(root, power) => Standing(s, root) == Some(power)
  }

  /** Every verdict on a change by name. A certificate that verifies takes effect inside its window
      unless the set is so already, an admission would share a seated address, a removal would empty
      the set, or the root to re-weigh has no seat. */
  lemma ChangeVerdictIff(c: ChainRules, s: Seats, cert: SetChangeCert, height: u64)
    requires WellFormed(s)
    ensures var change, root := cert.body.change, SubjectRoot(cert.body);
            var r := ApplySetChange(c.verify, c.addressOf, s, cert, height, c.chainId);
            if VerifyCert(c.verify, cert, s, c.chainId).Fail? then r == Err(VerifyCert(c.verify, cert, s, c.chainId).error)
            else
              && (r == Err(OutsideWindow) <==> !(cert.body.notBefore <= height <= cert.body.notAfter))
              && (cert.body.notBefore <= height <= cert.body.notAfter ==>
                    && (r == Ok(None) <==> AlreadySo(s, change))
                    && (r == Err(AddressCollision) <==>
                          && change.Admit? && SeatOf(s, root).None?
                          && exists v :: v in s && v.address == c.addressOf(change.publicKey))
                    && (r == Err(LastSeat) <==> change.Remove? && forall v :: v in s ==> v.rootPk == root)
                    && (r == Err(NotSeated) <==> change.SetPower? && SeatOf(s, root).None?)
                    && (r.Err? ==> r.error in {AddressCollision, LastSeat, NotSeated}))
  {
    hide VerifyCert, WellFormed, NewSet, Reweighed;
    SeatOfCorrect(s, SubjectRoot(cert.body));
    if cert.body.change.Remove? {
      LastSeatIff(s, SubjectRoot(cert.body));
    }
  }

  lemma LastSeatIff(s: Seats, root: Bytes)
    requires WellFormed(s)
    ensures WithoutRoot(s, root) == [] <==> forall v :: v in s ==> v.rootPk == root
    ensures (forall v :: v in s ==> v.rootPk == root) ==> SeatOf(s, root).Some?
  {
    SeatOfCorrect(s, root);
    assert s[0] in s;
    if WithoutRoot(s, root) != [] {
      assert WithoutRoot(s, root)[0] in s;
    } else {
      forall v | v in s ensures v.rootPk == root {
        assert v !in WithoutRoot(s, root);
      }
    }
  }
}
