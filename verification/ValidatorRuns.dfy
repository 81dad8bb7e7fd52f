/** The validator set over whole runs of set changes, rotations and re-weights, and the
    per-height history a node keeps of it. */
module ValidatorRuns {
  import opened Machine
  import opened SignBytes
  import opened Validators
  import opened Rotation
  import opened SetChanges

  /** What one chain fixes: its root signature scheme, its address hash, its id and the
      height its v2 rotation rule starts at. */
  datatype ChainRules = ChainRules(verify: RootVerify, addressOf: AddressOf, chainId: Sized, v2From: u64)

  datatype Op =
    | Change(cert: SetChangeCert)
    | Rotate(rotation: RotationCert)
    | Reweight(roots: set<Bytes>, power: u64)

  /** The set after one operation in the block at `height`; a refused or empty one changes
      nothing. */
  function Applied(c: ChainRules, s: Seats, op: Op, height: u64): Option<Seats> {
    match op
    case Change(cert) =>
      (match ApplySetChange(c.verify, c.addressOf, s, cert, height, c.chainId)
       case Ok(r) => r
       case Err(_) => None)
    case Rotate(cert) =>
      (match ApplyRotation(c.verify, s, cert, RotationRules(height, c.chainId, c.v2From))
       case Ok(r) => Some(r)
       case Err(_) => None)
    case Reweight(roots, power) => ReweightRoots(s, roots, power)
  }

  function Step(c: ChainRules, s: Seats, op: Op, height: u64): Seats {
    match Applied(c, s, op, height)
    case Some(r) => r
    case None => s
  }

  /** A run: each operation with the height it commits at. */
  type Trace = seq<(u64, Op)>

  function Run(c: ChainRules, s: Seats, trace: Trace): Seats
    decreases |trace|
  {
    if trace == [] then s else Run(c, Step(c, s, trace[0].1, trace[0].0), trace[1..])
  }

  /** The re-weight constant of the binary is itself a legal power. */
  predicate InBound(op: Op) {
    op.Reweight? ==> 1 <= op.power <= MAX_VOTING_POWER
  }

  predicate AllInBound(trace: Trace) {
    forall i :: 0 <= i < |trace| ==> InBound(trace[i].1)
  }

  // ---------------------------------------------------------------------------
  // Well-formedness over every run
  // ---------------------------------------------------------------------------

  lemma AcceptedChangeInRange(c: ChainRules, s: Seats, cert: SetChangeCert, height: u64)
    requires ApplySetChange(c.verify, c.addressOf, s, cert, height, c.chainId).Ok?
    ensures cert.body.change.Admit? ==> 1 <= cert.body.change.votingPower <= MAX_VOTING_POWER
    ensures cert.body.change.SetPower? ==> 1 <= cert.body.change.votingPower <= MAX_VOTING_POWER
    ensures VerifyCert(c.verify, cert, s, c.chainId).Pass? && InWindow(cert, height)
  {
    hide Tally, QuorumTest;
  }

  lemma ChangeWellFormed(c: ChainRules, s: Seats, cert: SetChangeCert, height: u64)
    requires WellFormed(s)
    requires ApplySetChange(c.verify, c.addressOf, s, cert, height, c.chainId).Ok?
    requires ApplySetChange(c.verify, c.addressOf, s, cert, height, c.chainId).value.Some?
    ensures WellFormed(ApplySetChange(c.verify, c.addressOf, s, cert, height, c.chainId).value.value)
  {
    AcceptedChangeInRange(c, s, cert, height);
    hide WellFormed, VerifyCert, InWindow;
    match cert.body.change
    case Admit(root, key, power) => AdmitWellFormed(s, NewValidator(c.addressOf, root, key, power));
    case Remove(root) => RemoveWellFormed(s, root);
    case SetPower(root, power) => ReweighWellFormed(s, {root}, power);
  }

  lemma StepWellFormed(c: ChainRules, s: Seats, op: Op, height: u64)
    requires WellFormed(s) && InBound(op)
    ensures WellFormed(Step(c, s, op, height))
  {
    hide WellFormed, ApplySetChange, ApplyRotation;
    if Applied(c, s, op, height).Some? {
      match op
      case Change(cert) => ChangeWellFormed(c, s, cert, height);
      case Rotate(cert) => RotationKeepsTheSet(c.verify, s, cert, RotationRules(height, c.chainId, c.v2From));
      case Reweight(roots, power) => ReweighWellFormed(s, roots, power);
    }
  }

  /** Every run from a well-formed set, whatever certificates arrive and in whatever order,
      keeps it nonempty, with distinct roots and addresses, powers in range, in order. */
  lemma {:induction false} RunWellFormed(c: ChainRules, s: Seats, trace: Trace)
    requires WellFormed(s) && AllInBound(trace)
    ensures WellFormed(Run(c, s, trace))
    decreases |trace|
  {
    hide WellFormed, Step, InBound;
    if trace != [] {
      StepWellFormed(c, s, trace[0].1, trace[0].0);
      RunWellFormed(c, Step(c, s, trace[0].1, trace[0].0), trace[1..]);
    }
  }

  /** And so, while there are at most 2^16 seats, no step of any run can saturate the quorum
      arithmetic. */
  lemma NoRunSaturates(c: ChainRules, s: Seats, trace: Trace)
    requires WellFormed(s) && AllInBound(trace) && |Run(c, s, trace)| <= MAX_SEATS
    ensures TotalPower(Run(c, s, trace)) == TruePower(Run(c, s, trace)) && 3 * TruePower(Run(c, s, trace)) <= U64_MAX
  {
    RunWellFormed(c, s, trace);
    BoundedSetsDoNotSaturate(Run(c, s, trace));
  }

  // ---------------------------------------------------------------------------
  // Seats through a step
  // ---------------------------------------------------------------------------

  lemma MemberIsSeat(r: Seats, v: Validator)
    requires WellFormed(r) && v in r
    ensures SeatOf(r, v.rootPk) == Some(v)
  {
    DistinctOf(r);
    SeatOfCorrect(r, v.rootPk);
  }

  lemma SeatIsMember(s: Seats, root: Bytes)
    requires SeatOf(s, root).Some?
    ensures SeatOf(s, root).value in s && SeatOf(s, root).value.rootPk == root
  {
    SeatOfCorrect(s, root);
  }

  lemma AdmitKeepsSeat(s: Seats, newcomer: Validator, root: Bytes)
    requires WellFormed(s) && 1 <= newcomer.votingPower <= MAX_VOTING_POWER
    requires SeatOf(s, newcomer.rootPk).None? && !AddressSeated(s, newcomer.address)
    requires SeatOf(s, root).Some?
    ensures SeatOf(NewSet(s + [newcomer]), root) == SeatOf(s, root)
  {
    AdmitWellFormed(s, newcomer);
    SeatIsMember(s, root);
    hide *;
    MemberIsSeat(NewSet(s + [newcomer]), SeatOf(s, root).value);
  }

  lemma RemoveKeepsSeat(s: Seats, gone: Bytes, root: Bytes)
    requires WellFormed(s) && WithoutRoot(s, gone) != []
    requires SeatOf(s, root).Some? && root != gone
    ensures SeatOf(NewSet(WithoutRoot(s, gone)), root) == SeatOf(s, root)
  {
    RemoveWellFormed(s, gone);
    SeatIsMember(s, root);
    hide *;
    MemberIsSeat(NewSet(WithoutRoot(s, gone)), SeatOf(s, root).value);
  }

  lemma RemovedSeatGone(s: Seats, gone: Bytes)
    requires WellFormed(s) && WithoutRoot(s, gone) != []
    ensures SeatOf(NewSet(WithoutRoot(s, gone)), gone) == None
  {
    RemoveWellFormed(s, gone);
    SeatOfCorrect(NewSet(WithoutRoot(s, gone)), gone);
  }

  lemma ReweighKeepsSeat(s: Seats, roots: set<Bytes>, power: u64, root: Bytes)
    requires WellFormed(s) && 1 <= power <= MAX_VOTING_POWER && SeatOf(s, root).Some?
    ensures SeatOf(NewSet(Reweighed(s, roots, power)), root)
            == Some(if root in roots then SeatOf(s, root).value.(votingPower := power) else SeatOf(s, root).value)
  {
    ReweighWellFormed(s, roots, power);
    SeatIsMember(s, root);
    ReweighedSeat(s, roots, power, SeatOf(s, root).value);
    hide *;
    var seat := SeatOf(s, root).value;
    MemberIsSeat(NewSet(Reweighed(s, roots, power)), if root in roots then seat.(votingPower := power) else seat);
  }

  /** A seat that is present before and after a change kept everything but perhaps its power. */
  lemma ChangeKeepsSeat(c: ChainRules, s: Seats, cert: SetChangeCert, height: u64, root: Bytes)
    requires WellFormed(s) && SeatOf(s, root).Some?
    requires ApplySetChange(c.verify, c.addressOf, s, cert, height, c.chainId).Ok?
    requires ApplySetChange(c.verify, c.addressOf, s, cert, height, c.chainId).value.Some?
    ensures var r := ApplySetChange(c.verify, c.addressOf, s, cert, height, c.chainId).value.value;
            SeatOf(r, root).Some? ==>
              exists power: u64 :: SeatOf(r, root).value == SeatOf(s, root).value.(votingPower := power)
  {
    AcceptedChangeInRange(c, s, cert, height);
    hide VerifyCert, InWindow, WellFormed, SeatOf, Reweighed, WithoutRoot, NewSet, AddressSeated;
    var seat := SeatOf(s, root).value;
    assert seat == seat.(votingPower := seat.votingPower);
    match cert.body.change
    case Admit(root', key, power) => AdmitKeepsSeat(s, NewValidator(c.addressOf, root', key, power), root);
    case Remove(root') =>
      if root' == root {
        RemovedSeatGone(s, root');
      } else {
        RemoveKeepsSeat(s, root', root);
      }
    case SetPower(root', power) => ReweighKeepsSeat(s, {root'}, power, root);
  }

  lemma ReweighedSeat(s: Seats, roots: set<Bytes>, power: u64, seat: Validator)
    requires seat in s
    ensures (if seat.rootPk in roots then seat.(votingPower := power) else seat) in Reweighed(s, roots, power)
  {
    var i :| 0 <= i < |s| && s[i] == seat;
    assert Reweighed(s, roots, power)[i] in Reweighed(s, roots, power);
  }

  lemma DistinctOf(s: Seats)
    requires WellFormed(s)
    ensures DistinctSeats(s)
  {
  }

  lemma StepKeepsEpoch(c: ChainRules, s: Seats, op: Op, height: u64, root: Bytes)
    requires WellFormed(s) && InBound(op)
    requires SeatOf(s, root).Some? && SeatOf(Step(c, s, op, height), root).Some?
    ensures SeatOf(s, root).value.epoch <= SeatOf(Step(c, s, op, height), root).value.epoch
  {
    hide WellFormed, ApplySetChange, ApplyRotation;
    if Applied(c, s, op, height).Some? {
      match op
      case Change(cert) => ChangeKeepsSeat(c, s, cert, height, root);
      case Rotate(cert) => EpochOnlyGrows(c.verify, s, cert, RotationRules(height, c.chainId, c.v2From), root);
      case Reweight(roots, power) =>
        ReweighKeepsSeat(s, roots, power, root);
    }
  }

  predicate StaysSeated(c: ChainRules, s: Seats, trace: Trace, root: Bytes)
    decreases |trace|
  {
    SeatOf(s, root).Some? && (trace == [] || StaysSeated(c, Step(c, s, trace[0].1, trace[0].0), trace[1..], root))
  }

  lemma {:induction false} EpochMonotoneWhileSeated(c: ChainRules, s: Seats, trace: Trace, root: Bytes)
    requires WellFormed(s) && AllInBound(trace) && StaysSeated(c, s, trace, root)
    ensures SeatOf(Run(c, s, trace), root).Some?
    ensures SeatOf(s, root).value.epoch <= SeatOf(Run(c, s, trace), root).value.epoch
    decreases |trace|
  {
    hide WellFormed, Step, InBound;
    if trace != [] {
      StepWellFormed(c, s, trace[0].1, trace[0].0);
      StepKeepsEpoch(c, s, trace[0].1, trace[0].0, root);
      EpochMonotoneWhileSeated(c, Step(c, s, trace[0].1, trace[0].0), trace[1..], root);
    }
  }

  /** A rotation, once applied, is refused for good: in every continuation in which the seat
      stays, the same certificate fails at every height. */
  lemma AppliedRotationNeverReapplies(c: ChainRules, s: Seats, cert: RotationCert, height: u64, trace: Trace, later: RotationRules)
    requires WellFormed(s) && AllInBound(trace)
    requires ApplyRotation(c.verify, s, cert, RotationRules(height, c.chainId, c.v2From)).Ok?
    requires StaysSeated(c, Step(c, s, Rotate(cert), height), trace, cert.rootPk)
    ensures ApplyRotation(c.verify, Run(c, Step(c, s, Rotate(cert), height), trace), cert, later) == Err(StaleEpoch)
  {
    var t := Step(c, s, Rotate(cert), height);
    StepWellFormed(c, s, Rotate(cert), height);
    SeatOfCorrect(s, cert.rootPk);
    EpochOnlyGrows(c.verify, s, cert, RotationRules(height, c.chainId, c.v2From), cert.rootPk);
    EpochMonotoneWhileSeated(c, t, trace, cert.rootPk);
    SeatOfCorrect(Run(c, t, trace), cert.rootPk);
    hide WellFormed, Run, Step, StaysSeated;
  }

  /** In general a rotation applies exactly when its root is seated at a lower epoch, it is
      inside its window, and it is signed under the domain the height demands. */
  lemma RotationAcceptedIff(c: ChainRules, s: Seats, cert: RotationCert, rules: RotationRules)
    ensures ApplyRotation(c.verify, s, cert, rules).Ok? <==>
              (&& SeatOf(s, cert.rootPk).Some?
               && cert.epoch > SeatOf(s, cert.rootPk).value.epoch
               && CheckWindow(cert, rules).Pass?
               && VerifySig(c.verify, cert, DomainAt(rules), if DomainAt(rules).V1? then [] else rules.chainId))
  {
    hide VerifySig, CheckWindow;
    SeatOfCorrect(s, cert.rootPk);
  }

  /** Why the seat must stay: a root that is admitted anew starts again at epoch zero. */
  lemma AdmissionStartsAtEpochZero(c: ChainRules, s: Seats, cert: SetChangeCert, height: u64)
    requires WellFormed(s) && cert.body.change.Admit?
    requires Applied(c, s, Change(cert), height).Some?
    ensures SeatOf(Step(c, s, Change(cert), height), cert.body.change.rootPk)
            == Some(NewValidator(c.addressOf, cert.body.change.rootPk, cert.body.change.publicKey, cert.body.change.votingPower))
  {
    var change := cert.body.change;
    var newcomer := NewValidator(c.addressOf, change.rootPk, change.publicKey, change.votingPower);
    AcceptedChangeInRange(c, s, cert, height);
    hide VerifyCert, WellFormed;
    AdmitWellFormed(s, newcomer);
    DistinctOf(NewSet(s + [newcomer]));
    SeatOfCorrect(NewSet(s + [newcomer]), change.rootPk);
  }

  // ---------------------------------------------------------------------------
  // When an applied rotation applies again
  // ---------------------------------------------------------------------------

  /** Some step of the run admits the root. */
  predicate Readmits(c: ChainRules, s: Seats, trace: Trace, root: Bytes)
    decreases |trace|
  {
    && trace != []
    && (AdmitsRoot(c, s, trace[0].1, trace[0].0, root) || Readmits(c, Step(c, s, trace[0].1, trace[0].0), trace[1..], root))
  }

  predicate AdmitsRoot(c: ChainRules, s: Seats, op: Op, height: u64, root: Bytes) {
    op.Change? && op.cert.body.change.Admit? && op.cert.body.change.rootPk == root && Applied(c, s, op, height).Some?
  }

  /** No root gets a seat but by an admission. */
  lemma OnlyAdmissionSeats(c: ChainRules, s: Seats, op: Op, height: u64, root: Bytes)
    requires WellFormed(s) && InBound(op) && SeatOf(s, root).None?
    requires SeatOf(Step(c, s, op, height), root).Some?
    ensures AdmitsRoot(c, s, op, height, root)
  {
    hide WellFormed, ApplySetChange, ApplyRotation;
    var r := Step(c, s, op, height);
    SeatOfCorrect(s, root);
    SeatOfCorrect(r, root);
    var v :| v in r && v.rootPk == root;
    match op
    case Change(cert) => ChangeSeatsOnlyNewcomer(c, s, cert, height, v);
    case Rotate(cert) =>
      RotationSeatsNobody(c.verify, s, cert, RotationRules(height, c.chainId, c.v2From), v);
      assert false;
    case Reweight(roots, power) =>
      if r != s {
        ReweighSeatsNobody(s, roots, power, v);
      }
      assert false;
  }

  lemma ChangeSeatsOnlyNewcomer(c: ChainRules, s: Seats, cert: SetChangeCert, height: u64, v: Validator)
    requires WellFormed(s) && Applied(c, s, Change(cert), height).Some? && v in Step(c, s, Change(cert), height)
    requires SeatOf(s, v.rootPk).None?
    ensures AdmitsRoot(c, s, Change(cert), height, v.rootPk)
  {
    AcceptedChangeInRange(c, s, cert, height);
    SeatOfCorrect(s, v.rootPk);
    hide VerifyCert, InWindow, WellFormed, SeatOf, AddressSeated, NewSet;
    match cert.body.change
    case Admit(root, key, power) => AdmitWellFormed(s, NewValidator(c.addressOf, root, key, power));
    case Remove(root) => RemoveWellFormed(s, root);
    case SetPower(root, power) =>
      ReweighSeatsNobody(s, {root}, power, v);
      assert false;
  }

  lemma RotationSeatsNobody(verify: RootVerify, s: Seats, cert: RotationCert, rules: RotationRules, v: Validator)
    requires WellFormed(s)
    requires v in match ApplyRotation(verify, s, cert, rules) case Ok(r) => r case Err(_) => s
    ensures exists w :: w in s && w.rootPk == v.rootPk
  {
    if ApplyRotation(verify, s, cert, rules).Ok? {
      RotationKeepsTheSet(verify, s, cert, rules);
      hide WellFormed, ApplyRotation;
      var i :| 0 <= i < |s| && ApplyRotation(verify, s, cert, rules).value[i] == v;
      assert s[i] in s;
    }
  }

  lemma ReweighSeatsNobody(s: Seats, roots: set<Bytes>, power: u64, v: Validator)
    requires WellFormed(s) && 1 <= power <= MAX_VOTING_POWER
    requires v in NewSet(Reweighed(s, roots, power))
    ensures exists w :: w in s && w.rootPk == v.rootPk
  {
    ReweighWellFormed(s, roots, power);
    hide WellFormed;
    var i :| 0 <= i < |s| && Reweighed(s, roots, power)[i] == v;
    assert s[i] in s;
  }

  lemma {:induction false} SeatedAgainWasReadmitted(c: ChainRules, s: Seats, trace: Trace, root: Bytes)
    requires WellFormed(s) && AllInBound(trace)
    requires SeatOf(Run(c, s, trace), root).Some?
    ensures StaysSeated(c, s, trace, root) || Readmits(c, s, trace, root)
    decreases |trace|
  {
    hide WellFormed, Step, InBound, AdmitsRoot;
    if trace != [] {
      var mid := Step(c, s, trace[0].1, trace[0].0);
      StepWellFormed(c, s, trace[0].1, trace[0].0);
      SeatedAgainWasReadmitted(c, mid, trace[1..], root);
      if SeatOf(s, root).None? && SeatOf(mid, root).Some? {
        OnlyAdmissionSeats(c, s, trace[0].1, trace[0].0, root);
      }
    }
  }

  /** After any continuation an applied rotation applies again exactly when its root is seated at
      an epoch below the certificate's, the window is open and the signature is good in the
      height's domain; and then the root was admitted anew on the way. */
  lemma AppliedRotationReappliesIff(c: ChainRules, s: Seats, cert: RotationCert, height: u64, trace: Trace, later: RotationRules)
    requires WellFormed(s) && AllInBound(trace)
    requires ApplyRotation(c.verify, s, cert, RotationRules(height, c.chainId, c.v2From)).Ok?
    ensures var t := Step(c, s, Rotate(cert), height);
            var seat := SeatOf(Run(c, t, trace), cert.rootPk);
            && (ApplyRotation(c.verify, Run(c, t, trace), cert, later).Ok? <==>
                  (&& seat.Some? && seat.value.epoch < cert.epoch
                   && CheckWindow(cert, later).Pass?
                   && VerifySig(c.verify, cert, DomainAt(later), if DomainAt(later).V1? then [] else later.chainId)))
            && (seat.Some? && seat.value.epoch < cert.epoch ==> Readmits(c, t, trace, cert.rootPk))
  {
    hide VerifySig, CheckWindow, WellFormed, Run, StaysSeated, Readmits;
    var t := Step(c, s, Rotate(cert), height);
    RotationAcceptedIff(c, Run(c, t, trace), cert, later);
    var seat := SeatOf(Run(c, t, trace), cert.rootPk);
    if seat.Some? && seat.value.epoch < cert.epoch {
      StepWellFormed(c, s, Rotate(cert), height);
      EpochOnlyGrows(c.verify, s, cert, RotationRules(height, c.chainId, c.v2From), cert.rootPk);
      SeatedAgainWasReadmitted(c, t, trace, cert.rootPk);
      if StaysSeated(c, t, trace, cert.rootPk) {
        EpochMonotoneWhileSeated(c, t, trace, cert.rootPk);
        assert false;
      }
    }
  }

  /** Two seats, the first with more than two thirds of the power. */
  predicate Pair(a: Validator, b: Validator) {
    && WellFormed([a, b]) && a.votingPower > 2 * b.votingPower
    && |a.rootPk| == |b.rootPk| == ROOT_PK_LEN && b.epoch == 0 && b.publicKey != []
  }

  /** What the first one alone signs. */
  function ByFirst(a: Validator, sig: Bytes, chainId: Sized, change: SetChange): SetChangeCert {
    SetChangeCert(SetChangeBody(chainId, change, 0, U64_MAX), [Approval(a.rootPk, sig)])
  }

  lemma FirstSuffices(c: ChainRules, s: Seats, a: Validator, sig: Bytes, change: SetChange)
    requires WellFormed(s) && |s| <= MAX_SEATS && SeatOf(s, a.rootPk) == Some(a)
    requires 3 * a.votingPower > 2 * TruePower(s)
    requires c.chainId != [] && CheckShape(SetChangeBody(c.chainId, change, 0, U64_MAX)).Pass?
    requires ApprovalVerifies(c.verify, Approval(a.rootPk, sig), SetChangeBody(c.chainId, change, 0, U64_MAX))
    ensures VerifyCert(c.verify, ByFirst(a, sig, c.chainId, change), s, c.chainId).Pass?
  {
    var cert := ByFirst(a, sig, c.chainId, change);
    OneApprover(s, a, cert.approvals);
    assert Genuine(c.verify, s, cert.body, cert.approvals[0]);
    hide *;
    CertificateAcceptedIff(c.verify, cert, s, c.chainId);
  }

  lemma OneApprover(s: Seats, a: Validator, approvals: seq<Approval>)
    requires WellFormed(s) && SeatOf(s, a.rootPk) == Some(a) && |approvals| == 1 && approvals[0].rootPk == a.rootPk
    ensures DistinctApprovers(approvals) && PowerOf(s, Approvers(approvals)) == a.votingPower
  {
    DistinctOf(s);
    hide WellFormed, DistinctSeats, SeatOf, PowerOf;
    AddApprover(s, {}, a.rootPk);
    NoPower(s);
    assert Approvers(approvals[1..]) == {};
    assert Approvers(approvals) == {} + {a.rootPk};
  }

  lemma PowersOfPair(a: Validator, b: Validator)
    ensures TruePower([a]) == a.votingPower && TruePower([a, b]) == a.votingPower + b.votingPower
    ensures SeatOf([a], a.rootPk) == SeatOf([a, b], a.rootPk) == Some(a)
    ensures a.rootPk != b.rootPk ==> SeatOf([a, b], b.rootPk) == Some(b) && SeatOf([a], b.rootPk) == None
  {
    assert [a, b][1..] == [b] && [a][1..] == [] && [b][1..] == [];
    assert TruePower([b]) == b.votingPower + TruePower([]);
    assert TruePower([a]) == a.votingPower + TruePower([]);
    assert SeatOf([b], b.rootPk) == Some(b);
    assert SeatOf([a], b.rootPk) == if a.rootPk == b.rootPk then Some(a) else SeatOf([], b.rootPk);
  }

  lemma RotatesPair(c: ChainRules, a: Validator, b: Validator, key: Sized, sig: Bytes, height: u64)
    requires Pair(a, b) && height < ROTATION_FRESHNESS_HORIZON && c.v2From == 0
    requires VerifySig(c.verify, RotationCert(b.rootPk, key, 1, 0, sig), V2, c.chainId)
    ensures Step(c, [a, b], Rotate(RotationCert(b.rootPk, key, 1, 0, sig)), height) == [a, b.(publicKey := key, epoch := 1)]
    ensures ApplyRotation(c.verify, [a, b], RotationCert(b.rootPk, key, 1, 0, sig),
                          RotationRules(height, c.chainId, c.v2From)).Ok?
  {
    hide VerifySig;
    var cert := RotationCert(b.rootPk, key, 1, 0, sig);
    var rules := RotationRules(height, c.chainId, c.v2From);
    PowersOfPair(a, b);
    DistinctPair(a, b);
    RotationAcceptedIff(c, [a, b], cert, rules);
    RotationKeepsTheSet(c.verify, [a, b], cert, rules);
  }

  lemma RemovesSecond(c: ChainRules, a: Validator, b: Validator, sig: Bytes, height: u64)
    requires WellFormed([a, b]) && a.votingPower > 2 * b.votingPower && |b.rootPk| == ROOT_PK_LEN && c.chainId != []
    requires ApprovalVerifies(c.verify, Approval(a.rootPk, sig), SetChangeBody(c.chainId, Remove(b.rootPk), 0, U64_MAX))
    ensures Step(c, [a, b], Change(ByFirst(a, sig, c.chainId, Remove(b.rootPk))), height) == [a]
  {
    PowersOfPair(a, b);
    DistinctPair(a, b);
    OnlyFirstLeft(a, b);
    FirstSuffices(c, [a, b], a, sig, Remove(b.rootPk));
    hide VerifyCert, WellFormed, SeatOf, TruePower, WithoutRoot, NewSet, ApprovalVerifies;
  }

  lemma DistinctPair(a: Validator, b: Validator)
    requires WellFormed([a, b])
    ensures a.rootPk != b.rootPk && a.address != b.address
  {
    assert [a, b][0].rootPk != [a, b][1].rootPk && [a, b][0].address != [a, b][1].address;
  }

  lemma OnlyFirstLeft(a: Validator, b: Validator)
    requires a.rootPk != b.rootPk
    ensures WithoutRoot([a, b], b.rootPk) == [a] && NewSet([a]) == [a]
  {
    assert [a, b][1..] == [b] && [b][1..] == [] && [a][1..] == [];
    assert WithoutRoot([b], b.rootPk) == WithoutRoot([], b.rootPk) == [];
    assert NewSet([a]) == Place(a, NewSet([])) == [a];
  }

  lemma AdmitsSecond(c: ChainRules, a: Validator, b: Validator, sig: Bytes, height: u64)
    requires Pair(a, b) && c.chainId != [] && c.addressOf(b.publicKey) == b.address
    requires ApprovalVerifies(c.verify, Approval(a.rootPk, sig),
                              SetChangeBody(c.chainId, Admit(b.rootPk, b.publicKey, b.votingPower), 0, U64_MAX))
    ensures var admit := Change(ByFirst(a, sig, c.chainId, Admit(b.rootPk, b.publicKey, b.votingPower)));
            SeatOf(Step(c, [a], admit, height), b.rootPk) == Some(b)
  {
    var change := Admit(b.rootPk, b.publicKey, b.votingPower);
    var cert := ByFirst(a, sig, c.chainId, change);
    PowersOfPair(a, b);
    DistinctPair(a, b);
    PairInRange(a, b);
    FirstSuffices(c, [a], a, sig, change);
    AdmitAllowed(c, [a], cert, height);
    hide *;
    AdmissionStartsAtEpochZero(c, [a], cert, height);
  }

  lemma PairInRange(a: Validator, b: Validator)
    requires WellFormed([a, b])
    ensures WellFormed([a]) && 1 <= b.votingPower <= MAX_VOTING_POWER
  {
    assert [a, b][0] == a && [a, b][1] == b;
  }

  lemma AdmitAllowed(c: ChainRules, s: Seats, cert: SetChangeCert, height: u64)
    requires VerifyCert(c.verify, cert, s, c.chainId).Pass? && InWindow(cert, height) && cert.body.change.Admit?
    requires SeatOf(s, cert.body.change.rootPk).None? && !AddressSeated(s, c.addressOf(cert.body.change.publicKey))
    ensures Applied(c, s, Change(cert), height).Some?
  {
    hide VerifyCert, SeatOf, AddressSeated, NewSet;
  }

  /** It does happen: a seat rotates its key, is removed and admitted anew, and the same rotation
      certificate applies a second time. */
  lemma RotationAppliesAgain(c: ChainRules, a: Validator, b: Validator, key: Sized, sig: Bytes)
    requires Pair(a, b) && c.addressOf(b.publicKey) == b.address && c.chainId != [] && c.v2From == 0
    requires |sig| == ROOT_SIG_LEN && forall k, m :: c.verify(k, m, sig)
    ensures
      var cert := RotationCert(b.rootPk, key, 1, 0, sig);
      var trace := [(1, Rotate(cert)),
                    (2, Change(ByFirst(a, sig, c.chainId, Remove(b.rootPk)))),
                    (3, Change(ByFirst(a, sig, c.chainId, Admit(b.rootPk, b.publicKey, b.votingPower))))];
      && ApplyRotation(c.verify, [a, b], cert, RotationRules(1, c.chainId, 0)).Ok?
      && ApplyRotation(c.verify, Run(c, [a, b], trace), cert, RotationRules(4, c.chainId, 0)).Ok?
  {
    var cert := RotationCert(b.rootPk, key, 1, 0, sig);
    var b1 := b.(publicKey := key, epoch := 1);
    var remove := Change(ByFirst(a, sig, c.chainId, Remove(b.rootPk)));
    var admit := Change(ByFirst(a, sig, c.chainId, Admit(b.rootPk, b.publicKey, b.votingPower)));
    var trace := [(1, Rotate(cert)), (2, remove), (3, admit)];
    RotatesPair(c, a, b, key, sig, 1);
    StepWellFormed(c, [a, b], Rotate(cert), 1);
    RemovesSecond(c, a, b1, sig, 2);
    AdmitsSecond(c, a, b, sig, 3);
    var end := Step(c, [a], admit, 3);
    ThreeSteps(c, [a, b], trace, [a, b1], [a], end);
    RotationAcceptedIff(c, end, cert, RotationRules(4, c.chainId, 0));
  }

  lemma ThreeSteps(c: ChainRules, s: Seats, trace: Trace, s1: Seats, s2: Seats, s3: Seats)
    requires |trace| == 3 && s1 == Step(c, s, trace[0].1, trace[0].0)
    requires s2 == Step(c, s1, trace[1].1, trace[1].0) && s3 == Step(c, s2, trace[2].1, trace[2].0)
    ensures Run(c, s, trace) == s3
  {
    hide Step;
    assert trace[1..][1..] == trace[2..] && trace[2..][1..] == [];
    assert Run(c, s3, []) == s3;
    assert Run(c, s2, trace[2..]) == s3;
    assert Run(c, s1, trace[1..]) == s3;
  }

  // ---------------------------------------------------------------------------
  // Replaying a certificate
  // ---------------------------------------------------------------------------

  /** What a certificate can change about its subject: whether it is seated, and its power. */
  function Standing(s: Seats, root: Bytes): Option<u64> {
    match SeatOf(s, root)
    case None => None
    case Some(v) => Some(v.votingPower)
  }

  lemma ChangeSettlesSubject(c: ChainRules, s: Seats, cert: SetChangeCert, height: u64)
    requires WellFormed(s) && Applied(c, s, Change(cert), height).Some?
    ensures var t := Step(c, s, Change(cert), height);
            match cert.body.change
            case Admit(root, _, power) => Standing(t, root) == Some(power)
            case Remove(root) => Standing(t, root) == None
            case SetPower(root, power) => Standing(t, root) == Some(power)
  {
    AcceptedChangeInRange(c, s, cert, height);
    var t := Step(c, s, Change(cert), height);
    match cert.body.change
    case Admit(root, key, power) =>
      AdmissionStartsAtEpochZero(c, s, cert, height);
    case Remove(root) =>
      hide VerifyCert, WellFormed;
      RemovedSeatGone(s, root);
    case SetPower(root, power) =>
      hide VerifyCert, WellFormed;
      ReweighKeepsSeat(s, {root}, power, root);
  }

  /** No step of the run alters the standing of `root`. */
  predicate Undisturbed(c: ChainRules, s: Seats, trace: Trace, root: Bytes)
    decreases |trace|
  {
    trace == []
    || (var t := Step(c, s, trace[0].1, trace[0].0);
        Standing(t, root) == Standing(s, root) && Undisturbed(c, t, trace[1..], root))
  }

  lemma {:induction false} UndisturbedStanding(c: ChainRules, s: Seats, trace: Trace, root: Bytes)
    requires Undisturbed(c, s, trace, root)
    ensures Standing(Run(c, s, trace), root) == Standing(s, root)
    decreases |trace|
  {
    hide Step, Standing;
    if trace != [] {
      UndisturbedStanding(c, Step(c, s, trace[0].1, trace[0].0), trace[1..], root);
    }
  }

  /** Once a certificate has changed the set, replaying it at any height in any continuation
      never changes the set again, until some other step alters the same root's standing. */
  lemma ReplayNeverChangesAgain(c: ChainRules, s: Seats, cert: SetChangeCert, height: u64, trace: Trace, later: u64)
    requires WellFormed(s) && Applied(c, s, Change(cert), height).Some?
    requires Undisturbed(c, Step(c, s, Change(cert), height), trace, SubjectRoot(cert.body))
    ensures var u := Run(c, Step(c, s, Change(cert), height), trace);
            Applied(c, u, Change(cert), later) == None && Step(c, u, Change(cert), later) == u
  {
    var t := Step(c, s, Change(cert), height);
    ChangeSettlesSubject(c, s, cert, height);
    UndisturbedStanding(c, t, trace, SubjectRoot(cert.body));
    hide VerifyCert, WellFormed, Run;
  }

  // ---------------------------------------------------------------------------
  // Blocks and the per-height history
  // ---------------------------------------------------------------------------

  /** A committed block: its rotations, then its set changes and the binary's re-weight. */
  datatype Block = Block(height: u64, rotations: seq<Op>, changes: seq<Op>)

  datatype Node = Node(seats: Seats, history: History)

  function ApplyAll(c: ChainRules, s: Seats, ops: seq<Op>, height: u64): Seats
    decreases |ops|
  {
    if ops == [] then s else ApplyAll(c, Step(c, s, ops[0], height), ops[1..], height)
  }

  predicate AnyApplied(c: ChainRules, s: Seats, ops: seq<Op>, height: u64)
    decreases |ops|
  {
    ops != [] && (Applied(c, s, ops[0], height).Some? || AnyApplied(c, Step(c, s, ops[0], height), ops[1..], height))
  }

  lemma {:induction false} NothingAppliedNothingChanged(c: ChainRules, s: Seats, ops: seq<Op>, height: u64)
    requires !AnyApplied(c, s, ops, height)
    ensures ApplyAll(c, s, ops, height) == s
    decreases |ops|
  {
    hide Applied;
    if ops != [] {
      NothingAppliedNothingChanged(c, s, ops[1..], height);
    }
  }

  /** Something applies exactly when some operation does, on the set those before it left. */
  lemma {:induction false} AnyAppliedIff(c: ChainRules, s: Seats, ops: seq<Op>, height: u64)
    ensures AnyApplied(c, s, ops, height) <==> exists k :: AppliesAt(c, s, ops, height, k)
    decreases |ops|
  {
    hide Applied;
    if ops != [] {
      var mid := Step(c, s, ops[0], height);
      AnyAppliedIff(c, mid, ops[1..], height);
      forall k: int | 0 <= k < |ops[1..]| ensures AppliesAt(c, s, ops, height, k + 1) <==> AppliesAt(c, mid, ops[1..], height, k) {
        assert ops[..k + 1][0] == ops[0] && ops[..k + 1][1..] == ops[1..][..k];
      }
      assert ops[..0] == [];
      assert AppliesAt(c, s, ops, height, 0) <==> Applied(c, s, ops[0], height).Some?;
      if k :| AppliesAt(c, s, ops, height, k) {
        assert k > 0 ==> AppliesAt(c, mid, ops[1..], height, k - 1);
      }
      if k :| AppliesAt(c, mid, ops[1..], height, k) {
        assert AppliesAt(c, s, ops, height, k + 1);
      }
    }
  }

  predicate AppliesAt(c: ChainRules, s: Seats, ops: seq<Op>, height: u64, k: int) {
    0 <= k < |ops| && Applied(c, ApplyAll(c, s, ops[..k], height), ops[k], height).Some?
  }

  function Phase(c: ChainRules, n: Node, ops: seq<Op>, height: u64): Node
    requires height < U64_MAX
  {
    var s := ApplyAll(c, n.seats, ops, height);
    Node(s, if AnyApplied(c, n.seats, ops, height) then n.history + [(height + 1, s)] else n.history)
  }

  function Commit(c: ChainRules, n: Node, b: Block): Node
    requires b.height < U64_MAX
  {
    Phase(c, Phase(c, n, b.rotations, b.height), b.changes, b.height)
  }

  /** The history is in order, nothing in it takes effect after `next`, and at `next` it
      answers the current set. */
  predicate Current(n: Node, next: nat) {
    && Ascending(n.history)
    && (forall i :: 0 <= i < |n.history| ==> n.history[i].0 <= next)
    && forall height: u64 :: height >= next ==> SetAt(n.history, height) == Some(n.seats)
  }

  lemma PhaseKeepsCurrent(c: ChainRules, n: Node, ops: seq<Op>, height: u64, next: nat)
    requires height < U64_MAX && next <= height + 1 && Current(n, next)
    ensures Current(Phase(c, n, ops, height), height + 1)
    ensures forall earlier: u64 :: earlier <= height ==> SetAt(Phase(c, n, ops, height).history, earlier) == SetAt(n.history, earlier)
  {
    if AnyApplied(c, n.seats, ops, height) {
      var s := ApplyAll(c, n.seats, ops, height);
      forall earlier: u64 | earlier <= height
        ensures SetAt(n.history + [(height + 1, s)], earlier) == SetAt(n.history, earlier)
      {
        LaterEntriesKeepEarlierAnswers(n.history, [(height + 1, s)], earlier);
      }
      hide ApplyAll, AnyApplied;
    } else {
      NothingAppliedNothingChanged(c, n.seats, ops, height);
    }
  }

  /** A phase adds one entry to the history, for the next height and with the set it leaves, if
      some operation of it applied, and none otherwise. */
  lemma PhaseRecordsIff(c: ChainRules, n: Node, ops: seq<Op>, height: u64)
    requires height < U64_MAX
    ensures var after := Phase(c, n, ops, height);
            after.history == if exists k :: AppliesAt(c, n.seats, ops, height, k) then n.history + [(height + 1, after.seats)]
                             else n.history
  {
    hide ApplyAll, AnyApplied, AppliesAt;
    AnyAppliedIff(c, n.seats, ops, height);
  }

  lemma CommitKeepsCurrent(c: ChainRules, n: Node, b: Block, next: nat)
    requires b.height < U64_MAX && next <= b.height + 1 && Current(n, next)
    ensures Current(Commit(c, n, b), b.height + 1)
    ensures forall earlier: u64 :: earlier <= b.height ==> SetAt(Commit(c, n, b).history, earlier) == SetAt(n.history, earlier)
  {
    hide Phase, Current;
    PhaseKeepsCurrent(c, n, b.rotations, b.height, next);
    PhaseKeepsCurrent(c, Phase(c, n, b.rotations, b.height), b.changes, b.height, b.height + 1);
  }

  /** Blocks at rising heights. */
  predicate Rising(blocks: seq<Block>, next: nat) {
    blocks == [] || (next <= blocks[0].height + 1 <= U64_MAX && Rising(blocks[1..], blocks[0].height + 2))
  }

  function CommitAll(c: ChainRules, n: Node, blocks: seq<Block>): Node
    requires forall i :: 0 <= i < |blocks| ==> blocks[i].height < U64_MAX
    decreases |blocks|
  {
    if blocks == [] then n else CommitAll(c, Commit(c, n, blocks[0]), blocks[1..])
  }

  function AtHeight(ops: seq<Op>, height: u64): (trace: Trace)
    ensures |trace| == |ops| && forall i :: 0 <= i < |ops| ==> trace[i] == (height, ops[i])
  {
    seq(|ops|, i requires 0 <= i < |ops| => (height, ops[i]))
  }

  /** The operations of a list of blocks one after the other, each with its height. */
  function TraceOf(blocks: seq<Block>): Trace {
    if blocks == [] then []
    else AtHeight(blocks[0].rotations, blocks[0].height) + AtHeight(blocks[0].changes, blocks[0].height) + TraceOf(blocks[1..])
  }

  lemma {:induction false} RunAppend(c: ChainRules, s: Seats, a: Trace, b: Trace)
    ensures Run(c, s, a + b) == Run(c, Run(c, s, a), b)
    decreases |a|
  {
    hide Step;
    if a == [] {
      assert a + b == b;
    } else {
      assert (a + b)[1..] == a[1..] + b;
      RunAppend(c, Step(c, s, a[0].1, a[0].0), a[1..], b);
    }
  }

  lemma {:induction false} ApplyAllIsRun(c: ChainRules, s: Seats, ops: seq<Op>, height: u64)
    ensures ApplyAll(c, s, ops, height) == Run(c, s, AtHeight(ops, height))
    decreases |ops|
  {
    hide Step;
    if ops != [] {
      assert AtHeight(ops, height)[1..] == AtHeight(ops[1..], height);
      ApplyAllIsRun(c, Step(c, s, ops[0], height), ops[1..], height);
    }
  }

  /** The set a node holds after any blocks is the run of exactly their operations, in order, so
      every theorem about runs holds of it. */
  lemma {:induction false} BlocksRunTheirOperations(c: ChainRules, n: Node, blocks: seq<Block>)
    requires forall i :: 0 <= i < |blocks| ==> blocks[i].height < U64_MAX
    ensures CommitAll(c, n, blocks).seats == Run(c, n.seats, TraceOf(blocks))
    decreases |blocks|
  {
    hide ApplyAll, AnyApplied, Step;
    if blocks != [] {
      var b := blocks[0];
      var first, second := AtHeight(b.rotations, b.height), AtHeight(b.changes, b.height);
      ApplyAllIsRun(c, n.seats, b.rotations, b.height);
      ApplyAllIsRun(c, Run(c, n.seats, first), b.changes, b.height);
      RunAppend(c, n.seats, first, second);
      RunAppend(c, n.seats, first + second, TraceOf(blocks[1..]));
      BlocksRunTheirOperations(c, Commit(c, n, b), blocks[1..]);
    }
  }

  lemma {:induction false} RisingFits(blocks: seq<Block>, next: nat)
    requires Rising(blocks, next)
    ensures forall i :: 0 <= i < |blocks| ==> blocks[i].height < U64_MAX && next <= blocks[i].height + 1
    decreases |blocks|
  {
    if blocks != [] {
      RisingFits(blocks[1..], blocks[0].height + 2);
      assert forall i :: 1 <= i < |blocks| ==> blocks[i] == blocks[1..][i - 1];
    }
  }

  /** A node that has committed any run of blocks answers, for every height up to the next
      one, the set that was in force there: the set after exactly the blocks below it. A
      certificate for an old height is verified against the set that signed it. */
  lemma {:induction false} HistoryAnswersTheSetInForce(c: ChainRules, n: Node, blocks: seq<Block>, next: nat, height: u64, k: nat)
    requires Rising(blocks, next) && Current(n, next) && next <= height
    requires forall i :: 0 <= i < |blocks| ==> blocks[i].height < U64_MAX
    requires k <= |blocks|
    requires forall i :: 0 <= i < k ==> blocks[i].height < height
    requires forall i :: k <= i < |blocks| ==> height <= blocks[i].height
    ensures SetAt(CommitAll(c, n, blocks).history, height) == Some(CommitAll(c, n, blocks[..k]).seats)
    decreases |blocks|
  {
    if k == 0 {
      assert blocks[..0] == [];
      RisingFits(blocks, next);
      UnchangedBelow(c, n, blocks, next, height);
    } else {
      var b := blocks[0];
      CommitKeepsCurrent(c, n, b, next);
      assert blocks[..k][1..] == blocks[1..][..k - 1];
      StartLater(blocks[1..], b.height + 2, b.height + 1);
      HistoryAnswersTheSetInForce(c, Commit(c, n, b), blocks[1..], b.height + 1, height, k - 1);
    }
  }

  lemma StartLater(blocks: seq<Block>, next: nat, sooner: nat)
    requires Rising(blocks, next) && sooner <= next
    ensures Rising(blocks, sooner)
  {
  }

  lemma {:induction false} UnchangedBelow(c: ChainRules, n: Node, blocks: seq<Block>, next: nat, height: u64)
    requires Rising(blocks, next) && Current(n, next)
    requires forall i :: 0 <= i < |blocks| ==> blocks[i].height < U64_MAX
    requires forall i :: 0 <= i < |blocks| ==> height <= blocks[i].height
    ensures SetAt(CommitAll(c, n, blocks).history, height) == SetAt(n.history, height)
    decreases |blocks|
  {
    if blocks != [] {
      var b := blocks[0];
      CommitKeepsCurrent(c, n, b, next);
      StartLater(blocks[1..], b.height + 2, b.height + 1);
      UnchangedBelow(c, Commit(c, n, b), blocks[1..], b.height + 1, height);
    }
  }
}
