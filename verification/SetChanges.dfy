/** Supermajority certificates that admit, remove or re-weigh a seat. */
module SetChanges {
  import opened Machine
  import opened SignBytes
  import opened Validators
  import opened Rotation

  datatype Approval = Approval(rootPk: Bytes, rootSig: Bytes)

  datatype SetChangeCert = SetChangeCert(body: SetChangeBody, approvals: seq<Approval>)

  datatype ChangeError =
    | EmptyChainId | WindowInverted | RootPkLength | EmptyOperationalKey | PowerZero | PowerTooLarge
    | WrongChain | NoApprovals | DuplicateApproval | ApprovalNotSeated | InvalidApproval | NotSupermajority
    | OutsideWindow | AddressCollision | LastSeat | NotSeated

  function SubjectRoot(b: SetChangeBody): Bytes {
    b.change.rootPk
  }

  function CheckPower(power: u64): Outcome<ChangeError> {
    if power == 0 then Fail(PowerZero) else if power > MAX_VOTING_POWER then Fail(PowerTooLarge) else Pass
  }

  function CheckShape(b: SetChangeBody): Outcome<ChangeError> {
    if b.chainId == [] then Fail(EmptyChainId)
    else if b.notAfter < b.notBefore then Fail(WindowInverted)
    else if |b.change.rootPk| != ROOT_PK_LEN then Fail(RootPkLength)
    else
      match b.change
      case Admit(_, key, power) => if key == [] then Fail(EmptyOperationalKey) else CheckPower(power)
      case Remove(_) => Pass
      case SetPower(_, power) => CheckPower(power)
  }

  predicate ApprovalVerifies(verify: RootVerify, a: Approval, body: SetChangeBody) {
    && |a.rootPk| == ROOT_PK_LEN
    && |a.rootSig| == ROOT_SIG_LEN
    && verify(a.rootPk, ToSign(SetChangeMessage(body)), a.rootSig)
  }

  /** A root's approval of one change is good for exactly that change, in every field, under its
      own key and with its own signature, and only at the lengths a root key and signature have. */
  lemma ApprovalCoversEveryField(root: Bytes, body: SetChangeBody, sig: Bytes, a: Approval, other: SetChangeBody)
    ensures ApprovalVerifies(OnlyFor(root, SetChangeMessage(body), sig), a, other) <==>
              |root| == 48 && |sig| == 16224 && a == Approval(root, sig) && other == body
  {
    SignBytesDecideTheMessage(SetChangeMessage(other), SetChangeMessage(body));
    hide ToSign;
  }

  // ---------------------------------------------------------------------------
  // Counting approvals
  // ---------------------------------------------------------------------------

  /** The power of the remaining approvals on top of `approving`, or the first defect. */
  function Tally(verify: RootVerify, s: Seats, body: SetChangeBody, approvals: seq<Approval>, seen: seq<Bytes>, approving: u64)
    : Result<u64, ChangeError>
    decreases |approvals|
  {
    if approvals == [] then Ok(approving)
    else
      var a := approvals[0];
      if a.rootPk in seen then Err(DuplicateApproval)
      else if SeatOf(s, a.rootPk).None? then Err(ApprovalNotSeated)
      else if !ApprovalVerifies(verify, a, body) then Err(InvalidApproval)
      else Tally(verify, s, body, approvals[1..], seen + [a.rootPk],
                 SatAdd(approving, SeatOf(s, a.rootPk).value.votingPower, U64_MAX))
  }

  /** Strictly more than two thirds, in saturating arithmetic. */
  predicate QuorumTest(approving: u64, total: u64) {
    SatMul(approving, 3, U64_MAX) > SatMul(total, 2, U64_MAX)
  }

  function VerifyCert(verify: RootVerify, cert: SetChangeCert, s: Seats, chainId: Bytes): Outcome<ChangeError> {
    if CheckShape(cert.body).Fail? then CheckShape(cert.body)
    else if cert.body.chainId != chainId then Fail(WrongChain)
    else if cert.approvals == [] then Fail(NoApprovals)
    else
      match Tally(verify, s, cert.body, cert.approvals, [], 0)
      case Err(e) => Fail(e)
      case Ok(approving) => if QuorumTest(approving, TotalPower(s)) then Pass else Fail(NotSupermajority)
  }

  method VerifyCertAgainst(verify: RootVerify, cert: SetChangeCert, s: Seats, chainId: Bytes) returns (r: Outcome<ChangeError>)
    ensures r == VerifyCert(verify, cert, s, chainId)
  {
    r := CheckShape(cert.body);
    if r.Fail? {
      return;
    }
    if cert.body.chainId != chainId {
      return Fail(WrongChain);
    }
    if cert.approvals == [] {
      return Fail(NoApprovals);
    }
    var total := TotalVotingPower(s);
    SatFoldIsCappedSum(s, 0);
    var approving: u64 := 0;
    var seen: seq<Bytes> := [];
    for i := 0 to |cert.approvals|
      invariant Tally(verify, s, cert.body, cert.approvals[i..], seen, approving)
                == Tally(verify, s, cert.body, cert.approvals, [], 0)
    {
      var a := cert.approvals[i];
      assert cert.approvals[i..][0] == a && cert.approvals[i..][1..] == cert.approvals[i + 1..];
      if a.rootPk in seen {
        return Fail(DuplicateApproval);
      }
      var seat := SeatOf(s, a.rootPk);
      if seat.None? {
        return Fail(ApprovalNotSeated);
      }
      if !ApprovalVerifies(verify, a, cert.body) {
        return Fail(InvalidApproval);
      }
      seen := seen + [a.rootPk];
      approving := SatAdd(approving, seat.value.votingPower, U64_MAX);
    }
    if !QuorumTest(approving, total) {
      return Fail(NotSupermajority);
    }
    return Pass;
  }

  function Approvers(approvals: seq<Approval>): set<Bytes> {
    if approvals == [] then {} else {approvals[0].rootPk} + Approvers(approvals[1..])
  }

  lemma {:induction false} ApproversMember(approvals: seq<Approval>, root: Bytes)
    ensures root in Approvers(approvals) <==> exists i :: 0 <= i < |approvals| && approvals[i].rootPk == root
    decreases |approvals|
  {
    if approvals != [] {
      ApproversMember(approvals[1..], root);
      if root in Approvers(approvals[1..]) {
        var i :| 0 <= i < |approvals[1..]| && approvals[1..][i].rootPk == root;
        assert approvals[i + 1].rootPk == root;
      }
      if exists i :: 0 <= i < |approvals| && approvals[i].rootPk == root {
        var i :| 0 <= i < |approvals| && approvals[i].rootPk == root;
        if i > 0 {
          assert approvals[1..][i - 1].rootPk == root;
        }
      }
    }
  }

  /** One approval a seated root signed. */
  predicate Genuine(verify: RootVerify, s: Seats, body: SetChangeBody, a: Approval) {
    SeatOf(s, a.rootPk).Some? && ApprovalVerifies(verify, a, body)
  }

  predicate DistinctApprovers(approvals: seq<Approval>) {
    forall i, j :: 0 <= i < j < |approvals| ==> approvals[i].rootPk != approvals[j].rootPk
  }

  lemma {:induction false} AddApprover(s: Seats, roots: set<Bytes>, root: Bytes)
    requires DistinctSeats(s) && root !in roots
    ensures PowerOf(s, roots + {root})
            == PowerOf(s, roots) + if SeatOf(s, root).Some? then SeatOf(s, root).value.votingPower else 0
    decreases |s|
  {
    if s != [] {
      AddApprover(s[1..], roots, root);
      if s[0].rootPk == root {
        SeatOfCorrect(s[1..], root);
        forall v | v in s[1..] ensures v.rootPk != root {
          var i :| 0 <= i < |s[1..]| && s[1..][i] == v;
          assert s[i + 1] == v;
        }
      }
    }
  }

  /** The loop accepts exactly the lists of genuine approvals by distinct roots not seen
      before, and then its running sum has grown by the power of that set of roots. */
  lemma {:induction false} TallyIsPowerOfApprovers(
      verify: RootVerify, s: Seats, body: SetChangeBody, approvals: seq<Approval>, seen: seq<Bytes>, approving: u64)
    requires DistinctSeats(s)
    ensures Tally(verify, s, body, approvals, seen, approving).Ok? <==>
              (&& DistinctApprovers(approvals)
               && (forall i :: 0 <= i < |approvals| ==>
                     Genuine(verify, s, body, approvals[i]) && approvals[i].rootPk !in seen))
    ensures Tally(verify, s, body, approvals, seen, approving).Ok? ==>
              Tally(verify, s, body, approvals, seen, approving).value
              == Min(approving + PowerOf(s, Approvers(approvals)), U64_MAX)
    decreases |approvals|
  {
    if approvals == [] {
      NoPower(s);
    } else {
      var a, rest := approvals[0], approvals[1..];
      if a.rootPk !in seen && Genuine(verify, s, body, a) {
        var next := SatAdd(approving, SeatOf(s, a.rootPk).value.votingPower, U64_MAX);
        TallyIsPowerOfApprovers(verify, s, body, rest, seen + [a.rootPk], next);
        TallyStep(verify, s, body, approvals, seen);
        if Tally(verify, s, body, approvals, seen, approving).Ok? {
          ApproversMember(rest, a.rootPk);
          AddApprover(s, Approvers(rest), a.rootPk);
          assert Approvers(approvals) == Approvers(rest) + {a.rootPk};
        }
      } else {
        assert !(Genuine(verify, s, body, approvals[0]) && approvals[0].rootPk !in seen);
      }
    }
  }

  lemma TallyStep(verify: RootVerify, s: Seats, body: SetChangeBody, approvals: seq<Approval>, seen: seq<Bytes>)
    requires approvals != [] && approvals[0].rootPk !in seen && Genuine(verify, s, body, approvals[0])
    ensures (&& DistinctApprovers(approvals)
             && (forall i :: 0 <= i < |approvals| ==> Genuine(verify, s, body, approvals[i]) && approvals[i].rootPk !in seen))
            <==>
            (&& DistinctApprovers(approvals[1..])
             && (forall i :: 0 <= i < |approvals[1..]| ==>
                   Genuine(verify, s, body, approvals[1..][i]) && approvals[1..][i].rootPk !in seen + [approvals[0].rootPk]))
  {
    hide Genuine;
    var rest := approvals[1..];
    assert forall i :: 0 <= i < |rest| ==> rest[i] == approvals[i + 1];
    assert forall i :: 1 <= i < |approvals| ==> approvals[i] == rest[i - 1];
  }

  lemma {:induction false} NoPower(s: Seats)
    ensures PowerOf(s, {}) == 0
    decreases |s|
  {
    if s != [] {
      NoPower(s[1..]);
    }
  }

  /** Acceptance in its own terms: for a well-formed set of up to 2^16 seats a certificate
      verifies exactly when its shape and chain are right and distinct seated roots holding
      strictly more than two thirds of the power genuinely approved it. */
  lemma CertificateAcceptedIff(verify: RootVerify, cert: SetChangeCert, s: Seats, chainId: Bytes)
    requires WellFormed(s) && |s| <= MAX_SEATS
    ensures VerifyCert(verify, cert, s, chainId).Pass? <==>
              (&& CheckShape(cert.body).Pass?
               && cert.body.chainId == chainId
               && DistinctApprovers(cert.approvals)
               && (forall i :: 0 <= i < |cert.approvals| ==> Genuine(verify, s, cert.body, cert.approvals[i]))
               && 3 * PowerOf(s, Approvers(cert.approvals)) > 2 * TruePower(s))
  {
    hide CheckShape, Tally, QuorumTest, PowerOf, TruePower, Genuine, DistinctApprovers, TotalPower, WellFormed, Approvers;
    BoundedSetsDoNotSaturate(s);
    TallyForWellFormed(verify, s, cert.body, cert.approvals);
    QuorumTestIff(PowerOf(s, Approvers(cert.approvals)), TruePower(s));
    NoApproversNoQuorum(s, cert.approvals);
  }

  lemma TallyForWellFormed(verify: RootVerify, s: Seats, body: SetChangeBody, approvals: seq<Approval>)
    requires WellFormed(s) && |s| <= MAX_SEATS
    ensures Tally(verify, s, body, approvals, [], 0).Ok? <==>
              DistinctApprovers(approvals) && forall i :: 0 <= i < |approvals| ==> Genuine(verify, s, body, approvals[i])
    ensures PowerOf(s, Approvers(approvals)) <= TruePower(s) <= 0x1_0000_0000_0000
    ensures Tally(verify, s, body, approvals, [], 0).Ok? ==>
              Tally(verify, s, body, approvals, [], 0).value == PowerOf(s, Approvers(approvals))
  {
    hide Genuine, PowerOf, TruePower;
    BoundedSetsDoNotSaturate(s);
    TallyIsPowerOfApprovers(verify, s, body, approvals, [], 0);
    PowerWithinTotal(s, Approvers(approvals));
  }

  lemma NoApproversNoQuorum(s: Seats, approvals: seq<Approval>)
    ensures approvals == [] ==> PowerOf(s, Approvers(approvals)) == 0
  {
    NoPower(s);
  }

  /** Quorum intersection: any two certificates accepted against one set share approvers who
      hold more than one third of its power. */
  lemma QuorumsIntersect(verify: RootVerify, a: SetChangeCert, b: SetChangeCert, s: Seats, chainId: Bytes)
    requires WellFormed(s) && |s| <= MAX_SEATS
    requires VerifyCert(verify, a, s, chainId).Pass? && VerifyCert(verify, b, s, chainId).Pass?
    ensures 3 * PowerOf(s, Approvers(a.approvals) * Approvers(b.approvals)) > TruePower(s)
  {
    CertificateAcceptedIff(verify, a, s, chainId);
    CertificateAcceptedIff(verify, b, s, chainId);
    SharedPower(s, Approvers(a.approvals), Approvers(b.approvals));
  }

  /** The saturating comparison is the exact one as long as twice the total fits u64; above
      that nothing passes: it fails closed. */
  lemma QuorumTestIff(approving: u64, total: u64)
    ensures QuorumTest(approving, total) <==> 3 * approving > 2 * total && 2 * total <= U64_MAX
  {
  }

  function QuorumPower(total: u64): nat {
    SatAdd(SatMul(total, 2, U64_MAX) / 3, 1, U64_MAX)
  }

  predicate LeastQuorum(q: nat, total: nat) {
    3 * q > 2 * total && (q > 0 ==> 3 * (q - 1) <= 2 * total)
  }

  /** `quorum_power` is the least power strictly above two thirds exactly for totals up to
      2^63; beyond, the saturated product is too small. */
  lemma QuorumPowerIsLeastIff(total: u64)
    ensures LeastQuorum(QuorumPower(total), total) <==> total <= 0x8000_0000_0000_0000
  {
  }

  // ---------------------------------------------------------------------------
  // Applying
  // ---------------------------------------------------------------------------

  predicate InWindow(cert: SetChangeCert, height: u64) {
    cert.body.notBefore <= height <= cert.body.notAfter
  }

  function WithoutRoot(s: Seats, root: Bytes): (r: Seats)
    ensures forall v :: v in r <==> v in s && v.rootPk != root
  {
    if s == [] then [] else (if s[0].rootPk != root then [s[0]] else []) + WithoutRoot(s[1..], root)
  }

  /** The same seats with every seat whose root is in `roots` at `power`. */
  function Reweighed(s: Seats, roots: set<Bytes>, power: u64): (r: Seats)
    ensures |r| == |s|
    ensures forall i :: 0 <= i < |s| ==> r[i] == if s[i].rootPk in roots then s[i].(votingPower := power) else s[i]
  {
    if s == [] then []
    else [if s[0].rootPk in roots then s[0].(votingPower := power) else s[0]] + Reweighed(s[1..], roots, power)
  }

  predicate AddressSeated(s: Seats, address: Address) {
    exists v :: v in s && v.address == address
  }

  /** `Ok(Some(set))`: changed; `Ok(None)`: valid but nothing to do; `Err`: refused here. */
  function ApplySetChange(verify: RootVerify, addressOf: AddressOf, s: Seats, cert: SetChangeCert, height: u64, chainId: Bytes)
    : Result<Option<Seats>, ChangeError>
  {
    if VerifyCert(verify, cert, s, chainId).Fail? then Err(VerifyCert(verify, cert, s, chainId).error)
    else if !InWindow(cert, height) then Err(OutsideWindow)
    else
      match cert.body.change
      case Admit(root, key, power) =>
        var newcomer := NewValidator(addressOf, root, key, power);
        if SeatOf(s, root).Some? then Ok(None)
        else if AddressSeated(s, newcomer.address) then Err(AddressCollision)
        else Ok(Some(NewSet(s + [newcomer])))
      case Remove(root) =>
        if SeatOf(s, root).None? then Ok(None)
        else if WithoutRoot(s, root) == [] then Err(LastSeat)
        else Ok(Some(NewSet(WithoutRoot(s, root))))
      case SetPower(root, power) =>
        if SeatOf(s, root).None? then Err(NotSeated)
        else if SeatOf(s, root).value.votingPower == power then Ok(None)
        else Ok(Some(NewSet(Reweighed(s, {root}, power))))
  }

  /** The binary's own re-weight of the founding roots; `None` when nothing changes. */
  function ReweightRoots(s: Seats, roots: set<Bytes>, power: u64): Option<Seats> {
    if exists v :: v in s && v.rootPk in roots && v.votingPower != power then Some(NewSet(Reweighed(s, roots, power)))
    else None
  }

  method ReweightRootsInPlace(s: Seats, roots: set<Bytes>, power: u64) returns (r: Option<Seats>)
    ensures r == ReweightRoots(s, roots, power)
  {
    var changed := false;
    var vals: Seats := [];
    for i := 0 to |s|
      invariant |vals| == i
      invariant forall k :: 0 <= k < i ==> vals[k] == if s[k].rootPk in roots then s[k].(votingPower := power) else s[k]
      invariant changed <==> exists k :: 0 <= k < i && s[k].rootPk in roots && s[k].votingPower != power
    {
      var v := s[i];
      if v.rootPk in roots && v.votingPower != power {
        v := v.(votingPower := power);
        changed := true;
      }
      vals := vals + [v];
    }
    assert vals == Reweighed(s, roots, power);
    if changed {
      var k :| 0 <= k < |s| && s[k].rootPk in roots && s[k].votingPower != power;
      assert s[k] in s;
      return Some(NewSet(vals));
    }
    return None;
  }

  // ---------------------------------------------------------------------------
  // What a change leaves
  // ---------------------------------------------------------------------------

  lemma {:induction false} WithoutRootDistinct(s: Seats, root: Bytes)
    requires DistinctSeats(s)
    ensures DistinctSeats(WithoutRoot(s, root))
    ensures |WithoutRoot(s, root)| <= |s|
    decreases |s|
  {
    if s != [] {
      WithoutRootDistinct(s[1..], root);
      var rest := WithoutRoot(s[1..], root);
      HeadDiffers(s);
      forall j | 0 <= j < |rest| ensures rest[j].rootPk != s[0].rootPk && rest[j].address != s[0].address {
        assert rest[j] in rest;
      }
    }
  }

  lemma HeadDiffers(s: Seats)
    requires DistinctSeats(s) && s != []
    ensures DistinctSeats(s[1..])
    ensures forall v :: v in s[1..] ==> v.rootPk != s[0].rootPk && v.address != s[0].address
  {
    forall v | v in s[1..] ensures v.rootPk != s[0].rootPk && v.address != s[0].address {
      var k :| 0 <= k < |s[1..]| && s[1..][k] == v;
      assert s[k + 1] == v;
    }
  }

  lemma PowersInRange(s: Seats)
    requires forall i :: 0 <= i < |s| ==> 1 <= s[i].votingPower <= MAX_VOTING_POWER
    ensures forall v :: v in s ==> 1 <= v.votingPower <= MAX_VOTING_POWER
  {
    forall v | v in s ensures 1 <= v.votingPower <= MAX_VOTING_POWER {
      var i :| 0 <= i < |s| && s[i] == v;
    }
  }

  lemma AdmitWellFormed(s: Seats, newcomer: Validator)
    requires WellFormed(s) && 1 <= newcomer.votingPower <= MAX_VOTING_POWER
    requires SeatOf(s, newcomer.rootPk).None? && !AddressSeated(s, newcomer.address)
    ensures WellFormed(NewSet(s + [newcomer]))
    ensures forall v :: v in NewSet(s + [newcomer]) <==> v in s || v == newcomer
  {
    SeatOfCorrect(s, newcomer.rootPk);
    var vals := s + [newcomer];
    forall i | 0 <= i < |s| ensures s[i].rootPk != newcomer.rootPk && s[i].address != newcomer.address {
      assert s[i] in s;
    }
    assert DistinctSeats(vals);
    NewSetWellFormed(vals);
  }

  lemma RemoveWellFormed(s: Seats, root: Bytes)
    requires WellFormed(s) && WithoutRoot(s, root) != []
    ensures WellFormed(NewSet(WithoutRoot(s, root)))
    ensures forall v :: v in NewSet(WithoutRoot(s, root)) <==> v in s && v.rootPk != root
  {
    var vals := WithoutRoot(s, root);
    WithoutRootDistinct(s, root);
    PowersInRange(s);
    forall i | 0 <= i < |vals| ensures 1 <= vals[i].votingPower <= MAX_VOTING_POWER {
      assert vals[i] in s;
    }
    NewSetWellFormed(vals);
  }

  lemma ReweighWellFormed(s: Seats, roots: set<Bytes>, power: u64)
    requires WellFormed(s) && 1 <= power <= MAX_VOTING_POWER
    ensures WellFormed(NewSet(Reweighed(s, roots, power)))
    ensures forall v :: v in NewSet(Reweighed(s, roots, power)) <==> v in Reweighed(s, roots, power)
  {
    ReweighedDistinct(s, roots, power);
    hide Reweighed, NewSet, WellFormed;
    NewSetWellFormed(Reweighed(s, roots, power));
  }

  lemma ReweighedDistinct(s: Seats, roots: set<Bytes>, power: u64)
    requires WellFormed(s) && 1 <= power <= MAX_VOTING_POWER
    ensures var vals := Reweighed(s, roots, power);
            && vals != [] && DistinctSeats(vals) && |vals| == |s|
            && forall i :: 0 <= i < |vals| ==> 1 <= vals[i].votingPower <= MAX_VOTING_POWER
  {
    var vals := Reweighed(s, roots, power);
    assert DistinctSeats(s);
    forall i, j | 0 <= i < j < |vals| ensures vals[i].rootPk != vals[j].rootPk && vals[i].address != vals[j].address {
      assert s[i].rootPk != s[j].rootPk && s[i].address != s[j].address;
    }
  }
}
