/** Root-signed operational-key rotations and the rule a chain judges them by. */
module Rotation {
  import opened Machine
  import opened SignBytes
  import opened Validators

  const ROTATION_FRESHNESS_HORIZON: nat := 100_000
  const ROOT_PK_LEN: nat := 48
  const ROOT_SIG_LEN: nat := 16224

  /** The root signature scheme: public key, message, signature. */
  type RootVerify = (Bytes, Bytes, Bytes) -> bool

  datatype RotationRules = RotationRules(height: u64, chainId: Sized, v2From: u64)

  datatype RotationCert = RotationCert(rootPk: Sized, newOpPk: Sized, epoch: u64, validFromHeight: u64, rootSig: Bytes)

  datatype RotationError = NoSuchRoot | WrongRoot | StaleEpoch | FutureHeight | PastHorizon | SignedUnderV1 | BadSignature

  function DomainAt(rules: RotationRules): RotationDomain {
    if rules.height >= rules.v2From then V2 else V1
  }

  function Activation(rules: RotationRules): u64 {
    SatAdd(rules.height, 1, U64_MAX)
  }

  function SigningBody(cert: RotationCert, domain: RotationDomain, chainId: Sized): RotationBody {
    RotationBody(domain, chainId, cert.rootPk, cert.newOpPk, cert.epoch, cert.validFromHeight)
  }

  predicate VerifySig(verify: RootVerify, cert: RotationCert, domain: RotationDomain, chainId: Sized) {
    && |cert.rootPk| == ROOT_PK_LEN
    && |cert.rootSig| == ROOT_SIG_LEN
    && verify(cert.rootPk, ToSign(RotationMessage(SigningBody(cert, domain, chainId))), cert.rootSig)
  }

  function CheckWindow(cert: RotationCert, rules: RotationRules): Outcome<RotationError> {
    if DomainAt(rules).V1? then Pass
    else if cert.validFromHeight > Activation(rules) then Fail(FutureHeight)
    else if SatAdd(cert.validFromHeight, ROTATION_FRESHNESS_HORIZON, U64_MAX) < Activation(rules) then Fail(PastHorizon)
    else Pass
  }

  function VerifyAgainst(verify: RootVerify, cert: RotationCert, registered: Bytes, lastEpoch: Option<u64>, rules: RotationRules)
    : Outcome<RotationError>
  {
    if cert.rootPk != registered then Fail(WrongRoot)
    else if lastEpoch.Some? && cert.epoch <= lastEpoch.value then Fail(StaleEpoch)
    else if CheckWindow(cert, rules).Fail? then CheckWindow(cert, rules)
    else
      match DomainAt(rules)
      case V1 => if VerifySig(verify, cert, V1, []) then Pass else Fail(BadSignature)
      case V2 =>
        if VerifySig(verify, cert, V2, rules.chainId) then Pass
        else if VerifySig(verify, cert, V1, []) then Fail(SignedUnderV1)
        else Fail(BadSignature)
  }

  /** Which domain the issuer signs under. */
  function IssueDomain(v2From: u64, validFromHeight: u64): RotationDomain {
    if validFromHeight >= v2From then V2 else V1
  }

  /** The issuer's choice is the verifier's demand at every height the certificate can commit
      at, with one exception, stated exactly: it names a height before the switch and commits
      at or after it. */
  lemma IssuerAndVerifierAgreeIff(v2From: u64, validFromHeight: u64, height: u64, chainId: Sized)
    requires validFromHeight <= height
    ensures IssueDomain(v2From, validFromHeight) == DomainAt(RotationRules(height, chainId, v2From))
            <==> !(validFromHeight < v2From <= height)
  {
  }

  /** The freshness window, as a range of commit heights: one interval, and under v1 none. The
      window's end never saturates into an early refusal; only the very last height counts as
      the one before it. */
  lemma WindowIsAnInterval(cert: RotationCert, rules: RotationRules)
    ensures CheckWindow(cert, rules).Pass? <==>
              rules.height < rules.v2From
              || (&& cert.validFromHeight <= rules.height + 1
                  && Min(rules.height + 1, U64_MAX) <= cert.validFromHeight + ROTATION_FRESHNESS_HORIZON)
  {
  }

  /** A signature made for one chain under v2 does not carry over to another: a verifier
      there asks about a different message. */
  lemma RotationBoundToChain(cert: RotationCert, a: Sized, b: Sized)
    requires a != b
    ensures ToSign(RotationMessage(SigningBody(cert, V2, a))) != ToSign(RotationMessage(SigningBody(cert, V2, b)))
    ensures ToSign(RotationMessage(SigningBody(cert, V2, a))) != ToSign(RotationMessage(SigningBody(cert, V1, b)))
    ensures ToSign(RotationMessage(SigningBody(cert, V1, a))) == ToSign(RotationMessage(SigningBody(cert, V1, b)))
  {
    SignBytesDecideTheMessage(RotationMessage(SigningBody(cert, V2, a)), RotationMessage(SigningBody(cert, V2, b)));
    SignBytesDecideTheMessage(RotationMessage(SigningBody(cert, V2, a)), RotationMessage(SigningBody(cert, V1, b)));
    SignBytesDecideTheMessage(RotationMessage(SigningBody(cert, V1, a)), RotationMessage(SigningBody(cert, V1, b)));
  }

  /** A scheme under which one signature by one root is good for one message. */
  function OnlyFor(root: Bytes, m: Message, sig: Bytes): RootVerify {
    (key: Bytes, msg: Bytes, s: Bytes) => key == root && msg == ToSign(m) && s == sig
  }

  /** A root's signature over one rotation is good for the certificate of that root, key, epoch and
      height alone, in that domain and, under v2, on that chain. */
  lemma SignatureCoversEveryField(body: RotationBody, sig: Bytes, cert: RotationCert, domain: RotationDomain, chainId: Sized)
    requires |body.rootPk| == 48 && |sig| == 16224
    ensures VerifySig(OnlyFor(body.rootPk, RotationMessage(body), sig), cert, domain, chainId) <==>
              && cert.rootSig == sig && cert.rootPk == body.rootPk && cert.newOpPk == body.newOpPk
              && cert.epoch == body.epoch && cert.validFromHeight == body.validFromHeight
              && domain == body.domain && (domain.V2? ==> chainId == body.chainId)
  {
    SignBytesDecideTheMessage(RotationMessage(SigningBody(cert, domain, chainId)), RotationMessage(body));
    hide ToSign;
  }

  /** And a signature of any other length, or by a root of another length, is good for nothing. */
  lemma MalformedNeverVerifies(verify: RootVerify, cert: RotationCert, domain: RotationDomain, chainId: Sized)
    ensures |cert.rootPk| != 48 || |cert.rootSig| != 16224 ==> !VerifySig(verify, cert, domain, chainId)
  {
  }

  // ---------------------------------------------------------------------------
  // Applying a rotation to the set
  // ---------------------------------------------------------------------------

  /** The same seats with the one at `address` on its new key and epoch; order is untouched. */
  function Rotated(s: Seats, address: Address, key: Sized, epoch: u64): (r: Seats)
    ensures |r| == |s|
    ensures forall i :: 0 <= i < |s| ==>
              r[i] == if s[i].address == address then s[i].(publicKey := key, epoch := epoch) else s[i]
  {
    if s == [] then []
    else [if s[0].address == address then s[0].(publicKey := key, epoch := epoch) else s[0]]
         + Rotated(s[1..], address, key, epoch)
  }

  function ApplyRotation(verify: RootVerify, s: Seats, cert: RotationCert, rules: RotationRules): Result<Seats, RotationError> {
    match SeatOf(s, cert.rootPk)
    case None => Err(NoSuchRoot)
    case Some(target) =>
      match VerifyAgainst(verify, cert, target.rootPk, Some(target.epoch), rules)
      case Fail(e) => Err(e)
      case Pass => Ok(Rotated(s, target.address, cert.newOpPk, cert.epoch))
  }

  /** A rotation keeps every seat's identity, power and place, so no re-sorting is needed;
      exactly the certified seat changes, to exactly the certified key and epoch. */
  lemma RotationKeepsTheSet(verify: RootVerify, s: Seats, cert: RotationCert, rules: RotationRules)
    requires WellFormed(s) && ApplyRotation(verify, s, cert, rules).Ok?
    ensures var r := ApplyRotation(verify, s, cert, rules).value;
            && WellFormed(r) && TruePower(r) == TruePower(s) && |r| == |s|
            && forall i :: 0 <= i < |s| ==>
                 r[i] == if s[i].rootPk == cert.rootPk then s[i].(publicKey := cert.newOpPk, epoch := cert.epoch) else s[i]
  {
    SeatOfCorrect(s, cert.rootPk);
    var target := SeatOf(s, cert.rootPk).value;
    var k :| 0 <= k < |s| && s[k] == target;
    var r := Rotated(s, target.address, cert.newOpPk, cert.epoch);
    forall i | 0 <= i < |s| ensures s[i].address == target.address <==> s[i].rootPk == cert.rootPk {
      if i != k {
        assert s[i].rootPk != s[k].rootPk && s[i].address != s[k].address;
      }
    }
    assert forall i :: 0 <= i < |s| ==> r[i].votingPower == s[i].votingPower && r[i].address == s[i].address && r[i].rootPk == s[i].rootPk;
    OrderFollowsKeys(s, r);
    SamePowersSameTotal(s, r);
  }

  lemma OrderFollowsKeys(s: Seats, r: Seats)
    requires |s| == |r| && WellFormed(s)
    requires forall i :: 0 <= i < |s| ==>
               r[i].votingPower == s[i].votingPower && r[i].address == s[i].address && r[i].rootPk == s[i].rootPk
    ensures WellFormed(r)
  {
    forall i, j | 0 <= i < j < |r| ensures InOrder(r[i], r[j]) && r[i].rootPk != r[j].rootPk && r[i].address != r[j].address {
      assert InOrder(s[i], s[j]);
    }
  }

  lemma {:induction false} SamePowersSameTotal(s: Seats, r: Seats)
    requires |s| == |r|
    requires forall i :: 0 <= i < |s| ==> r[i].votingPower == s[i].votingPower
    ensures TruePower(s) == TruePower(r)
    decreases |s|
  {
    if s != [] {
      SamePowersSameTotal(s[1..], r[1..]);
    }
  }

  lemma EpochOnlyGrows(verify: RootVerify, s: Seats, cert: RotationCert, rules: RotationRules, root: Bytes)
    requires WellFormed(s) && ApplyRotation(verify, s, cert, rules).Ok? && SeatOf(s, root).Some?
    ensures var r := ApplyRotation(verify, s, cert, rules).value;
            && SeatOf(r, root).Some?
            && SeatOf(s, root).value.epoch <= SeatOf(r, root).value.epoch
            && (root == cert.rootPk ==> SeatOf(r, root).value.epoch == cert.epoch)
  {
    RotationKeepsTheSet(verify, s, cert, rules);
    SeatOfCorrect(s, root);
    SeatOfCorrect(s, cert.rootPk);
    var r := ApplyRotation(verify, s, cert, rules).value;
    var k :| 0 <= k < |s| && s[k] == SeatOf(s, root).value;
    SeatOfCorrect(r, root);
    assert r[k] in r && r[k].rootPk == root;
  }
}
