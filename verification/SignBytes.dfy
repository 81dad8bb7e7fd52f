/** The byte strings consensus keys and root keys sign: domain tag, a zero byte, then the
    fields, length-prefixed where their length varies. */
module SignBytes {
  import opened Machine

  /** A byte string whose length fits the u64 prefix. */
  type Sized = b: Bytes | |b| <= U64_MAX

  type Address = a: Bytes | |a| == 20 witness Repeat(0, 20)

  /** -1 is the nil round. */
  type Round = r: int | -1 <= r <= U32_MAX

  datatype VoteType = Prevote | Precommit

  datatype Vote = Vote(typ: VoteType, height: u64, round: Round, value: Option<Hash>, validator: Address)

  datatype Proposal = Proposal(height: u64, round: Round, polRound: Round, valueId: Hash, txs: Sized, validator: Address)

  datatype Part =
    | Init(height: u64, round: Round, polRound: Round, proposer: Address)
    | TxBatch(data: Sized)
    | Fin(valueId: Hash)

  datatype RotationDomain = V1 | V2

  datatype RotationBody = RotationBody(
    domain: RotationDomain, chainId: Sized, rootPk: Sized, newOpPk: Sized, epoch: u64, validFromHeight: u64)

  datatype SetChange =
    | Admit(rootPk: Sized, publicKey: Sized, votingPower: u64)
    | Remove(rootPk: Sized)
    | SetPower(rootPk: Sized, votingPower: u64)

  datatype SetChangeBody = SetChangeBody(chainId: Sized, change: SetChange, notBefore: u64, notAfter: u64)

  datatype Message =
    | VoteMessage(vote: Vote)
    | ProposalMessage(proposal: Proposal)
    | PartMessage(part: Part)
    | RotationMessage(rotation: RotationBody)
    | SetChangeMessage(body: SetChangeBody)

  // ---------------------------------------------------------------------------
  // Encoding
  // ---------------------------------------------------------------------------

  function Ascii(s: string): (b: Bytes)
    requires forall i :: 0 <= i < |s| ==> 0 < s[i] as int < 128
    ensures |b| == |s|
    ensures forall i :: 0 <= i < |b| ==> b[i] == s[i] as int && b[i] != 0
  {
    seq(|s|, i requires 0 <= i < |s| => s[i] as int)
  }

  const DOM_VOTE: Bytes := Ascii("hk/v1/consensus-vote")
  const DOM_PROPOSAL: Bytes := Ascii("hk/v1/consensus-proposal")
  const DOM_PART: Bytes := Ascii("hk/v1/consensus-proposal-part")
  const DOM_ROTATION_V1: Bytes := Ascii("hk/v1/rotation-cert")
  const DOM_ROTATION_V2: Bytes := Ascii("hk/v2/rotation-cert")
  const DOM_SET_CHANGE: Bytes := Ascii("hk/v1/set-change")

  function PutBytes(b: Sized): Bytes {
    Le64(|b|) + b
  }

  /** `as_i64().to_le_bytes()` */
  function RoundBytes(r: Round): (b: Bytes)
    ensures |b| == 8
  {
    Le64(if r < 0 then r + U64_MAX + 1 else r)
  }

  function Tag(m: Message): Bytes {
    match m
    case VoteMessage(_) => DOM_VOTE
    case ProposalMessage(_) => DOM_PROPOSAL
    case PartMessage(_) => DOM_PART
    case RotationMessage(r) => if r.domain.V1? then DOM_ROTATION_V1 else DOM_ROTATION_V2
    case SetChangeMessage(_) => DOM_SET_CHANGE
  }

  function VoteBody(v: Vote): Bytes {
    [if v.typ.Prevote? then 0 else 1] + (Le64(v.height) + (RoundBytes(v.round) +
      ((match v.value case None => [0] case Some(id) => [1] + id) + v.validator)))
  }

  function ProposalBody(p: Proposal): Bytes {
    Le64(p.height) + (RoundBytes(p.round) + (RoundBytes(p.polRound) + (p.valueId + (PutBytes(p.txs) + p.validator))))
  }

  function PartBody(p: Part): Bytes {
    match p
    case Init(h, r, pol, proposer) => [0] + (Le64(h) + (RoundBytes(r) + (RoundBytes(pol) + proposer)))
    case TxBatch(data) => [1] + PutBytes(data)
    case Fin(id) => [2] + id
  }

  function RotationFields(r: RotationBody): Bytes {
    PutBytes(r.rootPk) + (PutBytes(r.newOpPk) + (Le64(r.epoch) + Le64(r.validFromHeight)))
  }

  function RotationBodyBytes(r: RotationBody): Bytes {
    if r.domain.V1? then RotationFields(r) else PutBytes(r.chainId) + RotationFields(r)
  }

  function ChangeBytes(c: SetChange): Bytes {
    match c
    case Admit(root, key, power) => [1] + (PutBytes(root) + (PutBytes(key) + Le64(power)))
    case Remove(root) => [2] + PutBytes(root)
    case SetPower(root, power) => [3] + (PutBytes(root) + Le64(power))
  }

  function SetChangeBytes(b: SetChangeBody): Bytes {
    PutBytes(b.chainId) + (ChangeBytes(b.change) + (Le64(b.notBefore) + Le64(b.notAfter)))
  }

  function Body(m: Message): Bytes {
    match m
    case VoteMessage(v) => VoteBody(v)
    case ProposalMessage(p) => ProposalBody(p)
    case PartMessage(p) => PartBody(p)
    case RotationMessage(r) => RotationBodyBytes(r)
    case SetChangeMessage(b) => SetChangeBytes(b)
  }

  /** What is signed. */
  function ToSign(m: Message): Bytes {
    Tag(m) + ([0] + Body(m))
  }

  // ---------------------------------------------------------------------------
  // Reading fields back off the front
  // ---------------------------------------------------------------------------

  lemma FixedWidth(a: Bytes, x: Bytes, b: Bytes, y: Bytes)
    requires |a| == |b| && a + x == b + y
    ensures a == b && x == y
  {
    assert a == (a + x)[..|a|] && b == (b + y)[..|b|];
    assert x == (a + x)[|a|..] && y == (b + y)[|b|..];
  }

  lemma Prefixed(a: Sized, x: Bytes, b: Sized, y: Bytes)
    requires PutBytes(a) + x == PutBytes(b) + y
    ensures a == b && x == y
  {
    assert PutBytes(a) + x == Le64(|a|) + (a + x) && PutBytes(b) + y == Le64(|b|) + (b + y);
    FixedWidth(Le64(|a|), a + x, Le64(|b|), b + y);
    Le64Injective(|a|, |b|);
    FixedWidth(a, x, b, y);
  }

  lemma NumberField(a: u64, x: Bytes, b: u64, y: Bytes)
    requires Le64(a) + x == Le64(b) + y
    ensures a == b && x == y
  {
    FixedWidth(Le64(a), x, Le64(b), y);
    Le64Injective(a, b);
  }

  lemma RoundField(a: Round, x: Bytes, b: Round, y: Bytes)
    requires RoundBytes(a) + x == RoundBytes(b) + y
    ensures a == b && x == y
  {
    NumberField(if a < 0 then a + U64_MAX + 1 else a, x, if b < 0 then b + U64_MAX + 1 else b, y);
  }

  lemma {:induction false} TagsPrefixFree(t: Bytes, x: Bytes, u: Bytes, y: Bytes)
    requires forall i :: 0 <= i < |t| ==> t[i] != 0
    requires forall i :: 0 <= i < |u| ==> u[i] != 0
    requires t + ([0] + x) == u + ([0] + y)
    ensures t == u && x == y
  {
    var s := t + ([0] + x);
    assert s[|t|] == 0 && s[|u|] == 0;
    assert forall i :: 0 <= i < |t| ==> s[i] == t[i] != 0;
    assert forall i :: 0 <= i < |u| ==> s[i] == u[i] != 0;
    assert |t| == |u|;
    FixedWidth(t, [0] + x, u, [0] + y);
    FixedWidth([0], x, [0], y);
  }

  lemma TagsNonzero(m: Message)
    ensures forall i :: 0 <= i < |Tag(m)| ==> Tag(m)[i] != 0
  {
  }

  lemma TagDecides(m: Message, n: Message)
    requires Tag(m) == Tag(n)
    ensures m.VoteMessage? == n.VoteMessage? && m.ProposalMessage? == n.ProposalMessage?
    ensures m.PartMessage? == n.PartMessage? && m.SetChangeMessage? == n.SetChangeMessage?
    ensures m.RotationMessage? == n.RotationMessage?
    ensures m.RotationMessage? ==> m.rotation.domain == n.rotation.domain
  {
    TagTable(DOM_VOTE, DOM_PROPOSAL, DOM_PART, DOM_ROTATION_V1, DOM_ROTATION_V2, DOM_SET_CHANGE);
  }

  /** Five of the tags differ in length; the two rotation tags differ in their version digit. */
  lemma TagTable(vote: Bytes, proposal: Bytes, part: Bytes, r1: Bytes, r2: Bytes, change: Bytes)
    requires vote == DOM_VOTE && proposal == DOM_PROPOSAL && part == DOM_PART
    requires r1 == DOM_ROTATION_V1 && r2 == DOM_ROTATION_V2 && change == DOM_SET_CHANGE
    ensures |vote| == 20 && |proposal| == 24 && |part| == 29 && |r1| == |r2| == 19 && |change| == 16
    ensures r1[4] == 49 && r2[4] == 50
  {
  }

  // ---------------------------------------------------------------------------
  // Injectivity, kind by kind
  // ---------------------------------------------------------------------------

  lemma VoteInjective(a: Vote, b: Vote)
    requires VoteBody(a) == VoteBody(b)
    ensures a == b
  {
    var va := match a.value case None => [0] case Some(id) => [1] + id;
    var vb := match b.value case None => [0] case Some(id) => [1] + id;
    FixedWidth([if a.typ.Prevote? then 0 else 1], VoteBody(a)[1..], [if b.typ.Prevote? then 0 else 1], VoteBody(b)[1..]);
    assert VoteBody(a)[1..] == Le64(a.height) + (RoundBytes(a.round) + (va + a.validator));
    assert VoteBody(b)[1..] == Le64(b.height) + (RoundBytes(b.round) + (vb + b.validator));
    NumberField(a.height, RoundBytes(a.round) + (va + a.validator), b.height, RoundBytes(b.round) + (vb + b.validator));
    RoundField(a.round, va + a.validator, b.round, vb + b.validator);
    assert (va + a.validator)[0] == (vb + b.validator)[0];
    FixedWidth(va, a.validator, vb, b.validator);
    if a.value.Some? {
      assert va[1..] == a.value.value && vb[1..] == b.value.value;
    }
  }

  lemma ProposalInjective(a: Proposal, b: Proposal)
    requires ProposalBody(a) == ProposalBody(b)
    ensures a == b
  {
    var ta, tb := PutBytes(a.txs) + a.validator, PutBytes(b.txs) + b.validator;
    NumberField(a.height, RoundBytes(a.round) + (RoundBytes(a.polRound) + (a.valueId + ta)),
                b.height, RoundBytes(b.round) + (RoundBytes(b.polRound) + (b.valueId + tb)));
    RoundField(a.round, RoundBytes(a.polRound) + (a.valueId + ta), b.round, RoundBytes(b.polRound) + (b.valueId + tb));
    RoundField(a.polRound, a.valueId + ta, b.polRound, b.valueId + tb);
    FixedWidth(a.valueId, ta, b.valueId, tb);
    Prefixed(a.txs, a.validator, b.txs, b.validator);
  }

  lemma PartInjective(a: Part, b: Part)
    requires PartBody(a) == PartBody(b)
    ensures a == b
  {
    assert PartBody(a)[0] == PartBody(b)[0];
    FixedWidth([PartBody(a)[0]], PartBody(a)[1..], [PartBody(b)[0]], PartBody(b)[1..]);
    match a
    case Init(h, r, pol, proposer) =>
      NumberField(h, RoundBytes(r) + (RoundBytes(pol) + proposer),
                  b.height, RoundBytes(b.round) + (RoundBytes(b.polRound) + b.proposer));
      RoundField(r, RoundBytes(pol) + proposer, b.round, RoundBytes(b.polRound) + b.proposer);
      RoundField(pol, proposer, b.polRound, b.proposer);
    case TxBatch(data) =>
      assert PutBytes(data) + [] == PutBytes(data) && PutBytes(b.data) + [] == PutBytes(b.data);
      Prefixed(data, [], b.data, []);
    case Fin(id) =>
      assert PartBody(a)[1..] == id && PartBody(b)[1..] == b.valueId;
  }

  lemma RotationFieldsInjective(a: RotationBody, b: RotationBody)
    requires RotationFields(a) == RotationFields(b)
    ensures a.rootPk == b.rootPk && a.newOpPk == b.newOpPk && a.epoch == b.epoch && a.validFromHeight == b.validFromHeight
  {
    Prefixed(a.rootPk, PutBytes(a.newOpPk) + (Le64(a.epoch) + Le64(a.validFromHeight)),
             b.rootPk, PutBytes(b.newOpPk) + (Le64(b.epoch) + Le64(b.validFromHeight)));
    Prefixed(a.newOpPk, Le64(a.epoch) + Le64(a.validFromHeight), b.newOpPk, Le64(b.epoch) + Le64(b.validFromHeight));
    NumberField(a.epoch, Le64(a.validFromHeight), b.epoch, Le64(b.validFromHeight));
    Le64Injective(a.validFromHeight, b.validFromHeight);
  }

  /** The fields of a change after its variant byte. */
  function ChangeFields(c: SetChange): Bytes {
    match c
    case Admit(root, key, power) => PutBytes(root) + (PutBytes(key) + Le64(power))
    case Remove(root) => PutBytes(root)
    case SetPower(root, power) => PutBytes(root) + Le64(power)
  }

  lemma AdmitPrefix(root: Sized, key: Sized, power: u64, x: Bytes, root': Sized, key': Sized, power': u64, y: Bytes)
    requires ChangeFields(Admit(root, key, power)) + x == ChangeFields(Admit(root', key', power')) + y
    ensures root == root' && key == key' && power == power' && x == y
  {
    var p, p' := Le64(power) + x, Le64(power') + y;
    var k, k' := PutBytes(key) + p, PutBytes(key') + p';
    hide PutBytes, Le64;
    assert ChangeFields(Admit(root, key, power)) + x == PutBytes(root) + k;
    assert ChangeFields(Admit(root', key', power')) + y == PutBytes(root') + k';
    Prefixed(root, k, root', k');
    Prefixed(key, p, key', p');
    NumberField(power, x, power', y);
  }

  lemma SetPowerPrefix(root: Sized, power: u64, x: Bytes, root': Sized, power': u64, y: Bytes)
    requires ChangeFields(SetPower(root, power)) + x == ChangeFields(SetPower(root', power')) + y
    ensures root == root' && power == power' && x == y
  {
    var p, p' := Le64(power) + x, Le64(power') + y;
    hide PutBytes, Le64;
    assert ChangeFields(SetPower(root, power)) + x == PutBytes(root) + p;
    assert ChangeFields(SetPower(root', power')) + y == PutBytes(root') + p';
    Prefixed(root, p, root', p');
    NumberField(power, x, power', y);
  }

  lemma VariantByte(c: SetChange)
    ensures ChangeBytes(c) == [if c.Admit? then 1 else if c.Remove? then 2 else 3] + ChangeFields(c)
  {
  }

  lemma OneByteThen(t: byte, f: Bytes, x: Bytes, u: byte, g: Bytes, y: Bytes)
    requires [t] + f + x == [u] + g + y
    ensures t == u && f + x == g + y
  {
    assert [t] + f + x == [t] + (f + x) && [u] + g + y == [u] + (g + y);
    FixedWidth([t], f + x, [u], g + y);
    assert [t][0] == [u][0];
  }

  lemma ChangePrefix(a: SetChange, x: Bytes, b: SetChange, y: Bytes)
    requires ChangeBytes(a) + x == ChangeBytes(b) + y
    ensures a == b && x == y
  {
    hide ChangeBytes, ChangeFields;
    VariantByte(a);
    VariantByte(b);
    OneByteThen(if a.Admit? then 1 else if a.Remove? then 2 else 3, ChangeFields(a), x,
                if b.Admit? then 1 else if b.Remove? then 2 else 3, ChangeFields(b), y);
    SameVariant(a, x, b, y);
  }

  lemma SameVariant(a: SetChange, x: Bytes, b: SetChange, y: Bytes)
    requires a.Admit? == b.Admit? && a.Remove? == b.Remove?
    requires ChangeFields(a) + x == ChangeFields(b) + y
    ensures a == b && x == y
  {
    match a
    case Admit(root, key, power) => AdmitPrefix(root, key, power, x, b.rootPk, b.publicKey, b.votingPower, y);
    case Remove(root) => Prefixed(root, x, b.rootPk, y);
    case SetPower(root, power) => SetPowerPrefix(root, power, x, b.rootPk, b.votingPower, y);
  }

  lemma SetChangeInjective(a: SetChangeBody, b: SetChangeBody)
    requires SetChangeBytes(a) == SetChangeBytes(b)
    ensures a == b
  {
    Prefixed(a.chainId, ChangeBytes(a.change) + (Le64(a.notBefore) + Le64(a.notAfter)),
             b.chainId, ChangeBytes(b.change) + (Le64(b.notBefore) + Le64(b.notAfter)));
    ChangePrefix(a.change, Le64(a.notBefore) + Le64(a.notAfter), b.change, Le64(b.notBefore) + Le64(b.notAfter));
    NumberField(a.notBefore, Le64(a.notAfter), b.notBefore, Le64(b.notAfter));
    Le64Injective(a.notAfter, b.notAfter);
  }

  /** The message without what its domain does not sign: a v1 rotation binds no chain id. */
  function Signed(m: Message): Message {
    match m
    case RotationMessage(r) => if r.domain.V1? then RotationMessage(r.(chainId := [])) else m
    case _ => m
  }

  /** Two messages of any kinds have the same sign-bytes if and only if they agree in kind
      and in every signed field. No signature carries over to another message. */
  lemma SignBytesDecideTheMessage(m: Message, n: Message)
    ensures ToSign(m) == ToSign(n) <==> Signed(m) == Signed(n)
  {
    if ToSign(m) == ToSign(n) {
      TagsNonzero(m);
      TagsNonzero(n);
      TagsPrefixFree(Tag(m), Body(m), Tag(n), Body(n));
      TagDecides(m, n);
      SameBodySameFields(m, n);
    }
  }

  lemma SameBodySameFields(m: Message, n: Message)
    requires Body(m) == Body(n)
    requires m.VoteMessage? == n.VoteMessage? && m.ProposalMessage? == n.ProposalMessage?
    requires m.PartMessage? == n.PartMessage? && m.SetChangeMessage? == n.SetChangeMessage?
    requires m.RotationMessage? == n.RotationMessage?
    requires m.RotationMessage? ==> m.rotation.domain == n.rotation.domain
    ensures Signed(m) == Signed(n)
  {
    match m
    case VoteMessage(v) => VoteInjective(v, n.vote);
    case ProposalMessage(p) => ProposalInjective(p, n.proposal);
    case PartMessage(p) => PartInjective(p, n.part);
    case SetChangeMessage(b) => SetChangeInjective(b, n.body);
    case RotationMessage(r) =>
      if r.domain.V2? {
        Prefixed(r.chainId, RotationFields(r), n.rotation.chainId, RotationFields(n.rotation));
      }
      RotationFieldsInjective(r, n.rotation);
  }
}
