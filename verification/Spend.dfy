/** The shielded-spend statement: membership, spend authority, owner binding, nullifier and
    value conservation. The hash is a parameter; nothing below assumes it has no collisions,
    except among inputs named explicitly. */
module Spend {
  import opened Machine
  import opened Wots
  import opened SpendTree

  const TREE_DEPTH: nat := 32

  const DOM_CM: byte := 1
  const DOM_NF: byte := 4
  const DOM_ADDR: byte := 9
  const DOM_NK: byte := 10

  datatype Note = Note(value: u64, owner: Hash, rho: Hash, rcm: Hash)

  datatype MerklePath = MerklePath(siblings: seq<Hash>, index: u64)

  datatype SpendWitness = SpendWitness(
    inNote: Note,
    path: MerklePath,
    sig: seq<Hash>,
    otsPath: MerklePath,
    nk: Hash,
    outNote: Note,
    out2Note: Note,
    fee: u64,
    txBinding: Hash)

  datatype SpendPublic = SpendPublic(
    merkleRoot: Hash,
    nullifier: Hash,
    outCommitment: Hash,
    out2Commitment: Hash,
    fee: u64,
    txBinding: Hash)

  datatype SpendError = BadPathLength | BadOtsPath | BadSpendSig | OwnerMismatch | ValueConservation

  function CommitInput(n: Note): Bytes {
    [DOM_CM] + Le64(n.value) + n.owner + n.rho + n.rcm
  }

  function CommitNote(sha: Sha, n: Note): Hash {
    sha(CommitInput(n))
  }

  function NullifierInput(nk: Hash, rho: Hash): Bytes {
    [DOM_NF] + nk + rho
  }

  function Nullifier(sha: Sha, nk: Hash, rho: Hash): Hash {
    sha(NullifierInput(nk, rho))
  }

  function NkInput(nk: Hash): Bytes {
    [DOM_NK] + nk
  }

  function AddressInput(sha: Sha, spendRoot: Hash, nk: Hash): Bytes {
    [DOM_ADDR] + spendRoot + sha(NkInput(nk))
  }

  function AddressTag(sha: Sha, spendRoot: Hash, nk: Hash): Hash {
    sha(AddressInput(sha, spendRoot, nk))
  }

  function CheckedAdd(a: u64, b: u64): Option<u64> {
    if a + b <= U64_MAX then Some(a + b) else None
  }

  function AnchorOf(sha: Sha, w: SpendWitness): Hash {
    Fold(sha, DOM_NODE, CommitNote(sha, w.inNote), w.path.siblings, w.path.index)
  }

  function RootFrom(sha: Sha, leaf: Hash, path: MerklePath): Hash {
    Fold(sha, DOM_OTS_NODE, leaf, path.siblings, path.index)
  }

  /** The public outputs of a witness, or the first failed check. */
  function Evaluate(sha: Sha, w: SpendWitness): Result<SpendPublic, SpendError> {
    if |w.path.siblings| != TREE_DEPTH then Err(BadPathLength)
    else if |w.otsPath.siblings| != SPEND_TREE_DEPTH then Err(BadOtsPath)
    else
      match RecoverOwner(sha, w.sig, w.txBinding)
      case None => Err(BadSpendSig)
      case Some(leaf) =>
        if AddressTag(sha, RootFrom(sha, leaf, w.otsPath), w.nk) != w.inNote.owner then Err(OwnerMismatch)
        else
          match CheckedAdd(w.outNote.value, w.out2Note.value)
          case None => Err(ValueConservation)
          case Some(outs) =>
            match CheckedAdd(outs, w.fee)
            case None => Err(ValueConservation)
            case Some(total) =>
              if w.inNote.value != total then Err(ValueConservation)
              else Ok(SpendPublic(AnchorOf(sha, w), Nullifier(sha, w.nk, w.inNote.rho), CommitNote(sha, w.outNote),
                                  CommitNote(sha, w.out2Note), w.fee, w.txBinding))
  }

  method Run(sha: Sha, w: SpendWitness) returns (r: Result<SpendPublic, SpendError>)
    ensures r == Evaluate(sha, w)
  {
    if |w.path.siblings| != TREE_DEPTH {
      return Err(BadPathLength);
    }
    if |w.otsPath.siblings| != SPEND_TREE_DEPTH {
      return Err(BadOtsPath);
    }
    var merkleRoot := FoldPath(sha, DOM_NODE, CommitNote(sha, w.inNote), w.path.siblings, w.path.index);
    var leaf := WotsRecoverOwner(sha, w.sig, w.txBinding);
    if leaf.None? {
      return Err(BadSpendSig);
    }
    var recoveredRoot := FoldPath(sha, DOM_OTS_NODE, leaf.value, w.otsPath.siblings, w.otsPath.index);
    if AddressTag(sha, recoveredRoot, w.nk) != w.inNote.owner {
      return Err(OwnerMismatch);
    }
    var nf := Nullifier(sha, w.nk, w.inNote.rho);
    var outs := CheckedAdd(w.outNote.value, w.out2Note.value);
    if outs.None? {
      return Err(ValueConservation);
    }
    var total := CheckedAdd(outs.value, w.fee);
    if total.None? || w.inNote.value != total.value {
      return Err(ValueConservation);
    }
    return Ok(SpendPublic(merkleRoot, nf, CommitNote(sha, w.outNote), CommitNote(sha, w.out2Note), w.fee, w.txBinding));
  }

  // ---------------------------------------------------------------------------
  // Acceptance
  // ---------------------------------------------------------------------------

  /** The spend root the one-time signature proves; `run` stops before using it when the
      signature has the wrong shape. */
  function ProvenRoot(sha: Sha, w: SpendWitness): Hash {
    match RecoverOwner(sha, w.sig, w.txBinding)
    case None => ZERO_HASH
    case Some(leaf) => RootFrom(sha, leaf, w.otsPath)
  }

  /** The witness's one-time key digest folds up to a root that, with its nullifier key,
      makes the input note's owner. */
  predicate OwnsInput(sha: Sha, w: SpendWitness) {
    AddressTag(sha, ProvenRoot(sha, w), w.nk) == w.inNote.owner
  }

  function Publics(sha: Sha, w: SpendWitness): SpendPublic {
    SpendPublic(AnchorOf(sha, w), Nullifier(sha, w.nk, w.inNote.rho), CommitNote(sha, w.outNote),
                CommitNote(sha, w.out2Note), w.fee, w.txBinding)
  }

  /** A proof exists exactly for the witnesses that meet every condition, and value is then
      conserved as integers: nothing wraps. */
  lemma AcceptedIff(sha: Sha, w: SpendWitness)
    ensures Evaluate(sha, w).Ok? <==>
              (&& |w.path.siblings| == TREE_DEPTH
               && |w.otsPath.siblings| == SPEND_TREE_DEPTH
               && |w.sig| == CHAINS
               && OwnsInput(sha, w)
               && w.inNote.value == w.outNote.value + w.out2Note.value + w.fee)
    ensures Evaluate(sha, w).Ok? ==> Evaluate(sha, w) == Ok(Publics(sha, w))
  {
    hide RootFrom, AddressTag, AnchorOf, CommitNote, Nullifier, PkDigest;
  }

  /** And every refusal by name: the lengths of the two paths, then the shape of the signature, then
      the owner, and for want of balance only what has passed all of these. */
  lemma RefusedIff(sha: Sha, w: SpendWitness)
    ensures Evaluate(sha, w) == Err(BadPathLength) <==> |w.path.siblings| != 32
    ensures Evaluate(sha, w) == Err(BadOtsPath) <==> |w.path.siblings| == 32 && |w.otsPath.siblings| != 10
    ensures Evaluate(sha, w) == Err(BadSpendSig) <==>
              |w.path.siblings| == 32 && |w.otsPath.siblings| == 10 && |w.sig| != 67
    ensures Evaluate(sha, w) == Err(OwnerMismatch) <==>
              |w.path.siblings| == 32 && |w.otsPath.siblings| == 10 && |w.sig| == 67 && !OwnsInput(sha, w)
    ensures Evaluate(sha, w) == Err(ValueConservation) <==>
              && |w.path.siblings| == 32 && |w.otsPath.siblings| == 10 && |w.sig| == 67 && OwnsInput(sha, w)
              && w.inNote.value != w.outNote.value + w.out2Note.value + w.fee
  {
    hide RootFrom, AddressTag, AnchorOf, CommitNote, Nullifier, PkDigest;
  }

  /** An honest wallet's witness: any address of any capacity, any of its leaves, any note it
      owns, any balanced outputs. */
  function HonestWitness(sha: Sha, master: Bytes, h: nat, index: nat, nk: Hash, note: Note, path: MerklePath,
                         out: Note, out2: Note, fee: u64, txBinding: Hash): SpendWitness
    requires h <= MAX_HEIGHT && index < Pow2(h) && index <= U32_MAX
  {
    SpendWitness(note, path, Sign(sha, LeafSeed(sha, master, index), txBinding),
                 MerklePath(AuthSiblings(sha, master, h, index), index), nk, out, out2, fee, txBinding)
  }

  /** A note paid to the address of a tree and a nullifier key. */
  function NoteTo(sha: Sha, master: Bytes, h: nat, nk: Hash, value: u64, rho: Hash, rcm: Hash): Note
    requires h <= MAX_HEIGHT
  {
    Note(value, AddressTag(sha, SpendRoot(sha, master, h), nk), rho, rcm)
  }

  /** Completeness: the statement accepts every honest balanced witness of a tree up to its own
      depth, and refuses those of a taller one for the length of their path. */
  lemma HonestWitnessAccepted(sha: Sha, master: Bytes, h: nat, index: nat, nk: Hash, value: u64, rho: Hash, rcm: Hash,
                              path: MerklePath, out: Note, out2: Note, fee: u64, txBinding: Hash)
    requires h <= MAX_HEIGHT && index < Pow2(h) && index <= U32_MAX
    requires |path.siblings| == TREE_DEPTH
    requires value == out.value + out2.value + fee
    ensures var note := NoteTo(sha, master, h, nk, value, rho, rcm);
            Evaluate(sha, HonestWitness(sha, master, h, index, nk, note, path, out, out2, fee, txBinding))
            == if h <= SPEND_TREE_DEPTH
               then Ok(SpendPublic(Fold(sha, DOM_NODE, CommitNote(sha, note), path.siblings, path.index),
                                   Nullifier(sha, nk, rho), CommitNote(sha, out), CommitNote(sha, out2), fee, txBinding))
               else Err(BadOtsPath)
  {
    if h > SPEND_TREE_DEPTH {
      hide Fold, RecoverOwner, SpendRoot, AddressTag, CommitNote, Nullifier, AnchorOf;
      return;
    }
    var w := HonestWitness(sha, master, h, index, nk, NoteTo(sha, master, h, nk, value, rho, rcm), path, out, out2, fee, txBinding);
    HonestRoot(sha, master, h, index, txBinding);
    hide Fold, RecoverOwner, AuthSiblings, SpendRoot, AddressTag, CommitNote, Nullifier, Evaluate;
    assert ProvenRoot(sha, w) == SpendRoot(sha, master, h);
    AcceptedIff(sha, w);
  }

  lemma HonestRoot(sha: Sha, master: Bytes, h: nat, index: nat, txBinding: Hash)
    requires h <= MAX_HEIGHT && index < Pow2(h) && index <= U32_MAX
    ensures |Sign(sha, LeafSeed(sha, master, index), txBinding)| == CHAINS
    ensures RecoverOwner(sha, Sign(sha, LeafSeed(sha, master, index), txBinding), txBinding)
            == Some(Owner(sha, LeafSeed(sha, master, index)))
    ensures RootFrom(sha, Owner(sha, LeafSeed(sha, master, index)), MerklePath(AuthSiblings(sha, master, h, index), index))
            == SpendRoot(sha, master, h)
  {
    SignThenRecover(sha, LeafSeed(sha, master, index), txBinding);
    AuthPathFoldsToRoot(sha, master, h, index);
    hide Fold, RecoverOwner, AuthSiblings, SpendRoot;
  }

  // ---------------------------------------------------------------------------
  // What the signature covers
  // ---------------------------------------------------------------------------

  /** The signature, the path of its key, the nullifier key and the binding of an accepted
      witness serve any other witness if and only if that one spends a note with the same owner
      tag, shows a path of the right length and balances: neither the outputs nor the note
      itself is signed. */
  lemma SameSignatureAcceptedIff(sha: Sha, v: SpendWitness, w: SpendWitness)
    requires Evaluate(sha, v).Ok?
    requires w.sig == v.sig && w.otsPath == v.otsPath && w.nk == v.nk && w.txBinding == v.txBinding
    ensures Evaluate(sha, w).Ok? <==>
              (&& w.inNote.owner == v.inNote.owner
               && |w.path.siblings| == TREE_DEPTH
               && w.inNote.value == w.outNote.value + w.out2Note.value + w.fee)
  {
    hide Evaluate, RecoverOwner, RootFrom, AddressTag;
    AcceptedIff(sha, v);
    AcceptedIff(sha, w);
    assert ProvenRoot(sha, v) == ProvenRoot(sha, w);
  }

  /** In particular the prover may replace the outputs by any pair of the same sum, and the proof
      still shows the same anchor, nullifier, fee and binding. */
  lemma OutputsAreNotSigned(sha: Sha, v: SpendWitness, out: Note, out2: Note)
    requires Evaluate(sha, v).Ok?
    requires out.value + out2.value == v.outNote.value + v.out2Note.value
    ensures Evaluate(sha, v.(outNote := out, out2Note := out2))
            == Ok(Evaluate(sha, v).value.(outCommitment := CommitNote(sha, out), out2Commitment := CommitNote(sha, out2)))
  {
    hide Evaluate, RecoverOwner, RootFrom, AddressTag, CommitNote, Nullifier, Fold;
    var w := v.(outNote := out, out2Note := out2);
    AcceptedIff(sha, v);
    SameSignatureAcceptedIff(sha, v, w);
    AcceptedIff(sha, w);
  }

  const DOM_TXBIND: byte := 7

  function TxBindingInput(credit: Hash, fee: u64): Bytes {
    [DOM_TXBIND] + credit + Le64(fee)
  }

  function TxBindingFor(sha: Sha, credit: Hash, fee: u64): Hash {
    sha(TxBindingInput(credit, fee))
  }

  /** What it does cover: the credited account and the fee, both in full. */
  lemma BindingIsCreditAndFee(sha: Sha, credit: Hash, fee: u64, credit': Hash, fee': u64)
    requires NoCollision(sha, iset{TxBindingInput(credit, fee), TxBindingInput(credit', fee')})
    ensures TxBindingFor(sha, credit, fee) == TxBindingFor(sha, credit', fee') <==> credit == credit' && fee == fee'
  {
    var a, b := TxBindingInput(credit, fee), TxBindingInput(credit', fee');
    if sha(a) == sha(b) {
      assert a == b;
      assert a[1..33] == credit && b[1..33] == credit';
      assert a[33..] == Le64(fee) && b[33..] == Le64(fee');
      Le64Injective(fee, fee');
    }
  }

  // ---------------------------------------------------------------------------
  // Binding
  // ---------------------------------------------------------------------------

  /** Everything folding a path hashes. */
  ghost function FoldInputs(sha: Sha, dom: byte, cur: Hash, siblings: seq<Hash>, index: nat): iset<Bytes>
    decreases |siblings|
  {
    if siblings == [] then iset{}
    else
      iset{if index % 2 == 1 then NodeInput(dom, siblings[0], cur) else NodeInput(dom, cur, siblings[0])}
      + FoldInputs(sha, dom, Climb(sha, dom, cur, siblings[0], index), siblings[1..], index / 2)
  }

  lemma NodeInputInjective(dom: byte, l: Hash, r: Hash, l': Hash, r': Hash)
    requires NodeInput(dom, l, r) == NodeInput(dom, l', r')
    ensures l == l' && r == r'
  {
    assert l == NodeInput(dom, l, r)[1..33] && l' == NodeInput(dom, l', r')[1..33];
    assert r == NodeInput(dom, l, r)[33..] && r' == NodeInput(dom, l', r')[33..];
  }

  lemma ClimbInjective(sha: Sha, dom: byte, a: Hash, s: Hash, b: Hash, t: Hash, i: nat, j: nat, inputs: iset<Bytes>)
    requires NoCollision(sha, inputs) && i % 2 == j % 2
    requires (if i % 2 == 1 then NodeInput(dom, s, a) else NodeInput(dom, a, s)) in inputs
    requires (if j % 2 == 1 then NodeInput(dom, t, b) else NodeInput(dom, b, t)) in inputs
    requires Climb(sha, dom, a, s, i) == Climb(sha, dom, b, t, j)
    ensures a == b
  {
    if i % 2 == 1 {
      NodeInputInjective(dom, s, a, t, b);
    } else {
      NodeInputInjective(dom, a, s, b, t);
    }
  }

  /** The bits the fold reads: two indices agree on their `n` low bits. */
  predicate SameLowBits(i: nat, j: nat, n: nat) {
    n == 0 || (i % 2 == j % 2 && SameLowBits(i / 2, j / 2, n - 1))
  }

  lemma {:induction false} SameLowBitsIff(i: nat, j: nat, n: nat)
    ensures SameLowBits(i, j, n) <==> i % Pow2(n) == j % Pow2(n)
  {
    if n > 0 {
      SameLowBitsIff(i / 2, j / 2, n - 1);
      LowBits(i, Pow2(n - 1));
      LowBits(j, Pow2(n - 1));
    } else {
      assert i % 1 == 0 && j % 1 == 0;
    }
  }

  /** The remainder modulo `2p` is the low bit and, above it, the remainder of the half. */
  lemma LowBits(i: nat, p: nat)
    requires p > 0
    ensures i % (2 * p) == 2 * (i / 2 % p) + i % 2
  {
    var q, r := i / 2 / p, i / 2 % p;
    assert i / 2 == p * q + r;
    assert i == (2 * p) * q + (2 * r + i % 2);
    DivModUnique(i, 2 * p, q, 2 * r + i % 2);
  }

  lemma {:induction false} FoldInjective(sha: Sha, dom: byte, a: Hash, ss: seq<Hash>, i: nat,
                                         b: Hash, ts: seq<Hash>, j: nat, inputs: iset<Bytes>)
    requires |ss| == |ts| && SameLowBits(i, j, |ss|)
    requires Fold(sha, dom, a, ss, i) == Fold(sha, dom, b, ts, j)
    requires NoCollision(sha, inputs)
    requires FoldInputs(sha, dom, a, ss, i) <= inputs && FoldInputs(sha, dom, b, ts, j) <= inputs
    ensures a == b
    decreases |ss|
  {
    if ss != [] {
      FoldInjective(sha, dom, Climb(sha, dom, a, ss[0], i), ss[1..], i / 2,
                    Climb(sha, dom, b, ts[0], j), ts[1..], j / 2, inputs);
      ClimbInjective(sha, dom, a, ss[0], b, ts[0], i, j, inputs);
    }
  }

  lemma CommitInputInjective(m: Note, n: Note)
    requires CommitInput(m) == CommitInput(n)
    ensures m == n
  {
    var a, b := CommitInput(m), CommitInput(n);
    assert a[1..9] == Le64(m.value) && b[1..9] == Le64(n.value);
    assert a[9..41] == m.owner && b[9..41] == n.owner;
    assert a[41..73] == m.rho && b[41..73] == n.rho;
    assert a[73..] == m.rcm && b[73..] == n.rcm;
    Le64Injective(m.value, n.value);
  }

  /** What an accepted witness hashes to bind its note and its nullifier key: the note, the
      membership path and the owner tag. */
  ghost function BindingInputs(sha: Sha, w: SpendWitness): iset<Bytes>
  {
    iset{CommitInput(w.inNote), NkInput(w.nk), AddressInput(sha, ProvenRoot(sha, w), w.nk)}
    + FoldInputs(sha, DOM_NODE, CommitNote(sha, w.inNote), w.path.siblings, w.path.index)
  }

  lemma AddressInputInjective(sha: Sha, r: Hash, k: Hash, r': Hash, k': Hash)
    requires AddressInput(sha, r, k) == AddressInput(sha, r', k')
    ensures r == r' && sha(NkInput(k)) == sha(NkInput(k'))
  {
    var a, b := AddressInput(sha, r, k), AddressInput(sha, r', k');
    assert a[1..33] == r && b[1..33] == r';
    assert a[33..] == sha(NkInput(k)) && b[33..] == sha(NkInput(k'));
  }

  /** One note, one key: two accepted witnesses for the same note use the same nullifier key
      and the same spend root, so the note has exactly one nullifier whoever proves it. */
  lemma OneNullifierPerNote(sha: Sha, v: SpendWitness, w: SpendWitness)
    requires Evaluate(sha, v).Ok? && Evaluate(sha, w).Ok? && v.inNote == w.inNote
    requires NoCollision(sha, BindingInputs(sha, v) + BindingInputs(sha, w))
    ensures v.nk == w.nk
    ensures ProvenRoot(sha, v) == ProvenRoot(sha, w)
    ensures Evaluate(sha, v).value.nullifier == Evaluate(sha, w).value.nullifier
  {
    var inputs := BindingInputs(sha, v) + BindingInputs(sha, w);
    AcceptedIff(sha, v);
    AcceptedIff(sha, w);
    var r, r' := ProvenRoot(sha, v), ProvenRoot(sha, w);
    assert AddressInput(sha, r, v.nk) in inputs && AddressInput(sha, r', w.nk) in inputs;
    AddressInputInjective(sha, r, v.nk, r', w.nk);
    assert NkInput(v.nk) in inputs && NkInput(w.nk) in inputs;
    assert v.nk == NkInput(v.nk)[1..] && w.nk == NkInput(w.nk)[1..];
  }

  /** The double-spend guard: two accepted witnesses that anchor in the same tree root at the
      same leaf position spend the same note and show the same nullifier, unless the hash
      collides among the inputs the two proofs name. */
  lemma SamePositionSameNullifier(sha: Sha, v: SpendWitness, w: SpendWitness)
    requires Evaluate(sha, v).Ok? && Evaluate(sha, w).Ok?
    requires Evaluate(sha, v).value.merkleRoot == Evaluate(sha, w).value.merkleRoot
    requires v.path.index % Pow2(TREE_DEPTH) == w.path.index % Pow2(TREE_DEPTH)
    requires NoCollision(sha, BindingInputs(sha, v) + BindingInputs(sha, w))
    ensures v.inNote == w.inNote
    ensures Evaluate(sha, v).value.nullifier == Evaluate(sha, w).value.nullifier
  {
    var inputs := BindingInputs(sha, v) + BindingInputs(sha, w);
    AcceptedIff(sha, v);
    AcceptedIff(sha, w);
    SameLowBitsIff(v.path.index, w.path.index, TREE_DEPTH);
    SameAnchorSameCommitment(sha, v, w, inputs);
    assert CommitInput(v.inNote) in inputs && CommitInput(w.inNote) in inputs;
    CommitInputInjective(v.inNote, w.inNote);
    OneNullifierPerNote(sha, v, w);
  }

  lemma SameAnchorSameCommitment(sha: Sha, v: SpendWitness, w: SpendWitness, inputs: iset<Bytes>)
    requires |v.path.siblings| == |w.path.siblings| && SameLowBits(v.path.index, w.path.index, |v.path.siblings|)
    requires AnchorOf(sha, v) == AnchorOf(sha, w)
    requires NoCollision(sha, inputs)
    requires FoldInputs(sha, DOM_NODE, CommitNote(sha, v.inNote), v.path.siblings, v.path.index) <= inputs
    requires FoldInputs(sha, DOM_NODE, CommitNote(sha, w.inNote), w.path.siblings, w.path.index) <= inputs
    ensures CommitNote(sha, v.inNote) == CommitNote(sha, w.inNote)
  {
    FoldInjective(sha, DOM_NODE, CommitNote(sha, v.inNote), v.path.siblings, v.path.index,
                  CommitNote(sha, w.inNote), w.path.siblings, w.path.index, inputs);
  }

  /** Conversely a shared nullifier shows the same nullifier key and the same note seed. */
  lemma SameNullifierSameSeed(sha: Sha, v: SpendWitness, w: SpendWitness)
    requires Evaluate(sha, v).Ok? && Evaluate(sha, w).Ok?
    requires Evaluate(sha, v).value.nullifier == Evaluate(sha, w).value.nullifier
    requires NoCollision(sha, iset{NullifierInput(v.nk, v.inNote.rho), NullifierInput(w.nk, w.inNote.rho)})
    ensures v.nk == w.nk && v.inNote.rho == w.inNote.rho
  {
    var a, b := NullifierInput(v.nk, v.inNote.rho), NullifierInput(w.nk, w.inNote.rho);
    assert a == b;
    assert a[1..33] == v.nk && b[1..33] == w.nk;
    assert a[33..] == v.inNote.rho && b[33..] == w.inNote.rho;
  }

  /** The anchor fold reads only the low 32 bits of the index: an index carrying anything
      above them proves the same statement. */
  lemma HighIndexBitsIgnored(sha: Sha, w: SpendWitness, index: u64)
    requires |w.path.siblings| == TREE_DEPTH
    requires w.path.index % Pow2(TREE_DEPTH) == index % Pow2(TREE_DEPTH)
    ensures Evaluate(sha, w.(path := w.path.(index := index))) == Evaluate(sha, w)
  {
    SameLowBitsIff(w.path.index, index, TREE_DEPTH);
    FoldReadsLowBits(sha, DOM_NODE, CommitNote(sha, w.inNote), w.path.siblings, w.path.index, index);
  }

  lemma {:induction false} FoldReadsLowBits(sha: Sha, dom: byte, cur: Hash, siblings: seq<Hash>, i: nat, j: nat)
    requires SameLowBits(i, j, |siblings|)
    ensures Fold(sha, dom, cur, siblings, i) == Fold(sha, dom, cur, siblings, j)
    decreases |siblings|
  {
    if siblings != [] {
      FoldReadsLowBits(sha, dom, Climb(sha, dom, cur, siblings[0], i), siblings[1..], i / 2, j / 2);
    }
  }
}
