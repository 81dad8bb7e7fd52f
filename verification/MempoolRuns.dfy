/** The pool over whole runs: admissions in any order, interleaved with blocks that move the
    chain and prune the pool. */
module MempoolRuns {
  import opened Machine
  import opened Admission

  // ---------------------------------------------------------------------------
  // One sender at a time
  // ---------------------------------------------------------------------------

  function QueueOf(q: seq<SignedTx>, s: Hash): seq<SignedTx> {
    if q == [] then []
    else QueueOf(q[..|q| - 1], s) + (if q[|q| - 1].sender == s then [q[|q| - 1]] else [])
  }

  /** The commitment the `i`-th queued key must open. */
  function Commitment(acc: Account, txs: seq<SignedTx>, i: nat): Hash
    requires i <= |txs|
  {
    if i == 0 then acc.authCommit else txs[i - 1].nextAuth
  }

  /** Nonces contiguous from the chain's in queue order, each key opening the commitment before
      it, every signature good. */
  predicate Ratcheted(env: Env, acc: Account, txs: seq<SignedTx>) {
    forall i :: 0 <= i < |txs| ==>
      && txs[i].nonce == acc.nonce + i
      && PkCommit(env, txs[i]) == Commitment(acc, txs, i)
      && Verifies(env, txs[i])
  }

  predicate SenderRatcheted(env: Env, chain: Chain, q: seq<SignedTx>, s: Hash) {
    QueueOf(q, s) != [] ==> s in chain.accounts && Ratcheted(env, chain.accounts[s], QueueOf(q, s))
  }

  lemma {:induction false} QueueOfMembers(q: seq<SignedTx>, s: Hash)
    ensures forall tx :: tx in QueueOf(q, s) <==> tx in q && tx.sender == s
  {
    if q != [] {
      QueueOfMembers(q[..|q| - 1], s);
      assert q == q[..|q| - 1] + [q[|q| - 1]];
    }
  }

  lemma QueueOfPush(q: seq<SignedTx>, tx: SignedTx, s: Hash)
    ensures QueueOf(q + [tx], s) == QueueOf(q, s) + (if tx.sender == s then [tx] else [])
  {
    assert (q + [tx])[..|q|] == q;
  }

  // ---------------------------------------------------------------------------
  // Admission
  // ---------------------------------------------------------------------------

  lemma AdmissionFacts(env: Env, p: Pool, chain: Chain, tx: SignedTx)
    requires Admissible(env, p, chain, tx)
    ensures tx.sender in chain.accounts && tx.nonce >= chain.accounts[tx.sender].nonce && SlotOf(tx) !in p.keys
    ensures Verifies(env, tx) && Expected(p, chain, tx) == Some(PkCommit(env, tx))
  {
    hide PkCommit, Verifies, Txid;
    assert !Fails(env, p, chain, tx, Sender) && !Fails(env, p, chain, tx, NotStale) && !Fails(env, p, chain, tx, FreeSlot);
    assert !Fails(env, p, chain, tx, Predecessor) && !Fails(env, p, chain, tx, KeyBinding);
    assert !Fails(env, p, chain, tx, Encodable) && !Fails(env, p, chain, tx, Signature);
  }

  lemma NothingIsRatcheted(env: Env, acc: Account)
    ensures Ratcheted(env, acc, [])
  {
  }

  lemma RatchetAt(env: Env, acc: Account, txs: seq<SignedTx>, i: nat)
    requires Ratcheted(env, acc, txs) && i < |txs|
    ensures txs[i].nonce == acc.nonce + i && PkCommit(env, txs[i]) == Commitment(acc, txs, i) && Verifies(env, txs[i])
  {
    hide PkCommit, Verifies;
  }

  /** The sender's queue ends just below an admitted transaction. */
  lemma QueueReaches(env: Env, p: Pool, acc: Account, tx: SignedTx)
    requires Exact(env, p) && Ratcheted(env, acc, QueueOf(p.q, tx.sender))
    requires tx.nonce >= acc.nonce && SlotOf(tx) !in p.keys
    ensures acc.nonce + |QueueOf(p.q, tx.sender)| <= tx.nonce
  {
    hide PkCommit, Verifies, QueueOf, Txid, Ratcheted, Commitment;
    var own := QueueOf(p.q, tx.sender);
    QueueOfMembers(p.q, tx.sender);
    var ahead := tx.nonce - acc.nonce;
    if ahead < |own| {
      assert own[ahead] in own && SlotOf(own[ahead]) in p.keys;
      RatchetAt(env, acc, own, ahead);
    }
  }

  /** An admitted transaction is the next one of its sender, under the next key. */
  lemma AdmittedIsNext(env: Env, p: Pool, chain: Chain, tx: SignedTx)
    requires Exact(env, p) && Admissible(env, p, chain, tx) && SenderRatcheted(env, chain, p.q, tx.sender)
    ensures tx.sender in chain.accounts && Verifies(env, tx)
    ensures var acc, own := chain.accounts[tx.sender], QueueOf(p.q, tx.sender);
            tx.nonce == acc.nonce + |own| && PkCommit(env, tx) == Commitment(acc, own, |own|)
  {
    hide PkCommit, Verifies, QueueOf, Txid, Admissible, Ratcheted, Exact;
    var own := QueueOf(p.q, tx.sender);
    AdmissionFacts(env, p, chain, tx);
    var acc := chain.accounts[tx.sender];
    NothingIsRatcheted(env, acc);
    QueueReaches(env, p, acc, tx);
    if tx.nonce > acc.nonce {
      QueueOfMembers(p.q, tx.sender);
      var below := SomeAtSlot(env, p, (tx.sender, tx.nonce - 1));
      var i :| 0 <= i < |own| && own[i] == below;
      RatchetAt(env, acc, own, i);
    }
  }

  lemma SomeAtSlot(env: Env, p: Pool, slot: Slot) returns (tx: SignedTx)
    requires Exact(env, p) && slot in p.keys
    ensures tx in p.q && SlotOf(tx) == slot && p.keys[slot] == tx.nextAuth
  {
    assert slot in Slots(p.q);
    tx :| tx in p.q && SlotOf(tx) == slot;
  }

  lemma AdmissionKeepsRatchet(env: Env, p: Pool, chain: Chain, tx: SignedTx, s: Hash)
    requires Exact(env, p) && Admissible(env, p, chain, tx) && SenderRatcheted(env, chain, p.q, s)
    ensures SenderRatcheted(env, chain, Enter(env, p, tx).q, s)
  {
    hide PkCommit, Verifies, QueueOf, Exact, Admissible, Txid;
    QueueOfPush(p.q, tx, s);
    if tx.sender == s {
      AdmittedIsNext(env, p, chain, tx);
      var own, longer := QueueOf(p.q, s), QueueOf(p.q + [tx], s);
      forall i | 0 <= i < |longer|
        ensures longer[i].nonce == chain.accounts[s].nonce + i
        ensures PkCommit(env, longer[i]) == Commitment(chain.accounts[s], longer, i) && Verifies(env, longer[i])
      {
        assert i < |own| ==> longer[i] == own[i];
        assert Commitment(chain.accounts[s], longer, i) == Commitment(chain.accounts[s], own, i);
      }
    }
  }

  // ---------------------------------------------------------------------------
  // Blocks
  // ---------------------------------------------------------------------------

  /** One transaction of a block, with the payload's verdict should its envelope open. */
  datatype Ran = Ran(tx: SignedTx, payloadOk: bool)

  type Block = seq<Ran>

  function BlockOf(block: Block, s: Hash): Block {
    if block == [] then []
    else BlockOf(block[..|block| - 1], s) + (if block[|block| - 1].tx.sender == s then [block[|block| - 1]] else [])
  }

  predicate Applies(env: Env, acc: Account, r: Ran) {
    Opens(env, acc, r.tx) && r.payloadOk
  }

  /** The account after some of its transactions: a refused one leaves it alone. */
  function Advance(env: Env, acc: Account, own: Block): Account {
    if own == [] then acc
    else
      var before := Advance(env, acc, own[..|own| - 1]);
      var r := own[|own| - 1];
      if Applies(env, before, r) then Account(r.tx.nonce + 1, r.tx.nextAuth) else before
  }

  /** `next` follows `chain` by `block`: known accounts move only by their own transactions;
      new accounts, channels and pools are free. */
  ghost predicate Follows(env: Env, chain: Chain, block: Block, next: Chain) {
    forall s :: s in chain.accounts ==> s in next.accounts && next.accounts[s] == Advance(env, chain.accounts[s], BlockOf(block, s))
  }

  /** Every included slot is pruned, applied or refused. */
  function Included(block: Block): set<Slot> {
    set r | r in block :: SlotOf(r.tx)
  }

  function NoncesOf(block: Block): set<nat> {
    set r | r in block :: r.tx.nonce
  }

  function Survivors(txs: seq<SignedTx>, gone: set<nat>): seq<SignedTx> {
    if txs == [] then []
    else Survivors(txs[..|txs| - 1], gone) + (if txs[|txs| - 1].nonce in gone then [] else [txs[|txs| - 1]])
  }

  lemma {:induction false} BlockOfMembers(block: Block, s: Hash)
    ensures forall r :: r in BlockOf(block, s) <==> r in block && r.tx.sender == s
  {
    if block != [] {
      BlockOfMembers(block[..|block| - 1], s);
      assert block == block[..|block| - 1] + [block[|block| - 1]];
    }
  }

  lemma {:induction false} KeptPush(q: seq<SignedTx>, tx: SignedTx, gone: set<Slot>)
    ensures Kept(q + [tx], gone) == Kept(q, gone) + (if SlotOf(tx) in gone then [] else [tx])
  {
    if q == [] {
      assert q + [tx] == [tx];
    } else {
      KeptPush(q[1..], tx, gone);
      assert (q + [tx])[1..] == q[1..] + [tx];
    }
  }

  lemma SurvivorsPush(txs: seq<SignedTx>, tx: SignedTx, gone: set<nat>)
    ensures Survivors(txs + [tx], gone) == Survivors(txs, gone) + (if tx.nonce in gone then [] else [tx])
  {
    assert (txs + [tx])[..|txs|] == txs;
  }

  /** Pruning commutes with looking at one sender. */
  lemma {:induction false} PrunedQueueOf(q: seq<SignedTx>, gone: set<Slot>, s: Hash, nonces: set<nat>)
    requires forall n: u64 :: (s, n) in gone <==> n in nonces
    ensures QueueOf(Kept(q, gone), s) == Survivors(QueueOf(q, s), nonces)
  {
    if q != [] {
      var init, last := q[..|q| - 1], q[|q| - 1];
      PrunedQueueOf(init, gone, s, nonces);
      PrunedPush(init, last, gone, s, nonces);
      assert q == init + [last];
    }
  }

  lemma PrunedPush(q: seq<SignedTx>, tx: SignedTx, gone: set<Slot>, s: Hash, nonces: set<nat>)
    requires (s, tx.nonce) in gone <==> tx.nonce in nonces
    requires QueueOf(Kept(q, gone), s) == Survivors(QueueOf(q, s), nonces)
    ensures QueueOf(Kept(q + [tx], gone), s) == Survivors(QueueOf(q + [tx], s), nonces)
  {
    hide QueueOf, Kept, Survivors;
    KeptPush(q, tx, gone);
    QueueOfPush(Kept(q, gone), tx, s);
    QueueOfPush(q, tx, s);
    SurvivorsPush(QueueOf(q, s), tx, nonces);
    assert Kept(q, gone) + [] == Kept(q, gone);
    assert Survivors(QueueOf(q, s), nonces) + [] == Survivors(QueueOf(q, s), nonces);
    assert QueueOf(q, s) + [] == QueueOf(q, s);
  }

  lemma BlockSlots(block: Block, s: Hash)
    ensures forall n: u64 :: (s, n) in Included(block) <==> n in NoncesOf(BlockOf(block, s))
  {
    BlockOfMembers(block, s);
    forall n: u64 ensures (s, n) in Included(block) <==> n in NoncesOf(BlockOf(block, s)) {
      if (s, n) in Included(block) {
        var r :| r in block && SlotOf(r.tx) == (s, n);
        assert r in BlockOf(block, s);
      }
      if n in NoncesOf(BlockOf(block, s)) {
        var r :| r in BlockOf(block, s) && r.tx.nonce == n;
        assert r in block;
      }
    }
  }

  // ---------------------------------------------------------------------------
  // When a block keeps a sender's ratchet
  // ---------------------------------------------------------------------------

  lemma {:induction false} AppliedNoncesAreCarried(env: Env, acc: Account, own: Block)
    ensures acc.nonce <= Advance(env, acc, own).nonce
    ensures forall n: nat :: acc.nonce <= n < Advance(env, acc, own).nonce ==> n in NoncesOf(own)
    ensures Advance(env, acc, own).nonce == acc.nonce ==> Advance(env, acc, own) == acc
  {
    hide Opens;
    if own != [] {
      var init, last := own[..|own| - 1], own[|own| - 1];
      AppliedNoncesAreCarried(env, acc, init);
      assert own == init + [last];
      var before := Advance(env, acc, init);
      if Applies(env, before, last) {
        AppliedAtItsNonce(env, before, last);
      }
      forall n: nat | acc.nonce <= n < Advance(env, acc, own).nonce ensures n in NoncesOf(own) {
        if n < before.nonce {
          assert n in NoncesOf(init);
        } else {
          assert n == last.tx.nonce && last in own;
        }
      }
    }
  }

  lemma AppliedAtItsNonce(env: Env, acc: Account, r: Ran)
    requires Applies(env, acc, r)
    ensures r.tx.nonce == acc.nonce
  {
  }

  /** No queued transaction that stays waits behind a slot that was pruned. */
  predicate NoHole(txs: seq<SignedTx>, applied: nat, gone: set<nat>) {
    forall i, j :: applied <= i < j < |txs| && txs[i].nonce in gone ==> txs[j].nonce in gone
  }

  /** The block is tidy for a sender: it covers the sender's whole queue, or it leaves no hole
      and the last transaction it applied committed to the queue's own next key. */
  predicate Tidy(env: Env, acc: Account, txs: seq<SignedTx>, own: Block) {
    var after := Advance(env, acc, own);
    var applied := if after.nonce >= acc.nonce then after.nonce - acc.nonce else 0;
    || (forall i :: 0 <= i < |txs| ==> txs[i].nonce in NoncesOf(own))
    || (applied < |txs| && NoHole(txs, applied, NoncesOf(own)) && after.authCommit == Commitment(acc, txs, applied))
  }

  lemma {:induction false} SurvivorsMembers(txs: seq<SignedTx>, gone: set<nat>)
    ensures forall tx :: tx in Survivors(txs, gone) <==> tx in txs && tx.nonce !in gone
  {
    if txs != [] {
      SurvivorsMembers(txs[..|txs| - 1], gone);
      assert txs == txs[..|txs| - 1] + [txs[|txs| - 1]];
    }
  }

  /** The survivors of a queue that loses a prefix and a suffix are the middle. */
  lemma {:induction false} SurvivorsAreMiddle(txs: seq<SignedTx>, gone: set<nat>, lo: nat, hi: nat)
    requires lo <= hi <= |txs|
    requires forall i :: 0 <= i < |txs| ==> (txs[i].nonce in gone <==> i < lo || i >= hi)
    ensures Survivors(txs, gone) == txs[lo..hi]
  {
    if txs != [] {
      var n := |txs| - 1;
      var init := txs[..n];
      if lo == |txs| {
        SurvivorsAreMiddle(init, gone, n, n);
      } else if hi == |txs| {
        SurvivorsAreMiddle(init, gone, lo, n);
        assert lo <= n ==> txs[lo..hi] == init[lo..n] + [txs[n]];
      } else {
        SurvivorsAreMiddle(init, gone, lo, hi);
        assert txs[lo..hi] == init[lo..hi];
      }
    }
  }

  /** The first index at or past `lo` whose nonce is pruned. */
  function FirstGone(txs: seq<SignedTx>, gone: set<nat>, lo: nat): (hi: nat)
    requires lo <= |txs|
    ensures lo <= hi <= |txs|
    ensures forall i :: lo <= i < hi ==> txs[i].nonce !in gone
    ensures hi < |txs| ==> txs[hi].nonce in gone
    decreases |txs| - lo
  {
    if lo == |txs| || txs[lo].nonce in gone then lo else FirstGone(txs, gone, lo + 1)
  }

  lemma TidyKeeps(env: Env, acc: Account, txs: seq<SignedTx>, own: Block)
    requires Ratcheted(env, acc, txs) && Tidy(env, acc, txs, own)
    ensures Ratcheted(env, Advance(env, acc, own), Survivors(txs, NoncesOf(own)))
  {
    hide Advance, Survivors, NoncesOf, PkCommit, Verifies, Ratcheted;
    var after, gone := Advance(env, acc, own), NoncesOf(own);
    AppliedNoncesAreCarried(env, acc, own);
    forall i | 0 <= i < |txs| ensures txs[i].nonce == acc.nonce + i {
      RatchetAt(env, acc, txs, i);
    }
    if forall i :: 0 <= i < |txs| ==> txs[i].nonce in gone {
      SurvivorsAreMiddle(txs, gone, |txs|, |txs|);
      NothingIsRatcheted(env, after);
    } else {
      var lo := after.nonce - acc.nonce;
      var hi := FirstGone(txs, gone, lo);
      SurvivorsAreMiddle(txs, gone, lo, hi);
      MiddleRatcheted(env, acc, txs, after, lo, hi);
    }
  }

  lemma MiddleRatcheted(env: Env, acc: Account, txs: seq<SignedTx>, after: Account, lo: nat, hi: nat)
    requires Ratcheted(env, acc, txs) && lo <= hi <= |txs|
    requires after == Account(acc.nonce + lo, Commitment(acc, txs, lo))
    ensures Ratcheted(env, after, txs[lo..hi])
  {
    hide PkCommit, Verifies;
    var mid := txs[lo..hi];
    hide Ratcheted;
    forall i | 0 <= i < |mid|
      ensures mid[i].nonce == after.nonce + i && PkCommit(env, mid[i]) == Commitment(after, mid, i) && Verifies(env, mid[i])
    {
      RatchetAt(env, acc, txs, lo + i);
      assert mid[i] == txs[lo + i];
      assert i > 0 ==> mid[i - 1] == txs[lo + i - 1];
    }
  }

  lemma KeptOnlyIfTidy(env: Env, acc: Account, txs: seq<SignedTx>, own: Block)
    requires Ratcheted(env, acc, txs) && Ratcheted(env, Advance(env, acc, own), Survivors(txs, NoncesOf(own)))
    ensures Tidy(env, acc, txs, own)
  {
    hide Advance, Survivors, NoncesOf, PkCommit, Verifies, Ratcheted, NoHole;
    var after, gone := Advance(env, acc, own), NoncesOf(own);
    var left := Survivors(txs, gone);
    AppliedNoncesAreCarried(env, acc, own);
    SurvivorsMembers(txs, gone);
    if j :| 0 <= j < |txs| && txs[j].nonce !in gone {
      assert txs[j] in left;
      var applied := after.nonce - acc.nonce;
      var first := IndexOf(txs, left[0]);
      RatchetAt(env, after, left, 0);
      RatchetAt(env, acc, txs, first);
      NoHoleIfKept(env, acc, txs, after, gone);
    }
  }

  lemma IndexOf(txs: seq<SignedTx>, tx: SignedTx) returns (i: nat)
    requires tx in txs
    ensures i < |txs| && txs[i] == tx
  {
    i :| 0 <= i < |txs| && txs[i] == tx;
  }

  lemma NoHoleIfKept(env: Env, acc: Account, txs: seq<SignedTx>, after: Account, gone: set<nat>)
    requires Ratcheted(env, acc, txs) && Ratcheted(env, after, Survivors(txs, gone)) && acc.nonce <= after.nonce
    ensures NoHole(txs, after.nonce - acc.nonce, gone)
  {
    hide Survivors, PkCommit, Verifies, Ratcheted;
    var left, applied := Survivors(txs, gone), after.nonce - acc.nonce;
    SurvivorsMembers(txs, gone);
    assert forall m :: 0 <= m < |left| ==> left[m] in left;
    assert forall m :: 0 <= m < |left| ==> left[m].nonce !in gone;
    forall i, k | applied <= i < k < |txs| && txs[i].nonce in gone ensures txs[k].nonce in gone {
      if txs[k].nonce !in gone {
        var m := IndexOf(left, txs[k]);
        RatchetAt(env, acc, txs, i);
        RatchetAt(env, acc, txs, k);
        RatchetAt(env, after, left, m);
        RatchetAt(env, after, left, i - applied);
      }
    }
  }

  /** A block keeps a sender's pending transactions ratcheted exactly when it is tidy for that
      sender; what it holds of other senders does not matter. */
  lemma BlockKeepsRatchetIff(env: Env, acc: Account, txs: seq<SignedTx>, own: Block)
    requires Ratcheted(env, acc, txs)
    ensures Ratcheted(env, Advance(env, acc, own), Survivors(txs, NoncesOf(own))) <==> Tidy(env, acc, txs, own)
  {
    hide *;
    if Tidy(env, acc, txs, own) {
      TidyKeeps(env, acc, txs, own);
    } else if Ratcheted(env, Advance(env, acc, own), Survivors(txs, NoncesOf(own))) {
      KeptOnlyIfTidy(env, acc, txs, own);
    }
  }

  /** The honest proposer's block is tidy: it carries the head of the sender's queue in order
      and every payload passes. */
  lemma HeadOfQueueIsTidy(env: Env, acc: Account, txs: seq<SignedTx>, own: Block)
    requires Ratcheted(env, acc, txs) && |own| <= |txs|
    requires forall i :: 0 <= i < |own| ==> own[i] == Ran(txs[i], true)
    ensures Advance(env, acc, own) == Account(acc.nonce + |own|, Commitment(acc, txs, |own|))
    ensures Tidy(env, acc, txs, own)
  {
    hide PkCommit, Verifies, Ratcheted, Advance, NoncesOf;
    HeadOfQueueApplies(env, acc, txs, own);
    HeadNonces(env, acc, txs, own);
  }

  lemma HeadNonces(env: Env, acc: Account, txs: seq<SignedTx>, own: Block)
    requires Ratcheted(env, acc, txs) && |own| <= |txs|
    requires forall i :: 0 <= i < |own| ==> own[i].tx == txs[i]
    ensures forall i :: 0 <= i < |txs| ==> (txs[i].nonce in NoncesOf(own) <==> i < |own|)
  {
    hide PkCommit, Verifies;
    forall i | 0 <= i < |txs| ensures txs[i].nonce in NoncesOf(own) <==> i < |own| {
      if i < |own| {
        assert own[i] in own;
      } else {
        forall r | r in own ensures r.tx.nonce != txs[i].nonce {
          var k :| 0 <= k < |own| && own[k] == r;
          assert own[k].tx == txs[k];
        }
      }
    }
  }

  lemma {:induction false} HeadOfQueueApplies(env: Env, acc: Account, txs: seq<SignedTx>, own: Block)
    requires Ratcheted(env, acc, txs) && |own| <= |txs|
    requires forall i :: 0 <= i < |own| ==> own[i] == Ran(txs[i], true)
    ensures Advance(env, acc, own) == Account(acc.nonce + |own|, Commitment(acc, txs, |own|))
  {
    hide PkCommit, Verifies;
    if own != [] {
      var n := |own| - 1;
      HeadOfQueueApplies(env, acc, txs, own[..n]);
      assert own[n].tx == txs[n];
    }
  }

  /** A refused payload whose successor stays pending is not tidy: the successor keeps a slot
      it can never apply from until its predecessor's nonce is filled again. */
  lemma RefusedHeadStrandsSuccessor(env: Env, acc: Account, first: SignedTx, second: SignedTx)
    requires Ratcheted(env, acc, [first, second])
    ensures var own := [Ran(first, false)];
            && Survivors([first, second], NoncesOf(own)) == [second]
            && Advance(env, acc, own) == acc
            && !Opens(env, acc, second) && !Tidy(env, acc, [first, second], own)
  {
    hide PkCommit, Verifies;
    var txs, own := [first, second], [Ran(first, false)];
    assert txs[0].nonce == acc.nonce && txs[1].nonce == acc.nonce + 1;
    assert own[..0] == [];
    assert Ran(first, false) in own;
    assert NoncesOf(own) == {first.nonce};
    SurvivorsAreMiddle(txs, NoncesOf(own), 1, 2);
    assert txs[1..2] == [second];
    assert txs[0].nonce in NoncesOf(own) && txs[1].nonce !in NoncesOf(own);
  }

  // ---------------------------------------------------------------------------
  // Runs
  // ---------------------------------------------------------------------------

  datatype Node = Node(pool: Pool, chain: Chain)

  datatype Op = Admit(tx: SignedTx) | Commit(block: Block, next: Chain)

  ghost function Step(env: Env, n: Node, op: Op): Node {
    match op
    case Admit(tx) => if Admissible(env, n.pool, n.chain, tx) then n.(pool := Enter(env, n.pool, tx)) else n
    case Commit(block, next) => Node(Prune(env, n.pool, Included(block)), next)
  }

  ghost function Run(env: Env, n: Node, ops: seq<Op>): Node
    decreases |ops|
  {
    if ops == [] then n else Run(env, Step(env, n, ops[0]), ops[1..])
  }

  /** Every block of the run moves the chain by its own transactions. */
  ghost predicate Lawful(env: Env, n: Node, ops: seq<Op>)
    decreases |ops|
  {
    ops != [] ==>
      && (ops[0].Commit? ==> Follows(env, n.chain, ops[0].block, ops[0].next))
      && Lawful(env, Step(env, n, ops[0]), ops[1..])
  }

  ghost predicate TidyBlock(env: Env, n: Node, block: Block, s: Hash) {
    s in n.chain.accounts ==> Tidy(env, n.chain.accounts[s], QueueOf(n.pool.q, s), BlockOf(block, s))
  }

  /** Every block of the run is tidy for one sender. */
  ghost predicate TidyFor(env: Env, n: Node, ops: seq<Op>, s: Hash)
    decreases |ops|
  {
    ops != [] ==>
      && (ops[0].Commit? && QueueOf(n.pool.q, s) != [] ==> TidyBlock(env, n, ops[0].block, s))
      && TidyFor(env, Step(env, n, ops[0]), ops[1..], s)
  }

  lemma StepKeepsIndexed(env: Env, n: Node, op: Op)
    requires Indexed(env, n.pool)
    ensures Indexed(env, Step(env, n, op).pool)
  {
    hide Indexed, Admissible;
    match op {
      case Admit(tx) =>
        if Admissible(env, n.pool, n.chain, tx) {
          EnterKeepsIndexed(env, n.pool, n.chain, tx);
        }
      case Commit(block, next) =>
        PruneKeepsIndexed(env, n.pool, Included(block));
    }
  }

  /** In every run the indexes are exactly the images of the queue, nothing is queued twice
      and the cap holds, whatever the blocks contain. */
  lemma {:induction false} RunIndexed(env: Env, n: Node, ops: seq<Op>)
    requires Indexed(env, n.pool)
    ensures Indexed(env, Run(env, n, ops).pool)
    decreases |ops|
  {
    hide Indexed, Step;
    if ops != [] {
      StepKeepsIndexed(env, n, ops[0]);
      RunIndexed(env, Step(env, n, ops[0]), ops[1..]);
    }
  }

  /** One block keeps one sender's ratchet exactly when it is tidy for that sender. */
  lemma CommitKeepsSenderIff(env: Env, n: Node, block: Block, next: Chain, s: Hash)
    requires Follows(env, n.chain, block, next) && SenderRatcheted(env, n.chain, n.pool.q, s)
    requires QueueOf(n.pool.q, s) != []
    ensures SenderRatcheted(env, next, Prune(env, n.pool, Included(block)).q, s)
       <==> Tidy(env, n.chain.accounts[s], QueueOf(n.pool.q, s), BlockOf(block, s))
  {
    hide Advance, Included, NoncesOf, BlockOf, QueueOf, Tidy, Ratcheted, Kept, Dropped, Ids, Slots, Nullifiers;
    var own, acc := BlockOf(block, s), n.chain.accounts[s];
    BlockSlots(block, s);
    PrunedQueueOf(n.pool.q, Included(block), s, NoncesOf(own));
    BlockKeepsRatchetIff(env, acc, QueueOf(n.pool.q, s), own);
    NothingIsRatcheted(env, Advance(env, acc, own));
  }

  lemma EmptyStaysEmpty(env: Env, n: Node, block: Block, s: Hash)
    requires QueueOf(n.pool.q, s) == []
    ensures QueueOf(Prune(env, n.pool, Included(block)).q, s) == []
  {
    hide Included, NoncesOf, BlockOf, QueueOf, Kept, Dropped, Ids, Slots, Nullifiers;
    BlockSlots(block, s);
    PrunedQueueOf(n.pool.q, Included(block), s, NoncesOf(BlockOf(block, s)));
    assert Survivors([], NoncesOf(BlockOf(block, s))) == [];
  }

  /** A step keeps a sender's ratchet exactly when it is no block untidy for that sender. */
  lemma StepKeepsRatchetIff(env: Env, n: Node, op: Op, s: Hash)
    requires Indexed(env, n.pool) && SenderRatcheted(env, n.chain, n.pool.q, s)
    requires op.Commit? ==> Follows(env, n.chain, op.block, op.next)
    ensures var next := Step(env, n, op);
            SenderRatcheted(env, next.chain, next.pool.q, s)
            <==> (op.Commit? && QueueOf(n.pool.q, s) != [] ==> TidyBlock(env, n, op.block, s))
  {
    hide Exact, Distinct, Admissible, Tidy, Follows, Prune, Enter, QueueOf, BlockOf, Ratcheted, Included;
    match op {
      case Admit(tx) =>
        if Admissible(env, n.pool, n.chain, tx) {
          AdmissionKeepsRatchet(env, n.pool, n.chain, tx, s);
        }
      case Commit(block, next) =>
        if QueueOf(n.pool.q, s) == [] {
          EmptyStaysEmpty(env, n, block, s);
        } else {
          CommitKeepsSenderIff(env, n, block, next, s);
        }
    }
  }

  ghost predicate RatchetedAfter(env: Env, n: Node, ops: seq<Op>, s: Hash, k: nat)
    requires k <= |ops|
  {
    var end := Run(env, n, ops[..k]);
    SenderRatcheted(env, end.chain, end.pool.q, s)
  }

  lemma PrefixRun(env: Env, n: Node, ops: seq<Op>, k: nat)
    requires k <= |ops|
    ensures k == 0 ==> Run(env, n, ops[..k]) == n
    ensures k > 0 ==> Run(env, n, ops[..k]) == Run(env, Step(env, n, ops[0]), ops[1..][..k - 1])
  {
    hide Step;
    if k > 0 {
      assert ops[..k][0] == ops[0] && ops[..k][1..] == ops[1..][..k - 1];
    }
  }

  /** In every run a sender's queue is ratcheted onto the chain at every moment if and only if
      every block is tidy for that one sender; nothing others submit can break it. */
  lemma {:induction false} RatchetedThroughoutIff(env: Env, n: Node, ops: seq<Op>, s: Hash)
    requires Indexed(env, n.pool) && SenderRatcheted(env, n.chain, n.pool.q, s) && Lawful(env, n, ops)
    ensures (forall k: nat :: k <= |ops| ==> RatchetedAfter(env, n, ops, s, k)) <==> TidyFor(env, n, ops, s)
    decreases |ops|
  {
    hide Indexed, SenderRatcheted, TidyBlock, Follows, QueueOf, Step, Run;
    PrefixRun(env, n, ops, 0);
    if ops != [] {
      var mid, rest := Step(env, n, ops[0]), ops[1..];
      StepKeepsIndexed(env, n, ops[0]);
      StepKeepsRatchetIff(env, n, ops[0], s);
      forall k: nat | k <= |rest| ensures RatchetedAfter(env, n, ops, s, k + 1) <==> RatchetedAfter(env, mid, rest, s, k) {
        PrefixRun(env, n, ops, k + 1);
      }
      PrefixRun(env, mid, rest, 0);
      assert RatchetedAfter(env, n, ops, s, 1) <==> RatchetedAfter(env, mid, rest, s, 0);
      if SenderRatcheted(env, mid.chain, mid.pool.q, s) {
        RatchetedThroughoutIff(env, mid, rest, s);
        forall k: nat | k <= |ops| && TidyFor(env, mid, rest, s) ensures RatchetedAfter(env, n, ops, s, k) {
          assert k > 0 ==> RatchetedAfter(env, mid, rest, s, k - 1);
        }
      }
    }
  }

  /** Hence at the end of every run whose blocks are tidy for the sender. */
  lemma RunKeepsRatchet(env: Env, n: Node, ops: seq<Op>, s: Hash)
    requires Indexed(env, n.pool) && SenderRatcheted(env, n.chain, n.pool.q, s)
    requires Lawful(env, n, ops) && TidyFor(env, n, ops, s)
    ensures var end := Run(env, n, ops); SenderRatcheted(env, end.chain, end.pool.q, s)
  {
    hide Indexed, SenderRatcheted, TidyFor, Lawful, Run;
    RatchetedThroughoutIff(env, n, ops, s);
    assert RatchetedAfter(env, n, ops, s, |ops|);
    assert ops[..|ops|] == ops;
  }

  // ---------------------------------------------------------------------------
  // Proposing the queue
  // ---------------------------------------------------------------------------

  /** Whether the `i`-th transaction of a block finds its envelope in order when reached. */
  predicate EnvelopeAccepted(env: Env, chain: Chain, block: Block, i: nat)
    requires i < |block|
  {
    var s := block[i].tx.sender;
    s in chain.accounts && Opens(env, Advance(env, chain.accounts[s], BlockOf(block[..i], s)), block[i].tx)
  }

  /** A block that proposes the queue in order. */
  predicate Proposes(block: Block, q: seq<SignedTx>) {
    |block| <= |q| && forall i :: 0 <= i < |block| ==> block[i].tx == q[i]
  }

  predicate AllOk(own: Block) {
    forall i :: 0 <= i < |own| ==> own[i].payloadOk
  }

  lemma {:induction false} BlockOfProposes(block: Block, q: seq<SignedTx>, s: Hash)
    requires Proposes(block, q)
    ensures Proposes(BlockOf(block, s), QueueOf(q[..|block|], s)) && |BlockOf(block, s)| == |QueueOf(q[..|block|], s)|
  {
    if block != [] {
      var n := |block| - 1;
      BlockOfProposes(block[..n], q, s);
      assert q[..n + 1][..n] == q[..n];
      assert block[n].tx == q[n];
    }
  }

  lemma {:induction false} QueueOfPrefix(q: seq<SignedTx>, i: nat, s: Hash)
    requires i <= |q|
    ensures |QueueOf(q[..i], s)| <= |QueueOf(q, s)|
    ensures QueueOf(q[..i], s) == QueueOf(q, s)[..|QueueOf(q[..i], s)|]
    ensures i < |q| && q[i].sender == s ==> |QueueOf(q[..i], s)| < |QueueOf(q, s)| && QueueOf(q, s)[|QueueOf(q[..i], s)|] == q[i]
    decreases |q| - i
  {
    if i == |q| {
      assert q[..i] == q;
    } else {
      QueueOfPrefix(q, i + 1, s);
      QueueOfPush(q[..i], q[i], s);
      assert q[..i + 1] == q[..i] + [q[i]];
    }
  }

  /** A sender's queue applied in order: it advances one nonce a step until a payload is
      refused, and never again afterwards. */
  lemma {:induction false} QueueAdvances(env: Env, acc: Account, txs: seq<SignedTx>, own: Block)
    requires Ratcheted(env, acc, txs) && Proposes(own, txs)
    ensures AllOk(own) ==> Advance(env, acc, own) == Account(acc.nonce + |own|, Commitment(acc, txs, |own|))
    ensures !AllOk(own) ==> Advance(env, acc, own).nonce < acc.nonce + |own|
  {
    hide PkCommit, Verifies;
    if own != [] {
      var n := |own| - 1;
      QueueAdvances(env, acc, txs, own[..n]);
      assert own[n].tx == txs[n];
      assert AllOk(own) <==> AllOk(own[..n]) && own[n].payloadOk;
    }
  }

  /** When the queue is proposed in order, the envelope of each transaction is accepted exactly
      when no earlier payload of the same sender was refused: with no refusal, all are. */
  lemma FifoAccepts(env: Env, chain: Chain, q: seq<SignedTx>, block: Block, i: nat)
    requires Proposes(block, q) && i < |block| && SenderRatcheted(env, chain, q, q[i].sender)
    ensures EnvelopeAccepted(env, chain, block, i)
       <==> forall j :: 0 <= j < i && block[j].tx.sender == block[i].tx.sender ==> block[j].payloadOk
  {
    hide PkCommit, Verifies, Advance, QueueOf, BlockOf;
    var s := q[i].sender;
    var head := block[..i];
    QueueOfPrefix(q, i, s);
    BlockOfProposes(head, q, s);
    var own, txs := BlockOf(head, s), QueueOf(q, s);
    assert Proposes(own, txs);
    QueueAdvances(env, chain.accounts[s], txs, own);
    BlockOfMembers(head, s);
    assert AllOk(own) <==> forall r :: r in own ==> r.payloadOk;
    assert forall j :: 0 <= j < i ==> head[j] in head;
    assert txs[|own|] == q[i];
  }
}
