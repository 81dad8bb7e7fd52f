/** PayWord channels: a payment is one preimage of a hash chain. */
module PayWord {
  import opened Machine
  import opened SignBytes
  import opened Hashing

  const DOM_PAYWORD_SEED: Bytes := Ascii("hk/v1/payword-seed")
  const DOM_PAYWORD_LINK: Bytes := Ascii("hk/v1/payword-link")

  function LinkInput(w: Hash): Bytes {
    Framed(DOM_PAYWORD_LINK, [w])
  }

  function Link(xof: Xof, w: Hash): Hash {
    xof(LinkInput(w))
  }

  function Links(xof: Xof, w: Hash, k: nat): Hash
    decreases k
  {
    if k == 0 then w else Links(xof, Link(xof, w), k - 1)
  }

  method HashForward(xof: Xof, w: Hash, k: nat) returns (cur: Hash)
    ensures cur == Links(xof, w, k)
  {
    cur := w;
    for i := 0 to k
      invariant Links(xof, cur, k - i) == Links(xof, w, k)
    {
      cur := Link(xof, cur);
    }
  }

  lemma {:induction false} LinksCompose(xof: Xof, w: Hash, a: nat, b: nat)
    ensures Links(xof, Links(xof, w, a), b) == Links(xof, w, a + b)
    decreases a
  {
    if a > 0 {
      LinksCompose(xof, Link(xof, w), a - 1, b);
    }
  }

  // ---------------------------------------------------------------------------
  // The payer's chain
  // ---------------------------------------------------------------------------

  /** Each word links to the one before it. */
  predicate IsChain(xof: Xof, words: seq<Hash>) {
    words != [] && forall i :: 0 <= i < |words| - 1 ==> words[i] == Link(xof, words[i + 1])
  }

  method Mint(xof: Xof, seed: Sized, context: Sized, n: u32) returns (words: array<Hash>)
    requires 0 < n < U32_MAX
    ensures fresh(words) && words.Length == n + 1
    ensures IsChain(xof, words[..])
    ensures words[n] == Shake(xof, DOM_PAYWORD_SEED, [seed, context, LittleEndian(n, 4)])
  {
    words := new Hash[n + 1](_ => Repeat(0, 32));
    words[n] := Shake(xof, DOM_PAYWORD_SEED, [seed, context, LittleEndian(n, 4)]);
    for i := n downto 0
      invariant words[n] == Shake(xof, DOM_PAYWORD_SEED, [seed, context, LittleEndian(n, 4)])
      invariant forall k :: i <= k < n ==> words[k] == Link(xof, words[k + 1])
    {
      words[i] := Link(xof, words[i + 1]);
    }
  }

  lemma {:induction false} WordsLinkDown(xof: Xof, words: seq<Hash>, j: nat, k: nat)
    requires IsChain(xof, words) && j <= k < |words|
    ensures Links(xof, words[k], k - j) == words[j]
    decreases k - j
  {
    if j < k {
      WordsLinkDown(xof, words, j, k - 1);
    }
  }

  // ---------------------------------------------------------------------------
  // The merchant's verifier
  // ---------------------------------------------------------------------------

  datatype VerifierState = VerifierState(lastWord: Hash, lastStep: u32, maxSteps: u32)

  function NewVerifier(tip: Hash, maxSteps: u32): VerifierState {
    VerifierState(tip, 0, maxSteps)
  }

  /** A claim for step `k` with word `w`: the steps newly paid, or a refusal. */
  function AcceptResult(xof: Xof, v: VerifierState, k: u32, w: Hash): Option<u32> {
    if k <= v.lastStep || k > v.maxSteps then None
    else if Links(xof, w, k - v.lastStep) != v.lastWord then None
    else Some(k - v.lastStep)
  }

  function AcceptEffect(xof: Xof, v: VerifierState, k: u32, w: Hash): VerifierState {
    if AcceptResult(xof, v, k, w).Some? then VerifierState(w, k, v.maxSteps) else v
  }

  class PaywordVerifier {
    var lastWord: Hash
    var lastStep: u32
    const maxSteps: u32

    constructor (tip: Hash, maxSteps: u32)
      ensures Value() == NewVerifier(tip, maxSteps)
    {
      this.lastWord, this.lastStep, this.maxSteps := tip, 0, maxSteps;
    }

    function Value(): VerifierState
      reads this
    {
      VerifierState(lastWord, lastStep, maxSteps)
    }

    method Accept(xof: Xof, k: u32, w: Hash) returns (newly: Option<u32>)
      modifies this
      ensures newly == AcceptResult(xof, old(Value()), k, w)
      ensures Value() == AcceptEffect(xof, old(Value()), k, w)
    {
      if k <= lastStep || k > maxSteps {
        return None;
      }
      var cur := HashForward(xof, w, k - lastStep);
      if cur != lastWord {
        return None;
      }
      newly := Some(k - lastStep);
      lastWord := w;
      lastStep := k;
    }
  }

  predicate Settles(xof: Xof, tip: Hash, word: Hash, step: u32) {
    if step == 0 then word == tip else Links(xof, word, step) == tip
  }

  method VerifySettlement(xof: Xof, tip: Hash, word: Hash, step: u32) returns (ok: bool)
    ensures ok == Settles(xof, tip, word, step)
  {
    if step == 0 {
      return word == tip;
    }
    var cur := HashForward(xof, word, step);
    return cur == tip;
  }

  // ---------------------------------------------------------------------------
  // Whole runs of claims
  // ---------------------------------------------------------------------------

  type Claims = seq<(u32, Hash)>

  function RunClaims(xof: Xof, v: VerifierState, claims: Claims): VerifierState
    decreases |claims|
  {
    if claims == [] then v else RunClaims(xof, AcceptEffect(xof, v, claims[0].0, claims[0].1), claims[1..])
  }

  /** The sum of the increments a run returned. */
  function Paid(xof: Xof, v: VerifierState, claims: Claims): nat
    decreases |claims|
  {
    if claims == [] then 0
    else
      (match AcceptResult(xof, v, claims[0].0, claims[0].1) case None => 0 case Some(n) => n)
      + Paid(xof, AcceptEffect(xof, v, claims[0].0, claims[0].1), claims[1..])
  }

  lemma AcceptKeepsSettlement(xof: Xof, tip: Hash, v: VerifierState, k: u32, w: Hash)
    requires Settles(xof, tip, v.lastWord, v.lastStep) && v.lastStep <= v.maxSteps
    ensures var v' := AcceptEffect(xof, v, k, w);
            Settles(xof, tip, v'.lastWord, v'.lastStep) && v.lastStep <= v'.lastStep <= v'.maxSteps == v.maxSteps
  {
    if AcceptResult(xof, v, k, w).Some? {
      LinksCompose(xof, w, k - v.lastStep, v.lastStep);
    }
  }

  lemma {:induction false} ClaimAlwaysSettlesFrom(xof: Xof, tip: Hash, v: VerifierState, claims: Claims)
    requires Settles(xof, tip, v.lastWord, v.lastStep) && v.lastStep <= v.maxSteps
    ensures var end := RunClaims(xof, v, claims);
            && Settles(xof, tip, end.lastWord, end.lastStep)
            && end.lastStep == v.lastStep + Paid(xof, v, claims)
            && end.lastStep <= end.maxSteps == v.maxSteps
    decreases |claims|
  {
    if claims != [] {
      AcceptKeepsSettlement(xof, tip, v, claims[0].0, claims[0].1);
      ClaimAlwaysSettlesFrom(xof, tip, AcceptEffect(xof, v, claims[0].0, claims[0].1), claims[1..]);
    }
  }

  /** After any sequence of claims, honest or not, accepted or refused: what the merchant
      holds passes the on-chain settlement check, it is worth exactly the increments handed
      out, and it never exceeds the channel's cap. */
  lemma ClaimAlwaysSettles(xof: Xof, tip: Hash, maxSteps: u32, claims: Claims)
    ensures var end := RunClaims(xof, NewVerifier(tip, maxSteps), claims);
            && Settles(xof, tip, end.lastWord, end.lastStep)
            && end.lastStep == Paid(xof, NewVerifier(tip, maxSteps), claims)
            && end.lastStep <= maxSteps
  {
    ClaimAlwaysSettlesFrom(xof, tip, NewVerifier(tip, maxSteps), claims);
  }

  /** The verifier stands on the payer's own chain. */
  predicate OnChain(words: seq<Hash>, v: VerifierState) {
    v.lastStep < |words| && v.maxSteps < |words| && v.lastWord == words[v.lastStep]
  }

  predicate HonestClaims(words: seq<Hash>, claims: Claims) {
    forall i :: 0 <= i < |claims| ==> claims[i].0 < |words| && claims[i].1 == words[claims[i].0]
  }

  /** The highest step an honest run claims within the cap. */
  function Highest(claims: Claims, floor: u32, cap: u32): u32 {
    if claims == [] then floor
    else Highest(claims[1..], if floor < claims[0].0 <= cap then claims[0].0 else floor, cap)
  }

  lemma HonestWordAccepted(xof: Xof, words: seq<Hash>, v: VerifierState, k: u32)
    requires IsChain(xof, words) && OnChain(words, v) && k < |words|
    ensures AcceptResult(xof, v, k, words[k]) == if v.lastStep < k <= v.maxSteps then Some(k - v.lastStep) else None
    ensures OnChain(words, AcceptEffect(xof, v, k, words[k]))
  {
    if v.lastStep < k {
      WordsLinkDown(xof, words, v.lastStep, k);
    }
  }

  /** Any run of honest payments, in any order, with repeats, regressions and skips of any
      size, ends at the highest step paid, standing on the payer's chain: no honest later
      word is ever refused. */
  lemma {:induction false} HonestRunReachesHighest(xof: Xof, words: seq<Hash>, v: VerifierState, claims: Claims)
    requires IsChain(xof, words) && OnChain(words, v) && HonestClaims(words, claims)
    ensures OnChain(words, RunClaims(xof, v, claims))
    ensures RunClaims(xof, v, claims).lastStep == Highest(claims, v.lastStep, v.maxSteps)
    decreases |claims|
  {
    if claims != [] {
      HonestWordAccepted(xof, words, v, claims[0].0);
      assert HonestClaims(words, claims[1..]) by {
        assert forall i :: 0 <= i < |claims[1..]| ==> claims[1..][i] == claims[i + 1];
      }
      HonestRunReachesHighest(xof, words, AcceptEffect(xof, v, claims[0].0, claims[0].1), claims[1..]);
    }
  }

  // ---------------------------------------------------------------------------
  // The cap is cryptographic
  // ---------------------------------------------------------------------------

  ghost function LinkInputs(xof: Xof, w: Hash, k: nat): iset<Bytes>
    decreases k
  {
    if k == 0 then iset{} else iset{LinkInput(w)} + LinkInputs(xof, Link(xof, w), k - 1)
  }

  lemma DomainNonzero()
    ensures forall i :: 0 <= i < |DOM_PAYWORD_LINK| ==> DOM_PAYWORD_LINK[i] != 0
  {
  }

  lemma {:induction false} LinksInjective(xof: Xof, a: Hash, b: Hash, k: nat, inputs: iset<Bytes>)
    requires NoCollision(xof, inputs)
    requires LinkInputs(xof, a, k) <= inputs && LinkInputs(xof, b, k) <= inputs
    requires Links(xof, a, k) == Links(xof, b, k)
    ensures a == b
    decreases k
  {
    if k > 0 {
      LinksInjective(xof, Link(xof, a), Link(xof, b), k - 1, inputs);
      assert LinkInput(a) in inputs && LinkInput(b) in inputs;
      DomainNonzero();
      FramingDecides(DOM_PAYWORD_LINK, [a], DOM_PAYWORD_LINK, [b]);
      assert [a][0] == [b][0];
    }
  }

  /** A settlement for a step of a minted channel can only be made with the payer's own word
      for that step, unless the links collide: nobody but the payer can move the claim. */
  lemma OnlyThePayersWordSettles(xof: Xof, words: seq<Hash>, word: Hash, step: u32)
    requires IsChain(xof, words) && step < |words|
    requires Settles(xof, words[0], word, step)
    requires NoCollision(xof, LinkInputs(xof, word, step) + LinkInputs(xof, words[step], step))
    ensures word == words[step]
  {
    WordsLinkDown(xof, words, 0, step);
    if step > 0 {
      LinksInjective(xof, word, words[step], step, LinkInputs(xof, word, step) + LinkInputs(xof, words[step], step));
    }
  }
}
