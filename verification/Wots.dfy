/** One-time Winternitz signatures (w = 16) over an arbitrary 32-byte hash, which every
    member takes as a parameter. */
module Wots {
  import opened Machine

  type Sha = Bytes -> Hash

  const DOM_PKD: byte := 3
  const DOM_OTS: byte := 5
  const DOM_SK: byte := 6

  const MSG_DIGITS: nat := 64
  const CSUM_DIGITS: nat := 3
  const CHAINS: nat := 67
  const W: nat := 16

  // ---------------------------------------------------------------------------
  // Digits
  // ---------------------------------------------------------------------------

  /** Message digit `i`: the nibbles of the message, high one first. */
  function Nibble(msg: Hash, i: nat): (d: nat)
    requires i < MSG_DIGITS
    ensures d < W
  {
    if i % 2 == 0 then msg[i / 2] / 16 else msg[i / 2] % 16
  }

  function ChecksumTo(msg: Hash, k: nat): (c: nat)
    requires k <= MSG_DIGITS
    ensures c <= 15 * k
  {
    if k == 0 then 0 else ChecksumTo(msg, k - 1) + (W - 1 - Nibble(msg, k - 1))
  }

  function Checksum(msg: Hash): (c: nat)
    ensures c <= 960
  {
    ChecksumTo(msg, MSG_DIGITS)
  }

  function Digit(msg: Hash, i: nat): (d: nat)
    requires i < CHAINS
    ensures d < W
  {
    if i < MSG_DIGITS then Nibble(msg, i)
    else if i == MSG_DIGITS then Checksum(msg) / 256 % 16
    else if i == MSG_DIGITS + 1 then Checksum(msg) / 16 % 16
    else Checksum(msg) % 16
  }

  function Digits(msg: Hash): (d: seq<nat>)
    ensures |d| == CHAINS && forall i :: 0 <= i < CHAINS ==> d[i] == Digit(msg, i)
  {
    seq(CHAINS, i requires 0 <= i < CHAINS => Digit(msg, i))
  }

  /** All 67 digits, filled in place: two nibbles a byte, then the checksum in three. */
  method WotsDigits(msg: Hash) returns (d: array<nat>)
    ensures fresh(d) && d[..] == Digits(msg)
  {
    d := new nat[CHAINS];
    for i := 0 to 32
      invariant forall k :: 0 <= k < 2 * i ==> d[k] == Nibble(msg, k)
    {
      d[2 * i] := msg[i] / 16;
      d[2 * i + 1] := msg[i] % 16;
      assert Nibble(msg, 2 * i) == msg[i] / 16 && Nibble(msg, 2 * i + 1) == msg[i] % 16;
    }
    var csum: nat := 0;
    for i := 0 to MSG_DIGITS
      invariant csum == ChecksumTo(msg, i)
      invariant forall k :: 0 <= k < MSG_DIGITS ==> d[k] == Nibble(msg, k)
    {
      csum := csum + (W - 1 - d[i]);
    }
    d[MSG_DIGITS] := csum / 256 % 16;
    d[MSG_DIGITS + 1] := csum / 16 % 16;
    d[MSG_DIGITS + 2] := csum % 16;
    assert forall i :: 0 <= i < CHAINS ==> d[..][i] == Digit(msg, i);
  }

  function SumOfComplements(msg: Hash, k: nat): nat
    requires k <= 32
  {
    if k == 0 then 0 else SumOfComplements(msg, k - 1) + (15 - msg[k - 1] / 16) + (15 - msg[k - 1] % 16)
  }

  /** The digits in terms of the bytes: each byte is two of them, the high half first, and the last
      three, most significant first, spell what the others together lack to 15 each. */
  lemma DigitsSpellMessage(msg: Hash)
    ensures forall j :: 0 <= j < 32 ==> msg[j] == 16 * Digit(msg, 2 * j) + Digit(msg, 2 * j + 1)
    ensures 256 * Digit(msg, 64) + 16 * Digit(msg, 65) + Digit(msg, 66) == SumOfComplements(msg, 32)
  {
    ChecksumByBytes(msg, 32);
    ThreeNibbles(Checksum(msg));
  }

  lemma {:induction false} ChecksumByBytes(msg: Hash, k: nat)
    requires k <= 32
    ensures ChecksumTo(msg, 2 * k) == SumOfComplements(msg, k)
  {
    if k > 0 {
      ChecksumByBytes(msg, k - 1);
      assert ChecksumTo(msg, 2 * k) == ChecksumTo(msg, 2 * k - 1) + (15 - Nibble(msg, 2 * k - 1));
      assert ChecksumTo(msg, 2 * k - 1) == ChecksumTo(msg, 2 * k - 2) + (15 - Nibble(msg, 2 * k - 2));
    }
  }

  lemma {:induction false} ChecksumAntitone(a: Hash, b: Hash, k: nat)
    requires k <= MSG_DIGITS
    requires forall i :: 0 <= i < k ==> Nibble(a, i) <= Nibble(b, i)
    ensures ChecksumTo(b, k) <= ChecksumTo(a, k)
    ensures (exists i :: 0 <= i < k && Nibble(a, i) < Nibble(b, i)) ==> ChecksumTo(b, k) < ChecksumTo(a, k)
  {
    if k > 0 {
      ChecksumAntitone(a, b, k - 1);
    }
  }

  lemma DifferentMessagesDifferInANibble(a: Hash, b: Hash)
    requires a != b
    ensures exists i :: 0 <= i < MSG_DIGITS && Nibble(a, i) != Nibble(b, i)
  {
    var k :| 0 <= k < 32 && a[k] != b[k];
    if Nibble(a, 2 * k) == Nibble(b, 2 * k) {
      assert Nibble(a, 2 * k + 1) != Nibble(b, 2 * k + 1);
    }
  }

  /** A checksum below 16^3 is exactly its three digits. */
  lemma ThreeNibbles(c: nat)
    requires c < 4096
    ensures c == 256 * (c / 256 % 16) + 16 * (c / 16 % 16) + c % 16
  {
    var high, low := c / 16, c % 16;
    var top, mid := high / 16, high % 16;
    DivModUnique(c, 256, top, 16 * mid + low);
    DivModUnique(top, 16, 0, top);
  }

  lemma SmallerChecksumHasSmallerDigit(c: nat, d: nat)
    requires c < d < 4096
    ensures c / 256 % 16 < d / 256 % 16 || c / 16 % 16 < d / 16 % 16 || c % 16 < d % 16
  {
    ThreeNibbles(c);
    ThreeNibbles(d);
  }

  /** The checksum antichain: for any two different messages some chain of the second stands
      strictly lower than the same chain of the first, so a signature on the first can never
      be walked forward into one on the second. */
  lemma DigitsAreAnAntichain(a: Hash, b: Hash)
    requires a != b
    ensures exists i :: 0 <= i < CHAINS && Digit(b, i) < Digit(a, i)
  {
    if forall i :: 0 <= i < MSG_DIGITS ==> Nibble(a, i) <= Nibble(b, i) {
      DifferentMessagesDifferInANibble(a, b);
      ChecksumAntitone(a, b, MSG_DIGITS);
      SmallerChecksumHasSmallerDigit(Checksum(b), Checksum(a));
      assert Digit(b, 64) < Digit(a, 64) || Digit(b, 65) < Digit(a, 65) || Digit(b, 66) < Digit(a, 66);
    } else {
      var i :| 0 <= i < MSG_DIGITS && Nibble(b, i) < Nibble(a, i);
      assert Digit(b, i) < Digit(a, i);
    }
  }

  // ---------------------------------------------------------------------------
  // Chains
  // ---------------------------------------------------------------------------

  function StepInput(chain: byte, x: Hash): Bytes {
    [DOM_OTS, chain] + x
  }

  function WotsStep(sha: Sha, chain: byte, x: Hash): Hash {
    sha(StepInput(chain, x))
  }

  function ChainOf(sha: Sha, chain: byte, x: Hash, n: nat): Hash
    decreases n
  {
    if n == 0 then x else ChainOf(sha, chain, WotsStep(sha, chain, x), n - 1)
  }

  method WotsChain(sha: Sha, chain: byte, x: Hash, n: nat) returns (cur: Hash)
    ensures cur == ChainOf(sha, chain, x, n)
  {
    cur := x;
    var i := 0;
    while i < n
      invariant i <= n
      invariant ChainOf(sha, chain, cur, n - i) == ChainOf(sha, chain, x, n)
    {
      cur := WotsStep(sha, chain, cur);
      i := i + 1;
    }
  }

  lemma {:induction false} ChainsCompose(sha: Sha, chain: byte, x: Hash, a: nat, b: nat)
    ensures ChainOf(sha, chain, ChainOf(sha, chain, x, a), b) == ChainOf(sha, chain, x, a + b)
    decreases a
  {
    if a > 0 {
      ChainsCompose(sha, chain, WotsStep(sha, chain, x), a - 1, b);
    }
  }

  // ---------------------------------------------------------------------------
  // Keys and signatures
  // ---------------------------------------------------------------------------

  function PkInput(pk: seq<Hash>): Bytes {
    [DOM_PKD] + Concat(pk)
  }

  function PkDigest(sha: Sha, pk: seq<Hash>): Hash {
    sha(PkInput(pk))
  }

  function SecretInput(seed: Bytes, i: byte): Bytes {
    [DOM_SK] + seed + [i]
  }

  function SecretAt(sha: Sha, seed: Bytes, i: byte): Hash {
    sha(SecretInput(seed, i))
  }

  function PublicKey(sha: Sha, seed: Bytes): seq<Hash> {
    seq(CHAINS, i requires 0 <= i < CHAINS => ChainOf(sha, i, SecretAt(sha, seed, i), W - 1))
  }

  /** The digest of the key pair derived from `seed`. */
  function Owner(sha: Sha, seed: Bytes): Hash {
    PkDigest(sha, PublicKey(sha, seed))
  }

  function Sign(sha: Sha, seed: Bytes, msg: Hash): seq<Hash> {
    seq(CHAINS, i requires 0 <= i < CHAINS => ChainOf(sha, i, SecretAt(sha, seed, i), Digit(msg, i)))
  }

  /** The public key a signature completes to, chain by chain. */
  function Completed(sha: Sha, sig: seq<Hash>, msg: Hash): seq<Hash>
    requires |sig| == CHAINS
  {
    seq(CHAINS, i requires 0 <= i < CHAINS => ChainOf(sha, i, sig[i], W - 1 - Digit(msg, i)))
  }

  function RecoverOwner(sha: Sha, sig: seq<Hash>, msg: Hash): Option<Hash> {
    if |sig| != CHAINS then None else Some(PkDigest(sha, Completed(sha, sig, msg)))
  }

  method WotsOwner(sha: Sha, seed: Bytes) returns (r: Hash)
    ensures r == Owner(sha, seed)
  {
    var pk: seq<Hash> := [];
    for i := 0 to CHAINS
      invariant pk == PublicKey(sha, seed)[..i]
    {
      var sk := SecretAt(sha, seed, i);
      var top := WotsChain(sha, i, sk, W - 1);
      pk := pk + [top];
    }
    assert pk == PublicKey(sha, seed);
    r := PkDigest(sha, pk);
  }

  method WotsSign(sha: Sha, seed: Bytes, msg: Hash) returns (sig: seq<Hash>)
    ensures sig == Sign(sha, seed, msg)
  {
    var d := WotsDigits(msg);
    var digits := d[..];
    sig := [];
    for i := 0 to CHAINS
      invariant sig == Sign(sha, seed, msg)[..i]
    {
      var sk := SecretAt(sha, seed, i);
      var link := WotsChain(sha, i, sk, digits[i]);
      sig := sig + [link];
    }
  }

  method WotsRecoverOwner(sha: Sha, sig: seq<Hash>, msg: Hash) returns (r: Option<Hash>)
    ensures r == RecoverOwner(sha, sig, msg)
  {
    if |sig| != CHAINS {
      return None;
    }
    var d := WotsDigits(msg);
    var digits := d[..];
    var pk: seq<Hash> := [];
    for i := 0 to CHAINS
      invariant pk == Completed(sha, sig, msg)[..i]
    {
      var top := WotsChain(sha, i, sig[i], W - 1 - digits[i]);
      pk := pk + [top];
    }
    assert pk == Completed(sha, sig, msg);
    r := Some(PkDigest(sha, pk));
  }

  /** Verification recovers exactly the signer's key, for every seed and message. */
  lemma SignThenRecover(sha: Sha, seed: Bytes, msg: Hash)
    ensures RecoverOwner(sha, Sign(sha, seed, msg), msg) == Some(Owner(sha, seed))
  {
    var sig := Sign(sha, seed, msg);
    forall k | 0 <= k < CHAINS
      ensures Completed(sha, sig, msg)[k] == PublicKey(sha, seed)[k]
    {
      ChainsCompose(sha, k, SecretAt(sha, seed, k), Digit(msg, k), W - 1 - Digit(msg, k));
    }
    assert Completed(sha, sig, msg) == PublicKey(sha, seed);
  }

  // ---------------------------------------------------------------------------
  // Different seeds, different keys
  // ---------------------------------------------------------------------------

  /** Every chain of every seed starts from a secret of its own. */
  lemma SecretsDistinct(sha: Sha, seed: Bytes, k: byte, seed': Bytes, k': byte)
    requires NoCollision(sha, iset{SecretInput(seed, k), SecretInput(seed', k')})
    ensures SecretAt(sha, seed, k) == SecretAt(sha, seed', k') <==> seed == seed' && k == k'
  {
    var a, b := SecretInput(seed, k), SecretInput(seed', k');
    if a == b {
      assert |seed| == |seed'|;
      assert seed == a[1..|a| - 1] && seed' == b[1..|a| - 1];
      assert k == a[|a| - 1] && k' == b[|a| - 1];
    }
  }

  ghost predicate HashedInKey(sha: Sha, seed: Bytes, b: Bytes) {
    || b == PkInput(PublicKey(sha, seed))
    || exists k: byte :: k < CHAINS && (b == SecretInput(seed, k) || b in ChainInputs(sha, k, SecretAt(sha, seed, k), W - 1))
  }

  /** Everything the derivation of a key hashes. */
  ghost function KeyInputs(sha: Sha, seed: Bytes): iset<Bytes> {
    iset b | HashedInKey(sha, seed, b)
  }

  /** Two seeds have one owner digest only if they are the same. */
  lemma OwnersDistinct(sha: Sha, seed: Bytes, seed': Bytes)
    requires NoCollision(sha, KeyInputs(sha, seed) + KeyInputs(sha, seed'))
    ensures Owner(sha, seed) == Owner(sha, seed') <==> seed == seed'
  {
    if Owner(sha, seed) == Owner(sha, seed') {
      var inputs := KeyInputs(sha, seed) + KeyInputs(sha, seed');
      SamePublicKey(sha, seed, seed', inputs);
      FirstChain(sha, seed);
      FirstChain(sha, seed');
      hide PublicKey, KeyInputs, ChainOf, ChainInputs, SecretInput;
      ChainInjective(sha, 0, SecretAt(sha, seed, 0), SecretAt(sha, seed', 0), W - 1, inputs);
      SecretsDistinct(sha, seed, 0, seed', 0);
    }
  }

  lemma FirstChain(sha: Sha, seed: Bytes)
    ensures |PublicKey(sha, seed)| == CHAINS && PublicKey(sha, seed)[0] == ChainOf(sha, 0, SecretAt(sha, seed, 0), W - 1)
    ensures ChainInputs(sha, 0, SecretAt(sha, seed, 0), W - 1) <= KeyInputs(sha, seed)
    ensures SecretInput(seed, 0) in KeyInputs(sha, seed)
  {
    hide ChainOf, ChainInputs;
  }

  lemma SamePublicKey(sha: Sha, seed: Bytes, seed': Bytes, inputs: iset<Bytes>)
    requires NoCollision(sha, inputs) && KeyInputs(sha, seed) <= inputs && KeyInputs(sha, seed') <= inputs
    requires Owner(sha, seed) == Owner(sha, seed')
    ensures PublicKey(sha, seed) == PublicKey(sha, seed')
  {
    var pk, pk' := PublicKey(sha, seed), PublicKey(sha, seed');
    assert HashedInKey(sha, seed, PkInput(pk)) && HashedInKey(sha, seed', PkInput(pk'));
    hide PublicKey, ChainInputs, HashedInKey;
    assert PkInput(pk) in inputs && PkInput(pk') in inputs;
    assert Concat(pk) == PkInput(pk)[1..] && Concat(pk') == PkInput(pk')[1..];
    HashesConcatDecide(pk, pk');
  }

  // ---------------------------------------------------------------------------
  // What a second accepted message would take
  // ---------------------------------------------------------------------------

  /** Everything a chain of `n` steps from `x` hashes. */
  ghost function ChainInputs(sha: Sha, chain: byte, x: Hash, n: nat): iset<Bytes>
    decreases n
  {
    if n == 0 then iset{} else iset{StepInput(chain, x)} + ChainInputs(sha, chain, WotsStep(sha, chain, x), n - 1)
  }

  lemma {:induction false} ChainInjective(sha: Sha, chain: byte, x: Hash, y: Hash, n: nat, inputs: iset<Bytes>)
    requires NoCollision(sha, inputs)
    requires ChainInputs(sha, chain, x, n) <= inputs && ChainInputs(sha, chain, y, n) <= inputs
    requires ChainOf(sha, chain, x, n) == ChainOf(sha, chain, y, n)
    ensures x == y
    decreases n
  {
    if n > 0 {
      ChainInjective(sha, chain, WotsStep(sha, chain, x), WotsStep(sha, chain, y), n - 1, inputs);
      assert StepInput(chain, x) in inputs && StepInput(chain, y) in inputs;
      assert x == StepInput(chain, x)[2..] && y == StepInput(chain, y)[2..];
    }
  }

  lemma {:induction false} ChainInputsSplit(sha: Sha, chain: byte, x: Hash, a: nat, b: nat)
    ensures ChainInputs(sha, chain, ChainOf(sha, chain, x, a), b) <= ChainInputs(sha, chain, x, a + b)
    decreases a
  {
    if a > 0 {
      ChainInputsSplit(sha, chain, WotsStep(sha, chain, x), a - 1, b);
    }
  }

  ghost predicate HashedInChain(sha: Sha, sig: seq<Hash>, msg: Hash, i: nat, b: Bytes)
    requires |sig| == CHAINS
  {
    i < CHAINS && b in ChainInputs(sha, i, sig[i], W - 1 - Digit(msg, i))
  }

  ghost predicate HashedCompleting(sha: Sha, sig: seq<Hash>, msg: Hash, b: Bytes)
    requires |sig| == CHAINS
  {
    b == PkInput(Completed(sha, sig, msg)) || exists i: nat :: HashedInChain(sha, sig, msg, i, b)
  }

  /** Everything completing a signature hashes: 67 chains and the key they end in. */
  ghost function RecoverInputs(sha: Sha, sig: seq<Hash>, msg: Hash): iset<Bytes>
    requires |sig| == CHAINS
  {
    iset b | HashedCompleting(sha, sig, msg, b)
  }

  lemma ChainInRecoverInputs(sha: Sha, sig: seq<Hash>, msg: Hash, i: nat)
    requires |sig| == CHAINS && i < CHAINS
    ensures ChainInputs(sha, i, sig[i], W - 1 - Digit(msg, i)) <= RecoverInputs(sha, sig, msg)
  {
    forall b | b in ChainInputs(sha, i, sig[i], W - 1 - Digit(msg, i)) ensures b in RecoverInputs(sha, sig, msg) {
      assert HashedInChain(sha, sig, msg, i, b);
    }
  }

  /** Signatures that recover the same owner complete to the same key, chain for chain. */
  lemma SameOwnerSameKey(sha: Sha, sig: seq<Hash>, msg: Hash, sig': seq<Hash>, msg': Hash, inputs: iset<Bytes>)
    requires |sig| == CHAINS && |sig'| == CHAINS
    requires RecoverOwner(sha, sig', msg') == RecoverOwner(sha, sig, msg)
    requires NoCollision(sha, inputs)
    requires PkInput(Completed(sha, sig, msg)) in inputs && PkInput(Completed(sha, sig', msg')) in inputs
    ensures Completed(sha, sig, msg) == Completed(sha, sig', msg')
  {
    hide Completed;
    var pk, pk' := Completed(sha, sig, msg), Completed(sha, sig', msg');
    assert |pk| == |pk'| == CHAINS by {
      CompletedLength(sha, sig, msg);
      CompletedLength(sha, sig', msg');
    }
    assert PkInput(pk) == PkInput(pk');
    assert Concat(pk) == PkInput(pk)[1..] == PkInput(pk')[1..] == Concat(pk');
    HashesConcatDecide(pk, pk');
  }

  lemma CompletedLength(sha: Sha, sig: seq<Hash>, msg: Hash)
    requires |sig| == CHAINS
    ensures |Completed(sha, sig, msg)| == CHAINS
  {
  }

  /** Where one chain of a second signature stands lower, it walks up into the first. */
  lemma LowerDigitWalksUp(sha: Sha, chain: byte, x: Hash, y: Hash, low: nat, high: nat, top: nat, inputs: iset<Bytes>)
    requires low < high <= top
    requires ChainOf(sha, chain, x, top - low) == ChainOf(sha, chain, y, top - high)
    requires NoCollision(sha, inputs)
    requires ChainInputs(sha, chain, x, top - low) <= inputs && ChainInputs(sha, chain, y, top - high) <= inputs
    ensures ChainOf(sha, chain, x, high - low) == y
  {
    ChainsCompose(sha, chain, x, high - low, top - high);
    ChainInputsSplit(sha, chain, x, high - low, top - high);
    ChainInjective(sha, chain, ChainOf(sha, chain, x, high - low), y, top - high, inputs);
  }

  /** Why one signature cannot become another: if `forged` completes on `other` to the same
      key that `sig` completes to on `msg`, and the two completions meet no collision, then
      some entry of `forged` is a strict preimage, under its chain, of the value `sig`
      reveals there. */
  lemma SecondMessageNeedsPreimage(sha: Sha, sig: seq<Hash>, msg: Hash, forged: seq<Hash>, other: Hash) returns (i: nat)
    requires |sig| == CHAINS && |forged| == CHAINS && msg != other
    requires RecoverOwner(sha, forged, other) == RecoverOwner(sha, sig, msg)
    requires NoCollision(sha, RecoverInputs(sha, sig, msg) + RecoverInputs(sha, forged, other))
    ensures i < CHAINS && Digit(other, i) < Digit(msg, i)
    ensures ChainOf(sha, i, forged[i], Digit(msg, i) - Digit(other, i)) == sig[i]
  {
    hide Digit, ChainOf, ChainInputs;
    DigitsAreAnAntichain(msg, other);
    i :| 0 <= i < CHAINS && Digit(other, i) < Digit(msg, i);
    var inputs := RecoverInputs(sha, sig, msg) + RecoverInputs(sha, forged, other);
    SameOwnerSameKey(sha, sig, msg, forged, other, inputs);
    assert Completed(sha, sig, msg)[i] == Completed(sha, forged, other)[i];
    ChainInRecoverInputs(sha, sig, msg, i);
    ChainInRecoverInputs(sha, forged, other, i);
    LowerDigitWalksUp(sha, i, forged[i], sig[i], Digit(other, i), Digit(msg, i), W - 1, inputs);
  }
}
