/** The spend tree: a small Merkle tree of one-time keys padded to the statement's depth,
    and the authentication paths into it. */
module SpendTree {
  import opened Machine
  import opened Wots

  const SPEND_TREE_DEPTH: nat := 10

  /** The code counts the leaves in a 32-bit shift; a height beyond this overflows it. */
  const MAX_HEIGHT: nat := 31

  const DOM_NODE: byte := 2
  const DOM_OTS_NODE: byte := 8
  const DOM_LEAF_SEED: byte := 12

  const ZERO_HASH: Hash := Repeat(0, 32)

  function NodeInput(dom: byte, left: Hash, right: Hash): Bytes {
    [dom] + left + right
  }

  function NodeHash(sha: Sha, dom: byte, left: Hash, right: Hash): Hash {
    sha(NodeInput(dom, left, right))
  }

  function OtsNode(sha: Sha, left: Hash, right: Hash): Hash {
    NodeHash(sha, DOM_OTS_NODE, left, right)
  }

  // ---------------------------------------------------------------------------
  // Folding an authentication path
  // ---------------------------------------------------------------------------

  /** One level up: the current node is the right child when the index bit is set. */
  function Climb(sha: Sha, dom: byte, cur: Hash, sibling: Hash, index: nat): Hash {
    if index % 2 == 1 then NodeHash(sha, dom, sibling, cur) else NodeHash(sha, dom, cur, sibling)
  }

  function Fold(sha: Sha, dom: byte, cur: Hash, siblings: seq<Hash>, index: nat): Hash
    decreases |siblings|
  {
    if siblings == [] then cur
    else Fold(sha, dom, Climb(sha, dom, cur, siblings[0], index), siblings[1..], index / 2)
  }

  /** The fold as the statement runs it, testing bit `level` of the index each time. */
  method FoldPath(sha: Sha, dom: byte, leaf: Hash, siblings: seq<Hash>, index: nat) returns (cur: Hash)
    ensures cur == Fold(sha, dom, leaf, siblings, index)
  {
    cur := leaf;
    for level := 0 to |siblings|
      invariant Fold(sha, dom, cur, siblings[level..], ShiftRight(index, level)) == Fold(sha, dom, leaf, siblings, index)
    {
      var sib := siblings[level];
      var goRight := ShiftRight(index, level) % 2 == 1;
      cur := if goRight then NodeHash(sha, dom, sib, cur) else NodeHash(sha, dom, cur, sib);
      assert siblings[level..][1..] == siblings[level + 1..];
    }
  }

  // ---------------------------------------------------------------------------
  // Levels
  // ---------------------------------------------------------------------------

  /** The next level up: adjacent pairs hashed together. */
  function Pairs(sha: Sha, level: seq<Hash>): (up: seq<Hash>)
    ensures |up| == |level| / 2
  {
    seq(|level| / 2, i requires 0 <= i < |level| / 2 => OtsNode(sha, level[2 * i], level[2 * i + 1]))
  }

  /** The root of a full subtree, level by level. */
  function ClimbLevels(sha: Sha, level: seq<Hash>, h: nat): Hash
    requires |level| == Pow2(h)
    decreases h
  {
    if h == 0 then level[0] else ClimbLevels(sha, Pairs(sha, level), h - 1)
  }

  /** The root of the empty subtree of each height: zero leaves hashed together. */
  function EmptyRoot(sha: Sha, l: nat): Hash {
    if l == 0 then ZERO_HASH else OtsNode(sha, EmptyRoot(sha, l - 1), EmptyRoot(sha, l - 1))
  }

  /** Pad a root of height `lo` with empty subtrees on its right up to height `hi`. */
  function ClimbPad(sha: Sha, root: Hash, lo: nat, hi: nat): Hash
    decreases hi - lo
  {
    if lo >= hi then root else ClimbPad(sha, OtsNode(sha, root, EmptyRoot(sha, lo)), lo + 1, hi)
  }

  function LeafSeedInput(master: Bytes, index: u32): Bytes {
    [DOM_LEAF_SEED] + master + LittleEndian(index, 4)
  }

  function LeafSeed(sha: Sha, master: Bytes, index: u32): Hash {
    sha(LeafSeedInput(master, index))
  }

  function LeavesFrom(sha: Sha, master: Bytes, lo: nat, hi: nat): (leaves: seq<Hash>)
    requires lo <= hi <= U32_MAX + 1
    ensures |leaves| == hi - lo
    ensures forall i :: 0 <= i < |leaves| ==> leaves[i] == Owner(sha, LeafSeed(sha, master, lo + i))
    decreases hi - lo
  {
    if lo == hi then [] else [Owner(sha, LeafSeed(sha, master, lo))] + LeavesFrom(sha, master, lo + 1, hi)
  }

  lemma {:induction false} Pow2Monotone(a: nat, b: nat)
    requires a <= b
    ensures Pow2(a) <= Pow2(b)
    decreases b
  {
    if a < b {
      Pow2Monotone(a, b - 1);
    }
  }

  lemma Pow2Of31()
    ensures Pow2(31) == 0x8000_0000
  {
    assert Pow2(8) == 256;
    assert Pow2(16) == 0x1_0000;
    assert Pow2(24) == 0x100_0000;
  }

  /** The one-time key digests of a capacity-2^h address. */
  function Leaves(sha: Sha, master: Bytes, h: nat): (leaves: seq<Hash>)
    requires h <= MAX_HEIGHT
    ensures |leaves| == Pow2(h)
    ensures forall i :: 0 <= i < |leaves| && i <= U32_MAX ==> leaves[i] == Owner(sha, LeafSeed(sha, master, i))
  {
    Pow2Monotone(h, MAX_HEIGHT);
    Pow2Of31();
    LeavesFrom(sha, master, 0, Pow2(h))
  }

  /** The ladder pads only what is missing: a taller tree is its own root. */
  function SpendRoot(sha: Sha, master: Bytes, h: nat): Hash
    requires h <= MAX_HEIGHT
  {
    ClimbPad(sha, ClimbLevels(sha, Leaves(sha, master, h), h), h, SPEND_TREE_DEPTH)
  }

  // ---------------------------------------------------------------------------
  // Authentication paths
  // ---------------------------------------------------------------------------

  /** The other child of the same parent. */
  function Flip(i: nat): nat {
    if i % 2 == 0 then i + 1 else i - 1
  }

  function RealSiblings(sha: Sha, level: seq<Hash>, index: nat, h: nat): (path: seq<Hash>)
    requires |level| == Pow2(h) && (h > 0 ==> index < Pow2(h))
    ensures |path| == h
    decreases h
  {
    if h == 0 then [] else [level[Flip(index)]] + RealSiblings(sha, Pairs(sha, level), index / 2, h - 1)
  }

  function LadderFrom(sha: Sha, lo: nat, hi: nat): (path: seq<Hash>)
    ensures |path| == SatSub(hi, lo)
    ensures forall i :: 0 <= i < |path| ==> path[i] == EmptyRoot(sha, lo + i)
    decreases hi - lo
  {
    if lo >= hi then [] else [EmptyRoot(sha, lo)] + LadderFrom(sha, lo + 1, hi)
  }

  function AuthSiblings(sha: Sha, master: Bytes, h: nat, index: nat): (path: seq<Hash>)
    requires h <= MAX_HEIGHT && (h > 0 ==> index < Pow2(h))
    ensures |path| == Max(h, SPEND_TREE_DEPTH)
  {
    RealSiblings(sha, Leaves(sha, master, h), index, h) + LadderFrom(sha, h, SPEND_TREE_DEPTH)
  }

  lemma FoldFirst(sha: Sha, dom: byte, cur: Hash, sibling: Hash, rest: seq<Hash>, index: nat)
    ensures Fold(sha, dom, cur, [sibling] + rest, index) == Fold(sha, dom, Climb(sha, dom, cur, sibling, index), rest, index / 2)
  {
    assert ([sibling] + rest)[1..] == rest;
  }

  /** Climbing with the flipped neighbour is taking the pair one level up. */
  lemma ClimbIsPair(sha: Sha, level: seq<Hash>, index: nat)
    requires |level| % 2 == 0 && index < |level|
    ensures Flip(index) < |level|
    ensures Climb(sha, DOM_OTS_NODE, level[index], level[Flip(index)], index) == Pairs(sha, level)[index / 2]
  {
    var i := index / 2;
    assert Pairs(sha, level)[i] == OtsNode(sha, level[2 * i], level[2 * i + 1]);
    hide Pairs, NodeHash;
    if index % 2 == 0 {
      assert index == 2 * i;
    } else {
      assert index == 2 * i + 1;
    }
  }

  lemma PairsHalve(sha: Sha, level: seq<Hash>, index: nat, h: nat)
    requires |level| == Pow2(h) && index < Pow2(h) && h > 0
    ensures |level| % 2 == 0 && |Pairs(sha, level)| == Pow2(h - 1) && index / 2 < Pow2(h - 1)
    ensures Flip(index) < |level|
  {
    assert Pow2(h) == 2 * Pow2(h - 1);
  }

  lemma LevelUp(sha: Sha, level: seq<Hash>, index: nat, h: nat)
    requires |level| == Pow2(h) && index < Pow2(h) && h > 0
    requires |Pairs(sha, level)| == Pow2(h - 1) && index / 2 < Pow2(h - 1) && Flip(index) < |level|
    ensures ClimbLevels(sha, level, h) == ClimbLevels(sha, Pairs(sha, level), h - 1)
    ensures RealSiblings(sha, level, index, h)
            == [level[Flip(index)]] + RealSiblings(sha, Pairs(sha, level), index / 2, h - 1)
  {
    hide Pow2, Pairs, Flip;
  }

  lemma RealPathBase(sha: Sha, level: seq<Hash>, index: nat, above: seq<Hash>)
    requires |level| == Pow2(0) && index < Pow2(0)
    ensures index == 0 && RealSiblings(sha, level, index, 0) + above == above
    ensures ClimbLevels(sha, level, 0) == level[0]
  {
    assert [] + above == above;
  }

  lemma {:induction false} RealPathFolds(sha: Sha, level: seq<Hash>, index: nat, h: nat, above: seq<Hash>)
    requires |level| == Pow2(h) && index < Pow2(h)
    ensures Fold(sha, DOM_OTS_NODE, level[index], RealSiblings(sha, level, index, h) + above, index)
            == Fold(sha, DOM_OTS_NODE, ClimbLevels(sha, level, h), above, 0)
    decreases h
  {
    hide *;
    if h == 0 {
      RealPathBase(sha, level, index, above);
    } else {
      PairsHalve(sha, level, index, h);
      LevelUp(sha, level, index, h);
      var up := Pairs(sha, level);
      RealPathFolds(sha, up, index / 2, h - 1, above);
      ClimbIsPair(sha, level, index);
      var rest := RealSiblings(sha, up, index / 2, h - 1);
      assert RealSiblings(sha, level, index, h) + above == [level[Flip(index)]] + (rest + above);
      FoldFirst(sha, DOM_OTS_NODE, level[index], level[Flip(index)], rest + above, index);
    }
  }

  lemma {:induction false} LadderFolds(sha: Sha, root: Hash, lo: nat, hi: nat)
    ensures Fold(sha, DOM_OTS_NODE, root, LadderFrom(sha, lo, hi), 0) == ClimbPad(sha, root, lo, hi)
    decreases hi - lo
  {
    if lo < hi {
      LadderFolds(sha, OtsNode(sha, root, EmptyRoot(sha, lo)), lo + 1, hi);
      assert LadderFrom(sha, lo, hi)[1..] == LadderFrom(sha, lo + 1, hi);
    }
  }

  /** For every capacity and every leaf, the path handed to the prover folds the leaf's key
      digest to the address's root. */
  lemma AuthPathFoldsToRoot(sha: Sha, master: Bytes, h: nat, index: nat)
    requires h <= MAX_HEIGHT && index < Pow2(h)
    ensures Fold(sha, DOM_OTS_NODE, Leaves(sha, master, h)[index], AuthSiblings(sha, master, h, index), index)
            == SpendRoot(sha, master, h)
  {
    var leaves := Leaves(sha, master, h);
    RealPathFolds(sha, leaves, index, h, LadderFrom(sha, h, SPEND_TREE_DEPTH));
    LadderFolds(sha, ClimbLevels(sha, leaves, h), h, SPEND_TREE_DEPTH);
  }

  /** The root of a full tree, defined by halves and without any ladder. */
  function PlainRoot(sha: Sha, leaves: seq<Hash>, d: nat): Hash
    requires |leaves| == Pow2(d)
    decreases d
  {
    if d == 0 then leaves[0]
    else OtsNode(sha, PlainRoot(sha, leaves[..Pow2(d - 1)], d - 1), PlainRoot(sha, leaves[Pow2(d - 1)..], d - 1))
  }

  function Zeros(n: nat): (z: seq<Hash>)
    ensures |z| == n
    ensures forall i :: 0 <= i < n ==> z[i] == ZERO_HASH
  {
    if n == 0 then [] else [ZERO_HASH] + Zeros(n - 1)
  }

  lemma {:induction false} PairsOfHalves(sha: Sha, level: seq<Hash>, half: nat)
    requires |level| == 4 * half
    ensures Pairs(sha, level)[..half] == Pairs(sha, level[..2 * half])
    ensures Pairs(sha, level)[half..] == Pairs(sha, level[2 * half..])
  {
    forall i | 0 <= i < half ensures Pairs(sha, level)[half..][i] == Pairs(sha, level[2 * half..])[i] {
      assert level[2 * half..][2 * i] == level[2 * (half + i)];
      assert level[2 * half..][2 * i + 1] == level[2 * (half + i) + 1];
    }
  }

  lemma PlainRootHalves(sha: Sha, level: seq<Hash>, d: nat)
    requires |level| == Pow2(d + 1)
    ensures Pow2(d + 1) == 2 * Pow2(d)
    ensures PlainRoot(sha, level, d + 1) == OtsNode(sha, PlainRoot(sha, level[..Pow2(d)], d), PlainRoot(sha, level[Pow2(d)..], d))
  {
    hide OtsNode;
  }

  lemma PlainRootOfOnePair(sha: Sha, level: seq<Hash>)
    requires |level| == 2
    ensures Pow2(0) == 1 && Pow2(1) == 2
    ensures PlainRoot(sha, Pairs(sha, level), 0) == PlainRoot(sha, level, 1)
  {
    assert Pow2(1) == 2;
    assert PlainRoot(sha, level[..1], 0) == level[0] && PlainRoot(sha, level[1..], 0) == level[1];
  }

  lemma Pow2Doubles(n: nat)
    ensures Pow2(n + 1) == 2 * Pow2(n)
  {
  }

  lemma {:induction false} PlainRootOfPairs(sha: Sha, level: seq<Hash>, d: nat)
    requires |level| == Pow2(d + 1)
    ensures |level| / 2 == Pow2(d)
    ensures PlainRoot(sha, Pairs(sha, level), d) == PlainRoot(sha, level, d + 1)
    decreases d
  {
    hide Pow2, Pairs, PlainRoot, OtsNode;
    Pow2Doubles(d);
    if d == 0 {
      assert Pow2(0) == 1 by { PlainRootOfOnePair(sha, [ZERO_HASH, ZERO_HASH]); }
      PlainRootOfOnePair(sha, level);
    } else {
      Pow2Doubles(d - 1);
      var half := Pow2(d - 1);
      PairsOfHalves(sha, level, half);
      PlainRootHalves(sha, level, d);
      PlainRootHalves(sha, Pairs(sha, level), d - 1);
      PlainRootOfPairs(sha, level[..2 * half], d - 1);
      PlainRootOfPairs(sha, level[2 * half..], d - 1);
    }
  }

  lemma {:induction false} LevelsReachPlainRoot(sha: Sha, level: seq<Hash>, h: nat)
    requires |level| == Pow2(h)
    ensures ClimbLevels(sha, level, h) == PlainRoot(sha, level, h)
    decreases h
  {
    hide Pairs, OtsNode;
    if h > 0 {
      PairsHalve(sha, level, 0, h);
      LevelUp(sha, level, 0, h);
      LevelsReachPlainRoot(sha, Pairs(sha, level), h - 1);
      PlainRootOfPairs(sha, level, h - 1);
    }
  }

  lemma {:induction false} ZeroTreeIsEmptyRoot(sha: Sha, d: nat)
    ensures PlainRoot(sha, Zeros(Pow2(d)), d) == EmptyRoot(sha, d)
    decreases d
  {
    if d > 0 {
      ZeroTreeIsEmptyRoot(sha, d - 1);
      assert Zeros(Pow2(d))[..Pow2(d - 1)] == Zeros(Pow2(d - 1));
      assert Zeros(Pow2(d))[Pow2(d - 1)..] == Zeros(Pow2(d - 1));
    }
  }

  function Padded(leaves: seq<Hash>, h: nat, d: nat): (all: seq<Hash>)
    requires |leaves| == Pow2(h) && h <= d
    ensures |all| == Pow2(d)
  {
    Pow2Monotone(h, d);
    leaves + Zeros(Pow2(d) - Pow2(h))
  }

  lemma {:induction false} PadOneLevel(sha: Sha, leaves: seq<Hash>, h: nat, d: nat)
    requires |leaves| == Pow2(h) && h <= d
    ensures PlainRoot(sha, Padded(leaves, h, d + 1), d + 1)
            == OtsNode(sha, PlainRoot(sha, Padded(leaves, h, d), d), EmptyRoot(sha, d))
  {
    var all := Padded(leaves, h, d + 1);
    Pow2Monotone(h, d);
    assert all[..Pow2(d)] == Padded(leaves, h, d);
    assert all[Pow2(d)..] == Zeros(Pow2(d));
    ZeroTreeIsEmptyRoot(sha, d);
  }

  lemma {:induction false} PadReachesPlainRoot(sha: Sha, leaves: seq<Hash>, h: nat, d: nat, hi: nat)
    requires |leaves| == Pow2(h) && h <= d <= hi
    ensures ClimbPad(sha, PlainRoot(sha, Padded(leaves, h, d), d), d, hi) == PlainRoot(sha, Padded(leaves, h, hi), hi)
    decreases hi - d
  {
    if d < hi {
      PadOneLevel(sha, leaves, h, d);
      PadReachesPlainRoot(sha, leaves, h, d + 1, hi);
    }
  }

  /** Padding with empty roots is padding with zero leaves: the address root is the plain root
      of the depth-10 tree, or of the tree's own height where that is greater. */
  lemma SpendRootIsPlainRoot(sha: Sha, master: Bytes, h: nat)
    requires h <= MAX_HEIGHT
    ensures SpendRoot(sha, master, h)
            == PlainRoot(sha, Padded(Leaves(sha, master, h), h, Max(h, SPEND_TREE_DEPTH)), Max(h, SPEND_TREE_DEPTH))
  {
    var leaves := Leaves(sha, master, h);
    LevelsReachPlainRoot(sha, leaves, h);
    assert Padded(leaves, h, h) == leaves;
    PadReachesPlainRoot(sha, leaves, h, h, Max(h, SPEND_TREE_DEPTH));
  }

  // ---------------------------------------------------------------------------
  // One key a leaf
  // ---------------------------------------------------------------------------

  lemma LeafSeedInputDecides(master: Bytes, index: u32, master': Bytes, index': u32)
    ensures LeafSeedInput(master, index) == LeafSeedInput(master', index') <==> master == master' && index == index'
  {
    var a, b := LeafSeedInput(master, index), LeafSeedInput(master', index');
    if a == b {
      assert |master| == |master'|;
      assert master == a[1..|a| - 4] && master' == b[1..|a| - 4];
      assert LittleEndian(index, 4) == a[|a| - 4..] && LittleEndian(index', 4) == b[|a| - 4..];
      assert Pow256(4) == 0x1_0000_0000;
      LittleEndianRoundTrip(index, 4);
      LittleEndianRoundTrip(index', 4);
    }
  }

  /** Everything the derivation of one leaf hashes. */
  ghost function LeafInputs(sha: Sha, master: Bytes, index: u32): iset<Bytes> {
    iset{LeafSeedInput(master, index)} + KeyInputs(sha, LeafSeed(sha, master, index))
  }

  /** Two leaves, of one address or of two, share a seed, a chain's secret or an owner digest only
      if they are the same leaf, unless the hash collides among the inputs that derive them. */
  lemma LeavesHaveTheirOwnKeys(sha: Sha, master: Bytes, i: u32, master': Bytes, j: u32, k: byte, k': byte)
    requires NoCollision(sha, LeafInputs(sha, master, i) + LeafInputs(sha, master', j)) && k < CHAINS && k' < CHAINS
    ensures LeafSeed(sha, master, i) == LeafSeed(sha, master', j) <==> master == master' && i == j
    ensures Owner(sha, LeafSeed(sha, master, i)) == Owner(sha, LeafSeed(sha, master', j)) <==> master == master' && i == j
    ensures SecretAt(sha, LeafSeed(sha, master, i), k) == SecretAt(sha, LeafSeed(sha, master', j), k')
            <==> master == master' && i == j && k == k'
  {
    var a, b := LeafSeed(sha, master, i), LeafSeed(sha, master', j);
    assert HashedInKey(sha, a, SecretInput(a, k)) && HashedInKey(sha, b, SecretInput(b, k'));
    hide HashedInKey, LeafSeedInput, SecretInput, SecretAt, Owner;
    LeafSeedInputDecides(master, i, master', j);
    OwnersDistinct(sha, a, b);
    SecretsDistinct(sha, a, k, b, k');
  }

  /** So within an address every leaf digest occurs once, and no two indexes of `spend_auth` ever
      sign under one key: each signature recovers the digest at its own index. */
  lemma SpendAuthSignsUnderItsLeaf(sha: Sha, master: Bytes, h: nat, i: u32, j: u32, msg: Hash)
    requires h <= MAX_HEIGHT && i < Pow2(h) && j < Pow2(h)
    requires NoCollision(sha, LeafInputs(sha, master, i) + LeafInputs(sha, master, j))
    ensures RecoverOwner(sha, Sign(sha, LeafSeed(sha, master, i), msg), msg) == Some(Leaves(sha, master, h)[j]) <==> i == j
  {
    hide LeafInputs, RecoverOwner, Sign, Owner, LeafSeed;
    SignThenRecover(sha, LeafSeed(sha, master, i), msg);
    LeavesHaveTheirOwnKeys(sha, master, i, master, j, 0, 0);
  }

  // ---------------------------------------------------------------------------
  // The wallet-side loops
  // ---------------------------------------------------------------------------

  method OtsEmptyRoots(sha: Sha) returns (e: array<Hash>)
    ensures fresh(e) && e.Length == SPEND_TREE_DEPTH + 1
    ensures forall l :: 0 <= l <= SPEND_TREE_DEPTH ==> e[l] == EmptyRoot(sha, l)
  {
    e := new Hash[SPEND_TREE_DEPTH + 1](_ => ZERO_HASH);
    for l := 0 to SPEND_TREE_DEPTH
      invariant forall k :: 0 <= k <= l ==> e[k] == EmptyRoot(sha, k)
    {
      e[l + 1] := OtsNode(sha, e[l], e[l]);
    }
  }

  method ChunkPairs(sha: Sha, level: seq<Hash>) returns (up: seq<Hash>)
    requires |level| % 2 == 0
    ensures up == Pairs(sha, level)
  {
    up := [];
    for i := 0 to |level| / 2
      invariant up == Pairs(sha, level)[..i]
    {
      up := up + [OtsNode(sha, level[2 * i], level[2 * i + 1])];
    }
    assert up == Pairs(sha, level);
  }

  method RealSubtreeRoot(sha: Sha, leaves: seq<Hash>, h: nat) returns (root: Hash)
    requires |leaves| == Pow2(h)
    ensures root == ClimbLevels(sha, leaves, h)
  {
    var level := leaves;
    for k := 0 to h
      invariant |level| == Pow2(h - k)
      invariant ClimbLevels(sha, level, h - k) == ClimbLevels(sha, leaves, h)
    {
      level := ChunkPairs(sha, level);
    }
    root := level[0];
  }

  method ComputeSpendRoot(sha: Sha, master: Bytes, h: nat) returns (root: Hash)
    requires h <= MAX_HEIGHT
    ensures root == SpendRoot(sha, master, h)
  {
    root := RealSubtreeRoot(sha, Leaves(sha, master, h), h);
    var ladder := OtsEmptyRoots(sha);
    var l := h;
    while l < SPEND_TREE_DEPTH
      invariant forall k :: 0 <= k <= SPEND_TREE_DEPTH ==> ladder[k] == EmptyRoot(sha, k)
      invariant ClimbPad(sha, root, l, SPEND_TREE_DEPTH) == SpendRoot(sha, master, h)
    {
      root := OtsNode(sha, root, ladder[l]);
      l := l + 1;
    }
  }

  lemma NoRealSiblings(sha: Sha, level: seq<Hash>, index: nat)
    requires |level| == Pow2(0)
    ensures RealSiblings(sha, level, index, 0) == []
  {
  }

  method RealPath(sha: Sha, leaves: seq<Hash>, h: nat, index: nat) returns (siblings: seq<Hash>)
    requires |leaves| == Pow2(h) && (h > 0 ==> index < Pow2(h))
    ensures siblings == RealSiblings(sha, leaves, index, h)
  {
    hide *;
    var level := leaves;
    var idx: nat := index;
    siblings := [];
    for k := 0 to h
      invariant |level| == Pow2(h - k) && (h - k > 0 ==> idx < Pow2(h - k))
      invariant siblings + RealSiblings(sha, level, idx, h - k) == RealSiblings(sha, leaves, index, h)
    {
      PairsHalve(sha, level, idx, h - k);
      LevelUp(sha, level, idx, h - k);
      siblings := siblings + [level[Flip(idx)]];
      level := ChunkPairs(sha, level);
      idx := idx / 2;
    }
    NoRealSiblings(sha, level, idx);
    assert siblings + [] == siblings;
  }

  method AppendLadder(sha: Sha, lower: seq<Hash>, h: nat) returns (siblings: seq<Hash>)
    ensures siblings == lower + LadderFrom(sha, h, SPEND_TREE_DEPTH)
  {
    hide EmptyRoot;
    var ladder := OtsEmptyRoots(sha);
    var roots := ladder[..];
    siblings := lower;
    var l := h;
    while l < SPEND_TREE_DEPTH
      invariant h <= l <= Max(h, SPEND_TREE_DEPTH) && |siblings| == |lower| + (l - h)
      invariant siblings[..|lower|] == lower
      invariant forall k :: |lower| <= k < |siblings| ==> siblings[k] == EmptyRoot(sha, h + (k - |lower|))
    {
      siblings := siblings + [roots[l]];
      l := l + 1;
    }
    assert siblings == siblings[..|lower|] + siblings[|lower|..];
    assert siblings[|lower|..] == LadderFrom(sha, h, SPEND_TREE_DEPTH);
  }

  method SpendAuth(sha: Sha, master: Bytes, h: nat, index: nat, msg: Hash) returns (sig: seq<Hash>, siblings: seq<Hash>)
    requires h <= MAX_HEIGHT && (h > 0 ==> index < Pow2(h)) && index <= U32_MAX
    ensures sig == Sign(sha, LeafSeed(sha, master, index), msg)
    ensures siblings == AuthSiblings(sha, master, h, index)
  {
    sig := WotsSign(sha, LeafSeed(sha, master, index), msg);
    siblings := RealPath(sha, Leaves(sha, master, h), h, index);
    siblings := AppendLadder(sha, siblings, h);
  }
}
