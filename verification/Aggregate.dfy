/** The digest one aggregate proof commits to. */
module Aggregate {
  import opened Machine

  const KIND_SPEND: byte := 1
  const KIND_MINT: byte := 2

  type Words = w: seq<u32> | |w| == 8 witness [0, 0, 0, 0, 0, 0, 0, 0]

  /** One covered proof: its statement kind, verifying key and public bytes. */
  datatype Item = Item(kind: byte, vkey: Words, publics: Bytes)

  /** The words, each in four little-endian bytes. */
  function VkeyLayout(words: seq<u32>): (b: Bytes)
    ensures |b| == 4 * |words|
  {
    if words == [] then [] else VkeyLayout(words[..|words| - 1]) + LittleEndian(words[|words| - 1], 4)
  }

  method VkeyBytes(words: Words) returns (out: Bytes)
    ensures out == VkeyLayout(words)
  {
    out := [];
    for i := 0 to 8
      invariant out == VkeyLayout(words[..i])
    {
      assert words[..i + 1][..i] == words[..i];
      out := out + LittleEndian(words[i], 4);
    }
    assert words[..8] == words;
  }

  function LeafInput(item: Item): Bytes {
    [item.kind] + VkeyLayout(item.vkey) + BigEndian(|item.publics|, 4) + item.publics
  }

  function AggLeaf(sha: Bytes -> Hash, item: Item): Hash {
    sha(LeafInput(item))
  }

  function DigestInput(leaves: seq<Hash>): Bytes {
    BigEndian(|leaves|, 4) + Concat(leaves)
  }

  method AggDigest(sha: Bytes -> Hash, leaves: seq<Hash>) returns (digest: Hash)
    ensures digest == sha(DigestInput(leaves))
  {
    var parts := BigEndian(|leaves|, 4);
    for i := 0 to |leaves|
      invariant parts + Concat(leaves[i..]) == DigestInput(leaves)
    {
      assert leaves[i..][0] == leaves[i] && leaves[i..][1..] == leaves[i + 1..];
      parts := parts + leaves[i];
    }
    assert leaves[|leaves|..] == [] && parts + [] == parts;
    digest := sha(parts);
  }

  function Leaves(sha: Bytes -> Hash, items: seq<Item>): (r: seq<Hash>)
    ensures |r| == |items|
  {
    if items == [] then [] else Leaves(sha, items[..|items| - 1]) + [AggLeaf(sha, items[|items| - 1])]
  }

  // ---------------------------------------------------------------------------
  // Binding
  // ---------------------------------------------------------------------------

  lemma {:induction false} VkeyDecides(a: seq<u32>, b: seq<u32>)
    requires |a| == |b| && VkeyLayout(a) == VkeyLayout(b)
    ensures a == b
  {
    if a != [] {
      var n := |a| - 1;
      var x, y := VkeyLayout(a), VkeyLayout(b);
      assert x[..4 * n] == VkeyLayout(a[..n]) && y[..4 * n] == VkeyLayout(b[..n]);
      assert x[4 * n..] == LittleEndian(a[n], 4) && y[4 * n..] == LittleEndian(b[n], 4);
      VkeyDecides(a[..n], b[..n]);
      Pow256Of4();
      LittleEndianRoundTrip(a[n], 4);
      LittleEndianRoundTrip(b[n], 4);
      assert a == a[..n] + [a[n]] && b == b[..n] + [b[n]];
    }
  }

  lemma Pow256Of4()
    ensures Pow256(4) == U32_MAX + 1
  {
    assert Pow256(2) == 0x1_0000;
  }

  lemma {:induction false} WordReads(words: seq<u32>, i: nat)
    requires i < |words|
    ensures FromLittleEndian(VkeyLayout(words)[4 * i..4 * i + 4]) == words[i]
    decreases |words|
  {
    var n := |words| - 1;
    var init := VkeyLayout(words[..n]);
    if i < n {
      WordReads(words[..n], i);
      assert VkeyLayout(words)[4 * i..4 * i + 4] == init[4 * i..4 * i + 4];
    } else {
      assert VkeyLayout(words)[4 * n..4 * n + 4] == LittleEndian(words[n], 4);
      Pow256Of4();
      LittleEndianRoundTrip(words[n], 4);
    }
  }

  /** The layout read back: the kind, eight little-endian words, a big-endian length, the publics;
      and for the digest a big-endian count and the leaves in order. */
  lemma LayoutReads(item: Item, i: nat, leaves: seq<Hash>, j: nat)
    requires i < 8 && |item.publics| <= U32_MAX && |leaves| <= U32_MAX && j < |leaves|
    ensures var x := LeafInput(item);
            && |x| == 37 + |item.publics| && x[0] == item.kind && x[37..] == item.publics
            && FromLittleEndian(x[1 + 4 * i..5 + 4 * i]) == item.vkey[i] && FromBigEndian(x[33..37]) == |item.publics|
    ensures var d := DigestInput(leaves);
            FromBigEndian(d[..4]) == |leaves| && |d| == 4 + 32 * |leaves| && d[4 + 32 * j..36 + 32 * j] == leaves[j]
  {
    Pow256Of4();
    WordReads(item.vkey, i);
    BigEndianRoundTrip(|item.publics|, 4);
    BigEndianRoundTrip(|leaves|, 4);
    hide BigEndian, LittleEndian, FromBigEndian, FromLittleEndian, VkeyLayout;
    var x, d := LeafInput(item), DigestInput(leaves);
    assert x[1..33] == VkeyLayout(item.vkey) && x[33..37] == BigEndian(|item.publics|, 4);
    assert x[1..33][4 * i..4 * i + 4] == x[1 + 4 * i..5 + 4 * i];
    assert d[..4] == BigEndian(|leaves|, 4) && d[4..] == Concat(leaves);
    HashesConcatLength(leaves);
    HashAt(leaves, j);
    assert d[4..][32 * j..32 * j + 32] == d[4 + 32 * j..36 + 32 * j];
  }

  lemma {:induction false} HashAt(leaves: seq<Hash>, j: nat)
    requires j < |leaves|
    ensures |Concat(leaves)| == 32 * |leaves| && Concat(leaves)[32 * j..32 * j + 32] == leaves[j]
    decreases |leaves|
  {
    HashesConcatLength(leaves);
    HashesConcatLength(leaves[1..]);
    if j > 0 {
      HashAt(leaves[1..], j - 1);
      assert Concat(leaves)[32..] == Concat(leaves[1..]);
      assert Concat(leaves)[32..][32 * (j - 1)..32 * (j - 1) + 32] == Concat(leaves)[32 * j..32 * j + 32];
    }
  }

  /** A leaf's bytes decide kind, key and publics, even where the length does not fit its field. */
  lemma LeafInputDecides(a: Item, b: Item)
    ensures LeafInput(a) == LeafInput(b) <==> a == b
  {
    hide VkeyLayout, BigEndian;
    if LeafInput(a) == LeafInput(b) {
      var x, y := LeafInput(a), LeafInput(b);
      assert x[0] == a.kind && y[0] == b.kind;
      assert x[1..33] == VkeyLayout(a.vkey) && y[1..33] == VkeyLayout(b.vkey);
      assert x[37..] == a.publics && y[37..] == b.publics;
      VkeyDecides(a.vkey, b.vkey);
    }
  }

  lemma DigestInputDecides(a: seq<Hash>, b: seq<Hash>)
    requires DigestInput(a) == DigestInput(b)
    ensures a == b
  {
    assert DigestInput(a)[4..] == Concat(a) && DigestInput(b)[4..] == Concat(b);
    HashesConcatDecide(a, b);
  }

  /** What hashing a list absorbs: every leaf, and the digest over them. */
  ghost function Absorbed(sha: Bytes -> Hash, items: seq<Item>): iset<Bytes> {
    iset{DigestInput(Leaves(sha, items))} + iset i | 0 <= i < |items| :: LeafInput(items[i])
  }

  lemma {:induction false} LeavesAt(sha: Bytes -> Hash, items: seq<Item>, i: nat)
    requires i < |items|
    ensures Leaves(sha, items)[i] == AggLeaf(sha, items[i])
  {
    if i < |items| - 1 {
      LeavesAt(sha, items[..|items| - 1], i);
    }
  }

  /** The digest binds the covered proofs: their number, order, kinds, keys and publics. */
  lemma DigestBindsItems(sha: Bytes -> Hash, a: seq<Item>, b: seq<Item>)
    requires NoCollision(sha, Absorbed(sha, a) + Absorbed(sha, b))
    requires sha(DigestInput(Leaves(sha, a))) == sha(DigestInput(Leaves(sha, b)))
    ensures a == b
  {
    hide LeafInput, DigestInput, Leaves;
    assert DigestInput(Leaves(sha, a)) in Absorbed(sha, a) && DigestInput(Leaves(sha, b)) in Absorbed(sha, b);
    DigestInputDecides(Leaves(sha, a), Leaves(sha, b));
    assert |a| == |Leaves(sha, a)| == |Leaves(sha, b)| == |b|;
    forall i | 0 <= i < |a| ensures a[i] == b[i] {
      LeavesAt(sha, a, i);
      LeavesAt(sha, b, i);
      assert LeafInput(a[i]) in Absorbed(sha, a) && LeafInput(b[i]) in Absorbed(sha, b);
      LeafInputDecides(a[i], b[i]);
    }
  }
}
