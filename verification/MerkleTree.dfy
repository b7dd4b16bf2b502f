/** The domain-separated Merkle root (section 2.1 of RFC 6962): leaves are hashed under
    0x00, internal nodes under 0x01, and a list is split at the largest power of two below
    its length. */
module MerkleTree {
  import opened ContentHash
  import opened TextOrder

  const LEAF_PREFIX: string := "\0"
  const NODE_PREFIX: string := "\U{1}"

  ghost predicate PowerOfTwo(k: nat) {
    k == 1 || (k > 1 && k % 2 == 0 && PowerOfTwo(k / 2))
  }

  lemma {:induction false} PowersApart(j: nat, k: nat)
    requires PowerOfTwo(j) && PowerOfTwo(k) && j < k
    ensures 2 * j <= k
  {
    if j > 1 { PowersApart(j / 2, k / 2); }
  }

  /** The largest power of two strictly below `n`, as doubling from `k` reaches it. */
  function SplitPoint(n: nat, k: nat := 1): (r: nat)
    requires 1 <= k < n
    ensures k <= r < n <= 2 * r
    decreases n - k
  {
    if k * 2 < n then SplitPoint(n, k * 2) else k
  }

  lemma {:induction false} SplitPointIsPower(n: nat, k: nat := 1)
    requires 1 <= k < n && PowerOfTwo(k)
    ensures PowerOfTwo(SplitPoint(n, k))
    decreases n - k
  {
    if k * 2 < n { SplitPointIsPower(n, k * 2); }
  }

  /** The RFC's definition of the split pins the doubling loop's result. */
  lemma SplitPointExact(n: nat, k: nat)
    requires n > 1
    ensures k == SplitPoint(n) <==> PowerOfTwo(k) && k < n <= 2 * k
  {
    SplitPointIsPower(n);
    var s := SplitPoint(n);
    if PowerOfTwo(k) && k < n <= 2 * k && k != s {
      if k < s { PowersApart(k, s); } else { PowersApart(s, k); }
    }
  }

  function TreeHash(h: Hash, leaves: seq<string>): string
    requires leaves != []
    decreases |leaves|
  {
    if |leaves| == 1 then h(LEAF_PREFIX + leaves[0])
    else
      var k := SplitPoint(|leaves|);
      h(NODE_PREFIX + TreeHash(h, leaves[..k]) + TreeHash(h, leaves[k..]))
  }

  function Power(exponent: nat): (r: nat)
    ensures r > 0
  {
    if exponent == 0 then 1 else 2 * Power(exponent - 1)
  }

  lemma {:induction false} PowerIsPower(exponent: nat)
    ensures PowerOfTwo(Power(exponent))
  {
    if exponent > 0 { PowerIsPower(exponent - 1); }
  }

  /** What is hashed for a list: a zero and the leaf for a single one; for more a one and the
      hashes of both halves, the left half being the largest power of two that is too short. */
  lemma TreeMeaning(h: Hash, leaves: seq<string>, exponent: nat)
    requires leaves != []
    ensures |leaves| == 1 ==> TreeHash(h, leaves) == h([0 as char] + leaves[0])
    ensures Power(exponent) < |leaves| <= 2 * Power(exponent) ==>
              TreeHash(h, leaves) == h([1 as char] + TreeHash(h, leaves[..Power(exponent)])
                                       + TreeHash(h, leaves[Power(exponent)..]))
  {
    if Power(exponent) < |leaves| <= 2 * Power(exponent) {
      PowerIsPower(exponent);
      SplitPointExact(|leaves|, Power(exponent));
      assert NODE_PREFIX == [1 as char];
    } else {
      assert LEAF_PREFIX == [0 as char];
    }
  }

  /** Every text `TreeHash` feeds to the hash. */
  ghost function TreeTexts(h: Hash, leaves: seq<string>): set<string>
    requires leaves != []
    decreases |leaves|
  {
    if |leaves| == 1 then {LEAF_PREFIX + leaves[0]}
    else
      var k := SplitPoint(|leaves|);
      {NODE_PREFIX + TreeHash(h, leaves[..k]) + TreeHash(h, leaves[k..])}
      + TreeTexts(h, leaves[..k]) + TreeTexts(h, leaves[k..])
  }

  method MerkleTreeHash(h: Hash, leaves: seq<string>) returns (root: string)
    requires leaves != []
    ensures root == TreeHash(h, leaves)
    decreases |leaves|
  {
    var n := |leaves|;
    if n == 1 {
      return h(LEAF_PREFIX + leaves[0]);
    }
    var k := 1;
    while k * 2 < n
      invariant 1 <= k < n && SplitPoint(n, k) == SplitPoint(n)
      decreases n - k
    {
      k := k * 2;
    }
    var left := MerkleTreeHash(h, leaves[..k]);
    var right := MerkleTreeHash(h, leaves[k..]);
    root := h(NODE_PREFIX + left + right);
  }

  lemma NodeTextInjective(left: string, right: string, left': string, right': string)
    requires |left| == |left'|
    requires NODE_PREFIX + left + right == NODE_PREFIX + left' + right'
    ensures left == left' && right == right'
  {
    var t, t' := NODE_PREFIX + left + right, NODE_PREFIX + left' + right';
    assert left == t[1..1 + |left|] && left' == t'[1..1 + |left|];
    assert right == t[1 + |left|..] && right' == t'[1 + |left|..];
  }

  /** The text whose digest is the tree hash; its first character tells leaf from node. */
  lemma LeafText(h: Hash, leaves: seq<string>) returns (t: string)
    requires |leaves| == 1
    ensures h(t) == TreeHash(h, leaves) && t in TreeTexts(h, leaves)
    ensures t != [] && t[0] == '\0' && [t[1..]] == leaves
  {
    t := LEAF_PREFIX + leaves[0];
  }

  lemma NodeText(h: Hash, leaves: seq<string>)
    returns (t: string, l: seq<string>, r: seq<string>, left: string, right: string)
    requires |leaves| > 1
    ensures h(t) == TreeHash(h, leaves) && t in TreeTexts(h, leaves)
    ensures t == NODE_PREFIX + left + right && |left| == |right| == DIGEST_LENGTH
    ensures l + r == leaves && l != [] && r != [] && left == TreeHash(h, l) && right == TreeHash(h, r)
    ensures TreeTexts(h, l) <= TreeTexts(h, leaves) && TreeTexts(h, r) <= TreeTexts(h, leaves)
  {
    var k := SplitPoint(|leaves|);
    l, r := leaves[..k], leaves[k..];
    left, right := TreeHash(h, l), TreeHash(h, r);
    t := NODE_PREFIX + left + right;
  }

  /** Ordered leaf lists of ANY two lengths with one tree hash are equal, or the two
      computations hash two different texts `x` and `y` to one digest. */
  lemma {:induction false} TreeBinding(h: Hash, a: seq<string>, b: seq<string>) returns (x: string, y: string)
    requires a != [] && b != [] && TreeHash(h, a) == TreeHash(h, b) && a != b
    ensures x in TreeTexts(h, a) && y in TreeTexts(h, b) && Collides(h, x, y)
    decreases |a|
  {
    if |a| == 1 && |b| == 1 {
      x := LeafText(h, a);
      y := LeafText(h, b);
    } else if |a| == 1 {
      x := LeafText(h, a);
      var t, _, _, _, _ := NodeText(h, b);
      y := t;
    } else if |b| == 1 {
      var t, _, _, _, _ := NodeText(h, a);
      x := t;
      y := LeafText(h, b);
    } else {
      x, y := NodeBinding(h, a, b);
    }
  }

  lemma {:induction false} NodeBinding(h: Hash, a: seq<string>, b: seq<string>) returns (x: string, y: string)
    requires |a| > 1 && |b| > 1 && TreeHash(h, a) == TreeHash(h, b) && a != b
    ensures x in TreeTexts(h, a) && y in TreeTexts(h, b) && Collides(h, x, y)
    decreases |a|, 0
  {
    var l, r, left, right;
    var l', r', left', right';
    x, l, r, left, right := NodeText(h, a);
    y, l', r', left', right' := NodeText(h, b);
    if x == y {
      NodeTextInjective(left, right, left', right');
      if l != l' {
        x, y := TreeBinding(h, l, l');
      } else {
        x, y := TreeBinding(h, r, r');
      }
    }
  }

  lemma GenesisApart(h: Hash, leaves: seq<string>) returns (t: string)
    requires leaves != []
    ensures h(t) == TreeHash(h, leaves) && t in TreeTexts(h, leaves) && t != GENESIS_TEXT
  {
    GenesisShape();
    if |leaves| == 1 {
      t := LeafText(h, leaves);
    } else {
      var n, _, _, _, _ := NodeText(h, leaves);
      t := n;
    }
  }

  /** `merkle_root`: the tree hash of the sorted leaves, and the chain genesis for none. */
  function MerkleRoot(h: Hash, hashes: seq<string>): string {
    var nodes := Sort(hashes);
    if nodes == [] then ChainGenesis(h) else TreeHash(h, nodes)
  }

  ghost function RootTexts(h: Hash, hashes: seq<string>): set<string> {
    var nodes := Sort(hashes);
    if nodes == [] then {GENESIS_TEXT} else TreeTexts(h, nodes)
  }

  method ComputeMerkleRoot(h: Hash, hashes: seq<string>) returns (root: string)
    ensures root == MerkleRoot(h, hashes)
  {
    var nodes := Sort(hashes);
    if nodes == [] {
      return ChainGenesis(h);
    }
    root := MerkleTreeHash(h, nodes);
  }

  /** The root of leaves in any order is the tree hash of the same leaves in order, or, where
      there is none, the digest of the genesis text. */
  lemma RootMeaning(h: Hash, hashes: seq<string>, nodes: seq<string>)
    requires multiset(nodes) == multiset(hashes) && IsSorted(nodes)
    ensures nodes == [] ==> MerkleRoot(h, hashes) == h("deepthought/" + "evaluation-contract/chain-genesis/v1")
    ensures nodes != [] ==> MerkleRoot(h, hashes) == TreeHash(h, nodes)
  {
    GenesisMeaning(h);
    SortSorted(hashes);
    SortedUnique(Sort(hashes), nodes);
  }

  /** Order does not matter: one multiset of leaves, one root. */
  lemma RootOfMultiset(h: Hash, a: seq<string>, b: seq<string>)
    requires multiset(a) == multiset(b)
    ensures MerkleRoot(h, a) == MerkleRoot(h, b)
  {
    SortCanonical(a, b);
  }

  /** Binding: leaf lists that differ as multisets, of whatever lengths (the empty list and
      duplicated leaves included), can share a root only through a hash collision. */
  lemma RootBinding(h: Hash, a: seq<string>, b: seq<string>)
    requires MerkleRoot(h, a) == MerkleRoot(h, b)
    ensures multiset(a) == multiset(b) || Collision(h, RootTexts(h, a), RootTexts(h, b))
  {
    if multiset(a) != multiset(b) {
      SortCanonical(a, b);
      var x, y := SortedBinding(h, Sort(a), Sort(b));
      assert x in RootTexts(h, a) && y in RootTexts(h, b);
    }
  }

  lemma SortedBinding(h: Hash, a: seq<string>, b: seq<string>) returns (x: string, y: string)
    requires a != b
    requires (if a == [] then ChainGenesis(h) else TreeHash(h,
        a)) == if b == [] then ChainGenesis(h) else TreeHash(h, b)
    ensures x in (if a == [] then {GENESIS_TEXT} else TreeTexts(h, a))
    ensures y in (if b == [] then {GENESIS_TEXT} else TreeTexts(h, b))
    ensures Collides(h, x, y)
  {
    if a != [] && b != [] {
      x, y := TreeBinding(h, a, b);
    } else {
      x, y := GENESIS_TEXT, GENESIS_TEXT;
      if a == [] { y := GenesisApart(h, b); } else { x := GenesisApart(h, a); }
    }
  }

  /** The duplicate-leaf second preimage (CVE-2012-2459) is closed: repeating a leaf
      changes the root, or exhibits a collision. */
  lemma DuplicateLeafChangesRoot(h: Hash, a: seq<string>, x: string)
    requires MerkleRoot(h, a + [x]) == MerkleRoot(h, a + [x, x])
    ensures Collision(h, RootTexts(h, a + [x]), RootTexts(h, a + [x, x]))
  {
    assert |multiset(a + [x])| == |a| + 1 && |multiset(a + [x, x])| == |a| + 2;
    RootBinding(h, a + [x], a + [x, x]);
  }
}
