/** Merkle branches over a hash without collisions. */
module Merkle {
  import opened Arithmetic
  import opened Primitives

  ghost predicate CollisionFree(hash: (Root, Root) -> Root) {
    forall a, b, c, d :: hash(a, b) == hash(c, d) ==> a == c && b == d
  }

  function Pow2(k: nat): (p: nat)
    ensures p > 0
  {
    if k == 0 then 1 else 2 * Pow2(k - 1)
  }

  // ---------- trees, level by level ----------

  /** The level above: every two neighbours hashed together. */
  function Parents(hash: (Root, Root) -> Root, level: seq<Root>): (p: seq<Root>)
    requires |level| % 2 == 0
    ensures |p| == |level| / 2
  {
    seq(|level| / 2, i requires 0 <= i < |level| / 2 => hash(level[2 * i], level[2 * i + 1]))
  }

  function MerkleRoot(hash: (Root, Root) -> Root, leaves: seq<Root>, depth: nat): Root
    requires |leaves| == Pow2(depth)
    decreases depth
  {
    if depth == 0 then leaves[0] else MerkleRoot(hash, Parents(hash, leaves), depth - 1)
  }

  function Sibling(index: nat): nat {
    if index % 2 == 0 then index + 1 else index - 1
  }

  /** The siblings on the way from leaf `index` to the root, lowest first. */
  function Path(hash: (Root, Root) -> Root, leaves: seq<Root>, depth: nat, index: nat): (path: seq<Root>)
    requires |leaves| == Pow2(depth) && index < |leaves|
    ensures |path| == depth
    decreases depth
  {
    if depth == 0 then []
    else [leaves[Sibling(index)]] + Path(hash, Parents(hash, leaves), depth - 1, index / 2)
  }

  // ---------- branches ----------

  function Combine(hash: (Root, Root) -> Root, value: Root, sibling: Root, index: nat): Root {
    if index % 2 == 1 then hash(sibling, value) else hash(value, sibling)
  }

  /** The root that a leaf and a branch lead to. */
  function Climb(hash: (Root, Root) -> Root, value: Root, branch: seq<Root>, index: nat): Root
    decreases |branch|
  {
    if branch == [] then value else Climb(hash, Combine(hash, value, branch[0], index), branch[1..], index / 2)
  }

  lemma SpreadHalf(p: nat, h: nat, b: nat)
    ensures p * (2 * h + b) == (2 * p) * h + p * b
  {
  }

  lemma HalveTwice(index: nat, p: nat)
    requires p > 0
    ensures index / p / 2 == index / (2 * p)
  {
    var q, r := index / p, index % p;
    var h, b := q / 2, q % 2;
    SpreadHalf(p, h, b);
    assert p * b == if b == 1 then p else 0;
    DivUnique(index, 2 * p, h, p * b + r);
  }

  /** `is_valid_merkle_branch`. A branch shorter than the depth makes the source fail on an index. */
  method IsValidMerkleBranch(hash: (Root, Root) -> Root, leaf: Root, branch: seq<Root>, depth: nat, index: nat, root: Root)
    returns (valid: Option<bool>)
    ensures valid.None? <==> |branch| < depth
    ensures valid.Some? ==> (valid.value <==> Climb(hash, leaf, branch[..depth], index) == root)
  {
    if |branch| < depth { return None; }
    var value := leaf;
    ghost var shifted := index;
    for i := 0 to depth
      invariant shifted == index / Pow2(i)
      invariant Climb(hash, value, branch[i..depth], shifted) == Climb(hash, leaf, branch[..depth], index)
    {
      ghost var rest := branch[i..depth];
      assert rest[0] == branch[i] && rest[1..] == branch[i + 1..depth];
      if index / Pow2(i) % 2 == 1 {
        value := hash(branch[i], value);
      } else {
        value := hash(value, branch[i]);
      }
      HalveTwice(index, Pow2(i));
      shifted := shifted / 2;
    }
    valid := Some(value == root);
  }

  lemma CombineInjective(hash: (Root, Root) -> Root, v: Root, s: Root, w: Root, t: Root, index: nat)
    requires CollisionFree(hash)
    ensures Combine(hash, v, s, index) == Combine(hash, w, t, index) <==> v == w && s == t
  {
  }

  lemma ParentCombines(hash: (Root, Root) -> Root, level: seq<Root>, index: nat)
    requires |level| % 2 == 0 && index < |level|
    ensures Sibling(index) < |level|
    ensures Parents(hash, level)[index / 2] == Combine(hash, level[index], level[Sibling(index)], index)
  {
  }

  lemma HeadAndTail(a: seq<Root>, b: seq<Root>)
    requires |a| == |b| > 0
    ensures a == b <==> a[0] == b[0] && a[1..] == b[1..]
  {
    assert a == [a[0]] + a[1..] && b == [b[0]] + b[1..];
  }

  lemma PathHead(hash: (Root, Root) -> Root, leaves: seq<Root>, depth: nat, index: nat)
    requires depth > 0 && |leaves| == Pow2(depth) && index < |leaves|
    ensures Sibling(index) < |leaves| && Path(hash, leaves, depth, index)[0] == leaves[Sibling(index)]
    ensures Path(hash, leaves, depth, index)[1..] == Path(hash, Parents(hash, leaves), depth - 1, index / 2)
  {
    ParentCombines(hash, leaves, index);
    var above := Path(hash, Parents(hash, leaves), depth - 1, index / 2);
    assert Path(hash, leaves, depth, index) == [leaves[Sibling(index)]] + above;
  }

  /** A collision-free hash makes branches exact: among all leaves and branches of the right length, only
      the leaf at the index with its sibling path leads to the root. */
  lemma {:induction false} BranchExact(hash: (Root, Root) -> Root, leaves: seq<Root>, depth: nat, index: nat, leaf: Root, branch: seq<Root>)
    requires CollisionFree(hash) && |leaves| == Pow2(depth) && index < |leaves| && |branch| == depth
    ensures Climb(hash, leaf, branch, index) == MerkleRoot(hash, leaves, depth) <==>
      leaf == leaves[index] && branch == Path(hash, leaves, depth, index)
    decreases depth
  {
    if depth > 0 {
      var above := Parents(hash, leaves);
      BranchExact(hash, above, depth - 1, index / 2, Combine(hash, leaf, branch[0], index), branch[1..]);
      ParentCombines(hash, leaves, index);
      CombineInjective(hash, leaf, branch[0], leaves[index], leaves[Sibling(index)], index);
      PathHead(hash, leaves, depth, index);
      HeadAndTail(branch, Path(hash, leaves, depth, index));
    }
  }

  lemma LowBits(index: nat, p: nat)
    requires p > 0
    ensures index % (2 * p) % 2 == index % 2 && index % (2 * p) / 2 == index / 2 % p
  {
    var h, b := index / 2, index % 2;
    var q, r := h / p, h % p;
    SpreadTwo(p, q, r);
    DivUnique(index, 2 * p, q, 2 * r + b);
  }

  lemma SpreadTwo(p: nat, q: nat, r: nat)
    ensures 2 * (p * q + r) == (2 * p) * q + 2 * r
  {
  }

  /** Only the low `depth` bits of the index count. */
  lemma {:induction false} ClimbLowBits(hash: (Root, Root) -> Root, value: Root, branch: seq<Root>, index: nat)
    ensures Climb(hash, value, branch, index) == Climb(hash, value, branch, index % Pow2(|branch|))
    decreases |branch|
  {
    if branch != [] {
      LowBits(index, Pow2(|branch| - 1));
      ClimbLowBits(hash, Combine(hash, value, branch[0], index), branch[1..], index / 2);
    }
  }

  /** The exactness of branches for every index, in range or not. */
  lemma BranchExactAnyIndex(hash: (Root, Root) -> Root, leaves: seq<Root>, depth: nat, index: nat, leaf: Root, branch: seq<Root>)
    requires CollisionFree(hash) && |leaves| == Pow2(depth) && |branch| == depth
    ensures Climb(hash, leaf, branch, index) == MerkleRoot(hash, leaves, depth) <==>
      leaf == leaves[index % Pow2(depth)] && branch == Path(hash, leaves, depth, index % Pow2(depth))
  {
    ClimbLowBits(hash, leaf, branch, index);
    BranchExact(hash, leaves, depth, index % Pow2(depth), leaf, branch);
  }
}
