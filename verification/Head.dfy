/** `get_head`: the viable part of the tree, and the greedy heaviest path through it. */
module Head {
  import opened Primitives
  import opened BeaconChain
  import opened ForkChoice
  import opened StoreRuns
  import opened Weight

  // ---------- viability ----------

  function GetVotingSource(st: Store, r: Root): Checkpoint
    requires r in st.blocks && r in st.unrealizedJustifications && r in st.blockStates
  {
    if CurrentStoreEpoch(st) > EpochAt(st.blocks[r].slot) then st.unrealizedJustifications[r]
    else st.blockStates[r].currentJustified
  }

  predicate CorrectJustified(st: Store, r: Root)
    requires r in st.blocks && r in st.unrealizedJustifications && r in st.blockStates
  {
    var cur, source := CurrentStoreEpoch(st), GetVotingSource(st, r);
    || st.justified.epoch == 0
    || source.epoch == st.justified.epoch
    || source.epoch + 2 >= cur
    || (&& st.justified.epoch + 1 == cur
        && st.unrealizedJustifications[r].epoch >= st.justified.epoch
        && source.epoch + 2 >= cur)
  }

  /** The second check, for a justified previous epoch, never changes the answer of the first. */
  lemma PulledUpCheckRedundant(st: Store, r: Root)
    requires r in st.blocks && r in st.unrealizedJustifications && r in st.blockStates
    ensures CorrectJustified(st, r) <==>
      || st.justified.epoch == 0
      || GetVotingSource(st, r).epoch == st.justified.epoch
      || GetVotingSource(st, r).epoch + 2 >= CurrentStoreEpoch(st)
  {
  }

  predicate CorrectFinalized(st: Store, r: Root) {
    || st.finalized.epoch == 0
    || GetCheckpointBlock(st.blocks, r, st.finalized.epoch) == Some(st.finalized.root)
  }

  predicate IsLeaf(blocks: map<Root, Block>, r: Root) {
    Children(blocks, r) == {}
  }

  predicate Keyed(st: Store) {
    st.blocks.Keys == st.unrealizedJustifications.Keys == st.blockStates.Keys
  }

  predicate ViableLeaf(st: Store, r: Root)
    requires Keyed(st)
  {
    r in st.blocks && IsLeaf(st.blocks, r) && CorrectJustified(st, r) && CorrectFinalized(st, r)
  }

  /** Some leaf of the whole store at or below `r` passes the justified and finalized checks. */
  ghost predicate HasViableLeaf(st: Store, r: Root)
    requires Keyed(st)
  {
    exists leaf :: ViableLeaf(st, leaf) && Supports(st.blocks, leaf, r)
  }

  lemma ViableThroughChild(n: Network, st: Store, r: Root)
    requires Keyed(st) && Tree(n, st.blocks) && r in st.blocks
    ensures HasViableLeaf(st, r) <==>
      ViableLeaf(st, r) || exists c :: c in Children(st.blocks, r) && HasViableLeaf(st, c)
  {
    if HasViableLeaf(st, r) {
      var leaf :| ViableLeaf(st, leaf) && Supports(st.blocks, leaf, r);
      if leaf != r {
        var c := ChildTowards(n, st.blocks, leaf, r);
        assert HasViableLeaf(st, c);
      }
    }
    if c :| c in Children(st.blocks, r) && HasViableLeaf(st, c) {
      var leaf :| ViableLeaf(st, leaf) && Supports(st.blocks, leaf, c);
      SupportsParent(n, st.blocks, leaf, c, r);
    }
    assert Supports(st.blocks, r, r);
  }

  // ---------- filter_block_tree ----------

  /** The blocks at or below `r` that lead to a viable leaf. */
  ghost function ViableBelow(st: Store, r: Root): set<Root>
    requires Keyed(st)
  {
    set x | x in st.blocks && Supports(st.blocks, x, r) && HasViableLeaf(st, x)
  }

  ghost function ViableUnder(st: Store, roots: set<Root>): set<Root>
    requires Keyed(st)
  {
    set x | x in st.blocks && exists c :: c in roots && x in ViableBelow(st, c)
  }

  lemma ViableBelowChildren(n: Network, st: Store, r: Root)
    requires Keyed(st) && Tree(n, st.blocks) && r in st.blocks
    ensures ViableBelow(st, r) ==
      ViableUnder(st, Children(st.blocks, r)) + if HasViableLeaf(st, r) then {r} else {}
  {
    forall x | x in ViableBelow(st, r) && x != r ensures x in ViableUnder(st, Children(st.blocks, r)) {
      var c := ChildTowards(n, st.blocks, x, r);
      assert x in ViableBelow(st, c);
    }
    forall x, c | c in Children(st.blocks, r) && x in ViableBelow(st, c) ensures x in ViableBelow(st, r) {
      SupportsParent(n, st.blocks, x, c, r);
    }
    assert Supports(st.blocks, r, r);
  }

  /** `m` with the entries of `src` at the keys `s`. */
  ghost function Overlay(m: map<Root, Block>, src: map<Root, Block>, s: set<Root>): map<Root, Block>
    requires s <= src.Keys
  {
    map x | x in m.Keys + s :: if x in s then src[x] else m[x]
  }

  lemma OverlayTwice(m: map<Root, Block>, src: map<Root, Block>, s: set<Root>, t: set<Root>)
    requires s <= src.Keys && t <= src.Keys
    ensures Overlay(Overlay(m, src, s), src, t) == Overlay(m, src, s + t)
  {
  }

  lemma OverlayOne(m: map<Root, Block>, src: map<Root, Block>, s: set<Root>, r: Root)
    requires s <= src.Keys && r in src
    ensures Overlay(m, src, s)[r := src[r]] == Overlay(m, src, s + {r})
  {
  }

  lemma OverlayNone(m: map<Root, Block>, src: map<Root, Block>)
    ensures Overlay(m, src, {}) == m
  {
  }

  lemma ViableUnderMore(st: Store, roots: set<Root>, c: Root)
    requires Keyed(st)
    ensures ViableUnder(st, roots + {c}) == ViableUnder(st, roots) + ViableBelow(st, c)
  {
  }

  ghost function Above(st: Store, r: Root): set<Root>
    requires r in st.blocks
  {
    set x | x in st.blocks && st.blocks[x].slot > st.blocks[r].slot
  }

  /** The loop over the children: each is searched, also after one was found viable. */
  method FilterChildren(ghost n: Network, st: Store, r: Root, blocks: map<Root, Block>)
    returns (viable: bool, filtered: map<Root, Block>)
    requires Keyed(st) && Tree(n, st.blocks) && r in st.blocks
    ensures viable <==> exists c :: c in Children(st.blocks, r) && HasViableLeaf(st, c)
    ensures filtered == Overlay(blocks, st.blocks, ViableUnder(st, Children(st.blocks, r)))
    decreases Above(st, r), 0
  {
    var children := Children(st.blocks, r);
    var left := children;
    viable, filtered := false, blocks;
    ghost var done: set<Root> := {};
    ghost var added: set<Root> := {};
    assert ViableUnder(st, {}) == {};
    OverlayNone(blocks, st.blocks);
    while left != {}
      invariant left + done == children && left !! done
      invariant viable <==> exists c :: c in done && HasViableLeaf(st, c)
      invariant added == ViableUnder(st, done) && filtered == Overlay(blocks, st.blocks, added)
      decreases left
    {
      var c :| c in left;
      ChildSlot(n, st.blocks, c, r);
      assert c in Above(st, r) && c !in Above(st, c);
      var found: bool;
      found, filtered := FilterBlockTree(n, st, c, filtered);
      OverlayTwice(blocks, st.blocks, added, ViableBelow(st, c));
      ViableUnderMore(st, done, c);
      viable := viable || found;
      left, done, added := left - {c}, done + {c}, added + ViableBelow(st, c);
    }
    assert done == children;
  }

  // What the two cases of the filter have to establish.
  lemma FilterCases(n: Network, st: Store, r: Root, under: set<Root>)
    requires Keyed(st) && Tree(n, st.blocks) && r in st.blocks && under == ViableUnder(st, Children(st.blocks, r))
    ensures Children(st.blocks, r) != {} ==>
      (HasViableLeaf(st, r) <==> exists c :: c in Children(st.blocks, r) && HasViableLeaf(st, c))
    ensures Children(st.blocks, r) == {} ==>
      under == {} && (HasViableLeaf(st, r) <==> CorrectJustified(st, r) && CorrectFinalized(st, r))
    ensures ViableBelow(st, r) == if HasViableLeaf(st, r) then under + {r} else under
  {
    ViableThroughChild(n, st, r);
    ViableBelowChildren(n, st, r);
  }

  /** Adds exactly the viable blocks at or below `r` to the dictionary, whatever the order of children. */
  method FilterBlockTree(ghost n: Network, st: Store, r: Root, blocks: map<Root, Block>)
    returns (viable: bool, filtered: map<Root, Block>)
    requires Keyed(st) && Tree(n, st.blocks) && r in st.blocks
    ensures viable <==> HasViableLeaf(st, r)
    ensures filtered == Overlay(blocks, st.blocks, ViableBelow(st, r))
    decreases Above(st, r), 1
  {
    ghost var under := ViableUnder(st, Children(st.blocks, r));
    FilterCases(n, st, r, under);
    if Children(st.blocks, r) != {} {
      viable, filtered := FilterChildren(n, st, r, blocks);
    } else {
      viable, filtered := CorrectJustified(st, r) && CorrectFinalized(st, r), blocks;
      OverlayNone(blocks, st.blocks);
    }
    assert filtered == Overlay(blocks, st.blocks, under);
    if viable {
      OverlayOne(blocks, st.blocks, under, r);
      filtered := filtered[r := st.blocks[r]];
    }
  }

  // ---------- the heaviest path ----------

  lemma SupportsTransitive(blocks: map<Root, Block>, x: Root, y: Root, z: Root)
    requires Supports(blocks, x, y) && Supports(blocks, y, z)
    ensures Supports(blocks, x, z)
  {
    if blocks[z].slot <= blocks[y].slot {
      AncestorTwice(blocks, x, blocks[y].slot, blocks[z].slot);
    }
  }

  /** The order of `max`: by weight, ties by the higher root. */
  predicate NotHeavier(weight: Root -> nat, c: Root, b: Root) {
    weight(c) < weight(b) || (weight(c) == weight(b) && c <= b)
  }

  ghost predicate BestChild(st: Store, weight: Root -> nat, parent: Root, b: Root)
    requires Keyed(st)
  {
    && b in Children(st.blocks, parent) && HasViableLeaf(st, b)
    && (forall c :: c in Children(st.blocks, parent) && HasViableLeaf(st, c) ==> NotHeavier(weight, c, b))
  }

  predicate OnPath(st: Store, base: Root, b: Root, head: Root) {
    b in st.blocks && b != base && Supports(st.blocks, head, b) && Supports(st.blocks, b, base)
  }

  /** At every step from `base` down to `head` the heaviest viable child was taken. */
  ghost predicate Greedy(st: Store, weight: Root -> nat, base: Root, head: Root)
    requires Keyed(st)
  {
    forall b :: OnPath(st, base, b, head) ==> BestChild(st, weight, st.blocks[b].parentRoot, b)
  }

  /** The head below `base`: a viable leaf of the whole store on a greedy path, or `base` itself if
      nothing below it is viable. */
  ghost predicate IsHead(st: Store, weight: Root -> nat, base: Root, head: Root)
    requires Keyed(st)
  {
    && head in st.blocks && Supports(st.blocks, head, base)
    && Greedy(st, weight, base, head)
    && (if HasViableLeaf(st, base) then ViableLeaf(st, head) else head == base)
  }

  lemma StepDown(n: Network, st: Store, base: Root, x: Root, h: Root) returns (c: Root)
    requires Tree(n, st.blocks) && base in st.blocks && x in st.blocks && h in st.blocks && h != x
    requires Supports(st.blocks, x, base) && Supports(st.blocks, h, x)
    ensures c in Children(st.blocks, x) && Supports(st.blocks, h, c) && OnPath(st, base, c, h)
    ensures c in Above(st, x) && c !in Above(st, c)
  {
    c := ChildTowards(n, st.blocks, h, x);
    ChildSlot(n, st.blocks, c, x);
    SupportsTransitive(st.blocks, c, x, base);
  }

  lemma {:induction false} SamePath(n: Network, st: Store, weight: Root -> nat, base: Root, x: Root, h1: Root, h2: Root)
    requires Keyed(st) && Tree(n, st.blocks) && base in st.blocks && x in st.blocks && Supports(st.blocks, x, base)
    requires h1 in st.blocks && IsLeaf(st.blocks, h1) && Greedy(st, weight, base, h1) && Supports(st.blocks, h1, x)
    requires h2 in st.blocks && IsLeaf(st.blocks, h2) && Greedy(st, weight, base, h2) && Supports(st.blocks, h2, x)
    ensures h1 == h2
    decreases Above(st, x)
  {
    if h1 != x && h2 != x {
      var c1 := StepDown(n, st, base, x, h1);
      var c2 := StepDown(n, st, base, x, h2);
      assert BestChild(st, weight, x, c1) && BestChild(st, weight, x, c2);
      assert c1 == c2;
      SamePath(n, st, weight, base, c1, h1, h2);
    } else if h1 != x {
      var c1 := StepDown(n, st, base, x, h1);
    } else if h2 != x {
      var c2 := StepDown(n, st, base, x, h2);
    }
  }

  /** The conditions on a head leave no choice. */
  lemma HeadUnique(n: Network, st: Store, weight: Root -> nat, base: Root, h1: Root, h2: Root)
    requires Keyed(st) && Tree(n, st.blocks) && base in st.blocks
    requires IsHead(st, weight, base, h1) && IsHead(st, weight, base, h2)
    ensures h1 == h2
  {
    if HasViableLeaf(st, base) {
      SamePath(n, st, weight, base, base, h1, h2);
    }
  }

  /** On the way to the head every block outweighs each viable sibling, or equals it with the higher root. */
  lemma PathIsHeaviest(st: Store, weight: Root -> nat, base: Root, head: Root, b: Root, c: Root)
    requires Keyed(st) && IsHead(st, weight, base, head) && OnPath(st, base, b, head)
    requires c in st.blocks && c != b && st.blocks[c].parentRoot == st.blocks[b].parentRoot && HasViableLeaf(st, c)
    ensures weight(c) < weight(b) || (weight(c) == weight(b) && c < b)
  {
    assert c in Children(st.blocks, st.blocks[b].parentRoot);
    assert BestChild(st, weight, st.blocks[b].parentRoot, b);
  }

  /** Past genesis, the head descends from the finalized checkpoint. */
  lemma HeadDescendsFromFinalized(st: Store, weight: Root -> nat, base: Root, h: Root)
    requires Keyed(st) && IsHead(st, weight, base, h) && HasViableLeaf(st, base) && st.finalized.epoch > 0
    ensures GetCheckpointBlock(st.blocks, h, st.finalized.epoch) == Some(st.finalized.root)
  {
  }

  // ---------- get_head ----------

  /** `max(children, key=(weight, root))`. */
  method Heaviest(weight: Root -> nat, children: set<Root>) returns (best: Root)
    requires children != {}
    ensures best in children
    ensures forall c :: c in children ==> NotHeavier(weight, c, best)
  {
    best :| best in children;
    var left := children - {best};
    while left != {}
      invariant left <= children && best in children
      invariant forall c :: c in children && c !in left ==> NotHeavier(weight, c, best)
      decreases left
    {
      var c :| c in left;
      if NotHeavier(weight, best, c) {
        best := c;
      }
      left := left - {c};
    }
  }

  ghost predicate Falling(s: seq<Root>) {
    forall i, j :: 0 <= i < j < |s| ==> s[i] > s[j]
  }

  method HighestRoot(roots: set<Root>) returns (highest: Root)
    requires roots != {}
    ensures highest in roots && forall r :: r in roots ==> r <= highest
  {
    highest :| highest in roots;
    var left := roots - {highest};
    while left != {}
      invariant highest in roots && left <= roots
      invariant forall r :: r in roots && r !in left ==> r <= highest
      decreases left
    {
      var r :| r in left;
      if r > highest { highest := r; }
      left := left - {r};
    }
  }

  /** The roots in falling order. */
  method SortFalling(roots: set<Root>) returns (sorted: seq<Root>)
    ensures Falling(sorted) && forall r :: r in sorted <==> r in roots
  {
    sorted := [];
    var left := roots;
    while left != {}
      invariant left <= roots && Falling(sorted)
      invariant forall r :: r in sorted <==> r in roots && r !in left
      invariant forall r, l :: r in sorted && l in left ==> l < r
      decreases left
    {
      var highest := HighestRoot(left);
      forall i | 0 <= i < |sorted| ensures sorted[i] > highest {
        assert sorted[i] in sorted && highest in left;
      }
      sorted := sorted + [highest];
      left := left - {highest};
    }
  }

  /** The client's choice: sort the candidates by falling root, then take the first of the greatest weight. */
  method ClientBestChild(weight: Root -> nat, candidates: set<Root>) returns (best: Root)
    requires candidates != {}
    ensures best in candidates
    ensures forall c :: c in candidates ==> NotHeavier(weight, c, best)
  {
    var sorted := SortFalling(candidates);
    var some :| some in candidates;
    assert some in sorted;
    var k: nat := 0;
    for i := 1 to |sorted|
      invariant k < i && forall j :: 0 <= j < i ==> NotHeavier(weight, sorted[j], sorted[k])
    {
      if weight(sorted[i]) > weight(sorted[k]) {
        k := i;
      }
    }
    best := sorted[k];
    assert forall c :: c in candidates ==> c in sorted;
  }

  // Going from `head` to its best viable child keeps the path greedy.
  lemma GreedyExtends(n: Network, st: Store, weight: Root -> nat, base: Root, head: Root, c: Root)
    requires Keyed(st) && Tree(n, st.blocks) && base in st.blocks && head in st.blocks
    requires Supports(st.blocks, head, base) && Greedy(st, weight, base, head) && BestChild(st, weight, head, c)
    ensures Supports(st.blocks, c, base) && Greedy(st, weight, base, c)
    ensures c in Above(st, head) && c !in Above(st, c)
  {
    ChildSlot(n, st.blocks, c, head);
    SupportsTransitive(st.blocks, c, head, base);
    forall b | OnPath(st, base, b, c) ensures BestChild(st, weight, st.blocks[b].parentRoot, b) {
      if b != c {
        assert st.blocks[b].slot < st.blocks[c].slot;
        assert GetAncestor(st.blocks, c, st.blocks[b].slot) == GetAncestor(st.blocks, head, st.blocks[b].slot);
        assert OnPath(st, base, b, head);
      }
    }
  }

  // The children of `head` in the filtered tree are its viable ones.
  lemma FilteredChildren(n: Network, st: Store, base: Root, head: Root, filtered: map<Root, Block>)
    requires Keyed(st) && Tree(n, st.blocks) && base in st.blocks && head in st.blocks && Supports(st.blocks, head, base)
    requires filtered == Overlay(map[], st.blocks, ViableBelow(st, base))
    ensures forall c :: c in filtered && filtered[c].parentRoot == head <==> c in Children(st.blocks, head) && HasViableLeaf(st, c)
  {
    forall c | c in Children(st.blocks, head) ensures Supports(st.blocks, c, base) {
      ChildSlot(n, st.blocks, c, head);
      SupportsTransitive(st.blocks, c, head, base);
    }
  }

  lemma NoViableChild(n: Network, st: Store, weight: Root -> nat, base: Root, head: Root)
    requires Keyed(st) && Tree(n, st.blocks) && base in st.blocks && head in st.blocks
    requires Supports(st.blocks, head, base) && Greedy(st, weight, base, head)
    requires (HasViableLeaf(st, base) && HasViableLeaf(st, head)) || (!HasViableLeaf(st, base) && head == base)
    requires forall c :: c in Children(st.blocks, head) ==> !HasViableLeaf(st, c)
    ensures IsHead(st, weight, base, head)
  {
    ViableThroughChild(n, st, head);
  }

  lemma NoStepYet(st: Store, weight: Root -> nat, base: Root)
    requires Keyed(st) && base in st.blocks
    ensures Walked(st, weight, base, base)
  {
  }

  /** The invariant of the walk from `base`. */
  ghost predicate Walked(st: Store, weight: Root -> nat, base: Root, head: Root)
    requires Keyed(st)
  {
    && head in st.blocks && Supports(st.blocks, head, base) && Greedy(st, weight, base, head)
    && ((HasViableLeaf(st, base) && HasViableLeaf(st, head)) || (!HasViableLeaf(st, base) && head == base))
  }

  /** One turn of the loop: the best child in the filtered tree, if there is one. */
  method NextHead(ghost n: Network, st: Store, weight: Root -> nat, base: Root, head: Root, filtered: map<Root, Block>)
    returns (next: Option<Root>)
    requires Keyed(st) && Tree(n, st.blocks) && base in st.blocks && Walked(st, weight, base, head)
    requires filtered == Overlay(map[], st.blocks, ViableBelow(st, base))
    ensures next.None? ==> IsHead(st, weight, base, head)
    ensures next.Some? ==> BestChild(st, weight, head, next.value)
  {
    var children := set c | c in filtered && filtered[c].parentRoot == head;
    FilteredChildren(n, st, base, head, filtered);
    assert forall c :: c in children <==> c in Children(st.blocks, head) && HasViableLeaf(st, c);
    if children == {} {
      NoViableChild(n, st, weight, base, head);
      return None;
    }
    var best := Heaviest(weight, children);
    next := Some(best);
  }

  lemma WalkContinues(n: Network, st: Store, weight: Root -> nat, base: Root, head: Root, c: Root)
    requires Keyed(st) && Tree(n, st.blocks) && base in st.blocks && Walked(st, weight, base, head) && BestChild(st, weight, head, c)
    ensures Walked(st, weight, base, c) && c in Above(st, head) && c !in Above(st, c)
    ensures Above(st, c) <= Above(st, head)
  {
    GreedyExtends(n, st, weight, base, head, c);
    ViableThroughChild(n, st, head);
  }

  method WalkDown(ghost n: Network, st: Store, weight: Root -> nat, base: Root, filtered: map<Root, Block>) returns (head: Root)
    requires Keyed(st) && Tree(n, st.blocks) && base in st.blocks
    requires filtered == Overlay(map[], st.blocks, ViableBelow(st, base))
    ensures IsHead(st, weight, base, head)
  {
    head := base;
    NoStepYet(st, weight, base);
    while true
      invariant Walked(st, weight, base, head)
      decreases Above(st, head)
    {
      var next := NextHead(n, st, weight, base, head, filtered);
      if next.None? { return; }
      WalkContinues(n, st, weight, base, head, next.value);
      head := next.value;
    }
  }

  ghost predicate HasViableChild(st: Store, r: Root)
    requires Keyed(st)
  {
    exists c :: c in Children(st.blocks, r) && HasViableLeaf(st, c)
  }

  method AnyFilteredChild(ghost n: Network, st: Store, base: Root, filtered: map<Root, Block>) returns (found: bool)
    requires Keyed(st) && Tree(n, st.blocks) && base in st.blocks
    requires filtered == Overlay(map[], st.blocks, ViableBelow(st, base))
    ensures found <==> HasViableChild(st, base)
  {
    var children := set c | c in filtered && filtered[c].parentRoot == base;
    FilteredChildren(n, st, base, base, filtered);
    assert forall c :: c in children <==> c in Children(st.blocks, base) && HasViableLeaf(st, c);
    found := children != {};
  }

  /** The lookup that `get_head` cannot do without: a child is to be weighed and the justified state is missing. */
  ghost predicate HeadFails(st: Store)
    requires Keyed(st)
  {
    st.justified !in st.checkpointStates && HasViableChild(st, st.justified.root)
  }

  function Weights(st: Store): Root -> nat
    requires st.justified in st.checkpointStates
  {
    r => WeightBy(st, st.checkpointStates[st.justified], r)
  }

  /** `get_head`. The weights need the state of the justified checkpoint, so the call fails with a missing
      key exactly when that state is not stored and there is a child to weigh; otherwise the result is the
      one head of the store. */
  method GetHead(ghost n: Network, st: Store) returns (head: Option<Root>)
    requires Keyed(st) && Tree(n, st.blocks) && st.justified.root in st.blocks
    ensures head.None? <==> HeadFails(st)
    ensures head.Some? && st.justified in st.checkpointStates ==> IsHead(st, Weights(st), st.justified.root, head.value)
    ensures head.Some? && st.justified !in st.checkpointStates ==> head.value == st.justified.root
  {
    var viable, filtered := FilterBlockTree(n, st, st.justified.root, map[]);
    if st.justified in st.checkpointStates {
      var found := WalkDown(n, st, Weights(st), st.justified.root, filtered);
      return Some(found);
    }
    var child := AnyFilteredChild(n, st, st.justified.root, filtered);
    head := if child then None else Some(st.justified.root);
  }

  /** Of two viable siblings, one whose voters trail by more than 40 percent of a thirty-second of the active stake is
      not on the way to the head, whichever of them is boosted. */
  lemma LeadTakesHead(st: Store, head: Root, x: Root, y: Root)
    requires Keyed(st) && st.justified in st.checkpointStates && IsHead(st, Weights(st), st.justified.root, head)
    requires x in st.blocks && y in st.blocks && st.blocks[x].parentRoot == st.blocks[y].parentRoot && HasViableLeaf(st, x)
    requires var state := st.checkpointStates[st.justified];
      100 * 32 * VoterStake(st, state, x) > 100 * 32 * VoterStake(st, state, y) + 40 * ActiveStake(state)
    ensures !OnPath(st, st.justified.root, y, head)
  {
    LeadBeatsBoost(st, st.checkpointStates[st.justified], x, y);
    if OnPath(st, st.justified.root, y, head) {
      PathIsHeaviest(st, Weights(st), st.justified.root, head, y, x);
    }
  }

  /** Every reachable store can be asked for its head. */
  lemma ReachableHead(n: Network, events: seq<Event>)
    requires ValidNetwork(n) && GetForkchoiceStore(n).Some?
    ensures var st := HandleAll(n, GetForkchoiceStore(n).value, events);
      Keyed(st) && Tree(n, st.blocks) && st.justified.root in st.blocks
  {
    ReachableStore(n, events);
  }

  /** A new store stands at the slot of its anchor, and the anchor is its head. */
  lemma AnchorIsHead(n: Network)
    requires ValidNetwork(n)
    ensures GetForkchoiceStore(n).Some?
    ensures var st := GetForkchoiceStore(n).value;
      && st.time == n.genesisTime + 12 * n.origin.block.slot && st.genesisTime == n.genesisTime
      && st.justified == st.finalized == Checkpoint(n.origin.block.slot / 32, AnchorRoot(n))
      && Keyed(st) && st.justified in st.checkpointStates
      && IsHead(st, Weights(st), AnchorRoot(n), AnchorRoot(n))
  {
    InitialTree(n);
    var st := GetForkchoiceStore(n).value;
    assert Supports(st.blocks, AnchorRoot(n), AnchorRoot(n));
    assert forall b :: !OnPath(st, AnchorRoot(n), b, AnchorRoot(n));
    if HasViableLeaf(st, AnchorRoot(n)) {
      var leaf :| ViableLeaf(st, leaf) && Supports(st.blocks, leaf, AnchorRoot(n));
      assert leaf == AnchorRoot(n);
    }
  }
}
