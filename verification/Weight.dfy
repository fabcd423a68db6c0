/** LMD-GHOST weights over the tree of a store. */
module Weight {
  import opened Primitives
  import opened BeaconChain
  import opened ForkChoice
  import opened StoreRuns

  const PROPOSER_SCORE_BOOST: nat := 40

  function Children(blocks: map<Root, Block>, r: Root): set<Root> {
    set c | c in blocks && blocks[c].parentRoot == r
  }

  /** `x` is `r` or one of its descendants: the walk from `x` back to the slot of `r` ends in `r`. */
  predicate Supports(blocks: map<Root, Block>, x: Root, r: Root) {
    r in blocks && GetAncestor(blocks, x, blocks[r].slot) == Some(r)
  }

  predicate VoteCounts(st: Store, state: State, i: nat) {
    && i < |state.validators| && IsActive(state.validators[i], CurrentEpoch(state)) && !state.validators[i].slashed
    && i in st.latestMessages && i !in st.equivocating
  }

  function VoteWeight(st: Store, state: State, r: Root, i: nat): nat {
    if VoteCounts(st, state, i) && Supports(st.blocks, st.latestMessages[i].root, r)
    then state.validators[i].effectiveBalance else 0
  }

  /** The votes for `r` among the first `k` validators. */
  function AttestationScore(st: Store, state: State, r: Root, k: nat): nat {
    if k == 0 then 0 else AttestationScore(st, state, r, k - 1) + VoteWeight(st, state, r, k - 1)
  }

  function ProposerScore(state: State): nat {
    TotalActiveBalance(state) / SLOTS_PER_EPOCH * PROPOSER_SCORE_BOOST / 100
  }

  function BoostWeight(st: Store, state: State, r: Root): nat {
    if st.boostRoot != ZERO_ROOT && Supports(st.blocks, st.boostRoot, r) then ProposerScore(state) else 0
  }

  function WeightBy(st: Store, state: State, r: Root): nat {
    AttestationScore(st, state, r, |state.validators|) + BoostWeight(st, state, r)
  }

  /** `get_weight`, which needs the state of the justified checkpoint. */
  function GetWeight(st: Store, r: Root): Option<nat> {
    if st.justified in st.checkpointStates && r in st.blocks then
      Some(WeightBy(st, st.checkpointStates[st.justified], r))
    else
      None
  }

  // ---------- votes as stake ----------

  /** The active, unslashed validators not known to equivocate whose latest vote is for `r` or below it. */
  ghost function Voters(st: Store, state: State, r: Root): set<nat> {
    set i | 0 <= i < |state.validators|
            && state.validators[i].activationEpoch <= CurrentEpoch(state) && CurrentEpoch(state) < state.validators[i].exitEpoch
            && !state.validators[i].slashed && i !in st.equivocating
            && i in st.latestMessages && r in st.blocks
            && GetAncestor(st.blocks, st.latestMessages[i].root, st.blocks[r].slot) == Some(r)
  }

  lemma {:induction false} ScoreOfPrefix(st: Store, state: State, r: Root, k: nat)
    requires k <= |state.validators|
    ensures AttestationScore(st, state, r, k) == SumOver(Balances(state.validators)[..k], Voters(st, state, r))
  {
    if k > 0 {
      ScoreOfPrefix(st, state, r, k - 1);
      var w := Balances(state.validators);
      assert w[..k][..k - 1] == w[..k - 1];
      assert k - 1 in Voters(st, state, r) <==> VoteCounts(st, state, k - 1) && Supports(st.blocks, st.latestMessages[k - 1].root, r);
    }
  }

  /** The votes for a block weigh what its voters have at stake, never more than the whole active stake. */
  lemma ScoreIsStake(st: Store, state: State, r: Root)
    ensures AttestationScore(st, state, r, |state.validators|) == SumOver(Balances(state.validators), Voters(st, state, r))
    ensures SumOver(Balances(state.validators), Voters(st, state, r)) <=
            SumOver(Balances(state.validators), ActiveIndices(state, CurrentEpoch(state)))
  {
    var w := Balances(state.validators);
    ScoreOfPrefix(st, state, r, |state.validators|);
    assert w[..|state.validators|] == w;
    SumOverMonotone(w, Voters(st, state, r), ActiveIndices(state, CurrentEpoch(state)));
  }

  /** The effective balance of all active validators, at least one increment. */
  ghost function ActiveStake(state: State): nat {
    var cur, vs := CurrentEpoch(state), state.validators;
    var stake := SumOver(Balances(vs), set i | 0 <= i < |vs| && vs[i].activationEpoch <= cur && cur < vs[i].exitEpoch);
    if stake < 1_000_000_000 then 1_000_000_000 else stake
  }

  ghost function VoterStake(st: Store, state: State, r: Root): nat {
    SumOver(Balances(state.validators), Voters(st, state, r))
  }

  lemma ActiveStakeIsTotal(state: State)
    ensures ActiveStake(state) == TotalActiveBalance(state)
  {
    var cur, vs := CurrentEpoch(state), state.validators;
    assert (set i | 0 <= i < |vs| && vs[i].activationEpoch <= cur && cur < vs[i].exitEpoch) == ActiveIndices(state, cur);
  }

  /** The boost is the greatest number of Gwei within 40 percent of the greatest whole thirty-second part of the stake. */
  lemma BoostExactly(state: State, share: nat, boost: nat)
    requires 32 * share <= ActiveStake(state) < 32 * (share + 1)
    requires 100 * boost <= 40 * share < 100 * (boost + 1)
    ensures ProposerScore(state) == boost
  {
    ActiveStakeIsTotal(state);
    assert TotalActiveBalance(state) / 32 == share;
  }

  /** What a block weighs: the stake of its voters, and the boost exactly if the boosted block is at or below it. */
  lemma WeightInStake(st: Store, state: State, r: Root, share: nat, boost: nat)
    requires r in st.blocks
    requires 32 * share <= ActiveStake(state) < 32 * (share + 1)
    requires 100 * boost <= 40 * share < 100 * (boost + 1)
    ensures WeightBy(st, state, r) ==
      VoterStake(st, state, r) +
      if st.boostRoot != ZERO_ROOT && GetAncestor(st.blocks, st.boostRoot, st.blocks[r].slot) == Some(r) then boost else 0
  {
    BoostExactly(state, share, boost);
    ScoreIsStake(st, state, r);
  }

  /** Whoever is boosted, a block whose voters lead by more than 40 percent of a thirty-second of the stake is heavier. */
  lemma LeadBeatsBoost(st: Store, state: State, x: Root, y: Root)
    requires x in st.blocks && y in st.blocks
    requires 100 * 32 * VoterStake(st, state, x) > 100 * 32 * VoterStake(st, state, y) + 40 * ActiveStake(state)
    ensures WeightBy(st, state, x) > WeightBy(st, state, y)
  {
    var share: nat := ActiveStake(state) / 32;
    var boost: nat := 40 * share / 100;
    WeightInStake(st, state, x, share, boost);
    WeightInStake(st, state, y, share, boost);
  }

  // ---------- sums over the children of a block ----------

  ghost function SumSet(s: set<Root>, f: Root -> nat): nat {
    if s == {} then 0
    else
      var x :| x in s;
      f(x) + SumSet(s - {x}, f)
  }

  lemma {:induction false} SumSetRemove(s: set<Root>, f: Root -> nat, x: Root)
    requires x in s
    ensures SumSet(s, f) == f(x) + SumSet(s - {x}, f)
  {
    var y :| y in s && SumSet(s, f) == f(y) + SumSet(s - {y}, f);
    if y != x {
      SumSetRemove(s - {y}, f, x);
      assert s - {y} - {x} == s - {x} - {y};
      SumSetRemove(s - {x}, f, y);
    }
  }

  lemma {:induction false} SumSetZero(s: set<Root>, f: Root -> nat)
    requires forall x :: x in s ==> f(x) == 0
    ensures SumSet(s, f) == 0
  {
    if s != {} {
      var x :| x in s;
      SumSetRemove(s, f, x);
      SumSetZero(s - {x}, f);
    }
  }

  lemma {:induction false} SumSetAdd(s: set<Root>, f: Root -> nat, g: Root -> nat, h: Root -> nat)
    requires forall x :: x in s ==> h(x) == f(x) + g(x)
    ensures SumSet(s, h) == SumSet(s, f) + SumSet(s, g)
  {
    if s != {} {
      var x :| x in s;
      SumSetRemove(s, f, x);
      SumSetRemove(s, g, x);
      SumSetRemove(s, h, x);
      SumSetAdd(s - {x}, f, g, h);
    }
  }

  // ---------- descent in a tree ----------

  /** Walking back in two stages is walking back at once. */
  lemma {:induction false} AncestorTwice(blocks: map<Root, Block>, x: Root, far: nat, near: nat)
    requires near <= far && GetAncestor(blocks, x, far).Some?
    ensures GetAncestor(blocks, x, near) == GetAncestor(blocks, GetAncestor(blocks, x, far).value, near)
    decreases if x in blocks then blocks[x].slot else 0
  {
    if x in blocks && blocks[x].slot > far {
      AncestorTwice(blocks, blocks[x].parentRoot, far, near);
    }
  }

  lemma ChildSlot(n: Network, blocks: map<Root, Block>, c: Root, r: Root)
    requires Tree(n, blocks) && r in blocks && c in Children(blocks, r)
    ensures c != AnchorRoot(n) && blocks[r].slot < blocks[c].slot && Supports(blocks, c, r)
  {
    assert ParentStored(n, blocks, c);
  }

  /** Below a child is below its parent. */
  lemma SupportsParent(n: Network, blocks: map<Root, Block>, x: Root, c: Root, r: Root)
    requires Tree(n, blocks) && r in blocks && c in Children(blocks, r) && Supports(blocks, x, c)
    ensures Supports(blocks, x, r) && x != r
  {
    ChildSlot(n, blocks, c, r);
    AncestorTwice(blocks, x, blocks[c].slot, blocks[r].slot);
  }

  /** The child of `r` on the way to a proper descendant `x`. */
  lemma {:induction false} ChildTowards(n: Network, blocks: map<Root, Block>, x: Root, r: Root) returns (c: Root)
    requires Tree(n, blocks) && x in blocks && x != r && Supports(blocks, x, r)
    ensures c in Children(blocks, r) && Supports(blocks, x, c)
    decreases blocks[x].slot
  {
    assert ParentStored(n, blocks, x);
    var parent := blocks[x].parentRoot;
    if parent == r {
      c := x;
    } else {
      c := ChildTowards(n, blocks, parent, r);
    }
  }

  /** No block lies below two children of one parent. */
  lemma ChildUnique(n: Network, blocks: map<Root, Block>, x: Root, c: Root, d: Root, r: Root)
    requires Tree(n, blocks) && r in blocks && c in Children(blocks, r) && d in Children(blocks, r)
    requires Supports(blocks, x, c) && Supports(blocks, x, d)
    ensures c == d
  {
    ChildSlot(n, blocks, c, r);
    ChildSlot(n, blocks, d, r);
    if blocks[c].slot <= blocks[d].slot {
      AncestorTwice(blocks, x, blocks[d].slot, blocks[c].slot);
    } else {
      AncestorTwice(blocks, x, blocks[c].slot, blocks[d].slot);
    }
  }

  /** A weight `w` placed at `x` counts for `r` directly or through exactly one child. */
  lemma PlacedOnce(n: Network, blocks: map<Root, Block>, x: Root, w: nat, r: Root, f: Root -> nat)
    requires Tree(n, blocks) && x in blocks && r in blocks
    requires forall c :: c in Children(blocks, r) ==> f(c) == if Supports(blocks, x, c) then w else 0
    ensures (if Supports(blocks, x, r) then w else 0) == (if x == r then w else 0) + SumSet(Children(blocks, r), f)
  {
    var children := Children(blocks, r);
    if x != r && Supports(blocks, x, r) {
      var c := ChildTowards(n, blocks, x, r);
      SumSetRemove(children, f, c);
      forall d | d in children - {c} ensures f(d) == 0 {
        if Supports(blocks, x, d) { ChildUnique(n, blocks, x, c, d, r); }
      }
      SumSetZero(children - {c}, f);
    } else {
      forall c | c in children ensures f(c) == 0 {
        if Supports(blocks, x, c) { SupportsParent(n, blocks, x, c, r); }
      }
      SumSetZero(children, f);
    }
  }

  // ---------- the recurrence ----------

  function DirectVote(st: Store, state: State, r: Root, i: nat): nat {
    if VoteCounts(st, state, i) && st.latestMessages[i].root == r then state.validators[i].effectiveBalance else 0
  }

  function DirectVotes(st: Store, state: State, r: Root, k: nat): nat {
    if k == 0 then 0 else DirectVotes(st, state, r, k - 1) + DirectVote(st, state, r, k - 1)
  }

  function DirectWeight(st: Store, state: State, r: Root): nat {
    DirectVotes(st, state, r, |state.validators|) +
    if st.boostRoot != ZERO_ROOT && st.boostRoot == r then ProposerScore(state) else 0
  }

  /** The score of every block among the first `k` validators, and the weight of one vote. */
  function Scores(st: Store, state: State, k: nat): Root -> nat {
    c => AttestationScore(st, state, c, k)
  }

  function VoteWeights(st: Store, state: State, i: nat): Root -> nat {
    c => VoteWeight(st, state, c, i)
  }

  lemma VoteRecurrence(n: Network, st: Store, state: State, r: Root, i: nat)
    requires Tree(n, st.blocks) && VotesStored(st.blocks, st.latestMessages) && r in st.blocks
    ensures VoteWeight(st, state, r, i) ==
      DirectVote(st, state, r, i) + SumSet(Children(st.blocks, r), VoteWeights(st, state, i))
  {
    var f := VoteWeights(st, state, i);
    if VoteCounts(st, state, i) {
      PlacedOnce(n, st.blocks, st.latestMessages[i].root, state.validators[i].effectiveBalance, r, f);
    } else {
      SumSetZero(Children(st.blocks, r), f);
    }
  }

  lemma ScoresStep(st: Store, state: State, children: set<Root>, k: nat)
    ensures k == 0 ==> SumSet(children, Scores(st, state, k)) == 0
    ensures k > 0 ==> SumSet(children, Scores(st, state, k)) ==
                      SumSet(children, Scores(st, state, k - 1)) + SumSet(children, VoteWeights(st, state, k - 1))
  {
    if k == 0 {
      SumSetZero(children, Scores(st, state, k));
    } else {
      SumSetAdd(children, Scores(st, state, k - 1), VoteWeights(st, state, k - 1), Scores(st, state, k));
    }
  }

  // One validator more, on both sides of the recurrence.
  lemma ScoreGrows(st: Store, state: State, r: Root, j: nat, before: nat, vote: nat)
    requires AttestationScore(st, state, r, j) == DirectVotes(st, state, r, j) + before
    requires VoteWeight(st, state, r, j) == DirectVote(st, state, r, j) + vote
    ensures AttestationScore(st, state, r, j + 1) == DirectVotes(st, state, r, j + 1) + before + vote
  {
  }

  ghost predicate VoteSplits(st: Store, state: State, r: Root, children: set<Root>, i: nat) {
    VoteWeight(st, state, r, i) == DirectVote(st, state, r, i) + SumSet(children, VoteWeights(st, state, i))
  }

  lemma {:induction false} VotesAddUp(st: Store, state: State, r: Root, children: set<Root>, k: nat)
    requires forall i: nat :: i < k ==> VoteSplits(st, state, r, children, i)
    ensures AttestationScore(st, state, r, k) == DirectVotes(st, state, r, k) + SumSet(children, Scores(st, state, k))
  {
    ScoresStep(st, state, children, k);
    if k > 0 {
      var j: nat := k - 1;
      VotesAddUp(st, state, r, children, j);
      assert VoteSplits(st, state, r, children, j);
      ScoreGrows(st, state, r, j, SumSet(children, Scores(st, state, j)), SumSet(children, VoteWeights(st, state, j)));
    }
  }

  lemma ScoreRecurrence(n: Network, st: Store, state: State, r: Root, k: nat)
    requires Tree(n, st.blocks) && VotesStored(st.blocks, st.latestMessages) && r in st.blocks
    ensures AttestationScore(st, state, r, k) ==
      DirectVotes(st, state, r, k) + SumSet(Children(st.blocks, r), Scores(st, state, k))
  {
    forall i: nat ensures VoteSplits(st, state, r, Children(st.blocks, r), i) {
      VoteRecurrence(n, st, state, r, i);
    }
    VotesAddUp(st, state, r, Children(st.blocks, r), k);
  }

  /** The branches under one block share the active stake between them. */
  lemma BranchesShareStake(n: Network, st: Store, state: State, r: Root)
    requires Tree(n, st.blocks) && VotesStored(st.blocks, st.latestMessages) && r in st.blocks
    ensures SumSet(Children(st.blocks, r), Scores(st, state, |state.validators|)) <=
            SumOver(Balances(state.validators), ActiveIndices(state, CurrentEpoch(state)))
  {
    ScoreRecurrence(n, st, state, r, |state.validators|);
    ScoreIsStake(st, state, r);
  }

  lemma BoostRecurrence(n: Network, st: Store, state: State, r: Root)
    requires Tree(n, st.blocks) && BoostStored(st) && r in st.blocks
    ensures BoostWeight(st, state, r) ==
      (if st.boostRoot != ZERO_ROOT && st.boostRoot == r then ProposerScore(state) else 0) +
      SumSet(Children(st.blocks, r), (c: Root) => BoostWeight(st, state, c))
  {
    var f := (c: Root) => BoostWeight(st, state, c);
    if st.boostRoot != ZERO_ROOT {
      PlacedOnce(n, st.blocks, st.boostRoot, ProposerScore(state), r, f);
    } else {
      SumSetZero(Children(st.blocks, r), f);
    }
  }

  /** W(N) = B(N) + the sum of W over the children of N: no vote and no boost counts in two branches. */
  lemma WeightRecurrence(n: Network, st: Store, state: State, r: Root)
    requires Tree(n, st.blocks) && VotesStored(st.blocks, st.latestMessages) && BoostStored(st) && r in st.blocks
    ensures WeightBy(st, state, r) ==
      DirectWeight(st, state, r) + SumSet(Children(st.blocks, r), (c: Root) => WeightBy(st, state, c))
  {
    ScoreRecurrence(n, st, state, r, |state.validators|);
    BoostRecurrence(n, st, state, r);
    SumSetAdd(Children(st.blocks, r), Scores(st, state, |state.validators|),
              (c: Root) => BoostWeight(st, state, c), (c: Root) => WeightBy(st, state, c));
  }

  /** The recurrence holds of `get_weight` in every store that a run can reach. */
  lemma ReachableWeight(n: Network, events: seq<Event>, r: Root)
    requires ValidNetwork(n) && GetForkchoiceStore(n).Some?
    requires GetWeight(HandleAll(n, GetForkchoiceStore(n).value, events), r).Some?
    ensures var st := HandleAll(n, GetForkchoiceStore(n).value, events);
      var state := st.checkpointStates[st.justified];
      GetWeight(st, r).value ==
        DirectWeight(st, state, r) + SumSet(Children(st.blocks, r), (c: Root) => WeightBy(st, state, c))
  {
    ReachableStore(n, events);
    var st := HandleAll(n, GetForkchoiceStore(n).value, events);
    WeightRecurrence(n, st, st.checkpointStates[st.justified], r);
  }
}
