/** Casper's accountable safety: two chains cannot finalize conflicting checkpoints unless a third
    of the stake has signed slashable votes. */
module AccountableSafety {
  import opened Primitives
  import opened BeaconChain
  import opened Chains
  import opened Finality

  // ---------- a fixed validator set ----------

  /** The active validators and their stake, the same for every state of a chain. */
  datatype ValidatorSet = ValidatorSet(stake: seq<nat>, active: set<nat>)

  function Stake(vs: ValidatorSet, s: set<nat>): nat {
    SumOver(vs.stake, s)
  }

  ghost predicate HasSet(s: State, vs: ValidatorSet) {
    && Balances(s.validators) == vs.stake
    && ActiveIndices(s, CurrentEpoch(s)) == vs.active
    && ActiveIndices(s, PreviousEpoch(s)) == vs.active
  }

  ghost predicate FixedSet(o: Origin, run: Run, vs: ValidatorSet) {
    forall w :: OnRun(o, run, w) ==> HasSet(w, vs)
  }

  /** The floor of one increment in the total balances is harmless exactly above one and a half increments
      of stake: below, the empty set of votes already passes the weighing. */
  lemma FloorExact(total: nat)
    requires total > 0
    ensures (forall votes: nat :: (Max(EFFECTIVE_BALANCE_INCREMENT, votes) * 3 >= Max(EFFECTIVE_BALANCE_INCREMENT, total) * 2
               ==> votes * 3 >= total * 2))
            <==> total * 2 > EFFECTIVE_BALANCE_INCREMENT * 3
  {
    if total * 2 <= EFFECTIVE_BALANCE_INCREMENT * 3 {
      var votes: nat := 0;
      assert Max(EFFECTIVE_BALANCE_INCREMENT, votes) * 3 >= Max(EFFECTIVE_BALANCE_INCREMENT, total) * 2;
    }
  }

  /** The client weighs participating balances without the floor. Its test gives the specified answer for all
      votes exactly where the floor is harmless; below, they differ on the empty set of votes. */
  lemma ClientFloorExact(total: nat)
    ensures (forall votes: nat :: votes * 3 >= Max(EFFECTIVE_BALANCE_INCREMENT, total) * 2 <==>
               Max(EFFECTIVE_BALANCE_INCREMENT, votes) * 3 >= Max(EFFECTIVE_BALANCE_INCREMENT, total) * 2)
            <==> total * 2 > EFFECTIVE_BALANCE_INCREMENT * 3
  {
    if total * 2 <= EFFECTIVE_BALANCE_INCREMENT * 3 {
      var votes: nat := 0;
      assert !(votes * 3 >= Max(EFFECTIVE_BALANCE_INCREMENT, total) * 2 <==>
               Max(EFFECTIVE_BALANCE_INCREMENT, votes) * 3 >= Max(EFFECTIVE_BALANCE_INCREMENT, total) * 2);
    }
  }

  ghost predicate EnoughStake(vs: ValidatorSet) {
    Stake(vs, vs.active) * 2 > EFFECTIVE_BALANCE_INCREMENT * 3
  }

  lemma QuorumStake(w: State, voters: set<nat>, vs: ValidatorSet)
    requires HasSet(w, vs) && EnoughStake(vs) && Quorum(w, voters)
    ensures voters <= vs.active && Stake(vs, voters) * 3 >= Stake(vs, vs.active) * 2
  {
  }

  /** Two quorums share a third of the stake. */
  lemma QuorumsIntersect(vs: ValidatorSet, a: set<nat>, b: set<nat>)
    requires a <= vs.active && b <= vs.active
    requires Stake(vs, a) * 3 >= Stake(vs, vs.active) * 2 && Stake(vs, b) * 3 >= Stake(vs, vs.active) * 2
    ensures Stake(vs, a * b) * 3 >= Stake(vs, vs.active)
  {
    SumOverUnion(vs.stake, a, b);
    SumOverMonotone(vs.stake, a + b, vs.active);
  }

  // ---------- slashable thirds ----------

  /** `v` signed, on one of the two chains or on both, a pair of votes that proves it slashable. */
  ghost predicate Slashable(h1: seq<Block>, h2: seq<Block>, v: nat) {
    exists d1, d2 :: Signed(h1, v, d1) && Signed(h2, v, d2) && (IsSlashable(d1, d2) || IsSlashable(d2, d1))
  }

  ghost predicate ThirdSlashable(h1: seq<Block>, h2: seq<Block>, vs: ValidatorSet) {
    exists guilty: set<nat> :: guilty <= vs.active && Stake(vs, guilty) * 3 >= Stake(vs, vs.active) &&
      forall v :: v in guilty ==> Slashable(h1, h2, v)
  }

  lemma ConflictingVotes(h1: seq<Block>, h2: seq<Block>, v: nat, s1: Checkpoint, t1: Checkpoint, s2: Checkpoint, t2: Checkpoint)
    requires Vote(h1, v, s1, t1) && Vote(h2, v, s2, t2)
    requires || (t1.epoch == t2.epoch && t1 != t2)
             || (s2.epoch < s1.epoch && t1.epoch < t2.epoch)
             || (s1.epoch < s2.epoch && t2.epoch < t1.epoch)
    ensures Slashable(h1, h2, v)
  {
    var d1 :| Signed(h1, v, d1) && d1.source == s1 && d1.target == t1;
    var d2 :| Signed(h2, v, d2) && d2.source == s2 && d2.target == t2;
    assert IsSlashable(d1, d2) || IsSlashable(d2, d1);
  }

  /** Links of two chains with the same target epoch and different targets, or one around the other. */
  lemma ConflictingLinks(o: Origin, a: Run, b: Run, vs: ValidatorSet,
                         s1: Checkpoint, t1: Checkpoint, s2: Checkpoint, t2: Checkpoint)
    requires FixedSet(o, a, vs) && FixedSet(o, b, vs) && EnoughStake(vs)
    requires Link(o, a, s1, t1) && Link(o, b, s2, t2)
    requires || (t1.epoch == t2.epoch && t1 != t2)
             || (s2.epoch < s1.epoch && t1.epoch < t2.epoch)
    ensures ThirdSlashable(Blocks(o, a), Blocks(o, b), vs)
  {
    var w1, v1 :| OnRun(o, a, w1) && Backs(Blocks(o, a), w1, v1, s1, t1);
    var w2, v2 :| OnRun(o, b, w2) && Backs(Blocks(o, b), w2, v2, s2, t2);
    QuorumStake(w1, v1, vs);
    QuorumStake(w2, v2, vs);
    QuorumsIntersect(vs, v1, v2);
    forall v | v in v1 * v2 ensures Slashable(Blocks(o, a), Blocks(o, b), v) {
      ConflictingVotes(Blocks(o, a), Blocks(o, b), v, s1, t1, s2, t2);
    }
  }

  // ---------- equal roots mean equal histories ----------

  function AncestorIndex(h: seq<Block>, slot: nat): (i: nat)
    requires |h| > 0
    ensures i < |h|
  {
    if |h| == 1 || Last(h).slot <= slot then |h| - 1 else AncestorIndex(h[..|h| - 1], slot)
  }

  /** The blocks of `h` up to and including the one in force at `slot`. */
  function ChainTo(h: seq<Block>, slot: nat): (p: seq<Block>)
    requires |h| > 0
    ensures |p| > 0
  {
    h[..AncestorIndex(h, slot) + 1]
  }

  lemma {:induction false} AncestorIsTip(env: Env, h: seq<Block>, slot: nat)
    requires |h| > 0
    ensures AncestorAt(env, h, slot) == BlockRoot(env, Last(ChainTo(h, slot)))
  {
    if |h| > 1 && Last(h).slot > slot {
      AncestorIsTip(env, h[..|h| - 1], slot);
      assert h[..|h| - 1][..AncestorIndex(h, slot) + 1] == ChainTo(h, slot);
    }
  }

  lemma {:induction false} EarlierAncestor(env: Env, h: seq<Block>, x: nat, y: nat)
    requires |h| > 0 && y <= x
    ensures AncestorAt(env, h, y) == AncestorAt(env, ChainTo(h, x), y)
    ensures ChainTo(h, y) <= ChainTo(h, x)
  {
    if |h| == 1 || Last(h).slot <= x {
      assert ChainTo(h, x) == h;
    } else {
      EarlierAncestor(env, h[..|h| - 1], x, y);
      assert h[..|h| - 1][..AncestorIndex(h, x) + 1] == ChainTo(h, x);
      assert h[..|h| - 1][..AncestorIndex(h, y) + 1] == ChainTo(h, y);
    }
  }

  lemma {:induction false} SlotsIncrease(env: Env, h: seq<Block>, i: nat, j: nat)
    requires Linked(env, h) && i < j < |h|
    ensures h[i].slot < h[j].slot
  {
    if i + 1 < j { SlotsIncrease(env, h, i, j - 1); }
  }

  /** With ideal hashes, chains from one origin that share a root share everything before it. */
  lemma {:induction false} SharedRoot(env: Env, h1: seq<Block>, h2: seq<Block>, i: nat, j: nat)
    requires IdealHashes(env) && Linked(env, h1) && Linked(env, h2)
    requires i < |h1| && j < |h2| && h1[0] == h2[0]
    requires BlockRoot(env, h1[i]) == BlockRoot(env, h2[j])
    ensures h1[..i + 1] == h2[..j + 1]
  {
    BlockRootInjective(env, h1[i], h2[j]);
    if i > 0 && j > 0 {
      SharedRoot(env, h1, h2, i - 1, j - 1);
      assert h1[..i + 1] == h1[..i] + [h1[i]] && h2[..j + 1] == h2[..j] + [h2[j]];
    } else {
      if j > 0 { SlotsIncrease(env, h2, 0, j); }
      if i > 0 { SlotsIncrease(env, h1, 0, i); }
    }
  }

  lemma SharedAncestors(env: Env, h1: seq<Block>, h2: seq<Block>, x: nat, y: nat)
    requires IdealHashes(env) && Linked(env, h1) && Linked(env, h2) && |h1| > 0 && |h2| > 0 && h1[0] == h2[0]
    requires AncestorAt(env, h1, x) == AncestorAt(env, h2, x) && y <= x
    ensures AncestorAt(env, h1, y) == AncestorAt(env, h2, y)
  {
    AncestorIsTip(env, h1, x);
    AncestorIsTip(env, h2, x);
    SharedRoot(env, h1, h2, AncestorIndex(h1, x), AncestorIndex(h2, x));
    EarlierAncestor(env, h1, x, y);
    EarlierAncestor(env, h2, x, y);
  }

  // ---------- the theorem ----------

  /** The block a checkpoint of this chain stands for; the zero stub of genesis stands for the genesis block. */
  function CheckpointBlock(o: Origin, run: Run, c: Checkpoint): Root {
    AncestorAt(o.env, Blocks(o, run), StartSlot(c.epoch))
  }

  /** `root` is the block of checkpoint `c` or one of its ancestors. */
  ghost predicate Descends(o: Origin, run: Run, c: Checkpoint, root: Root) {
    exists k :: 0 <= k < |ChainTo(Blocks(o, run), StartSlot(c.epoch))| &&
      BlockRoot(o.env, ChainTo(Blocks(o, run), StartSlot(c.epoch))[k]) == root
  }

  ghost predicate Conflicting(o: Origin, a: Run, ca: Checkpoint, b: Run, cb: Checkpoint) {
    && !Descends(o, a, ca, CheckpointBlock(o, b, cb))
    && !Descends(o, b, cb, CheckpointBlock(o, a, ca))
  }

  ghost predicate Comparable(o: Origin, a: Run, b: Run, vs: ValidatorSet) {
    && GenesisOrigin(o) && Exec(o, a).Some? && Exec(o, b).Some?
    && FixedSet(o, a, vs) && FixedSet(o, b, vs) && EnoughStake(vs)
  }

  lemma ChainsLinked(o: Origin, a: Run, b: Run, vs: ValidatorSet)
    requires Comparable(o, a, b, vs)
    ensures IdealHashes(o.env) && Linked(o.env, Blocks(o, a)) && Linked(o.env, Blocks(o, b))
  {
    RunInvariant(o, a);
    RunInvariant(o, b);
  }

  /** Same justified epoch on both chains: slashable, or the same block, with the same blocks before it. */
  lemma SameEpoch(o: Origin, a: Run, b: Run, vs: ValidatorSet, p: Checkpoint, q: Checkpoint, epoch: nat)
    requires Comparable(o, a, b, vs) && Justified(o, a, p) && Justified(o, b, q) && p.epoch == q.epoch > 0 && epoch <= p.epoch
    ensures ThirdSlashable(Blocks(o, a), Blocks(o, b), vs) ||
            AncestorAt(o.env, Blocks(o, a), StartSlot(epoch)) == AncestorAt(o.env, Blocks(o, b), StartSlot(epoch))
  {
    var s1: Checkpoint :| s1.epoch < p.epoch && Link(o, a, s1, p) && Justified(o, a, s1);
    var s2: Checkpoint :| s2.epoch < q.epoch && Link(o, b, s2, q) && Justified(o, b, s2);
    if p != q {
      ConflictingLinks(o, a, b, vs, s1, p, s2, q);
    } else {
      ChainsLinked(o, a, b, vs);
      SharedAncestors(o.env, Blocks(o, a), Blocks(o, b), StartSlot(p.epoch), StartSlot(epoch));
    }
  }

  /** A checkpoint finalized on one chain lies on every chain that justifies a later one, unless a
      third of the stake is slashable. */
  lemma {:induction false} FinalizedPersists(o: Origin, a: Run, b: Run, vs: ValidatorSet, f: Checkpoint, q: Checkpoint)
    requires Comparable(o, a, b, vs)
    requires Finalized(LedgerOf(o, a), f) && f.epoch > 0 && Justified(o, b, q) && f.epoch <= q.epoch
    ensures ThirdSlashable(Blocks(o, a), Blocks(o, b), vs) ||
            CheckpointBlock(o, a, f) == CheckpointBlock(o, b, f)
    decreases q.epoch
  {
    if q.epoch == f.epoch {
      SameEpoch(o, a, b, vs, f, q, f.epoch);
    } else {
      var s: Checkpoint :| s.epoch < q.epoch && Link(o, b, s, q) && Justified(o, b, s);
      var next, after := ChainCheckpoint(o, a, f.epoch + 1), ChainCheckpoint(o, a, f.epoch + 2);
      if s.epoch >= f.epoch {
        FinalizedPersists(o, a, b, vs, f, s);
      } else if Link(o, a, f, next) {
        JumpOver(o, a, b, vs, f, next, s, q);
      } else if q.epoch == f.epoch + 1 {
        SameEpoch(o, a, b, vs, next, q, f.epoch);
      } else {
        JumpOver(o, a, b, vs, f, after, s, q);
      }
    }
  }

  lemma JumpOver(o: Origin, a: Run, b: Run, vs: ValidatorSet, f: Checkpoint, t: Checkpoint, s: Checkpoint, q: Checkpoint)
    requires Comparable(o, a, b, vs) && Justified(o, a, f) && Link(o, a, f, t)
    requires Justified(o, b, s) && Link(o, b, s, q) && s.epoch < f.epoch && t.epoch <= q.epoch
    ensures ThirdSlashable(Blocks(o, a), Blocks(o, b), vs) ||
            CheckpointBlock(o, a, f) == CheckpointBlock(o, b, f)
  {
    if t.epoch == q.epoch {
      assert Justified(o, a, t) && Justified(o, b, q);
      SameEpoch(o, a, b, vs, t, q, f.epoch);
    } else {
      ConflictingLinks(o, a, b, vs, f, t, s, q);
    }
  }

  lemma EarlierCheckpointDescends(o: Origin, run: Run, earlier: Checkpoint, later: Checkpoint)
    requires earlier.epoch <= later.epoch
    ensures Descends(o, run, later, CheckpointBlock(o, run, earlier))
  {
    var h := Blocks(o, run);
    EarlierAncestor(o.env, h, StartSlot(later.epoch), StartSlot(earlier.epoch));
    AncestorIsTip(o.env, h, StartSlot(earlier.epoch));
    var p, q := ChainTo(h, StartSlot(earlier.epoch)), ChainTo(h, StartSlot(later.epoch));
    assert q[|p| - 1] == Last(p);
  }

  lemma FinalizedIsJustified(o: Origin, run: Run, c: Checkpoint)
    requires Finalized(LedgerOf(o, run), c)
    ensures Justified(o, run, c)
  {
  }

  lemma SameCheckpoint(o: Origin, a: Run, b: Run, vs: ValidatorSet, ca: Checkpoint, cb: Checkpoint)
    requires Comparable(o, a, b, vs) && Finalized(LedgerOf(o, a), ca) && Finalized(LedgerOf(o, b), cb)
    requires ca.epoch <= cb.epoch
    ensures ThirdSlashable(Blocks(o, a), Blocks(o, b), vs) || CheckpointBlock(o, a, ca) == CheckpointBlock(o, b, ca)
  {
    if ca.epoch > 0 {
      FinalizedIsJustified(o, b, cb);
      FinalizedPersists(o, a, b, vs, ca, cb);
    } else {
      ChainsLinked(o, a, b, vs);
      SharedAncestorsAtGenesis(o, a, b, ca);
    }
  }

  lemma OrderedCase(o: Origin, a: Run, b: Run, vs: ValidatorSet, ca: Checkpoint, cb: Checkpoint)
    requires Comparable(o, a, b, vs) && Finalized(LedgerOf(o, a), ca) && Finalized(LedgerOf(o, b), cb)
    requires ca.epoch <= cb.epoch
    ensures ThirdSlashable(Blocks(o, a), Blocks(o, b), vs) || Descends(o, b, cb, CheckpointBlock(o, a, ca))
  {
    SameCheckpoint(o, a, b, vs, ca, cb);
    EarlierCheckpointDescends(o, b, ca, cb);
  }

  lemma SharedAncestorsAtGenesis(o: Origin, a: Run, b: Run, c: Checkpoint)
    requires Linked(o.env, Blocks(o, a)) && Linked(o.env, Blocks(o, b)) && c.epoch == 0
    ensures CheckpointBlock(o, a, c) == CheckpointBlock(o, b, c)
  {
    GenesisAtZero(o.env, Blocks(o, a));
    GenesisAtZero(o.env, Blocks(o, b));
  }

  lemma {:induction false} GenesisAtZero(env: Env, h: seq<Block>)
    requires |h| > 0 && Linked(env, h)
    ensures AncestorAt(env, h, 0) == BlockRoot(env, h[0])
  {
    if |h| > 1 {
      GenesisAtZero(env, h[..|h| - 1]);
    }
  }

  /** Accountable safety for any two finalized checkpoints. */
  lemma ConflictIsAccountable(o: Origin, a: Run, b: Run, vs: ValidatorSet, ca: Checkpoint, cb: Checkpoint)
    requires Comparable(o, a, b, vs) && Finalized(LedgerOf(o, a), ca) && Finalized(LedgerOf(o, b), cb)
    requires Conflicting(o, a, ca, b, cb)
    ensures ThirdSlashable(Blocks(o, a), Blocks(o, b), vs) || ThirdSlashable(Blocks(o, b), Blocks(o, a), vs)
  {
    if ca.epoch <= cb.epoch {
      OrderedCase(o, a, b, vs, ca, cb);
    } else {
      OrderedCase(o, b, a, vs, cb, ca);
    }
  }

  /** If the states of two chains finalize conflicting checkpoints, validators with at least a third of
      the stake have signed votes that `is_slashable_attestation_data` flags. */
  lemma AccountableSafetyOfChains(o: Origin, a: Run, b: Run, vs: ValidatorSet)
    requires Comparable(o, a, b, vs)
    requires Conflicting(o, a, Exec(o, a).value.finalized, b, Exec(o, b).value.finalized)
    ensures ThirdSlashable(Blocks(o, a), Blocks(o, b), vs) || ThirdSlashable(Blocks(o, b), Blocks(o, a), vs)
  {
    CheckpointsBacked(o, a);
    CheckpointsBacked(o, b);
    ConflictIsAccountable(o, a, b, vs, Exec(o, a).value.finalized, Exec(o, b).value.finalized);
  }
}
