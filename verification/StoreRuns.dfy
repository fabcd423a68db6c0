/** What every run of handler calls keeps: the stored blocks form one tree under the anchor, each with
    the state of its own chain, and everything the store points at is stored. */
module StoreRuns {
  import opened Primitives
  import opened BeaconChain
  import opened Chains
  import opened ForkChoice

  /** A trusted epoch-boundary origin; whatever it names as parent is older than it. */
  ghost predicate ValidNetwork(n: Network) {
    && ValidOrigin(n.origin)
    && (forall b: Block :: BlockRoot(n.origin.env, b) == n.origin.block.parentRoot ==> b.slot < n.origin.block.slot)
  }

  // ---------- the tree of blocks ----------

  /** Every block but the anchor has its parent stored, at a strictly lower slot. */
  predicate ParentStored(n: Network, blocks: map<Root, Block>, r: Root) {
    r in blocks && r != AnchorRoot(n) ==>
      blocks[r].parentRoot in blocks && blocks[blocks[r].parentRoot].slot < blocks[r].slot
  }

  ghost predicate Tree(n: Network, blocks: map<Root, Block>) {
    && AnchorRoot(n) in blocks && blocks[AnchorRoot(n)] == n.origin.block
    && n.origin.block.parentRoot !in blocks
    && (forall r :: r in blocks ==> BlockRoot(n.origin.env, blocks[r]) == r)
    && (forall r :: ParentStored(n, blocks, r))
    && (forall r :: r in blocks ==> n.origin.block.slot <= blocks[r].slot)
  }

  /** The blocks from the anchor to `r`. */
  ghost function ChainOf(n: Network, blocks: map<Root, Block>, r: Root): (h: seq<Block>)
    requires Tree(n, blocks) && r in blocks
    ensures |h| > 0 && h[0] == n.origin.block && Last(h) == blocks[r]
    decreases blocks[r].slot
  {
    assert ParentStored(n, blocks, r);
    if r == AnchorRoot(n) then [blocks[r]] else ChainOf(n, blocks, blocks[r].parentRoot) + [blocks[r]]
  }

  /** `get_ancestor` never misses a key from the anchor's slot up, and walks the block's own chain. */
  lemma {:induction false} AncestorOnChain(n: Network, blocks: map<Root, Block>, r: Root, slot: nat)
    requires Tree(n, blocks) && r in blocks && n.origin.block.slot <= slot
    ensures GetAncestor(blocks, r, slot) == Some(AncestorAt(n.origin.env, ChainOf(n, blocks, r), slot))
    decreases blocks[r].slot
  {
    var h := ChainOf(n, blocks, r);
    assert ParentStored(n, blocks, r);
    if blocks[r].slot > slot {
      AncestorOnChain(n, blocks, blocks[r].parentRoot, slot);
      assert h[..|h| - 1] == ChainOf(n, blocks, blocks[r].parentRoot);
    }
  }

  // Below the anchor the walk always ends in a missing key.
  lemma {:induction false} NoAncestorBelowAnchor(n: Network, blocks: map<Root, Block>, r: Root, slot: nat)
    requires Tree(n, blocks) && r in blocks && slot < n.origin.block.slot
    ensures GetAncestor(blocks, r, slot) == None
    decreases blocks[r].slot
  {
    assert ParentStored(n, blocks, r);
    if r != AnchorRoot(n) {
      NoAncestorBelowAnchor(n, blocks, blocks[r].parentRoot, slot);
    }
  }

  lemma TreeGrows(n: Network, blocks: map<Root, Block>, b: Block)
    requires ValidNetwork(n) && Tree(n, blocks) && b.parentRoot in blocks && blocks[b.parentRoot].slot < b.slot
    ensures Tree(n, blocks[BlockRoot(n.origin.env, b) := b])
  {
    var root := BlockRoot(n.origin.env, b);
    if root in blocks {
      BlockRootInjective(n.origin.env, b, blocks[root]);
    }
    var grown := blocks[root := b];
    forall r ensures ParentStored(n, grown, r) {
      assert ParentStored(n, blocks, r);
    }
  }

  lemma {:induction false} ChainOfGrows(n: Network, blocks: map<Root, Block>, b: Block, r: Root)
    requires ValidNetwork(n) && Tree(n, blocks) && r in blocks
    requires Tree(n, blocks[BlockRoot(n.origin.env, b) := b])
    ensures ChainOf(n, blocks[BlockRoot(n.origin.env, b) := b], r) == ChainOf(n, blocks, r)
    decreases blocks[r].slot
  {
    if r == BlockRoot(n.origin.env, b) { BlockRootInjective(n.origin.env, b, blocks[r]); }
    assert ParentStored(n, blocks, r);
    if r != AnchorRoot(n) {
      ChainOfGrows(n, blocks, b, blocks[r].parentRoot);
    }
  }

  // ---------- states replay their chains ----------

  ghost predicate Replays(o: Origin, h: seq<Block>, s: State) {
    exists run :: Exec(o, run) == Some(s) && Blocks(o, run) == h
  }

  lemma {:induction false} AdvanceReplays(o: Origin, h: seq<Block>, s: State, slot: nat)
    requires Replays(o, h, s) && AdvanceTo(o.env, s, slot).Some?
    ensures Replays(o, h, AdvanceTo(o.env, s, slot).value)
    ensures AdvanceTo(o.env, s, slot).value.slot == if s.slot < slot then slot else s.slot
    decreases slot - s.slot
  {
    if s.slot < slot {
      var run :| Exec(o, run) == Some(s) && Blocks(o, run) == h;
      var longer := run + [NextSlot];
      assert longer[..|run|] == run;
      assert Exec(o, longer) == AdvanceSlot(o.env, s) && Blocks(o, longer) == h;
      AdvanceReplays(o, h, AdvanceSlot(o.env, s).value, slot);
    }
  }

  lemma ApplyReplays(o: Origin, h: seq<Block>, s: State, b: Block)
    requires Replays(o, h, s) && ApplyBlock(o.env, s, b).Some?
    ensures Replays(o, h + [b], ApplyBlock(o.env, s, b).value)
  {
    var run :| Exec(o, run) == Some(s) && Blocks(o, run) == h;
    var longer := run + [Apply(b)];
    assert longer[..|run|] == run;
    assert Exec(o, longer) == ApplyBlock(o.env, s, b) && Blocks(o, longer) == h + [b];
  }

  /** A state transition is a run: slots first, then the block. */
  lemma TransitionReplays(o: Origin, h: seq<Block>, s: State, b: Block)
    requires Replays(o, h, s) && StateTransition(o.env, s, b).Some?
    ensures Replays(o, h + [b], StateTransition(o.env, s, b).value)
    ensures s.slot < b.slot == StateTransition(o.env, s, b).value.slot
  {
    AdvanceReplays(o, h, s, b.slot);
    var t := AdvanceTo(o.env, s, b.slot).value;
    ApplyReplays(o, h, t, b);
    ApplyBlockKeeps(o.env, t, b);
  }

  lemma ReplayInvariant(o: Origin, h: seq<Block>, s: State)
    requires ValidOrigin(o) && Replays(o, h, s)
    ensures ChainInvariant(o, h, s)
  {
    var run :| Exec(o, run) == Some(s) && Blocks(o, run) == h;
    RunInvariant(o, run);
  }

  // ---------- the invariant ----------

  ghost predicate StateReplays(o: Origin, h: seq<Block>, b: Block, s: State) {
    s.slot == b.slot && Replays(o, h, s)
  }

  ghost predicate StatesReplay(n: Network, blocks: map<Root, Block>, states: map<Root, State>)
    requires Tree(n, blocks)
  {
    && states.Keys == blocks.Keys
    && (forall r :: r in blocks ==> StateReplays(n.origin, ChainOf(n, blocks, r), blocks[r], states[r]))
  }

  /** A stored block, in place at the start of its epoch, not before the anchor. */
  ghost predicate Known(n: Network, blocks: map<Root, Block>, c: Checkpoint) {
    c.root in blocks && blocks[c.root].slot <= StartSlot(c.epoch) && AnchorEpoch(n) <= c.epoch
  }

  ghost predicate TargetReplays(n: Network, blocks: map<Root, Block>, c: Checkpoint, s: State)
    requires Tree(n, blocks)
  {
    Known(n, blocks, c) && s.slot == StartSlot(c.epoch) && Replays(n.origin, ChainOf(n, blocks, c.root), s)
  }

  ghost predicate TargetsReplay(n: Network, blocks: map<Root, Block>, states: map<Checkpoint, State>)
    requires Tree(n, blocks)
  {
    forall c :: c in states ==> TargetReplays(n, blocks, c, states[c])
  }

  ghost predicate VotesStored(blocks: map<Root, Block>, messages: map<nat, LatestMessage>) {
    forall i :: i in messages ==> messages[i].root in blocks && EpochAt(blocks[messages[i].root].slot) <= messages[i].epoch
  }

  ghost predicate CheckpointsKnown(n: Network, st: Store) {
    && Known(n, st.blocks, st.justified) && Known(n, st.blocks, st.finalized)
    && Known(n, st.blocks, st.unrealizedJustified) && Known(n, st.blocks, st.unrealizedFinalized)
  }

  ghost predicate BoostStored(st: Store) {
    st.boostRoot != ZERO_ROOT ==> st.boostRoot in st.blocks && CurrentSlot(st) <= st.blocks[st.boostRoot].slot
  }

  /** Blocks and states: one tree, every state the replay of its chain. */
  ghost predicate TreeInvariant(n: Network, blocks: map<Root, Block>, states: map<Root, State>, targets: map<Checkpoint, State>) {
    Tree(n, blocks) && StatesReplay(n, blocks, states) && TargetsReplay(n, blocks, targets)
  }

  /** Everything the store points at is stored. */
  ghost predicate Pointers(n: Network, st: Store) {
    && st.unrealizedJustifications.Keys == st.blocks.Keys
    && CheckpointsKnown(n, st)
    && VotesStored(st.blocks, st.latestMessages)
    && BoostStored(st)
  }

  ghost predicate StoreInvariant(n: Network, st: Store) {
    TreeInvariant(n, st.blocks, st.blockStates, st.checkpointStates) && Pointers(n, st)
  }

  predicate SameTree(st: Store, t: Store) {
    t.blocks == st.blocks && t.blockStates == st.blockStates && t.checkpointStates == st.checkpointStates
  }

  lemma InitialTree(n: Network)
    requires ValidNetwork(n)
    ensures Tree(n, map[AnchorRoot(n) := n.origin.block])
    ensures ChainOf(n, map[AnchorRoot(n) := n.origin.block], AnchorRoot(n)) == [n.origin.block]
    ensures Replays(n.origin, [n.origin.block], n.origin.state)
  {
    var run: Run := [];
    assert Exec(n.origin, run) == Some(n.origin.state) && Blocks(n.origin, run) == [n.origin.block];
  }

  lemma InitialInvariant(n: Network)
    requires ValidNetwork(n) && GetForkchoiceStore(n).Some?
    ensures StoreInvariant(n, GetForkchoiceStore(n).value)
  {
    InitialTree(n);
  }

  // ---------- on_tick ----------

  lemma TickPerSlotCheckpoints(n: Network, st: Store, time: nat)
    requires CheckpointsKnown(n, st) && st.genesisTime <= time
    ensures CheckpointsKnown(n, OnTickPerSlot(st, time))
  {
  }

  lemma TickPerSlotBoost(st: Store, time: nat)
    requires BoostStored(st) && st.genesisTime <= time
    ensures BoostStored(OnTickPerSlot(st, time)) && SameTree(st, OnTickPerSlot(st, time))
  {
  }

  lemma TickPerSlotKeeps(n: Network, st: Store, time: nat)
    requires Pointers(n, st) && st.genesisTime <= time
    ensures Pointers(n, OnTickPerSlot(st, time)) && SameTree(st, OnTickPerSlot(st, time))
  {
    TickPerSlotCheckpoints(n, st, time);
    TickPerSlotBoost(st, time);
  }

  lemma {:induction false} CatchUpKeeps(n: Network, st: Store, slot: nat)
    requires Pointers(n, st)
    ensures Pointers(n, CatchUp(st, slot)) && SameTree(st, CatchUp(st, slot))
    decreases slot - CurrentSlot(st)
  {
    if CurrentSlot(st) < slot {
      SlotTimeExact(st, CurrentSlot(st) + 1);
      TickPerSlotKeeps(n, st, SlotTime(st, CurrentSlot(st) + 1));
      CatchUpKeeps(n, OnTickPerSlot(st, SlotTime(st, CurrentSlot(st) + 1)), slot);
    }
  }

  lemma TickKeeps(n: Network, st: Store, time: nat)
    requires Pointers(n, st) && OnTick(st, time).Some?
    ensures Pointers(n, OnTick(st, time).value) && SameTree(st, OnTick(st, time).value)
  {
    var slot := SlotAt(st.genesisTime, time);
    CatchUpKeeps(n, st, slot);
    TickPerSlotKeeps(n, CatchUp(st, slot), time);
  }

  // ---------- on_block ----------

  lemma NewChain(n: Network, blocks: map<Root, Block>, b: Block)
    requires ValidNetwork(n) && Tree(n, blocks) && b.parentRoot in blocks && blocks[b.parentRoot].slot < b.slot
    requires Tree(n, blocks[BlockRoot(n.origin.env, b) := b])
    ensures ChainOf(n, blocks[BlockRoot(n.origin.env, b) := b], BlockRoot(n.origin.env, b)) ==
            ChainOf(n, blocks, b.parentRoot) + [b]
  {
    ChainOfGrows(n, blocks, b, b.parentRoot);
    if BlockRoot(n.origin.env, b) == AnchorRoot(n) {
      BlockRootInjective(n.origin.env, b, n.origin.block);
      assert false;
    }
  }

  lemma StateGrows(n: Network, blocks: map<Root, Block>, states: map<Root, State>, b: Block, s: State,
                   grown: map<Root, Block>, more: map<Root, State>, r: Root)
    requires ValidNetwork(n) && Tree(n, blocks) && b.parentRoot in blocks && blocks[b.parentRoot].slot < b.slot == s.slot
    requires StatesReplay(n, blocks, states) && Replays(n.origin, ChainOf(n, blocks, b.parentRoot) + [b], s)
    requires grown == blocks[BlockRoot(n.origin.env, b) := b] && more == states[BlockRoot(n.origin.env, b) := s]
    requires Tree(n, grown) && r in grown
    ensures StateReplays(n.origin, ChainOf(n, grown, r), grown[r], more[r])
  {
    if r == BlockRoot(n.origin.env, b) {
      NewChain(n, blocks, b);
    } else {
      ChainOfGrows(n, blocks, b, r);
    }
  }

  lemma StatesGrow(n: Network, blocks: map<Root, Block>, states: map<Root, State>, b: Block, s: State,
                   grown: map<Root, Block>, more: map<Root, State>)
    requires ValidNetwork(n) && Tree(n, blocks) && b.parentRoot in blocks && blocks[b.parentRoot].slot < b.slot == s.slot
    requires StatesReplay(n, blocks, states) && Replays(n.origin, ChainOf(n, blocks, b.parentRoot) + [b], s)
    requires grown == blocks[BlockRoot(n.origin.env, b) := b] && more == states[BlockRoot(n.origin.env, b) := s]
    requires Tree(n, grown)
    ensures StatesReplay(n, grown, more)
  {
    forall r | r in grown ensures StateReplays(n.origin, ChainOf(n, grown, r), grown[r], more[r]) {
      StateGrows(n, blocks, states, b, s, grown, more, r);
    }
  }

  lemma TargetsGrow(n: Network, blocks: map<Root, Block>, targets: map<Checkpoint, State>, b: Block)
    requires ValidNetwork(n) && Tree(n, blocks) && b.parentRoot in blocks && blocks[b.parentRoot].slot < b.slot
    requires TargetsReplay(n, blocks, targets)
    ensures Tree(n, blocks[BlockRoot(n.origin.env, b) := b])
    ensures TargetsReplay(n, blocks[BlockRoot(n.origin.env, b) := b], targets)
  {
    TreeGrows(n, blocks, b);
    forall c | c in targets ensures TargetReplays(n, blocks[BlockRoot(n.origin.env, b) := b], c, targets[c]) {
      assert TargetReplays(n, blocks, c, targets[c]);
      KnownGrows(n, blocks, b, c);
      ChainOfGrows(n, blocks, b, c.root);
    }
  }

  /** An accepted block extends the tree by its own replayed state. */
  lemma BlockGrowsTree(n: Network, blocks: map<Root, Block>, states: map<Root, State>, targets: map<Checkpoint, State>, b: Block, s: State)
    requires ValidNetwork(n) && TreeInvariant(n, blocks, states, targets)
    requires b.parentRoot in blocks && StateTransition(n.origin.env, states[b.parentRoot], b) == Some(s)
    ensures TreeInvariant(n, blocks[BlockRoot(n.origin.env, b) := b], states[BlockRoot(n.origin.env, b) := s], targets)
  {
    TransitionReplays(n.origin, ChainOf(n, blocks, b.parentRoot), states[b.parentRoot], b);
    TreeGrows(n, blocks, b);
    var root := BlockRoot(n.origin.env, b);
    StatesGrow(n, blocks, states, b, s, blocks[root := b], states[root := s]);
    TargetsGrow(n, blocks, targets, b);
  }

  lemma OnChainKnown(n: Network, blocks: map<Root, Block>, r: Root, slot: nat, c: Checkpoint)
    requires Tree(n, blocks) && r in blocks && OnChain(n.origin.env, ChainOf(n, blocks, r), slot, c)
    requires c.epoch > AnchorEpoch(n)
    ensures Known(n, blocks, c)
  {
    AncestorOnChain(n, blocks, r, StartSlot(c.epoch));
  }

  ghost predicate FinalityKnown(n: Network, blocks: map<Root, Block>, s: State) {
    && (s.currentJustified.epoch > AnchorEpoch(n) ==> Known(n, blocks, s.currentJustified))
    && (s.finalized.epoch > AnchorEpoch(n) ==> Known(n, blocks, s.finalized))
  }

  lemma CheckpointsOnChainKnown(n: Network, blocks: map<Root, Block>, r: Root, s: State)
    requires Tree(n, blocks) && r in blocks && CheckpointsOnChain(n.origin.env, ChainOf(n, blocks, r), s)
    ensures FinalityKnown(n, blocks, s)
  {
    if s.currentJustified.epoch > AnchorEpoch(n) { OnChainKnown(n, blocks, r, s.slot, s.currentJustified); }
    if s.finalized.epoch > AnchorEpoch(n) { OnChainKnown(n, blocks, r, s.slot, s.finalized); }
  }

  /** What a stored state justifies or finalizes, now or pulled up, is stored as well. */
  lemma StateFinalityKnown(n: Network, blocks: map<Root, Block>, r: Root, s: State)
    requires ValidNetwork(n) && Tree(n, blocks) && r in blocks && Replays(n.origin, ChainOf(n, blocks, r), s)
    ensures FinalityKnown(n, blocks, s)
    ensures ProcessJustificationAndFinalization(s).Some? ==>
      FinalityKnown(n, blocks, ProcessJustificationAndFinalization(s).value)
  {
    var h := ChainOf(n, blocks, r);
    ReplayInvariant(n.origin, h, s);
    CheckpointsOnChainKnown(n, blocks, r, s);
    if ProcessJustificationAndFinalization(s).Some? {
      JustificationOnChain(n.origin, h, s);
      CheckpointsOnChainKnown(n, blocks, r, ProcessJustificationAndFinalization(s).value);
    }
  }

  lemma UpdateKnown(n: Network, st: Store, s: State)
    requires CheckpointsKnown(n, st) && FinalityKnown(n, st.blocks, s)
    ensures CheckpointsKnown(n, UpdateCheckpoints(st, s.currentJustified, s.finalized))
  {
  }

  lemma KnownGrows(n: Network, blocks: map<Root, Block>, b: Block, c: Checkpoint)
    requires ValidNetwork(n) && Tree(n, blocks) && Known(n, blocks, c)
    ensures Known(n, blocks[BlockRoot(n.origin.env, b) := b], c)
  {
    if c.root == BlockRoot(n.origin.env, b) { BlockRootInjective(n.origin.env, b, blocks[c.root]); }
  }

  lemma VotesGrow(n: Network, blocks: map<Root, Block>, messages: map<nat, LatestMessage>, b: Block)
    requires ValidNetwork(n) && Tree(n, blocks) && VotesStored(blocks, messages)
    ensures VotesStored(blocks[BlockRoot(n.origin.env, b) := b], messages)
  {
    var root := BlockRoot(n.origin.env, b);
    if root in blocks { BlockRootInjective(n.origin.env, b, blocks[root]); }
  }

  lemma AddBlockCheckpoints(n: Network, st: Store, b: Block, s: State)
    requires ValidNetwork(n) && Tree(n, st.blocks) && CheckpointsKnown(n, st)
    ensures CheckpointsKnown(n, AddBlock(st, BlockRoot(n.origin.env, b), b, s))
  {
    KnownGrows(n, st.blocks, b, st.justified);
    KnownGrows(n, st.blocks, b, st.finalized);
    KnownGrows(n, st.blocks, b, st.unrealizedJustified);
    KnownGrows(n, st.blocks, b, st.unrealizedFinalized);
  }

  lemma AddBlockPointers(n: Network, st: Store, b: Block, s: State)
    requires ValidNetwork(n) && Tree(n, st.blocks) && Pointers(n, st)
    ensures var t := AddBlock(st, BlockRoot(n.origin.env, b), b, s);
      CheckpointsKnown(n, t) && VotesStored(t.blocks, t.latestMessages) && BoostStored(t)
  {
    AddBlockCheckpoints(n, st, b, s);
    VotesGrow(n, st.blocks, st.latestMessages, b);
  }

  lemma PulledUpPointers(n: Network, st: Store, root: Root, j: State)
    requires CheckpointsKnown(n, st) && VotesStored(st.blocks, st.latestMessages) && BoostStored(st)
    requires root in st.blocks && st.blocks.Keys == st.unrealizedJustifications.Keys + {root}
    requires FinalityKnown(n, st.blocks, j)
    ensures Pointers(n, PulledUp(st, root, j)) && SameTree(st, PulledUp(st, root, j))
  {
  }

  lemma WithBlockPointers(n: Network, st: Store, b: Block, s: State, j: State)
    requires ValidNetwork(n) && Tree(n, st.blocks) && Pointers(n, st)
    requires FinalityKnown(n, st.blocks[BlockRoot(n.origin.env, b) := b], s)
    requires FinalityKnown(n, st.blocks[BlockRoot(n.origin.env, b) := b], j)
    ensures Pointers(n, WithBlock(st, BlockRoot(n.origin.env, b), b, s, j))
  {
    var root := BlockRoot(n.origin.env, b);
    AddBlockPointers(n, st, b, s);
    UpdateKnown(n, AddBlock(st, root, b, s), s);
    PulledUpPointers(n, UpdateCheckpoints(AddBlock(st, root, b, s), s.currentJustified, s.finalized), root, j);
  }

  lemma WithBlockKeeps(n: Network, st: Store, b: Block, s: State, j: State)
    requires ValidNetwork(n) && StoreInvariant(n, st) && b.parentRoot in st.blocks
    requires StateTransition(n.origin.env, st.blockStates[b.parentRoot], b) == Some(s)
    requires ProcessJustificationAndFinalization(s) == Some(j)
    ensures StoreInvariant(n, WithBlock(st, BlockRoot(n.origin.env, b), b, s, j))
  {
    var root := BlockRoot(n.origin.env, b);
    BlockGrowsTree(n, st.blocks, st.blockStates, st.checkpointStates, b, s);
    StateFinalityKnown(n, st.blocks[root := b], root, s);
    WithBlockPointers(n, st, b, s, j);
  }

  lemma BlockKeeps(n: Network, st: Store, b: Block)
    requires ValidNetwork(n) && StoreInvariant(n, st) && OnBlock(n, st, b).Some?
    ensures StoreInvariant(n, OnBlock(n, st, b).value)
  {
    var s := StateTransition(n.origin.env, st.blockStates[b.parentRoot], b).value;
    WithBlockKeeps(n, st, b, s, ProcessJustificationAndFinalization(s).value);
  }

  // ---------- on_attestation ----------

  lemma AdmissibleTargetKnown(n: Network, st: Store, a: Attestation, fromBlock: bool)
    requires Tree(n, st.blocks) && AttestationAdmissible(st, a, fromBlock)
    ensures Known(n, st.blocks, a.data.target)
  {
    if a.data.target.epoch < AnchorEpoch(n) {
      NoAncestorBelowAnchor(n, st.blocks, a.data.beaconBlockRoot, StartSlot(a.data.target.epoch));
    }
  }

  lemma TargetAdded(n: Network, blocks: map<Root, Block>, states: map<Root, State>, targets: map<Checkpoint, State>, c: Checkpoint, s: State)
    requires TreeInvariant(n, blocks, states, targets) && Known(n, blocks, c)
    requires s.slot == StartSlot(c.epoch) && Replays(n.origin, ChainOf(n, blocks, c.root), s)
    ensures TreeInvariant(n, blocks, states, targets[c := s])
  {
  }

  lemma TargetStateReplays(n: Network, blocks: map<Root, Block>, states: map<Root, State>, c: Checkpoint)
    requires Tree(n, blocks) && StatesReplay(n, blocks, states) && Known(n, blocks, c)
    ensures var base, start := states[c.root], StartSlot(c.epoch);
      base.slot <= start && (base.slot == start ==> Replays(n.origin, ChainOf(n, blocks, c.root), base))
    ensures var base, start := states[c.root], StartSlot(c.epoch);
      AdvanceTo(n.origin.env, base, start).Some? ==>
        && Replays(n.origin, ChainOf(n, blocks, c.root), AdvanceTo(n.origin.env, base, start).value)
        && AdvanceTo(n.origin.env, base, start).value.slot == start
  {
    var base, start := states[c.root], StartSlot(c.epoch);
    if AdvanceTo(n.origin.env, base, start).Some? {
      AdvanceReplays(n.origin, ChainOf(n, blocks, c.root), base, start);
    }
  }

  lemma TargetStateKeeps(n: Network, st: Store, target: Checkpoint, t: Store)
    requires TreeInvariant(n, st.blocks, st.blockStates, st.checkpointStates) && Known(n, st.blocks, target)
    requires StoreTargetCheckpointState(n, st, target) == Some(t)
    ensures TreeInvariant(n, t.blocks, t.blockStates, t.checkpointStates)
    ensures t == st.(checkpointStates := t.checkpointStates)
  {
    if target !in st.checkpointStates {
      TargetStateReplays(n, st.blocks, st.blockStates, target);
      TargetAdded(n, st.blocks, st.blockStates, st.checkpointStates, target, t.checkpointStates[target]);
    }
  }

  lemma UpdateMessagesKeeps(n: Network, st: Store, attesters: set<nat>, data: AttestationData)
    requires Pointers(n, st) && data.beaconBlockRoot in st.blocks
    requires EpochAt(st.blocks[data.beaconBlockRoot].slot) <= data.target.epoch
    ensures Pointers(n, UpdateLatestMessages(st, attesters, data)) && SameTree(st, UpdateLatestMessages(st, attesters, data))
  {
  }

  lemma AttestationKeeps(n: Network, st: Store, a: Attestation, fromBlock: bool, t: Store)
    requires StoreInvariant(n, st) && OnAttestation(n, st, a, fromBlock) == Some(t)
    ensures StoreInvariant(n, t)
  {
    AdmissibleTargetKnown(n, st, a, fromBlock);
    var t1 := StoreTargetCheckpointState(n, st, a.data.target).value;
    TargetStateKeeps(n, st, a.data.target, t1);
    UpdateMessagesKeeps(n, t1, a.attesters, a.data);
  }

  // ---------- runs ----------

  lemma SlashingKeeps(n: Network, st: Store, a1: Attestation, a2: Attestation, t: Store)
    requires Pointers(n, st) && OnAttesterSlashing(n, st, a1, a2) == Some(t)
    ensures Pointers(n, t) && SameTree(st, t)
  {
  }

  lemma HandleKeeps(n: Network, st: Store, e: Event)
    requires ValidNetwork(n) && StoreInvariant(n, st) && Handle(n, st, e).Some?
    ensures StoreInvariant(n, Handle(n, st, e).value)
  {
    match e
    case Tick(time) => TickKeeps(n, st, time);
    case NewBlock(b) => BlockKeeps(n, st, b);
    case NewAttestation(a, fromBlock) => AttestationKeeps(n, st, a, fromBlock, Handle(n, st, e).value);
    case NewSlashing(a1, a2) => SlashingKeeps(n, st, a1, a2, Handle(n, st, e).value);
  }

  /** Induction over runs: what every accepted call keeps holds after every run. */
  lemma {:induction false} RunInduction(n: Network, st: Store, events: seq<Event>, inv: iset<Store>)
    requires st in inv
    requires forall s: Store, e: Event :: s in inv && Handle(n, s, e).Some? ==> Handle(n, s, e).value in inv
    ensures HandleAll(n, st, events) in inv
  {
    if events != [] {
      RunInduction(n, st, events[..|events| - 1], inv);
    }
  }

  /** Every store reached from genesis, or from an epoch-boundary anchor, meets the invariant. */
  lemma ReachableStore(n: Network, events: seq<Event>)
    requires ValidNetwork(n) && GetForkchoiceStore(n).Some?
    ensures StoreInvariant(n, HandleAll(n, GetForkchoiceStore(n).value, events))
  {
    var inv := iset s: Store | StoreInvariant(n, s);
    InitialInvariant(n);
    forall s: Store, e: Event | s in inv && Handle(n, s, e).Some? ensures Handle(n, s, e).value in inv {
      HandleKeeps(n, s, e);
    }
    RunInduction(n, GetForkchoiceStore(n).value, events, inv);
  }

  // ---------- what never goes back ----------

  ghost predicate AtMost(st: Store, t: Store) {
    && st.justified.epoch <= t.justified.epoch
    && st.finalized.epoch <= t.finalized.epoch
    && st.unrealizedJustified.epoch <= t.unrealizedJustified.epoch
    && st.unrealizedFinalized.epoch <= t.unrealizedFinalized.epoch
    && st.blocks.Keys <= t.blocks.Keys
    && st.equivocating <= t.equivocating
    && (forall i :: i in st.latestMessages ==>
          i in t.latestMessages && st.latestMessages[i].epoch <= t.latestMessages[i].epoch)
  }

  lemma AtMostTransitive(a: Store, b: Store, c: Store)
    requires AtMost(a, b) && AtMost(b, c)
    ensures AtMost(a, c)
  {
  }

  lemma {:induction false} CatchUpNeverLowers(st: Store, slot: nat)
    ensures AtMost(st, CatchUp(st, slot))
    decreases slot - CurrentSlot(st)
  {
    if CurrentSlot(st) < slot {
      SlotTimeExact(st, CurrentSlot(st) + 1);
      var t := OnTickPerSlot(st, SlotTime(st, CurrentSlot(st) + 1));
      CatchUpNeverLowers(t, slot);
      AtMostTransitive(st, t, CatchUp(t, slot));
    }
  }

  lemma HandleNeverLowers(n: Network, st: Store, e: Event)
    requires Handle(n, st, e).Some?
    ensures AtMost(st, Handle(n, st, e).value)
  {
    if e.Tick? {
      var t := CatchUp(st, SlotAt(st.genesisTime, e.time));
      CatchUpNeverLowers(st, SlotAt(st.genesisTime, e.time));
      AtMostTransitive(st, t, OnTickPerSlot(t, e.time));
    }
  }

  /** No call, accepted or not, lowers a checkpoint or a vote, drops a block or forgives an equivocator. */
  lemma {:induction false} RunNeverLowers(n: Network, st: Store, events: seq<Event>)
    ensures AtMost(st, HandleAll(n, st, events))
  {
    if events != [] {
      RunNeverLowers(n, st, events[..|events| - 1]);
      var before := HandleAll(n, st, events[..|events| - 1]);
      if Handle(n, before, events[|events| - 1]).Some? {
        HandleNeverLowers(n, before, events[|events| - 1]);
        AtMostTransitive(st, before, HandleAll(n, st, events));
      }
    }
  }

  // ---------- the ring buffer in the store ----------

  /** For every stored block and every slot of its history window from the anchor up, the state's ring
      buffer gives the same block as walking the parents. */
  lemma RingMatchesTree(n: Network, st: Store, r: Root, slot: nat)
    requires ValidNetwork(n) && StoreInvariant(n, st) && r in st.blocks
    requires n.origin.block.slot <= slot < st.blockStates[r].slot <= slot + SLOTS_PER_HISTORICAL_ROOT
    ensures GetAncestor(st.blocks, r, slot).Some?
    ensures GetBlockRootAtSlot(st.blockStates[r], slot) == GetAncestor(st.blocks, r, slot)
  {
    AncestorOnChain(n, st.blocks, r, slot);
    ReplayInvariant(n.origin, ChainOf(n, st.blocks, r), st.blockStates[r]);
  }
}
