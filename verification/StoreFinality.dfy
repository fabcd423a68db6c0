/** Finality of a whole store: from genesis, and unless a third of the stake is slashable, a store only ever moves its
    finalized checkpoint to a descendant, and every later head descends from every earlier finalized checkpoint. */
module StoreFinality {
  import opened Primitives
  import opened BeaconChain
  import opened Chains
  import opened Finality
  import opened AccountableSafety
  import opened ForkChoice
  import opened StoreRuns
  import opened Weight
  import opened Head
  import opened Ticks

  /** A run along the chain of a stored block, up to the slot of that block. */
  ghost predicate AlongStored(n: Network, blocks: map<Root, Block>, r: Root, run: Run)
    requires Tree(n, blocks)
  {
    && r in blocks && Exec(n.origin, run).Some? && Blocks(n.origin, run) == ChainOf(n, blocks, r)
    && Exec(n.origin, run).value.slot == blocks[r].slot
  }

  /** `c` is justified by the votes on the chain of some stored block. */
  ghost predicate JustifiedOn(n: Network, blocks: map<Root, Block>, c: Checkpoint)
    requires Tree(n, blocks)
  {
    exists r, run :: AlongStored(n, blocks, r, run) && Justified(n.origin, run, c)
  }

  /** `c` is finalized by the votes on the chain of some stored block. */
  ghost predicate FinalizedOn(n: Network, blocks: map<Root, Block>, c: Checkpoint)
    requires Tree(n, blocks)
  {
    exists r, run :: AlongStored(n, blocks, r, run) && Finalized(LedgerOf(n.origin, run), c)
  }

  /** A justified and a finalized checkpoint: each the anchor or backed by votes, the latter not later. */
  ghost predicate PairBacked(n: Network, blocks: map<Root, Block>, j: Checkpoint, f: Checkpoint)
    requires Tree(n, blocks)
  {
    && f.epoch <= j.epoch
    && (j == Checkpoint(0, AnchorRoot(n)) || (j.epoch > 0 && JustifiedOn(n, blocks, j)))
    && (f == Checkpoint(0, AnchorRoot(n)) || (f.epoch > 0 && FinalizedOn(n, blocks, f)))
  }

  ghost predicate FinalityBacked(n: Network, st: Store)
    requires Tree(n, st.blocks)
  {
    && PairBacked(n, st.blocks, st.justified, st.finalized)
    && PairBacked(n, st.blocks, st.unrealizedJustified, st.unrealizedFinalized)
  }

  // ---------- every call keeps it ----------

  /** Blocks of a smaller tree have the same chains in a larger one. */
  lemma {:induction false} ChainOfLarger(n: Network, blocks: map<Root, Block>, larger: map<Root, Block>, r: Root)
    requires ValidNetwork(n) && Tree(n, blocks) && Tree(n, larger) && blocks.Keys <= larger.Keys && r in blocks
    ensures ChainOf(n, larger, r) == ChainOf(n, blocks, r)
    decreases blocks[r].slot
  {
    BlockRootInjective(n.origin.env, blocks[r], larger[r]);
    assert ParentStored(n, blocks, r);
    if r != AnchorRoot(n) { ChainOfLarger(n, blocks, larger, blocks[r].parentRoot); }
  }

  lemma AlongLarger(n: Network, blocks: map<Root, Block>, larger: map<Root, Block>, r: Root, run: Run)
    requires ValidNetwork(n) && Tree(n, blocks) && Tree(n, larger) && blocks.Keys <= larger.Keys
    requires AlongStored(n, blocks, r, run)
    ensures AlongStored(n, larger, r, run)
  {
    ChainOfLarger(n, blocks, larger, r);
    BlockRootInjective(n.origin.env, blocks[r], larger[r]);
  }

  lemma JustifiedLarger(n: Network, blocks: map<Root, Block>, larger: map<Root, Block>, c: Checkpoint)
    requires ValidNetwork(n) && Tree(n, blocks) && Tree(n, larger) && blocks.Keys <= larger.Keys && JustifiedOn(n, blocks, c)
    ensures JustifiedOn(n, larger, c)
  {
    var r, run :| AlongStored(n, blocks, r, run) && Justified(n.origin, run, c);
    AlongLarger(n, blocks, larger, r, run);
  }

  lemma FinalizedLarger(n: Network, blocks: map<Root, Block>, larger: map<Root, Block>, c: Checkpoint)
    requires ValidNetwork(n) && Tree(n, blocks) && Tree(n, larger) && blocks.Keys <= larger.Keys && FinalizedOn(n, blocks, c)
    ensures FinalizedOn(n, larger, c)
  {
    var r, run :| AlongStored(n, blocks, r, run) && Finalized(LedgerOf(n.origin, run), c);
    AlongLarger(n, blocks, larger, r, run);
  }

  lemma BackedLarger(n: Network, blocks: map<Root, Block>, larger: map<Root, Block>, j: Checkpoint, f: Checkpoint)
    requires ValidNetwork(n) && Tree(n, blocks) && Tree(n, larger) && blocks.Keys <= larger.Keys && PairBacked(n, blocks, j, f)
    ensures PairBacked(n, larger, j, f)
  {
    if j.epoch > 0 { JustifiedLarger(n, blocks, larger, j); }
    if f.epoch > 0 { FinalizedLarger(n, blocks, larger, f); }
  }

  /** What a stored state justifies and finalizes, now or pulled up, is backed by votes on its chain. */
  ghost predicate StateBacks(n: Network, blocks: map<Root, Block>, s: State)
    requires Tree(n, blocks)
  {
    s.finalized.epoch <= s.currentJustified.epoch && JustifiedOn(n, blocks, s.currentJustified) && FinalizedOn(n, blocks, s.finalized)
  }

  /** The votes along `run` justify and finalize what `s` says they do. */
  ghost predicate RunBacks(o: Origin, run: Run, s: State) {
    s.finalized.epoch <= s.currentJustified.epoch && Justified(o, run, s.currentJustified) && Finalized(LedgerOf(o, run), s.finalized)
  }

  // The state at the end of a run, and the one it is pulled up to.
  lemma EndBacked(o: Origin, run: Run, s: State)
    requires GenesisOrigin(o) && Exec(o, run) == Some(s)
    ensures RunBacks(o, run, s)
  {
    RunFinality(o, run);
  }

  lemma PulledUpBacked(o: Origin, run: Run, s: State, j: State)
    requires GenesisOrigin(o) && Exec(o, run) == Some(s) && ProcessJustificationAndFinalization(s) == Some(j)
    ensures RunBacks(o, run, j)
  {
    RunFinality(o, run);
    JustificationKeepsStanding(o, run, s, j);
  }

  lemma AlongBacks(n: Network, blocks: map<Root, Block>, r: Root, run: Run, s: State)
    requires Tree(n, blocks) && AlongStored(n, blocks, r, run) && RunBacks(n.origin, run, s)
    ensures StateBacks(n, blocks, s)
  {
  }

  lemma StoredRun(n: Network, blocks: map<Root, Block>, r: Root, s: State) returns (run: Run)
    requires Tree(n, blocks) && r in blocks && StateReplays(n.origin, ChainOf(n, blocks, r), blocks[r], s)
    ensures AlongStored(n, blocks, r, run) && Exec(n.origin, run) == Some(s)
  {
    run :| Exec(n.origin, run) == Some(s) && Blocks(n.origin, run) == ChainOf(n, blocks, r);
  }

  lemma StateBacked(n: Network, blocks: map<Root, Block>, r: Root, s: State, j: State)
    requires GenesisOrigin(n.origin) && Tree(n, blocks) && r in blocks && StateReplays(n.origin, ChainOf(n, blocks, r), blocks[r], s)
    requires ProcessJustificationAndFinalization(s) == Some(j)
    ensures StateBacks(n, blocks, s) && StateBacks(n, blocks, j)
  {
    var run := StoredRun(n, blocks, r, s);
    EndBacked(n.origin, run, s);
    AlongBacks(n, blocks, r, run, s);
    PulledUpBacked(n.origin, run, s, j);
    AlongBacks(n, blocks, r, run, j);
  }

  /** Taking the later of each keeps a pair backed. */
  lemma LaterBacked(n: Network, blocks: map<Root, Block>, j: Checkpoint, f: Checkpoint, j1: Checkpoint, f1: Checkpoint)
    requires Tree(n, blocks) && PairBacked(n, blocks, j, f) && f1.epoch <= j1.epoch
    requires (j1.epoch > 0 ==> JustifiedOn(n, blocks, j1)) && (f1.epoch > 0 ==> FinalizedOn(n, blocks, f1))
    ensures PairBacked(n, blocks, Later(j, j1), Later(f, f1))
  {
  }

  /** The checkpoints after a block are old ones or those of its two states. */
  lemma BlockBacked(n: Network, st: Store, b: Block, s: State, j: State, t: Store)
    requires ValidNetwork(n) && GenesisOrigin(n.origin) && Tree(n, st.blocks) && FinalityBacked(n, st)
    requires t == WithBlock(st, BlockRoot(n.origin.env, b), b, s, j) && Tree(n, t.blocks)
    requires StateBacks(n, t.blocks, s) && StateBacks(n, t.blocks, j)
    ensures FinalityBacked(n, t)
  {
    BackedLarger(n, st.blocks, t.blocks, st.justified, st.finalized);
    BackedLarger(n, st.blocks, t.blocks, st.unrealizedJustified, st.unrealizedFinalized);
    LaterBacked(n, t.blocks, st.justified, st.finalized, s.currentJustified, s.finalized);
    LaterBacked(n, t.blocks, Later(st.justified, s.currentJustified), Later(st.finalized, s.finalized), j.currentJustified, j.finalized);
    LaterBacked(n, t.blocks, st.unrealizedJustified, st.unrealizedFinalized, j.currentJustified, j.finalized);
  }

  lemma OnBlockBacked(n: Network, st: Store, b: Block, t: Store)
    requires ValidNetwork(n) && GenesisOrigin(n.origin) && Tree(n, st.blocks) && FinalityBacked(n, st)
    requires OnBlock(n, st, b) == Some(t) && Tree(n, t.blocks) && StatesReplay(n, t.blocks, t.blockStates)
    ensures FinalityBacked(n, t)
  {
    var s := StateTransition(n.origin.env, st.blockStates[b.parentRoot], b).value;
    var j := ProcessJustificationAndFinalization(s).value;
    StateBacked(n, t.blocks, BlockRoot(n.origin.env, b), s, j);
    BlockBacked(n, st, b, s, j, t);
  }

  lemma TickBacked(n: Network, st: Store, time: nat, t: Store)
    requires Tree(n, st.blocks) && FinalityBacked(n, st) && OnTick(st, time) == Some(t)
    ensures t.blocks == st.blocks && FinalityBacked(n, t)
  {
    TickIsMove(st, time);
    LaterBacked(n, st.blocks, st.justified, st.finalized, st.unrealizedJustified, st.unrealizedFinalized);
  }

  /** Votes and slashings touch neither blocks nor checkpoints. */
  predicate SameFinality(st: Store, t: Store) {
    && t.blocks == st.blocks && t.justified == st.justified && t.finalized == st.finalized
    && t.unrealizedJustified == st.unrealizedJustified && t.unrealizedFinalized == st.unrealizedFinalized
  }

  lemma VotesKeepFinality(n: Network, st: Store, e: Event)
    requires (e.NewAttestation? || e.NewSlashing?) && Handle(n, st, e).Some?
    ensures SameFinality(st, Handle(n, st, e).value)
  {
  }

  lemma HandleBacked(n: Network, st: Store, e: Event, t: Store)
    requires ValidNetwork(n) && GenesisOrigin(n.origin) && Tree(n, st.blocks) && FinalityBacked(n, st)
    requires Handle(n, st, e) == Some(t) && Tree(n, t.blocks) && StatesReplay(n, t.blocks, t.blockStates)
    ensures FinalityBacked(n, t)
  {
    match e
    case Tick(time) => TickBacked(n, st, time, t);
    case NewBlock(b) => OnBlockBacked(n, st, b, t);
    case _ => VotesKeepFinality(n, st, e);
  }

  ghost predicate Sound(n: Network, st: Store) {
    StoreInvariant(n, st) && FinalityBacked(n, st)
  }

  lemma SoundRun(n: Network, st: Store, events: seq<Event>)
    requires ValidNetwork(n) && GenesisOrigin(n.origin) && Sound(n, st)
    ensures Sound(n, HandleAll(n, st, events))
  {
    var inv := iset s: Store | Sound(n, s);
    forall s: Store, e: Event | s in inv && Handle(n, s, e).Some? ensures Handle(n, s, e).value in inv {
      HandleKeeps(n, s, e);
      HandleBacked(n, s, e, Handle(n, s, e).value);
    }
    RunInduction(n, st, events, inv);
  }

  lemma SoundStart(n: Network)
    requires ValidNetwork(n) && GenesisOrigin(n.origin) && GetForkchoiceStore(n).Some?
    ensures Sound(n, GetForkchoiceStore(n).value)
  {
    InitialInvariant(n);
  }

  // ---------- the theorem ----------

  /** The same validators with the same stake in every state along every stored chain. */
  ghost predicate FixedOnStore(n: Network, blocks: map<Root, Block>, vs: ValidatorSet)
    requires Tree(n, blocks)
  {
    EnoughStake(vs) && forall r, run :: AlongStored(n, blocks, r, run) ==> FixedSet(n.origin, run, vs)
  }

  /** A third of the stake signed slashable votes that two stored chains include. */
  ghost predicate StoreSlashable(n: Network, blocks: map<Root, Block>, vs: ValidatorSet)
    requires Tree(n, blocks)
  {
    exists r, q :: r in blocks && q in blocks && ThirdSlashable(ChainOf(n, blocks, r), ChainOf(n, blocks, q), vs)
  }

  lemma ChainCheckpointStored(n: Network, blocks: map<Root, Block>, r: Root, run: Run, epoch: nat)
    requires Tree(n, blocks) && n.origin.block.slot == 0 && AlongStored(n, blocks, r, run)
    ensures GetAncestor(blocks, r, StartSlot(epoch)) == Some(ChainCheckpoint(n.origin, run, epoch).root)
  {
    AncestorOnChain(n, blocks, r, StartSlot(epoch));
  }

  /** A checkpoint finalized and one justified by votes in one store: the latter, if not earlier, descends from the
      former, or a third is slashable. */
  lemma JustifiedAboveFinalized(n: Network, blocks: map<Root, Block>, vs: ValidatorSet, f: Checkpoint, g: Checkpoint)
    requires GenesisOrigin(n.origin) && Tree(n, blocks) && FixedOnStore(n, blocks, vs)
    requires FinalizedOn(n, blocks, f) && JustifiedOn(n, blocks, g) && 0 < f.epoch <= g.epoch
    ensures StoreSlashable(n, blocks, vs) || GetCheckpointBlock(blocks, g.root, f.epoch) == Some(f.root)
  {
    var o := n.origin;
    var r, a :| AlongStored(n, blocks, r, a) && Finalized(LedgerOf(o, a), f);
    var q, b :| AlongStored(n, blocks, q, b) && Justified(o, b, g);
    FinalizedIsJustified(o, a, f);
    FinalizedPersists(o, a, b, vs, f, g);
    if !ThirdSlashable(Blocks(o, a), Blocks(o, b), vs) {
      JustifiedOnChain(o, a, f);
      JustifiedOnChain(o, b, g);
      ChainCheckpointStored(n, blocks, q, b, f.epoch);
      ChainCheckpointStored(n, blocks, q, b, g.epoch);
      AncestorTwice(blocks, q, StartSlot(g.epoch), StartSlot(f.epoch));
    }
  }

  lemma FinalizedOnIsJustifiedOn(n: Network, blocks: map<Root, Block>, c: Checkpoint)
    requires Tree(n, blocks) && FinalizedOn(n, blocks, c)
    ensures JustifiedOn(n, blocks, c)
  {
    var r, run :| AlongStored(n, blocks, r, run) && Finalized(LedgerOf(n.origin, run), c);
    FinalizedIsJustified(n.origin, run, c);
  }

  /** Two checkpoints finalized by votes in one store: the later descends from the earlier, or a third is slashable. */
  lemma FinalizedInOrder(n: Network, blocks: map<Root, Block>, vs: ValidatorSet, f: Checkpoint, g: Checkpoint)
    requires GenesisOrigin(n.origin) && Tree(n, blocks) && FixedOnStore(n, blocks, vs)
    requires FinalizedOn(n, blocks, f) && FinalizedOn(n, blocks, g) && 0 < f.epoch <= g.epoch
    ensures StoreSlashable(n, blocks, vs) || GetCheckpointBlock(blocks, g.root, f.epoch) == Some(f.root)
  {
    FinalizedOnIsJustifiedOn(n, blocks, g);
    JustifiedAboveFinalized(n, blocks, vs, f, g);
  }

  /** Every stored block descends from the genesis block. */
  lemma DescendsFromGenesis(n: Network, st: Store, r: Root)
    requires ValidNetwork(n) && StoreInvariant(n, st) && n.origin.block.slot == 0 && r in st.blocks
    ensures GetAncestor(st.blocks, r, 0) == Some(AnchorRoot(n))
  {
    AncestorOnChain(n, st.blocks, r, 0);
    assert StateReplays(n.origin, ChainOf(n, st.blocks, r), st.blocks[r], st.blockStates[r]);
    ReplayInvariant(n.origin, ChainOf(n, st.blocks, r), st.blockStates[r]);
    GenesisAtZero(n.origin.env, ChainOf(n, st.blocks, r));
  }

  ghost predicate FromGenesis(n: Network, blocks: map<Root, Block>, r: Root) {
    GetAncestor(blocks, r, 0) == Some(AnchorRoot(n))
  }

  /** An earlier finalized checkpoint `e`, seen from the checkpoints `j` and `f` of a later store. */
  ghost predicate Before(n: Network, blocks: map<Root, Block>, e: Checkpoint, j: Checkpoint, f: Checkpoint)
    requires Tree(n, blocks)
  {
    && PairBacked(n, blocks, j, f) && FromGenesis(n, blocks, j.root) && FromGenesis(n, blocks, f.root)
    && e.epoch <= f.epoch && (e == Checkpoint(0, AnchorRoot(n)) || (e.epoch > 0 && FinalizedOn(n, blocks, e)))
  }

  /** What the earlier store has finalized stays finalized, or stays the anchor, in the later one. */
  lemma EarlierFinalized(n: Network, st: Store, t: Store)
    requires ValidNetwork(n) && n.origin.block.slot == 0 && Sound(n, st) && Sound(n, t) && AtMost(st, t)
    ensures Before(n, t.blocks, st.finalized, t.justified, t.finalized)
  {
    BackedLarger(n, st.blocks, t.blocks, st.justified, st.finalized);
    DescendsFromGenesis(n, t, t.finalized.root);
    DescendsFromGenesis(n, t, t.justified.root);
  }

  /** `r` descends from the checkpoint `e`, or a third of the stake is slashable. */
  ghost predicate DescendsOrSlashable(n: Network, blocks: map<Root, Block>, vs: ValidatorSet, r: Root, e: Checkpoint)
    requires Tree(n, blocks)
  {
    StoreSlashable(n, blocks, vs) || GetCheckpointBlock(blocks, r, e.epoch) == Some(e.root)
  }

  lemma FirstCheckpoint(n: Network, blocks: map<Root, Block>, vs: ValidatorSet, r: Root)
    requires Tree(n, blocks) && FromGenesis(n, blocks, r)
    ensures DescendsOrSlashable(n, blocks, vs, r, Checkpoint(0, AnchorRoot(n)))
  {
  }

  lemma InOrder(n: Network, blocks: map<Root, Block>, vs: ValidatorSet, e: Checkpoint, j: Checkpoint, f: Checkpoint)
    requires GenesisOrigin(n.origin) && Tree(n, blocks) && FixedOnStore(n, blocks, vs) && Before(n, blocks, e, j, f)
    ensures DescendsOrSlashable(n, blocks, vs, f.root, e) && DescendsOrSlashable(n, blocks, vs, j.root, e)
  {
    if e.epoch == 0 {
      FirstCheckpoint(n, blocks, vs, f.root);
      FirstCheckpoint(n, blocks, vs, j.root);
    } else {
      FinalizedInOrder(n, blocks, vs, e, f);
      JustifiedAboveFinalized(n, blocks, vs, e, j);
    }
  }

  lemma BelowFinalized(n: Network, blocks: map<Root, Block>, vs: ValidatorSet, e: Checkpoint, f: Checkpoint, r: Root)
    requires Tree(n, blocks) && e.epoch <= f.epoch && DescendsOrSlashable(n, blocks, vs, f.root, e)
    requires GetCheckpointBlock(blocks, r, f.epoch) == Some(f.root)
    ensures DescendsOrSlashable(n, blocks, vs, r, e)
  {
    AncestorTwice(blocks, r, StartSlot(f.epoch), StartSlot(e.epoch));
  }

  // Whatever passes the finalized check descends from all that was finalized before.
  lemma LeafInOrder(n: Network, blocks: map<Root, Block>, vs: ValidatorSet, e: Checkpoint, j: Checkpoint, f: Checkpoint, r: Root)
    requires GenesisOrigin(n.origin) && Tree(n, blocks) && FixedOnStore(n, blocks, vs) && Before(n, blocks, e, j, f)
    requires if f.epoch > 0 then GetCheckpointBlock(blocks, r, f.epoch) == Some(f.root) else FromGenesis(n, blocks, r)
    ensures DescendsOrSlashable(n, blocks, vs, r, e)
  {
    if f.epoch > 0 {
      InOrder(n, blocks, vs, e, j, f);
      BelowFinalized(n, blocks, vs, e, f, r);
    } else {
      FirstCheckpoint(n, blocks, vs, r);
    }
  }

  lemma HeadInOrder(n: Network, vs: ValidatorSet, e: Checkpoint, t: Store, head: Root)
    requires ValidNetwork(n) && GenesisOrigin(n.origin) && StoreInvariant(n, t)
    requires Before(n, t.blocks, e, t.justified, t.finalized) && FixedOnStore(n, t.blocks, vs)
    requires head == t.justified.root || (head in t.blocks && CorrectFinalized(t, head))
    ensures DescendsOrSlashable(n, t.blocks, vs, head, e)
  {
    if head == t.justified.root {
      InOrder(n, t.blocks, vs, e, t.justified, t.finalized);
    } else {
      if t.finalized.epoch == 0 { DescendsFromGenesis(n, t, head); }
      LeafInOrder(n, t.blocks, vs, e, t.justified, t.finalized, head);
    }
  }

  lemma LaterStores(n: Network, events: seq<Event>, more: seq<Event>, st: Store, t: Store)
    requires ValidNetwork(n) && GenesisOrigin(n.origin) && GetForkchoiceStore(n).Some?
    requires st == HandleAll(n, GetForkchoiceStore(n).value, events) && t == HandleAll(n, st, more)
    ensures Sound(n, st) && Sound(n, t) && AtMost(st, t)
  {
    SoundStart(n);
    SoundRun(n, GetForkchoiceStore(n).value, events);
    SoundRun(n, st, more);
    RunNeverLowers(n, st, more);
  }

  /** Along any run from genesis the finalized checkpoint only moves to a descendant of itself, whether a block
      brings it or a tick pulls it up, and the justified one descends from it, unless a third of the stake is slashable. */
  lemma FinalizedOnlyDescends(n: Network, vs: ValidatorSet, events: seq<Event>, more: seq<Event>, st: Store, t: Store)
    requires ValidNetwork(n) && GenesisOrigin(n.origin) && GetForkchoiceStore(n).Some?
    requires st == HandleAll(n, GetForkchoiceStore(n).value, events) && t == HandleAll(n, st, more)
    requires Tree(n, t.blocks) && FixedOnStore(n, t.blocks, vs)
    ensures DescendsOrSlashable(n, t.blocks, vs, t.finalized.root, st.finalized)
    ensures DescendsOrSlashable(n, t.blocks, vs, t.justified.root, st.finalized)
  {
    LaterStores(n, events, more, st, t);
    EarlierFinalized(n, st, t);
    InOrder(n, t.blocks, vs, st.finalized, t.justified, t.finalized);
  }

  /** So does everything that `get_head` may return later, a viable leaf or the justified root: finality is never undone. */
  lemma HeadNeverReverts(n: Network, vs: ValidatorSet, events: seq<Event>, more: seq<Event>, st: Store, t: Store, head: Root)
    requires ValidNetwork(n) && GenesisOrigin(n.origin) && GetForkchoiceStore(n).Some?
    requires st == HandleAll(n, GetForkchoiceStore(n).value, events) && t == HandleAll(n, st, more)
    requires Tree(n, t.blocks) && FixedOnStore(n, t.blocks, vs)
    requires head == t.justified.root || (head in t.blocks && CorrectFinalized(t, head))
    ensures DescendsOrSlashable(n, t.blocks, vs, head, st.finalized)
  {
    LaterStores(n, events, more, st, t);
    EarlierFinalized(n, st, t);
    HeadInOrder(n, vs, st.finalized, t, head);
  }
}
