/** Networks with one validator. With hardly any stake the floor of the total balances makes every epoch pass, and runs
    reach a store whose head cannot be computed and a block that cannot be pulled up; with enough stake they are an
    instance of what the finality of a store assumes. */
module SoleValidator {
  import opened Primitives
  import opened BeaconChain
  import opened Chains
  import opened Finality
  import opened ForkChoice
  import opened StoreRuns
  import opened Head
  import opened Weight
  import opened Ticks
  import opened Coding
  import opened AccountableSafety
  import opened StoreFinality

  const STATE_ROOT: Root := 1
  const EMPTY_BODY := Body([], 0)

  /** One validator with `stake`, active from the start and never leaving. */
  function Sole(stake: nat): seq<Validator> {
    [Validator(stake, false, 0, FAR_FUTURE_EPOCH)]
  }

  ghost function SoleEnv(stake: nat): Env {
    Env(_ => STATE_ROOT, HeaderCode, (b: Body) => BodyCode(b), (_, _) => true,
        (s: State, _) => Some((Sole(stake), s.rest)), (s: State, _) => Some((Sole(stake), s.rest)), (s: State) => (Sole(stake), s.rest))
  }

  const GENESIS_BLOCK := Block(0, 0, ZERO_ROOT, STATE_ROOT, EMPTY_BODY)

  ghost function GenesisState(stake: nat, rest: Rest): State {
    State(0, HeaderOf(SoleEnv(stake), GENESIS_BLOCK).(stateRoot := ZERO_ROOT), seq(SLOTS_PER_HISTORICAL_ROOT, _ => ZERO_ROOT),
          Sole(stake), [NO_FLAGS], [NO_FLAGS], [false, false, false, false], GENESIS_CHECKPOINT, GENESIS_CHECKPOINT, GENESIS_CHECKPOINT, rest)
  }

  ghost function SoleOrigin(stake: nat, rest: Rest): Origin {
    Origin(SoleEnv(stake), GENESIS_BLOCK, GenesisState(stake, rest))
  }

  ghost function SoleNetwork(stake: nat, rest: Rest, genesisTime: nat): Network {
    Network(SoleOrigin(stake, rest), genesisTime, _ => true, (_, _, _) => true)
  }

  lemma SoleValid(stake: nat, rest: Rest, genesisTime: nat)
    ensures GenesisOrigin(SoleOrigin(stake, rest)) && ValidNetwork(SoleNetwork(stake, rest, genesisTime))
  {
    IdealHashesExist(SoleEnv(stake));
  }

  // ---------- a registry that never changes ----------

  ghost predicate Keeps(env: Env, registry: seq<Validator>) {
    && (forall s :: env.epochUpdates(s).0 == registry)
    && (forall s, b :: env.afterAttestations(s, b).Some? ==> env.afterAttestations(s, b).value.0 == registry)
  }

  // The first two epochs are not weighed.
  lemma EarlySlot(env: Env, s: State, registry: seq<Validator>)
    requires Keeps(env, registry) && s.validators == registry && s.slot + 1 < StartSlot(3)
    ensures AdvanceSlot(env, s).Some?
    ensures var t := AdvanceSlot(env, s).value; t.slot == s.slot + 1 && t == WithFinality(t, s) && t.validators == registry
  {
    var j := AdvanceSlotShape(env, s);
    if (s.slot + 1) % SLOTS_PER_EPOCH == 0 { assert CurrentEpoch(s) <= 1; }
  }

  lemma {:induction false} EarlySlots(env: Env, s: State, slot: nat, registry: seq<Validator>)
    requires Keeps(env, registry) && s.validators == registry && slot < StartSlot(3)
    ensures AdvanceTo(env, s, slot).Some?
    ensures var t := AdvanceTo(env, s, slot).value; t == WithFinality(t, s) && t.validators == registry
    decreases slot - s.slot
  {
    if s.slot < slot {
      EarlySlot(env, s, registry);
      EarlySlots(env, AdvanceSlot(env, s).value, slot, registry);
    }
  }

  /** What a state of the third epoch is like before any block. */
  ghost predicate Untouched(o: Origin, s: State, slot: nat) {
    && s.slot == slot && s == WithFinality(s, o.state)
    && s.header.slot == 0 && o.env.hashHeader(s.header) == BlockRoot(o.env, o.block)
    && (forall epoch: nat :: StartSlot(epoch) < slot ==> GetBlockRoot(s, epoch) == Some(BlockRoot(o.env, o.block)))
  }

  lemma UntouchedInvariant(o: Origin, s: State, slot: nat)
    requires o.block.slot == 0 && ChainInvariant(o, [o.block], s) && s.slot == slot && 0 < slot < StartSlot(3)
    requires s == WithFinality(s, o.state)
    ensures Untouched(o, s, slot)
  {
  }

  lemma ReachesSlot(stake: nat, rest: Rest, slot: nat)
    requires 0 < slot < StartSlot(3)
    ensures var o := SoleOrigin(stake, rest); var t := AdvanceTo(o.env, o.state, slot);
      t.Some? && Untouched(o, t.value, slot) && Replays(o, [o.block], t.value)
  {
    var o := SoleOrigin(stake, rest);
    SoleValid(stake, rest, 0);
    EarlySlots(o.env, o.state, slot, Sole(stake));
    var run: Run := [];
    assert Exec(o, run) == Some(o.state) && Blocks(o, run) == [o.block];
    AdvanceReplays(o, [o.block], o.state, slot);
    var t := AdvanceTo(o.env, o.state, slot).value;
    ReplayInvariant(o, [o.block], t);
    UntouchedInvariant(o, t, slot);
  }

  // ---------- one block in the third epoch ----------

  ghost function LateBlock(env: Env, slot: nat): Block {
    Block(slot, 0, BlockRoot(env, GENESIS_BLOCK), STATE_ROOT, EMPTY_BODY)
  }

  lemma LateBlockApplies(o: Origin, s: State, slot: nat, stake: nat) returns (t: State)
    requires o.env == SoleEnv(stake) && o.block == GENESIS_BLOCK && slot > 0 && Untouched(o, s, slot)
    ensures ApplyBlock(o.env, s, LateBlock(o.env, slot)) == Some(t)
    ensures t.slot == slot && t.validators == Sole(stake) && t.blockRoots == s.blockRoots && t == WithFinality(t, s)
  {
    var b := LateBlock(o.env, slot);
    var s1 := ProcessBlockHeader(o.env, s, b).value;
    assert ProcessAttestations(o.env, s1.(validators := Sole(stake), rest := s1.rest), b.body.attestations) ==
      Some(s1.(validators := Sole(stake)));
    t := ApplyBlock(o.env, s, b).value;
  }

  lemma LateBlockTransition(stake: nat, rest: Rest, slot: nat) returns (t: State)
    requires 0 < slot < StartSlot(3)
    ensures var o := SoleOrigin(stake, rest); StateTransition(o.env, o.state, LateBlock(o.env, slot)) == Some(t)
    ensures t.slot == slot && t.validators == Sole(stake) && t == WithFinality(t, GenesisState(stake, rest))
    ensures forall epoch: nat :: StartSlot(epoch) < slot ==> GetBlockRoot(t, epoch) == Some(BlockRoot(SoleEnv(stake), GENESIS_BLOCK))
  {
    var o := SoleOrigin(stake, rest);
    ReachesSlot(stake, rest, slot);
    var s := AdvanceTo(o.env, o.state, slot).value;
    t := LateBlockApplies(o, s, slot, stake);
    forall epoch: nat | StartSlot(epoch) < slot ensures GetBlockRoot(t, epoch) == Some(BlockRoot(SoleEnv(stake), GENESIS_BLOCK)) {
      assert GetBlockRoot(t, epoch) == GetBlockRoot(s, epoch);
    }
  }

  /** At most one and a half increments; the smallest effective balance, one increment, is such a stake. */
  predicate HardlyAny(stake: nat) {
    stake * 2 <= EFFECTIVE_BALANCE_INCREMENT * 3
  }

  lemma SoleStake(stake: nat, who: set<nat>)
    ensures SumOver(Balances(Sole(stake)), who) == if 0 in who then stake else 0
  {
    var w := Balances(Sole(stake));
    assert w == [stake] && w[..0] == [];
    assert SumOver(w[..0], who) == 0;
  }

  /** With hardly any stake the floor passes both epochs, though nobody has voted. */
  lemma NobodyJustifies(t: State, root: Root, stake: nat) returns (j: State)
    requires t.validators == Sole(stake) && HardlyAny(stake) && StartSlot(2) < t.slot < StartSlot(3)
    requires t.currentJustified == t.previousJustified == t.finalized == GENESIS_CHECKPOINT && t.bits == [false, false, false, false]
    requires GetBlockRoot(t, 1) == Some(root) && GetBlockRoot(t, 2) == Some(root)
    ensures ProcessJustificationAndFinalization(t) == Some(j)
    ensures j.currentJustified == Checkpoint(2, root) && j.finalized == GENESIS_CHECKPOINT
  {
    assert CurrentEpoch(t) == 2;
    SoleStake(stake, ActiveIndices(t, 2));
    j := ProcessJustificationAndFinalization(t).value;
    assert !j.bits[2];
  }

  lemma LateBlockPulledUp(stake: nat, rest: Rest, slot: nat) returns (t: State, j: State)
    requires HardlyAny(stake) && StartSlot(2) < slot < StartSlot(3)
    ensures var o := SoleOrigin(stake, rest); StateTransition(o.env, o.state, LateBlock(o.env, slot)) == Some(t)
    ensures t.currentJustified == t.finalized == GENESIS_CHECKPOINT
    ensures ProcessJustificationAndFinalization(t) == Some(j)
    ensures j.currentJustified == Checkpoint(2, BlockRoot(SoleEnv(stake), GENESIS_BLOCK)) && j.finalized == GENESIS_CHECKPOINT
  {
    t := LateBlockTransition(stake, rest, slot);
    j := NobodyJustifies(t, BlockRoot(SoleEnv(stake), GENESIS_BLOCK), stake);
  }

  // ---------- the run ----------

  lemma FirstTick(n: Network, st: Store, slot: nat)
    requires GetForkchoiceStore(n) == Some(st) && n.origin.state.slot == 0
    ensures OnTick(st, n.genesisTime + slot * SECONDS_PER_SLOT) == Some(st.(time := n.genesisTime + slot * SECONDS_PER_SLOT))
  {
    TickIsMove(st, n.genesisTime + slot * SECONDS_PER_SLOT);
  }

  lemma LateBlockAdmissible(n: Network, st: Store, slot: nat)
    requires n.origin.block == GENESIS_BLOCK && n.origin.state.slot == 0 && n.dataAvailable(LateBlock(n.origin.env, slot))
    requires GetForkchoiceStore(n).Some? && slot > 0
    requires st == GetForkchoiceStore(n).value.(time := n.genesisTime + slot * SECONDS_PER_SLOT)
    ensures var b := LateBlock(n.origin.env, slot); BlockAdmissible(n, st, b) && st.blockStates[b.parentRoot] == n.origin.state
  {
    SlotTimeExact(st, slot);
    assert CurrentSlot(st) == slot;
  }

  lemma LateBlockAccepted(n: Network, st: Store, slot: nat, t: State, j: State)
    requires n.origin.block == GENESIS_BLOCK && n.origin.state.slot == 0 && n.dataAvailable(LateBlock(n.origin.env, slot))
    requires GetForkchoiceStore(n).Some? && slot > 0
    requires st == GetForkchoiceStore(n).value.(time := n.genesisTime + slot * SECONDS_PER_SLOT)
    requires StateTransition(n.origin.env, n.origin.state, LateBlock(n.origin.env, slot)) == Some(t)
    requires ProcessJustificationAndFinalization(t) == Some(j)
    ensures var b := LateBlock(n.origin.env, slot); OnBlock(n, st, b) == Some(WithBlock(st, BlockRoot(n.origin.env, b), b, t, j))
  {
    LateBlockAdmissible(n, st, slot);
  }

  /** The store after the run: two blocks, and a justified checkpoint whose state was never stored. */
  ghost predicate Stuck(st: Store, genesis: Root, late: Root, b: Block) {
    && genesis != late && st.blocks == map[genesis := GENESIS_BLOCK, late := b] && b.parentRoot == genesis && late != ZERO_ROOT
    && st.blockStates.Keys == {genesis, late} && st.unrealizedJustifications.Keys == {genesis, late}
    && st.justified == Checkpoint(2, genesis) && st.unrealizedJustifications[late] == st.justified
    && st.finalized.epoch == 0 && EpochAt(b.slot) < CurrentStoreEpoch(st)
    && st.checkpointStates.Keys == {Checkpoint(0, genesis)}
  }

  /** The store before the last tick: the block has raised only the unrealized checkpoint. */
  ghost predicate Waiting(st: Store, genesis: Root, late: Root, b: Block) {
    && genesis != late && st.blocks == map[genesis := GENESIS_BLOCK, late := b] && b.parentRoot == genesis && late != ZERO_ROOT
    && st.blockStates.Keys == {genesis, late} && st.unrealizedJustifications.Keys == {genesis, late}
    && st.unrealizedJustifications[late] == st.unrealizedJustified == Checkpoint(2, genesis)
    && st.justified.epoch == 0 && st.finalized.epoch == 0 && st.unrealizedFinalized.epoch == 0
    && EpochAt(b.slot) == CurrentStoreEpoch(st) == 2
    && st.checkpointStates.Keys == {Checkpoint(0, genesis)}
  }

  lemma LateBlockWaits(n: Network, st: Store, slot: nat, t: State, j: State)
    requires LateStates(n, slot, t, j) && GetForkchoiceStore(n).Some?
    requires st == GetForkchoiceStore(n).value.(time := n.genesisTime + slot * SECONDS_PER_SLOT)
    ensures var b := LateBlock(n.origin.env, slot); var late := BlockRoot(n.origin.env, b);
      Waiting(WithBlock(st, late, b, t, j), AnchorRoot(n), late, b)
  {
    var b := LateBlock(n.origin.env, slot);
    if BlockRoot(n.origin.env, b) == AnchorRoot(n) { BlockRootInjective(n.origin.env, b, n.origin.block); }
    SlotTimeExact(st, slot);
  }

  lemma LastTick(st: Store, genesis: Root, late: Root, b: Block)
    requires Waiting(st, genesis, late, b)
    ensures var end := OnTick(st, st.genesisTime + StartSlot(3) * SECONDS_PER_SLOT); end.Some? && Stuck(end.value, genesis, late, b)
  {
    SlotTimeExact(st, StartSlot(3));
    TickIsMove(st, st.genesisTime + StartSlot(3) * SECONDS_PER_SLOT);
  }

  lemma StuckHead(st: Store, genesis: Root, late: Root, b: Block)
    requires Stuck(st, genesis, late, b)
    ensures Keyed(st) && HeadFails(st)
  {
    assert Children(st.blocks, late) == {};
    assert ViableLeaf(st, late) && Supports(st.blocks, late, late);
    assert HasViableLeaf(st, late) && late in Children(st.blocks, genesis);
  }

  /** Some sequence of calls leads from one store to the other. */
  ghost predicate Reaches(n: Network, st: Store, t: Store) {
    exists run :: HandleAll(n, st, run) == t
  }

  lemma OneCall(n: Network, st: Store, e: Event, t: Store)
    requires Handle(n, st, e) == Some(t)
    ensures Reaches(n, st, t)
  {
    assert [e][..0] == [];
    assert HandleAll(n, st, [e]) == t;
  }

  lemma {:induction false} CallsCompose(n: Network, st: Store, a: seq<Event>, b: seq<Event>)
    ensures HandleAll(n, st, a + b) == HandleAll(n, HandleAll(n, st, a), b)
    decreases |b|
  {
    if b == [] {
      assert a + b == a;
    } else {
      CallsCompose(n, st, a, b[..|b| - 1]);
      assert (a + b)[..|a + b| - 1] == a + b[..|b| - 1];
    }
  }

  lemma ReachesFurther(n: Network, st: Store, t: Store, u: Store)
    requires Reaches(n, st, t) && Reaches(n, t, u)
    ensures Reaches(n, st, u)
  {
    var a :| HandleAll(n, st, a) == t;
    var b :| HandleAll(n, t, b) == u;
    CallsCompose(n, st, a, b);
  }

  /** A network like the one above, with the states `t` and `j` of the late block, before and after pulling up. */
  ghost predicate LateStates(n: Network, slot: nat, t: State, j: State) {
    && IdealHashes(n.origin.env) && StartSlot(2) < slot < StartSlot(3)
    && n.origin.block == GENESIS_BLOCK && n.origin.state.slot == 0 && n.dataAvailable(LateBlock(n.origin.env, slot))
    && StateTransition(n.origin.env, n.origin.state, LateBlock(n.origin.env, slot)) == Some(t)
    && ProcessJustificationAndFinalization(t) == Some(j)
    && t.currentJustified == t.finalized == j.finalized == GENESIS_CHECKPOINT && j.currentJustified == Checkpoint(2, AnchorRoot(n))
  }

  lemma FirstCall(n: Network, st: Store, slot: nat)
    requires GetForkchoiceStore(n) == Some(st) && n.origin.state.slot == 0
    ensures Reaches(n, st, st.(time := n.genesisTime + slot * SECONDS_PER_SLOT))
  {
    var x := n.genesisTime + slot * SECONDS_PER_SLOT;
    FirstTick(n, st, slot);
    OneCall(n, st, Tick(x), st.(time := x));
  }

  lemma SecondCall(n: Network, st: Store, slot: nat, t: State, j: State) returns (b: Block, late: Root, st2: Store)
    requires LateStates(n, slot, t, j) && GetForkchoiceStore(n).Some?
    requires st == GetForkchoiceStore(n).value.(time := n.genesisTime + slot * SECONDS_PER_SLOT)
    ensures Reaches(n, st, st2) && Waiting(st2, AnchorRoot(n), late, b)
  {
    b := LateBlock(n.origin.env, slot);
    late := BlockRoot(n.origin.env, b);
    LateBlockAccepted(n, st, slot, t, j);
    LateBlockWaits(n, st, slot, t, j);
    st2 := WithBlock(st, late, b, t, j);
    OneCall(n, st, NewBlock(b), st2);
  }

  lemma LastCall(n: Network, st: Store, genesis: Root, late: Root, b: Block) returns (end: Store)
    requires Waiting(st, genesis, late, b)
    ensures Reaches(n, st, end) && Keyed(end) && HeadFails(end)
  {
    var y := st.genesisTime + StartSlot(3) * SECONDS_PER_SLOT;
    LastTick(st, genesis, late, b);
    end := OnTick(st, y).value;
    OneCall(n, st, Tick(y), end);
    StuckHead(end, genesis, late, b);
  }

  lemma LateCalls(n: Network, st: Store, slot: nat, t: State, j: State) returns (end: Store)
    requires GetForkchoiceStore(n) == Some(st) && LateStates(n, slot, t, j)
    ensures Reaches(n, st, end) && Keyed(end) && HeadFails(end)
  {
    var st1: Store := st.(time := n.genesisTime + slot * SECONDS_PER_SLOT);
    FirstCall(n, st, slot);
    var b, late, st2 := SecondCall(n, st1, slot, t, j);
    ReachesFurther(n, st, st1, st2);
    end := LastCall(n, st2, AnchorRoot(n), late, b);
    ReachesFurther(n, st, st2, end);
  }

  lemma LateNetwork(stake: nat, rest: Rest, genesisTime: nat, slot: nat) returns (n: Network, st: Store, t: State, j: State)
    requires HardlyAny(stake) && StartSlot(2) < slot < StartSlot(3)
    ensures n.origin.state.validators == Sole(stake)
    ensures ValidNetwork(n) && GenesisOrigin(n.origin) && GetForkchoiceStore(n) == Some(st) && LateStates(n, slot, t, j)
  {
    n := SoleNetwork(stake, rest, genesisTime);
    SoleValid(stake, rest, genesisTime);
    st := GetForkchoiceStore(n).value;
    t, j := LateBlockPulledUp(stake, rest, slot);
  }

  /** A run of a valid network with one active validator, from genesis, reaches a store for which `get_head` fails:
      time passes into the third epoch, a block on genesis comes in, and time passes into the fourth. */
  lemma HeadCanFail(stake: nat, rest: Rest, genesisTime: nat, slot: nat) returns (n: Network, run: seq<Event>)
    requires HardlyAny(stake) && StartSlot(2) < slot < StartSlot(3)
    ensures n.origin.state.validators == Sole(stake)
    ensures ValidNetwork(n) && GenesisOrigin(n.origin) && GetForkchoiceStore(n).Some?
    ensures var end := HandleAll(n, GetForkchoiceStore(n).value, run); Keyed(end) && HeadFails(end)
  {
    var st: Store, t: State, j: State;
    n, st, t, j := LateNetwork(stake, rest, genesisTime, slot);
    var end := LateCalls(n, st, slot, t, j);
    run :| HandleAll(n, st, run) == end;
  }

  // ---------- a block that cannot be pulled up ----------

  lemma EarlyBlock(stake: nat, rest: Rest, slot: nat) returns (t: State)
    requires HardlyAny(stake) && slot == StartSlot(2)
    ensures var o := SoleOrigin(stake, rest); StateTransition(o.env, o.state, LateBlock(o.env, slot)) == Some(t)
    ensures ProcessJustificationAndFinalization(t).None?
  {
    var o := SoleOrigin(stake, rest);
    SoleValid(stake, rest, 0);
    t := LateBlockTransition(stake, rest, slot);
    var start: Run := [];
    assert Exec(o, start) == Some(o.state) && Blocks(o, start) == [o.block];
    TransitionReplays(o, [o.block], o.state, LateBlock(o.env, slot));
    var run :| Exec(o, run) == Some(t) && Blocks(o, run) == [o.block] + [LateBlock(o.env, slot)];
    SoleStake(stake, ActiveIndices(t, CurrentEpoch(t)));
    PullUpFailsExactly(o, run, t);
  }

  /** Everything about the block in slot `slot` that does not depend on the store. */
  ghost predicate RejectedState(n: Network, slot: nat, t: State) {
    && n.origin.block == GENESIS_BLOCK && n.origin.state.slot == 0 && n.dataAvailable(LateBlock(n.origin.env, slot))
    && StateTransition(n.origin.env, n.origin.state, LateBlock(n.origin.env, slot)) == Some(t)
    && ProcessJustificationAndFinalization(t).None?
  }

  lemma EarlyNetwork(stake: nat, rest: Rest, genesisTime: nat, slot: nat) returns (n: Network, t: State)
    requires HardlyAny(stake) && slot == StartSlot(2)
    ensures n.origin.state.validators == Sole(stake) && ValidNetwork(n) && UnflaggedOrigin(n.origin)
    ensures GetForkchoiceStore(n).Some? && n.genesisTime == genesisTime && RejectedState(n, slot, t)
  {
    n := SoleNetwork(stake, rest, genesisTime);
    SoleValid(stake, rest, genesisTime);
    t := EarlyBlock(stake, rest, slot);
  }

  lemma BlockRejected(n: Network, st: Store, b: Block, t: State)
    requires BlockAdmissible(n, st, b) && StateTransition(n.origin.env, st.blockStates[b.parentRoot], b) == Some(t)
    requires ProcessJustificationAndFinalization(t).None?
    ensures OnBlock(n, st, b).None?
  {
  }

  lemma EarlyBlockRejected(n: Network, slot: nat, t: State) returns (st: Store, b: Block)
    requires GetForkchoiceStore(n).Some? && slot > 0 && RejectedState(n, slot, t)
    ensures OnTick(GetForkchoiceStore(n).value, n.genesisTime + slot * SECONDS_PER_SLOT) == Some(st) && b.slot == slot
    ensures BlockAdmissible(n, st, b) && StateTransition(n.origin.env, st.blockStates[b.parentRoot], b) == Some(t)
    ensures OnBlock(n, st, b).None?
  {
    FirstTick(n, GetForkchoiceStore(n).value, slot);
    st := GetForkchoiceStore(n).value.(time := n.genesisTime + slot * SECONDS_PER_SLOT);
    b := LateBlock(n.origin.env, slot);
    LateBlockAdmissible(n, st, slot);
    BlockRejected(n, st, b, t);
  }

  /** In the first slot of the third epoch of the same network a block passes every check of `on_block` and the whole
      state transition, and is rejected because its post-state cannot be pulled up. */
  lemma PullUpCanFail(stake: nat, rest: Rest, genesisTime: nat) returns (n: Network, st: Store, b: Block, t: State)
    requires HardlyAny(stake)
    ensures n.origin.state.validators == Sole(stake) && ValidNetwork(n) && UnflaggedOrigin(n.origin) && GetForkchoiceStore(n).Some?
    ensures OnTick(GetForkchoiceStore(n).value, n.genesisTime + b.slot * SECONDS_PER_SLOT) == Some(st)
    ensures BlockAdmissible(n, st, b) && StateTransition(n.origin.env, st.blockStates[b.parentRoot], b) == Some(t)
    ensures ProcessJustificationAndFinalization(t).None? && OnBlock(n, st, b).None?
  {
    var slot: nat := StartSlot(2);
    n, t := EarlyNetwork(stake, rest, genesisTime, slot);
    st, b := EarlyBlockRejected(n, slot, t);
  }

  // ---------- enough stake ----------

  lemma {:induction false} RegistryKept(o: Origin, run: Run, registry: seq<Validator>)
    requires Keeps(o.env, registry) && o.state.validators == registry && Exec(o, run).Some?
    ensures Exec(o, run).value.validators == registry
  {
    if run != [] { RegistryKept(o, run[..|run| - 1], registry); }
  }

  lemma {:induction false} SlotsPass(o: Origin, run: Run, w: State, registry: seq<Validator>)
    requires Keeps(o.env, registry) && o.state.validators == registry && Exec(o, run).Some? && OnRun(o, run, w)
    ensures w.slot <= Exec(o, run).value.slot && w.validators == registry
  {
    RegistryKept(o, run, registry);
    if Exec(o, run) != Some(w) {
      var before, i := run[..|run| - 1], run[|run| - 1];
      assert before + [i] == run;
      ExecLast(o, before, i);
      SlotsPass(o, before, w, registry);
    }
  }

  function SoleSet(stake: nat): ValidatorSet {
    ValidatorSet([stake], {0})
  }

  lemma SoleActive(s: State, stake: nat)
    requires s.validators == Sole(stake) && s.slot < StartSlot(FAR_FUTURE_EPOCH)
    ensures HasSet(s, SoleSet(stake))
  {
    assert Balances(s.validators) == [stake];
    assert ActiveIndices(s, CurrentEpoch(s)) == {0} && ActiveIndices(s, PreviousEpoch(s)) == {0};
  }

  lemma SoleFixed(stake: nat, rest: Rest, run: Run)
    requires var o := SoleOrigin(stake, rest); Exec(o, run).Some? && Exec(o, run).value.slot < StartSlot(FAR_FUTURE_EPOCH)
    ensures FixedSet(SoleOrigin(stake, rest), run, SoleSet(stake))
  {
    var o := SoleOrigin(stake, rest);
    forall w | OnRun(o, run, w) ensures HasSet(w, SoleSet(stake)) {
      SlotsPass(o, run, w, Sole(stake));
      SoleActive(w, stake);
    }
  }

  /** A network that meets all that the finality of a store assumes, in every store it can reach within the range of
      64-bit epochs. */
  lemma EnoughStakeNetwork(stake: nat, rest: Rest, genesisTime: nat, events: seq<Event>)
    requires !HardlyAny(stake)
    ensures var n := SoleNetwork(stake, rest, genesisTime);
      && ValidNetwork(n) && GenesisOrigin(n.origin) && GetForkchoiceStore(n).Some?
      && var st := HandleAll(n, GetForkchoiceStore(n).value, events);
      && Tree(n, st.blocks)
      && ((forall r :: r in st.blocks ==> st.blocks[r].slot < StartSlot(FAR_FUTURE_EPOCH)) ==>
            FixedOnStore(n, st.blocks, SoleSet(stake)))
  {
    var n := SoleNetwork(stake, rest, genesisTime);
    SoleValid(stake, rest, genesisTime);
    ReachableStore(n, events);
    var st := HandleAll(n, GetForkchoiceStore(n).value, events);
    if forall r :: r in st.blocks ==> st.blocks[r].slot < StartSlot(FAR_FUTURE_EPOCH) {
      SoleFixedOnStore(stake, rest, genesisTime, st.blocks);
    }
  }

  lemma SoleFixedOnStore(stake: nat, rest: Rest, genesisTime: nat, blocks: map<Root, Block>)
    requires !HardlyAny(stake) && Tree(SoleNetwork(stake, rest, genesisTime), blocks)
    requires forall r :: r in blocks ==> blocks[r].slot < StartSlot(FAR_FUTURE_EPOCH)
    ensures FixedOnStore(SoleNetwork(stake, rest, genesisTime), blocks, SoleSet(stake))
  {
    var n := SoleNetwork(stake, rest, genesisTime);
    SoleStake(stake, {0});
    assert Balances(Sole(stake)) == [stake];
    forall r, run | AlongStored(n, blocks, r, run) ensures FixedSet(n.origin, run, SoleSet(stake)) {
      SoleFixed(stake, rest, run);
    }
  }
}
