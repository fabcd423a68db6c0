/** The fork-choice store and its four handlers, as functions on store values.
    `None` stands for a rejected call: a failed assertion, a missing key or an underflow. */
module ForkChoice {
  import opened Primitives
  import opened BeaconChain
  import opened Chains

  datatype LatestMessage = LatestMessage(epoch: nat, root: Root)

  datatype StoreFields = Store(
    time: nat,
    genesisTime: nat,
    justified: Checkpoint,
    finalized: Checkpoint,
    unrealizedJustified: Checkpoint,
    unrealizedFinalized: Checkpoint,
    boostRoot: Root,
    equivocating: set<nat>,
    blocks: map<Root, Block>,
    blockStates: map<Root, State>,
    timeliness: map<Root, bool>,
    checkpointStates: map<Checkpoint, State>,
    latestMessages: map<nat, LatestMessage>,
    unrealizedJustifications: map<Root, Checkpoint>)

  // The clock never stands before genesis: `get_forkchoice_store` sets it at or after, and a
  // subtraction that underflows rejects the tick.
  type Store = s: StoreFields | s.genesisTime <= s.time
    witness Store(0, 0, GENESIS_CHECKPOINT, GENESIS_CHECKPOINT, GENESIS_CHECKPOINT, GENESIS_CHECKPOINT,
                  ZERO_ROOT, {}, map[], map[], map[], map[], map[], map[])

  /** The trusted origin, and the checks that depend on code outside this model. */
  datatype Network = Network(
    origin: Origin,
    genesisTime: nat,
    dataAvailable: Block -> bool,
    indexedValid: (State, AttestationData, set<nat>) -> bool)

  function AnchorRoot(n: Network): Root {
    BlockRoot(n.origin.env, n.origin.block)
  }

  function AnchorEpoch(n: Network): nat {
    EpochAt(n.origin.block.slot)
  }

  function GetForkchoiceStore(n: Network): Option<Store> {
    var o := n.origin;
    if o.block.stateRoot != o.env.hashState(o.state) then None
    else
      var anchor := Checkpoint(EpochAt(o.state.slot), AnchorRoot(n));
      Some(Store(n.genesisTime + SECONDS_PER_SLOT * o.state.slot, n.genesisTime, anchor, anchor, anchor, anchor,
                 ZERO_ROOT, {}, map[anchor.root := o.block], map[anchor.root := o.state], map[],
                 map[anchor := o.state], map[], map[anchor.root := anchor]))
  }

  // ---------- time and ancestry ----------

  function SlotAt(genesisTime: nat, time: nat): (slot: nat)
    requires genesisTime <= time
    ensures slot * SECONDS_PER_SLOT <= time - genesisTime < slot * SECONDS_PER_SLOT + SECONDS_PER_SLOT
  {
    (time - genesisTime) / SECONDS_PER_SLOT
  }

  function CurrentSlot(st: Store): nat {
    SlotAt(st.genesisTime, st.time)
  }

  function CurrentStoreEpoch(st: Store): nat {
    EpochAt(CurrentSlot(st))
  }

  /** `get_ancestor`. The test that a parent is older only makes the recursion total: every reachable
      store passes it, see `ReachableStore`. */
  function GetAncestor(blocks: map<Root, Block>, root: Root, slot: nat): (r: Option<Root>)
    ensures r.Some? ==> r.value in blocks && blocks[r.value].slot <= slot
    decreases if root in blocks then blocks[root].slot else 0
  {
    if root !in blocks then None
    else if blocks[root].slot <= slot then Some(root)
    else
      var parent := blocks[root].parentRoot;
      if parent in blocks && blocks[parent].slot < blocks[root].slot then GetAncestor(blocks, parent, slot)
      else None
  }

  function GetCheckpointBlock(blocks: map<Root, Block>, root: Root, epoch: nat): Option<Root> {
    GetAncestor(blocks, root, StartSlot(epoch))
  }

  // ---------- checkpoints ----------

  function Later(a: Checkpoint, b: Checkpoint): Checkpoint {
    if b.epoch > a.epoch then b else a
  }

  function UpdateCheckpoints(st: Store, justified: Checkpoint, finalized: Checkpoint): Store {
    st.(justified := Later(st.justified, justified), finalized := Later(st.finalized, finalized))
  }

  /** Records the pulled-up state `j` of a block, and realizes it at once for a block of a past epoch. */
  function PulledUp(st: Store, root: Root, j: State): Store
    requires root in st.blocks
  {
    var realized := EpochAt(st.blocks[root].slot) < CurrentStoreEpoch(st);
    st.(unrealizedJustifications := st.unrealizedJustifications[root := j.currentJustified],
        unrealizedJustified := Later(st.unrealizedJustified, j.currentJustified),
        unrealizedFinalized := Later(st.unrealizedFinalized, j.finalized),
        justified := if realized then Later(st.justified, j.currentJustified) else st.justified,
        finalized := if realized then Later(st.finalized, j.finalized) else st.finalized)
  }

  // ---------- on_tick ----------

  /** A new slot clears the boost; a new epoch pulls up what the tips justify. */
  function OnTickPerSlot(st: Store, time: nat): (t: Store)
    requires st.genesisTime <= time
    ensures t.genesisTime == st.genesisTime && t.time == time
  {
    var slot := SlotAt(st.genesisTime, time);
    var newSlot := slot > CurrentSlot(st);
    var newEpoch := newSlot && slot % SLOTS_PER_EPOCH == 0;
    st.(time := time,
        boostRoot := if newSlot then ZERO_ROOT else st.boostRoot,
        justified := if newEpoch then Later(st.justified, st.unrealizedJustified) else st.justified,
        finalized := if newEpoch then Later(st.finalized, st.unrealizedFinalized) else st.finalized)
  }

  function SlotTime(st: Store, slot: nat): nat {
    st.genesisTime + slot * SECONDS_PER_SLOT
  }

  lemma SlotTimeExact(st: Store, slot: nat)
    ensures SlotAt(st.genesisTime, SlotTime(st, slot)) == slot
  {
  }

  /** The catch-up loop: one per-slot tick for every slot up to `slot`. */
  function CatchUp(st: Store, slot: nat): (t: Store)
    ensures t.genesisTime == st.genesisTime
    decreases slot - CurrentSlot(st)
  {
    if CurrentSlot(st) >= slot then st
    else
      SlotTimeExact(st, CurrentSlot(st) + 1);
      CatchUp(OnTickPerSlot(st, SlotTime(st, CurrentSlot(st) + 1)), slot)
  }

  function OnTick(st: Store, time: nat): Option<Store> {
    if time < st.genesisTime then None
    else Some(OnTickPerSlot(CatchUp(st, SlotAt(st.genesisTime, time)), time))
  }

  // ---------- on_block ----------

  /** The assertions of `on_block` before the state transition. */
  predicate BlockAdmissible(n: Network, st: Store, b: Block) {
    && b.parentRoot in st.blockStates
    && CurrentSlot(st) >= b.slot
    && b.slot > StartSlot(st.finalized.epoch)
    && GetCheckpointBlock(st.blocks, b.parentRoot, st.finalized.epoch) == Some(st.finalized.root)
    && n.dataAvailable(b)
  }

  predicate IsTimely(st: Store, b: Block) {
    && CurrentSlot(st) == b.slot
    && (st.time - st.genesisTime) % SECONDS_PER_SLOT < SECONDS_PER_SLOT / INTERVALS_PER_SLOT
  }

  function AddBlock(st: Store, root: Root, b: Block, s: State): Store {
    var timely := IsTimely(st, b);
    st.(blocks := st.blocks[root := b],
        blockStates := st.blockStates[root := s],
        timeliness := st.timeliness[root := timely],
        boostRoot := if timely && st.boostRoot == ZERO_ROOT then root else st.boostRoot)
  }

  /** The store with block `b`, its post-state `s` and its pulled-up state `j`. */
  function WithBlock(st: Store, root: Root, b: Block, s: State, j: State): Store {
    PulledUp(UpdateCheckpoints(AddBlock(st, root, b, s), s.currentJustified, s.finalized), root, j)
  }

  function OnBlock(n: Network, st: Store, b: Block): Option<Store> {
    if !BlockAdmissible(n, st, b) then None
    else
      match StateTransition(n.origin.env, st.blockStates[b.parentRoot], b)
      case None => None
      case Some(s) =>
        match ProcessJustificationAndFinalization(s)
        case None => None
        case Some(j) => Some(WithBlock(st, BlockRoot(n.origin.env, b), b, s, j))
  }

  // ---------- on_attestation ----------

  predicate TargetEpochInScope(st: Store, a: Attestation) {
    var cur := CurrentStoreEpoch(st);
    a.data.target.epoch == cur || a.data.target.epoch == if cur > 0 then cur - 1 else 0
  }

  predicate AttestationAdmissible(st: Store, a: Attestation, fromBlock: bool) {
    var target, head := a.data.target, a.data.beaconBlockRoot;
    && (fromBlock || TargetEpochInScope(st, a))
    && target.epoch == EpochAt(a.data.slot)
    && target.root in st.blocks
    && head in st.blocks
    && st.blocks[head].slot <= a.data.slot
    && GetCheckpointBlock(st.blocks, head, target.epoch) == Some(target.root)
    && CurrentSlot(st) >= a.data.slot + 1
  }

  function StoreTargetCheckpointState(n: Network, st: Store, target: Checkpoint): Option<Store> {
    if target in st.checkpointStates then Some(st)
    else if target.root !in st.blockStates then None
    else
      var base := st.blockStates[target.root];
      var start := StartSlot(target.epoch);
      match if base.slot < start then ProcessSlots(n.origin.env, base, start) else Some(base)
      case None => None
      case Some(s) => Some(st.(checkpointStates := st.checkpointStates[target := s]))
  }

  /** A later vote of a validator that is not known to equivocate replaces its earlier one. */
  function UpdateLatestMessages(st: Store, attesters: set<nat>, data: AttestationData): Store {
    var message := LatestMessage(data.target.epoch, data.beaconBlockRoot);
    var updated := set i | i in attesters && i !in st.equivocating &&
      (i !in st.latestMessages || data.target.epoch > st.latestMessages[i].epoch);
    st.(latestMessages := map i | i in st.latestMessages.Keys + updated ::
      if i in updated then message else st.latestMessages[i])
  }

  function OnAttestation(n: Network, st: Store, a: Attestation, fromBlock: bool): Option<Store> {
    if !AttestationAdmissible(st, a, fromBlock) then None
    else
      match StoreTargetCheckpointState(n, st, a.data.target)
      case None => None
      case Some(st1) =>
        if a.data.target in st1.checkpointStates &&
           n.indexedValid(st1.checkpointStates[a.data.target], a.data, a.attesters) then
          Some(UpdateLatestMessages(st1, a.attesters, a.data))
        else
          None
  }

  // ---------- on_attester_slashing ----------

  function OnAttesterSlashing(n: Network, st: Store, a1: Attestation, a2: Attestation): Option<Store> {
    if !IsSlashable(a1.data, a2.data) || st.justified.root !in st.blockStates then None
    else
      var state := st.blockStates[st.justified.root];
      if n.indexedValid(state, a1.data, a1.attesters) && n.indexedValid(state, a2.data, a2.attesters) then
        Some(st.(equivocating := st.equivocating + a1.attesters * a2.attesters))
      else
        None
  }

  // ---------- runs of handler calls ----------

  datatype Event =
    | Tick(time: nat)
    | NewBlock(block: Block)
    | NewAttestation(attestation: Attestation, fromBlock: bool)
    | NewSlashing(first: Attestation, second: Attestation)

  function Handle(n: Network, st: Store, e: Event): Option<Store> {
    match e
    case Tick(time) => OnTick(st, time)
    case NewBlock(b) => OnBlock(n, st, b)
    case NewAttestation(a, fromBlock) => OnAttestation(n, st, a, fromBlock)
    case NewSlashing(a1, a2) => OnAttesterSlashing(n, st, a1, a2)
  }

  /** The store after a run of calls; a rejected call leaves it as it was. */
  function HandleAll(n: Network, st: Store, events: seq<Event>): Store {
    if events == [] then st
    else
      var before := HandleAll(n, st, events[..|events| - 1]);
      match Handle(n, before, events[|events| - 1])
      case None => before
      case Some(after) => after
  }
}
