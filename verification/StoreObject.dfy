/** The store as the handlers mutate it, proved against `ForkChoice`. A rejected call leaves it unchanged. */
module StoreObject {
  import opened Primitives
  import opened BeaconChain
  import opened ForkChoice

  class StoreCell {
    const network: Network
    var time: nat
    const genesisTime: nat
    var justified: Checkpoint
    var finalized: Checkpoint
    var unrealizedJustified: Checkpoint
    var unrealizedFinalized: Checkpoint
    var boostRoot: Root
    var equivocating: set<nat>
    var blocks: map<Root, Block>
    var blockStates: map<Root, State>
    var timeliness: map<Root, bool>
    var checkpointStates: map<Checkpoint, State>
    var latestMessages: map<nat, LatestMessage>
    var unrealizedJustifications: map<Root, Checkpoint>

    ghost predicate Valid()
      reads this
    {
      genesisTime <= time
    }

    function Value(): Store
      requires Valid()
      reads this
    {
      Store(time, genesisTime, justified, finalized, unrealizedJustified, unrealizedFinalized, boostRoot, equivocating,
            blocks, blockStates, timeliness, checkpointStates, latestMessages, unrealizedJustifications)
    }

    constructor (n: Network, st: Store)
      ensures Valid() && network == n && Value() == st
    {
      network, time, genesisTime := n, st.time, st.genesisTime;
      justified, finalized := st.justified, st.finalized;
      unrealizedJustified, unrealizedFinalized := st.unrealizedJustified, st.unrealizedFinalized;
      boostRoot, equivocating := st.boostRoot, st.equivocating;
      blocks, blockStates, timeliness := st.blocks, st.blockStates, st.timeliness;
      checkpointStates, latestMessages := st.checkpointStates, st.latestMessages;
      unrealizedJustifications := st.unrealizedJustifications;
    }

    method RaiseCheckpoints(j: Checkpoint, f: Checkpoint)
      requires Valid()
      modifies this`justified, this`finalized
      ensures Value() == UpdateCheckpoints(old(Value()), j, f)
    {
      if j.epoch > justified.epoch {
        justified := j;
      }
      if f.epoch > finalized.epoch {
        finalized := f;
      }
    }

    // ---------- on_tick ----------

    method TickPerSlot(now: nat)
      requires Valid() && genesisTime <= now
      modifies this
      ensures Valid() && Value() == OnTickPerSlot(old(Value()), now)
    {
      var previousSlot := SlotAt(genesisTime, time);
      time := now;
      var currentSlot := SlotAt(genesisTime, time);
      if currentSlot > previousSlot {
        boostRoot := ZERO_ROOT;
      }
      if currentSlot > previousSlot && currentSlot % SLOTS_PER_EPOCH == 0 {
        RaiseCheckpoints(unrealizedJustified, unrealizedFinalized);
      }
    }

    /** `on_tick`: the loop catches up slot by slot and terminates. */
    method TickTo(now: nat) returns (ok: bool)
      requires Valid()
      modifies this
      ensures Valid()
      ensures ok <==> OnTick(old(Value()), now).Some?
      ensures ok ==> Value() == OnTick(old(Value()), now).value
      ensures !ok ==> Value() == old(Value())
    {
      if now < genesisTime { return false; }
      var tickSlot := SlotAt(genesisTime, now);
      while SlotAt(genesisTime, time) < tickSlot
        invariant Valid()
        invariant CatchUp(Value(), tickSlot) == CatchUp(old(Value()), tickSlot)
        decreases tickSlot - SlotAt(genesisTime, time)
      {
        var next := SlotAt(genesisTime, time) + 1;
        SlotTimeExact(Value(), next);
        TickPerSlot(genesisTime + next * SECONDS_PER_SLOT);
      }
      TickPerSlot(now);
      ok := true;
    }
  
    // ---------- on_block ----------

    /** The writes of `on_block` up to the update of the checkpoints. */
    method InsertBlock(root: Root, b: Block, s: State)
      requires Valid()
      modifies this
      ensures Valid() && Value() == AddBlock(old(Value()), root, b, s)
    {
      blocks := blocks[root := b];
      blockStates := blockStates[root := s];
      var timeIntoSlot := (time - genesisTime) % SECONDS_PER_SLOT;
      var isTimely := SlotAt(genesisTime, time) == b.slot && timeIntoSlot < SECONDS_PER_SLOT / INTERVALS_PER_SLOT;
      timeliness := timeliness[root := isTimely];
      if isTimely && boostRoot == ZERO_ROOT {
        boostRoot := root;
      }
    }

    /** The writes of `compute_pulled_up_tip`, for the pulled-up state `j` of a stored block. */
    method RecordPulledUp(root: Root, j: State)
      requires Valid() && root in blocks
      modifies this
      ensures Valid() && Value() == PulledUp(old(Value()), root, j)
    {
      unrealizedJustifications := unrealizedJustifications[root := j.currentJustified];
      if j.currentJustified.epoch > unrealizedJustified.epoch {
        unrealizedJustified := j.currentJustified;
      }
      if j.finalized.epoch > unrealizedFinalized.epoch {
        unrealizedFinalized := j.finalized;
      }
      if EpochAt(blocks[root].slot) < EpochAt(SlotAt(genesisTime, time)) {
        RaiseCheckpoints(j.currentJustified, j.finalized);
      }
    }

    /** `on_block`. The weighing that can still fail comes before the first write. */
    method AcceptBlock(b: Block) returns (ok: bool)
      requires Valid()
      modifies this
      ensures Valid()
      ensures ok <==> OnBlock(network, old(Value()), b).Some?
      ensures ok ==> Value() == OnBlock(network, old(Value()), b).value
      ensures !ok ==> Value() == old(Value())
    {
      if !BlockAdmissible(network, Value(), b) { return false; }
      var post := StateTransition(network.origin.env, blockStates[b.parentRoot], b);
      if post.None? { return false; }
      var pulled := ProcessJustificationAndFinalization(post.value);
      if pulled.None? { return false; }
      var root := BlockRoot(network.origin.env, b);
      InsertBlock(root, b, post.value);
      RaiseCheckpoints(post.value.currentJustified, post.value.finalized);
      RecordPulledUp(root, pulled.value);
      ok := true;
    }

    // ---------- on_attestation ----------

    /** The loop of `update_latest_messages`, one attester at a time. */
    method RecordVotes(attesters: set<nat>, data: AttestationData)
      requires Valid()
      modifies this`latestMessages
      ensures Value() == UpdateLatestMessages(old(Value()), attesters, data)
    {
      ghost var goal := UpdateLatestMessages(Value(), attesters, data).latestMessages;
      ghost var before := latestMessages;
      var left := attesters - equivocating;
      ghost var seen: set<nat> := {};
      while left != {}
        invariant left !! seen && left + seen == attesters - equivocating
        invariant latestMessages.Keys == before.Keys + seen
        invariant forall i :: i in before && i !in seen ==> latestMessages[i] == before[i]
        invariant forall i :: i in seen ==> latestMessages[i] == goal[i]
        decreases left
      {
        var i :| i in left;
        if i !in latestMessages || data.target.epoch > latestMessages[i].epoch {
          latestMessages := latestMessages[i := LatestMessage(data.target.epoch, data.beaconBlockRoot)];
        }
        left, seen := left - {i}, seen + {i};
      }
      assert latestMessages == goal;
    }

    /** `on_attestation`. */
    method AcceptAttestation(a: Attestation, fromBlock: bool) returns (ok: bool)
      requires Valid()
      modifies this
      ensures Valid()
      ensures ok <==> OnAttestation(network, old(Value()), a, fromBlock).Some?
      ensures ok ==> Value() == OnAttestation(network, old(Value()), a, fromBlock).value
      ensures !ok ==> Value() == old(Value())
    {
      if !AttestationAdmissible(Value(), a, fromBlock) { return false; }
      var stored := StoreTargetCheckpointState(network, Value(), a.data.target);
      if stored.None? || a.data.target !in stored.value.checkpointStates { return false; }
      if !network.indexedValid(stored.value.checkpointStates[a.data.target], a.data, a.attesters) { return false; }
      checkpointStates := stored.value.checkpointStates;
      assert Value() == stored.value;
      RecordVotes(a.attesters, a.data);
      ok := true;
    }

    // ---------- on_attester_slashing ----------

    method AcceptSlashing(a1: Attestation, a2: Attestation) returns (ok: bool)
      requires Valid()
      modifies this`equivocating
      ensures ok <==> OnAttesterSlashing(network, old(Value()), a1, a2).Some?
      ensures ok ==> Value() == OnAttesterSlashing(network, old(Value()), a1, a2).value
      ensures !ok ==> Value() == old(Value())
    {
      if !IsSlashable(a1.data, a2.data) || justified.root !in blockStates { return false; }
      var state := blockStates[justified.root];
      if !network.indexedValid(state, a1.data, a1.attesters) || !network.indexedValid(state, a2.data, a2.attesters) {
        return false;
      }
      var left := a1.attesters * a2.attesters;
      while left != {}
        invariant left <= a1.attesters * a2.attesters
        invariant equivocating == old(equivocating) + (a1.attesters * a2.attesters - left)
        decreases left
      {
        var i :| i in left;
        equivocating := equivocating + {i};
        left := left - {i};
      }
      ok := true;
    }
  }
}
