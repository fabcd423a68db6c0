/** Each handler in terms of the clock, the chains and the votes: when a call is accepted, and everything it changes. */
module StoreEffects {
  import opened Primitives
  import opened BeaconChain
  import opened Chains
  import opened ForkChoice
  import opened StoreRuns
  import opened Ticks
  import opened VoteAccounting

  // ---------- the later of several checkpoints ----------

  /** `c` is the first of the latest among `cs`. */
  ghost predicate FirstLatest(c: Checkpoint, cs: seq<Checkpoint>) {
    exists k :: FirstLatestAt(c, cs, k)
  }

  ghost predicate FirstLatestAt(c: Checkpoint, cs: seq<Checkpoint>, k: nat) {
    && k < |cs| && c == cs[k]
    && (forall i :: 0 <= i < k ==> cs[i].epoch < c.epoch)
    && (forall i :: k < i < |cs| ==> cs[i].epoch <= c.epoch)
  }

  lemma OnlyLatest(c: Checkpoint)
    ensures FirstLatest(c, [c])
  {
    assert FirstLatestAt(c, [c], 0);
  }

  lemma LatestExtends(c: Checkpoint, cs: seq<Checkpoint>, d: Checkpoint)
    requires FirstLatest(c, cs)
    ensures FirstLatest(Later(c, d), cs + [d])
  {
    var k :| FirstLatestAt(c, cs, k);
    if d.epoch > c.epoch {
      assert forall i :: 0 <= i < |cs| ==> cs[i].epoch <= c.epoch;
      assert FirstLatestAt(d, cs + [d], |cs|);
    } else {
      assert FirstLatestAt(c, cs + [d], k);
    }
  }

  lemma LatestOfTwo(a: Checkpoint, b: Checkpoint)
    ensures FirstLatest(Later(a, b), [a, b])
  {
    OnlyLatest(a);
    LatestExtends(a, [a], b);
    assert [a] + [b] == [a, b];
  }

  lemma LatestOfThree(a: Checkpoint, b: Checkpoint, c: Checkpoint)
    ensures FirstLatest(Later(Later(a, b), c), [a, b, c])
  {
    LatestOfTwo(a, b);
    LatestExtends(Later(a, b), [a, b], c);
    assert [a, b] + [c] == [a, b, c];
  }

  // ---------- on_tick ----------

  /** A tick is accepted exactly from genesis on. It clears the boost exactly if it reaches a later slot, raises the
      checkpoints to the unrealized ones exactly if it reaches a later epoch, and changes nothing else. */
  lemma TickEffects(st: Store, time: nat)
    ensures OnTick(st, time).Some? <==> st.genesisTime <= time
    ensures st.genesisTime <= time ==>
      var t := OnTick(st, time).value;
      var before, now := (st.time - st.genesisTime) / 12, (time - st.genesisTime) / 12;
      && t == st.(time := time, boostRoot := t.boostRoot, justified := t.justified, finalized := t.finalized)
      && t.boostRoot == (if now > before then ZERO_ROOT else st.boostRoot)
      && FirstLatest(t.justified, [st.justified] + if now / 32 > before / 32 then [st.unrealizedJustified] else [])
      && FirstLatest(t.finalized, [st.finalized] + if now / 32 > before / 32 then [st.unrealizedFinalized] else [])
  {
    if st.genesisTime <= time {
      TickIsMove(st, time);
      OnlyLatest(st.justified);
      OnlyLatest(st.finalized);
      LatestExtends(st.justified, [st.justified], st.unrealizedJustified);
      LatestExtends(st.finalized, [st.finalized], st.unrealizedFinalized);
      assert [st.justified] + [] == [st.justified] && [st.finalized] + [] == [st.finalized];
    }
  }

  // ---------- on_block ----------

  /** The clock has left the epoch of slot `slot`. */
  predicate EpochOver(st: Store, slot: nat) {
    (slot / 32 + 1) * 32 * 12 <= st.time - st.genesisTime
  }

  /** The clock stands in the first four seconds of slot `slot`. */
  predicate InTime(st: Store, slot: nat) {
    slot * 12 <= st.time - st.genesisTime < slot * 12 + 4
  }

  lemma EpochOverExactly(st: Store, slot: nat)
    ensures EpochOver(st, slot) <==> EpochAt(slot) < CurrentStoreEpoch(st)
  {
  }

  lemma InTimeExactly(st: Store, b: Block)
    ensures InTime(st, b.slot) <==> IsTimely(st, b)
  {
    var elapsed := st.time - st.genesisTime;
    assert elapsed == elapsed / 12 * 12 + elapsed % 12;
  }

  /** A block is accepted exactly if its parent is stored, its slot has begun and is past the finalized epoch's start,
      the parent's chain has the finalized root at that start, its data is available, and the transition and the
      weighing of its post-state succeed. */
  lemma BlockAcceptedExactly(n: Network, st: Store, b: Block)
    requires ValidNetwork(n) && StoreInvariant(n, st)
    ensures OnBlock(n, st, b).Some? <==>
      && b.parentRoot in st.blocks
      && b.slot * 12 <= st.time - st.genesisTime
      && 32 * st.finalized.epoch < b.slot
      && AncestorAt(n.origin.env, ChainOf(n, st.blocks, b.parentRoot), 32 * st.finalized.epoch) == st.finalized.root
      && n.dataAvailable(b)
      && StateTransition(n.origin.env, st.blockStates[b.parentRoot], b).Some?
      && ProcessJustificationAndFinalization(StateTransition(n.origin.env, st.blockStates[b.parentRoot], b).value).Some?
  {
    AdmissibleExactly(n, st, b);
  }

  lemma AdmissibleExactly(n: Network, st: Store, b: Block)
    requires Tree(n, st.blocks) && st.blockStates.Keys == st.blocks.Keys && Known(n, st.blocks, st.finalized)
    ensures BlockAdmissible(n, st, b) <==>
      && b.parentRoot in st.blocks
      && b.slot * 12 <= st.time - st.genesisTime
      && 32 * st.finalized.epoch < b.slot
      && AncestorAt(n.origin.env, ChainOf(n, st.blocks, b.parentRoot), 32 * st.finalized.epoch) == st.finalized.root
      && n.dataAvailable(b)
  {
    if b.parentRoot in st.blocks {
      AncestorOnChain(n, st.blocks, b.parentRoot, StartSlot(st.finalized.epoch));
    }
  }

  /** What a block with post-state `s` and pulled-up state `j` does to the checkpoints: the realized ones rise to those
      of the post-state, and to the pulled-up ones exactly if the clock has left the block's epoch; the unrealized
      ones rise to the pulled-up ones. */
  ghost predicate Raised(st: Store, b: Block, s: State, j: State, t: Store) {
    var over := EpochOver(st, b.slot);
    && FirstLatest(t.justified, [st.justified, s.currentJustified] + if over then [j.currentJustified] else [])
    && FirstLatest(t.finalized, [st.finalized, s.finalized] + if over then [j.finalized] else [])
    && FirstLatest(t.unrealizedJustified, [st.unrealizedJustified, j.currentJustified])
    && FirstLatest(t.unrealizedFinalized, [st.unrealizedFinalized, j.finalized])
  }

  /** The store with one more block: its state and pulled-up checkpoint are recorded, the checkpoints rise, a block in
      time takes the boost if nobody has it, and nothing else changes. */
  ghost predicate BlockRecorded(st: Store, root: Root, b: Block, s: State, j: State, t: Store) {
    && Raised(st, b, s, j, t)
    && t.blocks == st.blocks[root := b] && t.blockStates == st.blockStates[root := s]
    && t.unrealizedJustifications == st.unrealizedJustifications[root := j.currentJustified]
    && t.timeliness == st.timeliness[root := InTime(st, b.slot)]
    && t.boostRoot == (if InTime(st, b.slot) && st.boostRoot == ZERO_ROOT then root else st.boostRoot)
    && t.time == st.time && t.genesisTime == st.genesisTime && t.equivocating == st.equivocating
    && t.checkpointStates == st.checkpointStates && t.latestMessages == st.latestMessages
  }

  lemma RaisedByBlock(st: Store, root: Root, b: Block, s: State, j: State)
    ensures Raised(st, b, s, j, WithBlock(st, root, b, s, j))
  {
    EpochOverExactly(st, b.slot);
    LatestOfTwo(st.justified, s.currentJustified);
    LatestOfTwo(st.finalized, s.finalized);
    LatestOfThree(st.justified, s.currentJustified, j.currentJustified);
    LatestOfThree(st.finalized, s.finalized, j.finalized);
    LatestOfTwo(st.unrealizedJustified, j.currentJustified);
    LatestOfTwo(st.unrealizedFinalized, j.finalized);
    AppendNothing(st.justified, s.currentJustified, j.currentJustified);
    AppendNothing(st.finalized, s.finalized, j.finalized);
  }

  lemma AppendNothing(a: Checkpoint, b: Checkpoint, c: Checkpoint)
    ensures [a, b] + [] == [a, b] && [a, b] + [c] == [a, b, c]
  {
  }

  lemma WithBlockEffects(st: Store, root: Root, b: Block, s: State, j: State)
    ensures BlockRecorded(st, root, b, s, j, WithBlock(st, root, b, s, j))
  {
    RaisedByBlock(st, root, b, s, j);
    InTimeExactly(st, b);
  }

  /** Everything that an accepted block changes. */
  lemma BlockEffects(n: Network, st: Store, b: Block, t: Store) returns (s: State, j: State)
    requires OnBlock(n, st, b) == Some(t)
    ensures b.parentRoot in st.blockStates && StateTransition(n.origin.env, st.blockStates[b.parentRoot], b) == Some(s)
    ensures ProcessJustificationAndFinalization(s) == Some(j)
    ensures BlockRecorded(st, BlockRoot(n.origin.env, b), b, s, j, t)
  {
    s := StateTransition(n.origin.env, st.blockStates[b.parentRoot], b).value;
    j := ProcessJustificationAndFinalization(s).value;
    WithBlockEffects(st, BlockRoot(n.origin.env, b), b, s, j);
  }

  // ---------- on_attestation ----------

  /** What is asked of a vote before its signatures: outside blocks a target of the clock's epoch or the last, in the
      vote's own epoch; a stored head no later than the vote, whose chain has the target at the epoch's start; and a
      slot that is over. */
  ghost predicate VoteAdmissible(n: Network, st: Store, a: Attestation, fromBlock: bool)
    requires Tree(n, st.blocks)
  {
    var d, now := a.data, (st.time - st.genesisTime) / 12 / 32;
    && (fromBlock || d.target.epoch == now || d.target.epoch + 1 == now)
    && d.target.epoch == d.slot / 32
    && d.beaconBlockRoot in st.blocks && st.blocks[d.beaconBlockRoot].slot <= d.slot
    && AnchorEpoch(n) <= d.target.epoch
    && AncestorAt(n.origin.env, ChainOf(n, st.blocks, d.beaconBlockRoot), 32 * d.target.epoch) == d.target.root
    && (d.slot + 1) * 12 <= st.time - st.genesisTime
  }

  lemma VoteAdmissibleExactly(n: Network, st: Store, a: Attestation, fromBlock: bool)
    requires ValidOrigin(n.origin) && Tree(n, st.blocks)
    ensures AttestationAdmissible(st, a, fromBlock) <==> VoteAdmissible(n, st, a, fromBlock)
  {
    var d := a.data;
    var start := StartSlot(d.target.epoch);
    if d.beaconBlockRoot in st.blocks {
      if AnchorEpoch(n) <= d.target.epoch {
        AncestorOnChain(n, st.blocks, d.beaconBlockRoot, start);
      } else {
        NoAncestorBelowAnchor(n, st.blocks, d.beaconBlockRoot, start);
      }
    }
  }

  /** The state that the vote is checked against: the one stored for its target, or the target block's, advanced. */
  function TargetState(n: Network, st: Store, target: Checkpoint): Option<State> {
    if target in st.checkpointStates then Some(st.checkpointStates[target])
    else if target.root in st.blockStates then AdvanceTo(n.origin.env, st.blockStates[target.root], 32 * target.epoch)
    else None
  }

  lemma TargetStateExactly(n: Network, st: Store, target: Checkpoint)
    ensures StoreTargetCheckpointState(n, st, target) ==
      match TargetState(n, st, target)
      case None => None
      case Some(s) => Some(st.(checkpointStates := st.checkpointStates[target := s]))
  {
    if target in st.checkpointStates {
      assert st.checkpointStates[target := st.checkpointStates[target]] == st.checkpointStates;
    }
  }

  /** A vote is accepted exactly if it is admissible and valid for the state of its target. */
  lemma VoteAcceptedExactly(n: Network, st: Store, a: Attestation, fromBlock: bool)
    requires ValidOrigin(n.origin) && Tree(n, st.blocks)
    ensures OnAttestation(n, st, a, fromBlock).Some? <==>
      && VoteAdmissible(n, st, a, fromBlock)
      && TargetState(n, st, a.data.target).Some?
      && n.indexedValid(TargetState(n, st, a.data.target).value, a.data, a.attesters)
  {
    VoteAdmissibleExactly(n, st, a, fromBlock);
    TargetStateExactly(n, st, a.data.target);
  }

  /** Does the vote count as the new latest message of `i`? */
  predicate Replaces(st: Store, a: Attestation, i: nat) {
    && i in a.attesters && i !in st.equivocating
    && (i !in st.latestMessages || st.latestMessages[i].epoch < a.data.target.epoch)
  }

  /** Everything that an accepted vote changes: exactly the attesters not known to equivocate who had no vote, or an
      older one, get this one; the state of the target is stored. */
  lemma VoteEffects(n: Network, st: Store, a: Attestation, fromBlock: bool, t: Store, i: nat)
    requires OnAttestation(n, st, a, fromBlock) == Some(t)
    ensures i in t.latestMessages <==> i in st.latestMessages || (i in a.attesters && i !in st.equivocating)
    ensures i in t.latestMessages ==>
      t.latestMessages[i] ==
        if Replaces(st, a, i) then LatestMessage(a.data.target.epoch, a.data.beaconBlockRoot) else st.latestMessages[i]
    ensures TargetState(n, st, a.data.target).Some?
    ensures t == st.(latestMessages := t.latestMessages,
                     checkpointStates := st.checkpointStates[a.data.target := TargetState(n, st, a.data.target).value])
  {
    TargetStateExactly(n, st, a.data.target);
  }

  // ---------- on_attester_slashing ----------

  /** Two votes are accepted as proof exactly if the first is slashable against the second, in this order, and both are
      valid for the state of the justified block; then exactly those in both of them are known to equivocate. */
  lemma SlashingExactly(n: Network, st: Store, a1: Attestation, a2: Attestation, i: nat)
    requires st.justified.root in st.blockStates
    ensures OnAttesterSlashing(n, st, a1, a2).Some? <==>
      && ((a1.data != a2.data && a1.data.target.epoch == a2.data.target.epoch) || Spans(a1.data, a2.data))
      && n.indexedValid(st.blockStates[st.justified.root], a1.data, a1.attesters)
      && n.indexedValid(st.blockStates[st.justified.root], a2.data, a2.attesters)
    ensures OnAttesterSlashing(n, st, a1, a2).Some? ==>
      var t := OnAttesterSlashing(n, st, a1, a2).value;
      && (i in t.equivocating <==> i in st.equivocating || (i in a1.attesters && i in a2.attesters))
      && t == st.(equivocating := t.equivocating)
  {
  }
}
