/** What a store holds after a whole run, in terms of the calls that were accepted: whose votes count, who is known to
    equivocate, and how far the checkpoints of the stored blocks have been realized. */
module StoreHistory {
  import opened Primitives
  import opened BeaconChain
  import opened Chains
  import opened ForkChoice
  import opened StoreRuns
  import opened StoreEffects
  import opened Weight
  import opened Head

  // ---------- votes ----------

  /** The votes of validator `i` that were accepted while it was not known to equivocate, oldest first. */
  ghost function VotesOf(n: Network, st: Store, events: seq<Event>, i: nat): seq<LatestMessage> {
    if events == [] then []
    else
      var init, e := events[..|events| - 1], events[|events| - 1];
      var votes, before := VotesOf(n, st, init, i), HandleAll(n, st, init);
      if && e.NewAttestation? && OnAttestation(n, before, e.attestation, e.fromBlock).Some?
         && i in e.attestation.attesters && i !in before.equivocating
      then votes + [LatestMessage(e.attestation.data.target.epoch, e.attestation.data.beaconBlockRoot)]
      else votes
  }

  /** `m` is the vote of the highest epoch among `votes`, the first of equals. */
  ghost predicate FirstHighest(m: LatestMessage, votes: seq<LatestMessage>) {
    exists k :: FirstHighestAt(m, votes, k)
  }

  ghost predicate FirstHighestAt(m: LatestMessage, votes: seq<LatestMessage>, k: nat) {
    && k < |votes| && m == votes[k]
    && (forall j :: 0 <= j < k ==> votes[j].epoch < m.epoch)
    && (forall j :: k < j < |votes| ==> votes[j].epoch <= m.epoch)
  }

  /** The latest message of `i` is the highest of `votes`, and there is one exactly if there are votes. */
  ghost predicate Latest(messages: map<nat, LatestMessage>, i: nat, votes: seq<LatestMessage>) {
    && (i in messages <==> votes != [])
    && (i in messages ==> FirstHighest(messages[i], votes))
  }

  lemma HighestExtends(m: LatestMessage, votes: seq<LatestMessage>, v: LatestMessage)
    requires FirstHighest(m, votes)
    ensures FirstHighest(if m.epoch < v.epoch then v else m, votes + [v])
  {
    var k :| FirstHighestAt(m, votes, k);
    if m.epoch < v.epoch {
      assert forall j :: 0 <= j < |votes| ==> votes[j].epoch <= m.epoch;
      assert FirstHighestAt(v, votes + [v], |votes|);
    } else {
      assert FirstHighestAt(m, votes + [v], k);
    }
  }

  lemma MessageExtends(before: map<nat, LatestMessage>, after: map<nat, LatestMessage>, i: nat, votes: seq<LatestMessage>, v: LatestMessage)
    requires Latest(before, i, votes) && i in after
    requires after[i] == if i !in before || before[i].epoch < v.epoch then v else before[i]
    ensures Latest(after, i, votes + [v])
  {
    if i in before {
      HighestExtends(before[i], votes, v);
    } else {
      assert votes + [v] == [v];
      assert FirstHighestAt(v, [v], 0);
    }
  }

  /** No other handler touches the votes. */
  lemma OnlyVotesCount(n: Network, st: Store, e: Event)
    requires !e.NewAttestation? && Handle(n, st, e).Some?
    ensures Handle(n, st, e).value.latestMessages == st.latestMessages
  {
    match e
    case Tick(time) => TickEffects(st, time);
    case NewBlock(b) => var s, j := BlockEffects(n, st, b, OnBlock(n, st, b).value);
    case NewSlashing(a1, a2) =>
  }

  lemma VoteKeepsLatest(n: Network, st: Store, a: Attestation, fromBlock: bool, t: Store, i: nat, votes: seq<LatestMessage>)
    requires Latest(st.latestMessages, i, votes) && OnAttestation(n, st, a, fromBlock) == Some(t)
    ensures var v := LatestMessage(a.data.target.epoch, a.data.beaconBlockRoot);
      Latest(t.latestMessages, i, if i in a.attesters && i !in st.equivocating then votes + [v] else votes)
  {
    VoteEffects(n, st, a, fromBlock, t, i);
    if i in a.attesters && i !in st.equivocating {
      MessageExtends(st.latestMessages, t.latestMessages, i, votes, LatestMessage(a.data.target.epoch, a.data.beaconBlockRoot));
    }
  }

  /** Over every run: the latest message of a validator is its accepted vote of the highest target epoch, the first of
      equals, among those accepted before it was known to equivocate. */
  lemma {:induction false} LatestIsHighest(n: Network, events: seq<Event>, i: nat)
    requires GetForkchoiceStore(n).Some?
    ensures var st := GetForkchoiceStore(n).value;
      Latest(HandleAll(n, st, events).latestMessages, i, VotesOf(n, st, events, i))
  {
    if events != [] {
      var st := GetForkchoiceStore(n).value;
      var init, e := events[..|events| - 1], events[|events| - 1];
      var before := HandleAll(n, st, init);
      LatestIsHighest(n, init, i);
      if Handle(n, before, e).Some? {
        if e.NewAttestation? {
          VoteKeepsLatest(n, before, e.attestation, e.fromBlock, Handle(n, before, e).value, i, VotesOf(n, st, init, i));
        } else {
          OnlyVotesCount(n, before, e);
        }
      }
    }
  }

  // ---------- equivocators ----------

  /** Some accepted slashing of the run has `i` in both of its votes. */
  ghost predicate Caught(n: Network, st: Store, events: seq<Event>, i: nat) {
    events != [] &&
    var init, e := events[..|events| - 1], events[|events| - 1];
    || Caught(n, st, init, i)
    || (&& e.NewSlashing? && OnAttesterSlashing(n, HandleAll(n, st, init), e.first, e.second).Some?
        && i in e.first.attesters && i in e.second.attesters)
  }

  lemma OnlySlashingsCatch(n: Network, st: Store, e: Event)
    requires !e.NewSlashing? && Handle(n, st, e).Some?
    ensures Handle(n, st, e).value.equivocating == st.equivocating
  {
    match e
    case Tick(time) => TickEffects(st, time);
    case NewBlock(b) => var s, j := BlockEffects(n, st, b, OnBlock(n, st, b).value);
    case NewAttestation(a, fromBlock) => VoteEffects(n, st, a, fromBlock, Handle(n, st, e).value, 0);
  }

  /** Over every run: known to equivocate are exactly those that an accepted slashing shows in both of its votes. */
  lemma {:induction false} EquivocatorsExactly(n: Network, events: seq<Event>, i: nat)
    requires GetForkchoiceStore(n).Some?
    ensures var st := GetForkchoiceStore(n).value;
      i in HandleAll(n, st, events).equivocating <==> Caught(n, st, events, i)
  {
    if events != [] {
      var st := GetForkchoiceStore(n).value;
      var init, e := events[..|events| - 1], events[|events| - 1];
      var before := HandleAll(n, st, init);
      EquivocatorsExactly(n, init, i);
      if Handle(n, before, e).Some? && !e.NewSlashing? {
        OnlySlashingsCatch(n, before, e);
      }
    }
  }

  // ---------- realized checkpoints ----------

  /** A stored block with post-state `s`: what `s` justifies and finalizes is realized, what its pulled-up state `j`
      does is recorded, and realized as well once the clock has left the block's epoch. */
  ghost predicate Settled(st: Store, b: Block, s: State, j: State) {
    && s.currentJustified.epoch <= st.justified.epoch && s.finalized.epoch <= st.finalized.epoch
    && j.currentJustified.epoch <= st.unrealizedJustified.epoch && j.finalized.epoch <= st.unrealizedFinalized.epoch
    && (EpochOver(st, b.slot) ==>
          j.currentJustified.epoch <= st.justified.epoch && j.finalized.epoch <= st.finalized.epoch)
  }

  ghost predicate BlockSettled(st: Store, r: Root)
    requires r in st.blocks
  {
    && r in st.blockStates && r in st.unrealizedJustifications
    && ProcessJustificationAndFinalization(st.blockStates[r]).Some?
    && st.unrealizedJustifications[r] == ProcessJustificationAndFinalization(st.blockStates[r]).value.currentJustified
    && Settled(st, st.blocks[r], st.blockStates[r], ProcessJustificationAndFinalization(st.blockStates[r]).value)
  }

  ghost predicate AllSettled(n: Network, st: Store) {
    forall r :: r in st.blocks && r != AnchorRoot(n) ==> BlockSettled(st, r)
  }

  /** The checkpoints never fall, and a clock that goes on to a new epoch raises them to the unrealized ones. */
  ghost predicate Rises(st: Store, t: Store) {
    && st.justified.epoch <= t.justified.epoch && st.finalized.epoch <= t.finalized.epoch
    && st.unrealizedJustified.epoch <= t.unrealizedJustified.epoch && st.unrealizedFinalized.epoch <= t.unrealizedFinalized.epoch
    && (forall slot: nat :: EpochOver(t, slot) && !EpochOver(st, slot) ==>
          st.unrealizedJustified.epoch <= t.justified.epoch && st.unrealizedFinalized.epoch <= t.finalized.epoch)
  }

  lemma SettledRises(st: Store, t: Store, b: Block, s: State, j: State)
    requires Settled(st, b, s, j) && Rises(st, t)
    ensures Settled(t, b, s, j)
  {
  }

  lemma BlockSettledRises(st: Store, t: Store, r: Root)
    requires r in st.blocks && BlockSettled(st, r) && Rises(st, t)
    requires r in t.blocks && r in t.blockStates && r in t.unrealizedJustifications
    requires t.blocks[r] == st.blocks[r] && t.blockStates[r] == st.blockStates[r]
    requires t.unrealizedJustifications[r] == st.unrealizedJustifications[r]
    ensures BlockSettled(t, r)
  {
    SettledRises(st, t, st.blocks[r], st.blockStates[r], ProcessJustificationAndFinalization(st.blockStates[r]).value);
  }

  lemma SameBlocksSettled(n: Network, st: Store, t: Store)
    requires AllSettled(n, st) && Rises(st, t)
    requires t.blocks == st.blocks && t.blockStates == st.blockStates && t.unrealizedJustifications == st.unrealizedJustifications
    ensures AllSettled(n, t)
  {
    forall r | r in t.blocks && r != AnchorRoot(n) ensures BlockSettled(t, r) {
      BlockSettledRises(st, t, r);
    }
  }

  lemma LatestBounds(c: Checkpoint, cs: seq<Checkpoint>)
    requires FirstLatest(c, cs)
    ensures forall i :: 0 <= i < |cs| ==> cs[i].epoch <= c.epoch
  {
    var k :| FirstLatestAt(c, cs, k);
  }

  lemma LatestBoundsTwo(c: Checkpoint, a: Checkpoint, more: seq<Checkpoint>)
    requires FirstLatest(c, [a] + more)
    ensures a.epoch <= c.epoch
    ensures more != [] ==> more[0].epoch <= c.epoch
  {
    LatestBounds(c, [a] + more);
    assert ([a] + more)[0] == a;
    if more != [] { assert ([a] + more)[1] == more[0]; }
  }

  lemma LatestBoundsThree(c: Checkpoint, a: Checkpoint, b: Checkpoint, more: seq<Checkpoint>)
    requires FirstLatest(c, [a, b] + more)
    ensures a.epoch <= c.epoch && b.epoch <= c.epoch
    ensures more != [] ==> more[0].epoch <= c.epoch
  {
    LatestBounds(c, [a, b] + more);
    assert ([a, b] + more)[0] == a && ([a, b] + more)[1] == b;
    if more != [] { assert ([a, b] + more)[2] == more[0]; }
  }

  lemma TickRises(st: Store, time: nat, t: Store)
    requires OnTick(st, time) == Some(t)
    ensures Rises(st, t)
  {
    TickEffects(st, time);
    var before, now := (st.time - st.genesisTime) / 12, (time - st.genesisTime) / 12;
    LatestBoundsTwo(t.justified, st.justified, if now / 32 > before / 32 then [st.unrealizedJustified] else []);
    LatestBoundsTwo(t.finalized, st.finalized, if now / 32 > before / 32 then [st.unrealizedFinalized] else []);
    forall slot: nat | EpochOver(t, slot) && !EpochOver(st, slot) ensures now / 32 > before / 32 {
      EpochOverExactly(st, slot);
      EpochOverExactly(t, slot);
    }
  }

  lemma RaisedRises(st: Store, b: Block, s: State, j: State, t: Store)
    requires Raised(st, b, s, j, t) && t.time == st.time && t.genesisTime == st.genesisTime
    ensures Rises(st, t) && Settled(t, b, s, j)
  {
    var over := EpochOver(st, b.slot);
    assert [st.unrealizedJustified] + [j.currentJustified] == [st.unrealizedJustified, j.currentJustified];
    assert [st.unrealizedFinalized] + [j.finalized] == [st.unrealizedFinalized, j.finalized];
    LatestBoundsThree(t.justified, st.justified, s.currentJustified, if over then [j.currentJustified] else []);
    LatestBoundsThree(t.finalized, st.finalized, s.finalized, if over then [j.finalized] else []);
    LatestBoundsTwo(t.unrealizedJustified, st.unrealizedJustified, [j.currentJustified]);
    LatestBoundsTwo(t.unrealizedFinalized, st.unrealizedFinalized, [j.finalized]);
  }

  lemma BlockSettles(n: Network, st: Store, b: Block, t: Store)
    requires AllSettled(n, st) && OnBlock(n, st, b) == Some(t)
    ensures AllSettled(n, t)
  {
    var s, j := BlockEffects(n, st, b, t);
    RaisedRises(st, b, s, j, t);
    RecordedSettles(n, st, BlockRoot(n.origin.env, b), b, s, j, t);
  }

  lemma RecordedSettles(n: Network, st: Store, root: Root, b: Block, s: State, j: State, t: Store)
    requires AllSettled(n, st) && BlockRecorded(st, root, b, s, j, t) && Rises(st, t) && Settled(t, b, s, j)
    requires ProcessJustificationAndFinalization(s) == Some(j)
    ensures AllSettled(n, t)
  {
    forall r | r in t.blocks && r != AnchorRoot(n) ensures BlockSettled(t, r) {
      if r != root { BlockSettledRises(st, t, r); }
    }
  }

  lemma RisesSame(st: Store, t: Store)
    requires t.time == st.time && t.genesisTime == st.genesisTime && t.justified == st.justified && t.finalized == st.finalized
    requires t.unrealizedJustified == st.unrealizedJustified && t.unrealizedFinalized == st.unrealizedFinalized
    ensures Rises(st, t)
  {
  }

  lemma HandleSettles(n: Network, st: Store, e: Event, t: Store)
    requires AllSettled(n, st) && Handle(n, st, e) == Some(t)
    ensures AllSettled(n, t)
  {
    match e
    case Tick(time) =>
      TickRises(st, time, t);
      TickEffects(st, time);
      SameBlocksSettled(n, st, t);
    case NewBlock(b) => BlockSettles(n, st, b, t);
    case NewAttestation(a, fromBlock) =>
      VoteEffects(n, st, a, fromBlock, t, 0);
      RisesSame(st, t);
      SameBlocksSettled(n, st, t);
    case NewSlashing(a1, a2) =>
      RisesSame(st, t);
      SameBlocksSettled(n, st, t);
  }

  lemma {:induction false} RunSettles(n: Network, events: seq<Event>)
    requires GetForkchoiceStore(n).Some?
    ensures AllSettled(n, HandleAll(n, GetForkchoiceStore(n).value, events))
  {
    if events != [] {
      var init, e := events[..|events| - 1], events[|events| - 1];
      var before := HandleAll(n, GetForkchoiceStore(n).value, init);
      RunSettles(n, init);
      if Handle(n, before, e).Some? {
        HandleSettles(n, before, e, Handle(n, before, e).value);
      }
    }
  }

  // The anchor's own entry is the checkpoint that the store starts with.
  lemma {:induction false} AnchorEntry(n: Network, events: seq<Event>)
    requires ValidNetwork(n) && GetForkchoiceStore(n).Some?
    ensures var st := HandleAll(n, GetForkchoiceStore(n).value, events);
      AnchorRoot(n) in st.unrealizedJustifications &&
      st.unrealizedJustifications[AnchorRoot(n)] == Checkpoint(AnchorEpoch(n), AnchorRoot(n))
  {
    if events != [] {
      var init, e := events[..|events| - 1], events[|events| - 1];
      var before := HandleAll(n, GetForkchoiceStore(n).value, init);
      AnchorEntry(n, init);
      ReachableStore(n, init);
      if Handle(n, before, e).Some? {
        AnchorEntryKept(n, before, e, Handle(n, before, e).value);
      }
    }
  }

  lemma AnchorEntryKept(n: Network, st: Store, e: Event, t: Store)
    requires ValidNetwork(n) && Tree(n, st.blocks) && st.blocks.Keys == st.blockStates.Keys && Handle(n, st, e) == Some(t)
    requires AnchorRoot(n) in st.unrealizedJustifications
    ensures AnchorRoot(n) in t.unrealizedJustifications
    ensures t.unrealizedJustifications[AnchorRoot(n)] == st.unrealizedJustifications[AnchorRoot(n)]
  {
    match e
    case Tick(time) => TickEffects(st, time);
    case NewBlock(b) =>
      var s, j := BlockEffects(n, st, b, t);
      NotTheAnchor(n, st, b);
    case NewAttestation(a, fromBlock) => VoteEffects(n, st, a, fromBlock, t, 0);
    case NewSlashing(a1, a2) =>
  }

  lemma NotTheAnchor(n: Network, st: Store, b: Block)
    requires ValidNetwork(n) && Tree(n, st.blocks) && b.parentRoot in st.blocks
    ensures BlockRoot(n.origin.env, b) != AnchorRoot(n)
  {
    if BlockRoot(n.origin.env, b) == AnchorRoot(n) {
      BlockRootInjective(n.origin.env, b, n.origin.block);
    }
  }

  /** Over every run, for every stored block: what its state justifies and finalizes is realized in the store, and what
      it would once its epoch is weighed is realized from the first moment that the clock is past that epoch. */
  lemma TipsRealized(n: Network, events: seq<Event>, r: Root)
    requires ValidNetwork(n) && GetForkchoiceStore(n).Some?
    requires r in HandleAll(n, GetForkchoiceStore(n).value, events).blocks
    ensures var st := HandleAll(n, GetForkchoiceStore(n).value, events);
      && r in st.unrealizedJustifications && r in st.blockStates
      && st.unrealizedJustifications[r].epoch <= st.unrealizedJustified.epoch
      && (EpochAt(st.blocks[r].slot) < CurrentStoreEpoch(st) ==> st.unrealizedJustifications[r].epoch <= st.justified.epoch)
      && (r != AnchorRoot(n) ==> BlockSettled(st, r))
  {
    var st := HandleAll(n, GetForkchoiceStore(n).value, events);
    ReachableStore(n, events);
    RunSettles(n, events);
    AnchorEntry(n, events);
    EpochOverExactly(st, st.blocks[r].slot);
  }

  // ---------- viable leaves ----------

  /** The epoch that a block votes from: what its state has justified, or once its epoch is over what weighing would. */
  ghost predicate VotesFrom(n: Network, st: Store, r: Root, epoch: nat)
    requires r in st.blocks && r in st.blockStates
  {
    if !EpochOver(st, st.blocks[r].slot) then epoch == st.blockStates[r].currentJustified.epoch
    else if r == AnchorRoot(n) then epoch == AnchorEpoch(n)
    else ProcessJustificationAndFinalization(st.blockStates[r]).Some? &&
         epoch == ProcessJustificationAndFinalization(st.blockStates[r]).value.currentJustified.epoch
  }

  /** No stored block names `r` as its parent; it votes from the justified epoch, or from one no more than two back; and
      its chain has the finalized block at the finalized epoch's start. At genesis the last two are not asked. */
  ghost predicate MayBeHead(n: Network, st: Store, r: Root, source: nat)
    requires Tree(n, st.blocks) && r in st.blocks
  {
    && (forall c :: c in st.blocks ==> st.blocks[c].parentRoot != r)
    && (st.justified.epoch == 0 || source == st.justified.epoch || (st.time - st.genesisTime) / 384 <= source + 2)
    && (st.finalized.epoch == 0 ||
        AncestorAt(n.origin.env, ChainOf(n, st.blocks, r), 32 * st.finalized.epoch) == st.finalized.root)
  }

  /** A block of a reachable store is a viable leaf exactly if it may be the head. */
  lemma ViableExactly(n: Network, events: seq<Event>, r: Root, source: nat)
    requires ValidNetwork(n) && GetForkchoiceStore(n).Some?
    requires var st := HandleAll(n, GetForkchoiceStore(n).value, events);
      r in st.blocks && r in st.blockStates && VotesFrom(n, st, r, source)
    ensures var st := HandleAll(n, GetForkchoiceStore(n).value, events);
      Keyed(st) && Tree(n, st.blocks) && (ViableLeaf(st, r) <==> MayBeHead(n, st, r, source))
  {
    var st := HandleAll(n, GetForkchoiceStore(n).value, events);
    ReachableHead(n, events);
    FinalizedKnown(n, events);
    SourceExactly(n, events, r, source);
    ViableAt(n, st, r, source);
  }

  lemma FinalizedKnown(n: Network, events: seq<Event>)
    requires ValidNetwork(n) && GetForkchoiceStore(n).Some?
    ensures AnchorEpoch(n) <= HandleAll(n, GetForkchoiceStore(n).value, events).finalized.epoch
  {
    ReachableStore(n, events);
  }

  lemma SourceExactly(n: Network, events: seq<Event>, r: Root, source: nat)
    requires ValidNetwork(n) && GetForkchoiceStore(n).Some?
    requires var st := HandleAll(n, GetForkchoiceStore(n).value, events);
      r in st.blocks && r in st.blockStates && VotesFrom(n, st, r, source)
    ensures var st := HandleAll(n, GetForkchoiceStore(n).value, events);
      r in st.unrealizedJustifications && GetVotingSource(st, r).epoch == source
  {
    var st := HandleAll(n, GetForkchoiceStore(n).value, events);
    TipsRealized(n, events, r);
    AnchorEntry(n, events);
    EpochOverExactly(st, st.blocks[r].slot);
  }

  lemma ViableAt(n: Network, st: Store, r: Root, source: nat)
    requires ValidNetwork(n) && Keyed(st) && Tree(n, st.blocks) && r in st.blocks
    requires GetVotingSource(st, r).epoch == source && AnchorEpoch(n) <= st.finalized.epoch
    ensures ViableLeaf(st, r) <==> MayBeHead(n, st, r, source)
  {
    DescentExactly(n, st, r);
    LeafExactly(st.blocks, r);
    RecencyExactly(st, r);
  }

  lemma DescentExactly(n: Network, st: Store, r: Root)
    requires ValidNetwork(n) && Tree(n, st.blocks) && r in st.blocks && AnchorEpoch(n) <= st.finalized.epoch
    ensures CorrectFinalized(st, r) <==>
      || st.finalized.epoch == 0
      || AncestorAt(n.origin.env, ChainOf(n, st.blocks, r), 32 * st.finalized.epoch) == st.finalized.root
  {
    DescentAt(n, st.blocks, r, 32 * st.finalized.epoch, st.finalized.root);
  }

  lemma DescentAt(n: Network, blocks: map<Root, Block>, r: Root, start: nat, root: Root)
    requires Tree(n, blocks) && r in blocks && n.origin.block.slot <= start
    ensures GetAncestor(blocks, r, start) == Some(root) <==> AncestorAt(n.origin.env, ChainOf(n, blocks, r), start) == root
  {
    AncestorOnChain(n, blocks, r, start);
  }

  lemma RecencyExactly(st: Store, r: Root)
    requires r in st.blocks && r in st.unrealizedJustifications && r in st.blockStates
    ensures var source := GetVotingSource(st, r).epoch;
      CorrectJustified(st, r) <==>
        st.justified.epoch == 0 || source == st.justified.epoch || (st.time - st.genesisTime) / 384 <= source + 2
  {
    ClockEpoch(st);
    PulledUpCheckRedundant(st, r);
  }

  lemma LeafExactly(blocks: map<Root, Block>, r: Root)
    ensures IsLeaf(blocks, r) <==> forall c :: c in blocks ==> blocks[c].parentRoot != r
  {
    if IsLeaf(blocks, r) {
      forall c | c in blocks ensures blocks[c].parentRoot != r {
        assert c !in Children(blocks, r);
      }
    } else {
      var c :| c in Children(blocks, r);
    }
  }

  lemma ClockEpoch(st: Store)
    ensures CurrentStoreEpoch(st) == (st.time - st.genesisTime) / 384
  {
  }
}
