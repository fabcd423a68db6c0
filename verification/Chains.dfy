/** Runs of the state transition over one chain, and the walk back along its blocks. */
module Chains {
  import opened Primitives
  import opened BeaconChain

  /** The environment with the trusted block and post-state that every chain starts from. */
  datatype Origin = Origin(env: Env, block: Block, state: State)

  /** What a chain does next: pass to the next slot, or apply a block in the current slot. */
  datatype Input = NextSlot | Apply(block: Block)

  type Run = seq<Input>

  function Step(env: Env, s: State, i: Input): Option<State> {
    match i
    case NextSlot => AdvanceSlot(env, s)
    case Apply(b) => ApplyBlock(env, s, b)
  }

  function Exec(o: Origin, run: Run): Option<State> {
    if run == [] then Some(o.state)
    else
      match Exec(o, run[..|run| - 1])
      case None => None
      case Some(s) => Step(o.env, s, run[|run| - 1])
  }

  function Blocks(o: Origin, run: Run): (h: seq<Block>)
    ensures |h| > 0 && h[0] == o.block
  {
    if run == [] then [o.block]
    else
      var h := Blocks(o, run[..|run| - 1]);
      match run[|run| - 1]
      case NextSlot => h
      case Apply(b) => h + [b]
  }

  function Last<T>(s: seq<T>): T
    requires |s| > 0
  {
    s[|s| - 1]
  }

  /** The root of the latest block of `h` at or before `slot`: `get_ancestor` along one chain. */
  function AncestorAt(env: Env, h: seq<Block>, slot: nat): Root
    requires |h| > 0
  {
    if |h| == 1 || Last(h).slot <= slot then BlockRoot(env, Last(h))
    else AncestorAt(env, h[..|h| - 1], slot)
  }

  lemma AncestorAtExtended(env: Env, h: seq<Block>, b: Block, slot: nat)
    requires |h| > 0 && slot < b.slot
    ensures AncestorAt(env, h + [b], slot) == AncestorAt(env, h, slot)
  {
    assert (h + [b])[..|h + [b]| - 1] == h;
  }

  /** The start of every chain: the origin block with its own post-state, at an epoch boundary. */
  ghost predicate ValidOrigin(o: Origin) {
    && IdealHashes(o.env)
    && o.state.slot == o.block.slot
    && o.block.slot % SLOTS_PER_EPOCH == 0
    && o.state.header == HeaderOf(o.env, o.block).(stateRoot := ZERO_ROOT)
    && o.block.stateRoot == o.env.hashState(o.state)
    && o.state.finalized.epoch <= EpochAt(o.block.slot)
    && o.state.previousJustified.epoch <= EpochAt(o.block.slot)
    && o.state.currentJustified.epoch <= EpochAt(o.block.slot)
  }

  // ---------- what every run keeps ----------

  /** Each block names its predecessor and comes in a later slot. */
  ghost predicate Linked(env: Env, h: seq<Block>) {
    forall k :: 0 < k < |h| ==> h[k].parentRoot == BlockRoot(env, h[k - 1]) && h[k - 1].slot < h[k].slot
  }

  ghost predicate RingAgrees(env: Env, h: seq<Block>, s: State)
    requires |h| > 0
  {
    forall slot: nat :: h[0].slot <= slot < s.slot <= slot + SLOTS_PER_HISTORICAL_ROOT ==>
      s.blockRoots[slot % SLOTS_PER_HISTORICAL_ROOT] == AncestorAt(env, h, slot)
  }

  /** A checkpoint is not later than the origin, or it is the block of this chain at its epoch's start. */
  ghost predicate OnChain(env: Env, h: seq<Block>, slot: nat, c: Checkpoint)
    requires |h| > 0
  {
    c.epoch <= EpochAt(h[0].slot) ||
    (StartSlot(c.epoch) < slot && c.root == AncestorAt(env, h, StartSlot(c.epoch)))
  }

  ghost predicate CheckpointsOnChain(env: Env, h: seq<Block>, s: State)
    requires |h| > 0
  {
    && OnChain(env, h, s.slot, s.previousJustified)
    && OnChain(env, h, s.slot, s.currentJustified)
    && OnChain(env, h, s.slot, s.finalized)
  }

  ghost predicate ChainInvariant(o: Origin, h: seq<Block>, s: State) {
    && |h| > 0 && h[0] == o.block
    && Linked(o.env, h)
    && Last(h).slot <= s.slot && o.block.slot <= s.slot
    && s.header.slot == Last(h).slot
    && (s.header.stateRoot == ZERO_ROOT ==> s.slot == Last(h).slot)
    && o.env.hashHeader(CachedHeader(o.env, s)) == BlockRoot(o.env, Last(h))
    && RingAgrees(o.env, h, s)
    && CheckpointsOnChain(o.env, h, s)
  }

  lemma OriginInvariant(o: Origin)
    requires ValidOrigin(o)
    ensures ChainInvariant(o, [o.block], o.state)
  {
  }

  lemma BlockRootOnChain(o: Origin, h: seq<Block>, s: State, epoch: nat)
    requires ChainInvariant(o, h, s) && GetBlockRoot(s, epoch).Some?
    ensures OnChain(o.env, h, s.slot, Checkpoint(epoch, GetBlockRoot(s, epoch).value))
  {
    if epoch > EpochAt(h[0].slot) {
      assert h[0].slot <= StartSlot(epoch) < s.slot;
    }
  }

  /** Weighing, whether at the end of an epoch or on a pulled-up tip, only names blocks of the chain. */
  lemma JustificationOnChain(o: Origin, h: seq<Block>, s: State)
    requires ChainInvariant(o, h, s) && ProcessJustificationAndFinalization(s).Some?
    ensures CheckpointsOnChain(o.env, h, ProcessJustificationAndFinalization(s).value)
  {
    if GetBlockRoot(s, CurrentEpoch(s)).Some? { BlockRootOnChain(o, h, s, CurrentEpoch(s)); }
    if GetBlockRoot(s, PreviousEpoch(s)).Some? { BlockRootOnChain(o, h, s, PreviousEpoch(s)); }
  }

  lemma AncestorAtTip(env: Env, h: seq<Block>, slot: nat)
    requires |h| > 0 && Last(h).slot <= slot
    ensures AncestorAt(env, h, slot) == BlockRoot(env, Last(h))
  {
  }

  // Two slots of one window of the ring share a cell only if they are equal.
  lemma RingCellsDistinct(a: nat, b: nat)
    requires a < b < a + SLOTS_PER_HISTORICAL_ROOT
    ensures a % SLOTS_PER_HISTORICAL_ROOT != b % SLOTS_PER_HISTORICAL_ROOT
  {
  }

  lemma CachedRingAgrees(o: Origin, h: seq<Block>, s: State)
    requires ChainInvariant(o, h, s)
    ensures RingAgrees(o.env, h, ProcessSlot(o.env, s).(slot := s.slot + 1))
  {
    var t := ProcessSlot(o.env, s);
    forall slot: nat | h[0].slot <= slot < s.slot + 1 <= slot + SLOTS_PER_HISTORICAL_ROOT
      ensures t.blockRoots[slot % SLOTS_PER_HISTORICAL_ROOT] == AncestorAt(o.env, h, slot)
    {
      if slot == s.slot {
        AncestorAtTip(o.env, h, slot);
      } else {
        RingCellsDistinct(slot, s.slot);
      }
    }
  }

  function WithFinality(s: State, j: State): State {
    s.(bits := j.bits, previousJustified := j.previousJustified,
       currentJustified := j.currentJustified, finalized := j.finalized)
  }

  lemma RecentRootUncached(env: Env, s: State, epoch: nat)
    requires epoch == CurrentEpoch(s) || epoch == PreviousEpoch(s)
    ensures GetBlockRoot(ProcessSlot(env, s), epoch) == GetBlockRoot(s, epoch)
  {
    if StartSlot(epoch) < s.slot {
      RingCellsDistinct(StartSlot(epoch), s.slot);
    }
  }

  /** Caching the roots of the last slot of an epoch does not touch what weighing reads. */
  lemma JustificationIgnoresCaching(env: Env, s: State)
    ensures var t := ProcessSlot(env, s);
      ProcessJustificationAndFinalization(t) ==
        match ProcessJustificationAndFinalization(s)
        case None => None
        case Some(j) => Some(WithFinality(t, j))
  {
    RecentRootUncached(env, s, CurrentEpoch(s));
    RecentRootUncached(env, s, PreviousEpoch(s));
  }

  /** At the end of an epoch weighing never asks for a root outside the window. */
  lemma JustificationTotal(s: State)
    requires s.slot % SLOTS_PER_EPOCH != 0
    ensures ProcessJustificationAndFinalization(s).Some?
  {
  }

  /** How one slot changes a state: the caches always, the flags and finality fields at an epoch's
      end, where the latter come from the weighed state `j`. */
  ghost predicate SlotStep(s: State, j: State, t: State) {
    && t.slot == s.slot + 1
    && (if (s.slot + 1) % SLOTS_PER_EPOCH == 0 then
          && t == WithFinality(t, j)
          && t.previousParticipation == s.currentParticipation
          && (forall i :: !HasTarget(t.currentParticipation, i))
        else
          && t == WithFinality(t, s)
          && t.previousParticipation == s.previousParticipation
          && t.currentParticipation == s.currentParticipation)
  }

  lemma AdvanceSlotShape(env: Env, s: State) returns (j: State)
    ensures AdvanceSlot(env, s).Some?
    ensures (s.slot + 1) % SLOTS_PER_EPOCH == 0 ==> ProcessJustificationAndFinalization(s) == Some(j)
    ensures var t, c := AdvanceSlot(env, s).value, ProcessSlot(env, s);
      t.header == c.header && t.blockRoots == c.blockRoots && SlotStep(s, j, t)
  {
    JustificationIgnoresCaching(env, s);
    j := s;
    if (s.slot + 1) % SLOTS_PER_EPOCH == 0 {
      JustificationTotal(s);
      j := ProcessJustificationAndFinalization(s).value;
    }
  }

  lemma AdvanceSlotInvariant(o: Origin, h: seq<Block>, s: State)
    requires ValidOrigin(o) && ChainInvariant(o, h, s)
    ensures ChainInvariant(o, h, AdvanceSlot(o.env, s).value)
  {
    var j := AdvanceSlotShape(o.env, s);
    CachedRingAgrees(o, h, s);
    if (s.slot + 1) % SLOTS_PER_EPOCH == 0 {
      JustificationOnChain(o, h, s);
    }
    assert RingAgrees(o.env, h, AdvanceSlot(o.env, s).value);
  }

  lemma {:induction false} AttestationsKeep(env: Env, s: State, atts: seq<Attestation>)
    requires ProcessAttestations(env, s, atts).Some?
    ensures var t := ProcessAttestations(env, s, atts).value;
      t == s.(previousParticipation := t.previousParticipation, currentParticipation := t.currentParticipation)
  {
    if atts != [] {
      AttestationsKeep(env, s, atts[..|atts| - 1]);
    }
  }

  lemma ApplyBlockKeeps(env: Env, s: State, b: Block)
    requires ApplyBlock(env, s, b).Some?
    ensures var t := ApplyBlock(env, s, b).value;
      && t == s.(header := t.header, validators := t.validators, rest := t.rest,
                 previousParticipation := t.previousParticipation, currentParticipation := t.currentParticipation)
      && b.slot == s.slot > s.header.slot && b.parentRoot == env.hashHeader(s.header)
      && t.header == HeaderOf(env, b).(stateRoot := ZERO_ROOT)
      && b.stateRoot == env.hashState(t)
  {
    var s1 := ProcessBlockHeader(env, s, b).value;
    var (validators1, rest1) := env.beforeAttestations(s1, b).value;
    AttestationsKeep(env, s1.(validators := validators1, rest := rest1), b.body.attestations);
  }

  lemma ApplyBlockInvariant(o: Origin, h: seq<Block>, s: State, b: Block)
    requires ValidOrigin(o) && ChainInvariant(o, h, s) && ApplyBlock(o.env, s, b).Some?
    ensures ChainInvariant(o, h + [b], ApplyBlock(o.env, s, b).value)
  {
    var t := ApplyBlock(o.env, s, b).value;
    ApplyBlockKeeps(o.env, s, b);
    assert CachedHeader(o.env, s) == s.header;
    forall slot: nat | slot < s.slot
      ensures AncestorAt(o.env, h + [b], slot) == AncestorAt(o.env, h, slot)
    {
      AncestorAtExtended(o.env, h, b, slot);
    }
    assert RingAgrees(o.env, h + [b], t);
    assert CachedHeader(o.env, t) == HeaderOf(o.env, b);
  }

  /** Every state of every run meets the invariant. */
  lemma {:induction false} RunInvariant(o: Origin, run: Run)
    requires ValidOrigin(o) && Exec(o, run).Some?
    ensures ChainInvariant(o, Blocks(o, run), Exec(o, run).value)
  {
    if run == [] {
      OriginInvariant(o);
    } else {
      var before := run[..|run| - 1];
      RunInvariant(o, before);
      var s, h := Exec(o, before).value, Blocks(o, before);
      match run[|run| - 1]
      case NextSlot => AdvanceSlotInvariant(o, h, s);
      case Apply(b) => ApplyBlockInvariant(o, h, s, b);
    }
  }

  /** `get_block_root_at_slot` agrees with the walk along parents, for every slot of the window. */
  lemma RingIsAncestorWalk(o: Origin, run: Run, slot: nat)
    requires ValidOrigin(o) && Exec(o, run).Some?
    requires o.block.slot <= slot < Exec(o, run).value.slot <= slot + SLOTS_PER_HISTORICAL_ROOT
    ensures GetBlockRootAtSlot(Exec(o, run).value, slot) == Some(AncestorAt(o.env, Blocks(o, run), slot))
  {
    RunInvariant(o, run);
  }

  /** In every run a header is accepted exactly if it is for the current slot, later than the tip, and names the tip. */
  lemma HeaderAcceptedExactly(o: Origin, run: Run, s: State, b: Block)
    requires ValidOrigin(o) && Exec(o, run) == Some(s)
    ensures var tip := Last(Blocks(o, run));
      ProcessBlockHeader(o.env, s, b).Some? <==> tip.slot < b.slot == s.slot && b.parentRoot == BlockRoot(o.env, tip)
  {
    RunInvariant(o, run);
  }
}
