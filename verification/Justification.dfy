/** Justification and finalization from the votes themselves: which validators' votes count, what stake they need,
    and what exactly follows for the checkpoints of the chain. */
module Justification {
  import opened Primitives
  import opened BeaconChain
  import opened Chains
  import opened Finality
  import opened VoteAccounting

  // ---------- who counts, and for how much ----------

  ghost predicate ActiveDuring(v: Validator, epoch: nat) {
    v.activationEpoch <= epoch && epoch < v.exitEpoch
  }

  ghost function AllActive(s: State, epoch: nat): set<nat> {
    set i | 0 <= i < |s.validators| && ActiveDuring(s.validators[i], epoch)
  }

  /** The validators active in `epoch` and not slashed whose target flag is set. */
  ghost function Counted(s: State, participation: seq<Flags>, epoch: nat): set<nat> {
    set i | && 0 <= i < |s.validators| && ActiveDuring(s.validators[i], epoch) && !s.validators[i].slashed
            && i < |participation| && participation[i].target
  }

  /** The effective balance of a set of validators, at least one increment. */
  ghost function StakeOf(s: State, who: set<nat>): nat {
    var stake := SumOver(seq(|s.validators|, i requires 0 <= i < |s.validators| => s.validators[i].effectiveBalance), who);
    if stake < 1_000_000_000 then 1_000_000_000 else stake
  }

  /** `who` carry two thirds of the active stake. */
  ghost predicate TwoThirds(s: State, who: set<nat>) {
    3 * StakeOf(s, who) >= 2 * StakeOf(s, AllActive(s, CurrentEpoch(s)))
  }

  lemma StakeIsTotal(s: State, who: set<nat>)
    ensures StakeOf(s, who) == TotalBalance(s, who)
  {
    assert seq(|s.validators|, i requires 0 <= i < |s.validators| => s.validators[i].effectiveBalance) == Balances(s.validators);
  }

  lemma TwoThirdsExactly(s: State, participation: seq<Flags>, epoch: nat)
    ensures TwoThirds(s, Counted(s, participation, epoch)) <==> Supermajority(s, participation, epoch)
  {
    assert Counted(s, participation, epoch) == TargetParticipants(s, participation, epoch);
    assert AllActive(s, CurrentEpoch(s)) == ActiveIndices(s, CurrentEpoch(s));
    StakeIsTotal(s, Counted(s, participation, epoch));
    StakeIsTotal(s, AllActive(s, CurrentEpoch(s)));
  }

  // ---------- what the two tests decide ----------

  /** When weighing finalizes: the justified checkpoint if the current epoch passes right after it, or one later with
      the epoch between linked; else the older one, by the same two distances from the previous epoch. */
  ghost predicate FinalizedAt(s: State, j: State, cur: nat, previous: bool, current: bool) {
    var linked := s.bits[0] || previous;
    var justified, older := s.currentJustified, s.previousJustified;
    j.finalized ==
      if current && (justified.epoch + 1 == cur || (justified.epoch + 2 == cur && linked)) then justified
      else if linked && (older.epoch + 2 == cur || (older.epoch + 3 == cur && s.bits[1])) then older
      else s.finalized
  }

  /** What two thirds of the current and of the previous epoch do to the checkpoints and bits of a state. */
  ghost predicate WeighedBy(s: State, j: State, cur: nat, previous: bool, current: bool,
                            atPrevious: Checkpoint, atCurrent: Checkpoint) {
    && j.previousJustified == s.currentJustified
    && j.currentJustified == (if current then atCurrent else if previous then atPrevious else s.currentJustified)
    && j.bits == [current, s.bits[0] || previous, s.bits[1], s.bits[2]]
    && FinalizedAt(s, j, cur, previous, current)
  }

  /** The same with the checkpoints of the run's own chain. */
  ghost predicate WeighedOn(o: Origin, run: Run, s: State, j: State, previous: bool, current: bool) {
    && CurrentEpoch(s) >= 2
    && WeighedBy(s, j, CurrentEpoch(s), previous, current,
                 ChainCheckpoint(o, run, CurrentEpoch(s) - 1), ChainCheckpoint(o, run, CurrentEpoch(s)))
  }

  lemma PassingExactly(o: Origin, run: Run, s: State, participation: seq<Flags>, epoch: nat)
    requires OwnRoot(o, run, s, epoch)
    requires Supermajority(s, participation, epoch) ==> GetBlockRoot(s, epoch).Some?
    ensures Passing(s, participation, epoch) ==
      if Supermajority(s, participation, epoch) then Some(ChainCheckpoint(o, run, epoch)) else None
  {
  }

  // A weighing that succeeds had the roots it asked for.
  lemma WeighingHasRoots(s: State)
    requires CurrentEpoch(s) >= 2 && ProcessJustificationAndFinalization(s).Some?
    ensures Supermajority(s, s.previousParticipation, CurrentEpoch(s) - 1) ==> GetBlockRoot(s, CurrentEpoch(s) - 1).Some?
    ensures Supermajority(s, s.currentParticipation, CurrentEpoch(s)) ==> GetBlockRoot(s, CurrentEpoch(s)).Some?
  {
  }

  lemma PassingOnChain(o: Origin, run: Run, s: State)
    requires GenesisOrigin(o) && Exec(o, run) == Some(s) && CurrentEpoch(s) >= 2
    requires ProcessJustificationAndFinalization(s).Some?
    ensures var cur := CurrentEpoch(s);
      && Passing(s, s.previousParticipation, cur - 1) ==
         (if Supermajority(s, s.previousParticipation, cur - 1) then Some(ChainCheckpoint(o, run, cur - 1)) else None)
      && Passing(s, s.currentParticipation, cur) ==
         (if Supermajority(s, s.currentParticipation, cur) then Some(ChainCheckpoint(o, run, cur)) else None)
  {
    RunInvariant(o, run);
    RootIsOwn(o, run, s, CurrentEpoch(s) - 1);
    RootIsOwn(o, run, s, CurrentEpoch(s));
    WeighingHasRoots(s);
    PassingExactly(o, run, s, s.previousParticipation, CurrentEpoch(s) - 1);
    PassingExactly(o, run, s, s.currentParticipation, CurrentEpoch(s));
  }

  lemma PassingWeighed(o: Origin, run: Run, s: State, j: State) returns (previous: Option<Checkpoint>, current: Option<Checkpoint>)
    requires GenesisOrigin(o) && Exec(o, run) == Some(s) && CurrentEpoch(s) >= 2
    requires ProcessJustificationAndFinalization(s) == Some(j)
    ensures Rules(s, j, CurrentEpoch(s), previous, current)
    ensures FinalizedAt(s, j, CurrentEpoch(s), previous.Some?, current.Some?)
    ensures previous.Some? <==> Supermajority(s, s.previousParticipation, CurrentEpoch(s) - 1)
    ensures current.Some? <==> Supermajority(s, s.currentParticipation, CurrentEpoch(s))
    ensures previous.Some? ==> previous.value == ChainCheckpoint(o, run, CurrentEpoch(s) - 1)
    ensures current.Some? ==> current.value == ChainCheckpoint(o, run, CurrentEpoch(s))
  {
    previous, current := Passing(s, s.previousParticipation, CurrentEpoch(s) - 1), Passing(s, s.currentParticipation, CurrentEpoch(s));
    PassingOnChain(o, run, s);
    WeighingMeetsRules(s);
    FinalizesExactly(o, run, s, j);
  }

  lemma RulesWeigh(s: State, j: State, cur: nat, previous: Option<Checkpoint>, current: Option<Checkpoint>,
                   atPrevious: Checkpoint, atCurrent: Checkpoint)
    requires Rules(s, j, cur, previous, current)
    requires (previous.Some? ==> previous.value == atPrevious) && (current.Some? ==> current.value == atCurrent)
    requires FinalizedAt(s, j, cur, previous.Some?, current.Some?)
    ensures WeighedBy(s, j, cur, previous.Some?, current.Some?, atPrevious, atCurrent)
  {
  }

  lemma SupermajoritiesDecide(o: Origin, run: Run, s: State, j: State, previous: bool, current: bool)
    requires GenesisOrigin(o) && Exec(o, run) == Some(s) && CurrentEpoch(s) >= 2
    requires ProcessJustificationAndFinalization(s) == Some(j)
    requires previous <==> Supermajority(s, s.previousParticipation, CurrentEpoch(s) - 1)
    requires current <==> Supermajority(s, s.currentParticipation, CurrentEpoch(s))
    ensures WeighedOn(o, run, s, j, previous, current)
  {
    var p, c := PassingWeighed(o, run, s, j);
    RulesWeigh(s, j, CurrentEpoch(s), p, c,
               ChainCheckpoint(o, run, CurrentEpoch(s) - 1), ChainCheckpoint(o, run, CurrentEpoch(s)));
  }

  /** For every run from genesis, weighing justifies the chain's own checkpoint of the current epoch exactly if the
      validators whose votes count carry two thirds of the active stake, else that of the previous epoch by the same
      test, else nothing; and finalizes exactly by the distances of the two tests from the justified checkpoints. */
  lemma WeighsExactly(o: Origin, run: Run, s: State, j: State)
    requires GenesisOrigin(o) && Exec(o, run) == Some(s) && CurrentEpoch(s) >= 2
    requires ProcessJustificationAndFinalization(s) == Some(j)
    ensures WeighedOn(o, run, s, j, TwoThirds(s, Counted(s, s.previousParticipation, CurrentEpoch(s) - 1)),
                      TwoThirds(s, Counted(s, s.currentParticipation, CurrentEpoch(s))))
  {
    TwoThirdsExactly(s, s.previousParticipation, CurrentEpoch(s) - 1);
    TwoThirdsExactly(s, s.currentParticipation, CurrentEpoch(s));
    SupermajoritiesDecide(o, run, s, j, TwoThirds(s, Counted(s, s.previousParticipation, CurrentEpoch(s) - 1)),
                          TwoThirds(s, Counted(s, s.currentParticipation, CurrentEpoch(s))));
  }

  /** Once an epoch has begun on the chain, two thirds of the stake are enough to justify it. */
  lemma TwoThirdsJustify(o: Origin, run: Run, s: State)
    requires GenesisOrigin(o) && Exec(o, run) == Some(s) && CurrentEpoch(s) >= 2
    requires TwoThirds(s, Counted(s, s.currentParticipation, CurrentEpoch(s))) && StartSlot(CurrentEpoch(s)) < s.slot
    ensures ProcessJustificationAndFinalization(s).Some?
    ensures ProcessJustificationAndFinalization(s).value.currentJustified == ChainCheckpoint(o, run, CurrentEpoch(s))
  {
    JustificationTotal(s);
    WeighsExactly(o, run, s, ProcessJustificationAndFinalization(s).value);
  }

  // ---------- from votes to checkpoints ----------

  /** The validators active in `epoch` and not slashed of whom a block of the run includes a vote for the root that the
      chain had for the epoch. */
  ghost function Voted(o: Origin, run: Run, s: State, epoch: nat): set<nat> {
    set i | && 0 <= i < |s.validators| && ActiveDuring(s.validators[i], epoch) && !s.validators[i].slashed
            && Recorded(o, run, i, epoch, Target)
  }

  /** The target flags of `participation` are the votes recorded for `epoch`. */
  ghost predicate FlagsRecorded(o: Origin, run: Run, participation: seq<Flags>, epoch: nat) {
    forall v: nat :: Has(participation, v, Target) <==> Recorded(o, run, v, epoch, Target)
  }

  lemma VotedIsCounted(o: Origin, run: Run, s: State, participation: seq<Flags>, epoch: nat)
    requires FlagsRecorded(o, run, participation, epoch)
    ensures Voted(o, run, s, epoch) == Counted(s, participation, epoch)
  {
    forall i: nat
      ensures Recorded(o, run, i, epoch, Target) <==> i < |participation| && participation[i].target
    {
      assert Has(participation, i, Target) <==> Recorded(o, run, i, epoch, Target);
    }
  }

  /** From the votes that blocks include to the checkpoints, over every run: an epoch's checkpoint is justified exactly
      if the unslashed active validators of whom the chain includes a vote for it carry two thirds of the active stake. */
  lemma VotesDecide(o: Origin, run: Run, s: State, j: State)
    requires GenesisOrigin(o) && Exec(o, run) == Some(s) && CurrentEpoch(s) >= 2
    requires ProcessJustificationAndFinalization(s) == Some(j)
    ensures WeighedOn(o, run, s, j, TwoThirds(s, Voted(o, run, s, CurrentEpoch(s) - 1)),
                      TwoThirds(s, Voted(o, run, s, CurrentEpoch(s))))
  {
    VotesCounted(o, run, s);
    WeighsExactly(o, run, s, j);
  }

  lemma VotesCounted(o: Origin, run: Run, s: State)
    requires GenesisOrigin(o) && Exec(o, run) == Some(s) && CurrentEpoch(s) > 0
    ensures Voted(o, run, s, CurrentEpoch(s) - 1) == Counted(s, s.previousParticipation, CurrentEpoch(s) - 1)
    ensures Voted(o, run, s, CurrentEpoch(s)) == Counted(s, s.currentParticipation, CurrentEpoch(s))
  {
    AllRecorded(o, run, s);
    VotedIsCounted(o, run, s, s.previousParticipation, CurrentEpoch(s) - 1);
    VotedIsCounted(o, run, s, s.currentParticipation, CurrentEpoch(s));
  }

  lemma AllRecorded(o: Origin, run: Run, s: State)
    requires GenesisOrigin(o) && Exec(o, run) == Some(s) && CurrentEpoch(s) > 0
    ensures FlagsRecorded(o, run, s.previousParticipation, CurrentEpoch(s) - 1)
    ensures FlagsRecorded(o, run, s.currentParticipation, CurrentEpoch(s))
  {
    forall v: nat
      ensures Has(s.previousParticipation, v, Target) <==> Recorded(o, run, v, CurrentEpoch(s) - 1, Target)
      ensures Has(s.currentParticipation, v, Target) <==> Recorded(o, run, v, CurrentEpoch(s), Target)
    {
      RecordAgrees(o, run, s, v);
    }
  }

  lemma RecordAgrees(o: Origin, run: Run, s: State, v: nat)
    requires GenesisOrigin(o) && Exec(o, run) == Some(s) && CurrentEpoch(s) > 0
    ensures Has(s.previousParticipation, v, Target) <==> Recorded(o, run, v, CurrentEpoch(s) - 1, Target)
    ensures Has(s.currentParticipation, v, Target) <==> Recorded(o, run, v, CurrentEpoch(s), Target)
  {
    GenesisUnvoted(o);
    ParticipationIsRecord(o, run, s, v, Target);
    RecordMeans(o, run, s, v, CurrentEpoch(s));
  }

  lemma GenesisUnvoted(o: Origin)
    requires GenesisOrigin(o)
    ensures Unvoted(o, Target)
  {
    forall v: nat ensures !Has(o.state.currentParticipation, v, Target) && !Has(o.state.previousParticipation, v, Target) {
      assert !HasTarget(o.state.previousParticipation, v) && !HasTarget(o.state.currentParticipation, v);
    }
  }

  lemma RecordMeans(o: Origin, run: Run, s: State, v: nat, cur: nat)
    requires FlagsAreRecord(o, run, s, v, Target) && CurrentEpoch(s) == cur > 0
    ensures Has(s.previousParticipation, v, Target) <==> Recorded(o, run, v, cur - 1, Target)
    ensures Has(s.currentParticipation, v, Target) <==> Recorded(o, run, v, cur, Target)
  {
    var epochs := RecordedEpochs(o, run, v, Target);
    assert cur - 1 in epochs <==> Recorded(o, run, v, cur - 1, Target);
    assert cur in epochs <==> Recorded(o, run, v, cur, Target);
  }
}
