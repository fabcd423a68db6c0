/** What included votes leave behind: which attestations are accepted, what flags they earn, and that the participation
    of a state is exactly the votes that the blocks of its run include. */
module VoteAccounting {
  import opened Primitives
  import opened BeaconChain
  import opened Chains
  import opened Finality

  // ---------- slashable pairs ----------

  /** `d` spans `e`: its vote reaches from further back to further ahead. */
  predicate Spans(d: AttestationData, e: AttestationData) {
    d.source.epoch < e.source.epoch && e.target.epoch < d.target.epoch
  }

  /** Two votes prove nothing against whoever signed both exactly if they are one vote, or aim at different epochs
      without one spanning the other. */
  lemma HonestExactly(d: AttestationData, e: AttestationData)
    ensures !IsSlashable(d, e) && !IsSlashable(e, d) <==>
      d == e || (d.target.epoch != e.target.epoch && !Spans(d, e) && !Spans(e, d))
  {
  }

  /** Whoever only ever votes for later targets from no earlier sources is never slashable. */
  lemma HonestVotersSafe(votes: seq<AttestationData>, i: nat, j: nat)
    requires i < j < |votes|
    requires forall k :: 0 < k < |votes| ==>
      votes[k - 1].target.epoch < votes[k].target.epoch && votes[k - 1].source.epoch <= votes[k].source.epoch
    ensures !IsSlashable(votes[i], votes[j]) && !IsSlashable(votes[j], votes[i])
  {
    VotesAdvance(votes, i, j);
  }

  lemma {:induction false} VotesAdvance(votes: seq<AttestationData>, i: nat, j: nat)
    requires i < j < |votes|
    requires forall k :: 0 < k < |votes| ==>
      votes[k - 1].target.epoch < votes[k].target.epoch && votes[k - 1].source.epoch <= votes[k].source.epoch
    ensures votes[i].target.epoch < votes[j].target.epoch && votes[i].source.epoch <= votes[j].source.epoch
  {
    if i + 1 < j { VotesAdvance(votes, i, j - 1); }
  }

  // ---------- acceptance ----------

  /** An attestation is accepted exactly if it is for the current or the previous epoch, in a slot of that epoch that
      has passed, checked by committee and signature, of known validators, and names the source in force. */
  lemma AcceptedExactly(env: Env, s: State, a: Attestation)
    ensures var cur, target := s.slot / 32, a.data.target.epoch;
      ProcessAttestation(env, s, a).Some? <==>
        && (target == cur || target + 1 == cur)
        && a.data.slot / 32 == target && a.data.slot < s.slot
        && env.attestationValid(s, a)
        && (forall i :: i in a.attesters ==> i < |if target == cur then s.currentParticipation else s.previousParticipation|)
        && a.data.source == (if target == cur then s.currentJustified else s.previousJustified)
  {
  }

  // ---------- flags ----------

  datatype Kind = Source | Target | Head

  predicate Has(participation: seq<Flags>, v: nat, kind: Kind) {
    v < |participation| &&
    match kind
    case Source => participation[v].source
    case Target => participation[v].target
    case Head => participation[v].head
  }

  /** What a vote for `epoch` earns when it is included in state `s`: the target flag for the root that the state has
      for the epoch, the head flag for that and the root of its slot, one slot later, the source flag within five slots. */
  predicate Earns(s: State, d: AttestationData, epoch: nat, kind: Kind) {
    && d.target.epoch == epoch
    && match kind
       case Source => s.slot <= d.slot + 5
       case Target => GetBlockRoot(s, epoch) == Some(d.target.root)
       case Head => && GetBlockRoot(s, epoch) == Some(d.target.root)
                    && GetBlockRootAtSlot(s, d.slot) == Some(d.beaconBlockRoot)
                    && s.slot == d.slot + 1
  }

  ghost predicate EarnsIn(s: State, atts: seq<Attestation>, v: nat, epoch: nat, kind: Kind) {
    exists k :: 0 <= k < |atts| && v in atts[k].attesters && Earns(s, atts[k].data, epoch, kind)
  }

  /** A flag of one epoch after an attestation: it was there, or the attestation earns it. */
  lemma OneVote(env: Env, s: State, a: Attestation, t: State, v: nat, kind: Kind)
    requires ProcessAttestation(env, s, a) == Some(t)
    ensures Has(t.currentParticipation, v, kind) <==>
      Has(s.currentParticipation, v, kind) || (v in a.attesters && Earns(s, a.data, CurrentEpoch(s), kind))
    ensures CurrentEpoch(s) > 0 ==>
      (Has(t.previousParticipation, v, kind) <==>
        Has(s.previousParticipation, v, kind) || (v in a.attesters && Earns(s, a.data, CurrentEpoch(s) - 1, kind)))
    ensures CurrentEpoch(s) == 0 ==> t.previousParticipation == s.previousParticipation
  {
  }

  ghost predicate FlagsAdd(s: State, atts: seq<Attestation>, before: seq<Flags>, after: seq<Flags>, v: nat, epoch: nat, kind: Kind) {
    Has(after, v, kind) <==> Has(before, v, kind) || EarnsIn(s, atts, v, epoch, kind)
  }

  /** A flag of either epoch after the attestations of a block: it was there, or one of them earns it. */
  ghost predicate FlagsOfVotes(s: State, atts: seq<Attestation>, t: State, v: nat, kind: Kind) {
    && FlagsAdd(s, atts, s.currentParticipation, t.currentParticipation, v, CurrentEpoch(s), kind)
    && (if CurrentEpoch(s) > 0 then
          FlagsAdd(s, atts, s.previousParticipation, t.previousParticipation, v, CurrentEpoch(s) - 1, kind)
        else
          Has(t.previousParticipation, v, kind) <==> Has(s.previousParticipation, v, kind))
  }

  lemma EarnsInMore(s: State, atts: seq<Attestation>, a: Attestation, v: nat, epoch: nat, kind: Kind)
    ensures EarnsIn(s, atts + [a], v, epoch, kind) <==>
      EarnsIn(s, atts, v, epoch, kind) || (v in a.attesters && Earns(s, a.data, epoch, kind))
  {
    var more := atts + [a];
    assert more[|atts|] == a;
    assert forall k :: 0 <= k < |atts| ==> more[k] == atts[k];
  }

  lemma FlagsAddMore(s: State, m: State, atts: seq<Attestation>, a: Attestation, before: seq<Flags>, mid: seq<Flags>, after: seq<Flags>,
                     v: nat, epoch: nat, kind: Kind)
    requires FlagsAdd(s, atts, before, mid, v, epoch, kind) && m.slot == s.slot && m.blockRoots == s.blockRoots
    requires Has(after, v, kind) <==> Has(mid, v, kind) || (v in a.attesters && Earns(m, a.data, epoch, kind))
    ensures FlagsAdd(s, atts + [a], before, after, v, epoch, kind)
  {
    EarnsInMore(s, atts, a, v, epoch, kind);
  }

  lemma OneMoreVote(env: Env, s: State, atts: seq<Attestation>, m: State, a: Attestation, t: State, v: nat, kind: Kind)
    requires m == s.(previousParticipation := m.previousParticipation, currentParticipation := m.currentParticipation)
    requires FlagsOfVotes(s, atts, m, v, kind) && ProcessAttestation(env, m, a) == Some(t)
    ensures FlagsOfVotes(s, atts + [a], t, v, kind)
  {
    OneVote(env, m, a, t, v, kind);
    FlagsAddMore(s, m, atts, a, s.currentParticipation, m.currentParticipation, t.currentParticipation, v, CurrentEpoch(s), kind);
    if CurrentEpoch(s) > 0 {
      FlagsAddMore(s, m, atts, a, s.previousParticipation, m.previousParticipation, t.previousParticipation, v, CurrentEpoch(s) - 1, kind);
    }
  }

  lemma {:induction false} AllVotes(env: Env, s: State, atts: seq<Attestation>, t: State, v: nat, kind: Kind)
    requires ProcessAttestations(env, s, atts) == Some(t)
    ensures FlagsOfVotes(s, atts, t, v, kind)
  {
    if atts != [] {
      var init, a := atts[..|atts| - 1], atts[|atts| - 1];
      var m := ProcessAttestations(env, s, init).value;
      AttestationsKeep(env, s, init);
      AllVotes(env, s, init, m, v, kind);
      OneMoreVote(env, s, init, m, a, t, v, kind);
      assert init + [a] == atts;
    }
  }

  lemma PaddedHas(p: seq<Flags>, n: nat, v: nat, kind: Kind)
    ensures Has(Padded(p, n), v, kind) <==> Has(p, v, kind)
  {
  }

  /** After an accepted block a validator has a flag exactly if it had it before, or the block includes a vote
      of it that earns the flag in the state the block was applied to. So a block never clears a flag. */
  lemma BlockVotes(env: Env, s: State, b: Block, t: State, v: nat, kind: Kind)
    requires ApplyBlock(env, s, b) == Some(t)
    ensures FlagsOfVotes(s, b.body.attestations, t, v, kind)
  {
    var s1 := ProcessBlockHeader(env, s, b).value;
    var (validators1, rest1) := env.beforeAttestations(s1, b).value;
    var s2 := s1.(validators := validators1, rest := rest1);
    var s3 := ProcessAttestations(env, s2, b.body.attestations).value;
    AllVotes(env, s2, b.body.attestations, s3, v, kind);
    VotesCarryOver(s, s2, s3, t, b.body.attestations, |t.validators|, v, kind);
  }

  // What a block does before and after its attestations changes no flag.
  lemma VotesCarryOver(s: State, s2: State, s3: State, t: State, atts: seq<Attestation>, n: nat, v: nat, kind: Kind)
    requires FlagsOfVotes(s2, atts, s3, v, kind)
    requires s2 == s.(header := s2.header, validators := s2.validators, rest := s2.rest)
    requires t.currentParticipation == Padded(s3.currentParticipation, n) && t.previousParticipation == Padded(s3.previousParticipation, n)
    ensures FlagsOfVotes(s, atts, t, v, kind)
  {
    PaddedHas(s3.currentParticipation, n, v, kind);
    PaddedHas(s3.previousParticipation, n, v, kind);
    SameVotes(s, s2, atts, v, CurrentEpoch(s), kind);
    if CurrentEpoch(s) > 0 { SameVotes(s, s2, atts, v, CurrentEpoch(s) - 1, kind); }
  }

  lemma SameVotes(s: State, s2: State, atts: seq<Attestation>, v: nat, epoch: nat, kind: Kind)
    requires s.slot == s2.slot && s.blockRoots == s2.blockRoots
    ensures EarnsIn(s, atts, v, epoch, kind) <==> EarnsIn(s2, atts, v, epoch, kind)
  {
  }

  /** A slot leaves all flags as they are, until the epoch turns: then those of the current epoch become those of
      the previous one and nothing is left of the current. */
  lemma SlotFlags(env: Env, s: State, t: State, v: nat, kind: Kind)
    requires AdvanceSlot(env, s) == Some(t)
    ensures (s.slot + 1) % 32 != 0 ==>
      t.currentParticipation == s.currentParticipation && t.previousParticipation == s.previousParticipation
    ensures (s.slot + 1) % 32 == 0 ==>
      t.previousParticipation == s.currentParticipation && !Has(t.currentParticipation, v, kind)
  {
  }

  // ---------- whole runs ----------

  /** Some block of the run includes a vote of `v` for `epoch` that earned the flag when the block was applied. */
  ghost predicate Recorded(o: Origin, run: Run, v: nat, epoch: nat, kind: Kind) {
    run != [] &&
    var before := run[..|run| - 1];
    || Recorded(o, before, v, epoch, kind)
    || (&& run[|run| - 1].Apply? && Exec(o, before).Some?
        && EarnsIn(Exec(o, before).value, run[|run| - 1].block.body.attestations, v, epoch, kind))
  }

  /** An origin before whose state no vote was counted. */
  ghost predicate Unvoted(o: Origin, kind: Kind) {
    forall v :: !Has(o.state.currentParticipation, v, kind) && !Has(o.state.previousParticipation, v, kind)
  }

  ghost function RecordedEpochs(o: Origin, run: Run, v: nat, kind: Kind): iset<nat> {
    iset e: nat | Recorded(o, run, v, e, kind)
  }

  ghost predicate FlagsMatch(s: State, v: nat, kind: Kind, epochs: iset<nat>) {
    && (Has(s.currentParticipation, v, kind) <==> CurrentEpoch(s) in epochs)
    && (CurrentEpoch(s) > 0 ==> (Has(s.previousParticipation, v, kind) <==> CurrentEpoch(s) - 1 in epochs))
    && (forall e :: e > CurrentEpoch(s) ==> e !in epochs)
  }

  /** The flags of the state after a run are exactly the votes recorded on it, for the current epoch and the last. */
  ghost predicate FlagsAreRecord(o: Origin, run: Run, s: State, v: nat, kind: Kind) {
    FlagsMatch(s, v, kind, RecordedEpochs(o, run, v, kind))
  }

  lemma AcceptedInTime(env: Env, s: State, a: Attestation)
    ensures ProcessAttestation(env, s, a).Some? ==> a.data.target.epoch <= CurrentEpoch(s)
  {
  }

  lemma LastAccepted(env: Env, s: State, init: seq<Attestation>, a: Attestation) returns (m: State)
    requires ProcessAttestations(env, s, init + [a]).Some?
    ensures ProcessAttestations(env, s, init).Some?
    ensures m.slot == s.slot && ProcessAttestation(env, m, a).Some?
  {
    assert (init + [a])[..|init + [a]| - 1] == init;
    AttestationsKeep(env, s, init);
    m := ProcessAttestations(env, s, init).value;
  }

  ghost predicate TargetsBegun(s: State, atts: seq<Attestation>) {
    forall k :: 0 <= k < |atts| ==> atts[k].data.target.epoch <= CurrentEpoch(s)
  }

  lemma {:induction false} AllInTime(env: Env, s: State, atts: seq<Attestation>)
    requires ProcessAttestations(env, s, atts).Some?
    ensures TargetsBegun(s, atts)
  {
    if atts != [] {
      var init, a := atts[..|atts| - 1], atts[|atts| - 1];
      assert init + [a] == atts;
      var m := LastAccepted(env, s, init, a);
      AllInTime(env, s, init);
      AcceptedInTime(env, m, a);
    }
  }

  lemma NoEarlyVote(env: Env, s: State, atts: seq<Attestation>, v: nat, epoch: nat, kind: Kind)
    requires ProcessAttestations(env, s, atts).Some? && epoch > CurrentEpoch(s)
    ensures !EarnsIn(s, atts, v, epoch, kind)
  {
    AllInTime(env, s, atts);
  }

  // No vote for an epoch that has not begun is ever accepted.
  lemma BlockNoEarlyVote(env: Env, s: State, b: Block, v: nat, epoch: nat, kind: Kind)
    requires ApplyBlock(env, s, b).Some? && epoch > CurrentEpoch(s)
    ensures !EarnsIn(s, b.body.attestations, v, epoch, kind)
  {
    var s1 := ProcessBlockHeader(env, s, b).value;
    var (validators1, rest1) := env.beforeAttestations(s1, b).value;
    var s2 := s1.(validators := validators1, rest := rest1);
    NoEarlyVote(env, s2, b.body.attestations, v, epoch, kind);
    SameVotes(s, s2, b.body.attestations, v, epoch, kind);
  }

  lemma RecordedStep(o: Origin, before: Run, i: Input, s: State, v: nat, epoch: nat, kind: Kind)
    requires Exec(o, before) == Some(s)
    ensures Recorded(o, before + [i], v, epoch, kind) <==>
      Recorded(o, before, v, epoch, kind) || (i.Apply? && EarnsIn(s, i.block.body.attestations, v, epoch, kind))
  {
    assert (before + [i])[..|before + [i]| - 1] == before;
  }

  lemma SlotKeepsRecord(o: Origin, before: Run, s: State, t: State, v: nat, kind: Kind)
    requires Exec(o, before) == Some(s) && AdvanceSlot(o.env, s) == Some(t) && t.slot == s.slot + 1
    requires FlagsAreRecord(o, before, s, v, kind)
    ensures FlagsAreRecord(o, before + [NextSlot], t, v, kind)
  {
    SlotFlags(o.env, s, t, v, kind);
    SameRecord(o, before, s, v, kind);
    SlotMatches(s, t, v, kind, RecordedEpochs(o, before, v, kind));
  }

  lemma SameRecord(o: Origin, before: Run, s: State, v: nat, kind: Kind)
    requires Exec(o, before) == Some(s)
    ensures RecordedEpochs(o, before + [NextSlot], v, kind) == RecordedEpochs(o, before, v, kind)
  {
    forall e: nat ensures Recorded(o, before + [NextSlot], v, e, kind) <==> Recorded(o, before, v, e, kind) {
      RecordedStep(o, before, NextSlot, s, v, e, kind);
    }
  }

  lemma SlotMatches(s: State, t: State, v: nat, kind: Kind, epochs: iset<nat>)
    requires FlagsMatch(s, v, kind, epochs) && t.slot == s.slot + 1
    requires (s.slot + 1) % 32 != 0 ==>
      t.currentParticipation == s.currentParticipation && t.previousParticipation == s.previousParticipation
    requires (s.slot + 1) % 32 == 0 ==>
      t.previousParticipation == s.currentParticipation && !Has(t.currentParticipation, v, kind)
    ensures FlagsMatch(t, v, kind, epochs)
  {
  }

  ghost function EarnedEpochs(s: State, atts: seq<Attestation>, v: nat, kind: Kind): iset<nat> {
    iset e: nat | EarnsIn(s, atts, v, e, kind)
  }

  lemma MoreRecord(o: Origin, before: Run, s: State, b: Block, v: nat, kind: Kind)
    requires Exec(o, before) == Some(s)
    ensures RecordedEpochs(o, before + [Apply(b)], v, kind) ==
      RecordedEpochs(o, before, v, kind) + EarnedEpochs(s, b.body.attestations, v, kind)
  {
    forall e: nat
      ensures Recorded(o, before + [Apply(b)], v, e, kind) <==>
        Recorded(o, before, v, e, kind) || EarnsIn(s, b.body.attestations, v, e, kind)
    {
      RecordedStep(o, before, Apply(b), s, v, e, kind);
    }
  }

  lemma VotesMatch(s: State, atts: seq<Attestation>, t: State, v: nat, kind: Kind, epochs: iset<nat>)
    requires FlagsMatch(s, v, kind, epochs) && FlagsOfVotes(s, atts, t, v, kind) && t.slot == s.slot
    requires forall e: nat :: e > CurrentEpoch(s) ==> !EarnsIn(s, atts, v, e, kind)
    ensures FlagsMatch(t, v, kind, epochs + EarnedEpochs(s, atts, v, kind))
  {
  }

  lemma BlockKeepsRecord(o: Origin, before: Run, s: State, b: Block, t: State, v: nat, kind: Kind)
    requires Exec(o, before) == Some(s) && ApplyBlock(o.env, s, b) == Some(t) && t.slot == s.slot
    requires FlagsAreRecord(o, before, s, v, kind)
    ensures FlagsAreRecord(o, before + [Apply(b)], t, v, kind)
  {
    BlockVotes(o.env, s, b, t, v, kind);
    forall e: nat | e > CurrentEpoch(s) ensures !EarnsIn(s, b.body.attestations, v, e, kind) {
      BlockNoEarlyVote(o.env, s, b, v, e, kind);
    }
    VotesMatch(s, b.body.attestations, t, v, kind, RecordedEpochs(o, before, v, kind));
    MoreRecord(o, before, s, b, v, kind);
  }

  /** Over every run: the flags of both epochs are exactly the votes that its blocks include, each judged in the
      state that its block was applied to; nothing else sets a flag, and nothing clears one before its epoch is out. */
  lemma {:induction false} ParticipationIsRecord(o: Origin, run: Run, s: State, v: nat, kind: Kind)
    requires ValidOrigin(o) && Unvoted(o, kind) && Exec(o, run) == Some(s)
    ensures FlagsAreRecord(o, run, s, v, kind)
  {
    if run != [] {
      var before, i := run[..|run| - 1], run[|run| - 1];
      assert before + [i] == run;
      var m := Exec(o, before).value;
      ParticipationIsRecord(o, before, m, v, kind);
      StepKeepsRecord(o, before, i, m, s, v, kind);
    }
  }

  lemma StepKeepsRecord(o: Origin, before: Run, i: Input, s: State, t: State, v: nat, kind: Kind)
    requires Exec(o, before) == Some(s) && Step(o.env, s, i) == Some(t) && FlagsAreRecord(o, before, s, v, kind)
    ensures FlagsAreRecord(o, before + [i], t, v, kind)
  {
    match i
    case NextSlot =>
      var j := AdvanceSlotShape(o.env, s);
      SlotKeepsRecord(o, before, s, t, v, kind);
    case Apply(b) =>
      ApplyBlockKeeps(o.env, s, b);
      BlockKeepsRecord(o, before, s, b, t, v, kind);
  }

  /** What earns the flags, on the chain of the run: the target flag naming the chain's own checkpoint, the head flag
      naming its block of the vote's slot as well, in the very next slot. */
  lemma EarnsOnChain(o: Origin, run: Run, s: State, d: AttestationData)
    requires ValidOrigin(o) && o.block.slot == 0 && Exec(o, run) == Some(s)
    requires d.slot < s.slot && d.slot / 32 == d.target.epoch && d.target.epoch + 1 >= CurrentEpoch(s)
    ensures Earns(s, d, d.target.epoch, Target) <==> d.target == ChainCheckpoint(o, run, d.target.epoch)
    ensures Earns(s, d, d.target.epoch, Head) <==>
      && d.target == ChainCheckpoint(o, run, d.target.epoch)
      && d.beaconBlockRoot == AncestorAt(o.env, Blocks(o, run), d.slot)
      && s.slot == d.slot + 1
  {
    RingIsAncestorWalk(o, run, d.slot);
    RingIsAncestorWalk(o, run, StartSlot(d.target.epoch));
  }
}
