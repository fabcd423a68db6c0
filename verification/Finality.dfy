/** Justification and finalization along one chain: every justified checkpoint is reached from
    genesis by supermajority links, and every finalized one starts such a link. */
module Finality {
  import opened Primitives
  import opened BeaconChain
  import opened Chains

  ghost predicate GenesisOrigin(o: Origin) {
    && ValidOrigin(o)
    && o.block.slot == 0
    && o.state.previousJustified == o.state.currentJustified == o.state.finalized == GENESIS_CHECKPOINT
    && (forall i :: 0 <= i < 4 ==> !o.state.bits[i])
    && (forall v :: !HasTarget(o.state.previousParticipation, v) && !HasTarget(o.state.currentParticipation, v))
  }

  // ---------- votes ----------

  ghost predicate Included(atts: seq<Attestation>, v: nat, d: AttestationData) {
    exists a :: a in atts && a.data == d && v in a.attesters
  }

  /** Some block of the chain includes data `d` signed by `v`. */
  ghost predicate Signed(h: seq<Block>, v: nat, d: AttestationData) {
    exists k :: 0 <= k < |h| && Included(h[k].body.attestations, v, d)
  }

  ghost predicate Vote(h: seq<Block>, v: nat, source: Checkpoint, target: Checkpoint) {
    exists d :: Signed(h, v, d) && d.source == source && d.target == target
  }

  /** `voters` carry two thirds of the active balance of state `w`, by its own weighing. */
  ghost predicate Quorum(w: State, voters: set<nat>) {
    && voters <= ActiveIndices(w, CurrentEpoch(w)) + ActiveIndices(w, PreviousEpoch(w))
    && (forall v :: v in voters ==> !w.validators[v].slashed)
    && TotalBalance(w, voters) * 3 >= TotalActiveBalance(w) * 2
  }

  /** The run passes through state `w`. */
  ghost predicate OnRun(o: Origin, run: Run, w: State) {
    Exec(o, run) == Some(w) || (run != [] && OnRun(o, run[..|run| - 1], w))
  }

  ghost predicate Backs(h: seq<Block>, w: State, voters: set<nat>, source: Checkpoint, target: Checkpoint) {
    && Quorum(w, voters)
    && (forall v :: v in voters ==> Vote(h, v, source, target))
  }

  function ChainCheckpoint(o: Origin, run: Run, epoch: nat): Checkpoint {
    Checkpoint(epoch, AncestorAt(o.env, Blocks(o, run), StartSlot(epoch)))
  }

  /** A supermajority link: a quorum of a state met on the run voted for exactly this source and target. */
  ghost predicate Link(o: Origin, run: Run, source: Checkpoint, target: Checkpoint) {
    && Exec(o, run).Some?
    && source.epoch < target.epoch
    && StartSlot(target.epoch) < Exec(o, run).value.slot
    && target == ChainCheckpoint(o, run, target.epoch)
    && (exists w, voters :: OnRun(o, run, w) && Backs(Blocks(o, run), w, voters, source, target))
  }

  /** Reached from the genesis checkpoint by supermajority links. */
  ghost predicate Justified(o: Origin, run: Run, c: Checkpoint)
    decreases c.epoch
  {
    c == GENESIS_CHECKPOINT ||
    (exists source: Checkpoint :: source.epoch < c.epoch && Link(o, run, source, c) && Justified(o, run, source))
  }

  /** What a chain has to show for its votes: its links, what they justify, and its own checkpoints. */
  datatype Ledger = Ledger(links: iset<(Checkpoint, Checkpoint)>, justified: iset<Checkpoint>, chain: nat -> Checkpoint)

  ghost function LedgerOf(o: Origin, run: Run): Ledger {
    Ledger((iset s: Checkpoint, t: Checkpoint | Link(o, run, s, t) :: (s, t)),
           (iset c: Checkpoint | Justified(o, run, c)),
           (epoch: nat) => ChainCheckpoint(o, run, epoch))
  }

  /** Justified, with a link to a checkpoint one epoch later, or two epochs later past a justified one. */
  ghost predicate Finalized(l: Ledger, c: Checkpoint) {
    c == GENESIS_CHECKPOINT ||
    (&& c in l.justified
     && (|| (c, l.chain(c.epoch + 1)) in l.links
         || ((c, l.chain(c.epoch + 2)) in l.links && l.chain(c.epoch + 1) in l.justified)))
  }

  // ---------- votes and links survive every further step ----------

  lemma VoteExtends(h: seq<Block>, b: Block, v: nat, source: Checkpoint, target: Checkpoint)
    requires Vote(h, v, source, target)
    ensures Vote(h + [b], v, source, target)
  {
    var d :| Signed(h, v, d) && d.source == source && d.target == target;
    var k :| 0 <= k < |h| && Included(h[k].body.attestations, v, d);
    assert (h + [b])[k] == h[k];
    assert Signed(h + [b], v, d);
  }

  lemma ExecLast(o: Origin, run: Run, i: Input)
    requires Exec(o, run + [i]).Some?
    ensures Exec(o, run).Some? && Exec(o, run + [i]) == Step(o.env, Exec(o, run).value, i)
    ensures Blocks(o, run + [i]) == if i.Apply? then Blocks(o, run) + [i.block] else Blocks(o, run)
    ensures Exec(o, run).value.slot <= Exec(o, run + [i]).value.slot
  {
    assert (run + [i])[..|run + [i]| - 1] == run;
    if i.Apply? { ApplyBlockKeeps(o.env, Exec(o, run).value, i.block); }
  }

  lemma OnRunExtends(o: Origin, run: Run, i: Input, w: State)
    requires OnRun(o, run, w)
    ensures OnRun(o, run + [i], w)
  {
    assert (run + [i])[..|run + [i]| - 1] == run;
  }

  lemma CheckpointStays(o: Origin, run: Run, i: Input, epoch: nat)
    requires Exec(o, run + [i]).Some? && Exec(o, run).Some? && StartSlot(epoch) < Exec(o, run).value.slot
    ensures ChainCheckpoint(o, run + [i], epoch) == ChainCheckpoint(o, run, epoch)
  {
    ExecLast(o, run, i);
    if i.Apply? {
      ApplyBlockKeeps(o.env, Exec(o, run).value, i.block);
      AncestorAtExtended(o.env, Blocks(o, run), i.block, StartSlot(epoch));
    }
  }

  lemma LinkExtends(o: Origin, run: Run, i: Input, source: Checkpoint, target: Checkpoint)
    requires Link(o, run, source, target) && Exec(o, run + [i]).Some?
    ensures Link(o, run + [i], source, target)
  {
    ExecLast(o, run, i);
    CheckpointStays(o, run, i, target.epoch);
    var w, voters :| OnRun(o, run, w) && Backs(Blocks(o, run), w, voters, source, target);
    OnRunExtends(o, run, i, w);
    forall v | v in voters ensures Vote(Blocks(o, run + [i]), v, source, target) {
      if i.Apply? { VoteExtends(Blocks(o, run), i.block, v, source, target); }
    }
    assert Backs(Blocks(o, run + [i]), w, voters, source, target);
  }

  lemma {:induction false} JustifiedExtends(o: Origin, run: Run, i: Input, c: Checkpoint)
    requires Justified(o, run, c) && Exec(o, run + [i]).Some?
    ensures Justified(o, run + [i], c)
    decreases c.epoch
  {
    if c != GENESIS_CHECKPOINT {
      var source: Checkpoint :| source.epoch < c.epoch && Link(o, run, source, c) && Justified(o, run, source);
      LinkExtends(o, run, i, source, c);
      JustifiedExtends(o, run, i, source);
    }
  }

  // A justified checkpoint is the one its own chain has at that epoch, or genesis.
  lemma JustifiedOnChain(o: Origin, run: Run, c: Checkpoint)
    requires Justified(o, run, c) && c.epoch > 0
    ensures Exec(o, run).Some? && StartSlot(c.epoch) < Exec(o, run).value.slot && c == ChainCheckpoint(o, run, c.epoch)
  {
  }

  /** `m` still holds everything that `l` holds about checkpoints that have begun. */
  ghost predicate Grows(l: Ledger, m: Ledger) {
    && l.links <= m.links
    && l.justified <= m.justified
    && (forall c: Checkpoint, e: nat :: (c, l.chain(e)) in l.links ==> m.chain(e) == l.chain(e))
    && (forall e: nat :: e > 0 && l.chain(e) in l.justified ==> m.chain(e) == l.chain(e))
  }

  lemma LedgerGrows(o: Origin, run: Run, i: Input)
    requires Exec(o, run + [i]).Some?
    ensures Grows(LedgerOf(o, run), LedgerOf(o, run + [i]))
  {
    forall s: Checkpoint, t: Checkpoint | Link(o, run, s, t)
      ensures Link(o, run + [i], s, t) && ChainCheckpoint(o, run + [i], t.epoch) == t
    {
      LinkExtends(o, run, i, s, t);
    }
    forall c: Checkpoint | Justified(o, run, c)
      ensures Justified(o, run + [i], c) && (c.epoch > 0 ==> ChainCheckpoint(o, run + [i], c.epoch) == c)
    {
      JustifiedExtends(o, run, i, c);
      if c.epoch > 0 { JustifiedOnChain(o, run + [i], c); }
    }
  }

  // ---------- the invariant of one chain ----------

  ghost predicate VotesFor(env: Env, h: seq<Block>, participation: seq<Flags>, source: Checkpoint, epoch: nat)
    requires |h| > 0
  {
    forall v :: HasTarget(participation, v) ==>
      Vote(h, v, source, Checkpoint(epoch, AncestorAt(env, h, StartSlot(epoch))))
  }

  /** Every counted target vote of an epoch names the same source: the one in force during that epoch. */
  ghost predicate FlagsBacked(env: Env, h: seq<Block>, s: State, cur: nat)
    requires |h| > 0
  {
    && VotesFor(env, h, s.currentParticipation, s.currentJustified, cur)
    && (forall v :: HasTarget(s.currentParticipation, v) ==> StartSlot(cur) < s.slot)
    && (if cur > 0 then VotesFor(env, h, s.previousParticipation, s.previousJustified, cur - 1)
        else forall v :: !HasTarget(s.previousParticipation, v))
  }

  /** The bit of a justified epoch past genesis is set for as long as the window holds it. */
  ghost predicate Marked(bits: JustificationBits, justified: nat, epoch: nat) {
    forall i :: 0 <= i < 4 && justified > 0 && justified + 1 + i == epoch ==> bits[i]
  }

  /** The finality fields of `s` as they stand during `epoch`. */
  ghost predicate Standing(l: Ledger, s: State, epoch: nat) {
    && s.finalized.epoch <= s.previousJustified.epoch <= s.currentJustified.epoch
    && (s.currentJustified.epoch == 0 || s.currentJustified.epoch < epoch)
    && (s.previousJustified.epoch == 0 || s.previousJustified.epoch + 1 < epoch)
    && s.previousJustified in l.justified
    && s.currentJustified in l.justified
    && Finalized(l, s.finalized)
    && (forall i :: 0 <= i < 4 && s.bits[i] ==> i + 2 <= epoch && l.chain(epoch - 1 - i) in l.justified)
    && (s.bits[0] ==> (s.previousJustified, l.chain(epoch - 1)) in l.links)
    && Marked(s.bits, s.previousJustified.epoch, epoch) && Marked(s.bits, s.currentJustified.epoch, epoch)
  }

  lemma StandingGrows(l: Ledger, m: Ledger, s: State, epoch: nat)
    requires Standing(l, s, epoch) && Grows(l, m)
    ensures Standing(m, s, epoch)
  {
  }

  lemma StandingSame(l: Ledger, s: State, t: State, epoch: nat)
    requires Standing(l, s, epoch) && t == WithFinality(t, s)
    ensures Standing(l, t, epoch)
  {
  }

  // ---------- weighing ----------

  predicate Supermajority(s: State, participation: seq<Flags>, epoch: nat) {
    TotalBalance(s, TargetParticipants(s, participation, epoch)) * 3 >= TotalActiveBalance(s) * 2
  }

  /** What weighing in epoch `cur` does to the finality fields, rule by rule, when `previous` and
      `current` are the passing checkpoints of the two epochs. */
  ghost predicate Rules(s: State, j: State, cur: nat, previous: Option<Checkpoint>, current: Option<Checkpoint>) {
    && cur >= 2
    && j.previousJustified == s.currentJustified
    && j.bits == [current.Some?, s.bits[0] || previous.Some?, s.bits[1], s.bits[2]]
    && j.currentJustified == (if current.Some? then current.value else if previous.Some? then previous.value
                              else s.currentJustified)
    && (|| j.finalized == s.finalized
        || (j.finalized == s.currentJustified && j.bits[0] && j.bits[1] &&
            (s.currentJustified.epoch + 1 == cur || s.currentJustified.epoch + 2 == cur))
        || (j.finalized == s.previousJustified && j.bits[1] && j.bits[2] &&
            (s.previousJustified.epoch + 2 == cur || s.previousJustified.epoch + 3 == cur)))
  }

  function Passing(s: State, participation: seq<Flags>, epoch: nat): Option<Checkpoint> {
    if Supermajority(s, participation, epoch) && GetBlockRoot(s, epoch).Some? then
      Some(Checkpoint(epoch, GetBlockRoot(s, epoch).value))
    else
      None
  }

  lemma WeighingMeetsRules(s: State)
    requires CurrentEpoch(s) >= 2 && ProcessJustificationAndFinalization(s).Some?
    ensures Rules(s, ProcessJustificationAndFinalization(s).value, CurrentEpoch(s),
                  Passing(s, s.previousParticipation, CurrentEpoch(s) - 1),
                  Passing(s, s.currentParticipation, CurrentEpoch(s)))
  {
  }

  ghost predicate Closed(l: Ledger) {
    && GENESIS_CHECKPOINT in l.justified
    && (forall s: Checkpoint, t: Checkpoint :: (s, t) in l.links && s in l.justified ==> t in l.justified)
    && (forall e: nat :: l.chain(e).epoch == e)
  }

  /** A checkpoint that passes is the chain's own at `epoch`, linked from `source`. */
  ghost predicate LinkTo(l: Ledger, source: Checkpoint, epoch: nat, passing: Option<Checkpoint>) {
    passing.Some? ==> passing.value == l.chain(epoch) && (source, passing.value) in l.links
  }

  /** The passing checkpoints are the chain's own, linked from the sources in force. */
  ghost predicate FreshLinks(l: Ledger, s: State, cur: nat, previous: Option<Checkpoint>, current: Option<Checkpoint>) {
    cur >= 2 && LinkTo(l, s.currentJustified, cur, current) && LinkTo(l, s.previousJustified, cur - 1, previous)
  }

  /** Weighing keeps the standing, for the epoch that follows: each of the four rules finalizes
      only a justified checkpoint that starts a supermajority link. */
  lemma WeighingKeepsStanding(l: Ledger, s: State, j: State, cur: nat, previous: Option<Checkpoint>, current: Option<Checkpoint>)
    requires Closed(l) && Standing(l, s, cur) && FreshLinks(l, s, cur, previous, current)
    requires Rules(s, j, cur, previous, current)
    ensures Standing(l, j, cur + 1)
  {
    assert j.bits[1] ==> (s.previousJustified, l.chain(cur - 1)) in l.links && l.chain(cur - 1) in l.justified;
    assert j.bits[2] ==> l.chain(cur - 2) in l.justified by { assert j.bits[2] == s.bits[1]; }
    assert j.bits[3] ==> l.chain(cur - 3) in l.justified by { assert j.bits[3] == s.bits[2]; }
    assert Finalized(l, j.finalized);
  }

  // ---------- every state of every run ----------

  ghost predicate FinalityInvariant(o: Origin, run: Run, s: State) {
    && Exec(o, run) == Some(s)
    && ChainInvariant(o, Blocks(o, run), s)
    && FlagsBacked(o.env, Blocks(o, run), s, CurrentEpoch(s))
    && Standing(LedgerOf(o, run), s, CurrentEpoch(s))
  }

  lemma LedgerClosed(o: Origin, run: Run)
    ensures Closed(LedgerOf(o, run))
  {
    var l := LedgerOf(o, run);
    forall s: Checkpoint, t: Checkpoint | (s, t) in l.links && s in l.justified
      ensures t in l.justified
    {
      assert Link(o, run, s, t) && Justified(o, run, s);
    }
  }

  /** The root that the state has for `epoch` is the chain's own. */
  ghost predicate OwnRoot(o: Origin, run: Run, s: State, epoch: nat) {
    GetBlockRoot(s, epoch).Some? ==>
      StartSlot(epoch) < s.slot && Checkpoint(epoch, GetBlockRoot(s, epoch).value) == ChainCheckpoint(o, run, epoch)
  }

  lemma RootIsOwn(o: Origin, run: Run, s: State, epoch: nat)
    requires ChainInvariant(o, Blocks(o, run), s) && o.block.slot == 0
    ensures OwnRoot(o, run, s, epoch)
  {
  }

  /** Flagged participants that pass the weighing are a supermajority link to the chain's own checkpoint. */
  lemma PassingIsLink(o: Origin, run: Run, s: State, participation: seq<Flags>, epoch: nat, source: Checkpoint)
    requires Exec(o, run) == Some(s) && OwnRoot(o, run, s, epoch)
    requires (epoch == CurrentEpoch(s) || epoch == PreviousEpoch(s)) && source.epoch < epoch
    requires VotesFor(o.env, Blocks(o, run), participation, source, epoch)
    ensures LinkTo(LedgerOf(o, run), source, epoch, Passing(s, participation, epoch))
  {
    if Passing(s, participation, epoch).Some? {
      var voters := TargetParticipants(s, participation, epoch);
      assert Quorum(s, voters) && OnRun(o, run, s);
      assert Backs(Blocks(o, run), s, voters, source, ChainCheckpoint(o, run, epoch));
      assert Link(o, run, source, ChainCheckpoint(o, run, epoch));
    }
  }

  /** The sources in force, and that all counted votes of the two epochs name them. */
  ghost predicate SourcesInForce(o: Origin, run: Run, s: State, cur: nat) {
    && cur == CurrentEpoch(s) >= 2 && s.previousJustified.epoch < cur - 1 && s.currentJustified.epoch < cur
    && OwnRoot(o, run, s, cur - 1) && OwnRoot(o, run, s, cur)
    && VotesFor(o.env, Blocks(o, run), s.previousParticipation, s.previousJustified, cur - 1)
    && VotesFor(o.env, Blocks(o, run), s.currentParticipation, s.currentJustified, cur)
  }

  lemma SourcesKnown(o: Origin, run: Run, s: State)
    requires FinalityInvariant(o, run, s) && o.block.slot == 0 && CurrentEpoch(s) >= 2
    ensures SourcesInForce(o, run, s, CurrentEpoch(s))
  {
    RootIsOwn(o, run, s, CurrentEpoch(s) - 1);
    RootIsOwn(o, run, s, CurrentEpoch(s));
  }

  lemma RulesKeepStanding(o: Origin, run: Run, s: State, j: State, cur: nat, previous: Option<Checkpoint>, current: Option<Checkpoint>)
    requires Standing(LedgerOf(o, run), s, cur) && FreshLinks(LedgerOf(o, run), s, cur, previous, current)
    requires Rules(s, j, cur, previous, current)
    ensures Standing(LedgerOf(o, run), j, cur + 1)
  {
    LedgerClosed(o, run);
    WeighingKeepsStanding(LedgerOf(o, run), s, j, cur, previous, current);
  }

  /** A weighing follows the rules, on links that the chain has to show. */
  lemma WeighingLinks(o: Origin, run: Run, s: State, j: State, cur: nat) returns (previous: Option<Checkpoint>, current: Option<Checkpoint>)
    requires Exec(o, run) == Some(s) && SourcesInForce(o, run, s, cur)
    requires ProcessJustificationAndFinalization(s) == Some(j)
    ensures Rules(s, j, cur, previous, current) && FreshLinks(LedgerOf(o, run), s, cur, previous, current)
  {
    previous, current := Passing(s, s.previousParticipation, cur - 1), Passing(s, s.currentParticipation, cur);
    WeighingMeetsRules(s);
    PassingIsLink(o, run, s, s.previousParticipation, cur - 1, s.previousJustified);
    PassingIsLink(o, run, s, s.currentParticipation, cur, s.currentJustified);
  }

  lemma WeighedStanding(o: Origin, run: Run, s: State, j: State, cur: nat)
    requires Exec(o, run) == Some(s) && SourcesInForce(o, run, s, cur) && Standing(LedgerOf(o, run), s, cur)
    requires ProcessJustificationAndFinalization(s) == Some(j)
    ensures Standing(LedgerOf(o, run), j, cur + 1) && FinalityAtMost(s, j)
  {
    var previous, current := WeighingLinks(o, run, s, j, cur);
    RulesKeepStanding(o, run, s, j, cur, previous, current);
    LedgerClosed(o, run);
    RulesNeverLower(LedgerOf(o, run), s, j, cur, previous, current);
  }

  /** Pulling a state up, at the end of its epoch or before, leaves its finality fields backed by links. */
  lemma JustificationKeepsStanding(o: Origin, run: Run, s: State, j: State)
    requires FinalityInvariant(o, run, s) && o.block.slot == 0
    requires ProcessJustificationAndFinalization(s) == Some(j)
    ensures Standing(LedgerOf(o, run), j, CurrentEpoch(s) + 1)
  {
    if CurrentEpoch(s) >= 2 {
      SourcesKnown(o, run, s);
      WeighedStanding(o, run, s, j, CurrentEpoch(s));
    } else {
      EarlyStanding(LedgerOf(o, run), s, CurrentEpoch(s));
    }
  }

  lemma EarlyStanding(l: Ledger, s: State, epoch: nat)
    requires Standing(l, s, epoch) && epoch <= 1
    ensures Standing(l, s, epoch + 1)
  {
  }

  // In the first two epochs nothing is weighed and only the genesis checkpoint is in force.
  lemma GenesisSources(o: Origin, run: Run, s: State)
    requires Standing(LedgerOf(o, run), s, CurrentEpoch(s)) && CurrentEpoch(s) <= 1
    ensures s.previousJustified == s.currentJustified == GENESIS_CHECKPOINT
  {
    assert Justified(o, run, s.previousJustified) && Justified(o, run, s.currentJustified);
  }

  lemma SourceInForce(o: Origin, run: Run, s: State, j: State)
    requires FinalityInvariant(o, run, s) && ProcessJustificationAndFinalization(s) == Some(j)
    ensures j.previousJustified == s.currentJustified
  {
    if CurrentEpoch(s) <= 1 { GenesisSources(o, run, s); } else { WeighingMeetsRules(s); }
  }

  lemma NextEpochFlags(env: Env, h: seq<Block>, s: State, t: State, cur: nat)
    requires |h| > 0 && FlagsBacked(env, h, s, cur)
    requires t.previousParticipation == s.currentParticipation && t.previousJustified == s.currentJustified
    requires forall v :: !HasTarget(t.currentParticipation, v)
    ensures FlagsBacked(env, h, t, cur + 1)
  {
  }

  lemma SameLedger(o: Origin, run: Run, s: State)
    requires Exec(o, run) == Some(s) && AdvanceSlot(o.env, s).Some?
    ensures Exec(o, run + [NextSlot]) == AdvanceSlot(o.env, s)
    ensures Blocks(o, run + [NextSlot]) == Blocks(o, run)
    ensures Grows(LedgerOf(o, run), LedgerOf(o, run + [NextSlot]))
  {
    assert (run + [NextSlot])[..|run|] == run;
    LedgerGrows(o, run, NextSlot);
  }

  lemma NextSlotKeeps(env: Env, h: seq<Block>, l: Ledger, s: State, j: State, t: State)
    requires |h| > 0 && FlagsBacked(env, h, s, CurrentEpoch(s)) && Standing(l, s, CurrentEpoch(s)) && SlotStep(s, j, t)
    requires (s.slot + 1) % SLOTS_PER_EPOCH == 0 ==>
      j.previousJustified == s.currentJustified && Standing(l, j, CurrentEpoch(s) + 1)
    ensures FlagsBacked(env, h, t, CurrentEpoch(t))
    ensures Standing(l, t, CurrentEpoch(t))
  {
    if (s.slot + 1) % SLOTS_PER_EPOCH == 0 {
      NextEpochFlags(env, h, s, t, CurrentEpoch(s));
    }
  }

  lemma AdvanceKeeps(o: Origin, run: Run, s: State)
    requires FinalityInvariant(o, run, s) && GenesisOrigin(o)
    ensures AdvanceSlot(o.env, s).Some? && FinalityInvariant(o, run + [NextSlot], AdvanceSlot(o.env, s).value)
  {
    var j := AdvanceSlotShape(o.env, s);
    var t := AdvanceSlot(o.env, s).value;
    if (s.slot + 1) % SLOTS_PER_EPOCH == 0 {
      SourceInForce(o, run, s, j);
      JustificationKeepsStanding(o, run, s, j);
    }
    NextSlotKeeps(o.env, Blocks(o, run), LedgerOf(o, run), s, j, t);
    AdvanceSlotInvariant(o, Blocks(o, run), s);
    SameLedger(o, run, s);
    StandingGrows(LedgerOf(o, run), LedgerOf(o, run + [NextSlot]), t, CurrentEpoch(t));
  }

  // ---------- blocks ----------

  ghost predicate VotesIn(atts: seq<Attestation>, v: nat, source: Checkpoint, target: Checkpoint) {
    exists d :: Included(atts, v, d) && d.source == source && d.target == target
  }

  /** Every target flag of `after` was there `before` or is set by `a`, for `source` and the state's own root. */
  ghost predicate FlagsFrom(s: State, a: Attestation, before: seq<Flags>, after: seq<Flags>, source: Checkpoint, epoch: nat) {
    forall v :: HasTarget(after, v) ==>
      || HasTarget(before, v)
      || (v in a.attesters && a.data.source == source && a.data.target.epoch == epoch && GetBlockRoot(s, epoch) == Some(a.data.target.root))
  }

  // A target flag set by one attestation carries its vote, checked against the state's own roots.
  lemma AttestationFlags(env: Env, s: State, a: Attestation, t: State)
    requires ProcessAttestation(env, s, a) == Some(t)
    ensures FlagsFrom(s, a, s.currentParticipation, t.currentParticipation, s.currentJustified, CurrentEpoch(s))
    ensures if CurrentEpoch(s) > 0 then
        FlagsFrom(s, a, s.previousParticipation, t.previousParticipation, s.previousJustified, CurrentEpoch(s) - 1)
      else
        t.previousParticipation == s.previousParticipation
  {
  }

  /** `v` votes in `atts` for the block root that `s` has at `epoch`. */
  ghost predicate VotesForRoot(s: State, atts: seq<Attestation>, v: nat, source: Checkpoint, epoch: nat) {
    GetBlockRoot(s, epoch).Some? && VotesIn(atts, v, source, Checkpoint(epoch, GetBlockRoot(s, epoch).value))
  }

  /** Every target flag of `after` was there `before` or comes from such a vote. */
  ghost predicate FlagsJoin(s: State, atts: seq<Attestation>, before: seq<Flags>, after: seq<Flags>, source: Checkpoint, epoch: nat) {
    forall v :: HasTarget(after, v) ==> HasTarget(before, v) || VotesForRoot(s, atts, v, source, epoch)
  }

  lemma MoreVotes(s: State, atts: seq<Attestation>, a: Attestation, v: nat, source: Checkpoint, epoch: nat)
    requires VotesForRoot(s, atts, v, source, epoch)
    ensures VotesForRoot(s, atts + [a], v, source, epoch)
  {
    assert forall d :: Included(atts, v, d) ==> Included(atts + [a], v, d);
  }

  lemma LastVote(s: State, atts: seq<Attestation>, a: Attestation, v: nat, epoch: nat)
    requires v in a.attesters && a.data.target.epoch == epoch && GetBlockRoot(s, epoch) == Some(a.data.target.root)
    ensures VotesForRoot(s, atts + [a], v, a.data.source, epoch)
  {
    assert a in atts + [a];
    assert Included(atts + [a], v, a.data);
  }

  // Flags join flags, one attestation at a time.
  lemma FlagsJoinMore(s: State, m: State, atts: seq<Attestation>, a: Attestation, before: seq<Flags>, mid: seq<Flags>, after: seq<Flags>,
                      source: Checkpoint, epoch: nat)
    requires FlagsJoin(s, atts, before, mid, source, epoch) && FlagsFrom(m, a, mid, after, source, epoch)
    requires m.slot == s.slot && m.blockRoots == s.blockRoots
    ensures FlagsJoin(s, atts + [a], before, after, source, epoch)
  {
    forall v | HasTarget(after, v) && !HasTarget(before, v) ensures VotesForRoot(s, atts + [a], v, source, epoch) {
      if HasTarget(mid, v) { MoreVotes(s, atts, a, v, source, epoch); } else { LastVote(s, atts, a, v, epoch); }
    }
  }

  /** The target flags of `t` are those of `s` and those that votes in `atts` set, for the sources in force. */
  ghost predicate FlagsOfBlock(s: State, atts: seq<Attestation>, t: State) {
    && FlagsJoin(s, atts, s.currentParticipation, t.currentParticipation, s.currentJustified, CurrentEpoch(s))
    && (if CurrentEpoch(s) > 0 then
          FlagsJoin(s, atts, s.previousParticipation, t.previousParticipation, s.previousJustified, CurrentEpoch(s) - 1)
        else
          forall v :: HasTarget(t.previousParticipation, v) ==> HasTarget(s.previousParticipation, v))
  }

  lemma OneMoreAttestation(env: Env, s: State, atts: seq<Attestation>, m: State, a: Attestation, t: State)
    requires m == s.(previousParticipation := m.previousParticipation, currentParticipation := m.currentParticipation)
    requires FlagsOfBlock(s, atts, m) && ProcessAttestation(env, m, a) == Some(t)
    ensures FlagsOfBlock(s, atts + [a], t)
  {
    AttestationFlags(env, m, a, t);
    FlagsJoinMore(s, m, atts, a, s.currentParticipation, m.currentParticipation, t.currentParticipation, s.currentJustified, CurrentEpoch(s));
    if CurrentEpoch(s) > 0 {
      FlagsJoinMore(s, m, atts, a, s.previousParticipation, m.previousParticipation, t.previousParticipation,
                    s.previousJustified, CurrentEpoch(s) - 1);
    }
  }

  lemma {:induction false} BlockFlags(env: Env, s: State, atts: seq<Attestation>, t: State)
    requires ProcessAttestations(env, s, atts) == Some(t)
    ensures FlagsOfBlock(s, atts, t)
  {
    if atts != [] {
      var init, a := atts[..|atts| - 1], atts[|atts| - 1];
      var m := ProcessAttestations(env, s, init).value;
      AttestationsKeep(env, s, init);
      BlockFlags(env, s, init, m);
      OneMoreAttestation(env, s, init, m, a, t);
      assert init + [a] == atts;
    }
  }

  lemma PaddedFlags(p: seq<Flags>, n: nat, v: nat)
    requires HasTarget(Padded(p, n), v)
    ensures HasTarget(p, v)
  {
  }

  lemma FlagsJoinPadded(s: State, s2: State, atts: seq<Attestation>, before: seq<Flags>, after: seq<Flags>, n: nat, source: Checkpoint, epoch: nat)
    requires s.slot == s2.slot && s.blockRoots == s2.blockRoots && FlagsJoin(s2, atts, before, after, source, epoch)
    ensures FlagsJoin(s, atts, before, Padded(after, n), source, epoch)
  {
    forall v | HasTarget(Padded(after, n), v) ensures HasTarget(before, v) || VotesForRoot(s, atts, v, source, epoch) {
      PaddedFlags(after, n, v);
    }
  }

  // What a block does before and after its attestations adds no target flag.
  lemma FlagsCarryOver(s: State, s2: State, s3: State, t: State, atts: seq<Attestation>, n: nat)
    requires FlagsOfBlock(s2, atts, s3)
    requires s2 == s.(header := s2.header, validators := s2.validators, rest := s2.rest)
    requires t.currentParticipation == Padded(s3.currentParticipation, n) && t.previousParticipation == Padded(s3.previousParticipation, n)
    ensures FlagsOfBlock(s, atts, t)
  {
    FlagsJoinPadded(s, s2, atts, s.currentParticipation, s3.currentParticipation, n, s.currentJustified, CurrentEpoch(s));
    if CurrentEpoch(s) > 0 {
      FlagsJoinPadded(s, s2, atts, s.previousParticipation, s3.previousParticipation, n, s.previousJustified, CurrentEpoch(s) - 1);
    } else {
      forall v | HasTarget(t.previousParticipation, v) ensures HasTarget(s.previousParticipation, v) {
        PaddedFlags(s3.previousParticipation, n, v);
      }
    }
  }

  lemma ApplyBlockFlags(env: Env, s: State, b: Block, t: State)
    requires ApplyBlock(env, s, b) == Some(t)
    ensures FlagsOfBlock(s, b.body.attestations, t)
  {
    var s1 := ProcessBlockHeader(env, s, b).value;
    var (validators1, rest1) := env.beforeAttestations(s1, b).value;
    var s2 := s1.(validators := validators1, rest := rest1);
    var s3 := ProcessAttestations(env, s2, b.body.attestations).value;
    BlockFlags(env, s2, b.body.attestations, s3);
    FlagsCarryOver(s, s2, s3, t, b.body.attestations, |t.validators|);
  }

  lemma VoteInBlock(h: seq<Block>, b: Block, v: nat, source: Checkpoint, target: Checkpoint)
    requires VotesIn(b.body.attestations, v, source, target)
    ensures Vote(h + [b], v, source, target)
  {
    var d :| Included(b.body.attestations, v, d) && d.source == source && d.target == target;
    assert (h + [b])[|h|] == b;
    assert Signed(h + [b], v, d);
  }

  // Votes of the block, with the ring's root as target, join those of the chain.
  lemma VotesJoin(env: Env, h: seq<Block>, b: Block, s: State, before: seq<Flags>, after: seq<Flags>, source: Checkpoint, epoch: nat)
    requires |h| > 0 && h[0].slot == 0 && RingAgrees(env, h, s) && b.slot == s.slot
    requires VotesFor(env, h, before, source, epoch)
    requires StartSlot(epoch) >= s.slot ==> forall v :: !HasTarget(before, v)
    requires FlagsJoin(s, b.body.attestations, before, after, source, epoch)
    ensures VotesFor(env, h + [b], after, source, epoch)
    ensures StartSlot(epoch) >= s.slot ==> forall v :: !HasTarget(after, v)
  {
    if StartSlot(epoch) < s.slot {
      AncestorAtExtended(env, h, b, StartSlot(epoch));
      var target := Checkpoint(epoch, AncestorAt(env, h, StartSlot(epoch)));
      forall v | HasTarget(after, v) ensures Vote(h + [b], v, source, target) {
        if HasTarget(before, v) { VoteExtends(h, b, v, source, target); } else { VoteInBlock(h, b, v, source, target); }
      }
    }
  }

  lemma FlagsStayBacked(env: Env, h: seq<Block>, s: State, b: Block, t: State, cur: nat)
    requires |h| > 0 && h[0].slot == 0 && RingAgrees(env, h, s) && b.slot == s.slot == t.slot && cur == CurrentEpoch(s)
    requires t.currentJustified == s.currentJustified && t.previousJustified == s.previousJustified
    requires FlagsBacked(env, h, s, cur) && FlagsOfBlock(s, b.body.attestations, t)
    ensures FlagsBacked(env, h + [b], t, cur)
  {
    VotesJoin(env, h, b, s, s.currentParticipation, t.currentParticipation, s.currentJustified, cur);
    if cur > 0 {
      VotesJoin(env, h, b, s, s.previousParticipation, t.previousParticipation, s.previousJustified, cur - 1);
    }
  }

  lemma BlockKeepsFlags(o: Origin, h: seq<Block>, s: State, b: Block, t: State)
    requires ChainInvariant(o, h, s) && o.block.slot == 0 && ApplyBlock(o.env, s, b) == Some(t)
    requires FlagsBacked(o.env, h, s, CurrentEpoch(s))
    ensures FlagsBacked(o.env, h + [b], t, CurrentEpoch(s))
  {
    ApplyBlockKeeps(o.env, s, b);
    ApplyBlockFlags(o.env, s, b, t);
    FlagsStayBacked(o.env, h, s, b, t, CurrentEpoch(s));
  }

  lemma ApplyKeeps(o: Origin, run: Run, s: State, b: Block, t: State)
    requires FinalityInvariant(o, run, s) && GenesisOrigin(o) && ApplyBlock(o.env, s, b) == Some(t)
    ensures FinalityInvariant(o, run + [Apply(b)], t)
  {
    assert (run + [Apply(b)])[..|run|] == run;
    ApplyBlockKeeps(o.env, s, b);
    ApplyBlockInvariant(o, Blocks(o, run), s, b);
    BlockKeepsFlags(o, Blocks(o, run), s, b, t);
    LedgerGrows(o, run, Apply(b));
    StandingSame(LedgerOf(o, run), s, t, CurrentEpoch(s));
    StandingGrows(LedgerOf(o, run), LedgerOf(o, run + [Apply(b)]), t, CurrentEpoch(t));
  }

  lemma GenesisFinality(o: Origin)
    requires GenesisOrigin(o)
    ensures FinalityInvariant(o, [], o.state)
  {
    OriginInvariant(o);
    assert Justified(o, [], GENESIS_CHECKPOINT);
  }

  lemma StepFinality(o: Origin, run: Run, i: Input, s: State, t: State)
    requires GenesisOrigin(o) && FinalityInvariant(o, run, s) && Step(o.env, s, i) == Some(t)
    ensures FinalityInvariant(o, run + [i], t)
  {
    match i
    case NextSlot => AdvanceKeeps(o, run, s);
    case Apply(b) => ApplyKeeps(o, run, s, b, t);
  }

  /** Every state of every run from genesis: flags stand for votes, and justified and finalized
      checkpoints for supermajority links. */
  lemma {:induction false} RunFinality(o: Origin, run: Run)
    requires GenesisOrigin(o) && Exec(o, run).Some?
    ensures FinalityInvariant(o, run, Exec(o, run).value)
  {
    if run == [] {
      GenesisFinality(o);
    } else {
      var before, i := run[..|run| - 1], run[|run| - 1];
      RunFinality(o, before);
      StepFinality(o, before, i, Exec(o, before).value, Exec(o, run).value);
      assert before + [i] == run;
    }
  }

  /** When weighing finalizes, exactly: the old justified checkpoint if the current epoch passes right after
      it, or one later with the epoch between justified; else the one before, by the same two distances from
      the previous epoch. The bit of the finalized checkpoint itself never decides. */
  lemma FinalizesExactly(o: Origin, run: Run, s: State, j: State)
    requires GenesisOrigin(o) && Exec(o, run) == Some(s) && CurrentEpoch(s) >= 2
    requires ProcessJustificationAndFinalization(s) == Some(j)
    ensures var cur := CurrentEpoch(s);
      var current := Passing(s, s.currentParticipation, cur).Some?;
      var previous := s.bits[0] || Passing(s, s.previousParticipation, cur - 1).Some?;
      var justified, older := s.currentJustified, s.previousJustified;
      j.finalized ==
        if current && (justified.epoch + 1 == cur || (justified.epoch + 2 == cur && previous)) then justified
        else if previous && (older.epoch + 2 == cur || (older.epoch + 3 == cur && s.bits[1])) then older
        else s.finalized
  {
    RunFinality(o, run);
    FinalizedByRules(s, j);
    GenesisStaysFinal(o, run, s);
    RulesDecide(s.bits, s.previousJustified, s.currentJustified, s.finalized, CurrentEpoch(s),
                Passing(s, s.previousParticipation, CurrentEpoch(s) - 1).Some?,
                Passing(s, s.currentParticipation, CurrentEpoch(s)).Some?);
  }

  lemma FinalizedByRules(s: State, j: State)
    requires CurrentEpoch(s) >= 2 && ProcessJustificationAndFinalization(s) == Some(j)
    ensures var previous := Passing(s, s.previousParticipation, CurrentEpoch(s) - 1).Some?;
      var current := Passing(s, s.currentParticipation, CurrentEpoch(s)).Some?;
      j.finalized == FinalizedBy([current, s.bits[0] || previous, s.bits[1], s.bits[2]],
                                 s.previousJustified, s.currentJustified, CurrentEpoch(s), s.finalized)
  {
  }

  lemma GenesisStaysFinal(o: Origin, run: Run, s: State)
    requires Standing(LedgerOf(o, run), s, CurrentEpoch(s))
    ensures s.previousJustified.epoch == 0 ==> s.finalized == s.previousJustified
    ensures s.currentJustified.epoch == 0 ==> s.finalized == s.currentJustified
  {
    assert Justified(o, run, s.previousJustified) && Justified(o, run, s.currentJustified);
    assert s.finalized == GENESIS_CHECKPOINT || Justified(o, run, s.finalized);
  }

  lemma RulesDecide(bits: JustificationBits, older: Checkpoint, justified: Checkpoint, finalized: Checkpoint, cur: nat,
                    previous: bool, current: bool)
    requires Marked(bits, older.epoch, cur) && Marked(bits, justified.epoch, cur)
    requires older.epoch == 0 ==> finalized == older
    requires justified.epoch == 0 ==> finalized == justified == older
    ensures FinalizedBy([current, bits[0] || previous, bits[1], bits[2]], older, justified, cur, finalized) ==
      if current && (justified.epoch + 1 == cur || (justified.epoch + 2 == cur && (bits[0] || previous))) then justified
      else if (bits[0] || previous) && (older.epoch + 2 == cur || (older.epoch + 3 == cur && bits[1])) then older
      else finalized
  {
    var b: JustificationBits := [current, bits[0] || previous, bits[1], bits[2]];
    assert AllSet(b, 0, 2) == (b[0] && b[1]) && AllSet(b, 0, 3) == (b[0] && b[1] && b[2]);
    assert AllSet(b, 1, 3) == (b[1] && b[2]) && AllSet(b, 1, 4) == (b[1] && b[2] && b[3]);
  }

  /** What the flags of an accepted vote mean on its chain: the target flag that it names the chain's own
      checkpoint, the head flag that it also names the chain's block of its slot, one slot later. */
  lemma FlagsExactly(o: Origin, run: Run, s: State, data: AttestationData, delay: nat)
    requires ValidOrigin(o) && Exec(o, run) == Some(s) && ParticipationFlags(s, data, delay).Some?
    requires o.block.slot <= StartSlot(data.target.epoch) && o.block.slot <= data.slot
    ensures var f, h := ParticipationFlags(s, data, delay).value, Blocks(o, run);
      && data.source == (if data.target.epoch == CurrentEpoch(s) then s.currentJustified else s.previousJustified)
      && (f.source <==> delay <= TIMELY_SOURCE_DELAY)
      && (f.target <==> data.target == ChainCheckpoint(o, run, data.target.epoch))
      && (f.head <==> f.target && data.beaconBlockRoot == AncestorAt(o.env, h, data.slot) && delay == 1)
  {
    RunInvariant(o, run);
  }

  // ---------- order of the checkpoints ----------

  predicate FinalityAtMost(s: State, t: State) {
    && s.finalized.epoch <= t.finalized.epoch
    && s.previousJustified.epoch <= t.previousJustified.epoch
    && s.currentJustified.epoch <= t.currentJustified.epoch
  }

  lemma RulesNeverLower(l: Ledger, s: State, j: State, cur: nat, previous: Option<Checkpoint>, current: Option<Checkpoint>)
    requires Closed(l) && Standing(l, s, cur) && FreshLinks(l, s, cur, previous, current) && Rules(s, j, cur, previous, current)
    ensures FinalityAtMost(s, j)
  {
  }

  lemma JustificationNeverLowers(o: Origin, run: Run, s: State, j: State)
    requires FinalityInvariant(o, run, s) && o.block.slot == 0 && ProcessJustificationAndFinalization(s) == Some(j)
    ensures FinalityAtMost(s, j)
  {
    if CurrentEpoch(s) >= 2 {
      SourcesKnown(o, run, s);
      WeighedStanding(o, run, s, j, CurrentEpoch(s));
    }
  }

  lemma AdvanceNeverLowers(o: Origin, run: Run, s: State)
    requires FinalityInvariant(o, run, s) && o.block.slot == 0
    ensures AdvanceSlot(o.env, s).Some? && FinalityAtMost(s, AdvanceSlot(o.env, s).value)
  {
    var j := AdvanceSlotShape(o.env, s);
    if (s.slot + 1) % SLOTS_PER_EPOCH == 0 { JustificationNeverLowers(o, run, s, j); }
  }

  lemma StepNeverLowers(o: Origin, run: Run, i: Input)
    requires GenesisOrigin(o) && Exec(o, run + [i]).Some?
    ensures Exec(o, run).Some? && FinalityAtMost(Exec(o, run).value, Exec(o, run + [i]).value)
  {
    ExecLast(o, run, i);
    RunFinality(o, run);
    var s := Exec(o, run).value;
    match i
    case Apply(b) => ApplyBlockKeeps(o.env, s, b);
    case NextSlot => AdvanceNeverLowers(o, run, s);
  }

  /** Over every run the three checkpoints never fall. */
  lemma {:induction false} FinalityNeverFalls(o: Origin, run: Run, more: Run)
    requires GenesisOrigin(o) && Exec(o, run + more).Some?
    ensures Exec(o, run).Some? && FinalityAtMost(Exec(o, run).value, Exec(o, run + more).value)
    decreases |more|
  {
    if more == [] {
      assert run + more == run;
    } else {
      var init, i := more[..|more| - 1], more[|more| - 1];
      assert (run + init) + [i] == run + more;
      StepNeverLowers(o, run + init, i);
      FinalityNeverFalls(o, run, init);
    }
  }

  /** In every state: finalized <= previous justified <= current justified <= current epoch, all three
      reached by supermajority links, and the finalized one the source of a further link. */
  lemma CheckpointsBacked(o: Origin, run: Run)
    requires GenesisOrigin(o) && Exec(o, run).Some?
    ensures var s := Exec(o, run).value;
      && s.finalized.epoch <= s.previousJustified.epoch <= s.currentJustified.epoch <= CurrentEpoch(s)
      && Justified(o, run, s.previousJustified) && Justified(o, run, s.currentJustified)
      && Finalized(LedgerOf(o, run), s.finalized)
  {
    RunFinality(o, run);
  }

  // ---------- when pulling up a tip fails ----------

  lemma {:induction false} SumOverNone(weights: seq<nat>, s: set<nat>)
    requires forall i :: 0 <= i < |weights| ==> i !in s
    ensures SumOver(weights, s) == 0
  {
    if weights != [] { SumOverNone(weights[..|weights| - 1], s); }
  }

  /** No vote of the origin's own epoch has been counted yet: its first slot has just begun. */
  ghost predicate UnflaggedOrigin(o: Origin) {
    ValidOrigin(o) && forall v :: !HasTarget(o.state.currentParticipation, v)
  }

  /** In the first slot of an epoch no vote for that epoch is counted, with or without a block in it. */
  lemma {:induction false} FirstSlotUnflagged(o: Origin, run: Run, v: nat)
    requires UnflaggedOrigin(o) && Exec(o, run).Some? && Exec(o, run).value.slot % SLOTS_PER_EPOCH == 0
    ensures !HasTarget(Exec(o, run).value.currentParticipation, v)
  {
    if run != [] {
      var before, i := run[..|run| - 1], run[|run| - 1];
      var s := Exec(o, before).value;
      match i
      case NextSlot => var j := AdvanceSlotShape(o.env, s);
      case Apply(b) =>
        ApplyBlockKeeps(o.env, s, b);
        ApplyBlockFlags(o.env, s, b, Exec(o, run).value);
        FirstSlotUnflagged(o, before, v);
    }
  }

  /** Weighing a state before the end of its epoch asks for a root the ring does not hold yet exactly in
      the first slot of an epoch, and then only when the stake is within one and a half increments. */
  lemma PullUpFailsExactly(o: Origin, run: Run, s: State)
    requires UnflaggedOrigin(o) && Exec(o, run) == Some(s)
    ensures ProcessJustificationAndFinalization(s).None? <==>
      && CurrentEpoch(s) >= 2 && s.slot % SLOTS_PER_EPOCH == 0
      && SumOver(Balances(s.validators), ActiveIndices(s, CurrentEpoch(s))) * 2 <= EFFECTIVE_BALANCE_INCREMENT * 3
  {
    if s.slot % SLOTS_PER_EPOCH == 0 {
      forall v ensures !HasTarget(s.currentParticipation, v) { FirstSlotUnflagged(o, run, v); }
      var flagged := TargetParticipants(s, s.currentParticipation, CurrentEpoch(s));
      assert flagged == {};
      SumOverNone(Balances(s.validators), flagged);
    } else {
      JustificationTotal(s);
    }
  }
}
