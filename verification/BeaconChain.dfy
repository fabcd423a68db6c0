/** The part of the state transition that carries blocks, votes and finality:
    slot processing, block headers, attestations, justification and finalization.
    Everything else in a block or an epoch is a hook of `Env`. */
module BeaconChain {
  import opened Primitives

  // The state fields this model does not interpret (balances, RANDAO mixes, queues, ...).
  type Rest(==, !new)

  datatype AttestationData = AttestationData(slot: nat, index: nat, beaconBlockRoot: Root, source: Checkpoint, target: Checkpoint)

  // `attesters` is the set of validators that the aggregation bits select.
  datatype Attestation = Attestation(data: AttestationData, attesters: set<nat>)

  datatype Body = Body(attestations: seq<Attestation>, operations: nat)

  datatype Block = Block(slot: nat, proposer: nat, parentRoot: Root, stateRoot: Root, body: Body)

  datatype Header = Header(slot: nat, proposer: nat, parentRoot: Root, stateRoot: Root, bodyRoot: Root)

  datatype Validator = Validator(effectiveBalance: nat, slashed: bool, activationEpoch: nat, exitEpoch: nat)

  datatype Flags = Flags(source: bool, target: bool, head: bool)
  const NO_FLAGS := Flags(false, false, false)

  // The ring buffer `block_roots` and the justification bits have fixed lengths.
  type RootRing = r: seq<Root> | |r| == SLOTS_PER_HISTORICAL_ROOT witness seq(SLOTS_PER_HISTORICAL_ROOT, _ => ZERO_ROOT)
  type JustificationBits = b: seq<bool> | |b| == 4 witness [false, false, false, false]

  datatype State = State(
    slot: nat,
    header: Header,
    blockRoots: RootRing,
    validators: seq<Validator>,
    previousParticipation: seq<Flags>,
    currentParticipation: seq<Flags>,
    bits: JustificationBits,
    previousJustified: Checkpoint,
    currentJustified: Checkpoint,
    finalized: Checkpoint,
    rest: Rest)

  /** Hashes, signature and committee checks, and the stages of the transition left uninterpreted. */
  datatype Env = Env(
    hashState: State -> Root,
    hashHeader: Header -> Root,
    hashBody: Body -> Root,
    // committee lookup, aggregation bits and signature of an attestation
    attestationValid: (State, Attestation) -> bool,
    // signature, proposer, payload, slashings: new registry and rest, or rejection
    beforeAttestations: (State, Block) -> Option<(seq<Validator>, Rest)>,
    // deposits, exits, sync aggregate
    afterAttestations: (State, Block) -> Option<(seq<Validator>, Rest)>,
    // rewards, registry updates, slashings, effective balances
    epochUpdates: State -> (seq<Validator>, Rest))

  /** Collision freedom, and no preimage of the zero root. */
  ghost predicate IdealHashes(env: Env) {
    && (forall a, b :: env.hashHeader(a) == env.hashHeader(b) ==> a == b)
    && (forall a, b :: env.hashBody(a) == env.hashBody(b) ==> a == b)
    && (forall a :: env.hashHeader(a) != ZERO_ROOT)
    && (forall s :: env.hashState(s) != ZERO_ROOT)
  }

  function HeaderOf(env: Env, b: Block): Header {
    Header(b.slot, b.proposer, b.parentRoot, b.stateRoot, env.hashBody(b.body))
  }

  // A block and its header have the same hash tree root.
  function BlockRoot(env: Env, b: Block): Root {
    env.hashHeader(HeaderOf(env, b))
  }

  lemma BlockRootInjective(env: Env, a: Block, b: Block)
    requires IdealHashes(env) && BlockRoot(env, a) == BlockRoot(env, b)
    ensures a == b
  {
    assert HeaderOf(env, a) == HeaderOf(env, b);
  }

  // ---------- accessors ----------

  function CurrentEpoch(s: State): nat {
    EpochAt(s.slot)
  }

  function PreviousEpoch(s: State): nat {
    if CurrentEpoch(s) == 0 then 0 else CurrentEpoch(s) - 1
  }

  function GetBlockRootAtSlot(s: State, slot: nat): Option<Root> {
    if slot < s.slot <= slot + SLOTS_PER_HISTORICAL_ROOT then
      Some(s.blockRoots[slot % SLOTS_PER_HISTORICAL_ROOT])
    else
      None
  }

  function GetBlockRoot(s: State, epoch: nat): Option<Root> {
    GetBlockRootAtSlot(s, StartSlot(epoch))
  }

  predicate IsActive(v: Validator, epoch: nat) {
    v.activationEpoch <= epoch < v.exitEpoch
  }

  function ActiveIndices(s: State, epoch: nat): set<nat> {
    set i | 0 <= i < |s.validators| && IsActive(s.validators[i], epoch)
  }

  function Balances(vs: seq<Validator>): (w: seq<nat>)
    ensures |w| == |vs|
  {
    seq(|vs|, i requires 0 <= i < |vs| => vs[i].effectiveBalance)
  }

  // The floor of one increment is the source's guard against division by zero.
  function TotalBalance(s: State, indices: set<nat>): nat {
    Max(EFFECTIVE_BALANCE_INCREMENT, SumOver(Balances(s.validators), indices))
  }

  function TotalActiveBalance(s: State): nat {
    TotalBalance(s, ActiveIndices(s, CurrentEpoch(s)))
  }

  predicate HasTarget(participation: seq<Flags>, i: nat) {
    i < |participation| && participation[i].target
  }

  function TargetParticipants(s: State, participation: seq<Flags>, epoch: nat): set<nat> {
    set i | 0 <= i < |s.validators| && IsActive(s.validators[i], epoch)
            && HasTarget(participation, i) && !s.validators[i].slashed
  }

  /** Casper's double vote and surround vote; the surround is not symmetric in its arguments. */
  predicate IsSlashable(d1: AttestationData, d2: AttestationData) {
    || (d1 != d2 && d1.target.epoch == d2.target.epoch)
    || (d1.source.epoch < d2.source.epoch && d2.target.epoch < d1.target.epoch)
  }

  // ---------- justification and finalization ----------

  predicate AllSet(bits: JustificationBits, lo: nat, hi: nat)
    requires lo <= hi <= 4
  {
    forall i :: lo <= i < hi ==> bits[i]
  }

  /** Rotates the justified checkpoints, shifts the bits and marks the epochs whose target balance passes. */
  function Justify(s: State, totalActive: nat, previousTarget: nat, currentTarget: nat): Option<State> {
    var cur, prev := CurrentEpoch(s), PreviousEpoch(s);
    var justifiesPrevious, justifiesCurrent := previousTarget * 3 >= totalActive * 2, currentTarget * 3 >= totalActive * 2;
    var previousRoot, currentRoot := GetBlockRoot(s, prev), GetBlockRoot(s, cur);
    if (justifiesPrevious && previousRoot.None?) || (justifiesCurrent && currentRoot.None?) then None
    else
      var justified :=
        if justifiesCurrent then Checkpoint(cur, currentRoot.value)
        else if justifiesPrevious then Checkpoint(prev, previousRoot.value)
        else s.currentJustified;
      Some(s.(bits := [justifiesCurrent, s.bits[0] || justifiesPrevious, s.bits[1], s.bits[2]],
              previousJustified := s.currentJustified, currentJustified := justified))
  }

  /** The four finalization rules; where several apply the last one of the source wins. */
  function FinalizedBy(bits: JustificationBits, oldPrevious: Checkpoint, oldCurrent: Checkpoint, cur: nat, finalized: Checkpoint): Checkpoint {
    if AllSet(bits, 0, 2) && oldCurrent.epoch + 1 == cur then oldCurrent
    else if AllSet(bits, 0, 3) && oldCurrent.epoch + 2 == cur then oldCurrent
    else if AllSet(bits, 1, 3) && oldPrevious.epoch + 2 == cur then oldPrevious
    else if AllSet(bits, 1, 4) && oldPrevious.epoch + 3 == cur then oldPrevious
    else finalized
  }

  function Weigh(s: State, totalActive: nat, previousTarget: nat, currentTarget: nat): Option<State> {
    match Justify(s, totalActive, previousTarget, currentTarget)
    case None => None
    case Some(j) =>
      Some(j.(finalized := FinalizedBy(j.bits, s.previousJustified, s.currentJustified, CurrentEpoch(s), s.finalized)))
  }

  function ProcessJustificationAndFinalization(s: State): Option<State> {
    if CurrentEpoch(s) <= 1 then Some(s)
    else
      Weigh(s, TotalActiveBalance(s),
            TotalBalance(s, TargetParticipants(s, s.previousParticipation, PreviousEpoch(s))),
            TotalBalance(s, TargetParticipants(s, s.currentParticipation, CurrentEpoch(s))))
  }

  // ---------- slots and epochs ----------

  function CachedHeader(env: Env, s: State): Header {
    if s.header.stateRoot == ZERO_ROOT then s.header.(stateRoot := env.hashState(s)) else s.header
  }

  function ProcessSlot(env: Env, s: State): State {
    var header := CachedHeader(env, s);
    s.(header := header,
       blockRoots := s.blockRoots[s.slot % SLOTS_PER_HISTORICAL_ROOT := env.hashHeader(header)])
  }

  function ProcessEpoch(env: Env, s: State): Option<State> {
    match ProcessJustificationAndFinalization(s)
    case None => None
    case Some(j) =>
      var (validators, rest) := env.epochUpdates(j);
      Some(j.(validators := validators, rest := rest,
              previousParticipation := j.currentParticipation,
              currentParticipation := seq(|validators|, _ => NO_FLAGS)))
  }

  /** One turn of the loop in `process_slots`. */
  function AdvanceSlot(env: Env, s: State): Option<State> {
    var cached := ProcessSlot(env, s);
    var processed := if (s.slot + 1) % SLOTS_PER_EPOCH == 0 then ProcessEpoch(env, cached) else Some(cached);
    match processed
    case None => None
    case Some(p) => Some(p.(slot := s.slot + 1))
  }

  function AdvanceTo(env: Env, s: State, slot: nat): Option<State>
    decreases slot - s.slot
  {
    if s.slot >= slot then Some(s)
    else
      match AdvanceSlot(env, s)
      case None => None
      case Some(next) => AdvanceTo(env, next, slot)
  }

  function ProcessSlots(env: Env, s: State, slot: nat): Option<State> {
    if s.slot < slot then AdvanceTo(env, s, slot) else None
  }

  // ---------- blocks ----------

  const MIN_ATTESTATION_INCLUSION_DELAY: nat := 1
  const TIMELY_SOURCE_DELAY: nat := 5  // the integer square root of SLOTS_PER_EPOCH

  function ParticipationFlags(s: State, data: AttestationData, delay: nat): Option<Flags> {
    var justified := if data.target.epoch == CurrentEpoch(s) then s.currentJustified else s.previousJustified;
    if data.source != justified then None
    else
      match GetBlockRoot(s, data.target.epoch)
      case None => None
      case Some(targetRoot) =>
        var matchingSource := delay <= TIMELY_SOURCE_DELAY;
        if data.target.root != targetRoot then Some(Flags(matchingSource, false, false))
        else
          match GetBlockRootAtSlot(s, data.slot)
          case None => None
          case Some(headRoot) =>
            Some(Flags(matchingSource, true,
                       data.beaconBlockRoot == headRoot && delay == MIN_ATTESTATION_INCLUSION_DELAY))
  }

  function AddFlags(f: Flags, g: Flags): Flags {
    Flags(f.source || g.source, f.target || g.target, f.head || g.head)
  }

  function MarkParticipation(participation: seq<Flags>, attesters: set<nat>, flags: Flags): (p: seq<Flags>)
    ensures |p| == |participation|
  {
    seq(|participation|, i requires 0 <= i < |participation| =>
      if i in attesters then AddFlags(participation[i], flags) else participation[i])
  }

  function ProcessAttestation(env: Env, s: State, a: Attestation): Option<State> {
    var data := a.data;
    var current := data.target.epoch == CurrentEpoch(s);
    var participation := if current then s.currentParticipation else s.previousParticipation;
    if data.target.epoch != PreviousEpoch(s) && !current then None
    else if data.target.epoch != EpochAt(data.slot) then None
    else if data.slot + MIN_ATTESTATION_INCLUSION_DELAY > s.slot then None
    else if !env.attestationValid(s, a) then None
    else if exists i :: i in a.attesters && i >= |participation| then None
    else
      match ParticipationFlags(s, data, s.slot - data.slot)
      case None => None
      case Some(flags) =>
        var marked := MarkParticipation(participation, a.attesters, flags);
        Some(if current then s.(currentParticipation := marked) else s.(previousParticipation := marked))
  }

  function ProcessAttestations(env: Env, s: State, atts: seq<Attestation>): Option<State> {
    if atts == [] then Some(s)
    else
      match ProcessAttestations(env, s, atts[..|atts| - 1])
      case None => None
      case Some(t) => ProcessAttestation(env, t, atts[|atts| - 1])
  }

  function ProcessBlockHeader(env: Env, s: State, b: Block): Option<State> {
    if b.slot == s.slot && b.slot > s.header.slot && b.parentRoot == env.hashHeader(s.header) then
      Some(s.(header := HeaderOf(env, b).(stateRoot := ZERO_ROOT)))
    else
      None
  }

  function Padded(p: seq<Flags>, n: nat): seq<Flags> {
    if |p| < n then p + seq(n - |p|, _ => NO_FLAGS) else p
  }

  function ProcessBlock(env: Env, s: State, b: Block): Option<State> {
    match ProcessBlockHeader(env, s, b)
    case None => None
    case Some(s1) =>
      match env.beforeAttestations(s1, b)
      case None => None
      case Some((validators1, rest1)) =>
        match ProcessAttestations(env, s1.(validators := validators1, rest := rest1), b.body.attestations)
        case None => None
        case Some(s2) =>
          match env.afterAttestations(s2, b)
          case None => None
          case Some((validators3, rest3)) =>
            Some(s2.(validators := validators3, rest := rest3,
                     previousParticipation := Padded(s2.previousParticipation, |validators3|),
                     currentParticipation := Padded(s2.currentParticipation, |validators3|)))
  }

  /** `process_block` followed by the check of the state root. */
  function ApplyBlock(env: Env, s: State, b: Block): Option<State> {
    match ProcessBlock(env, s, b)
    case None => None
    case Some(t) => if b.stateRoot == env.hashState(t) then Some(t) else None
  }

  function StateTransition(env: Env, s: State, b: Block): Option<State> {
    match ProcessSlots(env, s, b.slot)
    case None => None
    case Some(t) => ApplyBlock(env, t, b)
  }
}
