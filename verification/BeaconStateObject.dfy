/** The beacon state as the transition mutates it, field by field, proved against `BeaconChain`. */
module BeaconStateObject {
  import opened Primitives
  import opened BeaconChain

  class BeaconState {
    const env: Env
    var slot: nat
    var header: Header
    const blockRoots: array<Root>
    var validators: seq<Validator>
    var previousParticipation: seq<Flags>
    var currentParticipation: seq<Flags>
    var bits: JustificationBits
    var previousJustified: Checkpoint
    var currentJustified: Checkpoint
    var finalized: Checkpoint
    var rest: Rest

    ghost predicate Valid() {
      blockRoots.Length == SLOTS_PER_HISTORICAL_ROOT
    }

    /** The value of the state, which is also what `hash_tree_root` sees. */
    function Value(): State
      requires Valid()
      reads this, blockRoots
    {
      State(slot, header, blockRoots[..], validators, previousParticipation, currentParticipation,
            bits, previousJustified, currentJustified, finalized, rest)
    }

    constructor (env: Env, s: State)
      ensures Valid() && fresh(blockRoots) && this.env == env && Value() == s
    {
      this.env := env;
      slot, header, validators, rest := s.slot, s.header, s.validators, s.rest;
      previousParticipation, currentParticipation := s.previousParticipation, s.currentParticipation;
      bits, previousJustified, currentJustified, finalized := s.bits, s.previousJustified, s.currentJustified, s.finalized;
      var roots := new Root[SLOTS_PER_HISTORICAL_ROOT](i requires 0 <= i < SLOTS_PER_HISTORICAL_ROOT => s.blockRoots[i]);
      blockRoots := roots;
      new;
      assert blockRoots[..] == s.blockRoots;
    }

    /** `get_block_root`, whose failed assertion makes the whole transition invalid. */
    method BlockRootOf(epoch: nat) returns (root: Option<Root>)
      requires Valid()
      ensures root == GetBlockRoot(Value(), epoch)
    {
      var start := StartSlot(epoch);
      if start < slot <= start + SLOTS_PER_HISTORICAL_ROOT {
        root := Some(blockRoots[start % SLOTS_PER_HISTORICAL_ROOT]);
      } else {
        root := None;
      }
    }

    method ShiftBits()
      modifies this`bits
      ensures bits == [false, old(bits[0]), old(bits[1]), old(bits[2])]
    {
      bits := [bits[0]] + bits[..3];
      bits := bits[0 := false];
    }

    /** The justification half of weighing: rotate the checkpoints, shift the bits, mark what passes. */
    method JustifyInPlace(totalActive: nat, previousTarget: nat, currentTarget: nat) returns (ok: bool)
      requires Valid()
      modifies this
      ensures ok <==> Justify(old(Value()), totalActive, previousTarget, currentTarget).Some?
      ensures ok ==> Value() == Justify(old(Value()), totalActive, previousTarget, currentTarget).value
    {
      var cur := EpochAt(slot);
      var prev := if cur == 0 then 0 else cur - 1;
      ghost var before := Value();
      previousJustified := currentJustified;
      ShiftBits();
      if previousTarget * 3 >= totalActive * 2 {
        var root := BlockRootOf(prev);
        assert root == GetBlockRoot(before, prev);
        if root.None? { return false; }
        currentJustified := Checkpoint(prev, root.value);
        bits := [bits[0], true, bits[2], bits[3]];
      }
      if currentTarget * 3 >= totalActive * 2 {
        var root := BlockRootOf(cur);
        assert root == GetBlockRoot(before, cur);
        if root.None? { return false; }
        currentJustified := Checkpoint(cur, root.value);
        bits := [true, bits[1], bits[2], bits[3]];
      }
      ok := true;
    }

    /** The four finalization rules in the order of the source, each overwriting the one before. */
    method FinalizeInPlace(oldPrevious: Checkpoint, oldCurrent: Checkpoint)
      requires Valid()
      modifies this`finalized
      ensures finalized == FinalizedBy(bits, oldPrevious, oldCurrent, EpochAt(slot), old(finalized))
    {
      var cur := EpochAt(slot);
      if AllSet(bits, 1, 4) && oldPrevious.epoch + 3 == cur {
        finalized := oldPrevious;
      }
      if AllSet(bits, 1, 3) && oldPrevious.epoch + 2 == cur {
        finalized := oldPrevious;
      }
      if AllSet(bits, 0, 3) && oldCurrent.epoch + 2 == cur {
        finalized := oldCurrent;
      }
      if AllSet(bits, 0, 2) && oldCurrent.epoch + 1 == cur {
        finalized := oldCurrent;
      }
    }

    method WeighInPlace(totalActive: nat, previousTarget: nat, currentTarget: nat) returns (ok: bool)
      requires Valid()
      modifies this
      ensures ok <==> Weigh(old(Value()), totalActive, previousTarget, currentTarget).Some?
      ensures ok ==> Value() == Weigh(old(Value()), totalActive, previousTarget, currentTarget).value
    {
      var oldPrevious, oldCurrent := previousJustified, currentJustified;
      ok := JustifyInPlace(totalActive, previousTarget, currentTarget);
      if ok {
        FinalizeInPlace(oldPrevious, oldCurrent);
      }
    }

    /** `process_justification_and_finalization`. */
    method PullUp() returns (ok: bool)
      requires Valid()
      modifies this
      ensures ok <==> ProcessJustificationAndFinalization(old(Value())).Some?
      ensures ok ==> Value() == ProcessJustificationAndFinalization(old(Value())).value
    {
      if EpochAt(slot) <= 1 { return true; }
      ghost var s := Value();
      var cur := EpochAt(slot);
      var previousIndices := set i | 0 <= i < |validators| && IsActive(validators[i], cur - 1)
                                     && HasTarget(previousParticipation, i) && !validators[i].slashed;
      var currentIndices := set i | 0 <= i < |validators| && IsActive(validators[i], cur)
                                    && HasTarget(currentParticipation, i) && !validators[i].slashed;
      var active := set i | 0 <= i < |validators| && IsActive(validators[i], cur);
      assert previousIndices == TargetParticipants(s, previousParticipation, cur - 1);
      assert currentIndices == TargetParticipants(s, currentParticipation, cur);
      assert active == ActiveIndices(s, cur);
      var balances := Balances(validators);
      ok := WeighInPlace(Max(EFFECTIVE_BALANCE_INCREMENT, SumOver(balances, active)),
                         Max(EFFECTIVE_BALANCE_INCREMENT, SumOver(balances, previousIndices)),
                         Max(EFFECTIVE_BALANCE_INCREMENT, SumOver(balances, currentIndices)));
    }

    /** `process_slot`: caches the state root in the header and the block root in the ring. */
    method CacheRoots()
      requires Valid()
      modifies this`header, blockRoots
      ensures Value() == ProcessSlot(env, old(Value()))
    {
      var stateRoot := env.hashState(Value());
      if header.stateRoot == ZERO_ROOT {
        header := header.(stateRoot := stateRoot);
      }
      blockRoots[slot % SLOTS_PER_HISTORICAL_ROOT] := env.hashHeader(header);
      assert blockRoots[..] == old(blockRoots[..])[slot % SLOTS_PER_HISTORICAL_ROOT := env.hashHeader(header)];
    }

    method EpochInPlace() returns (ok: bool)
      requires Valid()
      modifies this
      ensures ok <==> ProcessEpoch(env, old(Value())).Some?
      ensures ok ==> Value() == ProcessEpoch(env, old(Value())).value
    {
      ok := PullUp();
      if ok {
        var (newValidators, newRest) := env.epochUpdates(Value());
        validators, rest := newValidators, newRest;
        previousParticipation := currentParticipation;
        currentParticipation := seq(|validators|, _ => NO_FLAGS);
      }
    }

    method NextSlotInPlace() returns (ok: bool)
      requires Valid()
      modifies this, blockRoots
      ensures ok <==> AdvanceSlot(env, old(Value())).Some?
      ensures ok ==> Value() == AdvanceSlot(env, old(Value())).value
    {
      CacheRoots();
      ok := true;
      if (slot + 1) % SLOTS_PER_EPOCH == 0 {
        ok := EpochInPlace();
      }
      if ok {
        slot := slot + 1;
      }
    }

    /** `process_slots`: the loop reaches exactly the state that the recursive definition gives. */
    method SlotsInPlace(target: nat) returns (ok: bool)
      requires Valid()
      modifies this, blockRoots
      ensures ok <==> ProcessSlots(env, old(Value()), target).Some?
      ensures ok ==> Value() == ProcessSlots(env, old(Value()), target).value
    {
      if slot >= target { return false; }
      while slot < target
        invariant Valid() && slot <= target
        invariant AdvanceTo(env, Value(), target) == AdvanceTo(env, old(Value()), target)
        decreases target - slot
      {
        ok := NextSlotInPlace();
        if !ok { return; }
      }
      ok := true;
    }

    /** The flag loop of `process_attestation`, validator by validator. */
    method MarkAttesters(current: bool, attesters: set<nat>, flags: Flags)
      requires forall i :: i in attesters ==> i < |if current then currentParticipation else previousParticipation|
      modifies this`currentParticipation, this`previousParticipation
      ensures currentParticipation ==
        if current then MarkParticipation(old(currentParticipation), attesters, flags) else old(currentParticipation)
      ensures previousParticipation ==
        if current then old(previousParticipation) else MarkParticipation(old(previousParticipation), attesters, flags)
    {
      ghost var before := if current then currentParticipation else previousParticipation;
      var participation := if current then currentParticipation else previousParticipation;
      var left := attesters;
      while left != {}
        invariant left <= attesters && |participation| == |before|
        invariant forall i :: 0 <= i < |before| ==>
          participation[i] == if i in attesters && i !in left then AddFlags(before[i], flags) else before[i]
        decreases left
      {
        var i :| i in left;
        participation := participation[i := AddFlags(participation[i], flags)];
        left := left - {i};
      }
      assert participation == MarkParticipation(before, attesters, flags);
      if current {
        currentParticipation := participation;
      } else {
        previousParticipation := participation;
      }
    }

    method AttestInPlace(a: Attestation) returns (ok: bool)
      requires Valid()
      modifies this
      ensures ok <==> ProcessAttestation(env, old(Value()), a).Some?
      ensures ok ==> Value() == ProcessAttestation(env, old(Value()), a).value
    {
      ghost var s := Value();
      var data := a.data;
      var cur := EpochAt(slot);
      var current := data.target.epoch == cur;
      if !current && data.target.epoch + 1 != cur { return false; }
      if data.target.epoch != EpochAt(data.slot) || data.slot + MIN_ATTESTATION_INCLUSION_DELAY > slot { return false; }
      if !env.attestationValid(Value(), a) { return false; }
      var size := if current then |currentParticipation| else |previousParticipation|;
      if exists i :: i in a.attesters && i >= size { return false; }
      var flags := ParticipationFlags(Value(), data, slot - data.slot);
      if flags.None? { return false; }
      MarkAttesters(current, a.attesters, flags.value);
      ok := true;
    }
  }
}
