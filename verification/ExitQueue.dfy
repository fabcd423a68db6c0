/** Validator exits: the queue and its churn limit. */
module ExitQueue {
  import opened Primitives

  const MAX_SEED_LOOKAHEAD: nat := 4
  const MIN_PER_EPOCH_CHURN_LIMIT: nat := 4
  const CHURN_LIMIT_QUOTIENT: nat := 65536
  const MIN_VALIDATOR_WITHDRAWABILITY_DELAY: nat := 256

  datatype Validator = Validator(activationEpoch: nat, exitEpoch: nat, withdrawableEpoch: nat)

  predicate IsActive(v: Validator, epoch: nat) {
    v.activationEpoch <= epoch < v.exitEpoch
  }

  predicate Exiting(v: Validator) {
    v.exitEpoch != FAR_FUTURE_EPOCH
  }

  /** How many validators exit in `epoch`. */
  function Exits(vs: seq<Validator>, epoch: nat): nat {
    if vs == [] then 0
    else Exits(vs[..|vs| - 1], epoch) + if vs[|vs| - 1].exitEpoch == epoch then 1 else 0
  }

  function ActiveCount(vs: seq<Validator>, epoch: nat): nat {
    if vs == [] then 0
    else ActiveCount(vs[..|vs| - 1], epoch) + if IsActive(vs[|vs| - 1], epoch) then 1 else 0
  }

  function ChurnLimit(vs: seq<Validator>, epoch: nat): (limit: nat)
    ensures limit > 0
  {
    Max(MIN_PER_EPOCH_CHURN_LIMIT, ActiveCount(vs, epoch) / CHURN_LIMIT_QUOTIENT)
  }

  /** The earliest epoch an exit initiated in `epoch` may take effect. */
  function ActivationExitEpoch(epoch: nat): nat {
    epoch + 1 + MAX_SEED_LOOKAHEAD
  }

  /** The latest epoch any validator exits in, or `floor` if that is later. */
  function LatestExit(vs: seq<Validator>, floor: nat): (e: nat)
    ensures e >= floor
  {
    if vs == [] then floor
    else
      var e := LatestExit(vs[..|vs| - 1], floor);
      if Exiting(vs[|vs| - 1]) then Max(e, vs[|vs| - 1].exitEpoch) else e
  }

  function QueueEpoch(vs: seq<Validator>, epoch: nat): nat {
    var e := LatestExit(vs, ActivationExitEpoch(epoch));
    if Exits(vs, e) >= ChurnLimit(vs, epoch) then e + 1 else e
  }

  lemma {:induction false} LatestExitBounds(vs: seq<Validator>, floor: nat, i: nat)
    requires i < |vs| && Exiting(vs[i])
    ensures vs[i].exitEpoch <= LatestExit(vs, floor)
  {
    if i < |vs| - 1 { LatestExitBounds(vs[..|vs| - 1], floor, i); }
  }

  lemma {:induction false} NoExitsAfter(vs: seq<Validator>, epoch: nat)
    requires forall i :: 0 <= i < |vs| ==> vs[i].exitEpoch != epoch
    ensures Exits(vs, epoch) == 0
  {
    if vs != [] { NoExitsAfter(vs[..|vs| - 1], epoch); }
  }

  lemma {:induction false} ExitsUpdate(vs: seq<Validator>, i: nat, v: Validator, epoch: nat)
    requires i < |vs|
    ensures Exits(vs[i := v], epoch) + (if vs[i].exitEpoch == epoch then 1 else 0) ==
            Exits(vs, epoch) + (if v.exitEpoch == epoch then 1 else 0)
  {
    var last := |vs| - 1;
    if i < last {
      ExitsUpdate(vs[..last], i, v, epoch);
      assert vs[i := v][..last] == vs[..last][i := v];
    } else {
      assert vs[i := v][..last] == vs[..last];
    }
  }

  /** The epoch given out is never early, never before any given out earlier, and not yet full. */
  lemma QueueEpochFair(vs: seq<Validator>, epoch: nat)
    requires QueueEpoch(vs, epoch) < FAR_FUTURE_EPOCH
    ensures QueueEpoch(vs, epoch) >= ActivationExitEpoch(epoch)
    ensures forall i :: 0 <= i < |vs| && Exiting(vs[i]) ==> vs[i].exitEpoch <= QueueEpoch(vs, epoch)
    ensures Exits(vs, QueueEpoch(vs, epoch)) < ChurnLimit(vs, epoch)
  {
    var e := LatestExit(vs, ActivationExitEpoch(epoch));
    forall i | 0 <= i < |vs| && Exiting(vs[i]) ensures vs[i].exitEpoch <= e {
      LatestExitBounds(vs, ActivationExitEpoch(epoch), i);
    }
    if Exits(vs, e) >= ChurnLimit(vs, epoch) {
      NoExitsAfter(vs, e + 1);
    }
  }

  /** `initiate_validator_exit`; an epoch that does not fit in 64 bits makes it fail. */
  function Initiated(vs: seq<Validator>, epoch: nat, i: nat): Option<seq<Validator>>
    requires i < |vs|
  {
    if Exiting(vs[i]) then Some(vs)
    else
      var e := QueueEpoch(vs, epoch);
      if e + MIN_VALIDATOR_WITHDRAWABILITY_DELAY >= UINT64_LIMIT then None
      else Some(vs[i := vs[i].(exitEpoch := e, withdrawableEpoch := e + MIN_VALIDATOR_WITHDRAWABILITY_DELAY)])
  }

  class Registry {
    var epoch: nat
    var validators: seq<Validator>

    /** The list comprehensions of the source as one pass: the queue's last epoch and its population. */
    method QueueTail() returns (last: nat, population: nat)
      ensures last == LatestExit(validators, ActivationExitEpoch(epoch)) && population == Exits(validators, last)
    {
      last := ActivationExitEpoch(epoch);
      for i := 0 to |validators|
        invariant last == LatestExit(validators[..i], ActivationExitEpoch(epoch))
      {
        assert validators[..i + 1][..i] == validators[..i];
        if Exiting(validators[i]) {
          last := Max(last, validators[i].exitEpoch);
        }
      }
      assert validators[..|validators|] == validators;
      population := 0;
      for i := 0 to |validators|
        invariant population == Exits(validators[..i], last)
      {
        assert validators[..i + 1][..i] == validators[..i];
        if validators[i].exitEpoch == last {
          population := population + 1;
        }
      }
    }

    /** `initiate_validator_exit`, in place. */
    method InitiateExit(i: nat) returns (ok: bool)
      requires i < |validators|
      modifies this`validators
      ensures ok <==> Initiated(old(validators), epoch, i).Some?
      ensures validators == if ok then Initiated(old(validators), epoch, i).value else old(validators)
    {
      if Exiting(validators[i]) { return true; }
      var exitEpoch, population := QueueTail();
      if population >= ChurnLimit(validators, epoch) {
        exitEpoch := exitEpoch + 1;
      }
      if exitEpoch + MIN_VALIDATOR_WITHDRAWABILITY_DELAY >= UINT64_LIMIT { return false; }
      validators := validators[i := validators[i].(exitEpoch := exitEpoch,
                                                   withdrawableEpoch := exitEpoch + MIN_VALIDATOR_WITHDRAWABILITY_DELAY)];
      ok := true;
    }
  }

  // ---------- runs ----------

  datatype Queue = Queue(epoch: nat, validators: seq<Validator>)

  /** An exit, or anything else that happens to the registry: later epochs, activations, deposits. */
  datatype Event = Exit(i: nat) | Other(next: Queue)

  ghost predicate SameExits(vs: seq<Validator>, ws: seq<Validator>) {
    && |vs| <= |ws|
    && (forall i :: 0 <= i < |vs| ==> ws[i].exitEpoch == vs[i].exitEpoch)
    && (forall i :: |vs| <= i < |ws| ==> !Exiting(ws[i]))
  }

  ghost function StepTo(q: Queue, e: Event): Queue {
    match e
    case Exit(i) =>
      if i < |q.validators| && Initiated(q.validators, q.epoch, i).Some?
      then q.(validators := Initiated(q.validators, q.epoch, i).value) else q
    case Other(next) =>
      if SameExits(q.validators, next.validators) then next else q
  }

  ghost function RunTo(q: Queue, events: seq<Event>): Queue {
    if events == [] then q else StepTo(RunTo(q, events[..|events| - 1]), events[|events| - 1])
  }

  /** `q` came before `r`: nobody left, and no assigned exit epoch has changed. */
  ghost predicate Precedes(q: Queue, r: Queue) {
    && |q.validators| <= |r.validators|
    && (forall i :: 0 <= i < |q.validators| && Exiting(q.validators[i]) ==>
          r.validators[i].exitEpoch == q.validators[i].exitEpoch)
  }

  lemma {:induction false} AssignedNeverChanges(q: Queue, events: seq<Event>)
    ensures Precedes(q, RunTo(q, events))
  {
    if events != [] { AssignedNeverChanges(q, events[..|events| - 1]); }
  }

  ghost predicate InOrder(q: Queue, r: Queue) {
    forall i, j :: 0 <= i < |q.validators| && Exiting(q.validators[i])
      && 0 <= j < |r.validators| && Exiting(r.validators[j]) && (j >= |q.validators| || !Exiting(q.validators[j]))
      ==> q.validators[i].exitEpoch <= r.validators[j].exitEpoch
  }

  lemma NewExitLast(q: Queue, i: nat)
    requires i < |q.validators| && !Exiting(q.validators[i]) && Initiated(q.validators, q.epoch, i).Some?
    ensures var e := Initiated(q.validators, q.epoch, i).value[i].exitEpoch;
      && e >= ActivationExitEpoch(q.epoch) && Exits(q.validators, e) < ChurnLimit(q.validators, q.epoch)
      && (forall k :: 0 <= k < |q.validators| && Exiting(q.validators[k]) ==> q.validators[k].exitEpoch <= e)
  {
    QueueEpochFair(q.validators, q.epoch);
  }

  /** Who is in the queue first leaves no later than whoever joins afterwards. */
  lemma {:induction false} FirstInFirstOut(q: Queue, events: seq<Event>)
    ensures InOrder(q, RunTo(q, events))
  {
    if events != [] {
      var before, e := RunTo(q, events[..|events| - 1]), events[|events| - 1];
      FirstInFirstOut(q, events[..|events| - 1]);
      AssignedNeverChanges(q, events[..|events| - 1]);
      if e.Exit? && e.i < |before.validators| && !Exiting(before.validators[e.i]) &&
         Initiated(before.validators, before.epoch, e.i).Some? {
        NewExitLast(before, e.i);
      }
    }
  }

  lemma {:induction false} SameExitsSameCount(vs: seq<Validator>, ws: seq<Validator>, epoch: nat)
    requires SameExits(vs, ws) && epoch != FAR_FUTURE_EPOCH
    ensures Exits(ws, epoch) == Exits(vs, epoch)
    decreases |ws|
  {
    if |vs| < |ws| {
      SameExitsSameCount(vs, ws[..|ws| - 1], epoch);
    } else if vs != [] {
      SameExitsSameCount(vs[..|vs| - 1], ws[..|ws| - 1], epoch);
    }
  }

  ghost predicate AtMostPerEpoch(q: Queue, limit: nat) {
    forall e: nat :: e != FAR_FUTURE_EPOCH ==> Exits(q.validators, e) <= limit
  }

  lemma StepWithinChurn(q: Queue, e: Event, limit: nat)
    requires AtMostPerEpoch(q, limit) && ChurnLimit(q.validators, q.epoch) <= limit
    ensures AtMostPerEpoch(StepTo(q, e), limit)
  {
    forall epoch: nat | epoch != FAR_FUTURE_EPOCH ensures Exits(StepTo(q, e).validators, epoch) <= limit {
      match e
      case Exit(i) =>
        if i < |q.validators| && !Exiting(q.validators[i]) && Initiated(q.validators, q.epoch, i).Some? {
          NewExitLast(q, i);
          ExitsUpdate(q.validators, i, Initiated(q.validators, q.epoch, i).value[i], epoch);
        }
      case Other(next) =>
        if SameExits(q.validators, next.validators) { SameExitsSameCount(q.validators, next.validators, epoch); }
    }
  }

  /** No epoch ever receives more exits than the largest churn limit in force along the way. */
  lemma {:induction false} RunWithinChurn(q: Queue, events: seq<Event>, limit: nat)
    requires AtMostPerEpoch(q, limit)
    requires forall k :: 0 <= k <= |events| ==> ChurnLimit(RunTo(q, events[..k]).validators, RunTo(q, events[..k]).epoch) <= limit
    ensures AtMostPerEpoch(RunTo(q, events), limit)
  {
    if events != [] {
      var init := events[..|events| - 1];
      assert forall k :: 0 <= k <= |init| ==> init[..k] == events[..k];
      RunWithinChurn(q, init, limit);
      StepWithinChurn(RunTo(q, init), events[|events| - 1], limit);
    }
  }

  // ---------- which epoch an exit is given ----------

  ghost function ExitingAt(vs: seq<Validator>, epoch: nat): set<nat> {
    set k | 0 <= k < |vs| && vs[k].exitEpoch == epoch
  }

  ghost function ActiveAt(vs: seq<Validator>, epoch: nat): set<nat> {
    set k | 0 <= k < |vs| && vs[k].activationEpoch <= epoch && epoch < vs[k].exitEpoch
  }

  lemma {:induction false} ExitsCounted(vs: seq<Validator>, epoch: nat)
    ensures Exits(vs, epoch) == |ExitingAt(vs, epoch)|
  {
    if vs != [] {
      var last := |vs| - 1;
      ExitsCounted(vs[..last], epoch);
      assert ExitingAt(vs, epoch) == ExitingAt(vs[..last], epoch) + if vs[last].exitEpoch == epoch then {last} else {};
    }
  }

  lemma {:induction false} ActiveCounted(vs: seq<Validator>, epoch: nat)
    ensures ActiveCount(vs, epoch) == |ActiveAt(vs, epoch)|
  {
    if vs != [] {
      var last := |vs| - 1;
      ActiveCounted(vs[..last], epoch);
      assert ActiveAt(vs, epoch) == ActiveAt(vs[..last], epoch) + if IsActive(vs[last], epoch) then {last} else {};
    }
  }

  /** An exit initiated in `epoch` may take effect in `e`: five epochs on or more, no earlier than any exit given out, and
      with fewer exits so far than four, or than one in 65536 of the active validators if that is more. */
  ghost predicate Open(vs: seq<Validator>, epoch: nat, e: nat) {
    && epoch + 5 <= e
    && (forall k :: 0 <= k < |vs| && Exiting(vs[k]) ==> vs[k].exitEpoch <= e)
    && (|ExitingAt(vs, e)| < 4 || 65536 * (|ExitingAt(vs, e)| + 1) <= |ActiveAt(vs, epoch)|)
  }

  lemma OpenExactly(vs: seq<Validator>, epoch: nat, e: nat)
    ensures Open(vs, epoch, e) <==>
      && ActivationExitEpoch(epoch) <= e
      && (forall k :: 0 <= k < |vs| && Exiting(vs[k]) ==> vs[k].exitEpoch <= e)
      && Exits(vs, e) < ChurnLimit(vs, epoch)
  {
    ExitsCounted(vs, e);
    ActiveCounted(vs, epoch);
  }

  lemma {:induction false} LatestExitLeast(vs: seq<Validator>, floor: nat, e: nat)
    requires floor <= e && forall k :: 0 <= k < |vs| && Exiting(vs[k]) ==> vs[k].exitEpoch <= e
    ensures LatestExit(vs, floor) <= e
  {
    if vs != [] { LatestExitLeast(vs[..|vs| - 1], floor, e); }
  }

  lemma QueueEpochAtMost(vs: seq<Validator>, epoch: nat, e: nat)
    requires Open(vs, epoch, e)
    ensures QueueEpoch(vs, epoch) <= e
  {
    OpenExactly(vs, epoch, e);
    LatestExitLeast(vs, ActivationExitEpoch(epoch), e);
  }

  /** A validator that is not exiting yet is given the least epoch open to it, and its stake 256 epochs later; the call
      fails exactly if that does not fit in 64 bits. One that is exiting already keeps its epochs. */
  lemma ExitGranted(vs: seq<Validator>, epoch: nat, i: nat, e: nat)
    requires i < |vs| && Open(vs, epoch, e) && forall f: nat :: Open(vs, epoch, f) ==> e <= f
    ensures Initiated(vs, epoch, i) ==
      if vs[i].exitEpoch != FAR_FUTURE_EPOCH then Some(vs)
      else if e + 256 >= UINT64_LIMIT then None
      else Some(vs[i := Validator(vs[i].activationEpoch, e, e + 256)])
  {
    QueueEpochAtMost(vs, epoch, e);
    if QueueEpoch(vs, epoch) < FAR_FUTURE_EPOCH {
      QueueEpochFair(vs, epoch);
      OpenExactly(vs, epoch, QueueEpoch(vs, epoch));
    }
  }
}
