/** Beacon committees: slices of the shuffled registry. */
module Committees {
  import opened Arithmetic
  import opened Primitives
  import opened Shuffling

  const MAX_COMMITTEES_PER_SLOT: nat := 64
  const TARGET_COMMITTEE_SIZE: nat := 128

  function Min(a: nat, b: nat): nat {
    if a < b then a else b
  }

  /** Where committee `index` of `count` starts among `n` validators. */
  function SliceStart(n: nat, index: nat, count: nat): nat
    requires count > 0
  {
    n * index / count
  }

  // ---------- the slices partition the positions ----------

  lemma DivOrdered(a: nat, b: nat, c: nat)
    requires c > 0 && a <= b
    ensures a / c <= b / c
  {
    MulOrdered(b / c + 1, a / c, c);
    assert a == c * (a / c) + a % c && b == c * (b / c) + b % c;
    assert (b / c + 1) * c == c * (b / c) + c;
  }

  lemma SlicesOrdered(n: nat, count: nat, i: nat, j: nat)
    requires count > 0 && i <= j
    ensures SliceStart(n, i, count) <= SliceStart(n, j, count)
  {
    MulOrdered(i, j, n);
    DivOrdered(n * i, n * j, count);
  }

  lemma SliceEnds(n: nat, count: nat)
    requires count > 0
    ensures SliceStart(n, 0, count) == 0 && SliceStart(n, count, count) == n
  {
    DivUnique(0, count, 0, 0);
    DivUnique(n * count, count, n, 0);
  }

  /** Every position lies in a slice. */
  lemma {:induction false} SliceOf(n: nat, count: nat, position: nat, bound: nat) returns (index: nat)
    requires count > 0 && bound <= count && position < SliceStart(n, bound, count)
    ensures index < bound && SliceStart(n, index, count) <= position < SliceStart(n, index + 1, count)
    decreases bound
  {
    SliceEnds(n, count);
    if SliceStart(n, bound - 1, count) <= position {
      index := bound - 1;
    } else {
      index := SliceOf(n, count, position, bound - 1);
    }
  }

  /** No position lies in two. */
  lemma SlicesDisjoint(n: nat, count: nat, position: nat, i: nat, j: nat)
    requires count > 0
    requires SliceStart(n, i, count) <= position < SliceStart(n, i + 1, count)
    requires SliceStart(n, j, count) <= position < SliceStart(n, j + 1, count)
    ensures i == j
  {
    if i < j { SlicesOrdered(n, count, i + 1, j); }
    if j < i { SlicesOrdered(n, count, j + 1, i); }
  }

  lemma SpreadLeft(q: nat, r: nat, count: nat, index: nat)
    ensures (count * q + r) * index == count * (q * index) + r * index
  {
  }

  lemma SpreadRight(x: nat, s: nat, count: nat)
    ensures (x + s) * count == count * x + count * s
  {
  }

  lemma SplitProduct(n: nat, count: nat, index: nat)
    requires count > 0
    ensures SliceStart(n, index, count) == n / count * index + n % count * index / count
  {
    var q, r := n / count, n % count;
    var s, m := r * index / count, r * index % count;
    SpreadLeft(q, r, count, index);
    SpreadRight(q * index, s, count);
    DivUnique(n * index, count, q * index + s, m);
  }

  lemma StepQuotient(a: nat, r: nat, b: nat)
    requires r < b
    ensures a / b <= (a + r) / b <= a / b + 1
  {
    var q, m := a / b, a % b;
    assert a == b * q + m;
    if m + r < b {
      DivUnique(a + r, b, q, m + r);
    } else {
      assert (q + 1) * b == b * q + b;
      DivUnique(a + r, b, q + 1, m + r - b);
    }
  }

  /** Every slice has the rounded-down average size, or one more. */
  lemma SliceSize(n: nat, count: nat, index: nat)
    requires count > 0
    ensures n / count <= SliceStart(n, index + 1, count) - SliceStart(n, index, count) <= n / count + 1
  {
    SplitProduct(n, count, index);
    SplitProduct(n, count, index + 1);
    var q, r := n / count, n % count;
    assert r * (index + 1) == r * index + r && q * (index + 1) == q * index + q;
    StepQuotient(r * index, r, count);
  }

  // ---------- compute_committee ----------

  /** The validators at the places from `lo` to `hi` of the shuffled registry. */
  function Slice(indices: seq<nat>, seed: Seed, rounds: nat, lo: nat, hi: nat): (c: seq<nat>)
    requires lo <= hi <= |indices|
    ensures |c| == hi - lo
  {
    seq(hi - lo, k requires 0 <= k < hi - lo => indices[Shuffled(seed, |indices|, rounds, lo + k)])
  }

  lemma SliceInRange(n: nat, index: nat, count: nat)
    requires index < count
    ensures SliceStart(n, index, count) <= SliceStart(n, index + 1, count) <= n
  {
    SlicesOrdered(n, count, index, index + 1);
    SlicesOrdered(n, count, index + 1, count);
    SliceEnds(n, count);
  }

  function ComputeCommittee(indices: seq<nat>, seed: Seed, rounds: nat, index: nat, count: nat): (c: seq<nat>)
    requires index < count
    ensures |c| == SliceStart(|indices|, index + 1, count) - SliceStart(|indices|, index, count)
  {
    SliceInRange(|indices|, index, count);
    Slice(indices, seed, rounds, SliceStart(|indices|, index, count), SliceStart(|indices|, index + 1, count))
  }

  lemma PlaceInSlice(indices: seq<nat>, seed: Seed, rounds: nat, lo: nat, hi: nat, i: nat, place: nat)
    requires i < |indices| && lo <= place < hi <= |indices| && Shuffled(seed, |indices|, rounds, place) == i
    ensures indices[i] in Slice(indices, seed, rounds, lo, hi)
  {
    assert Slice(indices, seed, rounds, lo, hi)[place - lo] == indices[i];
  }

  lemma SliceHasPlace(indices: seq<nat>, seed: Seed, rounds: nat, lo: nat, hi: nat, i: nat) returns (place: nat)
    requires Distinct(indices) && i < |indices| && lo <= hi <= |indices|
    requires indices[i] in Slice(indices, seed, rounds, lo, hi)
    ensures lo <= place < hi && Shuffled(seed, |indices|, rounds, place) == i
  {
    var c := Slice(indices, seed, rounds, lo, hi);
    var k :| 0 <= k < |c| && c[k] == indices[i];
    place := lo + k;
  }

  /** A validator is in a slice exactly when the place its own index is shuffled from is. */
  lemma MemberOfSlice(indices: seq<nat>, seed: Seed, rounds: nat, lo: nat, hi: nat, i: nat)
    requires Distinct(indices) && i < |indices| && lo <= hi <= |indices|
    ensures indices[i] in Slice(indices, seed, rounds, lo, hi) <==> lo <= Unshuffled(seed, |indices|, rounds, i) < hi
  {
    ShuffleBijective(seed, |indices|, rounds);
    var place := Unshuffled(seed, |indices|, rounds, i);
    if lo <= place < hi { PlaceInSlice(indices, seed, rounds, lo, hi, i, place); }
    if indices[i] in Slice(indices, seed, rounds, lo, hi) {
      var other := SliceHasPlace(indices, seed, rounds, lo, hi, i);
    }
  }

  /** Every validator is in exactly one committee. */
  lemma CommitteesPartition(indices: seq<nat>, seed: Seed, rounds: nat, count: nat, v: nat) returns (index: nat)
    requires Distinct(indices) && count > 0 && v in indices
    ensures index < count && v in ComputeCommittee(indices, seed, rounds, index, count)
    ensures forall j :: 0 <= j < count && v in ComputeCommittee(indices, seed, rounds, j, count) ==> j == index
  {
    var i :| 0 <= i < |indices| && indices[i] == v;
    var n, place := |indices|, Unshuffled(seed, |indices|, rounds, i);
    SliceEnds(n, count);
    index := SliceOf(n, count, place, count);
    SliceInRange(n, index, count);
    MemberOfSlice(indices, seed, rounds, SliceStart(n, index, count), SliceStart(n, index + 1, count), i);
    forall j | 0 <= j < count && v in ComputeCommittee(indices, seed, rounds, j, count) ensures j == index {
      SliceInRange(n, j, count);
      MemberOfSlice(indices, seed, rounds, SliceStart(n, j, count), SliceStart(n, j + 1, count), i);
      SlicesDisjoint(n, count, place, index, j);
    }
  }

  lemma SliceMembers(indices: seq<nat>, seed: Seed, rounds: nat, lo: nat, hi: nat)
    requires Distinct(indices) && lo <= hi <= |indices|
    ensures Distinct(Slice(indices, seed, rounds, lo, hi))
    ensures forall v :: v in Slice(indices, seed, rounds, lo, hi) ==> v in indices
  {
    ShuffleBijective(seed, |indices|, rounds);
  }

  /** A committee has no strangers and nobody twice. */
  lemma CommitteeMembers(indices: seq<nat>, seed: Seed, rounds: nat, index: nat, count: nat)
    requires Distinct(indices) && index < count
    ensures Distinct(ComputeCommittee(indices, seed, rounds, index, count))
    ensures forall v :: v in ComputeCommittee(indices, seed, rounds, index, count) ==> v in indices
  {
    SliceInRange(|indices|, index, count);
    SliceMembers(indices, seed, rounds, SliceStart(|indices|, index, count), SliceStart(|indices|, index + 1, count));
  }

  // ---------- the committees of an epoch ----------

  function CommitteesPerSlot(active: nat): nat {
    Max(1, Min(MAX_COMMITTEES_PER_SLOT, active / SLOTS_PER_EPOCH / TARGET_COMMITTEE_SIZE))
  }

  /** `get_beacon_committee`, for the active validators of the slot's epoch. */
  function BeaconCommittee(active: seq<nat>, seed: Seed, slot: nat, index: nat): seq<nat>
    requires index < CommitteesPerSlot(|active|)
  {
    var perSlot := CommitteesPerSlot(|active|);
    ComputeCommittee(active, seed, SHUFFLE_ROUND_COUNT, NumberOf(slot, index, perSlot), perSlot * SLOTS_PER_EPOCH)
  }

  lemma CommitteeNumber(slot: nat, index: nat, perSlot: nat)
    requires slot < SLOTS_PER_EPOCH && index < perSlot
    ensures slot * perSlot + index < perSlot * SLOTS_PER_EPOCH
  {
    MulOrdered(slot + 1, SLOTS_PER_EPOCH, perSlot);
    assert (slot + 1) * perSlot == slot * perSlot + perSlot;
  }

  lemma CommitteeNumberInverse(number: nat, perSlot: nat)
    requires 0 < perSlot && number < perSlot * SLOTS_PER_EPOCH
    ensures number / perSlot < SLOTS_PER_EPOCH && number / perSlot * perSlot + number % perSlot == number
  {
    MulOrdered(SLOTS_PER_EPOCH, number / perSlot, perSlot);
  }

  lemma CommitteeNumberUnique(s: nat, i: nat, t: nat, j: nat, perSlot: nat)
    requires i < perSlot && j < perSlot && s * perSlot + i == t * perSlot + j
    ensures s == t && i == j
  {
    DivUnique(s * perSlot + i, perSlot, s, i);
    DivUnique(t * perSlot + j, perSlot, t, j);
  }

  /** The committee, counted over the whole epoch, that a slot and an index name. */
  function NumberOf(slot: nat, index: nat, perSlot: nat): (number: nat)
    requires index < perSlot
    ensures number < perSlot * SLOTS_PER_EPOCH
  {
    CommitteeNumber(slot % SLOTS_PER_EPOCH, index, perSlot);
    slot % SLOTS_PER_EPOCH * perSlot + index
  }

  lemma SameNumberSamePlace(s: nat, i: nat, t: nat, j: nat, perSlot: nat)
    requires i < perSlot && j < perSlot && NumberOf(s, i, perSlot) == NumberOf(t, j, perSlot) && EpochAt(s) == EpochAt(t)
    ensures s == t && i == j
  {
    CommitteeNumberUnique(s % SLOTS_PER_EPOCH, i, t % SLOTS_PER_EPOCH, j, perSlot);
  }

  lemma PlaceOfNumber(epoch: nat, number: nat, perSlot: nat) returns (slot: nat, index: nat)
    requires 0 < perSlot && number < perSlot * SLOTS_PER_EPOCH
    ensures EpochAt(slot) == epoch && index < perSlot && NumberOf(slot, index, perSlot) == number
  {
    CommitteeNumberInverse(number, perSlot);
    slot, index := StartSlot(epoch) + number / perSlot, number % perSlot;
    assert slot % SLOTS_PER_EPOCH == number / perSlot;
  }

  /** In every epoch each active validator has exactly one slot and committee to attest in. */
  lemma EpochPartition(active: seq<nat>, seed: Seed, epoch: nat, v: nat) returns (slot: nat, index: nat)
    requires Distinct(active) && v in active
    ensures EpochAt(slot) == epoch && index < CommitteesPerSlot(|active|) && v in BeaconCommittee(active, seed, slot, index)
    ensures forall t: nat, j: nat ::
      EpochAt(t) == epoch && j < CommitteesPerSlot(|active|) && v in BeaconCommittee(active, seed, t, j) ==> t == slot && j == index
  {
    var perSlot := CommitteesPerSlot(|active|);
    var number := CommitteesPartition(active, seed, SHUFFLE_ROUND_COUNT, perSlot * SLOTS_PER_EPOCH, v);
    slot, index := PlaceOfNumber(epoch, number, perSlot);
    forall t: nat, j: nat | EpochAt(t) == epoch && j < perSlot && v in BeaconCommittee(active, seed, t, j)
      ensures t == slot && j == index
    {
      SameNumberSamePlace(t, j, slot, index, perSlot);
    }
  }

  /** Committees of an epoch differ in size by at most one. */
  lemma BalancedCommittees(active: seq<nat>, seed: Seed, s: nat, i: nat, t: nat, j: nat)
    requires i < CommitteesPerSlot(|active|) && j < CommitteesPerSlot(|active|)
    ensures |BeaconCommittee(active, seed, s, i)| <= |BeaconCommittee(active, seed, t, j)| + 1
  {
    var perSlot := CommitteesPerSlot(|active|);
    var count := perSlot * SLOTS_PER_EPOCH;
    SliceSize(|active|, count, NumberOf(s, i, perSlot));
    SliceSize(|active|, count, NumberOf(t, j, perSlot));
  }

  lemma EnoughForTarget(n: nat)
    requires n >= SLOTS_PER_EPOCH * TARGET_COMMITTEE_SIZE
    ensures n / (CommitteesPerSlot(n) * SLOTS_PER_EPOCH) >= TARGET_COMMITTEE_SIZE
  {
    var perSlot := CommitteesPerSlot(n);
    var count := perSlot * SLOTS_PER_EPOCH;
    assert n >= TARGET_COMMITTEE_SIZE * count;
    DivOrdered(TARGET_COMMITTEE_SIZE * count, n, count);
    DivUnique(TARGET_COMMITTEE_SIZE * count, count, TARGET_COMMITTEE_SIZE, 0);
  }

  /** Every committee of an epoch reaches the target size exactly from one full committee per slot up. */
  lemma TargetSizeExactly(active: seq<nat>, seed: Seed)
    ensures (forall slot: nat, index: nat :: index < CommitteesPerSlot(|active|) ==>
               |BeaconCommittee(active, seed, slot, index)| >= TARGET_COMMITTEE_SIZE)
            <==> |active| >= SLOTS_PER_EPOCH * TARGET_COMMITTEE_SIZE
  {
    var n, perSlot := |active|, CommitteesPerSlot(|active|);
    if n >= SLOTS_PER_EPOCH * TARGET_COMMITTEE_SIZE {
      EnoughForTarget(n);
      forall slot: nat, index: nat | index < perSlot ensures |BeaconCommittee(active, seed, slot, index)| >= TARGET_COMMITTEE_SIZE {
        SliceSize(n, perSlot * SLOTS_PER_EPOCH, NumberOf(slot, index, perSlot));
      }
    } else {
      assert |BeaconCommittee(active, seed, 0, 0)| < TARGET_COMMITTEE_SIZE;
    }
  }

  /** The number of committees of a slot: as many as leave every committee of the epoch 128 members on average, but not
      more than 64, and not less than one. */
  lemma CommitteeCountExactly(active: nat, count: nat)
    requires 1 <= count <= 64
    requires count == 1 || 128 * 32 * count <= active
    requires count == 64 || active < 128 * 32 * (count + 1)
    ensures CommitteesPerSlot(active) == count
  {
  }
}
