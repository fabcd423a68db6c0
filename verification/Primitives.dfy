/** Values shared by every part of the model: options, presets, checkpoints and slot arithmetic. */
module Primitives {

  datatype Option<+T> = None | Some(value: T)

  // A 32-byte root read as a big-endian number, so that the numeric order is
  // the lexicographic order of the bytes; the all-zero root is `Root()`.
  type Root = nat
  const ZERO_ROOT: Root := 0

  const SLOTS_PER_EPOCH: nat := 32
  const SLOTS_PER_HISTORICAL_ROOT: nat := 8192
  const SECONDS_PER_SLOT: nat := 12
  const INTERVALS_PER_SLOT: nat := 3
  const EFFECTIVE_BALANCE_INCREMENT: nat := 1_000_000_000
  const FAR_FUTURE_EPOCH: nat := 0xFFFF_FFFF_FFFF_FFFF
  const UINT64_LIMIT: nat := 0x1_0000_0000_0000_0000

  datatype Checkpoint = Checkpoint(epoch: nat, root: Root)

  // The FFG values of a genesis state carry a zero stub for the root.
  const GENESIS_CHECKPOINT := Checkpoint(0, ZERO_ROOT)

  function EpochAt(slot: nat): (e: nat)
    ensures e * SLOTS_PER_EPOCH <= slot < e * SLOTS_PER_EPOCH + SLOTS_PER_EPOCH
  {
    slot / SLOTS_PER_EPOCH
  }

  function StartSlot(epoch: nat): nat {
    epoch * SLOTS_PER_EPOCH
  }

  function Max(a: nat, b: nat): nat {
    if a < b then b else a
  }

  /** The sum of `weights[i]` over the indices in `s`. */
  function SumOver(weights: seq<nat>, s: set<nat>): nat {
    if weights == [] then 0
    else
      var last := |weights| - 1;
      SumOver(weights[..last], s) + if last in s then weights[last] else 0
  }

  lemma {:induction false} SumOverMonotone(weights: seq<nat>, s: set<nat>, t: set<nat>)
    requires forall i :: 0 <= i < |weights| && i in s ==> i in t
    ensures SumOver(weights, s) <= SumOver(weights, t)
  {
    if weights != [] {
      SumOverMonotone(weights[..|weights| - 1], s, t);
    }
  }

  // Inclusion and exclusion, which turns two quorums into a common third.
  lemma {:induction false} SumOverUnion(weights: seq<nat>, s: set<nat>, t: set<nat>)
    ensures SumOver(weights, s) + SumOver(weights, t) == SumOver(weights, s + t) + SumOver(weights, s * t)
  {
    if weights != [] {
      SumOverUnion(weights[..|weights| - 1], s, t);
    }
  }

  ghost predicate Distinct<T(!new)>(s: seq<T>) {
    forall i, j :: 0 <= i < j < |s| ==> s[i] != s[j]
  }

  lemma DistinctAppend<T(!new)>(s: seq<T>, x: T)
    requires Distinct(s) && x !in s
    ensures Distinct(s + [x])
  {
  }
}
