/** The swap-or-not shuffle, index by index and for a whole list at once. */
module Shuffling {
  import opened Arithmetic
  import opened Primitives

  type Digest = d: seq<bv8> | |d| == 32 witness seq(32, _ => 0)

  const SHUFFLE_ROUND_COUNT: nat := 90
  const UINT32_LIMIT: nat := 0x1_0000_0000
  const VALIDATOR_REGISTRY_LIMIT: nat := 0x100_0000_0000

  /** What the hashes of one seed give: the pivot of each round, and a digest for every 256 positions. */
  datatype Seed = Seed(pivot: nat -> nat, source: (nat, nat) -> Digest)

  /** The number of the digest for `position`, as the four bytes that are hashed can hold it. */
  function Chunk(position: nat): nat {
    position / 256 % UINT32_LIMIT
  }

  function BitOf(b: bv8, position: nat): bool {
    (b >> (position % 8)) & 1 == 1
  }

  function BitAt(seed: Seed, round: nat, position: nat): bool {
    BitOf(seed.source(round, Chunk(position))[position % 256 / 8], position)
  }

  /** The mirror image of `index` around `pivot`, cyclically. */
  function Flip(pivot: nat, n: nat, index: nat): (flip: nat)
    requires index < n && pivot < n
    ensures flip < n
  {
    if index <= pivot then pivot - index else pivot + n - index
  }

  function PivotOf(seed: Seed, n: nat, round: nat): (pivot: nat)
    requires n > 0
    ensures pivot < n
  {
    seed.pivot(round) % n
  }

  /** One round: the index and its mirror image trade places, or not, on the bit of the higher one. */
  function Round(seed: Seed, n: nat, round: nat, index: nat): (r: nat)
    requires index < n
    ensures r < n
  {
    var flip := Flip(PivotOf(seed, n, round), n, index);
    if BitAt(seed, round, Max(index, flip)) then flip else index
  }

  /** The rounds as one function, which keeps what is out of range. */
  function Rounds(seed: Seed, n: nat): (nat, nat) -> nat {
    (round: nat, x: nat) => if x < n then Round(seed, n, round, x) else x
  }

  function Iterate(f: (nat, nat) -> nat, rounds: nat, x: nat): nat {
    if rounds == 0 then x else f(rounds - 1, Iterate(f, rounds - 1, x))
  }

  function IterateBack(f: (nat, nat) -> nat, rounds: nat, x: nat): nat {
    if rounds == 0 then x else IterateBack(f, rounds - 1, f(rounds - 1, x))
  }

  ghost predicate Involutions(f: (nat, nat) -> nat, n: nat) {
    && (forall r: nat, x: nat :: x < n ==> f(r, x) < n)
    && (forall r: nat, x: nat :: f(r, f(r, x)) == x)
  }

  lemma {:induction false} IterateInRange(f: (nat, nat) -> nat, n: nat, rounds: nat, x: nat)
    requires Involutions(f, n) && x < n
    ensures Iterate(f, rounds, x) < n && IterateBack(f, rounds, x) < n
    decreases rounds
  {
    if rounds > 0 {
      IterateInRange(f, n, rounds - 1, x);
      IterateInRange(f, n, rounds - 1, f(rounds - 1, x));
    }
  }

  lemma {:induction false} IterateUndone(f: (nat, nat) -> nat, n: nat, rounds: nat, x: nat)
    requires Involutions(f, n)
    ensures IterateBack(f, rounds, Iterate(f, rounds, x)) == x
    ensures Iterate(f, rounds, IterateBack(f, rounds, x)) == x
    decreases rounds
  {
    if rounds > 0 {
      IterateUndone(f, n, rounds - 1, x);
      IterateUndone(f, n, rounds - 1, f(rounds - 1, x));
    }
  }

  /** Each round undoes itself. */
  lemma RoundInvolution(seed: Seed, n: nat, round: nat, index: nat)
    requires index < n
    ensures Round(seed, n, round, Round(seed, n, round, index)) == index
  {
  }

  /** In a round two places trade exactly if they add up to the pivot, or to the pivot and once around, and the bit of the
      higher one is set: bit `k % 8` of byte `k % 256 / 8` of the digest of `k / 256`, for place `k`. */
  lemma TradesExactly(seed: Seed, n: nat, round: nat, i: nat, j: nat)
    requires i < n && j < n
    requires i + j == seed.pivot(round) % n || i + j == seed.pivot(round) % n + n
    ensures var k := if i < j then j else i;
      Round(seed, n, round, i) ==
        if (seed.source(round, k / 256 % 0x1_0000_0000)[k % 256 / 8] >> (k % 8)) & 1 == 1 then j else i
  {
    assert Flip(PivotOf(seed, n, round), n, i) == j;
  }

  lemma RoundsInvolutions(seed: Seed, n: nat)
    ensures Involutions(Rounds(seed, n), n)
  {
    var f := Rounds(seed, n);
    forall r: nat, x: nat ensures f(r, f(r, x)) == x {
      if x < n { RoundInvolution(seed, n, r, x); }
    }
  }

  function Shuffled(seed: Seed, n: nat, rounds: nat, index: nat): (r: nat)
    requires index < n
    ensures r < n
  {
    RoundsInvolutions(seed, n);
    IterateInRange(Rounds(seed, n), n, rounds, index);
    Iterate(Rounds(seed, n), rounds, index)
  }

  /** The rounds in reverse order. */
  function Unshuffled(seed: Seed, n: nat, rounds: nat, index: nat): (r: nat)
    requires index < n
    ensures r < n
  {
    RoundsInvolutions(seed, n);
    IterateInRange(Rounds(seed, n), n, rounds, index);
    IterateBack(Rounds(seed, n), rounds, index)
  }

  /** For every seed and count the shuffle is a bijection, with the reversed rounds as its inverse. */
  lemma ShuffleBijective(seed: Seed, n: nat, rounds: nat)
    ensures forall i :: 0 <= i < n ==> Unshuffled(seed, n, rounds, Shuffled(seed, n, rounds, i)) == i
    ensures forall i :: 0 <= i < n ==> Shuffled(seed, n, rounds, Unshuffled(seed, n, rounds, i)) == i
    ensures forall i, j :: 0 <= i < n && 0 <= j < n && Shuffled(seed, n, rounds, i) == Shuffled(seed, n, rounds, j) ==> i == j
  {
    RoundsInvolutions(seed, n);
    forall i | 0 <= i < n
      ensures Unshuffled(seed, n, rounds, Shuffled(seed, n, rounds, i)) == i
      ensures Shuffled(seed, n, rounds, Unshuffled(seed, n, rounds, i)) == i
    {
      IterateUndone(Rounds(seed, n), n, rounds, i);
    }
  }

  // ---------- compute_shuffled_index ----------

  // The source computes the mirror image as a remainder.
  lemma FlipIsRemainder(pivot: nat, n: nat, index: nat)
    requires index < n && pivot < n
    ensures Flip(pivot, n, index) == (pivot + n - index) % n
  {
    if index <= pivot {
      assert pivot + n - index == 1 * n + (pivot - index);
    }
  }

  lemma ChunkFits(position: nat)
    requires position / 256 < UINT32_LIMIT
    ensures Chunk(position) == position / 256
  {
  }

  /** The chunk number of the position that a round looks at fits in 32 bits. */
  predicate Fits(seed: Seed, n: nat, round: nat, index: nat)
    requires index < n
  {
    Max(index, Flip(PivotOf(seed, n, round), n, index)) / 256 < UINT32_LIMIT
  }

  /** One turn of the loop; it fails exactly when the position does not fit. */
  method OneRound(index: nat, n: nat, seed: Seed, round: nat) returns (r: Option<nat>)
    requires index < n
    ensures r.Some? <==> Fits(seed, n, round, index)
    ensures r.Some? ==> r.value == Round(seed, n, round, index)
  {
    var pivot := seed.pivot(round) % n;
    var flip := (pivot + n - index) % n;
    FlipIsRemainder(pivot, n, index);
    var position := Max(index, flip);
    if position / 256 >= UINT32_LIMIT { return None; }
    ChunkFits(position);
    var source := seed.source(round, position / 256);
    var byte := source[position % 256 / 8];
    var bit := (byte >> (position % 8)) & 1;
    r := Some(if bit == 1 then flip else index);
  }

  /** Every position on the way of `index` through the rounds fits. */
  ghost predicate AllFit(seed: Seed, n: nat, rounds: nat, index: nat)
    requires index < n
  {
    forall round: nat :: round < rounds ==> Fits(seed, n, round, Shuffled(seed, n, round, index))
  }

  /** The loop, with its two errors: an index out of range, and a position that does not fit. */
  method ComputeShuffledIndex(index: nat, n: nat, seed: Seed) returns (r: Option<nat>)
    ensures r.Some? <==> index < n && AllFit(seed, n, SHUFFLE_ROUND_COUNT, index)
    ensures r.Some? ==> r.value == Shuffled(seed, n, SHUFFLE_ROUND_COUNT, index)
  {
    if index >= n { return None; }
    var current := index;
    var round: nat := 0;
    while round < SHUFFLE_ROUND_COUNT
      invariant round <= SHUFFLE_ROUND_COUNT && current == Shuffled(seed, n, round, index)
      invariant AllFit(seed, n, round, index)
    {
      r := OneRound(current, n, seed, round);
      if r.None? { return; }
      assert Rounds(seed, n)(round, current) == r.value;
      current := r.value;
      round := round + 1;
    }
    r := Some(current);
  }

  /** Up to the registry limit every index is shuffled. */
  lemma AlwaysFits(seed: Seed, n: nat, rounds: nat, index: nat)
    requires index < n <= VALIDATOR_REGISTRY_LIMIT
    ensures AllFit(seed, n, rounds, index)
  {
  }

  /** No position overflows for any index exactly up to the registry limit. */
  lemma PositionFitsExactly(n: nat)
    requires n > 0
    ensures (forall position: nat :: position < n ==> position / 256 < UINT32_LIMIT) <==> n <= VALIDATOR_REGISTRY_LIMIT
  {
    if n > VALIDATOR_REGISTRY_LIMIT {
      assert (n - 1) / 256 >= UINT32_LIMIT;
    }
  }

  // ---------- shuffling a whole list ----------

  function RoundList<T>(seed: Seed, round: nat, list: seq<T>): (l: seq<T>)
    ensures |l| == |list|
  {
    seq(|list|, i requires 0 <= i < |list| => list[Round(seed, |list|, round, i)])
  }

  function Swapped<T>(list: seq<T>, i: nat, j: nat): (l: seq<T>)
    requires i < |list| && j < |list|
    ensures |l| == |list|
  {
    list[i := list[j]][j := list[i]]
  }

  /** The digest and the byte that the pair loop keeps between positions are those of position `j`. */
  predicate Cached(seed: Seed, round: nat, source: Digest, byte: bv8, j: nat) {
    source == seed.source(round, Chunk(j)) && byte == source[j % 256 / 8]
  }

  // Going down by one position stays in the same digest and byte unless a boundary is crossed.
  lemma CacheStepsDown(j: nat)
    ensures j % 256 != 255 ==> Chunk(j) == Chunk(j + 1)
    ensures j % 8 != 7 ==> j % 256 != 255 && j % 256 / 8 == (j + 1) % 256 / 8
  {
    var chunk, r := j / 256, j % 256;
    DivUnique(j, 8, 32 * chunk + r / 8, r % 8);
    if r != 255 { DivUnique(j + 1, 256, chunk, r + 1); }
    if r % 8 != 7 { DivUnique(r + 1, 8, r / 8, r % 8 + 1); }
  }

  /** The element that ends up at `k` when the pairs mirrored between `lo` and `hi` are swapped by their bits. */
  function MirrorSource(seed: Seed, round: nat, lo: nat, hi: nat, k: nat): int {
    if lo <= k <= hi && BitAt(seed, round, Max(k, lo + hi - k)) then lo + hi - k else k
  }

  /** The pairs `(i, lo + hi - i)`, swapped by the bit of the higher position. The digest is hashed anew
      only every 256 positions, the byte fetched anew only every 8. */
  method SwapMirrored<T>(seed: Seed, round: nat, list: seq<T>, lo: nat, hi: nat) returns (swapped: seq<T>)
    requires lo <= hi + 1 && hi < |list|
    ensures |swapped| == |list|
    ensures forall k :: 0 <= k < |list| ==> swapped[k] == list[MirrorSource(seed, round, lo, hi, k)]
  {
    swapped := list;
    var mirror := (lo + hi + 1) / 2;
    var source := seed.source(round, Chunk(hi));
    var byte := source[hi % 256 / 8];
    for i := lo to mirror
      invariant |swapped| == |list|
      invariant Cached(seed, round, source, byte, if i == lo then hi else lo + hi - i + 1)
      invariant forall k :: 0 <= k < |list| ==>
        swapped[k] == if k < i || lo + hi - i < k then list[MirrorSource(seed, round, lo, hi, k)] else list[k]
    {
      var j := lo + hi - i;
      CacheStepsDown(j);
      if j % 256 == 255 {
        source := seed.source(round, Chunk(j));
      }
      if j % 8 == 7 {
        byte := source[j % 256 / 8];
      }
      assert Cached(seed, round, source, byte, j);
      assert BitOf(byte, j) == BitAt(seed, round, j);
      if BitOf(byte, j) {
        swapped := Swapped(swapped, i, j);
      }
    }
  }

  lemma MirrorIsRound(seed: Seed, n: nat, round: nat, k: nat)
    requires k < n
    ensures var pivot := PivotOf(seed, n, round);
      Round(seed, n, round, k) ==
        if k <= pivot then MirrorSource(seed, round, 0, pivot, k) else MirrorSource(seed, round, pivot + 1, n - 1, k)
  {
  }

  /** One round of `shuffle_list`: first the pairs mirrored up to the pivot, then those after it. */
  method ShuffleRound<T>(seed: Seed, round: nat, list: seq<T>) returns (shuffled: seq<T>)
    requires |list| > 0
    ensures shuffled == RoundList(seed, round, list)
  {
    var pivot := seed.pivot(round) % |list|;
    var lower := SwapMirrored(seed, round, list, 0, pivot);
    shuffled := SwapMirrored(seed, round, lower, pivot + 1, |list| - 1);
    forall k | 0 <= k < |list| ensures shuffled[k] == RoundList(seed, round, list)[k] {
      MirrorIsRound(seed, |list|, round, k);
    }
  }

  function ShuffledList<T>(seed: Seed, list: seq<T>, rounds: nat): (l: seq<T>)
    ensures |l| == |list|
  {
    seq(|list|, i requires 0 <= i < |list| => list[Shuffled(seed, |list|, rounds, i)])
  }

  // Taking the last round first and then the earlier ones is taking the rounds in order, index by index.
  lemma LastRoundFirst<T>(seed: Seed, list: seq<T>, rounds: nat)
    requires rounds > 0
    ensures ShuffledList(seed, RoundList(seed, rounds - 1, list), rounds - 1) == ShuffledList(seed, list, rounds)
  {
    var n := |list|;
    forall i | 0 <= i < n
      ensures RoundList(seed, rounds - 1, list)[Shuffled(seed, n, rounds - 1, i)] == list[Shuffled(seed, n, rounds, i)]
    {
      var inner := Shuffled(seed, n, rounds - 1, i);
      assert Shuffled(seed, n, rounds, i) == Rounds(seed, n)(rounds - 1, inner);
    }
  }

  lemma NothingToShuffle<T>(seed: Seed, list: seq<T>, rounds: nat)
    requires list == [] || rounds == 0
    ensures ShuffledList(seed, list, rounds) == list
  {
  }

  lemma ShuffleStep<T>(seed: Seed, list: seq<T>, once: seq<T>, shuffled: seq<T>, rounds: nat)
    requires rounds > 0 && once == RoundList(seed, rounds - 1, list) && shuffled == ShuffledList(seed, once, rounds - 1)
    ensures shuffled == ShuffledList(seed, list, rounds)
  {
    LastRoundFirst(seed, list, rounds);
  }

  /** `shuffle_list`: the whole list at once, from the last round down to the first, gives every place the
      element that shuffling its index on its own would. */
  method ShuffleList<T>(seed: Seed, input: seq<T>, rounds: nat) returns (shuffled: seq<T>)
    ensures shuffled == ShuffledList(seed, input, rounds)
    decreases rounds
  {
    if input == [] || rounds == 0 {
      NothingToShuffle(seed, input, rounds);
      return input;
    }
    var once := ShuffleRound(seed, rounds - 1, input);
    shuffled := ShuffleList(seed, once, rounds - 1);
    ShuffleStep(seed, input, once, shuffled, rounds);
  }
}
