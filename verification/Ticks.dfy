/** The clock of the store: what ticking does in closed form, when it depends on the path, and how the
    client's own tick and slot clock compare with it. */
module Ticks {
  import opened Arithmetic
  import opened Primitives
  import opened ForkChoice

  // ---------- on_tick in closed form ----------

  /** The store at `time` in one step: a later slot clears the boost, a later epoch pulls up. */
  function Moved(st: Store, time: nat): Store
    requires st.genesisTime <= time
  {
    var slot := SlotAt(st.genesisTime, time);
    WithPullUp(st.(time := time, boostRoot := if slot > CurrentSlot(st) then ZERO_ROOT else st.boostRoot),
               EpochAt(slot) > CurrentStoreEpoch(st))
  }

  function WithPullUp(st: StoreFields, pull: bool): StoreFields {
    st.(justified := if pull then Later(st.justified, st.unrealizedJustified) else st.justified,
        finalized := if pull then Later(st.finalized, st.unrealizedFinalized) else st.finalized)
  }

  lemma EpochStep(slot: nat)
    ensures EpochAt(slot + 1) == EpochAt(slot) + if (slot + 1) % SLOTS_PER_EPOCH == 0 then 1 else 0
  {
  }

  lemma EpochMonotone(a: nat, b: nat)
    requires a <= b
    ensures EpochAt(a) <= EpochAt(b)
  {
  }

  /** Two moves forward in a row are one. */
  lemma MovedTwice(st: Store, t1: nat, t2: nat)
    requires st.genesisTime <= t1 && st.genesisTime <= t2
    requires CurrentSlot(st) <= SlotAt(st.genesisTime, t1) <= SlotAt(st.genesisTime, t2)
    ensures Moved(Moved(st, t1), t2) == Moved(st, t2)
  {
    EpochMonotone(CurrentSlot(st), SlotAt(st.genesisTime, t1));
    EpochMonotone(SlotAt(st.genesisTime, t1), SlotAt(st.genesisTime, t2));
  }

  // A per-slot tick by at most one slot is a move.
  lemma PerSlotIsMove(st: Store, time: nat)
    requires st.genesisTime <= time && SlotAt(st.genesisTime, time) <= CurrentSlot(st) + 1
    ensures OnTickPerSlot(st, time) == Moved(st, time)
  {
    var slot := SlotAt(st.genesisTime, time);
    if slot == CurrentSlot(st) + 1 {
      EpochStep(CurrentSlot(st));
    } else {
      EpochMonotone(slot, CurrentSlot(st));
    }
  }

  lemma {:induction false} CatchUpIsMove(st: Store, slot: nat)
    requires CurrentSlot(st) < slot
    ensures CatchUp(st, slot) == Moved(st, SlotTime(st, slot))
    decreases slot - CurrentSlot(st)
  {
    var next := CurrentSlot(st) + 1;
    SlotTimeExact(st, next);
    SlotTimeExact(st, slot);
    PerSlotIsMove(st, SlotTime(st, next));
    var t := Moved(st, SlotTime(st, next));
    if next < slot {
      CatchUpIsMove(t, slot);
      MovedTwice(st, SlotTime(st, next), SlotTime(st, slot));
    }
  }

  /** However far the clock has fallen behind, `on_tick` is one move. */
  lemma TickIsMove(st: Store, time: nat)
    requires st.genesisTime <= time
    ensures OnTick(st, time) == Some(Moved(st, time))
  {
    var slot := SlotAt(st.genesisTime, time);
    if CurrentSlot(st) < slot {
      SlotTimeExact(st, slot);
      CatchUpIsMove(st, slot);
      PerSlotIsMove(CatchUp(st, slot), time);
      MovedTwice(st, SlotTime(st, slot), time);
    } else {
      PerSlotIsMove(st, time);
    }
  }

  // ---------- path independence ----------

  /** Pulling up would change nothing. */
  predicate NothingToPull(st: StoreFields) {
    st.unrealizedJustified.epoch <= st.justified.epoch && st.unrealizedFinalized.epoch <= st.finalized.epoch
  }

  /** Ticking through `t1` shows exactly when a boost was cleared, or something pulled up, on the one way
      and not on the other; no order of the three times is assumed. */
  lemma TickPathExactly(st: Store, t1: nat, t2: nat)
    requires st.genesisTime <= t1 && st.genesisTime <= t2
    ensures var s0, s1, s2 := CurrentSlot(st), SlotAt(st.genesisTime, t1), SlotAt(st.genesisTime, t2);
      OnTick(OnTick(st, t1).value, t2) == OnTick(st, t2) <==>
        && (st.boostRoot == ZERO_ROOT || (s1 > s0 || s2 > s1 <==> s2 > s0))
        && (NothingToPull(st) ||
            (EpochAt(s1) > EpochAt(s0) || EpochAt(s2) > EpochAt(s1) <==> EpochAt(s2) > EpochAt(s0)))
  {
    TickIsMove(st, t1);
    TickIsMove(st, t2);
    TickIsMove(Moved(st, t1), t2);
  }

  /** Ticking forward is path independent. */
  lemma TickPathIndependent(st: Store, t1: nat, t2: nat)
    requires st.time <= t1 <= t2
    ensures OnTick(st, t1).Some? && OnTick(OnTick(st, t1).value, t2) == OnTick(st, t2)
  {
    TickPathExactly(st, t1, t2);
    EpochMonotone(CurrentSlot(st), SlotAt(st.genesisTime, t1));
    EpochMonotone(SlotAt(st.genesisTime, t1), SlotAt(st.genesisTime, t2));
  }

  // ---------- the client's own tick ----------

  // Integer division as the client's language has it, toward zero.
  function Div(a: int, b: nat): int
    requires b > 0
  {
    if a >= 0 then a / b else -((-a) / b)
  }

  /** The slot the client computes for a time, also before genesis. */
  function ClientSlotAt(genesisTime: nat, time: nat): int {
    Div(time - genesisTime, SECONDS_PER_SLOT)
  }

  function ClientTickPerSlot(st: StoreFields, time: nat): StoreFields {
    var previous, current := ClientSlotAt(st.genesisTime, st.time), ClientSlotAt(st.genesisTime, time);
    var t := st.(time := time);
    if current > previous then
      WithPullUp(t.(boostRoot := ZERO_ROOT), current - Div(current, SLOTS_PER_EPOCH) * SLOTS_PER_EPOCH == 0)
    else
      t
  }

  /** The catch-up ticks of the client, at the times `slot * SECONDS_PER_SLOT`: the genesis time is missing. */
  function ClientCatchUp(st: StoreFields, slot: nat, last: nat): StoreFields
    decreases last + 1 - slot
  {
    if slot > last then st
    else ClientCatchUp(ClientTickPerSlot(st, slot * SECONDS_PER_SLOT), slot + 1, last)
  }

  function ClientTick(st: Store, time: nat): StoreFields
    requires st.genesisTime <= time
  {
    ClientTickPerSlot(ClientCatchUp(st, CurrentSlot(st) + 1, SlotAt(st.genesisTime, time)), time)
  }

  /** A tick at `time` after one in slot `previous` looks like the start of an epoch. */
  predicate StartsEpoch(genesisTime: nat, previous: int, time: nat) {
    ClientSlotAt(genesisTime, time) > previous && ClientSlotAt(genesisTime, time) % SLOTS_PER_EPOCH == 0
  }

  /** The catch-up tick for slot `k`, right after the one for `k - 1`, does. */
  predicate WrongStart(genesisTime: nat, k: nat) {
    k > 0 && StartsEpoch(genesisTime, ClientSlotAt(genesisTime, (k - 1) * SECONDS_PER_SLOT), k * SECONDS_PER_SLOT)
  }

  predicate WrongStartIn(genesisTime: nat, from: nat, to: nat) {
    exists k :: from <= k <= to && WrongStart(genesisTime, k)
  }

  /** Does the client pull up on the way from slot `from` to `to`? */
  predicate ClientPulls(genesisTime: nat, from: nat, to: nat) {
    || to % SLOTS_PER_EPOCH == 0
    || StartsEpoch(genesisTime, from, (from + 1) * SECONDS_PER_SLOT)
    || WrongStartIn(genesisTime, from + 2, to)
  }

  lemma MultipleOfEpoch(slot: int)
    ensures slot - Div(slot, SLOTS_PER_EPOCH) * SLOTS_PER_EPOCH == 0 <==> slot % SLOTS_PER_EPOCH == 0
  {
  }

  lemma PulledTwice(st: StoreFields, p: bool, q: bool)
    ensures WithPullUp(WithPullUp(st, p), q) == WithPullUp(st, p || q)
  {
  }

  /** `t` is `st` at `time`, pulled up or not; its boost is left open. */
  predicate MovedTo(st: StoreFields, time: nat, pull: bool, t: StoreFields) {
    t == WithPullUp(st.(time := time, boostRoot := t.boostRoot), pull)
  }

  lemma MovedOn(st: StoreFields, t: StoreFields, u: StoreFields, time1: nat, time2: nat, p: bool, q: bool)
    requires MovedTo(st, time1, p, t) && MovedTo(t, time2, q, u)
    ensures MovedTo(st, time2, p || q, u)
  {
    PulledTwice(st.(time := time2, boostRoot := u.boostRoot), p, q);
  }

  lemma ClientTickMoves(st: StoreFields, time: nat)
    ensures MovedTo(st, time, StartsEpoch(st.genesisTime, ClientSlotAt(st.genesisTime, st.time), time), ClientTickPerSlot(st, time))
    ensures ClientTickPerSlot(st, time).boostRoot ==
      if ClientSlotAt(st.genesisTime, time) > ClientSlotAt(st.genesisTime, st.time) then ZERO_ROOT else st.boostRoot
  {
    MultipleOfEpoch(ClientSlotAt(st.genesisTime, time));
  }

  lemma {:induction false} ClientCatchUpMoves(st: StoreFields, slot: nat, last: nat)
    requires 0 < slot <= last + 1 && st.time == (slot - 1) * SECONDS_PER_SLOT
    ensures MovedTo(st, last * SECONDS_PER_SLOT, WrongStartIn(st.genesisTime, slot, last), ClientCatchUp(st, slot, last))
    ensures st.boostRoot == ZERO_ROOT ==> ClientCatchUp(st, slot, last).boostRoot == ZERO_ROOT
    decreases last + 1 - slot
  {
    if slot <= last {
      ClientTickMoves(st, slot * SECONDS_PER_SLOT);
      var t := ClientTickPerSlot(st, slot * SECONDS_PER_SLOT);
      ClientCatchUpMoves(t, slot + 1, last);
      MovedOn(st, t, ClientCatchUp(st, slot, last), slot * SECONDS_PER_SLOT, last * SECONDS_PER_SLOT,
              WrongStart(st.genesisTime, slot), WrongStartIn(st.genesisTime, slot + 1, last));
      assert WrongStartIn(st.genesisTime, slot, last) <==>
        WrongStart(st.genesisTime, slot) || WrongStartIn(st.genesisTime, slot + 1, last);
    }
  }

  // A catch-up time lies one slot early or more, unless the genesis time is zero.
  lemma CatchUpSlot(genesisTime: nat, k: nat)
    requires k > 0
    ensures genesisTime > 0 ==> ClientSlotAt(genesisTime, k * SECONDS_PER_SLOT) < k
    ensures genesisTime == 0 ==> ClientSlotAt(genesisTime, k * SECONDS_PER_SLOT) == k
  {
  }

  /** The client's tick in closed form. */
  lemma ClientTickIsMove(st: Store, time: nat)
    requires st.genesisTime <= time
    ensures var from, to := CurrentSlot(st), SlotAt(st.genesisTime, time);
      ClientTick(st, time) ==
        if to <= from then st.(time := time)
        else WithPullUp(st.(time := time, boostRoot := ZERO_ROOT), ClientPulls(st.genesisTime, from, to))
  {
    var g, from, to := st.genesisTime, CurrentSlot(st), SlotAt(st.genesisTime, time);
    assert ClientSlotAt(g, st.time) == from && ClientSlotAt(g, time) == to;
    if to > from {
      var first := from + 1;
      ClientTickMoves(st, first * SECONDS_PER_SLOT);
      var t := ClientTickPerSlot(st, first * SECONDS_PER_SLOT);
      ClientCatchUpMoves(t, first + 1, to);
      var u := ClientCatchUp(st, first, to);
      var p, q := StartsEpoch(g, from, first * SECONDS_PER_SLOT), WrongStartIn(g, first + 1, to);
      MovedOn(st, t, u, first * SECONDS_PER_SLOT, to * SECONDS_PER_SLOT, p, q);
      ClientTickMoves(u, time);
      ClientArrives(g, from, to, time);
      MovedOn(st, u, ClientTick(st, time), to * SECONDS_PER_SLOT, time, p || q,
              StartsEpoch(g, ClientSlotAt(g, to * SECONDS_PER_SLOT), time));
      CatchUpSlot(g, first);
    }
  }

  // The last tick sees a new slot, except with a genesis time of zero, where the catch-up has seen it.
  lemma ClientArrives(genesisTime: nat, from: nat, to: nat, time: nat)
    requires from < to && genesisTime <= time && to == SlotAt(genesisTime, time)
    ensures genesisTime > 0 ==> ClientSlotAt(genesisTime, time) > ClientSlotAt(genesisTime, to * SECONDS_PER_SLOT)
    ensures ClientPulls(genesisTime, from, to) <==>
      || StartsEpoch(genesisTime, from, (from + 1) * SECONDS_PER_SLOT)
      || WrongStartIn(genesisTime, from + 2, to)
      || StartsEpoch(genesisTime, ClientSlotAt(genesisTime, to * SECONDS_PER_SLOT), time)
  {
    CatchUpSlot(genesisTime, to);
    if genesisTime == 0 && to % SLOTS_PER_EPOCH == 0 && to > from + 1 {
      CatchUpSlot(genesisTime, to - 1);
      assert WrongStart(genesisTime, to);
    }
  }

  /** The client's tick agrees with the specified one exactly when both pull up, neither does, or there is
      nothing to pull up. */
  lemma ClientTickExactly(st: Store, time: nat)
    requires st.genesisTime <= time
    ensures var from, to := CurrentSlot(st), SlotAt(st.genesisTime, time);
      OnTick(st, time) == Some(ClientTick(st, time)) <==>
        to <= from || NothingToPull(st) || (ClientPulls(st.genesisTime, from, to) <==> EpochAt(to) > EpochAt(from))
  {
    TickIsMove(st, time);
    ClientTickIsMove(st, time);
    if SlotAt(st.genesisTime, time) <= CurrentSlot(st) {
      EpochMonotone(SlotAt(st.genesisTime, time), CurrentSlot(st));
    }
  }

  /** Ticks that never skip a whole slot agree, so the fault needs a clock that fell behind. */
  lemma ClientTickWithinOneSlot(st: Store, time: nat)
    requires st.genesisTime <= time && SlotAt(st.genesisTime, time) <= CurrentSlot(st) + 1
    ensures OnTick(st, time) == Some(ClientTick(st, time))
  {
    ClientTickExactly(st, time);
    EpochStep(CurrentSlot(st));
    CatchUpSlot(st.genesisTime, CurrentSlot(st) + 1);
  }

  const MAINNET_GENESIS_TIME: nat := 1606824023

  /** On mainnet, a tick from slot 31 to slot 33 misses the epoch boundary between them. */
  lemma ClientTickMissesEpoch(st: Store)
    requires st.genesisTime == MAINNET_GENESIS_TIME && CurrentSlot(st) == 31 && !NothingToPull(st)
    ensures OnTick(st, SlotTime(st, 33)) != Some(ClientTick(st, SlotTime(st, 33)))
  {
    SlotTimeExact(st, 33);
    ClientTickExactly(st, SlotTime(st, 33));
    assert !StartsEpoch(st.genesisTime, 31, 32 * SECONDS_PER_SLOT);
    assert !WrongStart(st.genesisTime, 33);
  }

  // ---------- the client's slot clock ----------

  datatype Third = FirstThird | SecondThird | LastThird

  /** `compute_slot`: counts thirds of slots, for any slot length. */
  function ComputeSlot(secondsPerSlot: nat, genesisTime: nat, time: nat): (nat, Third)
    requires secondsPerSlot > 0 && genesisTime <= time
  {
    var thirds := (time - genesisTime) * 3 / secondsPerSlot;
    (thirds / 3, if thirds % 3 == 0 then FirstThird else if thirds % 3 == 1 then SecondThird else LastThird)
  }

  lemma Spread(slot: nat, third: nat, s: nat)
    ensures (slot * 3 + third) * s == slot * s * 3 + third * s
  {
  }

  lemma ThirdsOfSlot(s: nat, elapsed: nat, slot: nat, into: nat)
    requires into < s && elapsed == slot * s + into
    ensures 0 <= into * 3 / s < 3 && elapsed * 3 / s == slot * 3 + into * 3 / s
    ensures into * 3 / s == 2 <==> into * 3 >= 2 * s
  {
    var third: nat := if into * 3 < s then 0 else if into * 3 < 2 * s then 1 else 2;
    var rest: nat := into * 3 - third * s;
    DivUnique(into * 3, s, third, rest);
    Spread(slot, third, s);
    DivUnique(elapsed * 3, s, slot * 3 + third, rest);
  }

  /** The slot counted in thirds is the plain quotient, and the third is that of the time into the slot. */
  lemma ComputeSlotExact(secondsPerSlot: nat, genesisTime: nat, time: nat)
    requires secondsPerSlot > 0 && genesisTime <= time
    ensures ComputeSlot(secondsPerSlot, genesisTime, time).0 == (time - genesisTime) / secondsPerSlot
    ensures ComputeSlot(secondsPerSlot, genesisTime, time).1.FirstThird? <==>
      (time - genesisTime) % secondsPerSlot * 3 < secondsPerSlot
    ensures ComputeSlot(secondsPerSlot, genesisTime, time).1.LastThird? <==>
      (time - genesisTime) % secondsPerSlot * 3 >= 2 * secondsPerSlot
  {
    var elapsed := time - genesisTime;
    var into := elapsed % secondsPerSlot;
    ThirdsOfSlot(secondsPerSlot, elapsed, elapsed / secondsPerSlot, into);
    if into * 3 < secondsPerSlot {
      DivUnique(into * 3, secondsPerSlot, 0, into * 3);
    } else {
      MulOrdered(into * 3 / secondsPerSlot, 0, secondsPerSlot);
    }
  }

  /** After a tick, the slot clock and the store name the same slot. */
  lemma ClockMatchesStore(st: Store, time: nat)
    requires st.genesisTime <= time
    ensures ComputeSlot(SECONDS_PER_SLOT, st.genesisTime, time).0 == CurrentSlot(OnTick(st, time).value)
  {
    TickIsMove(st, time);
    ComputeSlotExact(SECONDS_PER_SLOT, st.genesisTime, time);
  }

  /** The clock's first third is the attesting interval of `on_block` at all times exactly when three
      divides the slot length: true of 12 and 6 seconds, false of Gnosis's 5. */
  lemma FirstThirdIsInterval(secondsPerSlot: nat)
    requires secondsPerSlot > 0
    ensures (forall time: nat :: ComputeSlot(secondsPerSlot, 0, time).1.FirstThird? <==>
               time % secondsPerSlot < secondsPerSlot / INTERVALS_PER_SLOT)
            <==> secondsPerSlot % INTERVALS_PER_SLOT == 0
  {
    forall time: nat ensures ComputeSlot(secondsPerSlot, 0, time).1.FirstThird? <==> time % secondsPerSlot * 3 < secondsPerSlot {
      ComputeSlotExact(secondsPerSlot, 0, time);
    }
    if secondsPerSlot % INTERVALS_PER_SLOT != 0 {
      var time := secondsPerSlot / INTERVALS_PER_SLOT;
      DivUnique(time, secondsPerSlot, 0, time);
      assert !(ComputeSlot(secondsPerSlot, 0, time).1.FirstThird? <==>
               time % secondsPerSlot < secondsPerSlot / INTERVALS_PER_SLOT);
    }
  }
}
