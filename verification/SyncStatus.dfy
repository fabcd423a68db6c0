/** Optimistic sync: the ranges requested, the count of slots still to come, and the `syncing` flag. */
module SyncStatus {
  import opened Primitives

  const BLOCKS_PER_CHUNK: nat := 16
  const HEAD_DRIFT_ALERT: nat := 12

  datatype Range = Range(first: int, last: int)

  function Size(r: Range): int {
    r.last - r.first + 1
  }

  function SlotTotal(ranges: seq<Range>): int {
    if ranges == [] then 0 else Size(ranges[0]) + SlotTotal(ranges[1..])
  }

  /** First and last slot of every chunk of the range `first..last`, which counts down when `first > last`. */
  function Chunks(first: int, last: int): seq<Range>
    decreases if first <= last then last - first else first - last
  {
    if first <= last then
      if last < first + BLOCKS_PER_CHUNK then [Range(first, last)]
      else [Range(first, first + BLOCKS_PER_CHUNK - 1)] + Chunks(first + BLOCKS_PER_CHUNK, last)
    else
      if first - BLOCKS_PER_CHUNK < last then [Range(first, last)]
      else [Range(first, first - BLOCKS_PER_CHUNK + 1)] + Chunks(first - BLOCKS_PER_CHUNK, last)
  }

  /** A request for no slots is not sent. */
  function Requested(chunks: seq<Range>): seq<Range> {
    if chunks == [] then []
    else (if Size(chunks[0]) == 0 then [] else [chunks[0]]) + Requested(chunks[1..])
  }

  /** `SyncBlocks.run`: the total it returns, and the ranges it asks for. */
  function RunSync(head: nat, current: int): (int, seq<Range>) {
    if current <= 0 then (0, [])
    else var chunks := Chunks(head + 1, current); (SlotTotal(chunks), Requested(chunks))
  }

  /** Non-empty ranges of at most a chunk each, one after the other, from `first` up to `last`. */
  ghost predicate Tiles(ranges: seq<Range>, first: int, last: int) {
    if ranges == [] then first == last + 1
    else
      && ranges[0].first == first && 1 <= Size(ranges[0]) <= BLOCKS_PER_CHUNK
      && Tiles(ranges[1..], ranges[0].last + 1, last)
  }

  lemma {:induction false} AscendingTiles(first: int, last: int)
    requires first <= last
    ensures var c := Chunks(first, last); Tiles(c, first, last) && Requested(c) == c && SlotTotal(c) == last - first + 1
    ensures 16 * (|Chunks(first, last)| - 1) <= last - first < 16 * |Chunks(first, last)|
    decreases last - first
  {
    var c := Chunks(first, last);
    if last < first + BLOCKS_PER_CHUNK {
      assert c[1..] == [];
    } else {
      AscendingTiles(first + BLOCKS_PER_CHUNK, last);
      assert c[1..] == Chunks(first + BLOCKS_PER_CHUNK, last);
    }
  }

  lemma {:induction false} DescendingTotal(first: int, last: int)
    requires first > last
    ensures first > last + 1 ==> SlotTotal(Chunks(first, last)) < 0
    ensures first == last + 1 ==> SlotTotal(Chunks(first, last)) == 0 && Requested(Chunks(first, last)) == []
    decreases first - last
  {
    var c := Chunks(first, last);
    if first - BLOCKS_PER_CHUNK < last {
      assert c[1..] == [];
    } else {
      var rest := first - BLOCKS_PER_CHUNK;
      assert c[1..] == Chunks(rest, last);
      if rest == last {
        AscendingTiles(rest, last);
      } else {
        DescendingTotal(rest, last);
      }
    }
  }

  /** What is not requested has no slots, so the total is always that of the requests. */
  lemma {:induction false} RequestedTotal(chunks: seq<Range>)
    ensures SlotTotal(Requested(chunks)) == SlotTotal(chunks)
  {
    if chunks != [] {
      RequestedTotal(chunks[1..]);
      if Size(chunks[0]) == 0 {
        assert Requested(chunks) == Requested(chunks[1..]);
      } else {
        assert Requested(chunks)[1..] == Requested(chunks[1..]);
      }
    }
  }

  lemma TotalOfRequests(head: nat, current: int)
    ensures RunSync(head, current).0 == SlotTotal(RunSync(head, current).1)
  {
    if current > 0 { RequestedTotal(Chunks(head + 1, current)); }
  }

  /** Is the store's head not ahead of its clock, or the chain not begun? */
  predicate HeadInTime(head: nat, current: int) {
    current <= 0 || head <= current
  }

  /** The total is the number of slots from the head up to the current slot, and the requests tile exactly
      those slots, as few as chunks of 16 allow, if and only if the head is in time; ahead of the clock the total is negative. */
  lemma RunSyncExactly(head: nat, current: int)
    ensures var (total, ranges) := RunSync(head, current);
      && (HeadInTime(head, current) <==> total >= 0)
      && (current <= 0 ==> total == 0 && ranges == [])
      && (current > 0 && head <= current ==> total == current - head && Tiles(ranges, head + 1, current))
      && (current > 0 && head < current ==> 16 * (|ranges| - 1) < total <= 16 * |ranges|)
      && total == SlotTotal(ranges)
  {
    TotalOfRequests(head, current);
    if current > 0 {
      if head < current {
        AscendingTiles(head + 1, current);
      } else {
        DescendingTotal(head + 1, current);
      }
    }
  }

  lemma {:induction false} TilesDisjoint(ranges: seq<Range>, first: int, last: int, i: nat, j: nat)
    requires Tiles(ranges, first, last) && i < j < |ranges|
    ensures first <= ranges[i].first && ranges[i].last < ranges[j].first
  {
    if i > 0 {
      TilesDisjoint(ranges[1..], ranges[0].last + 1, last, i - 1, j - 1);
    } else {
      TilesBound(ranges[1..], ranges[0].last + 1, last, j - 1);
    }
  }

  lemma {:induction false} TilesBound(ranges: seq<Range>, first: int, last: int, j: nat)
    requires Tiles(ranges, first, last) && j < |ranges|
    ensures first <= ranges[j].first
  {
    if j > 0 { TilesBound(ranges[1..], ranges[0].last + 1, last, j - 1); }
  }

  // ---------- what the server keeps ----------

  /** The two fields of the server; `remaining` is absent until the first sync. */
  datatype Status = Status(remaining: Option<int>, syncing: bool)

  /** A downloaded range is subtracted; before the first sync the update raises. */
  function Reported(s: Status, r: Range): Option<Status> {
    if s.remaining.None? then None else Some(s.(remaining := Some(s.remaining.value - Size(r))))
  }

  /** `update_syncing_status`, with whether it schedules a sync. */
  function Updated(s: Status, slot: int, head: int): (Status, bool) {
    if !s.syncing && slot - head >= HEAD_DRIFT_ALERT then (s.(syncing := true), true)
    else if s.syncing && s.remaining == Some(0) && slot == head then (s.(syncing := false), false)
    else (s, false)
  }

  // ---------- runs ----------

  datatype System = System(
    status: Status,
    outstanding: seq<Range>,   // requested, not yet reported as downloaded
    scheduled: nat,            // sync messages on their way to the server
    crashed: bool)

  /** The server starts out syncing, with one sync message scheduled. */
  const START := System(Status(None, true), [], 1, false)

  datatype Event =
    | Sync(head: nat, current: int)
    | Downloaded(i: nat)
    | Failed(i: nat)             // a range without retries left: only logged
    | Tick(slot: nat, head: nat)

  /** A range is reported as downloaded at most once: its response handler runs once. */
  predicate Enabled(s: System, e: Event) {
    !s.crashed &&
    match e
    case Sync(_, _) => s.scheduled > 0
    case Downloaded(i) => i < |s.outstanding|
    case Failed(i) => i < |s.outstanding|
    case Tick(_, _) => true
  }

  function Next(s: System, e: Event): System
    requires Enabled(s, e)
  {
    match e
    case Sync(head, current) =>
      var (total, ranges) := RunSync(head, current);
      s.(status := s.status.(remaining := Some(total)), outstanding := s.outstanding + ranges, scheduled := s.scheduled - 1)
    case Downloaded(i) =>
      var t := s.(outstanding := s.outstanding[..i] + s.outstanding[i + 1..]);
      var status := Reported(s.status, s.outstanding[i]);
      if status.None? then t.(crashed := true) else t.(status := status.value)
    case Failed(_) => s
    case Tick(slot, head) =>
      var (status, schedules) := Updated(s.status, slot, head);
      s.(status := status, scheduled := if schedules then s.scheduled + 1 else s.scheduled)
  }

  /** `subscribe_if_no_blocks` takes its subscribing branch in this step. */
  predicate Subscribes(s: System, e: Event)
    requires Enabled(s, e)
  {
    (e.Sync? || e.Downloaded?) && Next(s, e).status.remaining.Some? && Next(s, e).status.remaining.value <= 0
  }

  /** The first `n` steps of a run; nothing is assumed about the order of messages. */
  ghost predicate IsRun(events: nat -> Event, states: nat -> System, n: nat) {
    && states(0) == START
    && (forall k: nat :: k < n ==> Enabled(states(k), events(k)) && states(k + 1) == Next(states(k), events(k)))
  }

  lemma {:induction false} TotalConcat(a: seq<Range>, b: seq<Range>)
    ensures SlotTotal(a + b) == SlotTotal(a) + SlotTotal(b)
  {
    if a == [] {
      assert a + b == b;
    } else {
      TotalConcat(a[1..], b);
      assert (a + b)[1..] == a[1..] + b;
    }
  }

  lemma TotalWithout(a: seq<Range>, i: nat)
    requires i < |a|
    ensures SlotTotal(a[..i] + a[i + 1..]) == SlotTotal(a) - Size(a[i])
  {
    TotalConcat(a[..i], a[i + 1..]);
    TotalConcat(a[..i], a[i..]);
    assert a == a[..i] + a[i..];
  }

  // ---------- what the count is, in every run ----------

  /** The slots that were still outstanding when the latest sync started. */
  ghost function Overlap(events: nat -> Event, states: nat -> System, n: nat): int {
    if n == 0 then 0
    else if events(n - 1).Sync? then SlotTotal(states(n - 1).outstanding)
    else Overlap(events, states, n - 1)
  }

  /** The server's count, `short` slots short of what is outstanding; before the first sync there is neither. */
  ghost predicate CountedShort(s: System, short: int) {
    && !s.crashed
    && (s.status.remaining.None? ==> s.outstanding == [])
    && (s.status.remaining.Some? ==> s.status.remaining.value == SlotTotal(s.outstanding) - short)
  }

  lemma CountStep(s: System, e: Event, short: int)
    requires CountedShort(s, short) && Enabled(s, e)
    ensures CountedShort(Next(s, e), if e.Sync? then SlotTotal(s.outstanding) else short)
  {
    match e
    case Sync(head, current) =>
      TotalOfRequests(head, current);
      TotalConcat(s.outstanding, RunSync(head, current).1);
    case Downloaded(i) => TotalWithout(s.outstanding, i);
    case Failed(_) =>
    case Tick(_, _) =>
  }

  /** In every run, whatever the order of messages: the count is what is outstanding less what was outstanding
      at the start of the latest sync, and its update never raises. */
  lemma {:induction false} RemainingExactly(events: nat -> Event, states: nat -> System, n: nat)
    requires IsRun(events, states, n)
    ensures CountedShort(states(n), Overlap(events, states, n))
  {
    if n > 0 {
      RemainingExactly(events, states, n - 1);
      var k: nat := n - 1;
      CountStep(states(k), events(k), Overlap(events, states, k));
    }
  }

  ghost predicate CountRight(s: System) {
    s.status.remaining.Some? ==> s.status.remaining.value == SlotTotal(s.outstanding)
  }

  /** The count is right throughout a run if and only if every sync of it starts with no slot outstanding. */
  lemma CountRightExactly(events: nat -> Event, states: nat -> System, n: nat)
    requires IsRun(events, states, n)
    ensures (forall k: nat :: k <= n ==> CountRight(states(k))) <==>
            (forall k: nat :: k < n && events(k).Sync? ==> SlotTotal(states(k).outstanding) == 0)
  {
    if forall k: nat :: k <= n ==> CountRight(states(k)) {
      forall k: nat | k < n && events(k).Sync? ensures SlotTotal(states(k).outstanding) == 0 {
        RemainingExactly(events, states, k + 1);
        assert CountRight(states(k + 1));
      }
    }
    if forall k: nat :: k < n && events(k).Sync? ==> SlotTotal(states(k).outstanding) == 0 {
      forall k: nat | k <= n ensures CountRight(states(k)) {
        NoOverlap(events, states, k);
        RemainingExactly(events, states, k);
      }
    }
  }

  lemma {:induction false} NoOverlap(events: nat -> Event, states: nat -> System, n: nat)
    requires forall k: nat :: k < n && events(k).Sync? ==> SlotTotal(states(k).outstanding) == 0
    ensures Overlap(events, states, n) == 0
  {
    if n > 0 && !events(n - 1).Sync? { NoOverlap(events, states, n - 1); }
  }

  /** In every run gossip is subscribed exactly in the sync and download steps that leave no more outstanding
      than was outstanding at the start of the latest sync. */
  lemma GossipExactly(events: nat -> Event, states: nat -> System, n: nat)
    requires IsRun(events, states, n + 1)
    ensures Subscribes(states(n), events(n)) <==>
            && (events(n).Sync? || events(n).Downloaded?)
            && SlotTotal(states(n + 1).outstanding) <= Overlap(events, states, n + 1)
  {
    RemainingExactly(events, states, n);
    RemainingExactly(events, states, n + 1);
  }

  /** In every run `syncing` turns false exactly at a tick with the head at the current slot and as much
      outstanding as at the start of the latest sync. */
  lemma SyncedExactly(events: nat -> Event, states: nat -> System, n: nat)
    requires IsRun(events, states, n + 1) && states(n).status.syncing
    ensures !states(n + 1).status.syncing <==>
            && events(n).Tick? && events(n).slot == events(n).head && states(n).status.remaining.Some?
            && SlotTotal(states(n).outstanding) == Overlap(events, states, n)
  {
    RemainingExactly(events, states, n);
  }

  /** In every run `syncing` turns true, and a sync is scheduled, exactly at a tick that finds the head twelve slots back
      or more. */
  lemma DriftExactly(events: nat -> Event, states: nat -> System, n: nat)
    requires IsRun(events, states, n + 1) && !states(n).status.syncing
    ensures states(n + 1).status.syncing <==> events(n).Tick? && events(n).head + 12 <= events(n).slot
    ensures states(n + 1).scheduled > states(n).scheduled <==> states(n + 1).status.syncing
  {
    RemainingExactly(events, states, n);
  }

  // ---------- when nothing overlaps ----------

  /** A sync starts with nothing outstanding and with the head in time. */
  predicate Clean(s: System, e: Event) {
    e.Sync? ==> s.outstanding == [] && HeadInTime(e.head, e.current)
  }

  ghost predicate CleanRun(events: nat -> Event, states: nat -> System, n: nat) {
    IsRun(events, states, n) && forall k: nat :: k < n ==> Clean(states(k), events(k))
  }

  ghost predicate SomeSlots(ranges: seq<Range>) {
    forall i :: 0 <= i < |ranges| ==> Size(ranges[i]) >= 1
  }

  lemma {:induction false} TotalPositive(a: seq<Range>)
    requires SomeSlots(a)
    ensures SlotTotal(a) >= |a|
  {
    if a != [] { TotalPositive(a[1..]); }
  }

  lemma {:induction false} TilesSizes(ranges: seq<Range>, first: int, last: int, i: nat)
    requires Tiles(ranges, first, last) && i < |ranges|
    ensures Size(ranges[i]) >= 1
  {
    if i > 0 { TilesSizes(ranges[1..], ranges[0].last + 1, last, i - 1); }
  }

  lemma InTimeSizes(head: nat, current: int)
    requires HeadInTime(head, current)
    ensures SomeSlots(RunSync(head, current).1)
  {
    RunSyncExactly(head, current);
    if current > 0 {
      var ranges := RunSync(head, current).1;
      forall i | 0 <= i < |ranges| ensures Size(ranges[i]) >= 1 { TilesSizes(ranges, head + 1, current, i); }
    }
  }

  lemma {:induction false} CleanSizes(events: nat -> Event, states: nat -> System, n: nat)
    requires CleanRun(events, states, n)
    ensures SomeSlots(states(n).outstanding)
  {
    if n > 0 {
      CleanSizes(events, states, n - 1);
      var e := events(n - 1);
      if e.Sync? { InTimeSizes(e.head, e.current); }
    }
  }

  /** If every sync starts clean, the count is the number of slots outstanding. */
  lemma RemainingIsOutstanding(events: nat -> Event, states: nat -> System, n: nat)
    requires CleanRun(events, states, n)
    ensures CountRight(states(n)) && (states(n).status.remaining == Some(0) ==> states(n).outstanding == [])
    ensures Overlap(events, states, n) == 0 && SlotTotal(states(n).outstanding) >= |states(n).outstanding|
  {
    NoOverlap(events, states, n);
    RemainingExactly(events, states, n);
    CleanSizes(events, states, n);
    TotalPositive(states(n).outstanding);
  }

  /** Then gossip is subscribed in a step that ends with nothing outstanding, and in every such sync step. */
  lemma GossipOnlyAtZero(events: nat -> Event, states: nat -> System, n: nat)
    requires CleanRun(events, states, n + 1)
    ensures Subscribes(states(n), events(n)) <==>
            (events(n).Sync? || events(n).Downloaded?) && states(n + 1).outstanding == []
  {
    GossipExactly(events, states, n);
    RemainingIsOutstanding(events, states, n + 1);
  }

  /** And `syncing` turns false exactly at a tick with the head at the current slot and nothing outstanding. */
  lemma SyncedExactlyWhenDone(events: nat -> Event, states: nat -> System, n: nat)
    requires CleanRun(events, states, n + 1) && states(n).status.syncing
    ensures !states(n + 1).status.syncing <==>
            events(n).Tick? && events(n).slot == events(n).head && states(n).status.remaining.Some? && states(n).outstanding == []
  {
    SyncedExactly(events, states, n);
    RemainingIsOutstanding(events, states, n);
  }

  // ---------- what the design relies on ----------

  /** A scheduled resync arrives before the next tick, and no sync finds the head ahead of the clock. */
  predicate Orderly(s: System, e: Event) {
    match e
    case Sync(head, current) => HeadInTime(head, current)
    case Tick(_, _) => s.status.remaining.Some? ==> s.scheduled == 0
    case _ => true
  }

  ghost predicate Settled(s: System) {
    && s.scheduled <= 1
    && (s.status.remaining.None? ==> s.status.syncing && s.scheduled == 1 && s.outstanding == [])
    && (!s.status.syncing ==> s.outstanding == [])
    && (s.scheduled == 1 ==> s.status.syncing && s.outstanding == [])
  }

  lemma SettledStep(s: System, e: Event)
    requires Settled(s) && CountedShort(s, 0) && SomeSlots(s.outstanding) && Enabled(s, e) && Orderly(s, e)
    ensures Clean(s, e) && Settled(Next(s, e))
  {
    TotalPositive(s.outstanding);
  }

  /** In that order of messages every sync starts clean, so all of the above holds. */
  lemma {:induction false} OrderlyIsClean(events: nat -> Event, states: nat -> System, n: nat)
    requires IsRun(events, states, n) && forall k: nat :: k < n ==> Orderly(states(k), events(k))
    ensures CleanRun(events, states, n) && Settled(states(n))
  {
    if n > 0 {
      var k: nat := n - 1;
      OrderlyIsClean(events, states, k);
      RemainingIsOutstanding(events, states, k);
      RemainingExactly(events, states, k);
      CleanSizes(events, states, k);
      SettledStep(states(k), events(k));
    }
  }

  /** Without it a sync can start with slots outstanding. One late resync is enough: the tick right before it finds the
      head at the current slot and ends the syncing state, the resync then asks for the next slot, and the next drift
      starts a sync while that slot is still outstanding. */
  lemma LateResyncMiscounts()
    ensures var a := Next(Next(START, Sync(0, 0)), Tick(0, 0));
      var b := Next(a, Tick(12, 0));
      var c := Next(Next(b, Tick(12, 12)), Sync(12, 13));
      var d := Next(Next(c, Tick(25, 12)), Sync(12, 25));
      !Orderly(b, Tick(12, 12)) && c.scheduled == 0 && d.status.remaining == Some(13) && SlotTotal(d.outstanding) == 14
  {
    var one, rest := [Range(13, 13)], [Range(13, 25)];
    assert Chunks(13, 13) == one && Chunks(13, 25) == rest;
    assert Requested(one) == one && Requested(rest) == rest;
    assert RunSync(12, 13) == (1, one) && RunSync(12, 25) == (13, rest);
    TotalConcat(one, rest);
  }
}
