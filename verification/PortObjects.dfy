/** The two ends of the port as objects. Each carries, as ghost state, the whole system it is a part of, and every
    handler keeps the invariant that the models of the runs establish for that system. */
module PortObjects {
  import opened Primitives
  import Out = OutgoingRequests
  import In = IncomingRequests
  import opened SyncStatus
  import Ticks

  ghost predicate DownloadInvariant(s: System) {
    CountedShort(s, 0) && SomeSlots(s.outstanding) && Settled(s)
  }

  /** The server process: every callback steps the fields of its state map. */
  class Libp2pPort {
    const secondsPerSlot: nat
    const genesisTime: nat
    var requests: map<Out.Id, Out.Handler>
    var blocksRemaining: Option<int>
    var syncing: bool
    var slotData: Option<(nat, Ticks.Third)>
    var subscribed: bool
    ghost var traffic: Out.System   // the requests with the port and the pipes around them
    ghost var download: System      // the sync status with the ranges asked for

    function Current(): Status
      reads this
    {
      Status(blocksRemaining, syncing)
    }

    /** Every unanswered request is stored here and is in exactly one place outside. */
    ghost predicate Correlated()
      reads this
    {
      traffic.requests == requests && Out.Placed(traffic) && Out.Accounted(traffic)
    }

    /** The count is the number of slots outstanding. */
    ghost predicate Counting()
      reads this
    {
      download.status == Current() && DownloadInvariant(download)
    }

    constructor (secondsPerSlot: nat, genesisTime: nat)
      requires secondsPerSlot > 0
      ensures this.genesisTime == genesisTime && this.secondsPerSlot == secondsPerSlot
      ensures Correlated() && traffic == Out.START
      ensures Counting() && download == START
      ensures slotData.None? && !subscribed
    {
      this.secondsPerSlot, this.genesisTime := secondsPerSlot, genesisTime;
      requests, blocksRemaining, syncing, slotData, subscribed := map[], None, true, None, false;
      traffic, download := Out.START, START;
    }

    // ---------- requests ----------

    /** Stores the handler of a request with a fresh UUID: it joins the unanswered ones, and nothing else does. */
    method SendRequest(id: Out.Id, h: Out.Handler)
      requires Correlated() && id !in traffic.issued
      modifies this`requests, this`traffic
      ensures Correlated() && traffic == Out.Next(old(traffic), Out.Send(id, h))
      ensures requests.Keys == old(requests.Keys) + {id} && id !in old(requests) && requests[id] == h
      ensures !Out.HasRun(traffic.ran, id)
    {
      Out.PlacedNext(traffic, Out.Send(id, h));
      Out.AccountedNext(traffic, Out.Send(id, h));
      requests := requests[id := h];
      traffic := Out.Next(traffic, Out.Send(id, h));
    }

    /** What happens at the port leaves the server's map as it is. */
    ghost method PortSteps(e: Out.Event)
      requires Correlated() && (e.PortReads? || e.Finishes?) && Out.Enabled(traffic, e)
      modifies this`traffic
      ensures Correlated() && traffic == Out.Next(old(traffic), e)
    {
      Out.PlacedNext(traffic, e);
      Out.AccountedNext(traffic, e);
      traffic := Out.Next(traffic, e);
    }

    /** Pops the handler of a response. The next response of the pipe always has one: the one it was issued
        for, which has not run before. For an id without a handler nothing changes. */
    method HandleResponse(id: Out.Id) returns (h: Option<Out.Handler>)
      modifies this`requests, this`traffic
      ensures h.None? <==> id !in old(requests)
      ensures id !in requests && forall x :: x != id ==> (x in requests <==> x in old(requests))
      ensures forall x :: x in requests ==> requests[x] == old(requests)[x]
      ensures old(Correlated()) && old(traffic.responses) != [] && id == old(traffic.responses[0]) ==>
                && Correlated() && traffic == Out.Next(old(traffic), Out.ServerReads)
                && h == Some(traffic.issued[id]) && !Out.HasRun(old(traffic.ran), id) && Out.HasRun(traffic.ran, id)
    {
      if Correlated() && traffic.responses != [] && id == traffic.responses[0] {
        NextResponse(traffic);
        traffic := Out.Next(traffic, Out.ServerReads);
      }
      if id in requests {
        h := Some(requests[id]);
        requests := requests - {id};
      } else {
        h := None;
      }
    }

    // ---------- sync ----------

    /** Subscribes if nothing remains, that is, if nothing is outstanding. */
    method SubscribeIfNoBlocks()
      requires blocksRemaining.Some?
      modifies this`subscribed
      ensures subscribed == (old(subscribed) || blocksRemaining.value <= 0)
      ensures Counting() ==> (subscribed <==> old(subscribed) || download.outstanding == [])
    {
      if !(blocksRemaining.value > 0) { subscribed := true; }
      if Counting() { TotalPositive(download.outstanding); }
    }

    /** A range of slots came in with `blocks` blocks in it. The update raises exactly before the first sync,
        which never happens for a range asked for. */
    method AddBlocks(r: Range, blocks: nat, ghost i: nat) returns (raised: bool)
      modifies this`blocksRemaining, this`subscribed, this`download
      ensures raised <==> Reported(old(Current()), r).None?
      ensures raised ==> Current() == old(Current()) && subscribed == old(subscribed)
      ensures !raised ==> Current() == Reported(old(Current()), r).value
                          && subscribed == (old(subscribed) || blocksRemaining.value <= 0)
      ensures old(Counting()) && i < |old(download.outstanding)| && r == old(download.outstanding)[i] ==>
                && !raised && Counting() && download == Next(old(download), Downloaded(i))
                && (subscribed <==> old(subscribed) || download.outstanding == [])
    {
      var missing := r.last - r.first + 1 - blocks;
      match blocksRemaining
      case None => raised := true;
      case Some(n) =>
        ghost var expected := Counting() && i < |download.outstanding| && r == download.outstanding[i];
        blocksRemaining := Some(n - blocks - missing);
        if expected {
          DownloadKept(download, i);
          download := Next(download, Downloaded(i));
        }
        SubscribeIfNoBlocks();
        raised := false;
    }

    /** Starts the scheduled sync: with the head in time, the count is set to the slots from the head to the
        current one, which the requests tile. */
    method SyncBlocks(head: nat, current: int) returns (ranges: seq<Range>)
      modifies this`blocksRemaining, this`subscribed, this`download
      ensures blocksRemaining == Some(SlotTotal(ranges)) && syncing == old(syncing)
      ensures blocksRemaining.value >= 0 <==> HeadInTime(head, current)
      ensures current > 0 && head <= current ==> blocksRemaining.value == current - head && Tiles(ranges, head + 1, current)
      ensures current <= 0 ==> ranges == []
      ensures subscribed == (old(subscribed) || blocksRemaining.value <= 0)
      ensures old(Counting()) && old(download.scheduled) > 0 && HeadInTime(head, current) ==>
                Counting() && download == Next(old(download), Sync(head, current)) && download.outstanding == ranges
    {
      RunSyncExactly(head, current);
      var run := RunSync(head, current);
      if Counting() && download.scheduled > 0 && HeadInTime(head, current) {
        SyncKept(download, head, current);
        download := Next(download, Sync(head, current));
      }
      blocksRemaining, ranges := Some(run.0), run.1;
      SubscribeIfNoBlocks();
    }

    /** A tick moves the slot clock to the plain slot of the time and updates the syncing flag with it;
        before genesis it does nothing. If no sync is on its way, it ends the syncing state only with nothing
        outstanding and the head at the current slot. */
    method OnTick(time: nat, head: nat) returns (schedules: bool)
      requires secondsPerSlot > 0
      modifies this`syncing, this`slotData, this`download
      ensures time < genesisTime ==> !schedules && Current() == old(Current()) && slotData == old(slotData)
      ensures time >= genesisTime ==>
                && slotData.Some? && slotData.value.0 == (time - genesisTime) / secondsPerSlot
                && (Current(), schedules) == Updated(old(Current()), slotData.value.0, head)
      ensures old(Counting()) && (blocksRemaining.Some? ==> old(download.scheduled) == 0) ==> Counting()
      ensures old(Counting()) && old(syncing) && !syncing ==> download.outstanding == [] && slotData.value.0 == head
    {
      if time < genesisTime { return false; }
      Ticks.ComputeSlotExact(secondsPerSlot, genesisTime, time);
      var now := Ticks.ComputeSlot(secondsPerSlot, genesisTime, time);
      if Counting() && (blocksRemaining.Some? ==> download.scheduled == 0) {
        TickKept(download, now.0, head);
        download := Next(download, Tick(now.0, head));
      }
      if Counting() { TotalPositive(download.outstanding); }
      slotData := Some(now);
      if !syncing && now.0 - head >= HEAD_DRIFT_ALERT {
        syncing := true;
        return true;
      } else if syncing && blocksRemaining == Some(0) && now.0 == head {
        syncing := false;
      }
      schedules := false;
    }
  }

  lemma NextResponse(s: Out.System)
    requires Out.Placed(s) && Out.Accounted(s) && s.responses != []
    ensures var id, t := s.responses[0], Out.Next(s, Out.ServerReads);
      && id in s.requests && s.requests[id] == s.issued[id] && !Out.HasRun(s.ran, id)
      && Out.Placed(t) && Out.Accounted(t) && t.requests == s.requests - {id} && t.issued == s.issued && Out.HasRun(t.ran, id)
  {
    assert s.responses[0] in s.responses;
    Out.PlacedNext(s, Out.ServerReads);
    Out.AccountedNext(s, Out.ServerReads);
    Out.FirstResponseRuns(s);
  }

  lemma DownloadKept(s: System, i: nat)
    requires DownloadInvariant(s) && i < |s.outstanding|
    ensures DownloadInvariant(Next(s, Downloaded(i)))
  {
    CountStep(s, Downloaded(i), 0);
    SettledStep(s, Downloaded(i));
  }

  lemma SyncKept(s: System, head: nat, current: int)
    requires DownloadInvariant(s) && s.scheduled > 0 && HeadInTime(head, current)
    ensures DownloadInvariant(Next(s, Sync(head, current)))
    ensures Next(s, Sync(head, current)).outstanding == RunSync(head, current).1
  {
    CountStep(s, Sync(head, current), 0);
    SettledStep(s, Sync(head, current));
    InTimeSizes(head, current);
    assert s.outstanding + RunSync(head, current).1 == RunSync(head, current).1;
  }

  lemma TickKept(s: System, slot: nat, head: nat)
    requires DownloadInvariant(s) && (s.status.remaining.Some? ==> s.scheduled == 0)
    ensures DownloadInvariant(Next(s, Tick(slot, head)))
  {
    CountStep(s, Tick(slot, head), 0);
    SettledStep(s, Tick(slot, head));
  }

  /** The listener of the port: the map of parked channels and the goroutines that share it. */
  class Listener {
    var phases: map<In.Id, In.Phase>
    var pendingMessages: set<In.Id>
    var notifications: seq<In.Id>
    var commands: seq<In.Id>
    var loop: In.Loop

    ghost function Value(): In.System
      reads this
    {
      In.System(phases, pendingMessages, notifications, commands, loop)
    }

    /** Between notification and answer every request keeps its entry and its goroutine; no panic so far. */
    ghost predicate Valid()
      reads this
    {
      In.Travelling(Value()) && In.Entries(Value())
    }

    constructor ()
      ensures Valid() && Value() == In.START
    {
      phases, pendingMessages, notifications, commands, loop := map[], {}, [], [], In.Idle;
    }

    /** A peer opens a stream; libp2p gives every stream an id of its own. */
    method OpenStream(id: In.Id)
      requires Valid() && id !in phases
      modifies this`phases
      ensures Valid() && Value() == In.Next(old(Value()), In.Opens(id))
      ensures In.At(Value(), id, In.Reading) && id !in pendingMessages
    {
      In.TravellingNext(Value(), In.Opens(id));
      In.EntriesNext(Value(), In.Opens(id));
      phases := phases[id := In.Reading];
    }

    /** The stream handler, up to where it has parked its channel; a failed read ends it. No answer can be on
        its way for the stream yet. */
    method ReadRequest(id: In.Id, readable: bool)
      requires Valid() && In.At(Value(), id, In.Reading)
      modifies this`phases, this`pendingMessages
      ensures Valid() && Value() == In.Next(old(Value()), if readable then In.Stores(id) else In.ReadFails(id))
      ensures id in pendingMessages <==> readable
      ensures id !in notifications && id !in commands && loop != In.Sending(id)
    {
      ghost var e := if readable then In.Stores(id) else In.ReadFails(id);
      In.TravellingNext(Value(), e);
      In.EntriesNext(Value(), e);
      if readable {
        pendingMessages := pendingMessages + {id};
        phases := phases[id := In.Stored];
      } else {
        phases := phases[id := In.Finished];
      }
    }

    /** The server is told about a request, whose channel is parked by then and stays parked. */
    method NotifyServer(id: In.Id)
      requires Valid() && In.At(Value(), id, In.Stored)
      modifies this`phases, this`notifications
      ensures Valid() && Value() == In.Next(old(Value()), In.Notifies(id))
      ensures id in pendingMessages && id in notifications && id !in old(notifications) && id !in commands
    {
      In.TravellingNext(Value(), In.Notifies(id));
      In.EntriesNext(Value(), In.Notifies(id));
      notifications := notifications + [id];
      phases := phases[id := In.Notified];
    }

    /** The server takes the next notification and answers it, or fails to. Either way the request keeps its entry. */
    method ServerAnswers(answers: bool) returns (id: In.Id)
      requires Valid() && notifications != []
      modifies this`notifications, this`commands
      ensures Valid() && Value() == In.Next(old(Value()), In.ServerReads(answers))
      ensures id == old(notifications[0]) && id !in notifications && id in pendingMessages
      ensures id !in old(commands) && (id in commands <==> answers)
    {
      In.TravellingNext(Value(), In.ServerReads(answers));
      In.EntriesNext(Value(), In.ServerReads(answers));
      id := notifications[0];
      assert id in notifications;
      notifications := notifications[1..];
      if answers { commands := commands + [id]; }
    }

    /** The goroutine gets to its receive, before or after its answer is on its way. */
    method Receive(id: In.Id)
      requires Valid() && In.At(Value(), id, In.Notified)
      modifies this`phases
      ensures Valid() && Value() == In.Next(old(Value()), In.Waits(id))
      ensures In.At(Value(), id, In.Waiting) && (id in pendingMessages || loop == In.Sending(id))
    {
      In.TravellingNext(Value(), In.Waits(id));
      In.EntriesNext(Value(), In.Waits(id));
      phases := phases[id := In.Waiting];
    }

    /** `SendResponse`, up to the blocking send. The entry is always there, and its goroutine is at the receive
        or on its way to it: the branch that panics is never taken. */
    method SendResponse()
      requires Valid() && In.Enabled(Value(), In.LoopReads)
      modifies this`commands, this`pendingMessages, this`loop
      ensures Valid() && Value() == In.Next(old(Value()), In.LoopReads)
      ensures loop == In.Sending(old(commands[0])) && In.Parked(Value(), loop.id)
      ensures loop.id in old(pendingMessages) && loop.id !in pendingMessages && loop.id !in commands
    {
      In.TravellingNext(Value(), In.LoopReads);
      In.EntriesNext(Value(), In.LoopReads);
      var id := commands[0];
      assert id in commands;
      commands := commands[1..];
      var found := id in pendingMessages;
      pendingMessages := pendingMessages - {id};
      loop := if found then In.Sending(id) else In.Panicked;
    }

    /** The rendezvous on the channel: the stream has its answer, and nothing more is on its way for it. */
    method Deliver()
      requires Valid() && In.Enabled(Value(), In.HandsOver)
      modifies this`phases, this`loop
      ensures Valid() && Value() == In.Next(old(Value()), In.HandsOver)
      ensures var id := old(loop.id);
        && loop.Idle? && In.At(Value(), id, In.Writing)
        && id !in pendingMessages && id !in notifications && id !in commands
    {
      In.TravellingNext(Value(), In.HandsOver);
      In.EntriesNext(Value(), In.HandsOver);
      phases := phases[loop.id := In.Writing];
      loop := In.Idle;
    }
  }
}
