/** Incoming requests: one goroutine per peer stream, the port's command loop, and the server, under every
    interleaving. A goroutine parks a channel under its stream id, notifies the server and waits on the
    channel; the command loop looks the channel up and sends on it, which blocks until the goroutine receives. */
module IncomingRequests {
  import opened Primitives
  import opened Fairness

  type Id = nat

  datatype Phase = Reading | Stored | Notified | Waiting | Writing | Finished
  datatype Loop = Idle | Sending(id: Id) | Panicked

  datatype System = System(
    phases: map<Id, Phase>,     // every stream opened so far
    pending: set<Id>,           // keys of the pending-message map
    notifications: seq<Id>,     // requests on their way to the server
    commands: seq<Id>,          // responses on their way to the port
    loop: Loop)                 // where the command loop is

  const START := System(map[], {}, [], [], Idle)

  /** `Notifies` and `Waits` are separate steps: the answer may arrive before the goroutine receives. */
  datatype Event =
    | Opens(id: Id) | ReadFails(id: Id) | Stores(id: Id) | Notifies(id: Id) | Waits(id: Id) | Writes(id: Id)
    | ServerReads(answers: bool) | LoopReads | HandsOver
    | Rests  // nothing happens here; a run may also come to rest

  predicate At(s: System, id: Id, p: Phase) {
    id in s.phases && s.phases[id] == p
  }

  predicate Enabled(s: System, e: Event) {
    match e
    case Opens(id) => id !in s.phases
    case ReadFails(id) => At(s, id, Reading)
    case Stores(id) => At(s, id, Reading)
    case Notifies(id) => At(s, id, Stored)
    case Waits(id) => At(s, id, Notified)
    case Writes(id) => At(s, id, Writing)
    case ServerReads(_) => s.notifications != []
    case LoopReads => s.loop.Idle? && s.commands != []
    case HandsOver => s.loop.Sending? && At(s, s.loop.id, Waiting)
    case Rests => true
  }

  /** The server answers a request once or, when handling it fails, not at all. */
  function Next(s: System, e: Event): System
    requires Enabled(s, e)
  {
    match e
    case Opens(id) => s.(phases := s.phases[id := Reading])
    case ReadFails(id) => s.(phases := s.phases[id := Finished])
    case Stores(id) => s.(phases := s.phases[id := Stored], pending := s.pending + {id})
    case Notifies(id) => s.(phases := s.phases[id := Notified], notifications := s.notifications + [id])
    case Waits(id) => s.(phases := s.phases[id := Waiting])
    case Writes(id) => s.(phases := s.phases[id := Finished])
    case ServerReads(answers) =>
      s.(notifications := s.notifications[1..],
         commands := if answers then s.commands + [s.notifications[0]] else s.commands)
    case LoopReads =>
      var id, t := s.commands[0], s.(commands := s.commands[1..]);
      if id in s.pending then t.(pending := s.pending - {id}, loop := Sending(id)) else t.(loop := Panicked)
    case HandsOver => s.(phases := s.phases[s.loop.id := Writing], loop := Idle)
    case Rests => s
  }

  predicate Parked(s: System, id: Id) {
    At(s, id, Notified) || At(s, id, Waiting)
  }

  /** An id between its notification and its answer is parked and still has its entry. */
  ghost predicate Travelling(s: System) {
    && Distinct(s.notifications) && Distinct(s.commands)
    && (forall id :: id in s.notifications ==> id !in s.commands && id in s.pending && Parked(s, id))
    && (forall id :: id in s.commands ==> id in s.pending && Parked(s, id))
  }

  /** The map holds exactly the streams that stored a channel nobody has taken out. */
  ghost predicate Entries(s: System) {
    && !s.loop.Panicked?
    && (s.loop.Sending? ==> Parked(s, s.loop.id))
    && (forall id :: id in s.pending <==> (At(s, id, Stored) || Parked(s, id)) && s.loop != Sending(id))
  }

  lemma EntriesNext(s: System, e: Event)
    requires Travelling(s) && Entries(s) && Enabled(s, e)
    ensures Entries(Next(s, e))
  {
    if e.LoopReads? { assert s.commands[0] in s.commands; }
  }

  lemma ServerReadsTravelling(s: System, answers: bool)
    requires Travelling(s) && s.notifications != []
    ensures Travelling(Next(s, ServerReads(answers)))
  {
    assert s.notifications == [s.notifications[0]] + s.notifications[1..];
    assert s.notifications[0] in s.notifications && s.notifications[0] !in s.notifications[1..];
    DistinctAppend(s.commands, s.notifications[0]);
  }

  lemma LoopReadsTravelling(s: System)
    requires Travelling(s) && Enabled(s, LoopReads)
    ensures Travelling(Next(s, LoopReads))
  {
    assert s.commands == [s.commands[0]] + s.commands[1..];
    assert s.commands[0] !in s.commands[1..];
  }

  /** A step that moves one goroutine to another phase, leaving both pipes as they were. */
  lemma PhaseTravelling(s: System, t: System, id: Id)
    requires Travelling(s) && t.notifications == s.notifications && t.commands == s.commands
    requires s.pending <= t.pending
    requires forall x :: x != id && Parked(s, x) ==> Parked(t, x)
    requires Parked(s, id) && id in s.pending ==> Parked(t, id)
    ensures Travelling(t)
  {
  }

  lemma TravellingNext(s: System, e: Event)
    requires Travelling(s) && Entries(s) && Enabled(s, e)
    ensures Travelling(Next(s, e))
  {
    match e
    case ServerReads(answers) => ServerReadsTravelling(s, answers);
    case LoopReads => LoopReadsTravelling(s);
    case Notifies(id) =>
      var t := Next(s, e);
      PhaseTravelling(s, t.(notifications := s.notifications), id);
      assert id !in s.notifications && id !in s.commands;
    case HandsOver => PhaseTravelling(s, Next(s, e), s.loop.id);
    case Rests =>
    case _ => PhaseTravelling(s, Next(s, e), e.id);
  }

  /** The first `n` steps of an interleaving. */
  ghost predicate IsRun(events: nat -> Event, states: nat -> System, n: nat) {
    && states(0) == START
    && (forall k: nat :: k < n ==> Enabled(states(k), events(k)) && states(k + 1) == Next(states(k), events(k)))
  }

  lemma {:induction false} RunInvariant(events: nat -> Event, states: nat -> System, n: nat)
    requires IsRun(events, states, n)
    ensures Travelling(states(n)) && Entries(states(n))
  {
    if n > 0 {
      RunInvariant(events, states, n - 1);
      var k: nat := n - 1;
      TravellingNext(states(k), events(k));
      EntriesNext(states(k), events(k));
    }
  }

  /** No interleaving makes `SendResponse` panic: the entry of every answered request is still there, and
      the map holds exactly the streams whose channel was stored and not taken out. */
  lemma NeverPanics(events: nat -> Event, states: nat -> System, n: nat)
    requires IsRun(events, states, n)
    ensures var s := states(n);
      && !s.loop.Panicked?
      && (forall id :: id in s.commands || id in s.notifications ==> id in s.pending)
      && (forall id :: id in s.pending <==> (At(s, id, Stored) || Parked(s, id)) && s.loop != Sending(id))
  {
    RunInvariant(events, states, n);
  }

  /** A response reaches the goroutine of its own stream, which had asked for it and had none before. */
  lemma HandOverIsOwn(events: nat -> Event, states: nat -> System, n: nat)
    requires IsRun(events, states, n + 1) && events(n) == HandsOver
    ensures var id := states(n).loop.id;
      && At(states(n), id, Waiting) && At(states(n + 1), id, Writing) && states(n + 1).loop.Idle?
      && id !in states(n + 1).pending && id !in states(n + 1).commands && id !in states(n + 1).notifications
  {
    RunInvariant(events, states, n);
  }

  // ---------- the command loop never blocks forever ----------

  function CanTake(states: nat -> System, e: Event): nat -> bool {
    (m: nat) => Enabled(states(m), e)
  }

  /** While the loop is sending to `id` and has not handed over, it stays there, and a goroutine that has
      reached its receive stays at it. */
  lemma SendingPersists(s: System, e: Event, id: Id)
    requires Travelling(s) && Entries(s) && Enabled(s, e) && s.loop == Sending(id) && e != HandsOver
    ensures Next(s, e).loop == Sending(id) && Parked(Next(s, e), id)
    ensures At(s, id, Waiting) || e == Waits(id) ==> At(Next(s, e), id, Waiting)
  {
  }

  lemma {:induction false} StillSending(events: nat -> Event, states: nat -> System, n: nat, m: nat, id: Id)
    requires n <= m && IsRun(events, states, m) && states(n).loop == Sending(id)
    requires forall k: nat :: n <= k < m ==> events(k) != HandsOver
    ensures states(m).loop == Sending(id) && Parked(states(m), id)
    ensures At(states(n), id, Waiting) ==> At(states(m), id, Waiting)
    decreases m - n
  {
    RunInvariant(events, states, n);
    if n < m {
      SendingPersists(states(n), events(n), id);
      StillSending(events, states, n + 1, m, id);
    }
  }

  lemma NotServedYet(events: nat -> Event, states: nat -> System, n: nat, m: nat, id: Id)
    requires IsRun(events, states, m) && states(n).loop == Sending(id) && !Taken(events, n, HandsOver) && n <= m
    ensures states(m).loop == Sending(id) && Parked(states(m), id)
  {
    StillSending(events, states, n, m, id);
  }

  /** Whoever the loop is sending to gets to its receive, unless it is served before. */
  lemma ReceiverArrives(events: nat -> Event, states: nat -> System, n: nat, id: Id) returns (w: nat)
    requires forall k: nat :: IsRun(events, states, k)
    requires states(n).loop == Sending(id) && Fair(events, CanTake(states, Waits(id)), Waits(id))
    requires !Taken(events, n, HandsOver)
    ensures w >= n && states(w).loop == Sending(id) && At(states(w), id, Waiting)
  {
    if m: nat :| m >= n && !At(states(m), id, Notified) {
      w := m;
    } else {
      TakenIfForever(events, CanTake(states, Waits(id)), n, Waits(id));
      var m: nat :| m >= n && events(m) == Waits(id);
      w := m + 1;
      assert IsRun(events, states, w) && states(w) == Next(states(m), Waits(id));
    }
    NotServedYet(events, states, n, w, id);
  }

  /** In a fair interleaving every blocked send completes: the goroutine gets to its receive, and the loop
      goes on to the next command. */
  lemma SendCompletes(events: nat -> Event, states: nat -> System, n: nat, id: Id)
    requires forall k: nat :: IsRun(events, states, k)
    requires states(n).loop == Sending(id)
    requires Fair(events, CanTake(states, Waits(id)), Waits(id)) && Fair(events, CanTake(states, HandsOver), HandsOver)
    ensures Taken(events, n, HandsOver)
  {
    if !Taken(events, n, HandsOver) {
      var w := ReceiverArrives(events, states, n, id);
      forall m: nat | m >= w ensures Enabled(states(m), HandsOver) {
        StillSending(events, states, w, m, id);
      }
      TakenIfForever(events, CanTake(states, HandsOver), w, HandsOver);
    }
  }
}
