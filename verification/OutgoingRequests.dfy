/** Outgoing requests: the server's map of response handlers, the port's goroutines, and the two ordered
    pipes between them, under every interleaving. */
module OutgoingRequests {
  import opened Primitives
  import opened Fairness

  type Id = nat
  type Handler = nat

  /** `add_response_handler` and `handle_response`, on the map alone. */
  function AddHandler(requests: map<Id, Handler>, id: Id, h: Handler): map<Id, Handler> {
    requests[id := h]
  }

  /** Pops the handler of `id`, if there is one. */
  function PopHandler(requests: map<Id, Handler>, id: Id): (map<Id, Handler>, Option<Handler>) {
    if id in requests then (requests - {id}, Some(requests[id])) else (requests, None)
  }

  datatype System = System(
    requests: map<Id, Handler>,
    commands: seq<Id>,        // requests written to the port, not read yet
    inFlight: set<Id>,        // goroutines opening a stream or reading from it
    responses: seq<Id>,       // notifications written by the port, not read yet
    issued: map<Id, Handler>,  // history: the handler every id was issued for
    ran: seq<(Id, Handler)>,     // history: handlers run, in order
    unhandled: seq<Id>)          // history: responses without a handler

  const START := System(map[], [], {}, [], map[], [], [])

  datatype Event =
    | Send(id: Id, handler: Handler) | PortReads | Finishes(id: Id) | ServerReads
    | Rests  // nothing happens here; a run may also come to rest

  /** What can happen next. An id is a fresh UUID; a goroutine sends one notification, then ends. */
  predicate Enabled(s: System, e: Event) {
    match e
    case Send(id, _) => id !in s.issued
    case PortReads => s.commands != []
    case Finishes(id) => id in s.inFlight
    case ServerReads => s.responses != []
    case Rests => true
  }

  function Next(s: System, e: Event): System
    requires Enabled(s, e)
  {
    match e
    case Send(id, h) =>
      s.(requests := AddHandler(s.requests, id, h), commands := s.commands + [id], issued := s.issued[id := h])
    case PortReads =>
      s.(commands := s.commands[1..], inFlight := s.inFlight + {s.commands[0]})
    case Finishes(id) =>
      s.(inFlight := s.inFlight - {id}, responses := s.responses + [id])
    case ServerReads =>
      var id := s.responses[0];
      var (rest, h) := PopHandler(s.requests, id);
      var t := s.(requests := rest, responses := s.responses[1..]);
      if h.Some? then t.(ran := s.ran + [(id, h.value)]) else t.(unhandled := s.unhandled + [id])
    case Rests => s
  }

  /** The first `n` steps of an interleaving. */
  ghost predicate IsRun(events: nat -> Event, states: nat -> System, n: nat) {
    && states(0) == START
    && (forall k: nat :: k < n ==> Enabled(states(k), events(k)) && states(k + 1) == Next(states(k), events(k)))
  }

  /** Every unanswered request is in exactly one place: in the pipe, in flight, or on its way back. */
  ghost predicate Placed(s: System) {
    && Distinct(s.commands) && Distinct(s.responses)
    && (forall id :: id in s.requests <==> id in s.commands || id in s.inFlight || id in s.responses)
    && (forall id :: id in s.commands ==> id !in s.inFlight && id !in s.responses)
    && (forall id :: id in s.inFlight ==> id !in s.responses)
  }

  /** Handlers ran once each, for their own ids; what is neither run nor waiting was never issued. */
  ghost predicate Accounted(s: System) {
    && s.unhandled == []
    && (forall id :: id in s.requests ==> id in s.issued && s.requests[id] == s.issued[id])
    && (forall k :: 0 <= k < |s.ran| ==>
          s.ran[k].0 in s.issued && s.ran[k].1 == s.issued[s.ran[k].0] && s.ran[k].0 !in s.requests)
    && (forall k, l :: 0 <= k < l < |s.ran| ==> s.ran[k].0 != s.ran[l].0)
    && (forall id :: id in s.issued && id !in s.requests ==> HasRun(s.ran, id))
  }

  ghost predicate HasRun(ran: seq<(Id, Handler)>, id: Id) {
    exists k :: 0 <= k < |ran| && ran[k].0 == id
  }

  lemma RanThen(ran: seq<(Id, Handler)>, id: Id, h: Handler, x: Id)
    ensures HasRun(ran + [(id, h)], x) <==> x == id || HasRun(ran, x)
  {
    var after := ran + [(id, h)];
    assert after[|ran|].0 == id;
    if HasRun(ran, x) {
      var k :| 0 <= k < |ran| && ran[k].0 == x;
      assert after[k].0 == x;
    }
  }

  lemma PortReadsPlaced(s: System)
    requires Placed(s) && Enabled(s, PortReads)
    ensures Placed(Next(s, PortReads))
  {
    assert s.commands == [s.commands[0]] + s.commands[1..];
  }

  lemma ServerReadsPlaced(s: System)
    requires Placed(s) && Enabled(s, ServerReads)
    ensures Placed(Next(s, ServerReads))
  {
    var id := s.responses[0];
    assert s.responses == [id] + s.responses[1..];
    assert id !in s.responses[1..];
  }

  lemma PlacedNext(s: System, e: Event)
    requires Placed(s) && Accounted(s) && Enabled(s, e)
    ensures Placed(Next(s, e))
  {
    match e
    case Send(id, _) => assert id !in s.requests;
    case PortReads => PortReadsPlaced(s);
    case Finishes(id) =>
    case ServerReads => ServerReadsPlaced(s);
    case Rests =>
  }

  /** Popping the first response runs the handler that was issued for it. */
  lemma ResponseAccounted(s: System)
    requires Placed(s) && Accounted(s) && Enabled(s, ServerReads)
    ensures Accounted(Next(s, ServerReads))
  {
    var t, id := Next(s, ServerReads), s.responses[0];
    assert id in s.responses && id in s.requests;
    assert t.ran == s.ran + [(id, s.requests[id])];
    forall x | x in t.issued && x !in t.requests ensures HasRun(t.ran, x) {
      RanThen(s.ran, id, s.requests[id], x);
    }
  }

  lemma SendAccounted(s: System, id: Id, h: Handler)
    requires Placed(s) && Accounted(s) && id !in s.issued
    ensures Accounted(Next(s, Send(id, h)))
  {
    var t := Next(s, Send(id, h));
    forall x | x in t.issued && x !in t.requests ensures HasRun(t.ran, x) {
      assert HasRun(s.ran, x);
    }
  }

  lemma AccountedNext(s: System, e: Event)
    requires Placed(s) && Accounted(s) && Enabled(s, e)
    ensures Accounted(Next(s, e))
  {
    match e
    case Send(id, h) => SendAccounted(s, id, h);
    case ServerReads => ResponseAccounted(s);
    case _ =>
      var t := Next(s, e);
      assert t.requests == s.requests && t.issued == s.issued && t.ran == s.ran && t.unhandled == s.unhandled;
      forall x | x in t.issued && x !in t.requests ensures HasRun(t.ran, x) {
        assert HasRun(s.ran, x);
      }
  }

  lemma {:induction false} RunInvariant(events: nat -> Event, states: nat -> System, n: nat)
    requires IsRun(events, states, n)
    ensures Placed(states(n)) && Accounted(states(n))
  {
    if n > 0 {
      RunInvariant(events, states, n - 1);
      var k: nat := n - 1;
      PlacedNext(states(k), events(k));
      AccountedNext(states(k), events(k));
    }
  }

  /** At every point of every interleaving: each handler has run at most once and only for its own id, every
      response found its handler, and the map holds exactly the ids still unanswered. */
  lemma RequestsCorrelate(events: nat -> Event, states: nat -> System, n: nat)
    requires IsRun(events, states, n)
    ensures var s := states(n);
      && s.unhandled == []
      && (forall i :: 0 <= i < |s.ran| ==> s.ran[i].0 in s.issued && s.ran[i].1 == s.issued[s.ran[i].0])
      && (forall i, j :: 0 <= i < j < |s.ran| ==> s.ran[i].0 != s.ran[j].0)
      && (forall id :: id in s.requests <==> id in s.issued && !HasRun(s.ran, id))
  {
    RunInvariant(events, states, n);
  }

  /** Nothing is lost: when both pipes are empty and no goroutine is waiting, every request was answered. */
  lemma QuietMeansAnswered(events: nat -> Event, states: nat -> System, n: nat)
    requires IsRun(events, states, n)
    requires states(n).commands == [] && states(n).inFlight == {} && states(n).responses == []
    ensures states(n).requests == map[] && |states(n).ran| == |states(n).issued|
  {
    RunInvariant(events, states, n);
    var s := states(n);
    assert s.requests.Keys == {};
    var ids := set i | 0 <= i < |s.ran| :: s.ran[i].0;
    assert ids == s.issued.Keys;
    DistinctCount(s.ran, ids);
  }

  lemma {:induction false} DistinctCount(ran: seq<(Id, Handler)>, ids: set<Id>)
    requires forall k, l :: 0 <= k < l < |ran| ==> ran[k].0 != ran[l].0
    requires ids == set i | 0 <= i < |ran| :: ran[i].0
    ensures |ids| == |ran|
  {
    if ran == [] {
      assert ids == {};
    } else {
      var init, last := ran[..|ran| - 1], ran[|ran| - 1].0;
      var fewer := set i | 0 <= i < |init| :: init[i].0;
      DistinctCount(init, fewer);
      assert ids == fewer + {last};
    }
  }

  // ---------- every request is answered ----------

  function CanTake(states: nat -> System, e: Event): nat -> bool {
    (m: nat) => Enabled(states(m), e)
  }

  /** An infinite run in which both pipes are read. Whether a goroutine finishes is up to its peer: opening the stream
      has a timeout, reading from it has none. */
  ghost predicate FairPipes(events: nat -> Event, states: nat -> System) {
    && (forall n: nat :: IsRun(events, states, n))
    && Fair(events, CanTake(states, PortReads), PortReads)
    && Fair(events, CanTake(states, ServerReads), ServerReads)
  }

  /** What is in a pipe stays in front of what comes later until the pipe is read. */
  lemma {:induction false} PipesGrow(events: nat -> Event, states: nat -> System, n: nat, m: nat)
    requires n <= m && IsRun(events, states, m)
    ensures (forall k: nat :: n <= k < m ==> events(k) != PortReads) ==> states(n).commands <= states(m).commands
    ensures (forall k: nat :: n <= k < m ==> events(k) != ServerReads) ==> states(n).responses <= states(m).responses
    ensures forall id :: id in states(n).inFlight && (forall k: nat :: n <= k < m ==> events(k) != Finishes(id)) ==>
              id in states(m).inFlight
    decreases m - n
  {
    if n < m {
      PipesGrow(events, states, n + 1, m);
      assert states(n + 1) == Next(states(n), events(n));
    }
  }

  /** The port gets to every command. */
  lemma {:induction false} CommandIsRead(events: nat -> Event, states: nat -> System, n: nat, p: nat) returns (m: nat)
    requires FairPipes(events, states) && p < |states(n).commands|
    ensures m >= n && states(n).commands[p] in states(m).inFlight
    decreases p
  {
    if !Taken(events, n, PortReads) {
      forall k: nat | k >= n ensures Enabled(states(k), PortReads) { PipesGrow(events, states, n, k); }
      TakenIfForever(events, CanTake(states, PortReads), n, PortReads);
    }
    var first := FirstTaken(events, n, PortReads);
    PipesGrow(events, states, n, first);
    assert IsRun(events, states, first + 1);
    if p == 0 {
      m := first + 1;
    } else {
      m := CommandIsRead(events, states, first + 1, p - 1);
    }
  }

  lemma FirstResponseRuns(s: System)
    requires Placed(s) && s.responses != []
    ensures HasRun(Next(s, ServerReads).ran, s.responses[0])
  {
    var id := s.responses[0];
    assert id in s.responses && id in s.requests;
    RanThen(s.ran, id, s.requests[id], id);
  }

  lemma ServerGetsToRead(events: nat -> Event, states: nat -> System, n: nat) returns (first: nat)
    requires FairPipes(events, states) && states(n).responses != []
    ensures first >= n && states(n).responses <= states(first).responses
    ensures states(first + 1) == Next(states(first), ServerReads)
  {
    if !Taken(events, n, ServerReads) {
      forall k: nat | k >= n ensures Enabled(states(k), ServerReads) { PipesGrow(events, states, n, k); }
      TakenIfForever(events, CanTake(states, ServerReads), n, ServerReads);
    }
    first := FirstTaken(events, n, ServerReads);
    PipesGrow(events, states, n, first);
    assert IsRun(events, states, first + 1);
  }

  lemma FirstIsHandled(events: nat -> Event, states: nat -> System, n: nat)
    requires IsRun(events, states, n) && states(n).responses != [] && states(n + 1) == Next(states(n), ServerReads)
    ensures HasRun(states(n + 1).ran, states(n).responses[0])
  {
    RunInvariant(events, states, n);
    FirstResponseRuns(states(n));
  }

  /** The server gets to every response, and runs its handler. */
  lemma {:induction false} ResponseIsHandled(events: nat -> Event, states: nat -> System, n: nat, p: nat) returns (m: nat)
    requires FairPipes(events, states) && p < |states(n).responses|
    ensures m >= n && HasRun(states(m).ran, states(n).responses[p])
    decreases p
  {
    var first := ServerGetsToRead(events, states, n);
    var id := states(n).responses[p];
    assert states(first).responses[p] == id;
    if p == 0 {
      m := first + 1;
      FirstIsHandled(events, states, first);
    } else {
      assert states(first + 1).responses[p - 1] == id;
      m := ResponseIsHandled(events, states, first + 1, p - 1);
    }
  }

  /** A response on its way or handled is that of a goroutine that finished. */
  lemma {:induction false} RespondedAfterFinish(events: nat -> Event, states: nat -> System, m: nat, id: Id)
    requires IsRun(events, states, m) && (id in states(m).responses || HasRun(states(m).ran, id))
    ensures Taken(events, 0, Finishes(id))
  {
    if m > 0 && events(m - 1) != Finishes(id) {
      var k: nat := m - 1;
      RunInvariant(events, states, k);
      RespondedBefore(states(k), events(k), id);
      RespondedAfterFinish(events, states, k, id);
    }
  }

  lemma RespondedBefore(s: System, e: Event, id: Id)
    requires Placed(s) && Enabled(s, e) && e != Finishes(id)
    requires id in Next(s, e).responses || HasRun(Next(s, e).ran, id)
    ensures id in s.responses || HasRun(s.ran, id)
  {
    if e.ServerReads? {
      var first := s.responses[0];
      assert first in s.responses && first in s.requests;
      RanThen(s.ran, first, s.requests[first], id);
    }
  }

  /** In a run that reads its pipes the handler of a request runs if and only if its goroutine finishes. */
  lemma AnsweredExactly(events: nat -> Event, states: nat -> System, id: Id)
    requires FairPipes(events, states)
    ensures (exists m: nat :: HasRun(states(m).ran, id)) <==> Taken(events, 0, Finishes(id))
  {
    if m: nat :| HasRun(states(m).ran, id) {
      RespondedAfterFinish(events, states, m, id);
    }
    if Taken(events, 0, Finishes(id)) {
      var k: nat :| events(k) == Finishes(id);
      assert IsRun(events, states, k + 1);
      var after := states(k + 1).responses;
      assert after[|after| - 1] == id;
      var m := ResponseIsHandled(events, states, k + 1, |after| - 1);
    }
  }

  /** What is issued gets to the network: its goroutine starts. */
  lemma EveryRequestStarted(events: nat -> Event, states: nat -> System, n: nat, id: Id) returns (m: nat)
    requires FairPipes(events, states) && id in states(n).commands
    ensures m >= n && id in states(m).inFlight
  {
    var p: nat :| p < |states(n).commands| && states(n).commands[p] == id;
    m := CommandIsRead(events, states, n, p);
  }

  /** If every peer closes its stream in the end, the handler of every issued request runs. */
  lemma EveryRequestAnswered(events: nat -> Event, states: nat -> System, n: nat, id: Id)
    requires FairPipes(events, states) && id in states(n).issued
    requires Fair(events, CanTake(states, Finishes(id)), Finishes(id))
    ensures exists m: nat :: HasRun(states(m).ran, id)
  {
    RunInvariant(events, states, n);
    if !HasRun(states(n).ran, id) && id !in states(n).responses {
      var m := n;
      if id in states(n).commands { m := EveryRequestStarted(events, states, n, id); }
      if !Taken(events, m, Finishes(id)) {
        forall k: nat | k >= m ensures Enabled(states(k), Finishes(id)) { PipesGrow(events, states, m, k); }
        TakenIfForever(events, CanTake(states, Finishes(id)), m, Finishes(id));
      }
    } else {
      RespondedAfterFinish(events, states, n, id);
    }
    AnsweredExactly(events, states, id);
  }
}
