/**
 Opening sockets: connect, close and reconnect of public/pty-socket-client.ts
 around the ticket request that a socket waits for. A request is answered under
 the generation it was made in, and an answer of an older generation is ignored.
 */
module PtyConnect {
  import opened Common

  datatype Phase = Connecting | Open | Closing | Closed

  /** `tickets` are the generations of the requests that are not answered yet. */
  datatype Connection = Connection(ws: Option<Phase>, sockets: nat, generation: nat, pending: bool, tickets: set<nat>)

  const UNCONNECTED := Connection(None, 0, 0, false, {})

  /** What a ticket request comes to: a ticket and a route, no route, or an error. */
  datatype Answer = Routed | Unroutable | Failed

  datatype Event =
    | Connects
    | Mounts(wanted: bool)                    // notifyTerminalReady
    | Answered(generation: nat, answer: Answer)
    | Moved(phase: Phase)                     // the socket opens or closes by itself
    | Closed                                  // its onclose
    | Closes
    | Reconnects

  /** readyState <= OPEN. */
  predicate IsLive(c: Connection) {
    c.ws.Some? && (c.ws.value.Connecting? || c.ws.value.Open?)
  }

  function Connect(c: Connection): Connection {
    if IsLive(c) || c.pending then c
    else c.(generation := c.generation + 1, pending := true, tickets := c.tickets + {c.generation + 1})
  }

  function Settle(c: Connection, generation: nat, answer: Answer): Connection {
    if generation !in c.tickets then c else
    var c1 := c.(tickets := c.tickets - {generation});
    if generation != c.generation then c1
    else if answer.Routed? then c1.(ws := Some(Connecting), sockets := c.sockets + 1, pending := false)
    else c1.(pending := false)
  }

  function Retire(c: Connection): Connection {
    c.(generation := c.generation + 1, ws := None)
  }

  function Step(c: Connection, e: Event): Connection {
    match e
    case Connects => Connect(c)
    case Mounts(wanted) => if wanted && c.ws.None? then Connect(c) else c
    case Answered(g, a) => Settle(c, g, a)
    case Moved(p) => if c.ws.Some? then c.(ws := Some(p)) else c
    case Closed => c.(ws := None)
    case Closes => Retire(c)
    case Reconnects => Connect(Retire(c))
  }

  function Run(c: Connection, events: seq<Event>): Connection
    decreases |events|
  {
    if events == [] then c else Run(Step(c, events[0]), events[1..])
  }

  /** Requests were made in the past, and the current one is pending. */
  predicate Valid(c: Connection) {
    && (forall g :: g in c.tickets ==> g <= c.generation)
    && (c.generation in c.tickets ==> c.pending)
  }

  /** Pending, with no request left whose answer would be listened to. */
  predicate Blocked(c: Connection) {
    c.pending && c.generation !in c.tickets
  }

  /** Some way to go on opens another socket. */
  ghost predicate OpensAgain(c: Connection) {
    exists events :: Run(c, events).sockets > c.sockets
  }

  lemma StepKeeps(c: Connection, e: Event)
    requires Valid(c)
    ensures Valid(Step(c, e))
    ensures Blocked(c) ==> Blocked(Step(c, e)) && Step(c, e).sockets == c.sockets
    ensures Blocked(Step(c, e)) <==> Blocked(c) || (c.pending && (e.Closes? || e.Reconnects?))
  {
  }

  lemma {:induction false} StaysBlocked(c: Connection, events: seq<Event>)
    requires Valid(c) && Blocked(c)
    ensures Valid(Run(c, events)) && Blocked(Run(c, events)) && Run(c, events).sockets == c.sockets
    decreases |events|
  {
    if events != [] {
      StepKeeps(c, events[0]);
      StaysBlocked(Step(c, events[0]), events[1..]);
    }
  }

  lemma RunThree(c: Connection, a: Event, b: Event, d: Event)
    ensures Run(c, [a]) == Step(c, a) && Run(c, [a, b, d]) == Step(Step(Step(c, a), b), d)
  {
    var c1 := Step(c, a);
    assert [a, b, d][1..] == [b, d] && [b, d][1..] == [d] && [d][1..] == [] && [a][1..] == [];
    assert Run(c1, []) == c1;
    assert Run(Step(c1, b), [d]) == Run(Step(Step(c1, b), d), []) == Step(Step(c1, b), d);
    assert Run(c1, [b, d]) == Run(Step(c1, b), [d]);
  }

  /** A client that is not blocked opens a socket once its request is answered,
      or, after giving up the socket it has, the next one. */
  lemma OpensAgainExact(c: Connection)
    requires Valid(c)
    ensures OpensAgain(c) <==> !Blocked(c)
  {
    if Blocked(c) {
      forall events ensures Run(c, events).sockets == c.sockets { StaysBlocked(c, events); }
    } else {
      var answer := Answered(c.generation, Routed);
      var events := [Closes, Connects, Answered(c.generation + 2, Routed)];
      RunThree(c, answer, Closes, Closes);
      RunThree(c, events[0], events[1], events[2]);
      if c.pending {
        assert Run(c, [answer]).sockets > c.sockets;
      } else {
        assert Run(c, events).sockets > c.sockets;
      }
    }
  }

  /** close() and reconnect() leave a client that can open sockets able to do so
      exactly when no request is pending. */
  lemma GivingUpExact(c: Connection, e: Event)
    requires Valid(c) && !Blocked(c) && (e.Closes? || e.Reconnects?)
    ensures OpensAgain(Step(c, e)) <==> !c.pending
  {
    StepKeeps(c, e);
    OpensAgainExact(Step(c, e));
  }

  /** No close or reconnect comes while a request is pending. */
  predicate PatientRun(c: Connection, events: seq<Event>)
    decreases |events|
  {
    events == [] || ((events[0].Closes? || events[0].Reconnects? ==> !c.pending) && PatientRun(Step(c, events[0]), events[1..]))
  }

  lemma {:induction false} BlockedExact(c: Connection, events: seq<Event>)
    requires Valid(c) && !Blocked(c)
    ensures Valid(Run(c, events)) && (Blocked(Run(c, events)) <==> !PatientRun(c, events))
    decreases |events|
  {
    if events != [] {
      var c1 := Step(c, events[0]);
      StepKeeps(c, events[0]);
      if Blocked(c1) { StaysBlocked(c1, events[1..]); } else { BlockedExact(c1, events[1..]); }
    }
  }

  /** Over every run from creation: another socket can be opened if and only if
      no close or reconnect came while a request was pending. */
  lemma EveryRunOpensAgainExact(events: seq<Event>)
    ensures OpensAgain(Run(UNCONNECTED, events)) <==> PatientRun(UNCONNECTED, events)
  {
    BlockedExact(UNCONNECTED, events);
    OpensAgainExact(Run(UNCONNECTED, events));
  }

  // ----- one socket at a time

  /** A socket that is closing or closed does not come back. */
  predicate Forward(c: Connection, e: Event) {
    e.Moved? && (e.phase.Connecting? || e.phase.Open?) ==> IsLive(c)
  }

  predicate ForwardRun(c: Connection, events: seq<Event>)
    decreases |events|
  {
    events == [] || (Forward(c, events[0]) && ForwardRun(Step(c, events[0]), events[1..]))
  }

  /** While a request that would be listened to is pending, no socket is live. */
  predicate Solo(c: Connection) {
    c.generation in c.tickets ==> !IsLive(c)
  }

  lemma {:induction false} RunStaysSolo(c: Connection, events: seq<Event>)
    requires Valid(c) && Solo(c) && ForwardRun(c, events)
    ensures Valid(Run(c, events)) && Solo(Run(c, events))
    decreases |events|
  {
    if events != [] {
      StepKeeps(c, events[0]);
      assert Solo(Step(c, events[0]));
      RunStaysSolo(Step(c, events[0]), events[1..]);
    }
  }

  /** Over every run: a socket is opened only by a routed answer to the latest
      request, and only when none is live; and a request is made only without a
      live socket or another request, by connecting, by a wanted mount without a
      socket, or by reconnecting. */
  lemma EveryRunOpensOne(events: seq<Event>, e: Event)
    requires ForwardRun(UNCONNECTED, events)
    ensures var c := Run(UNCONNECTED, events); var t := Step(c, e);
            && (t.sockets != c.sockets <==> e.Answered? && e.answer.Routed? && e.generation == c.generation && c.generation in c.tickets)
            && (t.sockets != c.sockets ==> !IsLive(c) && t.sockets == c.sockets + 1 && t.ws == Some(Connecting))
            && (t.tickets - c.tickets != {} <==>
                  && !c.pending
                  && (e.Reconnects? || (e.Connects? && !IsLive(c)) || (e.Mounts? && e.wanted && c.ws.None?)))
  {
    RunStaysSolo(UNCONNECTED, events);
    var c := Run(UNCONNECTED, events);
    var t := Step(c, e);
    assert c.generation + 1 !in c.tickets && c.generation + 2 !in c.tickets;
    if e.Connects? && !IsLive(c) && !c.pending { assert c.generation + 1 in t.tickets - c.tickets; }
    if e.Mounts? && e.wanted && c.ws.None? && !c.pending { assert c.generation + 1 in t.tickets - c.tickets; }
    if e.Reconnects? && !c.pending { assert c.generation + 2 in t.tickets - c.tickets; }
  }

  /** A reconnect before the first ticket arrives: no socket is ever opened. */
  lemma ReconnectBlocks()
    ensures !OpensAgain(Run(UNCONNECTED, [Connects, Reconnects]))
  {
    RunThree(UNCONNECTED, Connects, Reconnects, Reconnects);
    var c1 := Connect(UNCONNECTED);
    assert [Connects, Reconnects][1..] == [Reconnects] && [Reconnects][1..] == [];
    assert Run(c1, [Reconnects]) == Run(Step(c1, Reconnects), []) == Step(c1, Reconnects);
    GivingUpExact(c1, Reconnects);
  }

  /** The variables of the client that this is about. */
  class Connector {
    var ws: Option<Phase>
    var connectGeneration: nat
    var connectPending: bool
    /** The sockets opened so far, and the requests not answered yet. */
    var sockets: nat
    var tickets: set<nat>

    ghost function View(): Connection
      reads this
    {
      Connection(ws, sockets, connectGeneration, connectPending, tickets)
    }

    constructor ()
      ensures View() == UNCONNECTED
    {
      ws, connectGeneration, connectPending, sockets, tickets := None, 0, false, 0, {};
    }

    method DoConnect()
      modifies this
      ensures View() == Connect(old(View()))
    {
      if ws.Some? && (ws.value.Connecting? || ws.value.Open?) { return; }
      if connectPending { return; }
      connectGeneration := connectGeneration + 1;
      connectPending := true;
      tickets := tickets + {connectGeneration};
    }

    /** The callbacks of the ticket request made in `generation`. */
    method TicketAnswered(generation: nat, answer: Answer)
      modifies this
      ensures View() == Settle(old(View()), generation, answer)
    {
      if generation !in tickets { return; }
      tickets := tickets - {generation};
      if generation != connectGeneration { return; }
      if answer.Routed? {
        ws := Some(Connecting);
        sockets := sockets + 1;
      }
      connectPending := false;
    }

    method NotifyTerminalReady(wanted: bool)
      modifies this
      ensures View() == Step(old(View()), Mounts(wanted))
    {
      if wanted && ws.None? { DoConnect(); }
    }

    method DoClose()
      modifies this
      ensures View() == Retire(old(View()))
    {
      connectGeneration := connectGeneration + 1;
      ws := None;
    }

    method DoReconnect()
      modifies this
      ensures View() == Step(old(View()), Reconnects)
    {
      DoClose();
      DoConnect();
    }
  }
}
