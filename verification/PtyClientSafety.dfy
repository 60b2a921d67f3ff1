module PtyClientSafety {
  import opened Common
  import opened OutputAck
  import opened PtyResize
  import opened PtyProtocol
  import opened PtyClient
  import A = OutputAckSafety
  import S = PtySafety
  import C = PtyConservation

  /** The client's link runs the protocol, on the events it lets through. */
  function LinkEvents(c: Client, events: seq<Event>): seq<Event>
    decreases |events|
  {
    if events == [] then []
    else [LinkEvent(c, events[0])] + LinkEvents(ClientStep(c, events[0]), events[1..])
  }

  lemma {:induction false} LinkRuns(c: Client, events: seq<Event>)
    ensures ClientRun(c, events).link == Run(c.link, LinkEvents(c, events))
    decreases |events|
  {
    if events != [] {
      LinkRuns(ClientStep(c, events[0]), events[1..]);
      var l := LinkEvents(c, events);
      assert l[1..] == LinkEvents(ClientStep(c, events[0]), events[1..]);
    }
  }

  lemma {:induction false} ClientRunAppend(c: Client, a: seq<Event>, b: seq<Event>)
    ensures ClientRun(c, a + b) == ClientRun(ClientRun(c, a), b)
    decreases |a|
  {
    if a == [] {
      assert a + b == b;
    } else {
      assert (a + b)[1..] == a[1..] + b;
      ClientRunAppend(ClientStep(c, a[0]), a[1..], b);
    }
  }

  // ----- every step

  /** What holds of every run. */
  predicate Counts(c: Client) {
    A.Counts(c.ack) && C.PrefillInv(c.link.prefill)
  }

  /** Bytes are outstanding only while they can be acknowledged: with a timer
      on an open socket, and not at all before it opens. */
  predicate Inv(c: Client) {
    && Counts(c)
    && (A.Outstanding(c.ack) ==> c.ack.supported && c.link.ws.Socket? && !IsConnecting(c.link))
    && (IsOpen(c.link) ==> A.Prompt(c.ack))
  }

  predicate IsClosing(s: Link) {
    s.ws.Socket? && s.ws.phase.Closing?
  }

  /** Acknowledgement is not withdrawn, nor a closing socket replaced, while
      bytes are outstanding. */
  predicate AckTame(c: Client, e: Event) {
    match e
    case AttachAck(_, supported) => supported || !IsOpen(c.link) || !A.Outstanding(c.ack)
    case Connect => !IsClosing(c.link) || !A.Outstanding(c.ack)
    case _ => true
  }

  /** Sockets open only when they were connecting, and connect only on Connect. */
  lemma PhaseAfter(s: Link, e: Event)
    requires C.PrefillInv(s.prefill)
    ensures var t := Step(s, e);
            && (IsOpen(t) ==> IsOpen(s) || (e.SocketOpened? && IsConnecting(s)))
            && (IsConnecting(t) ==> IsConnecting(s) || e.Connect?)
  {
    if e.BinaryFrame? || e.ControlFrame? {
      C.OutputStepMoves(s, e);
    } else if e.SocketOpened? {
      if IsConnecting(s) { C.SendAttachMoves(s.(ws := s.ws.(phase := Phase.Open)), e.a); }
    } else if !e.Connect? && !e.ViewerConflict? {
      C.OtherStepCarries(s, e);
    }
  }

  lemma AckStepKeeps(c: Client, e: Event)
    requires A.Counts(c.ack)
    ensures A.Counts(AckStep(c, e))
    ensures !e.BinaryFrame? || !IsOpen(c.link) ==> (A.Outstanding(AckStep(c, e)) ==> A.Outstanding(c.ack))
    ensures Inv(c) && AckTame(c, e) ==> (A.Outstanding(AckStep(c, e)) ==> AckStep(c, e).supported)
    ensures Inv(c) && AckTame(c, e) && IsOpen(c.link) && !Rejects(c, e) ==> A.Prompt(AckStep(c, e))
  {
    match e {
      case BinaryFrame(d, _) => if IsOpen(c.link) { A.ReceiveKeeps(c.ack, |d|); }
      case AckTimerFired => A.SendAckKeeps(c.ack, IsOpen(c.link), false);
      case AckRetryFired => if c.ack.retryTimer { A.SendAckKeeps(c.ack, IsOpen(c.link), true); }
      case _ =>
    }
  }

  lemma CloseCloses(s: Link)
    ensures !IsOpen(Step(s, LocalClose)) && (IsConnecting(Step(s, LocalClose)) ==> IsConnecting(s))
  {
  }

  lemma ClientStepCounts(c: Client, e: Event)
    requires Counts(c)
    ensures Counts(ClientStep(c, e))
  {
    C.StepAdvances(c.link, LinkEvent(c, e), 0);
    AckStepKeeps(c, e);
  }

  lemma ClientStepKeeps(c: Client, e: Event)
    requires Inv(c) && AckTame(c, e)
    ensures Inv(ClientStep(c, e))
  {
    ClientStepCounts(c, e);
    AckStepKeeps(c, e);
    PhaseAfter(c.link, LinkEvent(c, e));
    CloseCloses(c.link);
  }

  // ----- every run

  predicate AckTameRun(c: Client, events: seq<Event>)
    decreases |events|
  {
    events == [] || (AckTame(c, events[0]) && AckTameRun(ClientStep(c, events[0]), events[1..]))
  }

  lemma {:induction false} ClientRunKeeps(c: Client, events: seq<Event>)
    requires Counts(c)
    ensures Counts(ClientRun(c, events))
    ensures Inv(c) && AckTameRun(c, events) ==> Inv(ClientRun(c, events))
    decreases |events|
  {
    if events != [] {
      ClientStepCounts(c, events[0]);
      if Inv(c) && AckTameRun(c, events) { ClientStepKeeps(c, events[0]); }
      ClientRunKeeps(ClientStep(c, events[0]), events[1..]);
    }
  }

  /** In any environment the acks are sound. */
  lemma EveryRunAcknowledges(mode: PrefillMode, events: seq<Event>)
    ensures var t := ClientRun(InitialClient(mode), events);
            var h := A.Entries(t.ack.ledger);
            && A.AcksGrow(h) && A.AcksCovered(h) && A.RetriesBounded(h)
            && A.ArrivedIn(h) == t.ack.received && t.ack.lastAck <= t.ack.received
  {
    ClientRunKeeps(InitialClient(mode), events);
    var l := ClientRun(InitialClient(mode), events).ack.ledger;
    A.SoundLedger(l);
    A.TotalMeans(l);
  }

  /** On an open socket no byte waits unacknowledged without a timer. */
  lemma EveryRunIsPrompt(mode: PrefillMode, events: seq<Event>)
    requires AckTameRun(InitialClient(mode), events)
    ensures var t := ClientRun(InitialClient(mode), events);
            IsOpen(t.link) && t.ack.supported && t.ack.received != t.ack.lastAck
            ==> t.ack.timer && t.ack.received - t.ack.lastAck < ACK_EVERY_BYTES
  {
    ClientRunKeeps(InitialClient(mode), events);
  }

  /** An ack is sent on an open socket with acknowledgement negotiated, and on no other. */
  lemma AcksNeedNegotiation(c: Client, e: Event)
    ensures A.AckCount(AckStep(c, e).ledger) != A.AckCount(c.ack.ledger) ==> IsOpen(c.link) && c.ack.supported
  {
  }

  /** Acknowledgement is what the last attach_ack on the socket granted. */
  lemma NegotiationExact(c: Client, e: Event)
    ensures var t := ClientStep(c, e);
            t.ack.supported
            == if t.link.ws.NoSocket? then false else if e.AttachAck? && IsOpen(c.link) then e.outputAck else c.ack.supported
  {
  }

  function Firings(n: nat): seq<Event> {
    if n == 0 then [] else [AckRetryFired] + Firings(n - 1)
  }

  lemma {:induction false} FiringsRetry(c: Client, n: nat)
    requires IsOpen(c.link)
    ensures ClientRun(c, Firings(n)) == Client(c.link, A.FireRetries(c.ack, n))
    decreases n
  {
    if n > 0 {
      assert ClientStep(c, AckRetryFired) == Client(c.link, FireRetry(c.ack, true));
      assert Firings(n)[1..] == Firings(n - 1);
      FiringsRetry(ClientStep(c, AckRetryFired), n - 1);
    }
  }

  /** After any run: when the timer of outstanding output fires it is
      acknowledged, and as long as none arrives the ack is sent again up to four
      times, if at least 448 KiB were received and not otherwise. */
  lemma EveryRunRetries(mode: PrefillMode, events: seq<Event>, n: nat)
    requires var c := ClientRun(InitialClient(mode), events);
             IsOpen(c.link) && c.ack.supported && c.ack.timer && c.ack.received != c.ack.lastAck
    ensures var c := ClientRun(InitialClient(mode), events);
            var t := ClientRun(c, [AckTimerFired] + Firings(n));
            var retries := if c.ack.received < 458_752 then 0 else if n < 4 then n else 4;
            && t.link == c.link && t.ack.received == t.ack.lastAck == c.ack.received
            && A.Entries(t.ack.ledger)
               == A.Entries(c.ack.ledger) + [Sent(c.ack.received, false)] + A.Repeated(Sent(c.ack.received, true), retries)
  {
    ClientRunKeeps(InitialClient(mode), events);
    var c := ClientRun(InitialClient(mode), events);
    assert ClientStep(c, AckTimerFired) == Client(c.link, SendAck(c.ack, true, false));
    assert ([AckTimerFired] + Firings(n))[1..] == Firings(n);
    FiringsRetry(ClientStep(c, AckTimerFired), n);
    A.RetriesExact(c.ack, n);
  }

  // ----- every byte is counted once

  /** Acknowledgement is negotiated and the socket open, before and after. */
  predicate Counting(c: Client) {
    c.ack.supported && IsOpen(c.link)
  }

  lemma StepCounts(c: Client, e: Event)
    requires Counts(c) && Counting(c) && Counting(ClientStep(c, e))
    ensures !Rejects(c, e)
    ensures ClientStep(c, e).ack.received == c.ack.received + |C.ArrivedBytes(e)|
  {
    CloseCloses(c.link);
    if e.BinaryFrame? { A.ReceiveKeeps(c.ack, |e.data|); }
  }

  predicate Steady(c: Client, events: seq<Event>)
    decreases |events|
  {
    Counting(c) && (events == [] || Steady(ClientStep(c, events[0]), events[1..]))
  }

  /** From negotiation on the counter is the number of bytes that arrived,
      however often frames are held back and replayed meanwhile. */
  lemma {:induction false} RunCounts(c: Client, events: seq<Event>)
    requires Counts(c) && Steady(c, events)
    ensures ClientRun(c, events).ack.received == c.ack.received + |C.Received(events)|
    ensures LinkEvents(c, events) == events
    decreases |events|
  {
    if events != [] {
      assert Counting(ClientStep(c, events[0])) by { assert Steady(ClientStep(c, events[0]), events[1..]); }
      StepCounts(c, events[0]);
      ClientStepCounts(c, events[0]);
      RunCounts(ClientStep(c, events[0]), events[1..]);
      assert [events[0]] + events[1..] == events;
    }
  }

  /** Counted bytes and bytes in hand grow together: what the counter gained is
      what the terminal was given, plus what is buffered or held back. */
  lemma CountedOnce(c: Client, events: seq<Event>, id: nat)
    requires Counts(c) && Steady(c, events)
    requires C.Inv(c.link) && C.Live(c.link, id) && S.OrderlyRun(c.link, events) && ViewerConflict !in events
    requires var t := ClientRun(c, events).link;
             C.Live(t, id) && t.rz.generation == c.link.rz.generation
    ensures var t := ClientRun(c, events);
            t.ack.received - c.ack.received == |C.Content(t.link)| - |C.Content(c.link)|
  {
    RunCounts(c, events);
    LinkRuns(c, events);
    C.RunConserves(c.link, events, id);
  }
}
