/**
 Where prompt acknowledgement ends: the byte counters belong to the client and
 not to the socket, so that bytes can be left without a timer, or acknowledged
 on a socket they did not arrive on.
 */
module PtyClientLimits {
  import opened Common
  import opened OutputAck
  import opened PtyResize
  import opened PtyProtocol
  import opened PtyClient
  import opened PtyClientSafety
  import A = OutputAckSafety
  import F = PtyFailures

  /** On an open socket no byte waits without a timer, however the run goes on. */
  ghost predicate AlwaysPrompt(c: Client) {
    forall events :: AckTameRun(c, events) && IsOpen(ClientRun(c, events).link) ==> A.Prompt(ClientRun(c, events).ack)
  }

  lemma InvIsPrompt(c: Client)
    requires Inv(c)
    ensures AlwaysPrompt(c)
  {
    forall events | AckTameRun(c, events) && IsOpen(ClientRun(c, events).link)
      ensures A.Prompt(ClientRun(c, events).ack)
    {
      ClientRunKeeps(c, events);
    }
  }

  lemma ClientRunTwo(c: Client, a: Event, b: Event)
    ensures ClientRun(c, [a, b]) == ClientStep(ClientStep(c, a), b)
    ensures AckTameRun(c, [a, b]) <==> AckTame(c, a) && AckTame(ClientStep(c, a), b)
  {
    assert [a, b][1..] == [b] && [b][1..] == [];
    assert AckTameRun(ClientStep(c, a), [b]) <==> AckTame(ClientStep(c, a), b);
    assert ClientRun(ClientStep(ClientStep(c, a), b), []) == ClientStep(ClientStep(c, a), b);
  }

  lemma GrantedLate(c: Client, ordered: bool)
    requires IsOpen(c.link) && !c.ack.supported && A.Outstanding(c.ack)
    ensures !AlwaysPrompt(c)
  {
    ClientRunTwo(c, AckTimerFired, AttachAck(ordered, true));
    var t := ClientRun(c, [AckTimerFired, AttachAck(ordered, true)]);
    assert IsOpen(t.link) && !A.Prompt(t.ack);
  }

  /** Withdrawing acknowledgement keeps it prompt exactly when no byte is outstanding. */
  lemma WithdrawAckExact(c: Client, ordered: bool, supported: bool)
    requires Inv(c) && IsOpen(c.link)
    ensures AlwaysPrompt(ClientStep(c, AttachAck(ordered, supported))) <==> supported || !A.Outstanding(c.ack)
  {
    var e := AttachAck(ordered, supported);
    if supported || !A.Outstanding(c.ack) {
      ClientStepKeeps(c, e);
      InvIsPrompt(ClientStep(c, e));
    } else {
      GrantedLate(ClientStep(c, e), ordered);
    }
  }

  lemma OpenedLate(c: Client)
    requires IsConnecting(c.link) && c.ack.supported && A.Outstanding(c.ack)
    ensures !AlwaysPrompt(c)
  {
    ClientRunTwo(c, AckTimerFired, SocketOpened(F.UNMOUNTED));
    var t := ClientRun(c, [AckTimerFired, SocketOpened(F.UNMOUNTED)]);
    assert IsOpen(t.link) && !A.Prompt(t.ack);
  }

  /** Replacing a closing socket keeps acknowledgement prompt exactly when no byte is outstanding. */
  lemma ReplaceExact(c: Client)
    requires Inv(c) && IsClosing(c.link)
    ensures AlwaysPrompt(ClientStep(c, Connect)) <==> !A.Outstanding(c.ack)
  {
    if A.Outstanding(c.ack) {
      OpenedLate(ClientStep(c, Connect));
    } else {
      ClientStepKeeps(c, Connect);
      InvIsPrompt(ClientStep(c, Connect));
    }
  }

  // ----- runs of a new client

  lemma ClientRunFour(c: Client, e0: Event, e1: Event, e2: Event, e3: Event)
    ensures ClientRun(c, [e0, e1, e2]) == ClientStep(ClientStep(ClientStep(c, e0), e1), e2)
    ensures ClientRun(c, [e0, e1, e2, e3]) == ClientStep(ClientStep(ClientStep(ClientStep(c, e0), e1), e2), e3)
  {
    ClientRunTwo(ClientStep(ClientStep(c, e0), e1), e2, e3);
    ClientRunTwo(ClientStep(c, e0), e1, e2);
    assert [e0, e1, e2, e3][1..] == [e1, e2, e3] && [e1, e2, e3][1..] == [e2, e3] && [e0, e1, e2][1..] == [e1, e2];
  }

  /** One byte arrives on a socket with acknowledgement. */
  const RECEIVING: seq<Event> := [Connect, SocketOpened(F.MOUNTED), AttachAck(false, true), BinaryFrame([1], map[])]

  const OUTSTANDING := Acks(true, 1, 0, true, false, 0, Ledger(Empty, Arrived(1)))

  lemma Receiving()
    ensures var c := ClientRun(InitialClient(NoPrefill), RECEIVING);
            c.link.ws == F.FIRST && c.link.nextSocket == 1 && c.ack == OUTSTANDING
  {
    var c := InitialClient(NoPrefill);
    ClientRunFour(c, RECEIVING[0], RECEIVING[1], RECEIVING[2], RECEIVING[3]);
    F.Opening(NoPrefill);
    var c2 := ClientStep(ClientStep(c, RECEIVING[0]), RECEIVING[1]);
    assert c2 == Client(Step(Step(InitialLink(NoPrefill), Connect), SocketOpened(F.MOUNTED)), RESET);
    FirstByte(c2);
  }

  lemma FirstByte(c: Client)
    requires c.link.ws == F.FIRST && !Buffers(c.link.prefill) && c.ack == RESET
    ensures var t := ClientStep(ClientStep(c, AttachAck(false, true)), BinaryFrame([1], map[]));
            t.link.ws == F.FIRST && t.link.nextSocket == c.link.nextSocket && t.ack == OUTSTANDING
  {
    var c1 := ClientStep(c, AttachAck(false, true));
    assert c1.ack == RESET.(supported := true) && !c1.link.rz.barrier && !Buffers(c1.link.prefill);
  }

  /** Acknowledgement is withdrawn, its timer fires, it is granted again: the
      byte waits without a timer. */
  lemma WithdrawalForgets()
    ensures var events := RECEIVING + [AttachAck(false, false), AckTimerFired, AttachAck(false, true)];
            var t := ClientRun(InitialClient(NoPrefill), events);
            IsOpen(t.link) && t.ack.supported && A.Outstanding(t.ack) && !t.ack.timer && !t.ack.retryTimer
  {
    var c := ClientRun(InitialClient(NoPrefill), RECEIVING);
    Receiving();
    ClientRunAppend(InitialClient(NoPrefill), RECEIVING, [AttachAck(false, false), AckTimerFired, AttachAck(false, true)]);
    ClientRunFour(c, AttachAck(false, false), AckTimerFired, AttachAck(false, true), Connect);
  }

  /** A closing socket is replaced, and the new one opens: the counters stay. */
  lemma Replacing(c: Client)
    requires IsClosing(c.link)
    ensures var t := ClientStep(ClientStep(c, Connect), SocketOpened(F.MOUNTED));
            t.link.ws == Socket(c.link.nextSocket, Phase.Open) && t.ack == c.ack
  {
    var s := c.link.(ws := Socket(c.link.nextSocket, Connecting), nextSocket := c.link.nextSocket + 1);
    assert ClientStep(c, Connect) == Client(s, c.ack);
    assert Step(s, SocketOpened(F.MOUNTED)).ws == s.ws.(phase := Phase.Open);
  }

  lemma TimedOut(c: Client)
    requires c.link.ws == F.FIRST && c.ack == OUTSTANDING
    ensures var c1 := ClientStep(ClientStep(c, LocalClose), AckTimerFired);
            var t := ClientStep(ClientStep(c1, Connect), SocketOpened(F.MOUNTED));
            IsOpen(t.link) && t.ack == OUTSTANDING.(timer := false)
  {
    var c1 := ClientStep(ClientStep(c, LocalClose), AckTimerFired);
    assert IsClosing(c1.link) && c1.ack == OUTSTANDING.(timer := false);
    Replacing(c1);
  }

  /** The socket closes, the timer fires, another socket replaces it: its first
      byte waits without a timer. */
  lemma ReplacementForgets()
    ensures var events := RECEIVING + [LocalClose, AckTimerFired, Connect, SocketOpened(F.MOUNTED)];
            var t := ClientRun(InitialClient(NoPrefill), events);
            IsOpen(t.link) && t.ack.supported && A.Outstanding(t.ack) && !t.ack.timer && !t.ack.retryTimer
  {
    var c := ClientRun(InitialClient(NoPrefill), RECEIVING);
    Receiving();
    ClientRunAppend(InitialClient(NoPrefill), RECEIVING, [LocalClose, AckTimerFired, Connect, SocketOpened(F.MOUNTED)]);
    ClientRunFour(c, LocalClose, AckTimerFired, Connect, SocketOpened(F.MOUNTED));
    TimedOut(c);
  }

  /** With the timer still armed, the byte of the first socket is acknowledged
      on the second one, which received nothing. */
  lemma AcknowledgedElsewhere()
    ensures var events := RECEIVING + [LocalClose, Connect, SocketOpened(F.MOUNTED), AckTimerFired];
            var t := ClientRun(InitialClient(NoPrefill), events);
            t.link.ws == Socket(1, Phase.Open) && t.ack.ledger == Ledger(Ledger(Empty, Arrived(1)), Sent(1, false))
  {
    var c := ClientRun(InitialClient(NoPrefill), RECEIVING);
    Receiving();
    ClientRunAppend(InitialClient(NoPrefill), RECEIVING, [LocalClose, Connect, SocketOpened(F.MOUNTED), AckTimerFired]);
    ClientRunFour(c, LocalClose, Connect, SocketOpened(F.MOUNTED), AckTimerFired);
    AcksReplaced(c);
  }

  lemma AcksReplaced(c: Client)
    requires c.link.ws == F.FIRST && c.link.nextSocket == 1 && c.ack == OUTSTANDING
    ensures var t := ClientStep(ClientStep(ClientStep(ClientStep(c, LocalClose), Connect), SocketOpened(F.MOUNTED)), AckTimerFired);
            t.link.ws == Socket(1, Phase.Open) && t.ack.ledger == Ledger(OUTSTANDING.ledger, Sent(1, false))
  {
    Replacing(ClientStep(c, LocalClose));
  }
}
