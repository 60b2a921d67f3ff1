/**
 The whole client: the protocol of `PtyProtocol` together with the output
 acknowledgements of `OutputAck`, which count a frame before it can be held
 back and see nothing of its replay.
 */
module PtyClient {
  import opened Common
  import opened OutputAck
  import opened PtyResize
  import opened PtyProtocol

  datatype Client = Client(link: Link, ack: Acks)

  function InitialClient(mode: PrefillMode): Client {
    Client(InitialLink(mode), RESET)
  }

  /** resetAttachLifecycle also resets the acknowledgements; it runs exactly
      when the client gives up its socket. */
  function AckAfter(t: Link, a: Acks): Acks {
    if t.ws.NoSocket? then RESET else a
  }

  /** A frame whose bytes can no longer be counted closes the socket and is dropped. */
  predicate Rejects(c: Client, e: Event) {
    e.BinaryFrame? && IsOpen(c.link) && Overflows(c.ack, |e.data|)
  }

  function LinkEvent(c: Client, e: Event): Event {
    if Rejects(c, e) then LocalClose else e
  }

  function AckStep(c: Client, e: Event): Acks {
    var open := IsOpen(c.link);
    match e
    case BinaryFrame(d, _) => if open then Receive(c.ack, open, |d|) else c.ack
    case AttachAck(_, supported) => if open then Negotiate(c.ack, supported) else c.ack
    case AckTimerFired => FireTimer(c.ack, open)
    case AckRetryFired => FireRetry(c.ack, open)
    case _ => c.ack
  }

  function ClientStep(c: Client, e: Event): Client {
    var t := Step(c.link, LinkEvent(c, e));
    Client(t, AckAfter(t, AckStep(c, e)))
  }

  function ClientRun(c: Client, events: seq<Event>): Client
    decreases |events|
  {
    if events == [] then c else ClientRun(ClientStep(c, events[0]), events[1..])
  }
}
