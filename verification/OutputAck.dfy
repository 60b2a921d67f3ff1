/**
 Cumulative output acknowledgement of public/pty-socket-client.ts: bytes are
 counted when they arrive, an ack is sent once enough are outstanding or a
 short timer fires, and a possibly full window is retried a bounded number of
 times while no output arrives.
 */
module OutputAck {
  import opened Common

  const ACK_EVERY_BYTES: nat := 65_536
  const VIEWER_WINDOW_BYTES: nat := 524_288
  const ACK_RETRY_MAX_ATTEMPTS: nat := 4

  /** Output that the counter cannot hold arrives as 0 bytes. */
  datatype Entry = Arrived(bytes: nat) | Sent(bytes: nat, retry: bool)

  /** What was counted and acknowledged since the last reset, newest last. */
  datatype Ledger = Empty | Ledger(before: Ledger, last: Entry)

  datatype Acks = Acks(
    supported: bool, received: nat, lastAck: nat,
    timer: bool, retryTimer: bool, retries: nat, ledger: Ledger)

  const RESET: Acks := Acks(false, 0, 0, false, false, 0, Empty)

  predicate MayBeStalled(received: nat) {
    var minimumServerAcked := if received > VIEWER_WINDOW_BYTES then received - VIEWER_WINDOW_BYTES else 0;
    received - minimumServerAcked >= VIEWER_WINDOW_BYTES - ACK_EVERY_BYTES
  }

  predicate Sends(a: Acks, open: bool, retry: bool) {
    a.supported && open && (retry || a.received != a.lastAck)
  }

  function SendAck(a: Acks, open: bool, retry: bool): Acks {
    var a1 := a.(retryTimer := a.retryTimer && !retry, timer := false);
    if !Sends(a, open, retry) then a1 else
    var a2 := a1.(lastAck := a.received, retries := a.retries + (if retry then 1 else 0),
                  ledger := Ledger(a.ledger, Sent(a.received, retry)));
    a2.(retryTimer := a2.retryTimer || (MayBeStalled(a.received) && a2.retries < ACK_RETRY_MAX_ATTEMPTS))
  }

  /** The counter would no longer be exact: the socket is closed instead. */
  predicate Overflows(a: Acks, bytes: nat) {
    a.supported && bytes != 0 && a.received + bytes > MAX_SAFE_INTEGER
  }

  function Receive(a: Acks, open: bool, bytes: nat): Acks {
    if !a.supported || bytes == 0 then a else
    var a1 := a.(retryTimer := false, retries := 0);
    if Overflows(a, bytes) then a1.(ledger := Ledger(a.ledger, Arrived(0))) else
    var a2 := a1.(received := a.received + bytes, ledger := Ledger(a.ledger, Arrived(bytes)));
    if a2.received >= a2.lastAck + ACK_EVERY_BYTES then SendAck(a2, open, false) else a2.(timer := true)
  }

  function Negotiate(a: Acks, supported: bool): Acks {
    a.(supported := supported)
  }

  function FireTimer(a: Acks, open: bool): Acks {
    if a.timer then SendAck(a, open, false) else a
  }

  function FireRetry(a: Acks, open: bool): Acks {
    if a.retryTimer then SendAck(a, open, true) else a
  }
}
