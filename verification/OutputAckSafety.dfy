/** What the acknowledgements keep over every sequence of calls. */
module OutputAckSafety {
  import opened Common
  import opened OutputAck

  /** What a ledger adds up to.
      - total: bytes counted; acked: the newest ack
      - quietRetries: retries since output last arrived
      - sound: every ack covered more than the one before, or as much if it was
        a retry, and at most what had arrived; and no quiet period had more
        retries than allowed */
  datatype Tally = Tally(total: nat, acked: nat, quietRetries: nat, sound: bool)

  function Add(t: Tally, e: Entry): Tally {
    match e
    case Arrived(n) => t.(total := t.total + n, quietRetries := 0)
    case Sent(n, retry) =>
      var q := t.quietRetries + (if retry then 1 else 0);
      Tally(t.total, n, q, t.sound && (if retry then t.acked == n else t.acked < n) && n <= t.total && q <= ACK_RETRY_MAX_ATTEMPTS)
  }

  function Total(l: Ledger): Tally {
    match l
    case Empty => Tally(0, 0, 0, true)
    case Ledger(before, e) => Add(Total(before), e)
  }

  predicate Outstanding(a: Acks) {
    a.received != a.lastAck
  }

  /** An outstanding byte is below the threshold and has a timer. */
  predicate Prompt(a: Acks) {
    a.supported && Outstanding(a) ==> a.timer && a.received < a.lastAck + ACK_EVERY_BYTES
  }

  predicate Counts(a: Acks) {
    var t := Total(a.ledger);
    && t.sound && t.total == a.received <= MAX_SAFE_INTEGER && t.acked == a.lastAck <= a.received
    && t.quietRetries == a.retries <= ACK_RETRY_MAX_ATTEMPTS
    && (a.retryTimer ==> a.retries < ACK_RETRY_MAX_ATTEMPTS)
    && (Outstanding(a) ==> a.retries == 0 && !a.retryTimer)
  }

  lemma SendAckKeeps(a: Acks, open: bool, retry: bool)
    requires Counts(a) && (retry ==> a.retryTimer)
    ensures var t := SendAck(a, open, retry);
            && Counts(t) && t.received == a.received && t.supported == a.supported
            && (open ==> Prompt(t)) && (Outstanding(t) ==> Outstanding(a))
  {
  }

  /** Whatever was outstanding before, a receipt leaves the gap prompt. */
  lemma ReceiveKeeps(a: Acks, bytes: nat)
    requires Counts(a)
    ensures var t := Receive(a, true, bytes);
            && Counts(t) && t.supported == a.supported
            && t.received == a.received + (if a.supported && !Overflows(a, bytes) then bytes else 0)
            && (!Overflows(a, bytes) && (Prompt(a) || bytes != 0) ==> Prompt(t))
            && (Outstanding(t) && !a.supported ==> Outstanding(a))
  {
    if a.supported && bytes != 0 && !Overflows(a, bytes) { CountedKeeps(a, bytes); }
  }

  lemma CountedKeeps(a: Acks, bytes: nat)
    requires Counts(a) && a.supported && bytes != 0 && !Overflows(a, bytes)
    ensures var t := Receive(a, true, bytes); Counts(t) && t.supported && t.received == a.received + bytes && Prompt(t)
  {
    var a2 := a.(retryTimer := false, retries := 0, received := a.received + bytes, ledger := Ledger(a.ledger, Arrived(bytes)));
    assert Counts(a2);
    SendAckKeeps(a2, true, false);
  }

  /** Output is acknowledged at once when 64 KiB are outstanding with it, and
      left to the timer otherwise. Empty output, and all output before
      acknowledgement is negotiated, changes nothing; what the counter cannot
      hold is not counted. */
  lemma ReceiveExact(a: Acks, bytes: nat)
    requires Counts(a)
    ensures var t := Receive(a, true, bytes); var received := a.received + bytes;
            if !a.supported || bytes == 0 then t == a
            else if received > 9_007_199_254_740_991 then
              t.ledger == Ledger(a.ledger, Arrived(0)) && t.received == a.received && t.lastAck == a.lastAck && t.timer == a.timer
            else if received - a.lastAck >= 65_536 then
              t.ledger == Ledger(Ledger(a.ledger, Arrived(bytes)), Sent(received, false)) && t.lastAck == received && !t.timer
            else t.ledger == Ledger(a.ledger, Arrived(bytes)) && t.lastAck == a.lastAck && t.timer
  {
  }

  function AckCount(l: Ledger): nat {
    match l
    case Empty => 0
    case Ledger(before, e) => AckCount(before) + (if e.Sent? then 1 else 0)
  }

  // ----- a ledger as a sequence

  function Entries(l: Ledger): seq<Entry> {
    match l
    case Empty => []
    case Ledger(before, e) => Entries(before) + [e]
  }

  function ArrivedIn(entries: seq<Entry>): nat
    decreases |entries|
  {
    if entries == [] then 0 else
    ArrivedIn(entries[..|entries| - 1]) + (if entries[|entries| - 1].Arrived? then entries[|entries| - 1].bytes else 0)
  }

  /** Acks never decrease, and grow unless they are retried. */
  predicate AcksGrow(h: seq<Entry>) {
    forall i, j :: 0 <= i < j < |h| && h[i].Sent? && h[j].Sent? ==>
      h[i].bytes <= h[j].bytes && (!h[j].retry ==> h[i].bytes < h[j].bytes)
  }

  /** An ack never covers more than had arrived. */
  predicate AcksCovered(h: seq<Entry>) {
    forall j :: 0 <= j < |h| && h[j].Sent? ==> h[j].bytes <= ArrivedIn(h[..j])
  }

  function RetriesIn(h: seq<Entry>): nat
    decreases |h|
  {
    if h == [] then 0 else RetriesIn(h[..|h| - 1]) + (if h[|h| - 1].Sent? && h[|h| - 1].retry then 1 else 0)
  }

  /** A stretch in which no output arrives. */
  predicate QuietPeriod(h: seq<Entry>) {
    forall k :: 0 <= k < |h| ==> h[k].Sent?
  }

  predicate RetriesBounded(h: seq<Entry>) {
    forall i, j :: 0 <= i <= j <= |h| && QuietPeriod(h[i..j]) ==> RetriesIn(h[i..j]) <= ACK_RETRY_MAX_ATTEMPTS
  }

  lemma ArrivedAppend(h: seq<Entry>, e: Entry)
    ensures ArrivedIn(h + [e]) == ArrivedIn(h) + (if e.Arrived? then e.bytes else 0)
    ensures RetriesIn(h + [e]) == RetriesIn(h) + (if e.Sent? && e.retry then 1 else 0)
  {
    assert (h + [e])[..|h|] == h;
  }

  /** No ack is beyond `acked`. */
  predicate AckedUpTo(h: seq<Entry>, acked: nat) {
    forall i :: 0 <= i < |h| && h[i].Sent? ==> h[i].bytes <= acked
  }

  lemma AckedAppend(h: seq<Entry>, e: Entry, before: nat, after: nat)
    requires AckedUpTo(h, before) && before <= after && (e.Sent? ==> e.bytes <= after)
    ensures AckedUpTo(h + [e], after)
  {
  }

  lemma {:induction false} TotalMeans(l: Ledger)
    requires Total(l).sound
    ensures Total(l).total == ArrivedIn(Entries(l)) && Total(l).quietRetries <= ACK_RETRY_MAX_ATTEMPTS
    ensures AckedUpTo(Entries(l), Total(l).acked)
  {
    match l {
      case Empty =>
      case Ledger(before, e) =>
        TotalMeans(before);
        ArrivedAppend(Entries(before), e);
        AckedAppend(Entries(before), e, Total(before).acked, Total(l).acked);
    }
  }

  lemma {:induction false} QuietRetriesMean(l: Ledger, i: nat)
    requires i <= |Entries(l)| && QuietPeriod(Entries(l)[i..])
    ensures RetriesIn(Entries(l)[i..]) <= Total(l).quietRetries
  {
    match l {
      case Empty =>
      case Ledger(before, e) =>
        var h, g := Entries(before), Entries(l);
        if i <= |h| {
          assert g[i..] == h[i..] + [e];
          assert g[i..][|h| - i] == e;
          assert QuietPeriod(h[i..]) by { assert forall k :: 0 <= k < |h| - i ==> h[i..][k] == g[i..][k]; }
          QuietRetriesMean(before, i);
          ArrivedAppend(h[i..], e);
        }
    }
  }

  lemma CoveredAppend(h: seq<Entry>, e: Entry)
    requires AcksCovered(h) && (e.Sent? ==> e.bytes <= ArrivedIn(h))
    ensures AcksCovered(h + [e])
  {
    var g := h + [e];
    forall j | 0 <= j < |g| && g[j].Sent?
      ensures g[j].bytes <= ArrivedIn(g[..j])
    {
      assert g[..j] == h[..j];
      if j == |h| { assert h[..j] == h; }
    }
  }

  lemma {:induction false} RetriesStayBounded(l: Ledger)
    requires Total(l).sound
    ensures RetriesBounded(Entries(l))
  {
    match l {
      case Empty =>
      case Ledger(before, e) =>
        RetriesStayBounded(before);
        TotalMeans(l);
        var h, g := Entries(before), Entries(l);
        forall i, j | 0 <= i <= j <= |g| && QuietPeriod(g[i..j])
          ensures RetriesIn(g[i..j]) <= ACK_RETRY_MAX_ATTEMPTS
        {
          if j <= |h| {
            assert g[i..j] == h[i..j];
          } else {
            assert g[i..j] == g[i..];
            QuietRetriesMean(l, i);
          }
        }
    }
  }

  /** Every ledger a client can build: acks never decrease, never run ahead of
      the output, and are retried a bounded number of times per quiet period. */
  lemma {:induction false} SoundLedger(l: Ledger)
    requires Total(l).sound
    ensures AcksGrow(Entries(l)) && AcksCovered(Entries(l)) && RetriesBounded(Entries(l))
  {
    RetriesStayBounded(l);
    match l {
      case Empty =>
      case Ledger(before, e) =>
        SoundLedger(before);
        TotalMeans(before);
        CoveredAppend(Entries(before), e);
    }
  }

  // ----- how often an ack is repeated

  function FireRetries(a: Acks, n: nat): Acks
    decreases n
  {
    if n == 0 then a else FireRetries(FireRetry(a, true), n - 1)
  }

  function Repeated(e: Entry, n: nat): (h: seq<Entry>)
    ensures |h| == n && forall k :: 0 <= k < n ==> h[k] == e
  {
    seq(n, _ => e)
  }

  /** Of `n` firings, how many send an ack of `received` bytes again when
      `retries` were sent before: up to four in all, and only if the window of
      512 KiB may lack no more than 64 KiB of being full. */
  function RetriesLeft(received: nat, retries: nat, n: nat): nat
    requires retries <= 4
  {
    if received < 458_752 then 0 else if n < 4 - retries then n else 4 - retries
  }

  predicate Retrying(a: Acks) {
    && a.supported && a.lastAck == a.received && a.retries <= 4
    && (a.retryTimer <==> a.received >= 458_752 && a.retries < 4)
  }

  lemma RetryOnce(a: Acks)
    requires Retrying(a)
    ensures var t := FireRetry(a, true);
            && Retrying(t) && t.received == a.received
            && (if a.retryTimer then t.retries == a.retries + 1 && t.ledger == Ledger(a.ledger, Sent(a.received, true)) else t == a)
  {
  }

  lemma {:induction false} RetryOften(a: Acks, n: nat)
    requires Retrying(a)
    ensures var t := FireRetries(a, n);
            && t.received == t.lastAck == a.received
            && Entries(t.ledger) == Entries(a.ledger) + Repeated(Sent(a.received, true), RetriesLeft(a.received, a.retries, n))
    decreases n
  {
    if n > 0 {
      var e, b := Sent(a.received, true), FireRetry(a, true);
      RetryOnce(a);
      RetryOften(b, n - 1);
      var k := RetriesLeft(a.received, a.retries, n);
      if a.retryTimer { assert Repeated(e, k) == [e] + Repeated(e, k - 1); }
    }
  }

  /** The ack of outstanding output, and `n` firings of the retry timer while
      none arrives: one ack, and up to four more of the same bytes if the window
      may be full. */
  lemma RetriesExact(a: Acks, n: nat)
    requires Counts(a) && a.supported && Outstanding(a)
    ensures var t := FireRetries(SendAck(a, true, false), n);
            var retries := if a.received < 458_752 then 0 else if n < 4 then n else 4;
            && t.received == t.lastAck == a.received
            && Entries(t.ledger) == Entries(a.ledger) + [Sent(a.received, false)] + Repeated(Sent(a.received, true), retries)
  {
    RetryOften(SendAck(a, true, false), n);
  }
}
