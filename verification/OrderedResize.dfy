/**
 Numbered resize requests: public/ordered-resize.ts.
 An id is allocated when a request is made, and only the acknowledgement that
 carries the id of the pending request completes it.
 */
module OrderedResize {
  import opened Common

  datatype Request = Request(id: nat, dims: Dims)

  /** A resize_ack frame as received. A field that is not a number reads as 0. */
  datatype Ack = Ack(resizeId: int, cols: int, rows: int)

  datatype Tracker = Tracker(nextId: nat, pending: Option<Request>)

  predicate IsValidAck(m: Ack) {
    IsPositiveSafeInteger(m.resizeId) && IsPositiveSafeInteger(m.cols) && IsPositiveSafeInteger(m.rows)
  }

  /** True when `m` is the acknowledgement the tracker waits for. */
  predicate Completes(t: Tracker, m: Ack) {
    IsValidAck(m) && t.pending.Some? && m.resizeId == t.pending.value.id
  }

  predicate ShouldSendResizeRequest(dims: Dims, lastSent: Option<Dims>, force: bool) {
    force || Some(dims) != lastSent
  }

  function Requested(t: Tracker, dims: Dims): Tracker {
    Tracker(t.nextId + 1, Some(Request(t.nextId + 1, dims)))
  }

  function Cleared(t: Tracker): Tracker {
    t.(pending := None)
  }

  class OrderedResizeTracker {
    var nextResizeId: nat
    var pending: Option<Request>

    function View(): Tracker
      reads this
    {
      Tracker(nextResizeId, pending)
    }

    constructor ()
      ensures View() == Tracker(0, None)
    {
      nextResizeId, pending := 0, None;
    }

    method MakeRequest(dims: Dims) returns (request: Request)
      modifies this
      ensures View() == Requested(old(View()), dims)
      ensures pending == Some(request) && request.dims == dims
      ensures old(nextResizeId) < request.id
    {
      nextResizeId := nextResizeId + 1;
      request := Request(nextResizeId, dims);
      pending := Some(request);
    }

    predicate HasPending()
      reads this
    {
      pending.Some?
    }

    /** Completes the pending request, or changes nothing and reports None. */
    method Acknowledge(m: Ack) returns (dims: Option<Dims>)
      modifies this
      ensures dims.Some? <==> Completes(old(View()), m)
      ensures dims.Some? <==> old(pending).Some? && m.resizeId == old(pending).value.id
                              && 1 <= m.resizeId <= 9_007_199_254_740_991
                              && 1 <= m.cols <= 9_007_199_254_740_991 && 1 <= m.rows <= 9_007_199_254_740_991
      ensures dims.Some? ==> View() == Cleared(old(View())) && dims.value == Dims(m.cols, m.rows)
      ensures dims.None? ==> View() == old(View())
    {
      if !IsValidAck(m) || pending.None? || m.resizeId != pending.value.id {
        return None;
      }
      pending := None;
      return Some(Dims(m.cols, m.rows));
    }

    method Clear()
      modifies this
      ensures View() == Cleared(old(View()))
    {
      pending := None;
    }
  }
}
