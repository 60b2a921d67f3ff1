/**
 What every run shows of the output that got past the barrier, and when, read
 off the positions of its effects. A history is the sequence of effects up to
 some moment.
 */
module PtyPrefillHistory {
  import opened Common
  import opened PtyResize
  import opened PtyProtocol
  import opened PtyPrefill
  import H = PtyHistory

  predicate IsBinary(e: Effect) {
    e.Passed? && e.frame.Binary?
  }

  predicate IsControl(e: Effect, kind: ControlKind) {
    e.Passed? && e.frame.Control? && e.frame.kind == kind
  }

  predicate IsViewport(e: Effect) {
    IsControl(e, PrefillViewport)
  }

  predicate IsDone(e: Effect) {
    IsControl(e, PrefillDone)
  }

  /** A prefill ends, or another begins. */
  predicate IsBreak(e: Effect) {
    e.SentAttach? || e.LifecycleCancelled? || e.Conflicted? || IsDone(e)
  }

  /** A viewport was passed in the prefill that goes on. */
  predicate BehindViewport(h: seq<Effect>) {
    exists v :: 0 <= v < |h| && IsViewport(h[v]) && forall k :: v < k < |h| ==> !IsBreak(h[k])
  }

  /** The prefill of an attach goes on. */
  predicate Attaching(h: seq<Effect>) {
    exists a :: 0 <= a < |h| && h[a].SentAttach? && forall k :: a < k < |h| ==> !IsBreak(h[k])
  }

  /** An attach was sent in this lifecycle. */
  predicate Attached(h: seq<Effect>) {
    exists a :: 0 <= a < |h| && h[a].SentAttach? && forall k :: a < k < |h| ==> !h[k].LifecycleCancelled?
  }

  /** Output is for prefill_done to show: behind a viewport in every mode, and
      from the attach on where only the viewport was asked for. */
  predicate Holding(mode: PrefillMode, h: seq<Effect>) {
    BehindViewport(h) || (mode.Viewport? && Attaching(h))
  }

  /** Output was passed while holding, and no viewport or end of the prefill came since. */
  predicate HeldBack(mode: PrefillMode, h: seq<Effect>) {
    exists b :: 0 <= b < |h| && IsBinary(h[b]) && Holding(mode, h[..b]) && forall k :: b < k < |h| ==> !IsBreak(h[k]) && !IsViewport(h[k])
  }

  /** A prefill_done was passed and its end not reported. */
  predicate Unreported(h: seq<Effect>) {
    exists i :: 0 <= i < |h| && IsDone(h[i]) && forall k :: i < k < |h| ==> !h[k].PrefillCompleted?
  }

  /** What has to follow directly on the effect `last` after `h`. */
  predicate Follows(mode: PrefillMode, h: seq<Effect>, last: Effect, e: Effect) {
    && (IsBinary(last) && Attached(h) && !Holding(mode, h) ==> e == Delivered(last.frame.data))
    && (IsDone(last) && (Attached(h) || BehindViewport(h)) ==> (e.PrefillReplaced? <==> BehindViewport(h) && HeldBack(mode, h)))
    && (IsControl(last, PtyReady) <==> e.Ready?)
    && (e.PrefillReplaced? ==> IsDone(last))
  }

  /** `e` may come after `h`. */
  predicate Admits(mode: PrefillMode, h: seq<Effect>, e: Effect) {
    && (e.Delivered? ==> !HeldBack(mode, h))
    && (e.Passed? ==> !Unreported(h))
    && (e.PrefillCompleted? ==> Unreported(h))
    && (if h == [] then !e.Ready? && !e.PrefillReplaced? else Follows(mode, h[..|h| - 1], h[|h| - 1], e))
  }

  predicate Orderly(mode: PrefillMode, h: seq<Effect>) {
    forall j :: 0 <= j < |h| ==> Admits(mode, h[..j], h[j])
  }

  /** Nothing has to follow any more. */
  predicate Rests(mode: PrefillMode, h: seq<Effect>) {
    && !Unreported(h)
    && (h != [] ==>
          var last, before := h[|h| - 1], h[..|h| - 1];
          !IsControl(last, PtyReady) && !(IsBinary(last) && Attached(before) && !Holding(mode, before)))
  }

  // ----- one more effect

  lemma BehindAppend(h: seq<Effect>, e: Effect)
    ensures BehindViewport(h + [e]) <==> IsViewport(e) || (!IsBreak(e) && BehindViewport(h))
  {
    var g := h + [e];
    assert g[|h|] == e && forall k :: 0 <= k < |h| ==> g[k] == h[k];
    if BehindViewport(h) && !IsBreak(e) {
      var v :| 0 <= v < |h| && IsViewport(h[v]) && forall k :: v < k < |h| ==> !IsBreak(h[k]);
      assert IsViewport(g[v]);
    }
  }

  lemma AttachingAppend(h: seq<Effect>, e: Effect)
    ensures Attaching(h + [e]) <==> e.SentAttach? || (!IsBreak(e) && Attaching(h))
  {
    var g := h + [e];
    assert g[|h|] == e && forall k :: 0 <= k < |h| ==> g[k] == h[k];
    if Attaching(h) && !IsBreak(e) {
      var a :| 0 <= a < |h| && h[a].SentAttach? && forall k :: a < k < |h| ==> !IsBreak(h[k]);
      assert g[a].SentAttach?;
    }
  }

  lemma AttachedAppend(h: seq<Effect>, e: Effect)
    ensures Attached(h + [e]) <==> e.SentAttach? || (!e.LifecycleCancelled? && Attached(h))
  {
    var g := h + [e];
    assert g[|h|] == e && forall k :: 0 <= k < |h| ==> g[k] == h[k];
    if Attached(h) && !e.LifecycleCancelled? {
      var a :| 0 <= a < |h| && h[a].SentAttach? && forall k :: a < k < |h| ==> !h[k].LifecycleCancelled?;
      assert g[a].SentAttach?;
    }
  }

  lemma HeldAppend(mode: PrefillMode, h: seq<Effect>, e: Effect)
    ensures HeldBack(mode, h + [e])
            <==> !IsBreak(e) && !IsViewport(e) && (HeldBack(mode, h) || (IsBinary(e) && Holding(mode, h)))
  {
    var g := h + [e];
    assert g[|h|] == e && g[..|h|] == h;
    assert forall k :: 0 <= k < |h| ==> g[k] == h[k] && g[..k] == h[..k];
    if HeldBack(mode, h) && !IsBreak(e) && !IsViewport(e) {
      var b :| 0 <= b < |h| && IsBinary(h[b]) && Holding(mode, h[..b]) && forall k :: b < k < |h| ==> !IsBreak(h[k]) && !IsViewport(h[k]);
      assert IsBinary(g[b]) && Holding(mode, g[..b]);
    }
  }

  lemma UnreportedAppend(h: seq<Effect>, e: Effect)
    ensures Unreported(h + [e]) <==> IsDone(e) || (!e.PrefillCompleted? && Unreported(h))
  {
    var g := h + [e];
    assert g[|h|] == e && forall k :: 0 <= k < |h| ==> g[k] == h[k];
    if Unreported(h) && !e.PrefillCompleted? {
      var i :| 0 <= i < |h| && IsDone(h[i]) && forall k :: i < k < |h| ==> !h[k].PrefillCompleted?;
      assert IsDone(g[i]);
    }
  }

  /** What a `Watch` knows, in terms of positions. */
  predicate Explains(mode: PrefillMode, h: seq<Effect>, w: Watch) {
    && (Attached(h) || BehindViewport(h) || Attaching(h) || HeldBack(mode, h) ==> w.known)
    && (w.known ==> (w.viewport <==> BehindViewport(h)))
    && (w.known ==> (w.awaiting <==> BehindViewport(h) || (!mode.NoPrefill? && Attaching(h))))
    && (w.known ==> (w.held <==> HeldBack(mode, h)))
    && (w.finishing <==> Unreported(h))
  }

  lemma ExplainsAppend(mode: PrefillMode, h: seq<Effect>, w: Watch, e: Effect)
    requires Explains(mode, h, w)
    ensures Explains(mode, h + [e], Observe(mode, w, e))
  {
    BehindAppend(h, e);
    AttachingAppend(h, e);
    AttachedAppend(h, e);
    HeldAppend(mode, h, e);
    UnreportedAppend(h, e);
  }

  lemma FollowsLast(mode: PrefillMode, h: seq<Effect>, w: Watch, last: Effect, e: Effect)
    requires Explains(mode, h, w) && Allowed(Observe(mode, w, last), e)
    ensures Follows(mode, h, last, e)
  {
    if IsBinary(last) {
      FollowsBinary(mode, h, w, last, e);
    } else if IsDone(last) {
      FollowsDone(mode, h, w, last, e);
    } else {
      assert Observe(mode, w, last).due == if IsControl(last, PtyReady) then Announced else Nothing;
    }
  }

  lemma FollowsBinary(mode: PrefillMode, h: seq<Effect>, w: Watch, last: Effect, e: Effect)
    requires Explains(mode, h, w) && Allowed(Observe(mode, w, last), e) && IsBinary(last)
    ensures Follows(mode, h, last, e)
  {
    var v := Observe(mode, w, last);
    assert v.due == if w.known && !Holds(mode, w) then Shown(last.frame.data) else Nothing;
    assert w.known ==> (Holds(mode, w) <==> Holding(mode, h));
  }

  lemma FollowsDone(mode: PrefillMode, h: seq<Effect>, w: Watch, last: Effect, e: Effect)
    requires Explains(mode, h, w) && Allowed(Observe(mode, w, last), e) && IsDone(last)
    ensures Follows(mode, h, last, e)
  {
    assert Observe(mode, w, last).due == if !w.known then Unsure else if w.viewport && w.held then Replaced else Nothing;
  }

  lemma RestsAfter(mode: PrefillMode, h: seq<Effect>, w: Watch, last: Effect)
    requires Explains(mode, h, w) && Between(Observe(mode, w, last))
    ensures Rests(mode, h + [last])
  {
    UnreportedAppend(h, last);
    assert (h + [last])[..|h|] == h;
  }

  lemma {:induction false} WatchExplains(mode: PrefillMode, log: Log)
    ensures Explains(mode, H.Effects(log), WatchOf(mode, log))
  {
    match log {
      case Start =>
      case Log(before, e) =>
        WatchExplains(mode, before);
        ExplainsAppend(mode, H.Effects(before), WatchOf(mode, before), e);
    }
  }

  /** An effect that is allowed comes at a place that admits it. */
  lemma AdmitsNow(mode: PrefillMode, before: Log, e: Effect)
    requires Allowed(WatchOf(mode, before), e)
    ensures Admits(mode, H.Effects(before), e)
  {
    WatchExplains(mode, before);
    match before {
      case Start =>
      case Log(b, last) =>
        WatchExplains(mode, b);
        FollowsLast(mode, H.Effects(b), WatchOf(mode, b), last, e);
        var h := H.Effects(before);
        assert h[..|h| - 1] == H.Effects(b);
    }
  }

  lemma OrderlyAppend(mode: PrefillMode, h: seq<Effect>, e: Effect)
    requires Orderly(mode, h) && Admits(mode, h, e)
    ensures Orderly(mode, h + [e])
  {
    var g := h + [e];
    forall j | 0 <= j < |g| ensures Admits(mode, g[..j], g[j]) {
      if j < |h| {
        assert g[..j] == h[..j] && g[j] == h[j];
        assert Admits(mode, h[..j], h[j]);
      } else {
        assert g[..j] == h && g[j] == e;
      }
    }
  }

  lemma SoundBefore(mode: PrefillMode, before: Log, e: Effect)
    requires WatchOf(mode, Log(before, e)).sound
    ensures WatchOf(mode, before).sound && Allowed(WatchOf(mode, before), e)
  {
    ObserveSound(mode, WatchOf(mode, before), e);
  }

  lemma ObserveSound(mode: PrefillMode, w: Watch, e: Effect)
    ensures Observe(mode, w, e).sound == (w.sound && Allowed(w, e))
  {
    if e.Passed? {
      var v := w.(sound := w.sound && Allowed(w, e), due := Nothing);
      assert ObservePassed(mode, v, e.frame).sound == v.sound;
    }
  }

  lemma {:induction false} SoundIsOrderly(mode: PrefillMode, log: Log)
    requires WatchOf(mode, log).sound
    ensures Orderly(mode, H.Effects(log))
  {
    match log {
      case Start =>
      case Log(before, e) =>
        SoundBefore(mode, before, e);
        SoundIsOrderly(mode, before);
        AdmitsNow(mode, before, e);
        OrderlyAppend(mode, H.Effects(before), e);
    }
  }

  /** In any environment, in every mode:
      - output passed behind a viewport is not shown before a prefill_done, a
        further viewport or the end of the prefill
      - all other output of an attached client is shown at once
      - the screen is replaced right after a prefill_done, exactly when output
        was held back behind a viewport
      - every prefill_done is reported, before another frame is passed */
  lemma EveryRunShowsOutput(mode: PrefillMode, events: seq<Event>)
    ensures var h := H.Effects(Run(InitialLink(mode), events).rz.effects); Orderly(mode, h) && Rests(mode, h)
  {
    var s := InitialLink(mode);
    RunKeeps(s, events);
    var log := Run(s, events).rz.effects;
    SoundIsOrderly(mode, log);
    match log {
      case Start =>
      case Log(before, e) =>
        WatchExplains(mode, before);
        RestsAfter(mode, H.Effects(before), WatchOf(mode, before), e);
    }
  }
}
