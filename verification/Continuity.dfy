// Whole sessions of IO cycles: when the output stays one contiguous slice of the
// captured audio, and how often it can break.
module Continuity {
  import opened Ring
  import opened ReadCursor

  /** One call per cycle, with a fixed buffer size and latency. */
  predicate Session(c: Cursor, calls: seq<Call>, inFrames: UInt32, latency: nat) {
    && (forall i :: 0 <= i < |calls| ==> calls[i].inFrames == inFrames && calls[i].latency == latency)
    && (forall i :: 0 < i < |calls| ==> calls[i].cycle != calls[i - 1].cycle)
    && (calls != [] ==> Leads(c, calls[0]))
  }

  /** The frames that n cycles consume. */
  function Span(n: nat, inFrames: nat): nat { n * inFrames }

  predicate IsSlice(out: seq<Frame>, hist: seq<Frame>, from: int, n: nat) {
    0 <= from && from + n <= |hist| && out == hist[from..from + n]
  }

  /** Frames produced minus frames consumed, from call 0 up to call i. */
  function Drift(calls: seq<Call>, i: nat, inFrames: nat): int
    requires i < |calls|
  {
    calls[i].w - calls[0].w - Span(i, inFrames)
  }

  /** The drift a resync to `depth` leaves room for on either side. */
  predicate DriftFits(drift: int, inFrames: nat, depth: nat) {
    inFrames - depth <= drift <= RING - inFrames - depth
  }

  /** The call from which the output is followed: it resyncs with a full depth written. */
  predicate FreshResync(c: Cursor, call: Call) {
    Resyncs(c, call) && call.w > Depth(call.inFrames, call.latency)
  }

  lemma OneMoreBuffer(n: nat, inFrames: nat)
    ensures Span(n + 1, inFrames) == Span(n, inFrames) + inFrames
  {
  }

  /** A cycle whose cursor stands `consumed` frames past w0 - depth resyncs if and
      only if the drift no longer fits. */
  lemma NextCycle(at: Cursor, call: Call, w0: nat, consumed: nat)
    requires Leads(at, call) && call.inFrames <= RING
    requires at.readFrame == w0 - Depth(call.inFrames, call.latency) + consumed
    ensures Resyncs(at, call) <==>
            !DriftFits(call.w - w0 - consumed, call.inFrames, Depth(call.inFrames, call.latency))
    ensures !Resyncs(at, call) ==>
              Decide(at, call) == Cursor(at.readFrame + call.inFrames, at.readFrame, call.cycle)
  {
    CycleStart(at, call);
  }

  /** As long as the drift fits, cycle n starts exactly n buffers after cycle 0. */
  lemma {:induction false} SteadyPositions(c: Cursor, calls: seq<Call>, inFrames: UInt32, latency: nat, n: nat)
    requires Session(c, calls, inFrames, latency) && inFrames <= RING
    requires calls != [] && FreshResync(c, calls[0]) && 0 < n <= |calls|
    requires forall i :: 0 < i < n ==> DriftFits(Drift(calls, i, inFrames), inFrames, Depth(inFrames, latency))
    ensures forall i :: 0 < i < n ==> !ResyncsAt(c, calls, i)
    ensures var at := Replay(c, calls[..n]); var first := calls[0].w - Depth(inFrames, latency);
      && at.cycleReadFrame == first + Span(n - 1, inFrames)
      && at.readFrame == first + Span(n, inFrames)
      && at.lastCycle == calls[n - 1].cycle
  {
    if n == 1 {
      assert calls[..1][..0] == [];
      CycleStart(c, calls[0]);
    } else {
      SteadyPositions(c, calls, inFrames, latency, n - 1);
      NextCycle(Replay(c, calls[..n - 1]), calls[n - 1], calls[0].w, Span(n - 1, inFrames));
      assert DriftFits(Drift(calls, n - 1, inFrames), inFrames, Depth(inFrames, latency));
      OneMoreBuffer(n - 1, inFrames);
      assert calls[..n][..n - 1] == calls[..n - 1];
    }
  }

  /** After a resync at full depth, the following cycles resync nowhere if and
      only if the drift fits at every one of them. */
  lemma {:induction false} GaplessExactly(c: Cursor, calls: seq<Call>, inFrames: UInt32, latency: nat)
    requires Session(c, calls, inFrames, latency) && inFrames <= RING
    requires calls != [] && FreshResync(c, calls[0])
    ensures (forall i :: 0 < i < |calls| ==> !ResyncsAt(c, calls, i)) <==>
            (forall i :: 0 < i < |calls| ==> DriftFits(Drift(calls, i, inFrames), inFrames, Depth(inFrames, latency)))
  {
    var depth := Depth(inFrames, latency);
    if i :| 0 < i < |calls| && !DriftFits(Drift(calls, i, inFrames), inFrames, depth) {
      var first := FirstMisfit(calls, inFrames, depth, i);
      SteadyPositions(c, calls, inFrames, latency, first);
      NextCycle(Replay(c, calls[..first]), calls[first], calls[0].w, Span(first, inFrames));
      assert ResyncsAt(c, calls, first);
    } else {
      SteadyPositions(c, calls, inFrames, latency, |calls|);
    }
  }

  lemma {:induction false} FirstMisfit(calls: seq<Call>, inFrames: nat, depth: nat, i: nat) returns (first: nat)
    requires 0 < i < |calls| && !DriftFits(Drift(calls, i, inFrames), inFrames, depth)
    ensures 0 < first <= i && !DriftFits(Drift(calls, first, inFrames), inFrames, depth)
    ensures forall j :: 0 < j < first ==> DriftFits(Drift(calls, j, inFrames), inFrames, depth)
  {
    first := 1;
    while DriftFits(Drift(calls, first, inFrames), inFrames, depth)
      invariant 0 < first <= i
      invariant forall j :: 0 < j < first ==> DriftFits(Drift(calls, j, inFrames), inFrames, depth)
      decreases i - first
    {
      first := first + 1;
    }
  }

  /** How far behind the head cycle n starts, whatever the drift did: as far as the
      last resync, at cycle r, left it (the depth, or all there was), plus what was
      produced and less what was consumed since. After a resync at full depth the
      distance is the depth exactly when the two are equal. */
  lemma {:induction false} TrailingDistance(
      c: Cursor, calls: seq<Call>, inFrames: UInt32, latency: nat, r: nat, n: nat)
    requires Session(c, calls, inFrames, latency)
    requires r <= n < |calls| && ResyncsAt(c, calls, r)
    requires forall i :: r < i <= n ==> !ResyncsAt(c, calls, i)
    ensures var gap, depth := calls[n].w - StartOf(c, calls, n), Depth(inFrames, latency);
      var produced := Drift(calls, n, inFrames) - Drift(calls, r, inFrames);
      && gap == (if calls[r].w < depth then calls[r].w else depth) + produced
      && (calls[r].w >= depth ==> (gap == depth <==> produced == 0))
    ensures Replay(c, calls[..n + 1]).readFrame == StartOf(c, calls, n) + inFrames
    decreases n
  {
    CycleOpens(c, calls, inFrames, latency, n);
    assert calls[..n + 1][..n] == calls[..n];
    if n == r {
      GapExactly(Replay(c, calls[..n]), calls[n]);
    } else {
      TrailingDistance(c, calls, inFrames, latency, r, n - 1);
      assert !ResyncsAt(c, calls, n);
      OneMoreBuffer(n - 1, inFrames);
    }
  }

  /** In a session every call leads. */
  lemma CycleOpens(c: Cursor, calls: seq<Call>, inFrames: UInt32, latency: nat, n: nat)
    requires Session(c, calls, inFrames, latency) && n < |calls|
    ensures Leads(Replay(c, calls[..n]), calls[n])
  {
    if n == 0 {
      assert calls[..0] == [];
    } else {
      assert calls[..n][..n - 1] == calls[..n - 1];
      assert calls[n].cycle != calls[n - 1].cycle;
    }
  }

  /** The outputs of the calls, one after the other. */
  function Played(c: Cursor, calls: seq<Call>, hist: seq<Frame>, channels: nat): (out: seq<Frame>)
    requires forall i :: 0 <= i < |calls| ==> calls[i].w <= |hist|
  {
    if calls == [] then []
    else
      var n := |calls| - 1;
      Played(c, calls[..n], hist, channels)
      + Deliver(hist, StartOf(c, calls, n), calls[n].w, calls[n].inFrames, channels)
  }

  /** Cycle n of such a run is given the n-th buffer after the first position. */
  lemma {:induction false} CycleSlice(
      c: Cursor, calls: seq<Call>, inFrames: UInt32, latency: nat, hist: seq<Frame>, channels: nat, n: nat)
    requires Session(c, calls, inFrames, latency) && inFrames <= RING
    requires n < |calls| && FreshResync(c, calls[0]) && calls[n].w <= |hist|
    requires forall i :: 0 < i <= n ==> DriftFits(Drift(calls, i, inFrames), inFrames, Depth(inFrames, latency))
    ensures var from := calls[0].w - Depth(inFrames, latency) + Span(n, inFrames);
      && StartOf(c, calls, n) == from
      && IsSlice(Deliver(hist, from, calls[n].w, inFrames, channels), hist, from, inFrames)
  {
    var at, call := Replay(c, calls[..n]), calls[n];
    SteadyPositions(c, calls, inFrames, latency, n + 1);
    assert calls[..n + 1][..n] == calls[..n];
    assert Leads(at, call) && (n == 0 || !ResyncsAt(c, calls, n)) by {
      if n == 0 {
        assert calls[..0] == [];
      } else {
        SteadyPositions(c, calls, inFrames, latency, n);
      }
    }
    DeliversSlice(at, call, hist, channels);
  }

  lemma SlicesJoin<T>(s: seq<T>, a: nat, b: nat, c: nat)
    requires a <= b <= c <= |s|
    ensures s[a..b] + s[b..c] == s[a..c]
  {
  }

  /** Gapless output: the cycles concatenate to one slice of the captured
      sequence; nothing is skipped, repeated or silenced. */
  lemma {:induction false} GaplessOutput(
      c: Cursor, calls: seq<Call>, inFrames: UInt32, latency: nat, hist: seq<Frame>, channels: nat)
    requires Session(c, calls, inFrames, latency) && inFrames <= RING
    requires calls != [] && FreshResync(c, calls[0])
    requires forall i :: 0 <= i < |calls| ==> calls[i].w <= |hist|
    requires forall i :: 0 < i < |calls| ==> DriftFits(Drift(calls, i, inFrames), inFrames, Depth(inFrames, latency))
    ensures var first := calls[0].w - Depth(inFrames, latency);
      IsSlice(Played(c, calls, hist, channels), hist, first, Span(|calls|, inFrames))
    decreases |calls|
  {
    hide Drift, DriftFits, Deliver, StartOf;
    var n := |calls| - 1;
    var first := calls[0].w - Depth(inFrames, latency);
    var front := calls[..n];
    var a, b := first + Span(n, inFrames), first + Span(n, inFrames) + inFrames;
    assert b == first + Span(|calls|, inFrames) by { OneMoreBuffer(n, inFrames); }
    assert StartOf(c, calls, n) == a && IsSlice(Deliver(hist, a, calls[n].w, inFrames, channels), hist, a, inFrames)
    by {
      CycleSlice(c, calls, inFrames, latency, hist, channels, n);
    }
    if n == 0 {
      assert Played(c, front, hist, channels) == [];
    } else {
      FrontFits(calls, inFrames, Depth(inFrames, latency));
      GaplessOutput(c, front, inFrames, latency, hist, channels);
      SlicesJoin(hist, first, a, b);
    }
  }

  lemma FrontFits(calls: seq<Call>, inFrames: nat, depth: nat)
    requires |calls| > 1
    requires forall i :: 0 < i < |calls| ==> DriftFits(Drift(calls, i, inFrames), inFrames, depth)
    ensures var front := calls[..|calls| - 1];
      forall i :: 0 < i < |front| ==> DriftFits(Drift(front, i, inFrames), inFrames, depth)
  {
    var front := calls[..|calls| - 1];
    forall i | 0 < i < |front|
      ensures DriftFits(Drift(front, i, inFrames), inFrames, depth)
    {
      assert Drift(front, i, inFrames) == Drift(calls, i, inFrames);
    }
  }

  /** The same, cycle by cycle: outputs that match what each cycle is to deliver. */
  lemma {:induction false} OutputsArePlayed(
      c: Cursor, calls: seq<Call>, hist: seq<Frame>, channels: nat, outs: seq<seq<Frame>>)
    requires |outs| == |calls|
    requires forall i :: 0 <= i < |calls| ==> DeliveredAt(c, calls, hist, channels, i, outs[i])
    ensures forall i :: 0 <= i < |calls| ==> calls[i].w <= |hist|
    ensures InOrder(outs) == Played(c, calls, hist, channels)
  {
    assert forall i :: 0 <= i < |calls| ==> DeliveredAt(c, calls, hist, channels, i, outs[i]) ==> calls[i].w <= |hist|;
    if calls != [] {
      var n := |calls| - 1;
      forall i | 0 <= i < n
        ensures DeliveredAt(c, calls[..n], hist, channels, i, outs[..n][i])
      {
        assert DeliveredAt(c, calls, hist, channels, i, outs[i]);
        assert calls[..n][..i + 1] == calls[..i + 1];
      }
      OutputsArePlayed(c, calls[..n], hist, channels, outs[..n]);
      assert DeliveredAt(c, calls, hist, channels, n, outs[n]);
    }
  }

  predicate DeliveredAt(c: Cursor, calls: seq<Call>, hist: seq<Frame>, channels: nat, i: nat, out: seq<Frame>)
    requires i < |calls|
  {
    calls[i].w <= |hist| && out == Deliver(hist, StartOf(c, calls, i), calls[i].w, calls[i].inFrames, channels)
  }

  function InOrder(outs: seq<seq<Frame>>): seq<Frame> {
    if outs == [] then [] else InOrder(outs[..|outs| - 1]) + outs[|outs| - 1]
  }

  // ---- how often it can break ----

  function Abs(x: int): nat { if x < 0 then -x else x }

  /** The least net drift that forces a new resync. */
  function Slack(inFrames: nat, depth: nat): int {
    var below, above := depth - inFrames + 1, RING - inFrames - depth + 1;
    if below < above then below else above
  }

  /** Two consecutive resyncs, k cycles apart, need a net drift of at least the slack. */
  lemma {:induction false} ConsecutiveResyncs(c: Cursor, calls: seq<Call>, inFrames: UInt32, latency: nat)
    requires Session(c, calls, inFrames, latency) && inFrames <= RING
    requires |calls| > 1 && FreshResync(c, calls[0])
    requires forall i :: 0 < i < |calls| - 1 ==> !ResyncsAt(c, calls, i)
    requires ResyncsAt(c, calls, |calls| - 1)
    ensures Abs(Drift(calls, |calls| - 1, inFrames)) >= Slack(inFrames, Depth(inFrames, latency))
  {
    var k := |calls| - 1;
    var front := calls[..k];
    forall i | 0 < i < k
      ensures !ResyncsAt(c, front, i) && Drift(front, i, inFrames) == Drift(calls, i, inFrames)
    {
      assert front[..i] == calls[..i];
      assert !ResyncsAt(c, calls, i);
    }
    GaplessExactly(c, front, inFrames, latency);
    SteadyPositions(c, calls, inFrames, latency, k);
    NextCycle(Replay(c, front), calls[k], calls[0].w, Span(k, inFrames));
  }

  function Resynced(c: Cursor, calls: seq<Call>): nat
    decreases |calls|
  {
    if calls == [] then 0
    else (if Resyncs(c, calls[0]) then 1 else 0) + Resynced(Decide(c, calls[0]), calls[1..])
  }

  /** The drift of every cycle, added up without sign; `w` is the counter the
      cycle before the first one loaded. */
  function Wander(w: nat, calls: seq<Call>, inFrames: nat): nat
    decreases |calls|
  {
    if calls == [] then 0
    else Abs(calls[0].w - w - inFrames) + Wander(calls[0].w, calls[1..], inFrames)
  }

  lemma SessionTail(c: Cursor, calls: seq<Call>, inFrames: UInt32, latency: nat)
    requires Session(c, calls, inFrames, latency) && calls != []
    ensures Session(Decide(c, calls[0]), calls[1..], inFrames, latency)
  {
    var tail := calls[1..];
    forall i | 0 < i < |tail|
      ensures tail[i].cycle != tail[i - 1].cycle
    {
      assert calls[i + 1].cycle != calls[i].cycle;
    }
    if tail != [] {
      assert calls[1].cycle != calls[0].cycle;
    }
  }

  /** How far the cursor is from where a resync at `w` would have left it. */
  function Offset(c: Cursor, w: int, inFrames: nat, depth: nat): nat {
    Abs(w - c.readFrame - (depth - inFrames))
  }

  lemma CycleCost(c: Cursor, w: nat, call: Call)
    requires Leads(c, call) && call.inFrames <= RING
    requires call.w > Depth(call.inFrames, call.latency)
    ensures var depth := Depth(call.inFrames, call.latency);
      Offset(Decide(c, call), call.w, call.inFrames, depth)
      + (if Resyncs(c, call) then Slack(call.inFrames, depth) else 0)
      <= Offset(c, w, call.inFrames, depth) + Abs(call.w - w - call.inFrames)
  {
    CycleStart(c, call);
  }

  /** The potential argument behind the budget: each resync is paid for by the
      wander since the last one, starting from how far the cursor is off already. */
  lemma {:induction false} ResyncsArePaidFor(c: Cursor, w: nat, calls: seq<Call>, inFrames: UInt32, latency: nat)
    requires Session(c, calls, inFrames, latency) && inFrames <= RING
    requires Depth(inFrames, latency) + inFrames <= RING
    requires forall i :: 0 <= i < |calls| ==> calls[i].w > Depth(inFrames, latency)
    ensures Slack(inFrames, Depth(inFrames, latency)) >= 1
    ensures Resynced(c, calls) * Slack(inFrames, Depth(inFrames, latency)) <=
            Offset(c, w, inFrames, Depth(inFrames, latency)) + Wander(w, calls, inFrames)
    decreases |calls|
  {
    if calls != [] {
      var depth, next := Depth(inFrames, latency), Decide(c, calls[0]);
      var slack := Slack(inFrames, depth);
      SessionTail(c, calls, inFrames, latency);
      CycleCost(c, w, calls[0]);
      ResyncsArePaidFor(next, calls[0].w, calls[1..], inFrames, latency);
      assert (Resynced(next, calls[1..]) + 1) * slack == Resynced(next, calls[1..]) * slack + slack;
    }
  }

  /** Discontinuity budget: once more than a full depth has been written, the
      resyncs of a session, less the first, cost at least the slack each. */
  lemma {:induction false} DiscontinuityBudget(c: Cursor, calls: seq<Call>, inFrames: UInt32, latency: nat)
    requires Session(c, calls, inFrames, latency) && inFrames <= RING
    requires Depth(inFrames, latency) + inFrames <= RING
    requires forall i :: 0 <= i < |calls| ==> calls[i].w > Depth(inFrames, latency)
    ensures Slack(inFrames, Depth(inFrames, latency)) >= 1
    ensures calls != [] ==>
            (Resynced(c, calls) - 1) * Slack(inFrames, Depth(inFrames, latency))
            <= Wander(calls[0].w, calls[1..], inFrames)
    decreases |calls|
  {
    if calls != [] {
      var next, tail := Decide(c, calls[0]), calls[1..];
      SessionTail(c, calls, inFrames, latency);
      CycleStart(c, calls[0]);
      if Resyncs(c, calls[0]) {
        ResyncsArePaidFor(next, calls[0].w, tail, inFrames, latency);
      } else {
        DiscontinuityBudget(next, tail, inFrames, latency);
        if tail == [] {
          assert Resynced(c, calls) == 0;
        }
      }
    }
  }
}
