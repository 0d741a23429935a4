// The plugin's read cursor: when it resynchronises, what each IO cycle is given,
// and how the cycles of a whole session fit together.
module ReadCursor {
  import Bits
  import opened Ring

  const SAFETY_OFFSET: nat := 256
  const DEFAULT_MARGIN: nat := 3072
  const NO_CYCLE: nat := 0xFFFF_FFFF_FFFF_FFFF   // ~0ULL
  const FRAMES_PER_MS: nat := 48
  const MIN_LATENCY: nat := 240
  const MAX_LATENCY: nat := 24000
  const MAX_BUFFER: nat := 21760

  type UInt32 = x: int | 0 <= x < 0x1_0000_0000

  datatype Cursor = Cursor(readFrame: nat, cycleReadFrame: nat, lastCycle: nat)

  /** What one DoIO call brings to the mutex: the IO cycle it belongs to, its
      buffer size, the write counter it loaded, and the header's latency. */
  datatype Call = Call(cycle: nat, inFrames: UInt32, w: nat, latency: nat)

  /** The daemon's --latency-ms setting, in frames. */
  function ClampLatency(ms: nat): nat {
    (if ms < 5 then 5 else if ms > 500 then 500 else ms) * FRAMES_PER_MS
  }

  /** How far behind the write head a resync re-enters. */
  function Depth(inFrames: nat, latency: nat): nat {
    var lat := 2 * inFrames + SAFETY_OFFSET;
    var margin := if latency != 0 then latency else DEFAULT_MARGIN;
    if lat < margin then margin else lat
  }

  /** RING - inFrames in unsigned 32-bit arithmetic: it wraps for huge buffers. */
  function RingLess(inFrames: UInt32): nat {
    (RING - inFrames) % 0x1_0000_0000
  }

  predicate NeedsResync(read: nat, inFrames: UInt32, w: nat) {
    || read + inFrames > w
    || read > w
    || w - read > RingLess(inFrames)
  }

  function Anchored(w: nat, depth: nat): nat {
    if w > depth then w - depth else 0
  }

  /** The cursor section of DoIO, one step because it holds the mutex. */
  function Decide(c: Cursor, call: Call): Cursor {
    if call.cycle == c.lastCycle then c
    else
      var rf := if NeedsResync(c.readFrame, call.inFrames, call.w)
                then Anchored(call.w, Depth(call.inFrames, call.latency))
                else c.readFrame;
      Cursor(rf + call.inFrames, rf, call.cycle)
  }

  /** The first call of a cycle to reach the mutex. */
  predicate Leads(c: Cursor, call: Call) { call.cycle != c.lastCycle }

  predicate Resyncs(c: Cursor, call: Call) {
    Leads(c, call) && NeedsResync(c.readFrame, call.inFrames, call.w)
  }

  // ---- one decision ----

  lemma ClampRange(ms: nat)
    ensures MIN_LATENCY <= ClampLatency(ms) <= MAX_LATENCY
    ensures ClampLatency(ms) == if ms <= 5 then 240 else if ms >= 500 then 24000 else 48 * ms
  {
  }

  /** The depth is the larger of two buffers plus the safety offset and the
      latency the daemon asks for, or the default where it asks for none. */
  lemma DepthIsLarger(inFrames: nat, latency: nat)
    ensures var depth := Depth(inFrames, latency);
      && depth >= 2 * inFrames + 256
      && depth >= latency
      && (latency == 0 ==> depth >= 3072)
      && depth in {2 * inFrames + 256, latency, 3072}
      && (depth == 3072 ==> latency in {0, 3072} || depth == 2 * inFrames + 256)
  {
  }

  /** The buffer sizes for which a resync always leaves room for one more buffer
      before the writer laps the reader: exactly those up to 21760 frames. */
  lemma BufferLimit(inFrames: UInt32)
    ensures (forall ms :: Depth(inFrames, ClampLatency(ms)) + inFrames <= RING) <==> inFrames <= MAX_BUFFER
  {
    forall ms | inFrames <= MAX_BUFFER
      ensures Depth(inFrames, ClampLatency(ms)) + inFrames <= RING
    {
      ClampRange(ms);
    }
    if inFrames > MAX_BUFFER {
      assert Depth(inFrames, ClampLatency(5)) + inFrames > RING;
    }
  }

  /** Where a cycle starts. Undisturbed, it continues at the cursor with between
      one buffer and a ring less one buffer behind the head; on a resync it is at
      most the depth behind, exactly the depth once that much was ever written.
      Either way the writer must publish a further buffer to reach its first frame. */
  lemma CycleStart(c: Cursor, call: Call)
    requires Leads(c, call) && call.inFrames <= RING
    ensures var rf := Decide(c, call).cycleReadFrame; var depth := Depth(call.inFrames, call.latency);
      && (!Resyncs(c, call) <==> c.readFrame + call.inFrames <= call.w <= c.readFrame + RING - call.inFrames)
      && (!Resyncs(c, call) ==> rf == c.readFrame)
      && (Resyncs(c, call) ==> rf <= call.w <= rf + depth)
      && (Resyncs(c, call) && call.w > depth ==> call.w == rf + depth)
      && (depth + call.inFrames <= RING ==> call.w + call.inFrames <= rf + RING)
  {
    assert RingLess(call.inFrames) == RING - call.inFrames;
  }

  /** A buffer wider than the ring: the room left is computed in 32 unsigned bits and
      wraps, so that in practice only the head can make such a cycle resync. */
  lemma HugeBuffer(c: Cursor, call: Call)
    requires Leads(c, call) && call.inFrames > 65536
    ensures Resyncs(c, call) <==>
            call.w < c.readFrame + call.inFrames || call.w - c.readFrame > 0x1_0000_0000 + 65536 - call.inFrames
  {
  }

  /** Right after StartIO anchored the cursor at w0, the first call re-anchors only
      if the head has moved by less than a buffer (or back, where the counter was
      restarted since) or by more than the ring allows; otherwise it plays on from
      w0 itself. */
  lemma FirstCallAfterStart(w0: nat, call: Call)
    requires call.cycle != NO_CYCLE && call.inFrames <= RING
    ensures var c := Cursor(w0, w0, NO_CYCLE);
      && (Resyncs(c, call) <==> call.w - w0 < call.inFrames || call.w - w0 > RING - call.inFrames)
      && (!Resyncs(c, call) ==> Decide(c, call).cycleReadFrame == w0)
  {
    CycleStart(Cursor(w0, w0, NO_CYCLE), call);
  }

  /** How far behind the head a cycle starts. A resync leaves the depth, or all
      there is while less was written; any other cycle keeps the cursor, and so is
      at the depth only by having been there before. */
  lemma GapExactly(c: Cursor, call: Call)
    requires Leads(c, call)
    ensures var gap, depth := call.w - Decide(c, call).cycleReadFrame, Depth(call.inFrames, call.latency);
      && (Resyncs(c, call) ==> gap == if call.w < depth then call.w else depth)
      && (!Resyncs(c, call) ==> gap == call.w - c.readFrame >= call.inFrames)
      && (gap == depth <==> if Resyncs(c, call) then call.w >= depth else call.w == c.readFrame + depth)
  {
  }

  /** So the gap is not always the depth: a cycle can start a single buffer behind. */
  lemma GapNeedNotBeDepth()
    ensures var c, call := Cursor(5000, 5000, NO_CYCLE), Call(1, 512, 5512, MIN_LATENCY);
      && !Resyncs(c, call)
      && call.w - Decide(c, call).cycleReadFrame == 512
      && Depth(512, MIN_LATENCY) == 1280
  {
  }

  // ---- what a call delivers ----

  function Silence(channels: nat): Frame { seq(channels, _ => 0) }

  /** The output of a call that starts at `rf`, loaded `w`, and reads an intact history. */
  function Deliver(hist: seq<Frame>, rf: nat, w: nat, n: nat, channels: nat): (out: seq<Frame>)
    requires w <= |hist|
    ensures |out| == n
  {
    seq(n, i requires 0 <= i < n => if rf + i < w then hist[rf + i] else Silence(channels))
  }

  predicate SilentAt(rf: nat, w: nat, i: nat) { rf + i >= w }

  /** Frame i of a cycle's first call is underrun silence exactly if the cycle
      resynced before a full depth was ever written and i lies past the head. */
  lemma SilenceExactly(c: Cursor, call: Call, i: nat)
    requires Leads(c, call) && i < call.inFrames
    ensures SilentAt(Decide(c, call).cycleReadFrame, call.w, i) <==>
            Resyncs(c, call) && call.w <= Depth(call.inFrames, call.latency) && i >= call.w
  {
  }

  /** In every other cycle the first call gets history[rf..rf+B], gap-free. */
  lemma DeliversSlice(c: Cursor, call: Call, hist: seq<Frame>, channels: nat)
    requires Leads(c, call) && call.w <= |hist|
    requires !(Resyncs(c, call) && call.w <= Depth(call.inFrames, call.latency))
    ensures var rf := Decide(c, call).cycleReadFrame;
      rf + call.inFrames <= |hist| && Deliver(hist, rf, call.w, call.inFrames, channels) == hist[rf..rf + call.inFrames]
  {
    var rf := Decide(c, call).cycleReadFrame;
    forall i: nat | i < call.inFrames
      ensures Deliver(hist, rf, call.w, call.inFrames, channels)[i] == hist[rf + i]
    {
      SilenceExactly(c, call, i);
    }
    assert rf + call.inFrames <= call.w;
  }

  // ---- many calls, in the order they pass the mutex ----

  function Replay(c: Cursor, calls: seq<Call>): Cursor {
    if calls == [] then c
    else Decide(Replay(c, calls[..|calls| - 1]), calls[|calls| - 1])
  }

  /** The calls that opened a cycle; all others joined the one before them. */
  function Openers(c: Cursor, calls: seq<Call>): seq<Call> {
    if calls == [] then []
    else
      var front := calls[..|calls| - 1];
      Openers(c, front) + (if Leads(Replay(c, front), calls[|calls| - 1]) then [calls[|calls| - 1]] else [])
  }

  /** Where the client that made call `i` starts reading. */
  function StartOf(c: Cursor, calls: seq<Call>, i: nat): nat
    requires i < |calls|
  {
    Replay(c, calls[..i + 1]).cycleReadFrame
  }

  predicate ResyncsAt(c: Cursor, calls: seq<Call>, i: nat)
    requires i < |calls|
  {
    Resyncs(Replay(c, calls[..i]), calls[i])
  }

  /** No opener had to resync. */
  predicate Steady(c: Cursor, calls: seq<Call>) {
    forall i :: 0 <= i < |calls| ==> !Resyncs(Replay(c, calls[..i]), calls[i])
  }

  lemma {:induction false} ReplayAppend(c: Cursor, a: seq<Call>, b: seq<Call>)
    ensures Replay(c, a + b) == Replay(Replay(c, a), b)
    decreases |b|
  {
    if b == [] {
      assert a + b == a;
    } else {
      var last := |b| - 1;
      ReplayAppend(c, a, b[..last]);
      assert (a + b)[..|a + b| - 1] == a + b[..last];
    }
  }

  /** Only openers matter: however many clients share a cycle, the cursor ends
      where a single client per cycle would have left it. */
  lemma {:induction false} OnlyOpenersMove(c: Cursor, calls: seq<Call>)
    ensures Replay(c, calls) == Replay(c, Openers(c, calls))
  {
    if calls != [] {
      var front, last := calls[..|calls| - 1], calls[|calls| - 1];
      OnlyOpenersMove(c, front);
      if Leads(Replay(c, front), last) {
        assert Openers(c, calls) == Openers(c, front) + [last];
        assert (Openers(c, front) + [last])[..|Openers(c, front)|] == Openers(c, front);
      } else {
        assert Openers(c, calls) == Openers(c, front);
      }
    }
  }

  /** Clients of one cycle all start at the same frame. */
  lemma {:induction false} SameCycleSameStart(c: Cursor, calls: seq<Call>, i: nat, j: nat)
    requires i <= j < |calls|
    requires forall k :: i <= k <= j ==> calls[k].cycle == calls[i].cycle
    ensures StartOf(c, calls, i) == StartOf(c, calls, j)
    ensures Replay(c, calls[..j + 1]).lastCycle == calls[i].cycle
    decreases j
  {
    assert calls[..j + 1][..j] == calls[..j];
    if i < j {
      SameCycleSameStart(c, calls, i, j - 1);
    }
  }

  // ---- cycles as the host numbers them ----

  /** The number of the call before call j. */
  function Previous(c: Cursor, calls: seq<Call>, j: nat): nat
    requires j <= |calls|
  {
    if j == 0 then c.lastCycle else calls[j - 1].cycle
  }

  /** The cycle numbers seen, with the one the cursor starts from. */
  function Numbers(c: Cursor, calls: seq<Call>): set<nat> {
    if calls == [] then {c.lastCycle} else Numbers(c, calls[..|calls| - 1]) + {calls[|calls| - 1].cycle}
  }

  /** Call j goes back to a number after a call of another one. */
  predicate Returns(c: Cursor, calls: seq<Call>, j: nat)
    requires j < |calls|
  {
    calls[j].cycle != Previous(c, calls, j) && calls[j].cycle in Numbers(c, calls[..j])
  }

  /** All calls of a number come together. */
  predicate Grouped(c: Cursor, calls: seq<Call>) {
    forall j :: 0 <= j < |calls| ==> !Returns(c, calls, j)
  }

  lemma LastNumber(c: Cursor, calls: seq<Call>)
    ensures Replay(c, calls).lastCycle == Previous(c, calls, |calls|)
    ensures Previous(c, calls, |calls|) in Numbers(c, calls) && |Numbers(c, calls)| >= 1
  {
  }

  lemma {:induction false} NumbersGrow(c: Cursor, calls: seq<Call>, m: nat, n: nat)
    requires m <= n <= |calls|
    ensures Numbers(c, calls[..m]) <= Numbers(c, calls[..n])
    decreases n
  {
    if m < n {
      NumbersGrow(c, calls, m, n - 1);
      assert calls[..n][..n - 1] == calls[..n - 1];
    }
  }

  lemma GroupedSnoc(c: Cursor, calls: seq<Call>)
    requires calls != []
    ensures var n := |calls| - 1;
      Grouped(c, calls) <==> Grouped(c, calls[..n]) && !Returns(c, calls, n)
  {
    var n := |calls| - 1;
    forall j | 0 <= j < n
      ensures Returns(c, calls[..n], j) == Returns(c, calls, j)
    {
      assert calls[..n][..j] == calls[..j];
    }
    if Grouped(c, calls[..n]) && !Returns(c, calls, n) {
      forall j | 0 <= j < |calls|
        ensures !Returns(c, calls, j)
      {
        assert j < n ==> !Returns(c, calls[..n], j);
      }
    }
    if Grouped(c, calls) {
      forall j | 0 <= j < n
        ensures !Returns(c, calls[..n], j)
      {
        assert !Returns(c, calls, j);
      }
    }
  }

  /** At least one call opens a cycle for each number, and only one for each
      exactly if no call goes back to a number that was left. */
  lemma {:induction false} OpenersPerNumber(c: Cursor, calls: seq<Call>)
    ensures |Openers(c, calls)| >= |Numbers(c, calls)| - 1
    ensures |Openers(c, calls)| == |Numbers(c, calls)| - 1 <==> Grouped(c, calls)
  {
    if calls != [] {
      var n := |calls| - 1;
      OpenersPerNumber(c, calls[..n]);
      GroupedSnoc(c, calls);
      LastNumber(c, calls[..n]);
    }
  }

  /** While nothing resyncs and the buffer size is constant, the cursor has moved
      by exactly one buffer per call that opened a cycle; so by at least one per
      cycle number, and by just one exactly if no call goes back to a number. */
  lemma AdvancesOncePerCycle(c: Cursor, calls: seq<Call>, inFrames: UInt32)
    requires Steady(c, calls)
    requires forall i :: 0 <= i < |calls| ==> calls[i].inFrames == inFrames
    ensures var moved, numbers := Replay(c, calls).readFrame - c.readFrame, |Numbers(c, calls)| - 1;
      && moved == |Openers(c, calls)| * inFrames
      && moved >= numbers * inFrames
      && (Grouped(c, calls) ==> moved == numbers * inFrames)
      && (inFrames > 0 && moved == numbers * inFrames ==> Grouped(c, calls))
  {
    hide *;
    AdvancesPerOpener(c, calls, inFrames);
    OpenersPerNumber(c, calls);
    Bits.MulOrders(|Numbers(c, calls)| - 1, |Openers(c, calls)|, inFrames);
  }

  /** The cycle opened last had a nonempty buffer. */
  predicate Ahead(c: Cursor) { c.cycleReadFrame < c.readFrame }

  lemma OpeningIsAhead(c: Cursor, call: Call)
    requires Leads(c, call) && call.inFrames > 0
    ensures Ahead(Decide(c, call))
  {
  }

  lemma NextStart(at: Cursor, call: Call)
    requires Ahead(at) && call.inFrames > 0 && !Resyncs(at, call)
    ensures var next := Decide(at, call);
      && Ahead(next) && next.lastCycle == call.cycle
      && at.cycleReadFrame <= next.cycleReadFrame
      && (at.cycleReadFrame == next.cycleReadFrame <==> call.cycle == at.lastCycle)
  {
  }

  /** The clients of calls i and j, with no resync between, start at one frame if
      and only if no call between them was of another cycle, once a cycle with a
      nonempty buffer was opened. */
  lemma {:induction false} SameStartExactly(c: Cursor, calls: seq<Call>, i: nat, j: nat)
    requires i <= j < |calls|
    requires Ahead(Replay(c, calls[..i + 1]))
    requires forall k :: i < k <= j ==> calls[k].inFrames > 0
    requires forall k :: i < k <= j ==> !ResyncsAt(c, calls, k)
    ensures StartOf(c, calls, i) <= StartOf(c, calls, j)
    ensures StartOf(c, calls, i) == StartOf(c, calls, j) <==>
            forall k :: i <= k <= j ==> calls[k].cycle == calls[i].cycle
    ensures Ahead(Replay(c, calls[..j + 1]))
    decreases j
  {
    hide Replay, Decide, Resyncs, Ahead;
    if i < j {
      SameStartExactly(c, calls, i, j - 1);
      LastNumber(c, calls[..j]);
      OneMoreCall(c, calls, j);
      assert !ResyncsAt(c, calls, j);
      NextStart(Replay(c, calls[..j]), calls[j]);
    }
  }

  lemma OneMoreCall(c: Cursor, calls: seq<Call>, j: nat)
    requires j < |calls|
    ensures Replay(c, calls[..j + 1]) == Decide(Replay(c, calls[..j]), calls[j])
  {
    assert calls[..j + 1][..j] == calls[..j];
  }

  /** A call of cycle 5 that comes after one of cycle 6 opens cycle 5 once more: no
      call resyncs, yet two numbers move the cursor by three buffers, and the two
      calls of cycle 5 do not start at the same frame. */
  lemma ReturningCallMovesOn()
    ensures var c := Cursor(5000, 5000, NO_CYCLE);
      var calls := [Call(5, 512, 6280, MIN_LATENCY), Call(6, 512, 6792, MIN_LATENCY), Call(5, 512, 6792, MIN_LATENCY)];
      && Steady(c, calls) && Returns(c, calls, 2)
      && Numbers(c, calls) == {NO_CYCLE, 5, 6}
      && Replay(c, calls).readFrame == c.readFrame + 3 * 512
      && StartOf(c, calls, 0) == 5000 && StartOf(c, calls, 2) == 6024
  {
    var c := Cursor(5000, 5000, NO_CYCLE);
    var calls := [Call(5, 512, 6280, MIN_LATENCY), Call(6, 512, 6792, MIN_LATENCY), Call(5, 512, 6792, MIN_LATENCY)];
    assert calls[..0] == [] && calls[..1] == [calls[0]] && calls[..2] == [calls[0], calls[1]] && calls[..3] == calls;
    assert calls[..1][..0] == [] && calls[..2][..1] == calls[..1];
    assert Replay(c, calls[..1]) == Cursor(5512, 5000, 5);
    assert Replay(c, calls[..2]) == Cursor(6024, 5512, 6);
    assert Replay(c, calls) == Cursor(6536, 6024, 5);
    assert Numbers(c, calls[..1]) == {NO_CYCLE, 5};
  }

  lemma {:induction false} AdvancesPerOpener(c: Cursor, calls: seq<Call>, inFrames: UInt32)
    requires Steady(c, calls)
    requires forall i :: 0 <= i < |calls| ==> calls[i].inFrames == inFrames
    ensures Replay(c, calls).readFrame == c.readFrame + |Openers(c, calls)| * inFrames
  {
    if calls != [] {
      var n := |calls| - 1;
      var front := calls[..n];
      assert Steady(c, front) by {
        forall i | 0 <= i < n
          ensures !Resyncs(Replay(c, front[..i]), front[i])
        {
          assert front[..i] == calls[..i];
        }
      }
      AdvancesPerOpener(c, front, inFrames);
      assert !Resyncs(Replay(c, front), calls[n]);
      if Leads(Replay(c, front), calls[n]) {
        assert (|Openers(c, front)| + 1) * inFrames == |Openers(c, front)| * inFrames + inFrames;
      }
    }
  }
}
