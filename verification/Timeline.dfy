// The host-clock timeline: one counter, stepped at most once per call.
module Timeline {

  const PERIOD: nat := 8192

  /** The host time of period boundary n: on the line through the anchor,
      truncated to whole ticks. `ticks` is the length of a period in host ticks. */
  function Boundary(anchor: nat, ticks: real, n: nat): nat
    requires ticks > 0.0
  {
    anchor + (n as real * ticks).Floor
  }

  /** One GetZeroTimeStamp call at host time `now`. */
  function Tick(anchor: nat, ticks: real, n: nat, now: nat): nat
    requires ticks > 0.0
  {
    if now >= Boundary(anchor, ticks, n + 1) then n + 1 else n
  }

  /** The counter after calls at these times. */
  function Ticked(anchor: nat, ticks: real, n: nat, times: seq<nat>): nat
    requires ticks > 0.0
    decreases |times|
  {
    if times == [] then n
    else Tick(anchor, ticks, Ticked(anchor, ticks, n, times[..|times| - 1]), times[|times| - 1])
  }

  /** m is the last boundary that is not in the future. */
  ghost predicate IsCurrent(anchor: nat, ticks: real, now: nat, m: nat)
    requires ticks > 0.0
  {
    && Boundary(anchor, ticks, m) <= now
    && forall k: nat :: Boundary(anchor, ticks, k) <= now ==> k <= m
  }

  predicate Monotone(times: seq<nat>, from: nat) {
    && (times != [] ==> from <= times[0])
    && forall i :: 0 < i < |times| ==> times[i - 1] <= times[i]
  }

  function Last(times: seq<nat>, from: nat): nat {
    if times == [] then from else times[|times| - 1]
  }

  // ---- the truncated line ----

  lemma LineStep(ticks: real, n: nat)
    requires ticks > 0.0
    ensures (n + 1) as real * ticks == n as real * ticks + ticks
  {
  }

  lemma LineMonotone(ticks: real, m: nat, n: nat)
    requires ticks > 0.0 && m <= n
    ensures m as real * ticks <= n as real * ticks
  {
    assert (n - m) as real * ticks >= 0.0;
    assert n as real * ticks == m as real * ticks + (n - m) as real * ticks;
  }

  lemma BoundaryMonotone(anchor: nat, ticks: real, m: nat, n: nat)
    requires ticks > 0.0 && m <= n
    ensures Boundary(anchor, ticks, m) <= Boundary(anchor, ticks, n)
  {
    LineMonotone(ticks, m, n);
  }

  /** Boundaries are 8192 frames apart on the line with the slope of the host clock. */
  lemma BoundaryOnLine(anchor: nat, ticksPerFrame: real, n: nat)
    requires ticksPerFrame > 0.0
    ensures ticksPerFrame * PERIOD as real > 0.0
    ensures Boundary(anchor, ticksPerFrame * PERIOD as real, n) == anchor + ((8192 * n) as real * ticksPerFrame).Floor
  {
    assert n as real * (ticksPerFrame * 8192.0) == (8192 * n) as real * ticksPerFrame;
  }

  /** Truncation never shortens a period below the truncated period length, nor
      stretches it by more than a tick. */
  lemma PeriodLength(anchor: nat, ticks: real, n: nat)
    requires ticks > 0.0
    ensures var gap := Boundary(anchor, ticks, n + 1) - Boundary(anchor, ticks, n);
      ticks.Floor <= gap <= ticks.Floor + 1
  {
    LineStep(ticks, n);
  }

  /** The greatest natural number strictly below x. */
  function Below(x: real): (m: nat)
    requires x > 0.0
    ensures m as real < x <= (m + 1) as real
  {
    -((-x).Floor) - 1
  }

  /** The last boundary reached, computed directly: the least number of periods
      exceeding the elapsed time, less one. */
  function Reached(anchor: nat, ticks: real, now: nat): nat
    requires ticks > 0.0 && anchor <= now
  {
    var periods := (now - anchor + 1) as real / ticks;
    assert periods > 0.0;
    Below(periods)
  }

  lemma ReachedIsCurrent(anchor: nat, ticks: real, now: nat)
    requires ticks > 0.0 && anchor <= now
    ensures IsCurrent(anchor, ticks, now, Reached(anchor, ticks, now))
  {
    hide Below;
    var d := now - anchor + 1;
    var periods := d as real / ticks;
    assert periods * ticks == d as real;
    var m := Reached(anchor, ticks, now);
    assert m == Below(periods);
    Scale(m as real, periods, ticks);
    forall k: nat | k > m
      ensures Boundary(anchor, ticks, k) > now
    {
      assert (m + 1) as real <= k as real;
      ScaleLe(periods, k as real, ticks);
      assert k as real * ticks >= d as real;
    }
  }

  lemma Scale(x: real, y: real, c: real)
    requires c > 0.0 && x < y
    ensures x * c < y * c
  {
  }

  lemma ScaleLe(x: real, y: real, c: real)
    requires c > 0.0 && x <= y
    ensures x * c <= y * c
  {
  }

  lemma CurrentIsUnique(anchor: nat, ticks: real, now: nat, m: nat)
    requires ticks > 0.0 && anchor <= now && IsCurrent(anchor, ticks, now, m)
    ensures m == Reached(anchor, ticks, now)
  {
    ReachedIsCurrent(anchor, ticks, now);
  }

  // ---- one call ----

  /** A call never reports a time in the future, never goes back, and moves at
      most one period. With the clock standing still it closes the distance to
      the current boundary by exactly one, until there is none left. */
  lemma TickSafety(anchor: nat, ticks: real, n: nat, now: nat)
    requires ticks > 0.0 && anchor <= now && Boundary(anchor, ticks, n) <= now
    ensures var n' := Tick(anchor, ticks, n, now);
      && n <= n' <= n + 1
      && Boundary(anchor, ticks, n') <= now
      && n' <= Reached(anchor, ticks, now)
      && (n < Reached(anchor, ticks, now) ==> n' == n + 1)
      && (n == Reached(anchor, ticks, now) ==> n' == n)
  {
    var m := Reached(anchor, ticks, now);
    ReachedIsCurrent(anchor, ticks, now);
    assert n <= m;
    if n < m {
      BoundaryMonotone(anchor, ticks, n + 1, m);
    }
  }

  // ---- a whole session ----

  /** Under a monotone clock, whatever the gaps between calls: every reported
      boundary lies in the past, on the line, and none precedes an earlier one. */
  lemma {:induction false} SessionSafety(anchor: nat, ticks: real, times: seq<nat>, i: nat)
    requires ticks > 0.0 && Monotone(times, anchor) && i <= |times|
    ensures var n, n' := Ticked(anchor, ticks, 0, times[..i]), Ticked(anchor, ticks, 0, times);
      && n <= n'
      && 8192 * n' >= 8192 * n
      && Boundary(anchor, ticks, n) <= Boundary(anchor, ticks, n') <= Last(times, anchor)
      && anchor <= Last(times, anchor)
    decreases |times|
  {
    if times == [] {
      assert Boundary(anchor, ticks, 0) == anchor;
    } else {
      var front, now := times[..|times| - 1], times[|times| - 1];
      SessionSafety(anchor, ticks, front, if i < |times| then i else 0);
      var n := Ticked(anchor, ticks, 0, front);
      assert Last(front, anchor) <= now;
      TickSafety(anchor, ticks, n, now);
      BoundaryMonotone(anchor, ticks, n, Tick(anchor, ticks, n, now));
      if i < |times| {
        assert times[..i] == front[..i];
      } else {
        assert times[..i] == times;
      }
    }
  }

  /** With the clock frozen at `now`, k further calls bring the counter k periods
      closer, and it is exact as soon as k covers the distance. */
  lemma {:induction false} CatchesUp(anchor: nat, ticks: real, n: nat, now: nat, k: nat)
    requires ticks > 0.0 && anchor <= now && Boundary(anchor, ticks, n) <= now
    ensures var m := Reached(anchor, ticks, now);
      && n <= m
      && Ticked(anchor, ticks, n, seq(k, _ => now)) == (if n + k <= m then n + k else m)
    decreases k
  {
    var times := seq(k, _ => now);
    TickSafety(anchor, ticks, n, now);
    if k > 0 {
      CatchesUp(anchor, ticks, n, now, k - 1);
      assert times[..k - 1] == seq(k - 1, _ => now);
      var before := Ticked(anchor, ticks, n, times[..k - 1]);
      BoundaryMonotone(anchor, ticks, before, Reached(anchor, ticks, now));
      ReachedIsCurrent(anchor, ticks, now);
      TickSafety(anchor, ticks, before, now);
    }
  }

  // ---- when the counter is exact ----

  /** The last boundary reached when call k of the session was made; before the
      first call it is the anchor itself. */
  function ReachedBy(anchor: nat, ticks: real, times: seq<nat>, k: nat): nat
    requires ticks > 0.0 && k <= |times|
  {
    if k == 0 || times[k - 1] < anchor then 0 else Reached(anchor, ticks, times[k - 1])
  }

  /** After call k the counter is the last boundary reached. */
  predicate UpToDate(anchor: nat, ticks: real, times: seq<nat>, k: nat)
    requires ticks > 0.0 && k <= |times|
  {
    Ticked(anchor, ticks, 0, times[..k]) == ReachedBy(anchor, ticks, times, k)
  }

  lemma UpToDateIsCurrent(anchor: nat, ticks: real, times: seq<nat>, k: nat)
    requires ticks > 0.0 && 0 < k <= |times| && anchor <= times[k - 1]
    ensures UpToDate(anchor, ticks, times, k) <==>
            IsCurrent(anchor, ticks, times[k - 1], Ticked(anchor, ticks, 0, times[..k]))
  {
    ReachedIsCurrent(anchor, ticks, times[k - 1]);
    if IsCurrent(anchor, ticks, times[k - 1], Ticked(anchor, ticks, 0, times[..k])) {
      CurrentIsUnique(anchor, ticks, times[k - 1], Ticked(anchor, ticks, 0, times[..k]));
    }
  }

  /** Call k finds at most one boundary more than the call before it. */
  predicate SkipsNone(anchor: nat, ticks: real, times: seq<nat>, k: nat)
    requires ticks > 0.0 && 0 < k <= |times|
  {
    ReachedBy(anchor, ticks, times, k) <= ReachedBy(anchor, ticks, times, k - 1) + 1
  }

  lemma {:induction false} TimesInOrder(times: seq<nat>, anchor: nat, k: nat)
    requires Monotone(times, anchor) && k < |times|
    ensures Monotone(times[..k], anchor)
    ensures anchor <= times[k] && Last(times[..k], anchor) <= times[k]
  {
    if k > 0 {
      TimesInOrder(times, anchor, k - 1);
    }
  }

  /** One more call: a step up, but never past the boundary reached. */
  lemma CallSteps(anchor: nat, ticks: real, times: seq<nat>, k: nat)
    requires ticks > 0.0 && Monotone(times, anchor) && 0 < k <= |times|
    ensures var n, n' := Ticked(anchor, ticks, 0, times[..k - 1]), Ticked(anchor, ticks, 0, times[..k]);
      var m := ReachedBy(anchor, ticks, times, k);
      n <= m && n' == if n < m then n + 1 else m
  {
    TimesInOrder(times, anchor, k - 1);
    SessionSafety(anchor, ticks, times[..k - 1], k - 1);
    assert times[..k - 1][..k - 1] == times[..k - 1];
    assert times[..k][..k - 1] == times[..k - 1];
    var n := Ticked(anchor, ticks, 0, times[..k - 1]);
    TickSafety(anchor, ticks, n, times[k - 1]);
  }

  /** The counter after k calls, in closed form: the least of the boundaries any
      call j found, plus one for every call after it. */
  lemma {:induction false} CounterExactly(anchor: nat, ticks: real, times: seq<nat>, k: nat)
    requires ticks > 0.0 && Monotone(times, anchor) && k <= |times|
    ensures forall j :: 0 <= j <= k ==>
              Ticked(anchor, ticks, 0, times[..k]) <= ReachedBy(anchor, ticks, times, j) + (k - j)
    ensures exists j :: 0 <= j <= k &&
              Ticked(anchor, ticks, 0, times[..k]) == ReachedBy(anchor, ticks, times, j) + (k - j)
    decreases k
  {
    hide Ticked, ReachedBy;
    if k == 0 {
      NoCalls(anchor, ticks, times);
    } else {
      CounterExactly(anchor, ticks, times, k - 1);
      CallSteps(anchor, ticks, times, k);
      var j :| 0 <= j <= k - 1 &&
        Ticked(anchor, ticks, 0, times[..k - 1]) == ReachedBy(anchor, ticks, times, j) + (k - 1 - j);
      var last := if Ticked(anchor, ticks, 0, times[..k]) == ReachedBy(anchor, ticks, times, k) then k else j;
      assert Ticked(anchor, ticks, 0, times[..k]) == ReachedBy(anchor, ticks, times, last) + (k - last);
    }
  }

  lemma NoCalls(anchor: nat, ticks: real, times: seq<nat>)
    requires ticks > 0.0
    ensures Ticked(anchor, ticks, 0, times[..0]) == ReachedBy(anchor, ticks, times, 0) == 0
  {
  }

  /** Which calls lag: the counter is exact after call k if and only if since no
      earlier call more boundaries were passed than calls were made. */
  lemma ExactAfter(anchor: nat, ticks: real, times: seq<nat>, k: nat)
    requires ticks > 0.0 && Monotone(times, anchor) && k <= |times|
    ensures UpToDate(anchor, ticks, times, k) <==>
            forall j :: 0 <= j <= k ==>
              ReachedBy(anchor, ticks, times, k) <= ReachedBy(anchor, ticks, times, j) + (k - j)
  {
    CounterExactly(anchor, ticks, times, k);
  }

  /** A session keeps up at every call if and only if no call finds two new
      boundaries at once. */
  lemma KeepsUpExactly(anchor: nat, ticks: real, times: seq<nat>)
    requires ticks > 0.0 && Monotone(times, anchor)
    ensures (forall k :: 0 < k <= |times| ==> UpToDate(anchor, ticks, times, k)) <==>
            (forall k :: 0 < k <= |times| ==> SkipsNone(anchor, ticks, times, k))
  {
    hide Ticked, ReachedBy;
    NoCalls(anchor, ticks, times);
    assert UpToDate(anchor, ticks, times, 0);
    if forall k :: 0 < k <= |times| ==> UpToDate(anchor, ticks, times, k) {
      forall k | 0 < k <= |times|
        ensures SkipsNone(anchor, ticks, times, k)
      {
        CallSteps(anchor, ticks, times, k);
        assert UpToDate(anchor, ticks, times, k) && UpToDate(anchor, ticks, times, k - 1);
      }
    }
    if forall k :: 0 < k <= |times| ==> SkipsNone(anchor, ticks, times, k) {
      forall k | 0 < k <= |times|
        ensures UpToDate(anchor, ticks, times, k)
      {
        KeptUp(anchor, ticks, times, k);
      }
    }
  }

  lemma {:induction false} KeptUp(anchor: nat, ticks: real, times: seq<nat>, k: nat)
    requires ticks > 0.0 && Monotone(times, anchor) && k <= |times|
    requires forall j :: 0 < j <= k ==> SkipsNone(anchor, ticks, times, j)
    ensures UpToDate(anchor, ticks, times, k)
    decreases k
  {
    if k == 0 {
      NoCalls(anchor, ticks, times);
    } else {
      KeptUp(anchor, ticks, times, k - 1);
      CallSteps(anchor, ticks, times, k);
      assert SkipsNone(anchor, ticks, times, k);
    }
  }

  /** A call at most a truncated period after `before` finds one boundary more at most. */
  lemma OneBoundaryMore(anchor: nat, ticks: real, before: nat, now: nat)
    requires ticks > 0.0 && anchor <= before <= now <= before + ticks.Floor
    ensures Reached(anchor, ticks, now) <= Reached(anchor, ticks, before) + 1
  {
    var m, n := Reached(anchor, ticks, before), Reached(anchor, ticks, now);
    ReachedIsCurrent(anchor, ticks, before);
    ReachedIsCurrent(anchor, ticks, now);
    assert Boundary(anchor, ticks, m + 1) > before;
    PeriodLength(anchor, ticks, m + 1);
    if n >= m + 2 {
      BoundaryMonotone(anchor, ticks, m + 2, n);
    }
  }

  /** The first call at most a truncated period after StartIO is past the second
      boundary only where periods are shorter than half a tick. */
  lemma FirstBoundary(anchor: nat, ticks: real, now: nat)
    requires ticks > 0.0 && anchor <= now <= anchor + ticks.Floor
    ensures Reached(anchor, ticks, now) <= 1 <==> ticks >= 0.5
  {
    var n := Reached(anchor, ticks, now);
    ReachedIsCurrent(anchor, ticks, now);
    assert Boundary(anchor, ticks, 2) == anchor + (ticks + ticks).Floor;
    if n >= 2 {
      BoundaryMonotone(anchor, ticks, 2, n);
    }
  }

  /** Exactness: where no two calls (nor StartIO and the first) are further apart
      than a truncated period, the counter is the current boundary after every
      call, although each call steps it at most once, exactly if a period is at
      least half a tick. */
  lemma SessionExact(anchor: nat, ticks: real, times: seq<nat>)
    requires ticks > 0.0 && Monotone(times, anchor)
    requires times != [] && times[0] - anchor <= ticks.Floor
    requires forall i :: 0 < i < |times| ==> times[i] - times[i - 1] <= ticks.Floor
    ensures (forall k :: 0 < k <= |times| ==> UpToDate(anchor, ticks, times, k)) <==> ticks >= 0.5
  {
    KeepsUpExactly(anchor, ticks, times);
    hide UpToDate, Reached, Ticked;
    FirstBoundary(anchor, ticks, times[0]);
    assert SkipsNone(anchor, ticks, times, 1) <==> ticks >= 0.5;
    forall k | 1 < k <= |times|
      ensures SkipsNone(anchor, ticks, times, k)
    {
      TimesInOrder(times, anchor, k - 2);
      OneBoundaryMore(anchor, ticks, times[k - 2], times[k - 1]);
    }
  }

  /** A call two periods late is one period behind, but not every late call lags:
      a truncated period between calls is enough, and not needed. */
  lemma LateCallLags()
    ensures Ticked(0, 10.0, 0, [20]) == 1 && IsCurrent(0, 10.0, 20, 2)
    ensures Ticked(0, 10.0, 0, [1, 18]) == 1 && IsCurrent(0, 10.0, 18, 1)
  {
    assert Boundary(0, 10.0, 1) == 10 && Boundary(0, 10.0, 2) == 20;
    assert [20][..0] == [] && [1, 18][..1] == [1] && [1][..0] == [];
    assert Ticked(0, 10.0, 0, []) == 0 && Ticked(0, 10.0, 0, [1]) == 0;
    forall k: nat
      ensures (Boundary(0, 10.0, k) <= 20 ==> k <= 2) && (Boundary(0, 10.0, k) <= 18 ==> k <= 1)
    {
    }
  }
}
