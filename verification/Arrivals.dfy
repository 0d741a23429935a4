// What a run leaves behind, said of the run itself: every frame pushed arrives,
// every call is recorded as it was made, and every session starts where it should.
module Arrivals {
  import opened Ring
  import opened Framing
  import opened SharedMemory
  import opened ReadCursor
  import opened Interleaving
  import opened AudioPath
  import opened Guarantees

  lemma LastStep(s: World, run: seq<Action>)
    requires Shape(s) && Possible(s, run) && run != []
    ensures var n := |run| - 1;
      && Possible(s, run[..n]) && Enabled(After(s, run[..n]), run[n])
      && After(s, run) == Next(After(s, run[..n]), run[n])
  {
    hide Next, Enabled, Possible, After;
    var n := |run| - 1;
    assert run == run[..n] + [run[n]];
    AfterAppend(s, run[..n], [run[n]]);
    OneAction(After(s, run[..n]), run[n]);
  }

  lemma OneAction(s: World, a: Action)
    requires Shape(s) && Possible(s, [a])
    ensures Enabled(s, a) && After(s, [a]) == Next(s, a)
  {
    hide Next, Enabled;
    assert [a][1..] == [];
  }

  // ---- every frame pushed arrives ----

  /** The pushes begun since the header was last written. */
  function PushedSince(run: seq<Action>): (inputs: seq<Input>) {
    if run == [] then []
    else
      var a, before := run[|run| - 1], PushedSince(run[..|run| - 1]);
      if a.CreateStart? then [] else if a.PushStart? then before + [a.input] else before
  }

  /** How many of them were published. */
  function PublishedSince(run: seq<Action>): nat {
    if run == [] then 0
    else
      var a, before := run[|run| - 1], PublishedSince(run[..|run| - 1]);
      if a.CreateStart? then 0 else if a.Publish? then before + 1 else before
  }

  /** How many frames a push carries: the whole frames of a packet of 24-bit
      samples, or one for every value of the tone. */
  function FramesOf(input: Input, channels: nat): nat
    requires channels > 0
  {
    match input
    case FromPacket(bytes) => FramesIn(|bytes|, channels)
    case FromTone(values) => |values|
  }

  /** The place of push n in the history. */
  function PlaceOfPush(inputs: seq<Input>, n: nat, channels: nat): nat
    requires n <= |inputs| && channels > 0
  {
    if n == 0 then 0 else PlaceOfPush(inputs, n - 1, channels) + FramesOf(inputs[n - 1], channels)
  }

  /** The frames of a push lie in `frames` from place `at` on, all of them. */
  predicate PushLies(frames: seq<Frame>, at: nat, input: Input, channels: nat)
    requires channels > 0
  {
    match input
    case FromPacket(bytes) => PacketLies(frames, at, bytes, channels)
    case FromTone(values) =>
      && at + |values| <= |frames|
      && forall f :: 0 <= f < |values| ==> frames[at + f] == seq(channels, _ => values[f])
  }

  lemma InputLies(front: seq<Frame>, input: Input, back: seq<Frame>, channels: nat)
    requires ValidChannels(channels)
    ensures |InputFrames(input, channels)| == FramesOf(input, channels)
    ensures PushLies(front + InputFrames(input, channels) + back, |front|, input, channels)
  {
    match input
    case FromPacket(bytes) => DecodedLies(front, bytes, back, channels);
    case FromTone(values) =>
      forall f | 0 <= f < |values|
        ensures (front + ToneFrames(values, channels) + back)[|front| + f] == seq(channels, _ => values[f])
      {
        Between(front, ToneFrames(values, channels), back, f);
      }
  }

  lemma {:induction false} FramesCount(inputs: seq<Input>, channels: nat)
    requires ValidChannels(channels)
    ensures |AllInputFrames(inputs, channels)| == PlaceOfPush(inputs, |inputs|, channels)
  {
    if inputs != [] {
      var n := |inputs| - 1;
      FramesCount(inputs[..n], channels);
      InputLies([], inputs[n], [], channels);
      PlacesBefore(inputs, n, n, channels);
    }
  }

  lemma {:induction false} PlacesBefore(inputs: seq<Input>, m: nat, n: nat, channels: nat)
    requires n <= m <= |inputs| && channels > 0
    ensures PlaceOfPush(inputs[..m], n, channels) == PlaceOfPush(inputs, n, channels)
    decreases n
  {
    if n > 0 {
      PlacesBefore(inputs, m, n - 1, channels);
    }
  }

  lemma LastInput(inputs: seq<Input>, channels: nat)
    requires ValidChannels(channels) && inputs != []
    ensures var n := |inputs| - 1;
      AllInputFrames(inputs, channels) == AllInputFrames(inputs[..n], channels) + InputFrames(inputs[n], channels)
  {
  }

  /** All inputs, framed, are these before input n, input n, and the rest. */
  lemma {:induction false} SplitInputs(inputs: seq<Input>, n: nat, channels: nat) returns (back: seq<Frame>)
    requires ValidChannels(channels) && n < |inputs|
    ensures AllInputFrames(inputs, channels) ==
            AllInputFrames(inputs[..n], channels) + InputFrames(inputs[n], channels) + back
    decreases |inputs|
  {
    hide AllInputFrames, InputFrames;
    var last := |inputs| - 1;
    LastInput(inputs, channels);
    if n == last {
      back := [];
      NothingBehind(AllInputFrames(inputs[..n], channels) + InputFrames(inputs[n], channels));
    } else {
      var most := SplitInputs(inputs[..last], n, channels);
      assert inputs[..last][..n] == inputs[..n];
      back := most + InputFrames(inputs[last], channels);
      JoinThree(AllInputFrames(inputs[..n], channels) + InputFrames(inputs[n], channels), most,
                InputFrames(inputs[last], channels));
    }
  }

  lemma NothingBehind<T>(s: seq<T>)
    ensures s + [] == s
  {
  }

  lemma PushLiesInAll(inputs: seq<Input>, n: nat, channels: nat)
    requires ValidChannels(channels) && n < |inputs|
    ensures PushLies(AllInputFrames(inputs, channels), PlaceOfPush(inputs, n, channels), inputs[n], channels)
  {
    var back := SplitInputs(inputs, n, channels);
    FramesCount(inputs[..n], channels);
    PlacesBefore(inputs, n, n, channels);
    InputLies(AllInputFrames(inputs[..n], channels), inputs[n], back, channels);
  }

  lemma LiesInFront(all: seq<Frame>, frames: seq<Frame>, at: nat, input: Input, channels: nat)
    requires channels > 0 && frames <= all && PushLies(all, at, input, channels)
    requires at + FramesOf(input, channels) <= |frames|
    ensures PushLies(frames, at, input, channels)
  {
    if input.FromPacket? {
      forall f, ch | 0 <= f < FramesIn(|input.bytes|, channels) && 0 <= ch < channels
        ensures SampleLies(frames, at, input.bytes, channels, f, ch)
      {
        assert SampleLies(all, at, input.bytes, channels, f, ch);
      }
    }
  }

  /** The segment's inputs and counter, told by the run. */
  predicate ToldByRun(seg: Segment, run: seq<Action>)
    requires seg.channels > 0
  {
    var pushed, published := PushedSince(run), PublishedSince(run);
    && seg.inputs == pushed
    && |pushed| == published + (if seg.producer.Pushing? then 1 else 0)
    && (!seg.producer.Creating? ==> seg.w == PlaceOfPush(pushed, published, seg.channels))
  }

  lemma RunSnoc(run: seq<Action>, a: Action)
    ensures PushedSince(run + [a]) ==
            if a.CreateStart? then [] else if a.PushStart? then PushedSince(run) + [a.input] else PushedSince(run)
    ensures PublishedSince(run + [a]) ==
            if a.CreateStart? then 0 else if a.Publish? then PublishedSince(run) + 1 else PublishedSince(run)
  {
    assert (run + [a])[..|run|] == run;
  }

  lemma PublishTold(seg: Segment, run: seq<Action>)
    requires SegmentInv(seg) && ToldByRun(seg, run) && SegmentEnabled(seg, Publish)
    ensures seg.producer.next == PlaceOfPush(PushedSince(run), |PushedSince(run)|, seg.channels)
  {
    var next := seg.producer.next;
    assert seg.frames[..next] + [] == seg.frames[..next];
    FramesCount(seg.inputs, seg.channels);
  }

  lemma StepTold(seg: Segment, run: seq<Action>, a: Action)
    requires SegmentInv(seg) && ToldByRun(seg, run) && ProducerAction(a) && SegmentEnabled(seg, a)
    ensures ToldByRun(SegmentNext(seg, a), run + [a])
  {
    RunSnoc(run, a);
    var pushed, published := PushedSince(run), PublishedSince(run);
    if a.PushStart? {
      assert (pushed + [a.input])[..|pushed|] == pushed;
      PlacesBefore(pushed + [a.input], |pushed|, published, seg.channels);
    } else if a.Publish? {
      PublishTold(seg, run);
    }
    hide PushedSince, PublishedSince, PlaceOfPush, Holds, AllInputFrames, InputFrames;
  }

  lemma AnyStepTold(s: World, run: seq<Action>, a: Action)
    requires Inv(s) && Enabled(s, a) && ToldByRun(s.seg, run)
    ensures ToldByRun(Next(s, a).seg, run + [a])
  {
    if ProducerAction(a) {
      hide ToldByRun;
      StepTold(s.seg, run, a);
    } else {
      RunSnoc(run, a);
      hide PushedSince, PublishedSince, PlaceOfPush, SegmentInv;
    }
  }

  lemma NothingTold(s0: World)
    requires Init(s0)
    ensures ToldByRun(s0.seg, [])
  {
  }

  lemma {:induction false} RunTold(s0: World, run: seq<Action>)
    requires Init(s0) && Possible(s0, run)
    ensures ToldByRun(After(s0, run).seg, run)
  {
    assert Shape(s0);
    hide Inv, ToldByRun, Next, Enabled, Init;
    if run == [] {
      NothingTold(s0);
    } else {
      var n := |run| - 1;
      LastStep(s0, run);
      RunTold(s0, run[..n]);
      ReachableInv(s0, run[..n]);
      hide Possible, After;
      assert run == run[..n] + [run[n]];
      AnyStepTold(After(s0, run[..n]), run[..n], run[n]);
    }
  }

  /** Nothing pushed is lost: over every run, every frame of every push published
      since the header was last written, whatever its size, is in the history, in
      order and in full, and counted. */
  lemma EveryFrameArrives(s0: World, run: seq<Action>, n: nat)
    requires Init(s0) && Possible(s0, run) && n < PublishedSince(run)
    ensures var seg, pushed := After(s0, run).seg, PushedSince(run);
      && seg.channels > 0 && n < |pushed|
      && PushLies(seg.frames, PlaceOfPush(pushed, n, seg.channels), pushed[n], seg.channels)
      && PlaceOfPush(pushed, n + 1, seg.channels) <= seg.w <= |seg.frames|
  {
    RunTold(s0, run);
    ReachableInv(s0, run);
    hide Possible, After;
    PublishedLies(After(s0, run).seg, n, PublishedSince(run));
  }

  lemma PublishedLies(seg: Segment, n: nat, published: nat)
    requires SegmentInv(seg) && !seg.producer.Creating? && n < published <= |seg.inputs|
    requires seg.w == PlaceOfPush(seg.inputs, published, seg.channels)
    ensures PushLies(seg.frames, PlaceOfPush(seg.inputs, n, seg.channels), seg.inputs[n], seg.channels)
    ensures PlaceOfPush(seg.inputs, n + 1, seg.channels) <= seg.w <= |seg.frames|
  {
    assert ValidChannels(seg.channels);
    BegunFramesAreInputs(seg);
    SegmentCounts(seg);
    hide SegmentInv, PushLies, AllInputFrames;
    PushLiesInAll(seg.inputs, n, seg.channels);
    PlacesGrow(seg.inputs, n + 1, published, seg.channels);
    LiesInFront(AllInputFrames(seg.inputs, seg.channels), seg.frames, PlaceOfPush(seg.inputs, n, seg.channels),
                seg.inputs[n], seg.channels);
  }

  lemma {:induction false} PlacesGrow(inputs: seq<Input>, m: nat, n: nat, channels: nat)
    requires m <= n <= |inputs| && channels > 0
    ensures PlaceOfPush(inputs, m, channels) <= PlaceOfPush(inputs, n, channels)
    decreases n
  {
    if m < n {
      PlacesGrow(inputs, m, n - 1, channels);
    }
  }

  /** And nothing else is counted: the counter is the number of frames published. */
  lemma CounterCounts(s0: World, run: seq<Action>)
    requires Init(s0) && Possible(s0, run) && !After(s0, run).seg.producer.Creating?
    ensures var seg := After(s0, run).seg;
      && seg.channels > 0 && PublishedSince(run) <= |PushedSince(run)|
      && seg.w == PlaceOfPush(PushedSince(run), PublishedSince(run), seg.channels)
  {
    RunTold(s0, run);
  }

  // ---- calls are recorded as they were made ----

  predicate SameEntry(c: Client, c': Client) {
    && c'.cycle == c.cycle && c'.inFrames == c.inFrames && c'.channels == c.channels
    && c'.published == c.published && c'.epoch == c.epoch
  }

  lemma StepKeepsEntry(s: World, a: Action, id: nat)
    requires Inv(s) && Enabled(s, a) && id in s.clients
    ensures id in Next(s, a).clients && SameEntry(s.clients[id], Next(s, a).clients[id])
    ensures Undisturbed(Next(s, a).clients[id], Next(s, a).seg) <==>
            Undisturbed(s.clients[id], s.seg) && !a.CreateStart?
  {
    assert ClientInv(s.clients[id], s.seg);
    hide SegmentInv, OutputMatches, Decide;
  }

  lemma {:induction false} RunKeepsEntry(s: World, run: seq<Action>, id: nat)
    requires Inv(s) && Possible(s, run) && id in s.clients
    ensures id in After(s, run).clients && SameEntry(s.clients[id], After(s, run).clients[id])
    ensures Undisturbed(After(s, run).clients[id], After(s, run).seg) <==>
            Undisturbed(s.clients[id], s.seg) && forall a :: a in run ==> !a.CreateStart?
    decreases |run|
  {
    if run != [] {
      hide Inv, Next, Enabled, Undisturbed;
      StepKeepsEntry(s, run[0], id);
      StepInv(s, run[0]);
      RunKeepsEntry(Next(s, run[0]), run[1..], id);
      assert forall a :: a in run <==> a == run[0] || a in run[1..];
    }
  }

  /** A call over a run, from the step that made it: it keeps the cycle number, the
      buffer size and the channel count it came with, it is undisturbed exactly as
      long as no header is being rewritten then and none is begun after, and the
      counter it loads is then no older than the one when it was made. */
  lemma CallOverRun(s0: World, before: seq<Action>, id: nat, cycle: nat, inFrames: UInt32, since: seq<Action>)
    requires Init(s0) && Possible(s0, before)
    requires var s := After(s0, before);
      && Enabled(s, Enter(id, cycle, inFrames)) && Possible(Next(s, Enter(id, cycle, inFrames)), since)
    ensures var s := After(s0, before); var s' := After(Next(s, Enter(id, cycle, inFrames)), since);
      && id in s'.clients
      && var c := s'.clients[id];
         && c.cycle == cycle && c.inFrames == inFrames && c.channels == s.seg.channels
         && (Undisturbed(c, s'.seg) <==>
               !s.seg.producer.Creating? && forall a :: a in since ==> !a.CreateStart?)
         && (Undisturbed(c, s'.seg) && !c.Entered? ==> s.seg.w <= c.w <= s'.seg.w)
  {
    ReachableInv(s0, before);
    var s := After(s0, before);
    var s1 := Next(s, Enter(id, cycle, inFrames));
    StepInv(s, Enter(id, cycle, inFrames));
    RunInv(s1, since);
    RunKeepsEntry(s1, since, id);
    ClientOfInv(After(s1, since), id);
    hide Inv, SegmentInv;
  }

  lemma ClientOfInv(s: World, id: nat)
    requires Inv(s) && id in s.clients
    ensures var c := s.clients[id];
      Undisturbed(c, s.seg) && !c.Entered? ==> c.published <= c.w <= s.seg.w
  {
    assert ClientInv(s.clients[id], s.seg);
  }

  lemma StepKeepsLoaded(s: World, a: Action, id: nat)
    requires Shape(s) && Enabled(s, a) && id in s.clients && !s.clients[id].Entered?
    ensures var c' := Next(s, a).clients[id]; !c'.Entered? && c'.w == s.clients[id].w
    ensures s.clients[id].Copying? || s.clients[id].Finished? ==>
              var c' := Next(s, a).clients[id]; (c'.Copying? || c'.Finished?) && c'.rf == s.clients[id].rf
  {
    hide Decide;
  }

  lemma {:induction false} RunKeepsLoaded(s: World, run: seq<Action>, id: nat)
    requires Shape(s) && Possible(s, run) && id in s.clients && !s.clients[id].Entered?
    ensures id in After(s, run).clients
    ensures var c' := After(s, run).clients[id]; !c'.Entered? && c'.w == s.clients[id].w
    ensures s.clients[id].Copying? || s.clients[id].Finished? ==>
              var c' := After(s, run).clients[id]; (c'.Copying? || c'.Finished?) && c'.rf == s.clients[id].rf
    decreases |run|
  {
    if run != [] {
      StepKeepsLoaded(s, run[0], id);
      hide Next, Enabled;
      RunKeepsLoaded(Next(s, run[0]), run[1..], id);
    }
  }

  /** What a call reads and when, whatever happens between its steps: from the step
      that loads the counter on, that counter; from the mutex section on, the start
      frame decided there, with the cursor of then, the counter loaded before and
      the latency the header has then. */
  lemma CallReads(s: World, id: nat, between: seq<Action>, since: seq<Action>)
    requires Shape(s) && Enabled(s, LoadCounter(id)) && Possible(Next(s, LoadCounter(id)), between)
    requires var s1 := After(Next(s, LoadCounter(id)), between);
      Enabled(s1, DecideStart(id)) && Possible(Next(s1, DecideStart(id)), since)
    ensures var s1 := After(Next(s, LoadCounter(id)), between);
      var s2 := Next(s1, DecideStart(id));
      var s3 := After(s2, since);
      && id in s1.clients && id in s3.clients
      && var call := Call(s1.clients[id].cycle, s1.clients[id].inFrames, s.seg.w, s1.seg.latency);
         && s2.cursor == Decide(s1.cursor, call)
         && (Leads(s1.cursor, call) ==> s2.openers == s1.openers + [call])
         && (!Leads(s1.cursor, call) ==> s2.openers == s1.openers)
         && var c := s3.clients[id];
            !c.Entered? && !c.Loaded? && c.w == s.seg.w && c.rf == s2.cursor.cycleReadFrame
  {
    var s0 := Next(s, LoadCounter(id));
    RunKeepsLoaded(s0, between, id);
    var s1 := After(s0, between);
    var s2 := Next(s1, DecideStart(id));
    assert s1.clients[id].w == s.seg.w;
    RunKeepsLoaded(s2, since, id);
  }

  /** A run can begin with anything in the segment: any samples, any counter. */
  lemma AnySegmentCanBegin(channels: nat, latency: nat, w: nat, ring: seq<int>) returns (s: World)
    requires ValidChannels(channels) && MIN_LATENCY <= latency <= MAX_LATENCY && |ring| == RING_SAMPLES
    ensures Init(s) && s.seg.channels == channels && s.seg.latency == latency && s.seg.w == w && s.seg.ring == ring
  {
    var cursor := Cursor(0, 0, NO_CYCLE);
    s := World(Segment(channels, latency, w, ring, Creating, [], [], [], -1), cursor, 0, map[],
               Anchor(0, 0), 0, cursor, []);
  }

  // ---- every cycle has its opener ----

  predicate OpensCycle(s: World, id: nat, k: nat) {
    && id in s.clients && (s.clients[id].Copying? || s.clients[id].Finished?)
    && s.clients[id].session == s.session && s.clients[id].part == Opened(k)
  }

  ghost predicate HasOpener(s: World, k: nat) {
    exists id: nat :: OpensCycle(s, id, k)
  }

  /** Each cycle of the running session was opened by one call, and only one. */
  ghost predicate OpenersInv(s: World) {
    && (forall k: nat :: k < |s.openers| ==> HasOpener(s, k))
    && forall id: nat, id': nat, k: nat :: OpensCycle(s, id, k) && OpensCycle(s, id', k) ==> id == id'
  }

  lemma OpenersStep(s: World, a: Action)
    requires Inv(s) && OpenersInv(s) && Enabled(s, a)
    ensures OpenersInv(Next(s, a))
  {
    var s' := Next(s, a);
    hide Inv, Next, Enabled, OpensCycle;
    forall k: nat | k < |s'.openers|
      ensures HasOpener(s', k)
    {
      if k < |s.openers| {
        assert HasOpener(s, k);
        var id: nat :| OpensCycle(s, id, k);
        StaysOpener(s, a, id, k);
      } else {
        NewOpener(s, a);
      }
    }
    forall id: nat, id': nat, k: nat | OpensCycle(s', id, k) && OpensCycle(s', id', k)
      ensures id == id'
    {
      WasOpener(s, a, id, k);
      WasOpener(s, a, id', k);
    }
  }

  lemma StaysOpener(s: World, a: Action, id: nat, k: nat)
    requires Inv(s) && Enabled(s, a) && OpensCycle(s, id, k) && k < |Next(s, a).openers|
    ensures OpensCycle(Next(s, a), id, k)
  {
    hide Inv, Decide;
  }

  lemma NewOpener(s: World, a: Action)
    requires Inv(s) && Enabled(s, a) && |s.openers| < |Next(s, a).openers|
    ensures a.DecideStart? && |Next(s, a).openers| == |s.openers| + 1
    ensures OpensCycle(Next(s, a), a.id, |s.openers|)
  {
    hide Inv, Decide;
  }

  lemma WasOpener(s: World, a: Action, id: nat, k: nat)
    requires Inv(s) && Enabled(s, a) && OpensCycle(Next(s, a), id, k)
    ensures (OpensCycle(s, id, k) && k < |s.openers|) || (a == DecideStart(id) && k == |s.openers|)
  {
    if id in s.clients {
      assert CycleInv(s.clients[id], s);
    }
    hide Decide, SegmentInv, ClientInv, CursorInv, Replay;
  }

  lemma {:induction false} RunOpeners(s: World, run: seq<Action>)
    requires Inv(s) && OpenersInv(s) && Possible(s, run)
    ensures OpenersInv(After(s, run))
    decreases |run|
  {
    if run != [] {
      hide Inv, OpenersInv, Next, Enabled;
      OpenersStep(s, run[0]);
      StepInv(s, run[0]);
      RunOpeners(Next(s, run[0]), run[1..]);
    }
  }

  /** Over every run. */
  lemma EveryCycleHasItsOpener(s0: World, run: seq<Action>)
    requires Init(s0) && Possible(s0, run)
    ensures OpenersInv(After(s0, run))
  {
    InitInv(s0);
    RunOpeners(s0, run);
  }

  // ---- a session starts at the counter ----

  lemma {:induction false} SessionKeepsOrigin(s: World, run: seq<Action>)
    requires Shape(s) && Possible(s, run)
    ensures After(s, run).session >= s.session
    ensures After(s, run).session == s.session ==>
              After(s, run).origin == s.origin && s.openers <= After(s, run).openers
    decreases |run|
  {
    if run != [] {
      OriginStays(s, run[0]);
      hide Next, Enabled;
      SessionKeepsOrigin(Next(s, run[0]), run[1..]);
    }
  }

  lemma OriginStays(s: World, a: Action)
    requires Shape(s) && Enabled(s, a)
    ensures var s' := Next(s, a);
      && s'.session >= s.session
      && (s'.session == s.session ==> s'.origin == s.origin && s.openers <= s'.openers)
  {
  }

  /** The session a first client starts: over every run from its StartIO on, until
      the next session, the first cycle opened plays on from the counter at StartIO
      exactly if at least a buffer and at most a ring less a buffer was written
      since; otherwise it starts where a resync leads. */
  lemma FirstCycleOfSession(s0: World, before: seq<Action>, since: seq<Action>)
    requires Init(s0) && Possible(s0, before) && After(s0, before).ioRunning == 0
    requires var s := Next(After(s0, before), StartIO);
      && Possible(s, since) && After(s, since).session == s.session && After(s, since).openers != []
      && After(s, since).openers[0].inFrames <= RING
    ensures var w0, s' := After(s0, before).seg.w, After(Next(After(s0, before), StartIO), since);
      var first, rf := s'.openers[0], StartOf(s'.origin, s'.openers, 0);
      && (!ResyncsAt(s'.origin, s'.openers, 0) <==> w0 + first.inFrames <= first.w <= w0 + RING - first.inFrames)
      && (!ResyncsAt(s'.origin, s'.openers, 0) ==> rf == w0)
      && (ResyncsAt(s'.origin, s'.openers, 0) ==>
            rf == var depth := Depth(first.inFrames, first.latency);
                  if first.w > depth then first.w - depth else 0)
  {
    ReachableInv(s0, before);
    var s := Next(After(s0, before), StartIO);
    StepInv(After(s0, before), StartIO);
    SessionKeepsOrigin(s, since);
    RunInv(s, since);
    FirstOpener(After(s, since), After(s0, before).seg.w);
  }

  lemma FirstOpener(s: World, w0: nat)
    requires CursorInv(s) && s.origin == Cursor(w0, w0, NO_CYCLE) && s.openers != [] && s.openers[0].inFrames <= RING
    ensures var first, rf := s.openers[0], StartOf(s.origin, s.openers, 0);
      && (!ResyncsAt(s.origin, s.openers, 0) <==> w0 + first.inFrames <= first.w <= w0 + RING - first.inFrames)
      && (!ResyncsAt(s.origin, s.openers, 0) ==> rf == w0)
      && (ResyncsAt(s.origin, s.openers, 0) ==>
            rf == var depth := Depth(first.inFrames, first.latency);
                  if first.w > depth then first.w - depth else 0)
  {
    assert OpensAt(s.origin, s.openers, 0);
    assert s.openers[..0] == [];
    OneMoreCall(s.origin, s.openers, 0);
    CycleStart(s.origin, s.openers[0]);
    hide CursorInv;
  }
}
