// What the audio path promises over every run of the two processes.
module Guarantees {
  import Bits
  import opened S24
  import opened Ring
  import opened Framing
  import opened ReadCursor
  import opened Continuity
  import opened Interleaving
  import opened AudioPath

  lemma InitInv(s: World)
    requires Init(s)
    ensures Inv(s)
  {
  }

  lemma ReachableInv(s0: World, run: seq<Action>)
    requires Init(s0) && Possible(s0, run)
    ensures Inv(After(s0, run))
  {
    InitInv(s0);
    RunInv(s0, run);
  }

  /** A returned call whose output still belongs to the current header. */
  predicate Current(s: World, id: nat) {
    id in s.clients && s.clients[id].Finished? && Undisturbed(s.clients[id], s.seg)
  }

  /** One that the writer did not lap. */
  predicate Intact(s: World, id: nat) { Current(s, id) && !s.clients[id].lapped }

  // ---- no torn or stale frame ----

  /** The frame a delivered sample comes from. */
  lemma ClientSample(c: Client, seg: Segment, i: nat, ch: nat) returns (k: nat)
    requires SegmentShape(seg) && ClientInv(c, seg) && c.Finished? && Undisturbed(c, seg)
    requires i < c.inFrames && ch < c.channels
    ensures c.channels == seg.channels && Accounted(seg.frames, c, i, ch, k)
  {
    assert RowMatches(seg.frames, c, i, c.out[i]);
    assert SampleMatches(seg.frames, c, i, ch, c.out[i][ch]);
    k := 0;
    if c.rf + i < c.w {
      k :| ReadsAt(seg.frames, c.rf + i, ch, c.out[i][ch], k) && (k == c.rf + i || c.lapped);
      assert k != c.rf + i ==> c.rf + i + RING <= k;
    }
  }

  lemma SampleSource(s: World, id: nat, i: nat, ch: nat) returns (k: nat)
    requires Inv(s) && Current(s, id)
    requires var c := s.clients[id]; i < c.inFrames && c.rf + i < c.w && ch < c.channels
    ensures var c := s.clients[id];
      && c.channels == s.seg.channels && |c.out| == c.inFrames && |c.out[i]| == c.channels
      && ReadsAt(s.seg.frames, c.rf + i, ch, c.out[i][ch], k)
      && (k == c.rf + i || c.lapped)
  {
    assert ClientInv(s.clients[id], s.seg);
    hide Inv, OutputMatches;
    k := ClientSample(s.clients[id], s.seg, i, ch);
  }

  lemma IntactFrame(s: World, id: nat, i: nat)
    requires Inv(s) && Intact(s, id) && i < s.clients[id].inFrames
    ensures var c := s.clients[id];
      && |c.out| == c.inFrames && |c.out[i]| == c.channels
      && if c.rf + i < c.w then c.rf + i < |s.seg.frames| && c.out[i] == s.seg.frames[c.rf + i]
         else c.out[i] == Silence(c.channels)
  {
    var c := s.clients[id];
    assert ClientInv(c, s.seg);
    assert RowMatches(s.seg.frames, c, i, c.out[i]);
    if c.rf + i < c.w {
      assert c.rf + i < |s.seg.frames| by { SegmentCounts(s.seg); }
      forall ch | 0 <= ch < c.channels
        ensures c.out[i][ch] == s.seg.frames[c.rf + i][ch]
      {
        var k := SampleSource(s, id, i, ch);
      }
    } else {
      forall ch | 0 <= ch < c.channels
        ensures c.out[i][ch] == 0
      {
        assert SampleMatches(s.seg.frames, c, i, ch, c.out[i][ch]);
      }
    }
  }

  lemma IntactOutput(s: World, id: nat)
    requires Inv(s) && Intact(s, id)
    ensures var c := s.clients[id];
      && c.channels == s.seg.channels && c.published <= c.w <= |s.seg.frames|
      && c.out == Deliver(s.seg.frames, c.rf, c.w, c.inFrames, c.channels)
  {
    var c := s.clients[id];
    assert ClientInv(c, s.seg) && c.w <= |s.seg.frames| by { SegmentCounts(s.seg); }
    hide Inv, Intact;
    forall i | 0 <= i < c.inFrames
      ensures c.out[i] == Deliver(s.seg.frames, c.rf, c.w, c.inFrames, c.channels)[i]
    {
      IntactFrame(s, id, i);
    }
  }

  /** Every frame an intact call delivers is the captured frame it stands for,
      whole, or silence past the counter the call loaded, which is no older than
      the counter when the call was made; it was read with the stride it was
      written with. */
  lemma NoTornOrStaleFrame(s0: World, run: seq<Action>, id: nat)
    requires Init(s0) && Possible(s0, run) && Intact(After(s0, run), id)
    ensures var s := After(s0, run); var c := s.clients[id];
      && c.channels == s.seg.channels
      && |c.out| == c.inFrames
      && c.published <= c.w
      && forall i :: 0 <= i < c.inFrames ==>
           if c.rf + i < c.w then c.rf + i < |s.seg.frames| && c.out[i] == s.seg.frames[c.rf + i]
           else c.out[i] == Silence(c.channels)
  {
    ReachableInv(s0, run);
    IntactOutput(After(s0, run), id);
  }

  /** When a call is intact. It was not lapped, by the time of any later state, if
      no frame falling into its slots was begun until then; and that holds at the
      latest while the writer stays within one buffer of the counter value the
      call's cycle was anchored with, which for a cycle's first call is its own. */
  lemma BudgetSuffices(s0: World, run: seq<Action>, id: nat)
    requires Init(s0) && Possible(s0, run)
    requires var s := After(s0, run);
      id in s.clients && (s.clients[id].Copying? || s.clients[id].Finished?) && Undisturbed(s.clients[id], s.seg)
    ensures var s := After(s0, run); var c := s.clients[id];
      && (WithinBudget(c, s.seg) && c.anchor.inFrames <= MAX_BUFFER ==> NotLapped(c, s.seg))
      && (NotLapped(c, s.seg) ==> !c.lapped)
      && (c.part.Opened? && c.session == s.session ==> c.anchor == Anchor(c.w, c.inFrames))
  {
    ReachableInv(s0, run);
    var s := After(s0, run);
    assert ClientInv(s.clients[id], s.seg) && CycleInv(s.clients[id], s);
  }

  /** In every reachable state, exactly what a copy reads: its own frame until the
      writer stores the same channel of the frame one ring later, and from then on
      the latest frame stored in that slot. */
  lemma CopyReadsExactly(s0: World, run: seq<Action>, id: nat)
    requires Init(s0) && Possible(s0, run)
    requires var s := After(s0, run);
      Enabled(s, CopySample(id)) && Undisturbed(s.clients[id], s.seg)
      && s.clients[id].rf + |s.clients[id].out| < s.clients[id].w
    ensures var s := After(s0, run);
      CopiesLatest(s.seg, s.clients[id], Next(s, CopySample(id)).clients[id])
  {
    ReachableInv(s0, run);
    var s := After(s0, run);
    assert ClientInv(s.clients[id], s.seg);
    CopyReads(s, s.clients[id]);
    hide CopiesLatest;
  }

  /** Sample ch of delivered frame i: silence past the counter, or the same channel
      of captured frame k, which is the frame itself or, if the call was lapped,
      one a whole number of rings newer. */
  predicate Accounted(frames: seq<Frame>, c: Client, i: nat, ch: nat, k: nat)
    requires c.Finished?
  {
    && i < |c.out| == c.inFrames
    && ch < |c.out[i]| == c.channels
    && if c.rf + i >= c.w then c.out[i][ch] == 0
       else
         && ReadsAt(frames, c.rf + i, ch, c.out[i][ch], k)
         && (k == c.rf + i || (c.lapped && c.rf + i + RING <= k))
  }

  /** Even a call that was lapped delivers no foreign sample. */
  lemma LappedReadsNewer(s0: World, run: seq<Action>, id: nat, i: nat, ch: nat) returns (k: nat)
    requires Init(s0) && Possible(s0, run) && Current(After(s0, run), id)
    requires var c := After(s0, run).clients[id]; i < c.inFrames && ch < c.channels
    ensures var s := After(s0, run); var c := s.clients[id];
      && c.channels == s.seg.channels
      && Accounted(s.seg.frames, c, i, ch, k)
      && (c.lapped ==> !NotLapped(c, s.seg))
  {
    ReachableInv(s0, run);
    k := AnySample(After(s0, run), id, i, ch);
    hide Accounted;
  }

  lemma AnySample(s: World, id: nat, i: nat, ch: nat) returns (k: nat)
    requires Inv(s) && Current(s, id)
    requires i < s.clients[id].inFrames && ch < s.clients[id].channels
    ensures var c := s.clients[id];
      && c.channels == s.seg.channels
      && Accounted(s.seg.frames, c, i, ch, k)
      && (c.lapped ==> !NotLapped(c, s.seg))
  {
    assert ClientInv(s.clients[id], s.seg);
    hide Inv, OutputMatches, Accounted;
    k := ClientSample(s.clients[id], s.seg, i, ch);
  }

  // ---- end to end: channels never rotate ----

  /** Which input, and which of its frames, a frame of the history is. */
  lemma {:induction false} Source(inputs: seq<Input>, channels: nat, k: nat) returns (n: nat, f: nat)
    requires ValidChannels(channels) && k < |AllInputFrames(inputs, channels)|
    ensures n < |inputs| && f < |InputFrames(inputs[n], channels)|
    ensures AllInputFrames(inputs, channels)[k] == InputFrames(inputs[n], channels)[f]
  {
    var last := |inputs| - 1;
    var front := AllInputFrames(inputs[..last], channels);
    if k < |front| {
      n, f := Source(inputs[..last], channels, k);
    } else {
      n, f := last, k - |front|;
    }
  }

  lemma BegunFramesAreInputs(seg: Segment)
    requires SegmentInv(seg)
    ensures seg.frames <= AllInputFrames(seg.inputs, seg.channels)
  {
    if seg.producer.Pushing? {
      var Pushing(next, done, todo) := seg.producer;
      assert seg.frames == seg.frames[..next] + seg.frames[next..];
      assert seg.frames[next..] <= todo;
    }
  }

  lemma {:induction false} InputsComeFromRun(s: World, run: seq<Action>, input: Input)
    requires Shape(s) && Possible(s, run) && input in After(s, run).seg.inputs
    ensures input in s.seg.inputs || PushStart(input) in run
    decreases |run|
  {
    if run != [] {
      InputsComeFromRun(Next(s, run[0]), run[1..], input);
    }
  }

  /** Sample value `v` is channel `ch` of one whole frame inside the packet: its
      three bytes, decoded as two's complement. */
  predicate ChannelOfPacket(v: int, ch: nat, bytes: Packet, f: nat, channels: nat) {
    && ch < channels
    && (f + 1) * FrameBytes(channels) <= |bytes|
    && var o := f * FrameBytes(channels) + 3 * ch;
       0 <= o && o + 2 < |bytes| && v == TwosComplement(bytes[o], bytes[o + 1], bytes[o + 2])
  }

  predicate CameFrom(v: int, ch: nat, input: Input, f: nat, channels: nat) {
    match input
    case FromPacket(bytes) => ChannelOfPacket(v, ch, bytes, f, channels)
    case FromTone(values) => f < |values| && v == values[f]
  }

  lemma FrameCameFrom(input: Input, channels: nat, f: nat, ch: nat)
    requires ValidChannels(channels) && f < |InputFrames(input, channels)| && ch < channels
    ensures CameFrom(InputFrames(input, channels)[f][ch], ch, input, f, channels)
  {
    match input
    case FromPacket(bytes) => SampleIsChannel(bytes, channels, f, ch);
    case FromTone(_) =>
  }

  lemma SampleIsChannel(bytes: Packet, channels: nat, f: nat, ch: nat)
    requires ValidChannels(channels) && f < FrameCount(bytes, channels) && ch < channels
    ensures DecodeFrames(bytes, channels)[f][ch] == SampleAt(bytes, channels, f, ch)
    ensures ChannelOfPacket(SampleAt(bytes, channels, f, ch), ch, bytes, f, channels)
  {
    hide Decode, TwosComplement, FrameBytes, FrameCount;
    SampleInBounds(bytes, channels, f, ch);
    var o := f * FrameBytes(channels) + ch * 3;
    DecodeIsTwosComplement(bytes[o], bytes[o + 1], bytes[o + 2]);
  }

  /** The input, and its frame, that a delivered sample is channel `ch` of. */
  lemma OutputSource(s: World, id: nat, i: nat, ch: nat) returns (input: Input, f: nat)
    requires Inv(s) && Current(s, id)
    requires var c := s.clients[id]; i < c.inFrames && c.rf + i < c.w && ch < c.channels
    ensures var c := s.clients[id];
      && c.channels == s.seg.channels && |c.out| == c.inFrames && |c.out[i]| == c.channels
      && input in s.seg.inputs && f < |InputFrames(input, s.seg.channels)|
      && c.out[i][ch] == InputFrames(input, s.seg.channels)[f][ch]
      && (!c.lapped ==> c.out[i] == InputFrames(input, s.seg.channels)[f])
  {
    var k := SampleSource(s, id, i, ch);
    input, f := FrameSource(s.seg, k);
    if !s.clients[id].lapped {
      IntactFrame(s, id, i);
    }
  }

  lemma FrameSource(seg: Segment, k: nat) returns (input: Input, f: nat)
    requires SegmentInv(seg) && k < |seg.frames|
    ensures input in seg.inputs && f < |InputFrames(input, seg.channels)|
    ensures seg.frames[k] == InputFrames(input, seg.channels)[f]
  {
    var all := AllInputFrames(seg.inputs, seg.channels);
    assert seg.frames <= all by { BegunFramesAreInputs(seg); }
    var n;
    n, f := Source(seg.inputs, seg.channels, k);
    input := seg.inputs[n];
  }

  /** End to end: output channel ch of any non-silent frame, of an intact call or
      a lapped one, is channel ch of one whole frame inside a single packet the
      daemon was given. */
  lemma ChannelsNeverRotate(s0: World, run: seq<Action>, id: nat, i: nat, ch: nat) returns (input: Input, f: nat)
    requires Init(s0) && Possible(s0, run) && Current(After(s0, run), id)
    requires var c := After(s0, run).clients[id]; i < c.inFrames && c.rf + i < c.w && ch < c.channels
    ensures var c := After(s0, run).clients[id];
      && |c.out| == c.inFrames && |c.out[i]| == c.channels
      && PushStart(input) in run
      && CameFrom(c.out[i][ch], ch, input, f, c.channels)
  {
    ReachableInv(s0, run);
    input, f := OutputSource(After(s0, run), id, i, ch);
    InputsComeFromRun(s0, run, input);
    FrameCameFrom(input, After(s0, run).seg.channels, f, ch);
  }

  // ---- restart and hot-swap ----

  lemma {:induction false} AfterAppend(s: World, a: seq<Action>, b: seq<Action>)
    requires Shape(s) && Possible(s, a + b)
    ensures Possible(s, a) && Possible(After(s, a), b) && After(s, a + b) == After(After(s, a), b)
    decreases |a|
  {
    if a == [] {
      assert a + b == b;
    } else {
      assert (a + b)[1..] == a[1..] + b;
      AfterAppend(Next(s, a[0]), a[1..], b);
    }
  }

  lemma {:induction false} HeaderStays(s: World, run: seq<Action>)
    requires Shape(s) && Possible(s, run)
    requires forall i :: 0 <= i < |run| ==> !run[i].CreateStart?
    ensures var s' := After(s, run);
      s'.seg.channels == s.seg.channels && s'.seg.latency == s.seg.latency && s'.seg.past == s.seg.past
    decreases |run|
  {
    if run != [] {
      HeaderStays(Next(s, run[0]), run[1..]);
    }
  }

  /** After the header is rewritten, whatever the plugin's cursor, session and
      running calls were, a call of the new epoch delivers only samples pushed
      since, read with the new channel count, and an intact one whole frames. */
  lemma HotSwapSafety(
      s0: World, before: seq<Action>, swap: Action, since: seq<Action>, id: nat, i: nat, ch: nat)
    returns (input: Input, f: nat)
    requires swap.CreateStart? && forall j :: 0 <= j < |since| ==> !since[j].CreateStart?
    requires Init(s0) && Possible(s0, before + ([swap] + since))
    requires var s := After(s0, before + ([swap] + since));
      && Current(s, id)
      && var c := s.clients[id]; i < c.inFrames && c.rf + i < c.w && ch < c.channels
    ensures var s := After(s0, before + ([swap] + since)); var c := s.clients[id];
      && c.channels == swap.channels == s.seg.channels
      && s.seg.latency == ClampLatency(swap.latencyMs)
      && PushStart(input) in since
      && ValidChannels(swap.channels)
      && f < |InputFrames(input, swap.channels)|
      && |c.out| == c.inFrames && |c.out[i]| == c.channels
      && c.out[i][ch] == InputFrames(input, swap.channels)[f][ch]
      && (!c.lapped ==> c.out[i] == InputFrames(input, swap.channels)[f])
  {
    SwapState(s0, before, swap, since);
    var s := After(s0, before + ([swap] + since));
    ReachableInv(s0, before + ([swap] + since));
    input, f := OutputSource(s, id, i, ch);
    assert PushStart(input) in since;
  }

  lemma SwapState(s0: World, before: seq<Action>, swap: Action, since: seq<Action>)
    requires swap.CreateStart? && forall j :: 0 <= j < |since| ==> !since[j].CreateStart?
    requires Shape(s0) && Possible(s0, before + ([swap] + since))
    ensures var s := After(s0, before + ([swap] + since));
      && s.seg.channels == swap.channels && s.seg.latency == ClampLatency(swap.latencyMs)
      && forall input :: input in s.seg.inputs ==> PushStart(input) in since
  {
    AfterAppend(s0, before, [swap] + since);
    var fresh' := Next(After(s0, before), swap);
    assert ([swap] + since)[1..] == since;
    HeaderStays(fresh', since);
    var s := After(fresh', since);
    forall input | input in s.seg.inputs
      ensures PushStart(input) in since
    {
      InputsComeFromRun(fresh', since, input);
    }
  }

  // ---- the cursor over a run ----

  /** A call of the running session that has its start frame. */
  predicate Reading(s: World, id: nat) {
    id in s.clients && (s.clients[id].Copying? || s.clients[id].Finished?) && s.clients[id].session == s.session
  }

  /** No call of another number opened a cycle from place p to place p'. */
  predicate NoOtherOpens(openers: seq<Call>, p: nat, p': nat, cycle: nat)
    requires p <= p' <= |openers|
  {
    forall k :: p <= k < p' ==> openers[k].cycle == cycle
  }

  /** From the opener before place p to the one before place p' every buffer is
      nonempty, and only the first may resync. */
  predicate PlaysOn(s: World, p: nat, p': nat)
    requires p <= p' <= |s.openers|
  {
    && p > 0
    && (forall k :: p - 1 <= k < p' ==> s.openers[k].inFrames > 0)
    && forall k :: p <= k < p' ==> !ResyncsAt(s.origin, s.openers, k)
  }

  /** Two calls of one cycle number, running or returned, in order of their place
      in the session. They share the opener exactly if no call of another number
      opened a cycle between them, and then they read from the same frame; with no
      resync between, and nonempty buffers, only then. */
  lemma CycleSharesStart(s0: World, run: seq<Action>, id: nat, id': nat)
    requires Init(s0) && Possible(s0, run)
    requires var s := After(s0, run);
      && Reading(s, id) && Reading(s, id')
      && s.clients[id].cycle == s.clients[id'].cycle
      && Place(s.clients[id].part) <= Place(s.clients[id'].part)
    ensures var s := After(s0, run); var c, c' := s.clients[id], s.clients[id'];
      var p, p' := Place(c.part), Place(c'.part);
      && p' <= |s.openers|
      && (p == p' <==> NoOtherOpens(s.openers, p, p', c.cycle))
      && (p == p' ==> c.rf == c'.rf)
      && (PlaysOn(s, p, p') ==> (c.rf == c'.rf <==> p == p'))
  {
    ReachableInv(s0, run);
    var s := After(s0, run);
    assert CycleInv(s.clients[id], s) && CycleInv(s.clients[id'], s);
    hide Inv, Possible, After, Replay, PlaysOn, NoOtherOpens;
    PlacesShareStart(s, Place(s.clients[id].part), Place(s.clients[id'].part), s.clients[id].cycle);
  }

  lemma PlacesShareStart(s: World, p: nat, p': nat, cycle: nat)
    requires CursorInv(s) && p <= p' <= |s.openers|
    requires Replay(s.origin, s.openers[..p]).lastCycle == cycle
    ensures p == p' <==> NoOtherOpens(s.openers, p, p', cycle)
    ensures PlaysOn(s, p, p') ==>
            (p == p' <==> Replay(s.origin, s.openers[..p]).cycleReadFrame ==
                          Replay(s.origin, s.openers[..p']).cycleReadFrame)
  {
    hide Replay, Decide;
    if p < p' {
      assert OpensAt(s.origin, s.openers, p);
      assert !NoOtherOpens(s.openers, p, p', cycle) by {
        assert s.openers[p].cycle != cycle;
      }
      if PlaysOn(s, p, p') {
        StartsMoveOn(s, p - 1, p' - 1);
      }
    }
  }

  lemma StartsMoveOn(s: World, m: nat, n: nat)
    requires CursorInv(s) && m < n < |s.openers| && PlaysOn(s, m + 1, n + 1)
    ensures StartOf(s.origin, s.openers, m) != StartOf(s.origin, s.openers, n)
  {
    assert OpensAt(s.origin, s.openers, m) && OpensAt(s.origin, s.openers, m + 1);
    OneMoreCall(s.origin, s.openers, m);
    OpeningIsAhead(Replay(s.origin, s.openers[..m]), s.openers[m]);
    LastNumber(s.origin, s.openers[..m + 1]);
    hide CursorInv, Replay, Decide;
    SameStartExactly(s.origin, s.openers, m, n);
  }

  /** If the host never goes back to a cycle number it left, any two calls of one
      number read from the same frame, in every interleaving. */
  lemma GroupedCyclesShareStart(s0: World, run: seq<Action>, id: nat, id': nat)
    requires Init(s0) && Possible(s0, run)
    requires var s := After(s0, run);
      && Reading(s, id) && Reading(s, id') && s.clients[id].cycle == s.clients[id'].cycle
      && Grouped(s.origin, s.openers)
    ensures var s := After(s0, run); s.clients[id].rf == s.clients[id'].rf
  {
    ReachableInv(s0, run);
    var s := After(s0, run);
    var p, p' := Place(s.clients[id].part), Place(s.clients[id'].part);
    assert CycleInv(s.clients[id], s) && CycleInv(s.clients[id'], s);
    hide Inv, Possible, After, Replay, Grouped;
    LastNumber(s.origin, s.openers[..p]);
    LastNumber(s.origin, s.openers[..p']);
    if p < p' {
      NeverReopened(s, p, p');
    } else if p' < p {
      NeverReopened(s, p', p);
    }
  }

  lemma NeverReopened(s: World, p: nat, p': nat)
    requires CursorInv(s) && Grouped(s.origin, s.openers) && p < p' <= |s.openers|
    ensures Previous(s.origin, s.openers[..p], p) != Previous(s.origin, s.openers[..p'], p')
  {
    assert OpensAt(s.origin, s.openers, p' - 1) && !Returns(s.origin, s.openers, p' - 1);
    LastNumber(s.origin, s.openers[..p' - 1]);
    LastNumber(s.origin, s.openers[..p]);
    hide Replay, Grouped, CursorInv;
    NumbersGrow(s.origin, s.openers, p, p' - 1);
  }

  /** What two clients of a cycle are handed. Intact calls with one start frame
      deliver the same frame i, except where it lies past the counter one of them
      loaded and before the other's: there the one that loaded earlier, though it
      may have joined later, gets silence and the other the captured frame. */
  lemma ClientsAgree(s0: World, run: seq<Action>, id: nat, id': nat, i: nat)
    requires Init(s0) && Possible(s0, run)
    requires var s := After(s0, run);
      && Intact(s, id) && Intact(s, id') && s.clients[id].rf == s.clients[id'].rf
      && i < s.clients[id].inFrames && i < s.clients[id'].inFrames
      && s.clients[id].w <= s.clients[id'].w
    ensures var s := After(s0, run); var c, c' := s.clients[id], s.clients[id'];
      && |c.out| == c.inFrames && |c'.out| == c'.inFrames && c.channels == c'.channels
      && if c.w <= c.rf + i < c'.w
         then c.rf + i < |s.seg.frames| && c.out[i] == Silence(c.channels) && c'.out[i] == s.seg.frames[c.rf + i]
         else c.out[i] == c'.out[i]
  {
    ReachableInv(s0, run);
    var s := After(s0, run);
    hide Possible, After, Inv, Intact;
    IntactOutput(s, id);
    IntactOutput(s, id');
    IntactFrame(s, id, i);
    IntactFrame(s, id', i);
  }

  /** The record of calls m..k, replayed from where cycle m found the cursor. */
  lemma ReplaySlice(origin: Cursor, openers: seq<Call>, m: nat, k: nat, n: nat)
    requires m <= k <= |openers| && n <= k - m
    ensures Replay(Replay(origin, openers[..m]), openers[m..k][..n]) == Replay(origin, openers[..m + n])
  {
    assert openers[..m] + openers[m..k][..n] == openers[..m + n];
    ReplayAppend(origin, openers[..m], openers[m..k][..n]);
  }

  lemma {:induction false} AllOpen(c: Cursor, calls: seq<Call>)
    requires forall i :: 0 <= i < |calls| ==> OpensAt(c, calls, i)
    ensures Openers(c, calls) == calls
  {
    if calls != [] {
      var n := |calls| - 1;
      forall i | 0 <= i < n
        ensures OpensAt(c, calls[..n], i)
      {
        assert calls[..n][..i] == calls[..i] && OpensAt(c, calls, i);
      }
      AllOpen(c, calls[..n]);
      assert OpensAt(c, calls, n);
    }
  }

  /** What the cycles m..n moved the cursor by: a buffer each, from where the first
      one starts, which is where the cursor stood if that one does not resync. That
      is a buffer per cycle number of the stretch if and only if no number left is
      gone back to, and more otherwise. */
  predicate MovesPerCycle(s: World, m: nat, n: nat, inFrames: nat)
    requires m < n <= |s.openers|
  {
    var first, at, stretch := StartOf(s.origin, s.openers, m), Replay(s.origin, s.openers[..m]), s.openers[m..n];
    var moved, numbers := Replay(s.origin, s.openers[..n]).readFrame - first, |Numbers(at, stretch)| - 1;
    && moved == Span(n - m, inFrames)
    && (!ResyncsAt(s.origin, s.openers, m) ==> first == at.readFrame)
    && 0 <= numbers && moved >= Span(numbers, inFrames)
    && (Grouped(at, stretch) ==> moved == Span(numbers, inFrames))
    && (inFrames > 0 && moved == Span(numbers, inFrames) ==> Grouped(at, stretch))
  }

  /** However the calls of however many clients interleave: over any stretch of
      cycles with one buffer size of which none but the first resyncs, the cursor
      moves once per cycle. */
  lemma CursorMovesOncePerCycle(s0: World, run: seq<Action>, m: nat, n: nat, inFrames: UInt32)
    requires Init(s0) && Possible(s0, run)
    requires var s := After(s0, run);
      && m < n <= |s.openers|
      && (forall i :: m <= i < n ==> s.openers[i].inFrames == inFrames)
      && forall i :: m < i < n ==> !ResyncsAt(s.origin, s.openers, i)
    ensures var s := After(s0, run);
      s.cursor == Replay(s.origin, s.openers) && MovesPerCycle(s, m, n, inFrames)
  {
    ReachableInv(s0, run);
    var s := After(s0, run);
    assert CursorInv(s);
    CursorIsReplay(s);
    hide Possible, After, Inv, CursorInv, MovesPerCycle;
    StretchMoves(s, m, n, inFrames);
  }

  lemma StretchMoves(s: World, m: nat, n: nat, inFrames: UInt32)
    requires CursorInv(s) && m < n <= |s.openers|
    requires forall i :: m <= i < n ==> s.openers[i].inFrames == inFrames
    requires forall i :: m < i < n ==> !ResyncsAt(s.origin, s.openers, i)
    ensures MovesPerCycle(s, m, n, inFrames)
  {
    hide CursorInv, Replay, Numbers, Grouped, ResyncsAt, StartOf, Span;
    CycleByCycle(s, m, n, inFrames);
    NumberByNumber(s, m, n, inFrames);
  }

  lemma NumberByNumber(s: World, m: nat, n: nat, inFrames: nat)
    requires CursorInv(s) && m <= n <= |s.openers|
    ensures var at, stretch := Replay(s.origin, s.openers[..m]), s.openers[m..n];
      var numbers := |Numbers(at, stretch)| - 1;
      && numbers >= 0
      && Span(n - m, inFrames) >= Span(numbers, inFrames)
      && (Grouped(at, stretch) ==> Span(n - m, inFrames) == Span(numbers, inFrames))
      && (inFrames > 0 && Span(n - m, inFrames) == Span(numbers, inFrames) ==> Grouped(at, stretch))
  {
    hide CursorInv, Replay, Numbers, Grouped;
    NumbersOfStretch(s, m, n);
    Bits.MulOrders(|Numbers(Replay(s.origin, s.openers[..m]), s.openers[m..n])| - 1, n - m, inFrames);
  }

  lemma CursorIsReplay(s: World)
    requires CursorInv(s)
    ensures s.cursor == Replay(s.origin, s.openers)
  {
  }

  lemma NumbersOfStretch(s: World, m: nat, n: nat)
    requires CursorInv(s) && m <= n <= |s.openers|
    ensures var at, stretch := Replay(s.origin, s.openers[..m]), s.openers[m..n];
      && 1 <= |Numbers(at, stretch)| <= n - m + 1
      && (|Numbers(at, stretch)| == n - m + 1 <==> Grouped(at, stretch))
  {
    var at, stretch := Replay(s.origin, s.openers[..m]), s.openers[m..n];
    hide Replay, Numbers, Grouped, Openers, Leads;
    forall i | 0 <= i < |stretch|
      ensures OpensAt(at, stretch, i)
    {
      OpenerOfSlice(s.origin, s.openers, m, n, i);
    }
    AllOpen(at, stretch);
    OpenersPerNumber(at, stretch);
    LastNumber(at, stretch);
  }

  lemma CycleByCycle(s: World, m: nat, n: nat, inFrames: UInt32)
    requires CursorInv(s) && m < n <= |s.openers|
    requires forall i :: m <= i < n ==> s.openers[i].inFrames == inFrames
    requires forall i :: m < i < n ==> !ResyncsAt(s.origin, s.openers, i)
    ensures var first := StartOf(s.origin, s.openers, m);
      && Replay(s.origin, s.openers[..n]).readFrame == first + Span(n - m, inFrames)
      && (!ResyncsAt(s.origin, s.openers, m) ==> first == Replay(s.origin, s.openers[..m]).readFrame)
  {
    var rest := s.openers[m + 1..n];
    FirstOfStretch(s, m);
    hide CursorInv, Replay, ResyncsAt, StartOf;
    assert Replay(s.origin, s.openers[..n]).readFrame ==
           Replay(s.origin, s.openers[..m + 1]).readFrame + Span(n - m - 1, inFrames) by {
      RestOfStretch(s, m + 1, n, inFrames);
    }
    OneMoreBuffer(n - m - 1, inFrames);
  }

  lemma FirstOfStretch(s: World, m: nat)
    requires CursorInv(s) && m < |s.openers|
    ensures var first := StartOf(s.origin, s.openers, m);
      && Replay(s.origin, s.openers[..m + 1]).readFrame == first + s.openers[m].inFrames
      && (!ResyncsAt(s.origin, s.openers, m) ==> first == Replay(s.origin, s.openers[..m]).readFrame)
  {
    assert OpensAt(s.origin, s.openers, m);
    assert s.openers[..m + 1][..m] == s.openers[..m];
  }

  lemma OpenerOfSlice(origin: Cursor, openers: seq<Call>, m: nat, n: nat, i: nat)
    requires m <= n <= |openers| && i < n - m
    ensures var at, slice := Replay(origin, openers[..m]), openers[m..n];
      && OpensAt(at, slice, i) == OpensAt(origin, openers, m + i)
      && ResyncsAt(at, slice, i) == ResyncsAt(origin, openers, m + i)
  {
    ReplaySlice(origin, openers, m, n, i);
    hide Replay;
  }

  lemma RestOfStretch(s: World, m: nat, n: nat, inFrames: UInt32)
    requires CursorInv(s) && m <= n <= |s.openers|
    requires forall i :: m <= i < n ==> s.openers[i].inFrames == inFrames
    requires forall i :: m <= i < n ==> !ResyncsAt(s.origin, s.openers, i)
    ensures Replay(s.origin, s.openers[..n]).readFrame ==
            Replay(s.origin, s.openers[..m]).readFrame + Span(n - m, inFrames)
  {
    hide Replay, Openers, Resyncs, Leads;
    var at, rest := Replay(s.origin, s.openers[..m]), s.openers[m..n];
    forall i | 0 <= i < |rest|
      ensures OpensAt(at, rest, i) && !ResyncsAt(at, rest, i)
    {
      OpenerOfSlice(s.origin, s.openers, m, n, i);
    }
    AllOpen(at, rest);
    assert Steady(at, rest) by {
      assert forall i :: 0 <= i < |rest| ==> !ResyncsAt(at, rest, i) ==> !Resyncs(Replay(at, rest[..i]), rest[i]);
    }
    AdvancesPerOpener(at, rest, inFrames);
    ReplaySlice(s.origin, s.openers, m, n, |rest|);
    assert rest[..|rest|] == rest;
  }

  // ---- silence ----

  /** A frame handed to the first client of a cycle is silence only if the cycle
      resynced before a full depth was written and the frame lies past the head;
      every other frame is the captured one. */
  lemma SilenceInRun(s0: World, run: seq<Action>, id: nat, i: nat)
    requires Init(s0) && Possible(s0, run) && Intact(After(s0, run), id)
    requires var s := After(s0, run); var c := s.clients[id];
      c.session == s.session && c.part.Opened? && i < c.inFrames
    ensures var s := After(s0, run); var c := s.clients[id];
      && |c.out| == c.inFrames && c.part.index < |s.openers|
      && var call := s.openers[c.part.index];
         var resynced := Resyncs(Replay(s.origin, s.openers[..c.part.index]), call);
         if resynced && call.w <= Depth(call.inFrames, call.latency) && i >= call.w
         then c.out[i] == Silence(c.channels)
         else c.rf + i < |s.seg.frames| && c.out[i] == s.seg.frames[c.rf + i]
  {
    ReachableInv(s0, run);
    NoTornOrStaleFrame(s0, run, id);
    var s := After(s0, run);
    var c := s.clients[id];
    assert CycleInv(c, s);
    var n := c.part.index;
    assert s.openers[..n + 1][..n] == s.openers[..n];
    assert OpensAt(s.origin, s.openers, n);
    SilenceExactly(Replay(s.origin, s.openers[..n]), s.openers[n], i);
  }

  // ---- gapless output ----

  /** The calls with these ids opened consecutive cycles m, m+1, ... of the running
      session and returned intact under the current header. */
  predicate Consecutive(s: World, ids: seq<nat>, m: nat) {
    && m + |ids| <= |s.openers|
    && forall i :: 0 <= i < |ids| ==>
         && Intact(s, ids[i])
         && s.clients[ids[i]].session == s.session
         && s.clients[ids[i]].part == Opened(m + i)
  }

  /** What those calls handed out, in order. */
  function Outputs(s: World, ids: seq<nat>, m: nat): (outs: seq<seq<Frame>>)
    requires Consecutive(s, ids, m)
  {
    seq(|ids|, i requires 0 <= i < |ids| => s.clients[ids[i]].out)
  }

  lemma StartOfSlice(origin: Cursor, openers: seq<Call>, m: nat, k: nat, n: nat)
    requires m <= k <= |openers| && n < k - m
    ensures StartOf(Replay(origin, openers[..m]), openers[m..k], n) == StartOf(origin, openers, m + n)
  {
    ReplaySlice(origin, openers, m, k, n + 1);
  }

  lemma OutputOfOpener(s: World, id: nat, n: nat)
    requires Inv(s) && Intact(s, id)
    requires s.clients[id].session == s.session && s.clients[id].part == Opened(n)
    ensures n < |s.openers|
    ensures DeliveredAt(s.origin, s.openers, s.seg.frames, s.seg.channels, n, s.clients[id].out)
  {
    IntactOutput(s, id);
    assert CycleInv(s.clients[id], s);
  }

  lemma OutputOfCycle(s: World, ids: seq<nat>, m: nat, n: nat)
    requires Inv(s) && Consecutive(s, ids, m) && n < |ids|
    ensures DeliveredAt(Replay(s.origin, s.openers[..m]), s.openers[m..m + |ids|], s.seg.frames, s.seg.channels,
                        n, Outputs(s, ids, m)[n])
  {
    hide Inv;
    OutputOfOpener(s, ids[n], m + n);
    StartOfSlice(s.origin, s.openers, m, m + |ids|, n);
  }

  lemma CycleOpens(s: World, i: nat)
    requires Inv(s) && i < |s.openers|
    ensures Leads(Replay(s.origin, s.openers[..i]), s.openers[i])
    ensures i > 0 ==> s.openers[i].cycle != s.openers[i - 1].cycle
  {
    assert OpensAt(s.origin, s.openers, i);
    assert i > 0 ==> s.openers[..i][..i - 1] == s.openers[..i - 1];
  }

  lemma OpenersAreSession(s: World, m: nat, n: nat, inFrames: UInt32, latency: nat)
    requires Inv(s) && m <= n <= |s.openers|
    requires forall i :: m <= i < n ==> s.openers[i].inFrames == inFrames && s.openers[i].latency == latency
    ensures Session(Replay(s.origin, s.openers[..m]), s.openers[m..n], inFrames, latency)
  {
    hide Inv, Replay, Leads;
    var calls := s.openers[m..n];
    if m < n {
      CycleOpens(s, m);
    }
    forall i | 0 < i < |calls|
      ensures calls[i].cycle != calls[i - 1].cycle
    {
      CycleOpens(s, m + i);
    }
  }

  /** The cycles m..n of the record, with the buffer size fixed, start with a
      resync at full depth and keep their drift in the window of the header's latency. */
  predicate InWindow(s: World, m: nat, n: nat, inFrames: UInt32)
    requires m < n <= |s.openers|
  {
    var calls := s.openers[m..n];
    && FreshResync(Replay(s.origin, s.openers[..m]), calls[0])
    && (forall i :: 0 <= i < |calls| ==> calls[i].inFrames == inFrames)
    && forall i :: 0 < i < |calls| ==> DriftFits(Drift(calls, i, inFrames), inFrames, Depth(inFrames, s.seg.latency))
  }

  /** Calls under the current header decided with its latency. */
  lemma HeaderLatency(s: World, ids: seq<nat>, m: nat, i: nat)
    requires Inv(s) && Consecutive(s, ids, m) && i < |ids|
    ensures s.openers[m + i].latency == s.seg.latency
  {
    assert Intact(s, ids[i]);
    assert CycleInv(s.clients[ids[i]], s);
  }

  lemma GaplessOutputs(s: World, ids: seq<nat>, m: nat, inFrames: UInt32)
    requires Inv(s) && ids != [] && inFrames <= RING
    requires Consecutive(s, ids, m) && InWindow(s, m, m + |ids|, inFrames)
    ensures IsSlice(InOrder(Outputs(s, ids, m)), s.seg.frames,
                    s.openers[m].w - Depth(inFrames, s.seg.latency), Span(|ids|, inFrames))
  {
    hide Inv;
    var c, calls := Replay(s.origin, s.openers[..m]), s.openers[m..m + |ids|];
    forall i | 0 <= i < |ids|
      ensures DeliveredAt(c, calls, s.seg.frames, s.seg.channels, i, Outputs(s, ids, m)[i])
    {
      OutputOfCycle(s, ids, m, i);
    }
    OutputsArePlayed(c, calls, s.seg.frames, s.seg.channels, Outputs(s, ids, m));
    assert Session(c, calls, inFrames, s.seg.latency) by {
      forall i | m <= i < m + |ids|
        ensures s.openers[i].inFrames == inFrames && s.openers[i].latency == s.seg.latency
      {
        HeaderLatency(s, ids, m, i - m);
        assert s.openers[i] == calls[i - m];
      }
      OpenersAreSession(s, m, m + |ids|, inFrames, s.seg.latency);
    }
    GaplessOutput(c, calls, inFrames, s.seg.latency, s.seg.frames, s.seg.channels);
  }

  /** Gapless output of the whole path: from a cycle that resynced at full depth
      on, while the drift stays in its window, what the first clients of the
      cycles received is one unbroken slice of what the daemon captured. */
  lemma GaplessInRun(s0: World, run: seq<Action>, ids: seq<nat>, m: nat, inFrames: UInt32)
    requires Init(s0) && Possible(s0, run) && ids != [] && inFrames <= RING
    requires var s := After(s0, run);
      Consecutive(s, ids, m) && InWindow(s, m, m + |ids|, inFrames)
    ensures var s := After(s0, run);
      IsSlice(InOrder(Outputs(s, ids, m)), s.seg.frames,
              s.openers[m].w - Depth(inFrames, s.seg.latency), Span(|ids|, inFrames))
  {
    hide Inv;
    ReachableInv(s0, run);
    GaplessOutputs(After(s0, run), ids, m, inFrames);
  }

  /** The trailing distance over a run: from the last resync r on, cycle n starts
      as far behind the head as the resync left it, plus what was captured and
      less what was consumed since. After a resync at full depth that is the depth
      exactly when the two are equal. */
  lemma TrailingInRun(s0: World, run: seq<Action>, r: nat, n: nat, inFrames: UInt32, latency: nat)
    requires Init(s0) && Possible(s0, run)
    requires var s := After(s0, run);
      && r <= n < |s.openers|
      && (forall i :: r <= i <= n ==> s.openers[i].inFrames == inFrames && s.openers[i].latency == latency)
      && ResyncsAt(s.origin, s.openers, r)
      && forall i :: r < i <= n ==> !ResyncsAt(s.origin, s.openers, i)
    ensures var s := After(s0, run);
      var gap, depth := s.openers[n].w - StartOf(s.origin, s.openers, n), Depth(inFrames, latency);
      var produced := s.openers[n].w - s.openers[r].w - Span(n - r, inFrames);
      && gap == (if s.openers[r].w < depth then s.openers[r].w else depth) + produced
      && (s.openers[r].w >= depth ==> (gap == depth <==> produced == 0))
  {
    hide Inv, Replay, Session, StartOf, ResyncsAt, Depth, Next;
    ReachableInv(s0, run);
    var s := After(s0, run);
    var at, calls := Replay(s.origin, s.openers[..r]), s.openers[r..n + 1];
    OpenersAreSession(s, r, n + 1, inFrames, latency);
    OpenerOfSlice(s.origin, s.openers, r, n + 1, 0);
    forall i | 0 < i <= n - r
      ensures !ResyncsAt(at, calls, i)
    {
      OpenerOfSlice(s.origin, s.openers, r, n + 1, i);
    }
    TrailingDistance(at, calls, inFrames, latency, 0, n - r);
    StartOfSlice(s.origin, s.openers, r, n + 1, n - r);
  }

  /** Resyncs over a run: a stretch of cycles with fixed buffer size and latency,
      once past a full depth, pays at least the slack in drift for each but one. */
  lemma DiscontinuityInRun(s0: World, run: seq<Action>, m: nat, n: nat, inFrames: UInt32, latency: nat)
    requires Init(s0) && Possible(s0, run)
    requires inFrames <= MAX_BUFFER && MIN_LATENCY <= latency <= MAX_LATENCY
    requires var s := After(s0, run);
      && m < n <= |s.openers|
      && forall i :: m <= i < n ==>
           && s.openers[i].inFrames == inFrames && s.openers[i].latency == latency
           && s.openers[i].w > Depth(inFrames, latency)
    ensures var s := After(s0, run);
      (Resynced(Replay(s.origin, s.openers[..m]), s.openers[m..n]) - 1) * Slack(inFrames, Depth(inFrames, latency))
      <= Wander(s.openers[m].w, s.openers[m + 1..n], inFrames)
    ensures Slack(inFrames, Depth(inFrames, latency)) >= 1
  {
    hide Inv;
    ReachableInv(s0, run);
    var s := After(s0, run);
    OpenersAreSession(s, m, n, inFrames, latency);
    assert s.openers[m..n][1..] == s.openers[m + 1..n];
    assert forall i :: 0 <= i < n - m ==> s.openers[m..n][i] == s.openers[m + i];
    DiscontinuityBudget(Replay(s.origin, s.openers[..m]), s.openers[m..n], inFrames, latency);
  }
}
