// Calls that a header rewrite overlaps: what they read while the daemon restarts
// or comes back for another device.
module Restarts {
  import opened Ring
  import opened Interleaving
  import opened AudioPath
  import opened Guarantees

  // ---- eras ----

  function EraAt(seg: Segment, e: nat): Era
    requires e <= |seg.past|
  {
    if e < |seg.past| then seg.past[e] else CurrentEra(seg)
  }

  /** From era e on, frames were captured under this channel count only. */
  predicate OneStride(seg: Segment, e: nat, channels: nat) {
    forall j :: e <= j <= |seg.past| && EraAt(seg, j).frames != [] ==> EraAt(seg, j).channels == channels
  }

  /** v is channel `ch` of frame k of era j, which shares its slots with frame `src`. */
  predicate ReadsEra(seg: Segment, src: nat, ch: nat, v: int, j: nat, k: nat) {
    && j <= |seg.past|
    && k < |EraAt(seg, j).frames| && k % RING == src % RING
    && ch < |EraAt(seg, j).frames[k]| && EraAt(seg, j).frames[k][ch] == v
  }

  /** v is channel `ch` of a frame captured in era e or later. */
  ghost predicate FromEras(seg: Segment, e: nat, src: nat, ch: nat, v: int) {
    exists j: nat, k: nat :: e <= j && ReadsEra(seg, src, ch, v, j, k)
  }

  predicate EraOk(era: Era) {
    && ValidChannels(era.channels) && Shaped(era.frames, era.channels)
    && era.published <= |era.frames|
    && era.frames <= AllInputFrames(era.inputs, era.channels)
  }

  /** A sample the counter of past era e counted, with one stride since. */
  predicate CountedThen(seg: Segment, e: nat, src: nat, ch: nat)
    requires e < |seg.past|
  {
    src < seg.past[e].published && ch < seg.past[e].channels && OneStride(seg, e, seg.past[e].channels)
  }

  ghost predicate SlotKept(seg: Segment, e: nat, src: nat, ch: nat)
    requires SegmentShape(seg) && e < |seg.past|
    requires ValidChannels(seg.past[e].channels) && ch < seg.past[e].channels
  {
    SlotInBounds(src, seg.past[e].channels, ch);
    FromEras(seg, e, src, ch, seg.ring[Slot(src, seg.past[e].channels, ch)])
  }

  ghost predicate ErasInv(seg: Segment)
    requires SegmentShape(seg)
  {
    && (forall e :: 0 <= e < |seg.past| ==> EraOk(seg.past[e]))
    && -1 <= seg.counted <= |seg.past|
    && (seg.producer.Creating? <==> seg.counted < |seg.past|)
    && (0 <= seg.counted < |seg.past| ==> seg.past[seg.counted].published == seg.w)
    && forall e: nat, src: nat, ch: nat :: e < |seg.past| && CountedThen(seg, e, src, ch) ==> SlotKept(seg, e, src, ch)
  }

  // ---- the eras only grow ----

  predicate EraGrows(a: Era, b: Era) {
    a.channels == b.channels && a.inputs <= b.inputs && a.frames <= b.frames && a.published <= b.published
  }

  lemma ErasGrow(seg: Segment, a: Action, e: nat)
    requires SegmentInv(seg) && ProducerAction(a) && SegmentEnabled(seg, a) && e <= |seg.past|
    ensures var seg' := SegmentNext(seg, a);
      |seg.past| <= |seg'.past| && EraGrows(EraAt(seg, e), EraAt(seg', e))
  {
  }

  lemma StrideBefore(seg: Segment, a: Action, e: nat, channels: nat)
    requires SegmentInv(seg) && ProducerAction(a) && SegmentEnabled(seg, a)
    requires OneStride(SegmentNext(seg, a), e, channels)
    ensures OneStride(seg, e, channels)
  {
    var seg' := SegmentNext(seg, a);
    forall j | e <= j <= |seg.past| && EraAt(seg, j).frames != []
      ensures EraAt(seg, j).channels == channels
    {
      ErasGrow(seg, a, j);
      assert EraAt(seg', j).frames != [];
    }
  }

  lemma FromErasStays(seg: Segment, a: Action, e: nat, src: nat, ch: nat, v: int)
    requires SegmentInv(seg) && ProducerAction(a) && SegmentEnabled(seg, a)
    requires FromEras(seg, e, src, ch, v)
    ensures FromEras(SegmentNext(seg, a), e, src, ch, v)
  {
    var j: nat, k: nat :| e <= j && ReadsEra(seg, src, ch, v, j, k);
    ErasGrow(seg, a, j);
    assert ReadsEra(SegmentNext(seg, a), src, ch, v, j, k);
  }

  lemma CurrentEraOk(seg: Segment)
    requires SegmentInv(seg)
    ensures EraOk(CurrentEra(seg))
  {
    BegunFramesAreInputs(seg);
  }

  /** A published sample of the current era is in its slot, or a later one over it. */
  lemma CurrentSlot(seg: Segment, src: nat, ch: nat)
    requires SegmentInv(seg) && !seg.producer.Creating? && src < seg.w && ch < seg.channels
    ensures Slot(src, seg.channels, ch) < RING_SAMPLES
    ensures FromEras(seg, |seg.past|, src, ch, seg.ring[Slot(src, seg.channels, ch)])
  {
    SlotHoldsLatest(seg, src, ch);
    var n := SamplesWritten(seg, ch);
    LatestExactly(src, n, LatestAt(src, n));
    assert ReadsEra(seg, src, ch, seg.ring[Slot(src, seg.channels, ch)], |seg.past|, LatestAt(src, n));
  }

  /** The heart of the matter: across restarts a counted slot is only ever
      overwritten by the same channel of a frame of its place in the ring. */
  lemma SlotStaysKept(seg: Segment, a: Action, e: nat, src: nat, ch: nat)
    requires SegmentInv(seg) && ErasInv(seg) && ProducerAction(a) && SegmentEnabled(seg, a)
    requires var seg' := SegmentNext(seg, a); e < |seg'.past| && CountedThen(seg', e, src, ch)
    ensures var seg' := SegmentNext(seg, a); EraOk(seg'.past[e]) && SlotKept(seg', e, src, ch)
  {
    var seg' := SegmentNext(seg, a);
    CurrentEraOk(seg);
    var channels := seg'.past[e].channels;
    assert EraOk(seg'.past[e]);
    SlotInBounds(src, channels, ch);
    var x := Slot(src, channels, ch);
    if e == |seg.past| {
      CurrentSlot(seg, src, ch);
      FromErasStays(seg, a, e, src, ch, seg.ring[x]);
    } else {
      StrideBefore(seg, a, e, channels);
      assert CountedThen(seg, e, src, ch) && SlotKept(seg, e, src, ch);
      if seg'.ring[x] == seg.ring[x] {
        FromErasStays(seg, a, e, src, ch, seg.ring[x]);
      } else {
        Overwritten(seg, a, e, src, ch);
      }
    }
  }

  lemma Overwritten(seg: Segment, a: Action, e: nat, src: nat, ch: nat)
    requires SegmentInv(seg) && ErasInv(seg) && ProducerAction(a) && SegmentEnabled(seg, a)
    requires var seg' := SegmentNext(seg, a);
      && e < |seg.past| && e < |seg'.past| && CountedThen(seg', e, src, ch)
      && ValidChannels(seg'.past[e].channels)
      && Slot(src, seg'.past[e].channels, ch) < RING_SAMPLES
      && seg'.ring[Slot(src, seg'.past[e].channels, ch)] != seg.ring[Slot(src, seg'.past[e].channels, ch)]
    ensures var seg' := SegmentNext(seg, a); SlotKept(seg', e, src, ch)
  {
    var seg' := SegmentNext(seg, a);
    assert a == WriteSample;
    NewestFrame(seg);
    var Pushing(next, done, todo) := seg.producer;
    assert EraAt(seg', |seg'.past|).frames != [];
    SlotInjective(src, next, seg.channels, ch, done);
    assert ReadsEra(seg', src, ch, todo[0][done], |seg'.past|, next);
  }

  lemma ErasStep(seg: Segment, a: Action)
    requires SegmentInv(seg) && ErasInv(seg) && ProducerAction(a) && SegmentEnabled(seg, a)
    ensures ErasInv(SegmentNext(seg, a))
  {
    var seg' := SegmentNext(seg, a);
    CurrentEraOk(seg);
    forall e: nat, src: nat, ch: nat | e < |seg'.past| && CountedThen(seg', e, src, ch)
      ensures EraOk(seg'.past[e]) && SlotKept(seg', e, src, ch)
    {
      SlotStaysKept(seg, a, e, src, ch);
    }
  }
  // ---- what a call reads ----

  /** Sample v, delivered as channel `ch` of frame i: of a frame captured since the
      counter was counted, or silence past it. */
  ghost predicate SampleFrom(seg: Segment, c: Client, i: nat, ch: nat, v: int)
    requires (c.Copying? || c.Finished?) && c.counted >= 0
  {
    if c.rf + i < c.w then FromEras(seg, c.counted, c.rf + i, ch, v) else v == 0
  }

  ghost predicate RowFrom(seg: Segment, c: Client, i: nat, row: Frame)
    requires (c.Copying? || c.Finished?) && c.counted >= 0
  {
    forall ch :: 0 <= ch < |row| ==> SampleFrom(seg, c, i, ch, row[ch])
  }

  ghost predicate OutputFrom(seg: Segment, c: Client)
    requires (c.Copying? || c.Finished?) && c.counted >= 0
  {
    && (forall i :: 0 <= i < |c.out| ==> RowFrom(seg, c, i, c.out[i]))
    && (c.Copying? ==> RowFrom(seg, c, |c.out|, c.row))
  }

  /** What the call reads was written in eras of the channel count it reads with. */
  predicate KnownStride(seg: Segment, c: Client)
    requires !c.Entered?
  {
    c.counted >= 0 && OneStride(seg, c.counted, c.channels)
  }

  ghost predicate EraClient(c: Client, seg: Segment) {
    && (c.Copying? || c.Finished? ==> forall i :: 0 <= i < |c.out| ==> |c.out[i]| == c.channels)
    && (!c.Entered? ==>
          && -1 <= c.counted <= |seg.past|
          && (c.counted >= 0 ==> c.w <= EraAt(seg, c.counted).published)
          && (Undisturbed(c, seg) ==> c.counted == |seg.past|)
          && ((c.Copying? || c.Finished?) && KnownStride(seg, c) ==> OutputFrom(seg, c)))
  }

  ghost predicate RestartInv(s: World) {
    && Inv(s)
    && ErasInv(s.seg)
    && forall id :: id in s.clients ==> EraClient(s.clients[id], s.seg)
  }

  lemma RowFromStays(seg: Segment, a: Action, c: Client, i: nat, row: Frame)
    requires SegmentInv(seg) && ProducerAction(a) && SegmentEnabled(seg, a)
    requires (c.Copying? || c.Finished?) && c.counted >= 0 && RowFrom(seg, c, i, row)
    ensures RowFrom(SegmentNext(seg, a), c, i, row)
  {
    forall ch | 0 <= ch < |row|
      ensures SampleFrom(SegmentNext(seg, a), c, i, ch, row[ch])
    {
      assert SampleFrom(seg, c, i, ch, row[ch]);
      if c.rf + i < c.w {
        FromErasStays(seg, a, c.counted, c.rf + i, ch, row[ch]);
      }
    }
  }

  lemma ProducerKeepsEraClient(c: Client, seg: Segment, a: Action)
    requires SegmentInv(seg) && ClientInv(c, seg) && EraClient(c, seg)
    requires ProducerAction(a) && SegmentEnabled(seg, a)
    ensures EraClient(c, SegmentNext(seg, a))
  {
    if !c.Entered? && c.counted >= 0 {
      var seg' := SegmentNext(seg, a);
      ErasGrow(seg, a, c.counted);
      if (c.Copying? || c.Finished?) && KnownStride(seg', c) {
        StrideBefore(seg, a, c.counted, c.channels);
        hide SegmentNext, SegmentInv, ClientInv, RowFrom, OneStride;
        forall i | 0 <= i < |c.out|
          ensures RowFrom(seg', c, i, c.out[i])
        {
          RowFromStays(seg, a, c, i, c.out[i]);
        }
        if c.Copying? {
          RowFromStays(seg, a, c, |c.out|, c.row);
        }
      }
    }
  }

  /** The slot of a counted frame, read with the stride it was written with. */
  lemma CountedSlot(seg: Segment, e: nat, src: nat, channels: nat, ch: nat)
    requires SegmentInv(seg) && ErasInv(seg) && e <= |seg.past|
    requires src < EraAt(seg, e).published && OneStride(seg, e, channels)
    requires ValidChannels(channels) && ch < channels
    ensures Slot(src, channels, ch) < RING_SAMPLES
    ensures FromEras(seg, e, src, ch, seg.ring[Slot(src, channels, ch)])
  {
    SlotInBounds(src, channels, ch);
    assert EraAt(seg, e).frames != [] && EraAt(seg, e).channels == channels by {
      CurrentEraOk(seg);
      assert EraOk(EraAt(seg, e));
    }
    if e == |seg.past| {
      CurrentSlot(seg, src, ch);
    } else {
      assert CountedThen(seg, e, src, ch) && SlotKept(seg, e, src, ch);
    }
  }

  lemma CountedOf(c: Client, seg: Segment)
    requires SegmentInv(seg) && ClientInv(c, seg) && EraClient(c, seg) && c.Copying? && KnownStride(seg, c)
    ensures SegmentShape(seg) && ValidChannels(c.channels) && |c.row| < c.channels
    ensures 0 <= c.counted <= |seg.past| && c.w <= EraAt(seg, c.counted).published
    ensures OneStride(seg, c.counted, c.channels)
  {
  }

  lemma ReadIs(seg: Segment, c: Client)
    requires SegmentShape(seg) && ValidChannels(c.channels) && c.Copying? && |c.row| < c.channels
    ensures Slot(c.rf + |c.out|, c.channels, |c.row|) < RING_SAMPLES == |seg.ring|
    ensures Read(seg, c) ==
            if c.rf + |c.out| < c.w then seg.ring[Slot(c.rf + |c.out|, c.channels, |c.row|)] else 0
  {
    SlotInBounds(c.rf + |c.out|, c.channels, |c.row|);
  }

  lemma ReadIsFrom(seg: Segment, c: Client)
    requires SegmentInv(seg) && ErasInv(seg) && ClientInv(c, seg) && EraClient(c, seg)
    requires c.Copying? && KnownStride(seg, c)
    ensures SampleFrom(seg, c, |c.out|, |c.row|, Read(seg, c))
  {
    hide *;
    CountedOf(c, seg);
    ReadIs(seg, c);
    var e: nat, src := c.counted, c.rf + |c.out|;
    if src < c.w {
      CountedSlot(seg, e, src, c.channels, |c.row|);
    }
    FoldSample(seg, c, e, src, |c.row|, Read(seg, c));
  }

  lemma FoldSample(seg: Segment, c: Client, e: nat, src: nat, ch: nat, v: int)
    requires c.Copying? && e == c.counted && src == c.rf + |c.out|
    requires if src < c.w then FromEras(seg, e, src, ch, v) else v == 0
    ensures SampleFrom(seg, c, |c.out|, ch, v)
  {
  }

  lemma CopyKeepsEraClient(s: World, c: Client)
    requires SegmentInv(s.seg) && ErasInv(s.seg) && ClientInv(c, s.seg) && EraClient(c, s.seg)
    requires c.Copying? && |c.out| < c.inFrames
    ensures EraClient(Copy(s, c), s.seg)
  {
    CopyAppends(s, c);
    hide SegmentInv, ErasInv, Copy, Read, OneStride, SampleFrom, OutputFrom;
    if KnownStride(s.seg, c) {
      ReadIsFrom(s.seg, c);
      OutputFromGrows(s.seg, c, Copy(s, c), Read(s.seg, c));
    }
  }

  lemma OutputFromGrows(seg: Segment, c: Client, c': Client, v: int)
    requires c.Copying? && c'.Copying? && Appended(c, c', v) && |c.row| < c.channels && c.counted >= 0
    requires OutputFrom(seg, c) && SampleFrom(seg, c, |c.out|, |c.row|, v)
    ensures OutputFrom(seg, c')
  {
    hide FromEras;
    var row := c.row + [v];
    assert RowFrom(seg, c', |c.out|, row) by {
      assert RowFrom(seg, c, |c.out|, c.row);
      assert forall ch :: 0 <= ch < |c.row| ==> SampleFrom(seg, c, |c.out|, ch, c.row[ch]) && row[ch] == c.row[ch];
    }
    forall i | 0 <= i < |c.out|
      ensures RowFrom(seg, c', i, c.out[i])
    {
      assert RowFrom(seg, c, i, c.out[i]);
      assert forall ch :: 0 <= ch < |c.out[i]| ==> SampleFrom(seg, c, i, ch, c.out[i][ch]);
    }
  }

  lemma ReturnKeepsEraClient(s: World, c: Client)
    requires EraClient(c, s.seg) && c.Copying?
    ensures EraClient(Return(s, c), s.seg)
  {
    var c' := Return(s, c);
    if KnownStride(s.seg, c) {
      hide FromEras;
      forall i | 0 <= i < |c'.out|
        ensures RowFrom(s.seg, c', i, c'.out[i])
      {
        assert RowFrom(s.seg, c, i, c.out[i]);
        assert forall ch :: 0 <= ch < |c.out[i]| ==> SampleFrom(s.seg, c, i, ch, c.out[i][ch]);
      }
    }
  }

  lemma PluginKeepsEraClient(s: World, a: Action, id: nat)
    requires RestartInv(s) && Enabled(s, a) && !ProducerAction(a) && id in Next(s, a).clients
    ensures EraClient(Next(s, a).clients[id], s.seg)
  {
    var s' := Next(s, a);
    if id in s.clients && s'.clients[id] != s.clients[id] {
      var c := s.clients[id];
      assert EraClient(c, s.seg) && ClientInv(c, s.seg);
      match a {
        case LoadCounter(_) =>
        case DecideStart(_) =>
        case CopySample(_) => CopyKeepsEraClient(s, c);
        case Finish(_) => ReturnKeepsEraClient(s, c);
      }
    }
  }

  lemma RestartStep(s: World, a: Action)
    requires RestartInv(s) && Enabled(s, a)
    ensures RestartInv(Next(s, a))
  {
    StepInv(s, a);
    var s' := Next(s, a);
    if ProducerAction(a) {
      ErasStep(s.seg, a);
      forall id | id in s'.clients
        ensures EraClient(s'.clients[id], s'.seg)
      {
        assert ClientInv(s.clients[id], s.seg) && EraClient(s.clients[id], s.seg);
        ProducerKeepsEraClient(s.clients[id], s.seg, a);
      }
    } else {
      forall id | id in s'.clients
        ensures EraClient(s'.clients[id], s'.seg)
      {
        PluginKeepsEraClient(s, a, id);
      }
    }
  }

  lemma {:induction false} RestartRunInv(s: World, run: seq<Action>)
    requires RestartInv(s) && Possible(s, run)
    ensures RestartInv(After(s, run))
    decreases |run|
  {
    if run != [] {
      RestartStep(s, run[0]);
      RestartRunInv(Next(s, run[0]), run[1..]);
    }
  }
  lemma ReachableRestartInv(s0: World, run: seq<Action>)
    requires Init(s0) && Possible(s0, run)
    ensures RestartInv(After(s0, run))
  {
    InitInv(s0);
    RestartRunInv(s0, run);
  }

  // ---- channels survive restarts that keep the channel count ----

  ghost predicate InSomeEra(seg: Segment, input: Input) {
    exists e: nat :: e <= |seg.past| && input in EraAt(seg, e).inputs
  }

  lemma StepTakesInput(s: World, a: Action, input: Input)
    requires Shape(s) && Enabled(s, a) && InSomeEra(Next(s, a).seg, input)
    ensures InSomeEra(s.seg, input) || a == PushStart(input)
  {
    var seg' := Next(s, a).seg;
    var e: nat :| e <= |seg'.past| && input in EraAt(seg', e).inputs;
    assert e <= |s.seg.past| && a != PushStart(input) ==> input in EraAt(s.seg, e).inputs;
  }

  lemma {:induction false} EraInputsComeFromRun(s: World, run: seq<Action>, input: Input)
    requires Shape(s) && Possible(s, run) && InSomeEra(After(s, run).seg, input)
    ensures InSomeEra(s.seg, input) || PushStart(input) in run
    decreases |run|
  {
    if run != [] {
      EraInputsComeFromRun(Next(s, run[0]), run[1..], input);
      if InSomeEra(Next(s, run[0]).seg, input) {
        StepTakesInput(s, run[0], input);
      }
    }
  }

  lemma EraSource(era: Era, k: nat) returns (input: Input, f: nat)
    requires EraOk(era) && k < |era.frames|
    ensures input in era.inputs && f < |InputFrames(input, era.channels)|
    ensures era.frames[k] == InputFrames(input, era.channels)[f]
  {
    var n;
    n, f := Source(era.inputs, era.channels, k);
    input := era.inputs[n];
  }

  /** The era and frame a delivered sample comes from, in an era of the call's own
      channel count. */
  lemma ClientEra(c: Client, seg: Segment, i: nat, ch: nat) returns (j: nat, k: nat)
    requires SegmentShape(seg) && ClientInv(c, seg) && EraClient(c, seg) && c.Finished? && KnownStride(seg, c)
    requires i < c.inFrames && c.rf + i < c.w && ch < c.channels
    ensures |c.out| == c.inFrames && |c.out[i]| == c.channels
    ensures 0 <= c.counted <= j <= |seg.past| && ReadsEra(seg, c.rf + i, ch, c.out[i][ch], j, k)
    ensures EraAt(seg, j).frames != [] && OneStride(seg, c.counted, c.channels)
  {
    assert RowFrom(seg, c, i, c.out[i]);
    assert SampleFrom(seg, c, i, ch, c.out[i][ch]);
    j, k :| c.counted <= j && ReadsEra(seg, c.rf + i, ch, c.out[i][ch], j, k);
  }

  lemma SampleEra(s: World, id: nat, i: nat, ch: nat) returns (j: nat, k: nat)
    requires RestartInv(s) && id in s.clients && s.clients[id].Finished? && KnownStride(s.seg, s.clients[id])
    requires var c := s.clients[id]; i < c.inFrames && c.rf + i < c.w && ch < c.channels
    ensures var c := s.clients[id];
      && |c.out| == c.inFrames && |c.out[i]| == c.channels
      && c.counted <= j && ReadsEra(s.seg, c.rf + i, ch, c.out[i][ch], j, k)
      && EraAt(s.seg, j).channels == c.channels && EraOk(EraAt(s.seg, j))
  {
    hide ErasInv, ClientInv, EraClient, KnownStride, ReadsEra, EraOk;
    j, k := ClientEra(s.clients[id], s.seg, i, ch);
    EveryEraOk(s.seg, j);
  }

  lemma EveryEraOk(seg: Segment, e: nat)
    requires SegmentInv(seg) && ErasInv(seg) && e <= |seg.past|
    ensures EraOk(EraAt(seg, e))
  {
    CurrentEraOk(seg);
  }

  /** Any call, whatever header rewrites overlap it: if the counter it loaded was
      counted in this run and frames were captured under its own channel count
      only since then, each non-silent sample of channel ch is channel ch of one
      whole frame inside a single packet the daemon was given. */
  lemma ChannelsSurviveRestarts(s0: World, run: seq<Action>, id: nat, i: nat, ch: nat)
    returns (input: Input, f: nat)
    requires Init(s0) && Possible(s0, run)
    requires var s := After(s0, run);
      && id in s.clients && s.clients[id].Finished? && KnownStride(s.seg, s.clients[id])
      && var c := s.clients[id]; i < c.inFrames && c.rf + i < c.w && ch < c.channels
    ensures var c := After(s0, run).clients[id];
      && |c.out| == c.inFrames && |c.out[i]| == c.channels
      && PushStart(input) in run
      && CameFrom(c.out[i][ch], ch, input, f, c.channels)
  {
    ReachableRestartInv(s0, run);
    var s := After(s0, run);
    var j, k := SampleEra(s, id, i, ch);
    input, f := EraSource(EraAt(s.seg, j), k);
    assert InSomeEra(s.seg, input);
    EraInputsComeFromRun(s0, run, input);
    assert !InSomeEra(s0.seg, input);
    FrameCameFrom(input, s.clients[id].channels, f, ch);
  }

  /** A call no rewrite overlaps is one of them. */
  lemma CurrentIsKnown(s0: World, run: seq<Action>, id: nat)
    requires Init(s0) && Possible(s0, run) && Current(After(s0, run), id)
    ensures KnownStride(After(s0, run).seg, After(s0, run).clients[id])
  {
    ReachableRestartInv(s0, run);
    var s := After(s0, run);
    assert ClientInv(s.clients[id], s.seg) && EraClient(s.clients[id], s.seg);
  }
  // ---- restarts on one device ----

  /** Every header so far carried this channel count, and every call read it. */
  predicate AllHeaders(s: World, channels: nat) {
    && s.seg.channels == channels
    && (forall e :: 0 <= e < |s.seg.past| ==> s.seg.past[e].channels == channels)
    && forall id :: id in s.clients ==> s.clients[id].channels == channels
  }

  predicate OnlyHeaders(run: seq<Action>, channels: nat) {
    forall a :: a in run && a.CreateStart? ==> a.channels == channels
  }

  lemma StepKeepsHeaders(s: World, a: Action, channels: nat)
    requires Shape(s) && Enabled(s, a) && AllHeaders(s, channels)
    requires a.CreateStart? ==> a.channels == channels
    ensures AllHeaders(Next(s, a), channels)
  {
  }

  lemma {:induction false} RunKeepsHeaders(s: World, run: seq<Action>, channels: nat)
    requires Shape(s) && Possible(s, run) && AllHeaders(s, channels) && OnlyHeaders(run, channels)
    ensures AllHeaders(After(s, run), channels)
    decreases |run|
  {
    if run != [] {
      assert run[0] in run;
      StepKeepsHeaders(s, run[0], channels);
      RunKeepsHeaders(Next(s, run[0]), run[1..], channels);
    }
  }

  /** The call has not loaded its counter. */
  predicate NotLoaded(s: World, id: nat) { id in s.clients ==> s.clients[id].Entered? }

  /** The counter, and the one the call loaded, were counted in this run. */
  predicate CountsOurs(s: World, id: nat) {
    && s.seg.counted >= 0
    && (id in s.clients && !s.clients[id].Entered? ==> s.clients[id].counted >= 0)
  }

  lemma {:induction false} CountsFromThen(s: World, run: seq<Action>, id: nat)
    requires Shape(s) && Possible(s, run) && CountsOurs(s, id)
    ensures CountsOurs(After(s, run), id)
    decreases |run|
  {
    if run != [] {
      CountsFromThen(Next(s, run[0]), run[1..], id);
    }
  }

  lemma {:induction false} CreatedBeforeLoad(s: World, run: seq<Action>, id: nat)
    requires Shape(s) && Possible(s, run) && NotLoaded(s, id)
    requires CreateEnd in run && LoadCounter(id) !in run
    ensures CountsOurs(After(s, run), id)
    decreases |run|
  {
    var s1 := Next(s, run[0]);
    assert NotLoaded(s1, id);
    if run[0] == CreateEnd {
      CountsFromThen(s1, run[1..], id);
    } else {
      CreatedBeforeLoad(s1, run[1..], id);
    }
  }

  /** A daemon that restarts on the same device, at any moment and any number of
      times, never rotates the channels of a call that loads the counter after the
      first header was completed, even of a call that the rewrites overlap. */
  lemma SameDeviceRestarts(
      s0: World, before: seq<Action>, since: seq<Action>, channels: nat, id: nat, i: nat, ch: nat)
    returns (input: Input, f: nat)
    requires Init(s0) && Possible(s0, before + since)
    requires s0.seg.channels == channels && OnlyHeaders(before + since, channels)
    requires CreateEnd in before && LoadCounter(id) !in before
    requires var s := After(s0, before + since);
      && id in s.clients && s.clients[id].Finished?
      && var c := s.clients[id]; i < c.inFrames && c.rf + i < c.w && ch < channels
    ensures var c := After(s0, before + since).clients[id];
      && c.channels == channels && |c.out| == c.inFrames && |c.out[i]| == channels
      && PushStart(input) in before + since
      && CameFrom(c.out[i][ch], ch, input, f, channels)
  {
    var s := After(s0, before + since);
    AfterAppend(s0, before, since);
    CreatedBeforeLoad(s0, before, id);
    CountsFromThen(After(s0, before), since, id);
    RunKeepsHeaders(s0, before + since, channels);
    HeadersGiveStride(s, id, channels);
    input, f := ChannelsSurviveRestarts(s0, before + since, id, i, ch);
  }

  lemma HeadersGiveStride(s: World, id: nat, channels: nat)
    requires AllHeaders(s, channels) && CountsOurs(s, id) && id in s.clients && !s.clients[id].Entered?
    ensures s.clients[id].channels == channels && KnownStride(s.seg, s.clients[id])
  {
  }

  // ---- and rotate with the channel count ----

  /** v is channel `ch` of the latest frame stored in the slots of frame `place`. */
  predicate LatestSample(seg: Segment, place: nat, ch: nat, v: int) {
    var n := SamplesWritten(seg, ch);
    && place < n
    && var k := LatestAt(place, n);
       k < |seg.frames| && ch < |seg.frames[k]| == seg.channels && seg.frames[k][ch] == v
  }

  /** v is the sample at the slot of sample `ch` of frame `src`, computed with
      `channels`, among the frames of the current header, whatever its own count:
      the slot's channel, by that count, of the latest frame stored at its place. */
  predicate AtForeignSlot(seg: Segment, src: nat, channels: nat, ch: nat, v: int) {
    var x, stride := Slot(src, channels, ch), seg.channels;
    stride > 0 && LatestSample(seg, PlaceOf(x, stride), ChannelOf(x, stride), v)
  }

  /** That place was published under the current header. */
  predicate PlacePublished(seg: Segment, src: nat, channels: nat, ch: nat) {
    && seg.channels > 0 && !seg.producer.Creating?
    && PlaceOf(Slot(src, channels, ch), seg.channels) < RING
    && PlaceOf(Slot(src, channels, ch), seg.channels) < seg.w
  }

  lemma ForeignSlot(seg: Segment, src: nat, channels: nat, ch: nat)
    requires SegmentInv(seg) && ValidChannels(channels) && ch < channels && PlacePublished(seg, src, channels, ch)
    ensures Slot(src, channels, ch) < RING_SAMPLES
    ensures AtForeignSlot(seg, src, channels, ch, seg.ring[Slot(src, channels, ch)])
  {
    hide Slot, PlaceOf, ChannelOf, LatestSample;
    SlotInBounds(src, channels, ch);
    var x := Slot(src, channels, ch);
    SlotOfPlace(x, seg.channels);
    LatestInSlot(seg, PlaceOf(x, seg.channels), ChannelOf(x, seg.channels));
  }

  lemma LatestInSlot(seg: Segment, place: nat, ch: nat)
    requires SegmentInv(seg) && !seg.producer.Creating? && place < seg.w && ch < seg.channels
    ensures Slot(place, seg.channels, ch) < RING_SAMPLES
    ensures LatestSample(seg, place, ch, seg.ring[Slot(place, seg.channels, ch)])
  {
    SlotHoldsLatest(seg, place, ch);
    hide SegmentInv, LatestAt, SamplesWritten, Slot;
  }

  /** From c to c' a copy step appends the sample that lies at its slot by the
      header's channel count. */
  ghost predicate CopiesForeign(seg: Segment, c: Client, c': Client)
    requires c.Copying?
  {
    c'.Copying? && exists v ::
      AtForeignSlot(seg, c.rf + |c.out|, c.channels, |c.row|, v) && Appended(c, c', v)
  }

  lemma ForeignCopy(s: World, c: Client)
    requires SegmentInv(s.seg) && ValidChannels(c.channels)
    requires c.Copying? && |c.out| < c.inFrames && |c.row| < c.channels && c.rf + |c.out| < c.w
    requires PlacePublished(s.seg, c.rf + |c.out|, c.channels, |c.row|)
    ensures CopiesForeign(s.seg, c, Copy(s, c))
  {
    assert SegmentShape(s.seg);
    hide SegmentInv, AtForeignSlot, PlacePublished, Copy, Appended, Slot;
    ForeignSlot(s.seg, c.rf + |c.out|, c.channels, |c.row|);
    CopyAppends(s, c);
    assert AtForeignSlot(s.seg, c.rf + |c.out|, c.channels, |c.row|, Read(s.seg, c));
  }

  /** A copy under a header of another channel count, exactly: in every reachable
      state it reads the sample that lies at its slot by the header's count. By
      StrideExactly that is its own channel of its own place in the ring exactly if
      the counts agree, or in the first place for a channel the device has. */
  lemma ForeignStride(s0: World, run: seq<Action>, id: nat)
    requires Init(s0) && Possible(s0, run)
    requires var s := After(s0, run);
      && Enabled(s, CopySample(id))
      && var c := s.clients[id];
         c.rf + |c.out| < c.w && PlacePublished(s.seg, c.rf + |c.out|, c.channels, |c.row|)
    ensures var s := After(s0, run); CopiesForeign(s.seg, s.clients[id], Next(s, CopySample(id)).clients[id])
  {
    ReachableInv(s0, run);
    var s := After(s0, run);
    SegmentOfInv(s);
    hide Inv, Possible, After, CopiesForeign, PlacePublished, SegmentInv;
    ForeignCopy(s, s.clients[id]);
  }

  lemma SegmentOfInv(s: World)
    requires Inv(s)
    ensures SegmentInv(s.seg)
  {
  }
}
