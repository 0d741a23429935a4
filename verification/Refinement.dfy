// The step-by-step account and the methods agree: what a push or a copy does when
// nothing interrupts it is what the imperative code is proved to do.
module Refinement {
  import opened Ring
  import opened Framing
  import opened SharedMemory
  import opened ReadCursor
  import opened Interleaving
  import opened AudioPath
  import Plugin

  // ---- the producer ----

  /** The state after n sample writes in a row. */
  predicate CanWrite(s: Segment, n: nat)
    requires SegmentShape(s)
    decreases n, 0
  {
    n > 0 ==> CanWrite(s, n - 1) && SegmentEnabled(Written(s, n - 1), WriteSample)
  }

  function Written(s: Segment, n: nat): (s': Segment)
    requires SegmentShape(s) && CanWrite(s, n)
    ensures SegmentShape(s')
    decreases n, 1
  {
    if n == 0 then s else SegmentNext(Written(s, n - 1), WriteSample)
  }

  lemma {:induction false} WrittenAdds(s: Segment, m: nat, n: nat)
    requires SegmentShape(s) && CanWrite(s, m) && CanWrite(Written(s, m), n)
    ensures CanWrite(s, m + n) && Written(s, m + n) == Written(Written(s, m), n)
    decreases n
  {
    if n > 0 {
      WrittenAdds(s, m, n - 1);
    }
  }

  /** n samples into a frame. */
  lemma {:induction false} PartOfFrame(s: Segment, next: nat, todo: seq<Frame>, n: nat)
    requires SegmentShape(s) && s.producer == Pushing(next, 0, todo)
    requires todo != [] && Shaped(todo, s.channels) && n < s.channels
    ensures CanWrite(s, n)
    ensures Written(s, n) == s.(
      ring := StoreSamples(s.ring, next, s.channels, todo[0], n),
      frames := if n == 0 then s.frames else s.frames + [todo[0]],
      producer := Pushing(next, n, todo))
  {
    if n > 0 {
      PartOfFrame(s, next, todo, n - 1);
    }
  }

  lemma WholeFrame(s: Segment, next: nat, todo: seq<Frame>)
    requires SegmentShape(s) && s.producer == Pushing(next, 0, todo)
    requires todo != [] && Shaped(todo, s.channels)
    ensures CanWrite(s, s.channels)
    ensures Written(s, s.channels) == s.(
      ring := StoreSamples(s.ring, next, s.channels, todo[0], s.channels),
      frames := s.frames + [todo[0]],
      producer := Pushing(next + 1, 0, todo[1..]))
  {
    PartOfFrame(s, next, todo, s.channels - 1);
  }

  /** The first n frames of a push. */
  lemma {:induction false} PartOfPush(s: Segment, w: nat, todo: seq<Frame>, n: nat) returns (steps: nat)
    requires SegmentShape(s) && s.producer == Pushing(w, 0, todo) && Shaped(todo, s.channels) && n <= |todo|
    ensures CanWrite(s, steps)
    ensures Written(s, steps) == s.(
      ring := StoreFrames(s.ring, w, s.channels, todo[..n]),
      frames := s.frames + todo[..n],
      producer := Pushing(w + n, 0, todo[n..]))
  {
    hide SegmentNext, StoreSamples;
    if n == 0 {
      steps := 0;
      assert s.frames + todo[..0] == s.frames && todo[0..] == todo;
    } else {
      var before := PartOfPush(s, w, todo, n - 1);
      WholeFrame(Written(s, before), w + n - 1, todo[n - 1..]);
      WrittenAdds(s, before, s.channels);
      steps := before + s.channels;
      NextOfSeq(todo, n);
      StoreOneMore(s.ring, w, s.channels, todo[..n - 1], todo[n - 1]);
    }
  }

  lemma NextOfSeq<T>(todo: seq<T>, n: nat)
    requires 0 < n <= |todo|
    ensures todo[n - 1..][0] == todo[n - 1] && todo[n - 1..][1..] == todo[n..]
    ensures todo[..n] == todo[..n - 1] + [todo[n - 1]]
  {
  }

  lemma StoreOneMore(ring: seq<int>, w: nat, channels: nat, frames: seq<Frame>, frame: Frame)
    requires |ring| == RING_SAMPLES && ValidChannels(channels) && Shaped(frames, channels) && |frame| == channels
    ensures Shaped(frames + [frame], channels)
    ensures StoreFrames(ring, w, channels, frames + [frame]) ==
            StoreSamples(StoreFrames(ring, w, channels, frames), w + |frames|, channels, frame, channels)
  {
    hide StoreSamples;
    assert (frames + [frame])[..|frames|] == frames;
  }

  /** An uninterrupted push leaves the segment as the push methods do: the frames
      stored in order from the old counter on, the counter advanced past them. */
  lemma UninterruptedPush(s: Segment, input: Input) returns (steps: nat)
    requires SegmentInv(s) && s.producer.Idle?
    ensures var s1 := SegmentNext(s, PushStart(input)); var frames := InputFrames(input, s.channels);
      && CanWrite(s1, steps)
      && var s2 := Written(s1, steps);
         && SegmentEnabled(s2, Publish)
         && SegmentNext(s2, Publish) == s.(
              ring := StoreFrames(s.ring, s.w, s.channels, frames),
              w := s.w + |frames|,
              frames := s.frames + frames,
              inputs := s.inputs + [input])
  {
    var s1, frames := SegmentNext(s, PushStart(input)), InputFrames(input, s.channels);
    steps := PartOfPush(s1, s.w, frames, |frames|);
    assert frames[..|frames|] == frames;
  }

  /** The push of a packet loses nothing: all its whole frames, in order, reach the
      ring, the history and, once published, the counter, as Shm.PushFrames says. */
  lemma PacketPushed(s: Segment, bytes: Packet) returns (steps: nat)
    requires SegmentInv(s) && s.producer.Idle?
    ensures var s1 := SegmentNext(s, PushStart(FromPacket(bytes)));
      && CanWrite(s1, steps) && SegmentEnabled(Written(s1, steps), Publish)
      && var s2 := SegmentNext(Written(s1, steps), Publish);
         && s2 == s.(ring := StoreFrames(s.ring, s.w, s.channels, DecodeFrames(bytes, s.channels)),
                     w := s.w + FramesIn(|bytes|, s.channels),
                     frames := s.frames + DecodeFrames(bytes, s.channels),
                     inputs := s.inputs + [FromPacket(bytes)])
         && PacketLies(s2.frames, s.w, bytes, s.channels)
  {
    DecodedLies(s.frames, bytes, [], s.channels);
    assert s.frames + DecodeFrames(bytes, s.channels) + [] == s.frames + DecodeFrames(bytes, s.channels);
    hide SegmentNext, PacketLies, DecodeFrames, CanWrite, Written;
    steps := UninterruptedPush(s, FromPacket(bytes));
  }

  /** So does the push of a tone: every value on every channel of its frame. */
  lemma TonePushed(s: Segment, values: seq<int>) returns (steps: nat)
    requires SegmentInv(s) && s.producer.Idle?
    ensures var s1 := SegmentNext(s, PushStart(FromTone(values)));
      && CanWrite(s1, steps) && SegmentEnabled(Written(s1, steps), Publish)
      && var s2 := SegmentNext(Written(s1, steps), Publish);
         && s2.ring == StoreFrames(s.ring, s.w, s.channels, ToneFrames(values, s.channels))
         && s2.w == s.w + |values| == |s2.frames|
         && s.frames <= s2.frames
         && forall f :: 0 <= f < |values| ==> s2.frames[s.w + f] == seq(s.channels, _ => values[f])
  {
    hide SegmentNext, CanWrite, Written;
    steps := UninterruptedPush(s, FromTone(values));
  }

  // ---- the header and the clients' count ----

  /** A header rewrite without interruption does what Shm.Create does, from any
      state of the daemon and to any device. */
  lemma UninterruptedCreate(s: World, channels: nat, latencyMs: nat) returns (s': World)
    requires Shape(s) && ValidChannels(channels)
    ensures Reaches(s, [CreateStart(channels, latencyMs), CreateEnd], s')
    ensures s' == s.(seg := s'.seg)
    ensures s'.seg.channels == channels && s'.seg.latency == ClampLatency(latencyMs)
    ensures s'.seg.w == 0 && s'.seg.frames == [] && s'.seg.ring == s.seg.ring && s'.seg.producer == Idle
  {
    var s1 := Next(s, CreateStart(channels, latencyMs));
    s' := Next(s1, CreateEnd);
    hide Next, Enabled;
    assert Reaches(s', [], s');
    TakeStep(s1, CreateEnd, [], s');
    TakeStep(s, CreateStart(channels, latencyMs), [CreateEnd] + [], s');
    assert [CreateStart(channels, latencyMs)] + ([CreateEnd] + []) == [CreateStart(channels, latencyMs), CreateEnd];
  }

  /** StartIO and StopIO as the steps have them, and as Hal does: the first client
      puts the cursor at the counter, later ones and leaving ones only count. */
  lemma StartAndStop(s: World)
    requires Shape(s)
    ensures Enabled(s, StartIO) && Enabled(s, StopIO)
    ensures var s' := Next(s, StartIO);
      && s'.cursor == (if s.ioRunning == 0 then Cursor(s.seg.w, s.seg.w, 0xFFFF_FFFF_FFFF_FFFF) else s.cursor)
      && s'.ioRunning == s.ioRunning + 1
      && s'.seg == s.seg && s'.clients == s.clients
    ensures var s' := Next(s, StopIO);
      && s'.cursor == s.cursor && s'.ioRunning == (if s.ioRunning > 0 then s.ioRunning - 1 else 0)
      && s'.seg == s.seg && s'.clients == s.clients
  {
  }

  // ---- the copy loop ----

  /** One frame of output, read from a ring that stands still. */
  function ReadFrame(ring: seq<int>, src: nat, w: nat, channels: nat): (frame: Frame)
    requires |ring| == RING_SAMPLES && ValidChannels(channels)
    ensures |frame| == channels
  {
    seq(channels, ch requires 0 <= ch < channels => ReadSample(ring, src, w, channels, ch))
  }

  function ReadSample(ring: seq<int>, src: nat, w: nat, channels: nat, ch: nat): int
    requires |ring| == RING_SAMPLES && ValidChannels(channels) && ch < channels
  {
    SlotInBounds(src, channels, ch);
    if src < w then ring[Slot(src, channels, ch)] else 0
  }

  /** The call after n copy steps in a row. */
  predicate CanCopy(s: World, c: Client, n: nat)
    requires SegmentShape(s.seg) && ValidChannels(c.channels) && c.Copying?
    decreases n, 0
  {
    n > 0 ==>
      && CanCopy(s, c, n - 1)
      && |Copied(s, c, n - 1).out| < c.inFrames && |Copied(s, c, n - 1).row| < c.channels
  }

  function Copied(s: World, c: Client, n: nat): (c': Client)
    requires SegmentShape(s.seg) && ValidChannels(c.channels) && c.Copying? && CanCopy(s, c, n)
    ensures c'.Copying? && c'.channels == c.channels && c'.inFrames == c.inFrames && c'.w == c.w && c'.rf == c.rf
    decreases n, 1
  {
    if n == 0 then c else Copy(s, Copied(s, c, n - 1))
  }

  lemma {:induction false} CopiedAdds(s: World, c: Client, m: nat, n: nat)
    requires SegmentShape(s.seg) && ValidChannels(c.channels) && c.Copying? && CanCopy(s, c, m)
    requires CanCopy(s, Copied(s, c, m), n)
    ensures CanCopy(s, c, m + n) && Copied(s, c, m + n) == Copied(s, Copied(s, c, m), n)
    decreases n
  {
    if n > 0 {
      CopiedAdds(s, c, m, n - 1);
    }
  }

  /** c' is c with this much output; copying changes nothing else but the mark. */
  predicate Output(c: Client, c': Client, out: seq<Frame>, row: Frame)
    requires c.Copying?
  {
    c'.Copying? && c' == c.(out := out, row := row, lapped := c'.lapped)
  }

  lemma {:induction false} PartOfRow(s: World, c: Client, n: nat)
    requires SegmentShape(s.seg) && ValidChannels(c.channels) && c.Copying?
    requires c.row == [] && |c.out| < c.inFrames && n < c.channels
    ensures CanCopy(s, c, n)
    ensures Output(c, Copied(s, c, n), c.out, ReadFrame(s.seg.ring, c.rf + |c.out|, c.w, c.channels)[..n])
  {
    if n > 0 {
      PartOfRow(s, c, n - 1);
      var frame := ReadFrame(s.seg.ring, c.rf + |c.out|, c.w, c.channels);
      assert frame[..n] == frame[..n - 1] + [frame[n - 1]];
    }
  }

  lemma LastOfRow(s: World, c: Client, frame: Frame)
    requires SegmentShape(s.seg) && ValidChannels(c.channels) && c.Copying? && |c.out| < c.inFrames
    requires frame == ReadFrame(s.seg.ring, c.rf + |c.out|, c.w, c.channels)
    requires c.row == frame[..c.channels - 1]
    ensures Output(c, Copy(s, c), c.out + [frame], [])
  {
    var v := ReadSample(s.seg.ring, c.rf + |c.out|, c.w, c.channels, c.channels - 1);
    assert frame == c.row + [v];
  }

  lemma WholeRow(s: World, c: Client)
    requires SegmentShape(s.seg) && ValidChannels(c.channels) && c.Copying?
    requires c.row == [] && |c.out| < c.inFrames
    ensures CanCopy(s, c, c.channels)
    ensures Output(c, Copied(s, c, c.channels), c.out + [ReadFrame(s.seg.ring, c.rf + |c.out|, c.w, c.channels)], [])
  {
    hide Copy, ReadFrame;
    var frame := ReadFrame(s.seg.ring, c.rf + |c.out|, c.w, c.channels);
    PartOfRow(s, c, c.channels - 1);
    assert Copied(s, c, c.channels) == Copy(s, Copied(s, c, c.channels - 1));
    LastOfRow(s, Copied(s, c, c.channels - 1), frame);
  }

  /** The first n frames of the output, as DoIO fills them in. */
  function ReadFrames(s: Segment, rf: nat, w: nat, channels: nat, n: nat): (out: seq<Frame>)
    requires SegmentShape(s) && ValidChannels(channels)
    ensures |out| == n
  {
    if n == 0 then [] else ReadFrames(s, rf, w, channels, n - 1) + [ReadFrame(s.ring, rf + n - 1, w, channels)]
  }

  lemma {:induction false} ReadFramesAt(s: Segment, rf: nat, w: nat, channels: nat, n: nat, i: nat)
    requires SegmentShape(s) && ValidChannels(channels) && i < n
    ensures ReadFrames(s, rf, w, channels, n)[i] == ReadFrame(s.ring, rf + i, w, channels)
  {
    if i < n - 1 {
      ReadFramesAt(s, rf, w, channels, n - 1, i);
    }
  }

  /** An uninterrupted copy loop produces the output frame by frame. */
  lemma {:induction false} UninterruptedCopy(s: World, c: Client, n: nat) returns (steps: nat)
    requires SegmentShape(s.seg) && ValidChannels(c.channels) && c.Copying?
    requires c.row == [] && c.out == [] && n <= c.inFrames
    ensures CanCopy(s, c, steps)
    ensures Output(c, Copied(s, c, steps), ReadFrames(s.seg, c.rf, c.w, c.channels, n), [])
    decreases n
  {
    hide Copy, ReadFrame;
    if n == 0 {
      steps := 0;
    } else {
      var before := UninterruptedCopy(s, c, n - 1);
      WholeRow(s, Copied(s, c, before));
      CopiedAdds(s, c, before, c.channels);
      steps := before + c.channels;
    }
  }

  /** What DoIO writes to its flat buffer: sample p is channel p % channels of
      frame p / channels of the output. */
  lemma BufferSample(ring: seq<int>, rf: nat, w: nat, channels: nat, i: nat, ch: nat)
    requires |ring| == RING_SAMPLES && ValidChannels(channels) && ch < channels
    ensures Plugin.OutSample(ring, rf, w, channels, i * channels + ch) == ReadFrame(ring, rf + i, w, channels)[ch]
  {
    Plugin.SampleIndex(i, ch, channels);
  }

  /** Sample p of the buffer, in the frames read. */
  predicate BufferAgrees(out: seq<Frame>, ring: seq<int>, rf: nat, w: nat, channels: nat, p: nat)
    requires |ring| == RING_SAMPLES && ValidChannels(channels)
  {
    && p / channels < |out|
    && |out[p / channels]| == channels
    && out[p / channels][p % channels] == Plugin.OutSample(ring, rf, w, channels, p)
  }

  lemma ReadFramesAgree(s: Segment, rf: nat, w: nat, channels: nat, n: nat, p: nat)
    requires SegmentShape(s) && ValidChannels(channels) && p < n * channels
    ensures BufferAgrees(ReadFrames(s, rf, w, channels, n), s.ring, rf, w, channels, p)
  {
    hide ReadFrames, ReadFrame, Plugin.OutSample;
    var i, ch := p / channels, p % channels;
    Plugin.FrameIndex(p, n, channels);
    ReadFramesAt(s, rf, w, channels, n, i);
    BufferSample(s.ring, rf, w, channels, i, ch);
    assert p == i * channels + ch;
  }

  /** The two accounts of one call agree: the output of the copy steps, taken
      without interruption, is sample by sample the buffer DoIO fills. */
  lemma UninterruptedCopyIsDoIO(s: World, c: Client) returns (steps: nat)
    requires SegmentShape(s.seg) && ValidChannels(c.channels) && c.Copying?
    requires c.row == [] && c.out == []
    ensures CanCopy(s, c, steps)
    ensures var c' := Copied(s, c, steps);
      && Output(c, c', c'.out, []) && |c'.out| == c.inFrames
      && forall p: nat :: p < c.inFrames * c.channels ==>
           BufferAgrees(c'.out, s.seg.ring, c.rf, c.w, c.channels, p)
  {
    hide Copied, CanCopy, ReadFrames, BufferAgrees;
    steps := UninterruptedCopy(s, c, c.inFrames);
    forall p: nat | p < c.inFrames * c.channels
      ensures BufferAgrees(Copied(s, c, steps).out, s.seg.ring, c.rf, c.w, c.channels, p)
    {
      ReadFramesAgree(s.seg, c.rf, c.w, c.channels, c.inFrames, p);
    }
  }
  // ---- a whole call ----

  function Repeat(a: Action, n: nat): (run: seq<Action>)
    ensures |run| == n
  {
    seq(n, _ => a)
  }

  lemma CopyStep(s: World, id: nat, c: Client, c': Client)
    requires Shape(s) && id in s.clients && c.Copying? && ValidChannels(c.channels)
    requires s.clients[id] == c && |c.out| < c.inFrames && |c.row| < c.channels && c' == Copy(s, c)
    ensures Reaches(s, [CopySample(id)], s.(clients := s.clients[id := c']))
  {
    var s' := Next(s, CopySample(id));
    TakeStep(s, CopySample(id), [], s');
    assert [CopySample(id)] + [] == [CopySample(id)];
  }

  lemma {:induction false} CopiesInRun(s: World, id: nat, c: Client, n: nat)
    requires Shape(s) && id in s.clients && s.clients[id] == c && c.Copying? && CanCopy(s, c, n)
    ensures Reaches(s, Repeat(CopySample(id), n), s.(clients := s.clients[id := Copied(s, c, n)]))
  {
    hide Reaches;
    if n == 0 {
      assert s.clients[id := c] == s.clients;
      StaysThere(s);
      assert Repeat(CopySample(id), 0) == [];
    } else {
      CopiesInRun(s, id, c, n - 1);
      var c1 := Copied(s, c, n - 1);
      var s1 := s.(clients := s.clients[id := c1]);
      ShapeOf(s, Repeat(CopySample(id), n - 1), s1);
      SameCopy(s, s1, c1);
      CopyStep(s1, id, c1, Copied(s, c, n));
      var s2 := s1.(clients := s1.clients[id := Copied(s, c, n)]);
      JoinRuns(s, Repeat(CopySample(id), n - 1), s1, [CopySample(id)], s2);
      assert Repeat(CopySample(id), n) == Repeat(CopySample(id), n - 1) + [CopySample(id)];
      assert s1.clients[id := Copied(s, c, n)] == s.clients[id := Copied(s, c, n)];
    }
  }

  lemma StaysThere(s: World)
    requires Shape(s)
    ensures Reaches(s, [], s)
  {
  }

  lemma ShapeOf(s: World, run: seq<Action>, s': World)
    requires Reaches(s, run, s')
    ensures Shape(s')
  {
  }

  lemma SameCopy(s: World, s': World, c: Client)
    requires SegmentShape(s.seg) && s'.seg == s.seg && ValidChannels(c.channels)
    requires c.Copying? && |c.out| < c.inFrames && |c.row| < c.channels
    ensures Copy(s', c) == Copy(s, c)
  {
  }

  /** What a call made while the daemon stands still does, in the steps' account:
      one decision of the cursor, and the buffer Hal.DoIO fills. */
  predicate CallDone(s: World, s': World, id: nat, cycle: nat, inFrames: UInt32)
    requires SegmentShape(s.seg) && id in s'.clients
  {
    var c := s'.clients[id];
    && s' == s.(cursor := s'.cursor, anchor := s'.anchor, openers := s'.openers, clients := s.clients[id := c])
    && s'.cursor == Decide(s.cursor, Call(cycle, inFrames, s.seg.w, s.seg.latency))
    && c.Finished? && c.cycle == cycle && c.inFrames == inFrames == |c.out| && c.channels == s.seg.channels
    && c.w == c.published == s.seg.w && c.rf == s'.cursor.cycleReadFrame
    && (Undisturbed(c, s.seg) <==> !s.seg.producer.Creating?)
    && forall p: nat :: p < inFrames * c.channels ==>
         BufferAgrees(c.out, s.seg.ring, c.rf, s.seg.w, c.channels, p)
  }

  /** The call up to its copy loop. */
  lemma CallBegins(s: World, id: nat, cycle: nat, inFrames: UInt32) returns (s': World)
    requires Shape(s) && id !in s.clients
    ensures Reaches(s, [Enter(id, cycle, inFrames), LoadCounter(id), DecideStart(id)], s')
    ensures id in s'.clients
    ensures var c := s'.clients[id];
      && s' == s.(cursor := s'.cursor, anchor := s'.anchor, openers := s'.openers, clients := s.clients[id := c])
      && s'.cursor == Decide(s.cursor, Call(cycle, inFrames, s.seg.w, s.seg.latency))
      && c.Copying? && c.cycle == cycle && c.inFrames == inFrames && c.channels == s.seg.channels
      && c.w == c.published == s.seg.w && c.rf == s'.cursor.cycleReadFrame && c.out == [] && c.row == []
      && (Undisturbed(c, s.seg) <==> !s.seg.producer.Creating?)
  {
    var s1 := Next(s, Enter(id, cycle, inFrames));
    var s2 := Next(s1, LoadCounter(id));
    s' := Next(s2, DecideStart(id));
    assert s'.clients == s.clients[id := s'.clients[id]];
    BeginSteps(s, s1, s2, s', id, cycle, inFrames);
  }

  lemma BeginSteps(s: World, s1: World, s2: World, s': World, id: nat, cycle: nat, inFrames: UInt32)
    requires Shape(s) && Enabled(s, Enter(id, cycle, inFrames)) && s1 == Next(s, Enter(id, cycle, inFrames))
    requires Enabled(s1, LoadCounter(id)) && s2 == Next(s1, LoadCounter(id))
    requires Enabled(s2, DecideStart(id)) && s' == Next(s2, DecideStart(id))
    ensures Reaches(s, [Enter(id, cycle, inFrames), LoadCounter(id), DecideStart(id)], s')
  {
    hide Next, Enabled;
    assert Reaches(s', [], s');
    TakeStep(s2, DecideStart(id), [], s');
    TakeStep(s1, LoadCounter(id), [DecideStart(id)] + [], s');
    TakeStep(s, Enter(id, cycle, inFrames), [LoadCounter(id)] + ([DecideStart(id)] + []), s');
    assert [Enter(id, cycle, inFrames)] + ([LoadCounter(id)] + ([DecideStart(id)] + [])) ==
           [Enter(id, cycle, inFrames), LoadCounter(id), DecideStart(id)];
  }

  /** Any call can be made at any time, and made without interruption it is Hal.DoIO. */
  lemma UninterruptedCall(s: World, id: nat, cycle: nat, inFrames: UInt32) returns (run: seq<Action>, s': World)
    requires Shape(s) && id !in s.clients
    ensures Reaches(s, run, s') && id in s'.clients && CallDone(s, s', id, cycle, inFrames)
  {
    hide Reaches;
    var s1 := CallBegins(s, id, cycle, inFrames);
    var c1 := s1.clients[id];
    ShapeOf(s, [Enter(id, cycle, inFrames), LoadCounter(id), DecideStart(id)], s1);
    var steps := UninterruptedCopyIsDoIO(s1, c1);
    CopiesInRun(s1, id, c1, steps);
    var c2 := Copied(s1, c1, steps);
    var s2 := s1.(clients := s1.clients[id := c2]);
    JoinRuns(s, [Enter(id, cycle, inFrames), LoadCounter(id), DecideStart(id)], s1, Repeat(CopySample(id), steps), s2);
    run := [Enter(id, cycle, inFrames), LoadCounter(id), DecideStart(id)] + Repeat(CopySample(id), steps);
    ShapeOf(s, run, s2);
    s' := Finishes(s2, id);
    JoinRuns(s, run, s2, [Finish(id)], s');
    run := run + [Finish(id)];
    assert s'.clients == s.clients[id := s'.clients[id]];
  }

  lemma Finishes(s: World, id: nat) returns (s': World)
    requires Shape(s) && id in s.clients && s.clients[id].Copying? && |s.clients[id].out| == s.clients[id].inFrames
    ensures Reaches(s, [Finish(id)], s')
    ensures s' == s.(clients := s.clients[id := Return(s, s.clients[id])])
  {
    s' := Next(s, Finish(id));
    TakeStep(s, Finish(id), [], s');
    assert [Finish(id)] + [] == [Finish(id)];
  }
}
