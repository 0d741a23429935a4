// The smallest run in which a header rewrite rotates the channels of a call.
module SwapRun {
  import opened Ring
  import opened Framing
  import opened ReadCursor
  import opened Interleaving
  import opened AudioPath
  import opened Restarts

  // ---- the daemon: two frames of two channels ----

  function StereoPacket(): Packet { [1, 0, 0, 2, 0, 0, 3, 0, 0, 4, 0, 0] }

  lemma PacketFrames()
    ensures InputFrames(FromPacket(StereoPacket()), 2) == [[1, 2], [3, 4]]
  {
    Framing.StereoPacket(StereoPacket());
  }

  lemma WriteOne(s: World, next: nat, done: nat, todo: seq<Frame>)
    requires Shape(s) && s.seg.channels == 2 && s.seg.producer == Pushing(next, done, todo)
    requires todo != [] && |todo[0]| == 2 && next < 2 && done < 2
    ensures Enabled(s, WriteSample)
    ensures Next(s, WriteSample) == s.(seg := s.seg.(
      ring := s.seg.ring[2 * next + done := todo[0][done]],
      frames := if done == 0 then s.seg.frames + [todo[0]] else s.seg.frames,
      producer := if done == 0 then Pushing(next, 1, todo) else Pushing(next + 1, 0, todo[1..])))
  {
  }

  /** One stereo frame. */
  lemma WriteFrame(s: World, next: nat, todo: seq<Frame>) returns (s': World)
    requires Shape(s) && s.seg.channels == 2 && s.seg.producer == Pushing(next, 0, todo)
    requires todo != [] && |todo[0]| == 2 && next < 2
    ensures Reaches(s, [WriteSample, WriteSample], s')
    ensures s' == s.(seg := s.seg.(
      ring := s.seg.ring[2 * next := todo[0][0]][2 * next + 1 := todo[0][1]],
      frames := s.seg.frames + [todo[0]], producer := Pushing(next + 1, 0, todo[1..])))
  {
    WriteOne(s, next, 0, todo);
    var s1 := Next(s, WriteSample);
    WriteOne(s1, next, 1, todo);
    s' := Next(s1, WriteSample);
    hide Next;
    assert Reaches(s', [], s');
    TakeStep(s1, WriteSample, [], s');
    TakeStep(s, WriteSample, [WriteSample], s');
    assert [WriteSample] + [] == [WriteSample] && [WriteSample] + [WriteSample] == [WriteSample, WriteSample];
  }
  function SwapRun(): seq<Action> {
    [CreateEnd, Enter(0, 1, 2)] + SwapAndPush() + ReadOn()
  }

  /** A device of two channels takes over and captures two frames. */
  function SwapAndPush(): seq<Action> {
    [CreateStart(2, 10), CreateEnd, PushStart(FromPacket(StereoPacket()))]
    + [WriteSample, WriteSample] + [WriteSample, WriteSample] + [Publish]
  }

  function ReadOn(): seq<Action> {
    [LoadCounter(0), DecideStart(0), CopySample(0), CopySample(0), Finish(0)]
  }

  /** The new header, and the packet taken under it. */
  lemma Swaps(s: World) returns (s': World)
    requires Shape(s)
    ensures Reaches(s, [CreateStart(2, 10), CreateEnd, PushStart(FromPacket(StereoPacket()))], s')
    ensures s' == s.(seg := s'.seg)
    ensures s'.seg.channels == 2 && s'.seg.frames == [] && s'.seg.producer == Pushing(0, 0, [[1, 2], [3, 4]])
    ensures s'.seg.counted == |s'.seg.past| == |s.seg.past| + 1
  {
    PacketFrames();
    var s1 := Next(s, CreateStart(2, 10));
    var s2 := Next(s1, CreateEnd);
    var push := PushStart(FromPacket(StereoPacket()));
    s' := Next(s2, push);
    hide Next, Enabled;
    assert Reaches(s', [], s');
    TakeStep(s2, push, [], s');
    TakeStep(s1, CreateEnd, [push] + [], s');
    TakeStep(s, CreateStart(2, 10), [CreateEnd] + ([push] + []), s');
    assert [CreateStart(2, 10)] + ([CreateEnd] + ([push] + [])) == [CreateStart(2, 10), CreateEnd, push];
  }

  lemma StaysShaped(s: World, run: seq<Action>, s': World)
    requires Reaches(s, run, s')
    ensures Shape(s')
  {
  }

  /** Its two frames. */
  lemma WritesTwo(s: World) returns (s': World)
    requires Shape(s) && s.seg.channels == 2 && s.seg.frames == []
    requires s.seg.producer == Pushing(0, 0, [[1, 2], [3, 4]])
    ensures Reaches(s, [WriteSample, WriteSample] + [WriteSample, WriteSample], s')
    ensures s' == s.(seg := s.seg.(
      ring := s.seg.ring[0 := 1][1 := 2][2 := 3][3 := 4], frames := [[1, 2], [3, 4]], producer := Pushing(2, 0, [])))
  {
    var s1 := WriteFrame(s, 0, [[1, 2], [3, 4]]);
    assert [[1, 2], [3, 4]][1..] == [[3, 4]] && s1.seg.frames == [[1, 2]];
    s' := WriteFrame(s1, 1, [[3, 4]]);
    assert [[1, 2]] + [[3, 4]] == [[1, 2], [3, 4]] && [[3, 4]][1..] == [];
    hide Reaches;
    JoinRuns(s, [WriteSample, WriteSample], s1, [WriteSample, WriteSample], s');
  }

  /** The daemon's part, from any state. */
  lemma SwapsAndPushes(s: World) returns (s': World)
    requires Shape(s)
    ensures Reaches(s, SwapAndPush(), s')
    ensures s' == s.(seg := s'.seg)
    ensures s'.seg.channels == 2 && s'.seg.w == 2 && s'.seg.frames == [[1, 2], [3, 4]]
    ensures s'.seg.counted == |s'.seg.past| == |s.seg.past| + 1
    ensures s'.seg.ring[0] == 1 && s'.seg.ring[1] == 2
  {
    hide Reaches, StereoPacket;
    var s1 := Swaps(s);
    StaysShaped(s, [CreateStart(2, 10), CreateEnd, PushStart(FromPacket(StereoPacket()))], s1);
    var s2 := WritesTwo(s1);
    StaysShaped(s1, [WriteSample, WriteSample] + [WriteSample, WriteSample], s2);
    s' := Publishes(s2);
    JoinSwap(s, s1, s2, s');
  }

  lemma JoinSwap(s: World, s1: World, s2: World, s': World)
    requires Reaches(s, [CreateStart(2, 10), CreateEnd, PushStart(FromPacket(StereoPacket()))], s1)
    requires Reaches(s1, [WriteSample, WriteSample] + [WriteSample, WriteSample], s2)
    requires Reaches(s2, [Publish], s')
    ensures Reaches(s, SwapAndPush(), s')
  {
    hide Reaches, StereoPacket;
    var header := [CreateStart(2, 10), CreateEnd, PushStart(FromPacket(StereoPacket()))];
    var frame := [WriteSample, WriteSample];
    JoinRuns(s, header, s1, frame + frame, s2);
    JoinRuns(s, header + (frame + frame), s2, [Publish], s');
    assert header + (frame + frame) + [Publish] == header + frame + frame + [Publish];
  }

  lemma Publishes(s: World) returns (s': World)
    requires Shape(s) && s.seg.producer == Pushing(2, 0, [])
    ensures Reaches(s, [Publish], s')
    ensures s' == s.(seg := s.seg.(w := 2, producer := Idle))
  {
    s' := Next(s, Publish);
    TakeStep(s, Publish, [], s');
    assert [Publish] + [] == [Publish];
  }

  // ---- the plugin: a call of two frames that read the count 1 ----

  lemma CopiesOne(s: World, c: Client)
    requires Shape(s) && s.clients == map[0 := c] && c.Copying? && c.channels == 1 && c.row == []
    requires |c.out| < c.inFrames && c.rf == 0 && |c.out| < 2 <= c.w
    ensures Enabled(s, CopySample(0))
    ensures var c' := Copy(s, c);
      && c'.Copying? && c' == c.(row := [], out := c.out + [[s.seg.ring[|c.out|]]], lapped := c'.lapped)
      && Next(s, CopySample(0)) == s.(clients := map[0 := c'])
  {
    assert Slot(|c.out|, 1, 0) == |c.out|;
    assert c.row + [s.seg.ring[|c.out|]] == [s.seg.ring[|c.out|]];
  }

  /** The call loads the new counter and starts at frame 0. */
  lemma Starts(s: World) returns (s': World)
    requires Shape(s) && s.cursor == Cursor(0, 0, NO_CYCLE) && s.openers == []
    requires s.clients == map[0 := Entered(1, 2, 1, 0, 0, true)] && s.seg.w == 2
    ensures Enabled(s, LoadCounter(0)) && Enabled(Next(s, LoadCounter(0)), DecideStart(0))
    ensures s' == Next(Next(s, LoadCounter(0)), DecideStart(0))
    ensures s'.seg == s.seg && s'.clients.Keys == {0}
    ensures var c := s'.clients[0];
      && c.Copying? && c.inFrames == 2 && c.channels == 1 && c.w == 2 && c.rf == 0
      && c.out == [] && c.row == [] && c.counted == s.seg.counted
  {
    s' := Next(Next(s, LoadCounter(0)), DecideStart(0));
  }

  lemma ReadsOn(s: World) returns (s': World)
    requires Shape(s) && s.cursor == Cursor(0, 0, NO_CYCLE) && s.openers == []
    requires s.clients == map[0 := Entered(1, 2, 1, 0, 0, true)]
    requires s.seg.w == 2 && s.seg.ring[0] == 1 && s.seg.ring[1] == 2
    ensures Reaches(s, ReadOn(), s')
    ensures s'.seg == s.seg && 0 in s'.clients
    ensures var c := s'.clients[0]; c.Finished? && c.channels == 1 && c.counted == s.seg.counted && c.out == [[1], [2]]
  {
    var s2 := Starts(s);
    assert s2.clients == map[0 := s2.clients[0]];
    CopiesOne(s2, s2.clients[0]);
    var s3 := Next(s2, CopySample(0));
    CopiesOne(s3, s3.clients[0]);
    var s4 := Next(s3, CopySample(0));
    assert s4.clients[0].out == [[1], [2]];
    s' := Next(s4, Finish(0));
    JoinRead(s, Next(s, LoadCounter(0)), s2, s3, s4, s');
  }

  lemma JoinRead(s: World, s1: World, s2: World, s3: World, s4: World, s': World)
    requires Shape(s) && Enabled(s, LoadCounter(0)) && s1 == Next(s, LoadCounter(0))
    requires Enabled(s1, DecideStart(0)) && s2 == Next(s1, DecideStart(0))
    requires Enabled(s2, CopySample(0)) && s3 == Next(s2, CopySample(0))
    requires Enabled(s3, CopySample(0)) && s4 == Next(s3, CopySample(0))
    requires Enabled(s4, Finish(0)) && s' == Next(s4, Finish(0))
    ensures Reaches(s, ReadOn(), s')
  {
    hide Next, Enabled;
    assert Reaches(s', [], s');
    TakeStep(s4, Finish(0), [], s');
    TakeStep(s3, CopySample(0), [Finish(0)], s');
    TakeStep(s2, CopySample(0), [CopySample(0), Finish(0)], s');
    TakeStep(s1, DecideStart(0), [CopySample(0), CopySample(0), Finish(0)], s');
    TakeStep(s, LoadCounter(0), [DecideStart(0), CopySample(0), CopySample(0), Finish(0)], s');
    assert [Finish(0)] + [] == [Finish(0)];
  }

  /** The first header is completed, and the call enters under it. */
  lemma Enters(s0: World) returns (s: World)
    requires Init(s0) && s0.seg.channels == 1
    ensures Reaches(s0, [CreateEnd, Enter(0, 1, 2)], s)
    ensures s.clients == map[0 := Entered(1, 2, 1, 0, 0, true)]
    ensures s.cursor == Cursor(0, 0, NO_CYCLE) && s.openers == []
  {
    var s1 := Next(s0, CreateEnd);
    s := Next(s1, Enter(0, 1, 2));
    hide Next, Enabled;
    assert Reaches(s, [], s);
    TakeStep(s1, Enter(0, 1, 2), [], s);
    TakeStep(s0, CreateEnd, [Enter(0, 1, 2)] + [], s);
    assert [CreateEnd] + ([Enter(0, 1, 2)] + []) == [CreateEnd, Enter(0, 1, 2)];
  }

  /** A call that a change of the channel count overlaps is handed rotated channels:
      what it delivers as the one channel of its second frame is the second channel
      of the first frame captured. */
  lemma SwapRotates(s0: World) returns (s: World)
    requires Init(s0) && s0.seg.channels == 1
    ensures Reaches(s0, SwapRun(), s)
    ensures s.seg.channels == 2 && s.seg.frames == [[1, 2], [3, 4]]
    ensures 0 in s.clients && s.clients[0].Finished? && s.clients[0].channels == 1
    ensures s.clients[0].out == [[1], [2]]
    ensures s.clients[0].counted >= 0 && !KnownStride(s.seg, s.clients[0])
  {
    var s1 := Enters(s0);
    assert Shape(s1);
    var s2 := SwapsAndPushes(s1);
    s := ReadsOn(s2);
    assert EraAt(s.seg, |s.seg.past|).frames != [];
    hide Reaches;
    JoinRuns(s0, [CreateEnd, Enter(0, 1, 2)], s1, SwapAndPush(), s2);
    JoinRuns(s0, [CreateEnd, Enter(0, 1, 2)] + SwapAndPush(), s2, ReadOn(), s);
  }
}
