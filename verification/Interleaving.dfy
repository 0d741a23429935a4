// The audio path as interleaved steps of two processes. Every shared read or
// write of a sample, every counter access and every mutex section is one step;
// steps of the daemon and of any number of plugin calls alternate freely.
module Interleaving {
  import opened Ring
  import opened Framing
  import opened SharedMemory
  import opened ReadCursor

  // ---- the producer and the segment ----

  /** What one push writes: the whole frames of a packet, or a test tone. */
  datatype Input = FromPacket(bytes: Packet) | FromTone(values: seq<int>)

  function InputFrames(input: Input, channels: nat): (frames: seq<Frame>)
    requires ValidChannels(channels)
    ensures Shaped(frames, channels)
  {
    match input
    case FromPacket(bytes) => DecodeFrames(bytes, channels)
    case FromTone(values) => ToneFrames(values, channels)
  }

  function AllInputFrames(inputs: seq<Input>, channels: nat): (frames: seq<Frame>)
    requires ValidChannels(channels)
    ensures Shaped(frames, channels)
  {
    if inputs == [] then []
    else AllInputFrames(inputs[..|inputs| - 1], channels) + InputFrames(inputs[|inputs| - 1], channels)
  }

  /** The daemon: between pushes; writing sample `done` of frame `next`, with
      `todo` starting at that frame; or rewriting the header. */
  datatype Producer = Idle | Pushing(next: nat, done: nat, todo: seq<Frame>) | Creating

  /** What was captured under one header: the inputs taken, the frames whose
      writing was begun, and how many of them the counter ever counted. */
  datatype Era = Era(channels: nat, inputs: seq<Input>, frames: seq<Frame>, published: nat)

  datatype Segment = Segment(
    // shared memory
    channels: nat, latency: nat, w: nat, ring: seq<int>,
    // daemon
    producer: Producer,
    // history: the inputs taken and the frames begun since the header was last
    // written, the eras of the headers before it, and the era the counter counts
    // (-1: it is older than this record)
    inputs: seq<Input>, frames: seq<Frame>, past: seq<Era>, counted: int)

  datatype Action =
    | PushStart(input: Input)
    | WriteSample
    | Publish
    | CreateStart(channels: nat, latencyMs: nat)
    | CreateEnd
    | StartIO
    | StopIO
    | Enter(id: nat, cycle: nat, inFrames: UInt32)
    | LoadCounter(id: nat)
    | DecideStart(id: nat)
    | CopySample(id: nat)
    | Finish(id: nat)

  predicate ProducerAction(a: Action) {
    a.PushStart? || a.WriteSample? || a.Publish? || a.CreateStart? || a.CreateEnd?
  }

  predicate SegmentShape(s: Segment) {
    && |s.ring| == RING_SAMPLES
    && ValidChannels(s.channels)
    && MIN_LATENCY <= s.latency <= MAX_LATENCY
  }

  /** How many samples of the newest begun frame are in the ring. */
  function WrittenOfNewest(s: Segment): nat {
    if s.producer.Pushing? && s.producer.done > 0 then s.producer.done else s.channels
  }

  /** How many samples of channel `ch` were written since the counter restarted. */
  function SamplesWritten(s: Segment, ch: nat): nat {
    Stored(ch, |s.frames|, WrittenOfNewest(s))
  }

  ghost predicate SegmentInv(s: Segment) {
    && SegmentShape(s)
    && Shaped(s.frames, s.channels)
    && match s.producer
       case Creating => s.frames == [] && s.inputs == []
       case Idle =>
         && s.w == |s.frames|
         && s.frames == AllInputFrames(s.inputs, s.channels)
         && Holds(s.ring, s.frames, s.channels, s.channels)
       case Pushing(next, done, todo) =>
         && s.w <= next
         && done < s.channels
         && Shaped(todo, s.channels)
         && Holds(s.ring, s.frames, s.channels, WrittenOfNewest(s))
         && next <= |s.frames|
         && s.frames[..next] + todo == AllInputFrames(s.inputs, s.channels)
         && (done > 0 ==> todo != [])
         && s.frames[next..] == (if done > 0 then todo[..1] else [])
  }

  predicate SegmentEnabled(s: Segment, a: Action)
    requires SegmentShape(s) && ProducerAction(a)
  {
    match a
    case PushStart(_) => s.producer.Idle?
    case WriteSample =>
      && s.producer.Pushing?
      && s.producer.todo != []
      && s.producer.done < |s.producer.todo[0]| == s.channels
    case Publish => s.producer.Pushing? && s.producer.todo == []
    case CreateStart(channels, _) => ValidChannels(channels)  // a restarted daemon may interrupt anything
    case CreateEnd => s.producer.Creating?
  }

  /** The era of the current header. */
  function CurrentEra(s: Segment): Era {
    Era(s.channels, s.inputs, s.frames, if s.producer.Creating? then 0 else s.w)
  }

  function SegmentNext(s: Segment, a: Action): (s': Segment)
    requires SegmentShape(s) && ProducerAction(a) && SegmentEnabled(s, a)
    ensures SegmentShape(s')
  {
    match a
    case PushStart(input) =>
      s.(producer := Pushing(s.w, 0, InputFrames(input, s.channels)), inputs := s.inputs + [input])
    case WriteSample =>
      var Pushing(next, done, todo) := s.producer;
      SlotInBounds(next, s.channels, done);
      s.(ring := s.ring[Slot(next, s.channels, done) := todo[0][done]],
         frames := if done == 0 then s.frames + [todo[0]] else s.frames,
         producer := if done + 1 < s.channels then Pushing(next, done + 1, todo)
                     else Pushing(next + 1, 0, todo[1..]))
    case Publish => s.(w := s.producer.next, producer := Idle)
    case CreateStart(channels, latencyMs) =>
      ClampRange(latencyMs);
      s.(channels := channels, latency := ClampLatency(latencyMs), producer := Creating,
         past := s.past + [CurrentEra(s)], inputs := [], frames := [])
    case CreateEnd => s.(w := 0, producer := Idle, counted := |s.past|)
  }

  /** The frame being written is the newest one begun. */
  lemma NewestFrame(s: Segment)
    requires SegmentInv(s) && SegmentEnabled(s, WriteSample)
    ensures var Pushing(next, done, todo) := s.producer; var frames := SegmentNext(s, WriteSample).frames;
      && |frames| == next + 1
      && frames[..next] == s.frames[..next]
      && frames[next] == todo[0]
      && (done == 0 ==> |s.frames| == next)
      && (done > 0 ==> frames == s.frames)
  {
    var Pushing(next, done, todo) := s.producer;
    var tail := s.frames[next..];
    if done == 0 {
      assert |tail| == 0;
    } else {
      assert |tail| == 1 && tail[0] == todo[0];
    }
  }

  lemma WriteSampleRing(s: Segment)
    requires SegmentInv(s) && SegmentEnabled(s, WriteSample)
    ensures var s' := SegmentNext(s, WriteSample);
      Shaped(s'.frames, s'.channels) && Holds(s'.ring, s'.frames, s'.channels, s.producer.done + 1)
  {
    var s' := SegmentNext(s, WriteSample);
    var Pushing(next, done, todo) := s.producer;
    NewestFrame(s);
    if done == 0 {
      BeginFrameHolds(s.ring, s.frames, s.channels, todo[0]);
    }
    WriteSampleHolds(s.ring, s'.frames, s.channels, done);
  }

  lemma MoveOne<T>(a: seq<T>, b: seq<T>)
    requires b != []
    ensures (a + [b[0]]) + b[1..] == a + b
  {
  }

  lemma WriteSampleInv(s: Segment)
    requires SegmentInv(s) && SegmentEnabled(s, WriteSample)
    ensures SegmentInv(SegmentNext(s, WriteSample))
  {
    var s' := SegmentNext(s, WriteSample);
    var Pushing(next, done, todo) := s.producer;
    NewestFrame(s);
    WriteSampleRing(s);
    if done + 1 == s.channels {
      assert s'.frames[..next + 1] == s.frames[..next] + [todo[0]];
      MoveOne(s.frames[..next], todo);
      assert s'.frames[next + 1..] == [];
    } else {
      assert s'.frames[next..] == [todo[0]];
      assert todo[..1] == [todo[0]];
    }
  }

  lemma SegmentStep(s: Segment, a: Action)
    requires SegmentInv(s) && ProducerAction(a) && SegmentEnabled(s, a)
    ensures SegmentInv(SegmentNext(s, a))
  {
    var s' := SegmentNext(s, a);
    match a
    case PushStart(input) =>
      assert s'.inputs[..|s'.inputs| - 1] == s.inputs;
      assert s.frames[..|s.frames|] == s.frames;
    case WriteSample => WriteSampleInv(s);
    case Publish =>
      var next := s.producer.next;
      assert s.frames == s.frames[..next] + s.frames[next..];
      assert s.frames[..next] + [] == s.frames[..next];
    case CreateStart(_, _) =>
    case CreateEnd =>
  }
}
