// The plugin's IO entry points on its own state, with the daemon standing still
// during a call. AudioPath has the interleaved account of the same copy loop.
module Plugin {
  import Bits
  import opened Ring
  import opened SharedMemory
  import opened ReadCursor
  import opened Timeline

  /** Sample p of the output buffer: frame p / channels, channel p % channels. */
  function OutSample(ring: seq<int>, rf: nat, w: nat, channels: nat, p: nat): int
    requires |ring| == RING_SAMPLES && ValidChannels(channels)
  {
    var src := rf + p / channels;
    SlotInBounds(src, channels, p % channels);
    if src < w then ring[Slot(src, channels, p % channels)] else 0
  }

  lemma IntactSample(ring: seq<int>, hist: seq<Frame>, channels: nat, rf: nat, w: nat, n: nat, i: nat, ch: nat)
    requires |ring| == RING_SAMPLES && ValidChannels(channels) && Shaped(hist, channels)
    requires Holds(ring, hist, channels, channels)
    requires w <= |hist| <= rf + RING && i < n && ch < channels
    ensures Slot(rf + i, channels, ch) < RING_SAMPLES
    ensures var frame := Deliver(hist, rf, w, n, channels)[i];
      |frame| == channels && frame[ch] == if rf + i < w then ring[Slot(rf + i, channels, ch)] else 0
  {
    SlotInBounds(rf + i, channels, ch);
    assert Deliver(hist, rf, w, n, channels)[i] == if rf + i < w then hist[rf + i] else Silence(channels);
    if rf + i < w {
      assert Resident(rf + i, ch, |hist|, channels, channels);
      assert HoldsAt(ring, hist, channels, rf + i, ch);
    }
  }

  /** If the writer has not lapped the start frame, the buffer is what the
      history has at that place. */
  lemma IntactRingDelivers(ring: seq<int>, hist: seq<Frame>, channels: nat, rf: nat, w: nat, n: nat, p: nat)
    requires |ring| == RING_SAMPLES && ValidChannels(channels) && Shaped(hist, channels)
    requires Holds(ring, hist, channels, channels)
    requires w <= |hist| <= rf + RING && p < n * channels
    ensures p / channels < n
    ensures var frame := Deliver(hist, rf, w, n, channels)[p / channels];
      |frame| == channels && OutSample(ring, rf, w, channels, p) == frame[p % channels]
  {
    hide Holds, Slot, Deliver;
    FrameIndex(p, n, channels);
    IntactSample(ring, hist, channels, rf, w, n, p / channels, p % channels);
  }

  /** A cycle's first call, made while the daemon stands still, fills the buffer
      with the captured frames from its start on: the writer cannot have lapped it. */
  lemma QuietCallDelivers(ring: seq<int>, hist: seq<Frame>, channels: nat, c: Cursor, call: Call, p: nat)
    requires |ring| == RING_SAMPLES && ValidChannels(channels) && Shaped(hist, channels)
    requires Holds(ring, hist, channels, channels)
    requires Leads(c, call) && call.w == |hist| && p < call.inFrames * channels
    requires call.inFrames <= MAX_BUFFER && MIN_LATENCY <= call.latency <= MAX_LATENCY
    ensures p / channels < call.inFrames
    ensures var rf := Decide(c, call).cycleReadFrame;
      var frame := Deliver(hist, rf, call.w, call.inFrames, channels)[p / channels];
      |frame| == channels && OutSample(ring, rf, call.w, channels, p) == frame[p % channels]
  {
    CycleStart(c, call);
    hide Decide, Holds, Deliver, OutSample;
    IntactRingDelivers(ring, hist, channels, Decide(c, call).cycleReadFrame, call.w, call.inFrames, p);
  }

  lemma FrameIndex(p: nat, n: nat, channels: nat)
    requires channels > 0 && p < n * channels
    ensures p / channels < n
  {
    if p / channels >= n {
      Bits.MulMonotone(channels, n, p / channels);
    }
  }

  lemma SampleIndex(i: nat, ch: nat, channels: nat)
    requires ch < channels
    ensures (i * channels + ch) / channels == i && (i * channels + ch) % channels == ch
  {
    Bits.RemainderIsUnique(i * channels + ch, channels, i, ch);
  }

  class Hal {
    var gShm: Shm?
    var gMutexHeld: bool   // by the calling thread
    var gIORunning: nat
    var gReadFrame: nat
    var gCycleReadFrame: nat
    var gLastCycle: nat
    var gAnchorHostTime: nat
    var gNumberTimeStamps: nat
    const gHostTicksPerFrame: real

    ghost predicate Valid()
      reads this, gShm
    {
      && gHostTicksPerFrame > 0.0
      && (gShm != null ==> gShm.ring.Length == RING_SAMPLES)
    }

    ghost function CursorState(): Cursor
      reads this
    {
      Cursor(gReadFrame, gCycleReadFrame, gLastCycle)
    }

    constructor (ticksPerFrame: real)
      requires ticksPerFrame > 0.0
      ensures Valid() && gShm == null && !gMutexHeld && gIORunning == 0
      ensures CursorState() == Cursor(0, 0, NO_CYCLE)
    {
      gHostTicksPerFrame := ticksPerFrame;
      gShm, gMutexHeld, gIORunning := null, false, 0;
      gReadFrame, gCycleReadFrame, gLastCycle := 0, 0, NO_CYCLE;
      gAnchorHostTime, gNumberTimeStamps := 0, 0;
    }

    /** `found` is the segment with a good header that can be mapped now, if any.
        Unless one is attached already this takes the mutex, which is not
        recursive: called by a thread that holds it, it waits for itself. */
    method AttachShm(found: Shm?) returns (done: bool)
      requires Valid() && (found != null ==> found.ring.Length == RING_SAMPLES)
      modifies this`gShm
      ensures Valid()
      ensures done <==> old(gShm) != null || !gMutexHeld
      ensures gShm == if old(gShm) == null && done then found else old(gShm)
    {
      if gShm != null {
        return true;
      }
      if gMutexHeld {
        return false;
      }
      gShm := found;
      return true;
    }

    function DevChannels(): (c: nat)
      reads this, gShm
      ensures ValidChannels(c)
      ensures c == if gShm != null && 1 <= gShm.channels <= 8 then gShm.channels else 8
    {
      var c := if gShm != null then gShm.channels else MAX_CHANNELS;
      if c == 0 || c > MAX_CHANNELS then MAX_CHANNELS else c
    }

    /** The first client anchors the timeline and the cursor; later ones only count.
        The call returns if and only if it is not the first or a segment was
        attached before: it attaches while holding the mutex. */
    method StartIO(found: Shm?, now: nat) returns (done: bool)
      requires Valid() && (found != null ==> found.ring.Length == RING_SAMPLES) && !gMutexHeld
      modifies this
      ensures Valid()
      ensures done <==> old(gIORunning) > 0 || old(gShm) != null
      ensures gMutexHeld == !done && gShm == old(gShm)
      ensures gIORunning == old(gIORunning) + (if done then 1 else 0)
      ensures old(gIORunning) > 0 ==>
                && CursorState() == old(CursorState())
                && gAnchorHostTime == old(gAnchorHostTime) && gNumberTimeStamps == old(gNumberTimeStamps)
      ensures old(gIORunning) == 0 && gShm != null ==>
                && CursorState() == Cursor(gShm.writeFrames, gShm.writeFrames, 0xFFFF_FFFF_FFFF_FFFF)
                && gAnchorHostTime == now && gNumberTimeStamps == 0
    {
      gMutexHeld := true;
      if gIORunning == 0 {
        done := AttachShm(found);
        if !done {
          return;
        }
        gAnchorHostTime := now;
        gNumberTimeStamps := 0;
        var w0 := if gShm != null then gShm.writeFrames else 0;
        gReadFrame := w0;
        gCycleReadFrame := w0;
        gLastCycle := NO_CYCLE;
      }
      gIORunning := gIORunning + 1;
      gMutexHeld := false;
      done := true;
    }

    method StopIO()
      modifies this`gIORunning
      ensures gIORunning == if old(gIORunning) > 0 then old(gIORunning) - 1 else 0
    {
      if gIORunning > 0 {
        gIORunning := gIORunning - 1;
      }
    }

    /** The pair reported lies on the line through the anchor with the slope of the
        host clock; sample time is a multiple of 8192 and moves on by 8192 exactly
        when the host time of the next multiple is reached. */
    method GetZeroTimeStamp(now: nat) returns (sampleTime: nat, hostTime: nat, seed: nat)
      requires Valid()
      modifies this`gNumberTimeStamps
      ensures gNumberTimeStamps ==
              Tick(gAnchorHostTime, gHostTicksPerFrame * PERIOD as real, old(gNumberTimeStamps), now)
      ensures sampleTime == 8192 * gNumberTimeStamps
      ensures hostTime == gAnchorHostTime + (sampleTime as real * gHostTicksPerFrame).Floor
      ensures sampleTime == 8192 * old(gNumberTimeStamps) +
                (if now >= gAnchorHostTime + ((8192 * old(gNumberTimeStamps) + 8192) as real * gHostTicksPerFrame).Floor
                 then 8192 else 0)
      ensures hostTime == Boundary(gAnchorHostTime, gHostTicksPerFrame * PERIOD as real, gNumberTimeStamps)
      ensures seed == 1
      ensures old(Boundary(gAnchorHostTime, gHostTicksPerFrame * PERIOD as real, gNumberTimeStamps)) <= now ==>
                hostTime <= now
    {
      BoundaryOnLine(gAnchorHostTime, gHostTicksPerFrame, gNumberTimeStamps);
      BoundaryOnLine(gAnchorHostTime, gHostTicksPerFrame, gNumberTimeStamps + 1);
      var ticksPerPeriod := gHostTicksPerFrame * PERIOD as real;
      var nextWrapTime := gAnchorHostTime + ((gNumberTimeStamps + 1) as real * ticksPerPeriod).Floor;
      if now >= nextWrapTime {
        gNumberTimeStamps := gNumberTimeStamps + 1;
      }
      sampleTime := gNumberTimeStamps * PERIOD;
      hostTime := gAnchorHostTime + (gNumberTimeStamps as real * ticksPerPeriod).Floor;
      seed := 1;
    }

    /** The mutex section of DoIO. */
    method AdvanceCursor(cycle: nat, inFrames: UInt32, w: nat, latency: nat) returns (rf: nat)
      modifies this`gReadFrame, this`gCycleReadFrame, this`gLastCycle
      ensures CursorState() == Decide(old(CursorState()), Call(cycle, inFrames, w, latency))
      ensures rf == CursorState().cycleReadFrame
    {
      if cycle != gLastCycle {
        gLastCycle := cycle;
        var lat := inFrames * 2 + SAFETY_OFFSET;
        var margin := if latency != 0 then latency else DEFAULT_MARGIN;
        if lat < margin {
          lat := margin;
        }
        if gReadFrame + inFrames > w || gReadFrame > w || w - gReadFrame > (RING - inFrames) % 0x1_0000_0000 {
          gReadFrame := if w > lat then w - lat else 0;
        }
        gCycleReadFrame := gReadFrame;
        gReadFrame := gReadFrame + inFrames;
      }
      rf := gCycleReadFrame;
    }

    /** One frame of output: copied from the ring, or silence past the counter. */
    method CopyFrame(shm: Shm, out: array<int>, i: nat, rf: nat, w: nat, channels: nat)
      requires shm.ring.Length == RING_SAMPLES && ValidChannels(channels)
      requires out != shm.ring && (i + 1) * channels <= out.Length
      modifies out
      ensures forall p :: 0 <= p < i * channels ==> out[p] == old(out[p])
      ensures forall p :: i * channels <= p < (i + 1) * channels ==>
                out[p] == OutSample(shm.ring[..], rf, w, channels, p)
      ensures forall p :: (i + 1) * channels <= p < out.Length ==> out[p] == old(out[p])
    {
      var at := i * channels;
      assert (i + 1) * channels == at + channels;
      for ch := 0 to channels
        invariant forall p :: 0 <= p < at ==> out[p] == old(out[p])
        invariant forall p :: at <= p < at + ch ==> out[p] == OutSample(shm.ring[..], rf, w, channels, p)
        invariant forall p :: at + ch <= p < out.Length ==> out[p] == old(out[p])
      {
        SampleIndex(i, ch, channels);
        SlotInBounds(rf + i, channels, ch);
        out[at + ch] := if rf + i < w then shm.ring[((rf + i) % RING) * channels + ch] else 0;
      }
    }

    method CopyOut(shm: Shm, out: array<int>, inFrames: nat, rf: nat, w: nat, channels: nat)
      requires shm.ring.Length == RING_SAMPLES && ValidChannels(channels)
      requires out != shm.ring && inFrames * channels <= out.Length
      modifies out
      ensures forall p :: 0 <= p < inFrames * channels ==> out[p] == OutSample(shm.ring[..], rf, w, channels, p)
      ensures forall p :: inFrames * channels <= p < out.Length ==> out[p] == old(out[p])
    {
      hide OutSample;
      for i := 0 to inFrames
        invariant forall p :: 0 <= p < i * channels ==> out[p] == OutSample(shm.ring[..], rf, w, channels, p)
        invariant forall p :: i * channels <= p < out.Length ==> out[p] == old(out[p])
      {
        Bits.MulMonotone(channels, i + 1, inFrames);
        CopyFrame(shm, out, i, rf, w, channels);
      }
    }

    method Clear(out: array<int>, n: nat)
      requires n <= out.Length
      modifies out
      ensures forall p :: 0 <= p < n ==> out[p] == 0
      ensures forall p :: n <= p < out.Length ==> out[p] == old(out[p])
    {
      for p := 0 to n
        invariant forall q :: 0 <= q < p ==> out[q] == 0
        invariant forall q :: p <= q < out.Length ==> out[q] == old(out[q])
      {
        out[p] := 0;
      }
    }

    /** DoIO for ReadInput. The cursor takes one decision step, and the buffer is
        filled from the frame that decision settled on. The host sized the buffer
        by the format it read earlier; the call fills it by the channel count of
        now, and `fits` says whether that many samples have room (if not, what the
        code writes lies partly outside, and the model does not write it). */
    method DoIO(readInput: bool, cycle: nat, inFrames: UInt32, out: array?<int>) returns (fits: bool)
      requires Valid()
      requires out != null && gShm != null ==> out != gShm.ring
      modifies this`gReadFrame, this`gCycleReadFrame, this`gLastCycle, out
      ensures Valid()
      ensures fits <==> !readInput || out == null || inFrames * DevChannels() <= out.Length
      ensures !readInput || out == null || gShm == null ==> CursorState() == old(CursorState())
      ensures !readInput && out != null ==> out[..] == old(out[..])
      ensures readInput && out != null && gShm != null ==>
                CursorState() ==
                Decide(old(CursorState()), Call(cycle, inFrames, gShm.writeFrames, gShm.latencyFrames))
      ensures readInput && out != null && fits ==>
                forall p :: 0 <= p < inFrames * DevChannels() ==>
                  out[p] == if gShm == null then 0
                            else OutSample(gShm.ring[..], gCycleReadFrame, gShm.writeFrames, DevChannels(), p)
      ensures out != null ==> forall p :: inFrames * DevChannels() <= p < out.Length ==> out[p] == old(out[p])
    {
      fits := true;
      if !readInput || out == null {
        return;
      }
      var ch := DevChannels();
      fits := inFrames * ch <= out.Length;
      if gShm == null {
        if fits {
          Clear(out, inFrames * ch);
        }
        return;
      }
      var w := gShm.writeFrames;
      var rf := AdvanceCursor(cycle, inFrames, w, gShm.latencyFrames);
      if fits {
        CopyOut(gShm, out, inFrames, rf, w, ch);
      }
    }
  }

  /** A buffer sized for `before` channels has room for one of `now` channels
      exactly if those are no more or the buffer is empty; otherwise this many
      samples have none. */
  lemma RoomExactly(inFrames: nat, before: nat, now: nat)
    ensures inFrames * now <= inFrames * before <==> inFrames == 0 || now <= before
    ensures inFrames * now - inFrames * before == inFrames * (now - before)
  {
    if now > before {
      Bits.MulMonotone(inFrames, before + 1, now);
    } else {
      Bits.MulMonotone(inFrames, now, before);
    }
  }
}
