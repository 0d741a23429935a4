// The shared-memory segment and its only writer.
module SharedMemory {
  import opened S24
  import opened Ring
  import opened Framing

  const TWO_PI: real := 6.283185307179586
  const STEP: real := TWO_PI * 440.0 / 48000.0   // phase per frame of the tone

  class Shm {
    // header
    var channels: nat
    var latencyFrames: nat
    var writeFrames: nat
    // samples, as numerators over 2^23
    const ring: array<int>
    // every frame captured since the counter was last reset
    ghost var history: seq<Frame>

    ghost predicate Valid()
      reads this, ring
    {
      && ring.Length == RING_SAMPLES
      && ValidChannels(channels)
      && writeFrames == |history|
      && Shaped(history, channels)
      && Holds(ring[..], history, channels, channels)
    }

    /** First creation: ftruncate gives zero-filled samples. */
    constructor (deviceChannels: nat, latency: nat)
      requires ValidChannels(deviceChannels)
      ensures Valid() && fresh(ring)
      ensures channels == deviceChannels && latencyFrames == latency && history == []
      ensures forall x :: 0 <= x < ring.Length ==> ring[x] == 0
    {
      channels, latencyFrames, writeFrames, history := deviceChannels, latency, 0, [];
      ring := new int[RING_SAMPLES](_ => 0);
    }

    /** Re-opening the persistent segment, whatever it holds: the header is
        rewritten, the counter restarts, the samples stay. */
    method Create(deviceChannels: nat, latency: nat)
      requires ring.Length == RING_SAMPLES && ValidChannels(deviceChannels)
      modifies this
      ensures Valid()
      ensures channels == deviceChannels && latencyFrames == latency
      ensures writeFrames == 0 && history == []
      ensures ring[..] == old(ring[..])
    {
      channels := deviceChannels;
      latencyFrames := latency;
      writeFrames := 0;
      history := [];
    }

    /** The inner loop of a push: decode frame `f` of `s24` into the slot of frame `w`. */
    method WriteCaptured(w: nat, channels: nat, s24: Packet, f: nat)
      requires ring.Length == RING_SAMPLES && ValidChannels(channels)
      requires f < FrameCount(s24, channels)
      modifies ring
      ensures ring[..] == StoreSamples(old(ring[..]), w, channels, DecodeFrame(s24, channels, f), channels)
    {
      hide Decode, FrameBytes;
      var base := f * FrameBytes(channels);
      var slot := (w % RING) * channels;
      ghost var before := ring[..];
      ghost var frame := DecodeFrame(s24, channels, f);
      for ch := 0 to channels
        invariant ring[..] == StoreSamples(before, w, channels, frame, ch)
      {
        var o := base + ch * 3;
        SampleInBounds(s24, channels, f, ch);
        SlotInBounds(w, channels, ch);
        ghost var row := ring[..];
        ring[slot + ch] := Decode(s24[o], s24[o + 1], s24[o + 2]);
        assert frame[ch] == SampleAt(s24, channels, f, ch);
        assert ring[..] == row[Slot(w, channels, ch) := frame[ch]];
      }
    }

    method WriteTone(w: nat, channels: nat, v: int)
      requires ring.Length == RING_SAMPLES && ValidChannels(channels)
      modifies ring
      ensures ring[..] == StoreSamples(old(ring[..]), w, channels, Level(v, channels), channels)
    {
      var slot := (w % RING) * channels;
      ghost var before := ring[..];
      ghost var frame := Level(v, channels);
      for ch := 0 to channels
        invariant ring[..] == StoreSamples(before, w, channels, frame, ch)
      {
        SlotInBounds(w, channels, ch);
        ghost var row := ring[..];
        ring[slot + ch] := v;
        assert ring[..] == row[Slot(w, channels, ch) := frame[ch]];
      }
    }

    method PushFrames(channels: nat, s24: Packet)
      requires Valid() && channels == this.channels
      modifies this`writeFrames, this`history, ring
      ensures Valid()
      ensures history == old(history) + DecodeFrames(s24, channels)
      ensures writeFrames == old(writeFrames) + FrameCount(s24, channels)
      ensures ring[..] == StoreFrames(old(ring[..]), old(writeFrames), channels, DecodeFrames(s24, channels))
      ensures PacketLies(history, old(writeFrames), s24, channels)
    {
      var frameBytes := channels * 3;
      var frames := |s24| / frameBytes;
      CountedFrames(s24, channels, frameBytes);
      hide Holds, StoreSamples, StoreFrames, PacketLies, DecodeFrames, FrameCount, FrameBytes;
      ghost var all := DecodeFrames(s24, channels);
      if frames == 0 {
        assert all == [] && history + all == history;
        StoreNone(ring[..], writeFrames, channels, all);
        PushedLies(history, s24, channels);
        return;
      }
      var w := writeFrames;
      ghost var before := ring[..];
      StoreNone(before, writeFrames, channels, all);
      for f := 0 to frames
        invariant w == old(writeFrames) + f
        modifies ring
        invariant ring[..] == StoreFrames(before, old(writeFrames), channels, all[..f])
      {
        WriteCaptured(w, channels, s24, f);
        w := w + 1;
        StoreNext(before, old(writeFrames), channels, all, f);
      }
      writeFrames := w;
      StoreFramesHolds(before, history, channels, all);
      PushedLies(history, s24, channels);
      history := history + all;
    }

    /** The diagnostic tone: `frames` frames of it from `phase` on, one value on
        every channel of each. `wave` is the sample at a phase. */
    method PushSine(channels: nat, frames: nat, phase: real, wave: real -> int) returns (phase': real)
      requires Valid() && channels == this.channels
      modifies this`writeFrames, this`history, ring
      ensures Valid()
      ensures history == old(history) + ToneFrames(Tone(wave, phase, frames), channels)
      ensures writeFrames == old(writeFrames) + frames
      ensures ring[..] ==
              StoreFrames(old(ring[..]), old(writeFrames), channels, ToneFrames(Tone(wave, phase, frames), channels))
      ensures phase' == PhaseAfter(phase, frames)
      ensures ToneLies(history, old(writeFrames), frames, channels, wave, phase)
    {
      hide Holds, StoreSamples, StoreFrames, ToneLies, Tone, ToneFrames, Level, PhaseAfter;
      PhaseSteps(phase, 0);
      ghost var all := ToneFrames(Tone(wave, phase, frames), channels);
      var w := writeFrames;
      ghost var before := ring[..];
      StoreNone(before, writeFrames, channels, all);
      phase' := phase;
      for f := 0 to frames
        invariant w == old(writeFrames) + f && phase' == PhaseAfter(phase, f)
        modifies ring
        invariant ring[..] == StoreFrames(before, old(writeFrames), channels, all[..f])
      {
        PhaseSteps(phase, f);
        ToneFrameIs(wave, phase, frames, channels, f);
        var v := wave(phase');
        phase' := phase' + STEP;
        if phase' > TWO_PI {
          phase' := phase' - TWO_PI;
        }
        WriteTone(w, channels, v);
        w := w + 1;
        StoreNext(before, old(writeFrames), channels, all, f);
      }
      writeFrames := w;
      StoreFramesHolds(before, history, channels, all);
      ToneLands(history, frames, channels, wave, phase);
      history := history + all;
    }
  }

  lemma CountedFrames(bytes: Packet, channels: nat, frameBytes: nat)
    requires ValidChannels(channels) && frameBytes == channels * 3
    ensures |bytes| / frameBytes == FrameCount(bytes, channels)
  {
  }

  lemma PushedLies(history: seq<Frame>, bytes: Packet, channels: nat)
    requires ValidChannels(channels)
    ensures PacketLies(history + DecodeFrames(bytes, channels), |history|, bytes, channels)
  {
    DecodedLies(history, bytes, [], channels);
    assert history + DecodeFrames(bytes, channels) + [] == history + DecodeFrames(bytes, channels);
  }

  // ---- the tone ----

  /** The phase n frames after `phase`, wrapped at a full turn. */
  function PhaseAfter(phase: real, n: nat): real {
    if n == 0 then phase
    else
      var next := PhaseAfter(phase, n - 1) + STEP;
      if next > TWO_PI then next - TWO_PI else next
  }

  function Tone(wave: real -> int, phase: real, n: nat): (tone: seq<int>)
    ensures |tone| == n
  {
    seq(n, j requires 0 <= j < n => wave(PhaseAfter(phase, j)))
  }

  /** n frames of the tone. */
  predicate ToneLies(frames: seq<Frame>, at: nat, n: nat, channels: nat, wave: real -> int, phase: real) {
    && at + n <= |frames|
    && forall j :: 0 <= j < n ==> frames[at + j] == seq(channels, _ => wave(PhaseAfter(phase, j)))
  }

  lemma ToneLands(h: seq<Frame>, n: nat, channels: nat, wave: real -> int, phase: real)
    requires ValidChannels(channels)
    ensures ToneLies(h + ToneFrames(Tone(wave, phase, n), channels), |h|, n, channels, wave, phase)
  {
    forall j | 0 <= j < n
      ensures (h + ToneFrames(Tone(wave, phase, n), channels))[|h| + j] ==
              seq(channels, _ => wave(PhaseAfter(phase, j)))
    {
      assert ToneFrames(Tone(wave, phase, n), channels)[j] == seq(channels, _ => wave(PhaseAfter(phase, j)));
    }
  }

  lemma PhaseSteps(phase: real, n: nat)
    ensures PhaseAfter(phase, 0) == phase
    ensures var next := PhaseAfter(phase, n) + STEP;
      PhaseAfter(phase, n + 1) == if next > TWO_PI then next - TWO_PI else next
  {
  }

  lemma ToneFrameIs(wave: real -> int, phase: real, n: nat, channels: nat, f: nat)
    requires ValidChannels(channels) && f < n
    ensures ToneFrames(Tone(wave, phase, n), channels)[f] == Level(wave(PhaseAfter(phase, f)), channels)
  {
  }

  /** Cutting the tone into packets does not break it: pushed in two pieces it is
      the tone pushed in one. */
  lemma {:induction false} ToneContinues(wave: real -> int, phase: real, a: nat, b: nat)
    ensures PhaseAfter(phase, a + b) == PhaseAfter(PhaseAfter(phase, a), b)
    ensures Tone(wave, phase, a + b) == Tone(wave, phase, a) + Tone(wave, PhaseAfter(phase, a), b)
  {
    if b > 0 {
      ToneContinues(wave, phase, a, b - 1);
      assert Tone(wave, phase, a + b) == Tone(wave, phase, a + b - 1) + [wave(PhaseAfter(phase, a + b - 1))];
    }
  }

  /** The wrapped phase stays in one turn and is n steps on, up to whole turns. */
  lemma {:induction false} PhaseIsWrapped(phase: real, n: nat) returns (turns: nat)
    requires 0.0 <= phase <= TWO_PI
    ensures 0.0 <= PhaseAfter(phase, n) <= TWO_PI
    ensures PhaseAfter(phase, n) + turns as real * TWO_PI == phase + n as real * STEP
    ensures TWO_PI == 6.283185307179586 && STEP == 6.283185307179586 * 440.0 / 48000.0
  {
    if n == 0 {
      turns := 0;
    } else {
      turns := PhaseIsWrapped(phase, n - 1);
      if PhaseAfter(phase, n - 1) + STEP > TWO_PI {
        turns := turns + 1;
      }
    }
  }

  /** A frame with one value on every channel. */
  function Level(v: int, channels: nat): (frame: Frame)
    ensures |frame| == channels
  {
    seq(channels, _ => v)
  }

  function ToneFrames(tone: seq<int>, channels: nat): (frames: seq<Frame>)
    requires ValidChannels(channels)
    ensures |frames| == |tone| && Shaped(frames, channels)
  {
    seq(|tone|, f requires 0 <= f < |tone| => Level(tone[f], channels))
  }
}
