// The shared ring as a value: where a frame lives, what "the ring holds the
// last RING frames" means, and what one sample write does to it.
module Ring {
  import Bits

  const RING: nat := 0x1_0000
  const MAX_CHANNELS: nat := 8
  const RING_SAMPLES: nat := RING * MAX_CHANNELS
  const COUNTER_MASK: bv64 := 0xFFFF

  /** One captured moment: a sample per channel. */
  type Frame = seq<int>

  /** Where sample `ch` of frame number `k` is stored. */
  function Slot(k: nat, channels: nat, ch: nat): nat {
    (k % RING) * channels + ch
  }

  predicate ValidChannels(channels: nat) { 1 <= channels <= MAX_CHANNELS }

  /** The code masks a 64-bit counter; the model reduces it modulo RING. */
  lemma SlotMask(w: bv64)
    ensures Bits.Value(w & COUNTER_MASK) == Bits.Value(w) % RING
  {
    MaskValue();
    Bits.MaskIsModulo(w, COUNTER_MASK);
  }

  lemma MaskValue()
    ensures Bits.Value(COUNTER_MASK) + 1 == RING
  {
    Bits.FourOnes(0xFFFF);
    Bits.FourOnes(0xFFF);
    Bits.FourOnes(0xFF);
    Bits.FourOnes(0xF);
  }

  /** The layout: 65536 places of one sample per channel, samples of a frame side by
      side and frames one after the other, around the ring; room for 8 channels. */
  lemma Layout(k: nat, channels: nat, ch: nat)
    ensures Slot(0, channels, 0) == 0
    ensures Slot(k, channels, ch + 1) == Slot(k, channels, ch) + 1
    ensures Slot(k + 1, channels, 0) == if (k + 1) % 65536 == 0 then 0 else Slot(k, channels, 0) + channels
    ensures RING_SAMPLES == 65536 * 8 && (ValidChannels(channels) <==> 1 <= channels <= 8)
  {
    if (k + 1) % RING != 0 {
      assert (k + 1) % RING == k % RING + 1;
      Bits.Distribute(channels, k % RING, 1);
    }
  }

  lemma SlotInBounds(k: nat, channels: nat, ch: nat)
    requires ValidChannels(channels) && ch < channels
    ensures Slot(k, channels, ch) < RING_SAMPLES
  {
    Bits.MulMonotone(channels, k % RING, RING - 1);
    Bits.MulMonotone(RING, channels, MAX_CHANNELS);
  }

  /** Two samples share a slot only if they are the same channel of frames a
      whole number of ring lengths apart. */
  lemma SlotInjective(k: nat, k': nat, channels: nat, ch: nat, ch': nat)
    requires ch < channels && ch' < channels
    requires Slot(k, channels, ch) == Slot(k', channels, ch')
    ensures k % RING == k' % RING && ch == ch'
  {
    var x := Slot(k, channels, ch);
    Bits.RemainderIsUnique(x, channels, k % RING, ch);
    Bits.RemainderIsUnique(x, channels, k' % RING, ch');
  }

  /** The place in the ring, and the channel, that a slot is of. */
  function PlaceOf(slot: nat, channels: nat): nat
    requires channels > 0
  {
    slot / channels
  }

  function ChannelOf(slot: nat, channels: nat): (ch: nat)
    requires channels > 0
    ensures ch < channels
  {
    slot % channels
  }

  lemma SlotOfPlace(slot: nat, channels: nat)
    requires channels > 0 && PlaceOf(slot, channels) < RING
    ensures Slot(PlaceOf(slot, channels), channels, ChannelOf(slot, channels)) == slot
  {
  }

  /** A slot computed with one channel count, in a ring written with another, is of
      the sample meant exactly if the counts agree, or in the first place of the
      ring if there is such a channel. */
  lemma StrideExactly(src: nat, channels: nat, ch: nat, stride: nat)
    requires ch < channels && stride > 0
    ensures var x := Slot(src, channels, ch);
      PlaceOf(x, stride) == src % RING && ChannelOf(x, stride) == ch <==>
      ch < stride && (channels == stride || src % RING == 0)
  {
    var x, r := Slot(src, channels, ch), src % RING;
    if PlaceOf(x, stride) == r && ChannelOf(x, stride) == ch {
      assert x == stride * r + ch;
      assert r * channels == stride * r;
      SameProduct(r, channels, stride);
    } else if ch < stride && (channels == stride || r == 0) {
      Bits.RemainderIsUnique(x, stride, r, ch);
    }
  }

  lemma SameProduct(r: nat, a: nat, b: nat)
    requires r * a == b * r
    ensures a == b || r == 0
  {
  }

  lemma NearbyFramesDiffer(k: nat, k': nat)
    requires k < k' < k + RING
    ensures k % RING != k' % RING
  {
  }

  /** Every frame of `hist` has one sample per channel. */
  predicate Shaped(hist: seq<Frame>, channels: nat) {
    forall k :: 0 <= k < |hist| ==> |hist[k]| == channels
  }

  /** How many samples of channel `ch` are stored when `count` frames have been
      begun and only the first `done` samples of the newest one written. */
  function Stored(ch: nat, count: nat, done: nat): nat {
    if ch < done || count == 0 then count else count - 1
  }

  /** The samples that are in the ring: the last RING stored of every channel. */
  predicate Resident(k: int, ch: int, count: nat, channels: nat, done: nat) {
    0 <= ch < channels && 0 <= k < Stored(ch, count, done) <= k + RING
  }

  /** Of the first n frames, the one stored last in the slots of frame `src`. */
  function LatestAt(src: nat, n: nat): nat
    requires src < n
  {
    src + RING * ((n - 1 - src) / RING)
  }

  /** It is the only frame of the last RING that shares them, and it is `src`
      itself exactly until frame src + RING is stored. */
  lemma LatestExactly(src: nat, n: nat, k: nat)
    requires src < n
    ensures k < n <= k + RING && k % RING == src % RING <==> k == LatestAt(src, n)
    ensures src <= LatestAt(src, n)
    ensures LatestAt(src, n) == src <==> n <= src + RING
  {
    var q := (n - 1 - src) / RING;
    assert (src + RING * q) % RING == src % RING;
    if k < n <= k + RING && k % RING == src % RING {
      assert k - src == RING * (k / RING - src / RING);
    }
  }

  /** The ring refines the unbounded history `hist`. */
  ghost predicate Holds(ring: seq<int>, hist: seq<Frame>, channels: nat, done: nat)
    requires |ring| == RING_SAMPLES && ValidChannels(channels) && Shaped(hist, channels)
  {
    forall k, ch :: Resident(k, ch, |hist|, channels, done) ==>
      HoldsAt(ring, hist, channels, k, ch)
  }

  ghost predicate HoldsAt(ring: seq<int>, hist: seq<Frame>, channels: nat, k: nat, ch: nat)
    requires |ring| == RING_SAMPLES && ValidChannels(channels) && Shaped(hist, channels)
    requires k < |hist| && ch < channels
  {
    SlotInBounds(k, channels, ch);
    ring[Slot(k, channels, ch)] == hist[k][ch]
  }

  /** Starting a frame gives up nothing: only storing a sample replaces one. */
  lemma BeginFrameHolds(ring: seq<int>, hist: seq<Frame>, channels: nat, frame: Frame)
    requires |ring| == RING_SAMPLES && ValidChannels(channels) && Shaped(hist, channels)
    requires |frame| == channels
    requires Holds(ring, hist, channels, channels)
    ensures Shaped(hist + [frame], channels) && Holds(ring, hist + [frame], channels, 0)
  {
    var next := hist + [frame];
    forall k, ch | Resident(k, ch, |next|, channels, 0)
      ensures HoldsAt(ring, next, channels, k, ch)
    {
      assert Resident(k, ch, |hist|, channels, channels);
      assert HoldsAt(ring, hist, channels, k, ch);
      assert next[k] == hist[k];
    }
  }

  /** Writing the next sample of the newest frame destroys no resident sample. */
  lemma WriteSampleHolds(ring: seq<int>, hist: seq<Frame>, channels: nat, done: nat)
    requires |ring| == RING_SAMPLES && ValidChannels(channels) && Shaped(hist, channels)
    requires hist != [] && done < channels
    requires Holds(ring, hist, channels, done)
    ensures Slot(|hist| - 1, channels, done) < RING_SAMPLES
    ensures Holds(ring[Slot(|hist| - 1, channels, done) := hist[|hist| - 1][done]], hist, channels, done + 1)
  {
    var newest := |hist| - 1;
    SlotInBounds(newest, channels, done);
    var ring' := ring[Slot(newest, channels, done) := hist[newest][done]];
    forall k, ch | Resident(k, ch, |hist|, channels, done + 1)
      ensures HoldsAt(ring', hist, channels, k, ch)
    {
      SlotInBounds(k, channels, ch);
      if k != newest || ch != done {
        assert Resident(k, ch, |hist|, channels, done);
        assert HoldsAt(ring, hist, channels, k, ch);
        if Slot(k, channels, ch) == Slot(newest, channels, done) {
          SlotInjective(k, newest, channels, ch, done);
          NearbyFramesDiffer(k, newest);
        }
      }
    }
  }

  /** The ring after the first `n` samples of `frame` are stored as frame `k`. */
  function StoreSamples(ring: seq<int>, k: nat, channels: nat, frame: Frame, n: nat): (r: seq<int>)
    requires |ring| == RING_SAMPLES && ValidChannels(channels) && n <= |frame| == channels
    ensures |r| == RING_SAMPLES
  {
    if n == 0 then ring
    else
      SlotInBounds(k, channels, n - 1);
      StoreSamples(ring, k, channels, frame, n - 1)[Slot(k, channels, n - 1) := frame[n - 1]]
  }

  /** The ring after `frames` are stored from counter value `w` on. */
  function StoreFrames(ring: seq<int>, w: nat, channels: nat, frames: seq<Frame>): (r: seq<int>)
    requires |ring| == RING_SAMPLES && ValidChannels(channels) && Shaped(frames, channels)
    ensures |r| == RING_SAMPLES
  {
    if frames == [] then ring
    else
      var n := |frames| - 1;
      StoreSamples(StoreFrames(ring, w, channels, frames[..n]), w + n, channels, frames[n], channels)
  }

  /** Storing the first f + 1 of some frames is storing f and then one more. */
  lemma StoreNext(ring: seq<int>, w: nat, channels: nat, frames: seq<Frame>, f: nat)
    requires |ring| == RING_SAMPLES && ValidChannels(channels) && Shaped(frames, channels) && f < |frames|
    ensures StoreFrames(ring, w, channels, frames[..f + 1]) ==
            StoreSamples(StoreFrames(ring, w, channels, frames[..f]), w + f, channels, frames[f], channels)
  {
    hide StoreSamples;
    assert frames[..f + 1][..f] == frames[..f];
  }

  lemma StoreNone(ring: seq<int>, w: nat, channels: nat, frames: seq<Frame>)
    requires |ring| == RING_SAMPLES && ValidChannels(channels) && Shaped(frames, channels)
    ensures StoreFrames(ring, w, channels, frames[..0]) == ring
    ensures frames[..|frames|] == frames
  {
  }

  lemma {:induction false} StoreSamplesHolds(ring: seq<int>, hist: seq<Frame>, channels: nat, n: nat)
    requires |ring| == RING_SAMPLES && ValidChannels(channels) && Shaped(hist, channels)
    requires hist != [] && n <= channels
    requires Holds(ring, hist, channels, 0)
    ensures Holds(StoreSamples(ring, |hist| - 1, channels, hist[|hist| - 1], n), hist, channels, n)
  {
    if n > 0 {
      StoreSamplesHolds(ring, hist, channels, n - 1);
      WriteSampleHolds(StoreSamples(ring, |hist| - 1, channels, hist[|hist| - 1], n - 1), hist, channels, n - 1);
    }
  }

  /** However many frames a push carries, and however often it wraps, the ring
      holds the last RING frames of the extended history. */
  lemma {:induction false} StoreFramesHolds(ring: seq<int>, hist: seq<Frame>, channels: nat, frames: seq<Frame>)
    requires |ring| == RING_SAMPLES && ValidChannels(channels)
    requires Shaped(hist, channels) && Shaped(frames, channels)
    requires Holds(ring, hist, channels, channels)
    ensures Shaped(hist + frames, channels)
    ensures Holds(StoreFrames(ring, |hist|, channels, frames), hist + frames, channels, channels)
  {
    if frames == [] {
      assert hist + frames == hist;
    } else {
      var n := |frames| - 1;
      var prefix := hist + frames[..n];
      StoreFramesHolds(ring, hist, channels, frames[..n]);
      var r := StoreFrames(ring, |hist|, channels, frames[..n]);
      BeginFrameHolds(r, prefix, channels, frames[n]);
      assert prefix + [frames[n]] == hist + frames;
      StoreSamplesHolds(r, hist + frames, channels, channels);
    }
  }

  /** Any sequence of pushes, from any ring contents. */
  function StorePushes(ring: seq<int>, w: nat, channels: nat, pushes: seq<seq<Frame>>): (r: seq<int>)
    requires |ring| == RING_SAMPLES && ValidChannels(channels)
    requires forall i :: 0 <= i < |pushes| ==> Shaped(pushes[i], channels)
    ensures |r| == RING_SAMPLES
    decreases |pushes|
  {
    if pushes == [] then ring
    else StorePushes(StoreFrames(ring, w, channels, pushes[0]), w + |pushes[0]|, channels, pushes[1..])
  }

  function Concat<T>(parts: seq<seq<T>>): seq<T> {
    if parts == [] then [] else parts[0] + Concat(parts[1..])
  }

  /** Ring refines history: after any pushes of any sizes, every one of the last
      RING frames is at its slot. After a reset `hist` is empty and the ring may
      hold anything. */
  lemma {:induction false} RingRefinesHistory(ring: seq<int>, hist: seq<Frame>, channels: nat, pushes: seq<seq<Frame>>)
    requires |ring| == RING_SAMPLES && ValidChannels(channels) && Shaped(hist, channels)
    requires forall i :: 0 <= i < |pushes| ==> Shaped(pushes[i], channels)
    requires Holds(ring, hist, channels, channels)
    ensures Shaped(hist + Concat(pushes), channels)
    ensures Holds(StorePushes(ring, |hist|, channels, pushes), hist + Concat(pushes), channels, channels)
    decreases |pushes|
  {
    if pushes == [] {
      assert hist + Concat(pushes) == hist;
    } else {
      StoreFramesHolds(ring, hist, channels, pushes[0]);
      RingRefinesHistory(StoreFrames(ring, |hist|, channels, pushes[0]), hist + pushes[0], channels, pushes[1..]);
      assert (hist + pushes[0]) + Concat(pushes[1..]) == hist + Concat(pushes);
    }
  }
}
