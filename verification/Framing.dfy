// How the bytes of one isochronous packet become frames.
module Framing {
  import Bits
  import opened S24
  import opened Ring

  type Packet = seq<byte>

  function FrameBytes(channels: nat): nat { channels * 3 }

  function FrameCount(bytes: Packet, channels: nat): nat
    requires ValidChannels(channels)
  {
    |bytes| / FrameBytes(channels)
  }

  /** Where channel `ch` of frame `f` begins. */
  function Offset(channels: nat, f: nat, ch: nat): nat {
    f * FrameBytes(channels) + ch * 3
  }

  lemma SampleInBounds(bytes: Packet, channels: nat, f: nat, ch: nat)
    requires ValidChannels(channels) && f < FrameCount(bytes, channels) && ch < channels
    ensures f * FrameBytes(channels) + ch * 3 + 2 < (f + 1) * FrameBytes(channels) <= |bytes|
    ensures Offset(channels, f, ch) + 2 < |bytes|
  {
    var fb := FrameBytes(channels);
    Bits.MulMonotone(fb, f + 1, |bytes| / fb);
    assert |bytes| == fb * (|bytes| / fb) + |bytes| % fb;
  }

  /** Channel `ch` of frame `f`: bytes 3ch..3ch+2 of that frame. */
  function SampleAt(bytes: Packet, channels: nat, f: nat, ch: nat): int
    requires ValidChannels(channels) && f < FrameCount(bytes, channels) && ch < channels
  {
    SampleInBounds(bytes, channels, f, ch);
    var o := Offset(channels, f, ch);
    Decode(bytes[o], bytes[o + 1], bytes[o + 2])
  }

  function DecodeFrame(bytes: Packet, channels: nat, f: nat): (frame: Frame)
    requires ValidChannels(channels) && f < FrameCount(bytes, channels)
    ensures |frame| == channels
  {
    seq(channels, ch requires 0 <= ch < channels => SampleAt(bytes, channels, f, ch))
  }

  /** The whole frames of one packet; a partial tail is dropped. */
  function DecodeFrames(bytes: Packet, channels: nat): (frames: seq<Frame>)
    requires ValidChannels(channels)
    ensures |frames| == FrameCount(bytes, channels) && Shaped(frames, channels)
  {
    seq(FrameCount(bytes, channels),
        f requires 0 <= f < FrameCount(bytes, channels) => DecodeFrame(bytes, channels, f))
  }

  // ---- the same, byte by byte ----

  /** How many whole frames of 24-bit samples n bytes are. */
  function FramesIn(n: nat, channels: nat): nat
    requires channels > 0
  {
    Bits.Quotient(n, 3 * channels)
  }

  /** The value of the three bytes at o: 24 bits, low byte first, two's complement. */
  function ValueAt(bytes: Packet, o: nat): int
    requires o + 2 < |bytes|
  {
    var b0: int, b1: int, b2: int := bytes[o], bytes[o + 1], bytes[o + 2];
    b0 + 256 * b1 + 65536 * b2 - (if b2 >= 128 then 16777216 else 0)
  }

  /** Sample ch of frame f of the packet. */
  predicate SampleLies(frames: seq<Frame>, at: nat, bytes: Packet, channels: nat, f: nat, ch: nat) {
    && at + f < |frames| && |frames[at + f]| == channels && ch < channels
    && 3 * (f * channels + ch) + 2 < |bytes|
    && 0 <= 3 * (f * channels + ch)
    && frames[at + f][ch] == ValueAt(bytes, 3 * (f * channels + ch))
  }

  /** The whole frames of the packet lie in `frames` from place `at` on: as many as
      the bytes have room for, each sample at its three bytes. */
  predicate PacketLies(frames: seq<Frame>, at: nat, bytes: Packet, channels: nat)
    requires channels > 0
  {
    && at + FramesIn(|bytes|, channels) <= |frames|
    && forall f, ch :: 0 <= f < FramesIn(|bytes|, channels) && 0 <= ch < channels ==>
         SampleLies(frames, at, bytes, channels, f, ch)
  }

  lemma OffsetOf(f: nat, channels: nat, ch: nat)
    ensures Offset(channels, f, ch) == 3 * (f * channels + ch)
  {
  }

  lemma Between<T>(front: seq<T>, middle: seq<T>, back: seq<T>, f: nat)
    requires f < |middle|
    ensures (front + middle + back)[|front| + f] == middle[f]
  {
  }

  /** The sample decoded is the value of its three bytes. */
  lemma DecodedValue(bytes: Packet, channels: nat, f: nat, ch: nat)
    requires ValidChannels(channels) && f < FrameCount(bytes, channels) && ch < channels
    ensures 0 <= 3 * (f * channels + ch) && 3 * (f * channels + ch) + 2 < |bytes|
    ensures SampleAt(bytes, channels, f, ch) == ValueAt(bytes, 3 * (f * channels + ch))
  {
    hide Decode, FrameCount, FrameBytes, Offset;
    SampleInBounds(bytes, channels, f, ch);
    OffsetOf(f, channels, ch);
    var o := Offset(channels, f, ch);
    DecodeIsTwosComplement(bytes[o], bytes[o + 1], bytes[o + 2]);
  }

  lemma DecodedSampleLies(front: seq<Frame>, bytes: Packet, back: seq<Frame>, channels: nat, f: nat, ch: nat)
    requires ValidChannels(channels) && f < FrameCount(bytes, channels) && ch < channels
    ensures SampleLies(front + DecodeFrames(bytes, channels) + back, |front|, bytes, channels, f, ch)
  {
    hide Decode, FrameCount, FrameBytes, ValueAt, SampleAt;
    DecodedValue(bytes, channels, f, ch);
    Between(front, DecodeFrames(bytes, channels), back, f);
  }

  /** What decoding makes of a packet, and nothing is lost. */
  lemma DecodedLies(front: seq<Frame>, bytes: Packet, back: seq<Frame>, channels: nat)
    requires ValidChannels(channels)
    ensures |DecodeFrames(bytes, channels)| == FramesIn(|bytes|, channels)
    ensures PacketLies(front + DecodeFrames(bytes, channels) + back, |front|, bytes, channels)
  {
    assert 3 * channels == FrameBytes(channels);
    hide SampleLies, DecodeFrames;
    forall f, ch | 0 <= f < FramesIn(|bytes|, channels) && 0 <= ch < channels
      ensures SampleLies(front + DecodeFrames(bytes, channels) + back, |front|, bytes, channels, f, ch)
    {
      DecodedSampleLies(front, bytes, back, channels, f, ch);
    }
  }

  predicate Aligned(bytes: Packet, channels: nat)
    requires ValidChannels(channels)
  {
    |bytes| % FrameBytes(channels) == 0
  }

  /** The packet as the daemon passes it on: cut back to whole frames. */
  function WholePart(bytes: Packet, channels: nat): (whole: Packet)
    requires ValidChannels(channels)
  {
    bytes[..|bytes| - |bytes| % FrameBytes(channels)]
  }

  lemma WholePartLength(bytes: Packet, channels: nat)
    requires ValidChannels(channels)
    ensures FrameCount(WholePart(bytes, channels), channels) == FrameCount(bytes, channels)
    ensures |WholePart(bytes, channels)| == 0 <==> FrameCount(bytes, channels) == 0
    ensures |bytes| == 0 ==> Aligned(bytes, channels)
    ensures FrameCount(bytes, channels) == 0 ==> DecodeFrames(bytes, channels) == []
  {
    var fb := FrameBytes(channels);
    var n := |bytes| / fb;
    assert |WholePart(bytes, channels)| == fb * n;
    Bits.RemainderIsUnique(fb * n, fb, n, 0);
  }

  lemma WholePartKeepsFrames(bytes: Packet, channels: nat)
    requires ValidChannels(channels)
    ensures Aligned(WholePart(bytes, channels), channels)
    ensures DecodeFrames(WholePart(bytes, channels), channels) == DecodeFrames(bytes, channels)
  {
    hide Decode;
    var fb, whole := FrameBytes(channels), WholePart(bytes, channels);
    var n := |bytes| / fb;
    assert |whole| == fb * n + 0;
    Bits.RemainderIsUnique(|whole|, fb, n, 0);
    forall f | 0 <= f < n
      ensures DecodeFrame(whole, channels, f) == DecodeFrame(bytes, channels, f)
    {
      forall ch | 0 <= ch < channels
        ensures SampleAt(whole, channels, f, ch) == SampleAt(bytes, channels, f, ch)
      {
        SampleInBounds(whole, channels, f, ch);
      }
    }
  }

  /** The frames of a sequence of packets, each framed on its own. */
  function AllFrames(packets: seq<Packet>, channels: nat): (frames: seq<Frame>)
    requires ValidChannels(channels)
    ensures Shaped(frames, channels)
  {
    if packets == [] then []
    else AllFrames(packets[..|packets| - 1], channels) + DecodeFrames(packets[|packets| - 1], channels)
  }

  function Bytes(packets: seq<Packet>): Packet {
    if packets == [] then [] else Bytes(packets[..|packets| - 1]) + packets[|packets| - 1]
  }

  lemma DecodeFramesConcat(a: Packet, b: Packet, channels: nat)
    requires ValidChannels(channels) && Aligned(a, channels)
    ensures DecodeFrames(a + b, channels) == DecodeFrames(a, channels) + DecodeFrames(b, channels)
  {
    var fb := FrameBytes(channels);
    var n := |a| / fb;
    Bits.DivideSum(|a|, |b|, fb);
    forall f | 0 <= f < n + |b| / fb
      ensures DecodeFrame(a + b, channels, f) ==
              if f < n then DecodeFrame(a, channels, f) else DecodeFrame(b, channels, f - n)
    {
      if f < n {
        FrameInFront(a, b, channels, f);
      } else {
        FrameBehind(a, b, channels, f - n);
      }
    }
  }

  lemma FrameInFront(a: Packet, b: Packet, channels: nat, f: nat)
    requires ValidChannels(channels) && f < FrameCount(a, channels)
    ensures f < FrameCount(a + b, channels)
    ensures DecodeFrame(a + b, channels, f) == DecodeFrame(a, channels, f)
  {
    hide Decode;
    assert |a| / FrameBytes(channels) <= |a + b| / FrameBytes(channels);
    forall ch | 0 <= ch < channels
      ensures SampleAt(a + b, channels, f, ch) == SampleAt(a, channels, f, ch)
    {
      SampleInBounds(a, channels, f, ch);
    }
  }

  lemma CountsBehind(a: Packet, b: Packet, channels: nat, f: nat)
    requires ValidChannels(channels) && Aligned(a, channels) && f < FrameCount(b, channels)
    ensures FrameCount(a, channels) + f < FrameCount(a + b, channels)
    ensures forall ch: nat :: Offset(channels, FrameCount(a, channels) + f, ch) == |a| + Offset(channels, f, ch)
  {
    var fb, n := FrameBytes(channels), FrameCount(a, channels);
    Bits.DivideSum(|a|, |b|, fb);
    Bits.Distribute(fb, n, f);
    assert |a| == fb * n;
  }

  lemma FrameBehind(a: Packet, b: Packet, channels: nat, f: nat)
    requires ValidChannels(channels) && Aligned(a, channels) && f < FrameCount(b, channels)
    ensures FrameCount(a, channels) + f < FrameCount(a + b, channels)
    ensures DecodeFrame(a + b, channels, FrameCount(a, channels) + f) == DecodeFrame(b, channels, f)
  {
    CountsBehind(a, b, channels, f);
    var n := FrameCount(a, channels);
    hide Decode, FrameBytes, FrameCount, Aligned, Offset;
    forall ch | 0 <= ch < channels
      ensures SampleAt(a + b, channels, n + f, ch) == SampleAt(b, channels, f, ch)
    {
      SampleInBounds(b, channels, f, ch);
      assert Offset(channels, n + f, ch) == |a| + Offset(channels, f, ch);
    }
  }

  lemma LastPacket(packets: seq<Packet>, channels: nat)
    requires ValidChannels(channels)
    ensures Bytes([]) == [] && AllFrames([], channels) == []
    ensures packets != [] ==>
              var n := |packets| - 1;
              && Bytes(packets) == Bytes(packets[..n]) + packets[n]
              && AllFrames(packets, channels) == AllFrames(packets[..n], channels) + DecodeFrames(packets[n], channels)
  {
  }

  lemma JoinThree<T>(a: seq<T>, b: seq<T>, c: seq<T>)
    ensures (a + b) + c == a + (b + c)
  {
  }

  lemma {:induction false} FirstPacket(packets: seq<Packet>, channels: nat)
    requires ValidChannels(channels) && packets != []
    ensures Bytes(packets) == packets[0] + Bytes(packets[1..])
    ensures AllFrames(packets, channels) == DecodeFrames(packets[0], channels) + AllFrames(packets[1..], channels)
    decreases |packets|
  {
    hide Bytes, AllFrames, DecodeFrames;
    var n := |packets| - 1;
    var front, rest := packets[..n], packets[1..];
    LastPacket(packets, channels);
    LastPacket(rest, channels);
    if n == 0 {
      assert front == [] && rest == [];
    } else {
      FirstPacket(front, channels);
      assert front[1..] == rest[..n - 1] && rest[n - 1] == packets[n];
      JoinThree(packets[0], Bytes(rest[..n - 1]), packets[n]);
      JoinThree(DecodeFrames(packets[0], channels), AllFrames(rest[..n - 1], channels),
                DecodeFrames(packets[n], channels));
    }
  }

  /** Framing the byte stream agrees with framing packet by packet. */
  predicate StreamAgrees(packets: seq<Packet>, channels: nat)
    requires ValidChannels(channels)
  {
    DecodeFrames(Bytes(packets), channels) == AllFrames(packets, channels)
  }

  /** Behind the first packet that is not a whole number of frames too little
      follows to complete its tail to a frame. */
  predicate NoTailCompleted(packets: seq<Packet>, channels: nat)
    requires ValidChannels(channels)
    decreases |packets|
  {
    packets != [] ==>
      if Aligned(packets[0], channels) then NoTailCompleted(packets[1..], channels)
      else |packets[0]| % FrameBytes(channels) + |Bytes(packets[1..])| < FrameBytes(channels)
  }

  lemma TooShort(a: Packet, b: Packet, channels: nat)
    requires ValidChannels(channels)
    requires |a| % FrameBytes(channels) + |b| < FrameBytes(channels)
    ensures DecodeFrames(a + b, channels) == DecodeFrames(a, channels)
  {
    hide Decode;
    var fb := FrameBytes(channels);
    Bits.RemainderIsUnique(|a| + |b|, fb, |a| / fb, |a| % fb + |b|);
    forall f | 0 <= f < FrameCount(a, channels)
      ensures DecodeFrame(a + b, channels, f) == DecodeFrame(a, channels, f)
    {
      FrameInFront(a, b, channels, f);
    }
  }

  lemma {:induction false} NoWholeFrame(packets: seq<Packet>, channels: nat)
    requires ValidChannels(channels) && |Bytes(packets)| < FrameBytes(channels)
    ensures AllFrames(packets, channels) == []
    decreases |packets|
  {
    if packets != [] {
      FirstPacket(packets, channels);
      NoWholeFrame(packets[1..], channels);
      TooShort([], packets[0], channels);
    }
  }

  /** While that is so, the two framings agree; so they do while every packet but
      the last is a whole number of frames. */
  lemma {:induction false} StreamFramingAgrees(packets: seq<Packet>, channels: nat)
    requires ValidChannels(channels) && NoTailCompleted(packets, channels)
    ensures StreamAgrees(packets, channels)
    decreases |packets|
  {
    if packets != [] {
      FirstPacket(packets, channels);
      if Aligned(packets[0], channels) {
        StreamFramingAgrees(packets[1..], channels);
        DecodeFramesConcat(packets[0], Bytes(packets[1..]), channels);
      } else {
        TooShort(packets[0], Bytes(packets[1..]), channels);
        NoWholeFrame(packets[1..], channels);
      }
    }
  }

  lemma {:induction false} AlignedButLast(packets: seq<Packet>, channels: nat)
    requires ValidChannels(channels)
    requires forall i :: 0 <= i < |packets| - 1 ==> Aligned(packets[i], channels)
    ensures NoTailCompleted(packets, channels)
    decreases |packets|
  {
    if packets != [] {
      AlignedButLast(packets[1..], channels);
    }
  }

  // ---- and otherwise need not ----

  predicate SameLengths(packets: seq<Packet>, others: seq<Packet>) {
    |packets| == |others| && forall i :: 0 <= i < |packets| ==> |packets[i]| == |others[i]|
  }

  function Zeros(n: nat): (bytes: Packet)
    ensures |bytes| == n
  {
    seq(n, _ => 0)
  }

  function Blank(packets: seq<Packet>): (blank: seq<Packet>)
    ensures SameLengths(packets, blank)
  {
    seq(|packets|, i requires 0 <= i < |packets| => Zeros(|packets[i]|))
  }

  /** Where the whole frames of n bytes end. */
  function TailStart(n: nat, frame: nat): (at: nat)
    requires frame > 0
    ensures at <= n && (n % frame != 0 ==> at < n)
  {
    n - n % frame
  }

  /** Silent packets of these lengths, but for a 1 that begins the first tail. */
  function Marked(packets: seq<Packet>, channels: nat): (marked: seq<Packet>)
    requires ValidChannels(channels)
    ensures SameLengths(packets, marked)
    decreases |packets|
  {
    if packets == [] then []
    else if Aligned(packets[0], channels) then [Zeros(|packets[0]|)] + Marked(packets[1..], channels)
    else
      var n := |packets[0]|;
      [Zeros(n)[TailStart(n, FrameBytes(channels)) := 1]] + Blank(packets[1..])
  }

  /** The first channel is silent. */
  predicate Quiet(frames: seq<Frame>) {
    forall f :: 0 <= f < |frames| ==> |frames[f]| > 0 && frames[f][0] == 0
  }

  /** Where the first sample of frame f lies. */
  lemma FirstSample(bytes: Packet, channels: nat, f: nat) returns (o: nat)
    requires ValidChannels(channels) && f < FrameCount(bytes, channels)
    ensures o == f * FrameBytes(channels) && o + 2 < |bytes|
    ensures |DecodeFrames(bytes, channels)[f]| == channels
    ensures DecodeFrames(bytes, channels)[f][0] == Decode(bytes[o], bytes[o + 1], bytes[o + 2])
  {
    hide Decode, FrameBytes, FrameCount;
    o := f * FrameBytes(channels);
    SampleInBounds(bytes, channels, f, 0);
    assert DecodeFrames(bytes, channels)[f][0] == SampleAt(bytes, channels, f, 0);
  }

  lemma SmallSample(b0: byte, b1: byte, b2: byte)
    requires b0 <= 1 && b1 == b2 == 0
    ensures Decode(b0, b1, b2) == b0
  {
    hide Decode;
    DecodeIsTwosComplement(b0, b1, b2);
  }

  lemma ZeroSample(bytes: Packet, channels: nat, f: nat)
    requires ValidChannels(channels) && f < FrameCount(bytes, channels)
    requires forall k :: 0 <= k < |bytes| ==> bytes[k] == 0
    ensures |DecodeFrames(bytes, channels)[f]| == channels && DecodeFrames(bytes, channels)[f][0] == 0
  {
    hide Decode, DecodeFrames, FrameBytes, FrameCount;
    var o := FirstSample(bytes, channels, f);
    SmallSample(bytes[o], bytes[o + 1], bytes[o + 2]);
  }

  lemma ZerosAreQuiet(n: nat, channels: nat)
    requires ValidChannels(channels)
    ensures Quiet(DecodeFrames(Zeros(n), channels))
  {
    hide DecodeFrames, FrameCount;
    forall f | 0 <= f < FrameCount(Zeros(n), channels)
      ensures |DecodeFrames(Zeros(n), channels)[f]| > 0 && DecodeFrames(Zeros(n), channels)[f][0] == 0
    {
      ZeroSample(Zeros(n), channels, f);
    }
  }

  lemma {:induction false} BlankBytes(packets: seq<Packet>, channels: nat)
    requires ValidChannels(channels)
    ensures Bytes(Blank(packets)) == Zeros(|Bytes(packets)|)
    ensures Quiet(AllFrames(Blank(packets), channels))
    decreases |packets|
  {
    hide DecodeFrames;
    if packets != [] {
      FirstPacket(packets, channels);
      FirstPacket(Blank(packets), channels);
      assert Blank(packets)[1..] == Blank(packets[1..]);
      BlankBytes(packets[1..], channels);
      ZerosAreQuiet(|packets[0]|, channels);
    }
  }

  lemma TailCounts(n: nat, r: nat, fb: nat)
    requires fb > 0 && n % fb + r >= fb
    ensures TailStart(n, fb) == (n / fb) * fb && (n + r) / fb > n / fb
  {
    var f := n / fb;
    assert n == fb * f + n % fb;
    if (n + r) / fb <= f {
      Bits.MulMonotone(fb, (n + r) / fb + 1, f + 1);
    }
  }

  /** A completed tail is a frame of its own, and begins with the mark. */
  lemma TailIsFrame(n: nat, r: nat, channels: nat)
    requires ValidChannels(channels) && n % FrameBytes(channels) != 0
    requires n % FrameBytes(channels) + r >= FrameBytes(channels)
    ensures var bytes, f := Zeros(n)[TailStart(n, FrameBytes(channels)) := 1] + Zeros(r), n / FrameBytes(channels);
      && f < |DecodeFrames(bytes, channels)| && |DecodeFrames(bytes, channels)[f]| > 0
      && DecodeFrames(bytes, channels)[f][0] == 1
  {
    assert FrameBytes(channels) > 0;
    hide FrameBytes, DecodeFrames, TailStart;
    TailCounts(n, r, FrameBytes(channels));
    var o := TailStart(n, FrameBytes(channels));
    MarkedFrame(Zeros(n)[o := 1] + Zeros(r), channels, n / FrameBytes(channels), o);
  }

  lemma MarkedFrame(bytes: Packet, channels: nat, f: nat, o: nat)
    requires ValidChannels(channels) && f < FrameCount(bytes, channels) && o == f * FrameBytes(channels)
    requires forall k :: 0 <= k < |bytes| ==> bytes[k] == if k == o then 1 else 0
    ensures |DecodeFrames(bytes, channels)[f]| == channels && DecodeFrames(bytes, channels)[f][0] == 1
  {
    hide Decode, DecodeFrames, FrameBytes, FrameCount;
    var at := FirstSample(bytes, channels, f);
    SmallSample(bytes[o], bytes[o + 1], bytes[o + 2]);
  }

  lemma {:induction false} MarkedDiffers(packets: seq<Packet>, channels: nat)
    requires ValidChannels(channels) && !NoTailCompleted(packets, channels)
    ensures !StreamAgrees(Marked(packets, channels), channels)
    decreases |packets|
  {
    hide DecodeFrames;
    var marked := Marked(packets, channels);
    FirstPacket(marked, channels);
    if Aligned(packets[0], channels) {
      MarkedDiffers(packets[1..], channels);
      var rest := Marked(packets[1..], channels);
      assert marked[1..] == rest;
      DecodeFramesConcat(marked[0], Bytes(rest), channels);
      SameFront(DecodeFrames(marked[0], channels), DecodeFrames(Bytes(rest), channels), AllFrames(rest, channels));
    } else {
      assert marked[1..] == Blank(packets[1..]);
      BlankBytes(packets[1..], channels);
      TailIsFrame(|packets[0]|, |Bytes(packets[1..])|, channels);
      var f := |packets[0]| / FrameBytes(channels);
      assert |DecodeFrames(marked[0], channels)| == f;
    }
  }

  lemma SameFront<T>(a: seq<T>, b: seq<T>, c: seq<T>)
    requires b != c
    ensures a + b != a + c
  {
    assert (a + b)[|a|..] == b && (a + c)[|a|..] == c;
  }

  /** Which packet lengths keep the stream reading safe: it agrees with the framing
      packet by packet for all packets of these lengths if and only if no tail is
      completed to a frame. */
  lemma StreamFramingExactly(packets: seq<Packet>, channels: nat)
    requires ValidChannels(channels)
    ensures NoTailCompleted(packets, channels) <==>
            forall others :: SameLengths(packets, others) ==> StreamAgrees(others, channels)
  {
    if NoTailCompleted(packets, channels) {
      forall others | SameLengths(packets, others)
        ensures StreamAgrees(others, channels)
      {
        OnlyLengths(packets, others, channels);
        StreamFramingAgrees(others, channels);
      }
    } else {
      MarkedDiffers(packets, channels);
    }
  }

  lemma {:induction false} OnlyLengths(packets: seq<Packet>, others: seq<Packet>, channels: nat)
    requires ValidChannels(channels) && SameLengths(packets, others)
    ensures NoTailCompleted(packets, channels) == NoTailCompleted(others, channels)
    ensures |Bytes(packets)| == |Bytes(others)|
    decreases |packets|
  {
    if packets != [] {
      FirstPacket(packets, channels);
      FirstPacket(others, channels);
      OnlyLengths(packets[1..], others[1..], channels);
    }
  }

  /** With an unaligned packet in front it does not: here a two-byte tail makes
      the stream reading deliver shifted, mixed-up channels. */
  lemma StreamFramingRotates()
    ensures var packets: seq<Packet> := [[1, 0, 0, 2, 0, 0, 9, 9], [3, 0, 0, 4, 0, 0]];
      && AllFrames(packets, 2) == [[1, 2], [3, 4]]
      && DecodeFrames(Bytes(packets), 2) == [[1, 2], [0x3_0909, 0x4_0000]]
  {
    var p: Packet := [1, 0, 0, 2, 0, 0, 9, 9];
    var q: Packet := [3, 0, 0, 4, 0, 0];
    StereoPacket(p);
    StereoPacket(q);
    StereoPacket(p + q);
    TwoPackets(p, q, 2);
  }

  lemma TwoPackets(p: Packet, q: Packet, channels: nat)
    requires ValidChannels(channels)
    ensures AllFrames([p, q], channels) == DecodeFrames(p, channels) + DecodeFrames(q, channels)
    ensures Bytes([p, q]) == p + q
  {
    assert [p, q][..1] == [p] && [p][..0] == [];
    assert AllFrames([p], channels) == DecodeFrames(p, channels);
    assert Bytes([p]) == p;
  }

  lemma StereoPacket(p: Packet)
    requires 6 <= |p| < 18
    ensures |p| < 12 ==> DecodeFrames(p, 2) == [[TwosComplement(p[0], p[1], p[2]), TwosComplement(p[3], p[4], p[5])]]
    ensures 12 <= |p| ==> DecodeFrames(p, 2) == [[TwosComplement(p[0], p[1], p[2]), TwosComplement(p[3], p[4], p[5])],
                                                 [TwosComplement(p[6], p[7], p[8]), TwosComplement(p[9], p[10], p[11])]]
  {
    var frames := DecodeFrames(p, 2);
    assert |frames| == |p| / 6;
    StereoFrame(p, 0);
    assert frames[0] == DecodeFrame(p, 2, 0);
    if 12 <= |p| {
      assert |frames| == 2;
      StereoFrame(p, 1);
      assert frames[1] == DecodeFrame(p, 2, 1);
    } else {
      assert |frames| == 1;
    }
  }

  lemma StereoOffsets(p: Packet, f: nat)
    requires f < 2 && 6 * (f + 1) <= |p|
    ensures f < FrameCount(p, 2)
    ensures Offset(2, f, 0) == 6 * f && Offset(2, f, 1) == 6 * f + 3
  {
    assert |p| / 6 > f;
  }

  lemma StereoFrame(p: Packet, f: nat)
    requires f < 2 && 6 * (f + 1) <= |p|
    ensures f < FrameCount(p, 2)
    ensures var o := 6 * f;
      DecodeFrame(p, 2, f) == [TwosComplement(p[o], p[o + 1], p[o + 2]), TwosComplement(p[o + 3], p[o + 4], p[o + 5])]
  {
    hide Decode, TwosComplement, Offset, FrameCount;
    StereoOffsets(p, f);
    var o := 6 * f;
    DecodeIsTwosComplement(p[o], p[o + 1], p[o + 2]);
    DecodeIsTwosComplement(p[o + 3], p[o + 4], p[o + 5]);
    assert SampleAt(p, 2, f, 0) == Decode(p[o], p[o + 1], p[o + 2]);
    assert SampleAt(p, 2, f, 1) == Decode(p[o + 3], p[o + 4], p[o + 5]);
  }
}
