// The isochronous capture engine: framing of completed transfers into the ring,
// and the count of transfers libusb still owns.
module UsbCapture {
  import opened S24
  import opened Ring
  import opened Framing
  import opened SharedMemory

  const MAX_FRAMES_PER_IN_PKT: nat := 8

  /** The bytes set aside for one packet of a device. */
  function PacketLen(channels: nat): nat { FrameBytes(channels) * MAX_FRAMES_PER_IN_PKT }

  /** What libusb reports for one packet of a transfer. */
  datatype PacketResult = PacketResult(completed: bool, actualLength: nat)

  /** A completed transfer: which one, whether it is an IN transfer, its buffer
      and its packets. `resubmitted` is libusb's answer to submitting it again. */
  datatype Completion = Completion(
    id: nat, isIn: bool, buffer: seq<byte>, packets: seq<PacketResult>, resubmitted: bool)

  /** Packet i starts at its own fixed offset and ends after its actual length. */
  predicate FitsBuffer(t: Completion, pktLen: nat) {
    && |t.buffer| == |t.packets| * pktLen
    && forall i :: 0 <= i < |t.packets| ==> t.packets[i].actualLength <= pktLen
  }

  lemma PacketInBuffer(t: Completion, pktLen: nat, i: nat)
    requires FitsBuffer(t, pktLen) && i < |t.packets|
    ensures 0 <= i * pktLen && i * pktLen + t.packets[i].actualLength <= |t.buffer|
  {
    assert (i + 1) * pktLen <= |t.packets| * pktLen;
    assert (i + 1) * pktLen == i * pktLen + pktLen;
  }

  function PacketBytes(t: Completion, pktLen: nat, i: nat): (bytes: Packet)
    requires FitsBuffer(t, pktLen) && i < |t.packets|
    ensures |bytes| == t.packets[i].actualLength
  {
    PacketInBuffer(t, pktLen, i);
    t.buffer[i * pktLen..i * pktLen + t.packets[i].actualLength]
  }

  lemma PacketIs(t: Completion, pktLen: nat, i: nat)
    requires FitsBuffer(t, pktLen) && i < |t.packets|
    ensures 0 <= i * pktLen && i * pktLen + t.packets[i].actualLength <= |t.buffer|
    ensures PacketBytes(t, pktLen, i) == t.buffer[i * pktLen..i * pktLen + t.packets[i].actualLength]
  {
    PacketInBuffer(t, pktLen, i);
  }

  /** The first n packets of a transfer. */
  function Packets(t: Completion, pktLen: nat, n: nat): (packets: seq<Packet>)
    requires FitsBuffer(t, pktLen) && n <= |t.packets|
    ensures |packets| == n
  {
    seq(n, i requires 0 <= i < n => PacketBytes(t, pktLen, i))
  }

  function Failed(packets: seq<PacketResult>): nat {
    if packets == [] then 0
    else Failed(packets[..|packets| - 1]) + (if packets[|packets| - 1].completed then 0 else 1)
  }

  function Unaligned(packets: seq<Packet>, channels: nat): nat
    requires ValidChannels(channels)
  {
    if packets == [] then 0
    else Unaligned(packets[..|packets| - 1], channels) + (if Aligned(packets[|packets| - 1], channels) then 0 else 1)
  }

  function WholeFrames(packets: seq<Packet>, channels: nat): nat
    requires ValidChannels(channels)
  {
    if packets == [] then 0
    else WholeFrames(packets[..|packets| - 1], channels) + FrameCount(packets[|packets| - 1], channels)
  }

  lemma {:induction false} WholeFramesCounts(packets: seq<Packet>, channels: nat)
    requires ValidChannels(channels)
    ensures |AllFrames(packets, channels)| == WholeFrames(packets, channels)
  {
    if packets != [] {
      WholeFramesCounts(packets[..|packets| - 1], channels);
    }
  }

  /** What one packet adds to the history: its whole frames, or as many of the tone. */
  function Pushed(bytes: Packet, channels: nat, sine: bool, wave: real -> int, phase: real): (frames: seq<Frame>)
    requires ValidChannels(channels)
    ensures Shaped(frames, channels)
  {
    if sine then ToneFrames(Tone(wave, phase, FrameCount(bytes, channels)), channels)
    else DecodeFrames(bytes, channels)
  }

  /** The packets of a transfer: their frames one after the other, or one
      uninterrupted tone. */
  function Captured(packets: seq<Packet>, channels: nat, sine: bool, wave: real -> int, phase: real)
    : (frames: seq<Frame>)
    requires ValidChannels(channels)
    ensures Shaped(frames, channels)
  {
    if sine then ToneFrames(Tone(wave, phase, WholeFrames(packets, channels)), channels)
    else AllFrames(packets, channels)
  }

  /** The phase of the tone n frames later. */
  function PhaseLeft(sine: bool, phase: real, n: nat): real {
    if sine then PhaseAfter(phase, n) else phase
  }

  lemma FailedSnoc(packets: seq<PacketResult>, i: nat)
    requires i < |packets|
    ensures Failed(packets[..i + 1]) == Failed(packets[..i]) + (if packets[i].completed then 0 else 1)
  {
    assert packets[..i + 1][..i] == packets[..i];
  }

  lemma CapturedNone(channels: nat, sine: bool, wave: real -> int, phase: real)
    requires ValidChannels(channels)
    ensures Captured([], channels, sine, wave, phase) == [] && PhaseLeft(sine, phase, 0) == phase
    ensures WholeFrames([], channels) == Unaligned([], channels) == Failed([]) == 0
  {
  }

  lemma CountsSnoc(packets: seq<Packet>, last: Packet, channels: nat)
    requires ValidChannels(channels)
    ensures WholeFrames(packets + [last], channels) == WholeFrames(packets, channels) + FrameCount(last, channels)
    ensures Unaligned(packets + [last], channels) ==
            Unaligned(packets, channels) + (if Aligned(last, channels) then 0 else 1)
    ensures AllFrames(packets + [last], channels) == AllFrames(packets, channels) + DecodeFrames(last, channels)
  {
    hide FrameCount, DecodeFrames, Aligned;
    assert (packets + [last])[..|packets|] == packets;
  }

  /** One packet more adds what it adds alone, from the phase reached. */
  lemma CapturedSnoc(
      packets: seq<Packet>, last: Packet, channels: nat, sine: bool, wave: real -> int, phase: real)
    requires ValidChannels(channels)
    ensures WholeFrames(packets + [last], channels) == WholeFrames(packets, channels) + FrameCount(last, channels)
    ensures Unaligned(packets + [last], channels) ==
            Unaligned(packets, channels) + (if Aligned(last, channels) then 0 else 1)
    ensures var n, at := WholeFrames(packets, channels), PhaseLeft(sine, phase, WholeFrames(packets, channels));
      && Captured(packets + [last], channels, sine, wave, phase) ==
         Captured(packets, channels, sine, wave, phase) + Pushed(last, channels, sine, wave, at)
      && PhaseLeft(sine, phase, n + FrameCount(last, channels)) == PhaseLeft(sine, at, FrameCount(last, channels))
  {
    hide FrameCount, DecodeFrames, Aligned, WholeFrames, Unaligned, AllFrames, Tone;
    CountsSnoc(packets, last, channels);
    if sine {
      ToneContinues(wave, phase, WholeFrames(packets, channels), FrameCount(last, channels));
    }
  }

  lemma {:induction false} CapturedAppend(
      a: seq<Packet>, b: seq<Packet>, channels: nat, sine: bool, wave: real -> int, phase: real)
    requires ValidChannels(channels)
    ensures WholeFrames(a + b, channels) == WholeFrames(a, channels) + WholeFrames(b, channels)
    ensures var at := PhaseLeft(sine, phase, WholeFrames(a, channels));
      && Captured(a + b, channels, sine, wave, phase) ==
         Captured(a, channels, sine, wave, phase) + Captured(b, channels, sine, wave, at)
      && PhaseLeft(sine, phase, WholeFrames(a + b, channels)) == PhaseLeft(sine, at, WholeFrames(b, channels))
    decreases |b|
  {
    hide Captured, Pushed, PhaseLeft, WholeFrames, FrameCount, Unaligned;
    if b == [] {
      assert a + b == a;
      CapturedNone(channels, sine, wave, PhaseLeft(sine, phase, WholeFrames(a, channels)));
    } else {
      var n := |b| - 1;
      CapturedAppend(a, b[..n], channels, sine, wave, phase);
      CapturedSnoc(a + b[..n], b[n], channels, sine, wave, phase);
      CapturedSnoc(b[..n], b[n], channels, sine, wave, PhaseLeft(sine, phase, WholeFrames(a, channels)));
      assert (a + b[..n]) + [b[n]] == a + b && b[..n] + [b[n]] == b;
    }
  }

  /** The packets of the IN transfers among the completions, in order. */
  function Delivered(events: seq<Completion>, pktLen: nat): seq<Packet>
    decreases |events|
  {
    if events == [] then []
    else Delivered(events[..|events| - 1], pktLen) + PacketsOf(events[|events| - 1], pktLen)
  }

  function PacketsOf(t: Completion, pktLen: nat): seq<Packet> {
    if t.isIn && FitsBuffer(t, pktLen) then Packets(t, pktLen, |t.packets|) else []
  }

  /** From `before` and `phase`, these packets lead to `after` and `phase'`. */
  ghost predicate Grows(before: seq<Frame>, phase: real, after: seq<Frame>, phase': real, packets: seq<Packet>,
                        channels: nat, sine: bool, wave: real -> int)
    requires ValidChannels(channels)
  {
    && after == before + Captured(packets, channels, sine, wave, phase)
    && phase' == PhaseLeft(sine, phase, WholeFrames(packets, channels))
  }

  lemma GrowsNone(events: seq<Completion>, pktLen: nat, h: seq<Frame>, phase: real,
                  channels: nat, sine: bool, wave: real -> int)
    requires ValidChannels(channels)
    ensures Grows(h, phase, h, phase, Delivered(events[..0], pktLen), channels, sine, wave)
  {
    CapturedNone(channels, sine, wave, phase);
  }

  /** One completion more. */
  lemma GrowsOn(events: seq<Completion>, i: nat, pktLen: nat, h0: seq<Frame>, p0: real, h1: seq<Frame>, p1: real,
                h2: seq<Frame>, p2: real, channels: nat, sine: bool, wave: real -> int)
    requires ValidChannels(channels) && i < |events|
    requires Grows(h0, p0, h1, p1, Delivered(events[..i], pktLen), channels, sine, wave)
    requires Grows(h1, p1, h2, p2, PacketsOf(events[i], pktLen), channels, sine, wave)
    ensures Grows(h0, p0, h2, p2, Delivered(events[..i + 1], pktLen), channels, sine, wave)
  {
    hide Captured, PhaseLeft, WholeFrames, PacketsOf;
    assert events[..i + 1][..i] == events[..i];
    CapturedAppend(Delivered(events[..i], pktLen), PacketsOf(events[i], pktLen), channels, sine, wave, p0);
  }

  lemma WholeSeq<T>(s: seq<T>)
    ensures s[..|s|] == s
  {
  }

  // ---- where the bytes of a transfer end up ----

  /** The whole frames of the first i packets, by their lengths alone. */
  function FramesBefore(packets: seq<PacketResult>, i: nat, channels: nat): nat
    requires i <= |packets| && channels > 0
  {
    if i == 0 then 0 else FramesBefore(packets, i - 1, channels) + FramesIn(packets[i - 1].actualLength, channels)
  }

  function FramesOfTransfer(t: Completion, channels: nat): nat
    requires channels > 0
  {
    if t.isIn then FramesBefore(t.packets, |t.packets|, channels) else 0
  }

  /** The whole frames of the first e completions. */
  function EventsBefore(events: seq<Completion>, e: nat, channels: nat): nat
    requires e <= |events| && channels > 0
  {
    if e == 0 then 0 else EventsBefore(events, e - 1, channels) + FramesOfTransfer(events[e - 1], channels)
  }

  /** Packet i, in the slot of 8 frames of 24-bit samples that is its own. */
  predicate SlotLies(frames: seq<Frame>, at: nat, t: Completion, i: nat, channels: nat)
    requires i < |t.packets| && channels > 0
  {
    var o, n := 8 * 3 * channels * i, t.packets[i].actualLength;
    0 <= o && o + n <= |t.buffer| && PacketLies(frames, at, t.buffer[o..o + n], channels)
  }

  /** Every packet of the transfer lies in `frames`, in order, from place `at` on. */
  predicate TransferLies(frames: seq<Frame>, at: nat, t: Completion, channels: nat)
    requires channels > 0
  {
    forall i :: 0 <= i < |t.packets| ==>
      SlotLies(frames, at + FramesBefore(t.packets, i, channels), t, i, channels)
  }

  /** So does every IN transfer among the completions. */
  predicate EventsLie(frames: seq<Frame>, at: nat, events: seq<Completion>, channels: nat)
    requires channels > 0
  {
    forall e :: 0 <= e < |events| && events[e].isIn ==>
      TransferLies(frames, at + EventsBefore(events, e, channels), events[e], channels)
  }

  lemma SlotOffset(i: nat, channels: nat)
    ensures 0 <= 8 * 3 * channels * i == i * PacketLen(channels)
  {
  }

  lemma FramesAppend(a: seq<Packet>, b: seq<Packet>, channels: nat)
    requires ValidChannels(channels)
    ensures AllFrames(a + b, channels) == AllFrames(a, channels) + AllFrames(b, channels)
    decreases |b|
  {
    hide DecodeFrames, AllFrames;
    LastPacket(b, channels);
    if b == [] {
      assert a + b == a;
    } else {
      var n := |b| - 1;
      LastPacket(a + b, channels);
      assert (a + b)[..|a + b| - 1] == a + b[..n];
      FramesAppend(a, b[..n], channels);
      JoinThree(AllFrames(a, channels), AllFrames(b[..n], channels), DecodeFrames(b[n], channels));
    }
  }

  lemma PacketsIndex(t: Completion, pktLen: nat, n: nat, i: nat)
    requires FitsBuffer(t, pktLen) && i < n <= |t.packets|
    ensures 0 <= i * pktLen && i * pktLen + t.packets[i].actualLength <= |t.buffer|
    ensures Packets(t, pktLen, n)[i] == t.buffer[i * pktLen..i * pktLen + t.packets[i].actualLength]
  {
    PacketIs(t, pktLen, i);
  }

  lemma {:induction false} PacketsCount(t: Completion, channels: nat, i: nat)
    requires ValidChannels(channels) && FitsBuffer(t, PacketLen(channels)) && i <= |t.packets|
    ensures |AllFrames(Packets(t, PacketLen(channels), i), channels)| == FramesBefore(t.packets, i, channels)
    decreases i
  {
    if i > 0 {
      var len := PacketLen(channels);
      PacketsCount(t, channels, i - 1);
      assert Packets(t, len, i)[..i - 1] == Packets(t, len, i - 1);
      LastPacket(Packets(t, len, i), channels);
      DecodedLies([], Packets(t, len, i)[i - 1], [], channels);
      PacketsIndex(t, len, i, i - 1);
      hide FitsBuffer, AllFrames, DecodeFrames, PacketLen, Packets, PacketLies, FramesIn;
    }
  }

  /** The packets of a transfer, framed, are those before packet i, packet i, and the rest. */
  lemma SplitPackets(packets: seq<Packet>, i: nat, channels: nat) returns (back: seq<Frame>)
    requires ValidChannels(channels) && i < |packets|
    ensures AllFrames(packets, channels) ==
            AllFrames(packets[..i], channels) + DecodeFrames(packets[i], channels) + back
  {
    hide DecodeFrames, AllFrames;
    assert packets == packets[..i] + packets[i..];
    FramesAppend(packets[..i], packets[i..], channels);
    FirstPacket(packets[i..], channels);
    back := AllFrames(packets[i..][1..], channels);
    JoinThree(AllFrames(packets[..i], channels), DecodeFrames(packets[i], channels), back);
  }

  lemma PacketLands(h: seq<Frame>, packets: seq<Packet>, i: nat, back: seq<Frame>, channels: nat)
    requires ValidChannels(channels) && i < |packets|
    ensures PacketLies(h + AllFrames(packets, channels) + back, |h| + |AllFrames(packets[..i], channels)|,
                       packets[i], channels)
  {
    hide DecodeFrames, AllFrames, PacketLies;
    var front, frames := AllFrames(packets[..i], channels), DecodeFrames(packets[i], channels);
    var rest := SplitPackets(packets, i, channels);
    DecodedLies(h + front, packets[i], rest + back, channels);
    Regroup(h, front, frames, rest, back);
  }

  lemma Regroup<T>(a: seq<T>, b: seq<T>, c: seq<T>, d: seq<T>, e: seq<T>)
    ensures a + (b + c + d) + e == (a + b) + c + (d + e)
  {
  }

  /** Every packet of a transfer lands where its lengths say. */
  lemma TransferLands(h: seq<Frame>, t: Completion, back: seq<Frame>, channels: nat)
    requires ValidChannels(channels) && FitsBuffer(t, PacketLen(channels))
    ensures var packets := Packets(t, PacketLen(channels), |t.packets|);
      && |AllFrames(packets, channels)| == FramesBefore(t.packets, |t.packets|, channels)
      && TransferLies(h + AllFrames(packets, channels) + back, |h|, t, channels)
  {
    var len := PacketLen(channels);
    var packets := Packets(t, len, |t.packets|);
    PacketsCount(t, channels, |t.packets|);
    forall i | 0 <= i < |t.packets|
      ensures var place := |h| + FramesBefore(t.packets, i, channels);
        SlotLies(h + AllFrames(packets, channels) + back, place, t, i, channels)
    {
      SlotLands(h, t, i, back, channels, |h| + FramesBefore(t.packets, i, channels));
    }
  }

  lemma SlotLands(h: seq<Frame>, t: Completion, i: nat, back: seq<Frame>, channels: nat, place: nat)
    requires ValidChannels(channels) && FitsBuffer(t, PacketLen(channels)) && i < |t.packets|
    requires place == |h| + FramesBefore(t.packets, i, channels)
    ensures var packets := Packets(t, PacketLen(channels), |t.packets|);
      SlotLies(h + AllFrames(packets, channels) + back, place, t, i, channels)
  {
    hide FitsBuffer, AllFrames, DecodeFrames, PacketLen, PacketLies, FramesBefore, PacketBytes;
    var len := PacketLen(channels);
    var packets := Packets(t, len, |t.packets|);
    PacketsCount(t, channels, i);
    assert packets[..i] == Packets(t, len, i);
    PacketLands(h, packets, i, back, channels);
    PacketsIndex(t, len, |t.packets|, i);
    SlotOffset(i, channels);
  }

  /** The completions that hold their packets. */
  predicate AllFit(events: seq<Completion>, channels: nat) {
    forall e :: 0 <= e < |events| && events[e].isIn ==> FitsBuffer(events[e], PacketLen(channels))
  }

  lemma EventsLieSnoc(frames: seq<Frame>, at: nat, events: seq<Completion>, channels: nat, place: nat)
    requires channels > 0 && |events| > 0
    requires EventsLie(frames, at, events[..|events| - 1], channels)
    requires place == at + EventsBefore(events, |events| - 1, channels)
    requires events[|events| - 1].isIn ==> TransferLies(frames, place, events[|events| - 1], channels)
    ensures EventsLie(frames, at, events, channels)
  {
    hide TransferLies, EventsBefore;
    var n := |events| - 1;
    forall e | 0 <= e < |events| && events[e].isIn
      ensures TransferLies(frames, at + EventsBefore(events, e, channels), events[e], channels)
    {
      if e < n {
        EventsPrefix(events, n, e, channels);
        assert events[..n][e].isIn;
      }
    }
  }

  /** These frames stand in `all` from place `at` on. */
  predicate StandsAt(all: seq<Frame>, at: nat, frames: seq<Frame>) {
    at + |frames| <= |all| && all[at..at + |frames|] == frames
  }

  lemma StandsSplit(all: seq<Frame>, at: nat, a: seq<Frame>, b: seq<Frame>)
    requires StandsAt(all, at, a + b)
    ensures StandsAt(all, at, a) && StandsAt(all, at + |a|, b)
  {
    assert all[at..at + |a|] == (a + b)[..|a|];
    assert all[at + |a|..at + |a| + |b|] == (a + b)[|a|..];
  }

  lemma DeliveredLast(events: seq<Completion>, channels: nat)
    requires ValidChannels(channels) && |events| > 0
    ensures var n, len := |events| - 1, PacketLen(channels);
      AllFrames(Delivered(events, len), channels) ==
      AllFrames(Delivered(events[..n], len), channels) + AllFrames(PacketsOf(events[n], len), channels)
  {
    var n, len := |events| - 1, PacketLen(channels);
    hide AllFrames, PacketsOf, PacketLen, Shaped;
    FramesAppend(Delivered(events[..n], len), PacketsOf(events[n], len), channels);
  }

  lemma EventsSnoc(events: seq<Completion>, channels: nat)
    requires channels > 0 && |events| > 0
    ensures var n := |events| - 1;
      && EventsBefore(events, |events|, channels) ==
         EventsBefore(events[..n], |events[..n]|, channels) + FramesOfTransfer(events[n], channels)
      && EventsBefore(events, n, channels) == EventsBefore(events[..n], |events[..n]|, channels)
      && (AllFit(events, channels) ==>
            && AllFit(events[..n], channels)
            && (events[n].isIn ==> FitsBuffer(events[n], PacketLen(channels))))
  {
    EventsPrefix(events, |events| - 1, |events| - 1, channels);
    hide FitsBuffer, PacketLen, FramesOfTransfer;
  }

  /** Every packet of every IN transfer lands where their lengths say, in order. */
  lemma {:induction false} EventsLand(all: seq<Frame>, at: nat, events: seq<Completion>, channels: nat)
    requires ValidChannels(channels) && AllFit(events, channels)
    requires StandsAt(all, at, AllFrames(Delivered(events, PacketLen(channels)), channels))
    ensures |AllFrames(Delivered(events, PacketLen(channels)), channels)| == EventsBefore(events, |events|, channels)
    ensures EventsLie(all, at, events, channels)
    decreases |events|, 0
  {
    if |events| == 0 {
      assert events == [];
      NoneLand(all, at, channels);
    } else {
      SomeLand(all, at, events, channels);
    }
  }

  lemma SomeLand(all: seq<Frame>, at: nat, events: seq<Completion>, channels: nat)
    requires ValidChannels(channels) && AllFit(events, channels) && |events| > 0
    requires StandsAt(all, at, AllFrames(Delivered(events, PacketLen(channels)), channels))
    ensures |AllFrames(Delivered(events, PacketLen(channels)), channels)| == EventsBefore(events, |events|, channels)
    ensures EventsLie(all, at, events, channels)
    decreases |events| - 1, 2
  {
    assert channels > 0;
    hide *;
    var n := |events| - 1;
    var frames := AllFrames(Delivered(events, PacketLen(channels)), channels);
    EventsSnoc(events, channels);
    DeliveredLast(events, channels);
    var place := at + EventsBefore(events, n, channels);
    FrontAndLast(all, at, events[..n], events[n], channels, frames, place);
    EventsLieSnoc(all, at, events, channels, place);
  }

  lemma FrontAndLast(
      all: seq<Frame>, at: nat, front: seq<Completion>, last: Completion, channels: nat, frames: seq<Frame>, place: nat)
    requires ValidChannels(channels) && AllFit(front, channels) && (last.isIn ==> FitsBuffer(last, PacketLen(channels)))
    requires frames == AllFrames(Delivered(front, PacketLen(channels)), channels)
                       + AllFrames(PacketsOf(last, PacketLen(channels)), channels)
    requires StandsAt(all, at, frames) && place == at + EventsBefore(front, |front|, channels)
    ensures |frames| == EventsBefore(front, |front|, channels) + FramesOfTransfer(last, channels)
    ensures EventsLie(all, at, front, channels)
    ensures last.isIn ==> TransferLies(all, place, last, channels)
    decreases |front|, 1
  {
    hide *;
    var len := PacketLen(channels);
    var a, b := AllFrames(Delivered(front, len), channels), AllFrames(PacketsOf(last, len), channels);
    StandsSplit(all, at, a, b);
    EventsLand(all, at, front, channels);
    LastLands(all, place, last, channels);
  }

  lemma NoneLand(frames: seq<Frame>, at: nat, channels: nat)
    requires ValidChannels(channels)
    ensures AllFrames(Delivered([], PacketLen(channels)), channels) == [] && EventsBefore([], 0, channels) == 0
    ensures EventsLie(frames, at, [], channels)
  {
  }

  lemma LastLands(all: seq<Frame>, at: nat, t: Completion, channels: nat)
    requires ValidChannels(channels) && (t.isIn ==> FitsBuffer(t, PacketLen(channels)))
    requires StandsAt(all, at, AllFrames(PacketsOf(t, PacketLen(channels)), channels))
    ensures |AllFrames(PacketsOf(t, PacketLen(channels)), channels)| == FramesOfTransfer(t, channels)
    ensures t.isIn ==> TransferLies(all, at, t, channels)
  {
    var frames := AllFrames(PacketsOf(t, PacketLen(channels)), channels);
    assert all == all[..at] + frames + all[at + |frames|..];
    if t.isIn {
      TransferLands(all[..at], t, all[at + |frames|..], channels);
    }
  }

  lemma {:induction false} EventsPrefix(events: seq<Completion>, m: nat, e: nat, channels: nat)
    requires e <= m <= |events| && channels > 0
    ensures EventsBefore(events[..m], e, channels) == EventsBefore(events, e, channels)
    decreases e
  {
    if e > 0 {
      EventsPrefix(events, m, e - 1, channels);
    }
  }

  /** From history h and phase p, servicing these completions led to h' and p': the
      history grew by every whole frame of every packet of every IN transfer, each
      from its own slot, or by as many frames of an unbroken tone. */
  predicate Took(h: seq<Frame>, p: real, h': seq<Frame>, p': real, events: seq<Completion>,
                 channels: nat, sine: bool, wave: real -> int)
    requires channels > 0
  {
    var n := EventsBefore(events, |events|, channels);
    && h <= h' && |h'| == |h| + n
    && (if sine then ToneLies(h', |h|, n, channels, wave, p) else EventsLie(h', |h|, events, channels))
    && p' == (if sine then PhaseAfter(p, n) else p)
  }

  lemma FramesTake(h: seq<Frame>, events: seq<Completion>, channels: nat)
    requires ValidChannels(channels) && AllFit(events, channels)
    ensures var packets := Delivered(events, PacketLen(channels));
      && |AllFrames(packets, channels)| == WholeFrames(packets, channels) == EventsBefore(events, |events|, channels)
      && EventsLie(h + AllFrames(packets, channels), |h|, events, channels)
  {
    var packets := Delivered(events, PacketLen(channels));
    assert StandsAt(h + AllFrames(packets, channels), |h|, AllFrames(packets, channels));
    hide *;
    EventsLand(h + AllFrames(packets, channels), |h|, events, channels);
    WholeFramesCounts(packets, channels);
  }

  lemma GrowsTakes(h: seq<Frame>, p: real, h': seq<Frame>, p': real, events: seq<Completion>,
                   channels: nat, sine: bool, wave: real -> int)
    requires ValidChannels(channels) && AllFit(events, channels)
    requires Grows(h, p, h', p', Delivered(events, PacketLen(channels)), channels, sine, wave)
    ensures Took(h, p, h', p', events, channels, sine, wave)
  {
    hide AllFrames, Delivered, PacketLen, EventsLie, ToneLies, EventsBefore, WholeFrames, AllFit, ToneFrames, Tone;
    FramesTake(h, events, channels);
    if sine {
      ToneLands(h, WholeFrames(Delivered(events, PacketLen(channels)), channels), channels, wave, p);
    }
  }

  /** The transfer alone. */
  predicate TransferTook(h: seq<Frame>, p: real, h': seq<Frame>, p': real, t: Completion,
                         channels: nat, sine: bool, wave: real -> int)
    requires channels > 0
  {
    var n := FramesBefore(t.packets, |t.packets|, channels);
    && h <= h' && |h'| == |h| + n
    && (if sine then ToneLies(h', |h|, n, channels, wave, p) else TransferLies(h', |h|, t, channels))
    && p' == (if sine then PhaseAfter(p, n) else p)
  }

  lemma CapturedTakes(h: seq<Frame>, p: real, t: Completion, channels: nat, sine: bool, wave: real -> int)
    requires ValidChannels(channels) && FitsBuffer(t, PacketLen(channels))
    ensures var packets := Packets(t, PacketLen(channels), |t.packets|);
      TransferTook(h, p, h + Captured(packets, channels, sine, wave, p),
                   PhaseLeft(sine, p, WholeFrames(packets, channels)), t, channels, sine, wave)
  {
    var packets := Packets(t, PacketLen(channels), |t.packets|);
    TransferLands(h, t, [], channels);
    assert h + AllFrames(packets, channels) + [] == h + AllFrames(packets, channels);
    WholeFramesCounts(packets, channels);
    ToneLands(h, WholeFrames(packets, channels), channels, wave, p);
    hide AllFrames, Packets, PacketLen, TransferLies, ToneLies, FramesBefore, WholeFrames, FitsBuffer, ToneFrames, Tone;
  }

  /** The failed packets, and those with a tail, counted by their status and length. */
  lemma {:induction false} FailedCounts(packets: seq<PacketResult>)
    ensures Failed(packets) == |set i | 0 <= i < |packets| && !packets[i].completed|
  {
    if packets != [] {
      var n := |packets| - 1;
      FailedCounts(packets[..n]);
      var front := set i | 0 <= i < n && !packets[..n][i].completed;
      assert (set i | 0 <= i < |packets| && !packets[i].completed) ==
             front + (if packets[n].completed then {} else {n});
    }
  }

  /** n bytes are not a whole number of frames of 24-bit samples. */
  predicate HasTail(n: nat, channels: nat)
    requires channels > 0
  {
    n % (3 * channels) != 0
  }

  lemma TailIsUnaligned(packet: Packet, channels: nat)
    requires ValidChannels(channels)
    ensures HasTail(|packet|, channels) <==> !Aligned(packet, channels)
  {
    assert 3 * channels == FrameBytes(channels);
  }

  lemma {:induction false} UnalignedCounts(packets: seq<Packet>, channels: nat)
    requires ValidChannels(channels)
    ensures Unaligned(packets, channels) == |set i | 0 <= i < |packets| && HasTail(|packets[i]|, channels)|
  {
    hide HasTail, Aligned;
    if packets != [] {
      var n := |packets| - 1;
      UnalignedCounts(packets[..n], channels);
      TailIsUnaligned(packets[n], channels);
      var front := set i | 0 <= i < n && HasTail(|packets[..n][i]|, channels);
      assert (set i | 0 <= i < |packets| && HasTail(|packets[i]|, channels)) ==
             front + (if HasTail(|packets[n]|, channels) then {n} else {});
    }
  }

  /** The transfers libusb owns after calling back for `t`. */
  function OwnedAfter(owned: set<nat>, running: bool, t: Completion): set<nat> {
    if running && t.resubmitted then owned else owned - {t.id}
  }

  function Owned(owned: set<nat>, running: bool, events: seq<Completion>): set<nat>
    decreases |events|
  {
    if events == [] then owned
    else Owned(OwnedAfter(owned, running, events[0]), running, events[1..])
  }

  /** How many of the completions gave up a transfer for good. */
  function Surrendered(running: bool, events: seq<Completion>): nat
    decreases |events|
  {
    if events == [] then 0
    else (if running && events[0].resubmitted then 0 else 1) + Surrendered(running, events[1..])
  }

  /** libusb calls back only for transfers it owns at that time. */
  predicate Serviceable(owned: set<nat>, running: bool, events: seq<Completion>, pktLen: nat)
    decreases |events|
  {
    events != [] ==>
      && events[0].id in owned
      && (events[0].isIn ==> FitsBuffer(events[0], pktLen))
      && Serviceable(OwnedAfter(owned, running, events[0]), running, events[1..], pktLen)
  }

  /** Of these completions, the ones libusb can call back for: of transfers it owns
      at that time, and of buffers that hold their packets. */
  function Callbacks(owned: set<nat>, running: bool, events: seq<Completion>, pktLen: nat)
    : (done: seq<Completion>)
    ensures Serviceable(owned, running, done, pktLen)
    decreases |events|
  {
    if events == [] then []
    else if events[0].id in owned && (events[0].isIn ==> FitsBuffer(events[0], pktLen)) then
      var rest := Callbacks(OwnedAfter(owned, running, events[0]), running, events[1..], pktLen);
      assert ([events[0]] + rest)[1..] == rest;
      [events[0]] + rest
    else Callbacks(owned, running, events[1..], pktLen)
  }

  lemma {:induction false} ServiceableFits(owned: set<nat>, running: bool, events: seq<Completion>, channels: nat)
    requires Serviceable(owned, running, events, PacketLen(channels))
    ensures AllFit(events, channels)
    decreases |events|
  {
    if events != [] {
      hide FitsBuffer;
      ServiceableFits(OwnedAfter(owned, running, events[0]), running, events[1..], channels);
      forall e | 0 <= e < |events| && events[e].isIn
        ensures FitsBuffer(events[e], PacketLen(channels))
      {
        assert e > 0 ==> events[1..][e - 1] == events[e];
      }
    }
  }

  /** Where all of them can happen, all of them do. */
  lemma {:induction false} CallbacksAll(owned: set<nat>, running: bool, events: seq<Completion>, pktLen: nat)
    requires Serviceable(owned, running, events, pktLen)
    ensures Callbacks(owned, running, events, pktLen) == events
    decreases |events|
  {
    hide FitsBuffer;
    if events != [] {
      CallbacksAll(OwnedAfter(owned, running, events[0]), running, events[1..], pktLen);
      assert [events[0]] + events[1..] == events;
    }
  }

  lemma SomeLeft(owned: set<nat>, running: bool, events: seq<Completion>, i: nat, pktLen: nat)
    requires i <= |events| && Serviceable(owned, running, events[i..], pktLen)
    ensures i < |events| ==> |owned| > 0
  {
    if i < |events| {
      assert events[i..][0].id in owned;
    }
  }

  /** With nothing resubmitted every callback is of another transfer. */
  lemma {:induction false} DrainTakesEach(owned: set<nat>, events: seq<Completion>, pktLen: nat)
    requires Serviceable(owned, false, events, pktLen)
    ensures Owned(owned, false, events) <= owned
    ensures |Owned(owned, false, events)| == |owned| - |events|
    ensures Surrendered(false, events) == |events|
    decreases |events|
  {
    if events != [] {
      DrainTakesEach(OwnedAfter(owned, false, events[0]), events[1..], pktLen);
    }
  }

  class StreamState {
    var running: bool
    var inFlight: int
    const shm: Shm
    const channels: nat
    const sine: bool
    var sinePhase: real
    const wave: real -> int   // the tone's sample at a phase
    var isoErrors: nat
    var unalignedPackets: nat
    // libusb's side: the transfers it owns, submitted and not yet called back
    var submitted: set<nat>

    /** What the packet loop relies on. */
    ghost predicate Streaming()
      reads this, shm, shm.ring
    {
      shm.Valid() && channels == shm.channels
    }

    ghost predicate Valid()
      reads this, shm, shm.ring
    {
      Streaming() && inFlight == |submitted|
    }

    constructor (shm: Shm, deviceChannels: nat, sine: bool, wave: real -> int)
      requires shm.Valid() && shm.channels == deviceChannels
      ensures Valid() && running && submitted == {} && inFlight == 0
      ensures isoErrors == 0 && unalignedPackets == 0 && sinePhase == 0.0
      ensures this.shm == shm && channels == deviceChannels && this.sine == sine && this.wave == wave
    {
      this.shm, channels, this.sine, this.wave := shm, deviceChannels, sine, wave;
      running, inFlight, submitted := true, 0, {};
      isoErrors, unalignedPackets, sinePhase := 0, 0, 0.0;
    }

    function FrameLen(): nat
    {
      channels * 3
    }

    function InPktLen(): nat
    {
      PacketLen(channels)
    }

    /** The body of the packet loop; `bytes` starts at the packet's own offset. */
    method OnPacket(completed: bool, bytes: Packet)
      requires Streaming()
      modifies this`isoErrors, this`unalignedPackets, this`sinePhase, shm`writeFrames, shm`history, shm.ring
      ensures Streaming()
      ensures isoErrors == old(isoErrors) + (if completed then 0 else 1)
      ensures unalignedPackets == old(unalignedPackets) + (if Aligned(bytes, channels) then 0 else 1)
      ensures shm.writeFrames == old(shm.writeFrames) + FrameCount(bytes, channels)
      ensures shm.history == old(shm.history) + Pushed(bytes, channels, sine, wave, old(sinePhase))
      ensures sinePhase == PhaseLeft(sine, old(sinePhase), FrameCount(bytes, channels))
    {
      hide Holds, FrameCount, DecodeFrames;
      if !completed {
        isoErrors := isoErrors + 1;
      }
      WholePartLength(bytes, channels);
      var alen := |bytes|;
      if alen == 0 {
        return;
      }
      if alen % FrameLen() != 0 {
        unalignedPackets := unalignedPackets + 1;
      }
      var whole := alen - alen % FrameLen();
      if whole > 0 {
        WholePartKeepsFrames(bytes, channels);
        PushWhole(bytes[..whole]);
      }
    }

    method PushWhole(slice: Packet)
      requires Streaming()
      modifies this`sinePhase, shm`writeFrames, shm`history, shm.ring
      ensures Streaming()
      ensures shm.writeFrames == old(shm.writeFrames) + FrameCount(slice, channels)
      ensures shm.history == old(shm.history) + Pushed(slice, channels, sine, wave, old(sinePhase))
      ensures sinePhase == PhaseLeft(sine, old(sinePhase), FrameCount(slice, channels))
    {
      if sine {
        sinePhase := shm.PushSine(channels, |slice| / FrameLen(), sinePhase, wave);
      } else {
        shm.PushFrames(channels, slice);
      }
    }

    /** The packet loop of an IN transfer. Each packet is framed on its own. */
    method OnPackets(t: Completion)
      requires Streaming() && FitsBuffer(t, InPktLen())
      modifies this`isoErrors, this`unalignedPackets, this`sinePhase, shm`writeFrames, shm`history, shm.ring
      ensures Streaming()
      ensures var packets := Packets(t, InPktLen(), |t.packets|);
        && shm.history == old(shm.history) + Captured(packets, channels, sine, wave, old(sinePhase))
        && shm.writeFrames == old(shm.writeFrames) + WholeFrames(packets, channels)
        && unalignedPackets == old(unalignedPackets) + Unaligned(packets, channels)
        && sinePhase == PhaseLeft(sine, old(sinePhase), WholeFrames(packets, channels))
      ensures isoErrors == old(isoErrors) + Failed(t.packets)
      ensures TransferTook(old(shm.history), old(sinePhase), shm.history, sinePhase, t, channels, sine, wave)
    {
      hide FitsBuffer, Holds, Captured, Pushed, PhaseLeft, AllFrames, PacketBytes;
      hide WholeFrames, Unaligned, Failed, Aligned, FrameCount, TransferTook;
      ghost var len := InPktLen();
      CapturedTakes(shm.history, sinePhase, t, channels, sine, wave);
      CapturedNone(channels, sine, wave, sinePhase);
      for i := 0 to |t.packets|
        invariant Streaming()
        invariant shm.history ==
                  old(shm.history) + Captured(Packets(t, len, i), channels, sine, wave, old(sinePhase))
        invariant shm.writeFrames == old(shm.writeFrames) + WholeFrames(Packets(t, len, i), channels)
        invariant unalignedPackets == old(unalignedPackets) + Unaligned(Packets(t, len, i), channels)
        invariant sinePhase == PhaseLeft(sine, old(sinePhase), WholeFrames(Packets(t, len, i), channels))
        invariant isoErrors == old(isoErrors) + Failed(t.packets[..i])
      {
        PacketInBuffer(t, InPktLen(), i);
        var at := i * InPktLen();
        var bytes := t.buffer[at..at + t.packets[i].actualLength];
        assert bytes == PacketBytes(t, len, i) by { PacketIs(t, len, i); }
        OnPacket(t.packets[i].completed, bytes);
        assert Packets(t, len, i + 1) == Packets(t, len, i) + [PacketBytes(t, len, i)];
        CapturedSnoc(Packets(t, len, i), PacketBytes(t, len, i), channels, sine, wave, old(sinePhase));
        FailedSnoc(t.packets, i);
      }
      assert t.packets[..|t.packets|] == t.packets;
    }

    /** The callback of an IN transfer. From the moment libusb calls back it no
        longer owns the transfer. */
    method OnIn(t: Completion)
      requires Valid() && FitsBuffer(t, InPktLen()) && t.id in submitted
      modifies this`isoErrors, this`unalignedPackets, this`sinePhase, this`inFlight, this`submitted
      modifies shm`writeFrames, shm`history, shm.ring
      ensures Valid()
      ensures var packets := Packets(t, InPktLen(), |t.packets|);
        && shm.history == old(shm.history) + Captured(packets, channels, sine, wave, old(sinePhase))
        && shm.writeFrames == old(shm.writeFrames) + WholeFrames(packets, channels)
        && unalignedPackets == old(unalignedPackets) + Unaligned(packets, channels)
        && sinePhase == PhaseLeft(sine, old(sinePhase), WholeFrames(packets, channels))
      ensures isoErrors == old(isoErrors) + Failed(t.packets)
      ensures TransferTook(old(shm.history), old(sinePhase), shm.history, sinePhase, t, channels, sine, wave)
      ensures submitted == OwnedAfter(old(submitted), running, t)
      ensures inFlight == old(inFlight) - (if running && t.resubmitted then 0 else 1)
    {
      hide TransferTook;
      submitted := submitted - {t.id};
      OnPackets(t);
      Resubmit(t);
    }

    /** The callback of an OUT transfer: the silence is sent again. */
    method OnOut(t: Completion)
      requires Valid() && t.id in submitted
      modifies this`inFlight, this`submitted
      ensures Valid()
      ensures submitted == OwnedAfter(old(submitted), running, t)
      ensures inFlight == old(inFlight) - (if running && t.resubmitted then 0 else 1)
    {
      submitted := submitted - {t.id};
      Resubmit(t);
    }

    /** The tail of both callbacks. Until here the count still includes the transfer
        that called back; afterwards it is the number libusb owns, because the
        transfer is submitted again or no longer counted. */
    method Resubmit(t: Completion)
      requires t.id !in submitted && inFlight == |submitted| + 1
      modifies this`inFlight, this`submitted
      ensures inFlight == |submitted|
      ensures submitted == old(submitted) + (if running && t.resubmitted then {t.id} else {})
    {
      if running && t.resubmitted {
        submitted := submitted + {t.id};
      } else {
        inFlight := inFlight - 1;
      }
    }

    method Complete(t: Completion)
      requires Valid() && t.id in submitted && (t.isIn ==> FitsBuffer(t, InPktLen()))
      modifies this`isoErrors, this`unalignedPackets, this`sinePhase, this`inFlight, this`submitted
      modifies shm`writeFrames, shm`history, shm.ring
      ensures Valid()
      ensures submitted == OwnedAfter(old(submitted), running, t)
      ensures inFlight == old(inFlight) - (if running && t.resubmitted then 0 else 1)
      ensures Grows(old(shm.history), old(sinePhase), shm.history, sinePhase, PacketsOf(t, InPktLen()),
                    channels, sine, wave)
    {
      CapturedNone(channels, sine, wave, sinePhase);
      hide Captured, PhaseLeft, WholeFrames, FitsBuffer;
      if t.isIn {
        OnIn(t);
      } else {
        OnOut(t);
      }
    }

    /** The i-th callback of a batch that began with history h0 and phase p0. */
    method ServiceNext(events: seq<Completion>, i: nat, ghost h0: seq<Frame>, ghost p0: real)
      requires Valid() && i < |events| && Serviceable(submitted, running, events[i..], InPktLen())
      requires Grows(h0, p0, shm.history, sinePhase, Delivered(events[..i], InPktLen()), channels, sine, wave)
      modifies this`isoErrors, this`unalignedPackets, this`sinePhase, this`inFlight, this`submitted
      modifies shm`writeFrames, shm`history, shm.ring
      ensures Valid() && Serviceable(submitted, running, events[i + 1..], InPktLen())
      ensures Owned(submitted, running, events[i + 1..]) == Owned(old(submitted), running, events[i..])
      ensures inFlight - Surrendered(running, events[i + 1..]) == old(inFlight) - Surrendered(running, events[i..])
      ensures !running ==> inFlight == old(inFlight) - 1
      ensures Grows(h0, p0, shm.history, sinePhase, Delivered(events[..i + 1], InPktLen()), channels, sine, wave)
    {
      hide Grows, Delivered, PacketsOf, FitsBuffer;
      ghost var h, p := shm.history, sinePhase;
      assert events[i..][0] == events[i] && events[i..][1..] == events[i + 1..];
      Complete(events[i]);
      GrowsOn(events, i, InPktLen(), h0, p0, h, p, shm.history, sinePhase, channels, sine, wave);
    }

    /** Servicing a batch of completions while the engine runs or drains. */
    method HandleEvents(events: seq<Completion>)
      requires Valid() && Serviceable(submitted, running, events, InPktLen())
      modifies this`isoErrors, this`unalignedPackets, this`sinePhase, this`inFlight, this`submitted
      modifies shm`writeFrames, shm`history, shm.ring
      ensures Valid()
      ensures submitted == Owned(old(submitted), running, events)
      ensures inFlight == old(inFlight) - Surrendered(running, events)
      ensures Grows(old(shm.history), old(sinePhase), shm.history, sinePhase, Delivered(events, InPktLen()),
                    channels, sine, wave)
      ensures Took(old(shm.history), old(sinePhase), shm.history, sinePhase, events, channels, sine, wave)
    {
      GrowsNone(events, InPktLen(), shm.history, sinePhase, channels, sine, wave);
      ServiceableFits(submitted, running, events, channels);
      assert ValidChannels(channels);
      hide Grows, Delivered, Streaming, Serviceable, Took, AllFit;
      assert events[0..] == events;
      for i := 0 to |events|
        invariant Valid() && Serviceable(submitted, running, events[i..], InPktLen())
        invariant Owned(submitted, running, events[i..]) == Owned(old(submitted), running, events)
        invariant inFlight - Surrendered(running, events[i..]) == old(inFlight) - Surrendered(running, events)
        invariant Grows(old(shm.history), old(sinePhase), shm.history, sinePhase,
                        Delivered(events[..i], InPktLen()), channels, sine, wave)
      {
        ServiceNext(events, i, old(shm.history), old(sinePhase));
      }
      WholeSeq(events);
      GrowsTakes(old(shm.history), old(sinePhase), shm.history, sinePhase, events, channels, sine, wave);
    }

    /** Submission at engine start: `accepted[i]` is libusb's answer for transfer i.
        The engine starts if and only if some transfer was accepted. */
    method Start(accepted: seq<bool>) returns (ok: bool)
      requires Valid() && submitted == {}
      modifies this`inFlight, this`submitted
      ensures Valid()
      ensures submitted == set i | 0 <= i < |accepted| && accepted[i]
      ensures ok <==> exists i :: 0 <= i < |accepted| && accepted[i]
    {
      hide Holds;
      for i := 0 to |accepted|
        modifies this`inFlight, this`submitted
        invariant Valid()
        invariant submitted == set j | 0 <= j < i && accepted[j]
      {
        assert (set j | 0 <= j < i + 1 && accepted[j]) ==
               (set j | 0 <= j < i && accepted[j]) + (if accepted[i] then {i} else {});
        if accepted[i] {
          inFlight := inFlight + 1;
          submitted := submitted + {i};
        }
      }
      if inFlight == 0 {
        assert forall i :: 0 <= i < |accepted| && accepted[i] ==> i in submitted;
        return false;
      }
      ghost var i :| i in submitted;
      return true;
    }

    /** The drain loop: it ends with the count at zero or when nothing more comes. */
    method Drain(drained: seq<Completion>)
      requires Valid() && !running && Serviceable(submitted, false, drained, InPktLen())
      modifies this`isoErrors, this`unalignedPackets, this`sinePhase, this`inFlight, this`submitted
      modifies shm`writeFrames, shm`history, shm.ring
      ensures Valid() && inFlight == old(inFlight) - |drained|
      ensures submitted == Owned(old(submitted), false, drained)
      ensures Grows(old(shm.history), old(sinePhase), shm.history, sinePhase, Delivered(drained, InPktLen()),
                    channels, sine, wave)
      ensures Took(old(shm.history), old(sinePhase), shm.history, sinePhase, drained, channels, sine, wave)
    {
      GrowsNone(drained, InPktLen(), shm.history, sinePhase, channels, sine, wave);
      ServiceableFits(submitted, running, drained, channels);
      assert ValidChannels(channels);
      hide Grows, Delivered, Streaming, Serviceable, Took, AllFit;
      var i := 0;
      assert drained[0..] == drained;
      while inFlight > 0 && i < |drained|
        invariant 0 <= i <= |drained| && Valid()
        invariant Serviceable(submitted, false, drained[i..], InPktLen())
        invariant Owned(submitted, false, drained[i..]) == Owned(old(submitted), false, drained)
        invariant inFlight == old(inFlight) - i
        invariant Grows(old(shm.history), old(sinePhase), shm.history, sinePhase,
                        Delivered(drained[..i], InPktLen()), channels, sine, wave)
      {
        ServiceNext(drained, i, old(shm.history), old(sinePhase));
        i := i + 1;
      }
      SomeLeft(submitted, false, drained, i, InPktLen());
      WholeSeq(drained);
      GrowsTakes(old(shm.history), old(sinePhase), shm.history, sinePhase, drained, channels, sine, wave);
    }

    /** Teardown: no callback resubmits any more, so every callback the drain
        services (`drained`, in order, until the timeout) takes one transfer off
        the count. `idle` says whether what is then freed is libusb's no longer. */
    method Stop(drained: seq<Completion>) returns (idle: bool)
      requires Valid() && Serviceable(submitted, false, drained, InPktLen())
      modifies this, shm`writeFrames, shm`history, shm.ring
      ensures Valid() && !running
      ensures inFlight == old(inFlight) - |drained|
      ensures submitted == Owned(old(submitted), false, drained)
      ensures Grows(old(shm.history), old(sinePhase), shm.history, sinePhase, Delivered(drained, InPktLen()),
                    channels, sine, wave)
      ensures Took(old(shm.history), old(sinePhase), shm.history, sinePhase, drained, channels, sine, wave)
      ensures idle <==> submitted == {}
      ensures idle <==> |drained| == old(inFlight)
    {
      hide Grows, Owned, Serviceable, Took;
      running := false;
      Drain(drained);
      idle := inFlight == 0;
    }
  }
}
