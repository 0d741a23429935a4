// Daemon and plugin together: what a DoIO call hands to CoreAudio while the
// daemon may write, publish, restart or switch devices between any two steps.
module AudioPath {
  import opened Ring
  import opened ReadCursor
  import opened Interleaving

  /** The counter value and buffer size with which a cycle's start was decided. */
  datatype Anchor = Anchor(w: nat, inFrames: nat)

  /** One DoIO call. `published` is the counter when it was made; `epoch` is the
      header it read the channel count from, `calm` says no header was being
      rewritten then (nor, once it returned, until it did), and `counted` is the
      header whose frames the counter it loaded counts. `part` is its place in
      session `session`; `lapped` says that the writer had stored a newer sample in
      a slot the call meant to read before it read it. */
  datatype Client =
    | Entered(cycle: nat, inFrames: UInt32, channels: nat, published: nat, epoch: nat, calm: bool)
    | Loaded(cycle: nat, inFrames: UInt32, channels: nat, published: nat, w: nat, epoch: nat, calm: bool,
             counted: int)
    | Copying(cycle: nat, inFrames: UInt32, channels: nat, published: nat, w: nat, epoch: nat, calm: bool,
              counted: int, rf: nat, anchor: Anchor, session: nat, part: Part, out: seq<Frame>, row: Frame,
              lapped: bool)
    | Finished(cycle: nat, inFrames: UInt32, channels: nat, published: nat, w: nat, epoch: nat, calm: bool,
               counted: int, rf: nat, anchor: Anchor, session: nat, part: Part, out: seq<Frame>, lapped: bool)

  /** A call opens a cycle, joins the one opened last, or (if its cycle number is
      the initial ~0) finds none opened since StartIO. */
  datatype Part = Opened(index: nat) | Joined(index: nat) | NoCycle

  /** The openers up to and including the call's own. */
  function Place(part: Part): nat {
    if part.NoCycle? then 0 else part.index + 1
  }

  datatype World = World(
    seg: Segment,
    // plugin globals
    cursor: Cursor, ioRunning: nat,
    clients: map<nat, Client>,
    // history: how the current cycle was anchored, how often StartIO reset the
    // cursor, to what, and the calls that opened a cycle since
    anchor: Anchor, session: nat, origin: Cursor, openers: seq<Call>)

  predicate Init(s: World) {
    && SegmentShape(s.seg) && s.seg.producer == Creating && s.seg.inputs == [] && s.seg.frames == []
    && s.cursor == s.origin == Cursor(0, 0, NO_CYCLE)
    && s.clients == map[] && s.anchor == Anchor(0, 0) && s.openers == []
    && s.seg.past == [] && s.seg.counted == -1
  }

  // ---- steps ----

  predicate Shape(s: World) {
    && SegmentShape(s.seg)
    && forall id :: id in s.clients ==> ValidChannels(s.clients[id].channels)
  }

  predicate Enabled(s: World, a: Action)
    requires Shape(s)
  {
    if ProducerAction(a) then SegmentEnabled(s.seg, a)
    else match a
      case StartIO => true
      case StopIO => true
      case Enter(id, _, _) => id !in s.clients
      case LoadCounter(id) => id in s.clients && s.clients[id].Entered?
      case DecideStart(id) => id in s.clients && s.clients[id].Loaded?
      case CopySample(id) =>
        && id in s.clients && s.clients[id].Copying?
        && |s.clients[id].out| < s.clients[id].inFrames && |s.clients[id].row| < s.clients[id].channels
      case Finish(id) =>
        && id in s.clients && s.clients[id].Copying?
        && |s.clients[id].out| == s.clients[id].inFrames
      case _ => true
  }

  /** The call reads the counter it will compare every frame against. */
  function Load(s: World, c: Client): (c': Client)
    requires c.Entered?
    ensures c'.channels == c.channels
  {
    Loaded(c.cycle, c.inFrames, c.channels, c.published, s.seg.w, c.epoch, c.calm, s.seg.counted)
  }

  function CallOf(s: World, c: Client): Call
    requires c.Loaded?
  {
    Call(c.cycle, c.inFrames, c.w, s.seg.latency)
  }

  /** The mutex section: a call that leads moves the cursor, any other joins. */
  function DecideStep(s: World, id: nat): World
    requires id in s.clients && s.clients[id].Loaded?
  {
    var c := s.clients[id];
    var call := CallOf(s, c);
    var leads := Leads(s.cursor, call);
    var cursor := Decide(s.cursor, call);
    var anchor := if leads then Anchor(c.w, c.inFrames) else s.anchor;
    s.(cursor := cursor,
       anchor := anchor,
       openers := if leads then s.openers + [call] else s.openers,
       clients := s.clients[id := Copying(
         c.cycle, c.inFrames, c.channels, c.published, c.w, c.epoch, c.calm, c.counted,
         cursor.cycleReadFrame, anchor, s.session,
         if leads then Opened(|s.openers|) else if s.openers != [] then Joined(|s.openers| - 1) else NoCycle,
         [], [], false)])
  }

  /** The next sample of the output: from the ring, or silence past the counter. */
  function Copy(s: World, c: Client): (c': Client)
    requires SegmentShape(s.seg) && ValidChannels(c.channels)
    requires c.Copying? && |c.out| < c.inFrames && |c.row| < c.channels
    ensures c'.channels == c.channels
  {
    var src := c.rf + |c.out|;
    SlotInBounds(src, c.channels, |c.row|);
    var v := if src < c.w then s.seg.ring[Slot(src, c.channels, |c.row|)] else 0;
    var row := c.row + [v];
    var lapped := c.lapped || Overtaken(s.seg, c);
    if |row| < c.channels then c.(row := row, lapped := lapped)
    else c.(row := [], out := c.out + [row], lapped := lapped)
  }

  /** The writer has stored the next sample to copy, or one a ring further, over it. */
  predicate Overtaken(seg: Segment, c: Client)
    requires c.Copying?
  {
    c.rf + |c.out| < c.w && SamplesWritten(seg, |c.row|) > c.rf + |c.out| + RING
  }

  function Return(s: World, c: Client): (c': Client)
    requires c.Copying?
    ensures c'.channels == c.channels
  {
    Finished(c.cycle, c.inFrames, c.channels, c.published, c.w, c.epoch, Undisturbed(c, s.seg),
             c.counted, c.rf, c.anchor, c.session, c.part, c.out, c.lapped)
  }

  /** No header was written from when the call entered until now or its return,
      nor since. */
  predicate Undisturbed(c: Client, seg: Segment) { c.calm && c.epoch == |seg.past| }

  /** The writer has begun no frame that falls into a slot the call reads. */
  predicate NotLapped(c: Client, seg: Segment)
    requires c.Copying? || c.Finished?
  {
    |seg.frames| <= c.rf + RING
  }

  /** The writer's budget: at most one buffer begun past the counter value the
      cycle was anchored with, or at most one ring since the counter restarted. */
  predicate WithinBudget(c: Client, seg: Segment)
    requires c.Copying? || c.Finished?
  {
    |seg.frames| <= c.anchor.w + c.anchor.inFrames || |seg.frames| <= RING
  }

  function Next(s: World, a: Action): (s': World)
    requires Shape(s) && Enabled(s, a)
    ensures Shape(s')
  {
    if ProducerAction(a) then s.(seg := SegmentNext(s.seg, a))
    else match a
      case StartIO =>
        if s.ioRunning > 0 then s.(ioRunning := s.ioRunning + 1)
        else
          var anchored := Cursor(s.seg.w, s.seg.w, NO_CYCLE);
          s.(cursor := anchored, origin := anchored, openers := [], session := s.session + 1,
             anchor := Anchor(s.seg.w, 0), ioRunning := 1)
      case StopIO => if s.ioRunning > 0 then s.(ioRunning := s.ioRunning - 1) else s
      case Enter(id, cycle, inFrames) =>
        s.(clients := s.clients[id := Entered(
          cycle, inFrames, s.seg.channels, s.seg.w, |s.seg.past|, !s.seg.producer.Creating?)])
      case LoadCounter(id) => s.(clients := s.clients[id := Load(s, s.clients[id])])
      case DecideStart(id) => DecideStep(s, id)
      case CopySample(id) => s.(clients := s.clients[id := Copy(s, s.clients[id])])
      case Finish(id) => s.(clients := s.clients[id := Return(s, s.clients[id])])
      case _ => s
  }

  /** A run: every step is enabled where it is taken. */
  predicate Possible(s: World, run: seq<Action>)
    requires Shape(s)
    decreases |run|
  {
    run != [] ==> Enabled(s, run[0]) && Possible(Next(s, run[0]), run[1..])
  }

  function After(s: World, run: seq<Action>): (s': World)
    requires Shape(s) && Possible(s, run)
    ensures Shape(s')
    decreases |run|
  {
    if run == [] then s else After(Next(s, run[0]), run[1..])
  }

  /** Taking these steps from s is possible and leads to s'. */
  predicate Reaches(s: World, run: seq<Action>, s': World) {
    Shape(s) && Possible(s, run) && After(s, run) == s'
  }

  lemma TakeStep(s: World, a: Action, rest: seq<Action>, s': World)
    requires Shape(s) && Enabled(s, a) && Reaches(Next(s, a), rest, s')
    ensures Reaches(s, [a] + rest, s')
  {
    assert ([a] + rest)[1..] == rest;
  }

  lemma {:induction false} JoinRuns(s: World, a: seq<Action>, m: World, b: seq<Action>, s': World)
    requires Reaches(s, a, m) && Reaches(m, b, s')
    ensures Reaches(s, a + b, s')
    decreases |a|
  {
    if a == [] {
      assert a + b == b;
    } else {
      JoinRuns(Next(s, a[0]), a[1..], m, b, s');
      assert (a + b)[1..] == a[1..] + b;
    }
  }

  // ---- what every reachable state satisfies ----

  /** v is channel `ch` of frame k, which shares its slots with frame `src` and is
      no older. */
  predicate ReadsAt(frames: seq<Frame>, src: nat, ch: nat, v: int, k: nat) {
    src <= k < |frames| && k % RING == src % RING && ch < |frames[k]| && frames[k][ch] == v
  }

  ghost predicate Reads(frames: seq<Frame>, src: nat, ch: nat, v: int, lapped: bool) {
    exists k: nat :: ReadsAt(frames, src, ch, v, k) && (k == src || lapped)
  }

  /** Sample v, delivered as channel `ch` of frame i: of frame rf + i itself unless
      the call was lapped, or silence past the counter. */
  ghost predicate SampleMatches(frames: seq<Frame>, c: Client, i: nat, ch: nat, v: int)
    requires c.Copying? || c.Finished?
  {
    if c.rf + i < c.w then Reads(frames, c.rf + i, ch, v, c.lapped) else v == 0
  }

  ghost predicate RowMatches(frames: seq<Frame>, c: Client, i: nat, row: Frame)
    requires c.Copying? || c.Finished?
  {
    forall ch :: 0 <= ch < |row| ==> SampleMatches(frames, c, i, ch, row[ch])
  }

  ghost predicate OutputMatches(frames: seq<Frame>, c: Client)
    requires c.Copying? || c.Finished?
  {
    && (forall i :: 0 <= i < |c.out| ==> |c.out[i]| == c.channels && RowMatches(frames, c, i, c.out[i]))
    && (c.Copying? ==> RowMatches(frames, c, |c.out|, c.row))
  }

  ghost predicate ClientInv(c: Client, seg: Segment)
    requires SegmentShape(seg)
  {
    && ValidChannels(c.channels)
    && c.epoch <= |seg.past|
    && (Undisturbed(c, seg) ==> !seg.producer.Creating? && c.channels == seg.channels)
    && (Undisturbed(c, seg) && c.Entered? ==> c.published <= seg.w)
    && (Undisturbed(c, seg) && !c.Entered? ==> c.published <= c.w <= seg.w)
    && (c.Copying? || c.Finished? ==>
          && (if c.Copying? then |c.out| <= c.inFrames && |c.row| < c.channels else |c.out| == c.inFrames)
          && (c.anchor.inFrames <= MAX_BUFFER ==> c.anchor.w + c.anchor.inFrames <= c.rf + RING)
          && (Undisturbed(c, seg) ==>
                && OutputMatches(seg.frames, c)
                && (c.lapped ==> !NotLapped(c, seg))))
  }

  /** A call of the running session agrees with the record of its cycle. */
  ghost predicate CycleInv(c: Client, s: World) {
    (c.Copying? || c.Finished?) ==>
      && c.session <= s.session
      && (c.session == s.session ==>
            && Place(c.part) <= |s.openers|
            && (var at := Replay(s.origin, s.openers[..Place(c.part)]);
                at.cycleReadFrame == c.rf && at.lastCycle == c.cycle)
            && (!c.part.NoCycle? ==> AnchorOf(s.openers[c.part.index]) == c.anchor)
            && (c.part.Opened? ==>
                  && s.openers[c.part.index].cycle == c.cycle
                  && s.openers[c.part.index].w == c.w
                  && s.openers[c.part.index].inFrames == c.inFrames
                  && (Undisturbed(c, s.seg) ==> s.openers[c.part.index].latency == s.seg.latency)))
  }

  predicate OpensAt(origin: Cursor, openers: seq<Call>, i: nat)
    requires i < |openers|
  {
    Leads(Replay(origin, openers[..i]), openers[i])
  }

  function AnchorOf(call: Call): Anchor { Anchor(call.w, call.inFrames) }

  ghost predicate CursorInv(s: World) {
    && s.cursor == Replay(s.origin, s.openers)
    && (s.openers != [] ==> AnchorOf(s.openers[|s.openers| - 1]) == s.anchor)
    && (forall i :: 0 <= i < |s.openers| ==> OpensAt(s.origin, s.openers, i))
    && (s.anchor.inFrames <= MAX_BUFFER ==>
          s.anchor.w + s.anchor.inFrames <= s.cursor.cycleReadFrame + RING)
  }

  ghost predicate Inv(s: World) {
    && SegmentInv(s.seg)
    && CursorInv(s)
    && forall id :: id in s.clients ==>
         ClientInv(s.clients[id], s.seg) && CycleInv(s.clients[id], s)
  }

  // ---- each step keeps it ----

  /** Within an epoch the daemon only ever adds to the history. */
  lemma HistoryGrows(seg: Segment, a: Action)
    requires SegmentInv(seg) && ProducerAction(a) && SegmentEnabled(seg, a)
    ensures var seg' := SegmentNext(seg, a);
      && |seg.past| <= |seg'.past|
      && (|seg'.past| == |seg.past| ==> seg'.channels == seg.channels && seg.frames <= seg'.frames)
      && (|seg'.past| == |seg.past| && !seg.producer.Creating? ==> seg.w <= seg'.w)
      && (seg'.producer.Creating? ==> seg.producer.Creating? || |seg'.past| > |seg.past|)
  {
  }

  lemma SampleStays(frames: seq<Frame>, frames': seq<Frame>, c: Client, c': Client, i: nat, ch: nat, v: int)
    requires (c.Copying? || c.Finished?) && (c'.Copying? || c'.Finished?) && frames <= frames'
    requires c.rf == c'.rf && c.w == c'.w && (c.lapped ==> c'.lapped)
    requires SampleMatches(frames, c, i, ch, v)
    ensures SampleMatches(frames', c', i, ch, v)
  {
    if c.rf + i < c.w {
      ReadStays(frames, frames', c.rf + i, ch, v, c.lapped, c'.lapped);
    }
  }

  lemma ReadStays(frames: seq<Frame>, frames': seq<Frame>, src: nat, ch: nat, v: int, lapped: bool, lapped': bool)
    requires frames <= frames' && (lapped ==> lapped') && Reads(frames, src, ch, v, lapped)
    ensures Reads(frames', src, ch, v, lapped')
  {
    var k: nat :| ReadsAt(frames, src, ch, v, k) && (k == src || lapped);
    assert ReadsAt(frames', src, ch, v, k);
  }

  lemma RowStays(frames: seq<Frame>, frames': seq<Frame>, c: Client, c': Client, i: nat, row: Frame)
    requires (c.Copying? || c.Finished?) && (c'.Copying? || c'.Finished?) && frames <= frames'
    requires c.rf == c'.rf && c.w == c'.w && (c.lapped ==> c'.lapped)
    requires RowMatches(frames, c, i, row)
    ensures RowMatches(frames', c', i, row)
  {
    forall ch | 0 <= ch < |row|
      ensures SampleMatches(frames', c', i, ch, row[ch])
    {
      SampleStays(frames, frames', c, c', i, ch, row[ch]);
    }
  }

  /** What was delivered stays what it is when the history grows. */
  lemma OutputStays(frames: seq<Frame>, frames': seq<Frame>, c: Client)
    requires (c.Copying? || c.Finished?) && frames <= frames' && OutputMatches(frames, c)
    ensures OutputMatches(frames', c)
  {
    forall i | 0 <= i < |c.out|
      ensures RowMatches(frames', c, i, c.out[i])
    {
      RowStays(frames, frames', c, c, i, c.out[i]);
    }
    if c.Copying? {
      RowStays(frames, frames', c, c, |c.out|, c.row);
    }
  }

  lemma ProducerKeepsClient(c: Client, seg: Segment, a: Action)
    requires SegmentInv(seg) && ClientInv(c, seg) && ProducerAction(a) && SegmentEnabled(seg, a)
    ensures ClientInv(c, SegmentNext(seg, a))
  {
    hide SegmentNext, Holds, AllInputFrames, OutputMatches;
    var seg' := SegmentNext(seg, a);
    HistoryGrows(seg, a);
    SegmentStep(seg, a);
    if (c.Copying? || c.Finished?) && Undisturbed(c, seg') {
      OutputStays(seg.frames, seg'.frames, c);
    }
  }

  /** The heart of the matter: the slot of frame `src` always holds, channel by
      channel and even while the writer is in the middle of a frame, the latest
      sample stored in it. */
  lemma SlotHoldsLatest(seg: Segment, src: nat, ch: nat)
    requires SegmentInv(seg) && !seg.producer.Creating?
    requires src < seg.w && ch < seg.channels
    ensures src < SamplesWritten(seg, ch) <= |seg.frames|
    ensures var k := LatestAt(src, SamplesWritten(seg, ch));
      && k < |seg.frames| && |seg.frames[k]| == seg.channels
      && Slot(src, seg.channels, ch) < RING_SAMPLES
      && seg.ring[Slot(src, seg.channels, ch)] == seg.frames[k][ch]
  {
    assert seg.producer.Pushing? ==> |seg.frames[seg.producer.next..]| <= 1;
    var n := SamplesWritten(seg, ch);
    var k := LatestAt(src, n);
    LatestExactly(src, n, k);
    SlotInBounds(src, seg.channels, ch);
    assert Resident(k, ch, |seg.frames|, seg.channels, WrittenOfNewest(seg));
    assert HoldsAt(seg.ring, seg.frames, seg.channels, k, ch);
  }

  /** c' is c with one more sample of output. */
  predicate Appended(c: Client, c': Client, v: int)
    requires c.Copying? && c'.Copying?
  {
    var row := c.row + [v];
    c' == if |row| < c.channels then c.(row := row, lapped := c'.lapped)
          else c.(row := [], out := c.out + [row], lapped := c'.lapped)
  }

  /** The sample a copy step appends. */
  function Read(seg: Segment, c: Client): int
    requires SegmentShape(seg) && ValidChannels(c.channels) && c.Copying? && |c.row| < c.channels
  {
    SlotInBounds(c.rf + |c.out|, c.channels, |c.row|);
    if c.rf + |c.out| < c.w then seg.ring[Slot(c.rf + |c.out|, c.channels, |c.row|)] else 0
  }

  lemma CopyAppends(s: World, c: Client)
    requires SegmentShape(s.seg) && ValidChannels(c.channels)
    requires c.Copying? && |c.out| < c.inFrames && |c.row| < c.channels
    ensures Copy(s, c).Copying? && Appended(c, Copy(s, c), Read(s.seg, c))
    ensures Copy(s, c).lapped == (c.lapped || Overtaken(s.seg, c))
  {
  }

  /** Exactly what a copy step from c to c' appends: its own frame's sample until
      the writer stores the same channel of the frame one ring later, then the
      latest sample stored over it; and the call is marked accordingly. */
  predicate CopiesLatest(seg: Segment, c: Client, c': Client)
    requires c.Copying?
  {
    var src, ch := c.rf + |c.out|, |c.row|;
    var n := SamplesWritten(seg, ch);
    && src < n
    && var k := LatestAt(src, n);
       && k < |seg.frames| && ch < |seg.frames[k]| == c.channels
       && (k == src <==> n <= src + RING)
       && c'.Copying? && Appended(c, c', seg.frames[k][ch])
       && c'.lapped == (c.lapped || k != src)
  }

  lemma CopyReads(s: World, c: Client)
    requires SegmentInv(s.seg) && ClientInv(c, s.seg) && Undisturbed(c, s.seg)
    requires c.Copying? && |c.out| < c.inFrames && c.rf + |c.out| < c.w
    ensures CopiesLatest(s.seg, c, Copy(s, c))
  {
    var src, ch := c.rf + |c.out|, |c.row|;
    assert SegmentShape(s.seg);
    assert c.channels == s.seg.channels && src < s.seg.w && !s.seg.producer.Creating? && ch < c.channels;
    hide SegmentInv, ClientInv, LatestAt, SamplesWritten, Copy, Appended, Slot;
    CopyAppends(s, c);
    SlotHoldsLatest(s.seg, src, ch);
    LatestExactly(src, SamplesWritten(s.seg, ch), src);
  }

  /** The sample a copy step appends is one the call may deliver. */
  lemma CopiedSample(s: World, c: Client)
    requires SegmentInv(s.seg) && ClientInv(c, s.seg) && Undisturbed(c, s.seg)
    requires c.Copying? && |c.out| < c.inFrames
    ensures var c' := Copy(s, c);
      && c'.Copying? && Appended(c, c', Read(s.seg, c)) && (c.lapped ==> c'.lapped)
      && (c'.lapped ==> !NotLapped(c, s.seg))
      && SampleMatches(s.seg.frames, c', |c.out|, |c.row|, Read(s.seg, c))
  {
    var src, ch, c' := c.rf + |c.out|, |c.row|, Copy(s, c);
    assert c.channels == s.seg.channels && c.w <= s.seg.w && !s.seg.producer.Creating? && ch < c.channels;
    assert c.lapped ==> !NotLapped(c, s.seg);
    CopyAppends(s, c);
    if src < c.w {
      SlotHoldsLatest(s.seg, src, ch);
      var k := LatestAt(src, SamplesWritten(s.seg, ch));
      LatestExactly(src, SamplesWritten(s.seg, ch), k);
      assert ReadsAt(s.seg.frames, src, ch, Read(s.seg, c), k);
    }
    hide SegmentInv, ClientInv, LatestAt, SamplesWritten, Copy, Appended, Slot;
  }

  lemma OutputGrows(frames: seq<Frame>, c: Client, c': Client, v: int)
    requires c.Copying? && c'.Copying? && Appended(c, c', v) && (c.lapped ==> c'.lapped)
    requires |c.row| < c.channels
    requires OutputMatches(frames, c) && SampleMatches(frames, c', |c.out|, |c.row|, v)
    ensures OutputMatches(frames, c')
  {
    hide SampleMatches;
    var row := c.row + [v];
    RowStays(frames, frames, c, c', |c.out|, c.row);
    assert RowMatches(frames, c', |c.out|, row);
    forall i | 0 <= i < |c.out|
      ensures RowMatches(frames, c', i, c.out[i])
    {
      RowStays(frames, frames, c, c', i, c.out[i]);
    }
  }

  lemma CopyKeepsClient(s: World, c: Client)
    requires SegmentInv(s.seg) && ClientInv(c, s.seg)
    requires c.Copying? && |c.out| < c.inFrames
    ensures ClientInv(Copy(s, c), s.seg)
  {
    CopyAppends(s, c);
    if Undisturbed(c, s.seg) {
      CopiedSample(s, c);
      hide Copy, SampleMatches, OutputMatches, SegmentInv, Read;
      OutputGrows(s.seg.frames, c, Copy(s, c), Read(s.seg, c));
    }
  }

  lemma ReturnKeepsClient(s: World, c: Client)
    requires SegmentInv(s.seg) && ClientInv(c, s.seg) && c.Copying? && |c.out| == c.inFrames
    ensures ClientInv(Return(s, c), s.seg)
  {
    if Undisturbed(c, s.seg) {
      var c' := Return(s, c);
      forall i | 0 <= i < |c'.out|
        ensures RowMatches(s.seg.frames, c', i, c'.out[i])
      {
        RowStays(s.seg.frames, s.seg.frames, c, c', i, c.out[i]);
      }
    }
  }

  lemma ReplayPrefix(origin: Cursor, openers: seq<Call>, call: Call, i: nat)
    requires i <= |openers|
    ensures (openers + [call])[..i] == openers[..i]
    ensures Replay(origin, openers + [call]) == Decide(Replay(origin, openers), call)
  {
    assert (openers + [call])[..|openers|] == openers;
    assert (openers + [call])[..i] == openers[..i];
  }

  /** A decision keeps every cycle's record and, if it leads, adds its own. */
  lemma DecideKeepsCycle(s: World, id: nat, c: Client)
    requires Inv(s) && id in s.clients && s.clients[id].Loaded?
    requires CycleInv(c, s)
    ensures CycleInv(c, DecideStep(s, id))
  {
    var s' := DecideStep(s, id);
    if (c.Copying? || c.Finished?) && c.session == s.session && s'.openers != s.openers {
      ReplayPrefix(s.origin, s.openers, CallOf(s, s.clients[id]), Place(c.part));
    }
  }

  lemma DecideKeepsCursor(s: World, id: nat)
    requires Inv(s) && id in s.clients && s.clients[id].Loaded?
    ensures CursorInv(DecideStep(s, id))
    ensures CycleInv(DecideStep(s, id).clients[id], DecideStep(s, id))
    ensures ClientInv(DecideStep(s, id).clients[id], s.seg)
  {
    assert SegmentInv(s.seg) && CursorInv(s) && ClientInv(s.clients[id], s.seg);
    hide Inv, SegmentInv, CursorInv, ClientInv, CycleInv, DecideStep;
    DecideKeepsRecord(s, id);
    DecidedCycle(s, id);
    DecidedClient(s, id);
  }

  /** One more opener in the record. */
  lemma OpenersGrow(origin: Cursor, openers: seq<Call>, call: Call)
    requires Leads(Replay(origin, openers), call)
    requires forall i :: 0 <= i < |openers| ==> OpensAt(origin, openers, i)
    ensures forall i :: 0 <= i < |openers| + 1 ==> OpensAt(origin, openers + [call], i)
    ensures Replay(origin, openers + [call]) == Decide(Replay(origin, openers), call)
  {
    hide Replay, Decide;
    ReplayPrefix(origin, openers, call, |openers|);
    assert openers[..|openers|] == openers;
    forall i | 0 <= i < |openers| + 1
      ensures OpensAt(origin, openers + [call], i)
    {
      ReplayPrefix(origin, openers, call, i);
      assert i < |openers| ==> OpensAt(origin, openers, i);
    }
  }

  lemma DecideKeepsRecord(s: World, id: nat)
    requires CursorInv(s) && SegmentShape(s.seg) && id in s.clients && s.clients[id].Loaded?
    ensures CursorInv(DecideStep(s, id))
  {
    DecideLeavesRoom(s, id);
    var call := CallOf(s, s.clients[id]);
    if Leads(s.cursor, call) {
      hide Replay, Decide, Depth;
      OpenersGrow(s.origin, s.openers, call);
    }
  }

  lemma DecidedNumber(c: Cursor, call: Call)
    ensures Decide(c, call).lastCycle == call.cycle
    ensures !Leads(c, call) ==> Decide(c, call) == c
  {
  }

  lemma WholeRecord(origin: Cursor, openers: seq<Call>, call: Call)
    ensures Replay(origin, openers[..|openers|]) == Replay(origin, openers)
    ensures Replay(origin, (openers + [call])[..|openers| + 1]) == Decide(Replay(origin, openers), call)
  {
    ReplayPrefix(origin, openers, call, |openers|);
    assert (openers + [call])[..|openers| + 1] == openers + [call];
    assert openers[..|openers|] == openers;
  }

  lemma DecidedCycle(s: World, id: nat)
    requires CursorInv(s) && id in s.clients && s.clients[id].Loaded?
    ensures CycleInv(DecideStep(s, id).clients[id], DecideStep(s, id))
  {
    hide Replay, OpensAt, Decide, Leads;
    WholeRecord(s.origin, s.openers, CallOf(s, s.clients[id]));
    DecidedNumber(s.cursor, CallOf(s, s.clients[id]));
  }

  /** The start decided leaves the writer a buffer of room before it laps it. */
  lemma DecideLeavesRoom(s: World, id: nat)
    requires SegmentShape(s.seg) && id in s.clients && s.clients[id].Loaded?
    requires s.anchor.inFrames <= MAX_BUFFER ==> s.anchor.w + s.anchor.inFrames <= s.cursor.cycleReadFrame + RING
    ensures var s' := DecideStep(s, id);
      s'.anchor.inFrames <= MAX_BUFFER ==> s'.anchor.w + s'.anchor.inFrames <= s'.cursor.cycleReadFrame + RING
  {
    var c := s.clients[id];
    if Leads(s.cursor, CallOf(s, c)) && c.inFrames <= MAX_BUFFER {
      assert Depth(c.inFrames, s.seg.latency) + c.inFrames <= RING;
      CycleStart(s.cursor, CallOf(s, c));
    }
  }

  lemma DecidedClient(s: World, id: nat)
    requires SegmentInv(s.seg) && id in s.clients && s.clients[id].Loaded? && ClientInv(s.clients[id], s.seg)
    requires CursorInv(s)
    ensures ClientInv(DecideStep(s, id).clients[id], s.seg)
  {
    DecideLeavesRoom(s, id);
    hide Decide, Holds, Replay;
  }

  lemma SegmentCounts(seg: Segment)
    requires SegmentInv(seg) && !seg.producer.Creating?
    ensures seg.w <= |seg.frames|
  {
  }

  lemma StepInv(s: World, a: Action)
    requires Inv(s) && Enabled(s, a)
    ensures Inv(Next(s, a))
  {
    var s' := Next(s, a);
    if ProducerAction(a) {
      SegmentStep(s.seg, a);
      forall id | id in s'.clients
        ensures ClientInv(s'.clients[id], s'.seg) && CycleInv(s'.clients[id], s')
      {
        ProducerKeepsClient(s.clients[id], s.seg, a);
        assert CycleInv(s.clients[id], s);
      }
    } else if a.StartIO? {
      StartKeepsInv(s);
    } else if a.DecideStart? {
      DecideKeepsCursor(s, a.id);
      forall id | id in s'.clients
        ensures ClientInv(s'.clients[id], s'.seg) && CycleInv(s'.clients[id], s')
      {
        if id != a.id {
          DecideKeepsCycle(s, a.id, s.clients[id]);
        }
      }
    } else {
      ClientStepInv(s, a);
    }
  }

  lemma StartKeepsInv(s: World)
    requires Inv(s)
    ensures Inv(Next(s, StartIO))
  {
    var s' := Next(s, StartIO);
    forall id | id in s'.clients
      ensures ClientInv(s'.clients[id], s'.seg) && CycleInv(s'.clients[id], s')
    {
      var c := s.clients[id];
      assert ClientInv(c, s.seg) && CycleInv(c, s);
    }
  }

  lemma EnterInv(s: World, a: Action)
    requires SegmentInv(s.seg) && Shape(s) && a.Enter? && Enabled(s, a)
    ensures ClientInv(Next(s, a).clients[a.id], s.seg) && CycleInv(Next(s, a).clients[a.id], Next(s, a))
  {
  }

  /** The steps of one call touch nothing but that call. */
  lemma OnlyThatCall(s: World, a: Action)
    requires Shape(s) && Enabled(s, a)
    requires a.StopIO? || a.Enter? || a.LoadCounter? || a.CopySample? || a.Finish?
    ensures var s' := Next(s, a);
      && s' == s.(clients := s'.clients, ioRunning := s'.ioRunning)
      && forall id :: id in s'.clients && (a.StopIO? || id != a.id) ==>
           id in s.clients && s'.clients[id] == s.clients[id]
  {
  }

  lemma ClientStepInv(s: World, a: Action)
    requires Inv(s) && Enabled(s, a)
    requires a.StopIO? || a.Enter? || a.LoadCounter? || a.CopySample? || a.Finish?
    ensures Inv(Next(s, a))
  {
    var s' := Next(s, a);
    OnlyThatCall(s, a);
    forall id | id in s'.clients
      ensures ClientInv(s'.clients[id], s'.seg) && CycleInv(s'.clients[id], s')
    {
      if a.StopIO? || id != a.id {
        assert ClientInv(s.clients[id], s.seg) && CycleInv(s.clients[id], s);
        SameRecord(s.clients[id], s, s');
      } else if a.Enter? {
        EnterInv(s, a);
      } else {
        assert ClientInv(s.clients[id], s.seg) && CycleInv(s.clients[id], s);
        OwnStepInv(s, a, id);
      }
    }
    hide Next, SegmentInv, ClientInv, CycleInv;
  }

  lemma SameRecord(c: Client, s: World, s': World)
    requires CycleInv(c, s)
    requires s'.seg == s.seg && s'.session == s.session && s'.origin == s.origin && s'.openers == s.openers
    ensures CycleInv(c, s')
  {
  }

  lemma OwnStepInv(s: World, a: Action, id: nat)
    requires SegmentInv(s.seg) && Shape(s) && Enabled(s, a)
    requires id in s.clients && ClientInv(s.clients[id], s.seg) && CycleInv(s.clients[id], s)
    requires a == LoadCounter(id) || a == CopySample(id) || a == Finish(id)
    ensures var s' := Next(s, a); ClientInv(s'.clients[id], s'.seg) && CycleInv(s'.clients[id], s')
  {
    var c := s.clients[id];
    match a
    case LoadCounter(_) => if Undisturbed(c, s.seg) { SegmentCounts(s.seg); }
    case CopySample(_) => CopyKeepsClient(s, c);
    case Finish(_) => ReturnKeepsClient(s, c);
  }

  lemma {:induction false} RunInv(s: World, run: seq<Action>)
    requires Inv(s) && Possible(s, run)
    ensures Inv(After(s, run))
    decreases |run|
  {
    if run != [] {
      StepInv(s, run[0]);
      RunInv(Next(s, run[0]), run[1..]);
    }
  }
}
