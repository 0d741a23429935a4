// The daemon's main loop: engine lifecycle, watchdog, and exit when absent, over
// the segment and the capture engine themselves.
module Daemon {
  import opened Framing
  import opened Ring
  import opened SharedMemory
  import opened UsbCapture
  import ReadCursor

  const WATCHDOG_STALL: real := 0.5
  const ABSENT_EXIT_GRACE: nat := 3

  datatype Option<T> = None | Some(value: T)
  datatype Device = Device(productId: nat, channels: nat)

  /** What the world answers in one iteration: the clock, the transfers completed
      meanwhile, the bus scan, whether mapping the segment and opening the device
      succeed, libusb's answer to each submission, and the transfers completed
      while an engine drains. */
  datatype Input = Input(now: real, events: seq<Completion>, found: Option<Device>, createOk: bool,
                         openOk: bool, accepted: seq<bool>, drained: seq<Completion>)

  /** What the loop sees of it: the clock, the counter after servicing USB events,
      the scan, and whether creation and start succeed. */
  datatype Round = Round(now: real, wf: nat, found: Option<Device>, createOk: bool, startOk: bool)

  predicate Submits(input: Input) {
    input.openOk && exists i :: 0 <= i < |input.accepted| && input.accepted[i]
  }

  function Accepted(input: Input): set<nat> {
    set i | 0 <= i < |input.accepted| && input.accepted[i]
  }

  function Observed(input: Input, wf: nat): Round {
    Round(input.now, wf, input.found, input.createOk, Submits(input))
  }

  /** What an iteration turned out to be. */
  datatype Kind = Polled | Stalled | Started | Busy | Empty | CreateFailed

  datatype Outcome = Stopped | Exited | Failed

  datatype Header = Header(channels: nat, latency: nat)

  /** The daemon after an iteration: the running capture's device, the mapped
      header if any, the engines started and stopped, the transfers the running
      engine's libusb owns, everything in the segment's history, and the phase of
      the running engine's tone. */
  datatype Snapshot = Snapshot(active: Option<Device>, header: Option<Header>, starts: nat, stops: nat,
                               owned: set<nat>, history: seq<Frame>, phase: real)

  /** One engine more started than stopped while capturing, none otherwise, and
      the header never describes another device than the capturing one. */
  predicate Sound(s: Snapshot, latency: nat) {
    && s.starts == s.stops + (if s.active.Some? then 1 else 0)
    && (s.active.Some? ==> s.header == Some(Header(s.active.value.channels, latency)))
  }

  /** The devices the scan can report come from a table with distinct product ids. */
  predicate Table(table: seq<Device>) {
    && (forall i, j :: 0 <= i < |table| && 0 <= j < |table| && table[i].productId == table[j].productId ==> i == j)
    && forall i :: 0 <= i < |table| ==> ValidChannels(table[i].channels)
  }

  predicate Known(found: Option<Device>, table: seq<Device>) { found.Some? ==> found.value in table }

  predicate FromTable(rounds: seq<Round>, table: seq<Device>) {
    Table(table) && forall i :: 0 <= i < |rounds| ==> Known(rounds[i].found, table)
  }

  // ---- what an iteration does to the captured audio ----

  /** The callbacks a poll services while device d is capturing. */
  function Heard(before: Snapshot, d: Device, input: Input): seq<Completion> {
    Callbacks(before.owned, true, input.events, PacketLen(d.channels))
  }

  /** The packets they bring. */
  function Brought(before: Snapshot, d: Device, input: Input): seq<Packet> {
    Delivered(Heard(before, d, input), PacketLen(d.channels))
  }

  /** The packets that still arrive while the engine drains. */
  function BroughtLate(owned: set<nat>, d: Device, drained: seq<Completion>): seq<Packet> {
    Delivered(Callbacks(owned, false, drained, PacketLen(d.channels)), PacketLen(d.channels))
  }

  /** A poll appends the frames of the packets it brings, reads their number from
      the counter, and changes nothing else unless it stalled: then the engine is
      gone, and what arrived while it drained is appended too. */
  predicate PollsFrom(before: Snapshot, input: Input, kind: Kind, wf: nat, after: Snapshot,
                      sine: bool, wave: real -> int)
  {
    && before.active.Some?
    && var d := before.active.value;
       && ValidChannels(d.channels)
       && var packets := Brought(before, d, input);
          var history := before.history + Captured(packets, d.channels, sine, wave, before.phase);
          var phase := PhaseLeft(sine, before.phase, WholeFrames(packets, d.channels));
          var owned := Owned(before.owned, true, Heard(before, d, input));
          && wf == |history|
          && after == if kind == Stalled
                      then Ended(before, d, history, phase, owned, input.drained, sine, wave)
                      else before.(history := history, phase := phase, owned := owned)
  }

  /** The daemon once the engine of device d is stopped. */
  function Ended(before: Snapshot, d: Device, history: seq<Frame>, phase: real, owned: set<nat>,
                 drained: seq<Completion>, sine: bool, wave: real -> int): Snapshot
    requires ValidChannels(d.channels)
  {
    Snapshot(None, before.header, before.starts, before.stops + 1, {},
             history + Captured(BroughtLate(owned, d, drained), d.channels, sine, wave, phase), 0.0)
  }

  /** The daemon after its loop: a capture still running is ended. */
  function Closed(s: Snapshot, last: seq<Completion>, sine: bool, wave: real -> int): Snapshot {
    if s.active.Some? && ValidChannels(s.active.value.channels)
    then Ended(s, s.active.value, s.history, s.phase, s.owned, last, sine, wave)
    else s
  }

  /** A scan appends nothing; it empties the history exactly if it creates the
      segment anew, for the device found. */
  predicate ScansFrom(before: Snapshot, input: Input, kind: Kind, create: bool, after: Snapshot, latency: nat) {
    && before.active == None
    && match kind
       case Started =>
         && input.found.Some?
         && var d := input.found.value;
            after == Snapshot(
              Some(d), if create then Some(Header(d.channels, latency)) else before.header,
              before.starts + 1, before.stops, Accepted(input),
              if create then [] else before.history, 0.0)
       case Busy =>
         && input.found.Some?
         && after == (if create then before.(header := Some(Header(input.found.value.channels, latency)), history := [])
                      else before)
       case _ => after == before
  }

  /** libusb calls back only for transfers it owns, with packets that fit: then a
      poll services every completion, ... */
  predicate Hears(before: Snapshot, d: Device, input: Input) {
    Serviceable(before.owned, true, input.events, PacketLen(d.channels))
  }

  /** ... so the history grows by every frame of every packet completed, and the
      counter read by their number. */
  lemma PollTakes(before: Snapshot, input: Input, kind: Kind, wf: nat, after: Snapshot, sine: bool, wave: real -> int)
    returns (history: seq<Frame>, phase: real)
    requires PollsFrom(before, input, kind, wf, after, sine, wave) && Hears(before, before.active.value, input)
    ensures var d := before.active.value;
      && d.channels > 0
      && Took(before.history, before.phase, history, phase, input.events, d.channels, sine, wave)
      && wf == |history| == |before.history| + EventsBefore(input.events, |input.events|, d.channels)
      && (kind != Stalled ==> after.history == history && after.phase == phase)
      && (kind == Stalled ==>
            after ==
              Ended(before, d, history, phase, Owned(before.owned, true, input.events), input.drained, sine, wave))
  {
    var d := before.active.value;
    CallbacksAll(before.owned, true, input.events, PacketLen(d.channels));
    ServiceableFits(before.owned, true, input.events, d.channels);
    var packets := Brought(before, d, input);
    history := before.history + Captured(packets, d.channels, sine, wave, before.phase);
    phase := PhaseLeft(sine, before.phase, WholeFrames(packets, d.channels));
    hide Captured, PhaseLeft, WholeFrames, Delivered, Serviceable, AllFit;
    GrowsTakes(before.history, before.phase, history, phase, input.events, d.channels, sine, wave);
  }

  /** And so with what completes while an engine drains. */
  lemma EndTakes(before: Snapshot, d: Device, history: seq<Frame>, phase: real, owned: set<nat>,
                 drained: seq<Completion>, sine: bool, wave: real -> int) returns (phase': real)
    requires ValidChannels(d.channels) && Serviceable(owned, false, drained, PacketLen(d.channels))
    ensures Took(history, phase, Ended(before, d, history, phase, owned, drained, sine, wave).history, phase',
                 drained, d.channels, sine, wave)
  {
    CallbacksAll(owned, false, drained, PacketLen(d.channels));
    ServiceableFits(owned, false, drained, d.channels);
    var packets := BroughtLate(owned, d, drained);
    phase' := PhaseLeft(sine, phase, WholeFrames(packets, d.channels));
    hide Captured, PhaseLeft, WholeFrames, Delivered, Serviceable, AllFit;
    GrowsTakes(history, phase, history + Captured(packets, d.channels, sine, wave, phase), phase', drained,
               d.channels, sine, wave);
  }

  // ---- the reference: an iteration explained by the trace before it ----

  /** A capture is running after the first n iterations. */
  predicate Capturing(kinds: seq<Kind>, n: nat)
    requires n <= |kinds|
  {
    n > 0 && (kinds[n - 1] == Started || kinds[n - 1] == Polled)
  }

  /** The scan that found the device last, before iteration n. */
  function LastFound(rounds: seq<Round>, kinds: seq<Kind>, n: nat): Option<Device>
    requires n <= |kinds| <= |rounds|
  {
    if n == 0 then None
    else if !Capturing(kinds, n - 1) && rounds[n - 1].found.Some? then rounds[n - 1].found
    else LastFound(rounds, kinds, n - 1)
  }

  /** Only a running capture is polled. */
  predicate Coherent(kinds: seq<Kind>) {
    forall i :: 0 <= i < |kinds| && (kinds[i] == Polled || kinds[i] == Stalled) ==> Capturing(kinds, i)
  }

  /** The iteration that started the capture running before iteration n. */
  function StartOf(kinds: seq<Kind>, n: nat): (s: nat)
    requires Coherent(kinds) && n <= |kinds| && Capturing(kinds, n)
    ensures s < n && kinds[s] == Started
    ensures forall j :: s < j < n ==> kinds[j] == Polled
  {
    if kinds[n - 1] == Started then n - 1 else StartOf(kinds, n - 1)
  }

  /** The last iteration in s..i at which the counter was seen to change. */
  function LastChange(rounds: seq<Round>, s: nat, i: nat): (c: nat)
    requires s <= i < |rounds|
    ensures s <= c <= i
    ensures c == s || rounds[c].wf != rounds[c - 1].wf
    ensures forall j :: c < j <= i ==> rounds[j].wf == rounds[c].wf
  {
    if i == s || rounds[i].wf != rounds[i - 1].wf then i else LastChange(rounds, s, i - 1)
  }

  /** The trailing run of empty scans among the first n iterations. */
  function EmptyRun(kinds: seq<Kind>, n: nat): (run: nat)
    requires n <= |kinds|
    ensures run <= n
    ensures forall j :: n - run <= j < n ==> kinds[j] == Empty
    ensures run < n ==> kinds[n - run - 1] != Empty
  {
    if n > 0 && kinds[n - 1] == Empty then EmptyRun(kinds, n - 1) + 1 else 0
  }

  /** The segment must be (re)created for device d before iteration n's start. */
  predicate NeedsCreate(rounds: seq<Round>, kinds: seq<Kind>, n: nat, d: Device)
    requires n <= |kinds| <= |rounds|
  {
    var known := LastFound(rounds, kinds, n);
    known.None? || known.value.productId != d.productId
  }

  /** Poll i comes more than half a second after the capture last made progress. */
  predicate TooLong(rounds: seq<Round>, kinds: seq<Kind>, i: nat)
    requires Coherent(kinds) && i <= |kinds| <= |rounds| && i < |rounds| && Capturing(kinds, i)
  {
    rounds[i].now - rounds[LastChange(rounds, StartOf(kinds, i), i)].now > WATCHDOG_STALL
  }

  function Expected(rounds: seq<Round>, kinds: seq<Kind>, i: nat): Kind
    requires Coherent(kinds) && i <= |kinds| <= |rounds| && i < |rounds|
  {
    if Capturing(kinds, i) then
      if TooLong(rounds, kinds, i) then Stalled else Polled
    else match rounds[i].found
      case None => Empty
      case Some(d) =>
        if NeedsCreate(rounds, kinds, i, d) && !rounds[i].createOk then CreateFailed
        else if rounds[i].startOk then Started
        else Busy
  }

  ghost predicate Explained(rounds: seq<Round>, kinds: seq<Kind>) {
    && Coherent(kinds)
    && |kinds| <= |rounds|
    && forall i :: 0 <= i < |kinds| ==> kinds[i] == Expected(rounds, kinds, i)
  }

  // ---- the reference only looks back ----

  lemma {:induction false} LooksBack(rounds: seq<Round>, kinds: seq<Kind>, next: Kind, n: nat)
    requires Coherent(kinds) && Coherent(kinds + [next]) && n <= |kinds| < |rounds|
    ensures Capturing(kinds + [next], n) == Capturing(kinds, n)
    ensures LastFound(rounds, kinds + [next], n) == LastFound(rounds, kinds, n)
    ensures Capturing(kinds, n) ==> StartOf(kinds + [next], n) == StartOf(kinds, n)
    ensures EmptyRun(kinds + [next], n) == EmptyRun(kinds, n)
    decreases n
  {
    if n > 0 {
      LooksBack(rounds, kinds, next, n - 1);
      assert (kinds + [next])[n - 1] == kinds[n - 1];
    }
  }

  lemma ExpectedLooksBack(rounds: seq<Round>, kinds: seq<Kind>, next: Kind, i: nat)
    requires Coherent(kinds) && Coherent(kinds + [next]) && i <= |kinds| < |rounds|
    ensures Expected(rounds, kinds + [next], i) == Expected(rounds, kinds, i)
  {
    LooksBack(rounds, kinds, next, i);
  }

  lemma StaysCoherent(rounds: seq<Round>, kinds: seq<Kind>)
    requires Coherent(kinds) && |kinds| < |rounds|
    ensures Coherent(kinds + [Expected(rounds, kinds, |kinds|)])
  {
    var kinds' := kinds + [Expected(rounds, kinds, |kinds|)];
    forall i | 0 <= i < |kinds'| && (kinds'[i] == Polled || kinds'[i] == Stalled)
      ensures Capturing(kinds', i)
    {
      assert i < |kinds| ==> Capturing(kinds, i);
    }
  }

  lemma ExtendExplained(rounds: seq<Round>, kinds: seq<Kind>)
    requires Explained(rounds, kinds) && |kinds| < |rounds|
    ensures Explained(rounds, kinds + [Expected(rounds, kinds, |kinds|)])
  {
    hide Expected, Coherent;
    var next := Expected(rounds, kinds, |kinds|);
    StaysCoherent(rounds, kinds);
    forall i | 0 <= i < |kinds + [next]|
      ensures (kinds + [next])[i] == Expected(rounds, kinds + [next], i)
    {
      ExpectedLooksBack(rounds, kinds, next, i);
      assert i < |kinds| ==> kinds[i] == Expected(rounds, kinds, i);
    }
  }

  lemma {:induction false} LastFoundStays(rounds: seq<Round>, r: Round, kinds: seq<Kind>, n: nat)
    requires n <= |kinds| <= |rounds|
    ensures LastFound(rounds + [r], kinds, n) == LastFound(rounds, kinds, n)
    decreases n
  {
    if n > 0 {
      LastFoundStays(rounds, r, kinds, n - 1);
    }
  }

  lemma {:induction false} LastChangeStays(rounds: seq<Round>, r: Round, s: nat, i: nat)
    requires s <= i < |rounds|
    ensures LastChange(rounds + [r], s, i) == LastChange(rounds, s, i)
    decreases i
  {
    if i > s {
      LastChangeStays(rounds, r, s, i - 1);
    }
  }

  /** Nor does the trace so far depend on what is observed next. */
  lemma RoundsGrow(rounds: seq<Round>, r: Round, kinds: seq<Kind>)
    requires Explained(rounds, kinds)
    ensures Explained(rounds + [r], kinds)
  {
    forall i | 0 <= i < |kinds|
      ensures kinds[i] == Expected(rounds + [r], kinds, i)
    {
      assert kinds[i] == Expected(rounds, kinds, i);
      LastFoundStays(rounds, r, kinds, i);
      if Capturing(kinds, i) {
        LastChangeStays(rounds, r, StartOf(kinds, i), i);
      }
    }
  }

  /** What a poll adds to the trace. */
  lemma PollExtends(rounds: seq<Round>, kinds: seq<Kind>)
    requires Explained(rounds, kinds) && |kinds| < |rounds| && Capturing(kinds, |kinds|)
    ensures var n, kind := |kinds|, Expected(rounds, kinds, |kinds|); var kinds' := kinds + [kind];
      && Explained(rounds, kinds')
      && (Capturing(kinds', n + 1) <==> kind == Polled)
      && (kind == Polled ==> StartOf(kinds', n + 1) == StartOf(kinds, n))
      && LastFound(rounds, kinds', n + 1) == LastFound(rounds, kinds, n)
      && EmptyRun(kinds', n + 1) == EmptyRun(kinds, n) == 0
      && n > 0
      && var s := StartOf(kinds, n);
         var c := if rounds[n].wf != rounds[n - 1].wf then n else LastChange(rounds, s, n - 1);
         && LastChange(rounds, s, n) == c
         && kind == (if rounds[n].now - rounds[c].now > WATCHDOG_STALL then Stalled else Polled)
  {
    var n, kind := |kinds|, Expected(rounds, kinds, |kinds|);
    ExtendExplained(rounds, kinds);
    LooksBack(rounds, kinds, kind, n);
  }

  /** The same, said of the trace before the poll was observed. */
  lemma PollObserved(rounds: seq<Round>, r: Round, kinds: seq<Kind>)
    requires Explained(rounds, kinds) && |rounds| == |kinds| && Capturing(kinds, |kinds|)
    ensures var n, rounds' := |kinds|, rounds + [r];
      var kind := Expected(rounds', kinds, n);
      var kinds' := kinds + [kind];
      && n > 0 && Explained(rounds', kinds')
      && (Capturing(kinds', n + 1) <==> kind == Polled)
      && LastFound(rounds', kinds', n + 1) == LastFound(rounds, kinds, n)
      && EmptyRun(kinds', n + 1) == EmptyRun(kinds, n)
      && var progress := if r.wf != rounds[n - 1].wf then r.now
                         else rounds[LastChange(rounds, StartOf(kinds, n), n - 1)].now;
         && kind == (if r.now - progress > WATCHDOG_STALL then Stalled else Polled)
         && (kind == Polled ==> rounds'[LastChange(rounds', StartOf(kinds', n + 1), n)].now == progress)
  {
    var n, rounds' := |kinds|, rounds + [r];
    RoundsGrow(rounds, r, kinds);
    LastFoundStays(rounds, r, kinds, n);
    LastChangeStays(rounds, r, StartOf(kinds, n), n - 1);
    PollExtends(rounds', kinds);
    hide Explained, Coherent, Expected, LastFound, EmptyRun, StartOf, LastChange;
  }

  /** What a scan adds to the trace. */
  lemma ScanExtends(rounds: seq<Round>, kinds: seq<Kind>)
    requires Explained(rounds, kinds) && |kinds| < |rounds| && !Capturing(kinds, |kinds|)
    ensures var n, kind := |kinds|, Expected(rounds, kinds, |kinds|); var kinds' := kinds + [kind];
      && Explained(rounds, kinds')
      && (Capturing(kinds', n + 1) <==> kind == Started)
      && (kind == Started ==> StartOf(kinds', n + 1) == n && LastChange(rounds, n, n) == n)
      && LastFound(rounds, kinds', n + 1) ==
           (if rounds[n].found.Some? then rounds[n].found else LastFound(rounds, kinds, n))
      && EmptyRun(kinds', n + 1) == (if kind == Empty then EmptyRun(kinds, n) + 1 else 0)
  {
    var n, kind := |kinds|, Expected(rounds, kinds, |kinds|);
    ExtendExplained(rounds, kinds);
    LooksBack(rounds, kinds, kind, n);
  }

  /** The same, said of the trace before the scan was observed. */
  lemma ScanObserved(rounds: seq<Round>, r: Round, kinds: seq<Kind>)
    requires Explained(rounds, kinds) && |rounds| == |kinds| && !Capturing(kinds, |kinds|)
    ensures var n, rounds' := |kinds|, rounds + [r];
      var kind := Expected(rounds', kinds, n);
      var kinds' := kinds + [kind];
      && Explained(rounds', kinds')
      && (Capturing(kinds', n + 1) <==> kind == Started)
      && (kind == Started ==> StartOf(kinds', n + 1) == n && LastChange(rounds', n, n) == n)
      && LastFound(rounds', kinds, n) == LastFound(rounds, kinds, n)
      && LastFound(rounds', kinds', n + 1) == (if r.found.Some? then r.found else LastFound(rounds, kinds, n))
      && EmptyRun(kinds', n + 1) == (if kind == Empty then EmptyRun(kinds, n) + 1 else 0)
      && (r.found.Some? ==>
            (NeedsCreate(rounds', kinds, n, r.found.value) <==>
               var known := LastFound(rounds, kinds, n);
               known.None? || known.value.productId != r.found.value.productId))
      && kind == (match r.found
                  case None => Empty
                  case Some(d) =>
                    if NeedsCreate(rounds', kinds, n, d) && !r.createOk then CreateFailed
                    else if r.startOk then Started
                    else Busy)
  {
    RoundsGrow(rounds, r, kinds);
    LastFoundStays(rounds, r, kinds, |kinds|);
    ScanExtends(rounds + [r], kinds);
    hide Explained, Coherent, LastFound, EmptyRun, StartOf, LastChange;
  }

  lemma {:induction false} LastFoundInTable(rounds: seq<Round>, kinds: seq<Kind>, n: nat, table: seq<Device>)
    requires n <= |kinds| <= |rounds| && FromTable(rounds, table)
    ensures LastFound(rounds, kinds, n).Some? ==> LastFound(rounds, kinds, n).value in table
    decreases n
  {
    if n > 0 {
      LastFoundInTable(rounds, kinds, n - 1, table);
    }
  }

  lemma {:induction false} SameStart(kinds: seq<Kind>, j: nat, i: nat)
    requires Coherent(kinds) && i <= |kinds| && Capturing(kinds, i)
    requires StartOf(kinds, i) < j <= i
    ensures Capturing(kinds, j) && StartOf(kinds, j) == StartOf(kinds, i)
    decreases i - j
  {
    if j < i {
      assert kinds[i - 1] == Polled;
      SameStart(kinds, j, i - 1);
    }
  }

  /** The watchdog tears a capture down exactly at its first poll more than half a
      second after the last progress: there it was too long, never before. */
  lemma FirstStall(rounds: seq<Round>, kinds: seq<Kind>, i: nat)
    requires Explained(rounds, kinds) && i < |kinds| && Capturing(kinds, i)
    ensures kinds[i] == Stalled <==> TooLong(rounds, kinds, i)
    ensures var s := StartOf(kinds, i);
      forall j :: s < j < i ==> Capturing(kinds, j) && StartOf(kinds, j) == s && !TooLong(rounds, kinds, j)
  {
    var s := StartOf(kinds, i);
    assert kinds[i] == Expected(rounds, kinds, i);
    forall j | s < j < i
      ensures Capturing(kinds, j) && StartOf(kinds, j) == s && !TooLong(rounds, kinds, j)
    {
      SameStart(kinds, j, i);
      assert kinds[j] == Expected(rounds, kinds, j) && kinds[j] == Polled;
    }
  }

  // ---- progress is captured audio ----

  /** The trace, the world's answers and the snapshots of a run belong together:
      log[i] is the daemon after iteration i, `first` before the first one. */
  ghost predicate Recorded(inputs: seq<Input>, rounds: seq<Round>, kinds: seq<Kind>, log: seq<Snapshot>,
                           first: Snapshot, latency: nat, sine: bool, wave: real -> int)
  {
    && Explained(rounds, kinds)
    && |rounds| == |kinds| == |log| <= |inputs|
    && forall i :: 0 <= i < |log| ==> RecordedAt(inputs, rounds, kinds, log, first, latency, sine, wave, i)
  }

  function Before(log: seq<Snapshot>, first: Snapshot, i: nat): Snapshot
    requires i <= |log|
  {
    if i == 0 then first else log[i - 1]
  }

  ghost predicate RecordedAt(inputs: seq<Input>, rounds: seq<Round>, kinds: seq<Kind>, log: seq<Snapshot>,
                             first: Snapshot, latency: nat, sine: bool, wave: real -> int, i: nat)
    requires i < |rounds| == |kinds| == |log| <= |inputs|
  {
    var before := Before(log, first, i);
    && rounds[i] == Observed(inputs[i], rounds[i].wf)
    && Sound(log[i], latency)
    && (log[i].active.Some? <==> Capturing(kinds, i + 1))
    && (log[i].active.Some? ==> |log[i].history| == rounds[i].wf)
    && if Capturing(kinds, i) then PollsFrom(before, inputs[i], kinds[i], rounds[i].wf, log[i], sine, wave)
       else
         ScansFrom(before, inputs[i], kinds[i],
                   inputs[i].found.Some? && NeedsCreate(rounds, kinds, i, inputs[i].found.value), log[i], latency)
  }

  /** How many whole frames the packets completed by iteration i carried, by their
      lengths alone. */
  function FramesTaken(inputs: seq<Input>, log: seq<Snapshot>, first: Snapshot, i: nat): nat
    requires i < |log| <= |inputs|
  {
    var before := Before(log, first, i);
    if before.active.Some? && before.active.value.channels > 0
    then EventsBefore(inputs[i].events, |inputs[i].events|, before.active.value.channels)
    else 0
  }

  /** Iteration i, if it polls, is told only of completions that can happen. */
  predicate HearsAt(inputs: seq<Input>, log: seq<Snapshot>, first: Snapshot, i: nat)
    requires i < |log| <= |inputs|
  {
    var before := Before(log, first, i);
    before.active.Some? ==> Hears(before, before.active.value, inputs[i])
  }

  /** The last iteration in s..i, or s itself, whose packets carried a whole frame. */
  function LastFrame(inputs: seq<Input>, log: seq<Snapshot>, first: Snapshot, s: nat, i: nat): (c: nat)
    requires s <= i < |log| <= |inputs|
    ensures s <= c <= i
    ensures c == s || FramesTaken(inputs, log, first, c) > 0
    ensures forall j :: c < j <= i ==> FramesTaken(inputs, log, first, j) == 0
  {
    if i == s || FramesTaken(inputs, log, first, i) > 0 then i else LastFrame(inputs, log, first, s, i - 1)
  }

  /** The counter a poll reads has moved on by exactly the whole frames completed. */
  lemma ChangeIsFrames(inputs: seq<Input>, rounds: seq<Round>, kinds: seq<Kind>, log: seq<Snapshot>,
                       first: Snapshot, latency: nat, sine: bool, wave: real -> int, i: nat)
    requires Recorded(inputs, rounds, kinds, log, first, latency, sine, wave)
    requires i < |kinds| && Capturing(kinds, i) && HearsAt(inputs, log, first, i)
    ensures i > 0 && rounds[i].wf == rounds[i - 1].wf + FramesTaken(inputs, log, first, i)
  {
    assert RecordedAt(inputs, rounds, kinds, log, first, latency, sine, wave, i);
    assert RecordedAt(inputs, rounds, kinds, log, first, latency, sine, wave, i - 1);
    var h, p := PollTakes(Before(log, first, i), inputs[i], kinds[i], rounds[i].wf, log[i], sine, wave);
  }

  lemma {:induction false} LastChangeIsFrame(
      inputs: seq<Input>, rounds: seq<Round>, kinds: seq<Kind>, log: seq<Snapshot>,
      first: Snapshot, latency: nat, sine: bool, wave: real -> int, s: nat, i: nat)
    requires Recorded(inputs, rounds, kinds, log, first, latency, sine, wave)
    requires s <= i < |kinds|
    requires forall j :: s < j <= i ==> Capturing(kinds, j) && HearsAt(inputs, log, first, j)
    ensures LastChange(rounds, s, i) == LastFrame(inputs, log, first, s, i)
    decreases i
  {
    hide Recorded, Capturing, HearsAt, FramesTaken;
    if s < i {
      ChangeIsFrames(inputs, rounds, kinds, log, first, latency, sine, wave, i);
      LastChangeIsFrame(inputs, rounds, kinds, log, first, latency, sine, wave, s, i - 1);
    }
  }

  /** The watchdog, end to end: over any run a capture is torn down exactly at a
      poll more than half a second after the last one whose packets carried a
      whole frame (or after its start). */
  lemma WatchdogExactly(inputs: seq<Input>, rounds: seq<Round>, kinds: seq<Kind>, log: seq<Snapshot>,
                        first: Snapshot, latency: nat, sine: bool, wave: real -> int, i: nat)
    requires Recorded(inputs, rounds, kinds, log, first, latency, sine, wave)
    requires i < |kinds| && Capturing(kinds, i)
    requires forall j :: StartOf(kinds, i) < j <= i ==> HearsAt(inputs, log, first, j)
    ensures kinds[i] == Stalled <==>
            inputs[i].now - inputs[LastFrame(inputs, log, first, StartOf(kinds, i), i)].now > 0.5
  {
    var s := StartOf(kinds, i);
    forall j | s < j <= i
      ensures Capturing(kinds, j)
    {
      SameStart(kinds, j, i);
    }
    LastChangeIsFrame(inputs, rounds, kinds, log, first, latency, sine, wave, s, i);
    var c := LastFrame(inputs, log, first, s, i);
    assert RecordedAt(inputs, rounds, kinds, log, first, latency, sine, wave, i);
    assert RecordedAt(inputs, rounds, kinds, log, first, latency, sine, wave, c);
    FirstStall(rounds, kinds, i);
  }

  // ---- one iteration added to the record ----

  /** What an iteration of this kind did, and what the log says of it. */
  predicate StepsFrom(before: Snapshot, input: Input, rounds: seq<Round>, kinds: seq<Kind>, kind: Kind,
                      after: Snapshot, latency: nat, sine: bool, wave: real -> int)
    requires |rounds| == |kinds| + 1
  {
    var n := |kinds|;
    && Sound(after, latency)
    && (after.active.Some? <==> kind == Started || kind == Polled)
    && (after.active.Some? ==> |after.history| == rounds[n].wf)
    && if Capturing(kinds, n) then PollsFrom(before, input, kind, rounds[n].wf, after, sine, wave)
       else
         ScansFrom(before, input, kind, input.found.Some? && NeedsCreate(rounds, kinds, n, input.found.value),
                   after, latency)
  }

  lemma RecordedGrows(inputs: seq<Input>, rounds: seq<Round>, r: Round, kinds: seq<Kind>, kind: Kind,
                      log: seq<Snapshot>, after: Snapshot, first: Snapshot, latency: nat, sine: bool,
                      wave: real -> int)
    requires Recorded(inputs, rounds, kinds, log, first, latency, sine, wave) && |kinds| < |inputs|
    requires r == Observed(inputs[|kinds|], r.wf)
    requires Explained(rounds + [r], kinds + [kind])
    requires StepsFrom(Before(log, first, |log|), inputs[|kinds|], rounds + [r], kinds, kind, after, latency, sine,
                       wave)
    ensures Recorded(inputs, rounds + [r], kinds + [kind], log + [after], first, latency, sine, wave)
  {
    hide PollsFrom, ScansFrom, Sound, Expected, Observed;
    forall i | 0 <= i <= |log|
      ensures RecordedAt(inputs, rounds + [r], kinds + [kind], log + [after], first, latency, sine, wave, i)
    {
      LooksBack(rounds + [r], kinds, kind, i);
      LastFoundStays(rounds, r, kinds, i);
      if i < |log| {
        assert RecordedAt(inputs, rounds, kinds, log, first, latency, sine, wave, i);
      }
    }
  }

  lemma TableGrows(rounds: seq<Round>, r: Round, table: seq<Device>)
    requires FromTable(rounds, table) && Known(r.found, table)
    ensures FromTable(rounds + [r], table)
  {
  }

  lemma {:induction false} EmptyRunStays(kinds: seq<Kind>, kind: Kind, n: nat)
    requires n <= |kinds|
    ensures EmptyRun(kinds + [kind], n) == EmptyRun(kinds, n)
    decreases n
  {
    if n > 0 {
      EmptyRunStays(kinds, kind, n - 1);
    }
  }

  lemma NothingYet(inputs: seq<Input>, table: seq<Device>, first: Snapshot, latency: nat, sine: bool,
                   wave: real -> int)
    requires Table(table)
    ensures Recorded(inputs, [], [], [], first, latency, sine, wave)
    ensures FromTable([], table) && EmptyRun([], 0) == 0
  {
  }

  lemma Extends(rounds: seq<Round>, kinds: seq<Kind>)
    requires Explained(rounds, kinds) && |kinds| < |rounds|
    ensures var kind := Expected(rounds, kinds, |kinds|); var kinds' := kinds + [kind];
      && Explained(rounds, kinds')
      && EmptyRun(kinds', |kinds| + 1) == (if kind == Empty then EmptyRun(kinds, |kinds|) + 1 else 0)
  {
    if Capturing(kinds, |kinds|) {
      PollExtends(rounds, kinds);
    } else {
      ScanExtends(rounds, kinds);
    }
  }

  // ---- the loop ----

  class RunState {
    var active: Option<Device>
    var stream: StreamState?   // the running engine's, while one is active
    // the segment, whatever an earlier daemon left in it, and whether it is mapped
    const shm: Shm
    var mapped: bool
    var shmPid: nat
    var lastWf: nat
    var lastProgress: real
    var absentCount: nat
    // engines started and stopped so far
    var starts: nat
    var stops: nat
    const exitWhenAbsent: bool
    const latencyFrames: nat
    const sine: bool
    const wave: real -> int

    constructor (shm: Shm, exitWhenAbsent: bool, latencyMs: nat, sine: bool, wave: real -> int, now: real)
      requires shm.ring.Length == RING_SAMPLES
      ensures Lifecycle() && active == None && !mapped && absentCount == 0 && starts == stops == 0
      ensures this.shm == shm && this.sine == sine && this.wave == wave
      ensures this.exitWhenAbsent == exitWhenAbsent && latencyFrames == ReadCursor.ClampLatency(latencyMs)
    {
      this.shm, active, stream, mapped, shmPid := shm, None, null, false, 0;
      lastWf, lastProgress, absentCount, starts, stops := 0, now, 0, 0, 0;
      this.exitWhenAbsent, latencyFrames := exitWhenAbsent, ReadCursor.ClampLatency(latencyMs);
      this.sine, this.wave := sine, wave;
    }

    /** The header describes device d. */
    predicate Describes(d: Device)
      reads this, shm
    {
      mapped && shmPid == d.productId && shm.channels == d.channels && shm.latencyFrames == latencyFrames
    }

    /** Engines are started and stopped in pairs; while capturing, the engine runs
        on the segment and the header is the active device's. */
    ghost predicate Lifecycle()
      reads this, shm, shm.ring, stream
    {
      && shm.ring.Length == RING_SAMPLES
      && (mapped ==> shm.Valid())
      && starts == stops + (if active.Some? then 1 else 0)
      && (active.Some? <==> stream != null)
      && (active.Some? ==>
            && Describes(active.value)
            && stream.shm == shm && stream.Valid() && stream.running
            && stream.sine == sine && stream.wave == wave)
    }

    /** The loop variables against the trace so far. */
    ghost predicate Tracks(rounds: seq<Round>, kinds: seq<Kind>)
      reads this, shm, shm.ring, stream
    {
      && Explained(rounds, kinds)
      && |rounds| == |kinds|
      && Lifecycle()
      && var n := |kinds|;
      && (active.Some? <==> Capturing(kinds, n))
      && (active.Some? ==>
            && lastWf == rounds[n - 1].wf == shm.writeFrames
            && lastProgress == rounds[LastChange(rounds, StartOf(kinds, n), n - 1)].now
            && Some(active.value) == LastFound(rounds, kinds, n))
      && (mapped <==> LastFound(rounds, kinds, n).Some?)
      && (mapped ==> Describes(LastFound(rounds, kinds, n).value))
      && absentCount == (if exitWhenAbsent then EmptyRun(kinds, n) else 0)
    }

    ghost function Now(): Snapshot
      reads this, shm, stream
    {
      Snapshot(active, if mapped then Some(Header(shm.channels, shm.latencyFrames)) else None, starts, stops,
               if stream != null then stream.submitted else {}, shm.history,
               if stream != null then stream.sinePhase else 0.0)
    }

    /** Stopping the running engine; `drained` is what completes before it ends. */
    method StopEngine(drained: seq<Completion>)
      requires active.Some? && Lifecycle()
      modifies this`active, this`stream, this`stops, stream, shm`writeFrames, shm`history, shm.ring
      ensures active == None && Lifecycle() && stops == old(stops) + 1
      ensures Now() == Ended(old(Now()), old(active).value, old(shm.history), old(stream.sinePhase),
                             old(stream.submitted), drained, sine, wave)
      ensures old(Serviceable(stream.submitted, false, drained, PacketLen(shm.channels))) ==>
                exists phase :: Took(old(shm.history), old(stream.sinePhase), shm.history, phase, drained,
                                     shm.channels, sine, wave)
    {
      ghost var owned := stream.submitted;
      if Serviceable(owned, false, drained, PacketLen(shm.channels)) {
        CallbacksAll(owned, false, drained, PacketLen(shm.channels));
      }
      hide Captured, Delivered, Callbacks, Serviceable, Took;
      var idle := stream.Stop(Callbacks(stream.submitted, false, drained, stream.InPktLen()));
      active, stream := None, null;
      stops := stops + 1;
    }

    /** Servicing the events of one poll. */
    method Service(input: Input) returns (wf: nat)
      requires active.Some? && Lifecycle()
      modifies stream, shm`writeFrames, shm`history, shm.ring
      ensures Lifecycle() && wf == shm.writeFrames
      ensures PollsFrom(old(Now()), input, Polled, wf, Now(), sine, wave)
      ensures old(Serviceable(stream.submitted, true, input.events, PacketLen(shm.channels))) ==>
                Took(old(shm.history), old(stream.sinePhase), shm.history, stream.sinePhase, input.events,
                     shm.channels, sine, wave)
    {
      ghost var owned := stream.submitted;
      if Serviceable(owned, true, input.events, PacketLen(shm.channels)) {
        CallbacksAll(owned, true, input.events, PacketLen(shm.channels));
      }
      hide Captured, Delivered, Callbacks, Serviceable, Took;
      stream.HandleEvents(Callbacks(stream.submitted, true, input.events, stream.InPktLen()));
      wf := shm.writeFrames;
    }

    /** An iteration with a capture running: service events, then the watchdog. */
    method Poll(input: Input) returns (kind: Kind, wf: nat)
      requires active.Some? && Lifecycle()
      modifies this`active, this`stream, this`stops, this`lastWf, this`lastProgress
      modifies stream, shm`writeFrames, shm`history, shm.ring
      ensures Lifecycle()
      ensures lastWf == wf
      ensures lastProgress == if wf != old(lastWf) then input.now else old(lastProgress)
      ensures kind == if input.now - lastProgress > WATCHDOG_STALL then Stalled else Polled
      ensures active == if kind == Stalled then None else old(active)
      ensures stream == if kind == Stalled then null else old(stream)
      ensures kind == Polled ==> wf == shm.writeFrames
      ensures PollsFrom(old(Now()), input, kind, wf, Now(), sine, wave)
    {
      wf := Service(input);
      var stalled := false;
      if wf != lastWf {
        lastWf := wf;
        lastProgress := input.now;
      } else {
        stalled := input.now - lastProgress > WATCHDOG_STALL;
      }
      if stalled {
        StopEngine(input.drained);
        return Stalled, wf;
      }
      return Polled, wf;
    }

    /** Boxes a fresh stream state and starts the engine for device d. */
    method StartCapture(d: Device, input: Input) returns (ok: bool, st: StreamState)
      requires mapped && shm.Valid() && shm.channels == d.channels
      ensures ok == Submits(input)
      ensures fresh(st) && st.shm == shm && st.Valid() && st.running && st.sine == sine && st.wave == wave
      ensures st.sinePhase == 0.0
      ensures ok ==> st.submitted == Accepted(input)
    {
      st := new StreamState(shm, d.channels, sine, wave);
      ok := false;
      if input.openOk {
        ok := st.Start(input.accepted);
      }
    }

    /** The segment describes the device found, or is re-created for it. */
    method EnsureSegment(d: Device, createOk: bool) returns (ok: bool)
      requires active == None && Lifecycle() && ValidChannels(d.channels)
      requires mapped && shmPid == d.productId ==> Describes(d)
      modifies this`mapped, this`shmPid, shm
      ensures Lifecycle()
      ensures var create := !old(mapped) || old(shmPid) != d.productId;
        && ok == (create ==> createOk)
        && (ok ==> Describes(d))
        && Now() == (if create && createOk
                     then old(Now()).(header := Some(Header(d.channels, latencyFrames)), history := [])
                     else old(Now()))
        && (!ok ==> mapped == old(mapped) && shmPid == old(shmPid))
        && shm.writeFrames == (if create && createOk then 0 else old(shm.writeFrames))
    {
      ok := true;
      if !mapped || shmPid != d.productId {
        if !createOk {
          return false;
        }
        shm.Create(d.channels, latencyFrames);
        mapped, shmPid := true, d.productId;
      }
    }

    /** The engine is started on the segment, if the device answers. */
    method TryStart(d: Device, input: Input) returns (kind: Kind)
      requires active == None && Lifecycle() && Describes(d)
      modifies this`active, this`stream, this`starts, this`absentCount, this`lastWf, this`lastProgress
      ensures Lifecycle() && Describes(d) && (stream != null ==> fresh(stream))
      ensures kind == if Submits(input) then Started else Busy
      ensures absentCount == 0
      ensures kind == Started ==> lastWf == shm.writeFrames && lastProgress == input.now
      ensures Now() == if kind == Busy then old(Now())
                       else Snapshot(Some(d), old(Now()).header, old(starts) + 1, stops,
                                     Accepted(input), shm.history, 0.0)
    {
      hide Holds, Submits;
      var started, st := StartCapture(d, input);
      absentCount := 0;
      if started {
        active, stream := Some(d), st;
        starts := starts + 1;
        lastProgress, lastWf := input.now, shm.writeFrames;
        kind := Started;
      } else {
        kind := Busy;
      }
    }

    /** An iteration without one: scan, create the segment if it does not describe
        the device, start the engine. */
    method Scan(input: Input) returns (kind: Kind, exit: bool)
      requires active == None && Lifecycle()
      requires input.found.Some? ==> ValidChannels(input.found.value.channels)
      requires input.found.Some? && mapped && shmPid == input.found.value.productId ==> Describes(input.found.value)
      modifies this, shm
      ensures Lifecycle() && (stream != null ==> fresh(stream))
      ensures var create := input.found.Some? && (!old(mapped) || old(shmPid) != input.found.value.productId);
        && ScansFrom(old(Now()), input, kind, create, Now(), latencyFrames)
        && kind == (if input.found.None? then Empty
                    else if create && !input.createOk then CreateFailed
                    else if Submits(input) then Started
                    else Busy)
      ensures absentCount == if kind == Empty then old(absentCount) + (if exitWhenAbsent then 1 else 0)
                             else if kind == CreateFailed then old(absentCount)
                             else 0
      ensures exit == (kind == Empty && exitWhenAbsent && absentCount >= ABSENT_EXIT_GRACE)
      ensures kind in {Empty, CreateFailed} ==> mapped == old(mapped) && shmPid == old(shmPid)
      ensures kind in {Started, Busy} ==> Describes(input.found.value)
      ensures kind == Started ==> lastWf == shm.writeFrames && lastProgress == input.now
    {
      hide Holds, Submits;
      exit := false;
      match input.found {
        case Some(d) =>
          var ok := EnsureSegment(d, input.createOk);
          if !ok {
            return CreateFailed, false;
          }
          kind := TryStart(d, input);
        case None =>
          kind := Empty;
          if exitWhenAbsent {
            absentCount := absentCount + 1;
            exit := absentCount >= ABSENT_EXIT_GRACE;
          }
      }
    }

    method PollRound(input: Input, rounds: seq<Round>, kinds: seq<Kind>) returns (kind: Kind, wf: nat)
      requires Tracks(rounds, kinds) && active.Some?
      modifies this`active, this`stream, this`stops, this`lastWf, this`lastProgress
      modifies stream, shm`writeFrames, shm`history, shm.ring
      ensures var rounds' := rounds + [Observed(input, wf)];
        && kind == Expected(rounds', kinds, |kinds|)
        && Tracks(rounds', kinds + [kind])
      ensures kind in {Polled, Stalled} && stream in {null, old(stream)}
      ensures PollsFrom(old(Now()), input, kind, wf, Now(), sine, wave)
    {
      hide Explained, Coherent, Expected, LastFound, EmptyRun, StartOf, LastChange, PollsFrom, Submits;
      kind, wf := Poll(input);
      PollObserved(rounds, Observed(input, wf), kinds);
    }

    method ScanRound(input: Input, rounds: seq<Round>, kinds: seq<Kind>, ghost table: seq<Device>)
      returns (kind: Kind, exit: bool, wf: nat)
      requires Tracks(rounds, kinds) && active == None
      requires FromTable(rounds, table) && Known(input.found, table)
      modifies this, shm
      ensures stream != null ==> fresh(stream)
      ensures var rounds', n := rounds + [Observed(input, wf)], |kinds|;
        && kind == Expected(rounds', kinds, n)
        && (kind == CreateFailed ==> active == None && Lifecycle() && !exit)
        && (kind != CreateFailed ==> Tracks(rounds', kinds + [kind]))
        && ScansFrom(old(Now()), input, kind,
                     input.found.Some? && NeedsCreate(rounds', kinds, n, input.found.value), Now(), latencyFrames)
      ensures exit <==> exitWhenAbsent && kind == Empty && EmptyRun(kinds, |kinds|) + 1 >= ABSENT_EXIT_GRACE
    {
      hide Explained, Coherent, LastFound, EmptyRun, StartOf, LastChange, Submits;
      LastFoundInTable(rounds, kinds, |kinds|, table);
      kind, exit := Scan(input);
      wf := shm.writeFrames;
      ScanObserved(rounds, Observed(input, wf), kinds);
    }

    /** Nothing in the first n iterations ended the loop. */
    predicate GoesOn(kinds: seq<Kind>, n: nat)
      requires n <= |kinds|
    {
      && !(exitWhenAbsent && EmptyRun(kinds, n) >= 3)
      && (n > 0 ==> kinds[n - 1] != CreateFailed)
    }

    /** One iteration of the loop. */
    method Iterate(input: Input, rounds: seq<Round>, kinds: seq<Kind>, ghost table: seq<Device>)
      returns (kind: Kind, exit: bool, wf: nat)
      requires Tracks(rounds, kinds) && FromTable(rounds, table) && Known(input.found, table)
      modifies this, stream, shm, shm.ring
      ensures stream == null || stream == old(stream) || fresh(stream)
      ensures var rounds', kinds', n := rounds + [Observed(input, wf)], kinds + [kind], |kinds|;
        && kind == Expected(rounds', kinds, n)
        && Explained(rounds', kinds')
        && (kind != CreateFailed ==> Tracks(rounds', kinds'))
        && (kind == CreateFailed ==> active == None && Lifecycle() && !exit)
        && (exit <==> exitWhenAbsent && EmptyRun(kinds', n + 1) >= ABSENT_EXIT_GRACE)
        && StepsFrom(old(Now()), input, rounds', kinds, kind, Now(), latencyFrames, sine, wave)
    {
      hide Explained, FromTable, Expected, EmptyRun, PollsFrom, ScansFrom;
      exit := false;
      if active.Some? {
        kind, wf := PollRound(input, rounds, kinds);
      } else {
        kind, exit, wf := ScanRound(input, rounds, kinds, table);
      }
      RoundsGrow(rounds, Observed(input, wf), kinds);
      Extends(rounds + [Observed(input, wf)], kinds);
    }

    /** The loop, for as long as no signal arrives (the length of `inputs`);
        `last` is what completes while a running engine is stopped at the end.
        Whatever happens, every iteration is what the trace before it explains,
        the loop ends as soon as something ends it, the history holds what the
        packets of every poll carried, and no engine is left running at any return. */
    method Run(inputs: seq<Input>, last: seq<Completion>, ghost table: seq<Device>)
      returns (outcome: Outcome, rounds: seq<Round>, kinds: seq<Kind>, ghost log: seq<Snapshot>)
      requires Lifecycle() && active == None && !mapped && absentCount == 0 && starts == stops == 0
      requires Table(table) && forall i :: 0 <= i < |inputs| ==> Known(inputs[i].found, table)
      modifies this, shm, shm.ring
      ensures Recorded(inputs, rounds, kinds, log, old(Now()), latencyFrames, sine, wave)
      ensures Lifecycle() && active == None && starts == stops
      ensures outcome == Failed <==> kinds != [] && kinds[|kinds| - 1] == CreateFailed
      ensures outcome == Exited <==> exitWhenAbsent && EmptyRun(kinds, |kinds|) >= 3
      ensures outcome == Stopped ==> |kinds| == |inputs|
      ensures forall n :: 0 <= n < |kinds| ==> GoesOn(kinds, n)
      ensures Now() == Closed(Before(log, old(Now()), |log|), last, sine, wave)
    {
      hide Explained, FromTable, Expected, EmptyRun, Known;
      ghost var first := Now();
      rounds, kinds, log := [], [], [];
      NothingYet(inputs, table, first, latencyFrames, sine, wave);
      while |kinds| < |inputs|
        invariant |kinds| <= |inputs| && Tracks(rounds, kinds) && FromTable(rounds, table)
        invariant stream != null ==> fresh(stream)
        invariant Recorded(inputs, rounds, kinds, log, first, latencyFrames, sine, wave)
        invariant Now() == Before(log, first, |log|)
        invariant forall n :: 0 <= n <= |kinds| ==> GoesOn(kinds, n)
        decreases |inputs| - |kinds|
      {
        var n := |kinds|;
        var kind, exit, wf := Iterate(inputs[n], rounds, kinds, table);
        RecordedGrows(inputs, rounds, Observed(inputs[n], wf), kinds, kind, log, Now(), first,
                      latencyFrames, sine, wave);
        TableGrows(rounds, Observed(inputs[n], wf), table);
        StillGoesOn(kinds, kind);
        rounds, kinds, log := rounds + [Observed(inputs[n], wf)], kinds + [kind], log + [Now()];
        if kind == CreateFailed {
          return Failed, rounds, kinds, log;
        }
        if exit {
          return Exited, rounds, kinds, log;
        }
      }
      assert GoesOn(kinds, |kinds|);
      outcome := Stopped;
      if active.Some? {
        StopEngine(last);
      }
    }

    lemma StillGoesOn(kinds: seq<Kind>, kind: Kind)
      requires forall n :: 0 <= n <= |kinds| ==> GoesOn(kinds, n)
      ensures forall n :: 0 <= n <= |kinds| ==> GoesOn(kinds + [kind], n)
    {
      forall n | 0 <= n <= |kinds|
        ensures GoesOn(kinds + [kind], n)
      {
        assert GoesOn(kinds, n);
        EmptyRunStays(kinds, kind, n);
      }
    }
  }
}
