// The presence monitor: a polling loop that lists the device while the write
// counter moves.
module Presence {

  const STALL_MAX: nat := 4

  /** What a poll saw: no segment, or the write counter. */
  datatype Sample = Detached | Counter(w: nat)

  /** The reference: at poll i the device is listed if and only if the segment is
      attached and fewer than four polls came before, or one of the last four
      samples differs from the one before it. */
  predicate Listed(samples: seq<Sample>, i: nat)
    requires i < |samples|
  {
    && samples[i].Counter?
    && (i < STALL_MAX || exists j :: i - STALL_MAX < j <= i && samples[j] != samples[j - 1])
  }

  /** For how many polls the counter has stood still. */
  function Still(samples: seq<Sample>, i: nat): nat
    requires i < |samples|
  {
    if i > 0 && samples[i] == samples[i - 1] then Still(samples, i - 1) + 1 else 0
  }

  lemma {:induction false} StillExactly(samples: seq<Sample>, i: nat, n: nat)
    requires i < |samples|
    ensures Still(samples, i) >= n <==> i >= n && forall j :: i - n < j <= i ==> samples[j] == samples[j - 1]
    decreases i
  {
    if n > 0 && i > 0 && samples[i] == samples[i - 1] {
      StillExactly(samples, i - 1, n - 1);
    }
  }

  lemma ListedExactly(samples: seq<Sample>, i: nat)
    requires i < |samples|
    ensures Listed(samples, i) <==> samples[i].Counter? && Still(samples, i) < STALL_MAX
  {
    StillExactly(samples, i, STALL_MAX);
  }

  /** As long as the segment stays attached (it is never unmapped), being listed
      means: fewer than four polls since the first attached one, or a change
      between attached samples. */
  lemma ListedSinceAttach(samples: seq<Sample>, first: nat, i: nat)
    requires first <= i < |samples|
    requires forall k :: 0 <= k < |samples| ==> (samples[k].Counter? <==> first <= k)
    ensures Listed(samples, i) <==>
            i - first < 4 || exists j :: i - 4 < j <= i && samples[j].w != samples[j - 1].w
  {
    if i - first < STALL_MAX && i >= STALL_MAX {
      assert samples[first] != samples[first - 1];
    }
    if i - first >= STALL_MAX {
      forall j | i - STALL_MAX < j <= i
        ensures samples[j] != samples[j - 1] <==> samples[j].w != samples[j - 1].w
      {
      }
    }
  }

  function Flips(from: bool, states: seq<bool>): nat {
    if states == [] then 0
    else
      var n := |states| - 1;
      Flips(from, states[..n]) + (if states[n] != (if n == 0 then from else states[n - 1]) then 1 else 0)
  }

  lemma FlipsNone(from: bool)
    ensures Flips(from, []) == 0
  {
  }

  lemma FlipsSnoc(from: bool, states: seq<bool>, next: bool)
    ensures Flips(from, states + [next]) ==
            Flips(from, states) + (if next != (if states == [] then from else states[|states| - 1]) then 1 else 0)
  {
    assert (states + [next])[..|states|] == states;
  }

  /** What one more poll does to the count of still polls. */
  lemma StillStep(samples: seq<Sample>, i: nat)
    requires i < |samples|
    ensures Still(samples, i) == if i > 0 && samples[i] == samples[i - 1] then Still(samples, i - 1) + 1 else 0
  {
  }

  class Monitor {
    var devicePresent: bool
    var hasHost: bool
    var notified: nat

    constructor (hasHost: bool)
      ensures devicePresent && notified == 0 && this.hasHost == hasHost
    {
      devicePresent, notified, this.hasHost := true, 0, hasHost;
    }

    method NotifyDeviceList()
      modifies this`notified
      ensures notified == old(notified) + (if hasHost then 1 else 0)
    {
      if !hasHost {
        return;
      }
      notified := notified + 1;
    }

    /** The monitor thread over a series of polls, until it is told to stop. */
    method PresenceMonitor(samples: seq<Sample>) returns (states: seq<bool>)
      modifies this`devicePresent, this`notified
      ensures |states| == |samples|
      ensures forall i :: 0 <= i < |samples| ==> states[i] == Listed(samples, i)
      ensures devicePresent == if samples == [] then old(devicePresent) else states[|samples| - 1]
      ensures notified == old(notified) + (if hasHost then Flips(old(devicePresent), states) else 0)
    {
      hide Listed, Still, Flips;
      states := [];
      assert Flips(devicePresent, states) == 0 by { FlipsNone(devicePresent); }
      var lastWf: nat, haveLast, stall: nat := 0, false, 0;
      for i := 0 to |samples|
        invariant |states| == i
        invariant forall k :: 0 <= k < i ==> states[k] == Listed(samples, k)
        invariant haveLast <==> i > 0 && samples[i - 1].Counter?
        invariant haveLast ==>
                    && lastWf == samples[i - 1].w
                    && stall == (if Still(samples, i - 1) < STALL_MAX then Still(samples, i - 1) else STALL_MAX)
        invariant devicePresent == if i == 0 then old(devicePresent) else states[i - 1]
        invariant notified == old(notified) + (if hasHost then Flips(old(devicePresent), states) else 0)
      {
        var present;
        match samples[i] {
          case Detached =>
            present := false;
            haveLast := false;
          case Counter(wf) =>
            if !haveLast || wf != lastWf {
              lastWf, haveLast, stall, present := wf, true, 0, true;
            } else {
              if stall < STALL_MAX {
                stall := stall + 1;
              }
              present := stall < STALL_MAX;
            }
        }
        StillStep(samples, i);
        ListedExactly(samples, i);
        assert present == Listed(samples, i);
        var prev := devicePresent;
        devicePresent := present;
        if prev != present {
          NotifyDeviceList();
        }
        FlipsSnoc(old(devicePresent), states, present);
        states := states + [present];
      }
    }
  }
}
