/** The pressure monitor's published levels: the peak latch that carries spikes to the
    balancer, and the listeners told about critical pressure. */
module PeakLatch {
  import opened Text

  // Unknown, missing and unrecognised levels all rank below the real ones.
  function Order(level: Option<string>): int {
    if level == Some("low") then 0
    else if level == Some("medium") then 1
    else if level == Some("high") then 2
    else if level == Some("critical") then 3
    else -1
  }

  function Higher(next: Option<string>, peak: Option<string>): Option<string> {
    if Order(next) > Order(peak) then next else peak
  }

  // A disk report without a level, or with an empty one, reads as low.
  function DiskLevel(level: Option<string>): Option<string> {
    if level == None || level == Some("") then Some("low") else level
  }

  datatype Update = Update(level: Option<string>, score: real, disk: Option<string>)

  datatype Peak = Peak(level: Option<string>, score: real, disk: Option<string>)

  // One locked call: a refresh, a refresh that found the lock taken, or the balancer's read.
  datatype Call = Refresh(update: Update) | Skipped | Consume

  datatype State = State(level: Option<string>, peak: Option<string>, score: real,
                         disk: Option<string>, peakDisk: Option<string>)

  const Start := State(None, None, 0.0, Some("low"), Some("low"))

  function Installed(st: State, u: Update): State {
    State(u.level, Higher(u.level, st.peak), u.score, DiskLevel(u.disk), Higher(DiskLevel(u.disk), st.peakDisk))
  }

  function Step(st: State, call: Call): State {
    match call
    case Refresh(u) => Installed(st, u)
    case Skipped => st
    case Consume => st.(peak := st.level, peakDisk := st.disk)
  }

  function Consumed(st: State): Peak {
    Peak(if st.peak.Some? then st.peak else st.level, st.score, st.peakDisk)
  }

  class SystemPressureMonitor {
    var level: Option<string>
    var peak: Option<string>
    var score: real
    var disk: Option<string>
    var peakDisk: Option<string>
    // What the critical-state listeners have been told, oldest first.
    var told: seq<bool>

    ghost function Now(): State
      reads this
    {
      State(level, peak, score, disk, peakDisk)
    }

    constructor ()
      ensures Now() == Start && told == []
    {
      level, peak, score, disk, peakDisk := None, None, 0.0, Some("low"), Some("low");
      told := [];
    }

    method SafeUpdate(busy: bool, reading: Update)
      modifies this
      ensures Now() == Step(old(Now()), if busy then Skipped else Refresh(reading))
      ensures told == old(told) + if busy then [] else Notice(old(level), reading.level)
    {
      if busy {
        return;
      }
      var before := level;
      level, score := reading.level, reading.score;
      disk := if reading.disk == None || reading.disk == Some("") then Some("low") else reading.disk;
      if Order(level) > Order(peak) {
        peak := level;
      }
      if Order(disk) > Order(peakDisk) {
        peakDisk := disk;
      }
      var wasCritical, isCritical := before == Some("critical"), level == Some("critical");
      if wasCritical != isCritical {
        told := told + [isCritical];
      }
    }

    method ConsumePeak() returns (result: Peak)
      modifies this
      ensures result == Consumed(old(Now())) && Now() == Step(old(Now()), Consume) && told == old(told)
    {
      result := Peak(if peak.Some? then peak else level, score, peakDisk);
      peak, peakDisk := level, disk;
    }
  }

  // --------------------------------------------------------------- runs

  function After(calls: seq<Call>): State {
    if calls == [] then Start else Step(After(calls[..|calls| - 1]), calls[|calls| - 1])
  }

  // The level current at the last consume, then every level installed since.
  function Seen(calls: seq<Call>): (levels: seq<Option<string>>)
    ensures levels != []
  {
    if calls == [] then [None]
    else
      var before := Seen(calls[..|calls| - 1]);
      match calls[|calls| - 1]
      case Refresh(u) => before + [u.level]
      case Skipped => before
      case Consume => [before[|before| - 1]]
  }

  function SeenDisk(calls: seq<Call>): (levels: seq<Option<string>>)
    ensures levels != []
  {
    if calls == [] then [Some("low")]
    else
      var before := SeenDisk(calls[..|calls| - 1]);
      match calls[|calls| - 1]
      case Refresh(u) => before + [DiskLevel(u.disk)]
      case Skipped => before
      case Consume => [before[|before| - 1]]
  }

  predicate IsHighest(level: Option<string>, levels: seq<Option<string>>) {
    level in levels && forall l :: l in levels ==> Order(l) <= Order(level)
  }

  // The latch behind a run, as a plain list of levels would give it.
  predicate Latched(level: Option<string>, peak: Option<string>, levels: seq<Option<string>>) {
    && levels != [] && level == levels[|levels| - 1]
    && (if peak.None? then forall l :: l in levels ==> Order(l) == -1 else IsHighest(peak, levels))
  }

  lemma LatchGrows(level: Option<string>, peak: Option<string>, levels: seq<Option<string>>, next: Option<string>)
    requires Latched(level, peak, levels)
    ensures Latched(next, Higher(next, peak), levels + [next])
  {
    hide Order;
    var more := levels + [next];
    assert more[|levels|] == next && more[|more| - 1] == next;
    OrderIsBounded(next);
    OrderIsBounded(peak);
    forall l | l in more
      ensures l == next || l in levels
    {
    }
    if Order(next) > Order(peak) {
      assert next in more;
    } else if peak.Some? {
      assert peak in more;
    }
  }

  lemma OrderIsBounded(level: Option<string>)
    ensures Order(level) >= -1 && Order(None) == -1
  {
  }

  lemma {:induction false} LatchFollowsRun(calls: seq<Call>)
    ensures Latched(After(calls).level, After(calls).peak, Seen(calls))
    ensures Latched(After(calls).disk, After(calls).peakDisk, SeenDisk(calls)) && After(calls).peakDisk.Some?
  {
    hide Order, Latched, Higher;
    if calls == [] {
      Fresh(None);
      Fresh(Some("low"));
    } else {
      var n := |calls| - 1;
      var st := After(calls[..n]);
      LatchFollowsRun(calls[..n]);
      match calls[n] {
        case Refresh(u) =>
          LatchGrows(st.level, st.peak, Seen(calls[..n]), u.level);
          LatchGrows(st.disk, st.peakDisk, SeenDisk(calls[..n]), DiskLevel(u.disk));
          KeepsKnown(DiskLevel(u.disk), st.peakDisk);
        case Skipped =>
        case Consume =>
          CurrentIsLast(st.level, st.peak, Seen(calls[..n]));
          CurrentIsLast(st.disk, st.peakDisk, SeenDisk(calls[..n]));
          Fresh(st.level);
          Fresh(st.disk);
          DiskIsKnown(calls[..n]);
      }
    }
  }

  lemma Fresh(level: Option<string>)
    ensures Latched(level, level, [level])
  {
  }

  lemma CurrentIsLast(level: Option<string>, peak: Option<string>, levels: seq<Option<string>>)
    requires Latched(level, peak, levels)
    ensures levels != [] && level == levels[|levels| - 1]
  {
  }

  lemma KeepsKnown(disk: Option<string>, peak: Option<string>)
    requires disk.Some? && peak.Some?
    ensures Higher(disk, peak).Some?
  {
  }

  lemma {:induction false} DiskIsKnown(calls: seq<Call>)
    ensures After(calls).disk.Some?
  {
    hide Order;
    if calls != [] {
      DiskIsKnown(calls[..|calls| - 1]);
    }
  }

  // No spike is lost: what the balancer consumes is one of the levels of its window, the
  // one current at its previous read or installed since, and none of them ranks higher.
  lemma ConsumedPeakIsTheHighest(calls: seq<Call>)
    ensures IsHighest(Consumed(After(calls)).level, Seen(calls))
    ensures IsHighest(Consumed(After(calls)).disk, SeenDisk(calls))
  {
    hide Order, Higher;
    LatchFollowsRun(calls);
    ListEnd(Seen(calls));
    OrderIsBounded(None);
  }

  lemma ListEnd(levels: seq<Option<string>>)
    requires levels != []
    ensures levels[|levels| - 1] in levels
  {
  }

  // A spike shows whatever the refreshes around it read.
  lemma {:induction false} SpikeIsConsumed(calls: seq<Call>, later: seq<Call>, spike: Update)
    requires forall c :: c in later ==> c != Consume
    ensures Order(Consumed(After(calls + [Refresh(spike)] + later)).level) >= Order(spike.level)
  {
    hide Order, Higher;
    var all := calls + [Refresh(spike)] + later;
    StaysSeen(calls, later, spike);
    ConsumedPeakIsTheHighest(all);
  }

  lemma {:induction false} StaysSeen(calls: seq<Call>, later: seq<Call>, spike: Update)
    requires forall c :: c in later ==> c != Consume
    ensures spike.level in Seen(calls + [Refresh(spike)] + later)
  {
    var all := calls + [Refresh(spike)] + later;
    if later == [] {
      assert all[..|all| - 1] == calls && all[|all| - 1] == Refresh(spike);
      ListEnd(Seen(all));
    } else {
      assert all[..|all| - 1] == calls + [Refresh(spike)] + later[..|later| - 1];
      assert all[|all| - 1] == later[|later| - 1];
      var sooner := later[..|later| - 1];
      forall c | c in sooner
        ensures c in later
      {
      }
      assert later[|later| - 1] in later;
      StaysSeen(calls, sooner, spike);
    }
  }

  // --------------------------------------------------------------- listeners

  function Notice(before: Option<string>, after: Option<string>): seq<bool> {
    if (before == Some("critical")) == (after == Some("critical")) then [] else [after == Some("critical")]
  }

  function Told(calls: seq<Call>): seq<bool> {
    if calls == [] then []
    else
      var n := |calls| - 1;
      Told(calls[..n]) + if calls[n].Refresh? then Notice(After(calls[..n]).level, calls[n].update.level) else []
  }

  // Listeners hear strictly alternating news, first that critical was entered; the last
  // news is the present state.
  lemma {:induction false} NewsAlternates(calls: seq<Call>)
    ensures forall i :: 0 <= i < |Told(calls)| ==> Told(calls)[i] == (i % 2 == 0)
    ensures (After(calls).level == Some("critical")) == (|Told(calls)| % 2 == 1)
  {
    hide Order, Higher;
    if calls != [] {
      NewsAlternates(calls[..|calls| - 1]);
    }
  }

  // The order is that of severity; anything else ranks below low.
  lemma OrderIsSeverity(level: Option<string>)
    ensures Order(Some("low")) < Order(Some("medium")) < Order(Some("high")) < Order(Some("critical"))
    ensures level !in [Some("low"), Some("medium"), Some("high"), Some("critical")] ==> Order(level) < Order(Some("low"))
  {
  }

  // The score that goes with a consumed peak is the newest one.
  lemma {:induction false} ConsumedScoreIsNewest(calls: seq<Call>, u: Update, later: seq<Call>)
    requires forall c :: c in later ==> !c.Refresh?
    ensures Consumed(After(calls + [Refresh(u)] + later)).score == u.score
  {
    hide Order, Higher;
    var all := calls + [Refresh(u)] + later;
    if later == [] {
      assert all[..|all| - 1] == calls && all[|all| - 1] == Refresh(u);
    } else {
      var n := |later| - 1;
      assert all[..|all| - 1] == calls + [Refresh(u)] + later[..n] && all[|all| - 1] == later[n];
      assert later[n] in later;
      forall c | c in later[..n]
        ensures c in later
      {
      }
      ConsumedScoreIsNewest(calls, u, later[..n]);
    }
  }
}
