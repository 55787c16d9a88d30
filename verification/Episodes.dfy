/** Debounced pressure episodes: a band change is reported once readings have stayed on the
    same side of the confirmed band for long enough. */
module Episodes {
  import opened Text

  datatype Band = Normal | High | Critical

  datatype Severity = Info | Warning | Severe

  function Lower(s: string): (r: string)
    ensures |r| == |s|
  {
    seq(|s|, i requires 0 <= i < |s| => if 'A' <= s[i] <= 'Z' then (s[i] as int + 32) as char else s[i])
  }

  // Anything but "high" and "critical" counts as normal, a missing reading too.
  function BandOf(level: Option<string>): Band {
    var l := if level.Some? then Lower(level.value) else "";
    if l == "high" then High else if l == "critical" then Critical else Normal
  }

  function Rank(b: Band): int {
    match b
    case Normal => 0
    case High => 1
    case Critical => 2
  }

  function SeverityOf(b: Band): Severity {
    match b
    case Normal => Info
    case High => Warning
    case Critical => Severe
  }

  datatype Sample = Sample(level: Option<string>, score: real, ts: real)

  datatype Action = Action(from: Band, target: Band, raw: string, score: real, severity: Severity)

  datatype Dwell = Dwell(rise: real, fall: real)

  // The service's own dwell times.
  const Default := Dwell(30.0, 60.0)

  // On which side of band b a sample lies: above, below, or on it.
  function Side(s: Sample, b: Band): int {
    if Rank(BandOf(s.level)) > Rank(b) then 1 else if Rank(BandOf(s.level)) < Rank(b) then -1 else 0
  }

  function Wait(dwell: Dwell, side: int): real {
    if side > 0 then dwell.rise else dwell.fall
  }

  datatype State = State(confirmed: Band, side: int, since: Option<real>)

  const Start := State(Normal, 0, None)

  function Change(from: Band, s: Sample): Action {
    Action(from, BandOf(s.level), if s.level.Some? then Lower(s.level.value) else "", s.score, SeverityOf(BandOf(s.level)))
  }

  function Step(st: State, s: Sample, dwell: Dwell): (State, Option<Action>) {
    var side := Side(s, st.confirmed);
    if side == 0 then (State(st.confirmed, 0, None), None)
    else
      var since := if st.side == side && st.since.Some? then st.since.value else s.ts;
      if s.ts - since < Wait(dwell, side) then (State(st.confirmed, side, Some(since)), None)
      else (State(BandOf(s.level), 0, None), Some(Change(st.confirmed, s)))
  }

  class PressureLevelTracker {
    const dwell: Dwell
    var confirmed: Band
    var pendingSide: int
    var pendingSince: Option<real>

    ghost predicate Valid()
      reads this
    {
      pendingSide != 0 <==> pendingSince.Some?
    }

    ghost function Now(): State
      reads this
    {
      State(confirmed, pendingSide, pendingSince)
    }

    constructor (rise: real := 30.0, fall: real := 60.0)
      ensures Valid() && Now() == Start && dwell == Dwell(rise, fall)
    {
      dwell := Dwell(rise, fall);
      confirmed, pendingSide, pendingSince := Normal, 0, None;
    }

    method Observe(level: Option<string>, score: real, ts: real) returns (action: Option<Action>)
      requires Valid()
      modifies this
      ensures Valid()
      ensures (Now(), action) == Step(old(Now()), Sample(level, score, ts), dwell)
    {
      var band := BandOf(level);
      if band == confirmed {
        pendingSide, pendingSince := 0, None;
        return None;
      }
      var side := if Rank(band) > Rank(confirmed) then 1 else -1;
      if pendingSide != side {
        pendingSide, pendingSince := side, Some(ts);
      }
      var wait := if side > 0 then dwell.rise else dwell.fall;
      if ts - pendingSince.value < wait {
        return None;
      }
      var before := confirmed;
      confirmed, pendingSide, pendingSince := band, 0, None;
      return Some(Action(before, band, if level.Some? then Lower(level.value) else "", score, SeverityOf(band)));
    }
  }

  // --------------------------------------------------------------- runs

  // A reported change and the sample that reported it.
  datatype Entry = Entry(at: nat, action: Action)

  function After(samples: seq<Sample>, dwell: Dwell): State {
    if samples == [] then Start
    else Step(After(samples[..|samples| - 1], dwell), samples[|samples| - 1], dwell).0
  }

  function Log(samples: seq<Sample>, dwell: Dwell): seq<Entry> {
    if samples == [] then []
    else
      var n := |samples| - 1;
      var out := Step(After(samples[..n], dwell), samples[n], dwell).1;
      Log(samples[..n], dwell) + (if out.Some? then [Entry(n, out.value)] else [])
  }

  // The band in force after the reported changes.
  function InForce(log: seq<Entry>): Band {
    if log == [] then Normal else log[|log| - 1].action.target
  }

  // The first sample after the last reported change.
  function Resumed(log: seq<Entry>): nat {
    if log == [] then 0 else log[|log| - 1].at + 1
  }

  predicate Ordered(samples: seq<Sample>) {
    forall i, j :: 0 <= i <= j < |samples| ==> samples[i].ts <= samples[j].ts
  }

  // Samples j to k all lie on the given side of b.
  predicate Sustained(samples: seq<Sample>, j: nat, k: nat, b: Band, side: int)
    requires k < |samples|
  {
    forall m :: j <= m <= k ==> Side(samples[m], b) == side
  }

  // Where the pending divergence began: as early as it can.
  predicate Pending(samples: seq<Sample>, st: State, base: nat, start: nat) {
    && base <= start < |samples| && st.since == Some(samples[start].ts)
    && Sustained(samples, start, |samples| - 1, st.confirmed, st.side)
    && (start == base || Side(samples[start - 1], st.confirmed) != st.side)
  }

  ghost predicate Tracks(samples: seq<Sample>, st: State, log: seq<Entry>) {
    && st.confirmed == InForce(log) && Resumed(log) <= |samples| && -1 <= st.side <= 1
    && (st.side == 0 ==> st.since == None)
    && (st.side == 0 && Resumed(log) != |samples| ==> Side(samples[|samples| - 1], st.confirmed) == 0)
    && (st.side != 0 ==> exists start :: Pending(samples, st, Resumed(log), start))
  }

  lemma {:induction false} StateTracksLog(samples: seq<Sample>, dwell: Dwell)
    ensures Tracks(samples, After(samples, dwell), Log(samples, dwell))
  {
    if samples != [] {
      var n := |samples| - 1;
      StateTracksLog(samples[..n], dwell);
      StepTracks(samples, After(samples[..n], dwell), Log(samples[..n], dwell), dwell);
    }
  }

  function Extended(log: seq<Entry>, n: nat, out: Option<Action>): seq<Entry> {
    log + (if out.Some? then [Entry(n, out.value)] else [])
  }

  lemma StepTracks(samples: seq<Sample>, st: State, log: seq<Entry>, dwell: Dwell)
    requires samples != [] && Tracks(samples[..|samples| - 1], st, log)
    ensures var out := Step(st, samples[|samples| - 1], dwell);
      Tracks(samples, out.0, Extended(log, |samples| - 1, out.1))
  {
    hide BandOf, Rank, SeverityOf;
    var n := |samples| - 1;
    var out := Step(st, samples[n], dwell);
    if out.1.None? {
      assert Extended(log, n, out.1) == log;
    }
    if out.1.None? && out.0.side != 0 {
      assert out.0.confirmed == st.confirmed && -1 <= out.0.side <= 1;
      if st.side == out.0.side {
        var start: nat :| Pending(samples[..n], st, Resumed(log), start);
        assert samples[..n][start] == samples[start];
        SustainedLonger(samples, start, st.confirmed, st.side);
        assert start > Resumed(log) ==> samples[..n][start - 1] == samples[start - 1];
        assert Pending(samples, out.0, Resumed(log), start);
      } else {
        Earlier(samples, st, log);
        assert Pending(samples, out.0, Resumed(log), n);
      }
    }
  }

  lemma SustainedLonger(samples: seq<Sample>, start: nat, b: Band, side: int)
    requires |samples| > 1 && start < |samples| - 1
    requires Sustained(samples[..|samples| - 1], start, |samples| - 2, b, side)
    requires Side(samples[|samples| - 1], b) == side
    ensures Sustained(samples, start, |samples| - 1, b, side)
  {
    var n := |samples| - 1;
    forall m | start <= m <= n
      ensures Side(samples[m], b) == side
    {
      if m < n {
        assert samples[..n][m] == samples[m];
      }
    }
  }

  // The newest earlier sample lies on the side the tracker has pending.
  lemma Earlier(samples: seq<Sample>, st: State, log: seq<Entry>)
    requires samples != [] && Tracks(samples[..|samples| - 1], st, log)
    ensures Resumed(log) == |samples| - 1 || Side(samples[|samples| - 2], st.confirmed) == st.side
  {
    hide Side;
    var n := |samples| - 1;
    if Resumed(log) < n && st.side != 0 {
      var start: nat :| Pending(samples[..n], st, Resumed(log), start);
      assert samples[..n][n - 1] == samples[n - 1];
    }
  }

  // Since the last report, the samples up to the newest have stayed on its side of b for
  // as long as that side asks.
  ghost predicate Lasted(samples: seq<Sample>, base: nat, b: Band, dwell: Dwell)
    requires samples != []
  {
    var n := |samples| - 1;
    var side := Side(samples[n], b);
    side != 0 && exists j: nat :: Reaches(samples, base, j, b, Wait(dwell, side))
  }

  predicate Reaches(samples: seq<Sample>, base: nat, j: nat, b: Band, wait: real)
    requires samples != []
  {
    var n := |samples| - 1;
    base <= j <= n && Sustained(samples, j, n, b, Side(samples[n], b)) && samples[n].ts - samples[j].ts >= wait
  }

  // A change is reported by a sample exactly when the divergence it continues has lasted,
  // unbroken and in one direction, for the dwell time; it goes from the band in force to
  // the sample's own.
  lemma ReportedExactlyWhenSustained(samples: seq<Sample>, dwell: Dwell)
    requires samples != [] && Ordered(samples)
    ensures var n := |samples| - 1;
      var log := Log(samples[..n], dwell);
      Log(samples, dwell) == (if Lasted(samples, Resumed(log), InForce(log), dwell)
                              then log + [Entry(n, Change(InForce(log), samples[n]))] else log)
  {
    hide Side, Wait, Change;
    var n := |samples| - 1;
    var st, log := After(samples[..n], dwell), Log(samples[..n], dwell);
    StateTracksLog(samples[..n], dwell);
    var side := Side(samples[n], st.confirmed);
    if side != 0 {
      var start := Began(samples, st, log);
      if samples[n].ts - samples[start].ts >= Wait(dwell, side) {
        assert Reaches(samples, Resumed(log), start, st.confirmed, Wait(dwell, side));
      } else {
        forall j: nat
          ensures !Reaches(samples, Resumed(log), j, st.confirmed, Wait(dwell, side))
        {
        }
      }
    }
  }

  // Where the divergence of the newest sample began.
  lemma Began(samples: seq<Sample>, st: State, log: seq<Entry>) returns (start: nat)
    requires samples != [] && Tracks(samples[..|samples| - 1], st, log)
    requires Side(samples[|samples| - 1], st.confirmed) != 0
    ensures Resumed(log) <= start < |samples|
    ensures var side := Side(samples[|samples| - 1], st.confirmed);
      && Sustained(samples, start, |samples| - 1, st.confirmed, side)
      && (start == Resumed(log) || Side(samples[start - 1], st.confirmed) != side)
      && samples[start].ts == (if st.side == side && st.since.Some? then st.since.value else samples[|samples| - 1].ts)
  {
    hide Side;
    var n := |samples| - 1;
    if st.side == Side(samples[n], st.confirmed) {
      start :| Pending(samples[..n], st, Resumed(log), start);
      assert samples[..n][start] == samples[start];
      SustainedLonger(samples, start, st.confirmed, st.side);
      assert start > Resumed(log) ==> samples[..n][start - 1] == samples[start - 1];
    } else {
      start := n;
      Earlier(samples, st, log);
    }
  }

  // --------------------------------------------------------------- the whole log

  function SideOf(a: Action): int {
    if Rank(a.target) > Rank(a.from) then 1 else -1
  }

  // The dwell times of all reported changes together.
  function TotalDwell(log: seq<Entry>, dwell: Dwell): real {
    if log == [] then 0.0
    else TotalDwell(log[..|log| - 1], dwell) + Wait(dwell, SideOf(log[|log| - 1].action))
  }

  // An entry follows the entries before it.
  predicate Link(before: seq<Entry>, e: Entry, samples: seq<Sample>, dwell: Dwell) {
    && e.at < |samples|
    && e.action.from == InForce(before) != e.action.target == BandOf(samples[e.at].level)
    && (before != [] ==> before[|before| - 1].at < e.at)
    && (before != [] ==> samples[e.at].ts - samples[before[|before| - 1].at].ts >= Wait(dwell, SideOf(e.action)))
    && samples[e.at].ts - samples[0].ts >= Wait(dwell, SideOf(e.action))
  }

  predicate Chained(log: seq<Entry>, samples: seq<Sample>, dwell: Dwell) {
    forall i :: 0 <= i < |log| ==> Link(log[..i], log[i], samples, dwell)
  }

  // Reported changes form a chain from normal, each to another band, and each at least its
  // own dwell time after the one before.
  lemma {:induction false} ChangesAreChained(samples: seq<Sample>, dwell: Dwell)
    requires Ordered(samples)
    ensures Chained(Log(samples, dwell), samples, dwell)
    ensures After(samples, dwell).confirmed == InForce(Log(samples, dwell))
  {
    hide Lasted, Link, Step;
    StateTracksLog(samples, dwell);
    if samples != [] {
      var n := |samples| - 1;
      var log := Log(samples[..n], dwell);
      StateTracksLog(samples[..n], dwell);
      ChangesAreChained(samples[..n], dwell);
      ChainedInLonger(log, samples, dwell);
      ReportedExactlyWhenSustained(samples, dwell);
      if Lasted(samples, Resumed(log), InForce(log), dwell) {
        LinksOn(log, samples, dwell);
        ChainGrows(log, Entry(n, Change(InForce(log), samples[n])), samples, dwell);
      }
    }
  }

  lemma ChainedInLonger(log: seq<Entry>, samples: seq<Sample>, dwell: Dwell)
    requires samples != [] && Chained(log, samples[..|samples| - 1], dwell)
    ensures Chained(log, samples, dwell)
  {
    hide Wait, SideOf, InForce, BandOf;
    forall i | 0 <= i < |log|
      ensures Link(log[..i], log[i], samples, dwell)
    {
      LinkInLonger(log[..i], log[i], samples, dwell);
    }
  }

  lemma LinkInLonger(before: seq<Entry>, e: Entry, samples: seq<Sample>, dwell: Dwell)
    requires samples != [] && Link(before, e, samples[..|samples| - 1], dwell)
    ensures Link(before, e, samples, dwell)
  {
    hide Wait, SideOf, InForce, BandOf;
  }

  lemma ChainGrows(log: seq<Entry>, e: Entry, samples: seq<Sample>, dwell: Dwell)
    requires Chained(log, samples, dwell) && Link(log, e, samples, dwell)
    ensures Chained(log + [e], samples, dwell)
  {
    hide Link;
    forall i | 0 <= i <= |log|
      ensures Link((log + [e])[..i], (log + [e])[i], samples, dwell)
    {
      assert (log + [e])[..i] == log[..i];
    }
    assert log[..|log|] == log;
  }

  lemma LinksOn(log: seq<Entry>, samples: seq<Sample>, dwell: Dwell)
    requires samples != [] && Ordered(samples) && Resumed(log) < |samples|
    requires Lasted(samples, Resumed(log), InForce(log), dwell)
    ensures Link(log, Entry(|samples| - 1, Change(InForce(log), samples[|samples| - 1])), samples, dwell)
  {
    hide Wait, InForce, BandOf, Sustained;
    var n := |samples| - 1;
    var entry := Entry(n, Change(InForce(log), samples[n]));
    assert SideOf(entry.action) == Side(samples[n], InForce(log));
    var j: nat :| Reaches(samples, Resumed(log), j, InForce(log), Wait(dwell, SideOf(entry.action)));
    assert samples[0].ts <= samples[j].ts;
    if log != [] {
      assert samples[log[|log| - 1].at].ts <= samples[j].ts;
    }
  }

  // Every change takes its dwell time out of the run, so a run has no room for more.
  lemma {:induction false} ChangesAreRare(log: seq<Entry>, samples: seq<Sample>, dwell: Dwell)
    requires log != [] && Chained(log, samples, dwell) && log[|log| - 1].at < |samples|
    ensures TotalDwell(log, dwell) <= samples[log[|log| - 1].at].ts - samples[0].ts
  {
    hide Wait, SideOf, InForce, BandOf;
    var n := |log| - 1;
    assert Link(log[..n], log[n], samples, dwell);
    if n > 0 {
      assert Link(log[..n - 1], log[n - 1], samples, dwell);
      ChainShrinks(log, samples, dwell);
      ChangesAreRare(log[..n], samples, dwell);
    }
  }

  lemma ChainShrinks(log: seq<Entry>, samples: seq<Sample>, dwell: Dwell)
    requires log != [] && Chained(log, samples, dwell)
    ensures Chained(log[..|log| - 1], samples, dwell)
  {
    hide Link;
    var before := log[..|log| - 1];
    forall i | 0 <= i < |before|
      ensures Link(before[..i], before[i], samples, dwell)
    {
      assert before[..i] == log[..i] && before[i] == log[i];
    }
  }

  lemma {:induction false} DwellAddsUp(log: seq<Entry>, dwell: Dwell, least: real)
    requires least <= dwell.rise && least <= dwell.fall
    ensures |log| as real * least <= TotalDwell(log, dwell)
  {
    if log != [] {
      DwellAddsUp(log[..|log| - 1], dwell, least);
    }
  }

  // With the service's dwell times, a run of length T reports at most T / 30 changes.
  lemma AtMostOneChangeInThirtySeconds(samples: seq<Sample>)
    requires samples != [] && Ordered(samples)
    ensures 30.0 * |Log(samples, Default)| as real <= samples[|samples| - 1].ts - samples[0].ts
  {
    var log := Log(samples, Default);
    if log != [] {
      ChangesAreChained(samples, Default);
      assert Link(log[..|log| - 1], log[|log| - 1], samples, Default);
      ChangesAreRare(log, samples, Default);
      DwellAddsUp(log, Default, 30.0);
    }
  }

  // --------------------------------------------------------------- the service's dwell times

  // From sample j on the readings stay above band b for 30 seconds, or below it for 60.
  predicate Diverges(samples: seq<Sample>, j: nat, b: Band)
    requires j < |samples|
  {
    var n := |samples| - 1;
    || ((forall m :: j <= m <= n ==> Rank(BandOf(samples[m].level)) > Rank(b)) && samples[n].ts - samples[j].ts >= 30.0)
    || ((forall m :: j <= m <= n ==> Rank(BandOf(samples[m].level)) < Rank(b)) && samples[n].ts - samples[j].ts >= 60.0)
  }

  // Exactly: the service reports a rise after 30 seconds above the band in force and a fall
  // after 60 below it, counted from the last report, with the sample's band and score.
  lemma RisesAfterThirtyFallsAfterSixty(samples: seq<Sample>)
    requires samples != [] && Ordered(samples)
    ensures var n := |samples| - 1;
      var log, more := Log(samples[..n], Default), Log(samples, Default);
      if exists j: nat :: Resumed(log) <= j <= n && Diverges(samples, j, InForce(log))
      then |more| == |log| + 1 && more[..|log|] == log && more[|log|].at == n
           && more[|log|].action.from == InForce(log) && more[|log|].action.target == BandOf(samples[n].level)
           && more[|log|].action.score == samples[n].score
      else more == log
  {
    var n := |samples| - 1;
    var log := Log(samples[..n], Default);
    ReportedExactlyWhenSustained(samples, Default);
    var b := InForce(log);
    forall j: nat | Resumed(log) <= j <= n
      ensures Diverges(samples, j, b)
         <==> Side(samples[n], b) != 0 && Reaches(samples, Resumed(log), j, b, Wait(Default, Side(samples[n], b)))
    {
      DivergesIsReaching(samples, Resumed(log), j, b);
    }
  }

  lemma DivergesIsReaching(samples: seq<Sample>, base: nat, j: nat, b: Band)
    requires base <= j < |samples|
    ensures var n := |samples| - 1;
      Diverges(samples, j, b)
      <==> Side(samples[n], b) != 0 && Reaches(samples, base, j, b, Wait(Default, Side(samples[n], b)))
  {
    hide BandOf, Rank;
  }
}
