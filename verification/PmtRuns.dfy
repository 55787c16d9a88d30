/** The bandwidth sampler over whole runs: when the guard disables it, and what the idle
    floor becomes. */
module PmtRuns {
  import opened Text
  import opened PmtCounters
  import opened PmtSampler

  lemma StepIsSound(p: Platform, st: State, s: Sample)
    requires Sound(p, st)
    ensures Sound(p, Step(p, st, s).0)
  {
    hide ComputeBandwidth, Implausible, Learned, Observed, GpuFromCache, Span, Fits;
    if s.read.Some? {
      SpanIsExact(p, s.read.value);
    }
  }

  function After(p: Platform, run: seq<Sample>): (st: State)
    ensures Sound(p, st)
  {
    if run == [] then Start(p)
    else
      var n := |run| - 1;
      StepIsSound(p, After(p, run[..n]), run[n]);
      Step(p, After(p, run[..n]), run[n]).0
  }

  // Every region that could be read is long enough.
  predicate Usable(p: Platform, run: seq<Sample>) {
    forall k :: 0 <= k < |run| && run[k].read.Some? ==> Fits(p, run[k].read.value)
  }

  // Round k has a reading: its region and the one before could be read, at later times.
  predicate Computed(run: seq<Sample>, k: nat) {
    0 < k < |run| && run[k].read.Some? && run[k - 1].read.Some? && run[k - 1].now < run[k].now
  }

  // The reading of round k; the floor plays no part in what is asked of it here.
  function ReadingAt(p: Platform, run: seq<Sample>, k: nat): Bandwidth
    requires Usable(p, run) && Computed(run, k)
  {
    ComputeBandwidth(p, run[k - 1].read.value, run[k].read.value, run[k].now - run[k - 1].now, 0.0)
  }

  lemma UsablePrefix(p: Platform, run: seq<Sample>)
    requires run != [] && Usable(p, run)
    ensures Usable(p, run[..|run| - 1])
    ensures run[|run| - 1].read.Some? ==> Fits(p, run[|run| - 1].read.value)
  {
    hide Fits;
  }

  // Which computed readings are implausible, oldest first.
  function Flags(p: Platform, run: seq<Sample>): seq<bool>
    requires Usable(p, run)
  {
    if run == [] then []
    else
      var n := |run| - 1;
      UsablePrefix(p, run);
      Flags(p, run[..n]) + if Computed(run, n) then [Implausible(ReadingAt(p, run, n))] else []
  }

  // What the plausible readings say about the idle floor.
  function Observations(p: Platform, run: seq<Sample>): seq<real>
    requires Usable(p, run)
  {
    if run == [] then []
    else
      var n := |run| - 1;
      UsablePrefix(p, run);
      Observations(p, run[..n])
      + if Computed(run, n) && !Implausible(ReadingAt(p, run, n)) && Observed(ReadingAt(p, run, n)).Some?
        then [Observed(ReadingAt(p, run, n)).value] else []
  }

  function Trailing(flags: seq<bool>): nat {
    if flags == [] || !flags[|flags| - 1] then 0 else 1 + Trailing(flags[..|flags| - 1])
  }

  // The n flags from i on are all set.
  predicate Row(flags: seq<bool>, i: nat, n: nat) {
    i + n <= |flags| && forall k :: i <= k < i + n ==> flags[k]
  }

  ghost predicate FiveInARow(flags: seq<bool>) {
    exists i: nat :: Row(flags, i, BAD_SAMPLES)
  }

  function Average(seed: real, observations: seq<real>): real {
    if observations == [] then seed
    else Learned(Average(seed, observations[..|observations| - 1]), Some(observations[|observations| - 1]))
  }

  lemma {:induction false} TrailingIsARow(flags: seq<bool>, n: nat)
    requires n <= |flags|
    ensures Trailing(flags) <= |flags|
    ensures Trailing(flags) >= n <==> Row(flags, |flags| - n, n)
  {
    if flags != [] {
      var before := flags[..|flags| - 1];
      var m := if n > 0 then n - 1 else 0;
      TrailingIsARow(before, m);
      if n > 0 {
        assert flags == before + [flags[|flags| - 1]];
      }
    }
  }

  lemma RowIn(flags: seq<bool>, flag: bool, i: nat, n: nat)
    requires i + n <= |flags|
    ensures Row(flags + [flag], i, n) <==> Row(flags, i, n)
  {
    var more := flags + [flag];
    assert forall k :: 0 <= k < |flags| ==> more[k] == flags[k];
  }

  // One more flag completes a row of five exactly when it is the fifth of its run.
  lemma RowGrows(flags: seq<bool>, flag: bool)
    ensures FiveInARow(flags + [flag]) <==> FiveInARow(flags) || (flag && Trailing(flags) >= BAD_SAMPLES - 1)
    ensures Trailing(flags + [flag]) == if flag then Trailing(flags) + 1 else 0
  {
    hide Row;
    var more := flags + [flag];
    assert more[..|flags|] == flags;
    TrailingIsARow(flags, 0);
    if |more| >= BAD_SAMPLES {
      TrailingIsARow(more, BAD_SAMPLES);
    }
    forall i: nat | i + BAD_SAMPLES <= |flags|
      ensures Row(more, i, BAD_SAMPLES) <==> Row(flags, i, BAD_SAMPLES)
    {
      RowIn(flags, flag, i, BAD_SAMPLES);
    }
    RowFits(flags);
    RowFits(more);
  }

  lemma RowFits(flags: seq<bool>)
    ensures forall i: nat :: Row(flags, i, BAD_SAMPLES) ==> i + BAD_SAMPLES <= |flags|
  {
  }

  lemma RowImpliesTrailing(flags: seq<bool>)
    ensures Trailing(flags) >= BAD_SAMPLES ==> FiveInARow(flags)
    ensures flags == [] ==> !FiveInARow(flags)
  {
    TrailingIsARow(flags, 0);
    if Trailing(flags) >= BAD_SAMPLES {
      TrailingIsARow(flags, BAD_SAMPLES);
    }
  }

  lemma FloorPlaysNoPart(p: Platform, prev: Region, cur: Region, dt: real, floor: real)
    requires Fits(p, prev) && Fits(p, cur) && dt > 0.0
    ensures var a, b := ComputeBandwidth(p, prev, cur, dt, floor), ComputeBandwidth(p, prev, cur, dt, 0.0);
      Implausible(a) == Implausible(b) && Observed(a) == Observed(b)
  {
    hide Rate, GpuIdle, Deltas, Fits;
  }

  // The newest region, if the last round read one.
  function LastRead(run: seq<Sample>): Option<(Region, real)> {
    if run == [] || run[|run| - 1].read.None? then None
    else Some((run[|run| - 1].read.value, run[|run| - 1].now))
  }

  ghost predicate Mirrors(p: Platform, run: seq<Sample>, st: State)
    requires Usable(p, run)
  {
    var flags := Flags(p, run);
    if st.disabled then !p.verified && FiveInARow(flags)
    else
      && st.prev == LastRead(run) && st.bad == Trailing(flags)
      && st.diverging == (Trailing(flags) >= BAD_SAMPLES)
      && st.floor == Average(p.ioFloor, Observations(p, run))
      && (!p.verified ==> !FiveInARow(flags))
  }

  lemma {:induction false} StateMirrorsRun(p: Platform, run: seq<Sample>)
    requires Usable(p, run)
    ensures Mirrors(p, run, After(p, run))
  {
    hide Fits, Mirrors, Step;
    if run == [] {
      StartMirrors(p);
    } else {
      var n := |run| - 1;
      UsablePrefix(p, run);
      StateMirrorsRun(p, run[..n]);
      StepMirrors(p, run, After(p, run[..n]));
    }
  }

  lemma StartMirrors(p: Platform)
    ensures Mirrors(p, [], Start(p))
  {
    RowImpliesTrailing([]);
  }

  lemma StepMirrors(p: Platform, run: seq<Sample>, st: State)
    requires run != [] && Usable(p, run) && Usable(p, run[..|run| - 1])
    requires Sound(p, st) && Mirrors(p, run[..|run| - 1], st)
    ensures Mirrors(p, run, Step(p, st, run[|run| - 1]).0)
  {
    hide Fits, Implausible, Observed, Learned, ComputeBandwidth, Trailing, FiveInARow, Judge, Average, Span;
    var n := |run| - 1;
    var s := run[n];
    var flags := Flags(p, run[..n]);
    if s.read.Some? {
      UsablePrefix(p, run);
      SpanIsExact(p, s.read.value);
    }
    if st.disabled {
      if Computed(run, n) {
        RowGrows(flags, Implausible(ReadingAt(p, run, n)));
      } else {
        assert Flags(p, run) == flags;
      }
    } else if Computed(run, n) {
      assert run[..n][n - 1] == run[n - 1];
      FloorPlaysNoPart(p, run[n - 1].read.value, s.read.value, s.now - run[n - 1].now, st.floor);
      JudgedMirrors(p, run, st.(prev := Some((s.read.value, s.now))),
                    ComputeBandwidth(p, run[n - 1].read.value, s.read.value, s.now - run[n - 1].now, st.floor));
    } else {
      assert Flags(p, run) == flags && Observations(p, run) == Observations(p, run[..n]);
      assert n > 0 ==> run[..n][n - 1] == run[n - 1];
    }
  }

  lemma JudgedMirrors(p: Platform, run: seq<Sample>, st: State, bw: Bandwidth)
    requires Usable(p, run) && run != [] && Computed(run, |run| - 1) && Usable(p, run[..|run| - 1])
    requires !st.disabled && st.prev == LastRead(run)
    requires Mirrors(p, run[..|run| - 1], st.(prev := LastRead(run[..|run| - 1])))
    requires Implausible(bw) == Implausible(ReadingAt(p, run, |run| - 1))
    requires Observed(bw) == Observed(ReadingAt(p, run, |run| - 1))
    ensures Mirrors(p, run, Judge(p, st, bw).0)
  {
    hide Fits, Implausible, Observed, Learned, ComputeBandwidth, Trailing, FiveInARow, GpuFromCache, ReadingAt;
    var n := |run| - 1;
    var flags, seen := Flags(p, run[..n]), Observations(p, run[..n]);
    RowGrows(flags, Implausible(bw));
    RowImpliesTrailing(flags + [Implausible(bw)]);
    if !Implausible(bw) && Observed(bw).Some? {
      assert (seen + [Observed(bw).value])[..|seen|] == seen;
    } else {
      assert Observations(p, run) == seen;
      NothingLearned(st.floor);
    }
  }

  lemma NothingLearned(floor: real)
    ensures Learned(floor, None) == floor
  {
  }

  lemma {:induction false} ShortRegionDisables(p: Platform, run: seq<Sample>)
    requires !Usable(p, run)
    ensures After(p, run).disabled
  {
    hide Fits, Judge, ComputeBandwidth, Span;
    var n := |run| - 1;
    if !Usable(p, run[..n]) {
      ShortRegionDisables(p, run[..n]);
    } else if run[n].read.Some? {
      SpanIsExact(p, run[n].read.value);
    }
  }

  // The sampler is disabled exactly when some region was too short, or when the platform is
  // unverified and five computed readings in a row were implausible; rounds without a
  // reading neither count nor break the row, and once disabled it stays so.
  lemma DisabledAfterFiveInARow(p: Platform, run: seq<Sample>)
    ensures After(p, run).disabled <==> !Usable(p, run) || (!p.verified && FiveInARow(Flags(p, run)))
  {
    hide Fits, Flags, FiveInARow, Trailing, After, Usable;
    if Usable(p, run) {
      StateMirrorsRun(p, run);
    } else {
      ShortRegionDisables(p, run);
    }
  }

  // Disabling comes with the reading that completes the row.
  lemma DisabledAtTheFifth(p: Platform, run: seq<Sample>)
    requires run != [] && Usable(p, run) && Usable(p, run[..|run| - 1])
    requires !After(p, run[..|run| - 1]).disabled && After(p, run).disabled
    ensures Computed(run, |run| - 1) && Trailing(Flags(p, run)) == BAD_SAMPLES
  {
    hide Fits, Trailing, FiveInARow, ReadingAt, Implausible;
    var n := |run| - 1;
    var flags := Flags(p, run[..n]);
    StateMirrorsRun(p, run);
    StateMirrorsRun(p, run[..n]);
    if Computed(run, n) {
      RowGrows(flags, Implausible(ReadingAt(p, run, n)));
      RowImpliesTrailing(flags);
    } else {
      NoFlag(p, run);
    }
  }

  lemma NoFlag(p: Platform, run: seq<Sample>)
    requires run != [] && Usable(p, run) && Usable(p, run[..|run| - 1]) && !Computed(run, |run| - 1)
    ensures Flags(p, run) == Flags(p, run[..|run| - 1])
  {
  }

  // --------------------------------------------------------------- the floor

  lemma {:induction false} AverageStaysInHull(seed: real, observations: seq<real>, lo: real, hi: real)
    requires lo <= seed <= hi && forall o :: o in observations ==> lo <= o <= hi
    ensures lo <= Average(seed, observations) <= hi
  {
    if observations != [] {
      var n := |observations| - 1;
      assert observations[n] in observations;
      forall o | o in observations[..n]
        ensures o in observations
      {
      }
      AverageStaysInHull(seed, observations[..n], lo, hi);
    }
  }

  // The floor is the running average of the plausible GPU-idle observations from the
  // platform's seed on, so it never leaves their hull.
  lemma FloorStaysInHull(p: Platform, run: seq<Sample>, lo: real, hi: real)
    requires Usable(p, run) && !After(p, run).disabled
    requires lo <= p.ioFloor <= hi && forall o :: o in Observations(p, run) ==> lo <= o <= hi
    ensures After(p, run).floor == Average(p.ioFloor, Observations(p, run))
    ensures lo <= After(p, run).floor <= hi
  {
    hide Fits, Observations, Flags, Average, After;
    StateMirrorsRun(p, run);
    AverageStaysInHull(p.ioFloor, Observations(p, run), lo, hi);
  }
}
