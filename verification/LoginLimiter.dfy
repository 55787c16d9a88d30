/** The login failure limiter: a sliding window of failures per address, and a lockout once
    it is full. */
module LoginLimiter {
  import opened Text

  const WINDOW: real := 60.0
  const LIMIT: nat := 20
  const LOCKOUT: real := 30.0

  // What is kept for one address.
  datatype Entry = Entry(times: seq<real>, until: Option<real>)

  const Blank := Entry([], None)

  datatype Token = Missing | Wrong | Right

  // A login attempt: the clock at its rate check and at the recording of a failure.
  datatype Attempt = Attempt(token: Token, checked: real, recorded: real)

  datatype Reply = Limited | TokenRequired | Accepted | Rejected

  function Fresh(times: seq<real>, now: real): (r: seq<real>)
    ensures |r| <= |times|
  {
    if times == [] then []
    else
      var t := times[|times| - 1];
      Fresh(times[..|times| - 1], now) + (if now - t < WINDOW then [t] else [])
  }

  function Check(e: Entry, now: real): (Entry, bool) {
    if e.until.Some? && now < e.until.value then (e, true)
    else (Entry(Fresh(e.times, now), None), false)
  }

  function Record(e: Entry, now: real): Entry {
    var times := Fresh(e.times, now) + [now];
    if |times| >= LIMIT then Entry([], Some(now + LOCKOUT)) else e.(times := times)
  }

  function Serve(e: Entry, a: Attempt): (Entry, Reply) {
    var checked := Check(e, a.checked);
    if checked.1 then (e, Limited)
    else match a.token
      case Missing => (checked.0, TokenRequired)
      case Right => (Blank, Accepted)
      case Wrong => (Record(checked.0, a.recorded), Rejected)
  }

  class Limiter {
    var failures: map<string, seq<real>>
    var lockout: map<string, real>

    ghost function EntryOf(address: string): Entry
      reads this
    {
      Entry(if address in failures then failures[address] else [],
            if address in lockout then Some(lockout[address]) else None)
    }

    constructor ()
      ensures forall address :: EntryOf(address) == Blank
    {
      failures, lockout := map[], map[];
    }

    method FreshTimes(times: seq<real>, now: real) returns (kept: seq<real>)
      ensures kept == Fresh(times, now)
    {
      kept := [];
      for i := 0 to |times|
        invariant kept == Fresh(times[..i], now)
      {
        assert times[..i + 1][..i] == times[..i];
        if now - times[i] < WINDOW {
          kept := kept + [times[i]];
        }
      }
      assert times[..|times|] == times;
    }

    method RateLimited(address: string, now: real) returns (limited: bool)
      modifies this
      ensures (EntryOf(address), limited) == Check(old(EntryOf(address)), now)
      ensures forall other :: other != address ==> EntryOf(other) == old(EntryOf(other))
    {
      if address in lockout {
        if now < lockout[address] {
          return true;
        }
        lockout := lockout - {address};
      }
      if address in failures {
        var kept := FreshTimes(failures[address], now);
        failures := if kept != [] then failures[address := kept] else failures - {address};
      }
      return false;
    }

    method RecordFailure(address: string, now: real) returns (lockedOut: bool)
      modifies this
      ensures EntryOf(address) == Record(old(EntryOf(address)), now)
      ensures lockedOut == (|Fresh(old(EntryOf(address)).times, now)| + 1 >= LIMIT)
      ensures forall other :: other != address ==> EntryOf(other) == old(EntryOf(other))
    {
      var times := FreshTimes(if address in failures then failures[address] else [], now);
      times := times + [now];
      if |times| >= LIMIT {
        lockout := lockout[address := now + LOCKOUT];
        failures := failures - {address};
        return true;
      }
      failures := failures[address := times];
      return false;
    }

    method ClearFailures(address: string)
      modifies this
      ensures EntryOf(address) == Blank
      ensures forall other :: other != address ==> EntryOf(other) == old(EntryOf(other))
    {
      failures, lockout := failures - {address}, lockout - {address};
    }

    // One request from check to answer; no other request of the address comes between.
    method Login(address: string, a: Attempt) returns (reply: Reply)
      modifies this
      ensures (EntryOf(address), reply) == Serve(old(EntryOf(address)), a)
      ensures forall other :: other != address ==> EntryOf(other) == old(EntryOf(other))
    {
      var limited := RateLimited(address, a.checked);
      if limited {
        return Limited;
      }
      match a.token {
        case Missing => return TokenRequired;
        case Right =>
          ClearFailures(address);
          return Accepted;
        case Wrong =>
          var _ := RecordFailure(address, a.recorded);
          return Rejected;
      }
    }
  }

  // --------------------------------------------------------------- runs of one address

  predicate Ordered(run: seq<Attempt>) {
    && (forall i :: 0 <= i < |run| ==> run[i].checked <= run[i].recorded)
    && (forall i :: 0 < i < |run| ==> run[i - 1].recorded <= run[i].checked)
  }

  function After(run: seq<Attempt>): Entry {
    if run == [] then Blank else Serve(After(run[..|run| - 1]), run[|run| - 1]).0
  }

  // A recorded failure, and whether it locked the address out.
  datatype Failure = Failure(at: real, locks: bool)

  function Failures(run: seq<Attempt>): seq<Failure> {
    if run == [] then []
    else
      var n := |run| - 1;
      var out := Serve(After(run[..n]), run[n]);
      Failures(run[..n]) + (if out.1 == Rejected then [Failure(run[n].recorded, out.0.until.Some?)] else [])
  }

  // The failures since the last lockout.
  function SinceLockout(fails: seq<Failure>): seq<real> {
    if fails == [] then []
    else
      var f := fails[|fails| - 1];
      if f.locks then [] else SinceLockout(fails[..|fails| - 1]) + [f.at]
  }

  lemma {:induction false} FreshTwice(times: seq<real>, early: real, late: real)
    requires early <= late
    ensures Fresh(Fresh(times, early), late) == Fresh(times, late)
  {
    if times == [] {
      NothingFresh(late);
      NothingFresh(early);
    } else {
      hide Fresh;
      var before, t := times[..|times| - 1], times[|times| - 1];
      assert before + [t] == times;
      FreshTwice(before, early, late);
      FreshSnoc(before, t, early);
      FreshSnoc(before, t, late);
      FreshSnoc(Fresh(before, early), t, late);
    }
  }

  lemma NothingFresh(now: real)
    ensures Fresh([], now) == [] && SinceLockout([]) == []
  {
  }

  lemma FreshSnoc(times: seq<real>, t: real, now: real)
    ensures Fresh(times + [t], now) == if now - t < WINDOW then Fresh(times, now) + [t] else Fresh(times, now)
  {
    assert (times + [t])[..|times|] == times;
  }

  // What the entry remembers, up to entries that have gone stale by now.
  ghost predicate Remembers(e: Entry, fails: seq<Failure>, now: real) {
    && |e.times| < LIMIT
    && (forall later :: now <= later ==> Fresh(e.times, later) == Fresh(SinceLockout(fails), later))
    && (fails != [] && fails[|fails| - 1].locks ==>
        (e.until == Some(fails[|fails| - 1].at + LOCKOUT) || fails[|fails| - 1].at + LOCKOUT <= now))
  }

  lemma CheckRemembers(e: Entry, fails: seq<Failure>, now: real, checked: real)
    requires Remembers(e, fails, now) && now <= checked
    ensures Remembers(Check(e, checked).0, fails, checked)
  {
    hide Fresh, SinceLockout;
    forall later | checked <= later
      ensures Fresh(Check(e, checked).0.times, later) == Fresh(SinceLockout(fails), later)
    {
      FreshTwice(e.times, checked, later);
    }
  }

  lemma RecordRemembers(e: Entry, fails: seq<Failure>, now: real, recorded: real)
    requires Remembers(e, fails, now) && now <= recorded && e.until == None
    ensures var next := Record(e, recorded);
      Remembers(next, fails + [Failure(recorded, next.until.Some?)], recorded)
  {
    hide Fresh, SinceLockout;
    var next := Record(e, recorded);
    var more := fails + [Failure(recorded, next.until.Some?)];
    SinceSnoc(fails, Failure(recorded, next.until.Some?));
    forall later | recorded <= later
      ensures Fresh(next.times, later) == Fresh(SinceLockout(more), later)
    {
      if next.until.None? {
        FreshTwice(e.times, recorded, later);
        FreshSnoc(Fresh(e.times, recorded), recorded, later);
        FreshSnoc(SinceLockout(fails), recorded, later);
      }
    }
  }

  lemma SinceSnoc(fails: seq<Failure>, f: Failure)
    ensures SinceLockout(fails + [f]) == if f.locks then [] else SinceLockout(fails) + [f.at]
  {
    assert (fails + [f])[..|fails|] == fails;
  }

  lemma {:induction false} EntryRemembers(run: seq<Attempt>, now: real)
    requires Ordered(run) && Unsuccessful(run) && (run != [] ==> run[|run| - 1].recorded <= now)
    ensures Remembers(After(run), Failures(run), now)
  {
    hide Fresh, SinceLockout;
    if run == [] {
      NothingFresh(now);
    } else {
      var n := |run| - 1;
      var e, fails := After(run[..n]), Failures(run[..n]);
      EntryRemembers(run[..n], run[n].checked);
      var checked := Check(e, run[n].checked);
      CheckRemembers(e, fails, run[n].checked, run[n].checked);
      if !checked.1 && run[n].token == Wrong {
        Waits(checked.0, fails, run[n].checked, run[n].recorded);
        RecordRemembers(checked.0, fails, run[n].recorded, run[n].recorded);
      }
      Waits(After(run), Failures(run), if Failures(run) == fails then run[n].checked else run[n].recorded, now);
    }
  }

  lemma Waits(e: Entry, fails: seq<Failure>, now: real, later: real)
    requires Remembers(e, fails, now) && now <= later
    ensures Remembers(e, fails, later)
  {
    hide Fresh, SinceLockout;
  }

  // No attempt of the run was accepted.
  predicate Unsuccessful(run: seq<Attempt>) {
    forall i :: 0 <= i < |run| ==> run[i].token != Right
  }

  // An accepted attempt wipes the slate: what follows runs as if nothing came before.
  lemma {:induction false} SuccessForgets(before: seq<Attempt>, a: Attempt, run: seq<Attempt>)
    requires Serve(After(before), a).1 == Accepted
    ensures After(before + [a] + run) == After(run)
  {
    var all := before + [a] + run;
    if run == [] {
      assert all[..|all| - 1] == before;
    } else {
      assert all[..|all| - 1] == before + [a] + run[..|run| - 1];
      SuccessForgets(before, a, run[..|run| - 1]);
    }
  }

  lemma {:induction false} StoredListIsShort(run: seq<Attempt>)
    ensures |After(run).times| < LIMIT
  {
    if run != [] {
      StoredListIsShort(run[..|run| - 1]);
    }
  }

  // --------------------------------------------------------------- bounds

  // Times rise, a failure locks exactly when it is the twentieth fresh one since the last
  // lockout, and after a lockout the next failure is at least 30 seconds away.
  predicate Paced(fails: seq<Failure>) {
    forall i :: 0 <= i < |fails| ==>
      && (fails[i].locks <==> |Fresh(SinceLockout(fails[..i]), fails[i].at)| + 1 >= LIMIT)
      && (i > 0 ==> fails[i].at >= fails[i - 1].at + (if fails[i - 1].locks then LOCKOUT else 0.0))
  }

  lemma {:induction false} FailuresArePaced(run: seq<Attempt>)
    requires Ordered(run) && Unsuccessful(run)
    ensures Paced(Failures(run))
    ensures run != [] && Failures(run) != [] ==> Failures(run)[|Failures(run)| - 1].at <= run[|run| - 1].recorded
  {
    hide Fresh, SinceLockout, Paced, Remembers, Check, Record;
    if run == [] {
      NoPace();
    } else {
      var n := |run| - 1;
      var e, fails := After(run[..n]), Failures(run[..n]);
      FailuresArePaced(run[..n]);
      assert fails != [] ==> n > 0 && run[..n][n - 1] == run[n - 1];
      EntryRemembers(run[..n], run[n].checked);
      if Serve(e, run[n]).1 == Rejected {
        NextIsPaced(e, fails, run[n]);
      } else {
        assert Failures(run) == fails;
      }
    }
  }

  lemma NextIsPaced(e: Entry, fails: seq<Failure>, a: Attempt)
    requires Remembers(e, fails, a.checked) && a.checked <= a.recorded && Serve(e, a).1 == Rejected
    requires Paced(fails) && (fails != [] ==> fails[|fails| - 1].at <= a.checked)
    ensures Paced(fails + [Failure(a.recorded, Serve(e, a).0.until.Some?)])
  {
    hide Fresh, SinceLockout, Paced;
    FreshTwice(e.times, a.checked, a.recorded);
    PaceHolds(fails, Failure(a.recorded, Serve(e, a).0.until.Some?));
  }

  lemma PaceHolds(fails: seq<Failure>, f: Failure)
    requires Paced(fails)
    requires f.locks <==> |Fresh(SinceLockout(fails), f.at)| + 1 >= LIMIT
    requires fails != [] ==> f.at >= fails[|fails| - 1].at + (if fails[|fails| - 1].locks then LOCKOUT else 0.0)
    ensures Paced(fails + [f])
  {
    hide Fresh, SinceLockout, Paced, PaceAt;
    var more := fails + [f];
    forall i | 0 <= i < |more|
      ensures PaceAt(more, i)
    {
      if i < |fails| {
        PacedThere(fails, i);
        SamePace(fails, f, i);
      } else {
        LastPace(fails, f);
      }
    }
    PacedEverywhere(more);
  }

  predicate PaceAt(fails: seq<Failure>, i: nat)
    requires i < |fails|
  {
    && (fails[i].locks <==> |Fresh(SinceLockout(fails[..i]), fails[i].at)| + 1 >= LIMIT)
    && (i > 0 ==> fails[i].at >= fails[i - 1].at + (if fails[i - 1].locks then LOCKOUT else 0.0))
  }

  lemma PacedThere(fails: seq<Failure>, i: nat)
    requires Paced(fails) && i < |fails|
    ensures PaceAt(fails, i)
  {
    hide Fresh, SinceLockout;
  }

  lemma SamePace(fails: seq<Failure>, f: Failure, i: nat)
    requires i < |fails| && PaceAt(fails, i)
    ensures PaceAt(fails + [f], i)
  {
    hide Fresh, SinceLockout;
    assert (fails + [f])[..i] == fails[..i];
  }

  lemma LastPace(fails: seq<Failure>, f: Failure)
    requires f.locks <==> |Fresh(SinceLockout(fails), f.at)| + 1 >= LIMIT
    requires fails != [] ==> f.at >= fails[|fails| - 1].at + (if fails[|fails| - 1].locks then LOCKOUT else 0.0)
    ensures PaceAt(fails + [f], |fails|)
  {
    hide Fresh, SinceLockout;
    assert (fails + [f])[..|fails|] == fails;
  }

  lemma PacedEverywhere(fails: seq<Failure>)
    requires forall i :: 0 <= i < |fails| ==> PaceAt(fails, i)
    ensures Paced(fails)
  {
    hide Fresh, SinceLockout;
    forall i | 0 <= i < |fails|
      ensures fails[i].locks <==> |Fresh(SinceLockout(fails[..i]), fails[i].at)| + 1 >= LIMIT
      ensures i > 0 ==> fails[i].at >= fails[i - 1].at + (if fails[i - 1].locks then LOCKOUT else 0.0)
    {
      assert PaceAt(fails, i);
    }
  }

  lemma NoPace()
    ensures Paced([])
  {
  }

  lemma {:induction false} TimesRise(fails: seq<Failure>, i: nat, j: nat)
    requires Paced(fails) && i <= j < |fails|
    ensures fails[i].at <= fails[j].at
    decreases j
  {
    hide Fresh, SinceLockout;
    if i < j {
      TimesRise(fails, i, j - 1);
    }
  }

  // Failures m to n - 1, none locking and all still fresh, all count.
  lemma {:induction false} AllCount(fails: seq<Failure>, m: nat, n: nat, now: real)
    requires m <= n <= |fails|
    requires forall k :: m <= k < n ==> !fails[k].locks && now - fails[k].at < WINDOW
    ensures |Fresh(SinceLockout(fails[..n]), now)| >= n - m
    decreases n
  {
    hide Fresh, SinceLockout;
    if m < n {
      AllCount(fails, m, n - 1, now);
      assert fails[..n] == fails[..n - 1] + [fails[n - 1]];
      SinceSnoc(fails[..n - 1], fails[n - 1]);
      FreshSnoc(SinceLockout(fails[..n - 1]), fails[n - 1].at, now);
    }
  }

  // Among twenty failures within a window, one locks.
  lemma SomeLocks(fails: seq<Failure>, i: nat) returns (k: nat)
    requires Paced(fails) && i + LIMIT <= |fails| && fails[i + LIMIT - 1].at - fails[i].at < WINDOW
    ensures i <= k < i + LIMIT && fails[k].locks
  {
    hide Fresh, SinceLockout;
    var n := i + LIMIT - 1;
    if k' :| i <= k' < n && fails[k'].locks {
      return k';
    }
    forall m | i <= m < n
      ensures fails[n].at - fails[m].at < WINDOW
    {
      TimesRise(fails, i, m);
    }
    AllCount(fails, i, n, fails[n].at);
    k := n;
  }

  // Any failure and the fortieth after it are at least a window apart.
  lemma FortyTakeAWindow(fails: seq<Failure>, i: nat)
    requires Paced(fails) && i + 2 * LIMIT < |fails|
    ensures fails[i + 2 * LIMIT].at - fails[i].at >= WINDOW
  {
    hide Fresh, SinceLockout;
    var last := i + 2 * LIMIT;
    TimesRise(fails, i, i + LIMIT - 1);
    TimesRise(fails, i, i + LIMIT);
    TimesRise(fails, i + LIMIT - 1, last);
    TimesRise(fails, i + 2 * LIMIT - 1, last);
    if fails[last].at - fails[i].at < WINDOW {
      var a := SomeLocks(fails, i);
      var b := SomeLocks(fails, i + LIMIT);
      TimesRise(fails, i, a);
      TimesRise(fails, a + 1, b);
      TimesRise(fails, b + 1, last);
      assert false;
    }
  }

  // How many of the failures fall into [start, start + 60).
  function CountIn(fails: seq<Failure>, start: real): nat {
    if fails == [] then 0
    else
      var f := fails[|fails| - 1];
      CountIn(fails[..|fails| - 1], start) + if start <= f.at < start + WINDOW then 1 else 0
  }

  lemma {:induction false} NoneBefore(fails: seq<Failure>, start: real)
    requires forall k :: 0 <= k < |fails| ==> fails[k].at < start
    ensures CountIn(fails, start) == 0
  {
    if fails != [] {
      NoneBefore(fails[..|fails| - 1], start);
    }
  }

  lemma {:induction false} OneEach(fails: seq<Failure>, start: real, m: nat)
    requires m <= |fails|
    ensures CountIn(fails, start) <= CountIn(fails[..m], start) + |fails| - m
  {
    var n := |fails| - 1;
    if m == n + 1 {
      assert fails[..m] == fails;
    } else {
      OneEach(fails[..n], start, m);
      assert fails[..n][..m] == fails[..m];
    }
  }

  // One address that sends one request at a time and never presents a valid token has at
  // most 40 failures recorded in any window, however it spreads its requests.
  lemma AtMostFortyPerWindow(run: seq<Attempt>, start: real)
    requires Ordered(run) && Unsuccessful(run)
    ensures CountIn(Failures(run), start) <= 2 * LIMIT
  {
    hide Paced, Failures;
    FailuresArePaced(run);
    PacedCount(Failures(run), start);
  }

  lemma {:induction false} PacedCount(fails: seq<Failure>, start: real)
    requires Paced(fails)
    ensures CountIn(fails, start) <= 2 * LIMIT
  {
    hide Fresh, SinceLockout;
    if |fails| <= 2 * LIMIT {
      OneEach(fails, start, 0);
    } else {
      var n := |fails| - 1;
      PacedPrefix(fails);
      if start <= fails[n].at < start + WINDOW {
        var m := n + 1 - 2 * LIMIT;
        FortyTakeAWindow(fails, n - 2 * LIMIT);
        forall k | 0 <= k < m
          ensures fails[..m][k].at < start
        {
          TimesRise(fails, k, m - 1);
        }
        NoneBefore(fails[..m], start);
        OneEach(fails, start, m);
      } else {
        PacedCount(fails[..n], start);
      }
    }
  }

  lemma PacedPrefix(fails: seq<Failure>)
    requires fails != [] && Paced(fails)
    ensures Paced(fails[..|fails| - 1])
  {
    hide Fresh, SinceLockout;
    var before := fails[..|fails| - 1];
    forall i | 0 <= i < |before|
      ensures before[..i] == fails[..i] && before[i] == fails[i]
    {
    }
  }

  // --------------------------------------------------------------- the bound is reached

  function Same(t: real, n: nat): (r: seq<real>)
    ensures |r| == n
  {
    if n == 0 then [] else Same(t, n - 1) + [t]
  }

  function Wrongs(t: real, n: nat): (r: seq<Attempt>)
    ensures |r| == n && forall i :: 0 <= i < n ==> r[i] == Attempt(Wrong, t, t)
  {
    if n == 0 then [] else Wrongs(t, n - 1) + [Attempt(Wrong, t, t)]
  }

  lemma {:induction false} SameIsFresh(t: real, n: nat)
    ensures Fresh(Same(t, n), t) == Same(t, n)
  {
    if n > 0 {
      SameIsFresh(t, n - 1);
      FreshSnoc(Same(t, n - 1), t, t);
    }
  }

  // Up to twenty wrong tokens at one instant, sent when nothing is held against the
  // address, are all recorded; the twentieth locks.
  lemma {:induction false} Burst(run: seq<Attempt>, t: real, n: nat, start: real)
    requires n <= LIMIT && start <= t < start + WINDOW
    requires After(run).times == [] && (After(run).until.Some? ==> After(run).until.value <= t)
    ensures var all := run + Wrongs(t, n);
      && CountIn(Failures(all), start) == CountIn(Failures(run), start) + n
      && (0 < n < LIMIT ==> After(all) == Entry(Same(t, n), None))
      && (n == LIMIT ==> After(all) == Entry([], Some(t + LOCKOUT)))
  {
    hide Fresh, Same, Serve, After, Failures, CountIn;
    if n == 0 {
      assert run + Wrongs(t, n) == run;
    } else {
      var before := run + Wrongs(t, n - 1);
      Burst(run, t, n - 1, start);
      assert run + Wrongs(t, n) == before + [Attempt(Wrong, t, t)];
      if n == 1 {
        assert before == run;
      }
      OneMoreWrong(After(before), t, n);
      OneMoreFailure(before, Attempt(Wrong, t, t), start);
    }
  }

  lemma OneMoreFailure(run: seq<Attempt>, a: Attempt, start: real)
    requires start <= a.recorded < start + WINDOW && Serve(After(run), a).1 == Rejected
    ensures After(run + [a]) == Serve(After(run), a).0
    ensures CountIn(Failures(run + [a]), start) == CountIn(Failures(run), start) + 1
  {
    hide Serve;
    assert (run + [a])[..|run|] == run;
    assert Failures(run + [a])[..|Failures(run)|] == Failures(run);
  }

  lemma OneMoreWrong(e: Entry, t: real, n: nat)
    requires 0 < n <= LIMIT
    requires if n == 1 then e.times == [] && (e.until.Some? ==> e.until.value <= t) else e == Entry(Same(t, n - 1), None)
    ensures Serve(e, Attempt(Wrong, t, t))
         == (if n < LIMIT then Entry(Same(t, n), None) else Entry([], Some(t + LOCKOUT)), Rejected)
  {
    hide Fresh;
    SameIsFresh(t, n - 1);
  }

  // Forty are possible: twenty at once, and twenty more the moment the lockout lifts.
  lemma FortyAreReached()
    ensures var run := Wrongs(0.0, LIMIT) + Wrongs(LOCKOUT, LIMIT);
      Ordered(run) && Unsuccessful(run) && CountIn(Failures(run), 0.0) == 2 * LIMIT
  {
    hide Wrongs, Failures, CountIn, After;
    NothingFailed();
    assert [] + Wrongs(0.0, LIMIT) == Wrongs(0.0, LIMIT);
    Burst([], 0.0, LIMIT, 0.0);
    Burst(Wrongs(0.0, LIMIT), LOCKOUT, LIMIT, 0.0);
    TwoBursts(0.0, LOCKOUT, LIMIT);
  }

  lemma TwoBursts(t: real, u: real, n: nat)
    requires t <= u
    ensures Ordered(Wrongs(t, n) + Wrongs(u, n)) && Unsuccessful(Wrongs(t, n) + Wrongs(u, n))
  {
    hide Wrongs;
    var run := Wrongs(t, n) + Wrongs(u, n);
    forall i | 0 <= i < |run|
      ensures run[i] == Attempt(Wrong, if i < n then t else u, if i < n then t else u)
    {
    }
  }

  lemma NothingFailed()
    ensures CountIn(Failures([]), 0.0) == 0 && After([]) == Blank
  {
  }

  // --------------------------------------------------------------- exactly when

  // The failures since the last lockout that are less than 60 seconds old.
  function Recent(fails: seq<Failure>, now: real): nat {
    if fails == [] || fails[|fails| - 1].locks then 0
    else Recent(fails[..|fails| - 1], now) + (if now - fails[|fails| - 1].at < 60.0 then 1 else 0)
  }

  lemma {:induction false} FreshCounts(fails: seq<Failure>, now: real)
    ensures |Fresh(SinceLockout(fails), now)| == Recent(fails, now)
  {
    if fails == [] || fails[|fails| - 1].locks {
      NothingFresh(now);
    } else {
      var n := |fails| - 1;
      FreshCounts(fails[..n], now);
      FreshSnoc(SinceLockout(fails[..n]), fails[n].at, now);
    }
  }

  // Exactly: a failure locks when 19 others since the last lockout are less than 60 seconds
  // old, and the next failure is then 30 seconds away.
  lemma TwentiethLocks(run: seq<Attempt>, i: nat)
    requires Ordered(run) && Unsuccessful(run) && i < |Failures(run)|
    ensures var fails := Failures(run);
      && (fails[i].locks <==> Recent(fails[..i], fails[i].at) >= 19)
      && (i > 0 && fails[i - 1].locks ==> fails[i].at >= fails[i - 1].at + 30.0)
  {
    hide Fresh, SinceLockout, Failures;
    FailuresArePaced(run);
    FreshCounts(Failures(run)[..i], Failures(run)[i].at);
  }

  ghost predicate LockKnown(e: Entry, fails: seq<Failure>) {
    e.until.Some? ==> fails != [] && fails[|fails| - 1].locks && e.until.value == fails[|fails| - 1].at + 30.0
  }

  lemma {:induction false} LockIsTheLastFailure(run: seq<Attempt>)
    requires Unsuccessful(run)
    ensures LockKnown(After(run), Failures(run))
  {
    hide Fresh;
    if run != [] {
      LockIsTheLastFailure(run[..|run| - 1]);
    }
  }

  // Exactly: an attempt is turned away unread when the latest failure locked the address
  // less than 30 seconds before.
  lemma LimitedExactly(run: seq<Attempt>, a: Attempt)
    requires Ordered(run + [a]) && Unsuccessful(run)
    ensures var fails := Failures(run);
      Serve(After(run), a).1 == Limited
      <==> fails != [] && fails[|fails| - 1].locks && a.checked < fails[|fails| - 1].at + 30.0
  {
    hide Fresh, SinceLockout, Failures, After;
    OrderedFront(run, a);
    EntryRemembers(run, a.checked);
    LockIsTheLastFailure(run);
  }

  lemma OrderedFront(run: seq<Attempt>, a: Attempt)
    requires Ordered(run + [a])
    ensures Ordered(run) && (run != [] ==> run[|run| - 1].recorded <= a.checked)
  {
    var all := run + [a];
    forall i | 0 <= i < |run|
      ensures all[i] == run[i]
    {
    }
    assert all[|run|] == a;
  }
}
