/** The quiet-mode gate: a hold with a lease, and a switch the user may flip under it. Each
    locked operation reads the clock once. */
module QuietMode {
  import opened Text

  datatype Ttl = Seconds(s: real) | Forever

  datatype Due = At(t: real) | Never

  function Later(now: real, ttl: Ttl): Due {
    if ttl.Forever? then Never else At(now + ttl.s)
  }

  predicate Past(now: real, due: Due) {
    due.At? && now > due.t
  }

  // The locked operations that change something. A watchdog's exit is an Exit(None).
  datatype Call =
    | Enter(owner: string, ttl: Option<Ttl>, now: real)
    | Exit(who: Option<string>, now: real)
    | Heartbeat(owner: string, now: real)
    | SetGate(up: bool, now: real)

  datatype State = State(owner: Option<string>, gateUp: bool, due: Due, userExited: bool)

  const Released := State(None, false, At(0.0), false)

  function Step(st: State, c: Call, ttl: Ttl): State {
    match c
    case Enter(o, own, now) =>
      var due := Later(now, if own.Some? then own.value else ttl);
      if st.owner == Some(o) && !Past(now, st.due) then st.(due := due) else State(Some(o), true, due, false)
    case Exit(who, _) =>
      if st.owner.None? || (who.Some? && who != st.owner) then st else Released
    case Heartbeat(o, now) =>
      if st.owner == Some(o) && !Past(now, st.due) then st.(due := Later(now, ttl)) else st
    case SetGate(up, _) =>
      if st.owner.None? then st else st.(gateUp := up, userExited := st.userExited || !up)
  }

  predicate Active(st: State, now: real) {
    st.owner.Some? && st.gateUp && !Past(now, st.due)
  }

  class QuietModeManager {
    const ttl: Ttl
    var owner: Option<string>
    var gateUp: bool
    var due: Due
    var userExited: bool

    ghost function Now(): State
      reads this
    {
      State(owner, gateUp, due, userExited)
    }

    constructor (ttl: Ttl := Seconds(120.0))
      ensures this.ttl == ttl && Now() == Released
    {
      this.ttl := ttl;
      owner, gateUp, due, userExited := None, false, At(0.0), false;
    }

    method IsActive(now: real) returns (active: bool)
      ensures active == Active(Now(), now)
    {
      if owner.None? || !gateUp {
        return false;
      }
      if Past(now, due) {
        return false;
      }
      return true;
    }

    method Enter(who: string, own: Option<Ttl>, now: real)
      modifies this
      ensures Now() == Step(old(Now()), Call.Enter(who, own, now), ttl)
    {
      var lease := if own.Some? then own.value else ttl;
      var expired := owner.Some? && Past(now, due);
      var previous := if expired then None else owner;
      if previous == Some(who) {
        due := Later(now, lease);
        return;
      }
      owner, gateUp, userExited, due := Some(who), true, false, Later(now, lease);
    }

    method Exit(who: Option<string>, now: real) returns (released: bool)
      modifies this
      ensures Now() == Step(old(Now()), Call.Exit(who, now), ttl)
      ensures released == (old(owner).Some? && (who == None || who == old(owner)))
    {
      if owner.None? {
        return false;
      }
      if who.Some? && who != owner {
        return false;
      }
      owner, gateUp, due, userExited := None, false, At(0.0), false;
      return true;
    }

    method Heartbeat(who: string, now: real)
      modifies this
      ensures Now() == Step(old(Now()), Call.Heartbeat(who, now), ttl)
    {
      if owner == Some(who) && !Past(now, due) {
        due := Later(now, ttl);
      }
    }

    method SetGate(up: bool, now: real) returns (state: bool)
      modifies this
      ensures Now() == Step(old(Now()), Call.SetGate(up, now), ttl)
      ensures state == (owner.Some? && up)
    {
      if owner.None? {
        return false;
      }
      gateUp := up;
      if !up {
        userExited := true;
      }
      return gateUp;
    }

    // The watchdog's look: the lease of whoever holds quiet mode has run out.
    method LookExpired(now: real) returns (expired: bool)
      ensures expired == LooksExpired(Now(), now)
    {
      expired := owner.Some? && Past(now, due);
    }

    method HeldClean() returns (clean: bool)
      ensures clean == (owner.Some? && !userExited)
    {
      clean := owner.Some? && !userExited;
    }
  }

  // --------------------------------------------------------------- what a run means

  predicate Ordered(calls: seq<Call>) {
    forall i, j :: 0 <= i <= j < |calls| ==> calls[i].now <= calls[j].now
  }

  function After(calls: seq<Call>, ttl: Ttl): State {
    if calls == [] then Released else Step(After(calls[..|calls| - 1], ttl), calls[|calls| - 1], ttl)
  }

  predicate Renews(c: Call, o: string) {
    (c.Enter? || c.Heartbeat?) && c.owner == o
  }

  // The lease a renewal grants.
  function Grant(c: Call, ttl: Ttl): Due {
    Later(c.now, if c.Enter? && c.ttl.Some? then c.ttl.value else ttl)
  }

  predicate Ends(c: Call, o: string) {
    (c.Exit? && (c.who == None || c.who == Some(o))) || (c.Enter? && c.owner != o)
  }

  // The newest renewal of the hold entered at h.
  function LastRenewal(calls: seq<Call>, h: nat): (k: nat)
    requires h < |calls| && calls[h].Enter?
    ensures h <= k < |calls|
  {
    var n := |calls| - 1;
    if n == h || Renews(calls[n], calls[h].owner) then n else LastRenewal(calls[..n], h)
  }

  // Nobody released the hold or took it over.
  predicate Kept(calls: seq<Call>, h: nat)
    requires h < |calls| && calls[h].Enter?
  {
    forall k :: h < k < |calls| ==> !Ends(calls[k], calls[h].owner)
  }

  // Every renewal came before the lease of the one before it ran out.
  predicate InTime(calls: seq<Call>, h: nat, ttl: Ttl)
    requires h < |calls| && calls[h].Enter?
  {
    forall k :: h < k < |calls| && Renews(calls[k], calls[h].owner) ==> Punctual(calls[..k], h, calls[k].now, ttl)
  }

  predicate Punctual(before: seq<Call>, h: nat, now: real, ttl: Ttl)
    requires h < |before| && before[h].Enter?
  {
    !Past(now, Grant(before[LastRenewal(before, h)], ttl))
  }

  // Entered at h, kept, and leased without a gap up to now.
  predicate Unbroken(calls: seq<Call>, h: nat, now: real, ttl: Ttl) {
    && h < |calls| && calls[h].Enter? && Kept(calls, h)
    && InTime(calls, h, ttl) && Punctual(calls, h, now, ttl)
  }

  // An entry that does not merely renew a hold its owner still has.
  ghost predicate Begins(before: seq<Call>, c: Call, ttl: Ttl) {
    c.Enter? && forall g: nat :: Unbroken(before, g, c.now, ttl) ==> before[g].owner != c.owner
  }

  // The hold that began at h is the one in place after the calls.
  ghost predicate Current(calls: seq<Call>, h: nat, ttl: Ttl) {
    && h < |calls| && calls[h].Enter? && Begins(calls[..h], calls[h], ttl) && Kept(calls, h)
    && forall k :: h < k < |calls| ==> !Begins(calls[..k], calls[k], ttl)
  }

  // The latest gate setting since h; entering raises the gate.
  function GateSince(calls: seq<Call>, h: nat): bool
    requires h < |calls|
  {
    var n := |calls| - 1;
    if n == h then true else if calls[n].SetGate? then calls[n].up else GateSince(calls[..n], h)
  }

  predicate DroppedSince(calls: seq<Call>, h: nat) {
    exists k :: h < k < |calls| && calls[k].SetGate? && !calls[k].up
  }

  // --------------------------------------------------------------- proofs

  lemma OrderedPrefix(calls: seq<Call>)
    requires calls != [] && Ordered(calls)
    ensures Ordered(calls[..|calls| - 1])
    ensures |calls| > 1 ==> calls[|calls| - 2].now <= calls[|calls| - 1].now
  {
  }

  lemma KeptPrefix(calls: seq<Call>, h: nat)
    requires h < |calls| - 1 && calls[h].Enter?
    ensures Kept(calls, h) <==> Kept(calls[..|calls| - 1], h) && !Ends(calls[|calls| - 1], calls[h].owner)
  {
    var n := |calls| - 1;
    assert forall k :: 0 <= k < n ==> calls[..n][k] == calls[k];
  }

  lemma InTimePrefix(calls: seq<Call>, h: nat, ttl: Ttl)
    requires h < |calls| - 1 && calls[h].Enter?
    ensures var n := |calls| - 1;
      InTime(calls, h, ttl)
      <==> (InTime(calls[..n], h, ttl)
            && (Renews(calls[n], calls[h].owner) ==> Punctual(calls[..n], h, calls[n].now, ttl)))
  {
    hide Punctual, Renews;
    var n := |calls| - 1;
    var p := calls[..n];
    forall k | h < k < n
      ensures p[..k] == calls[..k] && p[k] == calls[k]
    {
    }
    assert calls[..n] == p;
  }

  lemma {:induction false} KeptMeansOwned(calls: seq<Call>, h: nat, ttl: Ttl)
    requires h < |calls| && calls[h].Enter? && Kept(calls, h)
    ensures After(calls, ttl).owner == Some(calls[h].owner)
  {
    if h < |calls| - 1 {
      KeptPrefix(calls, h);
      KeptMeansOwned(calls[..|calls| - 1], h, ttl);
    }
  }

  lemma {:induction false} UnbrokenLease(calls: seq<Call>, h: nat, ttl: Ttl)
    requires h < |calls| && calls[h].Enter? && Kept(calls, h) && InTime(calls, h, ttl)
    ensures After(calls, ttl).owner == Some(calls[h].owner)
    ensures After(calls, ttl).due == Grant(calls[LastRenewal(calls, h)], ttl)
  {
    hide Past;
    KeptMeansOwned(calls, h, ttl);
    if h < |calls| - 1 {
      var before := calls[..|calls| - 1];
      KeptPrefix(calls, h);
      InTimePrefix(calls, h, ttl);
      UnbrokenLease(before, h, ttl);
      KeptMeansOwned(before, h, ttl);
      assert before[LastRenewal(before, h)] == calls[LastRenewal(before, h)];
    }
  }

  // What the state knows of the hold that began at h.
  ghost predicate Mirrors(calls: seq<Call>, h: nat, st: State, ttl: Ttl) {
    && Current(calls, h, ttl) && st.owner == Some(calls[h].owner)
    && st.gateUp == GateSince(calls, h) && st.userExited == DroppedSince(calls, h)
    && if InTime(calls, h, ttl) then st.due == Grant(calls[LastRenewal(calls, h)], ttl)
       else Past(calls[|calls| - 1].now, st.due)
  }

  lemma {:induction false} StateMirrorsRun(calls: seq<Call>, ttl: Ttl) returns (h: nat)
    requires Ordered(calls)
    ensures After(calls, ttl).owner.Some? ==> Mirrors(calls, h, After(calls, ttl), ttl)
  {
    h := 0;
    if calls != [] {
      hide Mirrors, Current, Ordered;
      var n := |calls| - 1;
      OrderedPrefix(calls);
      h := StateMirrorsRun(calls[..n], ttl);
      var st := After(calls[..n], ttl);
      if calls[n].Enter? && !(st.owner == Some(calls[n].owner) && !Past(calls[n].now, st.due)) {
        BeginsAnew(calls, st, ttl);
        h := n;
      } else if After(calls, ttl).owner.Some? {
        GoesOn(calls, h, st, ttl);
      }
    }
  }

  lemma BeginsAnew(calls: seq<Call>, st: State, ttl: Ttl)
    requires calls != [] && calls[|calls| - 1].Enter? && st == After(calls[..|calls| - 1], ttl)
    requires !(st.owner == Some(calls[|calls| - 1].owner) && !Past(calls[|calls| - 1].now, st.due))
    ensures Mirrors(calls, |calls| - 1, Step(st, calls[|calls| - 1], ttl), ttl)
  {
    hide Past, Kept, InTime;
    var n := |calls| - 1;
    forall g: nat | Unbroken(calls[..n], g, calls[n].now, ttl)
      ensures calls[..n][g].owner != calls[n].owner
    {
      UnbrokenLease(calls[..n], g, ttl);
    }
    NoneSince(calls, ttl);
  }

  lemma NoneSince(calls: seq<Call>, ttl: Ttl)
    requires calls != [] && calls[|calls| - 1].Enter?
    ensures Kept(calls, |calls| - 1) && InTime(calls, |calls| - 1, ttl)
  {
  }

  lemma GoesOn(calls: seq<Call>, h: nat, st: State, ttl: Ttl)
    requires Ordered(calls) && calls != [] && Mirrors(calls[..|calls| - 1], h, st, ttl)
    requires st == After(calls[..|calls| - 1], ttl)
    requires Step(st, calls[|calls| - 1], ttl).owner.Some?
    requires calls[|calls| - 1].Enter? ==> st.owner == Some(calls[|calls| - 1].owner) && !Past(calls[|calls| - 1].now, st.due)
    ensures Mirrors(calls, h, Step(st, calls[|calls| - 1], ttl), ttl)
  {
    hide Begins, InTime, Kept, Later;
    var n := |calls| - 1;
    var before := calls[..n];
    assert before[h] == calls[h];
    KeptPrefix(calls, h);
    InTimePrefix(calls, h, ttl);
    DropPrefix(calls, h);
    assert !Ends(calls[n], calls[h].owner) && before[n - 1] == calls[n - 1];
    assert before[LastRenewal(before, h)] == calls[LastRenewal(before, h)];
    OrderedPrefix(calls);
    if calls[n].Enter? {
      assert Unbroken(before, h, calls[n].now, ttl);
    }
    StillCurrent(calls, h, ttl);
  }

  lemma DropPrefix(calls: seq<Call>, h: nat)
    requires h < |calls| - 1
    ensures var n := |calls| - 1;
      DroppedSince(calls, h) <==> DroppedSince(calls[..n], h) || (calls[n].SetGate? && !calls[n].up)
  {
    var n := |calls| - 1;
    var before := calls[..n];
    assert forall k :: 0 <= k < n ==> before[k] == calls[k];
  }

  lemma StillCurrent(calls: seq<Call>, h: nat, ttl: Ttl)
    requires calls != [] && Current(calls[..|calls| - 1], h, ttl)
    requires !Ends(calls[|calls| - 1], calls[h].owner)
    requires calls[|calls| - 1].Enter? ==> Unbroken(calls[..|calls| - 1], h, calls[|calls| - 1].now, ttl)
    ensures Current(calls, h, ttl)
  {
    hide Ends, Unbroken;
    var n := |calls| - 1;
    var before := calls[..n];
    KeptPrefix(calls, h);
    forall k | h <= k < n
      ensures before[..k] == calls[..k] && before[k] == calls[k]
    {
    }
    assert !Begins(before, calls[n], ttl) by {
      if calls[n].Enter? {
        assert before[h] == calls[h];
        SameOwner(calls, h);
      }
    }
    assert calls[..n] == before;
  }

  lemma SameOwner(calls: seq<Call>, h: nat)
    requires h < |calls| && calls[h].Enter? && calls[|calls| - 1].Enter? && !Ends(calls[|calls| - 1], calls[h].owner)
    ensures calls[|calls| - 1].owner == calls[h].owner
  {
  }

  // Quiet mode is active exactly when the hold in place has been leased without a gap up
  // to now and the latest gate setting since it began is up.
  lemma ActiveExactly(calls: seq<Call>, ttl: Ttl, now: real)
    requires Ordered(calls) && forall c :: c in calls ==> c.now <= now
    ensures Active(After(calls, ttl), now)
      <==> exists h: nat :: Current(calls, h, ttl) && Unbroken(calls, h, now, ttl) && GateSince(calls, h)
  {
    hide Kept, InTime, Grant, Begins;
    var st := After(calls, ttl);
    var g := StateMirrorsRun(calls, ttl);
    if st.owner.Some? {
      assert calls[|calls| - 1] in calls;
      if Active(st, now) {
        assert Unbroken(calls, g, now, ttl);
      }
    }
    forall h: nat | Current(calls, h, ttl) && Unbroken(calls, h, now, ttl) && GateSince(calls, h)
      ensures Active(st, now)
    {
      UnbrokenLease(calls, h, ttl);
      OneCurrent(calls, g, h, ttl);
    }
  }

  lemma OneCurrent(calls: seq<Call>, g: nat, h: nat, ttl: Ttl)
    requires Current(calls, g, ttl) && Current(calls, h, ttl)
    ensures g == h
  {
    hide Begins, Kept;
  }

  // A hold counts as clean exactly while the gate has not been dropped since it began.
  lemma HeldCleanExactly(calls: seq<Call>, ttl: Ttl)
    requires Ordered(calls)
    ensures var st := After(calls, ttl);
      (st.owner.Some? && !st.userExited) <==> exists h: nat :: Current(calls, h, ttl) && !DroppedSince(calls, h)
  {
    hide Kept, InTime, Grant, Begins, DroppedSince;
    var g := StateMirrorsRun(calls, ttl);
    forall h: nat | Current(calls, h, ttl) && !DroppedSince(calls, h)
      ensures After(calls, ttl).owner.Some? && !After(calls, ttl).userExited
    {
      KeptMeansOwned(calls, h, ttl);
      OneCurrent(calls, g, h, ttl);
    }
  }

  predicate Down(st: State, since: real) {
    st.owner.None? || Past(since, st.due)
  }

  // A lease that has run out stays out: whatever heartbeats, releases and gate settings
  // follow, the gate is down until somebody enters.
  lemma ExpiredStaysDown(calls: seq<Call>, more: seq<Call>, ttl: Ttl, since: real, now: real)
    requires Past(since, After(calls, ttl).due)
    requires forall c :: c in more ==> !c.Enter? && since <= c.now
    requires since <= now
    ensures !Active(After(calls + more, ttl), now)
  {
    hide After;
    RunsDown(calls, more, ttl, since);
  }

  lemma {:induction false} RunsDown(calls: seq<Call>, more: seq<Call>, ttl: Ttl, since: real)
    requires Down(After(calls, ttl), since) && forall c :: c in more ==> !c.Enter? && since <= c.now
    ensures Down(After(calls + more, ttl), since)
  {
    hide Down;
    if more == [] {
      assert calls + more == calls;
    } else {
      var n := |more| - 1;
      assert (calls + more)[..|calls + more| - 1] == calls + more[..n];
      assert more[n] in more;
      Fewer(more, since);
      RunsDown(calls, more[..n], ttl, since);
      StaysDown(After(calls + more[..n], ttl), more[n], ttl, since);
    }
  }

  lemma Fewer(more: seq<Call>, since: real)
    requires more != [] && forall c :: c in more ==> !c.Enter? && since <= c.now
    ensures forall c :: c in more[..|more| - 1] ==> !c.Enter? && since <= c.now
  {
  }

  lemma StaysDown(st: State, c: Call, ttl: Ttl, since: real)
    requires Down(st, since) && !c.Enter? && since <= c.now
    ensures Down(Step(st, c, ttl), since)
  {
  }

  // Somebody other than the holder changes nothing by a heartbeat or a release.
  lemma StrangersChangeNothing(calls: seq<Call>, c: Call, ttl: Ttl, h: nat)
    requires Current(calls, h, ttl)
    requires (c.Heartbeat? && c.owner != calls[h].owner) || (c.Exit? && c.who.Some? && c.who.value != calls[h].owner)
    ensures After(calls + [c], ttl) == After(calls, ttl)
  {
    hide Begins, Kept;
    KeptMeansOwned(calls, h, ttl);
    assert (calls + [c])[..|calls|] == calls;
  }

  // --------------------------------------------------------------- the watchdog

  // The watchdog looks in one locked step and releases, by force, in another.
  predicate LooksExpired(st: State, look: real) {
    st.owner.Some? && Past(look, st.due)
  }

  // A hold that looked expired has a gap in its lease ever after.
  lemma {:induction false} OldHoldIsOver(calls: seq<Call>, more: seq<Call>, h: nat, ttl: Ttl, look: real, now: real)
    requires h < |calls| && Past(look, After(calls, ttl).due) && look <= now
    requires forall c :: c in more ==> look <= c.now
    ensures !Unbroken(calls + more, h, now, ttl)
    decreases |more|
  {
    hide Past, Kept, InTime, Grant, LastRenewal, Renews;
    var all := calls + more;
    if all[h].Enter? && Kept(all, h) && InTime(all, h, ttl) {
      if more == [] {
        assert all == calls;
        UnbrokenLease(calls, h, ttl);
        PastStays(look, now, After(calls, ttl).due);
      } else {
        var n := |more| - 1;
        var before := calls + more[..n];
        assert all[..|all| - 1] == before && all[|all| - 1] == more[n] && more[n] in more;
        FewerLater(more, look);
        KeptPrefix(all, h);
        InTimePrefix(all, h, ttl);
        OldHoldIsOver(calls, more[..n], h, ttl, look, more[n].now);
        OldHoldIsOver(calls, more[..n], h, ttl, look, now);
        SameRenewal(all, h);
      }
    }
  }

  lemma FewerLater(more: seq<Call>, look: real)
    requires more != [] && forall c :: c in more ==> look <= c.now
    ensures forall c :: c in more[..|more| - 1] ==> look <= c.now
  {
  }

  lemma PastStays(early: real, late: real, due: Due)
    requires Past(early, due) && early <= late
    ensures Past(late, due)
  {
  }

  lemma SameRenewal(calls: seq<Call>, h: nat)
    requires h < |calls| - 1 && calls[h].Enter? && !Renews(calls[|calls| - 1], calls[h].owner)
    ensures LastRenewal(calls, h) == LastRenewal(calls[..|calls| - 1], h)
    ensures calls[LastRenewal(calls, h)] == calls[..|calls| - 1][LastRenewal(calls, h)]
  {
  }

  // Exactly: whatever runs between look and release, the release puts an end to quiet mode
  // that was active if and only if a hold entered after the look is then in place, leased
  // without a gap and with its gate up.
  lemma WatchdogEndsANewHoldExactly(calls: seq<Call>, more: seq<Call>, ttl: Ttl, look: real, release: real)
    requires Ordered(calls + more) && LooksExpired(After(calls, ttl), look) && look <= release
    requires forall c :: c in calls ==> c.now <= look
    requires forall c :: c in more ==> look <= c.now <= release
    ensures (Active(After(calls + more, ttl), release)
             && !Active(After(calls + more + [Exit(None, release)], ttl), release))
      <==> exists h: nat :: |calls| <= h && Current(calls + more, h, ttl)
                            && Unbroken(calls + more, h, release, ttl) && GateSince(calls + more, h)
  {
    hide Past, Unbroken, Begins, Current, GateSince, Ordered;
    var all := calls + more;
    ActiveExactly(all, ttl, release);
    ForcedExitReleases(all, ttl, release);
    forall h: nat | h < |calls|
      ensures !Unbroken(all, h, release, ttl)
    {
      OldHoldIsOver(calls, more, h, ttl, look, release);
    }
  }

  lemma ForcedExitReleases(calls: seq<Call>, ttl: Ttl, now: real)
    ensures !Active(After(calls + [Exit(None, now)], ttl), now)
  {
    assert (calls + [Exit(None, now)])[..|calls|] == calls;
  }

  // So any entry between the two steps is undone while its lease runs.
  lemma WatchdogMayEndANewHold(calls: seq<Call>, ttl: Ttl, look: real, owner: string, own: Option<Ttl>, entered: real,
                               release: real)
    requires LooksExpired(After(calls, ttl), look) && look <= entered <= release
    requires !Past(release, Later(entered, if own.Some? then own.value else ttl))
    ensures var all := calls + [Enter(owner, own, entered)];
      Active(After(all, ttl), release) && !Active(After(all + [Exit(None, release)], ttl), release)
  {
    var all := calls + [Enter(owner, own, entered)];
    assert all[..|calls|] == calls;
    ForcedExitReleases(all, ttl, release);
  }

  // --------------------------------------------------------------- how long a lease lasts

  // A hold that begins at t is active up to and including the end of its lease, and for
  // ever without one; a heartbeat at t makes it last the manager's lease from t on.
  lemma LeaseLastsExactly(calls: seq<Call>, ttl: Ttl, owner: string, t: real, now: real)
    ensures forall s: real :: After(calls, ttl).owner != Some(owner) ==>
      (Active(After(calls + [Enter(owner, Some(Seconds(s)), t)], ttl), now) <==> now <= t + s)
    ensures After(calls, ttl).owner != Some(owner) ==> Active(After(calls + [Enter(owner, Some(Forever), t)], ttl), now)
    ensures Active(After(calls, ttl), t) && After(calls, ttl).owner == Some(owner) && ttl.Seconds? ==>
      (Active(After(calls + [Heartbeat(owner, t)], ttl), now) <==> now <= t + ttl.s)
  {
    assert forall c: Call :: (calls + [c])[..|calls|] == calls && (calls + [c])[|calls|] == c;
  }
}
