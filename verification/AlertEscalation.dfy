/** What becomes of an escalation: the severity of every open occurrence, the mark that
    outlives it, and the calls the program really makes. */
module AlertEscalation {
  import opened Text
  import opened AlertStore
  import opened AlertTable

  // --------------------------------------------------------------- the rows of one key

  // Every report of the key carries the severity of its policy, every escalation the level
  // of its rule.
  predicate Policed(ticks: seq<Tick>, key: string, own: Severity, level: Severity) {
    forall i :: 0 <= i < |ticks| ==> PolicedCall(ticks[i].call, key, own, level)
  }

  predicate PolicedCall(call: Call, key: string, own: Severity, level: Severity) {
    && ((call.RecordFire? || call.RecordPending?) && call.r.key == key ==> call.r.severity == own)
    && (call.Escalate? && call.key == key ==> call.level == level)
  }

  predicate HasRow(t: Table, key: string) {
    Find(t.rows, key) < |t.rows|
  }

  predicate IsOpen(t: Table, key: string) {
    HasRow(t, key) && t.rows[Find(t.rows, key)].status == Active
  }

  predicate Raises(call: Call, key: string) {
    call.Escalate? && call.key == key
  }

  // A rule has been applied to the key's alert, at any time.
  function EverRaised(ticks: seq<Tick>, key: string): bool {
    if ticks == [] then false
    else
      var front, call := ticks[..|ticks| - 1], ticks[|ticks| - 1].call;
      EverRaised(front, key) || (Raises(call, key) && HasRow(Run(front), key))
  }

  // A rule has been applied to the key's present occurrence.
  function RaisedNow(ticks: seq<Tick>, key: string): bool {
    if ticks == [] then false
    else
      var front, call := ticks[..|ticks| - 1], ticks[|ticks| - 1].call;
      !Begins(Run(front), call, key) && (RaisedNow(front, key) || (Raises(call, key) && IsOpen(Run(front), key)))
  }

  // A rule had been applied before the present occurrence began.
  function RaisedBefore(ticks: seq<Tick>, key: string): bool {
    if ticks == [] then false
    else
      var front, call := ticks[..|ticks| - 1], ticks[|ticks| - 1].call;
      if Begins(Run(front), call, key) then EverRaised(front, key) else RaisedBefore(front, key)
  }

  // The severity that the present occurrence calls for by itself.
  function OwnSeverity(ticks: seq<Tick>, key: string, own: Severity, level: Severity): Severity {
    if RaisedNow(ticks, key) then level else own
  }

  // A rule of a lower level than the policy does nothing to a row that is marked already.
  predicate Blocked(ticks: seq<Tick>, key: string, own: Severity, level: Severity) {
    RaisedNow(ticks, key) && RaisedBefore(ticks, key) && Rank(level) < Rank(own)
  }

  // What a row knows of the past: whether a rule was ever applied, in the present
  // occurrence, and before it.
  predicate Knows(row: Row, ever: bool, inThis: bool, before: bool, own: Severity, level: Severity) {
    && (row.escalated <==> ever)
    && row.baseline == (if ever then Some(own) else None)
    && (!row.escalated ==> row.severity == own)
    && (row.severity == own || row.severity == level)
    && (row.status == Active ==>
          (ever <==> inThis || before)
          && row.severity == (if inThis && !(before && Rank(level) < Rank(own)) then level else own))
  }

  lemma RowStepKnows(row: Row, call: Call, now: int, ever: bool, inThis: bool, before: bool, own: Severity, level: Severity)
    requires Knows(row, ever, inThis, before, own, level) && PolicedCall(call, row.key, own, level)
    ensures var begins := FiredHere(call, row.key) && row.status != Active;
      Knows(RowStep(row, call, now), ever || Raises(call, row.key),
            !begins && (inThis || (Raises(call, row.key) && row.status == Active)),
            if begins then ever else before, own, level)
  {
    hide Notifies, Rank;
    RanksTell(own, level);
  }

  lemma FreshRowKnows(r: Report, status: Phase, count: nat, now: int, level: Severity)
    requires status != Resolved
    ensures Knows(FreshRow(r, status, count, now), false, false, false, r.severity, level)
  {
  }

  ghost predicate RowKnows(t: Table, ticks: seq<Tick>, key: string, own: Severity, level: Severity) {
    if HasRow(t, key)
    then Knows(t.rows[Find(t.rows, key)], EverRaised(ticks, key), RaisedNow(ticks, key), RaisedBefore(ticks, key), own, level)
    else !EverRaised(ticks, key) && !RaisedNow(ticks, key)
  }

  lemma {:induction false} RunKnows(ticks: seq<Tick>, key: string, own: Severity, level: Severity)
    requires Policed(ticks, key, own, level)
    ensures RowKnows(Run(ticks), ticks, key, own, level)
  {
    hide Step, PolicedCall, RowKnows;
    if ticks == [] {
      NothingKnown(key, own, level);
    } else {
      var n := |ticks| - 1;
      RunKnows(ticks[..n], key, own, level);
      FiresAreConserved(ticks[..n], key);
      assert PolicedCall(ticks[n].call, key, own, level);
      StepKnows(ticks, key, own, level);
    }
  }

  lemma NothingKnown(key: string, own: Severity, level: Severity)
    ensures RowKnows(Table([], []), [], key, own, level)
  {
  }

  lemma {:induction false} StepKnows(ticks: seq<Tick>, key: string, own: Severity, level: Severity)
    requires ticks != [] && OneRowPerKey(Run(ticks[..|ticks| - 1]).rows)
    requires PolicedCall(ticks[|ticks| - 1].call, key, own, level)
    requires RowKnows(Run(ticks[..|ticks| - 1]), ticks[..|ticks| - 1], key, own, level)
    ensures RowKnows(Run(ticks), ticks, key, own, level)
  {
    hide Step, Knows, RowStep, FreshRow;
    var front, tick := ticks[..|ticks| - 1], ticks[|ticks| - 1];
    var t := Run(front);
    RowAfter(t, tick.call, tick.now, key);
    if HasRow(t, key) {
      RowStepKnows(t.rows[Find(t.rows, key)], tick.call, tick.now, EverRaised(front, key), RaisedNow(front, key),
                   RaisedBefore(front, key), own, level);
    } else {
      if tick.call.RecordFire? || tick.call.RecordPending? {
        FreshRowKnows(tick.call.r, Active, 1, tick.now, level);
        FreshRowKnows(tick.call.r, Pending, 0, tick.now, level);
      }
      NotRaisedBefore(front, key);
    }
  }

  lemma {:induction false} NotRaisedBefore(ticks: seq<Tick>, key: string)
    requires !EverRaised(ticks, key)
    ensures !RaisedBefore(ticks, key)
  {
    hide Run, Begins, HasRow;
    if ticks != [] {
      NotRaisedBefore(ticks[..|ticks| - 1], key);
    }
  }

  lemma RanksTell(a: Severity, b: Severity)
    ensures Rank(a) == Rank(b) ==> a == b
  {
  }

  // Exactly: the severity of an open alert is the one its present occurrence calls for,
  // unless a rule of a lower level than the policy met a mark from before.
  lemma SeverityIsItsOwnExactly(ticks: seq<Tick>, key: string, own: Severity, level: Severity)
    requires Policed(ticks, key, own, level) && IsOpen(Run(ticks), key)
    ensures var row := Run(ticks).rows[Find(Run(ticks).rows, key)];
      row.severity == OwnSeverity(ticks, key, own, level) <==> !Blocked(ticks, key, own, level)
  {
    hide Run, EverRaised, RaisedNow, RaisedBefore, Rank;
    RanksTell(own, level);
    RunKnows(ticks, key, own, level);
  }

  // Exactly: an open alert differs in severity from its latest report if and only if a
  // rule of another level was applied in this very occurrence, and not in vain.
  lemma SeverityDiffersExactly(ticks: seq<Tick>, key: string, own: Severity, level: Severity)
    requires Policed(ticks, key, own, level) && IsOpen(Run(ticks), key)
    ensures var row := Run(ticks).rows[Find(Run(ticks).rows, key)];
      row.severity != own <==> level != own && RaisedNow(ticks, key) && !Blocked(ticks, key, own, level)
  {
    hide Run, EverRaised, RaisedNow, RaisedBefore;
    RunKnows(ticks, key, own, level);
  }

  // What does outlive an occurrence: the mark and the baseline, from the first escalation
  // on. So an open alert is marked without a cause of its own if and only if a rule was
  // applied before its occurrence and none in it.
  lemma MarkOutlivesOccurrence(ticks: seq<Tick>, key: string, own: Severity, level: Severity)
    requires Policed(ticks, key, own, level) && HasRow(Run(ticks), key)
    ensures var row := Run(ticks).rows[Find(Run(ticks).rows, key)];
      && (row.escalated <==> EverRaised(ticks, key))
      && row.baseline == (if EverRaised(ticks, key) then Some(own) else None)
      && (row.status == Active ==> (row.escalated <==> RaisedBefore(ticks, key) || RaisedNow(ticks, key)))
  {
    hide Run, EverRaised, RaisedNow, RaisedBefore, Blocked;
    RunKnows(ticks, key, own, level);
  }

  // --------------------------------------------------------------- the calls of the program

  // What happens to the alerts: an event is evaluated, or an operator, a recovery or the
  // sweeper acts on them.
  datatype Happening =
    | Occurs(r: Report, target: Option<string>, cooldown: int, now: int)
    | Handled(call: Call, now: int)

  // By event type: its policy, and its escalation rule if it has one.
  type Policies = map<string, (Policy, Option<Rule>)>

  // dedup_key_for
  function KeyOf(kind: string, scope: string): string {
    kind + "::" + scope
  }

  // Keys are built from type and scope, no type holds a colon, and severities change by
  // evaluation only.
  predicate Genuine(hs: seq<Happening>, policies: Policies) {
    && (forall k :: k in policies ==> ':' !in k)
    && (forall i :: 0 <= i < |hs| && hs[i].Occurs? ==> hs[i].r.key == KeyOf(hs[i].r.kind, hs[i].r.scope))
    && (forall i :: 0 <= i < |hs| && hs[i].Handled? ==>
          !hs[i].call.RecordFire? && !hs[i].call.RecordPending? && !hs[i].call.Escalate?)
  }

  function PolicyOf(kind: string, policies: Policies): Option<Policy> {
    if kind in policies then Some(policies[kind].0) else None
  }

  function RuleOf(kind: string, policies: Policies): Option<Rule> {
    if kind in policies then policies[kind].1 else None
  }

  // The calls that one evaluation makes, one by one.
  function CallsOf(t: Table, h: Happening, policies: Policies): seq<Tick> {
    match h
    case Handled(call, now) => [Tick(call, now)]
    case Occurs(r, target, cooldown, now) =>
      var recovered := if target.Some? then [Tick(Resolve(target.value, r.scope, r.ts), now)] else [];
      var t0 := AfterRecovery(t, target, r, now);
      if r.kind !in policies then recovered
      else
        var policy := policies[r.kind].0;
        var report := r.(severity := policy.severity);
        var t1 := Step(t0, RecordPending(report), now);
        var waited := recovered + [Tick(RecordPending(report), now)];
        if !Due(t1, report, policy) then waited
        else
          var t2 := Step(t1, RecordFire(report, cooldown), now);
          var fired := waited + [Tick(RecordFire(report, cooldown), now)];
          var rule := policies[r.kind].1;
          if rule.None? || !Met(t2, report, rule.value) then fired
          else fired + [Tick(Escalate(report.key, rule.value.level), now)]
  }

  function Program(hs: seq<Happening>, policies: Policies): seq<Tick> {
    if hs == [] then []
    else
      var before := Program(hs[..|hs| - 1], policies);
      before + CallsOf(Run(before), hs[|hs| - 1], policies)
  }

  lemma {:induction false} RunSnoc(ticks: seq<Tick>, tick: Tick)
    ensures Run(ticks + [tick]) == Step(Run(ticks), tick.call, tick.now)
  {
    hide Step;
    assert (ticks + [tick])[..|ticks|] == ticks;
  }

  // The calls add up to what evaluating the event does.
  lemma {:induction false} CallsAreEvaluation(ticks: seq<Tick>, h: Happening, policies: Policies)
    requires h.Occurs?
    ensures Run(ticks + CallsOf(Run(ticks), h, policies))
         == Evaluated(Run(ticks), h.target, PolicyOf(h.r.kind, policies), RuleOf(h.r.kind, policies), h.r, h.cooldown, h.now)
  {
    hide Step, Run, Due, Met;
    var r, now := h.r, h.now;
    var t := Run(ticks);
    var recovered := if h.target.Some? then [Tick(Resolve(h.target.value, r.scope, r.ts), now)] else [];
    if h.target.Some? {
      RunSnoc(ticks, recovered[0]);
      assert ticks + recovered == ticks + [recovered[0]];
    } else {
      assert ticks + recovered == ticks;
    }
    if r.kind in policies {
      var report := r.(severity := policies[r.kind].0.severity);
      var pending, fire := Tick(RecordPending(report), now), Tick(RecordFire(report, h.cooldown), now);
      RunSnoc(ticks + recovered, pending);
      RunSnoc(ticks + recovered + [pending], fire);
      assert ticks + (recovered + [pending]) == ticks + recovered + [pending];
      assert ticks + (recovered + [pending] + [fire]) == ticks + recovered + [pending] + [fire];
      var rule := policies[r.kind].1;
      if rule.Some? {
        var raise := Tick(Escalate(report.key, rule.value.level), now);
        RunSnoc(ticks + recovered + [pending] + [fire], raise);
        assert ticks + (recovered + [pending] + [fire] + [raise]) == ticks + recovered + [pending] + [fire] + [raise];
      }
    }
  }

  function OwnOf(kind: string, policies: Policies): Severity
    requires kind in policies
  {
    policies[kind].0.severity
  }

  function LevelOf(kind: string, policies: Policies): Severity
    requires kind in policies
  {
    if policies[kind].1.Some? then policies[kind].1.value.level else OwnOf(kind, policies)
  }

  // A key tells the type it belongs to.
  lemma KeyTellsKind(kind: string, scope: string, other: string, place: string)
    requires ':' !in kind && ':' !in other && KeyOf(kind, scope) == KeyOf(other, place)
    ensures kind == other && scope == place
  {
    var key := KeyOf(kind, scope);
    assert key[..|kind|] == kind && key[..|other|] == other;
    IndexOfIs(key, ':', |kind|);
    IndexOfIs(key, ':', |other|);
    assert key[|kind| + 2..] == scope && key[|other| + 2..] == place;
  }

  lemma {:induction false} CallsArePoliced(t: Table, h: Happening, policies: Policies, kind: string, scope: string)
    requires Genuine([h], policies) && kind in policies
    ensures Policed(CallsOf(t, h, policies), KeyOf(kind, scope), OwnOf(kind, policies), LevelOf(kind, policies))
  {
    hide Step, KeyOf, AfterRecovery, Due, Met;
    assert [h][0] == h;
    if h.Occurs? && h.r.kind in policies && KeyOf(h.r.kind, h.r.scope) == KeyOf(kind, scope) {
      KeyTellsKind(h.r.kind, h.r.scope, kind, scope);
    }
  }

  lemma {:induction false} ProgramIsPoliced(hs: seq<Happening>, policies: Policies, kind: string, scope: string)
    requires Genuine(hs, policies) && kind in policies
    ensures Policed(Program(hs, policies), KeyOf(kind, scope), OwnOf(kind, policies), LevelOf(kind, policies))
  {
    hide CallsOf, PolicedCall, KeyOf, OwnOf, LevelOf, Run;
    if hs != [] {
      var n := |hs| - 1;
      assert hs[n] == [hs[n]][0];
      ProgramIsPoliced(hs[..n], policies, kind, scope);
      CallsArePoliced(Run(Program(hs[..n], policies)), hs[n], policies, kind, scope);
    }
  }

  // In every run of the program an open alert has the severity of its policy, unless its
  // rule was applied in this very occurrence and could raise it; the mark and the baseline
  // stay from the first escalation on, whatever closes in between.
  lemma EscalationInTheProgram(hs: seq<Happening>, policies: Policies, kind: string, scope: string)
    requires Genuine(hs, policies) && kind in policies
    requires IsOpen(Run(Program(hs, policies)), KeyOf(kind, scope))
    ensures var ticks, key, own, level := Program(hs, policies), KeyOf(kind, scope), OwnOf(kind, policies), LevelOf(kind, policies);
      var row := Run(ticks).rows[Find(Run(ticks).rows, key)];
      && (row.severity != own <==> level != own && RaisedNow(ticks, key) && !Blocked(ticks, key, own, level))
      && (row.escalated <==> RaisedBefore(ticks, key) || RaisedNow(ticks, key))
      && row.baseline == (if EverRaised(ticks, key) then Some(own) else None)
  {
    hide Run, EverRaised, RaisedNow, RaisedBefore, Blocked, Program, Policed, KeyOf, OwnOf, LevelOf;
    ProgramIsPoliced(hs, policies, kind, scope);
    SeverityDiffersExactly(Program(hs, policies), KeyOf(kind, scope), OwnOf(kind, policies), LevelOf(kind, policies));
    MarkOutlivesOccurrence(Program(hs, policies), KeyOf(kind, scope), OwnOf(kind, policies), LevelOf(kind, policies));
  }

  // ------------------------------------------------------------ a mark that outlives its cause

  // The shipped policy and rule for services that restart over and over.
  const RESTART_POLICY := Policy(Error, 0, Some(120), false)
  const RESTART_RULE := Rule(300, 3, Critical)

  function Shipped(kind: string): Policies {
    map[kind := (RESTART_POLICY, Some(RESTART_RULE))]
  }

  function Restart(kind: string, scope: string, ts: int): Happening {
    Occurs(Report(KeyOf(kind, scope), ts, "", kind, scope, Warning), None, 300, ts)
  }

  // Three restarts, the sweeper's resolution, and one restart later.
  function Storm(kind: string, scope: string): seq<Happening> {
    [Restart(kind, scope, 0), Restart(kind, scope, 10), Restart(kind, scope, 20),
     Handled(Resolve(kind, scope, 150), 150), Restart(kind, scope, 400)]
  }

  // What counts of a row here.
  predicate Stands(row: Row, key: string, phase: Phase, count: nat, first: int, severity: Severity, raised: bool) {
    && row.key == key && row.status == phase && row.count == count && row.first == first && row.severity == severity
    && row.escalated == raised && row.baseline == (if raised then Some(Error) else None) && row.pendingSince == None
  }

  lemma AloneStep(t: Table, row: Row, call: Call, now: int)
    requires t.rows == [row] && (call.RecordFire? || call.RecordPending? ==> call.r.key == row.key)
    ensures Step(t, call, now).rows == [RowStep(row, call, now)]
  {
    hide RowStep, FreshRow;
    assert Find(t.rows, row.key) == 0;
    assert MapRows(t.rows[1..], call, now) == [];
    assert NewRow(t.rows, call, now) == [] || !(call.RecordFire? || call.RecordPending?);
  }

  lemma FirstRestart(t: Table, kind: string, scope: string, ts: int)
    requires t.rows == []
    ensures var after := Evaluated(t, None, Some(RESTART_POLICY), Some(RESTART_RULE), Restart(kind, scope, ts).r, 300, ts);
      |after.rows| == 1 && Stands(after.rows[0], KeyOf(kind, scope), Active, 1, ts, Error, false)
      && after.rows[0].kind == kind && after.rows[0].scope == scope
  {
    hide Step, KeyOf, Notifies;
    var r := Restart(kind, scope, ts).r.(severity := Error);
    var row := FreshRow(r, Pending, 0, ts);
    assert Step(t, RecordPending(r), ts).rows == [row] by {
      FirstReport(t, r, ts);
    }
    AloneStep(Step(t, RecordPending(r), ts), row, RecordFire(r, 300), ts);
  }

  lemma FirstReport(t: Table, r: Report, now: int)
    requires t.rows == []
    ensures Step(t, RecordPending(r), now).rows == [FreshRow(r, Pending, 0, now)]
  {
  }

  // A restart at a row of its own key, before and after the third of an occurrence.
  lemma NextRestart(t: Table, row: Row, kind: string, scope: string, ts: int)
    requires t.rows == [row] && row.key == KeyOf(kind, scope) && row.pendingSince == None
    requires row.baseline == if row.escalated then Some(Error) else None
    requires row.status == Active ==> row.severity == Error && !row.escalated && ts - row.first <= 300
    ensures var after := Evaluated(t, None, Some(RESTART_POLICY), Some(RESTART_RULE), Restart(kind, scope, ts).r, 300, ts);
      var count := if row.status == Active then row.count + 1 else 1;
      |after.rows| == 1
      && Stands(after.rows[0], KeyOf(kind, scope), Active, count, if row.status == Active then row.first else ts,
                if count >= 3 then Critical else Error, row.escalated || count >= 3)
      && after.rows[0].kind == kind && after.rows[0].scope == scope
  {
    hide Step, KeyOf, Notifies;
    var r := Restart(kind, scope, ts).r.(severity := Error);
    AloneStep(t, row, RecordPending(r), ts);
    var waiting := RowStep(row, RecordPending(r), ts);
    var t1 := Step(t, RecordPending(r), ts);
    AloneStep(t1, waiting, RecordFire(r, 300), ts);
    var t2 := Step(t1, RecordFire(r, 300), ts);
    AloneStep(t2, RowStep(waiting, RecordFire(r, 300), ts), Escalate(r.key, Critical), ts);
  }

  lemma {:induction false} ProgramSnoc(hs: seq<Happening>, h: Happening, policies: Policies)
    ensures Program(hs + [h], policies) == Program(hs, policies) + CallsOf(Run(Program(hs, policies)), h, policies)
    ensures h.Occurs? ==>
      Run(Program(hs + [h], policies)) == Evaluated(Run(Program(hs, policies)), h.target, PolicyOf(h.r.kind, policies),
                                                    RuleOf(h.r.kind, policies), h.r, h.cooldown, h.now)
    ensures h.Handled? ==> Run(Program(hs + [h], policies)) == Step(Run(Program(hs, policies)), h.call, h.now)
  {
    hide Run, Step, CallsOf, Evaluated;
    assert (hs + [h])[..|hs|] == hs;
    if h.Occurs? {
      CallsAreEvaluation(Program(hs, policies), h, policies);
    } else {
      HandledIsOneCall(Run(Program(hs, policies)), h, policies);
      RunSnoc(Program(hs, policies), Tick(h.call, h.now));
    }
  }

  lemma HandledIsOneCall(t: Table, h: Happening, policies: Policies)
    requires h.Handled?
    ensures CallsOf(t, h, policies) == [Tick(h.call, h.now)]
  {
  }

  // The program does reach such a mark: with the shipped policy, a restart after a storm
  // that was resolved opens an alert of the policy's own severity, counting one fire, that
  // no rule was applied to and that is marked as escalated all the same.
  lemma {:induction false} MarkIsReached(kind: string, scope: string)
    requires ':' !in kind
    ensures Genuine(Storm(kind, scope), Shipped(kind))
    ensures var ticks, key := Program(Storm(kind, scope), Shipped(kind)), KeyOf(kind, scope);
      && IsOpen(Run(ticks), key) && !RaisedNow(ticks, key) && RaisedBefore(ticks, key)
      && Stands(Run(ticks).rows[Find(Run(ticks).rows, key)], key, Active, 1, 400, Error, true)
  {
    hide Run, Program, Evaluated, Step, CallsOf, KeyOf, RaisedNow, RaisedBefore, EverRaised, Blocked;
    var hs, policies := Storm(kind, scope), Shipped(kind);
    assert hs[..0] + [hs[0]] == hs[..1] && hs[..1] + [hs[1]] == hs[..2] && hs[..2] + [hs[2]] == hs[..3];
    assert hs[..3] + [hs[3]] == hs[..4] && hs[..4] + [hs[4]] == hs;
    NothingRan(policies);
    ProgramSnoc(hs[..0], hs[0], policies);
    FirstRestart(Run(Program(hs[..0], policies)), kind, scope, 0);
    var t1 := Run(Program(hs[..1], policies));
    ProgramSnoc(hs[..1], hs[1], policies);
    NextRestart(t1, t1.rows[0], kind, scope, 10);
    var t2 := Run(Program(hs[..2], policies));
    ProgramSnoc(hs[..2], hs[2], policies);
    NextRestart(t2, t2.rows[0], kind, scope, 20);
    var t3 := Run(Program(hs[..3], policies));
    ProgramSnoc(hs[..3], hs[3], policies);
    AloneStep(t3, t3.rows[0], Resolve(kind, scope, 150), 150);
    var t4 := Run(Program(hs[..4], policies));
    ProgramSnoc(hs[..4], hs[4], policies);
    NextRestart(t4, t4.rows[0], kind, scope, 400);
    var row := Run(Program(hs, policies)).rows[0];
    assert Run(Program(hs, policies)).rows == [row] && row.key == KeyOf(kind, scope);
    StormIsGenuine(kind, scope);
    EscalationInTheProgram(hs, policies, kind, scope);
    assert !Blocked(Program(hs, policies), KeyOf(kind, scope), Error, Critical) by {
      NeverBlocked(Program(hs, policies), KeyOf(kind, scope));
    }
  }

  lemma StormIsGenuine(kind: string, scope: string)
    requires ':' !in kind
    ensures Genuine(Storm(kind, scope), Shipped(kind))
  {
    hide KeyOf;
  }

  lemma NeverBlocked(ticks: seq<Tick>, key: string)
    ensures !Blocked(ticks, key, Error, Critical)
  {
  }

  lemma NothingRan(policies: Policies)
    ensures Program([], policies) == [] && Run([]) == Table([], [])
  {
  }
}
