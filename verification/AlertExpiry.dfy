/** The lease sweeper: active alerts whose lease was not renewed are resolved. */
module AlertExpiry {
  import opened Text
  import opened AlertStore

  // An active row whose policy lease ran out. Kinds without a lease are not in the map.
  predicate Expired(row: Row, ttl: map<string, int>, now: int) {
    row.status == Active && row.kind in ttl && ttl[row.kind] != 0 && now - row.lastSeen > ttl[row.kind]
  }

  // The resolutions that one sweep issues, in the order of the rows it saw.
  function Sweep(rows: seq<Row>, ttl: map<string, int>, now: int): seq<Call> {
    if rows == [] then []
    else
      var row := rows[|rows| - 1];
      Sweep(rows[..|rows| - 1], ttl, now) + if Expired(row, ttl, now) then [Resolve(row.kind, row.scope, now)] else []
  }

  function Calls(t: Table, calls: seq<Call>, now: int): Table {
    if calls == [] then t else Step(Calls(t, calls[..|calls| - 1], now), calls[|calls| - 1], now)
  }

  // Some call of the sweep resolves the row.
  predicate Hit(calls: seq<Call>, row: Row) {
    exists c :: c in calls && c.Resolve? && Concerns(row, c.kind, c.scope)
  }

  predicate Resolutions(calls: seq<Call>, now: int) {
    forall c :: c in calls ==> c.Resolve? && c.ts == now
  }

  lemma {:induction false} ResolvedTogether(t: Table, calls: seq<Call>, now: int)
    requires Resolutions(calls, now)
    ensures var after := Calls(t, calls, now).rows;
      |after| == |t.rows|
      && forall i :: 0 <= i < |t.rows| ==> after[i] == if Hit(calls, t.rows[i]) then Closed(t.rows[i], now, now) else t.rows[i]
  {
    hide Concerns, Closed, Hit, Resolutions;
    if calls == [] {
      forall row
        ensures !Hit(calls, row)
      {
        HitSnoc([], Resolve("", "", now), row);
      }
    } else {
      var n := |calls| - 1;
      assert calls[..n] + [calls[n]] == calls;
      ResolutionsSnoc(calls[..n], calls[n], now);
      ResolvedTogether(t, calls[..n], now);
      var before := Calls(t, calls[..n], now);
      MapRowsFacts(before.rows, calls[n], now, "");
      assert Step(before, calls[n], now).rows == MapRows(before.rows, calls[n], now);
      forall i | 0 <= i < |t.rows|
        ensures RowStep(before.rows[i], calls[n], now)
             == if Hit(calls, t.rows[i]) then Closed(t.rows[i], now, now) else t.rows[i]
      {
        HitSnoc(calls[..n], calls[n], t.rows[i]);
        ClosedIsDone(t.rows[i], calls[n].kind, calls[n].scope, now);
      }
    }
  }

  lemma ResolutionsSnoc(calls: seq<Call>, c: Call, now: int)
    requires Resolutions(calls + [c], now)
    ensures Resolutions(calls, now) && c.Resolve? && c.ts == now
  {
    assert (calls + [c])[|calls|] == c;
    forall d | d in calls
      ensures d in calls + [c]
    {
    }
  }

  lemma HitSnoc(calls: seq<Call>, c: Call, row: Row)
    ensures Hit(calls + [c], row) <==> Hit(calls, row) || (c.Resolve? && Concerns(row, c.kind, c.scope))
    ensures calls == [] ==> !Hit(calls, row)
  {
    hide Concerns;
    var more := calls + [c];
    assert more[|calls|] == c;
    assert forall d :: d in more <==> d in calls || d == c;
  }

  lemma ClosedIsDone(row: Row, kind: string, scope: string, now: int)
    ensures !Concerns(Closed(row, now, now), kind, scope)
  {
  }

  lemma {:induction false} SweepHits(rows: seq<Row>, ttl: map<string, int>, now: int, row: Row)
    ensures Resolutions(Sweep(rows, ttl, now), now)
    ensures Hit(Sweep(rows, ttl, now), row)
      <==> row.status == Active && exists s: Row :: s in rows && Expired(s, ttl, now) && s.kind == row.kind && s.scope == row.scope
  {
    hide Expired;
    if rows == [] {
    } else {
      var n := |rows| - 1;
      var s := rows[n];
      SweepHits(rows[..n], ttl, now, row);
      HitSnoc(Sweep(rows[..n], ttl, now), Resolve(s.kind, s.scope, now), row);
      assert rows == rows[..n] + [s];
      assert forall r :: r in rows <==> r in rows[..n] || r == s;
      if !Expired(s, ttl, now) {
        assert Sweep(rows, ttl, now) == Sweep(rows[..n], ttl, now);
      }
    }
  }

  // One sweep closes exactly the active rows that share their kind and scope with an
  // expired one, leaves every other row as it was, and leaves no expired row behind.
  lemma SweepIsExact(t: Table, ttl: map<string, int>, now: int)
    ensures var after := Calls(t, Sweep(t.rows, ttl, now), now).rows;
      && |after| == |t.rows|
      && (forall i :: 0 <= i < |t.rows| ==>
            after[i] == if t.rows[i].status == Active
                           && (exists s: Row :: s in t.rows && Expired(s, ttl, now) && s.kind == t.rows[i].kind && s.scope == t.rows[i].scope)
                        then Closed(t.rows[i], now, now) else t.rows[i])
      && (forall row :: row in after ==> !Expired(row, ttl, now))
  {
    hide Sweep, Calls, Hit, Resolutions;
    var calls := Sweep(t.rows, ttl, now);
    var after := Calls(t, calls, now).rows;
    forall row
      ensures Resolutions(calls, now)
      ensures Hit(calls, row)
        <==> row.status == Active && exists s: Row :: s in t.rows && Expired(s, ttl, now) && s.kind == row.kind && s.scope == row.scope
    {
      SweepHits(t.rows, ttl, now, row);
    }
    if t.rows != [] {
      SweepHits(t.rows, ttl, now, t.rows[0]);
    } else {
      SweepOfNothing(ttl, now);
    }
    ResolvedTogether(t, calls, now);
    forall row | row in after
      ensures !Expired(row, ttl, now)
    {
      var i :| 0 <= i < |after| && after[i] == row;
      if Expired(t.rows[i], ttl, now) {
        assert t.rows[i] in t.rows;
      }
    }
  }

  lemma SweepOfNothing(ttl: map<string, int>, now: int)
    ensures Resolutions(Sweep([], ttl, now), now)
  {
  }

  // --------------------------------------------------------------- how many were closed

  function ActiveRows(rows: seq<Row>): nat {
    if rows == [] then 0 else (if rows[0].status == Active then 1 else 0) + ActiveRows(rows[1..])
  }

  function Matching(rows: seq<Row>, kind: string, scope: string): nat {
    if rows == [] then 0 else (if Concerns(rows[0], kind, scope) then 1 else 0) + Matching(rows[1..], kind, scope)
  }

  // A resolution leaves as many active rows fewer as it matched.
  lemma {:induction false} ResolvingCloses(rows: seq<Row>, kind: string, scope: string, ts: int, now: int)
    ensures ActiveRows(MapRows(rows, Resolve(kind, scope, ts), now)) + Matching(rows, kind, scope) == ActiveRows(rows)
  {
    if rows != [] {
      ResolvingCloses(rows[1..], kind, scope, ts, now);
      var rest := MapRows(rows[1..], Resolve(kind, scope, ts), now);
      assert ([RowStep(rows[0], Resolve(kind, scope, ts), now)] + rest)[1..] == rest;
    }
  }

  lemma {:induction false} MatchingIsSome(rows: seq<Row>, kind: string, scope: string)
    ensures Matching(rows, kind, scope) > 0 <==> exists row :: row in rows && Concerns(row, kind, scope)
  {
    hide Concerns;
    if rows != [] {
      MatchingIsSome(rows[1..], kind, scope);
      assert rows == [rows[0]] + rows[1..];
      assert forall r :: r in rows <==> r == rows[0] || r in rows[1..];
    }
  }
}
