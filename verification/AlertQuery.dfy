/** query_alerts reads at most `limit` rows from each of two tables, sorts them
    together and cuts again. That is exact: the result is a top-`limit` of everything. */
module AlertQuery {

  // A row of either table: which one it is, and the stamp that orders it.
  datatype Entry = Entry(id: nat, active: bool, last: int)

  ghost predicate Descending(s: seq<Entry>) {
    forall i, j :: 0 <= i < j < |s| ==> s[i].last >= s[j].last
  }

  // A first `k` of `all` by stamp, newest first; ties may fall either way.
  ghost predicate IsTop(r: seq<Entry>, k: nat, all: multiset<Entry>) {
    && Descending(r)
    && multiset(r) <= all
    && |r| == (if k < |all| then k else |all|)
    && forall x, y :: x in r && y in all - multiset(r) ==> x.last >= y.last
  }

  // order_by(...).limit(k) on one table
  ghost predicate Page(r: seq<Entry>, k: nat, table: multiset<Entry>) {
    IsTop(r, k, table)
  }

  lemma PageBound(r: seq<Entry>, k: nat, table: multiset<Entry>, y: Entry)
    requires Page(r, k, table) && y in table - multiset(r)
    ensures |r| == k && forall x :: x in r ==> x.last >= y.last
  {
    assert multiset(r) + (table - multiset(r)) == table;
    assert |table - multiset(r)| > 0;
  }

  // An element outside the cut prefix of the sorted union is outside of it in the union
  // of the pages, or outside of its own page; either way everything kept is as new.
  lemma CutIsNewer(pages: seq<Entry>, sorted: seq<Entry>, k: nat, x: Entry, y: Entry)
    requires Descending(sorted) && multiset(sorted) == multiset(pages) && k <= |sorted|
    requires x in sorted[..k] && y in multiset(sorted[k..])
    ensures x.last >= y.last
  {
    var i :| 0 <= i < k && sorted[..k][i] == x;
    assert y in sorted[k..];
    var j :| 0 <= j < |sorted[k..]| && sorted[k..][j] == y;
    assert sorted[i] == x && sorted[k + j] == y;
  }

  // Limit pushdown is exact: sorting the two pages together and cutting gives a top-k
  // of the union of the two tables, up to ties.
  lemma PushdownIsExact(alerts: seq<Entry>, episodes: seq<Entry>, sorted: seq<Entry>, k: nat,
                        active: multiset<Entry>, archived: multiset<Entry>)
    requires Page(alerts, k, active) && Page(episodes, k, archived)
    requires Descending(sorted) && multiset(sorted) == multiset(alerts) + multiset(episodes)
    ensures IsTop(sorted[..if k < |sorted| then k else |sorted|], k, active + archived)
  {
    var n := if k < |sorted| then k else |sorted|;
    var r := sorted[..n];
    PushdownSize(alerts, episodes, sorted, k, active, archived);
    PushdownSubset(alerts, episodes, sorted, n, active, archived);
    forall x, y | x in r && y in active + archived - multiset(r)
      ensures x.last >= y.last
    {
      RestIsOlder(alerts, episodes, sorted, n, k, active, archived, x, y);
    }
  }

  lemma PushdownSize(alerts: seq<Entry>, episodes: seq<Entry>, sorted: seq<Entry>, k: nat,
                     active: multiset<Entry>, archived: multiset<Entry>)
    requires |alerts| == (if k < |active| then k else |active|)
    requires |episodes| == (if k < |archived| then k else |archived|)
    requires multiset(sorted) == multiset(alerts) + multiset(episodes)
    ensures (if k < |sorted| then k else |sorted|)
         == if k < |active + archived| then k else |active + archived|
  {
    assert |sorted| == |multiset(sorted)| == |alerts| + |episodes|;
    assert |active + archived| == |active| + |archived|;
  }

  lemma PushdownSubset(alerts: seq<Entry>, episodes: seq<Entry>, sorted: seq<Entry>, n: nat,
                       active: multiset<Entry>, archived: multiset<Entry>)
    requires multiset(alerts) <= active && multiset(episodes) <= archived && n <= |sorted|
    requires multiset(sorted) == multiset(alerts) + multiset(episodes)
    ensures multiset(sorted[..n]) <= active + archived
  {
    assert sorted == sorted[..n] + sorted[n..];
    forall e ensures multiset(sorted[..n])[e] <= (active + archived)[e] {
      assert multiset(sorted)[e] == multiset(sorted[..n])[e] + multiset(sorted[n..])[e];
    }
  }

  lemma RestIsOlder(alerts: seq<Entry>, episodes: seq<Entry>, sorted: seq<Entry>, n: nat, k: nat,
                    active: multiset<Entry>, archived: multiset<Entry>, x: Entry, y: Entry)
    requires Page(alerts, k, active) && Page(episodes, k, archived)
    requires Descending(sorted) && multiset(sorted) == multiset(alerts) + multiset(episodes)
    requires n == (if k < |sorted| then k else |sorted|)
    requires x in sorted[..n] && y in active + archived - multiset(sorted[..n])
    ensures x.last >= y.last
  {
    assert sorted == sorted[..n] + sorted[n..];
    WhereFrom(multiset(sorted[..n]), multiset(sorted[n..]), multiset(alerts), multiset(episodes), active, archived, y);
    if y in multiset(sorted[n..]) {
      CutIsNewer(sorted, sorted, n, x, y);
    } else if y in active - multiset(alerts) {
      PageBound(alerts, k, active, y);
      PageFits(alerts, episodes, sorted);
      KeptIsNewer(alerts, episodes, sorted, n, x, y);
    } else {
      PageBound(episodes, k, archived, y);
      PageFits(episodes, alerts, sorted);
      KeptIsNewer(episodes, alerts, sorted, n, x, y);
    }
  }

  lemma PageFits(page: seq<Entry>, other: seq<Entry>, sorted: seq<Entry>)
    requires multiset(sorted) == multiset(page) + multiset(other)
    ensures |page| <= |sorted|
  {
    assert |multiset(sorted)| == |sorted| && |multiset(page)| == |page|;
  }

  // An entry left out stands behind the cut, or was on neither page.
  lemma WhereFrom(kept: multiset<Entry>, cut: multiset<Entry>, a: multiset<Entry>, b: multiset<Entry>,
                  active: multiset<Entry>, archived: multiset<Entry>, y: Entry)
    requires kept + cut == a + b && a <= active && b <= archived
    requires y in active + archived - kept
    ensures y in cut || y in active - a || y in archived - b
  {
    assert (kept + cut)[y] == (a + b)[y];
  }

  // One full page alone holds k entries as new as y, so the first k of the sorted union
  // are as new as y.
  lemma KeptIsNewer(page: seq<Entry>, other: seq<Entry>, sorted: seq<Entry>, n: nat, x: Entry, y: Entry)
    requires Descending(sorted) && multiset(sorted) == multiset(page) + multiset(other)
    requires n == |page| && n <= |sorted| && x in sorted[..n]
    requires forall e :: e in page ==> e.last >= y.last
    ensures x.last >= y.last
  {
    var i :| 0 <= i < n && sorted[i] == x;
    if x.last < y.last {
      // everything from x on is older than y, so the page would have to fit before x
      assert sorted == sorted[..i] + sorted[i..];
      assert multiset(sorted) == multiset(sorted[..i]) + multiset(sorted[i..]);
      forall e | e in multiset(page) ensures e !in multiset(sorted[i..]) {
        assert e in page;
        assert e in multiset(sorted[i..]) <==> e in sorted[i..];
      }
      forall e ensures multiset(page)[e] <= multiset(sorted[..i])[e] {
        assert multiset(sorted)[e] == multiset(page)[e] + multiset(other)[e];
      }
      assert |multiset(page)| == n && |multiset(sorted[..i])| == i;
      MultisetSize(multiset(page), multiset(sorted[..i]));
      assert false;
    }
  }

  lemma MultisetSize(a: multiset<Entry>, b: multiset<Entry>)
    requires a <= b
    ensures |a| <= |b|
  {
    assert a + (b - a) == b;
  }

  // ------------------------------------------------------------------ the query

  function Insert(e: Entry, s: seq<Entry>): seq<Entry> {
    if s == [] || s[0].last <= e.last then [e] + s else [s[0]] + Insert(e, s[1..])
  }

  // Newest first.
  function Newest(s: seq<Entry>): seq<Entry> {
    if s == [] then [] else Insert(s[0], Newest(s[1..]))
  }

  function Take(s: seq<Entry>, k: nat): seq<Entry> {
    s[..if k < |s| then k else |s|]
  }

  // query_alerts over the filtered rows of the two tables.
  function QueryAlerts(active: seq<Entry>, archived: seq<Entry>, limit: int): seq<Entry> {
    var k: nat := if limit > 1 then limit else 1;
    Take(Newest(Take(Newest(active), k) + Take(Newest(archived), k)), k)
  }

  lemma {:induction false} InsertFacts(e: Entry, s: seq<Entry>)
    requires Descending(s)
    ensures Descending(Insert(e, s)) && multiset(Insert(e, s)) == multiset{e} + multiset(s)
  {
    if s != [] && s[0].last > e.last {
      InsertFacts(e, s[1..]);
      var t := Insert(e, s[1..]);
      assert s == [s[0]] + s[1..];
      assert multiset([s[0]] + t) == multiset{s[0]} + multiset(t);
      forall j | 0 <= j < |t| ensures t[j].last <= s[0].last {
        InsertedOrThere(t, e, s[1..], j);
      }
      PrependDescending(s[0], t);
    }
  }

  lemma InsertedOrThere(t: seq<Entry>, e: Entry, s: seq<Entry>, j: nat)
    requires multiset(t) == multiset{e} + multiset(s) && j < |t|
    ensures t[j] == e || t[j] in s
  {
    assert t[j] in multiset(t);
  }

  lemma PrependDescending(x: Entry, t: seq<Entry>)
    requires Descending(t) && forall j :: 0 <= j < |t| ==> t[j].last <= x.last
    ensures Descending([x] + t)
  {
  }

  lemma {:induction false} NewestFacts(s: seq<Entry>)
    ensures Descending(Newest(s)) && multiset(Newest(s)) == multiset(s)
  {
    if s != [] {
      NewestFacts(s[1..]);
      InsertFacts(s[0], Newest(s[1..]));
      assert s == [s[0]] + s[1..];
    }
  }

  lemma TakeIsPage(s: seq<Entry>, k: nat)
    ensures Page(Take(Newest(s), k), k, multiset(s))
  {
    NewestFacts(s);
    var sorted := Newest(s);
    var n := if k < |sorted| then k else |sorted|;
    assert sorted == sorted[..n] + sorted[n..];
    assert multiset(sorted) == multiset(sorted[..n]) + multiset(sorted[n..]);
    assert |sorted| == |multiset(sorted)| == |multiset(s)|;
    forall x, y | x in sorted[..n] && y in multiset(s) - multiset(sorted[..n])
      ensures x.last >= y.last
    {
      assert y in multiset(sorted[n..]);
      CutIsNewer(sorted, sorted, n, x, y);
    }
  }

  lemma QueryIsTopOfEverything(active: seq<Entry>, archived: seq<Entry>, limit: int)
    ensures IsTop(QueryAlerts(active, archived, limit), if limit > 1 then limit else 1,
                  multiset(active) + multiset(archived))
  {
    hide IsTop, Newest, Descending, Take;
    var k: nat := if limit > 1 then limit else 1;
    TakeIsPage(active, k);
    TakeIsPage(archived, k);
    var a, b := Take(Newest(active), k), Take(Newest(archived), k);
    NewestFacts(a + b);
    PushdownIsExact(a, b, Newest(a + b), k, multiset(active), multiset(archived));
    TakeIs(Newest(a + b), k);
  }

  lemma TakeIs(s: seq<Entry>, k: nat)
    ensures Take(s, k) == s[..if k < |s| then k else |s|]
  {
  }
}
