/** The alert table: one row per deduplication key, which every occurrence of that
    alert reuses, and an archive with one entry per closed occurrence.

    Stamps and clock readings are integers; the archive identifies an occurrence by
    its key and its start stamp. */
module AlertStore {
  import opened Text

  datatype Phase = Pending | Active | Resolved
  datatype Severity = Info | Warning | Error | Critical

  function Rank(s: Severity): nat {
    match s
    case Info => 0
    case Warning => 1
    case Error => 2
    case Critical => 3
  }

  datatype Row = Row(
    key: string, first: int, last: int, count: nat, event: string, kind: string, scope: string,
    status: Phase, pendingSince: Option<int>, lastSeen: int, acknowledged: Option<int>, silenced: Option<int>,
    resolvedAt: Option<int>, severity: Severity, escalated: bool, baseline: Option<Severity>, updated: int)

  datatype Episode = Episode(key: string, first: int, last: int, count: nat, resolvedAt: int, severity: Severity)

  datatype Table = Table(rows: seq<Row>, episodes: seq<Episode>)

  datatype Report = Report(key: string, ts: int, event: string, kind: string, scope: string, severity: Severity)

  datatype Call =
    | RecordFire(r: Report, cooldown: int)
    | RecordPending(r: Report)
    | Acknowledge(key: string, ts: int)
    | CloseAcknowledged(key: string, ts: int)
    | Silence(key: string, until: int)
    | Escalate(key: string, level: Severity)
    | Resolve(kind: string, scope: string, ts: int)

  // The row of a key, or |rows|.
  function Find(rows: seq<Row>, key: string): (i: nat)
    ensures i <= |rows| && (i < |rows| ==> rows[i].key == key)
  {
    if rows == [] || rows[0].key == key then 0 else 1 + Find(rows[1..], key)
  }

  // ------------------------------------------------------------------- the calls

  function FreshRow(r: Report, status: Phase, count: nat, now: int): Row {
    Row(r.key, r.ts, r.ts, count, r.event, r.kind, r.scope, status,
        if status == Pending then Some(r.ts) else None, r.ts, None, None, None, r.severity, false, None, now)
  }

  predicate Notifies(row: Row, now: int, cooldown: int) {
    row.status != Active || now - row.updated >= (if cooldown > 0 then cooldown else 0)
  }

  function Fired(row: Row, r: Report, now: int, cooldown: int): Row {
    var begins := row.status != Active;
    var updated := if Notifies(row, now, cooldown) then now else row.updated;
    var severity := if row.status == Active && row.escalated then row.severity else r.severity;
    var same := row.(last := r.ts, count := if begins then 1 else row.count + 1, event := r.event, severity := severity,
                     kind := r.kind, scope := r.scope, status := Active, pendingSince := None, lastSeen := r.ts,
                     resolvedAt := None, updated := updated);
    if begins then same.(first := r.ts, acknowledged := None, silenced := None) else same
  }

  function Waiting(row: Row, r: Report, now: int): Row {
    row.(last := r.ts, lastSeen := r.ts, event := r.event, severity := r.severity, kind := r.kind, scope := r.scope,
         status := Pending, pendingSince := if row.pendingSince.Some? then row.pendingSince else Some(r.ts),
         resolvedAt := None, updated := now)
  }

  function Closed(row: Row, ts: int, now: int): Row {
    row.(status := Resolved, resolvedAt := Some(ts), updated := now)
  }

  function Raised(row: Row, level: Severity, now: int): Row {
    row.(severity := level, escalated := true,
         baseline := if row.baseline.Some? then row.baseline else Some(row.severity),
         acknowledged := None, updated := now)
  }

  predicate Archived(episodes: seq<Episode>, key: string, first: int) {
    exists e :: e in episodes && e.key == key && e.first == first
  }

  // insert ... on_conflict_ignore
  function Archive(episodes: seq<Episode>, row: Row, ts: int): seq<Episode> {
    if Archived(episodes, row.key, row.first) then episodes
    else episodes + [Episode(row.key, row.first, row.last, row.count, ts, row.severity)]
  }

  predicate Concerns(row: Row, kind: string, scope: string) {
    row.kind == kind && row.scope == scope && row.status == Active
  }

  // The rows of a resolution, first archived and then closed.
  function ArchiveAll(rows: seq<Row>, episodes: seq<Episode>, kind: string, scope: string, ts: int): seq<Episode> {
    if rows == [] then episodes
    else
      var next := if Concerns(rows[0], kind, scope) then Archive(episodes, rows[0], ts) else episodes;
      ArchiveAll(rows[1..], next, kind, scope, ts)
  }

  // What a call does to a row; the calls select their rows by key, and by phase.
  function RowStep(row: Row, call: Call, now: int): Row {
    match call
    case RecordFire(r, cooldown) => if r.key == row.key then Fired(row, r, now, cooldown) else row
    case RecordPending(r) => if r.key == row.key && row.status != Active then Waiting(row, r, now) else row
    case Acknowledge(key, ts) =>
      if key == row.key && row.status == Active then row.(acknowledged := Some(ts), updated := now) else row
    case CloseAcknowledged(key, ts) =>
      if key == row.key && row.status == Active then Closed(row.(acknowledged := Some(ts)), ts, now) else row
    case Silence(key, until) =>
      if key == row.key && row.status == Active then row.(silenced := Some(until), updated := now) else row
    case Escalate(key, level) =>
      if key == row.key && !(row.escalated && Rank(row.severity) >= Rank(level)) then Raised(row, level, now) else row
    case Resolve(kind, scope, ts) => if Concerns(row, kind, scope) then Closed(row, ts, now) else row
  }

  function MapRows(rows: seq<Row>, call: Call, now: int): seq<Row> {
    if rows == [] then [] else [RowStep(rows[0], call, now)] + MapRows(rows[1..], call, now)
  }

  // The row that a first report of a key creates.
  function NewRow(rows: seq<Row>, call: Call, now: int): seq<Row> {
    match call
    case RecordFire(r, _) => if Find(rows, r.key) == |rows| then [FreshRow(r, Active, 1, now)] else []
    case RecordPending(r) => if Find(rows, r.key) == |rows| then [FreshRow(r, Pending, 0, now)] else []
    case _ => []
  }

  function StepEpisodes(t: Table, call: Call): seq<Episode> {
    match call
    case CloseAcknowledged(key, ts) =>
      var i := Find(t.rows, key);
      if i < |t.rows| && t.rows[i].status == Active then Archive(t.episodes, t.rows[i], ts) else t.episodes
    case Resolve(kind, scope, ts) => ArchiveAll(t.rows, t.episodes, kind, scope, ts)
    case _ => t.episodes
  }

  function Step(t: Table, call: Call, now: int): Table {
    Table(MapRows(t.rows, call, now) + NewRow(t.rows, call, now), StepEpisodes(t, call))
  }

  // ------------------------------------------------------------ counting the fires

  // The fires that the archive remembers for a key.
  function InArchive(episodes: seq<Episode>, key: string): nat {
    if episodes == [] then 0
    else InArchive(episodes[..|episodes| - 1], key)
         + (if episodes[|episodes| - 1].key == key then episodes[|episodes| - 1].count else 0)
  }

  // The fires of the occurrence that is open now.
  function Open(rows: seq<Row>, key: string): nat {
    var i := Find(rows, key);
    if i < |rows| && rows[i].status == Active then rows[i].count else 0
  }

  // The key's open occurrence is closed by the call.
  predicate Closes(t: Table, call: Call, key: string) {
    var i := Find(t.rows, key);
    && i < |t.rows| && t.rows[i].status == Active
    && match call
       case CloseAcknowledged(k, _) => k == key
       case Resolve(kind, scope, _) => Concerns(t.rows[i], kind, scope)
       case _ => false
  }

  // ... and its start stamp stands in the archive already, so its fires are lost.
  predicate Collides(t: Table, call: Call, key: string) {
    Closes(t, call, key) && Archived(t.episodes, key, t.rows[Find(t.rows, key)].first)
  }

  ghost predicate OneRowPerKey(rows: seq<Row>) {
    forall i, j :: 0 <= i < j < |rows| ==> rows[i].key != rows[j].key
  }

  predicate FiredHere(call: Call, key: string) {
    call.RecordFire? && call.r.key == key
  }

  lemma {:induction false} FindSnoc(rows: seq<Row>, row: Row, key: string)
    ensures Find(rows + [row], key)
         == if Find(rows, key) < |rows| then Find(rows, key)
            else if row.key == key then |rows| else |rows| + 1
  {
    if rows == [] {
      assert rows + [row] == [row];
    } else {
      assert (rows + [row])[1..] == rows[1..] + [row];
      FindSnoc(rows[1..], row, key);
    }
  }

  lemma {:induction false} NotFound(rows: seq<Row>, key: string)
    requires Find(rows, key) == |rows|
    ensures forall i :: 0 <= i < |rows| ==> rows[i].key != key
  {
    if rows != [] {
      NotFound(rows[1..], key);
    }
  }

  lemma RowKeepsKey(row: Row, call: Call, now: int)
    ensures RowStep(row, call, now).key == row.key
  {
    hide Rank, Notifies;
  }

  lemma {:induction false} MapRowsFacts(rows: seq<Row>, call: Call, now: int, key: string)
    ensures var after := MapRows(rows, call, now);
            && |after| == |rows| && Find(after, key) == Find(rows, key)
            && (forall i :: 0 <= i < |rows| ==> after[i] == RowStep(rows[i], call, now) && after[i].key == rows[i].key)
  {
    hide RowStep;
    if rows != [] {
      RowKeepsKey(rows[0], call, now);
      MapRowsFacts(rows[1..], call, now, key);
      var rest := MapRows(rows[1..], call, now);
      assert ([RowStep(rows[0], call, now)] + rest)[1..] == rest;
    }
  }

  // A key has its row from its first report on; a call steps that row and no other.
  lemma RowAfter(t: Table, call: Call, now: int, key: string)
    requires OneRowPerKey(t.rows)
    ensures OneRowPerKey(Step(t, call, now).rows)
    ensures var i := Find(t.rows, key);
            var after := Step(t, call, now).rows;
            if i < |t.rows| then Find(after, key) == i < |after| && after[i] == RowStep(t.rows[i], call, now)
            else if FiredHere(call, key) then Find(after, key) == i < |after| && after[i] == FreshRow(call.r, Active, 1, now)
            else if call.RecordPending? && call.r.key == key
            then Find(after, key) == i < |after| && after[i] == FreshRow(call.r, Pending, 0, now)
            else Find(after, key) == |after|
  {
    hide RowStep, MapRows, FreshRow, OneRowPerKey, Find;
    MapRowsFacts(t.rows, call, now, key);
    var mapped, more := MapRows(t.rows, call, now), NewRow(t.rows, call, now);
    KeysStayApart(t.rows, mapped);
    if more == [] {
      assert mapped + more == mapped;
    } else {
      assert more == [more[0]];
      FreshKey(call.r, now);
      FindSnoc(mapped, more[0], key);
      NotFound(t.rows, call.r.key);
      OneMoreKey(mapped, more[0]);
    }
  }

  lemma KeysStayApart(rows: seq<Row>, mapped: seq<Row>)
    requires OneRowPerKey(rows) && |mapped| == |rows| && forall i :: 0 <= i < |rows| ==> mapped[i].key == rows[i].key
    ensures OneRowPerKey(mapped)
  {
  }

  lemma OneMoreKey(rows: seq<Row>, row: Row)
    requires OneRowPerKey(rows) && forall i :: 0 <= i < |rows| ==> rows[i].key != row.key
    ensures OneRowPerKey(rows + [row])
  {
  }

  lemma FreshKey(r: Report, now: int)
    ensures FreshRow(r, Active, 1, now).key == FreshRow(r, Pending, 0, now).key == r.key
  {
  }

  lemma InArchiveSnoc(episodes: seq<Episode>, e: Episode, key: string)
    ensures InArchive(episodes + [e], key) == InArchive(episodes, key) + (if e.key == key then e.count else 0)
  {
    assert (episodes + [e])[..|episodes|] == episodes;
  }

  // What archiving a resolution's rows adds for one key: the count of its row, unless
  // that occurrence stood there.
  lemma {:induction false} ArchiveAllCounts(rows: seq<Row>, episodes: seq<Episode>, kind: string, scope: string, ts: int,
                                            key: string)
    requires OneRowPerKey(rows)
    ensures var i := Find(rows, key);
            InArchive(ArchiveAll(rows, episodes, kind, scope, ts), key)
            == InArchive(episodes, key)
               + (if i < |rows| && Concerns(rows[i], kind, scope) && !Archived(episodes, key, rows[i].first)
                  then rows[i].count else 0)
    decreases |rows|
  {
    hide Concerns, Archived, InArchive, Archive;
    if rows != [] {
      var row, rest := rows[0], rows[1..];
      var next := if Concerns(row, kind, scope) then Archive(episodes, row, ts) else episodes;
      HeadKeyIsGone(rows);
      ArchiveAllCounts(rest, next, kind, scope, ts, key);
      ArchiveCounts(episodes, row, ts, key);
      if row.key == key { NotThere(rest, key); }
    }
  }

  lemma ArchiveCounts(episodes: seq<Episode>, row: Row, ts: int, key: string)
    ensures InArchive(Archive(episodes, row, ts), key)
         == InArchive(episodes, key)
            + (if row.key == key && !Archived(episodes, key, row.first) then row.count else 0)
    ensures row.key != key
        ==> forall first :: Archived(Archive(episodes, row, ts), key, first) <==> Archived(episodes, key, first)
  {
    InArchiveSnoc(episodes, Episode(row.key, row.first, row.last, row.count, ts, row.severity), key);
  }

  lemma HeadKeyIsGone(rows: seq<Row>)
    requires rows != [] && OneRowPerKey(rows)
    ensures forall row :: row in rows[1..] ==> row.key != rows[0].key
    ensures OneRowPerKey(rows[1..])
  {
    assert forall i :: 0 <= i < |rows[1..]| ==> rows[1..][i] == rows[i + 1];
  }

  lemma {:induction false} NotThere(rows: seq<Row>, key: string)
    requires forall row :: row in rows ==> row.key != key
    ensures Find(rows, key) == |rows|
  {
    if rows != [] {
      assert rows[0] in rows;
      NotThere(rows[1..], key);
    }
  }

  // One call, one key: fires in, fires out. Whatever the call, what the archive and the
  // open occurrence hold together grows by the fire recorded, and shrinks only by a
  // closed occurrence whose start stamp was taken.
  lemma StepCounts(t: Table, call: Call, now: int, key: string)
    requires OneRowPerKey(t.rows)
    ensures OneRowPerKey(Step(t, call, now).rows)
    ensures InArchive(Step(t, call, now).episodes, key) + Open(Step(t, call, now).rows, key)
            + (if Collides(t, call, key) then Open(t.rows, key) else 0)
         == InArchive(t.episodes, key) + Open(t.rows, key) + (if FiredHere(call, key) then 1 else 0)
  {
    hide Archived, Archive, ArchiveAll, InArchive, Step, RowStep;
    RowAfter(t, call, now, key);
    EpisodesCount(t, call, now, key);
    var i := Find(t.rows, key);
    if i < |t.rows| { RowCounts(t.rows[i], call, now); }
  }

  // The count and phase of a stepped row.
  lemma RowCounts(row: Row, call: Call, now: int)
    ensures var next := RowStep(row, call, now);
            && (FiredHere(call, row.key)
                ==> next.status == Active && next.count == (if row.status == Active then row.count + 1 else 1))
            && (!FiredHere(call, row.key) && row.status != Active ==> next.status != Active)
            && (!FiredHere(call, row.key) && row.status == Active ==>
                  next.count == row.count
                  && (next.status != Active <==>
                        match call
                        case CloseAcknowledged(k, _) => k == row.key
                        case Resolve(kind, scope, _) => Concerns(row, kind, scope)
                        case _ => false))
  {
    hide Rank, Notifies;
  }

  lemma EpisodesCount(t: Table, call: Call, now: int, key: string)
    requires OneRowPerKey(t.rows)
    ensures InArchive(Step(t, call, now).episodes, key)
         == InArchive(t.episodes, key)
            + (if Closes(t, call, key) && !Collides(t, call, key) then Open(t.rows, key) else 0)
  {
    hide Archived, ArchiveAll, InArchive, MapRows, NewRow, Archive;
    match call {
      case CloseAcknowledged(k, ts) =>
        var i := Find(t.rows, k);
        if i < |t.rows| && t.rows[i].status == Active {
          ArchiveCounts(t.episodes, t.rows[i], ts, key);
        }
      case Resolve(kind, scope, ts) => ArchiveAllCounts(t.rows, t.episodes, kind, scope, ts, key);
      case _ =>
    }
  }

  // ------------------------------------------------------------ any run of calls

  datatype Tick = Tick(call: Call, now: int)

  function Run(ticks: seq<Tick>): Table {
    if ticks == [] then Table([], [])
    else Step(Run(ticks[..|ticks| - 1]), ticks[|ticks| - 1].call, ticks[|ticks| - 1].now)
  }

  function Fires(ticks: seq<Tick>, key: string): nat {
    if ticks == [] then 0
    else Fires(ticks[..|ticks| - 1], key) + (if FiredHere(ticks[|ticks| - 1].call, key) then 1 else 0)
  }

  // The fires of occurrences whose start stamp was taken when they closed.
  function Lost(ticks: seq<Tick>, key: string): nat {
    if ticks == [] then 0
    else
      var before := Run(ticks[..|ticks| - 1]);
      Lost(ticks[..|ticks| - 1], key)
      + (if Collides(before, ticks[|ticks| - 1].call, key) then Open(before.rows, key) else 0)
  }

  // Fires are conserved, over every interleaving of the calls on any keys.
  lemma {:induction false} FiresAreConserved(ticks: seq<Tick>, key: string)
    ensures OneRowPerKey(Run(ticks).rows)
    ensures InArchive(Run(ticks).episodes, key) + Open(Run(ticks).rows, key) + Lost(ticks, key) == Fires(ticks, key)
  {
    hide Step, Collides, Open, FiredHere, InArchive;
    if ticks == [] {
      NothingCounted(key);
    } else {
      FiresAreConserved(ticks[..|ticks| - 1], key);
      StepCounts(Run(ticks[..|ticks| - 1]), ticks[|ticks| - 1].call, ticks[|ticks| - 1].now, key);
    }
  }

  lemma NothingCounted(key: string)
    ensures InArchive([], key) == 0 && Open([], key) == 0
  {
  }

  ghost predicate NeverCollides(ticks: seq<Tick>, key: string) {
    forall i :: 0 <= i < |ticks| ==> !Collides(Run(ticks[..i]), ticks[i].call, key)
  }

  // Some occurrence began with the stamp of an archived one of its key.
  ghost predicate ReusesStamp(ticks: seq<Tick>, key: string) {
    exists i :: 0 <= i < |ticks| && Begins(Run(ticks[..i]), ticks[i].call, key)
                && Archived(Run(ticks[..i]).episodes, key, ticks[i].call.r.ts)
  }

  // The call starts an occurrence of the key.
  predicate Begins(t: Table, call: Call, key: string) {
    FiredHere(call, key) && (Find(t.rows, key) == |t.rows| || t.rows[Find(t.rows, key)].status != Active)
  }

  // An open occurrence has at least one fire.
  lemma {:induction false} OpenRowsCount(ticks: seq<Tick>, key: string)
    ensures var t := Run(ticks);
            var i := Find(t.rows, key);
            i < |t.rows| && t.rows[i].status == Active ==> t.rows[i].count >= 1
  {
    hide Step, RowStep;
    if ticks != [] {
      var before, tick := Run(ticks[..|ticks| - 1]), ticks[|ticks| - 1];
      OpenRowsCount(ticks[..|ticks| - 1], key);
      FiresAreConserved(ticks[..|ticks| - 1], key);
      RowAfter(before, tick.call, tick.now, key);
      var i := Find(before.rows, key);
      if i < |before.rows| { RowCounts(before.rows[i], tick.call, tick.now); }
    }
  }
}
