/** What a begun snapshot reports about the database it was taken from: its totals and the
figures of each summary (internal/archive/snapshot.go). */
module SnapshotCounts {
  import opened Types
  import opened Ordering
  import opened SnapshotQuery
  import opened SnapshotBegin
  import opened SnapshotSelect

  /** The records of the given sessions. */
  ghost function RecordsIn(db: Db, sessions: set<string>): set<string> {
    set r | r in db.records && db.records[r].session in sessions
  }

  ghost function RecordsOfSession(db: Db, s: string): set<string> {
    set r | r in db.records && db.records[r].session == s
  }

  lemma RowsCounted(db: Db, s: string)
    ensures |RowsOf(db, s)| == |RecordsOfSession(db, s)|
  {
  }

  lemma OneMoreSession(db: Db, sessions: set<string>, s: string)
    requires s !in sessions
    ensures |RecordsIn(db, sessions + {s})| == |RecordsIn(db, sessions)| + |RowsOf(db, s)|
  {
    RowsCounted(db, s);
    assert RecordsIn(db, sessions + {s}) == RecordsIn(db, sessions) + RecordsOfSession(db, s);
    assert RecordsIn(db, sessions) !! RecordsOfSession(db, s);
  }

  ghost function SessionsOf(rows: seq<QueryRow>): set<string> {
    set row | row in rows :: row.session
  }

  ghost predicate RowsOfDb(db: Db, rows: seq<QueryRow>) {
    DistinctRows(rows) && forall i | 0 <= i < |rows| :: rows[i] == GenericRow(db, rows[i].session)
  }

  ghost predicate AllListed(parse: string -> Option<int>, rows: seq<QueryRow>) {
    forall i | 0 <= i < |rows| :: Judge(parse, rows[i]).Listed?
  }

  lemma SessionsOfStep(rows: seq<QueryRow>)
    requires rows != [] && DistinctRows(rows)
    ensures var n := |rows| - 1;
            && SessionsOf(rows) == SessionsOf(rows[..n]) + {rows[n].session}
            && rows[n].session !in SessionsOf(rows[..n])
  {
  }

  ghost function Gone(db: Db, sessions: set<string>): set<string> {
    set s | s in sessions && RowsOf(db, s) == map[]
  }

  lemma GoneStep(db: Db, sessions: set<string>, s: string)
    requires s !in sessions
    ensures |Gone(db, sessions + {s})| == |Gone(db, sessions)| + if RowsOf(db, s) == map[] then 1 else 0
  {
    assert Gone(db, sessions + {s}) == Gone(db, sessions) + if RowsOf(db, s) == map[] then {s} else {};
  }

  /** Totals of one more summary. */
  lemma TotalsStep(sessions: seq<Summary>, item: Summary)
    ensures TotalRequests(sessions + [item]) == TotalRequests(sessions) + if item.deleted then 0 else item.requests
    ensures Tombstones(sessions + [item]) == Tombstones(sessions) + if item.deleted then 1 else 0
  {
  }

  /** The totals of a list of summaries are those of its sessions in the database. */
  ghost predicate Tally(db: Db, sessions: set<string>, listed: seq<Summary>) {
    && |listed| == |sessions|
    && TotalRequests(listed) == |RecordsIn(db, sessions)|
    && Tombstones(listed) == |Gone(db, sessions)|
  }

  lemma TallyNothing(db: Db)
    ensures Tally(db, {}, [])
  {
  }

  lemma TallyStep(db: Db, sessions: set<string>, listed: seq<Summary>, s: string, item: Summary)
    requires Tally(db, sessions, listed) && s !in sessions
    requires item.requests == |RowsOf(db, s)| && (item.deleted <==> RowsOf(db, s) == map[])
    ensures Tally(db, sessions + {s}, listed + [item])
  {
    OneMoreSession(db, sessions, s);
    GoneStep(db, sessions, s);
    TotalsStep(listed, item);
  }

  lemma SummariesStep(parse: string -> Option<int>, rows: seq<QueryRow>)
    requires rows != [] && Judge(parse, rows[|rows| - 1]).Listed?
    ensures Summaries(parse, rows) == Summaries(parse, rows[..|rows| - 1]) + [Judge(parse, rows[|rows| - 1]).summary]
  {
  }

  lemma {:induction false} ListedTotals(parse: string -> Option<int>, db: Db, rows: seq<QueryRow>)
    requires RowsOfDb(db, rows) && AllListed(parse, rows)
    ensures Tally(db, SessionsOf(rows), Summaries(parse, rows))
    decreases |rows|
  {
    if rows == [] {
      TallyNothing(db);
      assert SessionsOf(rows) == {};
    } else {
      var n := |rows| - 1;
      ListedTotals(parse, db, rows[..n]);
      SessionsOfStep(rows);
      SummariesStep(parse, rows);
      ListedFigures(parse, db, rows[n].session);
      TallyStep(db, SessionsOf(rows[..n]), Summaries(parse, rows[..n]), rows[n].session, Judge(parse, rows[n]).summary);
    }
  }

  lemma ListedFigures(parse: string -> Option<int>, db: Db, s: string)
    requires Judge(parse, GenericRow(db, s)).Listed?
    ensures var item := Judge(parse, GenericRow(db, s)).summary;
            item.requests == |RowsOf(db, s)| && (item.deleted <==> RowsOf(db, s) == map[])
  {
  }

  lemma SessionsAre(rows: seq<QueryRow>, chosen: set<string>)
    requires forall i | 0 <= i < |rows| :: rows[i].session in chosen
    requires forall s | s in chosen :: exists i :: 0 <= i < |rows| && rows[i].session == s
    ensures SessionsOf(rows) == chosen
  {
    forall s | s in chosen ensures s in SessionsOf(rows) {
      var i :| 0 <= i < |rows| && rows[i].session == s;
      assert rows[i] in rows;
    }
  }

  lemma ChosenRows(db: Db, after: Option<int>, overlap: Option<string> -> bool)
    ensures RowsOfDb(db, QueryRows(db, after, overlap))
    ensures SessionsOf(QueryRows(db, after, overlap)) == Chosen(db, after, overlap)
  {
    var rows := QueryRows(db, after, overlap);
    RowsAreChosen(db, after, overlap);
    forall s | s in Chosen(db, after, overlap) ensures exists i :: 0 <= i < |rows| && rows[i].session == s {
      var i :| 0 <= i < |rows| && rows[i] == GenericRow(db, s);
      assert rows[i].session == s;
    }
    SessionsAre(rows, Chosen(db, after, overlap));
  }

  lemma ReadyParts(parse: string -> Option<int>, fence: nat, safeAfter: nat, after: Option<int>, rows: seq<QueryRow>,
                   snap: Snapshot)
    requires BeginOutcome(parse, fence, safeAfter, after, rows) == Ready(snap)
    ensures |snap.sessions| == |Summaries(parse, rows)|
    ensures snap.requestCount == TotalRequests(Summaries(parse, rows))
    ensures snap.deletedCount == Tombstones(Summaries(parse, rows))
  {
  }

  /** A begun snapshot lists each chosen session once, counts exactly the records of the
      chosen sessions, and counts as deleted exactly the chosen sessions without records. */
  lemma SnapshotTotals(parse: string -> Option<int>, db: Db, after: Option<int>, overlap: Option<string> -> bool,
                       snap: Snapshot)
    requires BeginAt(parse, db, after, overlap) == Ready(snap)
    ensures |snap.sessions| == |Chosen(db, after, overlap)|
    ensures snap.requestCount == |RecordsIn(db, Chosen(db, after, overlap))|
    ensures snap.deletedCount == |Gone(db, Chosen(db, after, overlap))|
  {
    var rows := QueryRows(db, after, overlap);
    ChosenRows(db, after, overlap);
    BegunListsEveryRow(parse, db.clock, db.safeAfter, after, rows, snap);
    ListedTotals(parse, db, rows);
    ReadyParts(parse, db.clock, db.safeAfter, after, rows, snap);
  }

  /** A full snapshot counts every record of the archive and no tombstone. */
  lemma FullSnapshotTotals(parse: string -> Option<int>, db: Db, overlap: Option<string> -> bool, snap: Snapshot)
    requires BeginAt(parse, db, None, overlap) == Ready(snap)
    ensures snap.requestCount == |db.records| && snap.deletedCount == 0
  {
    SnapshotTotals(parse, db, None, overlap, snap);
    assert RecordsIn(db, Sessions(db)) == db.records.Keys;
    assert |db.records| == |db.records.Keys|;
    forall s | s in Sessions(db) ensures RowsOf(db, s) != map[] { HasRows(db, s); }
    assert Gone(db, Sessions(db)) == {};
  }

  // ----- The times of a summary -----

  lemma MinTextIsLeast(s: set<string>, t: string)
    requires MinText(s) == Some(t)
    ensures t in s && forall x | x in s && x != t :: TextLess(t, x)
  {
  }

  lemma MaxTextIsGreatest(s: set<string>, t: string)
    requires MaxText(s) == Some(t)
    ensures t in s && forall x | x in s && x != t :: TextLess(x, t)
  {
  }

  /** A present summary's times are the least start and the greatest completion text among its
      records, read as instants and cut to microseconds. */
  lemma SummaryTimes(parse: string -> Option<int>, db: Db, x: Summary, first: string, last: string)
    requires Judge(parse, GenericRow(db, x.session)) == Listed(x) && !x.deleted
    requires GenericRow(db, x.session).firstAt == Some(first) && GenericRow(db, x.session).lastAt == Some(last)
    ensures parse(first).Some? && x.firstAt == Some(parse(first).value / 1000)
    ensures parse(last).Some? && x.lastAt == parse(last).value / 1000
    ensures first in Started(RowsOf(db, x.session)) && last in Completed(RowsOf(db, x.session))
    ensures forall t | t in Started(RowsOf(db, x.session)) && t != first :: TextLess(first, t)
    ensures forall t | t in Completed(RowsOf(db, x.session)) && t != last :: TextLess(t, last)
  {
    MinTextIsLeast(Started(RowsOf(db, x.session)), first);
    MaxTextIsGreatest(Completed(RowsOf(db, x.session)), last);
  }

  // ----- Fence, set digest and order -----

  /** A begun snapshot reports the clock it was taken at and the archive's tombstone fence; its
      set digest is taken over exactly its summaries, in session order. */
  lemma BegunReports(parse: string -> Option<int>, db: Db, after: Option<int>, overlap: Option<string> -> bool,
                     snap: Snapshot)
    requires BeginAt(parse, db, after, overlap) == Ready(snap)
    ensures snap.fence == db.clock && snap.safeAfter == db.safeAfter
    ensures Elements(snap.setDigest.items) == Elements(snap.sessions) && |snap.setDigest.items| == |snap.sessions|
    ensures forall i, j | 0 <= i < j < |snap.setDigest.items| ::
              TextLess(snap.setDigest.items[i].session, snap.setDigest.items[j].session)
  {
    BegunLists(parse, db, after, overlap, snap);
    ReadyHeader(parse, db.clock, db.safeAfter, after, QueryRows(db, after, overlap), snap);
    SetDigestItems(snap.sessions);
  }

  lemma ReadyHeader(parse: string -> Option<int>, fence: nat, safeAfter: nat, after: Option<int>, rows: seq<QueryRow>,
                    snap: Snapshot)
    requires BeginOutcome(parse, fence, safeAfter, after, rows) == Ready(snap)
    ensures snap.fence == fence && snap.safeAfter == safeAfter && snap.setDigest == SetDigestOf(snap.sessions)
  {
  }

  lemma SetDigestItems(sessions: seq<Summary>)
    requires DistinctSessions(sessions)
    ensures var items := SetDigestOf(sessions).items;
            && Elements(items) == Elements(sessions) && |items| == |sessions|
            && forall i, j | 0 <= i < j < |items| :: TextLess(items[i].session, items[j].session)
  {
    DistinctIsKeyed(sessions);
    SessionLessTotal(Elements(sessions));
    SortIsListing(SessionLess, sessions);
    var items := SetDigestOf(sessions).items;
    SortAscending(SessionLess, sessions);
    assert multiset(items) == multiset(sessions);
    assert |items| == |multiset(items)|;
    assert forall i, j | 0 <= i < j < |items| :: SessionLess(items[i], items[j]);
  }

  /** The pages show the latest session first, equal times by session id. */
  lemma PageOrder(parse: string -> Option<int>, db: Db, after: Option<int>, overlap: Option<string> -> bool,
                  snap: Snapshot)
    requires BeginAt(parse, db, after, overlap) == Ready(snap)
    ensures forall i, j | 0 <= i < j < |snap.sessions| ::
              var a, b := snap.sessions[i], snap.sessions[j];
              a.lastAt > b.lastAt || (a.lastAt == b.lastAt && TextLess(a.session, b.session))
  {
    RowsAreChosen(db, after, overlap);
    BegunListsEveryRow(parse, db.clock, db.safeAfter, after, QueryRows(db, after, overlap), snap);
    forall i, j | 0 <= i < j < |snap.sessions|
      ensures var a, b := snap.sessions[i], snap.sessions[j];
              a.lastAt > b.lastAt || (a.lastAt == b.lastAt && TextLess(a.session, b.session))
    {
      assert PageLess(snap.sessions[i], snap.sessions[j]);
    }
  }

  // ----- Tombstones -----

  /** The greatest text an event that names the session was recorded at. */
  ghost predicate LastNamedAt(db: Db, s: string, t: string) {
    && (exists k :: k in db.events && k <= db.clock && Mentions(db.events[k], s) && db.events[k].recordedAt == t)
    && (forall k | k in db.events && k <= db.clock && Mentions(db.events[k], s) && db.events[k].recordedAt != t ::
          TextLess(db.events[k].recordedAt, t))
  }

  lemma ChangedAtIs(db: Db, s: string, t: string)
    requires ChangedAt(db, s, db.clock) == Some(t)
    ensures LastNamedAt(db, s, t)
  {
    var times := set k | k in EventsOf(db, s, db.clock) :: db.events[k].recordedAt;
    MaxTextIsGreatest(times, t);
    forall k | k in db.events && k <= db.clock && Mentions(db.events[k], s) ensures db.events[k].recordedAt in times {
      assert k in EventsOf(db, s, db.clock);
    }
    var k :| k in EventsOf(db, s, db.clock) && db.events[k].recordedAt == t;
  }

  /** A tombstone's time is the greatest time text of the events that name its session, cut to
      microseconds; it has no start, no digest and no requests. */
  lemma TombstoneTime(parse: string -> Option<int>, db: Db, x: Summary, t: string)
    requires Judge(parse, GenericRow(db, x.session)) == Listed(x) && x.deleted
    requires ChangedAt(db, x.session, db.clock) == Some(t)
    ensures LastNamedAt(db, x.session, t)
    ensures parse(t).Some? && x.lastAt == parse(t).value / 1000
    ensures x.firstAt.None? && x.digest.None? && x.requests == 0
  {
    ChangedAtIs(db, x.session, t);
  }
}
