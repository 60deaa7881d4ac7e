/** Beginning a stable snapshot on a database: which sessions a full or a delta snapshot
lists (internal/archive/snapshot.go). */
module SnapshotSelect {
  import opened Types
  import opened Ordering
  import opened SnapshotQuery
  import opened SnapshotJoin
  import opened SnapshotBegin

  ghost function QueryRows(db: Db, after: Option<int>, overlap: Option<string> -> bool): seq<QueryRow> {
    match after
    case None => FullQuery(db)
    case Some(fence) => GenericQuery(db, true, fence, overlap)
  }

  ghost function BeginAt(parse: string -> Option<int>, db: Db, after: Option<int>,
                         overlap: Option<string> -> bool): Outcome {
    BeginOutcome(parse, db.clock, db.safeAfter, after, QueryRows(db, after, overlap))
  }

  ghost function Chosen(db: Db, after: Option<int>, overlap: Option<string> -> bool): set<string> {
    match after
    case None => Sessions(db)
    case Some(fence) => Selected(db, true, fence, overlap)
  }

  /** Either query, evaluated, lists the chosen sessions in order. */
  lemma QueryRowsAre(db: Db, after: Option<int>, overlap: Option<string> -> bool)
    ensures QueryRows(db, after, overlap) == GenericList(db, InOrder(db, db.clock, Chosen(db, after, overlap)))
  {
    match after
    case None =>
      FullQueryIs(db);
      ListsMatch(db, InOrder(db, db.clock, Sessions(db)));
    case Some(fence) => GenericQueryIs(db, true, fence, overlap);
  }

  /** The query returns one row per chosen session. */
  lemma RowsAreChosen(db: Db, after: Option<int>, overlap: Option<string> -> bool)
    ensures var rows := QueryRows(db, after, overlap);
            && DistinctRows(rows)
            && (forall i | 0 <= i < |rows| ::
                rows[i].session in Chosen(db, after, overlap) && rows[i] == GenericRow(db, rows[i].session))
            && (forall s | s in Chosen(db, after, overlap) :: exists i ::
                0 <= i < |rows| && rows[i] == GenericRow(db, s))
  {
    var order := InOrder(db, db.clock, Chosen(db, after, overlap));
    QueryRowsAre(db, after, overlap);
    OrderDistinct(db, db.clock, Chosen(db, after, overlap));
    ListRows(db, order);
  }

  lemma OrderDistinct(db: Db, upTo: nat, s: set<string>)
    ensures Distinct(InOrder(db, upTo, s))
  {
    OrderTotal(db, upTo, s);
    var less := (a, b) => Precedes(db, upTo, a, b);
    var order := Listing(less, s);
    forall i, j | 0 <= i < j < |order| ensures order[i] != order[j] {
      assert less(order[i], order[j]) && order[i] in Elements(order);
    }
  }

  lemma ListRows(db: Db, order: seq<string>)
    requires Distinct(order)
    ensures var rows := GenericList(db, order);
            && DistinctRows(rows)
            && (forall i | 0 <= i < |rows| ::
                rows[i].session in Elements(order) && rows[i] == GenericRow(db, rows[i].session))
            && (forall s | s in Elements(order) :: exists i :: 0 <= i < |rows| && rows[i] == GenericRow(db, s))
  {
    var rows := GenericList(db, order);
    assert forall i | 0 <= i < |rows| :: rows[i] == GenericRow(db, order[i]) && rows[i].session == order[i];
    forall s | s in Elements(order) ensures exists i :: 0 <= i < |rows| && rows[i] == GenericRow(db, s) {
      var i :| 0 <= i < |order| && order[i] == s;
      assert rows[i] == GenericRow(db, s);
    }
  }

  lemma EveryChosenListed(parse: string -> Option<int>, db: Db, after: Option<int>, overlap: Option<string> -> bool,
                          sessions: seq<Summary>, s: string)
    requires s in Chosen(db, after, overlap)
    requires var rows := QueryRows(db, after, overlap);
             forall i | 0 <= i < |rows| :: Judge(parse, rows[i]).Listed? && Judge(parse, rows[i]).summary in sessions
    ensures exists x :: x in sessions && x.session == s
  {
    var rows := QueryRows(db, after, overlap);
    RowsAreChosen(db, after, overlap);
    var i :| 0 <= i < |rows| && rows[i] == GenericRow(db, s);
    assert Judge(parse, rows[i]).summary in sessions;
  }

  lemma EveryListedChosen(parse: string -> Option<int>, db: Db, after: Option<int>, overlap: Option<string> -> bool,
                          x: Summary)
    requires FromRow(parse, QueryRows(db, after, overlap), x)
    ensures x.session in Chosen(db, after, overlap) && Judge(parse, GenericRow(db, x.session)) == Listed(x)
  {
    RowsAreChosen(db, after, overlap);
    JudgedRow(parse, db, QueryRows(db, after, overlap), x);
  }

  lemma JudgedRow(parse: string -> Option<int>, db: Db, rows: seq<QueryRow>, x: Summary)
    requires FromRow(parse, rows, x)
    requires forall i | 0 <= i < |rows| :: rows[i] == GenericRow(db, rows[i].session)
    ensures Judge(parse, GenericRow(db, x.session)) == Listed(x)
    ensures exists i :: 0 <= i < |rows| && rows[i].session == x.session
  {
    var i :| 0 <= i < |rows| && Judge(parse, rows[i]) == Listed(x);
    assert rows[i].session == x.session;
  }

  /** A begun snapshot lists exactly the chosen sessions; those without records as tombstones. */
  lemma BegunLists(parse: string -> Option<int>, db: Db, after: Option<int>, overlap: Option<string> -> bool,
                   snap: Snapshot)
    requires BeginAt(parse, db, after, overlap) == Ready(snap)
    ensures DistinctSessions(snap.sessions)
    ensures forall x | x in snap.sessions ::
              x.session in Chosen(db, after, overlap) && Judge(parse, GenericRow(db, x.session)) == Listed(x)
    ensures forall s | s in Chosen(db, after, overlap) :: exists x :: x in snap.sessions && x.session == s
  {
    var rows := QueryRows(db, after, overlap);
    RowsAreChosen(db, after, overlap);
    BegunListsEveryRow(parse, db.clock, db.safeAfter, after, rows, snap);
    forall s | s in Chosen(db, after, overlap) ensures exists x :: x in snap.sessions && x.session == s {
      EveryChosenListed(parse, db, after, overlap, snap.sessions, s);
    }
    forall x | x in snap.sessions
      ensures x.session in Chosen(db, after, overlap) && Judge(parse, GenericRow(db, x.session)) == Listed(x)
    {
      EveryListedChosen(parse, db, after, overlap, x);
    }
  }

  /** A delta chooses a session if and only if one of its records overlaps the lower bound or an
      event after the given fence, up to the clock, names it. */
  lemma DeltaChoosesExactly(db: Db, after: int, overlap: Option<string> -> bool, s: string)
    requires s != ""
    ensures s in Chosen(db, Some(after), overlap) <==>
            || (exists r :: r in db.records && db.records[r].session == s && overlap(db.records[r].completedAt))
            || (exists k :: k in db.events && after < k <= db.clock
                            && (db.events[k].session == s || db.events[k].previous == s))
  {
    ChangedExactly(db, after, s);
    SelectedParts(db, after, overlap, s);
  }

  lemma ChangedExactly(db: Db, after: int, s: string)
    requires s != ""
    ensures s in Changed(db, true, after) <==>
            exists k :: k in db.events && after < k <= db.clock
                        && (db.events[k].session == s || db.events[k].previous == s)
  {
    var window := set k | k in db.events && true && after < k <= db.clock;
    if k :| k in db.events && after < k <= db.clock && (db.events[k].session == s || db.events[k].previous == s) {
      assert k in window;
    }
  }

  lemma SelectedParts(db: Db, after: int, overlap: Option<string> -> bool, s: string)
    ensures s in Selected(db, true, after, overlap) <==>
            || (exists r :: r in db.records && db.records[r].session == s && overlap(db.records[r].completedAt))
            || s in Changed(db, true, after)
  {
    if r :| r in db.records && db.records[r].session == s {
      assert s in Changed(db, true, after) ==> s in Selected(db, true, after, overlap);
    }
  }

  /** A full snapshot chooses exactly the sessions that have records. */
  lemma FullChoosesExactly(db: Db, overlap: Option<string> -> bool, s: string)
    ensures s in Chosen(db, None, overlap) <==> exists r :: r in db.records && db.records[r].session == s
  {
  }
}
