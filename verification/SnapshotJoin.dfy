/** The two snapshot queries as SQL evaluates them (internal/archive/snapshot.go): each its own
joins, groups, columns and order. They meet only in the closed forms of SnapshotQuery. */
module SnapshotJoin {
  import opened Types
  import opened Ordering
  import opened SnapshotQuery

  // ----- Aggregates over a group -----

  /** A column outside an aggregate takes its value from some row of the group. */
  ghost function Bare(values: set<Option<DigestRow>>): Option<DigestRow> {
    if values == {} then None else var v :| v in values; v
  }

  function Sha(d: Option<DigestRow>): Digest {
    if d.Some? then d.value.digest else Malformed("")
  }

  function Fence(d: Option<DigestRow>): int {
    if d.Some? then d.value.fence else -1
  }

  // ----- The optimised query: records LEFT JOIN digests -----

  datatype FullTuple = FullTuple(request: string, row: Row, digest: Option<DigestRow>)

  ghost function FullFrom(db: Db): set<FullTuple> {
    (set r, s | r in db.records && s in db.digests && s == db.records[r].session ::
       FullTuple(r, db.records[r], Some(db.digests[s])))
    + (set r | r in db.records && (forall s | s in db.digests :: s != db.records[r].session) ::
         FullTuple(r, db.records[r], None))
  }

  /** GROUP BY records.session_id. */
  ghost function FullGroup(db: Db, s: string): set<FullTuple> {
    set t | t in FullFrom(db) && t.row.session == s
  }

  ghost function FullKeys(db: Db): set<string> {
    set t | t in FullFrom(db) :: t.row.session
  }

  /** A row of the CTE full_projection. */
  datatype Projection = Projection(
    session: string, requests: nat, firstAt: Option<string>, lastAt: Option<string>, sessionFence: nat,
    digest: Digest, digestFence: int, changedAt: Option<string>)

  ghost function FullStarted(group: set<FullTuple>): set<string> {
    set t | t in group && t.row.startedAt.Some? :: t.row.startedAt.value
  }

  ghost function FullCompleted(group: set<FullTuple>): set<string> {
    set t | t in group && t.row.completedAt.Some? :: t.row.completedAt.value
  }

  ghost function FullDigest(group: set<FullTuple>): Option<DigestRow> {
    Bare(set t | t in group :: t.digest)
  }

  ghost function Project(db: Db, s: string): Projection {
    var group := FullGroup(db, s);
    Projection(s, |group|, MinText(FullStarted(group)), MaxText(FullCompleted(group)), SessionFence(db, s, db.clock),
               Sha(FullDigest(group)), Fence(FullDigest(group)), ChangedAt(db, s, db.clock))
  }

  ghost function Projections(db: Db): set<Projection> {
    set s | s in FullKeys(db) :: Project(db, s)
  }

  /** ORDER BY COALESCE(last_at,changed_at) DESC, session_id ASC. */
  predicate ProjectionBefore(a: Projection, b: Projection) {
    Before(Coalesce(a.lastAt, a.changedAt), a.session, Coalesce(b.lastAt, b.changedAt), b.session)
  }

  function Select(p: Projection): QueryRow {
    QueryRow(p.session, p.requests, p.firstAt, p.lastAt, p.sessionFence, p.digest, p.digestFence, false,
             OrEmpty(p.changedAt))
  }

  lemma ProjectionsTotal(db: Db)
    ensures TotalOn(ProjectionBefore, Projections(db))
  {
    var s := Projections(db);
    forall x | x in s ensures !ProjectionBefore(x, x) {
      KeyBeforeTotal(Coalesce(x.lastAt, x.changedAt), Coalesce(x.lastAt, x.changedAt));
      TextLessIrreflexive(x.session);
    }
    forall x, y, z | x in s && y in s && z in s && ProjectionBefore(x, y) && ProjectionBefore(y, z)
      ensures ProjectionBefore(x, z)
    {
      BeforeTransitive(Coalesce(x.lastAt, x.changedAt), x.session, Coalesce(y.lastAt, y.changedAt), y.session,
                       Coalesce(z.lastAt, z.changedAt), z.session);
    }
    forall x, y | x in s && y in s && x != y ensures ProjectionBefore(x, y) || ProjectionBefore(y, x) {
      KeyBeforeTotal(Coalesce(x.lastAt, x.changedAt), Coalesce(y.lastAt, y.changedAt));
      TextLessConnected(x.session, y.session);
    }
  }

  ghost function OrderedProjections(db: Db): seq<Projection> {
    ProjectionsTotal(db);
    Listing(ProjectionBefore, Projections(db))
  }

  /** stableFullSnapshotQuery. */
  ghost function FullQuery(db: Db): seq<QueryRow> {
    var order := OrderedProjections(db);
    seq(|order|, i requires 0 <= i < |order| => Select(order[i]))
  }

  // ----- Its closed form -----

  function Lookup(db: Db, s: string): Option<DigestRow> {
    if s in db.digests then Some(db.digests[s]) else None
  }

  function FullTupleOf(db: Db, r: string): FullTuple
    requires r in db.records
  {
    FullTuple(r, db.records[r], Lookup(db, db.records[r].session))
  }

  lemma FullFromIs(db: Db, t: FullTuple)
    ensures t in FullFrom(db) <==> t.request in db.records && t == FullTupleOf(db, t.request)
  {
  }

  lemma FullGroupIs(db: Db, s: string, t: FullTuple)
    ensures t in FullGroup(db, s) <==> t.request in RowsOf(db, s) && t == FullTupleOf(db, t.request)
  {
    FullFromIs(db, t);
  }

  ghost function TuplesOf(db: Db, requests: set<string>): set<FullTuple> {
    set r | r in requests && r in db.records :: FullTupleOf(db, r)
  }

  lemma {:induction false} TupleCount(db: Db, requests: set<string>)
    requires requests <= db.records.Keys
    ensures |TuplesOf(db, requests)| == |requests|
    decreases |requests|
  {
    if requests != {} {
      var r :| r in requests;
      TupleCount(db, requests - {r});
      assert TuplesOf(db, requests) == TuplesOf(db, requests - {r}) + {FullTupleOf(db, r)};
    } else {
      assert TuplesOf(db, requests) == {};
    }
  }

  lemma FullGroupSize(db: Db, s: string)
    ensures |FullGroup(db, s)| == |RowsOf(db, s)|
  {
    var requests := RowsOf(db, s).Keys;
    forall t ensures t in FullGroup(db, s) <==> t in TuplesOf(db, requests) { FullGroupIs(db, s, t); }
    assert FullGroup(db, s) == TuplesOf(db, requests);
    TupleCount(db, requests);
    assert |requests| == |RowsOf(db, s)|;
  }

  lemma FullColumns(db: Db, s: string)
    ensures FullStarted(FullGroup(db, s)) == Started(RowsOf(db, s))
    ensures FullCompleted(FullGroup(db, s)) == Completed(RowsOf(db, s))
  {
    forall r | r in RowsOf(db, s) ensures FullTupleOf(db, r) in FullGroup(db, s) {
      FullGroupIs(db, s, FullTupleOf(db, r));
    }
    forall t | t in FullGroup(db, s) ensures t.request in RowsOf(db, s) && t.row == RowsOf(db, s)[t.request] {
      FullGroupIs(db, s, t);
    }
  }

  lemma FullDigestIs(db: Db, s: string)
    requires RowsOf(db, s) != map[]
    ensures FullDigest(FullGroup(db, s)) == Lookup(db, s)
  {
    var values := set t | t in FullGroup(db, s) :: t.digest;
    forall t | t in FullGroup(db, s) ensures t.digest == Lookup(db, s) { FullGroupIs(db, s, t); }
    var r :| r in RowsOf(db, s);
    FullGroupIs(db, s, FullTupleOf(db, r));
    assert FullTupleOf(db, r).digest in values;
  }

  lemma FullKeysAre(db: Db)
    ensures FullKeys(db) == Sessions(db)
  {
    forall r | r in db.records ensures FullTupleOf(db, r) in FullFrom(db) { FullFromIs(db, FullTupleOf(db, r)); }
    forall t | t in FullFrom(db)
      ensures t.request in db.records && t.row == db.records[t.request]
    {
      FullFromIs(db, t);
    }
  }

  lemma ProjectIs(db: Db, s: string)
    requires s in Sessions(db)
    ensures Select(Project(db, s)) == FullRow(db, s)
    ensures Coalesce(Project(db, s).lastAt, Project(db, s).changedAt) == OrderKey(db, s, db.clock)
  {
    HasRows(db, s);
    FullGroupSize(db, s);
    FullColumns(db, s);
    FullDigestIs(db, s);
  }

  ghost function SessionsOf(order: seq<Projection>): seq<string> {
    seq(|order|, i requires 0 <= i < |order| => order[i].session)
  }

  lemma OrderedIsProjected(db: Db, i: nat)
    requires i < |OrderedProjections(db)|
    ensures var p := OrderedProjections(db)[i]; p.session in Sessions(db) && p == Project(db, p.session)
  {
    var order := OrderedProjections(db);
    assert order[i] in Elements(order);
    FullKeysAre(db);
  }

  lemma FullOrder(db: Db)
    ensures SessionsOf(OrderedProjections(db)) == InOrder(db, db.clock, Sessions(db))
  {
    var order := OrderedProjections(db);
    var sessions := SessionsOf(order);
    ProjectionsTotal(db);
    var less := (a, b) => Precedes(db, db.clock, a, b);
    forall i, j | 0 <= i < j < |sessions| ensures less(sessions[i], sessions[j]) {
      OrderedIsProjected(db, i);
      OrderedIsProjected(db, j);
      ProjectIs(db, sessions[i]);
      ProjectIs(db, sessions[j]);
      assert ProjectionBefore(order[i], order[j]);
    }
    assert Elements(sessions) == Sessions(db) by { FullElements(db); }
    OrderTotal(db, db.clock, Sessions(db));
    AscendingIsListing(less, sessions, Sessions(db));
  }

  lemma EverySessionOrdered(db: Db, s: string)
    requires s in Sessions(db)
    ensures s in SessionsOf(OrderedProjections(db))
  {
    var order := OrderedProjections(db);
    FullKeysAre(db);
    assert Project(db, s) in Projections(db);
    assert Project(db, s) in Elements(order);
    var i :| 0 <= i < |order| && order[i] == Project(db, s);
    assert SessionsOf(order)[i] == s;
  }

  lemma FullElements(db: Db)
    ensures Elements(SessionsOf(OrderedProjections(db))) == Sessions(db)
  {
    var order := OrderedProjections(db);
    forall i | 0 <= i < |order| ensures SessionsOf(order)[i] in Sessions(db) { OrderedIsProjected(db, i); }
    forall s | s in Sessions(db) ensures s in SessionsOf(order) { EverySessionOrdered(db, s); }
  }

  /** The optimised query, evaluated, gives the closed form. */
  lemma FullQueryIs(db: Db)
    ensures FullQuery(db) == FullRows(db)
  {
    FullOrder(db);
    FullRowsSelected(db, OrderedProjections(db));
  }

  lemma FullRowsSelected(db: Db, order: seq<Projection>)
    requires order == OrderedProjections(db)
    ensures FullList(db, SessionsOf(order)) == seq(|order|, i requires 0 <= i < |order| => Select(order[i]))
  {
    forall i | 0 <= i < |order| ensures Select(order[i]) == FullRow(db, order[i].session) { SelectedAt(db, i); }
  }

  lemma SelectedAt(db: Db, i: nat)
    requires i < |OrderedProjections(db)|
    ensures var p := OrderedProjections(db)[i]; Select(p) == FullRow(db, p.session)
  {
    OrderedIsProjected(db, i);
    ProjectIs(db, OrderedProjections(db)[i].session);
  }

  // ----- The generic query: selected LEFT JOIN records LEFT JOIN digests -----

  /** A row of selected LEFT JOIN records; no record when none matches. */
  datatype Matched = Matched(session: string, request: string, row: Option<Row>)

  datatype GenericTuple = GenericTuple(matched: Matched, digest: Option<DigestRow>)

  ghost function MatchRecords(db: Db, selected: set<string>): set<Matched> {
    (set s, r | s in selected && r in db.records && db.records[r].session == s :: Matched(s, r, Some(db.records[r])))
    + (set s | s in selected && (forall r | r in db.records :: db.records[r].session != s) :: Matched(s, "", None))
  }

  ghost function GenericFrom(db: Db, selected: set<string>): set<GenericTuple> {
    (set m, s | m in MatchRecords(db, selected) && s in db.digests && s == m.session ::
       GenericTuple(m, Some(db.digests[s])))
    + (set m | m in MatchRecords(db, selected) && (forall s | s in db.digests :: s != m.session) ::
        GenericTuple(m, None))
  }

  /** GROUP BY selected.session_id. */
  ghost function GenericGroup(db: Db, selected: set<string>, s: string): set<GenericTuple> {
    set t | t in GenericFrom(db, selected) && t.matched.session == s
  }

  ghost function GenericKeys(db: Db, selected: set<string>): set<string> {
    set t | t in GenericFrom(db, selected) :: t.matched.session
  }

  /** COUNT(records.id) does not count the unmatched row. */
  ghost function Counted(group: set<GenericTuple>): set<GenericTuple> {
    set t | t in group && t.matched.row.Some?
  }

  ghost function GenericStarted(group: set<GenericTuple>): set<string> {
    set t | t in Counted(group) && t.matched.row.value.startedAt.Some? :: t.matched.row.value.startedAt.value
  }

  ghost function GenericCompleted(group: set<GenericTuple>): set<string> {
    set t | t in Counted(group) && t.matched.row.value.completedAt.Some? :: t.matched.row.value.completedAt.value
  }

  ghost function GenericDigest(group: set<GenericTuple>): Option<DigestRow> {
    Bare(set t | t in group :: t.digest)
  }

  ghost function GenericSelect(db: Db, selected: set<string>, s: string): QueryRow {
    var group := GenericGroup(db, selected, s);
    QueryRow(s, |Counted(group)|, MinText(GenericStarted(group)), MaxText(GenericCompleted(group)),
             SessionFence(db, s, db.clock), Sha(GenericDigest(group)), Fence(GenericDigest(group)),
             |Counted(group)| == 0, OrEmpty(ChangedAt(db, s, db.clock)))
  }

  /** ORDER BY COALESCE(MAX(records.completed_at), the last change) DESC, session_id ASC. */
  ghost function GenericKey(db: Db, selected: set<string>, s: string): Option<string> {
    Coalesce(MaxText(GenericCompleted(GenericGroup(db, selected, s))), ChangedAt(db, s, db.clock))
  }

  ghost predicate GenericBefore(db: Db, selected: set<string>, a: string, b: string) {
    Before(GenericKey(db, selected, a), a, GenericKey(db, selected, b), b)
  }

  lemma GenericTotal(db: Db, selected: set<string>, s: set<string>)
    ensures TotalOn((a, b) => GenericBefore(db, selected, a, b), s)
  {
    var less := (a, b) => GenericBefore(db, selected, a, b);
    forall x | x in s ensures !less(x, x) { GenericConnected(db, selected, x, x); }
    forall x, y | x in s && y in s && x != y ensures less(x, y) || less(y, x) { GenericConnected(db, selected, x, y); }
    forall x, y, z | x in s && y in s && z in s && less(x, y) && less(y, z) ensures less(x, z) {
      GenericTransitive(db, selected, x, y, z);
    }
  }

  lemma GenericTransitive(db: Db, selected: set<string>, x: string, y: string, z: string)
    requires GenericBefore(db, selected, x, y) && GenericBefore(db, selected, y, z)
    ensures GenericBefore(db, selected, x, z)
  {
    BeforeTransitive(GenericKey(db, selected, x), x, GenericKey(db, selected, y), y, GenericKey(db, selected, z), z);
  }

  lemma GenericConnected(db: Db, selected: set<string>, x: string, y: string)
    ensures !GenericBefore(db, selected, x, x)
    ensures x != y ==> GenericBefore(db, selected, x, y) || GenericBefore(db, selected, y, x)
  {
    KeyBeforeTotal(GenericKey(db, selected, x), GenericKey(db, selected, y));
    TextLessIrreflexive(x);
    if x != y { TextLessConnected(x, y); }
  }

  ghost function GenericOrder(db: Db, selected: set<string>): (order: seq<string>)
    ensures Elements(order) == GenericKeys(db, selected)
  {
    GenericTotal(db, selected, GenericKeys(db, selected));
    Listing((a, b) => GenericBefore(db, selected, a, b), GenericKeys(db, selected))
  }

  ghost function GenericOver(db: Db, selected: set<string>): seq<QueryRow> {
    var order := GenericOrder(db, selected);
    seq(|order|, i requires 0 <= i < |order| => GenericSelect(db, selected, order[i]))
  }

  /** The query of BeginStableSessionSnapshot with its delta switch. */
  ghost function GenericQuery(db: Db, useDelta: bool, after: int, overlap: Option<string> -> bool): seq<QueryRow> {
    GenericOver(db, Selected(db, useDelta, after, overlap))
  }

  // ----- Its closed form -----

  ghost function MatchOf(db: Db, r: string): Matched
    requires r in db.records
  {
    Matched(db.records[r].session, r, Some(db.records[r]))
  }

  lemma MatchIs(db: Db, selected: set<string>, m: Matched)
    ensures m in MatchRecords(db, selected) <==>
            m.session in selected
            && if m.row.Some? then m.request in RowsOf(db, m.session) && m == MatchOf(db, m.request)
               else m.request == "" && RowsOf(db, m.session) == map[]
  {
    HasRows(db, m.session);
  }

  lemma GenericFromIs(db: Db, selected: set<string>, t: GenericTuple)
    ensures t in GenericFrom(db, selected) <==>
            t.matched in MatchRecords(db, selected) && t.digest == Lookup(db, t.matched.session)
  {
  }

  ghost function MatchesOf(db: Db, s: string, requests: set<string>): set<GenericTuple> {
    set r | r in requests && r in db.records :: GenericTuple(MatchOf(db, r), Lookup(db, s))
  }

  lemma {:induction false} MatchCount(db: Db, s: string, requests: set<string>)
    requires requests <= db.records.Keys
    ensures |MatchesOf(db, s, requests)| == |requests|
    decreases |requests|
  {
    if requests != {} {
      var r :| r in requests;
      MatchCount(db, s, requests - {r});
      assert MatchesOf(db, s, requests) ==
             MatchesOf(db, s, requests - {r}) + {GenericTuple(MatchOf(db, r), Lookup(db, s))};
    } else {
      assert MatchesOf(db, s, requests) == {};
    }
  }

  lemma CountedIs(db: Db, selected: set<string>, s: string)
    requires s in selected
    ensures Counted(GenericGroup(db, selected, s)) == MatchesOf(db, s, RowsOf(db, s).Keys)
  {
    var counted, matches := Counted(GenericGroup(db, selected, s)), MatchesOf(db, s, RowsOf(db, s).Keys);
    forall t ensures t in counted <==> t in matches {
      GenericFromIs(db, selected, t);
      MatchIs(db, selected, t.matched);
    }
  }

  lemma GenericColumns(db: Db, selected: set<string>, s: string)
    requires s in selected
    ensures |Counted(GenericGroup(db, selected, s))| == |RowsOf(db, s)|
    ensures GenericStarted(GenericGroup(db, selected, s)) == Started(RowsOf(db, s))
    ensures GenericCompleted(GenericGroup(db, selected, s)) == Completed(RowsOf(db, s))
  {
    CountedIs(db, selected, s);
    MatchCount(db, s, RowsOf(db, s).Keys);
    assert |RowsOf(db, s).Keys| == |RowsOf(db, s)|;
    forall r | r in RowsOf(db, s)
      ensures GenericTuple(MatchOf(db, r), Lookup(db, s)) in Counted(GenericGroup(db, selected, s))
    {
    }
  }

  lemma GroupInhabited(db: Db, selected: set<string>, s: string) returns (t: GenericTuple)
    requires s in selected
    ensures t in GenericGroup(db, selected, s)
  {
    var m := Matched(s, "", None);
    if RowsOf(db, s) != map[] {
      var r :| r in RowsOf(db, s);
      m := MatchOf(db, r);
    }
    t := GenericTuple(m, Lookup(db, s));
    MatchIs(db, selected, m);
    GenericFromIs(db, selected, t);
  }

  lemma GenericDigestIs(db: Db, selected: set<string>, s: string)
    requires s in selected
    ensures GenericDigest(GenericGroup(db, selected, s)) == Lookup(db, s)
  {
    var values := set t | t in GenericGroup(db, selected, s) :: t.digest;
    forall t | t in GenericGroup(db, selected, s) ensures t.digest == Lookup(db, s) { GenericFromIs(db, selected, t); }
    var t := GroupInhabited(db, selected, s);
    assert t.digest in values;
  }

  lemma GenericSelectIs(db: Db, selected: set<string>, s: string)
    requires s in selected
    ensures GenericSelect(db, selected, s) == GenericRow(db, s)
    ensures GenericKey(db, selected, s) == OrderKey(db, s, db.clock)
  {
    GenericColumns(db, selected, s);
    GenericDigestIs(db, selected, s);
  }

  lemma GenericKeysAre(db: Db, selected: set<string>)
    ensures GenericKeys(db, selected) == selected
  {
    forall s | s in selected ensures s in GenericKeys(db, selected) { var t := GroupInhabited(db, selected, s); }
    forall t | t in GenericFrom(db, selected) ensures t.matched.session in selected {
      GenericFromIs(db, selected, t);
      MatchIs(db, selected, t.matched);
    }
  }

  lemma GenericOrderIs(db: Db, selected: set<string>)
    ensures GenericOrder(db, selected) == InOrder(db, db.clock, selected)
  {
    var order := GenericOrder(db, selected);
    GenericKeysAre(db, selected);
    GenericTotal(db, selected, selected);
    var less := (a, b) => Precedes(db, db.clock, a, b);
    forall i, j | 0 <= i < j < |order| ensures less(order[i], order[j]) {
      assert order[i] in Elements(order) && order[j] in Elements(order);
      GenericSelectIs(db, selected, order[i]);
      GenericSelectIs(db, selected, order[j]);
      assert GenericBefore(db, selected, order[i], order[j]);
    }
    OrderTotal(db, db.clock, selected);
    AscendingIsListing(less, order, selected);
  }

  lemma GenericOverIs(db: Db, selected: set<string>)
    ensures GenericOver(db, selected) == GenericList(db, InOrder(db, db.clock, selected))
  {
    var order := GenericOrder(db, selected);
    GenericOrderIs(db, selected);
    GenericKeysAre(db, selected);
    forall i | 0 <= i < |order| ensures GenericSelect(db, selected, order[i]) == GenericRow(db, order[i]) {
      assert order[i] in Elements(order);
      GenericSelectIs(db, selected, order[i]);
    }
  }

  /** The generic query, evaluated, gives the closed form. */
  lemma GenericQueryIs(db: Db, useDelta: bool, after: int, overlap: Option<string> -> bool)
    ensures GenericQuery(db, useDelta, after, overlap) == GenericRows(db, useDelta, after, overlap)
  {
    GenericOverIs(db, Selected(db, useDelta, after, overlap));
  }

  /** For every contents of the tables the optimised query returns the rows of the generic query
      with the delta switch off, in the same order. */
  lemma FullMatchesGeneric(db: Db, after: int, overlap: Option<string> -> bool)
    ensures FullQuery(db) == GenericQuery(db, false, after, overlap)
  {
    FullQueryIs(db);
    GenericQueryIs(db, false, after, overlap);
    ClosedFormsAgree(db, after, overlap);
  }
}
