/** The tables behind a stable snapshot and the two queries that read them
(internal/archive/store.go, internal/archive/snapshot.go). A nullable text column is an
`Option<string>`; text is compared bytewise. */
module SnapshotQuery {
  import opened Types
  import opened Ordering

  /** A row of `records`, keyed elsewhere by its request id. `fields` stands for the other
      columns an export prints, inline legacy payloads included. */
  datatype Row = Row(
    session: string,
    startedAt: Option<string>,
    completedAt: Option<string>,
    original: Hash,
    upstream: Hash,
    response: Hash,
    fields: string)

  /** A row of `archive_ingest_events`; `previous` is `""` unless the session moved. */
  datatype Event = Event(session: string, previous: string, recordedAt: string)

  /** One exported line, as the values it is printed from. */
  datatype Line = Line(request: string, row: Row, original: Bytes, response: Bytes)

  /** A stored digest: the SHA-256 of an export, or text that is not a SHA-256 at all. */
  datatype Digest = Sha256(lines: seq<Line>) | Malformed(text: string)

  datatype DigestRow = DigestRow(digest: Digest, fence: int)

  datatype Db = Db(
    records: map<string, Row>,
    clock: nat,
    safeAfter: nat,
    events: map<nat, Event>,
    digests: map<string, DigestRow>,
    blobs: Store)

  datatype QueryRow = QueryRow(
    session: string,
    requests: nat,
    firstAt: Option<string>,
    lastAt: Option<string>,
    sessionFence: int,
    digest: Digest,
    digestFence: int,
    deleted: bool,
    changedAt: string)

  // ----- Aggregates -----

  ghost function MaxOf(s: set<nat>): (m: nat)
    ensures s == {} ==> m == 0
    ensures s != {} ==> m in s
    ensures forall x | x in s :: x <= m
  {
    if s == {} then 0
    else
      var x :| x in s;
      var rest := MaxOf(s - {x});
      assert s == s - {x} + {x};
      if x > rest then x else rest
  }

  predicate After(a: string, b: string) {
    TextLess(b, a)
  }

  lemma AfterTotal(s: set<string>)
    ensures TotalOn(After, s)
  {
    TextTotal(s);
    forall x, y, z | x in s && y in s && z in s && After(x, y) && After(y, z) ensures After(x, z) {
      assert TextLess(z, y) && TextLess(y, x);
    }
    forall x, y | x in s && y in s && x != y ensures After(x, y) || After(y, x) {
      assert TextLess(x, y) || TextLess(y, x);
    }
    forall x | x in s ensures !After(x, x) { assert !TextLess(x, x); }
  }

  /** SQL MIN over non-NULL text; NULL when there is none. */
  ghost function MinText(s: set<string>): Option<string> {
    TextTotal(s);
    if s == {} then None else Some(Listing(TextLess, s)[0])
  }

  ghost function MaxText(s: set<string>): Option<string> {
    AfterTotal(s);
    if s == {} then None else Some(Listing(After, s)[0])
  }

  predicate Mentions(e: Event, s: string) {
    e.session == s || e.previous == s
  }

  ghost function EventsOf(db: Db, s: string, upTo: nat): set<nat> {
    set k | k in db.events && Mentions(db.events[k], s) && k <= upTo
  }

  /** COALESCE(MAX(sequence),0) over the events that mention the session. */
  ghost function SessionFence(db: Db, s: string, upTo: nat): nat {
    MaxOf(EventsOf(db, s, upTo))
  }

  ghost function ChangedAt(db: Db, s: string, upTo: nat): Option<string> {
    MaxText(set k | k in EventsOf(db, s, upTo) :: db.events[k].recordedAt)
  }

  function OrEmpty(t: Option<string>): string {
    if t.Some? then t.value else ""
  }

  function Coalesce(a: Option<string>, b: Option<string>): Option<string> {
    if a.Some? then a else b
  }

  function DigestOf(db: Db, s: string): DigestRow {
    if s in db.digests then db.digests[s] else DigestRow(Malformed(""), -1)
  }

  // ----- Sessions -----

  ghost function RowsOf(db: Db, s: string): map<string, Row> {
    map r | r in db.records && db.records[r].session == s :: db.records[r]
  }

  ghost function Sessions(db: Db): set<string> {
    set r | r in db.records :: db.records[r].session
  }

  ghost function Started(rows: map<string, Row>): set<string> {
    set r | r in rows && rows[r].startedAt.Some? :: rows[r].startedAt.value
  }

  ghost function Completed(rows: map<string, Row>): set<string> {
    set r | r in rows && rows[r].completedAt.Some? :: rows[r].completedAt.value
  }

  // ----- ORDER BY -----

  /** Before in `ORDER BY key DESC, session ASC`; NULL sorts below every text. */
  predicate KeyBefore(a: Option<string>, b: Option<string>) {
    a.Some? && (b.None? || TextLess(b.value, a.value))
  }

  ghost function OrderKey(db: Db, s: string, upTo: nat): Option<string> {
    Coalesce(MaxText(Completed(RowsOf(db, s))), ChangedAt(db, s, upTo))
  }

  ghost predicate Precedes(db: Db, upTo: nat, a: string, b: string) {
    Before(OrderKey(db, a, upTo), a, OrderKey(db, b, upTo), b)
  }

  predicate Before(x: Option<string>, a: string, y: Option<string>, b: string) {
    KeyBefore(x, y) || (x == y && TextLess(a, b))
  }

  lemma BeforeTransitive(x: Option<string>, a: string, y: Option<string>, b: string, z: Option<string>, c: string)
    requires Before(x, a, y, b) && Before(y, b, z, c)
    ensures Before(x, a, z, c)
  {
    if KeyBefore(x, y) && KeyBefore(y, z) { KeyBeforeTransitive(x, y, z); }
    KeyBeforeTotal(x, x);
    if x == y && y == z { TextLessTransitive(a, b, c); }
  }

  lemma KeyBeforeTransitive(a: Option<string>, b: Option<string>, c: Option<string>)
    requires KeyBefore(a, b) && KeyBefore(b, c)
    ensures KeyBefore(a, c)
  {
    if c.Some? { TextLessTransitive(c.value, b.value, a.value); }
  }

  lemma KeyBeforeTotal(a: Option<string>, b: Option<string>)
    ensures !KeyBefore(a, a)
    ensures a != b ==> KeyBefore(a, b) || KeyBefore(b, a)
  {
    if a.Some? {
      TextLessIrreflexive(a.value);
      if b.Some? && a != b { TextLessConnected(a.value, b.value); }
    }
  }

  lemma OrderTotal(db: Db, upTo: nat, s: set<string>)
    ensures TotalOn((a, b) => Precedes(db, upTo, a, b), s)
  {
    var less := (a, b) => Precedes(db, upTo, a, b);
    forall x | x in s ensures !less(x, x) {
      KeyBeforeTotal(OrderKey(db, x, upTo), OrderKey(db, x, upTo));
      TextLessIrreflexive(x);
    }
    forall x, y | x in s && y in s && x != y ensures less(x, y) || less(y, x) {
      KeyBeforeTotal(OrderKey(db, x, upTo), OrderKey(db, y, upTo));
      TextLessConnected(x, y);
    }
    forall x, y, z | x in s && y in s && z in s && less(x, y) && less(y, z) ensures less(x, z) {
      BeforeTransitive(OrderKey(db, x, upTo), x, OrderKey(db, y, upTo), y, OrderKey(db, z, upTo), z);
    }
  }

  ghost function InOrder(db: Db, upTo: nat, s: set<string>): (r: seq<string>)
    ensures Elements(r) == s
  {
    OrderTotal(db, upTo, s);
    Listing((a, b) => Precedes(db, upTo, a, b), s)
  }

  // ----- The closed form of the optimised full query -----

  ghost function FullRow(db: Db, s: string): QueryRow {
    var group := RowsOf(db, s);
    QueryRow(s, |group|, MinText(Started(group)), MaxText(Completed(group)), SessionFence(db, s, db.clock),
             DigestOf(db, s).digest, DigestOf(db, s).fence, false, OrEmpty(ChangedAt(db, s, db.clock)))
  }

  /** One row per session that has records. */
  ghost function FullRows(db: Db): seq<QueryRow> {
    FullList(db, InOrder(db, db.clock, Sessions(db)))
  }

  ghost function FullList(db: Db, order: seq<string>): seq<QueryRow> {
    seq(|order|, i requires 0 <= i < |order| => FullRow(db, order[i]))
  }

  // ----- The closed form of the generic query with its delta switch -----

  /** The CTE `changed`: sessions that an event in (after, clock] names. */
  ghost function Changed(db: Db, useDelta: bool, after: int): set<string> {
    var window := set k | k in db.events && useDelta && after < k <= db.clock;
    (set k | k in window :: db.events[k].session)
    + (set k | k in window && db.events[k].previous != "" :: db.events[k].previous)
  }

  /** The CTE `selected`. `overlap` is the julianday comparison with the lower bound. */
  ghost function Selected(db: Db, useDelta: bool, after: int, overlap: Option<string> -> bool): set<string> {
    var changed := Changed(db, useDelta, after);
    (set r | r in db.records && (!useDelta || overlap(db.records[r].completedAt) || db.records[r].session in changed)
       :: db.records[r].session)
    + (set s | s in changed && forall r | r in db.records :: db.records[r].session != s)
  }

  /** One selected session, LEFT JOINed with its records and its digest. */
  ghost function GenericRow(db: Db, s: string): QueryRow {
    var joined := RowsOf(db, s);
    QueryRow(s, |joined|, MinText(Started(joined)), MaxText(Completed(joined)), SessionFence(db, s, db.clock),
             DigestOf(db, s).digest, DigestOf(db, s).fence, |joined| == 0, OrEmpty(ChangedAt(db, s, db.clock)))
  }

  ghost function GenericRows(db: Db, useDelta: bool, after: int, overlap: Option<string> -> bool): seq<QueryRow> {
    GenericList(db, InOrder(db, db.clock, Selected(db, useDelta, after, overlap)))
  }

  ghost function GenericList(db: Db, order: seq<string>): seq<QueryRow> {
    seq(|order|, i requires 0 <= i < |order| => GenericRow(db, order[i]))
  }

  lemma HasRows(db: Db, s: string)
    ensures s in Sessions(db) <==> RowsOf(db, s) != map[]
  {
    if s in Sessions(db) {
      var r :| r in db.records && db.records[r].session == s;
      assert r in RowsOf(db, s);
    }
    if RowsOf(db, s) != map[] {
      var r :| r in RowsOf(db, s);
    }
  }

  /** With the delta switch off the generic query selects exactly the sessions with records. */
  lemma SwitchedOff(db: Db, after: int, overlap: Option<string> -> bool)
    ensures Selected(db, false, after, overlap) == Sessions(db)
  {
  }

  lemma RowsMatch(db: Db, s: string)
    requires s in Sessions(db)
    ensures FullRow(db, s) == GenericRow(db, s)
  {
    HasRows(db, s);
  }

  lemma ClosedFormsAgree(db: Db, after: int, overlap: Option<string> -> bool)
    ensures FullRows(db) == GenericRows(db, false, after, overlap)
  {
    SwitchedOff(db, after, overlap);
    ListsMatch(db, InOrder(db, db.clock, Sessions(db)));
  }

  lemma ListsMatch(db: Db, order: seq<string>)
    requires Elements(order) == Sessions(db)
    ensures FullList(db, order) == GenericList(db, order)
  {
    forall i | 0 <= i < |order| ensures FullRow(db, order[i]) == GenericRow(db, order[i]) {
      assert order[i] in Elements(order);
      RowsMatch(db, order[i]);
    }
  }
}
