/** The seek-cursor walk over one session's records (internal/archive/store.go): bounded
batches instead of one query, with the same result. */
module SeekExport {
  import opened Types
  import opened Ordering

  const BATCH_SIZE := 128
  const BATCH_BYTES := 16 * 1024 * 1024

  /** A record row; `bytes` is what residentBytes adds up for it. */
  datatype Row = Row(session: string, startedAt: string, id: int, bytes: nat)

  /** ORDER BY started_at,id. */
  predicate RowLess(a: Row, b: Row) {
    TextLess(a.startedAt, b.startedAt) || (a.startedAt == b.startedAt && a.id < b.id)
  }

  /** WHERE started_at>? OR (started_at=? AND id>?). */
  predicate After(startedAt: string, id: int, row: Row) {
    TextLess(startedAt, row.startedAt) || (row.startedAt == startedAt && row.id > id)
  }

  ghost predicate UniqueIds(s: set<Row>) {
    forall a, b | a in s && b in s && a.id == b.id :: a == b
  }

  lemma RowLessTotal(s: set<Row>)
    requires UniqueIds(s)
    ensures TotalOn(RowLess, s)
  {
    forall x | x in s ensures !RowLess(x, x) { TextLessIrreflexive(x.startedAt); }
    forall x, y, z | x in s && y in s && z in s && RowLess(x, y) && RowLess(y, z) ensures RowLess(x, z) {
      RowLessTransitive(x, y, z);
    }
    forall x, y | x in s && y in s && x != y ensures RowLess(x, y) || RowLess(y, x) {
      if x.startedAt != y.startedAt { TextLessConnected(x.startedAt, y.startedAt); }
    }
  }

  lemma RowLessTransitive(x: Row, y: Row, z: Row)
    requires RowLess(x, y) && RowLess(y, z)
    ensures RowLess(x, z)
  {
    if TextLess(x.startedAt, y.startedAt) && TextLess(y.startedAt, z.startedAt) {
      TextLessTransitive(x.startedAt, y.startedAt, z.startedAt);
    }
  }

  /** The rows a query with this cursor sees, before LIMIT. */
  function Remaining(rows: seq<Row>, startedAt: string, id: int): seq<Row> {
    Filter(row => After(startedAt, id, row), rows)
  }

  /** The walk starts from the empty text and id zero. */
  function Reached(rows: seq<Row>): seq<Row> {
    Remaining(rows, "", 0)
  }

  lemma RemainingAscending(rows: seq<Row>, startedAt: string, id: int)
    requires Ascending(RowLess, rows)
    ensures Ascending(RowLess, Remaining(rows, startedAt, id))
  {
    FilterAscending(RowLess, row => After(startedAt, id, row), rows);
  }

  /** Whatever a row is after, what follows the row is after too. */
  lemma AfterMonotone(startedAt: string, id: int, a: Row, b: Row)
    requires After(startedAt, id, a) && RowLess(a, b)
    ensures After(startedAt, id, b)
  {
    if TextLess(startedAt, a.startedAt) && TextLess(a.startedAt, b.startedAt) {
      TextLessTransitive(startedAt, a.startedAt, b.startedAt);
    }
  }

  /** Seeking after the k-th row of the walk leaves exactly the rows behind it, however many
      timestamps are equal. */
  lemma SeekSkipsExactly(rows: seq<Row>, k: nat)
    requires Ascending(RowLess, rows) && UniqueIds(Elements(rows)) && 0 < k <= |Reached(rows)|
    ensures var last := Reached(rows)[k - 1];
            Remaining(rows, last.startedAt, last.id) == Reached(rows)[k..]
  {
    var walk := Reached(rows);
    var last := walk[k - 1];
    var rest := Remaining(rows, last.startedAt, last.id);
    RemainingAscending(rows, "", 0);
    RemainingAscending(rows, last.startedAt, last.id);
    assert last in walk;
    forall x ensures x in rest <==> x in walk[k..] {
      SeekMember(rows, k, x);
    }
    RowLessTotal(Elements(rows));
    TotalOnSubset(RowLess, Elements(rows), Elements(rest));
    AscendingUnique(RowLess, rest, walk[k..]);
  }

  lemma SeekMember(rows: seq<Row>, k: nat, x: Row)
    requires Ascending(RowLess, rows) && UniqueIds(Elements(rows)) && 0 < k <= |Reached(rows)|
    ensures var last := Reached(rows)[k - 1];
            x in Remaining(rows, last.startedAt, last.id) <==> x in Reached(rows)[k..]
  {
    var walk := Reached(rows);
    var last := walk[k - 1];
    assert last in walk;
    RemainingAscending(rows, "", 0);
    RowLessTotal(Elements(rows));
    if x in walk[k..] {
      var i :| 0 <= i < |walk[k..]| && walk[k..][i] == x;
      assert RowLess(walk[k - 1], walk[k + i]);
    }
    if x in rows && RowLess(last, x) {
      AfterMonotone("", 0, last, x);
      assert x in walk;
      var i :| 0 <= i < |walk| && walk[i] == x;
      LaterIndex(walk, k - 1, i);
      assert walk[k..][i - k] == x;
    }
  }

  lemma LaterIndex(walk: seq<Row>, k: nat, i: nat)
    requires k < |walk| && i < |walk| && Ascending(RowLess, walk) && RowLess(walk[k], walk[i])
    ensures k < i
  {
    TextLessIrreflexive(walk[k].startedAt);
    assert i < k ==> RowLess(walk[i], walk[k]);
    if RowLess(walk[i], walk[k]) { RowLessTransitive(walk[k], walk[i], walk[k]); }
  }

  function Cursor(walk: seq<Row>, k: nat): (string, int)
    requires k <= |walk|
  {
    if k == 0 then ("", 0) else (walk[k - 1].startedAt, walk[k - 1].id)
  }

  /** The resident bytes of the first `n` rows. */
  function BytesOf(found: seq<Row>, n: nat): nat
    requires n <= |found|
  {
    if n == 0 then 0 else BytesOf(found, n - 1) + found[n - 1].bytes
  }

  /** How many rows of a query result one batch keeps: it stops right after the first row that
      fills it, so a batch without its last row is below the limit and one over-large row
      still leaves the query. */
  method CutBatch(found: seq<Row>, byteLimit: nat) returns (n: nat, limited: bool)
    ensures n <= |found| && (found != [] ==> n > 0) && (limited ==> n > 0) && (!limited ==> n == |found|)
    ensures limited <==> exists j | 0 < j <= |found| :: BytesOf(found, j) >= byteLimit
    ensures limited ==> BytesOf(found, n) >= byteLimit
    ensures forall j | 0 < j < n :: BytesOf(found, j) < byteLimit
  {
    n, limited := 0, false;
    var total := 0;
    while n < |found| && !limited
      invariant n <= |found| && (limited ==> n > 0) && total == BytesOf(found, n)
      invariant forall j | 0 < j < n :: BytesOf(found, j) < byteLimit
      invariant n > 0 ==> (limited <==> total >= byteLimit)
    {
      total := total + found[n].bytes;
      n := n + 1;
      limited := total >= byteLimit;
    }
  }

  /** One query and one cut: the next rows of the walk. */
  method NextBatch(rows: seq<Row>, afterStarted: string, afterId: int, batchSize: nat, byteLimit: nat, ghost k: nat)
    returns (batch: seq<Row>, limited: bool)
    requires batchSize >= 1 && Ascending(RowLess, rows) && UniqueIds(Elements(rows))
    requires k <= |Reached(rows)| && (afterStarted, afterId) == Cursor(Reached(rows), k)
    ensures k + |batch| <= |Reached(rows)| && batch == Reached(rows)[k..k + |batch|]
    ensures |batch| < batchSize && !limited ==> k + |batch| == |Reached(rows)|
    ensures batch == [] ==> !limited
  {
    var remaining := Remaining(rows, afterStarted, afterId);
    if k > 0 { SeekSkipsExactly(rows, k); }
    assert remaining == Reached(rows)[k..];
    var found := remaining[..if |remaining| < batchSize then |remaining| else batchSize];
    var n;
    n, limited := CutBatch(found, byteLimit);
    batch := found[..n];
    assert found == Reached(rows)[k..][..|found|];
    assert batch == Reached(rows)[k..][..n];
    assert Reached(rows)[k..][..n] == Reached(rows)[k..k + n];
  }

  /** exportSessionArchiveBatches, for any batch size and any byte limit. `rows` are the
      session's rows as the index orders them. */
  method ExportInBatches(rows: seq<Row>, batchSize: nat, byteLimit: nat) returns (out: seq<Row>)
    requires batchSize >= 1 && Ascending(RowLess, rows) && UniqueIds(Elements(rows))
    ensures out == Reached(rows)
  {
    ghost var walk := Reached(rows);
    var afterStarted, afterId := "", 0;
    out := [];
    while true
      invariant |out| <= |walk| && out == walk[..|out|]
      invariant (afterStarted, afterId) == Cursor(walk, |out|)
      decreases |walk| - |out|
    {
      var batch, limited := NextBatch(rows, afterStarted, afterId, batchSize, byteLimit, |out|);
      assert walk[..|out| + |batch|] == walk[..|out|] + walk[|out|..|out| + |batch|];
      out := out + batch;
      if batch != [] {
        afterStarted, afterId := batch[|batch| - 1].startedAt, batch[|batch| - 1].id;
      }
      if |batch| < batchSize && !limited {
        return;
      }
    }
  }

  // ----- Against the one-shot export -----

  /** ORDER BY session_id,started_at,id. */
  predicate LegacyLess(a: Row, b: Row) {
    TextLess(a.session, b.session) || (a.session == b.session && RowLess(a, b))
  }

  ghost function SessionRows(table: set<Row>, session: string): set<Row> {
    set row | row in table && row.session == session
  }

  function OfSession(rows: seq<Row>, session: string): seq<Row> {
    Filter((row: Row) => row.session == session, rows)
  }

  /** The one-shot export restricted to a session is the session's own index order. */
  lemma LegacyRestricted(table: set<Row>, session: string, legacy: seq<Row>, rows: seq<Row>)
    requires UniqueIds(table) && Elements(legacy) == table && Ascending(LegacyLess, legacy)
    requires Elements(rows) == SessionRows(table, session) && Ascending(RowLess, rows)
    ensures OfSession(legacy, session) == rows
  {
    var kept := OfSession(legacy, session);
    FilterAscending(LegacyLess, (row: Row) => row.session == session, legacy);
    assert forall x :: x in legacy <==> x in Elements(legacy);
    assert Elements(kept) == Elements(rows);
    forall i, j | 0 <= i < j < |kept| ensures RowLess(kept[i], kept[j]) {
      assert kept[i] in kept && kept[j] in kept && LegacyLess(kept[i], kept[j]);
      TextLessIrreflexive(session);
    }
    RowLessTotal(table);
    TotalOnSubset(RowLess, table, Elements(rows));
    AscendingUnique(RowLess, kept, rows);
  }

  /** The walk emits every row exactly when none has both an empty start text and a
      non-positive id. */
  lemma {:induction false} WalkIsComplete(rows: seq<Row>)
    ensures Reached(rows) == rows <==> forall row | row in rows :: row.startedAt != "" || row.id > 0
    decreases |rows|
  {
    if rows != [] {
      WalkIsComplete(rows[1..]);
      assert rows == [rows[0]] + rows[1..];
      assert After("", 0, rows[0]) <==> rows[0].startedAt != "" || rows[0].id > 0;
      if !After("", 0, rows[0]) {
        FilterShrinks(rows[1..], "", 0);
      }
    }
  }

  lemma {:induction false} FilterShrinks(rows: seq<Row>, startedAt: string, id: int)
    ensures |Remaining(rows, startedAt, id)| <= |rows|
    decreases |rows|
  {
    if rows != [] { FilterShrinks(rows[1..], startedAt, id); }
  }

  /** The batched export equals the one-shot export restricted to the session. */
  method ExportSession(rows: seq<Row>, ghost table: set<Row>, ghost session: string, ghost legacy: seq<Row>)
    returns (out: seq<Row>)
    requires UniqueIds(table) && Elements(legacy) == table && Ascending(LegacyLess, legacy)
    requires Elements(rows) == SessionRows(table, session) && Ascending(RowLess, rows)
    requires forall row | row in rows :: row.startedAt != "" || row.id > 0
    ensures out == OfSession(legacy, session)
    ensures Elements(out) == SessionRows(table, session)
    ensures forall i, j | 0 <= i < j < |out| ::
              || TextLess(out[i].startedAt, out[j].startedAt)
              || (out[i].startedAt == out[j].startedAt && out[i].id < out[j].id)
  {
    WalkIsComplete(rows);
    LegacyRestricted(table, session, legacy, rows);
    out := ExportInBatches(rows, BATCH_SIZE, BATCH_BYTES);
    assert forall i, j | 0 <= i < j < |out| :: RowLess(out[i], out[j]);
  }
}
