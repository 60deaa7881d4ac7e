/** Beginning a stable snapshot from its query rows, and the digest of its session set
(internal/archive/snapshot.go). `parse` is time.Parse: text to instant in nanoseconds. */
module SnapshotBegin {
  import opened Types
  import opened Ordering
  import opened SnapshotQuery

  /** `lastAt` of a tombstone is also its deletion time. */
  datatype Summary = Summary(
    session: string,
    requests: nat,
    firstAt: Option<int>,
    lastAt: int,
    digest: Option<Digest>,
    deleted: bool)

  datatype SetDigest = SetSha256(items: seq<Summary>)

  datatype Snapshot = Snapshot(
    fence: nat,
    safeAfter: nat,
    sessions: seq<Summary>,
    requestCount: nat,
    deletedCount: nat,
    setDigest: SetDigest)

  datatype Outcome =
    | Ready(snapshot: Snapshot)
    | CursorError
    | TombstoneHistory
    | Rejected
    | Preparing(missing: seq<string>)

  // ----- One row -----

  /** canonicalTimestamp keeps microseconds. */
  function Canonical(instant: int): int {
    instant / 1000
  }

  predicate ValidSessionId(s: string) {
    s != "" && |s| <= 512 && forall i | 0 <= i < |s| :: ' ' <= s[i] <= '~'
  }

  datatype Verdict = Reject | NotReady | Listed(summary: Summary)

  function Judge(parse: string -> Option<int>, row: QueryRow): Verdict {
    if !ValidSessionId(row.session) then Reject
    else if row.deleted then
      match parse(row.changedAt)
      case Some(t) => Listed(Summary(row.session, row.requests, None, Canonical(t), None, true))
      case None => Reject
    else
      var first, last := parse(OrEmpty(row.firstAt)), parse(OrEmpty(row.lastAt));
      if first.None? || last.None? then Reject
      else if row.digestFence != row.sessionFence || row.digest.Malformed? then NotReady
      else Listed(Summary(row.session, row.requests, Some(Canonical(first.value)), Canonical(last.value),
          Some(row.digest), false))
  }

  // ----- The order of pages and of the set digest -----

  /** (last_at descending, session_id ascending bytewise). */
  predicate PageLess(a: Summary, b: Summary) {
    a.lastAt > b.lastAt || (a.lastAt == b.lastAt && TextLess(a.session, b.session))
  }

  predicate SessionLess(a: Summary, b: Summary) {
    TextLess(a.session, b.session)
  }

  ghost predicate Keyed(s: set<Summary>) {
    forall a, b | a in s && b in s && a.session == b.session :: a == b
  }

  lemma PageLessTotal(s: set<Summary>)
    requires Keyed(s)
    ensures TotalOn(PageLess, s)
  {
    forall x | x in s ensures !PageLess(x, x) { TextLessIrreflexive(x.session); }
    forall x, y, z | x in s && y in s && z in s && PageLess(x, y) && PageLess(y, z) ensures PageLess(x, z) {
      if x.lastAt == z.lastAt { TextLessTransitive(x.session, y.session, z.session); }
    }
    forall x, y | x in s && y in s && x != y ensures PageLess(x, y) || PageLess(y, x) {
      TextLessConnected(x.session, y.session);
    }
  }

  lemma SessionLessTotal(s: set<Summary>)
    requires Keyed(s)
    ensures TotalOn(SessionLess, s)
  {
    forall x | x in s ensures !SessionLess(x, x) { TextLessIrreflexive(x.session); }
    forall x, y, z | x in s && y in s && z in s && SessionLess(x, y) && SessionLess(y, z) ensures SessionLess(x, z) {
      TextLessTransitive(x.session, y.session, z.session);
    }
    forall x, y | x in s && y in s && x != y ensures SessionLess(x, y) || SessionLess(y, x) {
      TextLessConnected(x.session, y.session);
    }
  }

  /** stableSessionSetDigest. */
  function SetDigestOf(sessions: seq<Summary>): SetDigest {
    SetSha256(Sort(SessionLess, sessions))
  }

  ghost predicate DistinctSessions(sessions: seq<Summary>) {
    forall i, j | 0 <= i < j < |sessions| :: sessions[i].session != sessions[j].session
  }

  lemma DistinctIsKeyed(sessions: seq<Summary>)
    requires DistinctSessions(sessions)
    ensures Distinct(sessions) && Keyed(Elements(sessions))
  {
  }

  /** The set digest is a function of the set of summaries, and tells sets apart. */
  lemma SetDigestOfSet(a: seq<Summary>, b: seq<Summary>)
    requires DistinctSessions(a) && DistinctSessions(b)
    ensures SetDigestOf(a) == SetDigestOf(b) <==> Elements(a) == Elements(b)
  {
    DistinctIsKeyed(a);
    DistinctIsKeyed(b);
    SessionLessTotal(Elements(a));
    SessionLessTotal(Elements(b));
    SortIsListing(SessionLess, a);
    SortIsListing(SessionLess, b);
    assert Elements(Sort(SessionLess, a)) == Elements(a) && Elements(Sort(SessionLess, b)) == Elements(b);
  }

  // ----- Beginning -----

  function Summaries(parse: string -> Option<int>, rows: seq<QueryRow>): seq<Summary> {
    if rows == [] then []
    else
      var last := Judge(parse, rows[|rows| - 1]);
      Summaries(parse, rows[..|rows| - 1]) + (if last.Listed? then [last.summary] else [])
  }

  function Unready(parse: string -> Option<int>, rows: seq<QueryRow>): seq<string> {
    if rows == [] then []
    else
      Unready(parse, rows[..|rows| - 1])
      + (if Judge(parse, rows[|rows| - 1]).NotReady? then [rows[|rows| - 1].session] else [])
  }

  function TotalRequests(sessions: seq<Summary>): nat {
    if sessions == [] then 0
    else
      var last := sessions[|sessions| - 1];
      TotalRequests(sessions[..|sessions| - 1]) + (if last.deleted then 0 else last.requests)
  }

  function Tombstones(sessions: seq<Summary>): nat {
    if sessions == [] then 0
    else Tombstones(sessions[..|sessions| - 1]) + (if sessions[|sessions| - 1].deleted then 1 else 0)
  }

  predicate BadCursor(fence: nat, after: Option<int>) {
    after.Some? && (after.value < 0 || after.value > fence)
  }

  /** What BeginStableSessionSnapshot answers for the rows its query returned. */
  function BeginOutcome(parse: string -> Option<int>, fence: nat, safeAfter: nat, after: Option<int>,
                        rows: seq<QueryRow>): Outcome {
    if BadCursor(fence, after) then CursorError
    else if after.Some? && after.value < safeAfter then TombstoneHistory
    else if exists i :: 0 <= i < |rows| && Judge(parse, rows[i]).Reject? then Rejected
    else if Unready(parse, rows) != [] then Preparing(Unready(parse, rows))
    else
      var listed := Summaries(parse, rows);
      var sessions := Sort(PageLess, listed);
      Ready(Snapshot(fence, safeAfter, sessions, TotalRequests(listed), Tombstones(listed), SetDigestOf(sessions)))
  }

  /** The fence checks come first and depend on no row. */
  lemma RefusedByFence(parse: string -> Option<int>, fence: nat, safeAfter: nat, after: int, rows: seq<QueryRow>)
    ensures BeginOutcome(parse, fence, safeAfter, Some(after), rows).CursorError? <==> after < 0 || after > fence
    ensures BeginOutcome(parse, fence, safeAfter, Some(after), rows).TombstoneHistory?
            <==> 0 <= after <= fence && after < safeAfter
  {
  }

  /** The row loop of BeginStableSessionSnapshot. */
  method ScanRows(parse: string -> Option<int>, rows: seq<QueryRow>)
    returns (ok: bool, sessions: seq<Summary>, missing: seq<string>, requestCount: nat, deletedCount: nat)
    ensures ok <==> forall i | 0 <= i < |rows| :: !Judge(parse, rows[i]).Reject?
    ensures ok ==> sessions == Summaries(parse, rows) && missing == Unready(parse, rows)
    ensures ok ==> requestCount == TotalRequests(sessions) && deletedCount == Tombstones(sessions)
  {
    sessions, missing, requestCount, deletedCount := [], [], 0, 0;
    for i := 0 to |rows|
      invariant forall j | 0 <= j < i :: !Judge(parse, rows[j]).Reject?
      invariant sessions == Summaries(parse, rows[..i]) && missing == Unready(parse, rows[..i])
      invariant requestCount == TotalRequests(sessions) && deletedCount == Tombstones(sessions)
    {
      var verdict := Judge(parse, rows[i]);
      assert rows[..i + 1][..i] == rows[..i] && rows[..i + 1][i] == rows[i];
      match verdict {
        case Reject =>
          ok := false;
          return;
        case NotReady => missing := missing + [rows[i].session];
        case Listed(item) =>
          assert (sessions + [item])[..|sessions|] == sessions;
          sessions := sessions + [item];
          if item.deleted {
            deletedCount := deletedCount + 1;
          } else {
            requestCount := requestCount + item.requests;
          }
      }
    }
    assert rows[..|rows|] == rows;
    ok := true;
  }

  method Begin(parse: string -> Option<int>, fence: nat, safeAfter: nat, after: Option<int>, rows: seq<QueryRow>)
    returns (out: Outcome)
    ensures out == BeginOutcome(parse, fence, safeAfter, after, rows)
  {
    if after.Some? {
      if after.value < 0 || after.value > fence {
        return CursorError;
      }
      if after.value < safeAfter {
        return TombstoneHistory;
      }
    }
    var ok, sessions, missing, requestCount, deletedCount := ScanRows(parse, rows);
    if !ok {
      return Rejected;
    }
    if missing != [] {
      return Preparing(missing);
    }
    var sorted := Sort(PageLess, sessions);
    out := Ready(Snapshot(fence, safeAfter, sorted, requestCount, deletedCount, SetDigestOf(sorted)));
  }

  ghost predicate DistinctRows(rows: seq<QueryRow>) {
    forall i, j | 0 <= i < j < |rows| :: rows[i].session != rows[j].session
  }

  ghost predicate FromRow(parse: string -> Option<int>, rows: seq<QueryRow>, x: Summary) {
    exists i :: 0 <= i < |rows| && Judge(parse, rows[i]) == Listed(x)
  }

  lemma {:induction false} EverySummaryFromRow(parse: string -> Option<int>, rows: seq<QueryRow>, x: Summary)
    requires x in Summaries(parse, rows)
    ensures FromRow(parse, rows, x)
    decreases |rows|
  {
    var n := |rows| - 1;
    if x in Summaries(parse, rows[..n]) {
      EverySummaryFromRow(parse, rows[..n], x);
      var i :| 0 <= i < n && Judge(parse, rows[..n][i]) == Listed(x);
      assert Judge(parse, rows[i]) == Listed(x);
    } else {
      assert Judge(parse, rows[n]) == Listed(x);
    }
  }

  lemma {:induction false} EveryRowSummarised(parse: string -> Option<int>, rows: seq<QueryRow>, i: nat)
    requires i < |rows| && Judge(parse, rows[i]).Listed?
    ensures Judge(parse, rows[i]).summary in Summaries(parse, rows)
    decreases |rows|
  {
    var n := |rows| - 1;
    if i < n {
      assert rows[..n][i] == rows[i];
      EveryRowSummarised(parse, rows[..n], i);
    }
  }

  lemma {:induction false} SummariesDistinct(parse: string -> Option<int>, rows: seq<QueryRow>)
    requires DistinctRows(rows)
    ensures DistinctSessions(Summaries(parse, rows))
    decreases |rows|
  {
    if rows != [] {
      var n := |rows| - 1;
      SummariesDistinct(parse, rows[..n]);
      var before := Summaries(parse, rows[..n]);
      forall j | 0 <= j < |before| ensures before[j].session != rows[n].session {
        EverySummaryFromRow(parse, rows[..n], before[j]);
        var i :| 0 <= i < n && Judge(parse, rows[..n][i]) == Listed(before[j]);
        assert rows[..n][i] == rows[i];
      }
    }
  }

  lemma {:induction false} UnreadyRow(parse: string -> Option<int>, rows: seq<QueryRow>, i: nat)
    requires i < |rows| && Judge(parse, rows[i]).NotReady?
    ensures rows[i].session in Unready(parse, rows)
    decreases |rows|
  {
    var n := |rows| - 1;
    if i < n {
      assert rows[..n][i] == rows[i];
      UnreadyRow(parse, rows[..n], i);
    }
  }

  lemma NoRowLeftOut(parse: string -> Option<int>, rows: seq<QueryRow>, i: nat)
    requires i < |rows| && Unready(parse, rows) == [] && !Judge(parse, rows[i]).Reject?
    ensures Judge(parse, rows[i]).Listed? && Judge(parse, rows[i]).summary in Sort(PageLess, Summaries(parse, rows))
  {
    if Judge(parse, rows[i]).NotReady? { UnreadyRow(parse, rows, i); }
    EveryRowSummarised(parse, rows, i);
    SortElements(PageLess, Summaries(parse, rows));
  }

  lemma NothingMadeUp(parse: string -> Option<int>, rows: seq<QueryRow>, x: Summary)
    requires x in Sort(PageLess, Summaries(parse, rows))
    ensures FromRow(parse, rows, x)
  {
    SortElements(PageLess, Summaries(parse, rows));
    EverySummaryFromRow(parse, rows, x);
  }

  /** A snapshot that begins lists every row once, as the row says, in page order. */
  lemma BegunListsEveryRow(parse: string -> Option<int>, fence: nat, safeAfter: nat, after: Option<int>,
                           rows: seq<QueryRow>, snap: Snapshot)
    requires DistinctRows(rows) && BeginOutcome(parse, fence, safeAfter, after, rows) == Ready(snap)
    ensures DistinctSessions(snap.sessions) && Ascending(PageLess, snap.sessions)
    ensures forall i | 0 <= i < |rows| ::
        Judge(parse, rows[i]).Listed? && Judge(parse, rows[i]).summary in snap.sessions
    ensures forall x | x in snap.sessions :: FromRow(parse, rows, x)
  {
    SummariesDistinct(parse, rows);
    SortedDistinct(Summaries(parse, rows));
    forall i | 0 <= i < |rows| ensures Judge(parse, rows[i]).Listed? && Judge(parse, rows[i]).summary in snap.sessions {
      NoRowLeftOut(parse, rows, i);
    }
    forall x | x in snap.sessions ensures FromRow(parse, rows, x) { NothingMadeUp(parse, rows, x); }
  }

  lemma SortedDistinct(listed: seq<Summary>)
    requires DistinctSessions(listed)
    ensures DistinctSessions(Sort(PageLess, listed)) && Ascending(PageLess, Sort(PageLess, listed))
  {
    DistinctIsKeyed(listed);
    PageLessTotal(Elements(listed));
    SortIsListing(PageLess, listed);
    var s := Sort(PageLess, listed);
    forall i, j | 0 <= i < j < |s| ensures s[i].session != s[j].session {
      assert s[i] in Elements(s) && s[j] in Elements(s) && PageLess(s[i], s[j]);
    }
  }
}
