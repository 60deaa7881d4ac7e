/** When a stable snapshot begins, and how the digest worker gets it there
(internal/archive/snapshot.go). */
module SnapshotProgress {
  import opened Types
  import opened Cas
  import opened SnapshotQuery
  import opened SnapshotBegin
  import opened SnapshotSelect
  import opened Ingest

  ghost predicate SessionListed(parse: string -> Option<int>, db: Db, s: string) {
    Judge(parse, GenericRow(db, s)).Listed?
  }

  /** When a session is listed: a protocol id of 1 to 512 printable ASCII characters, and either
      no records and a readable time of its last event, or readable times of its records and a
      digest at the session's fence. */
  lemma ListedExactly(parse: string -> Option<int>, db: Db, s: string)
    ensures SessionListed(parse, db, s) <==>
            && 0 < |s| <= 512 && (forall i | 0 <= i < |s| :: ' ' <= s[i] <= '~')
            && if RowsOf(db, s) == map[] then parse(OrEmpty(ChangedAt(db, s, db.clock))).Some?
               else
                 && parse(OrEmpty(MinText(Started(RowsOf(db, s))))).Some?
                 && parse(OrEmpty(MaxText(Completed(RowsOf(db, s))))).Some?
                 && s in db.digests && db.digests[s].digest.Sha256?
                 && db.digests[s].fence == SessionFence(db, s, db.clock)
  {
    assert |RowsOf(db, s)| == 0 <==> RowsOf(db, s) == map[];
    JudgedExactly(parse, GenericRow(db, s));
  }

  lemma JudgedExactly(parse: string -> Option<int>, row: QueryRow)
    ensures Judge(parse, row).Listed? <==>
            && 0 < |row.session| <= 512 && (forall i | 0 <= i < |row.session| :: ' ' <= row.session[i] <= '~')
            && if row.deleted then parse(row.changedAt).Some?
               else parse(OrEmpty(row.firstAt)).Some? && parse(OrEmpty(row.lastAt)).Some?
                    && row.digestFence == row.sessionFence && row.digest.Sha256?
  {
  }

  lemma {:induction false} NothingUnready(parse: string -> Option<int>, rows: seq<QueryRow>)
    requires forall i | 0 <= i < |rows| :: Judge(parse, rows[i]).Listed?
    ensures Unready(parse, rows) == []
    decreases |rows|
  {
    if rows != [] {
      var n := |rows| - 1;
      forall i | 0 <= i < n ensures Judge(parse, rows[..n][i]).Listed? { assert rows[..n][i] == rows[i]; }
      NothingUnready(parse, rows[..n]);
    }
  }

  lemma ListedRowsBegin(parse: string -> Option<int>, fence: nat, safeAfter: nat, after: Option<int>,
                        rows: seq<QueryRow>)
    requires !BadCursor(fence, after) && (after.Some? ==> after.value >= safeAfter)
    requires forall i | 0 <= i < |rows| :: Judge(parse, rows[i]).Listed?
    ensures BeginOutcome(parse, fence, safeAfter, after, rows).Ready?
  {
    NothingUnready(parse, rows);
  }

  /** A snapshot begins if and only if its fence is acceptable and every session it chooses is
      listed: a tombstone with a readable time, or a session with a digest at its fence. */
  lemma BeginsExactly(parse: string -> Option<int>, db: Db, after: Option<int>, overlap: Option<string> -> bool)
    ensures BeginAt(parse, db, after, overlap).Ready? <==>
            && !BadCursor(db.clock, after)
            && (after.Some? ==> after.value >= db.safeAfter)
            && forall s | s in Chosen(db, after, overlap) :: SessionListed(parse, db, s)
  {
    if BeginAt(parse, db, after, overlap).Ready? {
      BegunImplies(parse, db, after, overlap, BeginAt(parse, db, after, overlap).snapshot);
    }
    if !BadCursor(db.clock, after) && (after.Some? ==> after.value >= db.safeAfter)
       && forall s | s in Chosen(db, after, overlap) :: SessionListed(parse, db, s) {
      ChosenListedRows(parse, db, after, overlap);
      ListedRowsBegin(parse, db.clock, db.safeAfter, after, QueryRows(db, after, overlap));
    }
  }

  lemma ChosenListedRows(parse: string -> Option<int>, db: Db, after: Option<int>, overlap: Option<string> -> bool)
    requires forall s | s in Chosen(db, after, overlap) :: SessionListed(parse, db, s)
    ensures forall i | 0 <= i < |QueryRows(db, after, overlap)| ::
        Judge(parse, QueryRows(db, after, overlap)[i]).Listed?
  {
    var rows := QueryRows(db, after, overlap);
    RowsAreChosen(db, after, overlap);
    forall i | 0 <= i < |rows| ensures Judge(parse, rows[i]).Listed? {
      assert SessionListed(parse, db, rows[i].session);
    }
  }

  lemma BegunImplies(parse: string -> Option<int>, db: Db, after: Option<int>, overlap: Option<string> -> bool,
                     snap: Snapshot)
    requires BeginAt(parse, db, after, overlap) == Ready(snap)
    ensures forall s | s in Chosen(db, after, overlap) :: SessionListed(parse, db, s)
  {
    BegunLists(parse, db, after, overlap, snap);
    forall s | s in Chosen(db, after, overlap) ensures SessionListed(parse, db, s) {
      var x :| x in snap.sessions && x.session == s;
      assert Judge(parse, GenericRow(db, x.session)) == Listed(x);
    }
  }

  // ----- One undisturbed refresh -----

  /** Nothing but the digest stands between the session and a listing. */
  ghost predicate Presentable(parse: string -> Option<int>, db: Db, s: string) {
    && ValidSessionId(s) && RowsOf(db, s) != map[]
    && parse(OrEmpty(GenericRow(db, s).firstAt)).Some? && parse(OrEmpty(GenericRow(db, s).lastAt)).Some?
  }

  lemma ReadComputes(c: Codec, v: State, worker: nat, s: string, lines: seq<Line>, mid: State)
    requires s != "" && RowsOf(v.db, s) != map[] && Export(c, v.db, s) == Some(lines)
    requires Next(c, v, Read(worker, s), mid)
    ensures mid == State(v.db, v.workers[worker := Computed(s, lines, SessionFence(v.db, s, v.db.clock))])
  {
  }

  lemma SameTablesSameRow(a: Db, digests: map<string, DigestRow>, s: string)
    ensures var b := a.(digests := digests);
            && RowsOf(b, s) == RowsOf(a, s) && SessionFence(b, s, b.clock) == SessionFence(a, s, a.clock)
            && GenericRow(b, s).firstAt == GenericRow(a, s).firstAt && GenericRow(b, s).lastAt == GenericRow(a,
                s).lastAt
  {
    var b := a.(digests := digests);
    assert RowsOf(b, s) == RowsOf(a, s) && EventsOf(b, s, b.clock) == EventsOf(a, s, a.clock);
  }

  /** The worker's read and write with no writer in between make the session ready, so a
      snapshot that answered "preparing" is not stuck. */
  lemma RefreshMakesReady(c: Codec, parse: string -> Option<int>, v: State, worker: nat, s: string, lines: seq<Line>,
                          mid: State, end: State)
    requires Presentable(parse, v.db, s) && Export(c, v.db, s) == Some(lines)
    requires Next(c, v, Read(worker, s), mid) && Next(c, mid, Flush(worker), end)
    ensures SessionListed(parse, end.db, s)
    ensures end.db.digests == v.db.digests[s := DigestRow(Sha256(lines), SessionFence(v.db, s, v.db.clock))]
  {
    ReadComputes(c, v, worker, s, lines, mid);
    RefreshedListed(parse, v.db, s, lines, end.db);
  }

  lemma RefreshedListed(parse: string -> Option<int>, db: Db, s: string, lines: seq<Line>, after: Db)
    requires Presentable(parse, db, s) && after == db.(digests := after.digests)
    requires s in after.digests && after.digests[s] == DigestRow(Sha256(lines), SessionFence(db, s, db.clock))
    ensures SessionListed(parse, after, s)
  {
    SameTablesSameRow(db, after.digests, s);
    ListedNow(parse, after, s, lines);
  }

  lemma ListedNow(parse: string -> Option<int>, db: Db, s: string, lines: seq<Line>)
    requires Presentable(parse, db, s)
    requires s in db.digests && db.digests[s] == DigestRow(Sha256(lines), SessionFence(db, s, db.clock))
    ensures SessionListed(parse, db, s)
  {
    assert |RowsOf(db, s)| == 0 <==> RowsOf(db, s) == map[];
  }

  // ----- Refreshing everything that is missing -----

  ghost predicate Exportable(c: Codec, db: Db, ids: seq<string>) {
    forall s | s in ids :: s != "" && RowsOf(db, s) != map[] && Export(c, db, s).Some?
  }

  /** The digest that a refresh of the session writes. */
  ghost function CurrentDigest(c: Codec, db: Db, s: string): DigestRow
    requires Export(c, db, s).Some?
  {
    DigestRow(Sha256(Export(c, db, s).value), SessionFence(db, s, db.clock))
  }

  ghost predicate Path(c: Codec, run: seq<State>, steps: seq<Step>) {
    |run| == |steps| + 1 && forall i | 0 <= i < |steps| :: Next(c, run[i], steps[i], run[i + 1])
  }

  /** The digest table once the worker has refreshed the sessions in `ids`. */
  ghost predicate CaughtRows(c: Codec, db: Db, ids: seq<string>, digests: map<string, DigestRow>) {
    && (forall s | s in ids && Export(c, db, s).Some? :: s in digests && digests[s] == CurrentDigest(c, db, s))
    && (forall s | s !in ids :: SameRow(db.digests, digests, s))
  }

  ghost predicate SameRow(before: map<string, DigestRow>, after: map<string, DigestRow>, s: string) {
    (s in after <==> s in before) && (s in before ==> after[s] == before[s])
  }

  ghost predicate Caught(c: Codec, db: Db, ids: seq<string>, after: Db) {
    after == db.(digests := after.digests) && CaughtRows(c, db, ids, after.digests)
  }

  lemma SameExport(c: Codec, db: Db, digests: map<string, DigestRow>, s: string)
    ensures Export(c, db.(digests := digests), s) == Export(c, db, s)
    ensures SessionFence(db.(digests := digests), s, db.clock) == SessionFence(db, s, db.clock)
    ensures RowsOf(db.(digests := digests), s) == RowsOf(db, s)
  {
    SameTablesSameRow(db, digests, s);
  }

  lemma OneRefresh(c: Codec, v: State, worker: nat, s: string)
    requires s != "" && RowsOf(v.db, s) != map[] && Export(c, v.db, s).Some? && worker !in v.workers
    ensures var lines := Export(c, v.db, s).value;
            var mid := State(v.db, v.workers[worker := Computed(s, lines, SessionFence(v.db, s, v.db.clock))]);
            var end := State(v.db.(digests := v.db.digests[s := CurrentDigest(c, v.db, s)]), v.workers);
            Next(c, v, Read(worker, s), mid) && Next(c, mid, Flush(worker), end)
  {
    var pending := Computed(s, Export(c, v.db, s).value, SessionFence(v.db, s, v.db.clock));
    assert v.workers[worker := pending] - {worker} == v.workers;
  }

  lemma CaughtRowsMore(c: Codec, db: Db, ids: seq<string>, s: string, digests: map<string, DigestRow>)
    requires CaughtRows(c, db, ids, digests) && Export(c, db, s).Some?
    ensures CaughtRows(c, db, ids + [s], digests[s := CurrentDigest(c, db, s)])
  {
    var next := digests[s := CurrentDigest(c, db, s)];
    forall x | x !in ids + [s] ensures SameRow(db.digests, next, x) {
      assert SameRow(db.digests, digests, x);
    }
  }

  lemma CaughtMore(c: Codec, db: Db, ids: seq<string>, s: string, mid: Db)
    requires Caught(c, db, ids, mid) && Export(c, db, s).Some?
    ensures Export(c, mid, s).Some?
    ensures Caught(c, db, ids + [s], mid.(digests := mid.digests[s := CurrentDigest(c, mid, s)]))
  {
    SameExport(c, db, mid.digests, s);
    CaughtRowsMore(c, db, ids, s, mid.digests);
  }

  lemma PathMore(c: Codec, run: seq<State>, steps: seq<Step>, a: Step, mid: State, b: Step, end: State)
    requires Path(c, run, steps) && Next(c, run[|run| - 1], a, mid) && Next(c, mid, b, end)
    ensures Path(c, run + [mid, end], steps + [a, b])
  {
    var more, moreSteps := run + [mid, end], steps + [a, b];
    forall i | 0 <= i < |moreSteps| ensures Next(c, more[i], moreSteps[i], more[i + 1]) {
      if i < |steps| { assert Next(c, run[i], steps[i], run[i + 1]); }
    }
  }

  /** One worker refreshes the sessions one after the other. */
  lemma {:induction false} RefreshAll(c: Codec, v: State, worker: nat, ids: seq<string>)
    returns (run: seq<State>, steps: seq<Step>)
    requires Exportable(c, v.db, ids) && worker !in v.workers
    ensures Path(c, run, steps) && run[0] == v
    ensures run[|run| - 1].workers == v.workers && Caught(c, v.db, ids, run[|run| - 1].db)
    decreases |ids|
  {
    if ids == [] {
      run, steps := [v], [];
    } else {
      var init, s := ids[..|ids| - 1], ids[|ids| - 1];
      assert ids == init + [s];
      run, steps := RefreshAll(c, v, worker, init);
      var last := run[|run| - 1];
      SameExport(c, v.db, last.db.digests, s);
      OneRefresh(c, last, worker, s);
      var pending := Computed(s, Export(c, last.db, s).value, SessionFence(last.db, s, last.db.clock));
      var mid := State(last.db, last.workers[worker := pending]);
      var end := State(last.db.(digests := last.db.digests[s := CurrentDigest(c, last.db, s)]), last.workers);
      CaughtMore(c, v.db, init, s, last.db);
      PathMore(c, run, steps, Read(worker, s), mid, Flush(worker), end);
      run, steps := run + [mid, end], steps + [Read(worker, s), Flush(worker)];
    }
  }

  /** Every session the snapshot chooses is listed already, or missing only its digest. */
  ghost predicate OnlyDigestsMissing(c: Codec, parse: string -> Option<int>, db: Db, chosen: set<string>,
                                     ids: seq<string>) {
    forall s | s in chosen ::
      if s in ids then Presentable(parse, db, s) && Export(c, db, s).Some? else SessionListed(parse, db, s)
  }

  lemma SameListing(db: Db, after: Db, s: string)
    requires after == db.(digests := after.digests) && DigestOf(after, s) == DigestOf(db, s)
    ensures GenericRow(after, s) == GenericRow(db, s)
  {
    assert RowsOf(after, s) == RowsOf(db, s) && EventsOf(after, s, after.clock) == EventsOf(db, s, db.clock);
  }

  lemma CaughtListed(c: Codec, parse: string -> Option<int>, db: Db, ids: seq<string>, after: Db, s: string)
    requires Caught(c, db, ids, after)
    requires if s in ids then Presentable(parse, db, s) && Export(c, db, s).Some? else SessionListed(parse, db, s)
    ensures SessionListed(parse, after, s)
  {
    if s in ids {
      RefreshedListed(parse, db, s, Export(c, db, s).value, after);
    } else {
      SameListing(db, after, s);
    }
  }

  lemma SameChosen(db: Db, digests: map<string, DigestRow>, after: Option<int>, overlap: Option<string> -> bool)
    ensures Chosen(db.(digests := digests), after, overlap) == Chosen(db, after, overlap)
  {
    var other := db.(digests := digests);
    if after.Some? { assert Changed(other, true, after.value) == Changed(db, true, after.value); }
  }

  /** A snapshot that is still preparing begins once the worker has refreshed, with no writer
      in between, the sessions it is waiting for. */
  lemma RefreshedBegins(c: Codec, parse: string -> Option<int>, db: Db, from: Option<int>,
                        overlap: Option<string> -> bool, ids: seq<string>, after: Db)
    requires !BadCursor(db.clock, from) && (from.Some? ==> from.value >= db.safeAfter)
    requires OnlyDigestsMissing(c, parse, db, Chosen(db, from, overlap), ids) && Caught(c, db, ids, after)
    ensures BeginAt(parse, after, from, overlap).Ready?
  {
    SameChosen(db, after.digests, from, overlap);
    forall s | s in Chosen(after, from, overlap) ensures SessionListed(parse, after, s) {
      CaughtListed(c, parse, db, ids, after, s);
    }
    BeginsExactly(parse, after, from, overlap);
  }
}
