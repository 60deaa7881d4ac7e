/** A run on which the replication theorems speak of something: one session is ingested, its
digest computed, a full snapshot taken, the record deleted, and a delta taken. */
module ReplicationExample {
  import opened Types
  import opened Cas
  import opened BlobStore
  import opened SnapshotQuery
  import opened SnapshotBegin
  import opened SnapshotSelect
  import opened SnapshotCounts
  import opened SnapshotProgress
  import opened Ingest
  import Replication

  const Nothing := Db(map[], 0, 0, map[], map[], map[])
  const OneRow := Row("s", Some("t"), Some("t"), "", "", "", "")

  function ParseAll(text: string): Option<int> { Some(0) }

  function NoOverlap(completed: Option<string>): bool { false }

  ghost function Filled(): Db {
    Mutate(Nothing, Insert("r", OneRow), "t", map[])
  }

  ghost function Digested(lines: seq<Line>): Db {
    Filled().(digests := map["s" := DigestRow(Sha256(lines), SessionFence(Filled(), "s", 1))])
  }

  ghost function Emptied(lines: seq<Line>): Db {
    Mutate(Digested(lines), Delete("r"), "t", map[])
  }

  lemma OneSession()
    ensures RowsOf(Filled(), "s") == map["r" := OneRow] && Sessions(Filled()) == {"s"}
  {
    assert Filled().records["r"].session == "s";
  }

  lemma OneExport(c: Codec) returns (lines: seq<Line>)
    ensures Export(c, Filled(), "s") == Some(lines)
  {
    OneSession();
    assert AllReadable(c, map[], map["r" := OneRow]);
    lines := Export(c, Filled(), "s").value;
  }

  /** A snapshot that chooses the one listed session begins. */
  lemma OneListedBegins(db: Db, after: Option<int>) returns (snap: Snapshot)
    requires Chosen(db, after, NoOverlap) == {"s"} && SessionListed(ParseAll, db, "s")
    requires !BadCursor(db.clock, after) && (after.Some? ==> after.value >= db.safeAfter)
    ensures BeginAt(ParseAll, db, after, NoOverlap) == Ready(snap)
  {
    BeginsExactly(ParseAll, db, after, NoOverlap);
    snap := BeginAt(ParseAll, db, after, NoOverlap).snapshot;
  }

  lemma DigestedSession(lines: seq<Line>)
    ensures RowsOf(Digested(lines), "s") == map["r" := OneRow] && Sessions(Digested(lines)) == {"s"}
    ensures SessionFence(Digested(lines), "s", 1) == SessionFence(Filled(), "s", 1)
  {
    OneSession();
    SameTablesSameRow(Filled(), Digested(lines).digests, "s");
    assert Sessions(Digested(lines)) == Sessions(Filled());
  }

  lemma FullListed(lines: seq<Line>)
    ensures SessionListed(ParseAll, Digested(lines), "s")
  {
    DigestedSession(lines);
    assert Presentable(ParseAll, Digested(lines), "s");
    ListedNow(ParseAll, Digested(lines), "s", lines);
  }

  lemma FullBegins(lines: seq<Line>) returns (snap: Snapshot)
    ensures BeginAt(ParseAll, Digested(lines), None, NoOverlap) == Ready(snap) && snap.requestCount == 1
  {
    DigestedSession(lines);
    FullListed(lines);
    snap := OneListedBegins(Digested(lines), None);
    FullSnapshotTotals(ParseAll, Digested(lines), NoOverlap, snap);
    assert Digested(lines).records == map["r" := OneRow];
    assert |map["r" := OneRow]| == 1;
  }

  lemma DeltaChooses(lines: seq<Line>)
    ensures Chosen(Emptied(lines), Some(1), NoOverlap) == {"s"} && RowsOf(Emptied(lines), "s") == map[]
  {
    var db := Emptied(lines);
    assert db.events[2].session == "s";
    assert db.records == map[];
    assert Changed(db, true, 1) == {"s"};
  }

  lemma DeltaListed(lines: seq<Line>)
    ensures SessionListed(ParseAll, Emptied(lines), "s")
  {
    DeltaChooses(lines);
    assert |RowsOf(Emptied(lines), "s")| == 0;
  }

  lemma DeltaBegins(lines: seq<Line>) returns (snap: Snapshot)
    ensures BeginAt(ParseAll, Emptied(lines), Some(1), NoOverlap) == Ready(snap) && snap.deletedCount == 1
  {
    DeltaChooses(lines);
    DeltaListed(lines);
    snap := OneListedBegins(Emptied(lines), Some(1));
    SnapshotTotals(ParseAll, Emptied(lines), Some(1), NoOverlap, snap);
    GoneIs(Emptied(lines));
  }

  lemma GoneIs(db: Db)
    requires RowsOf(db, "s") == map[]
    ensures |Gone(db, {"s"})| == 1
  {
    assert Gone(db, {"s"}) == {"s"};
  }

  ghost function PendingDigest(lines: seq<Line>): Pending {
    Computed("s", lines, SessionFence(Filled(), "s", 1))
  }

  lemma Ingested(c: Codec)
    ensures Next(c, State(Nothing, map[]), Write({}, Insert("r", OneRow), "t"), State(Filled(), map[]))
  {
  }

  lemma WasRead(c: Codec, lines: seq<Line>)
    requires Export(c, Filled(), "s") == Some(lines)
    ensures Next(c, State(Filled(), map[]), Read(0, "s"), State(Filled(), map[0 := PendingDigest(lines)]))
  {
    OneSession();
  }

  lemma WasWritten(c: Codec, lines: seq<Line>)
    ensures Next(c, State(Filled(), map[0 := PendingDigest(lines)]), Flush(0), State(Digested(lines), map[]))
  {
    var pending := PendingDigest(lines);
    assert RefreshWrite(Filled(), pending) == Digested(lines);
    assert map[0 := pending] - {0} == map[];
  }

  lemma WasDeleted(c: Codec, lines: seq<Line>)
    ensures Next(c, State(Digested(lines), map[]), Write({}, Delete("r"), "t"), State(Emptied(lines), map[]))
  {
  }

  ghost function Run(lines: seq<Line>): seq<State> {
    [State(Nothing, map[]), State(Filled(), map[]), State(Filled(), map[0 := PendingDigest(lines)]),
     State(Digested(lines), map[]), State(Emptied(lines), map[])]
  }

  function Steps(): seq<Step> {
    [Write({}, Insert("r", OneRow), "t"), Read(0, "s"), Flush(0), Write({}, Delete("r"), "t")]
  }

  lemma StartsEmpty(c: Codec)
    ensures Init(c, State(Nothing, map[]))
  {
  }

  lemma FirstStep(c: Codec, lines: seq<Line>)
    requires Export(c, Filled(), "s") == Some(lines)
    ensures StepAt(c, Run(lines), Steps(), 0)
  {
    Ingested(c);
  }

  lemma SecondStep(c: Codec, lines: seq<Line>)
    requires Export(c, Filled(), "s") == Some(lines)
    ensures StepAt(c, Run(lines), Steps(), 1)
  {
    WasRead(c, lines);
  }

  lemma ThirdStep(c: Codec, lines: seq<Line>)
    requires Export(c, Filled(), "s") == Some(lines)
    ensures StepAt(c, Run(lines), Steps(), 2)
  {
    WasWritten(c, lines);
  }

  lemma FourthStep(c: Codec, lines: seq<Line>)
    requires Export(c, Filled(), "s") == Some(lines)
    ensures StepAt(c, Run(lines), Steps(), 3)
  {
    WasDeleted(c, lines);
  }

  lemma StepsFollow(c: Codec, lines: seq<Line>, i: nat)
    requires Export(c, Filled(), "s") == Some(lines) && i < 4
    ensures StepAt(c, Run(lines), Steps(), i)
  {
    if i == 0 {
      FirstStep(c, lines);
    } else if i == 1 {
      SecondStep(c, lines);
    } else if i == 2 {
      ThirdStep(c, lines);
    } else {
      FourthStep(c, lines);
    }
  }

  lemma RunIsRun(c: Codec, lines: seq<Line>)
    requires Export(c, Filled(), "s") == Some(lines)
    ensures IsRun(c, Run(lines), Steps())
  {
    StartsEmpty(c);
    forall i | 0 <= i < |Steps()| ensures StepAt(c, Run(lines), Steps(), i) {
      StepsFollow(c, lines, i);
    }
  }

  /** Ingest, read, write, delete: a run whose fourth state begins a full snapshot of one
      record and whose last begins a delta with one tombstone. */
  lemma FullThenTombstone(c: Codec) returns (run: seq<State>, steps: seq<Step>, full: Snapshot, delta: Snapshot)
    ensures IsRun(c, run, steps) && |run| == 5
    ensures BeginAt(ParseAll, run[3].db, None, NoOverlap) == Ready(full) && full.requestCount == 1
    ensures BeginAt(ParseAll, run[4].db, Some(run[3].db.clock), NoOverlap) == Ready(delta) && delta.deletedCount == 1
  {
    var lines := OneExport(c);
    RunIsRun(c, lines);
    run, steps := Run(lines), Steps();
    full := FullBegins(lines);
    delta := DeltaBegins(lines);
  }

  // ----- An archive opened with a stale digest -----

  /** Records from before the event log, with a digest of something else at fence zero. */
  const Upgraded := Db(map["r" := OneRow], 0, 0, map[], map["s" := DigestRow(Sha256([]), 0)], map[])

  lemma UpgradedSession()
    ensures RowsOf(Upgraded, "s") == map["r" := OneRow] && Sessions(Upgraded) == {"s"}
    ensures SessionFence(Upgraded, "s", 0) == 0
  {
    assert Upgraded.records["r"].session == "s";
    assert EventsOf(Upgraded, "s", 0) == {};
  }

  lemma UpgradedBegins() returns (snap: Snapshot, x: Summary)
    ensures BeginAt(ParseAll, Upgraded, None, NoOverlap) == Ready(snap)
    ensures DistinctSessions(snap.sessions) && x in snap.sessions && x.session == "s" && !x.deleted
    ensures x.digest == Some(Sha256([]))
  {
    UpgradedSession();
    ListedNow(ParseAll, Upgraded, "s", []);
    snap := OneListedBegins(Upgraded, None);
    BegunLists(ParseAll, Upgraded, None, NoOverlap, snap);
    x :| x in snap.sessions && x.session == "s";
    ListedFigures(ParseAll, Upgraded, "s");
    Replication.PresentDigest(ParseAll, Upgraded, x);
  }

  lemma UpgradedExport(c: Codec)
    ensures Export(c, Upgraded, "s").Some? && Export(c, Upgraded, "s") != Some([])
  {
    UpgradedSession();
    assert AllReadable(c, map[], map["r" := OneRow]);
    assert |ByRequest(map["r" := OneRow])| == |map["r" := OneRow].Keys| == 1;
  }

  /** Such an archive begins a snapshot whose one session ends in the digest-mismatch error. */
  lemma StaleDigestMismatches(c: Codec) returns (snap: Snapshot, x: Summary)
    ensures JustOpened(State(Upgraded, map[])) && Stale(c, Upgraded, "s")
    ensures BeginAt(ParseAll, Upgraded, None, NoOverlap) == Ready(snap) && x in snap.sessions && !x.deleted
    ensures Replication.ExportSession(c, Upgraded, snap.sessions, x.session, Sha256([])) == Replication.Mismatch
  {
    UpgradedSession();
    UpgradedExport(c);
    snap, x := UpgradedBegins();
    Replication.ExportOutcomeIs(c, Upgraded, snap.sessions, x, []);
  }
}
