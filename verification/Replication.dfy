/** Replicating an archive by stable snapshots: a full snapshot first, then deltas from the
last committed fence (internal/archive/snapshot.go, docs/stable-session-snapshots.md). */
module Replication {
  import opened Types
  import opened Cas
  import opened Ordering
  import opened BlobStore
  import opened SnapshotQuery
  import opened SnapshotBegin
  import opened SnapshotSelect
  import SnapshotCounts
  import opened Ingest

  /** What a listed summary says: a tombstone has no records; anything else carries the hash
      of the session's export in this very database. */
  lemma ListedIsCurrent(c: Codec, parse: string -> Option<int>, v: State, x: Summary)
    requires Inv(c, v) && Judge(parse, GenericRow(v.db, x.session)) == Listed(x)
    ensures x.session != "" && (x.deleted <==> x.session !in Sessions(v.db))
    ensures !x.deleted ==> x.digest.Some? && x.digest.value.Sha256?
                           && Export(c, v.db, x.session) == Some(x.digest.value.lines)
  {
    HasRows(v.db, x.session);
    assert |RowsOf(v.db, x.session)| == 0 <==> RowsOf(v.db, x.session) == map[];
    if !x.deleted {
      assert x.session in v.db.digests;
      assert Fresh(c, v.db, x.session, v.db.digests[x.session].digest.lines, v.db.digests[x.session].fence);
    }
  }

  // ----- Exporting from a snapshot -----

  datatype ExportOutcome = Exported(lines: seq<Line>) | BadTicket | LoadError | Mismatch

  ghost function SummaryOf(sessions: seq<Summary>, id: string): Option<Summary> {
    if exists x :: x in sessions && x.session == id
    then Some(var x :| x in sessions && x.session == id; x) else None
  }

  /** ExportSessionJSONL: `db` is the snapshot's fixed read view. */
  ghost function ExportSession(c: Codec, db: Db, sessions: seq<Summary>, id: string, expected: Digest): ExportOutcome {
    match SummaryOf(sessions, id)
    case None => BadTicket
    case Some(x) =>
      if x.deleted || x.digest != Some(expected) then BadTicket
      else
        match Export(c, db, id)
        case None => LoadError
        case Some(lines) => if Sha256(lines) != expected then Mismatch else Exported(lines)
  }

  lemma SummaryFound(sessions: seq<Summary>, x: Summary)
    requires DistinctSessions(sessions) && x in sessions
    ensures SummaryOf(sessions, x.session) == Some(x)
  {
  }

  /** No snapshot begun in a reachable state can run into a digest mismatch: every session
      it lists as present exports, and exports what the summary announced. */
  lemma NoDigestMismatch(c: Codec, run: seq<State>, steps: seq<Step>, i: nat, parse: string -> Option<int>,
                         after: Option<int>, overlap: Option<string> -> bool, snap: Snapshot, x: Summary)
    requires c.unmarshal([]).None? && IsRun(c, run, steps) && i < |run|
    requires BeginAt(parse, run[i].db, after, overlap) == Ready(snap) && x in snap.sessions && !x.deleted
    ensures x.digest.Some? && x.digest.value.Sha256?
    ensures ExportSession(c, run[i].db, snap.sessions, x.session, x.digest.value) == Exported(x.digest.value.lines)
  {
    RunInvariant(c, run, steps, i);
    BegunLists(parse, run[i].db, after, overlap, snap);
    ListedIsCurrent(c, parse, run[i], x);
    SummaryFound(snap.sessions, x);
  }


  lemma PresentDigest(parse: string -> Option<int>, db: Db, x: Summary)
    requires Judge(parse, GenericRow(db, x.session)) == Listed(x) && !x.deleted
    ensures x.session != "" && x.session in db.digests && x.digest == Some(db.digests[x.session].digest)
    ensures db.digests[x.session].digest.Sha256?
    ensures db.digests[x.session].fence == SessionFence(db, x.session, db.clock)
  {
  }

  lemma ExportOutcomeIs(c: Codec, db: Db, sessions: seq<Summary>, x: Summary, lines: seq<Line>)
    requires DistinctSessions(sessions) && x in sessions && !x.deleted && x.digest == Some(Sha256(lines))
    ensures ExportSession(c, db, sessions, x.session, Sha256(lines)) ==
            match Export(c, db, x.session)
            case None => LoadError
            case Some(exported) => if exported == lines then Exported(lines) else Mismatch
  {
    SummaryFound(sessions, x);
  }

  lemma AnnouncedExactly(c: Codec, db: Db, sessions: seq<Summary>, x: Summary)
    requires EventsInRange(db) && DistinctSessions(sessions) && x in sessions && !x.deleted && x.session != ""
    requires x.session in db.digests && x.digest == Some(db.digests[x.session].digest) && x.digest.value.Sha256?
    requires db.digests[x.session].fence == SessionFence(db, x.session, db.clock)
    ensures ExportSession(c, db, sessions, x.session, x.digest.value) == Exported(x.digest.value.lines) <==>
            !Stale(c, db, x.session)
  {
    ExportOutcomeIs(c, db, sessions, x, x.digest.value.lines);
    FenceBounded(db, x.session);
  }

  /** In any database whose event fences are within the clock, a listed present session exports
      as announced if and only if its digest is not stale. */
  lemma ExportsExactly(c: Codec, db: Db, parse: string -> Option<int>, after: Option<int>,
                       overlap: Option<string> -> bool, snap: Snapshot, x: Summary)
    requires EventsInRange(db) && BeginAt(parse, db, after, overlap) == Ready(snap) && x in snap.sessions && !x.deleted
    ensures x.digest.Some? && x.digest.value.Sha256?
    ensures ExportSession(c, db, snap.sessions, x.session, x.digest.value) == Exported(x.digest.value.lines) <==>
            !Stale(c, db, x.session)
  {
    BegunLists(parse, db, after, overlap, snap);
    PresentDigest(parse, db, x);
    AnnouncedExactly(c, db, snap.sessions, x);
  }

  // ----- The replica -----

  /** A replica holds, per session, the export it downloaded and verified. */
  type Replica = map<string, seq<Line>>

  ghost predicate InSync(c: Codec, replica: Replica, db: Db) {
    replica.Keys == Sessions(db) && forall s | s in replica :: Export(c, db, s) == Some(replica[s])
  }

  /** What a replica in sync holds: the sessions that have records, and for each of them one line
      per record with that record's own payloads. */
  lemma SyncedHolds(c: Codec, replica: Replica, db: Db, s: string)
    requires InSync(c, replica, db)
    ensures s in replica <==> exists r :: r in db.records && db.records[r].session == s
    ensures s in replica ==> LinesOf(c, db.blobs, RowsOf(db, s), replica[s])
  {
    if s in replica { ExportHolds(c, db, s, replica[s]); }
  }

  ghost function PresentIds(sessions: seq<Summary>): set<string> {
    set x | x in sessions && !x.deleted && x.digest.Some? && x.digest.value.Sha256? :: x.session
  }

  ghost function DeletedIds(sessions: seq<Summary>): set<string> {
    set x | x in sessions && x.deleted :: x.session
  }

  /** The bytes an importer accepts for a session are those its digest names. */
  ghost function Downloaded(sessions: seq<Summary>, s: string): seq<Line>
    requires s in PresentIds(sessions)
  {
    var x :| x in sessions && !x.deleted && x.digest.Some? && x.digest.value.Sha256? && x.session == s;
    x.digest.value.lines
  }

  /** Applying a snapshot: present summaries replace, tombstones remove. */
  ghost function Apply(replica: Replica, sessions: seq<Summary>): Replica {
    map s | s in replica.Keys + PresentIds(sessions) && s !in DeletedIds(sessions) ::
      if s in PresentIds(sessions) then Downloaded(sessions, s) else replica[s]
  }

  /** After a snapshot is applied, every session it chose is as in the database. */
  lemma ChosenSynced(c: Codec, parse: string -> Option<int>, v: State, after: Option<int>,
                     overlap: Option<string> -> bool,
                     snap: Snapshot, replica: Replica, s: string)
    requires Inv(c, v) && BeginAt(parse, v.db, after, overlap) == Ready(snap) && s in Chosen(v.db, after, overlap)
    ensures s in Apply(replica, snap.sessions) <==> s in Sessions(v.db)
    ensures s in Apply(replica, snap.sessions) ==> Export(c, v.db, s) == Some(Apply(replica, snap.sessions)[s])
  {
    BegunLists(parse, v.db, after, overlap, snap);
    var x :| x in snap.sessions && x.session == s;
    ListedIsCurrent(c, parse, v, x);
    AppliedSummary(replica, snap.sessions, x);
  }

  /** Applying a list of summaries does what the session's one summary says. */
  lemma AppliedSummary(replica: Replica, sessions: seq<Summary>, x: Summary)
    requires DistinctSessions(sessions) && x in sessions
    requires !x.deleted ==> x.digest.Some? && x.digest.value.Sha256?
    ensures x.session in Apply(replica, sessions) <==> !x.deleted
    ensures !x.deleted ==> Apply(replica, sessions)[x.session] == x.digest.value.lines
  {
  }

  lemma UnchosenKept(parse: string -> Option<int>, db: Db, after: Option<int>, overlap: Option<string> -> bool,
                     snap: Snapshot, replica: Replica, s: string)
    requires BeginAt(parse, db, after, overlap) == Ready(snap) && s !in Chosen(db, after, overlap)
    ensures s in Apply(replica, snap.sessions) <==> s in replica
    ensures s in Apply(replica, snap.sessions) ==> Apply(replica, snap.sessions)[s] == replica[s]
  {
    BegunLists(parse, db, after, overlap, snap);
  }

  // ----- What stays unchanged along a run -----

  ghost predicate Quiet(a: Db, b: Db, s: string) {
    forall k | k in b.events && k > a.clock :: !Mentions(b.events[k], s)
  }

  lemma StepExtends(c: Codec, v: State, step: Step, w: State)
    requires EventsInRange(v.db) && Next(c, v, step, w)
    ensures v.db.clock <= w.db.clock
    ensures forall k | k in v.db.events :: k in w.db.events && w.db.events[k] == v.db.events[k]
  {
  }

  /** One step leaves a session alone unless its event names the session. */
  lemma StepQuiet(c: Codec, v: State, step: Step, w: State, s: string)
    requires c.unmarshal([]).None? && Next(c, v, step, w) && s != ""
    requires step.Write? ==> !Mentions(TriggerEvent(v.db, step.mutation, step.at), s)
    requires Export(c, v.db, s).Some?
    ensures RowsOf(w.db, s) == RowsOf(v.db, s) && Export(c, w.db, s) == Export(c, v.db, s)
  {
    match step
    case Write(_, _, _) => WriteQuiet(c, v, step, w, s);
    case Collect => CollectQuiet(c, v, w, s);
    case _ =>
      WorkerStepKeeps(c, v, step, w);
      SameTables(c, v.db, w.db, s);
  }

  lemma WorkerStepKeeps(c: Codec, v: State, step: Step, w: State)
    requires Next(c, v, step, w) && !step.Write? && !step.Collect?
    ensures w.db.records == v.db.records && w.db.blobs == v.db.blobs
  {
  }

  lemma SameTables(c: Codec, a: Db, b: Db, s: string)
    requires a.records == b.records && a.blobs == b.blobs
    ensures RowsOf(b, s) == RowsOf(a, s) && Export(c, b, s) == Export(c, a, s)
  {
  }

  lemma WriteQuiet(c: Codec, v: State, step: Step, w: State, s: string)
    requires c.unmarshal([]).None? && step.Write? && Next(c, v, step, w) && s != ""
    requires !Mentions(TriggerEvent(v.db, step.mutation, step.at), s) && Export(c, v.db, s).Some?
    ensures RowsOf(w.db, s) == RowsOf(v.db, s) && Export(c, w.db, s) == Export(c, v.db, s)
  {
    UnmentionedRows(v.db, step.mutation, step.at, w.db.blobs, s);
    UnmentionedExport(c, v.db, step.puts, step.mutation, step.at, w.db.blobs, s);
  }

  lemma CollectQuiet(c: Codec, v: State, w: State, s: string)
    requires c.unmarshal([]).None? && Next(c, v, Collect, w) && Export(c, v.db, s).Some?
    ensures RowsOf(w.db, s) == RowsOf(v.db, s) && Export(c, w.db, s) == Export(c, v.db, s)
  {
    SweepKeepsAll(c, v.db.blobs, Ingest.Roots(v.db));
    RefsAreRoots(v.db, s);
    if w != v { ExportKept(c, v.db.blobs, w.db.blobs, Ingest.Roots(v.db), RowsOf(v.db, s)); }
  }

  lemma {:induction false} ClockGrows(c: Codec, run: seq<State>, steps: seq<Step>, i: nat, j: nat)
    requires c.unmarshal([]).None? && IsRun(c, run, steps) && i <= j < |run|
    ensures run[i].db.clock <= run[j].db.clock
    decreases j
  {
    if i < j {
      ClockGrows(c, run, steps, i, j - 1);
      RunInvariant(c, run, steps, j - 1);
      assert StepAt(c, run, steps, j - 1);
      StepExtends(c, run[j - 1], steps[j - 1], run[j]);
    }
  }

  /** A session that no event after run[i] names has the rows and the export it had. */
  lemma {:induction false} QuietUnchanged(c: Codec, run: seq<State>, steps: seq<Step>, i: nat, j: nat, s: string)
    requires c.unmarshal([]).None? && IsRun(c, run, steps) && i <= j < |run| && s != ""
    requires Quiet(run[i].db, run[j].db, s) && Export(c, run[i].db, s).Some?
    ensures RowsOf(run[j].db, s) == RowsOf(run[i].db, s) && Export(c, run[j].db, s) == Export(c, run[i].db, s)
    decreases j
  {
    if i < j {
      var v, step, w := run[j - 1], steps[j - 1], run[j];
      RunInvariant(c, run, steps, j - 1);
      assert StepAt(c, run, steps, j - 1);
      StepExtends(c, v, step, w);
      ClockGrows(c, run, steps, i, j - 1);
      assert Quiet(run[i].db, v.db, s);
      QuietUnchanged(c, run, steps, i, j - 1, s);
      if step.Write? {
        assert v.db.clock + 1 in w.db.events;
      }
      StepQuiet(c, v, step, w, s);
    }
  }

  lemma UnchangedIsQuiet(a: Db, b: Db, s: string)
    requires EventsInRange(b) && s != "" && s !in Changed(b, true, a.clock)
    ensures Quiet(a, b, s)
  {
  }

  lemma UnselectedUnchanged(db: Db, after: int, overlap: Option<string> -> bool, s: string)
    requires s !in Selected(db, true, after, overlap)
    ensures s !in Changed(db, true, after)
  {
  }

  /** Applying a delta taken from the fence of an earlier state to a replica that was in sync
      there puts the replica in sync with the later state, whatever lower bound was used. */
  lemma DeltaSynchronises(c: Codec, run: seq<State>, steps: seq<Step>, i: nat, j: nat, parse: string -> Option<int>,
                          overlap: Option<string> -> bool, snap: Snapshot, replica: Replica)
    requires c.unmarshal([]).None? && IsRun(c, run, steps) && i <= j < |run|
    requires InSync(c, replica, run[i].db)
    requires BeginAt(parse, run[j].db, Some(run[i].db.clock), overlap) == Ready(snap)
    ensures InSync(c, Apply(replica, snap.sessions), run[j].db)
  {
    var db, after := run[j].db, Some(run[i].db.clock);
    var next := Apply(replica, snap.sessions);
    RunInvariant(c, run, steps, j);
    forall s
      ensures s in next <==> s in Sessions(db)
      ensures s in next ==> Export(c, db, s) == Some(next[s])
    {
      if s in Chosen(db, after, overlap) {
        ChosenSynced(c, parse, run[j], after, overlap, snap, replica, s);
      } else {
        UnchosenKept(parse, db, after, overlap, snap, replica, s);
        UnchosenSynced(c, run, steps, i, j, overlap, replica, s);
      }
    }
  }

  lemma UnchosenSynced(c: Codec, run: seq<State>, steps: seq<Step>, i: nat, j: nat, overlap: Option<string> -> bool,
                       replica: Replica, s: string)
    requires c.unmarshal([]).None? && IsRun(c, run, steps) && i <= j < |run|
    requires InSync(c, replica, run[i].db) && s !in Selected(run[j].db, true, run[i].db.clock, overlap)
    ensures s in replica <==> s in Sessions(run[j].db)
    ensures s in replica ==> Export(c, run[j].db, s) == Some(replica[s])
  {
    RunInvariant(c, run, steps, i);
    RunInvariant(c, run, steps, j);
    if s != "" {
      UnselectedUnchanged(run[j].db, run[i].db.clock, overlap, s);
      UnchangedIsQuiet(run[i].db, run[j].db, s);
      HasRows(run[i].db, s);
      HasRows(run[j].db, s);
      assert Export(c, run[i].db, s).Some?;
      QuietUnchanged(c, run, steps, i, j, s);
    }
  }

  /** A full snapshot applied to an empty replica puts it in sync. */
  lemma FullSynchronises(c: Codec, run: seq<State>, steps: seq<Step>, i: nat, parse: string -> Option<int>,
                         overlap: Option<string> -> bool, snap: Snapshot)
    requires c.unmarshal([]).None? && IsRun(c, run, steps) && i < |run|
    requires BeginAt(parse, run[i].db, None, overlap) == Ready(snap)
    ensures InSync(c, Apply(map[], snap.sessions), run[i].db)
  {
    var db := run[i].db;
    var next := Apply(map[], snap.sessions);
    RunInvariant(c, run, steps, i);
    forall s
      ensures s in next <==> s in Sessions(db)
      ensures s in next ==> Export(c, db, s) == Some(next[s])
    {
      if s in Sessions(db) {
        ChosenSynced(c, parse, run[i], None, overlap, snap, map[], s);
      } else {
        UnchosenKept(parse, db, None, overlap, snap, map[], s);
      }
    }
  }

  // ----- Any chain of snapshots -----

  /** One committed import: the state it was taken in, the lower bound it used, and the snapshot
      the archive answered with. */
  datatype Import = Import(at: nat, overlap: Option<string> -> bool, snapshot: Snapshot)

  ghost predicate FullImport(run: seq<State>, parse: string -> Option<int>, first: Import, replica: Replica) {
    && first.at < |run| && BeginAt(parse, run[first.at].db, None, first.overlap) == Ready(first.snapshot)
    && replica == Apply(map[], first.snapshot.sessions)
  }

  /** The importer asks for what changed after the fence that its last snapshot reported. */
  ghost predicate DeltaImport(run: seq<State>, parse: string -> Option<int>, before: Import, prior: Replica,
                              last: Import, replica: Replica) {
    && before.at <= last.at < |run|
    && BeginAt(parse, run[last.at].db, Some(before.snapshot.fence), last.overlap) == Ready(last.snapshot)
    && replica == Apply(prior, last.snapshot.sessions)
  }

  /** The replicas a full snapshot and then deltas, each from the fence reported by the import
      before it, produce one after the other. */
  ghost predicate Imported(run: seq<State>, parse: string -> Option<int>, imports: seq<Import>,
                           replicas: seq<Replica>) {
    && 0 < |imports| == |replicas|
    && FullImport(run, parse, imports[0], replicas[0])
    && forall k | 0 < k < |imports| :: DeltaImport(run, parse, imports[k - 1], replicas[k - 1], imports[k], replicas[k])
  }

  /** The replica equals the source at the import, and the reported fence is the source's clock. */
  ghost predicate Committed(c: Codec, run: seq<State>, last: Import, replica: Replica) {
    last.at < |run| && last.snapshot.fence == run[last.at].db.clock && InSync(c, replica, run[last.at].db)
  }

  lemma FullImportSynced(c: Codec, run: seq<State>, steps: seq<Step>, parse: string -> Option<int>, first: Import,
                         replica: Replica)
    requires c.unmarshal([]).None? && IsRun(c, run, steps) && FullImport(run, parse, first, replica)
    ensures Committed(c, run, first, replica)
  {
    SnapshotCounts.BegunReports(parse, run[first.at].db, None, first.overlap, first.snapshot);
    FullSynchronises(c, run, steps, first.at, parse, first.overlap, first.snapshot);
  }

  lemma DeltaImportSynced(c: Codec, run: seq<State>, steps: seq<Step>, parse: string -> Option<int>,
                          before: Import, prior: Replica, last: Import, replica: Replica)
    requires c.unmarshal([]).None? && IsRun(c, run, steps) && DeltaImport(run, parse, before, prior, last, replica)
    requires Committed(c, run, before, prior)
    ensures Committed(c, run, last, replica)
  {
    SnapshotCounts.BegunReports(parse, run[last.at].db, Some(before.snapshot.fence), last.overlap, last.snapshot);
    DeltaSynchronises(c, run, steps, before.at, last.at, parse, last.overlap, last.snapshot, prior);
  }

  /** However many deltas follow the full snapshot, each taken after the fence the snapshot before
      it reported, each import leaves the replica equal to the source at its own fence. */
  lemma {:induction false} ImportsSynchronise(c: Codec, run: seq<State>, steps: seq<Step>, parse: string -> Option<int>,
                                              imports: seq<Import>, replicas: seq<Replica>, k: nat)
    requires c.unmarshal([]).None? && IsRun(c, run, steps) && Imported(run, parse, imports, replicas) && k < |imports|
    ensures Committed(c, run, imports[k], replicas[k])
    decreases k
  {
    if k == 0 {
      FullImportSynced(c, run, steps, parse, imports[0], replicas[0]);
    } else {
      ImportsSynchronise(c, run, steps, parse, imports, replicas, k - 1);
      assert DeltaImport(run, parse, imports[k - 1], replicas[k - 1], imports[k], replicas[k]);
      DeltaImportSynced(c, run, steps, parse, imports[k - 1], replicas[k - 1], imports[k], replicas[k]);
    }
  }

  /** A fence of this archive's own history is never refused, and one from before the
      tombstone fence always is. */
  lemma FencesOfThisHistory(c: Codec, run: seq<State>, steps: seq<Step>, i: nat, j: nat, parse: string -> Option<int>,
                            overlap: Option<string> -> bool, older: nat)
    requires c.unmarshal([]).None? && IsRun(c, run, steps) && i <= j < |run| && older < run[0].db.clock
    ensures !BeginAt(parse, run[j].db, Some(run[i].db.clock), overlap).CursorError?
    ensures !BeginAt(parse, run[j].db, Some(run[i].db.clock), overlap).TombstoneHistory?
    ensures BeginAt(parse, run[j].db, Some(older), overlap).TombstoneHistory?
  {
    FenceBounds(c, run, steps, i, j);
    var db, fence := run[j].db, run[i].db.clock;
    RefusedByFence(parse, db.clock, db.safeAfter, fence, QueryRows(db, Some(fence), overlap));
    RefusedByFence(parse, db.clock, db.safeAfter, older, QueryRows(db, Some(older), overlap));
  }

  lemma FenceBounds(c: Codec, run: seq<State>, steps: seq<Step>, i: nat, j: nat)
    requires c.unmarshal([]).None? && IsRun(c, run, steps) && i <= j < |run|
    ensures run[j].db.safeAfter == run[0].db.clock <= run[i].db.clock <= run[j].db.clock
  {
    ClockGrows(c, run, steps, 0, i);
    ClockGrows(c, run, steps, i, j);
    SafeAfterFixed(c, run, steps, j);
  }

  lemma {:induction false} SafeAfterFixed(c: Codec, run: seq<State>, steps: seq<Step>, i: nat)
    requires IsRun(c, run, steps) && i < |run|
    ensures run[i].db.safeAfter == run[0].db.clock
    decreases i
  {
    if i > 0 {
      SafeAfterFixed(c, run, steps, i - 1);
      assert StepAt(c, run, steps, i - 1);
    }
  }
}
