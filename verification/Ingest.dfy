/** The ingest clock, its triggers, the digest worker and the collector as one step
machine (internal/archive/store.go, internal/archive/snapshot.go). A committed
transaction is one step; the worker's read and its guarded write are two. */
module Ingest {
  import opened Types
  import opened Cas
  import opened Ordering
  import opened BlobStore
  import opened SnapshotQuery

  // ----- Exports -----

  /** A payload reference resolved in the blob table; no reference, no bytes. */
  ghost function Resolve(c: Codec, blobs: Store, ref: Hash): Option<Bytes> {
    if ref == "" then Some([])
    else if exists bytes :: LoadsTo(c, blobs, ref, bytes)
    then Some(var bytes :| LoadsTo(c, blobs, ref, bytes); bytes)
    else None
  }

  ghost predicate Readable(c: Codec, blobs: Store, row: Row) {
    Resolve(c, blobs, row.original).Some? && Resolve(c, blobs, row.response).Some?
  }

  ghost function LineOf(c: Codec, blobs: Store, request: string, row: Row): Line
    requires Readable(c, blobs, row)
  {
    Line(request, row, Resolve(c, blobs, row.original).value, Resolve(c, blobs, row.response).value)
  }

  ghost function ByRequest(rows: map<string, Row>): (ids: seq<string>)
    ensures Elements(ids) == rows.Keys
    ensures |ids| == |rows.Keys|
  {
    TextTotal(rows.Keys);
    Listing(TextLess, rows.Keys)
  }

  /** exportStableSessionJSONL over one session's rows: request order, or an error if a
      payload does not load. */
  ghost function ExportRows(c: Codec, blobs: Store, rows: map<string, Row>): Option<seq<Line>> {
    if AllReadable(c, blobs, rows) then Some(Lines(c, blobs, rows, ByRequest(rows))) else None
  }

  ghost predicate AllReadable(c: Codec, blobs: Store, rows: map<string, Row>) {
    forall r | r in rows :: Readable(c, blobs, rows[r])
  }

  ghost function Lines(c: Codec, blobs: Store, rows: map<string, Row>, ids: seq<string>): seq<Line>
    requires Elements(ids) == rows.Keys && AllReadable(c, blobs, rows)
  {
    assert forall i | 0 <= i < |ids| :: ids[i] in Elements(ids);
    seq(|ids|, i requires 0 <= i < |ids| => LineOf(c, blobs, ids[i], rows[ids[i]]))
  }

  ghost function Export(c: Codec, db: Db, s: string): Option<seq<Line>> {
    ExportRows(c, db.blobs, RowsOf(db, s))
  }

  ghost function Roots(db: Db): set<Hash> {
    set r, h | r in db.records && h in RowRefs(db.records[r]) :: h
  }

  function RowRefs(row: Row): set<Hash> {
    set h | h in [row.original, row.upstream, row.response] && h != ""
  }

  /** A payload reference and the bytes it stands for; no reference, no bytes. */
  ghost predicate StandsFor(c: Codec, blobs: Store, ref: Hash, bytes: Bytes) {
    if ref == "" then bytes == [] else LoadsTo(c, blobs, ref, bytes)
  }

  /** One line per record, in request order, with the record's own payloads: the request that was
      sent and the response that came back. */
  ghost predicate LinesOf(c: Codec, blobs: Store, rows: map<string, Row>, lines: seq<Line>) {
    && |lines| == |rows|
    && (forall i, j | 0 <= i < j < |lines| :: TextLess(lines[i].request, lines[j].request))
    && (forall i | 0 <= i < |lines| ::
          && lines[i].request in rows && lines[i].row == rows[lines[i].request]
          && StandsFor(c, blobs, lines[i].row.original, lines[i].original)
          && StandsFor(c, blobs, lines[i].row.response, lines[i].response))
  }

  lemma LineStandsFor(c: Codec, blobs: Store, request: string, row: Row)
    requires Readable(c, blobs, row)
    ensures var line := LineOf(c, blobs, request, row);
            && line.request == request && line.row == row
            && StandsFor(c, blobs, row.original, line.original) && StandsFor(c, blobs, row.response, line.response)
  {
  }

  /** What an export holds. */
  lemma ExportHolds(c: Codec, db: Db, s: string, lines: seq<Line>)
    requires Export(c, db, s) == Some(lines)
    ensures LinesOf(c, db.blobs, RowsOf(db, s), lines)
  {
    var rows := RowsOf(db, s);
    var ids := ByRequest(rows);
    TextTotal(rows.Keys);
    assert |rows.Keys| == |rows|;
    forall i | 0 <= i < |lines|
      ensures lines[i].request == ids[i] && ids[i] in rows && lines[i] == LineOf(c, db.blobs, ids[i], rows[ids[i]])
    {
      assert ids[i] in Elements(ids);
    }
    forall i | 0 <= i < |lines|
      ensures StandsFor(c, db.blobs, lines[i].row.original, lines[i].original)
      ensures StandsFor(c, db.blobs, lines[i].row.response, lines[i].response)
    {
      LineStandsFor(c, db.blobs, ids[i], rows[ids[i]]);
    }
  }

  // ----- Writers -----

  datatype Mutation =
    | Insert(request: string, row: Row)
    | Update(request: string, row: Row)
    | Delete(request: string)

  ghost predicate CanMutate(db: Db, m: Mutation) {
    match m
    case Insert(request, row) => request !in db.records && row.session != ""
    case Update(request, row) => request in db.records && row.session != ""
    case Delete(request) => request in db.records
  }

  /** The event a trigger writes: the new session, and the old one if it differs. */
  ghost function TriggerEvent(db: Db, m: Mutation, at: string): Event
    requires CanMutate(db, m)
  {
    match m
    case Insert(_, row) => Event(row.session, "", at)
    case Update(request, row) =>
      var was := db.records[request].session;
      Event(row.session, if was != row.session then was else "", at)
    case Delete(request) => Event(db.records[request].session, "", at)
  }

  ghost function Mutate(db: Db, m: Mutation, at: string, blobs: Store): Db
    requires CanMutate(db, m)
  {
    var records := match m
      case Insert(request, row) => db.records[request := row]
      case Update(request, row) => db.records[request := row]
      case Delete(request) => db.records - {request};
    db.(records := records, clock := db.clock + 1, blobs := blobs,
        events := db.events[db.clock + 1 := TriggerEvent(db, m, at)])
  }

  // ----- The digest worker -----

  /** What the worker carries from its read transaction to its write. */
  datatype Pending = Vanished(session: string) | Computed(session: string, lines: seq<Line>, fence: nat)

  ghost function RefreshRead(c: Codec, db: Db, s: string): Option<Pending> {
    if RowsOf(db, s) == map[] then Some(Vanished(s))
    else
      match Export(c, db, s)
      case Some(lines) => Some(Computed(s, lines, SessionFence(db, s, db.clock)))
      case None => None
  }

  /** The guarded write: a digest lands only if the session's fence has not moved since. */
  ghost function RefreshWrite(db: Db, p: Pending): Db {
    match p
    case Vanished(s) => if RowsOf(db, s) == map[] then db.(digests := db.digests - {s}) else db
    case Computed(s, lines, fence) =>
      if SessionFence(db, s, db.clock) == fence
      then db.(digests := db.digests[s := DigestRow(Sha256(lines), fence)]) else db
  }

  /** What one change does: the record is written or gone, every other record is as it was, the
      clock advances by one, and the event at the new clock names the session and, on a move, the
      session before. */
  lemma MutationApplies(db: Db, m: Mutation, at: string, blobs: Store)
    requires CanMutate(db, m)
    ensures var w := Mutate(db, m, at, blobs);
            && (m.Delete? ==> w.records == db.records - {m.request})
            && (!m.Delete? ==> w.records == db.records[m.request := m.row])
            && w.clock == db.clock + 1 && w.safeAfter == db.safeAfter && w.digests == db.digests
            && w.events.Keys == db.events.Keys + {w.clock}
            && (forall k | k in db.events && k != w.clock :: w.events[k] == db.events[k])
            && w.events[w.clock].recordedAt == at
            && w.events[w.clock].session == (if m.Delete? then db.records[m.request].session else m.row.session)
            && w.events[w.clock].previous ==
               (if m.Update? && db.records[m.request].session != m.row.session
                then db.records[m.request].session else "")
  {
  }

  /** A worker's write touches its own session only, and removes a digest only of a session
      without records. */
  lemma FlushTouchesOne(db: Db, p: Pending, s: string)
    ensures var w := RefreshWrite(db, p);
            && w == db.(digests := w.digests)
            && (s != p.session ==> (s in w.digests <==> s in db.digests)
                                   && (s in db.digests ==> w.digests[s] == db.digests[s]))
            && (s in db.digests && s !in w.digests ==> RowsOf(db, s) == map[])
  {
  }

  // ----- The machine -----

  datatype State = State(db: Db, workers: map<nat, Pending>)

  datatype Step =
    | Write(puts: set<Bytes>, mutation: Mutation, at: string)
    | Collect
    | Read(worker: nat, session: string)
    | Flush(worker: nat)
    | Crash(worker: nat)

  ghost predicate Next(c: Codec, v: State, step: Step, w: State) {
    match step
    case Write(puts, m, at) =>
      && CanMutate(v.db, m) && Inserted(c, v.db.blobs, puts, w.db.blobs)
      && w == State(Mutate(v.db, m, at, w.db.blobs), v.workers)
    case Collect =>
      w == if Intact(c, v.db.blobs, Roots(v.db))
           then v.(db := v.db.(blobs := Swept(c, v.db.blobs, Roots(v.db)))) else v
    case Read(worker, s) =>
      && s != ""
      && var p := RefreshRead(c, v.db, s);
         w == if p.Some? then v.(workers := v.workers[worker := p.value]) else v
    case Flush(worker) =>
      worker in v.workers && w == State(RefreshWrite(v.db, v.workers[worker]), v.workers - {worker})
    case Crash(worker) => w == v.(workers := v.workers - {worker})
  }

  ghost predicate EventsInRange(db: Db) {
    forall k | k in db.events :: 1 <= k <= db.clock
  }

  ghost predicate SessionsNamed(db: Db) {
    forall r | r in db.records :: db.records[r].session != ""
  }

  /** A digest computed at a fence that is still the session's fence is the hash of the
      session's current export. */
  ghost predicate Fresh(c: Codec, db: Db, s: string, lines: seq<Line>, fence: int) {
    && fence <= db.clock
    && (fence == SessionFence(db, s, db.clock) ==> Export(c, db, s) == Some(lines))
  }

  ghost predicate DigestsFresh(c: Codec, db: Db) {
    forall s | s in db.digests && s != "" && db.digests[s].digest.Sha256? ::
      Fresh(c, db, s, db.digests[s].digest.lines, db.digests[s].fence)
  }

  ghost predicate WorkersFresh(c: Codec, v: State) {
    forall w | w in v.workers && v.workers[w].Computed? ::
      v.workers[w].session != "" && Fresh(c, v.db, v.workers[w].session, v.workers[w].lines, v.workers[w].fence)
  }

  ghost predicate Base(c: Codec, v: State) {
    EventsInRange(v.db) && SessionsNamed(v.db) && v.db.safeAfter <= v.db.clock && WorkersFresh(c, v)
  }

  ghost predicate Inv(c: Codec, v: State) {
    Base(c, v) && DigestsFresh(c, v.db)
  }

  /** An archive just opened: any records, any earlier events, any digests, the tombstone fence
      at the clock, no worker at work. */
  ghost predicate JustOpened(v: State) {
    EventsInRange(v.db) && SessionsNamed(v.db) && v.db.safeAfter == v.db.clock && v.workers == map[]
  }

  /** An archive opened without a stale digest. */
  ghost predicate Init(c: Codec, v: State) {
    JustOpened(v) && DigestsFresh(c, v.db)
  }

  // ----- What each step keeps -----

  /** Every load that worked for these references still works. */
  ghost predicate KeepsLoads(c: Codec, a: Store, b: Store, refs: set<Hash>) {
    forall h, bytes | h in refs && LoadsTo(c, a, h, bytes) :: LoadsTo(c, b, h, bytes)
  }

  ghost function RefsOfRows(rows: map<string, Row>): set<Hash> {
    set r, h | r in rows && h in RowRefs(rows[r]) :: h
  }

  lemma ResolveKept(c: Codec, a: Store, b: Store, refs: set<Hash>, ref: Hash)
    requires KeepsLoads(c, a, b, refs) && (ref == "" || ref in refs) && Resolve(c, a, ref).Some?
    ensures Resolve(c, b, ref) == Resolve(c, a, ref)
  {
    if ref != "" {
      var bytes := Resolve(c, a, ref).value;
      assert LoadsTo(c, a, ref, bytes);
      LoadUnique(c, b, ref, bytes, Resolve(c, b, ref).value);
    }
  }

  lemma RowKept(c: Codec, a: Store, b: Store, refs: set<Hash>, row: Row)
    requires KeepsLoads(c, a, b, refs) && RowRefs(row) <= refs && Readable(c, a, row)
    ensures Readable(c, b, row)
    ensures Resolve(c, b, row.original) == Resolve(c, a, row.original)
    ensures Resolve(c, b, row.response) == Resolve(c, a, row.response)
  {
    assert row.original in [row.original, row.upstream, row.response];
    assert row.response in [row.original, row.upstream, row.response];
    ResolveKept(c, a, b, refs, row.original);
    ResolveKept(c, a, b, refs, row.response);
  }

  /** An export that worked is unchanged by any step that keeps its loads. */
  lemma ExportKept(c: Codec, a: Store, b: Store, refs: set<Hash>, rows: map<string, Row>)
    requires KeepsLoads(c, a, b, refs) && RefsOfRows(rows) <= refs && ExportRows(c, a, rows).Some?
    ensures ExportRows(c, b, rows) == ExportRows(c, a, rows)
  {
    forall r | r in rows
      ensures Readable(c, b, rows[r]) && LineOf(c, a, r, rows[r]) == LineOf(c, b, r, rows[r])
    {
      assert forall h | h in RowRefs(rows[r]) :: h in RefsOfRows(rows);
      RowKept(c, a, b, refs, rows[r]);
    }
    LinesKept(c, a, b, rows, ByRequest(rows));
  }

  lemma LinesKept(c: Codec, a: Store, b: Store, rows: map<string, Row>, ids: seq<string>)
    requires Elements(ids) == rows.Keys && AllReadable(c, a, rows) && AllReadable(c, b, rows)
    requires forall r | r in rows :: LineOf(c, a, r, rows[r]) == LineOf(c, b, r, rows[r])
    ensures Lines(c, a, rows, ids) == Lines(c, b, rows, ids)
  {
  }

  lemma WriteKeepsLoads(c: Codec, a: Store, puts: set<Bytes>, b: Store, refs: set<Hash>)
    requires c.unmarshal([]).None? && Inserted(c, a, puts, b)
    ensures KeepsLoads(c, a, b, refs)
  {
    forall h, bytes | h in refs && LoadsTo(c, a, h, bytes) ensures LoadsTo(c, b, h, bytes) {
      LoadFrame(c, a, b, h, bytes);
    }
  }

  lemma SweepKeepsAll(c: Codec, store: Store, roots: set<Hash>)
    requires c.unmarshal([]).None?
    ensures KeepsLoads(c, store, Swept(c, store, roots), roots)
  {
    forall h, bytes | h in roots && LoadsTo(c, store, h, bytes) ensures LoadsTo(c, Swept(c, store, roots), h, bytes) {
      SweepKeepsLoads(c, store, roots, h, bytes);
    }
  }

  lemma RefsAreRoots(db: Db, s: string)
    ensures RefsOfRows(RowsOf(db, s)) <= Roots(db)
  {
  }

  /** A session the trigger's event does not mention has the rows it had. */
  lemma UnmentionedRows(db: Db, m: Mutation, at: string, blobs: Store, s: string)
    requires CanMutate(db, m) && s != "" && !Mentions(TriggerEvent(db, m, at), s)
    ensures RowsOf(Mutate(db, m, at, blobs), s) == RowsOf(db, s)
  {
  }

  lemma UnmentionedFence(db: Db, m: Mutation, at: string, blobs: Store, s: string)
    requires CanMutate(db, m) && EventsInRange(db) && !Mentions(TriggerEvent(db, m, at), s)
    ensures SessionFence(Mutate(db, m, at, blobs), s, db.clock + 1) == SessionFence(db, s, db.clock)
  {
    var w := Mutate(db, m, at, blobs);
    assert EventsOf(w, s, db.clock + 1) == EventsOf(db, s, db.clock);
  }

  lemma MentionedFence(db: Db, m: Mutation, at: string, blobs: Store, s: string)
    requires CanMutate(db, m) && Mentions(TriggerEvent(db, m, at), s)
    ensures SessionFence(Mutate(db, m, at, blobs), s, db.clock + 1) == db.clock + 1
  {
    var w := Mutate(db, m, at, blobs);
    assert db.clock + 1 in EventsOf(w, s, db.clock + 1);
  }

  lemma WriteKeepsFresh(c: Codec, db: Db, puts: set<Bytes>, m: Mutation, at: string, blobs: Store,
                        s: string, lines: seq<Line>, fence: int)
    requires c.unmarshal([]).None? && CanMutate(db, m) && EventsInRange(db) && Inserted(c, db.blobs, puts, blobs)
    requires s != "" && Fresh(c, db, s, lines, fence)
    ensures Fresh(c, Mutate(db, m, at, blobs), s, lines, fence)
  {
    if Mentions(TriggerEvent(db, m, at), s) {
      MentionedFence(db, m, at, blobs, s);
    } else {
      UnmentionedFresh(c, db, puts, m, at, blobs, s, lines, fence);
    }
  }

  lemma UnmentionedFresh(c: Codec, db: Db, puts: set<Bytes>, m: Mutation, at: string, blobs: Store,
                         s: string, lines: seq<Line>, fence: int)
    requires c.unmarshal([]).None? && CanMutate(db, m) && EventsInRange(db) && Inserted(c, db.blobs, puts, blobs)
    requires s != "" && !Mentions(TriggerEvent(db, m, at), s) && Fresh(c, db, s, lines, fence)
    ensures Fresh(c, Mutate(db, m, at, blobs), s, lines, fence)
  {
    var w := Mutate(db, m, at, blobs);
    UnmentionedFence(db, m, at, blobs, s);
    if fence == SessionFence(db, s, db.clock) {
      UnmentionedExport(c, db, puts, m, at, blobs, s);
    }
    StillFresh(c, db, w, s, lines, fence);
  }

  lemma StillFresh(c: Codec, db: Db, w: Db, s: string, lines: seq<Line>, fence: int)
    requires Fresh(c, db, s, lines, fence) && db.clock <= w.clock
    requires SessionFence(w, s, w.clock) == SessionFence(db, s, db.clock)
    requires fence == SessionFence(db, s, db.clock) ==> Export(c, w, s) == Export(c, db, s)
    ensures Fresh(c, w, s, lines, fence)
  {
  }

  lemma UnmentionedExport(c: Codec, db: Db, puts: set<Bytes>, m: Mutation, at: string, blobs: Store, s: string)
    requires c.unmarshal([]).None? && CanMutate(db, m) && Inserted(c, db.blobs, puts, blobs)
    requires s != "" && !Mentions(TriggerEvent(db, m, at), s) && Export(c, db, s).Some?
    ensures Export(c, Mutate(db, m, at, blobs), s) == Export(c, db, s)
  {
    var rows := RowsOf(db, s);
    UnmentionedRows(db, m, at, blobs, s);
    WriteKeepsLoads(c, db.blobs, puts, blobs, RefsOfRows(rows));
    ExportKept(c, db.blobs, blobs, RefsOfRows(rows), rows);
  }

  lemma CollectKeepsFresh(c: Codec, db: Db, s: string, lines: seq<Line>, fence: int)
    requires c.unmarshal([]).None? && Fresh(c, db, s, lines, fence)
    ensures Fresh(c, db.(blobs := Swept(c, db.blobs, Roots(db))), s, lines, fence)
  {
    var w := db.(blobs := Swept(c, db.blobs, Roots(db)));
    assert EventsOf(w, s, w.clock) == EventsOf(db, s, db.clock) && RowsOf(w, s) == RowsOf(db, s);
    if fence == SessionFence(db, s, db.clock) {
      SweepKeepsAll(c, db.blobs, Roots(db));
      RefsAreRoots(db, s);
      ExportKept(c, db.blobs, w.blobs, Roots(db), RowsOf(db, s));
    }
  }

  /** A collection keeps every payload of every record: the request as received, the request as
      sent upstream, and the response. */
  lemma CollectKeepsPayloads(c: Codec, v: State, w: State, r: string, bytes: Bytes)
    requires c.unmarshal([]).None? && Next(c, v, Collect, w) && r in v.db.records
    ensures w.db.records == v.db.records
    ensures var row := v.db.records[r];
            && (row.original != "" && LoadsTo(c, v.db.blobs, row.original, bytes) ==>
                  LoadsTo(c, w.db.blobs, row.original, bytes))
            && (row.upstream != "" && LoadsTo(c, v.db.blobs, row.upstream, bytes) ==>
                  LoadsTo(c, w.db.blobs, row.upstream, bytes))
            && (row.response != "" && LoadsTo(c, v.db.blobs, row.response, bytes) ==>
                  LoadsTo(c, w.db.blobs, row.response, bytes))
  {
    var row := v.db.records[r];
    forall h | h != "" && (h == row.original || h == row.upstream || h == row.response) ensures h in Roots(v.db) {
      assert h in [row.original, row.upstream, row.response];
      assert h in RowRefs(row);
    }
    SweepKeepsAll(c, v.db.blobs, Roots(v.db));
  }

  lemma FenceBounded(db: Db, s: string)
    requires EventsInRange(db)
    ensures SessionFence(db, s, db.clock) <= db.clock
  {
  }

  lemma WriteKeepsBase(c: Codec, v: State, step: Step, w: State)
    requires c.unmarshal([]).None? && Base(c, v) && step.Write? && Next(c, v, step, w)
    ensures Base(c, w)
  {
    forall k | k in w.workers && w.workers[k].Computed?
      ensures Fresh(c, w.db, w.workers[k].session, w.workers[k].lines, w.workers[k].fence)
    {
      WriteKeepsFresh(c, v.db, step.puts, step.mutation, step.at, w.db.blobs,
                      v.workers[k].session, v.workers[k].lines, v.workers[k].fence);
    }
  }

  lemma CollectKeepsBase(c: Codec, v: State, w: State)
    requires c.unmarshal([]).None? && Base(c, v) && Next(c, v, Collect, w)
    ensures Base(c, w)
  {
    if w != v {
      forall k | k in w.workers && w.workers[k].Computed?
        ensures Fresh(c, w.db, w.workers[k].session, w.workers[k].lines, w.workers[k].fence)
      {
        CollectKeepsFresh(c, v.db, v.workers[k].session, v.workers[k].lines, v.workers[k].fence);
      }
    }
  }

  lemma ReadKeepsBase(c: Codec, v: State, step: Step, w: State)
    requires Base(c, v) && step.Read? && Next(c, v, step, w)
    ensures Base(c, w)
  {
    FenceBounded(v.db, step.session);
  }

  lemma FlushKeepsWorkers(c: Codec, v: State, w: State, digests: map<string, DigestRow>)
    requires WorkersFresh(c, v) && w.db == v.db.(digests := digests)
    requires forall k | k in w.workers :: k in v.workers && w.workers[k] == v.workers[k]
    ensures WorkersFresh(c, w)
  {
  }

  lemma StepKeepsBase(c: Codec, v: State, step: Step, w: State)
    requires c.unmarshal([]).None? && Base(c, v) && Next(c, v, step, w)
    ensures Base(c, w)
  {
    match step
    case Write(_, _, _) => WriteKeepsBase(c, v, step, w);
    case Collect => CollectKeepsBase(c, v, w);
    case Read(_, _) => ReadKeepsBase(c, v, step, w);
    case Flush(_) => FlushKeepsWorkers(c, v, w, w.db.digests);
    case Crash(_) =>
  }

  /** A digest row that is not fresh. */
  ghost predicate Stale(c: Codec, db: Db, s: string) {
    && s in db.digests && s != "" && db.digests[s].digest.Sha256?
    && !Fresh(c, db, s, db.digests[s].digest.lines, db.digests[s].fence)
  }

  /** The guarded write lands only what is current, however long ago it was computed. */
  lemma FlushIsFresh(c: Codec, v: State, worker: nat, s: string)
    requires Base(c, v) && worker in v.workers && Stale(c, RefreshWrite(v.db, v.workers[worker]), s)
    ensures var db := RefreshWrite(v.db, v.workers[worker]);
            s in v.db.digests && v.db.digests[s] == db.digests[s] && Stale(c, v.db, s)
  {
  }

  /** No step makes a digest stale or touches a stale one without curing it: a stale row was
      the same row, and stale, before the step. */
  lemma StaleWasStale(c: Codec, v: State, step: Step, w: State, s: string)
    requires c.unmarshal([]).None? && Base(c, v) && Next(c, v, step, w) && Stale(c, w.db, s)
    ensures Stale(c, v.db, s) && v.db.digests[s] == w.db.digests[s]
  {
    match step
    case Write(puts, m, at) =>
      if !Stale(c, v.db, s) {
        var row := v.db.digests[s];
        WriteKeepsFresh(c, v.db, puts, m, at, w.db.blobs, s, row.digest.lines, row.fence);
      }
    case Collect =>
      if !Stale(c, v.db, s) { CollectKeepsFresh(c, v.db, s, v.db.digests[s].digest.lines, v.db.digests[s].fence); }
    case Flush(worker) => FlushIsFresh(c, v, worker, s);
    case _ =>
  }

  lemma NoneStale(c: Codec, db: Db)
    ensures DigestsFresh(c, db) <==> forall s :: !Stale(c, db, s)
  {
    if forall s :: !Stale(c, db, s) {
      forall s | s in db.digests && s != "" && db.digests[s].digest.Sha256?
        ensures Fresh(c, db, s, db.digests[s].digest.lines, db.digests[s].fence)
      {
        assert !Stale(c, db, s);
      }
    }
  }

  /** Every step of writers, collector and worker keeps the invariant. */
  lemma StepPreserves(c: Codec, v: State, step: Step, w: State)
    requires c.unmarshal([]).None? && Inv(c, v) && Next(c, v, step, w)
    ensures Inv(c, w)
  {
    StepKeepsBase(c, v, step, w);
    NoneStale(c, v.db);
    NoneStale(c, w.db);
    forall s ensures !Stale(c, w.db, s) {
      if Stale(c, w.db, s) { StaleWasStale(c, v, step, w, s); }
    }
  }

  // ----- Runs -----

  ghost predicate StepAt(c: Codec, run: seq<State>, steps: seq<Step>, i: nat)
    requires i < |steps| && |run| == |steps| + 1
  {
    Next(c, run[i], steps[i], run[i + 1])
  }

  ghost predicate IsRun(c: Codec, run: seq<State>, steps: seq<Step>) {
    && |run| == |steps| + 1 && Init(c, run[0])
    && forall i | 0 <= i < |steps| :: StepAt(c, run, steps, i)
  }

  /** The invariant holds in every reachable state. */
  lemma {:induction false} RunInvariant(c: Codec, run: seq<State>, steps: seq<Step>, i: nat)
    requires c.unmarshal([]).None? && IsRun(c, run, steps) && i < |run|
    ensures Inv(c, run[i])
    decreases i
  {
    if i > 0 {
      RunInvariant(c, run, steps, i - 1);
      assert StepAt(c, run, steps, i - 1);
      StepPreserves(c, run[i - 1], steps[i - 1], run[i]);
    }
  }

  /** In every reachable state a digest row at the session's current fence is the hash of
      the session's current export. */
  lemma DigestAtFenceIsCurrent(c: Codec, run: seq<State>, steps: seq<Step>, i: nat, s: string)
    requires c.unmarshal([]).None? && IsRun(c, run, steps) && i < |run| && s != ""
    requires var db := run[i].db;
             s in db.digests && db.digests[s].digest.Sha256? && db.digests[s].fence == SessionFence(db, s, db.clock)
    ensures Export(c, run[i].db, s) == Some(run[i].db.digests[s].digest.lines)
  {
    RunInvariant(c, run, steps, i);
    assert Fresh(c, run[i].db, s, run[i].db.digests[s].digest.lines, run[i].db.digests[s].fence);
  }

  // ----- Archives opened with stale digests -----

  ghost predicate IsOpenRun(c: Codec, run: seq<State>, steps: seq<Step>) {
    && |run| == |steps| + 1 && JustOpened(run[0])
    && forall i | 0 <= i < |steps| :: StepAt(c, run, steps, i)
  }

  lemma {:induction false} OpenRunBase(c: Codec, run: seq<State>, steps: seq<Step>, i: nat)
    requires c.unmarshal([]).None? && IsOpenRun(c, run, steps) && i < |run|
    ensures Base(c, run[i])
    decreases i
  {
    if i > 0 {
      OpenRunBase(c, run, steps, i - 1);
      assert StepAt(c, run, steps, i - 1);
      StepKeepsBase(c, run[i - 1], steps[i - 1], run[i]);
    }
  }

  /** Whatever the archive was opened with: a digest that is stale in a reachable state is a row
      it was opened with, and was stale then. */
  lemma {:induction false} StaleSinceOpening(c: Codec, run: seq<State>, steps: seq<Step>, i: nat, s: string)
    requires c.unmarshal([]).None? && IsOpenRun(c, run, steps) && i < |run| && Stale(c, run[i].db, s)
    ensures Stale(c, run[0].db, s) && run[0].db.digests[s] == run[i].db.digests[s]
    decreases i
  {
    if i > 0 {
      OpenRunBase(c, run, steps, i - 1);
      assert StepAt(c, run, steps, i - 1);
      StaleWasStale(c, run[i - 1], steps[i - 1], run[i], s);
      StaleSinceOpening(c, run, steps, i - 1, s);
    }
  }

  /** So no state of any run from an opened archive has a stale digest if and only if the
      archive had none when it was opened. */
  lemma FreshForEverExactly(c: Codec, start: State)
    requires c.unmarshal([]).None? && JustOpened(start)
    ensures DigestsFresh(c, start.db) <==>
            forall run: seq<State>, steps: seq<Step>, i: nat |
              IsOpenRun(c, run, steps) && run[0] == start && i < |run| :: DigestsFresh(c, run[i].db)
  {
    if DigestsFresh(c, start.db) {
      forall run: seq<State>, steps: seq<Step>, i: nat | IsOpenRun(c, run, steps) && run[0] == start && i < |run|
        ensures DigestsFresh(c, run[i].db)
      {
        NoneStale(c, start.db);
        NoneStale(c, run[i].db);
        forall s ensures !Stale(c, run[i].db, s) {
          if Stale(c, run[i].db, s) { StaleSinceOpening(c, run, steps, i, s); }
        }
      }
    } else {
      assert IsOpenRun(c, [start], []);
      assert [start][0] == start;
    }
  }
}
