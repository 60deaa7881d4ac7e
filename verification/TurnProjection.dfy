/** The narrow copy of the records that the turn pages read
(internal/archive/turn_projection.go), filled by every ingest and backfilled by session. */
module TurnProjection {
  import opened Types
  import opened Ordering
  import opened CanonicalRepair

  // ----- What writers do -----

  /** ON CONFLICT(request_id) DO UPDATE: id, session, start and facets stay as first stored. */
  function PutRow(rows: Rows, request: string, row: Row): Rows {
    if request !in rows then rows[request := row]
    else
      var was := rows[request];
      rows[request := was.(
        completedAt := row.completedAt, responseRef := row.responseRef,
        summary := if was.summary == "" then row.summary else was.summary)]
  }

  /** The turn upsert copies the stored record; on conflict it keeps the turn's own id. */
  function Project(turns: Turns, rows: Rows, request: string): Turns
    requires request in rows
  {
    var id := if request in turns then turns[request].id else rows[request].id;
    turns[request := Turn(id, rows[request].session, rows[request].facets)]
  }

  function ProjectAll(turns: Turns, rows: Rows, batch: seq<string>): Turns
    requires forall r | r in batch :: r in rows
  {
    if batch == [] then turns
    else
      assert forall r | r in batch[..|batch| - 1] :: r in rows;
      Project(ProjectAll(turns, rows, batch[..|batch| - 1]), rows, batch[|batch| - 1])
  }

  ghost predicate UniqueIds(rows: Rows) {
    forall a, b | a in rows && b in rows && rows[a].id == rows[b].id :: a == b
  }

  datatype State = State(rows: Rows, turns: Turns)

  /** An ingest, a canonical repair, or one backfill transaction. */
  datatype Step = Put(request: string, row: Row) | Repaired(xs: seq<Repair>) | Backfilled(batch: seq<string>)

  /** A new record gets an id no record has. */
  ghost predicate Possible(state: State, step: Step) {
    match step
    case Put(request, row) => request in state.rows || forall r | r in state.rows :: state.rows[r].id != row.id
    case Repaired(_) => true
    case Backfilled(batch) => forall r | r in batch :: r in state.rows
  }

  ghost function Next(state: State, step: Step): State
    requires Possible(state, step)
  {
    match step
    case Put(request, row) =>
      var rows := PutRow(state.rows, request, row);
      State(rows, Project(state.turns, rows, request))
    case Repaired(xs) => State(MoveRows(state.rows, xs), MoveTurns(state.turns, state.rows, xs))
    case Backfilled(batch) => State(state.rows, ProjectAll(state.turns, state.rows, batch))
  }

  ghost predicate Inv(state: State) {
    UniqueIds(state.rows) && TurnsFollow(state.rows, state.turns)
  }

  lemma PutFollows(rows: Rows, turns: Turns, request: string, row: Row)
    requires TurnsFollow(rows, turns)
    ensures TurnsFollow(PutRow(rows, request, row), Project(turns, PutRow(rows, request, row), request))
  {
  }

  lemma ProjectFollows(rows: Rows, turns: Turns, request: string)
    requires TurnsFollow(rows, turns) && request in rows
    ensures TurnsFollow(rows, Project(turns, rows, request))
    ensures Project(turns, rows, request).Keys == turns.Keys + {request}
  {
  }

  lemma {:induction false} ProjectAllFollows(rows: Rows, turns: Turns, batch: seq<string>)
    requires TurnsFollow(rows, turns) && forall r | r in batch :: r in rows
    ensures TurnsFollow(rows, ProjectAll(turns, rows, batch))
    ensures forall r :: r in ProjectAll(turns, rows, batch) <==> r in turns || r in batch
    decreases |batch|
  {
    if batch != [] {
      var init, last := batch[..|batch| - 1], batch[|batch| - 1];
      assert batch == init + [last];
      ProjectAllFollows(rows, turns, init);
      ProjectFollows(rows, ProjectAll(turns, rows, init), last);
    }
  }

  lemma {:induction false} MoveKeepsIds(rows: Rows, xs: seq<Repair>)
    ensures MoveRows(rows, xs).Keys == rows.Keys && forall r | r in rows :: MoveRows(rows, xs)[r].id == rows[r].id
    decreases |xs|
  {
    if xs != [] { MoveKeepsIds(rows, xs[..|xs| - 1]); }
  }

  /** Every step but a deletion keeps each turn beside its record. */
  lemma StepPreserves(state: State, step: Step)
    requires Inv(state) && Possible(state, step)
    ensures Inv(Next(state, step))
  {
    match step
    case Put(request, row) => PutFollows(state.rows, state.turns, request, row);
    case Repaired(xs) =>
      TurnsStillFollow(state.rows, state.turns, xs);
      MoveKeepsIds(state.rows, xs);
    case Backfilled(batch) => ProjectAllFollows(state.rows, state.turns, batch);
  }

  ghost predicate StepAt(states: seq<State>, steps: seq<Step>, i: nat)
    requires i < |steps| && i + 1 < |states|
  {
    Possible(states[i], steps[i]) && states[i + 1] == Next(states[i], steps[i])
  }

  ghost predicate IsRun(states: seq<State>, steps: seq<Step>) {
    |states| == |steps| + 1 && forall i: nat | i < |steps| :: StepAt(states, steps, i)
  }

  lemma {:induction false} RunInvariant(states: seq<State>, steps: seq<Step>, i: nat)
    requires IsRun(states, steps) && Inv(states[0]) && i < |states|
    ensures Inv(states[i])
    decreases i
  {
    if i > 0 {
      RunInvariant(states, steps, i - 1);
      assert StepAt(states, steps, i - 1);
      StepPreserves(states[i - 1], steps[i - 1]);
    }
  }

  // ----- What a run may change of a record -----

  /** Id, start and the two request refs stay; a summary stays once there is one. */
  ghost predicate KeepsIdentity(before: Rows, after: Rows) {
    forall r | r in before ::
      && r in after && after[r].id == before[r].id && after[r].startedAt == before[r].startedAt
      && after[r].originalRef == before[r].originalRef && after[r].upstreamRef == before[r].upstreamRef
      && (before[r].summary != "" ==> after[r].summary == before[r].summary)
  }

  /** A repeated ingest also keeps session and facets and takes the new completion and response. */
  lemma PutKeepsIdentity(rows: Rows, request: string, row: Row)
    ensures KeepsIdentity(rows, PutRow(rows, request, row))
    ensures var after := PutRow(rows, request, row);
            forall r | r in rows :: after[r].session == rows[r].session && after[r].facets == rows[r].facets
    ensures request in PutRow(rows, request, row)
    ensures var now := PutRow(rows, request, row)[request];
            now.completedAt == row.completedAt && now.responseRef == row.responseRef
    ensures request !in rows ==> PutRow(rows, request, row)[request] == row
  {
  }

  lemma {:induction false} MoveKeepsIdentity(rows: Rows, xs: seq<Repair>)
    ensures KeepsIdentity(rows, MoveRows(rows, xs))
    decreases |xs|
  {
    if xs != [] { MoveKeepsIdentity(rows, xs[..|xs| - 1]); }
  }

  lemma StepKeepsIdentity(state: State, step: Step)
    requires Possible(state, step)
    ensures KeepsIdentity(state.rows, Next(state, step).rows)
  {
    match step
    case Put(request, row) => PutKeepsIdentity(state.rows, request, row);
    case Repaired(xs) => MoveKeepsIdentity(state.rows, xs);
    case Backfilled(_) =>
  }

  /** Along every run a record keeps its id, start and request payloads. */
  lemma {:induction false} RunKeepsIdentity(states: seq<State>, steps: seq<Step>, i: nat)
    requires IsRun(states, steps) && i < |states|
    ensures KeepsIdentity(states[0].rows, states[i].rows)
    decreases i
  {
    if i > 0 {
      RunKeepsIdentity(states, steps, i - 1);
      assert StepAt(states, steps, i - 1);
      StepKeepsIdentity(states[i - 1], steps[i - 1]);
    }
  }

  // ----- The early exit -----

  function SessionRecords(rows: Rows, session: string): set<string> {
    set r | r in rows && rows[r].session == session
  }

  function SessionTurns(turns: Turns, session: string): set<string> {
    set r | r in turns && turns[r].session == session
  }

  /** The projection of the session is complete and holds nothing else. */
  ghost predicate Projected(rows: Rows, turns: Turns, session: string) {
    && SessionTurns(turns, session) == SessionRecords(rows, session)
    && forall r | r in SessionRecords(rows, session) :: turns[r] == Turn(rows[r].id, session, rows[r].facets)
  }

  lemma {:induction false} Pigeonhole(small: set<string>, large: set<string>)
    requires small <= large && |small| == |large|
    ensures small == large
    decreases |small|
  {
    if small == {} {
      assert large == {};
    } else {
      var x :| x in small;
      Pigeonhole(small - {x}, large - {x});
      assert small == (small - {x}) + {x} && large == (large - {x}) + {x};
    }
  }

  /** Equal counts mean equal sets exactly when no turn of the session is stale. */
  lemma EarlyExitExactly(rows: Rows, turns: Turns, session: string)
    requires |SessionTurns(turns, session)| == |SessionRecords(rows, session)|
    ensures SessionTurns(turns, session) == SessionRecords(rows, session) <==>
            SessionTurns(turns, session) <= SessionRecords(rows, session)
  {
    if SessionTurns(turns, session) <= SessionRecords(rows, session) {
      Pigeonhole(SessionTurns(turns, session), SessionRecords(rows, session));
    }
  }

  /** So on every reachable state the early exit leaves a complete projection. */
  lemma EarlyExitSound(state: State, session: string)
    requires Inv(state) && |SessionTurns(state.turns, session)| == |SessionRecords(state.rows, session)|
    ensures Projected(state.rows, state.turns, session)
  {
    EarlyExitExactly(state.rows, state.turns, session);
  }

  /** A record deleted without its turn makes the counts agree on different sets. */
  lemma DeletionBreaksEarlyExit(row: Row) returns (state: State, after: Rows)
    ensures Inv(state) && after.Keys == state.rows.Keys - {"old"}
    ensures (forall r | r in after :: after[r] == state.rows[r])
    ensures |SessionTurns(state.turns, row.session)| == |SessionRecords(after, row.session)|
    ensures !Projected(after, state.turns, row.session)
  {
    var other := row.(id := row.id + 1);
    state := State(map["old" := row, "new" := other], map["old" := Turn(row.id, row.session, row.facets)]);
    after := map["new" := other];
    assert SessionTurns(state.turns, row.session) == {"old"};
    assert SessionRecords(after, row.session) == {"new"};
    assert "old" in SessionTurns(state.turns, row.session) && "old" !in SessionRecords(after, row.session);
  }

  // ----- The walk -----

  datatype Cursor = Cursor(startedAt: string, id: int)

  const Origin := Cursor("", 0)

  predicate After(cursor: Cursor, row: Row) {
    TextLess(cursor.startedAt, row.startedAt) || (row.startedAt == cursor.startedAt && row.id > cursor.id)
  }

  function At(row: Row): Cursor {
    Cursor(row.startedAt, row.id)
  }

  ghost predicate Waiting(rows: Rows, session: string, cursor: Cursor, r: string) {
    r in rows && rows[r].session == session && After(cursor, rows[r])
  }

  /** ORDER BY started_at,id LIMIT: the first waiting rows; what it leaves out comes behind the
      last one, and it leaves out nothing unless the batch is full. */
  ghost predicate Answers(rows: Rows, session: string, cursor: Cursor, limit: nat, batch: seq<string>) {
    && |batch| <= limit
    && (forall k | 0 <= k < |batch| :: Waiting(rows, session, cursor, batch[k]))
    && (forall r | Waiting(rows, session, cursor, r) && r !in batch ::
          && |batch| == limit
          && (batch != [] ==> batch[|batch| - 1] in rows && After(At(rows[batch[|batch| - 1]]), rows[r])))
  }

  /** Every record of the session has its turn or is still ahead of the cursor. */
  ghost predicate Ahead(rows: Rows, turns: Turns, session: string, cursor: Cursor) {
    forall r | r in rows && rows[r].session == session :: r in turns || After(cursor, rows[r])
  }

  /** A record ingested during the walk brings its own turn, wherever the cursor is. */
  lemma PutKeepsAhead(rows: Rows, turns: Turns, session: string, cursor: Cursor, request: string, row: Row)
    requires Ahead(rows, turns, session, cursor)
    ensures Ahead(PutRow(rows, request, row), Project(turns, PutRow(rows, request, row), request), session, cursor)
  {
  }

  lemma BatchKeepsAhead(rows: Rows, turns: Turns, session: string, cursor: Cursor, limit: nat, batch: seq<string>)
    requires TurnsFollow(rows, turns) && Ahead(rows, turns, session, cursor)
    requires Answers(rows, session, cursor, limit, batch) && batch != []
    ensures (forall r | r in batch :: r in rows)
    ensures Ahead(rows, ProjectAll(turns, rows, batch), session, At(rows[batch[|batch| - 1]]))
  {
    assert forall r | r in batch :: r in rows;
    ProjectAllFollows(rows, turns, batch);
  }

  /** The last batch is not full: everything is projected. */
  lemma LastBatchCompletes(rows: Rows, turns: Turns, session: string, cursor: Cursor, limit: nat, batch: seq<string>)
    requires TurnsFollow(rows, turns) && Ahead(rows, turns, session, cursor)
    requires Answers(rows, session, cursor, limit, batch) && |batch| < limit
    ensures (forall r | r in batch :: r in rows)
    ensures Projected(rows, ProjectAll(turns, rows, batch), session)
  {
    assert forall r | r in batch :: r in rows;
    ProjectAllFollows(rows, turns, batch);
    var done := ProjectAll(turns, rows, batch);
    forall r | r in SessionRecords(rows, session) ensures r in done {
      if r !in turns { assert Waiting(rows, session, cursor, r); }
    }
  }

  /** One event of a walk: a writer's ingest, or a full batch that moves the cursor. */
  datatype Event = Ingest(request: string, row: Row) | Batch(batch: seq<string>)

  datatype Walk = Walk(state: State, cursor: Cursor)

  ghost predicate Enabled(walk: Walk, session: string, limit: nat, event: Event) {
    match event
    case Ingest(request, row) => Possible(walk.state, Put(request, row))
    case Batch(batch) => Answers(walk.state.rows, session, walk.cursor, limit, batch) && batch != []
  }

  ghost function Moved(walk: Walk, session: string, limit: nat, event: Event): Walk
    requires Enabled(walk, session, limit, event)
  {
    match event
    case Ingest(request, row) => Walk(Next(walk.state, Put(request, row)), walk.cursor)
    case Batch(batch) =>
      assert forall r | r in batch :: r in walk.state.rows;
      Walk(Next(walk.state, Backfilled(batch)), At(walk.state.rows[batch[|batch| - 1]]))
  }

  ghost predicate WalkInv(walk: Walk, session: string) {
    Inv(walk.state) && Ahead(walk.state.rows, walk.state.turns, session, walk.cursor)
  }

  lemma EventPreserves(walk: Walk, session: string, limit: nat, event: Event)
    requires WalkInv(walk, session) && Enabled(walk, session, limit, event)
    ensures WalkInv(Moved(walk, session, limit, event), session)
  {
    match event
    case Ingest(request, row) =>
      StepPreserves(walk.state, Put(request, row));
      PutKeepsAhead(walk.state.rows, walk.state.turns, session, walk.cursor, request, row);
    case Batch(batch) =>
      assert forall r | r in batch :: r in walk.state.rows;
      StepPreserves(walk.state, Backfilled(batch));
      BatchKeepsAhead(walk.state.rows, walk.state.turns, session, walk.cursor, limit, batch);
  }

  ghost predicate EventAt(walks: seq<Walk>, session: string, limit: nat, events: seq<Event>, i: nat)
    requires i < |events| && i + 1 < |walks|
  {
    Enabled(walks[i], session, limit, events[i]) && walks[i + 1] == Moved(walks[i], session, limit, events[i])
  }

  lemma {:induction false} WalkInvariant(walks: seq<Walk>, session: string, limit: nat, events: seq<Event>, i: nat)
    requires |walks| == |events| + 1 && forall k: nat | k < |events| :: EventAt(walks, session, limit, events, k)
    requires WalkInv(walks[0], session) && i < |walks|
    ensures WalkInv(walks[i], session)
    decreases i
  {
    if i > 0 {
      WalkInvariant(walks, session, limit, events, i - 1);
      assert EventAt(walks, session, limit, events, i - 1);
      EventPreserves(walks[i - 1], session, limit, events[i - 1]);
    }
  }

  /** Whatever is ingested between the batches, and for every batch size, a backfill that saw a
      short batch has projected exactly the session's records. */
  lemma CompletedWalk(walks: seq<Walk>, session: string, limit: nat, events: seq<Event>, last: seq<string>)
    requires |walks| == |events| + 1 && forall k: nat | k < |events| :: EventAt(walks, session, limit, events, k)
    requires Inv(walks[0].state) && walks[0].cursor == Origin
    requires forall r | r in walks[0].state.rows :: After(Origin, walks[0].state.rows[r])
    requires var end := walks[|walks| - 1]; Answers(end.state.rows, session, end.cursor, limit, last) && |last| < limit
    ensures var end := walks[|walks| - 1];
            && (forall r | r in last :: r in end.state.rows)
            && Projected(end.state.rows, ProjectAll(end.state.turns, end.state.rows, last), session)
  {
    WalkInvariant(walks, session, limit, events, |walks| - 1);
    var end := walks[|walks| - 1];
    LastBatchCompletes(end.state.rows, end.state.turns, session, end.cursor, limit, last);
  }

  /** A start text or a positive id puts a record after the origin. */
  lemma AfterOrigin(row: Row)
    ensures After(Origin, row) <==> row.startedAt != "" || row.id > 0
  {
  }

  /** The insert never meets another turn that already has its id. */
  lemma NoIdCollision(state: State, request: string, other: string)
    requires Inv(state) && request in state.rows && other in state.turns && other != request
    ensures state.turns[other].id != state.rows[request].id
  {
  }

  // ----- The backfill, in place -----

  function Ready(rows: Rows, session: string, cursor: Cursor): set<string> {
    set r | r in rows && rows[r].session == session && After(cursor, rows[r])
  }

  lemma AfterTransitive(cursor: Cursor, mid: Row, row: Row)
    requires After(cursor, mid) && After(At(mid), row)
    ensures After(cursor, row)
  {
    if TextLess(cursor.startedAt, mid.startedAt) && TextLess(mid.startedAt, row.startedAt) {
      TextLessTransitive(cursor.startedAt, mid.startedAt, row.startedAt);
    }
  }

  lemma NotAfterItself(row: Row)
    ensures !After(At(row), row)
  {
    TextLessIrreflexive(row.startedAt);
  }

  /** Moving the cursor onto a waiting row leaves fewer rows. */
  lemma ReadyShrinks(rows: Rows, session: string, cursor: Cursor, r: string)
    requires r in Ready(rows, session, cursor)
    ensures |Ready(rows, session, At(rows[r]))| < |Ready(rows, session, cursor)|
  {
    var before, after := Ready(rows, session, cursor), Ready(rows, session, At(rows[r]));
    forall x | x in after ensures x in before {
      AfterTransitive(cursor, rows[r], rows[x]);
    }
    NotAfterItself(rows[r]);
    SubsetSize(after, before - {r});
  }

  type Query = (Cursor, nat) -> seq<string>

  ghost predicate QueryAnswers(rows: Rows, session: string, query: Query) {
    forall cursor, limit :: Answers(rows, session, cursor, limit, query(cursor, limit))
  }

  /** Turns of other sessions are not touched. */
  ghost predicate OthersKept(rows: Rows, session: string, before: Turns, after: Turns) {
    forall r | r !in rows || rows[r].session != session ::
      (r in after <==> r in before) && (r in before ==> after[r] == before[r])
  }

  lemma {:induction false} ProjectAllOthers(rows: Rows, turns: Turns, session: string, batch: seq<string>)
    requires forall r | r in batch :: r in rows && rows[r].session == session
    ensures OthersKept(rows, session, turns, ProjectAll(turns, rows, batch))
    decreases |batch|
  {
    if batch != [] {
      var init := batch[..|batch| - 1];
      assert forall r | r in init :: r in batch;
      assert batch[|batch| - 1] in batch;
      ProjectAllOthers(rows, turns, session, init);
    }
  }

  class TurnTable {
    var turns: Turns

    constructor ()
      ensures turns == map[]
    {
      turns := map[];
    }

    /** One transaction of upserts. */
    method WriteBatch(rows: Rows, batch: seq<string>)
      requires forall r | r in batch :: r in rows
      modifies this
      ensures turns == ProjectAll(old(turns), rows, batch)
    {
      for i := 0 to |batch|
        invariant forall r | r in batch[..i] :: r in rows
        invariant turns == ProjectAll(old(turns), rows, batch[..i])
      {
        assert batch[i] in batch && batch[..i + 1][..i] == batch[..i];
        turns := Project(turns, rows, batch[i]);
      }
      assert batch[..|batch|] == batch;
    }

    /** The seek loop after the count check. */
    method WalkSession(rows: Rows, session: string, batchSize: nat, query: Query)
      requires batchSize >= 1 && TurnsFollow(rows, turns) && QueryAnswers(rows, session, query)
      requires Ahead(rows, turns, session, Origin)
      modifies this
      ensures Projected(rows, turns, session) && TurnsFollow(rows, turns)
      ensures OthersKept(rows, session, old(turns), turns)
    {
      var last := Origin;
      while true
        invariant TurnsFollow(rows, turns) && Ahead(rows, turns, session, last)
        invariant OthersKept(rows, session, old(turns), turns)
        decreases |Ready(rows, session, last)|
      {
        var batch := query(last, batchSize);
        assert Answers(rows, session, last, batchSize, batch);
        ghost var was := turns;
        if |batch| < batchSize { LastBatchCompletes(rows, was, session, last, batchSize, batch); }
        if batch == [] {
          return;
        }
        BatchKeepsAhead(rows, was, session, last, batchSize, batch);
        ProjectAllFollows(rows, was, batch);
        ProjectAllOthers(rows, was, session, batch);
        WriteBatch(rows, batch);
        if |batch| < batchSize {
          return;
        }
        var r := batch[|batch| - 1];
        assert Waiting(rows, session, last, r);
        ReadyShrinks(rows, session, last, r);
        last := At(rows[r]);
      }
    }

    /** backfillTurnSession: equal counts end it at once; otherwise the walk fills every gap. */
    method BackfillTurnSession(rows: Rows, session: string, batchSize: nat, query: Query)
      requires batchSize >= 1 && TurnsFollow(rows, turns) && QueryAnswers(rows, session, query)
      requires forall r | r in rows :: After(Origin, rows[r])
      modifies this
      ensures Projected(rows, turns, session) && TurnsFollow(rows, turns)
      ensures OthersKept(rows, session, old(turns), turns)
    {
      if |SessionTurns(turns, session)| == |SessionRecords(rows, session)| {
        EarlyExitExactly(rows, turns, session);
        return;
      }
      WalkSession(rows, session, batchSize, query);
    }

    /** BackfillTurnProjection over the listed sessions. */
    method BackfillTurnProjection(rows: Rows, sessions: seq<string>, batchSize: int, query: string -> Query)
      requires TurnsFollow(rows, turns) && forall s :: QueryAnswers(rows, s, query(s))
      requires forall r | r in rows :: After(Origin, rows[r])
      modifies this
      ensures forall s | s in sessions :: Projected(rows, turns, s)
      ensures TurnsFollow(rows, turns)
    {
      var size := if batchSize < 1 then 64 else batchSize;
      for i := 0 to |sessions|
        invariant TurnsFollow(rows, turns)
        invariant forall s | s in sessions[..i] :: Projected(rows, turns, s)
      {
        ghost var was := turns;
        var session := sessions[i];
        assert QueryAnswers(rows, session, query(session));
        BackfillTurnSession(rows, session, size, query(session));
        assert sessions[..i + 1] == sessions[..i] + [session];
        forall s | s in sessions[..i + 1] ensures Projected(rows, turns, s) {
          if s != session { StaysProjected(rows, was, turns, session, s); }
        }
      }
      assert sessions[..|sessions|] == sessions;
    }
  }

  lemma StaysProjected(rows: Rows, before: Turns, after: Turns, session: string, other: string)
    requires other != session && Projected(rows, before, other) && OthersKept(rows, session, before, after)
    requires TurnsFollow(rows, after)
    ensures Projected(rows, after, other)
  {
  }
}
