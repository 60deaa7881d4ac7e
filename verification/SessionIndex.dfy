/** The per-session request index (internal/archive/session_index.go): one upsert per newly
seen request, whoever offers it first, ingest or backfill. */
module SessionIndex {
  import opened Types
  import opened Ordering

  /** What indexSessionRecord reads of a record; times are the stored texts. */
  datatype Version = Version(request: string, session: string, startedAt: string, completedAt: string, summary: string)

  /** A session_summaries row. */
  datatype Summary = Summary(requests: nat, firstAt: string, lastAt: string, summary: string, summaryAt: string)

  /** session_indexed_requests and session_summaries. */
  datatype Index = Index(indexed: map<string, string>, summaries: map<string, Summary>)

  const Empty := Index(map[], map[])

  function MinText(a: string, b: string): string {
    if TextLess(b, a) then b else a
  }

  function MaxText(a: string, b: string): string {
    if TextLess(a, b) then b else a
  }

  function Inserted(v: Version): Summary {
    Summary(1, v.startedAt, v.completedAt, v.summary, v.startedAt)
  }

  /** ON CONFLICT(session_id) DO UPDATE. */
  function Merged(old_: Summary, v: Version): Summary {
    var take := v.summary != "" && (old_.summary == "" || TextLess(v.startedAt, old_.summaryAt));
    Summary(
      old_.requests + 1,
      MinText(old_.firstAt, v.startedAt),
      MaxText(old_.lastAt, v.completedAt),
      if take then v.summary else old_.summary,
      if take then v.startedAt else old_.summaryAt)
  }

  predicate Accepts(ix: Index, v: Version) {
    v.request != "" && v.session != "" && v.request !in ix.indexed
  }

  function Upserted(summaries: map<string, Summary>, v: Version): map<string, Summary> {
    summaries[v.session := if v.session in summaries then Merged(summaries[v.session], v) else Inserted(v)]
  }

  /** indexSessionRecord. */
  function IndexRecord(ix: Index, v: Version): Index {
    if !Accepts(ix, v) then ix
    else Index(ix.indexed[v.request := v.session], Upserted(ix.summaries, v))
  }

  function IndexAll(ix: Index, vs: seq<Version>): Index {
    if vs == [] then ix else IndexRecord(IndexAll(ix, vs[..|vs| - 1]), vs[|vs| - 1])
  }

  // ----- The reference: what a row says about the versions indexed under its session -----

  function OfSession(log: seq<Version>, session: string): seq<Version> {
    if log == [] then []
    else OfSession(log[..|log| - 1], session) + if log[|log| - 1].session == session then [log[|log| - 1]] else []
  }

  ghost predicate FirstOf(at: string, vs: seq<Version>) {
    && (exists i | 0 <= i < |vs| :: vs[i].startedAt == at)
    && (forall i | 0 <= i < |vs| :: !TextLess(vs[i].startedAt, at))
  }

  ghost predicate LastOf(at: string, vs: seq<Version>) {
    && (exists i | 0 <= i < |vs| :: vs[i].completedAt == at)
    && (forall i | 0 <= i < |vs| :: !TextLess(at, vs[i].completedAt))
  }

  /** `i` is the first among the earliest versions that have a text. */
  ghost predicate EarliestText(vs: seq<Version>, i: nat) {
    && i < |vs| && vs[i].summary != ""
    && (forall j | 0 <= j < |vs| && vs[j].summary != "" :: !TextLess(vs[j].startedAt, vs[i].startedAt))
    && (forall j | 0 <= j < i && vs[j].summary != "" :: TextLess(vs[i].startedAt, vs[j].startedAt))
  }

  ghost predicate ChosenText(text: string, at: string, vs: seq<Version>) {
    if text == "" then forall i | 0 <= i < |vs| :: vs[i].summary == ""
    else exists i: nat :: EarliestText(vs, i) && vs[i].summary == text && vs[i].startedAt == at
  }

  ghost predicate Summarises(row: Summary, vs: seq<Version>) {
    && row.requests == |vs|
    && FirstOf(row.firstAt, vs)
    && LastOf(row.lastAt, vs)
    && ChosenText(row.summary, row.summaryAt, vs)
  }

  ghost predicate MarkersMatch(indexed: map<string, string>, log: seq<Version>) {
    && (forall i | 0 <= i < |log| :: log[i].request in indexed && indexed[log[i].request] == log[i].session)
    && (forall r | r in indexed :: exists i | 0 <= i < |log| :: log[i].request == r)
    && (forall i, j | 0 <= i < j < |log| :: log[i].request != log[j].request)
  }

  /** The row of one session, present exactly when something is indexed under it. */
  ghost predicate RowMatches(row: Option<Summary>, vs: seq<Version>) {
    if row.None? then vs == [] else vs != [] && Summarises(row.value, vs)
  }

  function RowOf(summaries: map<string, Summary>, session: string): Option<Summary> {
    if session in summaries then Some(summaries[session]) else None
  }

  ghost predicate RowsMatch(summaries: map<string, Summary>, log: seq<Version>) {
    forall s :: RowMatches(RowOf(summaries, s), OfSession(log, s))
  }

  /** `log` holds the indexed versions in the order they were accepted. */
  ghost predicate Agrees(ix: Index, log: seq<Version>) {
    MarkersMatch(ix.indexed, log) && RowsMatch(ix.summaries, log)
  }

  function Logged(ix: Index, log: seq<Version>, v: Version): seq<Version> {
    if Accepts(ix, v) then log + [v] else log
  }

  // ----- One upsert -----

  lemma FirstStep(at: string, vs: seq<Version>, v: Version)
    requires FirstOf(at, vs)
    ensures FirstOf(MinText(at, v.startedAt), vs + [v])
  {
    var all := vs + [v];
    var low := MinText(at, v.startedAt);
    var k :| 0 <= k < |vs| && vs[k].startedAt == at;
    assert all[k].startedAt == at && all[|vs|].startedAt == v.startedAt;
    forall i | 0 <= i < |all| ensures !TextLess(all[i].startedAt, low) {
      TextLessIrreflexive(v.startedAt);
      if TextLess(all[i].startedAt, low) && i < |vs| {
        assert !TextLess(vs[i].startedAt, at);
        if low != at { TextLessTransitive(all[i].startedAt, v.startedAt, at); }
      }
    }
  }

  lemma LastStep(at: string, vs: seq<Version>, v: Version)
    requires LastOf(at, vs)
    ensures LastOf(MaxText(at, v.completedAt), vs + [v])
  {
    var all := vs + [v];
    var high := MaxText(at, v.completedAt);
    var k :| 0 <= k < |vs| && vs[k].completedAt == at;
    assert all[k].completedAt == at && all[|vs|].completedAt == v.completedAt;
    forall i | 0 <= i < |all| ensures !TextLess(high, all[i].completedAt) {
      TextLessIrreflexive(v.completedAt);
      if TextLess(high, all[i].completedAt) && i < |vs| {
        assert !TextLess(at, vs[i].completedAt);
        if high != at { TextLessTransitive(at, v.completedAt, all[i].completedAt); }
      }
    }
  }

  lemma KeptText(vs: seq<Version>, v: Version, i: nat)
    requires EarliestText(vs, i) && (v.summary == "" || !TextLess(v.startedAt, vs[i].startedAt))
    ensures EarliestText(vs + [v], i)
  {
  }

  lemma TakenText(vs: seq<Version>, v: Version)
    requires v.summary != "" && forall j | 0 <= j < |vs| && vs[j].summary != "" ::
        TextLess(v.startedAt, vs[j].startedAt)
    ensures EarliestText(vs + [v], |vs|)
  {
    var all := vs + [v];
    forall j | 0 <= j < |all| && all[j].summary != "" ensures !TextLess(all[j].startedAt, v.startedAt) {
      TextLessIrreflexive(v.startedAt);
      if j < |vs| && TextLess(vs[j].startedAt, v.startedAt) {
        TextLessTransitive(v.startedAt, vs[j].startedAt, v.startedAt);
      }
    }
  }

  lemma ReplacedText(vs: seq<Version>, v: Version, i: nat)
    requires v.summary != "" && EarliestText(vs, i) && TextLess(v.startedAt, vs[i].startedAt)
    ensures EarliestText(vs + [v], |vs|)
  {
    forall j | 0 <= j < |vs| && vs[j].summary != "" ensures TextLess(v.startedAt, vs[j].startedAt) {
      if vs[i].startedAt != vs[j].startedAt {
        TextLessConnected(vs[i].startedAt, vs[j].startedAt);
        TextLessTransitive(v.startedAt, vs[i].startedAt, vs[j].startedAt);
      }
    }
    TakenText(vs, v);
  }

  lemma ChosenStep(row: Summary, vs: seq<Version>, v: Version)
    requires ChosenText(row.summary, row.summaryAt, vs)
    ensures ChosenText(Merged(row, v).summary, Merged(row, v).summaryAt, vs + [v])
  {
    var all := vs + [v];
    if row.summary == "" {
      if v.summary != "" {
        TakenText(vs, v);
        assert all[|vs|] == v;
      }
    } else {
      var i: nat :| EarliestText(vs, i) && vs[i].summary == row.summary && vs[i].startedAt == row.summaryAt;
      if v.summary != "" && TextLess(v.startedAt, row.summaryAt) {
        ReplacedText(vs, v, i);
        assert all[|vs|] == v;
      } else {
        KeptText(vs, v, i);
        assert all[i] == vs[i];
      }
    }
  }

  lemma SummarisesStep(row: Summary, vs: seq<Version>, v: Version)
    requires Summarises(row, vs)
    ensures Summarises(Merged(row, v), vs + [v])
  {
    FirstStep(row.firstAt, vs, v);
    LastStep(row.lastAt, vs, v);
    ChosenStep(row, vs, v);
  }

  lemma SummarisesOne(v: Version)
    ensures Summarises(Inserted(v), [v])
  {
    var vs := [v];
    TextLessIrreflexive(v.startedAt);
    TextLessIrreflexive(v.completedAt);
    assert vs[0].startedAt == v.startedAt && vs[0].completedAt == v.completedAt;
    if v.summary != "" {
      TakenText([], v);
      assert [] + [v] == vs;
      assert EarliestText(vs, 0);
    }
  }

  lemma OfSessionStep(log: seq<Version>, v: Version, session: string)
    ensures OfSession(log + [v], session) == OfSession(log, session) + if v.session == session then [v] else []
  {
  }

  lemma RowStep(row: Option<Summary>, vs: seq<Version>, v: Version)
    requires RowMatches(row, vs)
    ensures RowMatches(Some(if row.Some? then Merged(row.value, v) else Inserted(v)), vs + [v])
  {
    if row.Some? {
      SummarisesStep(row.value, vs, v);
    } else {
      SummarisesOne(v);
      assert vs + [v] == [v];
    }
  }

  lemma RowsStep(summaries: map<string, Summary>, log: seq<Version>, v: Version)
    requires RowsMatch(summaries, log)
    ensures RowsMatch(Upserted(summaries, v), log + [v])
  {
    var next := Upserted(summaries, v);
    forall s ensures RowMatches(RowOf(next, s), OfSession(log + [v], s)) {
      OfSessionStep(log, v, s);
      assert RowMatches(RowOf(summaries, s), OfSession(log, s));
      if s == v.session {
        RowStep(RowOf(summaries, s), OfSession(log, s), v);
        assert RowOf(next, s) == Some(if s in summaries then Merged(summaries[s], v) else Inserted(v));
      } else {
        assert OfSession(log + [v], s) == OfSession(log, s);
        assert RowOf(next, s) == RowOf(summaries, s);
      }
    }
  }

  lemma MarkersStep(indexed: map<string, string>, log: seq<Version>, v: Version)
    requires MarkersMatch(indexed, log) && v.request !in indexed
    ensures MarkersMatch(indexed[v.request := v.session], log + [v])
  {
    var all := log + [v];
    var next := indexed[v.request := v.session];
    forall r | r in next ensures exists i | 0 <= i < |all| :: all[i].request == r {
      if r == v.request {
        assert all[|log|].request == r;
      } else {
        var i :| 0 <= i < |log| && log[i].request == r;
        assert all[i].request == r;
      }
    }
  }

  /** One offered version, new or seen before, keeps the index in step with its log. */
  lemma OfferPreserves(ix: Index, log: seq<Version>, v: Version)
    requires Agrees(ix, log)
    ensures Agrees(IndexRecord(ix, v), Logged(ix, log, v))
  {
    if Accepts(ix, v) {
      MarkersStep(ix.indexed, log, v);
      RowsStep(ix.summaries, log, v);
    }
  }

  // ----- Stats: the sum over the small table is the number of indexed requests -----

  ghost function Total(summaries: map<string, Summary>): nat
    decreases |summaries|
  {
    if summaries == map[] then 0
    else var s :| s in summaries; summaries[s].requests + Total(summaries - {s})
  }

  lemma {:induction false} TotalWithout(summaries: map<string, Summary>, s: string)
    requires s in summaries
    ensures Total(summaries) == summaries[s].requests + Total(summaries - {s})
    decreases |summaries|
  {
    var t :| t in summaries && Total(summaries) == summaries[t].requests + Total(summaries - {t});
    if t != s {
      TotalWithout(summaries - {t}, s);
      TotalWithout(summaries - {s}, t);
      assert (summaries - {t}) - {s} == (summaries - {s}) - {t};
    }
  }

  lemma TotalStep(summaries: map<string, Summary>, v: Version)
    ensures Total(Upserted(summaries, v)) == Total(summaries) + 1
  {
    var next := Upserted(summaries, v);
    TotalWithout(next, v.session);
    assert next - {v.session} == summaries - {v.session};
    if v.session in summaries {
      TotalWithout(summaries, v.session);
    } else {
      assert summaries - {v.session} == summaries;
    }
  }

  lemma CountStep(ix: Index, v: Version)
    requires Total(ix.summaries) == |ix.indexed|
    ensures Total(IndexRecord(ix, v).summaries) == |IndexRecord(ix, v).indexed|
  {
    if Accepts(ix, v) {
      TotalStep(ix.summaries, v);
      assert ix.indexed[v.request := v.session].Keys == ix.indexed.Keys + {v.request};
      assert |ix.indexed.Keys| == |ix.indexed|;
    }
  }

  // ----- Runs -----

  /** Archived records by request id, the index, and the accepted versions in order. */
  datatype State = State(records: map<string, Version>, index: Index, log: seq<Version>)

  /** A PutBatch transaction, or one backfill transaction; a backfill stopped part-way is a
      run with fewer of them. */
  datatype Step = Put(batch: seq<Version>) | BackfillBatch(ids: seq<string>)

  /** ON CONFLICT(request_id) DO UPDATE: session and start stay as first stored. */
  function StoreRecord(records: map<string, Version>, v: Version): map<string, Version> {
    if v.request !in records then records[v.request := v]
    else
      var was := records[v.request];
      var summary := if was.summary == "" then v.summary else was.summary;
      records[v.request := was.(completedAt := v.completedAt, summary := summary)]
  }

  function Offer(state: State, v: Version): State {
    State(state.records, IndexRecord(state.index, v), Logged(state.index, state.log, v))
  }

  function PutAll(state: State, batch: seq<Version>): State {
    if batch == [] then state
    else
      var before := PutAll(state, batch[..|batch| - 1]);
      var v := batch[|batch| - 1];
      Offer(State(StoreRecord(before.records, v), before.index, before.log), v)
  }

  /** The stored version of each listed request; a request without a record fails the batch. */
  function BackfillAll(state: State, ids: seq<string>): Option<State> {
    if ids == [] then Some(state)
    else
      var before := BackfillAll(state, ids[..|ids| - 1]);
      var id := ids[|ids| - 1];
      if before.None? || id !in before.value.records then None
      else Some(Offer(before.value, before.value.records[id]))
  }

  function Next(state: State, step: Step): State {
    match step
    case Put(batch) => PutAll(state, batch)
    case BackfillBatch(ids) =>
      var r := BackfillAll(state, ids);
      if r.Some? then r.value else state
  }

  ghost predicate WellKeyed(records: map<string, Version>) {
    forall r | r in records :: records[r].request == r
  }

  ghost predicate KeysAgree(records: map<string, Version>, indexed: map<string, string>) {
    WellKeyed(records) && forall r | r in indexed :: r in records
  }

  ghost predicate IndexInv(ix: Index, log: seq<Version>) {
    Agrees(ix, log) && Total(ix.summaries) == |ix.indexed|
  }

  ghost predicate Inv(state: State) {
    IndexInv(state.index, state.log) && KeysAgree(state.records, state.index.indexed)
  }

  /** An archive from before the index: any records, none of them indexed. */
  function Opened(records: map<string, Version>): State {
    State(records, Empty, [])
  }

  lemma OpenedInv(records: map<string, Version>)
    requires WellKeyed(records)
    ensures Inv(Opened(records))
  {
  }

  lemma IndexInvStep(ix: Index, log: seq<Version>, v: Version)
    requires IndexInv(ix, log)
    ensures IndexInv(IndexRecord(ix, v), Logged(ix, log, v))
  {
    OfferPreserves(ix, log, v);
    CountStep(ix, v);
  }

  lemma OfferInv(state: State, v: Version)
    requires Inv(state) && v.request in state.records
    ensures Inv(Offer(state, v))
  {
    IndexInvStep(state.index, state.log, v);
  }

  lemma StoreKeys(records: map<string, Version>, indexed: map<string, string>, v: Version)
    requires KeysAgree(records, indexed)
    ensures KeysAgree(StoreRecord(records, v), indexed) && v.request in StoreRecord(records, v)
  {
  }

  lemma {:induction false} PutPreserves(state: State, batch: seq<Version>)
    requires Inv(state)
    ensures Inv(PutAll(state, batch))
    decreases |batch|
  {
    if batch != [] {
      PutPreserves(state, batch[..|batch| - 1]);
      var before := PutAll(state, batch[..|batch| - 1]);
      var v := batch[|batch| - 1];
      StoreKeys(before.records, before.index.indexed, v);
      OfferInv(State(StoreRecord(before.records, v), before.index, before.log), v);
    }
  }

  lemma {:induction false} BackfillPreserves(state: State, ids: seq<string>)
    requires Inv(state)
    ensures BackfillAll(state, ids).Some? ==> Inv(BackfillAll(state, ids).value)
    decreases |ids|
  {
    if ids != [] {
      BackfillPreserves(state, ids[..|ids| - 1]);
      var before := BackfillAll(state, ids[..|ids| - 1]);
      var id := ids[|ids| - 1];
      if before.Some? && id in before.value.records {
        OfferInv(before.value, before.value.records[id]);
      }
    }
  }

  lemma StepPreserves(state: State, step: Step)
    requires Inv(state)
    ensures Inv(Next(state, step))
  {
    match step
    case Put(batch) => PutPreserves(state, batch);
    case BackfillBatch(ids) => BackfillPreserves(state, ids);
  }

  function Run(state: State, steps: seq<Step>): State {
    if steps == [] then state else Next(Run(state, steps[..|steps| - 1]), steps[|steps| - 1])
  }

  lemma {:induction false} RunInvariant(state: State, steps: seq<Step>)
    requires Inv(state)
    ensures Inv(Run(state, steps))
    decreases |steps|
  {
    if steps != [] {
      RunInvariant(state, steps[..|steps| - 1]);
      StepPreserves(Run(state, steps[..|steps| - 1]), steps[|steps| - 1]);
    }
  }

  /** From an archive with any unindexed records, after any ingests, repeated ingests and
      interrupted backfills: every row counts its indexed requests, bounds their times, names
      the earliest non-empty text, and the counts add up to the total that Stats reports. */
  lemma EveryHistory(records: map<string, Version>, steps: seq<Step>)
    requires WellKeyed(records)
    ensures var end := Run(Opened(records), steps);
            && Total(end.index.summaries) == |end.index.indexed| == |end.log|
            && MarkersMatch(end.index.indexed, end.log)
            && (forall s :: s in end.index.summaries <==> exists v | v in end.log :: v.session == s)
            && (forall s | s in end.index.summaries :: Summarises(end.index.summaries[s], OfSession(end.log, s)))
  {
    OpenedInv(records);
    RunInvariant(Opened(records), steps);
    var end := Run(Opened(records), steps);
    MarkersCount(end.index.indexed, end.log);
    forall s
      ensures s in end.index.summaries <==> exists v | v in end.log :: v.session == s
      ensures s in end.index.summaries ==> Summarises(end.index.summaries[s], OfSession(end.log, s))
    {
      OfSessionEmpty(end.log, s);
      assert RowMatches(RowOf(end.index.summaries, s), OfSession(end.log, s));
    }
  }

  /** A backfill of such an archive has work to do: one transaction over a record with both
      ids indexes it as it is stored. */
  lemma BackfillHasWork(records: map<string, Version>, id: string)
    requires WellKeyed(records) && id in records && id != "" && records[id].session != ""
    ensures var end := Run(Opened(records), [BackfillBatch([id])]);
            && id !in Opened(records).index.indexed
            && end.index.indexed == map[id := records[id].session] && end.log == [records[id]]
  {
    var start, step := Opened(records), BackfillBatch([id]);
    var steps, ids := [step], [id];
    assert steps[..|steps| - 1] == [] && ids[..|ids| - 1] == [];
    assert BackfillAll(start, ids) == Some(Offer(start, records[id]));
    assert Run(start, steps) == Next(Run(start, []), step);
  }

  lemma {:induction false} OfSessionMember(log: seq<Version>, s: string, v: Version)
    ensures v in OfSession(log, s) <==> v in log && v.session == s
    decreases |log|
  {
    if log != [] {
      assert log == log[..|log| - 1] + [log[|log| - 1]];
      OfSessionMember(log[..|log| - 1], s, v);
    }
  }

  lemma {:induction false} OfSessionDistinct(log: seq<Version>, s: string)
    requires forall i, j | 0 <= i < j < |log| :: log[i].request != log[j].request
    ensures var vs := OfSession(log, s); forall i, j | 0 <= i < j < |vs| :: vs[i].request != vs[j].request
    decreases |log|
  {
    if log != [] {
      var init, last := log[..|log| - 1], log[|log| - 1];
      OfSessionDistinct(init, s);
      var vs := OfSession(init, s);
      forall i | 0 <= i < |vs| ensures vs[i].request != last.request {
        OfSessionMember(init, s, vs[i]);
        var k :| 0 <= k < |init| && init[k] == vs[i];
        assert log[k] == vs[i];
      }
    }
  }

  lemma {:induction false} OfSessionEmpty(log: seq<Version>, s: string)
    ensures OfSession(log, s) != [] <==> exists v | v in log :: v.session == s
    decreases |log|
  {
    if log != [] {
      var init, last := log[..|log| - 1], log[|log| - 1];
      OfSessionEmpty(init, s);
      assert log == init + [last];
      if v :| v in log && v.session == s { assert v in init || v == last; }
      if OfSession(log, s) != [] && last.session == s { assert last in log; }
    }
  }

  lemma MarkersCount(indexed: map<string, string>, log: seq<Version>)
    requires MarkersMatch(indexed, log)
    ensures |indexed| == |log|
  {
    RequestsCount(log);
    assert indexed.Keys == Requests(log);
    assert |indexed.Keys| == |indexed|;
  }

  ghost function Requests(log: seq<Version>): set<string> {
    set v | v in log :: v.request
  }

  lemma {:induction false} RequestsCount(log: seq<Version>)
    requires forall i, j | 0 <= i < j < |log| :: log[i].request != log[j].request
    ensures |Requests(log)| == |log|
    decreases |log|
  {
    if log != [] {
      var init := log[..|log| - 1];
      RequestsCount(init);
      assert log == init + [log[|log| - 1]];
      assert Requests(log) == Requests(init) + {log[|log| - 1].request};
    }
  }

  /** Only records with both ids are indexed. */
  ghost predicate AllNamed(log: seq<Version>) {
    forall i | 0 <= i < |log| :: log[i].request != "" && log[i].session != ""
  }

  lemma {:induction false} PutNamed(state: State, batch: seq<Version>)
    requires AllNamed(state.log)
    ensures AllNamed(PutAll(state, batch).log)
    decreases |batch|
  {
    if batch != [] { PutNamed(state, batch[..|batch| - 1]); }
  }

  lemma {:induction false} BackfillNamed(state: State, ids: seq<string>)
    requires AllNamed(state.log)
    ensures BackfillAll(state, ids).Some? ==> AllNamed(BackfillAll(state, ids).value.log)
    decreases |ids|
  {
    if ids != [] { BackfillNamed(state, ids[..|ids| - 1]); }
  }

  lemma {:induction false} RunNamed(state: State, steps: seq<Step>)
    requires AllNamed(state.log)
    ensures AllNamed(Run(state, steps).log)
    decreases |steps|
  {
    if steps != [] {
      RunNamed(state, steps[..|steps| - 1]);
      var mid := Run(state, steps[..|steps| - 1]);
      match steps[|steps| - 1]
      case Put(batch) => PutNamed(mid, batch);
      case BackfillBatch(ids) => BackfillNamed(mid, ids);
    }
  }

  // ----- A backfill that is not cut short leaves nothing behind -----

  /** Every record with both ids is indexed or still on the work list. */
  ghost predicate Covered(records: map<string, Version>, indexed: map<string, string>, pending: seq<string>) {
    forall r | r in records && r != "" && records[r].session != "" :: r in indexed || r in pending
  }

  /** The request ids that the transactions of a run take off the work list, in order. */
  function Taken(steps: seq<Step>): seq<string> {
    if steps == [] then []
    else
      Taken(steps[..|steps| - 1]) +
      match steps[|steps| - 1]
      case Put(_) => []
      case BackfillBatch(ids) => ids
  }

  lemma OfferIndexes(ix: Index, v: Version)
    ensures forall r | r in ix.indexed :: r in IndexRecord(ix, v).indexed
    ensures v.request != "" && v.session != "" ==> v.request in IndexRecord(ix, v).indexed
  {
  }

  lemma {:induction false} PutCovers(state: State, batch: seq<Version>, pending: seq<string>)
    requires Inv(state) && Covered(state.records, state.index.indexed, pending)
    ensures Covered(PutAll(state, batch).records, PutAll(state, batch).index.indexed, pending)
    ensures state.records.Keys <= PutAll(state, batch).records.Keys
    decreases |batch|
  {
    if batch != [] {
      PutCovers(state, batch[..|batch| - 1], pending);
      PutPreserves(state, batch[..|batch| - 1]);
      var before := PutAll(state, batch[..|batch| - 1]);
      var v := batch[|batch| - 1];
      OfferIndexes(before.index, v);
    }
  }

  lemma {:induction false} BackfillCovers(state: State, ids: seq<string>, pending: seq<string>)
    requires WellKeyed(state.records) && Covered(state.records, state.index.indexed, ids + pending)
    requires forall id | id in ids :: id in state.records
    ensures var r := BackfillAll(state, ids);
            r.Some? && r.value.records == state.records && Covered(r.value.records, r.value.index.indexed, pending)
    decreases |ids|
  {
    if ids == [] {
      assert ids + pending == pending;
    } else {
      var init, id := ids[..|ids| - 1], ids[|ids| - 1];
      assert init + ([id] + pending) == ids + pending;
      BackfillCovers(state, init, [id] + pending);
      var before := BackfillAll(state, init).value;
      assert state.records[id].request == id;
      OfferIndexes(before.index, before.records[id]);
    }
  }

  lemma {:induction false} RunCovers(state: State, steps: seq<Step>, pending: seq<string>)
    requires Inv(state) && Covered(state.records, state.index.indexed, Taken(steps) + pending)
    requires forall id | id in Taken(steps) :: id in state.records
    ensures var end := Run(state, steps);
            Covered(end.records, end.index.indexed, pending) && state.records.Keys <= end.records.Keys
    decreases |steps|
  {
    if steps == [] {
      assert Taken(steps) + pending == pending;
    } else {
      var init, step := steps[..|steps| - 1], steps[|steps| - 1];
      var mid := Run(state, init);
      RunInvariant(state, init);
      match step
      case Put(batch) =>
        assert Taken(steps) == Taken(init);
        RunCovers(state, init, pending);
        PutCovers(mid, batch, pending);
      case BackfillBatch(ids) =>
        assert Taken(steps) + pending == Taken(init) + (ids + pending);
        RunCovers(state, init, ids + pending);
        BackfillCovers(mid, ids, pending);
    }
  }

  ghost predicate AllIndexed(records: map<string, Version>, indexed: map<string, string>) {
    forall r | r in records && r != "" && records[r].session != "" :: r in indexed
  }

  /** A backfill whose transactions together take every request that was missing when it read
      its work list, with any ingests in between, ends with every record indexed. */
  lemma CompletedBackfill(records: map<string, Version>, steps: seq<Step>, missing: seq<string>, later: seq<Step>)
    requires WellKeyed(records)
    requires var begin := Run(Opened(records), steps);
             forall r :: r in missing <==> r in begin.records && r !in begin.index.indexed
    requires Taken(later) == missing
    ensures var end := Run(Run(Opened(records), steps), later); AllIndexed(end.records, end.index.indexed)
  {
    OpenedInv(records);
    RunInvariant(Opened(records), steps);
    assert missing + [] == missing;
    RunCovers(Run(Opened(records), steps), later, []);
  }

  // ----- What a repeated ingest may change -----

  /** A stored record keeps its request, session and start, and its summary once it has one. */
  ghost predicate KeepsIdentity(before: map<string, Version>, after: map<string, Version>) {
    forall r | r in before ::
      && r in after && after[r].request == before[r].request && after[r].session == before[r].session
      && after[r].startedAt == before[r].startedAt
      && (before[r].summary != "" ==> after[r].summary == before[r].summary)
  }

  lemma StoreKeepsIdentity(records: map<string, Version>, v: Version)
    ensures KeepsIdentity(records, StoreRecord(records, v))
    ensures v.request in StoreRecord(records, v) && StoreRecord(records, v)[v.request].completedAt == v.completedAt
    ensures v.request !in records ==> StoreRecord(records, v)[v.request] == v
    ensures forall r | r in StoreRecord(records, v) && r != v.request ::
              r in records && StoreRecord(records, v)[r] == records[r]
  {
  }

  lemma {:induction false} PutKeepsIdentity(state: State, batch: seq<Version>)
    ensures KeepsIdentity(state.records, PutAll(state, batch).records)
    decreases |batch|
  {
    if batch != [] {
      PutKeepsIdentity(state, batch[..|batch| - 1]);
      StoreKeepsIdentity(PutAll(state, batch[..|batch| - 1]).records, batch[|batch| - 1]);
    }
  }

  lemma {:induction false} BackfillKeepsRecords(state: State, ids: seq<string>)
    ensures BackfillAll(state, ids).Some? ==> BackfillAll(state, ids).value.records == state.records
    decreases |ids|
  {
    if ids != [] { BackfillKeepsRecords(state, ids[..|ids| - 1]); }
  }

  /** No run of ingests and backfills moves a record to another session, changes its start, or
      replaces a summary it already has. */
  lemma {:induction false} RunKeepsIdentity(state: State, steps: seq<Step>)
    ensures KeepsIdentity(state.records, Run(state, steps).records)
    decreases |steps|
  {
    if steps != [] {
      RunKeepsIdentity(state, steps[..|steps| - 1]);
      var mid := Run(state, steps[..|steps| - 1]);
      match steps[|steps| - 1]
      case Put(batch) => PutKeepsIdentity(mid, batch);
      case BackfillBatch(ids) => BackfillKeepsRecords(mid, ids);
    }
  }

  // ----- The tables, updated in place -----

  function Stored(records: map<string, Version>, ids: seq<string>): (vs: seq<Version>)
    requires forall id | id in ids :: id in records
    ensures |vs| == |ids|
  {
    if ids == [] then [] else Stored(records, ids[..|ids| - 1]) + [records[ids[|ids| - 1]]]
  }

  lemma {:induction false} StoredSplit(records: map<string, Version>, a: seq<string>, b: seq<string>)
    requires forall id | id in a + b :: id in records
    ensures forall id | id in a :: id in records
    ensures forall id | id in b :: id in records
    ensures Stored(records, a + b) == Stored(records, a) + Stored(records, b)
    decreases |b|
  {
    assert forall id | id in a :: id in a + b;
    assert forall id | id in b :: id in a + b;
    if b == [] {
      assert a + b == a;
    } else {
      assert (a + b)[..|a + b| - 1] == a + b[..|b| - 1];
      StoredSplit(records, a, b[..|b| - 1]);
    }
  }

  lemma {:induction false} IndexAllSplit(ix: Index, a: seq<Version>, b: seq<Version>)
    ensures IndexAll(ix, a + b) == IndexAll(IndexAll(ix, a), b)
    decreases |b|
  {
    if b == [] {
      assert a + b == a;
    } else {
      assert (a + b)[..|a + b| - 1] == a + b[..|b| - 1];
      IndexAllSplit(ix, a, b[..|b| - 1]);
    }
  }

  lemma StoredPrefixes(ix: Index, records: map<string, Version>, ids: seq<string>, done: nat, end: nat)
    requires done <= end <= |ids|
    requires forall id | id in ids[..done] :: id in records
    requires forall id | id in ids[done..end] :: id in records
    ensures forall id | id in ids[..end] :: id in records
    ensures IndexAll(IndexAll(ix, Stored(records, ids[..done])), Stored(records, ids[done..end])) ==
            IndexAll(ix, Stored(records, ids[..end]))
  {
    assert ids[..end] == ids[..done] + ids[done..end];
    StoredSplit(records, ids[..done], ids[done..end]);
    IndexAllSplit(ix, Stored(records, ids[..done]), Stored(records, ids[done..end]));
  }

  /** The transactions of the table object are those of the runs above. */
  lemma {:induction false} BackfillIndexes(state: State, ids: seq<string>)
    requires forall id | id in ids :: id in state.records
    ensures BackfillAll(state, ids).Some? && BackfillAll(state, ids).value.records == state.records
    ensures BackfillAll(state, ids).value.index == IndexAll(state.index, Stored(state.records, ids))
    decreases |ids|
  {
    if ids != [] {
      var init := ids[..|ids| - 1];
      BackfillIndexes(state, init);
      var vs := Stored(state.records, ids);
      assert vs[..|vs| - 1] == Stored(state.records, init);
    }
  }

  /** One pass over the missing requests indexes every record with both ids. */
  lemma FullPass(ix: Index, records: map<string, Version>, ids: seq<string>)
    requires WellKeyed(records) && forall id | id in ids :: id in records
    requires forall r | r in records && r !in ix.indexed :: r in ids
    ensures AllIndexed(records, IndexAll(ix, Stored(records, ids)).indexed)
  {
    var state := State(records, ix, []);
    assert ids + [] == ids;
    BackfillIndexes(state, ids);
    BackfillCovers(state, ids, []);
  }

  class SessionTables {
    var indexed: map<string, string>
    var summaries: map<string, Summary>

    function Contents(): Index
      reads this
    {
      Index(indexed, summaries)
    }

    constructor ()
      ensures Contents() == Empty
    {
      indexed, summaries := map[], map[];
    }

    /** indexSessionRecord: the marker insert decides whether the row is touched at all. */
    method IndexSessionRecord(v: Version)
      modifies this
      ensures Contents() == IndexRecord(old(Contents()), v)
    {
      if v.request == "" || v.session == "" {
        return;
      }
      if v.request in indexed {
        return;
      }
      indexed := indexed[v.request := v.session];
      if v.session !in summaries {
        summaries := summaries[v.session := Summary(1, v.startedAt, v.completedAt, v.summary, v.startedAt)];
      } else {
        summaries := summaries[v.session := Merged(summaries[v.session], v)];
      }
    }

    /** One backfill transaction: all of the batch, or nothing when a record is gone. */
    method BackfillTransaction(records: map<string, Version>, ids: seq<string>) returns (ok: bool)
      modifies this
      ensures ok <==> forall id | id in ids :: id in records
      ensures ok ==> Contents() == IndexAll(old(Contents()), Stored(records, ids))
      ensures !ok ==> Contents() == old(Contents())
    {
      var wasIndexed, wasSummaries := indexed, summaries;
      for i := 0 to |ids|
        invariant forall id | id in ids[..i] :: id in records
        invariant Contents() == IndexAll(old(Contents()), Stored(records, ids[..i]))
      {
        assert ids[i] in ids;
        if ids[i] !in records {
          indexed, summaries := wasIndexed, wasSummaries;
          return false;
        }
        IndexSessionRecord(records[ids[i]]);
        assert ids[..i + 1][..i] == ids[..i];
        ghost var vs := Stored(records, ids[..i + 1]);
        assert vs[..|vs| - 1] == Stored(records, ids[..i]);
      }
      assert ids[..|ids|] == ids;
      ok := true;
    }

    /** BackfillSessionIndex over the work list `ids`, cancelled before transaction number
        `budget`. Whatever was committed is a prefix of the work list; a run over the missing
        requests that was not cut short leaves every record indexed. */
    method BackfillSessionIndex(records: map<string, Version>, ids: seq<string>, budget: nat) returns (done: nat)
      modifies this
      ensures done <= |ids| && (forall id | id in ids[..done] :: id in records)
      ensures Contents() == IndexAll(old(Contents()), Stored(records, ids[..done]))
      ensures done == |ids| || done == 8 * budget || exists id :: id in ids && id !in records
      ensures done == |ids| && WellKeyed(records) && (forall r | r in records && r !in old(indexed) :: r in ids) ==>
                AllIndexed(records, indexed)
    {
      done := 0;
      var rounds := 0;
      while done < |ids|
        invariant done <= |ids| && forall id | id in ids[..done] :: id in records
        invariant Contents() == IndexAll(old(Contents()), Stored(records, ids[..done]))
        invariant done < |ids| ==> done == 8 * rounds
        decreases |ids| - done
      {
        if rounds == budget {
          return;
        }
        var end := if done + 8 > |ids| then |ids| else done + 8;
        var ok := BackfillTransaction(records, ids[done..end]);
        if !ok {
          return;
        }
        StoredPrefixes(old(Contents()), records, ids, done, end);
        done, rounds := end, rounds + 1;
      }
      assert ids[..done] == ids;
      if WellKeyed(records) && forall r | r in records && r !in old(indexed) :: r in ids {
        FullPass(old(Contents()), records, ids);
      }
    }
  }

  // ----- first_at compares texts, not instants -----

  ghost predicate EarliestInstant(time: string -> int, at: string, vs: seq<Version>) {
    forall i | 0 <= i < |vs| :: time(at) <= time(vs[i].startedAt)
  }

  ghost predicate StartsAmong(texts: set<string>, vs: seq<Version>) {
    forall i | 0 <= i < |vs| :: vs[i].startedAt in texts
  }

  /** first_at is the earliest instant in every session whose start texts come from `texts`
      exactly when the order of those texts never contradicts the order of their instants. */
  lemma FirstAtIsEarliestInstant(time: string -> int, texts: set<string>)
    ensures (forall at: string, vs: seq<Version> | FirstOf(at, vs) && StartsAmong(texts, vs) ::
        EarliestInstant(time, at, vs))
       <==> (forall a, b | a in texts && b in texts && TextLess(a, b) :: time(a) <= time(b))
  {
    if forall a, b | a in texts && b in texts && TextLess(a, b) :: time(a) <= time(b) {
      forall at: string, vs: seq<Version> | FirstOf(at, vs) && StartsAmong(texts, vs)
        ensures EarliestInstant(time, at, vs)
      {
        forall i | 0 <= i < |vs| ensures time(at) <= time(vs[i].startedAt) {
          if at != vs[i].startedAt { TextLessConnected(at, vs[i].startedAt); }
        }
      }
    }
    if forall at: string, vs: seq<Version> | FirstOf(at, vs) && StartsAmong(texts, vs) ::
        EarliestInstant(time, at, vs) {
      forall a, b | a in texts && b in texts && TextLess(a, b) ensures time(a) <= time(b) {
        var vs := [Version("", "", a, "", ""), Version("", "", b, "", "")];
        EarlierOfTwo(a, b, vs);
        assert EarliestInstant(time, a, vs);
        assert vs[1].startedAt == b;
      }
    }
  }

  lemma EarlierOfTwo(a: string, b: string, vs: seq<Version>)
    requires |vs| == 2 && vs[0].startedAt == a && vs[1].startedAt == b && TextLess(a, b)
    ensures FirstOf(a, vs)
  {
    TextLessIrreflexive(a);
    if TextLess(b, a) { TextLessTransitive(a, b, a); }
  }

  /** RFC 3339 with a fraction drops trailing zeros, so a later instant can be the smaller
      text: of two requests started at 5 s and 5.1 s the index reports the second as the first. */
  lemma FractionSortsFirst(time: string -> int, vs: seq<Version>)
    requires |vs| == 2 && vs[0].startedAt == "2026-01-02T03:04:05.1Z" && vs[1].startedAt == "2026-01-02T03:04:05Z"
    requires time("2026-01-02T03:04:05Z") < time("2026-01-02T03:04:05.1Z")
    ensures FirstOf(vs[0].startedAt, vs) && !EarliestInstant(time, vs[0].startedAt, vs)
  {
    var head := "2026-01-02T03:04:05";
    SharedPrefix(head, ".1Z", "Z");
    assert head + ".1Z" == "2026-01-02T03:04:05.1Z" && head + "Z" == "2026-01-02T03:04:05Z";
    EarlierOfTwo(vs[0].startedAt, vs[1].startedAt, vs);
  }

  lemma {:induction false} SharedPrefix(head: string, a: string, b: string)
    ensures TextLess(head + a, head + b) <==> TextLess(a, b)
    decreases |head|
  {
    if head == [] {
      assert head + a == a && head + b == b;
    } else {
      assert (head + a)[1..] == head[1..] + a && (head + b)[1..] == head[1..] + b;
      SharedPrefix(head[1..], a, b);
    }
  }
}
