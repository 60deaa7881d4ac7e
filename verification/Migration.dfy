/** The batched attribution migration (scripts/migrate_attribution.ts): rename loops that run
until no candidate row is left, whatever rows each LIMIT query happens to return. */
module Migration {
  import opened Types
  import opened Chains
  import Ordering

  /** A query with LIMIT: in round `k` it returns some of the matching rows, each once, and at
      least one of them when there is one. Every batch size of one or more is an instance. */
  type Query<!T> = (nat, set<T>) -> seq<T>

  ghost predicate Answers<T(!new)>(query: Query<T>) {
    forall k: nat, s: set<T> ::
      && (s != {} ==> query(k, s) != [])
      && (forall i | 0 <= i < |query(k, s)| :: query(k, s)[i] in s)
      && (forall i, j | 0 <= i < j < |query(k, s)| :: query(k, s)[i] != query(k, s)[j])
  }

  // ----- Rows with three renamed columns -----

  /** key_id, requested_model and model; any of them may be NULL. */
  datatype Row = Row(key: Option<string>, requested: Option<string>, model: Option<string>)

  predicate IsSource(m: Mapping, column: Option<string>) {
    column.Some? && column.value in m
  }

  /** candidateWhere. */
  predicate Candidate(keys: Mapping, models: Mapping, row: Row) {
    IsSource(keys, row.key) || IsSource(models, row.requested) || IsSource(models, row.model)
  }

  /** String(column ?? ""). */
  function Text(column: Option<string>): string {
    if column.Some? then column.value else ""
  }

  /** One UPDATE; it also turns NULL into the empty text. */
  function StepRow(keys: Mapping, models: Mapping, row: Row): Row {
    Row(Some(Step(keys, Text(row.key))), Some(Step(models, Text(row.requested))), Some(Step(models, Text(row.model))))
  }

  ghost predicate Settles(keys: Mapping, models: Mapping, row: Row) {
    Terminates(keys, Text(row.key)) && Terminates(models, Text(row.requested)) && Terminates(models, Text(row.model))
  }

  /** Every column at the end of its chain; a row that never matches is left alone. */
  ghost function Migrated(keys: Mapping, models: Mapping, row: Row): Row
    requires Settles(keys, models, row)
  {
    if !Candidate(keys, models, row) then row
    else Row(Some(End(keys, Text(row.key))), Some(End(models, Text(row.requested))), Some(End(models, Text(row.model))))
  }

  ghost function Weight(keys: Mapping, models: Mapping, row: Row): nat
    requires Settles(keys, models, row)
  {
    Height(keys, Text(row.key)) + Height(models, Text(row.requested)) + Height(models, Text(row.model))
  }

  /** What a selected row's column becomes: the end of its value's chain, NULL the empty text. */
  ghost predicate Arrived(m: Mapping, was: Option<string>, now: Option<string>) {
    match was
    case Some(v) => now.Some? && Leads(m, v, now.value)
    case None => now == Some("")
  }

  ghost predicate HoldsSource(m: Mapping, column: Option<string>) {
    column.Some? && column.value in m
  }

  /** A row with a source in any of its columns has all three at their ends; any other row is as
      it was. */
  ghost predicate RowArrived(keys: Mapping, models: Mapping, was: Row, now: Row) {
    if HoldsSource(keys, was.key) || HoldsSource(models, was.requested) || HoldsSource(models, was.model)
    then Arrived(keys, was.key, now.key) && Arrived(models, was.requested, now.requested)
         && Arrived(models, was.model, now.model)
    else now == was
  }

  lemma ColumnArrives(m: Mapping, column: Option<string>)
    requires "" !in m && Terminates(m, Text(column))
    ensures Arrived(m, column, Some(End(m, Text(column))))
  {
    EndLeads(m, Text(column));
    StepDown(m, Text(column));
  }

  lemma MigratedArrives(keys: Mapping, models: Mapping, row: Row)
    requires "" !in keys && "" !in models && Settles(keys, models, row)
    ensures RowArrived(keys, models, row, Migrated(keys, models, row))
  {
    ColumnArrives(keys, row.key);
    ColumnArrives(models, row.requested);
    ColumnArrives(models, row.model);
  }

  lemma StepSettles(keys: Mapping, models: Mapping, row: Row)
    requires Settles(keys, models, row)
    ensures Settles(keys, models, StepRow(keys, models, row))
    ensures Candidate(keys, models, row) ==>
              Weight(keys, models, StepRow(keys, models, row)) < Weight(keys, models, row)
  {
    StepDown(keys, Text(row.key));
    StepDown(models, Text(row.requested));
    StepDown(models, Text(row.model));
  }

  /** Renaming a candidate once does not change where it ends up. */
  lemma StepMigrates(keys: Mapping, models: Mapping, row: Row)
    requires Settles(keys, models, row) && Candidate(keys, models, row)
    ensures Settles(keys, models, StepRow(keys, models, row))
    ensures Migrated(keys, models, StepRow(keys, models, row)) == Migrated(keys, models, row)
  {
    var next := StepRow(keys, models, row);
    StepSettles(keys, models, row);
    ColumnEnd(keys, Text(row.key));
    ColumnEnd(models, Text(row.requested));
    ColumnEnd(models, Text(row.model));
  }

  lemma ColumnEnd(m: Mapping, v: string)
    requires Terminates(m, v)
    ensures Terminates(m, Step(m, v)) && End(m, Step(m, v)) == End(m, v)
    ensures Step(m, v) !in m ==> End(m, v) == Step(m, v)
  {
    StepDown(m, v);
    StepDown(m, Step(m, v));
  }

  ghost predicate AllSettle(keys: Mapping, models: Mapping, rows: seq<Row>) {
    forall i | 0 <= i < |rows| :: Settles(keys, models, rows[i])
  }

  /** The measure of the loop: the renames still ahead, summed over the table. */
  ghost function Remaining(keys: Mapping, models: Mapping, rows: seq<Row>): nat
    requires AllSettle(keys, models, rows)
  {
    if rows == [] then 0
    else Remaining(keys, models, rows[..|rows| - 1]) + Weight(keys, models, rows[|rows| - 1])
  }

  /** `next` is `rows` with the rows at `picked` renamed once. */
  ghost predicate Renamed(keys: Mapping, models: Mapping, rows: seq<Row>, picked: seq<nat>, next: seq<Row>) {
    && |next| == |rows|
    && forall i: nat | i < |rows| :: next[i] == if i in picked then StepRow(keys, models, rows[i]) else rows[i]
  }

  ghost predicate AllCandidates(keys: Mapping, models: Mapping, rows: seq<Row>, picked: seq<nat>) {
    forall i | i in picked :: i < |rows| && Candidate(keys, models, rows[i])
  }

  lemma RenamedSettles(keys: Mapping, models: Mapping, rows: seq<Row>, picked: seq<nat>, next: seq<Row>)
    requires AllSettle(keys, models, rows) && Renamed(keys, models, rows, picked, next)
    ensures AllSettle(keys, models, next)
  {
    forall i: nat | i < |next| ensures Settles(keys, models, next[i]) {
      StepSettles(keys, models, rows[i]);
    }
  }

  /** At or below, row by row. */
  ghost predicate NotHeavier(keys: Mapping, models: Mapping, rows: seq<Row>, next: seq<Row>)
    requires AllSettle(keys, models, rows) && AllSettle(keys, models, next)
  {
    |next| == |rows| && forall i: nat | i < |rows| :: Weight(keys, models, next[i]) <= Weight(keys, models, rows[i])
  }

  lemma {:induction false} RemainingDrops(keys: Mapping, models: Mapping, rows: seq<Row>, next: seq<Row>, at: nat)
    requires AllSettle(keys, models, rows) && AllSettle(keys, models, next) && NotHeavier(keys, models, rows, next)
    requires at < |rows| ==> Weight(keys, models, next[at]) < Weight(keys, models, rows[at])
    ensures Remaining(keys, models, next) <= Remaining(keys, models, rows)
    ensures at < |rows| ==> Remaining(keys, models, next) < Remaining(keys, models, rows)
    decreases |rows|
  {
    if rows != [] {
      var last := |rows| - 1;
      var a, b := rows[..last], next[..last];
      assert Weight(keys, models, next[last]) <= Weight(keys, models, rows[last]);
      assert forall i: nat | i < last :: a[i] == rows[i] && b[i] == next[i];
      RemainingDrops(keys, models, a, b, at);
    }
  }

  /** A non-empty batch of candidates lowers the measure. */
  lemma BatchDrops(keys: Mapping, models: Mapping, rows: seq<Row>, picked: seq<nat>, next: seq<Row>)
    requires AllSettle(keys, models, rows) && Renamed(keys, models, rows, picked, next)
    requires picked != [] && AllCandidates(keys, models, rows, picked)
    ensures AllSettle(keys, models, next) && Remaining(keys, models, next) < Remaining(keys, models, rows)
  {
    RenamedSettles(keys, models, rows, picked, next);
    forall i: nat | i < |rows| ensures Weight(keys, models, next[i]) <= Weight(keys, models, rows[i]) {
      if i in picked { StepSettles(keys, models, rows[i]); }
    }
    assert picked[0] in picked;
    StepSettles(keys, models, rows[picked[0]]);
    RemainingDrops(keys, models, rows, next, picked[0]);
  }

  /** Every row still ends where it would have ended at the start. */
  ghost predicate SameEnds(keys: Mapping, models: Mapping, first: seq<Row>, rows: seq<Row>)
    requires AllSettle(keys, models, first) && AllSettle(keys, models, rows)
  {
    |rows| == |first| && forall i: nat | i < |rows| ::
        Migrated(keys, models, rows[i]) == Migrated(keys, models, first[i])
  }

  lemma BatchSameEnds(keys: Mapping, models: Mapping, first: seq<Row>, rows: seq<Row>, picked: seq<nat>, next: seq<Row>)
    requires AllSettle(keys, models, first) && AllSettle(keys, models, rows) && AllSettle(keys, models, next)
    requires SameEnds(keys, models, first, rows)
    requires Renamed(keys, models, rows, picked, next) && AllCandidates(keys, models, rows, picked)
    ensures SameEnds(keys, models, first, next)
  {
    forall i: nat | i < |next| ensures Migrated(keys, models, next[i]) == Migrated(keys, models, first[i]) {
      assert Migrated(keys, models, rows[i]) == Migrated(keys, models, first[i]);
      if i in picked { StepMigrates(keys, models, rows[i]); }
    }
  }

  class AttributionRows {
    var rows: seq<Row>

    constructor (table: seq<Row>)
      ensures rows == table
    {
      rows := table;
    }

    /** One transaction: rename the selected rows once. */
    method UpdateBatch(keys: Mapping, models: Mapping, picked: seq<nat>)
      requires forall k | 0 <= k < |picked| :: picked[k] < |rows|
      requires forall k, l | 0 <= k < l < |picked| :: picked[k] != picked[l]
      modifies this
      ensures Renamed(keys, models, old(rows), picked, rows)
    {
      for k := 0 to |picked|
        invariant Renamed(keys, models, old(rows), picked[..k], rows)
      {
        var i := picked[k];
        assert i !in picked[..k];
        var next := rows[i := StepRow(keys, models, rows[i])];
        assert picked[..k + 1] == picked[..k] + [i];
        rows := next;
      }
      assert picked[..|picked|] == picked;
    }

    /** migrateArchiveRowsBatched. Parsed mappings have no empty source, so NULL and the empty
        text are never renamed; the loop is entered only on tables whose chains all end. */
    method MigrateRowsBatched(keys: Mapping, models: Mapping, query: Query<nat>)
      requires "" !in keys && "" !in models && Answers(query)
      requires AllSettle(keys, models, rows)
      modifies this
      ensures |rows| == |old(rows)|
      ensures forall i: nat | i < |rows| :: rows[i] == Migrated(keys, models, old(rows)[i])
      ensures forall i: nat | i < |rows| :: RowArrived(keys, models, old(rows)[i], rows[i])
    {
      var round := 0;
      while true
        invariant AllSettle(keys, models, rows) && SameEnds(keys, models, old(rows), rows)
        decreases Remaining(keys, models, rows)
      {
        var found := set i: nat | i < |rows| && Candidate(keys, models, rows[i]);
        if found == {} {
          forall i: nat | i < |rows| ensures rows[i] == Migrated(keys, models, old(rows)[i]) {
            assert i !in found;
            assert Migrated(keys, models, rows[i]) == rows[i];
          }
          forall i: nat | i < |rows| ensures RowArrived(keys, models, old(rows)[i], rows[i]) {
            MigratedArrives(keys, models, old(rows)[i]);
          }
          return;
        }
        var picked := query(round, found);
        ghost var was := rows;
        UpdateBatch(keys, models, picked);
        BatchDrops(keys, models, was, picked, rows);
        BatchSameEnds(keys, models, old(rows), was, picked, rows);
        round := round + 1;
      }
    }
  }

  /** On an acyclic pair of maps every table settles. */
  lemma AcyclicSettles(keys: Mapping, models: Mapping, rows: seq<Row>)
    requires Acyclic(keys) && Acyclic(models)
    ensures AllSettle(keys, models, rows)
  {
    AcyclicExactly(keys);
    AcyclicExactly(models);
  }

  /** The requirement is exact: a row on a cycle stays a candidate after any number of batches,
      so the loop would never see an empty query. */
  lemma UnsettledStaysCandidate(keys: Mapping, models: Mapping, row: Row)
    requires "" !in keys && "" !in models && !Settles(keys, models, row)
    ensures Candidate(keys, models, row) && !Settles(keys, models, StepRow(keys, models, row))
  {
    EmptyTerminates(keys);
    EmptyTerminates(models);
    if !Terminates(keys, Text(row.key)) { StuckStays(keys, Text(row.key)); }
    if !Terminates(models, Text(row.requested)) { StuckStays(models, Text(row.requested)); }
    if !Terminates(models, Text(row.model)) { StuckStays(models, Text(row.model)); }
  }

  lemma EmptyTerminates(m: Mapping)
    requires "" !in m
    ensures Terminates(m, "")
  {
    assert EndsIn(m, "", 0);
  }

  lemma {:induction false} UnsettledForEver(keys: Mapping, models: Mapping, tables: seq<seq<Row>>,
                                            batches: seq<seq<nat>>, i: nat)
    requires "" !in keys && "" !in models && |tables| == |batches| + 1
    requires forall k: nat | k < |batches| :: Renamed(keys, models, tables[k], batches[k], tables[k + 1])
    requires i < |tables[0]| && !Settles(keys, models, tables[0][i])
    ensures var last := tables[|tables| - 1];
            i < |last| && Candidate(keys, models, last[i]) && !Settles(keys, models, last[i])
    decreases |batches|
  {
    if batches == [] {
      UnsettledStaysCandidate(keys, models, tables[0][i]);
    } else {
      var k := |batches| - 1;
      UnsettledForEver(keys, models, tables[..k + 1], batches[..k], i);
      assert Renamed(keys, models, tables[k], batches[k], tables[k + 1]);
      UnsettledStaysCandidate(keys, models, tables[k][i]);
      UnsettledStaysCandidate(keys, models, tables[k + 1][i]);
    }
  }

  // ----- One column, one entry after the other -----

  function ApplyColumn(es: seq<Entry>, column: Option<string>): Option<string> {
    if column.None? then None else Some(Apply(es, column.value))
  }

  ghost predicate ColumnRenamed(e: Entry, before: seq<Option<string>>, after: seq<Option<string>>) {
    |after| == |before| && forall i: nat | i < |before| :: after[i] == ApplyColumn([e], before[i])
  }

  lemma ApplyOne(e: Entry, v: string)
    ensures Apply([e], v) == Rename(e, v)
  {
  }

  class ScalarColumn {
    var values: seq<Option<string>>

    constructor (column: seq<Option<string>>)
      ensures values == column
    {
      values := column;
    }

    /** UPDATE ... SET column=target WHERE rowid IN (...). */
    method SetAll(picked: seq<nat>, target: string)
      requires forall k | 0 <= k < |picked| :: picked[k] < |values|
      modifies this
      ensures |values| == |old(values)|
      ensures forall i: nat | i < |values| :: values[i] == if i in picked then Some(target) else old(values)[i]
    {
      for k := 0 to |picked|
        invariant |values| == |old(values)|
        invariant forall i: nat | i < |values| :: values[i] == if i in picked[..k] then Some(target) else old(values)[i]
      {
        assert picked[..k + 1] == picked[..k] + [picked[k]];
        values := values[picked[k] := Some(target)];
      }
      assert picked[..|picked|] == picked;
    }

    function Matching(source: string): set<nat>
      reads this
    {
      set i: nat | i < |values| && values[i] == Some(source)
    }

    /** The inner loop: batches until no value equals the source. */
    method RenameAll(e: Entry, query: Query<nat>)
      requires Answers(query) && e.source != e.target
      modifies this
      ensures ColumnRenamed(e, old(values), values)
    {
      var round := 0;
      while true
        invariant |values| == |old(values)|
        invariant forall i: nat | i < |values| ::
            values[i] == old(values)[i] || (old(values)[i] == Some(e.source) && values[i] == Some(e.target))
        decreases |Matching(e.source)|
      {
        var found := Matching(e.source);
        if found == {} {
          forall i: nat | i < |values| ensures values[i] == ApplyColumn([e], old(values)[i]) {
            assert i !in found;
            if old(values)[i].Some? { ApplyOne(e, old(values)[i].value); }
          }
          return;
        }
        var picked := query(round, found);
        assert picked[0] in found;
        SetAll(picked, e.target);
        SmallerSet(found, Matching(e.source), picked[0]);
        round := round + 1;
      }
    }

    /** updateScalarBatched: each value becomes what one pass over the entries makes of it. */
    method UpdateScalarBatched(es: seq<Entry>, query: Query<nat>)
      requires Answers(query) && forall k | 0 <= k < |es| :: es[k].source != es[k].target
      modifies this
      ensures |values| == |old(values)|
      ensures forall i: nat | i < |values| :: values[i] == ApplyColumn(es, old(values)[i])
    {
      for k := 0 to |es|
        invariant |values| == |old(values)|
        invariant forall i: nat | i < |values| :: values[i] == ApplyColumn(es[..k], old(values)[i])
      {
        ghost var was := values;
        RenameAll(es[k], query);
        assert es[..k + 1] == es[..k] + [es[k]];
        forall i: nat | i < |values| ensures values[i] == ApplyColumn(es[..k + 1], old(values)[i]) {
          assert was[i] == ApplyColumn(es[..k], old(values)[i]);
          if old(values)[i].Some? { ApplySplit(es[..k], [es[k]], old(values)[i].value); }
        }
      }
      assert es[..|es|] == es;
    }
  }

  lemma SmallerSet<T>(large: set<T>, small: set<T>, gone: T)
    requires small <= large && gone in large && gone !in small
    ensures |small| < |large|
  {
    assert small <= large - {gone};
    Ordering.SubsetSize(small, large - {gone});
  }

  lemma {:induction false} ApplySplit(a: seq<Entry>, b: seq<Entry>, v: string)
    ensures Apply(a + b, v) == Apply(b, Apply(a, v))
    decreases |a|
  {
    if a == [] {
      assert a + b == b;
    } else {
      assert (a + b)[1..] == a[1..] + b;
      ApplySplit(a[1..], b, Rename(a[0], v));
    }
  }

  // ----- Facets: a set, so renames can merge rows -----

  datatype Facet = Facet(identity: string, name: string, value: string)

  function RenameFacet(names: set<string>, es: seq<Entry>, f: Facet): Facet {
    if f.name in names then f.(value := Apply(es, f.value)) else f
  }

  function Image(names: set<string>, es: seq<Entry>, facets: set<Facet>): set<Facet> {
    set f | f in facets :: RenameFacet(names, es, f)
  }

  lemma ImageSplit(names: set<string>, a: seq<Entry>, b: seq<Entry>, facets: set<Facet>)
    ensures Image(names, a + b, facets) == Image(names, b, Image(names, a, facets))
  {
    forall f ensures RenameFacet(names, a + b, f) == RenameFacet(names, b, RenameFacet(names, a, f)) {
      ApplySplit(a, b, f.value);
    }
    var whole, twice := Image(names, a + b, facets), Image(names, b, Image(names, a, facets));
    forall g | g in whole ensures g in twice {
      var f :| f in facets && g == RenameFacet(names, a + b, f);
      assert RenameFacet(names, a, f) in Image(names, a, facets);
    }
    forall g | g in twice ensures g in whole {
      var h :| h in Image(names, a, facets) && g == RenameFacet(names, b, h);
      var f :| f in facets && h == RenameFacet(names, a, f);
    }
  }

  lemma RenameIdempotent(names: set<string>, e: Entry, f: Facet)
    requires e.source != e.target
    ensures RenameFacet(names, [e], RenameFacet(names, [e], f)) == RenameFacet(names, [e], f)
    ensures f.name in names && f.value == e.source ==> RenameFacet(names, [e], f) == f.(value := e.target)
    ensures !(f.name in names && f.value == e.source) ==> RenameFacet(names, [e], f) == f
  {
    ApplyOne(e, f.value);
    ApplyOne(e, Rename(e, f.value));
  }

  /** Replacing one facet by its renamed form does not change the image. */
  lemma ReplaceKeepsImage(names: set<string>, e: Entry, facets: set<Facet>, f: Facet)
    requires e.source != e.target && f in facets
    ensures Image(names, [e], facets - {f} + {RenameFacet(names, [e], f)}) == Image(names, [e], facets)
  {
    var g := RenameFacet(names, [e], f);
    RenameIdempotent(names, e, f);
    var next := facets - {f} + {g};
    forall x | x in Image(names, [e], next) ensures x in Image(names, [e], facets) {
      var h :| h in next && x == RenameFacet(names, [e], h);
      if h == g { assert x == RenameFacet(names, [e], f); }
    }
    forall x | x in Image(names, [e], facets) ensures x in Image(names, [e], next) {
      var h :| h in facets && x == RenameFacet(names, [e], h);
      if h == f { assert x == RenameFacet(names, [e], g) && g in next; }
    }
  }

  class FacetTable {
    var facets: set<Facet>

    constructor (table: set<Facet>)
      ensures facets == table
    {
      facets := table;
    }

    function Matching(names: set<string>, source: string): set<Facet>
      reads this
    {
      set f | f in facets && f.name in names && f.value == source
    }

    /** One transaction: delete each selected row and insert its renamed form unless present. */
    method ReplaceBatch(names: set<string>, e: Entry, picked: seq<Facet>)
      requires e.source != e.target
      requires forall k | 0 <= k < |picked| :: picked[k] in Matching(names, e.source)
      requires forall k, l | 0 <= k < l < |picked| :: picked[k] != picked[l]
      modifies this
      ensures Image(names, [e], facets) == Image(names, [e], old(facets))
      ensures Matching(names, e.source) <= old(Matching(names, e.source))
      ensures forall f | f in picked :: f !in facets
    {
      for k := 0 to |picked|
        invariant Image(names, [e], facets) == Image(names, [e], old(facets))
        invariant Matching(names, e.source) <= old(Matching(names, e.source))
        invariant forall l | 0 <= l < k :: picked[l] !in facets
        invariant forall l | k <= l < |picked| :: picked[l] in facets
      {
        var f := picked[k];
        RenameIdempotent(names, e, f);
        ReplaceKeepsImage(names, e, facets, f);
        facets := facets - {f} + {f.(value := e.target)};
      }
    }

    method RenameFacets(names: set<string>, e: Entry, query: Query<Facet>)
      requires Answers(query) && e.source != e.target
      modifies this
      ensures facets == Image(names, [e], old(facets))
    {
      var round := 0;
      while true
        invariant Image(names, [e], facets) == Image(names, [e], old(facets))
        decreases |Matching(names, e.source)|
      {
        var found := Matching(names, e.source);
        if found == {} {
          forall f | f in facets ensures RenameFacet(names, [e], f) == f {
            RenameIdempotent(names, e, f);
            assert f !in found;
          }
          assert Image(names, [e], facets) == facets;
          return;
        }
        var picked := query(round, found);
        assert picked[0] in found;
        ReplaceBatch(names, e, picked);
        assert picked[0] in picked;
        SmallerSet(found, Matching(names, e.source), picked[0]);
        round := round + 1;
      }
    }

    /** replaceFacetsBatched: the table becomes the image of itself under the renames. */
    method ReplaceFacetsBatched(names: set<string>, es: seq<Entry>, query: Query<Facet>)
      requires Answers(query) && forall k | 0 <= k < |es| :: es[k].source != es[k].target
      modifies this
      ensures facets == Image(names, es, old(facets))
    {
      ImageOfNothing(names, facets);
      for k := 0 to |es|
        invariant facets == Image(names, es[..k], old(facets))
      {
        RenameFacets(names, es[k], query);
        assert es[..k + 1] == es[..k] + [es[k]];
        ImageSplit(names, es[..k], [es[k]], old(facets));
      }
      assert es[..|es|] == es;
    }
  }

  lemma ImageOfNothing(names: set<string>, facets: set<Facet>)
    ensures Image(names, [], facets) == facets
  {
  }

  // ----- Row loop and column loop agree on flat maps -----

  /** When no target is also a source, the row loop, the column loop and a single pointwise
      rename give the same text, and the facet table is the pointwise image. */
  lemma FlatMigration(es: seq<Entry>, v: string)
    requires DistinctSources(es) && forall i, j | 0 <= i < |es| && 0 <= j < |es| :: es[i].target != es[j].source
    ensures Terminates(MapOf(es), v)
    ensures Apply(es, v) == End(MapOf(es), v) == Step(MapOf(es), v)
    ensures ApplyColumn(es, Some(v)) == Some(Step(MapOf(es), v))
    ensures forall names: set<string>, f: Facet | f.name in names && f.value == v ::
              RenameFacet(names, es, f) == f.(value := Step(MapOf(es), v))
  {
    FlatMap(es, v);
  }

  /** With b renamed before a, the column loop leaves a at b while the row loop takes it to c. */
  lemma ColumnLoopStopsShort()
    ensures var es := [Entry("b", "c"), Entry("a", "b")];
            && Acyclic(MapOf(es)) && Terminates(MapOf(es), "a")
            && Apply(es, "a") == "b" && End(MapOf(es), "a") == "c"
  {
    var es := [Entry("b", "c"), Entry("a", "b")];
    assert es[1..] == [Entry("a", "b")] && es[1..][1..] == [];
    assert MapOf(es[1..]) == map["a" := "b"];
    var m := MapOf(es);
    assert m == map["a" := "b", "b" := "c"];
    forall v ensures Terminates(m, v) {
      assert EndsIn(m, "c", 0) && EndsIn(m, "b", 1) && EndsIn(m, "a", 2);
      assert v != "a" && v != "b" ==> EndsIn(m, v, 0);
    }
    AcyclicExactly(m);
    AtFuel(m, "a", 2);
    assert EndOf(m, "a", 2) == EndOf(m, "b", 1) == EndOf(m, "c", 0);
  }
}
