/** The one-time merge of records that were grouped under a transient execution session
(internal/archive/session_repair.go). */
module CanonicalRepair {
  import opened Types
  import opened Ordering
  import SI = SessionIndex

  const REPAIR_VERSION := 1
  const SESSION_ID := "session.id"
  const EXECUTION_ID := "execution.session.id"
  const THREAD_ID := "thread.id"
  const HEADER_THREAD := "header.thread-id"
  const HEADER_SESSION := "header.session-id"

  type FacetMap = map<string, seq<string>>

  /** A records row; the three refs point into the blob store. */
  datatype Row = Row(
    id: int, session: string, startedAt: string, completedAt: string, summary: string,
    originalRef: string, upstreamRef: string, responseRef: string, facets: FacetMap)

  datatype Facet = Facet(request: string, name: string, value: string)

  /** A turn_records row. */
  datatype Turn = Turn(id: int, session: string, facets: FacetMap)

  type Rows = map<string, Row>
  type Turns = map<string, Turn>

  datatype Repair = Repair(request: string, oldId: string, newId: string)

  // ----- The canonical id -----

  /** unicode.IsSpace. */
  predicate IsSpace(c: char) {
    c in "\t\n\r " || c as int in {0x0B, 0x0C, 0x85, 0xA0, 0x1680, 0x2028, 0x2029, 0x202F, 0x205F, 0x3000} ||
    0x2000 <= c as int <= 0x200A
  }

  function TrimLeft(s: string): string {
    if s != [] && IsSpace(s[0]) then TrimLeft(s[1..]) else s
  }

  function TrimRight(s: string): string {
    if s != [] && IsSpace(s[|s| - 1]) then TrimRight(s[..|s| - 1]) else s
  }

  /** The text before the first colon, all of it when there is none. */
  function UpToColon(s: string): string {
    if s == [] || s[0] == ':' then [] else [s[0]] + UpToColon(s[1..])
  }

  /** stableWindowID: a leading colon does not cut. */
  function StableWindowId(v: string): string {
    var s := TrimRight(TrimLeft(v));
    if s != [] && s[0] == ':' then s else UpToColon(s)
  }

  function Values(facets: set<Facet>, request: string, name: string): set<string> {
    set f | f in facets && f.request == request && f.name == name && f.value != "" :: f.value
  }

  /** LIMIT 1 walks the primary key (request_id,name,value). */
  function Least(s: set<string>): string
    requires s != {}
  {
    TextTotal(s);
    assert exists m :: m in s && (forall x | x in s && x != m :: TextLess(m, x)) by {
      var m := LeastExists(TextLess, s);
    }
    var m :| m in s && forall x | x in s && x != m :: TextLess(m, x);
    m
  }

  function RawCanonical(facets: set<Facet>, request: string): string {
    if Values(facets, request, THREAD_ID) != {} then Least(Values(facets, request, THREAD_ID))
    else if Values(facets, request, HEADER_THREAD) != {} then Least(Values(facets, request, HEADER_THREAD))
    else if Values(facets, request, HEADER_SESSION) != {} then Least(Values(facets, request, HEADER_SESSION))
    else ""
  }

  function Canonical(facets: set<Facet>, request: string): string {
    StableWindowId(RawCanonical(facets, request))
  }

  /** Where a record belongs: under its canonical id when it has one. */
  function Home(facets: set<Facet>, request: string, session: string): string {
    var canonical := Canonical(facets, request);
    if canonical == "" then session else canonical
  }

  // ----- The canonical id, told from the facet table -----

  ghost predicate AllSpace(s: string) {
    forall i | 0 <= i < |s| :: IsSpace(s[i])
  }

  /** `w` is the window id of `v`: the text without outer spaces, cut before its first colon
      unless that colon leads. */
  ghost predicate WindowOf(v: string, w: string) {
    exists before, core, after ::
      && v == before + core + after && AllSpace(before) && AllSpace(after) && CutsTo(core, w)
      && (core != [] ==> !IsSpace(core[0]) && !IsSpace(core[|core| - 1]))
  }

  ghost predicate CutsTo(core: string, w: string) {
    if core != [] && core[0] == ':' then w == core
    else w <= core && ':' !in w && (w == core || core[|w|] == ':')
  }

  lemma {:induction false} UpToColonCuts(s: string)
    ensures UpToColon(s) <= s && ':' !in UpToColon(s) && (UpToColon(s) == s || s[|UpToColon(s)|] == ':')
    decreases |s|
  {
    if s != [] && s[0] != ':' {
      UpToColonCuts(s[1..]);
      assert s == [s[0]] + s[1..];
    }
  }

  lemma {:induction false} TrimLeftIs(s: string)
    ensures var t := TrimLeft(s);
            && |t| <= |s| && s == s[..|s| - |t|] + t && AllSpace(s[..|s| - |t|]) && (t != [] ==> !IsSpace(t[0]))
    decreases |s|
  {
    if s != [] && IsSpace(s[0]) {
      TrimLeftIs(s[1..]);
      var t := TrimLeft(s[1..]);
      assert s[..|s| - |t|] == [s[0]] + s[1..][..|s[1..]| - |t|];
    } else {
      assert s[..0] == [];
    }
  }

  lemma {:induction false} TrimRightIs(s: string)
    ensures var t := TrimRight(s);
            && t <= s && AllSpace(s[|t|..]) && (t != [] ==> !IsSpace(t[|t| - 1]))
    decreases |s|
  {
    if s != [] && IsSpace(s[|s| - 1]) {
      var init := s[..|s| - 1];
      TrimRightIs(init);
      OneMoreSpace(s, TrimRight(init));
    }
  }

  lemma OneMoreSpace(s: string, t: string)
    requires s != [] && IsSpace(s[|s| - 1]) && t <= s[..|s| - 1] && AllSpace(s[..|s| - 1][|t|..])
    ensures t <= s && AllSpace(s[|t|..])
  {
    var init := s[..|s| - 1];
    forall i | 0 <= i < |s[|t|..]| ensures IsSpace(s[|t|..][i]) {
      if i < |init[|t|..]| { assert s[|t|..][i] == init[|t|..][i]; }
    }
  }

  lemma {:induction false} TrimLeftSkips(before: string, rest: string)
    requires AllSpace(before) && (rest != [] ==> !IsSpace(rest[0]))
    ensures TrimLeft(before + rest) == rest
    decreases |before|
  {
    if before == [] {
      assert before + rest == rest;
    } else {
      assert (before + rest)[1..] == before[1..] + rest;
      TrimLeftSkips(before[1..], rest);
    }
  }

  lemma {:induction false} TrimRightSkips(rest: string, after: string)
    requires AllSpace(after) && (rest != [] ==> !IsSpace(rest[|rest| - 1]))
    ensures TrimRight(rest + after) == rest
    decreases |after|
  {
    if after == [] {
      assert rest + after == rest;
    } else {
      assert (rest + after)[..|rest + after| - 1] == rest + after[..|after| - 1];
      TrimRightSkips(rest, after[..|after| - 1]);
    }
  }

  lemma TrimmedCore(before: string, core: string, after: string)
    requires AllSpace(before) && AllSpace(after) && (core != [] ==> !IsSpace(core[0]) && !IsSpace(core[|core| - 1]))
    ensures TrimRight(TrimLeft(before + core + after)) == core
  {
    if core == [] {
      assert before + core + after == (before + after) + [];
      TrimLeftSkips(before + after, []);
    } else {
      assert before + core + after == before + (core + after);
      TrimLeftSkips(before, core + after);
      TrimRightSkips(core, after);
    }
  }

  lemma CutOnce(core: string, a: string, b: string)
    requires CutsTo(core, a) && CutsTo(core, b)
    ensures a == b
  {
  }

  /** The window id is determined by the text. */
  lemma WindowExactly(v: string, w: string)
    ensures WindowOf(v, w) <==> w == StableWindowId(v)
  {
    WindowIs(v);
    if WindowOf(v, w) {
      var before, core, after :|
        && v == before + core + after && AllSpace(before) && AllSpace(after) && CutsTo(core, w)
        && (core != [] ==> !IsSpace(core[0]) && !IsSpace(core[|core| - 1]));
      TrimmedCore(before, core, after);
      UpToColonCuts(core);
      CutOnce(core, w, StableWindowId(v));
    }
  }

  lemma WindowIs(v: string)
    ensures WindowOf(v, StableWindowId(v))
  {
    var left := TrimLeft(v);
    TrimLeftIs(v);
    var core := TrimRight(left);
    TrimRightIs(left);
    UpToColonCuts(core);
    var before, after := v[..|v| - |left|], left[|core|..];
    assert v == before + core + after;
    assert core != [] ==> core[0] == left[0];
    assert CutsTo(core, StableWindowId(v));
  }

  ghost predicate HasFacet(facets: set<Facet>, request: string, name: string) {
    exists v :: v != "" && Facet(request, name, v) in facets
  }

  /** The bytewise least non-empty value of a facet. */
  ghost predicate LeastFacet(facets: set<Facet>, request: string, name: string, v: string) {
    && v != "" && Facet(request, name, v) in facets
    && forall u | u != "" && u != v && Facet(request, name, u) in facets :: TextLess(v, u)
  }

  /** The record belongs to the window of the least value of that facet; a window that is empty
      leaves it where it is. */
  ghost predicate GoesBy(facets: set<Facet>, request: string, name: string, session: string, home: string) {
    exists v, w :: LeastFacet(facets, request, name, v) && WindowOf(v, w) && home == if w == "" then session else w
  }

  lemma ValuesAre(facets: set<Facet>, request: string, name: string, v: string)
    ensures v in Values(facets, request, name) <==> v != "" && Facet(request, name, v) in facets
  {
  }

  lemma FacetPresent(facets: set<Facet>, request: string, name: string)
    ensures Values(facets, request, name) != {} <==> HasFacet(facets, request, name)
  {
    if Values(facets, request, name) != {} {
      var v :| v in Values(facets, request, name);
      ValuesAre(facets, request, name, v);
    }
    if v :| v != "" && Facet(request, name, v) in facets { ValuesAre(facets, request, name, v); }
  }

  lemma LeastIs(facets: set<Facet>, request: string, name: string)
    requires Values(facets, request, name) != {}
    ensures LeastFacet(facets, request, name, Least(Values(facets, request, name)))
  {
    var s := Values(facets, request, name);
    LeastOf(s);
    ValuesAre(facets, request, name, Least(s));
    forall u | u != "" && u != Least(s) && Facet(request, name, u) in facets ensures TextLess(Least(s), u) {
      ValuesAre(facets, request, name, u);
    }
  }

  lemma LeastOf(s: set<string>)
    requires s != {}
    ensures Least(s) in s && forall x | x in s && x != Least(s) :: TextLess(Least(s), x)
  {
    TextTotal(s);
    assert exists m :: m in s && (forall x | x in s && x != m :: TextLess(m, x)) by {
      var m := LeastExists(TextLess, s);
    }
  }

  lemma GoesByLeast(facets: set<Facet>, request: string, name: string, session: string, home: string)
    requires Values(facets, request, name) != {}
    requires var w := StableWindowId(Least(Values(facets, request, name))); home == if w == "" then session else w
    ensures GoesBy(facets, request, name, session, home)
  {
    LeastIs(facets, request, name);
    WindowIs(Least(Values(facets, request, name)));
  }

  /** Where a record belongs, told from the facet table alone: by its thread id, else by its
      thread header, else by its session header, else where it is. */
  ghost predicate BelongsTo(facets: set<Facet>, request: string, session: string, home: string) {
    if HasFacet(facets, request, "thread.id") then GoesBy(facets, request, "thread.id", session, home)
    else if HasFacet(facets, request, "header.thread-id")
    then GoesBy(facets, request, "header.thread-id", session, home)
    else if HasFacet(facets, request, "header.session-id")
    then GoesBy(facets, request, "header.session-id", session, home)
    else home == session
  }

  lemma HomeBelongs(facets: set<Facet>, request: string, session: string)
    ensures BelongsTo(facets, request, session, Home(facets, request, session))
  {
    FacetPresent(facets, request, "thread.id");
    FacetPresent(facets, request, "header.thread-id");
    FacetPresent(facets, request, "header.session-id");
    var home := Home(facets, request, session);
    if HasFacet(facets, request, "thread.id") {
      GoesByLeast(facets, request, "thread.id", session, home);
    } else if HasFacet(facets, request, "header.thread-id") {
      GoesByLeast(facets, request, "header.thread-id", session, home);
    } else if HasFacet(facets, request, "header.session-id") {
      GoesByLeast(facets, request, "header.session-id", session, home);
    } else {
      assert StableWindowId("") == "";
    }
  }

  lemma OneWay(facets: set<Facet>, request: string, name: string, session: string, a: string, b: string)
    requires GoesBy(facets, request, name, session, a) && GoesBy(facets, request, name, session, b)
    ensures a == b
  {
    var v, w :| LeastFacet(facets, request, name, v) && WindowOf(v, w) && a == if w == "" then session else w;
    var u, x :| LeastFacet(facets, request, name, u) && WindowOf(u, x) && b == if x == "" then session else x;
    if u != v {
      TextLessTransitive(u, v, u);
      TextLessIrreflexive(u);
    }
    WindowExactly(v, w);
    WindowExactly(u, x);
  }

  /** The facet table determines where a record belongs. */
  lemma HomeByFacets(facets: set<Facet>, request: string, session: string, home: string)
    ensures BelongsTo(facets, request, session, home) <==> home == Home(facets, request, session)
  {
    HomeBelongs(facets, request, session);
    var h := Home(facets, request, session);
    if BelongsTo(facets, request, session, home) {
      if HasFacet(facets, request, "thread.id") {
        OneWay(facets, request, "thread.id", session, home, h);
      } else if HasFacet(facets, request, "header.thread-id") {
        OneWay(facets, request, "header.thread-id", session, home, h);
      } else if HasFacet(facets, request, "header.session-id") {
        OneWay(facets, request, "header.session-id", session, home, h);
      }
    }
  }

  // ----- One repair -----

  function AppendUnique(values: seq<string>, value: string): seq<string> {
    if value in values then values else values + [value]
  }

  function FacetValues(facets: FacetMap, name: string): seq<string> {
    if name in facets then facets[name] else []
  }

  function MovedFacetMap(facets: FacetMap, oldId: string, newId: string): FacetMap {
    var renamed := facets[SESSION_ID := [newId]];
    if oldId == "" || oldId == newId then renamed
    else renamed[EXECUTION_ID := AppendUnique(FacetValues(renamed, EXECUTION_ID), oldId)]
  }

  function MovedRow(row: Row, newId: string): Row {
    row.(session := newId, facets := MovedFacetMap(row.facets, row.session, newId))
  }

  function MovedRows(rows: Rows, x: Repair): Rows {
    if x.request in rows then rows[x.request := MovedRow(rows[x.request], x.newId)] else rows
  }

  /** The turn row takes over the session and the facets written to the record. */
  function MovedTurns(turns: Turns, rows: Rows, x: Repair): Turns {
    if x.request in turns && x.request in rows then
      turns[x.request := Turn(turns[x.request].id, x.newId, MovedRow(rows[x.request], x.newId).facets)]
    else turns
  }

  function MovedFacets(facets: set<Facet>, x: Repair): set<Facet> {
    (set f | f in facets && !(f.request == x.request && f.name == SESSION_ID))
    + {Facet(x.request, SESSION_ID, x.newId)}
    + if x.oldId != "" && x.oldId != x.newId then {Facet(x.request, EXECUTION_ID, x.oldId)} else {}
  }

  // ----- All repairs -----

  /** The repairs the scan collects, in whatever order the query returns the rows. */
  function Repairs(rows: Rows, facets: set<Facet>, scan: seq<string>): (xs: seq<Repair>)
    requires forall r | r in scan :: r in rows
    ensures forall x | x in xs :: x.request in scan && x.oldId == rows[x.request].session
                                  && x.newId == Canonical(facets, x.request) && x.newId != "" && x.newId != x.oldId
    ensures forall r | r in scan && Home(facets, r, rows[r].session) != rows[r].session ::
              Repair(r, rows[r].session, Canonical(facets, r)) in xs
  {
    if scan == [] then []
    else
      var init, r := scan[..|scan| - 1], scan[|scan| - 1];
      assert scan == init + [r];
      var x := Repair(r, rows[r].session, Canonical(facets, r));
      Repairs(rows, facets, init) + if x.newId != "" && x.newId != x.oldId then [x] else []
  }

  function MoveRows(rows: Rows, xs: seq<Repair>): Rows {
    if xs == [] then rows else MovedRows(MoveRows(rows, xs[..|xs| - 1]), xs[|xs| - 1])
  }

  function MoveTurns(turns: Turns, rows: Rows, xs: seq<Repair>): Turns {
    if xs == [] then turns
    else MovedTurns(MoveTurns(turns, rows, xs[..|xs| - 1]), MoveRows(rows, xs[..|xs| - 1]), xs[|xs| - 1])
  }

  function MoveFacets(facets: set<Facet>, xs: seq<Repair>): set<Facet> {
    if xs == [] then facets else MovedFacets(MoveFacets(facets, xs[..|xs| - 1]), xs[|xs| - 1])
  }

  ghost predicate DistinctRequests(xs: seq<Repair>) {
    forall i, j | 0 <= i < j < |xs| :: xs[i].request != xs[j].request
  }

  /** Facets outside the two rewritten names are untouched. */
  lemma {:induction false} OtherFacetsKept(facets: set<Facet>, xs: seq<Repair>, f: Facet)
    requires f.name != SESSION_ID && f.name != EXECUTION_ID
    ensures f in MoveFacets(facets, xs) <==> f in facets
    decreases |xs|
  {
    if xs != [] { OtherFacetsKept(facets, xs[..|xs| - 1], f); }
  }

  lemma ValuesKept(facets: set<Facet>, xs: seq<Repair>, request: string, name: string)
    requires name != SESSION_ID && name != EXECUTION_ID
    ensures Values(MoveFacets(facets, xs), request, name) == Values(facets, request, name)
  {
    forall f: Facet | f.name == name ensures f in MoveFacets(facets, xs) <==> f in facets {
      OtherFacetsKept(facets, xs, f);
    }
  }

  /** A repair does not change what the canonical ids are computed from. */
  lemma CanonicalKept(facets: set<Facet>, xs: seq<Repair>, request: string)
    ensures Canonical(MoveFacets(facets, xs), request) == Canonical(facets, request)
  {
    ValuesKept(facets, xs, request, THREAD_ID);
    ValuesKept(facets, xs, request, HEADER_THREAD);
    ValuesKept(facets, xs, request, HEADER_SESSION);
  }

  lemma {:induction false} UnlistedKept(rows: Rows, turns: Turns, xs: seq<Repair>, r: string)
    requires forall x | x in xs :: x.request != r
    ensures r in MoveRows(rows, xs) <==> r in rows
    ensures r in rows ==> MoveRows(rows, xs)[r] == rows[r]
    ensures r in MoveTurns(turns, rows, xs) <==> r in turns
    ensures r in turns ==> MoveTurns(turns, rows, xs)[r] == turns[r]
    decreases |xs|
  {
    if xs != [] {
      assert xs[|xs| - 1] in xs;
      UnlistedKept(rows, turns, xs[..|xs| - 1], r);
    }
  }

  lemma {:induction false} ListedMoved(rows: Rows, turns: Turns, xs: seq<Repair>, x: Repair)
    requires DistinctRequests(xs) && x in xs && x.request in rows
    ensures x.request in MoveRows(rows, xs) && MoveRows(rows, xs)[x.request] == MovedRow(rows[x.request], x.newId)
    ensures x.request in MoveTurns(turns, rows, xs) <==> x.request in turns
    ensures x.request in turns ==>
              MoveTurns(turns, rows, xs)[x.request] ==
              Turn(turns[x.request].id, x.newId, MovedRow(rows[x.request], x.newId).facets)
    decreases |xs|
  {
    var init, last := xs[..|xs| - 1], xs[|xs| - 1];
    assert xs == init + [last];
    if x == last {
      UnlistedKept(rows, turns, init, x.request);
    } else {
      assert x in init;
      var i :| 0 <= i < |init| && init[i] == x;
      assert xs[i].request != xs[|xs| - 1].request;
      ListedMoved(rows, turns, init, x);
    }
  }

  /** The old session id of every moved record stays searchable. */
  lemma {:induction false} OldIdKept(facets: set<Facet>, xs: seq<Repair>, x: Repair)
    requires x in xs && x.oldId != "" && x.oldId != x.newId
    ensures Facet(x.request, EXECUTION_ID, x.oldId) in MoveFacets(facets, xs)
    decreases |xs|
  {
    var init, last := xs[..|xs| - 1], xs[|xs| - 1];
    assert xs == init + [last];
    if x != last { OldIdKept(facets, init, x); }
  }

  lemma {:induction false} SessionFacetUntouched(facets: set<Facet>, xs: seq<Repair>, f: Facet)
    requires f.name == SESSION_ID && forall x | x in xs :: x.request != f.request
    ensures f in MoveFacets(facets, xs) <==> f in facets
    decreases |xs|
  {
    if xs != [] {
      assert xs[|xs| - 1] in xs;
      SessionFacetUntouched(facets, xs[..|xs| - 1], f);
    }
  }

  /** A moved record's session.id facet is its new session and nothing else. */
  lemma {:induction false} SessionFacetMoved(facets: set<Facet>, xs: seq<Repair>, x: Repair, value: string)
    requires DistinctRequests(xs) && x in xs
    ensures Facet(x.request, SESSION_ID, value) in MoveFacets(facets, xs) <==> value == x.newId
    decreases |xs|
  {
    var init, last := xs[..|xs| - 1], xs[|xs| - 1];
    assert xs == init + [last];
    if x != last {
      assert x in init;
      var i :| 0 <= i < |init| && init[i] == x;
      assert xs[i].request != xs[|xs| - 1].request;
      SessionFacetMoved(facets, init, x, value);
    }
  }

  lemma {:induction false} ExecutionFacets(facets: set<Facet>, xs: seq<Repair>, f: Facet)
    requires f.name == EXECUTION_ID
    ensures f in MoveFacets(facets, xs) <==>
            f in facets || (f.value != "" && exists x | x in xs ::
                x.request == f.request && x.oldId == f.value && x.newId != f.value)
    decreases |xs|
  {
    if xs != [] {
      var init, last := xs[..|xs| - 1], xs[|xs| - 1];
      assert xs == init + [last];
      ExecutionFacets(facets, init, f);
    }
  }

  lemma {:induction false} RepairsDistinct(rows: Rows, facets: set<Facet>, scan: seq<string>)
    requires (forall r | r in scan :: r in rows) && Distinct(scan)
    ensures DistinctRequests(Repairs(rows, facets, scan))
    decreases |scan|
  {
    if scan != [] {
      var init, r := scan[..|scan| - 1], scan[|scan| - 1];
      RepairsDistinct(rows, facets, init);
      assert r !in init;
      assert forall x | x in Repairs(rows, facets, init) :: x.request != r;
    }
  }

  // ----- What one repair run does to the tables -----

  ghost predicate Scans(scan: seq<string>, rows: Rows) {
    Distinct(scan) && forall r :: r in scan <==> r in rows
  }

  /** Every record ends in its home session; nothing else about it changes but the two facets. */
  lemma EveryRecordHome(rows: Rows, turns: Turns, facets: set<Facet>, scan: seq<string>, r: string)
    requires Scans(scan, rows) && r in rows
    ensures var xs := Repairs(rows, facets, scan);
            && r in MoveRows(rows, xs)
            && MoveRows(rows, xs)[r] ==
               (if Home(facets, r, rows[r].session) == rows[r].session then rows[r]
                else MovedRow(rows[r], Canonical(facets, r)))
            && MoveRows(rows, xs)[r].session == Home(facets, r, rows[r].session)
            && (r in turns ==>
                  && r in MoveTurns(turns, rows, xs)
                  && MoveTurns(turns, rows, xs)[r].session ==
                     (if Home(facets, r, rows[r].session) == rows[r].session then turns[r].session
                      else Canonical(facets, r)))
  {
    var xs := Repairs(rows, facets, scan);
    RepairsDistinct(rows, facets, scan);
    var x := Repair(r, rows[r].session, Canonical(facets, r));
    if Home(facets, r, rows[r].session) != rows[r].session {
      assert x in xs;
      ListedMoved(rows, turns, xs, x);
    } else {
      UnlistedKept(rows, turns, xs, r);
    }
  }

  /** Whether the repair moves the record. */
  ghost predicate Moves(rows: Rows, facets: set<Facet>, r: string) {
    r in rows && Home(facets, r, rows[r].session) != rows[r].session
  }

  lemma OneRepair(xs: seq<Repair>, x: Repair, y: Repair)
    requires DistinctRequests(xs) && x in xs && y in xs && x.request == y.request
    ensures x == y
  {
    var i :| 0 <= i < |xs| && xs[i] == x;
    var j :| 0 <= j < |xs| && xs[j] == y;
  }

  lemma MovedFacetAfter(facets: set<Facet>, xs: seq<Repair>, f: Facet, x: Repair)
    requires DistinctRequests(xs) && x in xs && x.request == f.request && x.oldId != x.newId
    ensures f in MoveFacets(facets, xs) <==>
            if f.name == SESSION_ID then f.value == x.newId
            else if f.name == EXECUTION_ID then f in facets || (f.value != "" && f.value == x.oldId)
            else f in facets
  {
    if f.name == SESSION_ID {
      SessionFacetMoved(facets, xs, x, f.value);
    } else if f.name == EXECUTION_ID {
      ExecutionFacets(facets, xs, f);
      forall y | y in xs && y.request == f.request ensures y == x { OneRepair(xs, x, y); }
    } else {
      OtherFacetsKept(facets, xs, f);
    }
  }

  lemma UnmovedFacetAfter(facets: set<Facet>, xs: seq<Repair>, f: Facet)
    requires forall x | x in xs :: x.request != f.request
    ensures f in MoveFacets(facets, xs) <==> f in facets
  {
    if f.name == SESSION_ID {
      SessionFacetUntouched(facets, xs, f);
    } else if f.name == EXECUTION_ID {
      ExecutionFacets(facets, xs, f);
    } else {
      OtherFacetsKept(facets, xs, f);
    }
  }

  /** The whole facet table after the repair: a moved record has its new session as its only
      session facet and keeps its old one, unless empty, as an execution facet; every other
      facet is as before. */
  lemma FacetsAfter(rows: Rows, facets: set<Facet>, scan: seq<string>, f: Facet)
    requires Scans(scan, rows)
    ensures f in MoveFacets(facets, Repairs(rows, facets, scan)) <==>
            if f.name == SESSION_ID && Moves(rows, facets, f.request) then f.value == Canonical(facets, f.request)
            else if f.name == EXECUTION_ID && Moves(rows, facets, f.request)
            then f in facets || (f.value != "" && f.value == rows[f.request].session)
            else f in facets
  {
    var xs := Repairs(rows, facets, scan);
    RepairsDistinct(rows, facets, scan);
    if Moves(rows, facets, f.request) {
      MovedFacetAfter(facets, xs, f, Repair(f.request, rows[f.request].session, Canonical(facets, f.request)));
    } else {
      UnmovedFacetAfter(facets, xs, f);
    }
  }

  /** After the repair every record is in the session that the facet table gives it. */
  lemma RepairedByFacets(rows: Rows, turns: Turns, facets: set<Facet>, scan: seq<string>, r: string)
    requires Scans(scan, rows) && r in rows
    ensures var after := MoveRows(rows, Repairs(rows, facets, scan));
            r in after && BelongsTo(facets, r, rows[r].session, after[r].session)
  {
    EveryRecordHome(rows, turns, facets, scan, r);
    HomeBelongs(facets, r, rows[r].session);
  }

  /** A moved record's own facets: the new session as its only session facet, the old one, unless
      empty, appended to the execution facet, everything else as it was. */
  ghost predicate FacetsMoved(was: FacetMap, oldId: string, now: FacetMap, newId: string) {
    && "session.id" in now && now["session.id"] == [newId]
    && (forall n | n != "session.id" && n != "execution.session.id" ::
          (n in now <==> n in was) && (n in was ==> now[n] == was[n]))
    && (oldId != "" ==>
          && "execution.session.id" in now && oldId in now["execution.session.id"]
          && FacetValues(was, "execution.session.id") <= now["execution.session.id"]
             <= FacetValues(was, "execution.session.id") + [oldId])
  }

  lemma MovedMapIs(was: FacetMap, oldId: string, newId: string)
    requires oldId != newId
    ensures FacetsMoved(was, oldId, MovedFacetMap(was, oldId, newId), newId)
  {
    var renamed := was["session.id" := [newId]];
    assert FacetValues(renamed, "execution.session.id") == FacetValues(was, "execution.session.id");
  }

  lemma RowFacetsAfter(rows: Rows, turns: Turns, facets: set<Facet>, scan: seq<string>, r: string)
    requires Scans(scan, rows) && Moves(rows, facets, r)
    ensures var after := MoveRows(rows, Repairs(rows, facets, scan));
            r in after && FacetsMoved(rows[r].facets, rows[r].session, after[r].facets, after[r].session)
  {
    EveryRecordHome(rows, turns, facets, scan, r);
    MovedMapIs(rows[r].facets, rows[r].session, Canonical(facets, r));
  }

  lemma {:induction false} KeysKept(rows: Rows, turns: Turns, xs: seq<Repair>)
    ensures MoveRows(rows, xs).Keys == rows.Keys && MoveTurns(turns, rows, xs).Keys == turns.Keys
    decreases |xs|
  {
    if xs != [] { KeysKept(rows, turns, xs[..|xs| - 1]); }
  }

  /** The record set, ids, times, summaries and payload refs survive. */
  lemma ContentsKept(rows: Rows, turns: Turns, facets: set<Facet>, scan: seq<string>)
    requires Scans(scan, rows)
    ensures var after := MoveRows(rows, Repairs(rows, facets, scan));
            && after.Keys == rows.Keys
            && forall r | r in rows ::
                r in after && after[r].(session := rows[r].session, facets := rows[r].facets) == rows[r]
  {
    KeysKept(rows, turns, Repairs(rows, facets, scan));
    forall r | r in rows
      ensures MoveRows(rows, Repairs(rows, facets, scan))[r].(session := rows[r].session,
          facets := rows[r].facets) == rows[r]
    {
      EveryRecordHome(rows, turns, facets, scan, r);
    }
  }

  /** Run again on its own result, whether or not the marker survived, the scan finds nothing. */
  lemma SecondScanIsEmpty(rows: Rows, turns: Turns, facets: set<Facet>, scan: seq<string>, again: seq<string>)
    requires Scans(scan, rows) && Scans(again, rows)
    ensures var xs := Repairs(rows, facets, scan);
            && (forall r | r in again :: r in MoveRows(rows, xs))
            && Repairs(MoveRows(rows, xs), MoveFacets(facets, xs), again) == []
  {
    var xs := Repairs(rows, facets, scan);
    var after := MoveRows(rows, xs);
    KeysKept(rows, turns, xs);
    var ys := Repairs(after, MoveFacets(facets, xs), again);
    if ys != [] {
      var y := ys[0];
      assert y in ys;
      EveryRecordHome(rows, turns, facets, scan, y.request);
      CanonicalKept(facets, xs, y.request);
    }
  }

  // ----- The rebuilt index -----

  /** ORDER BY id. */
  ghost predicate InIdOrder(order: seq<string>, rows: Rows) {
    Scans(order, rows) && forall i, j | 0 <= i < j < |order| :: rows[order[i]].id < rows[order[j]].id
  }

  function VersionOf(request: string, row: Row): SI.Version {
    SI.Version(request, row.session, row.startedAt, row.completedAt, row.summary)
  }

  function Versions(rows: Rows, order: seq<string>): (vs: seq<SI.Version>)
    requires forall r | r in order :: r in rows
    ensures |vs| == |order| && forall i | 0 <= i < |order| :: vs[i] == VersionOf(order[i], rows[order[i]])
  {
    if order == [] then []
    else Versions(rows, order[..|order| - 1]) + [VersionOf(order[|order| - 1], rows[order[|order| - 1]])]
  }

  predicate Indexable(v: SI.Version) {
    v.request != "" && v.session != ""
  }

  function Indexables(vs: seq<SI.Version>): seq<SI.Version> {
    if vs == [] then []
    else Indexables(vs[..|vs| - 1]) + if Indexable(vs[|vs| - 1]) then [vs[|vs| - 1]] else []
  }

  lemma {:induction false} IndexablesMember(vs: seq<SI.Version>, v: SI.Version)
    ensures v in Indexables(vs) <==> v in vs && Indexable(v)
    decreases |vs|
  {
    if vs != [] {
      assert vs == vs[..|vs| - 1] + [vs[|vs| - 1]];
      IndexablesMember(vs[..|vs| - 1], v);
    }
  }

  /** Rebuilding from the cleared tables accepts each record with both ids, once, in order. */
  lemma {:induction false} RebuildAgrees(vs: seq<SI.Version>)
    requires forall i, j | 0 <= i < j < |vs| :: vs[i].request != vs[j].request
    ensures SI.IndexInv(SI.IndexAll(SI.Empty, vs), Indexables(vs))
    decreases |vs|
  {
    if vs == [] {
      SI.OpenedInv(map[]);
    } else {
      var init, v := vs[..|vs| - 1], vs[|vs| - 1];
      RebuildAgrees(init);
      var ix := SI.IndexAll(SI.Empty, init);
      SI.IndexInvStep(ix, Indexables(init), v);
      if Indexable(v) { NotYetIndexed(ix, init, vs); }
      assert SI.Logged(ix, Indexables(init), v) == Indexables(vs);
    }
  }

  lemma EarlierRequest(init: seq<SI.Version>, vs: seq<SI.Version>, v: SI.Version)
    requires vs != [] && init == vs[..|vs| - 1] && v in Indexables(init)
    requires forall i, j | 0 <= i < j < |vs| :: vs[i].request != vs[j].request
    ensures v.request != vs[|vs| - 1].request
  {
    IndexablesMember(init, v);
    var k :| 0 <= k < |init| && init[k] == v;
    assert vs[k] == v;
  }

  lemma NotYetIndexed(ix: SI.Index, init: seq<SI.Version>, vs: seq<SI.Version>)
    requires vs != [] && init == vs[..|vs| - 1] && SI.Agrees(ix, Indexables(init))
    requires forall i, j | 0 <= i < j < |vs| :: vs[i].request != vs[j].request
    ensures vs[|vs| - 1].request !in ix.indexed
  {
    var log := Indexables(init);
    var r := vs[|vs| - 1].request;
    if r in ix.indexed {
      var i :| 0 <= i < |log| && log[i].request == r;
      EarlierRequest(init, vs, log[i]);
    }
  }

  /** The rebuilt index: every record with both ids stands under its home session, and each
      session row satisfies the same law as under incremental ingest. */
  lemma RebuiltIndex(rows: Rows, turns: Turns, facets: set<Facet>, scan: seq<string>, order: seq<string>)
    requires Scans(scan, rows) && InIdOrder(order, rows)
    ensures var after := MoveRows(rows, Repairs(rows, facets, scan));
            && (forall r | r in order :: r in after)
            && var ix := SI.IndexAll(SI.Empty, Versions(after, order));
               && SI.IndexInv(ix, Indexables(Versions(after, order)))
               && forall r | r in rows && r != "" && Home(facets, r, rows[r].session) != "" ::
                    r in ix.indexed && ix.indexed[r] == Home(facets, r, rows[r].session)
  {
    var after := MoveRows(rows, Repairs(rows, facets, scan));
    KeysKept(rows, turns, Repairs(rows, facets, scan));
    var vs := Versions(after, order);
    RebuildAgrees(vs);
    var ix := SI.IndexAll(SI.Empty, vs);
    forall r | r in rows && r != "" && Home(facets, r, rows[r].session) != ""
      ensures r in ix.indexed && ix.indexed[r] == Home(facets, r, rows[r].session)
    {
      EveryRecordHome(rows, turns, facets, scan, r);
      var k :| 0 <= k < |order| && order[k] == r;
      IndexablesMember(vs, vs[k]);
      var log := Indexables(vs);
      var i :| 0 <= i < |log| && log[i] == vs[k];
    }
  }

  /** The records that the repair leaves in session `s`, as the index counts them. */
  ghost function HomedIn(rows: Rows, facets: set<Facet>, s: string): set<string> {
    set r | r in rows && r != "" && Home(facets, r, rows[r].session) == s
  }

  ghost function VersionIn(rows: Rows, s: string, r: string): SI.Version {
    if r in rows then SI.Version(r, s, rows[r].startedAt, rows[r].completedAt, rows[r].summary)
    else SI.Version("", "", "", "", "")
  }

  lemma VersionsHold(rows: Rows, order: seq<string>, v: SI.Version)
    requires Scans(order, rows)
    ensures v in Versions(rows, order) <==> v.request in rows && v == VersionOf(v.request, rows[v.request])
  {
    var vs := Versions(rows, order);
    if v in vs {
      var k :| 0 <= k < |vs| && vs[k] == v;
    }
    if v.request in rows && v == VersionOf(v.request, rows[v.request]) {
      var k :| 0 <= k < |order| && order[k] == v.request;
      assert vs[k] == v;
    }
  }

  lemma VersionAfter(rows: Rows, turns: Turns, facets: set<Facet>, scan: seq<string>, r: string)
    requires Scans(scan, rows) && r in rows
    ensures var after := MoveRows(rows, Repairs(rows, facets, scan));
            r in after && VersionOf(r, after[r]) == VersionIn(rows, Home(facets, r, rows[r].session), r)
  {
    EveryRecordHome(rows, turns, facets, scan, r);
  }

  lemma LoggedVersions(rows: Rows, turns: Turns, facets: set<Facet>, scan: seq<string>, order: seq<string>, after: Rows,
                       s: string, v: SI.Version)
    requires Scans(scan, rows) && Scans(order, rows) && s != "" && after.Keys == rows.Keys
    requires after == MoveRows(rows, Repairs(rows, facets, scan))
    ensures v in SI.OfSession(Indexables(Versions(after, order)), s) <==>
            v.request in HomedIn(rows, facets, s) && v == VersionIn(rows, s, v.request)
  {
    var vs := Versions(after, order);
    SI.OfSessionMember(Indexables(vs), s, v);
    IndexablesMember(vs, v);
    VersionsHold(after, order, v);
    if v.request in rows { VersionAfter(rows, turns, facets, scan, v.request); }
  }

  lemma OwnRow(ix: SI.Index, log: seq<SI.Version>, s: string, v: SI.Version)
    requires SI.Agrees(ix, log) && v in SI.OfSession(log, s)
    ensures s in ix.summaries && SI.Summarises(ix.summaries[s], SI.OfSession(log, s))
    ensures var vs := SI.OfSession(log, s); forall i, j | 0 <= i < j < |vs| :: vs[i].request != vs[j].request
  {
    assert SI.RowMatches(SI.RowOf(ix.summaries, s), SI.OfSession(log, s));
    SI.OfSessionDistinct(log, s);
  }

  /** Each rebuilt session row, told from the records before the repair: it counts the records
      that belong to the session, its times are the least start and the greatest completion among
      them, and its text is the earliest non-empty summary. */
  lemma RebuiltRows(rows: Rows, turns: Turns, facets: set<Facet>, scan: seq<string>, order: seq<string>, s: string,
                    after: Rows)
    requires Scans(scan, rows) && InIdOrder(order, rows) && s != "" && HomedIn(rows, facets, s) != {}
    requires after == MoveRows(rows, Repairs(rows, facets, scan))
    ensures forall r | r in order :: r in after
    ensures var ix := SI.IndexAll(SI.Empty, Versions(after, order));
            s in ix.summaries && RowTells(rows, HomedIn(rows, facets, s), ix.summaries[s])
  {
    KeysKept(rows, turns, Repairs(rows, facets, scan));
    RebuiltIndex(rows, turns, facets, scan, order);
    var log := Indexables(Versions(after, order));
    var ix := SI.IndexAll(SI.Empty, Versions(after, order));
    var r :| r in HomedIn(rows, facets, s);
    LoggedVersions(rows, turns, facets, scan, order, after, s, VersionIn(rows, s, r));
    OwnRow(ix, log, s, VersionIn(rows, s, r));
    RowFromLog(rows, turns, facets, scan, order, s, after, ix.summaries[s]);
  }

  lemma RowFromLog(rows: Rows, turns: Turns, facets: set<Facet>, scan: seq<string>, order: seq<string>, s: string,
                   after: Rows, row: SI.Summary)
    requires Scans(scan, rows) && Scans(order, rows) && s != "" && after.Keys == rows.Keys
    requires after == MoveRows(rows, Repairs(rows, facets, scan))
    requires SI.Summarises(row, SI.OfSession(Indexables(Versions(after, order)), s))
    requires var vs := SI.OfSession(Indexables(Versions(after, order)), s);
             forall i, j | 0 <= i < j < |vs| :: vs[i].request != vs[j].request
    ensures RowTells(rows, HomedIn(rows, facets, s), row)
  {
    var own := SI.OfSession(Indexables(Versions(after, order)), s);
    forall v ensures v in own <==> v.request in HomedIn(rows, facets, s) && v == VersionIn(rows, s, v.request) {
      LoggedVersions(rows, turns, facets, scan, order, after, s, v);
    }
    SummaryTells(rows, s, HomedIn(rows, facets, s), own, row);
  }

  ghost predicate RowTells(rows: Rows, own: set<string>, row: SI.Summary)
    requires own <= rows.Keys
  {
    && row.requests == |own|
    && (exists r :: r in own && rows[r].startedAt == row.firstAt)
    && (exists r :: r in own && rows[r].completedAt == row.lastAt)
    && (forall r | r in own :: !TextLess(rows[r].startedAt, row.firstAt) && !TextLess(row.lastAt, rows[r].completedAt))
    && if row.summary == "" then forall r | r in own :: rows[r].summary == ""
       else exists r :: r in own && rows[r].summary == row.summary
                        && forall q | q in own && rows[q].summary != "" ::
                             !TextLess(rows[q].startedAt, rows[r].startedAt)
  }

  lemma SummaryTells(rows: Rows, s: string, own: set<string>, vs: seq<SI.Version>, row: SI.Summary)
    requires own <= rows.Keys && SI.Summarises(row, vs)
    requires forall i, j | 0 <= i < j < |vs| :: vs[i].request != vs[j].request
    requires forall v :: v in vs <==> v.request in own && v == VersionIn(rows, s, v.request)
    ensures RowTells(rows, own, row)
  {
    SI.RequestsCount(vs);
    forall r | r in own ensures VersionIn(rows, s, r) in vs { }
    forall r ensures r in SI.Requests(vs) <==> r in own {
      if r in own { assert VersionIn(rows, s, r) in vs; }
    }
    assert SI.Requests(vs) == own;
    TimesTell(rows, s, own, vs, row);
    TextTells(rows, s, own, vs, row);
  }

  lemma TimesTell(rows: Rows, s: string, own: set<string>, vs: seq<SI.Version>, row: SI.Summary)
    requires own <= rows.Keys && SI.FirstOf(row.firstAt, vs) && SI.LastOf(row.lastAt, vs)
    requires forall v :: v in vs <==> v.request in own && v == VersionIn(rows, s, v.request)
    ensures exists r :: r in own && rows[r].startedAt == row.firstAt
    ensures exists r :: r in own && rows[r].completedAt == row.lastAt
    ensures forall r | r in own ::
              !TextLess(rows[r].startedAt, row.firstAt) && !TextLess(row.lastAt, rows[r].completedAt)
  {
    var i :| 0 <= i < |vs| && vs[i].startedAt == row.firstAt;
    assert vs[i] in vs;
    var j :| 0 <= j < |vs| && vs[j].completedAt == row.lastAt;
    assert vs[j] in vs;
    forall r | r in own
      ensures !TextLess(rows[r].startedAt, row.firstAt) && !TextLess(row.lastAt, rows[r].completedAt)
    {
      assert VersionIn(rows, s, r) in vs;
      var k :| 0 <= k < |vs| && vs[k] == VersionIn(rows, s, r);
    }
  }

  lemma TextTells(rows: Rows, s: string, own: set<string>, vs: seq<SI.Version>, row: SI.Summary)
    requires own <= rows.Keys && SI.ChosenText(row.summary, row.summaryAt, vs)
    requires forall v :: v in vs <==> v.request in own && v == VersionIn(rows, s, v.request)
    ensures row.summary == "" ==> forall r | r in own :: rows[r].summary == ""
    ensures row.summary != "" ==>
              exists r :: r in own && rows[r].summary == row.summary
                          && forall q | q in own && rows[q].summary != "" ::
                               !TextLess(rows[q].startedAt, rows[r].startedAt)
  {
    forall r | r in own ensures exists k :: 0 <= k < |vs| && vs[k] == VersionIn(rows, s, r) {
      assert VersionIn(rows, s, r) in vs;
    }
    if row.summary != "" {
      var i: nat :| SI.EarliestText(vs, i) && vs[i].summary == row.summary && vs[i].startedAt == row.summaryAt;
      var r := vs[i].request;
      assert vs[i] in vs;
      forall q | q in own && rows[q].summary != "" ensures !TextLess(rows[q].startedAt, rows[r].startedAt) {
        var k :| 0 <= k < |vs| && vs[k] == VersionIn(rows, s, q);
      }
    }
  }

  /** Every projected turn sits beside its record. */
  ghost predicate TurnsFollow(rows: Rows, turns: Turns) {
    forall r | r in turns :: r in rows && turns[r] == Turn(rows[r].id, rows[r].session, rows[r].facets)
  }

  lemma {:induction false} TurnsStillFollow(rows: Rows, turns: Turns, xs: seq<Repair>)
    requires TurnsFollow(rows, turns)
    ensures TurnsFollow(MoveRows(rows, xs), MoveTurns(turns, rows, xs))
    decreases |xs|
  {
    if xs != [] { TurnsStillFollow(rows, turns, xs[..|xs| - 1]); }
  }

  // ----- The repair, in place -----

  class ArchiveTables {
    var rows: Rows
    var facets: set<Facet>
    var turns: Turns
    var index: SI.Index
    var version: nat

    constructor ()
      ensures rows == map[] && facets == {} && turns == map[] && index == SI.Empty && version == 0
    {
      rows, facets, turns, index, version := map[], {}, map[], SI.Empty, 0;
    }

    method CollectRepairs(scan: seq<string>) returns (xs: seq<Repair>)
      requires forall r | r in scan :: r in rows
      ensures xs == Repairs(rows, facets, scan)
    {
      xs := [];
      for i := 0 to |scan|
        invariant forall r | r in scan[..i] :: r in rows
        invariant xs == Repairs(rows, facets, scan[..i])
      {
        var r := scan[i];
        assert r in scan && scan[..i + 1][..i] == scan[..i];
        var newId := StableWindowId(RawCanonical(facets, r));
        if newId != "" && newId != rows[r].session {
          xs := xs + [Repair(r, rows[r].session, newId)];
        }
      }
      assert scan[..|scan|] == scan;
    }

    method ApplyRepairs(xs: seq<Repair>)
      modifies this`rows, this`turns, this`facets
      ensures rows == MoveRows(old(rows), xs)
      ensures turns == MoveTurns(old(turns), old(rows), xs)
      ensures facets == MoveFacets(old(facets), xs)
    {
      for i := 0 to |xs|
        invariant rows == MoveRows(old(rows), xs[..i])
        invariant turns == MoveTurns(old(turns), old(rows), xs[..i])
        invariant facets == MoveFacets(old(facets), xs[..i])
      {
        assert xs[..i + 1][..i] == xs[..i];
        turns := MovedTurns(turns, rows, xs[i]);
        rows := MovedRows(rows, xs[i]);
        facets := MovedFacets(facets, xs[i]);
      }
      assert xs[..|xs|] == xs;
    }

    /** The cleared index tables, filled again in id order. */
    method Rebuild(order: seq<string>)
      requires forall r | r in order :: r in rows
      modifies this`index
      ensures index == SI.IndexAll(SI.Empty, Versions(rows, order))
    {
      index := SI.Empty;
      for i := 0 to |order|
        invariant forall r | r in order[..i] :: r in rows
        invariant index == SI.IndexAll(SI.Empty, Versions(rows, order[..i]))
      {
        var r := order[i];
        assert r in order && order[..i + 1][..i] == order[..i];
        index := SI.IndexRecord(index, VersionOf(r, rows[r]));
        ghost var vs := Versions(rows, order[..i + 1]);
        assert vs[..|vs| - 1] == Versions(rows, order[..i]);
      }
      assert order[..|order|] == order;
    }

    /** RepairCanonicalSessions. `scan` is the unordered query, `order` the one by id;
        `markerLost` is a stop after the commit and before the marker write. */
    method RepairCanonicalSessions(scan: seq<string>, order: seq<string>, markerLost: bool) returns (moved: nat)
      requires Scans(scan, rows) && InIdOrder(order, rows)
      modifies this
      ensures old(version) >= REPAIR_VERSION ==>
                moved == 0 && rows == old(rows) && facets == old(facets) && turns == old(turns) && index == old(index)
                && version == old(version)
      ensures old(version) < REPAIR_VERSION ==>
                && var xs := Repairs(old(rows), old(facets), scan);
                && moved == |xs|
                && rows == MoveRows(old(rows), xs)
                && turns == MoveTurns(old(turns), old(rows), xs)
                && facets == MoveFacets(old(facets), xs)
                && version == (if markerLost then old(version) else REPAIR_VERSION)
      ensures moved == 0 ==> rows == old(rows) && facets == old(facets) && turns == old(turns) && index == old(index)
      ensures rows.Keys == old(rows).Keys
      ensures moved > 0 ==> index == SI.IndexAll(SI.Empty, Versions(rows, order))
      ensures old(version) < REPAIR_VERSION ==>
                forall r | r in rows :: BelongsTo(old(facets), r, old(rows)[r].session, rows[r].session)
    {
      if version >= REPAIR_VERSION {
        return 0;
      }
      moved := RepairTables(scan, order);
      if !markerLost {
        version := REPAIR_VERSION;
      }
      AllHome(old(rows), old(turns), old(facets), scan);
    }

    /** The transaction. */
    method RepairTables(scan: seq<string>, order: seq<string>) returns (moved: nat)
      requires Scans(scan, rows) && InIdOrder(order, rows)
      modifies this`rows, this`turns, this`facets, this`index
      ensures var xs := Repairs(old(rows), old(facets), scan);
              && moved == |xs| && rows == MoveRows(old(rows), xs) && facets == MoveFacets(old(facets), xs)
              && turns == MoveTurns(old(turns), old(rows), xs)
      ensures moved == 0 ==> rows == old(rows) && facets == old(facets) && turns == old(turns) && index == old(index)
      ensures rows.Keys == old(rows).Keys
      ensures moved > 0 ==> index == SI.IndexAll(SI.Empty, Versions(rows, order))
    {
      var xs := CollectRepairs(scan);
      moved := |xs|;
      ApplyRepairs(xs);
      KeysKept(old(rows), old(turns), xs);
      if xs != [] {
        Rebuild(order);
      }
    }
  }

  lemma AllHome(rows: Rows, turns: Turns, facets: set<Facet>, scan: seq<string>)
    requires Scans(scan, rows)
    ensures var after := MoveRows(rows, Repairs(rows, facets, scan));
            forall r | r in rows :: r in after && BelongsTo(facets, r, rows[r].session, after[r].session)
  {
    forall r | r in rows
      ensures var after := MoveRows(rows, Repairs(rows, facets, scan));
              r in after && BelongsTo(facets, r, rows[r].session, after[r].session)
    {
      RepairedByFacets(rows, turns, facets, scan, r);
    }
  }
}
