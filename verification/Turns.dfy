/** Grouping a session's requests into human turns (internal/archive/turns.go). */
module Turns {
  import opened Types

  /** One row of the session, in (started_at, id) order. `normalized` and `text` are the two
      readings of its stored summary. */
  datatype Row = Row(
    request: string, explicitId: string, normalized: string, text: string, startedAt: string, completedAt: string)

  datatype Group = Group(
    turnId: string, userText: string, requests: nat, firstAt: string, lastAt: string,
    requestIds: seq<string>, explicitId: string, normalized: string)

  // ----- The loop body -----

  /** The switch of sessionTurnGroups. */
  predicate StartsNew(g: Group, row: Row) {
    if row.explicitId != "" && g.explicitId != "" then row.explicitId != g.explicitId
    else row.normalized != "" && g.normalized != "" && row.normalized != g.normalized
  }

  function Opened(derived: string -> string, row: Row): Group {
    Group(
      if row.explicitId == "" then derived(row.request) else row.explicitId,
      row.text, 0, row.startedAt, row.completedAt, [], row.explicitId, row.normalized)
  }

  function Joined(g: Group, row: Row): Group {
    var named := g.explicitId == "" && row.explicitId != "";
    var worded := g.normalized == "" && row.normalized != "";
    Group(
      if named then row.explicitId else g.turnId,
      if worded then row.text else g.userText,
      g.requests + 1, g.firstAt, row.completedAt, g.requestIds + [row.request],
      if named then row.explicitId else g.explicitId,
      if worded then row.normalized else g.normalized)
  }

  // ----- What a group says about its members -----

  function FirstExplicit(rows: seq<Row>): string {
    if rows == [] then ""
    else
      var before := FirstExplicit(rows[..|rows| - 1]);
      if before != "" then before else rows[|rows| - 1].explicitId
  }

  function FirstNormalized(rows: seq<Row>): string {
    if rows == [] then ""
    else
      var before := FirstNormalized(rows[..|rows| - 1]);
      if before != "" then before else rows[|rows| - 1].normalized
  }

  /** The text of the first member with a normalized summary, else of the first member. */
  function FirstText(rows: seq<Row>): string
    requires rows != []
  {
    if |rows| == 1 then rows[0].text
    else
      var init, last := rows[..|rows| - 1], rows[|rows| - 1];
      if FirstNormalized(init) == "" && last.normalized != "" then last.text else FirstText(init)
  }

  function Requests(rows: seq<Row>): (ids: seq<string>)
    ensures |ids| == |rows| && forall i | 0 <= i < |rows| :: ids[i] == rows[i].request
  {
    if rows == [] then [] else Requests(rows[..|rows| - 1]) + [rows[|rows| - 1].request]
  }

  function Describe(derived: string -> string, rows: seq<Row>): Group
    requires rows != []
  {
    Group(
      if FirstExplicit(rows) == "" then derived(rows[0].request) else FirstExplicit(rows),
      FirstText(rows), |rows|, rows[0].startedAt, rows[|rows| - 1].completedAt,
      Requests(rows), FirstExplicit(rows), FirstNormalized(rows))
  }

  lemma DescribeOne(derived: string -> string, row: Row)
    ensures Joined(Opened(derived, row), row) == Describe(derived, [row])
  {
    var rows := [row];
    assert rows[..|rows| - 1] == [];
    assert FirstExplicit(rows) == row.explicitId && FirstNormalized(rows) == row.normalized;
    assert Requests(rows) == [row.request];
  }

  lemma DescribeMore(derived: string -> string, rows: seq<Row>, row: Row)
    requires rows != []
    ensures Joined(Describe(derived, rows), row) == Describe(derived, rows + [row])
  {
  }

  // ----- The partition -----

  /** Group number `g` is `rows[cuts[g]..cuts[g + 1]]`; none is empty and together they are
      all rows in order. */
  ghost predicate Cuts(cuts: seq<nat>, n: nat) {
    && |cuts| >= 1 && cuts[0] == 0 && cuts[|cuts| - 1] == n
    && forall g, h | 0 <= g < h < |cuts| :: cuts[g] < cuts[h]
  }

  /** Row `i` does not fit into the group that begins at `lo`. */
  ghost predicate Conflicts(rows: seq<Row>, lo: nat, i: nat)
    requires lo < i < |rows|
  {
    var explicitId, normalized := FirstExplicit(rows[lo..i]), FirstNormalized(rows[lo..i]);
    if rows[i].explicitId != "" && explicitId != "" then rows[i].explicitId != explicitId
    else rows[i].normalized != "" && normalized != "" && rows[i].normalized != normalized
  }

  ghost predicate FitsAll(rows: seq<Row>, lo: nat, hi: nat)
    requires hi <= |rows|
  {
    forall i | lo < i < hi :: !Conflicts(rows, lo, i)
  }

  /** Group `g` of the first `n` rows holds rows that fit together. */
  ghost predicate GroupFits(rows: seq<Row>, n: nat, cuts: seq<nat>, g: nat)
    requires n <= |rows| && g + 1 < |cuts|
  {
    cuts[g] < cuts[g + 1] <= n && FitsAll(rows, cuts[g], cuts[g + 1])
  }

  /** Group `g` ends because the row behind it conflicts. */
  ghost predicate GroupEnds(rows: seq<Row>, n: nat, cuts: seq<nat>, g: nat)
    requires n <= |rows| && g + 1 < |cuts|
  {
    cuts[g] < cuts[g + 1] < n && Conflicts(rows, cuts[g], cuts[g + 1])
  }

  ghost predicate GroupingOf(rows: seq<Row>, n: nat, cuts: seq<nat>)
    requires n <= |rows|
  {
    && Cuts(cuts, n)
    && (forall g: nat | g + 1 < |cuts| :: GroupFits(rows, n, cuts, g))
    && (forall g: nat | g + 2 < |cuts| :: GroupEnds(rows, n, cuts, g))
  }

  /** Every group holds rows that fit and ends where one conflicts, or at the end. */
  ghost predicate Grouping(rows: seq<Row>, cuts: seq<nat>) {
    GroupingOf(rows, |rows|, cuts)
  }

  ghost predicate GroupDescribed(derived: string -> string, rows: seq<Row>, cuts: seq<nat>, groups: seq<Group>, g: nat)
    requires g + 1 < |cuts| && g < |groups|
  {
    cuts[g] < cuts[g + 1] <= |rows| && groups[g] == Describe(derived, rows[cuts[g]..cuts[g + 1]])
  }

  ghost predicate Described(derived: string -> string, rows: seq<Row>, cuts: seq<nat>, groups: seq<Group>) {
    |groups| + 1 == |cuts| && forall g: nat | g < |groups| :: GroupDescribed(derived, rows, cuts, groups, g)
  }

  // ----- The loop -----

  lemma Begins(derived: string -> string, rows: seq<Row>)
    requires rows != []
    ensures GroupingOf(rows, 1, [0, 1]) && Described(derived, rows, [0, 1], [Joined(Opened(derived, rows[0]), rows[0])])
  {
    DescribeOne(derived, rows[0]);
    assert rows[0..1] == [rows[0]];
    var cuts := [0, 1];
    assert GroupFits(rows, 1, cuts, 0);
    assert GroupDescribed(derived, rows, cuts, [Joined(Opened(derived, rows[0]), rows[0])], 0);
  }

  /** What the running group decides is whether the row conflicts with its members. */
  lemma DecidesConflict(derived: string -> string, rows: seq<Row>, lo: nat, i: nat)
    requires lo < i < |rows|
    ensures StartsNew(Describe(derived, rows[lo..i]), rows[i]) <==> Conflicts(rows, lo, i)
  {
  }

  lemma OpensGroup(rows: seq<Row>, i: nat, cuts: seq<nat>)
    requires i < |rows| && |cuts| >= 2 && GroupingOf(rows, i, cuts) && Conflicts(rows, cuts[|cuts| - 2], i)
    ensures GroupingOf(rows, i + 1, cuts + [i + 1])
  {
    var next, n := cuts + [i + 1], i + 1;
    forall g: nat | g + 1 < |next| ensures GroupFits(rows, n, next, g) {
      if g + 1 < |cuts| { assert GroupFits(rows, i, cuts, g); }
    }
    forall g: nat | g + 2 < |next| ensures GroupEnds(rows, n, next, g) {
      if g + 2 < |cuts| { assert GroupEnds(rows, i, cuts, g); }
    }
  }

  lemma ExtendsGroup(rows: seq<Row>, i: nat, cuts: seq<nat>)
    requires i < |rows| && |cuts| >= 2 && GroupingOf(rows, i, cuts) && !Conflicts(rows, cuts[|cuts| - 2], i)
    ensures GroupingOf(rows, i + 1, cuts[|cuts| - 1 := i + 1])
  {
    var next, n := cuts[|cuts| - 1 := i + 1], i + 1;
    forall g: nat | g + 1 < |next| ensures GroupFits(rows, n, next, g) {
      assert GroupFits(rows, i, cuts, g);
    }
    forall g: nat | g + 2 < |next| ensures GroupEnds(rows, n, next, g) {
      assert GroupEnds(rows, i, cuts, g);
    }
  }

  lemma DescribesOpened(derived: string -> string, rows: seq<Row>, i: nat, cuts: seq<nat>, groups: seq<Group>)
    requires i < |rows| && |cuts| >= 2 && cuts[|cuts| - 1] == i && Described(derived, rows, cuts, groups)
    ensures Described(derived, rows, cuts + [i + 1], groups + [Joined(Opened(derived, rows[i]), rows[i])])
  {
    DescribeOne(derived, rows[i]);
    assert rows[i..i + 1] == [rows[i]];
    var next, all := cuts + [i + 1], groups + [Joined(Opened(derived, rows[i]), rows[i])];
    forall g: nat | g < |all| ensures GroupDescribed(derived, rows, next, all, g) {
      if g < |groups| { assert GroupDescribed(derived, rows, cuts, groups, g); }
    }
  }

  lemma LastReplaced(derived: string -> string, rows: seq<Row>, cuts: seq<nat>, groups: seq<Group>, end: nat,
                     joined: Group)
    requires Described(derived, rows, cuts, groups) && |cuts| >= 2 && cuts[|cuts| - 2] < end <= |rows|
    requires joined == Describe(derived, rows[cuts[|cuts| - 2]..end])
    ensures Described(derived, rows, cuts[|cuts| - 1 := end], groups[|groups| - 1 := joined])
  {
    var next, all := cuts[|cuts| - 1 := end], groups[|groups| - 1 := joined];
    forall g: nat | g < |all| ensures GroupDescribed(derived, rows, next, all, g) {
      assert GroupDescribed(derived, rows, cuts, groups, g);
    }
  }

  lemma DescribesJoined(derived: string -> string, rows: seq<Row>, i: nat, cuts: seq<nat>, groups: seq<Group>)
    requires i < |rows| && |cuts| >= 2 && cuts[|cuts| - 1] == i && Described(derived, rows, cuts, groups)
    ensures Described(derived, rows, cuts[|cuts| - 1 := i + 1],
                      groups[|groups| - 1 := Joined(groups[|groups| - 1], rows[i])])
  {
    var lo := cuts[|cuts| - 2];
    assert GroupDescribed(derived, rows, cuts, groups, |groups| - 1);
    DescribeMore(derived, rows[lo..i], rows[i]);
    assert rows[lo..i + 1] == rows[lo..i] + [rows[i]];
    var joined := Joined(groups[|groups| - 1], rows[i]);
    assert joined == Describe(derived, rows[lo..i + 1]);
    LastReplaced(derived, rows, cuts, groups, i + 1, joined);
  }

  /** The groups so far and the cuts they stand for. */
  ghost predicate Grouped(derived: string -> string, rows: seq<Row>, i: nat, groups: seq<Group>, cuts: seq<nat>)
    requires i <= |rows|
  {
    GroupingOf(rows, i, cuts) && Described(derived, rows, cuts, groups)
  }

  lemma RowOpens(derived: string -> string, rows: seq<Row>, i: nat, groups: seq<Group>, cuts: seq<nat>)
    requires i < |rows| && Grouped(derived, rows, i, groups, cuts) && groups != []
    ensures StartsNew(groups[|groups| - 1], rows[i]) ==>
              Grouped(derived, rows, i + 1, groups + [Joined(Opened(derived, rows[i]), rows[i])], cuts + [i + 1])
  {
    assert GroupDescribed(derived, rows, cuts, groups, |groups| - 1);
    DecidesConflict(derived, rows, cuts[|cuts| - 2], i);
    if Conflicts(rows, cuts[|cuts| - 2], i) {
      OpensGroup(rows, i, cuts);
      DescribesOpened(derived, rows, i, cuts, groups);
    }
  }

  lemma RowJoins(derived: string -> string, rows: seq<Row>, i: nat, groups: seq<Group>, cuts: seq<nat>)
    requires i < |rows| && Grouped(derived, rows, i, groups, cuts) && groups != []
    ensures !StartsNew(groups[|groups| - 1], rows[i]) ==>
              Grouped(derived, rows, i + 1, groups[|groups| - 1 := Joined(groups[|groups| - 1], rows[i])],
                      cuts[|cuts| - 1 := i + 1])
  {
    assert GroupDescribed(derived, rows, cuts, groups, |groups| - 1);
    DecidesConflict(derived, rows, cuts[|cuts| - 2], i);
    if !Conflicts(rows, cuts[|cuts| - 2], i) {
      ExtendsGroup(rows, i, cuts);
      DescribesJoined(derived, rows, i, cuts, groups);
    }
  }

  lemma NoneYet(derived: string -> string, rows: seq<Row>, i: nat, cuts: seq<nat>)
    requires i <= |rows| && Grouped(derived, rows, i, [], cuts)
    ensures i == 0
  {
  }

  /** Where the groups begin and end, by their sizes. */
  function CutsOf(groups: seq<Group>): (cuts: seq<nat>)
    ensures |cuts| == |groups| + 1
  {
    if groups == [] then [0]
    else
      var before := CutsOf(groups[..|groups| - 1]);
      before + [before[|before| - 1] + groups[|groups| - 1].requests]
  }

  lemma {:induction false} SizesGiveCuts(derived: string -> string, rows: seq<Row>, cuts: seq<nat>,
                                         groups: seq<Group>, g: nat)
    requires Described(derived, rows, cuts, groups) && cuts[0] == 0 && g <= |groups|
    ensures CutsOf(groups[..g]) == cuts[..g + 1]
    decreases g
  {
    if g > 0 {
      assert groups[..g][..g - 1] == groups[..g - 1];
      SizesGiveCuts(derived, rows, cuts, groups, g - 1);
      assert GroupDescribed(derived, rows, cuts, groups, g - 1);
      assert cuts[..g + 1] == cuts[..g] + [cuts[g]];
    }
  }

  /** sessionTurnGroups over the rows of one session. */
  method SessionTurnGroups(derived: string -> string, rows: seq<Row>) returns (groups: seq<Group>)
    ensures Grouping(rows, CutsOf(groups)) && Described(derived, rows, CutsOf(groups), groups)
  {
    ghost var cuts;
    groups, cuts := GroupRows(derived, rows);
    SizesGiveCuts(derived, rows, cuts, groups, |groups|);
    assert groups[..|groups|] == groups && cuts[..|cuts|] == cuts;
  }

  method GroupRows(derived: string -> string, rows: seq<Row>) returns (groups: seq<Group>, ghost cuts: seq<nat>)
    ensures Grouped(derived, rows, |rows|, groups, cuts)
  {
    groups, cuts := [], [0];
    for i := 0 to |rows|
      invariant Grouped(derived, rows, i, groups, cuts)
    {
      groups, cuts := AddRow(derived, rows, i, groups, cuts);
    }
  }

  /** One row opens a group or joins the last one. */
  method AddRow(derived: string -> string, rows: seq<Row>, i: nat, before: seq<Group>, ghost cutsBefore: seq<nat>)
    returns (groups: seq<Group>, ghost cuts: seq<nat>)
    requires i < |rows| && Grouped(derived, rows, i, before, cutsBefore)
    ensures Grouped(derived, rows, i + 1, groups, cuts)
  {
    var row := rows[i];
    if before == [] {
      NoneYet(derived, rows, i, cutsBefore);
      Begins(derived, rows);
      groups, cuts := [Joined(Opened(derived, row), row)], [0, 1];
    } else if StartsNew(before[|before| - 1], row) {
      RowOpens(derived, rows, i, before, cutsBefore);
      groups, cuts := before + [Joined(Opened(derived, row), row)], cutsBefore + [i + 1];
    } else {
      RowJoins(derived, rows, i, before, cutsBefore);
      groups := before[|before| - 1 := Joined(before[|before| - 1], row)];
      cuts := cutsBefore[|cutsBefore| - 1 := i + 1];
    }
  }

  // ----- What the partition promises -----

  lemma {:induction false} FirstExplicitAt(rows: seq<Row>)
    ensures FirstExplicit(rows) == "" <==> forall i | 0 <= i < |rows| :: rows[i].explicitId == ""
    decreases |rows|
  {
    if rows != [] {
      FirstExplicitAt(rows[..|rows| - 1]);
      assert rows == rows[..|rows| - 1] + [rows[|rows| - 1]];
    }
  }

  /** All explicit ids inside a group agree. */
  lemma {:induction false} ExplicitAgrees(rows: seq<Row>, lo: nat, hi: nat, i: nat)
    requires lo < hi <= |rows| && FitsAll(rows, lo, hi) && lo <= i < hi
    ensures rows[i].explicitId == "" || rows[i].explicitId == FirstExplicit(rows[lo..hi])
    decreases hi
  {
    var init := rows[lo..hi - 1];
    assert rows[lo..hi][..hi - lo - 1] == init;
    if i == hi - 1 {
      if lo < i { assert !Conflicts(rows, lo, i); }
    } else {
      ExplicitAgrees(rows, lo, hi - 1, i);
      if rows[i].explicitId != "" {
        FirstExplicitAt(init);
        assert init[i - lo] == rows[i];
      }
    }
  }

  lemma {:induction false} FirstNormalizedAt(rows: seq<Row>)
    ensures FirstNormalized(rows) == "" <==> forall i | 0 <= i < |rows| :: rows[i].normalized == ""
    decreases |rows|
  {
    if rows != [] {
      FirstNormalizedAt(rows[..|rows| - 1]);
      assert rows == rows[..|rows| - 1] + [rows[|rows| - 1]];
    }
  }

  /** A member without an explicit id has no summary or the group's summary. */
  lemma {:induction false} SummaryAgrees(rows: seq<Row>, lo: nat, hi: nat, i: nat)
    requires lo < hi <= |rows| && FitsAll(rows, lo, hi) && lo <= i < hi && rows[i].explicitId == ""
    ensures rows[i].normalized == "" || rows[i].normalized == FirstNormalized(rows[lo..hi])
    decreases hi
  {
    var init := rows[lo..hi - 1];
    assert rows[lo..hi][..hi - lo - 1] == init;
    if i == hi - 1 {
      if lo < i { assert !Conflicts(rows, lo, i); }
    } else {
      SummaryAgrees(rows, lo, hi - 1, i);
      if rows[i].normalized != "" {
        FirstNormalizedAt(init);
        assert init[i - lo] == rows[i];
      }
    }
  }

  /** The two laws for a listed group: its turn id is the explicit id of every member that has
      one, and members without one share its summary. */
  lemma MembersAgree(derived: string -> string, rows: seq<Row>, cuts: seq<nat>, groups: seq<Group>, g: nat, i: nat)
    requires Grouping(rows, cuts) && Described(derived, rows, cuts, groups)
    requires g < |groups| && cuts[g] <= i < cuts[g + 1] && i < |rows|
    ensures rows[i].explicitId != "" ==> groups[g].explicitId == groups[g].turnId == rows[i].explicitId
    ensures rows[i].explicitId == "" ==> rows[i].normalized == "" || rows[i].normalized == groups[g].normalized
  {
    assert GroupFits(rows, |rows|, cuts, g) && GroupDescribed(derived, rows, cuts, groups, g);
    ExplicitAgrees(rows, cuts[g], cuts[g + 1], i);
    if rows[i].explicitId == "" { SummaryAgrees(rows, cuts[g], cuts[g + 1], i); }
  }

  // ----- The same in plain terms -----

  /** Row `w` is the first of the rows from `lo` up to `i` that has an explicit id. */
  ghost predicate FirstNamed(rows: seq<Row>, lo: nat, i: nat, w: nat)
    requires i <= |rows|
  {
    lo <= w < i && rows[w].explicitId != "" && forall k | lo <= k < w :: rows[k].explicitId == ""
  }

  /** Row `w` is the first of them that has a summary. */
  ghost predicate FirstWorded(rows: seq<Row>, lo: nat, i: nat, w: nat)
    requires i <= |rows|
  {
    lo <= w < i && rows[w].normalized != "" && forall k | lo <= k < w :: rows[k].normalized == ""
  }

  lemma {:induction false} NamedIs(rows: seq<Row>, lo: nat, i: nat)
    requires lo <= i <= |rows|
    ensures FirstExplicit(rows[lo..i]) == "" ==> forall k | lo <= k < i :: rows[k].explicitId == ""
    ensures FirstExplicit(rows[lo..i]) != "" ==>
              exists w: nat :: FirstNamed(rows, lo, i, w) && rows[w].explicitId == FirstExplicit(rows[lo..i])
    decreases i
  {
    if lo < i {
      var p := i - 1;
      NamedIs(rows, lo, p);
      assert rows[lo..i][..|rows[lo..i]| - 1] == rows[lo..p];
      if FirstExplicit(rows[lo..p]) != "" {
        var w: nat :| FirstNamed(rows, lo, p, w) && rows[w].explicitId == FirstExplicit(rows[lo..p]);
        assert FirstNamed(rows, lo, i, w);
      } else if rows[p].explicitId != "" {
        assert FirstNamed(rows, lo, i, p);
      }
    }
  }

  lemma {:induction false} WordedIs(rows: seq<Row>, lo: nat, i: nat)
    requires lo <= i <= |rows|
    ensures FirstNormalized(rows[lo..i]) == "" ==> forall k | lo <= k < i :: rows[k].normalized == ""
    ensures FirstNormalized(rows[lo..i]) != "" ==>
              exists w: nat :: FirstWorded(rows, lo, i, w) && rows[w].normalized == FirstNormalized(rows[lo..i])
    decreases i
  {
    if lo < i {
      var p := i - 1;
      WordedIs(rows, lo, p);
      assert rows[lo..i][..|rows[lo..i]| - 1] == rows[lo..p];
      if FirstNormalized(rows[lo..p]) != "" {
        var w: nat :| FirstWorded(rows, lo, p, w) && rows[w].normalized == FirstNormalized(rows[lo..p]);
        assert FirstWorded(rows, lo, i, w);
      } else if rows[p].normalized != "" {
        assert FirstWorded(rows, lo, i, p);
      }
    }
  }

  lemma FirstIsOne(rows: seq<Row>, lo: nat, i: nat, v: nat, w: nat)
    requires i <= |rows|
    ensures FirstNamed(rows, lo, i, v) && FirstNamed(rows, lo, i, w) ==> v == w
    ensures FirstWorded(rows, lo, i, v) && FirstWorded(rows, lo, i, w) ==> v == w
  {
  }

  /** A row does not fit into the group that begins at `lo` if and only if: where both the row and
      the group have an explicit id, the group's first one is another; otherwise, both have a
      summary and the group's first one is another. */
  lemma ConflictExactly(rows: seq<Row>, lo: nat, i: nat)
    requires lo < i < |rows|
    ensures Conflicts(rows, lo, i) <==>
            if rows[i].explicitId != "" && exists w: nat :: FirstNamed(rows, lo, i, w)
            then exists w: nat :: FirstNamed(rows, lo, i, w) && rows[w].explicitId != rows[i].explicitId
            else rows[i].normalized != ""
                 && exists w: nat :: FirstWorded(rows, lo, i, w) && rows[w].normalized != rows[i].normalized
  {
    NamedIs(rows, lo, i);
    WordedIs(rows, lo, i);
    forall v: nat, w: nat
      ensures FirstNamed(rows, lo, i, v) && FirstNamed(rows, lo, i, w) ==> v == w
      ensures FirstWorded(rows, lo, i, v) && FirstWorded(rows, lo, i, w) ==> v == w
    {
      FirstIsOne(rows, lo, i, v, w);
    }
  }

  lemma {:induction false} TextIs(rows: seq<Row>, lo: nat, i: nat)
    requires lo < i <= |rows|
    ensures (forall k | lo <= k < i :: rows[k].normalized == "") ==> FirstText(rows[lo..i]) == rows[lo].text
    ensures forall w: nat | FirstWorded(rows, lo, i, w) :: FirstText(rows[lo..i]) == rows[w].text
    decreases i
  {
    var p := i - 1;
    assert rows[lo..i][..|rows[lo..i]| - 1] == rows[lo..p];
    if lo < p {
      TextIs(rows, lo, p);
      WordedIs(rows, lo, p);
      forall w: nat | FirstWorded(rows, lo, i, w) ensures FirstText(rows[lo..i]) == rows[w].text {
        if w < p { assert FirstWorded(rows, lo, p, w); }
      }
    }
  }

  /** A listed turn, told from its rows: it spans them, counts them, lists them, shows the text of
      the first with a summary, else of the first, and is named by the first explicit id, else
      after its first request. */
  lemma GroupTells(derived: string -> string, rows: seq<Row>, cuts: seq<nat>, groups: seq<Group>, g: nat)
    requires Grouping(rows, cuts) && Described(derived, rows, cuts, groups) && g < |groups|
    ensures cuts[g] < cuts[g + 1] <= |rows|
    ensures var lo, hi, turn := cuts[g], cuts[g + 1], groups[g];
            && turn.firstAt == rows[lo].startedAt && turn.lastAt == rows[hi - 1].completedAt
            && turn.requests == hi - lo == |turn.requestIds|
            && (forall k | 0 <= k < hi - lo :: turn.requestIds[k] == rows[lo + k].request)
            && ((forall k | lo <= k < hi :: rows[k].normalized == "") ==> turn.userText == rows[lo].text)
            && (forall w: nat | FirstWorded(rows, lo, hi, w) :: turn.userText == rows[w].text)
            && ((forall k | lo <= k < hi :: rows[k].explicitId == "") ==> turn.turnId == derived(rows[lo].request))
            && (forall w: nat | FirstNamed(rows, lo, hi, w) :: turn.turnId == rows[w].explicitId)
  {
    assert GroupDescribed(derived, rows, cuts, groups, g);
    var lo, hi := cuts[g], cuts[g + 1];
    TextIs(rows, lo, hi);
    NamedIs(rows, lo, hi);
    forall w: nat | FirstNamed(rows, lo, hi, w) ensures groups[g].turnId == rows[w].explicitId {
      if v: nat :| FirstNamed(rows, lo, hi, v) && rows[v].explicitId == FirstExplicit(rows[lo..hi]) {
        FirstIsOne(rows, lo, hi, v, w);
      }
    }
  }

  /** Every boundary has a witness in the group before it: an explicit id or a summary that
      contradicts the row's own. */
  lemma BoundaryWitness(rows: seq<Row>, lo: nat, i: nat) returns (w: nat)
    requires lo < i < |rows| && Conflicts(rows, lo, i)
    ensures lo <= w < i
    ensures || (rows[w].explicitId != "" && rows[i].explicitId != "" && rows[w].explicitId != rows[i].explicitId)
            || (rows[w].normalized != "" && rows[i].normalized != "" && rows[w].normalized != rows[i].normalized
                && (rows[i].explicitId == "" || forall k | lo <= k < i :: rows[k].explicitId == ""))
  {
    var before := rows[lo..i];
    if rows[i].explicitId != "" && FirstExplicit(before) != "" {
      var k := FirstExplicitIndex(before);
      w := lo + k;
    } else {
      NamedIs(rows, lo, i);
      var k := FirstNormalizedIndex(before);
      w := lo + k;
    }
  }

  lemma {:induction false} FirstExplicitIndex(rows: seq<Row>) returns (k: nat)
    requires FirstExplicit(rows) != ""
    ensures k < |rows| && rows[k].explicitId == FirstExplicit(rows)
    decreases |rows|
  {
    if FirstExplicit(rows[..|rows| - 1]) != "" {
      k := FirstExplicitIndex(rows[..|rows| - 1]);
    } else {
      k := |rows| - 1;
    }
  }

  lemma {:induction false} FirstNormalizedIndex(rows: seq<Row>) returns (k: nat)
    requires FirstNormalized(rows) != ""
    ensures k < |rows| && rows[k].normalized == FirstNormalized(rows)
    decreases |rows|
  {
    if FirstNormalized(rows[..|rows| - 1]) != "" {
      k := FirstNormalizedIndex(rows[..|rows| - 1]);
    } else {
      k := |rows| - 1;
    }
  }

  /** The grouping is determined by the rows. */
  lemma {:induction false} CutsAgree(rows: seq<Row>, a: seq<nat>, b: seq<nat>, g: nat)
    requires Grouping(rows, a) && Grouping(rows, b) && g < |a| && g < |b|
    ensures a[g] == b[g]
    decreases g
  {
    if g > 0 {
      CutsAgree(rows, a, b, g - 1);
      NextCut(rows, a, b, g - 1);
      NextCut(rows, b, a, g - 1);
    }
  }

  lemma NextCut(rows: seq<Row>, a: seq<nat>, b: seq<nat>, g: nat)
    requires Grouping(rows, a) && Grouping(rows, b) && g + 1 < |a| && g + 1 < |b| && a[g] == b[g]
    ensures a[g + 1] >= b[g + 1]
  {
    assert GroupFits(rows, |rows|, b, g);
    if g + 2 < |a| { assert GroupEnds(rows, |rows|, a, g); }
  }

  lemma GroupingUnique(rows: seq<Row>, a: seq<nat>, b: seq<nat>)
    requires Grouping(rows, a) && Grouping(rows, b)
    ensures a == b
  {
    var n := if |a| < |b| then |a| else |b|;
    forall g | 0 <= g < n ensures a[g] == b[g] {
      CutsAgree(rows, a, b, g);
    }
  }

  /** The members of the groups, in order, are all requests of the session. */
  function AllRequests(groups: seq<Group>): seq<string> {
    if groups == [] then [] else AllRequests(groups[..|groups| - 1]) + groups[|groups| - 1].requestIds
  }

  lemma RequestsOfParts(rows: seq<Row>, m: nat, n: nat)
    requires m <= n <= |rows|
    ensures Requests(rows[..n]) == Requests(rows[..m]) + Requests(rows[m..n])
  {
  }

  lemma {:induction false} GroupsCoverPrefix(derived: string -> string, rows: seq<Row>, cuts: seq<nat>,
                                             groups: seq<Group>, g: nat)
    requires Grouping(rows, cuts) && Described(derived, rows, cuts, groups) && g <= |groups|
    ensures cuts[g] <= |rows| && AllRequests(groups[..g]) == Requests(rows[..cuts[g]])
    decreases g
  {
    if g > 0 {
      GroupsCoverPrefix(derived, rows, cuts, groups, g - 1);
      assert groups[..g][..g - 1] == groups[..g - 1];
      assert GroupDescribed(derived, rows, cuts, groups, g - 1);
      RequestsOfParts(rows, cuts[g - 1], cuts[g]);
    }
  }

  /** An ordered partition: every request once, in order, no group empty. */
  lemma GroupsPartition(derived: string -> string, rows: seq<Row>, cuts: seq<nat>, groups: seq<Group>)
    requires Grouping(rows, cuts) && Described(derived, rows, cuts, groups)
    ensures AllRequests(groups) == Requests(rows)
    ensures forall g: nat | g < |groups| :: groups[g].requestIds != [] && groups[g].requests == |groups[g].requestIds|
  {
    GroupsCoverPrefix(derived, rows, cuts, groups, |groups|);
    assert groups[..|groups|] == groups && rows[..|rows|] == rows;
    forall g: nat | g < |groups| ensures groups[g].requestIds != [] && groups[g].requests == |groups[g].requestIds| {
      assert GroupDescribed(derived, rows, cuts, groups, g);
    }
  }

  // ----- Pages -----

  function Backwards(s: seq<Group>): (r: seq<Group>)
    ensures |r| == |s| && forall i | 0 <= i < |s| :: r[i] == s[|s| - 1 - i]
  {
    seq(|s|, i requires 0 <= i < |s| => s[|s| - 1 - i])
  }

  /** The swap loop of a descending page. */
  method Reverse(groups: array<Group>)
    modifies groups
    ensures groups[..] == Backwards(old(groups[..]))
  {
    var left, right := 0, groups.Length - 1;
    while left < right
      invariant 0 <= left <= groups.Length && right == groups.Length - 1 - left
      invariant left <= right + 1
      invariant forall i | left <= i <= right :: groups[i] == old(groups[i])
      invariant forall i | 0 <= i < left || right < i < groups.Length :: groups[i] == old(groups[groups.Length - 1 - i])
    {
      groups[left], groups[right] := groups[right], groups[left];
      left, right := left + 1, right - 1;
    }
  }

  function Page(listed: seq<Group>, limit: nat, offset: nat): seq<Group> {
    if offset >= |listed| then []
    else listed[offset..if offset + limit > |listed| then |listed| else offset + limit]
  }

  /** SessionTurnPage: the total and one page in either order. */
  method SessionTurnPage(groups: array<Group>, limit: nat, offset: nat, descending: bool)
    returns (turns: seq<Group>, total: nat)
    modifies groups
    ensures total == groups.Length
    ensures turns == Page(if descending then Backwards(old(groups[..])) else old(groups[..]), limit, offset)
  {
    if descending {
      Reverse(groups);
    }
    total := groups.Length;
    if offset >= groups.Length {
      return [], total;
    }
    var end := offset + limit;
    if end > groups.Length {
      end := groups.Length;
    }
    turns := groups[offset..end];
    assert turns == groups[..][offset..end];
  }

  function Pages(listed: seq<Group>, limit: nat, count: nat): seq<Group> {
    if count == 0 then [] else Pages(listed, limit, count - 1) + Page(listed, limit, (count - 1) * limit)
  }

  lemma PageExtends(listed: seq<Group>, limit: nat, offset: nat)
    ensures (if offset >= |listed| then listed else listed[..offset]) + Page(listed, limit, offset) ==
            if offset + limit >= |listed| then listed else listed[..offset + limit]
  {
  }

  /** Consecutive pages show every listed group once. */
  lemma {:induction false} PagesCover(listed: seq<Group>, limit: nat, count: nat)
    requires limit >= 1
    ensures Pages(listed, limit, count) == if count * limit >= |listed| then listed else listed[..count * limit]
    decreases count
  {
    if count > 0 {
      PagesCover(listed, limit, count - 1);
      var offset := (count - 1) * limit;
      assert count * limit == offset + limit;
      PageExtends(listed, limit, offset);
    }
  }

  /** Newest first is the same list backwards, so both orders show the same groups. */
  lemma DescendingIsReversed(listed: seq<Group>, limit: nat, count: nat)
    requires limit >= 1 && count * limit >= |listed|
    ensures Pages(Backwards(listed), limit, count) == Backwards(Pages(listed, limit, count))
  {
    PagesCover(listed, limit, count);
    PagesCover(Backwards(listed), limit, count);
  }

  // ----- Opening one turn by its id -----

  /** SessionTurnDetail takes the first group with the id. */
  method FindTurn(groups: seq<Group>, turnId: string) returns (found: Option<nat>)
    ensures found.None? <==> forall g | 0 <= g < |groups| :: groups[g].turnId != turnId
    ensures found.Some? ==> found.value < |groups| && groups[found.value].turnId == turnId
    ensures found.Some? ==> forall g | 0 <= g < found.value :: groups[g].turnId != turnId
  {
    for g := 0 to |groups|
      invariant forall h | 0 <= h < g :: groups[h].turnId != turnId
    {
      if groups[g].turnId == turnId {
        return Some(g);
      }
    }
    found := None;
  }

  /** The group that opening turn id `turnId` shows. */
  ghost predicate Opens(groups: seq<Group>, turnId: string, g: nat) {
    g < |groups| && groups[g].turnId == turnId && forall h | 0 <= h < g :: groups[h].turnId != turnId
  }

  lemma {:induction false} GroupAt(cuts: seq<nat>, i: nat, g: nat) returns (h: nat)
    requires 0 < g < |cuts| && (forall a, b | 0 <= a < b < |cuts| :: cuts[a] < cuts[b]) && cuts[0] <= i < cuts[g]
    ensures h < g && cuts[h] <= i < cuts[h + 1]
    decreases g
  {
    if cuts[g - 1] <= i { h := g - 1; } else { h := GroupAt(cuts, i, g - 1); }
  }

  ghost predicate SameGroup(cuts: seq<nat>, i: nat, j: nat) {
    forall g | 0 <= g < |cuts| :: !(i < cuts[g] <= j)
  }

  /** Derived ids tell requests apart and never look like an explicit id. */
  ghost predicate ProperIds(derived: string -> string, rows: seq<Row>) {
    && (forall i, j | 0 <= i < j < |rows| :: derived(rows[i].request) != derived(rows[j].request))
    && (forall i, j | 0 <= i < |rows| && 0 <= j < |rows| && rows[j].explicitId != "" ::
          derived(rows[i].request) != rows[j].explicitId)
  }

  /** No explicit id occurs in two groups. */
  ghost predicate IdsStayTogether(rows: seq<Row>, cuts: seq<nat>) {
    forall i, j | 0 <= i < j < |rows| && rows[i].explicitId != "" && rows[i].explicitId == rows[j].explicitId ::
      SameGroup(cuts, i, j)
  }

  /** The row that gives a group its id. */
  lemma NamingRow(derived: string -> string, rows: seq<Row>, cuts: seq<nat>, groups: seq<Group>, g: nat)
    returns (i: nat)
    requires Grouping(rows, cuts) && Described(derived, rows, cuts, groups) && g < |groups|
    ensures cuts[g] <= i < cuts[g + 1] <= |rows|
    ensures groups[g].turnId == if groups[g].explicitId == "" then derived(rows[i].request) else rows[i].explicitId
    ensures groups[g].explicitId == rows[i].explicitId
  {
    assert GroupDescribed(derived, rows, cuts, groups, g);
    var members := rows[cuts[g]..cuts[g + 1]];
    if FirstExplicit(members) == "" {
      i := cuts[g];
      FirstExplicitAt(members);
      assert members[0] == rows[i];
    } else {
      var k := FirstExplicitIndex(members);
      i := cuts[g] + k;
    }
  }

  lemma DifferentIds(derived: string -> string, rows: seq<Row>, cuts: seq<nat>, groups: seq<Group>, g: nat, h: nat)
    requires Grouping(rows, cuts) && Described(derived, rows, cuts, groups) && ProperIds(derived, rows)
    requires IdsStayTogether(rows, cuts) && g < h < |groups|
    ensures groups[g].turnId != groups[h].turnId
  {
    var i := NamingRow(derived, rows, cuts, groups, g);
    var j := NamingRow(derived, rows, cuts, groups, h);
    assert cuts[g + 1] <= cuts[h];
    assert i < cuts[h] <= j;
    assert !SameGroup(cuts, i, j);
  }

  lemma LaterGroup(cuts: seq<nat>, g: nat, h: nat, m: nat, i: nat, j: nat)
    requires forall a, b | 0 <= a < b < |cuts| :: cuts[a] < cuts[b]
    requires g + 1 < |cuts| && h + 1 < |cuts| && m < |cuts|
    requires cuts[g] <= i < cuts[m] <= j < cuts[h + 1]
    ensures g < h
  {
    assert g < m && m < h + 1;
  }

  lemma ApartIsHidden(derived: string -> string, rows: seq<Row>, cuts: seq<nat>, groups: seq<Group>, i: nat, j: nat)
    returns (h: nat)
    requires Grouping(rows, cuts) && Described(derived, rows, cuts, groups)
    requires i < j < |rows| && rows[i].explicitId != "" && rows[i].explicitId == rows[j].explicitId
    requires !SameGroup(cuts, i, j)
    ensures h < |groups| && !Opens(groups, groups[h].turnId, h)
  {
    var m :| 0 <= m < |cuts| && i < cuts[m] <= j;
    var g := GroupAt(cuts, i, |cuts| - 1);
    h := GroupAt(cuts, j, |cuts| - 1);
    LaterGroup(cuts, g, h, m, i, j);
    MembersAgree(derived, rows, cuts, groups, g, i);
    MembersAgree(derived, rows, cuts, groups, h, j);
    assert groups[g].turnId == groups[h].turnId;
  }

  /** Every listed turn opens as itself if and only if no explicit id occurs in two groups. */
  lemma OpensItself(derived: string -> string, rows: seq<Row>, cuts: seq<nat>, groups: seq<Group>)
    requires Grouping(rows, cuts) && Described(derived, rows, cuts, groups) && ProperIds(derived, rows)
    ensures (forall g: nat | g < |groups| :: Opens(groups, groups[g].turnId, g)) <==> IdsStayTogether(rows, cuts)
  {
    if IdsStayTogether(rows, cuts) {
      forall g, h | 0 <= g < h < |groups| ensures groups[g].turnId != groups[h].turnId {
        DifferentIds(derived, rows, cuts, groups, g, h);
      }
    }
    if forall g: nat | g < |groups| :: Opens(groups, groups[g].turnId, g) {
      forall i, j | 0 <= i < j < |rows| && rows[i].explicitId != "" && rows[i].explicitId == rows[j].explicitId
        ensures SameGroup(cuts, i, j)
      {
        if !SameGroup(cuts, i, j) {
          var h := ApartIsHidden(derived, rows, cuts, groups, i, j);
        }
      }
    }
  }

  /** Explicit ids a, b, a make three groups, two of them named a: the last never opens. */
  lemma RepeatedTurnId(derived: string -> string) returns (rows: seq<Row>, groups: seq<Group>)
    ensures Grouping(rows, [0, 1, 2, 3]) && Described(derived, rows, [0, 1, 2, 3], groups)
    ensures |groups| == 3 && !Opens(groups, groups[2].turnId, 2)
  {
    rows := [Row("1", "a", "", "", "", ""), Row("2", "b", "", "", "", ""), Row("3", "a", "", "", "", "")];
    var cuts := [0, 1, 2, 3];
    assert rows[0..1] == [rows[0]] && rows[1..2] == [rows[1]] && rows[2..3] == [rows[2]];
    SingleExplicit(rows[0]);
    SingleExplicit(rows[1]);
    SingleExplicit(rows[2]);
    assert GroupEnds(rows, 3, cuts, 0) && GroupEnds(rows, 3, cuts, 1);
    assert GroupFits(rows, 3, cuts, 0) && GroupFits(rows, 3, cuts, 1) && GroupFits(rows, 3, cuts, 2);
    groups := [Describe(derived, [rows[0]]), Describe(derived, [rows[1]]), Describe(derived, [rows[2]])];
    assert GroupDescribed(derived, rows, cuts, groups, 0) && GroupDescribed(derived, rows, cuts, groups, 1)
           && GroupDescribed(derived, rows, cuts, groups, 2);
    assert groups[0].turnId == "a" && groups[2].turnId == "a";
  }

  lemma SingleExplicit(row: Row)
    ensures FirstExplicit([row]) == row.explicitId && FirstNormalized([row]) == row.normalized
  {
  }
}
