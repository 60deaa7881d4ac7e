/** Paging through a stable snapshot by cursors (internal/archive/snapshot.go). */
module SnapshotPages {
  import opened Types
  import opened SnapshotBegin

  /** The position after which a page starts: the last item of the page before it. */
  datatype Position = Position(lastAt: int, session: string)

  datatype PageResult = PageResult(items: seq<Summary>, next: Option<Summary>)

  predicate IsAt(item: Summary, at: Position) {
    item.lastAt == at.lastAt && item.session == at.session
  }

  function Find(sessions: seq<Summary>, at: Position): (i: nat)
    ensures i <= |sessions| && (i < |sessions| ==> IsAt(sessions[i], at))
    ensures forall j | 0 <= j < i :: !IsAt(sessions[j], at)
  {
    if sessions == [] || IsAt(sessions[0], at) then 0 else 1 + Find(sessions[1..], at)
  }

  /** Page of an open snapshot; None is the cursor error. */
  function PageOf(sessions: seq<Summary>, after: Option<Position>, limit: int): Option<PageResult> {
    if limit < 1 || (after.Some? && Find(sessions, after.value) == |sessions|) then None
    else Some(PageFrom(sessions, StartOf(sessions, after), limit))
  }

  function StartOf(sessions: seq<Summary>, after: Option<Position>): nat {
    if after.Some? then Find(sessions, after.value) + 1 else 0
  }

  function PageFrom(sessions: seq<Summary>, start: nat, limit: int): PageResult
    requires limit >= 1 && start <= |sessions|
  {
    var end := if start + limit > |sessions| then |sessions| else start + limit;
    PageResult(sessions[start..end], if end == |sessions| then None else Some(sessions[end - 1]))
  }

  class StableSessionSnapshot {
    const sessions: seq<Summary>
    var closed: bool

    constructor (sessions: seq<Summary>)
      ensures this.sessions == sessions && !closed
    {
      this.sessions, closed := sessions, false;
    }

    method Close()
      modifies this
      ensures closed
    {
      closed := true;
    }

    method Page(after: Option<Position>, limit: int) returns (r: Option<PageResult>)
      ensures r == if closed then None else PageOf(sessions, after, limit)
    {
      if closed || limit < 1 {
        return None;
      }
      var start := 0;
      if after.Some? {
        while start < |sessions| && !IsAt(sessions[start], after.value)
          invariant 0 <= start <= |sessions| && forall j | 0 <= j < start :: !IsAt(sessions[j], after.value)
        {
          start := start + 1;
        }
        if start == |sessions| {
          return None;
        }
        start := start + 1;
      }
      var end := start + limit;
      if end > |sessions| {
        end := |sessions|;
      }
      r := Some(PageResult(sessions[start..end], if end == |sessions| then None else Some(sessions[end - 1])));
    }
  }

  /** The pages a client sees from `after` on, each cursor taken from the page before. */
  ghost function Follow(sessions: seq<Summary>, after: Option<Position>, limit: int): seq<seq<Summary>>
    requires limit >= 1 && (after.Some? ==> Find(sessions, after.value) < |sessions|)
    requires DistinctSessions(sessions)
    decreases |sessions| - StartOf(sessions, after)
  {
    var page := PageOf(sessions, after, limit).value;
    if page.next.None? then [page.items]
    else
      var at := Position(page.next.value.lastAt, page.next.value.session);
      NextStart(sessions, StartOf(sessions, after), limit);
      [page.items] + Follow(sessions, Some(at), limit)
  }

  ghost function Concat(pages: seq<seq<Summary>>): seq<Summary> {
    if pages == [] then [] else pages[0] + Concat(pages[1..])
  }

  /** The same pages cut by index. */
  ghost function Slices(sessions: seq<Summary>, start: nat, limit: int): seq<seq<Summary>>
    requires limit >= 1 && start <= |sessions|
    decreases |sessions| - start
  {
    var page := PageFrom(sessions, start, limit);
    if page.next.None? then [page.items] else [page.items] + Slices(sessions, start + limit, limit)
  }

  lemma NextStart(sessions: seq<Summary>, start: nat, limit: int)
    requires limit >= 1 && start <= |sessions| && DistinctSessions(sessions)
    requires PageFrom(sessions, start, limit).next.Some?
    ensures start + limit < |sessions|
    ensures var next := PageFrom(sessions, start, limit).next.value;
            Find(sessions, Position(next.lastAt, next.session)) == start + limit - 1
  {
  }

  lemma {:induction false} FollowSlices(sessions: seq<Summary>, after: Option<Position>, limit: int)
    requires limit >= 1 && (after.Some? ==> Find(sessions, after.value) < |sessions|)
    requires DistinctSessions(sessions)
    ensures Follow(sessions, after, limit) == Slices(sessions, StartOf(sessions, after), limit)
    decreases |sessions| - StartOf(sessions, after)
  {
    var start := StartOf(sessions, after);
    var next := PageFrom(sessions, start, limit).next;
    if next.Some? {
      NextStart(sessions, start, limit);
      FollowSlices(sessions, Some(Position(next.value.lastAt, next.value.session)), limit);
    }
  }

  lemma {:induction false} SlicesCover(sessions: seq<Summary>, start: nat, limit: int)
    requires limit >= 1 && start <= |sessions|
    ensures Concat(Slices(sessions, start, limit)) == sessions[start..]
    ensures |Slices(sessions, start, limit)| == PageCount(|sessions| - start, limit)
    decreases |sessions| - start
  {
    var slices := Slices(sessions, start, limit);
    if start + limit < |sessions| {
      SlicesCover(sessions, start + limit, limit);
      assert slices[1..] == Slices(sessions, start + limit, limit);
    } else {
      assert slices[1..] == [];
    }
  }

  ghost function PageCount(n: nat, limit: int): nat
    requires limit >= 1
    decreases n
  {
    if n <= limit then 1 else 1 + PageCount(n - limit, limit)
  }

  /** The count is max(1, ceil(n / limit)). */
  lemma {:induction false} PageCountIsCeiling(n: nat, limit: int)
    requires limit >= 1
    ensures var pages := PageCount(n, limit);
            pages == 1 || (limit * (pages - 1) < n <= limit * pages)
    ensures n > 0 ==> limit * (PageCount(n, limit) - 1) < n <= limit * PageCount(n, limit)
    decreases n
  {
    if n > limit {
      PageCountIsCeiling(n - limit, limit);
      var rest := PageCount(n - limit, limit);
      assert limit * (rest + 1) == limit * rest + limit && limit * rest == limit * (rest - 1) + limit;
    }
  }

  /** From the first page on, a client sees the whole snapshot once, in max(1, ceil(n/limit)) pages. */
  lemma PagingCoversSnapshot(sessions: seq<Summary>, limit: int)
    requires limit >= 1 && DistinctSessions(sessions)
    ensures Concat(Follow(sessions, None, limit)) == sessions
    ensures |Follow(sessions, None, limit)| == PageCount(|sessions|, limit)
  {
    FollowSlices(sessions, None, limit);
    SlicesCover(sessions, 0, limit);
  }
}
