/** Leases over whole runs of the registry (cmd/cpa-session-collector/snapshot.go): what the
recorded last use says about the real one, and how many read transactions can be open. */
module RegistryHistory {
  import opened Types
  import opened SnapshotRegistry

  // ----- Uses -----

  /** The handle a client's id stands for after the sweep. */
  ghost predicate Finds(c: Registry, id: Id, h: Handle) {
    Linked(c) && Live(c, id) && c.snapshots[id] == h
  }

  /** The time a step records as the last use of an entry, if it uses the entry. */
  ghost function Recorded(r: Registry, step: Step, h: Handle): Option<int>
    requires CanStep(r)
  {
    match step
    case Create(handle, _, _, _, _, begun) =>
      if handle == h && |Cleaned(r).snapshots| < r.maxActive && !begun.BeginFailed? then Some(r.now) else None
    case Get(id, lowerBound, afterFence, limit) =>
      if Finds(Cleaned(r), id, h) && SameBounds(r.entries[h], lowerBound, afterFence, limit) then Some(r.now) else None
    case Touch(id) => if Finds(Cleaned(r), id, h) then Some(r.now) else None
    case ExportBegin(_, id) => if Finds(Cleaned(r), id, h) then Some(r.now) else None
    case ExportEnd(exporter, finishedAt) =>
      if exporter in r.exports && r.exports[exporter] == h && Registered(r.snapshots, r.entries, h)
      then Some(finishedAt) else None
    case Mint(handle, _, _) => if handle == h && h in r.entries && CursorOpen(r, h) then Some(r.now) else None
    case Resolve(handle) => if handle == h && h in r.entries && CursorOpen(r, h) then Some(r.now) else None
    case _ => None
  }

  /** What `after` remembers of the entry is what `use` recorded, or what `before` remembered. */
  ghost predicate Remembers(before: Entries, after: Entries, h: Handle, use: Option<int>) {
    h in after ==>
      match use
      case Some(t) => after[h].lastUsedAt == t
      case None => h in before && after[h].lastUsedAt == before[h].lastUsedAt
  }

  lemma CreateAtRecords(c: Registry, handle: Handle, e: Entry, begun: Begun, h: Handle)
    requires handle !in c.entries && e.lastUsedAt == c.now
    ensures Remembers(c.entries, CreateAt(c, handle, e, begun).entries, h,
                      if handle == h && |c.snapshots| < c.maxActive && !begun.BeginFailed? then Some(c.now) else None)
  {
  }

  lemma CreateRecords(r: Registry, step: Step, h: Handle)
    requires CanStep(r) && Enabled(r, step) && step.Create?
    ensures Remembers(r.entries, Next(r, step).entries, h, Recorded(r, step, h))
  {
    var c := Cleaned(r);
    var e := NewEntry(c, step.id, step.lowerBound, step.afterFence, step.limit);
    CreateAtRecords(c, step.handle, e, step.begun, h);
  }

  lemma LookupRecords(r: Registry, step: Step, h: Handle)
    requires CanStep(r) && Enabled(r, step) && (step.Get? || step.Touch? || step.ExportBegin? || step.Cleanup?)
    ensures Remembers(r.entries, Next(r, step).entries, h, Recorded(r, step, h))
  {
  }

  lemma EndRecords(r: Registry, step: Step, h: Handle)
    requires CanStep(r) && Enabled(r, step) && step.ExportEnd?
    ensures Remembers(r.entries, Next(r, step).entries, h, Recorded(r, step, h))
  {
  }

  /** A step changes the recorded last use of an entry exactly by what it records. */
  lemma StepRecords(r: Registry, step: Step, h: Handle)
    requires CanStep(r) && Enabled(r, step)
    ensures Remembers(r.entries, Next(r, step).entries, h, Recorded(r, step, h))
  {
    match step
    case Create(_, _, _, _, _, _) => CreateRecords(r, step, h);
    case ExportEnd(_, _) => EndRecords(r, step, h);
    case Tick(_) =>
    case LateClose(_) =>
    case Mint(_, _, _) =>
    case Resolve(_) =>
    case _ => LookupRecords(r, step, h);
  }

  /** Only an export's end records anything but the present. */
  lemma RecordsNow(r: Registry, step: Step, h: Handle)
    requires CanStep(r) && Enabled(r, step) && Recorded(r, step, h).Some?
    ensures Recorded(r, step, h).value <= r.now
    ensures !step.ExportEnd? ==> Recorded(r, step, h).value == r.now
  {
  }

  function Max(a: int, b: int): int {
    if a < b then b else a
  }

  /** The latest use of an entry up to state `i`, whatever the entry itself remembers. */
  ghost function LatestUse(run: seq<Registry>, steps: seq<Step>, i: nat, h: Handle): int
    requires IsRun(run, steps) && i < |run| && h in run[i].entries
  {
    if i == 0 || h !in run[i - 1].entries then run[i].entries[h].lastUsedAt
    else
      assert StepAt(run, steps, i - 1);
      var before := LatestUse(run, steps, i - 1, h);
      var use := Recorded(run[i - 1], steps[i - 1], h);
      if use.Some? then Max(before, use.value) else before
  }

  /** Step `j` is the last before state `i` that recorded a use of the entry. */
  ghost predicate LastRecorded(run: seq<Registry>, steps: seq<Step>, i: nat, h: Handle, j: nat)
    requires IsRun(run, steps) && i < |run|
  {
    && j < i && CanStep(run[j]) && Recorded(run[j], steps[j], h).Some?
    && forall k | j < k < i :: CanStep(run[k]) && Recorded(run[k], steps[k], h).None?
  }

  /** The entry remembers the finish time of an export that was older than a use before it. */
  ghost predicate Overwritten(run: seq<Registry>, steps: seq<Step>, i: nat, h: Handle, j: nat)
    requires IsRun(run, steps) && i < |run|
  {
    && LastRecorded(run, steps, i, h, j) && steps[j].ExportEnd? && h in run[j].entries
    && steps[j].finishedAt < LatestUse(run, steps, j, h)
  }

  lemma ClockAt(run: seq<Registry>, steps: seq<Step>, i: nat)
    requires IsRun(run, steps) && 0 < i < |run|
    ensures CanStep(run[i - 1]) && Enabled(run[i - 1], steps[i - 1]) && run[i] == Next(run[i - 1], steps[i - 1])
    ensures run[i - 1].now <= run[i].now
  {
    assert StepAt(run, steps, i - 1);
    NextClock(run[i - 1], steps[i - 1]);
  }

  lemma NextClock(r: Registry, step: Step)
    requires CanStep(r) && Enabled(r, step)
    ensures r.now <= Next(r, step).now
  {
  }

  lemma {:induction false} LatestUseBounds(run: seq<Registry>, steps: seq<Step>, i: nat, h: Handle)
    requires IsRun(run, steps) && i < |run| && h in run[i].entries
    ensures run[i].entries[h].lastUsedAt <= LatestUse(run, steps, i, h) <= run[i].now
    decreases i
  {
    if i > 0 {
      ClockAt(run, steps, i);
      StepRecords(run[i - 1], steps[i - 1], h);
      if Recorded(run[i - 1], steps[i - 1], h).Some? { RecordsNow(run[i - 1], steps[i - 1], h); }
      if h in run[i - 1].entries { LatestUseBounds(run, steps, i - 1, h); }
    }
  }

  lemma BehindNow(run: seq<Registry>, steps: seq<Step>, i: nat, h: Handle)
    requires IsRun(run, steps) && 0 < i < |run| && h in run[i - 1].entries && h in run[i].entries
    requires CanStep(run[i - 1]) && Recorded(run[i - 1], steps[i - 1], h).Some?
    ensures run[i].entries[h].lastUsedAt < LatestUse(run, steps, i, h) <==> Overwritten(run, steps, i, h, i - 1)
  {
    ClockAt(run, steps, i);
    StepRecords(run[i - 1], steps[i - 1], h);
    RecordsNow(run[i - 1], steps[i - 1], h);
    LatestUseBounds(run, steps, i - 1, h);
  }

  lemma LastIsLast(run: seq<Registry>, steps: seq<Step>, i: nat, h: Handle, j: nat)
    requires IsRun(run, steps) && 0 < i < |run| && CanStep(run[i - 1])
    ensures Recorded(run[i - 1], steps[i - 1], h).Some? && LastRecorded(run, steps, i, h, j) ==> j == i - 1
    ensures Recorded(run[i - 1], steps[i - 1], h).None? ==>
              (LastRecorded(run, steps, i, h, j) <==> LastRecorded(run, steps, i - 1, h, j))
  {
    assert Recorded(run[i - 1], steps[i - 1], h).None? && LastRecorded(run, steps, i, h, j) ==> j != i - 1;
  }

  /** In every run an entry remembers less than its latest use if and only if the last step
      that recorded a use was the end of an export that had finished before a use. */
  lemma {:induction false} RemembersLessExactly(run: seq<Registry>, steps: seq<Step>, i: nat, h: Handle)
    requires IsRun(run, steps) && i < |run| && h in run[i].entries
    ensures run[i].entries[h].lastUsedAt < LatestUse(run, steps, i, h) <==>
            exists j: nat :: Overwritten(run, steps, i, h, j)
    decreases i
  {
    if i > 0 {
      ClockAt(run, steps, i);
      forall j: nat
        ensures Recorded(run[i - 1], steps[i - 1], h).Some? && LastRecorded(run, steps, i, h, j) ==> j == i - 1
        ensures Recorded(run[i - 1], steps[i - 1], h).None? ==>
                  (LastRecorded(run, steps, i, h, j) <==> LastRecorded(run, steps, i - 1, h, j))
      {
        LastIsLast(run, steps, i, h, j);
      }
      if Recorded(run[i - 1], steps[i - 1], h).Some? {
        if h in run[i - 1].entries { BehindNow(run, steps, i, h); }
      } else {
        StepRecords(run[i - 1], steps[i - 1], h);
        RemembersLessExactly(run, steps, i - 1, h);
        Unrecorded(run, steps, i, h);
        var p := i - 1;
        if j :| Overwritten(run, steps, p, h, j) { assert Overwritten(run, steps, i, h, j); }
        if j :| Overwritten(run, steps, i, h, j) { assert Overwritten(run, steps, p, h, j); }
      }
    }
  }

  lemma Unrecorded(run: seq<Registry>, steps: seq<Step>, i: nat, h: Handle)
    requires IsRun(run, steps) && 0 < i < |run| && h in run[i].entries && h in run[i - 1].entries
    requires CanStep(run[i - 1]) && Recorded(run[i - 1], steps[i - 1], h).None?
    ensures LatestUse(run, steps, i, h) == LatestUse(run, steps, i - 1, h)
  {
  }

  lemma {:induction false} LastValue(run: seq<Registry>, steps: seq<Step>, i: nat, h: Handle, j: nat)
    requires IsRun(run, steps) && i < |run| && h in run[i].entries && LastRecorded(run, steps, i, h, j)
    ensures run[i].entries[h].lastUsedAt == Recorded(run[j], steps[j], h).value
    decreases i
  {
    ClockAt(run, steps, i);
    StepRecords(run[i - 1], steps[i - 1], h);
    if j < i - 1 {
      LastIsLast(run, steps, i, h, j);
      LastValue(run, steps, i - 1, h, j);
    }
  }

  lemma OverwrittenValue(run: seq<Registry>, steps: seq<Step>, i: nat, h: Handle, j: nat)
    requires IsRun(run, steps) && i < |run| && h in run[i].entries && Overwritten(run, steps, i, h, j)
    ensures run[i].entries[h].lastUsedAt == steps[j].finishedAt
  {
    LastValue(run, steps, i, h, j);
  }

  lemma UnpinnedSweep(r: Registry, id: Id)
    requires Inv(r) && Linked(r) && id in r.snapshots
    requires Flying(r.exports, r.snapshots[id]) == {} && r.now < r.entries[r.snapshots[id]].expiresAt
    ensures id !in Cleaned(r).snapshots <==> r.now - r.entries[r.snapshots[id]].lastUsedAt >= r.idleTtl
  {
    SweepIsExact(r, id);
  }

  /** In every run an unexpired entry without exports, used less than the idle TTL ago, is swept
      all the same if and only if what it remembers is the finish time, at least the idle TTL
      ago, of an export that ended after that use. */
  lemma SweptEarlyExactly(run: seq<Registry>, steps: seq<Step>, i: nat, id: Id, h: Handle)
    requires IsRun(run, steps) && i < |run| && Linked(run[i]) && id in run[i].snapshots && h == run[i].snapshots[id]
    requires Flying(run[i].exports, h) == {} && run[i].now < run[i].entries[h].expiresAt
    requires run[i].now - LatestUse(run, steps, i, h) < run[i].idleTtl
    ensures id !in Cleaned(run[i]).snapshots <==>
            exists j: nat :: Overwritten(run, steps, i, h, j) && run[i].now - steps[j].finishedAt >= run[i].idleTtl
  {
    SnapshotRegistry.RunInvariant(run, steps, i);
    UnpinnedSweep(run[i], id);
    RemembersLessExactly(run, steps, i, h);
    forall j: nat | Overwritten(run, steps, i, h, j) ensures run[i].entries[h].lastUsedAt == steps[j].finishedAt {
      OverwrittenValue(run, steps, i, h, j);
    }
  }

  // ----- Open read transactions -----

  /** A create that finds room leaves the swept registrations, itself and the late closes open:
      more than the capacity if and only if the late closes fill the room it found. */
  lemma CreateOpens(r: Registry, step: Step)
    requires Inv(r) && CanStep(r) && Enabled(r, step) && step.Create? && step.begun.Opened?
    requires |Cleaned(r).snapshots| < r.maxActive
    ensures var after := Next(r, step);
            && |after.entries.Keys - after.closed| == |Cleaned(r).snapshots| + 1 + |r.closing|
            && (|after.entries.Keys - after.closed| > r.maxActive <==>
                |Cleaned(r).snapshots| + |r.closing| >= r.maxActive)
  {
    StepPreserves(r, step);
    OpenTransactions(Next(r, step));
    CreateShape(r, step);
  }

  lemma CreateShape(r: Registry, step: Step)
    requires CanStep(r) && Enabled(r, step) && step.Create? && step.begun.Opened?
    requires |Cleaned(r).snapshots| < r.maxActive
    ensures |Next(r, step).snapshots| == |Cleaned(r).snapshots| + 1 && Next(r, step).closing == r.closing
    ensures Next(r, step).maxActive == r.maxActive
  {
    OneMore(Cleaned(r).snapshots, step.id, step.handle);
  }

  /** In every state of every run more read transactions than the capacity are open if and only
      if the registered entries and the late closes together exceed it. */
  lemma ExceedsExactly(run: seq<Registry>, steps: seq<Step>, i: nat)
    requires IsRun(run, steps) && i < |run|
    ensures |run[i].entries.Keys - run[i].closed| > run[i].maxActive <==>
            |run[i].snapshots| + |run[i].closing| > run[i].maxActive
  {
    SnapshotRegistry.RunInvariant(run, steps, i);
    OpenTransactions(run[i]);
  }

  // ----- What an entry was created with -----

  /** Step `j` created the entry. */
  ghost predicate CreatedBy(run: seq<Registry>, steps: seq<Step>, h: Handle, j: nat)
    requires IsRun(run, steps)
  {
    && j < |steps| && steps[j].Create? && steps[j].handle == h && !steps[j].begun.BeginFailed?
    && h !in run[j].entries && h in run[j + 1].entries
  }

  /** The entry carries the id and the bounds of that request and was leased at its time. */
  ghost predicate Carries(e: Entry, step: Step, now: int, ttl: int) {
    && step.Create? && e.id == step.id && e.lowerBound == step.lowerBound && e.afterFence == step.afterFence
    && e.limit == step.limit && e.createdAt == now && e.expiresAt == now + ttl
  }

  lemma NewEntryCarries(r: Registry, step: Step, h: Handle)
    requires CanStep(r) && Enabled(r, step) && h !in r.entries && h in Next(r, step).entries
    ensures step.Create? && step.handle == h && !step.begun.BeginFailed?
    ensures Carries(Next(r, step).entries[h], step, r.now, r.ttl)
  {
    if step.Create? {
      var c := Cleaned(r);
      assert Next(r, step) ==
             CreateAt(c, step.handle, NewEntry(c, step.id, step.lowerBound, step.afterFence, step.limit), step.begun);
    } else {
      OldEntries(r, step, h);
    }
  }

  lemma OldEntries(r: Registry, step: Step, h: Handle)
    requires CanStep(r) && Enabled(r, step) && !step.Create?
    ensures h in Next(r, step).entries ==> h in r.entries
  {
  }

  lemma SameTtl(r: Registry, step: Step)
    requires CanStep(r) && Enabled(r, step)
    ensures Next(r, step).ttl == r.ttl
  {
  }

  lemma {:induction false} TtlFixed(run: seq<Registry>, steps: seq<Step>, i: nat)
    requires IsRun(run, steps) && i < |run|
    ensures run[i].ttl == run[0].ttl
    decreases i
  {
    if i > 0 {
      TtlFixed(run, steps, i - 1);
      assert StepAt(run, steps, i - 1);
      SameTtl(run[i - 1], steps[i - 1]);
    }
  }

  /** Every entry of every run was created by one create step and carries, for ever, the id and
      the bounds that step was given, a creation time that is its clock, and an expiry one TTL
      later. */
  lemma {:induction false} EntryOfRequest(run: seq<Registry>, steps: seq<Step>, i: nat, h: Handle) returns (j: nat)
    requires IsRun(run, steps) && i < |run| && h in run[i].entries
    ensures j < i && CreatedBy(run, steps, h, j) && Carries(run[i].entries[h], steps[j], run[j].now, run[0].ttl)
    decreases i
  {
    assert StepAt(run, steps, i - 1);
    if h in run[i - 1].entries {
      j := EntryOfRequest(run, steps, i - 1, h);
      StepKeepsLease(run[i - 1], steps[i - 1], h);
    } else {
      j := i - 1;
      NewEntryCarries(run[i - 1], steps[i - 1], h);
      TtlFixed(run, steps, i - 1);
    }
  }

  lemma {:induction false} EntryStays(run: seq<Registry>, steps: seq<Step>, i: nat, k: nat, h: Handle)
    requires IsRun(run, steps) && i <= k < |run| && h in run[i].entries
    ensures h in run[k].entries && SameLease(run[k].entries[h], run[i].entries[h])
    decreases k
  {
    if i < k {
      EntryStays(run, steps, i, k - 1, h);
      assert StepAt(run, steps, k - 1);
      StepKeepsLease(run[k - 1], steps[k - 1], h);
    }
  }

  lemma CreatedOnce(run: seq<Registry>, steps: seq<Step>, h: Handle, j: nat, k: nat)
    requires IsRun(run, steps) && CreatedBy(run, steps, h, j) && CreatedBy(run, steps, h, k)
    ensures j == k
  {
    if j < k { EntryStays(run, steps, j + 1, k, h); }
    if k < j { EntryStays(run, steps, k + 1, j, h); }
  }

  /** get, at state `i` of any run, for an id whose entry survives the sweep unexpired: it answers
      with the entry if and only if it is asked with exactly the bounds of the request that
      created the entry. */
  lemma GetAnswersExactly(run: seq<Registry>, steps: seq<Step>, i: nat, j: nat, id: Id, h: Handle,
                          lowerBound: string, afterFence: string, limit: int)
    requires IsRun(run, steps) && i < |run| && CreatedBy(run, steps, h, j) && j < i
    requires Linked(run[i]) && Finds(Cleaned(run[i]), id, h)
    ensures h in run[i].entries && steps[j].id == id && run[i].entries[h].createdAt == run[j].now
    ensures SameBounds(run[i].entries[h], lowerBound, afterFence, limit) <==>
            steps[j].lowerBound == lowerBound && steps[j].afterFence == afterFence && steps[j].limit == limit
  {
    SnapshotRegistry.RunInvariant(run, steps, i);
    var k := EntryOfRequest(run, steps, i, h);
    CreatedOnce(run, steps, h, j, k);
  }

  /** A token resolves, in any run, to the id and the bounds of the request that created its
      entry and to the position some earlier cursor step was given. */
  lemma TokenOfRequest(run: seq<Registry>, steps: seq<Step>, i: nat, h: Handle, t: Token, claims: Claims)
    returns (j: nat, m: nat)
    requires IsRun(run, steps) && i < |run| && h in run[i].entries && ResolveToken(run[i], h, t) == Some(claims)
    ensures j < i && CreatedBy(run, steps, h, j)
    ensures claims.snapshot == steps[j].id && claims.lowerBound == steps[j].lowerBound
    ensures claims.afterFence == steps[j].afterFence && claims.limit == steps[j].limit
    ensures m < i && steps[m].Mint? && steps[m].handle == h
    ensures claims.lastAt == steps[m].lastAt && claims.session == steps[m].session
  {
    SnapshotRegistry.RunInvariant(run, steps, i);
    TokenResolvesToItsMint(run[i], h, t, claims);
    j := EntryOfRequest(run, steps, i, h);
    MintedEarlier(run, steps, i, h, claims);
    m :| 0 <= m < i && MintsAt(run, steps, m, h, claims);
  }

  /** A sweep in any run, in plain terms: an entry goes if and only if it has no export in flight
      and its lease ran out or it was idle for the idle TTL. */
  lemma SweepInPlainTerms(run: seq<Registry>, steps: seq<Step>, i: nat, id: Id)
    requires IsRun(run, steps) && i < |run| && id in run[i].snapshots
    ensures Linked(run[i])
    ensures var r := run[i]; var e := r.entries[r.snapshots[id]];
            id !in Cleaned(r).snapshots <==>
            && (forall x | x in r.exports :: r.exports[x] != r.snapshots[id])
            && (e.expiresAt <= r.now || e.lastUsedAt + r.idleTtl <= r.now)
  {
    SnapshotRegistry.RunInvariant(run, steps, i);
    SweepIsExact(run[i], id);
    var h := run[i].snapshots[id];
    assert Flying(run[i].exports, h) == {} <==> forall x | x in run[i].exports :: run[i].exports[x] != h by {
      forall x | x in run[i].exports && run[i].exports[x] == h ensures x in Flying(run[i].exports, h) { }
    }
  }

  // ----- Tokens stay good -----

  lemma StepKeepsCursors(r: Registry, step: Step, h: Handle, t: Token)
    requires Inv(r) && CanStep(r) && Enabled(r, step) && h in r.entries && t in r.entries[h].cursors
    ensures h in Next(r, step).entries && t in Next(r, step).entries[h].cursors
    ensures Next(r, step).entries[h].cursors[t] == r.entries[h].cursors[t]
  {
    match step
    case ExportEnd(exporter, finishedAt) => EndKeepsCursors(r, exporter, finishedAt, h);
    case Mint(handle, lastAt, session) => MintKeepsCursors(r, handle, lastAt, session, h, t);
    case Tick(_) =>
    case LateClose(_) =>
    case Resolve(_) =>
    case _ => SweepKeepsCursors(Cleaned(r), step, h);
  }

  lemma MintKeepsCursors(r: Registry, handle: Handle, lastAt: int, session: string, h: Handle, t: Token)
    requires CursorsSound(r.entries, r.minted) && handle in r.entries && h in r.entries && t in r.entries[h].cursors
    ensures var next := Minted(r, handle, ClaimsFor(r.entries[handle], lastAt, session));
            h in next.entries && t in next.entries[h].cursors && next.entries[h].cursors[t] == r.entries[h].cursors[t]
  {
    assert CursorSound(r.entries[h], r.minted, h, t);
  }

  lemma EndKeepsCursors(r: Registry, exporter: nat, finishedAt: int, h: Handle)
    requires exporter in r.exports && r.exports[exporter] in r.entries && h in r.entries
    ensures h in ExportEnded(r, exporter, finishedAt).entries
    ensures ExportEnded(r, exporter, finishedAt).entries[h].cursors == r.entries[h].cursors
  {
  }

  lemma SweepKeepsCursors(c: Registry, step: Step, h: Handle)
    requires Linked(c) && Sweeps(step) && h in c.entries && (step.Create? ==> step.handle !in c.entries)
    ensures h in AfterSweep(c, step).entries && AfterSweep(c, step).entries[h].cursors == c.entries[h].cursors
  {
  }

  /** The claims a cursor step mints: the entry's own id and bounds, and the given position. */
  ghost function ClaimsOf(run: seq<Registry>, steps: seq<Step>, m: nat): Claims
    requires IsRun(run, steps) && m < |steps| && steps[m].Mint? && steps[m].handle in run[m].entries
  {
    var e := run[m].entries[steps[m].handle];
    Claims(e.id, e.lowerBound, e.afterFence, e.limit, steps[m].lastAt, steps[m].session)
  }

  lemma {:induction false} CursorStays(run: seq<Registry>, steps: seq<Step>, m: nat, i: nat, h: Handle)
    requires IsRun(run, steps) && m < i < |run| && steps[m].Mint? && steps[m].handle == h && h in run[m].entries
    requires CursorOpen(run[m], h)
    ensures var claims := ClaimsOf(run, steps, m);
            h in run[i].entries && Hmac(claims) in run[i].entries[h].cursors
            && run[i].entries[h].cursors[Hmac(claims)] == claims
    decreases i
  {
    assert StepAt(run, steps, i - 1);
    if m < i - 1 {
      CursorStays(run, steps, m, i - 1, h);
      SnapshotRegistry.RunInvariant(run, steps, i - 1);
      StepKeepsCursors(run[i - 1], steps[i - 1], h, Hmac(ClaimsOf(run, steps, m)));
    }
  }

  /** A token handed out once resolves to the same claims every time, for as long as its entry is
      registered and unexpired. */
  lemma TokenStaysGood(run: seq<Registry>, steps: seq<Step>, m: nat, i: nat, h: Handle)
    requires IsRun(run, steps) && m < i < |run| && steps[m].Mint? && steps[m].handle == h && h in run[m].entries
    requires CursorOpen(run[m], h) && h in run[i].entries
    requires run[i].entries[h].id in run[i].snapshots && run[i].snapshots[run[i].entries[h].id] == h
    requires run[i].now < run[i].entries[h].expiresAt
    ensures ResolveToken(run[i], h, Hmac(ClaimsOf(run, steps, m))) == Some(ClaimsOf(run, steps, m))
  {
    CursorStays(run, steps, m, i, h);
  }
}
