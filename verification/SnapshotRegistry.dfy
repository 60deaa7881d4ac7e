/** The lease manager of open snapshots (cmd/cpa-session-collector/snapshot.go). Each
critical section is one atomic step; an export is a begin step, an end step and possibly a
late close, with any other steps in between. */
module SnapshotRegistry {
  import opened Types

  type Id = string
  type Handle = nat

  datatype Claims = Claims(snapshot: Id, lowerBound: string, afterFence: string, limit: int, lastAt: int,
      session: string)

  /** What a client presents: the HMAC of some claims, or anything else. */
  datatype Token = Hmac(claims: Claims) | Forged(text: string)

  datatype Entry = Entry(
    id: Id,
    lowerBound: string,
    afterFence: string,
    limit: int,
    createdAt: int,
    lastUsedAt: int,
    expiresAt: int,
    cursors: map<Token, Claims>,
    activeExports: int)

  /** `entries` are the entry objects ever created, by identity; `closed` those whose read
      transaction was rolled back. `exports` and `closing` belong to goroutines that run
      outside the lock: exports in flight, and removed entries with the exporter about to
      close each. `minted` is a record of every cursor handed out. */
  datatype Registry = Registry(
    ttl: int,
    idleTtl: int,
    maxActive: int,
    now: int,
    snapshots: map<Id, Handle>,
    entries: map<Handle, Entry>,
    closed: set<Handle>,
    exports: map<nat, Handle>,
    closing: map<Handle, nat>,
    minted: set<(Handle, Claims)>)

  // ----- Critical sections -----

  ghost predicate Linked(r: Registry) {
    forall id | id in r.snapshots :: r.snapshots[id] in r.entries
  }

  predicate Lapsed(r: Registry, e: Entry) {
    r.now >= e.expiresAt || r.now - e.lastUsedAt >= r.idleTtl
  }

  function Doomed(r: Registry): set<Id>
    requires Linked(r)
  {
    set id | id in r.snapshots && r.entries[r.snapshots[id]].activeExports <= 0 && Lapsed(r, r.entries[r.snapshots[id]])
  }

  /** cleanupLocked. */
  function Cleaned(r: Registry): Registry
    requires Linked(r)
  {
    r.(snapshots := r.snapshots - Doomed(r),
       closed := r.closed + set id | id in Doomed(r) :: r.snapshots[id])
  }

  /** A registered entry that has not reached its absolute expiry. */
  predicate Live(r: Registry, id: Id)
    requires Linked(r)
  {
    id in r.snapshots && r.now < r.entries[r.snapshots[id]].expiresAt
  }

  function Touched(r: Registry, h: Handle, at: int): Registry
    requires h in r.entries
  {
    r.(entries := r.entries[h := r.entries[h].(lastUsedAt := at)])
  }

  type Entries = map<Handle, Entry>

  /** The entry is the one its id is registered with. */
  predicate Registered(snapshots: map<Id, Handle>, entries: Entries, h: Handle) {
    h in entries && entries[h].id in snapshots && snapshots[entries[h].id] == h
  }

  datatype Begun = BeginFailed | RandomFailed | Opened

  datatype Step =
    | Tick(now: int)
    | Cleanup
    | Create(handle: Handle, id: Id, lowerBound: string, afterFence: string, limit: int, begun: Begun)
    | Get(id: Id, lowerBound: string, afterFence: string, limit: int)
    | Touch(id: Id)
    | ExportBegin(exporter: nat, id: Id)
    | ExportEnd(exporter: nat, finishedAt: int)
    | LateClose(handle: Handle)
    | Mint(handle: Handle, lastAt: int, session: string)
    | Resolve(handle: Handle)

  /** The clock is monotone, new identities are new, and a goroutine takes its steps in
      order. The finish time of an export was read before its end step got the lock. */
  ghost predicate Enabled(r: Registry, step: Step) {
    match step
    case Tick(now) => now >= r.now
    case Create(handle, id, _, _, _, _) => handle !in r.entries && (Linked(r) ==> id !in Cleaned(r).snapshots)
    case ExportBegin(exporter, _) => exporter !in r.exports
    case ExportEnd(exporter, finishedAt) => exporter in r.exports && finishedAt <= r.now
    case LateClose(handle) => handle in r.closing
    case Mint(handle, _, _) => handle in r.entries
    case Resolve(handle) => handle in r.entries
    case _ => true
  }

  function NewEntry(r: Registry, id: Id, lowerBound: string, afterFence: string, limit: int): Entry {
    Entry(id, lowerBound, afterFence, limit, r.now, r.now, r.now + r.ttl, map[], 0)
  }

  /** create, after its cleanup. A snapshot whose id could not be drawn is closed at once. */
  function CreateAt(r: Registry, handle: Handle, e: Entry, begun: Begun): Registry {
    if |r.snapshots| >= r.maxActive then r
    else
      match begun
      case BeginFailed => r
      case RandomFailed => r.(entries := r.entries[handle := e], closed := r.closed + {handle})
      case Opened => r.(entries := r.entries[handle := e], snapshots := r.snapshots[e.id := handle])
  }

  predicate SameBounds(e: Entry, lowerBound: string, afterFence: string, limit: int) {
    e.lowerBound == lowerBound && e.afterFence == afterFence && e.limit == limit
  }

  function ExportBegun(r: Registry, exporter: nat, h: Handle): Registry
    requires h in r.entries
  {
    var e := r.entries[h];
    r.(entries := r.entries[h := e.(lastUsedAt := r.now, activeExports := e.activeExports + 1)],
       exports := r.exports[exporter := h])
  }

  /** The second critical section of export. */
  function ExportEnded(r: Registry, exporter: nat, finishedAt: int): Registry
    requires exporter in r.exports && r.exports[exporter] in r.entries
  {
    var h := r.exports[exporter];
    var e := r.entries[h];
    var released := Released(r, exporter);
    if Registered(r.snapshots, r.entries, h) then
      var touched := Touched(released, h, finishedAt);
      if finishedAt >= e.expiresAt && e.activeExports - 1 == 0
      then touched.(snapshots := r.snapshots - {e.id}, closing := r.closing[h := exporter])
      else touched
    else released
  }

  function ClaimsFor(e: Entry, lastAt: int, session: string): Claims {
    Claims(e.id, e.lowerBound, e.afterFence, e.limit, lastAt, session)
  }

  predicate CursorOpen(r: Registry, h: Handle)
    requires h in r.entries
  {
    Registered(r.snapshots, r.entries, h) && r.now < r.entries[h].expiresAt
  }

  function Minted(r: Registry, h: Handle, claims: Claims): Registry
    requires h in r.entries
  {
    var e := r.entries[h];
    r.(entries := r.entries[h := e.(lastUsedAt := r.now, cursors := e.cursors[Hmac(claims) := claims])],
       minted := r.minted + {(h, claims)})
  }

  predicate Sweeps(step: Step) {
    step.Cleanup? || step.Create? || step.Get? || step.Touch? || step.ExportBegin?
  }

  /** What a sweeping step does once lapsed leases are gone. */
  function AfterSweep(c: Registry, step: Step): Registry
    requires Linked(c) && Sweeps(step)
  {
    match step
    case Create(handle, id, lowerBound, afterFence, limit, begun) =>
      CreateAt(c, handle, NewEntry(c, id, lowerBound, afterFence, limit), begun)
    case Get(id, lowerBound, afterFence, limit) =>
      if Live(c, id) && SameBounds(c.entries[c.snapshots[id]], lowerBound, afterFence, limit)
      then Touched(c, c.snapshots[id], c.now) else c
    case Touch(id) => if Live(c, id) then Touched(c, c.snapshots[id], c.now) else c
    case ExportBegin(exporter, id) => if Live(c, id) then ExportBegun(c, exporter, c.snapshots[id]) else c
    case Cleanup => c
  }

  ghost function Next(r: Registry, step: Step): Registry
    requires Linked(r) && Enabled(r, step)
    requires forall x | x in r.exports :: r.exports[x] in r.entries
  {
    match step
    case Tick(now) => r.(now := now)
    case ExportEnd(exporter, finishedAt) => ExportEnded(r, exporter, finishedAt)
    case LateClose(h) => r.(closed := r.closed + {h}, closing := r.closing - {h})
    case Mint(h, lastAt, session) =>
      if CursorOpen(r, h) then Minted(r, h, ClaimsFor(r.entries[h], lastAt, session)) else r
    case Resolve(h) => if CursorOpen(r, h) then Touched(r, h, r.now) else r
    case _ => AfterSweep(Cleaned(r), step)
  }

  // ----- The invariant -----

  ghost function Flying(exports: map<nat, Handle>, h: Handle): set<nat> {
    set x | x in exports && exports[x] == h
  }

  /** Registered entries are at their own id. */
  ghost predicate AtOwnId(snapshots: map<Id, Handle>, entries: Entries) {
    forall id | id in snapshots :: snapshots[id] in entries && entries[snapshots[id]].id == id
  }

  predicate ExactlyOne(a: bool, b: bool, c: bool) {
    (a && !b && !c) || (!a && b && !c) || (!a && !b && c)
  }

  /** Every entry is registered, or removed and about to be closed by one exporter, or
      closed - and only one of these. */
  ghost predicate Owned(snapshots: map<Id, Handle>, entries: Entries, closing: map<Handle, nat>, closed: set<Handle>) {
    && (forall h | h in closing :: h in entries)
    && (forall h | h in closed :: h in entries)
    && (forall h | h in entries :: ExactlyOne(Registered(snapshots, entries, h), h in closing, h in closed))
  }

  /** An entry with an export in flight is registered. */
  ghost predicate Pinned(snapshots: map<Id, Handle>, entries: Entries, exports: map<nat, Handle>) {
    forall x | x in exports :: Registered(snapshots, entries, exports[x])
  }

  /** ActiveExports is the number of exports in flight. */
  ghost predicate Counted(entries: Entries, exports: map<nat, Handle>) {
    forall h | h in entries :: entries[h].activeExports == |Flying(exports, h)|
  }

  ghost predicate Leased(entries: Entries, ttl: int) {
    forall h | h in entries :: entries[h].expiresAt == entries[h].createdAt + ttl
  }

  /** A cursor table maps the HMAC of claims minted for that very entry to those claims. */
  ghost predicate CursorsSound(entries: Entries, minted: set<(Handle, Claims)>) {
    forall h, t | h in entries && t in entries[h].cursors :: CursorSound(entries[h], minted, h, t)
  }

  ghost predicate CursorSound(e: Entry, minted: set<(Handle, Claims)>, h: Handle, t: Token)
    requires t in e.cursors
  {
    var claims := e.cursors[t];
    t == Hmac(claims) && (h, claims) in minted && claims == ClaimsFor(e, claims.lastAt, claims.session)
  }

  /** Capacity, registration, ownership, pinning, lease and cursors. */
  ghost predicate Inv(r: Registry) {
    && |r.snapshots| <= r.maxActive
    && AtOwnId(r.snapshots, r.entries)
    && Owned(r.snapshots, r.entries, r.closing, r.closed)
    && Pinned(r.snapshots, r.entries, r.exports)
    && Counted(r.entries, r.exports)
    && Leased(r.entries, r.ttl)
    && CursorsSound(r.entries, r.minted)
  }

  ghost predicate Init(r: Registry) {
    r.maxActive >= 1 && r.snapshots == map[] && r.entries == map[] && r.closed == {} && r.exports == map[]
    && r.closing == map[] && r.minted == {}
  }

  // ----- Counting exports in flight -----

  lemma FlyingPositive(exports: map<nat, Handle>, x: nat)
    requires x in exports
    ensures |Flying(exports, exports[x])| >= 1
  {
    assert x in Flying(exports, exports[x]);
  }

  lemma FlyingAdd(exports: map<nat, Handle>, x: nat, h: Handle, g: Handle)
    requires x !in exports
    ensures |Flying(exports[x := h], g)| == |Flying(exports, g)| + (if g == h then 1 else 0)
  {
    var more := exports[x := h];
    if g == h {
      assert Flying(more, g) == Flying(exports, g) + {x};
    } else {
      assert Flying(more, g) == Flying(exports, g);
    }
  }

  lemma FlyingRemove(exports: map<nat, Handle>, x: nat, g: Handle)
    requires x in exports
    ensures |Flying(exports - {x}, g)| == |Flying(exports, g)| - (if exports[x] == g then 1 else 0)
  {
    assert exports == (exports - {x})[x := exports[x]];
    FlyingAdd(exports - {x}, x, exports[x], g);
  }

  // ----- Changes to one entry -----

  predicate SameLease(a: Entry, b: Entry) {
    && a.id == b.id && SameBounds(a, b.lowerBound, b.afterFence, b.limit)
    && a.createdAt == b.createdAt && a.expiresAt == b.expiresAt
  }

  lemma CountedSame(entries: Entries, exports: map<nat, Handle>, h: Handle, e: Entry)
    requires Counted(entries, exports) && h in entries && e.activeExports == entries[h].activeExports
    ensures Counted(entries[h := e], exports)
  {
  }

  /** Bookkeeping on one entry keeps registration, ownership, pinning and lease. */
  lemma Bookkept(r: Registry, h: Handle, e: Entry)
    requires AtOwnId(r.snapshots, r.entries) && Leased(r.entries, r.ttl)
    requires Owned(r.snapshots, r.entries, r.closing, r.closed) && Pinned(r.snapshots, r.entries, r.exports)
    requires h in r.entries && SameLease(e, r.entries[h])
    ensures AtOwnId(r.snapshots, r.entries[h := e]) && Leased(r.entries[h := e], r.ttl)
    ensures Owned(r.snapshots, r.entries[h := e], r.closing, r.closed)
    ensures Pinned(r.snapshots, r.entries[h := e], r.exports)
  {
  }

  lemma CountedBegin(entries: Entries, exports: map<nat, Handle>, x: nat, h: Handle, e: Entry)
    requires Counted(entries, exports) && x !in exports && h in entries
    requires e.activeExports == entries[h].activeExports + 1
    ensures Counted(entries[h := e], exports[x := h])
  {
    forall g | g in entries ensures |Flying(exports[x := h], g)| == |Flying(exports, g)| + (if g == h then 1 else 0) {
      FlyingAdd(exports, x, h, g);
    }
  }

  lemma CountedEnd(entries: Entries, exports: map<nat, Handle>, x: nat, e: Entry)
    requires Counted(entries, exports) && x in exports && exports[x] in entries
    requires e.activeExports == entries[exports[x]].activeExports - 1
    ensures Counted(entries[exports[x] := e], exports - {x})
  {
    forall g | g in entries
      ensures |Flying(exports - {x}, g)| == |Flying(exports, g)| - (if exports[x] == g then 1 else 0)
    {
      FlyingRemove(exports, x, g);
    }
  }

  lemma CursorsUpdated(entries: Entries, minted: set<(Handle, Claims)>, h: Handle, e: Entry)
    requires CursorsSound(entries, minted)
    requires e.cursors == map[] || (h in entries && SameLease(e, entries[h]) && e.cursors == entries[h].cursors)
    ensures CursorsSound(entries[h := e], minted)
  {
  }

  lemma CursorMinted(entries: Entries, minted: set<(Handle, Claims)>, h: Handle, e: Entry, claims: Claims)
    requires CursorsSound(entries, minted) && h in entries && SameLease(e, entries[h])
    requires claims == ClaimsFor(e, claims.lastAt, claims.session)
    requires e.cursors == entries[h].cursors[Hmac(claims) := claims]
    ensures CursorsSound(entries[h := e], minted + {(h, claims)})
  {
  }

  // ----- Every step keeps the invariant -----

  lemma FewerSnapshots(snapshots: map<Id, Handle>, gone: set<Id>)
    ensures |snapshots - gone| <= |snapshots|
  {
  }

  lemma CleanedPinned(r: Registry)
    requires Inv(r)
    ensures Pinned(Cleaned(r).snapshots, r.entries, r.exports)
  {
    forall x | x in r.exports ensures Registered(Cleaned(r).snapshots, r.entries, r.exports[x]) {
      assert Registered(r.snapshots, r.entries, r.exports[x]);
      FlyingPositive(r.exports, x);
    }
  }

  lemma CleanedOwned(r: Registry)
    requires Inv(r)
    ensures Owned(Cleaned(r).snapshots, r.entries, r.closing, Cleaned(r).closed)
  {
  }

  lemma CleanedKeeps(r: Registry)
    requires Inv(r)
    ensures Inv(Cleaned(r))
  {
    FewerSnapshots(r.snapshots, Doomed(r));
    CleanedPinned(r);
    CleanedOwned(r);
  }

  lemma TouchedKeeps(r: Registry, h: Handle, at: int)
    requires Inv(r) && h in r.entries
    ensures Inv(Touched(r, h, at))
  {
    var e := r.entries[h].(lastUsedAt := at);
    Bookkept(r, h, e);
    CountedSame(r.entries, r.exports, h, e);
    CursorsUpdated(r.entries, r.minted, h, e);
  }

  predicate IsNew(e: Entry, ttl: int) {
    e.activeExports == 0 && e.cursors == map[] && e.expiresAt == e.createdAt + ttl
  }

  /** Whatever happens to a new entry, counts, leases and cursor tables stay right. */
  lemma NewEntryTables(r: Registry, handle: Handle, e: Entry)
    requires Inv(r) && handle !in r.entries && IsNew(e, r.ttl)
    ensures Counted(r.entries[handle := e], r.exports) && Leased(r.entries[handle := e], r.ttl)
    ensures CursorsSound(r.entries[handle := e], r.minted)
  {
  }

  lemma NewlyRegistered(r: Registry, handle: Handle, e: Entry)
    requires Inv(r) && handle !in r.entries && e.id !in r.snapshots
    ensures var snapshots, entries := r.snapshots[e.id := handle], r.entries[handle := e];
            Owned(snapshots, entries, r.closing, r.closed) && Pinned(snapshots, entries, r.exports)
  {
    var snapshots, entries := r.snapshots[e.id := handle], r.entries[handle := e];
    forall g | g in r.entries ensures Registered(snapshots, entries, g) <==> Registered(r.snapshots, r.entries, g) {
    }
    assert Registered(snapshots, entries, handle) && handle !in r.closing && handle !in r.closed;
  }

  lemma CreatedKeeps(r: Registry, handle: Handle, e: Entry)
    requires Inv(r) && handle !in r.entries && e.id !in r.snapshots && |r.snapshots| < r.maxActive && IsNew(e, r.ttl)
    ensures Inv(r.(entries := r.entries[handle := e], snapshots := r.snapshots[e.id := handle]))
  {
    OneMore(r.snapshots, e.id, handle);
    NewEntryTables(r, handle, e);
    NewlyRegistered(r, handle, e);
    NewAtOwnId(r.snapshots, r.entries, handle, e);
  }

  lemma NewAtOwnId(snapshots: map<Id, Handle>, entries: Entries, handle: Handle, e: Entry)
    requires AtOwnId(snapshots, entries) && handle !in entries
    ensures AtOwnId(snapshots[e.id := handle], entries[handle := e])
  {
  }

  lemma OneMore(snapshots: map<Id, Handle>, id: Id, handle: Handle)
    requires id !in snapshots
    ensures |snapshots[id := handle]| == |snapshots| + 1
  {
  }

  lemma NewlyClosed(r: Registry, handle: Handle, e: Entry)
    requires Inv(r) && handle !in r.entries && e.id !in r.snapshots
    ensures Owned(r.snapshots, r.entries[handle := e], r.closing, r.closed + {handle})
    ensures Pinned(r.snapshots, r.entries[handle := e], r.exports)
  {
    var entries := r.entries[handle := e];
    OwnedBesides(r, handle, e);
    assert forall x | x in r.exports :: Registered(r.snapshots, r.entries, r.exports[x]);
  }

  lemma OwnedBesides(r: Registry, handle: Handle, e: Entry)
    requires Inv(r) && handle !in r.entries && e.id !in r.snapshots
    ensures Owned(r.snapshots, r.entries[handle := e], r.closing, r.closed + {handle})
    ensures forall g | g in r.entries ::
        Registered(r.snapshots, r.entries[handle := e], g) <==> Registered(r.snapshots, r.entries, g)
  {
  }

  lemma RandomFailedKeeps(r: Registry, handle: Handle, e: Entry)
    requires Inv(r) && handle !in r.entries && e.id !in r.snapshots && IsNew(e, r.ttl)
    ensures Inv(r.(entries := r.entries[handle := e], closed := r.closed + {handle}))
  {
    NewEntryTables(r, handle, e);
    NewlyClosed(r, handle, e);
  }

  lemma ExportBegunKeeps(r: Registry, exporter: nat, h: Handle)
    requires Inv(r) && exporter !in r.exports && Registered(r.snapshots, r.entries, h)
    ensures Inv(ExportBegun(r, exporter, h))
  {
    var e := r.entries[h].(lastUsedAt := r.now, activeExports := r.entries[h].activeExports + 1);
    var after := ExportBegun(r, exporter, h);
    assert after.entries == r.entries[h := e] && after.exports == r.exports[exporter := h];
    BegunLinks(r, exporter, h, e);
    CursorsUpdated(r.entries, r.minted, h, e);
    CountedBegin(r.entries, r.exports, exporter, h, e);
  }

  lemma BegunLinks(r: Registry, exporter: nat, h: Handle, e: Entry)
    requires AtOwnId(r.snapshots, r.entries) && Leased(r.entries, r.ttl)
    requires Owned(r.snapshots, r.entries, r.closing, r.closed) && Pinned(r.snapshots, r.entries, r.exports)
    requires Registered(r.snapshots, r.entries, h) && SameLease(e, r.entries[h])
    ensures AtOwnId(r.snapshots, r.entries[h := e]) && Leased(r.entries[h := e], r.ttl)
    ensures Owned(r.snapshots, r.entries[h := e], r.closing, r.closed)
    ensures Pinned(r.snapshots, r.entries[h := e], r.exports[exporter := h])
  {
  }

  /** The entry of an export in flight is still registered and open when the export ends. */
  lemma EndSeesItsEntry(r: Registry, exporter: nat)
    requires Inv(r) && exporter in r.exports
    ensures Registered(r.snapshots, r.entries, r.exports[exporter]) && r.exports[exporter] !in r.closed
    ensures r.entries[r.exports[exporter]].activeExports >= 1
  {
    assert Registered(r.snapshots, r.entries, r.exports[exporter]);
    FlyingPositive(r.exports, exporter);
  }

  function Released(r: Registry, exporter: nat): Registry
    requires exporter in r.exports && r.exports[exporter] in r.entries
  {
    var h := r.exports[exporter];
    r.(exports := r.exports - {exporter},
        entries := r.entries[h := r.entries[h].(activeExports := r.entries[h].activeExports - 1)])
  }

  lemma ReleasedKeeps(r: Registry, exporter: nat)
    requires Inv(r) && exporter in r.exports && r.exports[exporter] in r.entries
    ensures Inv(Released(r, exporter))
  {
    var h := r.exports[exporter];
    var e := r.entries[h].(activeExports := r.entries[h].activeExports - 1);
    Bookkept(r, h, e);
    CursorsUpdated(r.entries, r.minted, h, e);
    CountedEnd(r.entries, r.exports, exporter, e);
  }

  /** Handing an idle registered entry over to the exporter that will close it. */
  lemma HandedOverKeeps(r: Registry, exporter: nat, h: Handle)
    requires Inv(r) && Registered(r.snapshots, r.entries, h) && r.entries[h].activeExports == 0
    ensures Inv(r.(snapshots := r.snapshots - {r.entries[h].id}, closing := r.closing[h := exporter]))
  {
    FewerSnapshots(r.snapshots, {r.entries[h].id});
    HandedOverOwned(r, exporter, h);
    HandedOverPinned(r, h);
  }

  lemma HandedOverOwned(r: Registry, exporter: nat, h: Handle)
    requires Inv(r) && Registered(r.snapshots, r.entries, h)
    ensures Owned(r.snapshots - {r.entries[h].id}, r.entries, r.closing[h := exporter], r.closed)
  {
  }

  lemma HandedOverPinned(r: Registry, h: Handle)
    requires Inv(r) && Registered(r.snapshots, r.entries, h) && r.entries[h].activeExports == 0
    ensures Pinned(r.snapshots - {r.entries[h].id}, r.entries, r.exports)
  {
    forall x | x in r.exports ensures Registered(r.snapshots - {r.entries[h].id}, r.entries, r.exports[x]) {
      FlyingPositive(r.exports, x);
      assert Registered(r.snapshots, r.entries, r.exports[x]);
    }
  }

  lemma ExportEndedKeeps(r: Registry, exporter: nat, finishedAt: int)
    requires Inv(r) && exporter in r.exports && r.exports[exporter] in r.entries
    ensures Inv(ExportEnded(r, exporter, finishedAt))
  {
    EndSeesItsEntry(r, exporter);
    ReleasedKeeps(r, exporter);
    var h := r.exports[exporter];
    TouchedKeeps(Released(r, exporter), h, finishedAt);
    var touched := Touched(Released(r, exporter), h, finishedAt);
    if finishedAt >= r.entries[h].expiresAt && r.entries[h].activeExports - 1 == 0 {
      HandedOverKeeps(touched, exporter, h);
    }
  }

  lemma LateCloseKeeps(r: Registry, h: Handle)
    requires Inv(r) && h in r.closing
    ensures Inv(r.(closed := r.closed + {h}, closing := r.closing - {h}))
  {
  }

  lemma MintedKeeps(r: Registry, h: Handle, lastAt: int, session: string)
    requires Inv(r) && h in r.entries
    ensures Inv(Minted(r, h, ClaimsFor(r.entries[h], lastAt, session)))
  {
    var claims := ClaimsFor(r.entries[h], lastAt, session);
    var e := r.entries[h].(lastUsedAt := r.now, cursors := r.entries[h].cursors[Hmac(claims) := claims]);
    Bookkept(r, h, e);
    CountedSame(r.entries, r.exports, h, e);
    CursorMinted(r.entries, r.minted, h, e, claims);
  }

  lemma InvReady(r: Registry)
    requires Inv(r)
    ensures Linked(r) && forall x | x in r.exports :: r.exports[x] in r.entries
  {
  }

  lemma CreateKeeps(r: Registry, handle: Handle, e: Entry, begun: Begun)
    requires Inv(r) && handle !in r.entries && e.id !in r.snapshots && IsNew(e, r.ttl)
    ensures Inv(CreateAt(r, handle, e, begun))
  {
    if |r.snapshots| < r.maxActive {
      match begun
      case BeginFailed =>
      case RandomFailed => RandomFailedKeeps(r, handle, e);
      case Opened => CreatedKeeps(r, handle, e);
    }
  }

  lemma AfterSweepKeeps(c: Registry, step: Step)
    requires Inv(c) && Linked(c) && Sweeps(step)
    requires step.Create? ==> step.handle !in c.entries && step.id !in c.snapshots
    requires step.ExportBegin? ==> step.exporter !in c.exports
    ensures Inv(AfterSweep(c, step))
  {
    match step
    case Create(handle, id, lowerBound, afterFence, limit, begun) =>
      CreateKeeps(c, handle, NewEntry(c, id, lowerBound, afterFence, limit), begun);
    case Get(id, _, _, _) => if id in c.snapshots { TouchedKeeps(c, c.snapshots[id], c.now); }
    case Touch(id) => if id in c.snapshots { TouchedKeeps(c, c.snapshots[id], c.now); }
    case ExportBegin(exporter, id) => if Live(c, id) { ExportBegunKeeps(c, exporter, c.snapshots[id]); }
    case Cleanup =>
  }

  /** Every step of every goroutine keeps the invariant. */
  lemma StepPreserves(r: Registry, step: Step)
    requires Inv(r) && Enabled(r, step)
    ensures Linked(r) && (forall x | x in r.exports :: r.exports[x] in r.entries) && Inv(Next(r, step))
  {
    InvReady(r);
    match step
    case Tick(_) =>
    case ExportEnd(exporter, finishedAt) => ExportEndedKeeps(r, exporter, finishedAt);
    case LateClose(h) => LateCloseKeeps(r, h);
    case Mint(h, lastAt, session) => MintedKeeps(r, h, lastAt, session);
    case Resolve(h) => TouchedKeeps(r, h, r.now);
    case _ =>
      CleanedKeeps(r);
      AfterSweepKeeps(Cleaned(r), step);
  }

  // ----- Every interleaving -----

  ghost predicate CanStep(r: Registry) {
    Linked(r) && forall x | x in r.exports :: r.exports[x] in r.entries
  }

  ghost predicate StepAt(run: seq<Registry>, steps: seq<Step>, i: nat)
    requires i < |steps| && |run| == |steps| + 1
  {
    CanStep(run[i]) && Enabled(run[i], steps[i]) && run[i + 1] == Next(run[i], steps[i])
  }

  ghost predicate IsRun(run: seq<Registry>, steps: seq<Step>) {
    |run| == |steps| + 1 && Init(run[0]) && forall i | 0 <= i < |steps| :: StepAt(run, steps, i)
  }

  lemma InitInv(r: Registry)
    requires Init(r)
    ensures Inv(r)
  {
  }

  lemma StepAtPreserves(run: seq<Registry>, steps: seq<Step>, i: nat)
    requires IsRun(run, steps) && i < |steps| && Inv(run[i])
    ensures Inv(run[i + 1])
  {
    assert StepAt(run, steps, i);
    StepPreserves(run[i], steps[i]);
  }

  lemma {:induction false} RunInvariant(run: seq<Registry>, steps: seq<Step>, i: nat)
    requires IsRun(run, steps) && i < |run|
    ensures Inv(run[i])
    decreases i
  {
    if i == 0 {
      InitInv(run[0]);
    } else {
      RunInvariant(run, steps, i - 1);
      StepAtPreserves(run, steps, i - 1);
    }
  }

  /** Capacity, the meaning of ActiveExports, pinning and ownership, in every state of every
      interleaving. */
  lemma EveryInterleaving(run: seq<Registry>, steps: seq<Step>, i: nat)
    requires IsRun(run, steps) && i < |run|
    ensures var r := run[i];
            && |r.snapshots| <= r.maxActive
            && (forall h | h in r.entries :: r.entries[h].activeExports == |Flying(r.exports, h)|)
            && (forall x | x in r.exports ::
                Registered(r.snapshots, r.entries, r.exports[x]) && r.exports[x] !in r.closed)
            && (forall h | h in r.entries ::
                  ExactlyOne(Registered(r.snapshots, r.entries, h), h in r.closing, h in r.closed))
  {
    RunInvariant(run, steps, i);
    var r := run[i];
    forall x | x in r.exports ensures Registered(r.snapshots, r.entries, r.exports[x]) && r.exports[x] !in r.closed {
      EndSeesItsEntry(r, x);
    }
  }

  /** No step extends a lease or reuses an entry. */
  lemma StepKeepsLease(r: Registry, step: Step, h: Handle)
    requires CanStep(r) && Enabled(r, step) && h in r.entries
    ensures h in Next(r, step).entries && SameLease(Next(r, step).entries[h], r.entries[h])
  {
    match step
    case ExportEnd(exporter, finishedAt) => EndKeepsLease(r, exporter, finishedAt, h);
    case Tick(_) =>
    case LateClose(_) =>
    case Mint(_, _, _) =>
    case Resolve(_) =>
    case _ => SweepKeepsLease(Cleaned(r), step, h);
  }

  lemma EndKeepsLease(r: Registry, exporter: nat, finishedAt: int, h: Handle)
    requires exporter in r.exports && r.exports[exporter] in r.entries && h in r.entries
    ensures h in ExportEnded(r, exporter, finishedAt).entries
    ensures SameLease(ExportEnded(r, exporter, finishedAt).entries[h], r.entries[h])
  {
  }

  lemma SweepKeepsLease(c: Registry, step: Step, h: Handle)
    requires Linked(c) && Sweeps(step) && h in c.entries && (step.Create? ==> step.handle !in c.entries)
    ensures h in AfterSweep(c, step).entries && SameLease(AfterSweep(c, step).entries[h], c.entries[h])
  {
  }

  lemma {:induction false} ExpiryNeverExtended(run: seq<Registry>, steps: seq<Step>, i: nat, j: nat, h: Handle)
    requires IsRun(run, steps) && i <= j < |run| && h in run[i].entries
    ensures h in run[j].entries && run[j].entries[h].expiresAt == run[i].entries[h].expiresAt
    ensures run[i].entries[h].expiresAt == run[i].entries[h].createdAt + run[i].ttl
    decreases j
  {
    if i == j {
      RunInvariant(run, steps, i);
    } else {
      ExpiryNeverExtended(run, steps, i, j - 1, h);
      assert StepAt(run, steps, j - 1);
      StepKeepsLease(run[j - 1], steps[j - 1], h);
    }
  }

  /** A sweep closes exactly the unpinned leases that lapsed. */
  lemma SweepIsExact(r: Registry, id: Id)
    requires Inv(r) && id in r.snapshots
    ensures Linked(r)
    ensures id in Cleaned(r).snapshots <==>
            (Flying(r.exports, r.snapshots[id]) != {} || !Lapsed(r, r.entries[r.snapshots[id]]))
    ensures id !in Cleaned(r).snapshots ==> r.snapshots[id] in Cleaned(r).closed
  {
  }

  // ----- Open read transactions -----

  ghost function HandlesOf(snapshots: map<Id, Handle>): set<Handle> {
    set id | id in snapshots :: snapshots[id]
  }

  lemma {:induction false} HandlesCounted(snapshots: map<Id, Handle>, entries: Entries)
    requires AtOwnId(snapshots, entries)
    ensures |HandlesOf(snapshots)| == |snapshots|
    decreases |snapshots|
  {
    if snapshots != map[] {
      var id :| id in snapshots;
      var rest := snapshots - {id};
      assert snapshots.Keys == rest.Keys + {id};
      HandlesCounted(rest, entries);
      assert HandlesOf(snapshots) == HandlesOf(rest) + {snapshots[id]};
      assert snapshots[id] !in HandlesOf(rest);
    }
  }

  /** The snapshots still holding a read transaction are the registered ones and those an
      exporter has removed but not yet closed: at most `maxActive` plus the late closes. */
  lemma OpenTransactions(r: Registry)
    requires Inv(r)
    ensures |r.entries.Keys - r.closed| == |r.snapshots| + |r.closing|
    ensures |r.entries.Keys - r.closed| <= r.maxActive + |r.closing|
  {
    HandlesCounted(r.snapshots, r.entries);
    OpenSplit(r);
    assert HandlesOf(r.snapshots) !! r.closing.Keys by { OpenDisjoint(r); }
    assert |HandlesOf(r.snapshots) + r.closing.Keys| == |HandlesOf(r.snapshots)| + |r.closing.Keys|;
    assert |r.closing| == |r.closing.Keys|;
  }

  lemma OpenDisjoint(r: Registry)
    requires Inv(r)
    ensures HandlesOf(r.snapshots) !! r.closing.Keys
  {
  }

  lemma OpenSplit(r: Registry)
    requires Inv(r)
    ensures r.entries.Keys - r.closed == HandlesOf(r.snapshots) + r.closing.Keys
  {
  }

  // ----- Cursors -----

  /** resolveCursor. */
  function ResolveToken(r: Registry, h: Handle, t: Token): Option<Claims>
    requires h in r.entries
  {
    if CursorOpen(r, h) && t in r.entries[h].cursors then Some(r.entries[h].cursors[t]) else None
  }

  /** A token resolves only to claims that were minted for that very entry, and those carry
      the entry's own id and bounds. */
  lemma TokenResolvesToItsMint(r: Registry, h: Handle, t: Token, claims: Claims)
    requires Inv(r) && h in r.entries && ResolveToken(r, h, t) == Some(claims)
    ensures t == Hmac(claims) && (h, claims) in r.minted
    ensures claims == ClaimsFor(r.entries[h], claims.lastAt, claims.session)
  {
  }

  ghost predicate MintsAt(run: seq<Registry>, steps: seq<Step>, j: nat, h: Handle, claims: Claims)
    requires j < |steps| && |run| == |steps| + 1
  {
    && steps[j].Mint? && steps[j].handle == h && h in run[j].entries
    && claims == ClaimsFor(run[j].entries[h], steps[j].lastAt, steps[j].session)
  }

  lemma StepMints(r: Registry, step: Step, h: Handle, claims: Claims)
    requires CanStep(r) && Enabled(r, step) && (h, claims) in Next(r, step).minted && (h, claims) !in r.minted
    ensures step.Mint? && step.handle == h && h in r.entries
    ensures claims == ClaimsFor(r.entries[h], step.lastAt, step.session)
  {
  }

  /** Whatever was recorded as minted was minted by an earlier step of the run. */
  lemma {:induction false} MintedEarlier(run: seq<Registry>, steps: seq<Step>, i: nat, h: Handle, claims: Claims)
    requires IsRun(run, steps) && i < |run| && (h, claims) in run[i].minted
    ensures exists j :: 0 <= j < i && MintsAt(run, steps, j, h, claims)
    decreases i
  {
    if i > 0 {
      assert StepAt(run, steps, i - 1);
      if (h, claims) in run[i - 1].minted {
        MintedEarlier(run, steps, i - 1, h, claims);
        var j :| 0 <= j < i - 1 && MintsAt(run, steps, j, h, claims);
      } else {
        StepMints(run[i - 1], steps[i - 1], h, claims);
        assert MintsAt(run, steps, i - 1, h, claims);
      }
    }
  }
}
