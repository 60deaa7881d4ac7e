/** The registry's critical sections as methods on its fields, each proved to perform the
corresponding step of the protocol (cmd/cpa-session-collector/snapshot.go). */
module RegistryObject {
  import opened Types
  import opened SnapshotRegistry

  class StableSnapshotRegistry {
    const ttl: int
    const idleTtl: int
    const maxActive: int
    var snapshots: map<Id, Handle>
    var entries: Entries
    var closed: set<Handle>
    var exports: map<nat, Handle>
    var closing: map<Handle, nat>
    var minted: set<(Handle, Claims)>

    ghost function View(now: int): Registry
      reads this
    {
      Registry(ttl, idleTtl, maxActive, now, snapshots, entries, closed, exports, closing, minted)
    }

    constructor (ttl: int, idleTtl: int, maxActive: int)
      requires maxActive >= 1
      ensures Init(View(0)) && this.ttl == ttl && this.idleTtl == idleTtl && this.maxActive == maxActive
    {
      this.ttl, this.idleTtl, this.maxActive := ttl, idleTtl, maxActive;
      snapshots, entries, closed, exports, closing, minted := map[], map[], {}, map[], map[], {};
    }

    /** The loop of cleanupLocked finds exactly the doomed ids, in any visiting order. */
    method FindDoomed(now: int) returns (doomed: set<Id>)
      requires Linked(View(now))
      ensures doomed == Doomed(View(now))
    {
      var pending := snapshots.Keys;
      doomed := {};
      while pending != {}
        invariant pending <= snapshots.Keys
        invariant forall id | id in snapshots && id !in pending :: id in doomed <==> id in Doomed(View(now))
        invariant doomed <= snapshots.Keys - pending
        decreases |pending|
      {
        var id :| id in pending;
        var e := entries[snapshots[id]];
        if e.activeExports <= 0 && (now >= e.expiresAt || now - e.lastUsedAt >= idleTtl) {
          doomed := doomed + {id};
        }
        pending := pending - {id};
      }
    }

    method CleanupLocked(now: int)
      requires Linked(View(now))
      modifies this`snapshots, this`closed
      ensures View(now) == Cleaned(old(View(now)))
    {
      var doomed := FindDoomed(now);
      closed := closed + set id | id in doomed :: snapshots[id];
      snapshots := snapshots - doomed;
    }

    /** create. A snapshot is begun only when there is room. */
    method Create(now: int, handle: Handle, id: Id, lowerBound: string, afterFence: string, limit: int, begun: Begun)
      returns (created: bool)
      requires Linked(View(now))
      modifies this
      ensures View(now) ==
              AfterSweep(Cleaned(old(View(now))), Step.Create(handle, id, lowerBound, afterFence, limit, begun))
      ensures created <==> begun.Opened? && |Cleaned(old(View(now))).snapshots| < maxActive
    {
      CleanupLocked(now);
      created := false;
      if |snapshots| >= maxActive || begun.BeginFailed? {
        return;
      }
      var e := Entry(id, lowerBound, afterFence, limit, now, now, now + ttl, map[], 0);
      if begun.RandomFailed? {
        entries, closed := entries[handle := e], closed + {handle};
        return;
      }
      entries, snapshots, created := entries[handle := e], snapshots[id := handle], true;
    }

    /** get: the lease is renewed only for the bounds it was created with. */
    method Get(now: int, id: Id, lowerBound: string, afterFence: string, limit: int) returns (found: bool)
      requires Linked(View(now))
      modifies this
      ensures View(now) == AfterSweep(Cleaned(old(View(now))), Step.Get(id, lowerBound, afterFence, limit))
      ensures var c := Cleaned(old(View(now)));
              found <==> Live(c, id) && SameBounds(c.entries[c.snapshots[id]], lowerBound, afterFence, limit)
    {
      CleanupLocked(now);
      found := id in snapshots && now < entries[snapshots[id]].expiresAt
               && SameBounds(entries[snapshots[id]], lowerBound, afterFence, limit);
      if found {
        var h := snapshots[id];
        entries := entries[h := entries[h].(lastUsedAt := now)];
      }
    }

    /** The first critical section of export. */
    method ExportBegin(now: int, exporter: nat, id: Id) returns (begun: bool)
      requires Linked(View(now))
      modifies this
      ensures View(now) == AfterSweep(Cleaned(old(View(now))), Step.ExportBegin(exporter, id))
      ensures begun <==> Live(Cleaned(old(View(now))), id)
    {
      CleanupLocked(now);
      begun := id in snapshots && now < entries[snapshots[id]].expiresAt;
      if begun {
        var h := snapshots[id];
        var e := entries[h];
        entries := entries[h := e.(lastUsedAt := now, activeExports := e.activeExports + 1)];
        exports := exports[exporter := h];
      }
    }

    /** The second critical section of export; `close` tells the exporter to close late. */
    method ExportEnd(now: int, exporter: nat, finishedAt: int) returns (close: bool)
      requires exporter in exports && exports[exporter] in entries
      modifies this
      ensures View(now) == ExportEnded(old(View(now)), exporter, finishedAt)
      ensures var h := old(exports[exporter]);
              && (close <==> Registered(old(snapshots), old(entries), h) && finishedAt >= old(entries)[h].expiresAt
                             && old(entries)[h].activeExports == 1)
              && (close ==> h in closing && closing[h] == exporter && !Registered(snapshots, entries, h))
    {
      var h := exports[exporter];
      var e := entries[h].(activeExports := entries[h].activeExports - 1);
      exports := exports - {exporter};
      close := false;
      if e.id in snapshots && snapshots[e.id] == h {
        e := e.(lastUsedAt := finishedAt);
        if finishedAt >= e.expiresAt && e.activeExports == 0 {
          snapshots, closing, close := snapshots - {e.id}, closing[h := exporter], true;
        }
      }
      entries := entries[h := e];
    }

    /** cursor: mints a token for the page that follows. */
    method Cursor(now: int, h: Handle, lastAt: int, session: string) returns (t: Option<Token>)
      requires h in entries
      modifies this`entries, this`minted
      ensures View(now) == if CursorOpen(old(View(now)), h)
                           then Minted(old(View(now)), h, ClaimsFor(old(entries[h]), lastAt, session))
                           else old(View(now))
      ensures t == if CursorOpen(old(View(now)), h)
                   then Some(Hmac(ClaimsFor(old(entries[h]), lastAt, session))) else None
    {
      var e := entries[h];
      if e.id !in snapshots || snapshots[e.id] != h || now >= e.expiresAt {
        return None;
      }
      var claims := ClaimsFor(e, lastAt, session);
      t := Some(Hmac(claims));
      entries := entries[h := e.(lastUsedAt := now, cursors := e.cursors[Hmac(claims) := claims])];
      minted := minted + {(h, claims)};
    }
  }
}
