/** Writers and the mark-and-sweep collector on one shared insert-or-ignore blob table
(internal/archive/store.go). A transaction is one step. */
module Collector {
  import opened Types
  import opened Cas
  import opened BlobStore

  // ----- Every run of writers and collections -----

  /** The blob table and, per request, the payload roots its record names. */
  datatype Vault = Vault(blobs: Store, refs: map<string, set<Hash>>)

  datatype Step =
    | Write(payloads: set<Bytes>, refs: map<string, set<Hash>>)
    | Collect

  ghost function Roots(v: Vault): set<Hash> {
    set request, h | request in v.refs && h in v.refs[request] && h != "" :: h
  }

  /** A writer may drop references freely, but names only roots that were already
      referenced or that its own transaction puts. */
  ghost predicate Enabled(c: Codec, v: Vault, step: Step) {
    match step
    case Write(payloads, refs) =>
      && (forall raw | raw in payloads :: Wellformed(c, raw))
      && forall h | h in Roots(v.(refs := refs)) :: h in Roots(v) || exists raw ::
          raw in payloads && h == RootOf(c, raw)
    case Collect => true
  }

  ghost function WrittenBlobs(c: Codec, payloads: set<Bytes>): set<Bytes> {
    set raw, d | raw in payloads && d in PayloadBlobs(c, raw) :: d
  }

  ghost predicate Next(c: Codec, v: Vault, step: Step, w: Vault) {
    match step
    case Write(payloads, refs) => Inserted(c, v.blobs, WrittenBlobs(c, payloads), w.blobs) && w.refs == refs
    case Collect => w == if Intact(c, v.blobs, Roots(v)) then v.(blobs := Swept(c, v.blobs, Roots(v))) else v
  }

  ghost predicate IsRun(c: Codec, run: seq<Vault>, steps: seq<Step>) {
    && |run| == |steps| + 1
    && run[0] == Vault(map[], map[])
    && forall i | 0 <= i < |steps| :: StepAt(c, run, steps, i)
  }

  ghost predicate StepAt(c: Codec, run: seq<Vault>, steps: seq<Step>, i: nat)
    requires i < |steps| && |run| == |steps| + 1
  {
    Enabled(c, run[i], steps[i]) && Next(c, run[i], steps[i], run[i + 1])
  }

  /** `h` is the root of some payload and loads back as what compaction kept of it. */
  ghost predicate Meaningful(c: Codec, store: Store, h: Hash) {
    exists raw :: raw != [] && h == RootOf(c, raw) && LoadsTo(c, store, h, ReadBack(c, raw))
  }

  ghost predicate Inv(c: Codec, v: Vault) {
    Addressed(c, v.blobs) && forall h | h in Roots(v) :: Meaningful(c, v.blobs, h)
  }

  /** A root that stays referenced keeps the bytes it loads to. */
  lemma StepKeepsLoad(c: Codec, v: Vault, step: Step, w: Vault, h: Hash, bytes: Bytes)
    requires c.unmarshal([]).None? && Next(c, v, step, w)
    requires h in Roots(v) && LoadsTo(c, v.blobs, h, bytes)
    ensures LoadsTo(c, w.blobs, h, bytes)
  {
    match step
    case Write(payloads, _) => LoadFrame(c, v.blobs, w.blobs, h, bytes);
    case Collect => SweepKeepsLoads(c, v.blobs, Roots(v), h, bytes);
  }

  /** A root that a write puts loads as its payload right after the write. */
  lemma WriteLoads(c: Codec, v: Vault, step: Step, w: Vault, raw: Bytes)
    requires Lawful(c) && Addressed(c, v.blobs) && Enabled(c, v, step) && Next(c, v, step, w)
    requires step.Write? && raw in step.payloads && raw != []
    ensures LoadsTo(c, w.blobs, RootOf(c, raw), ReadBack(c, raw))
  {
    InsertedHolds(c, v.blobs, WrittenBlobs(c, step.payloads), w.blobs);
    assert forall d | d in PayloadBlobs(c, raw) :: d in WrittenBlobs(c, step.payloads);
    PutLoads(c, w.blobs, raw);
  }

  lemma StepPreserves(c: Codec, v: Vault, step: Step, w: Vault)
    requires Lawful(c) && Inv(c, v) && Enabled(c, v, step) && Next(c, v, step, w)
    ensures Inv(c, w)
  {
    if step.Write? { InsertedHolds(c, v.blobs, WrittenBlobs(c, step.payloads), w.blobs); }
    forall h | h in Roots(w) ensures Meaningful(c, w.blobs, h) {
      if h in Roots(v) {
        var raw :| raw != [] && h == RootOf(c, raw) && LoadsTo(c, v.blobs, h, ReadBack(c, raw));
        StepKeepsLoad(c, v, step, w, h, ReadBack(c, raw));
      } else {
        var raw :| raw in step.payloads && h == RootOf(c, raw);
        WriteLoads(c, v, step, w, raw);
      }
    }
  }

  lemma StepAtPreserves(c: Codec, run: seq<Vault>, steps: seq<Step>, i: nat)
    requires Lawful(c) && IsRun(c, run, steps) && i < |steps| && Inv(c, run[i])
    ensures Inv(c, run[i + 1])
  {
    assert StepAt(c, run, steps, i);
    StepPreserves(c, run[i], steps[i], run[i + 1]);
  }

  /** In every reachable state every referenced root loads to the payload it was made from. */
  lemma {:induction false} RunInvariant(c: Codec, run: seq<Vault>, steps: seq<Step>, i: nat)
    requires Lawful(c) && IsRun(c, run, steps) && i < |run|
    ensures Inv(c, run[i])
    decreases i
  {
    if i > 0 {
      RunInvariant(c, run, steps, i - 1);
      StepAtPreserves(c, run, steps, i - 1);
    }
  }

  lemma StepAtKeepsLoad(c: Codec, run: seq<Vault>, steps: seq<Step>, i: nat, h: Hash, bytes: Bytes)
    requires c.unmarshal([]).None? && IsRun(c, run, steps) && i < |steps|
    requires h in Roots(run[i]) && LoadsTo(c, run[i].blobs, h, bytes)
    ensures LoadsTo(c, run[i + 1].blobs, h, bytes)
  {
    assert StepAt(c, run, steps, i);
    StepKeepsLoad(c, run[i], steps[i], run[i + 1], h, bytes);
  }

  lemma {:induction false} LoadPersists(c: Codec, run: seq<Vault>, steps: seq<Step>, i: nat, j: nat, h: Hash,
                                        bytes: Bytes)
    requires c.unmarshal([]).None? && IsRun(c, run, steps) && i <= j < |run|
    requires LoadsTo(c, run[i].blobs, h, bytes) && forall k | i <= k < j :: h in Roots(run[k])
    ensures LoadsTo(c, run[j].blobs, h, bytes)
    decreases j
  {
    if i < j {
      LoadPersists(c, run, steps, i, j - 1, h, bytes);
      StepAtKeepsLoad(c, run, steps, j - 1, h, bytes);
    }
  }

  lemma StepAtLoads(c: Codec, run: seq<Vault>, steps: seq<Step>, i: nat, raw: Bytes)
    requires Lawful(c) && IsRun(c, run, steps) && i < |steps|
    requires steps[i].Write? && raw in steps[i].payloads && raw != []
    ensures LoadsTo(c, run[i + 1].blobs, RootOf(c, raw), ReadBack(c, raw))
  {
    RunInvariant(c, run, steps, i);
    assert StepAt(c, run, steps, i);
    WriteLoads(c, run[i], steps[i], run[i + 1], raw);
  }

  /** Whatever writers and collections run in between, a payload that stays referenced
      loads to what it was when it was first stored. */
  lemma ReferencedPayloadSurvives(c: Codec, run: seq<Vault>, steps: seq<Step>, i: nat, j: nat, raw: Bytes)
    requires Lawful(c) && IsRun(c, run, steps) && i < j < |run|
    requires steps[i].Write? && raw in steps[i].payloads && raw != []
    requires forall k | i < k < j :: RootOf(c, raw) in Roots(run[k])
    ensures LoadsTo(c, run[j].blobs, RootOf(c, raw), ReadBack(c, raw))
  {
    StepAtLoads(c, run, steps, i, raw);
    LoadPersists(c, run, steps, i + 1, j, RootOf(c, raw), ReadBack(c, raw));
  }

  // ----- The collector and the writer as the loops the program runs -----

  method Walk(v: Json, found: seq<Hash>) returns (out: seq<Hash>)
    ensures forall h :: h in out <==> h in found || h in Refs(v)
    decreases v
  {
    out := found;
    match v
    case Arr(items) =>
      for i := 0 to |items|
        invariant forall h :: h in out <==> h in found || exists j :: 0 <= j < i && h in Refs(items[j])
      {
        out := Walk(items[i], out);
      }
    case Obj(fields) =>
      if IsRef(fields) && fields[REF_KEY].text != "" {
        out := out + [fields[REF_KEY].text];
      } else {
        var pending := fields.Keys;
        while pending != {}
          invariant pending <= fields.Keys
          invariant forall h :: h in out <==> h in found || exists k ::
              k in fields && k !in pending && h in Refs(fields[k])
          decreases |pending|
        {
          var k :| k in pending;
          out := Walk(fields[k], out);
          pending := pending - {k};
        }
      }
    case _ =>
  }

  method NestedBlobRefs(c: Codec, raw: Bytes) returns (out: seq<Hash>)
    ensures forall h :: h in out <==> h in NestedRefs(c, raw)
  {
    out := [];
    match c.unmarshal(raw)
    case Some(v) => out := Walk(v, out);
    case None =>
  }

  ghost function AsSet(s: seq<Hash>): set<Hash> {
    set h | h in s
  }

  /** Marked blobs are present and reachable, the queue is reachable, and no root and no
      reference of a marked blob has been forgotten. */
  ghost predicate Marking(c: Codec, store: Store, roots: set<Hash>, marked: set<Hash>, queue: seq<Hash>) {
    && marked <= store.Keys
    && (forall h | h in queue || h in marked :: Reachable(c, store, roots, h))
    && (forall h | h in roots :: h in queue || h in marked)
    && (forall a, b | a in marked && b in NestedRefs(c, store[a]) :: b in queue || b in marked)
  }

  lemma PopMarked(c: Codec, store: Store, roots: set<Hash>, marked: set<Hash>, queue: seq<Hash>)
    requires Marking(c, store, roots, marked, queue) && queue != [] && queue[|queue| - 1] in marked
    ensures Marking(c, store, roots, marked, queue[..|queue| - 1])
  {
  }

  lemma PopFresh(c: Codec, store: Store, roots: set<Hash>, marked: set<Hash>, queue: seq<Hash>, refs: seq<Hash>)
    requires Marking(c, store, roots, marked, queue) && queue != [] && queue[|queue| - 1] in store
    requires forall h :: h in refs <==> h in NestedRefs(c, store[queue[|queue| - 1]])
    ensures Marking(c, store, roots, marked + {queue[|queue| - 1]}, queue[..|queue| - 1] + refs)
  {
    var hash := queue[|queue| - 1];
    assert queue == queue[..|queue| - 1] + [hash];
    forall r | r in refs ensures Reachable(c, store, roots, r) { StepReachable(c, store, roots, hash, r); }
  }

  lemma MarkingDone(c: Codec, store: Store, roots: set<Hash>, marked: set<Hash>)
    requires Marking(c, store, roots, marked, [])
    ensures Intact(c, store, roots) && forall h :: h in marked <==> Reachable(c, store, roots, h)
  {
    forall h | Reachable(c, store, roots, h) ensures h in marked {
      ClosedCoversReachable(c, store, roots, marked, h);
    }
  }

  /** The marking worklist. It terminates on every reference graph, cyclic ones included. */
  method Mark(c: Codec, store: Store, roots: seq<Hash>) returns (ok: bool, marked: set<Hash>)
    ensures ok <==> Intact(c, store, AsSet(roots))
    ensures ok ==> marked <= store.Keys && forall h :: h in marked <==> Reachable(c, store, AsSet(roots), h)
  {
    var queue := roots;
    marked := {};
    forall h | h in queue ensures Reachable(c, store, AsSet(roots), h) { RootReachable(c, store, AsSet(roots), h); }
    while queue != []
      invariant Marking(c, store, AsSet(roots), marked, queue)
      decreases store.Keys - marked, |queue|
    {
      var hash := queue[|queue| - 1];
      if hash in marked {
        PopMarked(c, store, AsSet(roots), marked, queue);
        queue := queue[..|queue| - 1];
      } else {
        if hash !in store {
          return false, marked;
        }
        var refs := NestedBlobRefs(c, store[hash]);
        PopFresh(c, store, AsSet(roots), marked, queue, refs);
        marked := marked + {hash};
        queue := queue[..|queue| - 1] + refs;
      }
    }
    ok := true;
    MarkingDone(c, store, AsSet(roots), marked);
  }

  class BlobTable {
    var blobs: Store

    constructor ()
      ensures blobs == map[]
    {
      blobs := map[];
    }

    /** GC: all or nothing. A missing reachable blob aborts it before any deletion. */
    method Gc(c: Codec, roots: seq<Hash>) returns (deleted: Option<nat>)
      modifies this
      ensures deleted.Some? <==> old(Intact(c, blobs, AsSet(roots)))
      ensures deleted.None? ==> blobs == old(blobs)
      ensures deleted.Some? ==> blobs == old(Swept(c, blobs, AsSet(roots))) && deleted.value == |old(blobs)| - |blobs|
    {
      var ok, marked := Mark(c, blobs, roots);
      if !ok {
        return None;
      }
      var stale := blobs.Keys - marked;
      var count := |stale|;
      DeleteAll(stale);
      SweptSize(c, old(blobs), AsSet(roots), marked);
      deleted := Some(count);
    }

    method DeleteAll(stale: set<Hash>)
      modifies this
      ensures blobs == old(blobs) - stale
    {
      var pending := stale;
      while pending != {}
        invariant pending <= stale
        invariant blobs == old(blobs) - (stale - pending)
        decreases |pending|
      {
        var hash :| hash in pending;
        blobs := blobs - {hash};
        pending := pending - {hash};
      }
    }

    /** putBlob: insert or ignore. */
    method PutBlob(c: Codec, data: Bytes, ghost base: Store, ghost put: set<Bytes>)
      requires CollisionFree(c) && Inserted(c, base, put, blobs)
      modifies this
      ensures Inserted(c, base, put + {data}, blobs)
    {
      var hash := c.sha(data);
      if hash !in blobs {
        blobs := blobs[hash := data];
      }
    }

    method PutBlobs(c: Codec, incoming: set<Bytes>)
      requires CollisionFree(c)
      modifies this
      ensures Inserted(c, old(blobs), incoming, blobs)
    {
      var pending := incoming;
      ghost var put: set<Bytes> := {};
      while pending != {}
        invariant pending + put == incoming
        invariant Inserted(c, old(blobs), put, blobs)
        decreases |pending|
      {
        var data :| data in pending;
        PutBlob(c, data, old(blobs), put);
        pending, put := pending - {data}, put + {data};
      }
      assert put == incoming;
    }

    /** putPayload: the manifest and its blobs enter the table unless already there. */
    method PutPayload(c: Codec, raw: Bytes) returns (root: Hash)
      requires CollisionFree(c)
      modifies this
      ensures root == RootOf(c, raw)
      ensures Inserted(c, old(blobs), PayloadBlobs(c, raw), blobs)
    {
      if raw == [] {
        return "";
      }
      var manifest, table := CompactPayloadBlobs(c, raw);
      PutBlobs(c, table.Values);
      PutBlob(c, manifest, old(blobs), table.Values);
      root := c.sha(manifest);
    }
  }

  lemma SweptKeys(c: Codec, store: Store, roots: set<Hash>, marked: set<Hash>)
    requires marked <= store.Keys && forall h :: h in marked <==> Reachable(c, store, roots, h)
    ensures Swept(c, store, roots) == map h | h in marked :: store[h]
  {
  }

  lemma SweptSize(c: Codec, store: Store, roots: set<Hash>, marked: set<Hash>)
    requires marked <= store.Keys && forall h :: h in marked <==> Reachable(c, store, roots, h)
    ensures store - (store.Keys - marked) == Swept(c, store, roots)
    ensures |Swept(c, store, roots)| == |store| - |store.Keys - marked|
  {
    SweptKeys(c, store, roots, marked);
    KeptSize(store, marked);
  }

  lemma KeptSize(store: Store, marked: set<Hash>)
    requires marked <= store.Keys
    ensures store - (store.Keys - marked) == map h | h in marked :: store[h]
    ensures |map h | h in marked :: store[h]| == |store| - |store.Keys - marked|
  {
  }

  method CompactPayloadBlobs(c: Codec, raw: Bytes) returns (manifest: Bytes, table: Store)
    requires CollisionFree(c) && raw != []
    ensures manifest == CompactPayload(c, raw).manifest
    ensures Addressed(c, table) && table.Values == CompactPayload(c, raw).blobs
  {
    var event := TerminalSse(c, raw);
    var source := if event.Some? then c.marshal(event.value) else raw;
    table := map[];
    match c.decodeFirst(source)
    case Some(v) =>
      var compacted;
      compacted, table := CompactValue(c, v, false, table);
      manifest := c.marshal(compacted);
    case None =>
      table := AddBlob(c, source, table);
      manifest := c.marshal(RefJson(c.sha(source), "raw", |source|, ""));
  }
}
