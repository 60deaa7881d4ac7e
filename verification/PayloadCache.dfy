/** Loading payloads through the export cache, and the prefetch that follows their references
(internal/archive/store.go). */
module PayloadCache {
  import opened Types
  import opened Cas
  import opened BlobStore
  import opened BoundedCache

  // ----- References of a manifest -----

  /** The references whose blobs are themselves manifests. */
  function JsonRefs(v: Json): set<Hash> {
    match v
    case Arr(items) => set i, h | 0 <= i < |items| && h in JsonRefs(items[i]) :: h
    case Obj(fields) =>
      if IsRef(fields) && fields[REF_KEY].text != ""
      then if TextField(fields, "encoding") == "json" then {fields[REF_KEY].text} else {}
      else set k, h | k in fields && h in JsonRefs(fields[k]) :: h
    case _ => {}
  }

  method VisitRefs(v: Json, refs: seq<Hash>, jsonRefs: seq<Hash>) returns (outRefs: seq<Hash>, outJson: seq<Hash>)
    ensures forall h :: h in outRefs <==> h in refs || h in Refs(v)
    ensures forall h :: h in outJson <==> h in jsonRefs || h in JsonRefs(v)
    decreases v
  {
    outRefs, outJson := refs, jsonRefs;
    match v
    case Arr(items) =>
      for i := 0 to |items|
        invariant forall h :: h in outRefs <==> h in refs || exists j :: 0 <= j < i && h in Refs(items[j])
        invariant forall h :: h in outJson <==> h in jsonRefs || exists j :: 0 <= j < i && h in JsonRefs(items[j])
      {
        outRefs, outJson := VisitRefs(items[i], outRefs, outJson);
      }
    case Obj(fields) =>
      if IsRef(fields) && fields[REF_KEY].text != "" {
        outRefs := outRefs + [fields[REF_KEY].text];
        if TextField(fields, "encoding") == "json" { outJson := outJson + [fields[REF_KEY].text]; }
      } else {
        outRefs, outJson := VisitFields(v, refs, jsonRefs);
      }
    case _ =>
  }

  method VisitFields(v: Json, refs: seq<Hash>, jsonRefs: seq<Hash>) returns (outRefs: seq<Hash>, outJson: seq<Hash>)
    requires v.Obj?
    ensures forall h :: h in outRefs <==> h in refs || exists k :: k in v.fields && h in Refs(v.fields[k])
    ensures forall h :: h in outJson <==> h in jsonRefs || exists k :: k in v.fields && h in JsonRefs(v.fields[k])
    decreases v, 0
  {
    outRefs, outJson := refs, jsonRefs;
    var pending := v.fields.Keys;
    while pending != {}
      invariant pending <= v.fields.Keys
      invariant forall h :: h in outRefs <==> h in refs || exists k ::
          k in v.fields && k !in pending && h in Refs(v.fields[k])
      invariant forall h :: h in outJson <==> h in jsonRefs || exists k ::
          k in v.fields && k !in pending && h in JsonRefs(v.fields[k])
      decreases |pending|
    {
      var k :| k in pending;
      outRefs, outJson := VisitRefs(v.fields[k], outRefs, outJson);
      pending := pending - {k};
    }
  }

  lemma {:induction false} JsonRefsAreRefs(v: Json)
    ensures JsonRefs(v) <= Refs(v)
    decreases v
  {
    match v
    case Arr(items) =>
      forall i | 0 <= i < |items|
        ensures JsonRefs(items[i]) <= Refs(items[i])
      {
        JsonRefsAreRefs(items[i]);
      }
    case Obj(fields) =>
      forall k | k in fields
        ensures JsonRefs(fields[k]) <= Refs(fields[k])
      {
        JsonRefsAreRefs(fields[k]);
      }
    case _ =>
  }

  // ----- Loading through the cache -----

  /** expandValue over the cache agrees with expansion over the table. */
  method ExpandValue(cache: Cache, c: Codec, store: Store, v: Json, fuel: nat) returns (r: Option<Json>)
    requires cache.Valid(store)
    modifies cache
    ensures cache.Valid(store) && r == Expand(c, store, v, fuel)
    decreases fuel, v, 1
  {
    match v
    case Arr(_) => r := ExpandItems(cache, c, store, v, fuel);
    case Obj(fields) =>
      if IsRef(fields) {
        r := ExpandReference(cache, c, store, v, fuel);
      } else {
        r := ExpandFields(cache, c, store, v, fuel);
      }
    case _ => r := Some(v);
  }

  method ExpandReference(cache: Cache, c: Codec, store: Store, v: Json, fuel: nat) returns (r: Option<Json>)
    requires cache.Valid(store) && v.Obj? && IsRef(v.fields)
    modifies cache
    ensures cache.Valid(store) && r == ExpandRef(c, store, v.fields, fuel)
    decreases fuel, v, 0
  {
    var loaded := cache.LoadBlob(v.fields[REF_KEY].text, store);
    if loaded.None? {
      return None;
    }
    var encoding := TextField(v.fields, "encoding");
    if encoding == "raw" {
      r := Some(RawPayload(loaded.value));
    } else if encoding == "utf8" {
      r := Some(Str(loaded.value));
    } else if encoding == "data-url" {
      r := Some(Str(DataUrlText(c, TextField(v.fields, "media_type"), loaded.value)));
    } else if encoding == "json" && fuel > 0 && c.unmarshal(loaded.value).Some? {
      r := ExpandValue(cache, c, store, c.unmarshal(loaded.value).value, fuel - 1);
    } else {
      r := None;
    }
  }

  method ExpandItems(cache: Cache, c: Codec, store: Store, v: Json, fuel: nat) returns (r: Option<Json>)
    requires cache.Valid(store) && v.Arr?
    modifies cache
    ensures cache.Valid(store) && r == Expand(c, store, v, fuel)
    decreases fuel, v, 0
  {
    var out: seq<Json> := [];
    for i := 0 to |v.items|
      invariant cache.Valid(store) && |out| == i
      invariant forall j | 0 <= j < i :: Expand(c, store, v.items[j], fuel) == Some(out[j])
    {
      var item := ExpandValue(cache, c, store, v.items[i], fuel);
      if item.None? {
        return None;
      }
      out := out + [item.value];
    }
    r := Some(Arr(out));
    assert Expand(c, store, v, fuel).value.items == out;
  }

  /** The fields expanded so far. */
  ghost predicate Expanded(c: Codec, store: Store, fields: map<string, Json>, fuel: nat, done: map<string, Json>) {
    forall k | k in done :: k in fields && Expand(c, store, fields[k], fuel) == Some(done[k])
  }

  method ExpandEach(cache: Cache, c: Codec, store: Store, v: Json, fuel: nat) returns (out: Option<map<string, Json>>)
    requires cache.Valid(store) && v.Obj?
    modifies cache
    ensures cache.Valid(store)
    ensures out.None? ==> exists k :: k in v.fields && Expand(c, store, v.fields[k], fuel).None?
    ensures out.Some? ==> out.value.Keys == v.fields.Keys && Expanded(c, store, v.fields, fuel, out.value)
    decreases fuel, v, 0, 0
  {
    var pending := v.fields.Keys;
    var done: map<string, Json> := map[];
    while pending != {}
      invariant cache.Valid(store)
      invariant pending <= v.fields.Keys && done.Keys == v.fields.Keys - pending
      invariant Expanded(c, store, v.fields, fuel, done)
      decreases |pending|
    {
      var k :| k in pending;
      var item := ExpandValue(cache, c, store, v.fields[k], fuel);
      if item.None? {
        return None;
      }
      ExpandedMore(c, store, v.fields, fuel, done, k, item.value);
      done := done[k := item.value];
      pending := pending - {k};
    }
    out := Some(done);
  }

  lemma ExpandedMore(c: Codec, store: Store, fields: map<string, Json>, fuel: nat, done: map<string, Json>, k: string,
                     value: Json)
    requires Expanded(c, store, fields, fuel, done) && k in fields && Expand(c, store, fields[k], fuel) == Some(value)
    ensures Expanded(c, store, fields, fuel, done[k := value])
  {
  }

  method ExpandFields(cache: Cache, c: Codec, store: Store, v: Json, fuel: nat) returns (r: Option<Json>)
    requires cache.Valid(store) && v.Obj? && !IsRef(v.fields)
    modifies cache
    ensures cache.Valid(store) && r == Expand(c, store, v, fuel)
    decreases fuel, v, 0, 1
  {
    var out := ExpandEach(cache, c, store, v, fuel);
    if out.None? {
      return None;
    }
    AssembleFields(c, store, v.fields, out.value, fuel);
    r := Some(Obj(out.value));
  }

  /** loadPayloadWithCache returns what an uncached load returns. */
  method LoadPayload(cache: Cache, c: Codec, store: Store, hash: Hash, fuel: nat) returns (r: Option<Bytes>)
    requires cache.Valid(store)
    modifies cache
    ensures cache.Valid(store)
    ensures r == match Load(store, hash)
                 case Some(manifest) => ExpandPayload(c, store, manifest, fuel)
                 case None => None
  {
    var manifest := cache.LoadBlob(hash, store);
    if manifest.None? {
      return None;
    }
    if manifest.value == [] {
      return Some([]);
    }
    var decoded := c.unmarshal(manifest.value);
    if decoded.None? {
      return None;
    }
    var expanded := ExpandValue(cache, c, store, decoded.value, fuel);
    match expanded
    case None => r := None;
    case Some(RawPayload(data)) => r := Some(data);
    case Some(value) => r := Some(c.marshal(value));
  }

  // ----- Following references ahead of the loads -----

  ghost function NonEmpty(hashes: seq<Hash>): set<Hash> {
    HashSet(hashes) - {""}
  }

  method Wanted(cache: Cache, pending: seq<Hash>, loaded: set<Hash>) returns (need: seq<Hash>, seen: set<Hash>)
    ensures seen == loaded + NonEmpty(pending)
    ensures cache.AllNew(need) && HashSet(need) <= HashSet(pending)
    ensures forall h | h in seen && h !in loaded :: h in need || h in cache.values
  {
    need, seen := [], loaded;
    for i := 0 to |pending|
      invariant seen == loaded + NonEmpty(pending[..i])
      invariant cache.AllNew(need) && (forall h | h in need :: h in seen && h in pending)
      invariant forall h | h in seen && h !in loaded :: h in need || h in cache.values
    {
      assert pending[..i + 1] == pending[..i] + [pending[i]];
      if pending[i] != "" && pending[i] !in seen {
        seen := seen + {pending[i]};
        if pending[i] !in cache.values { need := need + [pending[i]]; }
      }
    }
    assert pending[..|pending|] == pending;
  }

  lemma {:induction false} NoEmptyRefs(v: Json)
    ensures "" !in Refs(v)
    decreases v
  {
    match v
    case Arr(items) => forall i | 0 <= i < |items| ensures "" !in Refs(items[i]) { NoEmptyRefs(items[i]); }
    case Obj(fields) => forall k | k in fields ensures "" !in Refs(fields[k]) { NoEmptyRefs(fields[k]); }
    case _ =>
  }

  /** If the bytes are a manifest, all it refers to is in `refs` and all the manifests it refers
      to are in `manifests`. */
  ghost predicate Followed(c: Codec, raw: Bytes, refs: set<Hash>, manifests: set<Hash>) {
    match c.unmarshal(raw)
    case Some(v) => Refs(v) <= refs && JsonRefs(v) <= manifests
    case None => true
  }

  /** payloadBlobReferences of one cached blob, appended to what was found so far. */
  method InspectOne(c: Codec, raw: Bytes, pending: seq<Hash>, inspect: seq<Hash>)
    returns (outPending: seq<Hash>, outInspect: seq<Hash>)
    requires HashSet(inspect) <= HashSet(pending) && "" !in HashSet(pending)
    ensures HashSet(outInspect) <= HashSet(outPending) && "" !in HashSet(outPending)
    ensures HashSet(pending) <= HashSet(outPending) <= HashSet(pending) + NestedRefs(c, raw)
    ensures HashSet(inspect) <= HashSet(outInspect)
    ensures Followed(c, raw, HashSet(outPending), HashSet(outInspect))
    ensures c.unmarshal(raw).None? ==> outPending == pending && outInspect == inspect
  {
    outPending, outInspect := pending, inspect;
    match c.unmarshal(raw)
    case Some(v) =>
      outPending, outInspect := VisitRefs(v, pending, inspect);
      JsonRefsAreRefs(v);
      NoEmptyRefs(v);
      forall h | h in outInspect ensures h in outPending {
        if h in inspect { assert h in HashSet(inspect); }
      }
    case None =>
  }

  lemma FollowedMore(c: Codec, raw: Bytes, refs: set<Hash>, manifests: set<Hash>, moreRefs: set<Hash>,
                     moreManifests: set<Hash>)
    requires Followed(c, raw, refs, manifests) && refs <= moreRefs && manifests <= moreManifests
    ensures Followed(c, raw, moreRefs, moreManifests)
  {
  }

  ghost predicate AllFollowed(c: Codec, blobs: Store, hashes: set<Hash>, refs: set<Hash>, manifests: set<Hash>) {
    forall h | h in hashes && h in blobs :: Followed(c, blobs[h], refs, manifests)
  }

  lemma AllFollowedMore(c: Codec, blobs: Store, hashes: set<Hash>, refs: set<Hash>, manifests: set<Hash>,
                        moreRefs: set<Hash>, moreManifests: set<Hash>)
    requires AllFollowed(c, blobs, hashes, refs, manifests) && refs <= moreRefs && manifests <= moreManifests
    ensures AllFollowed(c, blobs, hashes, moreRefs, moreManifests)
  {
    forall h | h in hashes && h in blobs ensures Followed(c, blobs[h], moreRefs, moreManifests) {
      FollowedMore(c, blobs[h], refs, manifests, moreRefs, moreManifests);
    }
  }

  ghost predicate AllReachable(c: Codec, store: Store, roots: set<Hash>, hashes: set<Hash>) {
    forall h | h in hashes && h != "" :: Reachable(c, store, roots, h)
  }

  lemma RefsReachable(c: Codec, store: Store, roots: set<Hash>, h: Hash, found: set<Hash>)
    requires Reachable(c, store, roots, h) && h in store && AllReachable(c, store, roots, found)
    ensures AllReachable(c, store, roots, found + NestedRefs(c, store[h]))
  {
    forall q | q in NestedRefs(c, store[h])
      ensures Reachable(c, store, roots, q)
    {
      StepReachable(c, store, roots, h, q);
    }
  }

  /** One round over the manifests to inspect. If it finds anything to do next, it has inspected
      a cached blob that no earlier round had. */
  method Inspect(cache: Cache, c: Codec, store: Store, current: seq<Hash>, inspected: set<Hash>, ghost roots: set<Hash>)
    returns (pending: seq<Hash>, inspect: seq<Hash>, seen: set<Hash>)
    requires cache.Valid(store) && AllReachable(c, store, roots, HashSet(current))
    ensures seen == inspected + NonEmpty(current) && HashSet(inspect) <= HashSet(pending) && "" !in HashSet(pending)
    ensures pending == [] == inspect || exists h :: h in store && h in seen && h !in inspected
    ensures AllReachable(c, store, roots, HashSet(pending))
    ensures AllFollowed(c, cache.values, seen - inspected, HashSet(pending), HashSet(inspect))
  {
    pending, inspect, seen := [], [], inspected;
    for i := 0 to |current|
      invariant seen == inspected + NonEmpty(current[..i]) && HashSet(inspect) <= HashSet(pending)
      invariant "" !in HashSet(pending)
      invariant pending == [] == inspect || exists h :: h in store && h in seen && h !in inspected
      invariant AllReachable(c, store, roots, HashSet(pending))
      invariant AllFollowed(c, cache.values, seen - inspected, HashSet(pending), HashSet(inspect))
    {
      assert current[..i + 1] == current[..i] + [current[i]];
      assert current[i] in HashSet(current);
      if current[i] != "" && current[i] !in seen {
        pending, inspect := InspectHash(cache, c, store, current[i], seen - inspected, pending, inspect, roots);
        assert seen + {current[i]} - inspected == seen - inspected + {current[i]};
        seen := seen + {current[i]};
      }
    }
    assert current[..|current|] == current;
  }

  method InspectHash(cache: Cache, c: Codec, store: Store, hash: Hash, ghost done: set<Hash>, pending: seq<Hash>,
                     inspect: seq<Hash>, ghost roots: set<Hash>) returns (outPending: seq<Hash>, outInspect: seq<Hash>)
    requires cache.Valid(store) && hash != "" && Reachable(c, store, roots, hash)
    requires HashSet(inspect) <= HashSet(pending) && "" !in HashSet(pending)
    requires AllReachable(c, store, roots, HashSet(pending))
    requires AllFollowed(c, cache.values, done, HashSet(pending), HashSet(inspect))
    ensures HashSet(outInspect) <= HashSet(outPending) && "" !in HashSet(outPending)
    ensures AllReachable(c, store, roots, HashSet(outPending))
    ensures AllFollowed(c, cache.values, done + {hash}, HashSet(outPending), HashSet(outInspect))
    ensures hash !in store ==> outPending == pending && outInspect == inspect
  {
    outPending, outInspect := pending, inspect;
    if hash in cache.values {
      assert Load(store, hash) == Some(cache.values[hash]);
      outPending, outInspect := InspectOne(c, cache.values[hash], pending, inspect);
      RefsReachable(c, store, roots, hash, HashSet(pending));
      AllFollowedMore(c, cache.values, done, HashSet(pending), HashSet(inspect), HashSet(outPending),
          HashSet(outInspect));
    }
  }

  // ----- The closure -----

  /** The closure so far: what was asked for and is in the table is cached, every inspected
      manifest was followed, and no root and no reference has been forgotten. */
  ghost predicate Closing(c: Codec, store: Store, cached: set<Hash>, roots: set<Hash>, loaded: set<Hash>,
                          asked: set<Hash>,
                          inspected: set<Hash>, ahead: set<Hash>) {
    && (forall h | h in loaded && h in store :: h in cached)
    && AllFollowed(c, store, inspected, loaded + asked, inspected + ahead)
    && roots <= loaded + asked && roots <= inspected + ahead && ahead <= loaded + asked
  }

  /** The blobs of the table that the roots reach are all in `room`. */
  ghost predicate Covers(c: Codec, store: Store, roots: set<Hash>, room: set<Hash>) {
    forall h | h in store && h != "" && Reachable(c, store, roots, h) :: h in room
  }

  lemma {:induction false} TouchedLoaded(c: Codec, store: Store, v: Json, fuel: nat, loaded: set<Hash>,
                                         inspected: set<Hash>, h: Hash)
    requires c.unmarshal([]).None? && AllFollowed(c, store, inspected, loaded, inspected)
    requires Refs(v) <= loaded && JsonRefs(v) <= inspected && h in Touched(c, store, v, fuel) && h != ""
    ensures h in loaded
    decreases fuel, v
  {
    match v
    case Arr(items) =>
      var i :| 0 <= i < |items| && h in Touched(c, store, items[i], fuel);
      assert forall r | r in Refs(items[i]) :: r in Refs(v);
      assert forall r | r in JsonRefs(items[i]) :: r in JsonRefs(v);
      TouchedLoaded(c, store, items[i], fuel, loaded, inspected, h);
    case Obj(fields) =>
      if IsRef(fields) {
        TouchedRefLoaded(c, store, fields, fuel, loaded, inspected, h);
      } else {
        var k :| k in fields && h in Touched(c, store, fields[k], fuel);
        assert forall r | r in Refs(fields[k]) :: r in Refs(v);
        assert forall r | r in JsonRefs(fields[k]) :: r in JsonRefs(v);
        TouchedLoaded(c, store, fields[k], fuel, loaded, inspected, h);
      }
  }

  lemma {:induction false} TouchedRefLoaded(c: Codec, store: Store, fields: map<string, Json>, fuel: nat,
                                            loaded: set<Hash>, inspected: set<Hash>, h: Hash)
    requires c.unmarshal([]).None? && AllFollowed(c, store, inspected, loaded, inspected) && IsRef(fields)
    requires Refs(Obj(fields)) <= loaded && JsonRefs(Obj(fields)) <= inspected && h != ""
    requires h in {fields[REF_KEY].text} + TouchedBelow(c, store, fields, fuel)
    ensures h in loaded
    decreases fuel, Obj(fields), 0
  {
    var name := fields[REF_KEY].text;
    if h == name {
      assert h in Refs(Obj(fields));
    } else {
      var raw := Load(store, name).value;
      assert name != "" && name in store && name in JsonRefs(Obj(fields));
      assert Followed(c, store[name], loaded, inspected);
      TouchedLoaded(c, store, c.unmarshal(raw).value, fuel - 1, loaded, inspected, h);
    }
  }

  /** Every blob that expanding a cached root would touch is cached, if the table has it. */
  ghost predicate Prefetched(c: Codec, store: Store, cached: set<Hash>, roots: set<Hash>) {
    && (forall root | root in roots && root in store :: root in cached)
    && (forall root, fuel: nat, h |
          root in roots && root in store && c.unmarshal(store[root]).Some? && h in store && h != ""
          && h in Touched(c, store, c.unmarshal(store[root]).value, fuel) :: h in cached)
  }

  lemma ClosedIsPrefetched(c: Codec, store: Store, cached: set<Hash>, roots: set<Hash>, loaded: set<Hash>,
                           inspected: set<Hash>)
    requires c.unmarshal([]).None? && Closing(c, store, cached, roots, loaded, {}, inspected, {})
    ensures Prefetched(c, store, cached, roots)
  {
    assert loaded + {} == loaded && inspected + {} == inspected;
    forall root, fuel: nat, h |
      root in roots && root in store && c.unmarshal(store[root]).Some? && h in store && h != ""
      && h in Touched(c, store, c.unmarshal(store[root]).value, fuel)
      ensures h in cached
    {
      assert Followed(c, store[root], loaded, inspected);
      TouchedLoaded(c, store, c.unmarshal(store[root]).value, fuel, loaded, inspected, h);
    }
  }

  /** One round keeps the closure closed: the asked are loaded, the manifests ahead inspected. */
  lemma RoundCloses(c: Codec, store: Store, before: set<Hash>, cached: set<Hash>, values: Store, roots: set<Hash>,
                    loaded: set<Hash>,
                    asked: set<Hash>, inspected: set<Hash>, ahead: set<Hash>, refs: set<Hash>, manifests: set<Hash>)
    requires Closing(c, store, before, roots, loaded, asked, inspected, ahead)
    requires cached == values.Keys && before <= cached
    requires (forall h | h in cached && h in store :: values[h] == store[h])
    requires forall h | h in asked && h in store :: h in cached
    requires AllFollowed(c, values, ahead - inspected, refs, manifests) && manifests <= refs
    ensures Closing(c, store, cached, roots, loaded + asked, refs, inspected + ahead, manifests)
  {
    var more, seen := loaded + asked + refs, inspected + ahead + manifests;
    forall h | h in inspected + ahead && h in store ensures Followed(c, store[h], more, seen) {
      if h in inspected {
        FollowedMore(c, store[h], loaded + asked, inspected + ahead, more, seen);
      } else {
        assert h in loaded + asked && h in cached;
        FollowedMore(c, store[h], refs, manifests, more, seen);
      }
    }
  }

  /** The first half of a round: load what was asked for. */
  method LoadAsked(cache: Cache, c: Codec, table: map<Hash, BlobRow>, pending: seq<Hash>, loaded: set<Hash>,
                   ghost start: set<Hash>, ghost room: set<Hash>, ghost snug: bool) returns (seen: set<Hash>)
    requires cache.Valid(Contents(table)) && AllReachable(c, Contents(table), start, HashSet(pending))
    requires snug ==> cache.Snug(table, room) && Covers(c, Contents(table), start, room)
    requires snug ==> forall h | h in loaded && h in table :: h in cache.values
    modifies cache
    ensures cache.Valid(Contents(table)) && seen == loaded + NonEmpty(pending)
    ensures old(cache.values.Keys) <= cache.values.Keys <= old(cache.values.Keys) + NonEmpty(pending)
    ensures snug ==> cache.Snug(table, room) && forall h | h in seen && h in table :: h in cache.values
  {
    var need;
    need, seen := Wanted(cache, pending, loaded);
    forall h | h in HashSet(need) * table.Keys ensures snug ==> h in room {
      assert h in HashSet(pending) && h != "";
    }
    assert HashSet(need) <= NonEmpty(pending);
    cache.PrefetchSmall(table, need, room, true, snug);
  }

  /** One round of the closure. */
  method Round(cache: Cache, c: Codec, table: map<Hash, BlobRow>, pending: seq<Hash>, inspect: seq<Hash>,
               loaded: set<Hash>,
               inspected: set<Hash>, ghost start: set<Hash>, ghost room: set<Hash>, ghost snug: bool)
    returns (nextPending: seq<Hash>, nextInspect: seq<Hash>, nextLoaded: set<Hash>, nextInspected: set<Hash>)
    requires cache.Valid(Contents(table))
    requires AllReachable(c, Contents(table), start, HashSet(pending) + HashSet(inspect))
    requires snug ==> cache.Snug(table, room) && Covers(c, Contents(table), start, room)
    requires snug ==> Closing(c, Contents(table), cache.values.Keys, start - {""}, loaded, NonEmpty(pending),
        inspected, NonEmpty(inspect))
    modifies cache
    ensures cache.Valid(Contents(table))
    ensures old(cache.values.Keys) <= cache.values.Keys <= old(cache.values.Keys) + NonEmpty(pending)
    ensures AllReachable(c, Contents(table), start, HashSet(nextPending) + HashSet(nextInspect))
    ensures nextPending == [] == nextInspect || exists h :: h in table && h in nextInspected && h !in inspected
    ensures inspected <= nextInspected
    ensures snug ==> cache.Snug(table, room)
    ensures snug ==> Closing(c, Contents(table), cache.values.Keys, start - {""}, nextLoaded, NonEmpty(nextPending),
                             nextInspected, NonEmpty(nextInspect))
  {
    ghost var store, before := Contents(table), cache.values.Keys;
    nextLoaded := LoadAsked(cache, c, table, pending, loaded, start, room, snug);
    nextPending, nextInspect, nextInspected := Inspect(cache, c, Contents(table), inspect, inspected, start);
    assert NonEmpty(nextPending) == HashSet(nextPending) && NonEmpty(nextInspect) == HashSet(nextInspect);
    if snug {
      assert nextInspected - inspected == NonEmpty(inspect) - inspected;
      RoundCloses(c, store, before, cache.values.Keys, cache.values, start - {""}, loaded, NonEmpty(pending), inspected,
                  NonEmpty(inspect), HashSet(nextPending), HashSet(nextInspect));
    }
  }

  /** prefetchPayloadBlobClosure: it ends on cyclic references too, keeps the cache bounded,
      counted and equal to the table, and caches nothing the roots do not reach. When all that
      they reach fits, it caches every blob that expanding them would load. */
  method PrefetchClosure(cache: Cache, c: Codec, table: map<Hash, BlobRow>, roots: seq<Hash>, ghost room: set<Hash>,
                         ghost snug: bool)
    requires cache.Valid(Contents(table)) && c.unmarshal([]).None?
    requires snug ==> cache.Snug(table, room) && Covers(c, Contents(table), HashSet(roots), room)
    modifies cache
    ensures cache.Valid(Contents(table)) && old(cache.values.Keys) <= cache.values.Keys
    ensures AllReachable(c, Contents(table), HashSet(roots), cache.values.Keys - old(cache.values.Keys))
    ensures snug ==> Prefetched(c, Contents(table), cache.values.Keys, NonEmpty(roots))
  {
    ghost var store, start, before := Contents(table), HashSet(roots), cache.values.Keys;
    var pending, inspect := roots, roots;
    var loaded, inspected: set<Hash> := {}, {};
    forall h | h in start ensures Reachable(c, store, start, h) { RootReachable(c, store, start, h); }
    while pending != [] || inspect != []
      invariant cache.Valid(store) && before <= cache.values.Keys
      invariant AllReachable(c, store, start, HashSet(pending) + HashSet(inspect))
      invariant AllReachable(c, store, start, cache.values.Keys - before)
      invariant snug ==> cache.Snug(table, room)
      invariant snug ==> Closing(c, store, cache.values.Keys, start - {""}, loaded, NonEmpty(pending), inspected,
          NonEmpty(inspect))
      decreases store.Keys - inspected, |pending| + |inspect|
    {
      pending, inspect, loaded, inspected := Round(cache, c, table, pending, inspect, loaded, inspected, start, room,
          snug);
    }
    if snug {
      assert NonEmpty([]) == {};
      ClosedIsPrefetched(c, store, cache.values.Keys, start - {""}, loaded, inspected);
    }
  }
}
