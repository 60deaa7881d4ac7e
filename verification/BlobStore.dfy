/** The shared blob table: putPayload, the mark-and-sweep collector and payload loading
(internal/archive/store.go). Blob data is the uncompressed content. */
module BlobStore {
  import opened Types
  import opened Cas

  // ----- References -----

  /** nestedBlobRefs on a decoded value: a reference object is not searched further. */
  function Refs(v: Json): set<Hash> {
    match v
    case Arr(items) => set i, h | 0 <= i < |items| && h in Refs(items[i]) :: h
    case Obj(fields) =>
      if IsRef(fields) && fields[REF_KEY].text != "" then {fields[REF_KEY].text}
      else set k, h | k in fields && h in Refs(fields[k]) :: h
    case _ => {}
  }

  function NestedRefs(c: Codec, raw: Bytes): set<Hash> {
    match c.unmarshal(raw)
    case Some(v) => Refs(v)
    case None => {}
  }

  /** A chain of references that starts at a root. */
  ghost predicate IsChain(c: Codec, store: Store, roots: set<Hash>, p: seq<Hash>) {
    && p != [] && p[0] in roots
    && forall i | 0 <= i < |p| - 1 :: p[i] in store && p[i + 1] in NestedRefs(c, store[p[i]])
  }

  ghost predicate Reachable(c: Codec, store: Store, roots: set<Hash>, h: Hash) {
    exists p :: IsChain(c, store, roots, p) && p[|p| - 1] == h
  }

  lemma RootReachable(c: Codec, store: Store, roots: set<Hash>, h: Hash)
    requires h in roots
    ensures Reachable(c, store, roots, h)
  {
    assert IsChain(c, store, roots, [h]);
  }

  lemma StepReachable(c: Codec, store: Store, roots: set<Hash>, a: Hash, b: Hash)
    requires Reachable(c, store, roots, a) && a in store && b in NestedRefs(c, store[a])
    ensures Reachable(c, store, roots, b)
  {
    var p :| IsChain(c, store, roots, p) && p[|p| - 1] == a;
    assert IsChain(c, store, roots, p + [b]);
    assert (p + [b])[|p|] == b;
  }

  lemma ReachableMore(c: Codec, store: Store, few: set<Hash>, many: set<Hash>, h: Hash)
    requires Reachable(c, store, few, h)
    requires forall r | r in few :: Reachable(c, store, many, r)
    ensures Reachable(c, store, many, h)
  {
    var p :| IsChain(c, store, few, p) && p[|p| - 1] == h;
    for i := 1 to |p|
      invariant 0 < i <= |p| && Reachable(c, store, many, p[i - 1])
    {
      StepReachable(c, store, many, p[i - 1], p[i]);
    }
  }

  /** A set that holds the roots and every reference of its members holds all that is reachable. */
  lemma ClosedCoversReachable(c: Codec, store: Store, roots: set<Hash>, marked: set<Hash>, h: Hash)
    requires roots <= marked
    requires forall a | a in marked && a in store :: NestedRefs(c, store[a]) <= marked
    requires Reachable(c, store, roots, h)
    ensures h in marked
  {
    var p :| IsChain(c, store, roots, p) && p[|p| - 1] == h;
    for i := 1 to |p|
      invariant 0 < i <= |p| && p[i - 1] in marked
    {
    }
  }

  /** Every reachable blob is there. */
  ghost predicate Intact(c: Codec, store: Store, roots: set<Hash>) {
    forall h | Reachable(c, store, roots, h) :: h in store
  }

  /** What a completed collection leaves. */
  ghost function Swept(c: Codec, store: Store, roots: set<Hash>): Store {
    map h | h in store && Reachable(c, store, roots, h) :: store[h]
  }

  // ----- What loading reads -----

  /** The blobs expansion asks the store for. */
  ghost function Touched(c: Codec, store: Store, v: Json, fuel: nat): set<Hash>
    decreases fuel, v
  {
    match v
    case Arr(items) => set i, h | 0 <= i < |items| && h in Touched(c, store, items[i], fuel) :: h
    case Obj(fields) =>
      if IsRef(fields) then {fields[REF_KEY].text} + TouchedBelow(c, store, fields, fuel)
      else set k, h | k in fields && h in Touched(c, store, fields[k], fuel) :: h
    case _ => {}
  }

  ghost function TouchedBelow(c: Codec, store: Store, fields: map<string, Json>, fuel: nat): set<Hash>
    requires IsRef(fields)
    decreases fuel, Obj(fields), 0
  {
    match Load(store, fields[REF_KEY].text)
    case Some(raw) =>
      if TextField(fields, "encoding") == "json" && fuel > 0 && c.unmarshal(raw).Some?
      then Touched(c, store, c.unmarshal(raw).value, fuel - 1) else {}
    case None => {}
  }

  ghost predicate AgreeOn(a: Store, b: Store, hashes: set<Hash>) {
    forall h | h in hashes :: Load(a, h) == Load(b, h)
  }

  lemma ItemsFrame(c: Codec, a: Store, b: Store, items: seq<Json>, fuel: nat)
    requires forall i | 0 <= i < |items| :: Expand(c, a, items[i], fuel) == Expand(c, b, items[i], fuel)
    ensures Expand(c, a, Arr(items), fuel) == Expand(c, b, Arr(items), fuel)
  {
    var x, y := Expand(c, a, Arr(items), fuel), Expand(c, b, Arr(items), fuel);
    if x.Some? {
      assert x.value.items == y.value.items;
    }
  }

  lemma FieldsFrame(c: Codec, a: Store, b: Store, fields: map<string, Json>, fuel: nat)
    requires !IsRef(fields)
    requires forall k | k in fields :: Expand(c, a, fields[k], fuel) == Expand(c, b, fields[k], fuel)
    ensures Expand(c, a, Obj(fields), fuel) == Expand(c, b, Obj(fields), fuel)
  {
    var x, y := Expand(c, a, Obj(fields), fuel), Expand(c, b, Obj(fields), fuel);
    if x.Some? {
      assert x.value.fields == y.value.fields;
    }
  }

  /** Expansion depends on nothing but the blobs it touches. */
  lemma {:induction false} ExpandFrame(c: Codec, a: Store, b: Store, v: Json, fuel: nat)
    requires AgreeOn(a, b, Touched(c, a, v, fuel))
    ensures Expand(c, a, v, fuel) == Expand(c, b, v, fuel)
    decreases fuel, v
  {
    match v
    case Arr(items) =>
      forall i | 0 <= i < |items| ensures Expand(c, a, items[i], fuel) == Expand(c, b, items[i], fuel) {
        assert forall h | h in Touched(c, a, items[i], fuel) :: h in Touched(c, a, v, fuel);
        ExpandFrame(c, a, b, items[i], fuel);
      }
      ItemsFrame(c, a, b, items, fuel);
    case Obj(fields) =>
      if IsRef(fields) {
        RefFrame(c, a, b, fields, fuel);
      } else {
        forall k | k in fields ensures Expand(c, a, fields[k], fuel) == Expand(c, b, fields[k], fuel) {
          assert forall h | h in Touched(c, a, fields[k], fuel) :: h in Touched(c, a, v, fuel);
          ExpandFrame(c, a, b, fields[k], fuel);
        }
        FieldsFrame(c, a, b, fields, fuel);
      }
    case _ =>
  }

  lemma {:induction false} RefFrame(c: Codec, a: Store, b: Store, fields: map<string, Json>, fuel: nat)
    requires IsRef(fields) && AgreeOn(a, b, {fields[REF_KEY].text} + TouchedBelow(c, a, fields, fuel))
    ensures ExpandRef(c, a, fields, fuel) == ExpandRef(c, b, fields, fuel)
    decreases fuel, Obj(fields), 0
  {
    assert Load(a, fields[REF_KEY].text) == Load(b, fields[REF_KEY].text);
    var loaded := Load(a, fields[REF_KEY].text);
    if loaded.Some? && TextField(fields, "encoding") == "json" && fuel > 0 && c.unmarshal(loaded.value).Some? {
      ExpandFrame(c, a, b, c.unmarshal(loaded.value).value, fuel - 1);
    }
  }

  /** A successful expansion found every blob it asked for. */
  lemma {:induction false} TouchedPresent(c: Codec, store: Store, v: Json, fuel: nat, h: Hash)
    requires Expand(c, store, v, fuel).Some? && h in Touched(c, store, v, fuel)
    ensures Load(store, h).Some?
    decreases fuel, v
  {
    match v
    case Arr(items) =>
      var i :| 0 <= i < |items| && h in Touched(c, store, items[i], fuel);
      TouchedPresent(c, store, items[i], fuel, h);
    case Obj(fields) =>
      if IsRef(fields) {
        if h in TouchedBelow(c, store, fields, fuel) {
          var raw := Load(store, fields[REF_KEY].text).value;
          TouchedPresent(c, store, c.unmarshal(raw).value, fuel - 1, h);
        }
      } else {
        var k :| k in fields && h in Touched(c, store, fields[k], fuel);
        TouchedPresent(c, store, fields[k], fuel, h);
      }
  }

  /** The collector's reachability covers every blob expansion would load. */
  lemma {:induction false} TouchedReachable(c: Codec, store: Store, v: Json, fuel: nat, h: Hash)
    requires c.unmarshal([]).None? && h in Touched(c, store, v, fuel) && h != ""
    ensures Reachable(c, store, Refs(v), h)
    decreases fuel, v
  {
    match v
    case Arr(items) =>
      var i :| 0 <= i < |items| && h in Touched(c, store, items[i], fuel);
      TouchedReachable(c, store, items[i], fuel, h);
      SubRefs(c, store, Refs(items[i]), Refs(v), h);
    case Obj(fields) =>
      if IsRef(fields) {
        TouchedRefReachable(c, store, fields, fuel, h);
      } else {
        var k :| k in fields && h in Touched(c, store, fields[k], fuel);
        TouchedReachable(c, store, fields[k], fuel, h);
        SubRefs(c, store, Refs(fields[k]), Refs(v), h);
      }
  }

  lemma SubRefs(c: Codec, store: Store, few: set<Hash>, many: set<Hash>, h: Hash)
    requires Reachable(c, store, few, h) && few <= many
    ensures Reachable(c, store, many, h)
  {
  }

  lemma {:induction false} TouchedRefReachable(c: Codec, store: Store, fields: map<string, Json>, fuel: nat, h: Hash)
    requires c.unmarshal([]).None? && IsRef(fields) && h != ""
    requires h in {fields[REF_KEY].text} + TouchedBelow(c, store, fields, fuel)
    ensures Reachable(c, store, Refs(Obj(fields)), h)
    decreases fuel, Obj(fields), 0
  {
    var name := fields[REF_KEY].text;
    var roots := Refs(Obj(fields));
    if h == name {
      RootReachable(c, store, roots, h);
    } else {
      var raw := Load(store, name).value;
      assert name != "" && name in store;
      var nested := c.unmarshal(raw).value;
      TouchedReachable(c, store, nested, fuel - 1, h);
      RootReachable(c, store, roots, name);
      forall r | r in Refs(nested) ensures Reachable(c, store, roots, r) {
        StepReachable(c, store, roots, name, r);
      }
      ReachableMore(c, store, Refs(nested), roots, h);
    }
  }

  // ----- Payload roots -----

  /** LoadPayload of `root` yields `bytes`. */
  ghost predicate LoadsTo(c: Codec, store: Store, root: Hash, bytes: Bytes) {
    exists fuel: nat :: LoadsWithin(c, store, root, bytes, fuel)
  }

  ghost predicate LoadsWithin(c: Codec, store: Store, root: Hash, bytes: Bytes, fuel: nat) {
    root in store && ExpandPayload(c, store, store[root], fuel) == Some(bytes)
  }

  /** Loading survives any change that leaves the root's reachable blobs alone. */
  lemma LoadFrame(c: Codec, a: Store, b: Store, root: Hash, bytes: Bytes)
    requires c.unmarshal([]).None? && LoadsTo(c, a, root, bytes)
    requires forall h | h in a && Reachable(c, a, {root}, h) :: h in b && b[h] == a[h]
    ensures LoadsTo(c, b, root, bytes)
  {
    var fuel: nat :| LoadsWithin(c, a, root, bytes, fuel);
    RootReachable(c, a, {root}, root);
    if a[root] != [] {
      var v := c.unmarshal(a[root]).value;
      forall h | h in Touched(c, a, v, fuel) ensures Load(a, h) == Load(b, h) {
        TouchedPresent(c, a, v, fuel, h);
        if h != "" {
          TouchedReachable(c, a, v, fuel, h);
          forall r | r in Refs(v) ensures Reachable(c, a, {root}, r) { StepReachable(c, a, {root}, root, r); }
          ReachableMore(c, a, Refs(v), {root}, h);
        }
      }
      ExpandFrame(c, a, b, v, fuel);
    }
    assert LoadsWithin(c, b, root, bytes, fuel);
  }

  /** A collection keeps every root of the live set loadable. */
  lemma SweepKeepsLoads(c: Codec, store: Store, roots: set<Hash>, root: Hash, bytes: Bytes)
    requires c.unmarshal([]).None? && root in roots && LoadsTo(c, store, root, bytes)
    ensures LoadsTo(c, Swept(c, store, roots), root, bytes)
  {
    forall h | h in store && Reachable(c, store, {root}, h) ensures Reachable(c, store, roots, h) {
      SubRefs(c, store, {root}, roots, h);
    }
    LoadFrame(c, store, Swept(c, store, roots), root, bytes);
  }

  // ----- putPayload -----

  /** `after` is `before` with each of `blobs` inserted, or ignored where its hash was taken. */
  ghost predicate Inserted(c: Codec, before: Store, blobs: set<Bytes>, after: Store) {
    && (forall h | h in before :: h in after && after[h] == before[h])
    && (forall d | d in blobs :: c.sha(d) in after && (c.sha(d) !in before ==> after[c.sha(d)] == d))
    && (forall h | h in after :: h in before || (after[h] in blobs && h == c.sha(after[h])))
  }

  ghost function PayloadBlobs(c: Codec, raw: Bytes): set<Bytes> {
    if raw == [] then {} else CompactPayload(c, raw).blobs + {CompactPayload(c, raw).manifest}
  }

  function RootOf(c: Codec, raw: Bytes): Hash {
    if raw == [] then "" else c.sha(CompactPayload(c, raw).manifest)
  }

  lemma InsertedHolds(c: Codec, before: Store, blobs: set<Bytes>, after: Store)
    requires CollisionFree(c) && Addressed(c, before) && Inserted(c, before, blobs, after)
    requires forall raw :: c.sha(raw) != ""
    ensures Addressed(c, after) && Holds(c, after, blobs)
  {
  }

  /** The premise on a payload's document: none of its objects poses as a reference. */
  ghost predicate Wellformed(c: Codec, raw: Bytes) {
    var kept := KeptOf(c, raw);
    kept.Document? ==> NoClash(c, kept.value)
  }

  /** Every value has some nesting depth. */
  lemma {:induction false} NestingBound(v: Json) returns (d: nat)
    ensures NestsWithin(v, d)
    decreases v
  {
    d := 0;
    match v
    case Arr(items) =>
      d := 1;
      for i := 0 to |items|
        invariant d > 0 && forall j | 0 <= j < i :: NestsWithin(items[j], d - 1)
      {
        var e := NestingBound(items[i]);
        forall j | 0 <= j < i ensures NestsWithin(items[j], d + e) { NestsMonotone(items[j], d - 1, d + e); }
        NestsMonotone(items[i], e, d + e);
        d := d + e + 1;
      }
    case Obj(fields) =>
      d := 1;
      var pending := fields.Keys;
      while pending != {}
        invariant d > 0 && pending <= fields.Keys && forall k | k in fields && k !in pending ::
            NestsWithin(fields[k], d - 1)
        decreases |pending|
      {
        var key :| key in pending;
        var e := NestingBound(fields[key]);
        forall k | k in fields && k !in pending
          ensures NestsWithin(fields[k], d + e)
        {
          NestsMonotone(fields[k], d - 1, d + e);
        }
        NestsMonotone(fields[key], e, d + e);
        d := d + e + 1;
        pending := pending - {key};
      }
    case _ =>
  }

  /** A payload just put loads back as what compaction kept of it. */
  lemma PutLoads(c: Codec, store: Store, raw: Bytes)
    requires Lawful(c) && Wellformed(c, raw) && raw != []
    requires Holds(c, store, PayloadBlobs(c, raw))
    ensures LoadsTo(c, store, RootOf(c, raw), ReadBack(c, raw))
  {
    var kept := KeptOf(c, raw);
    var fuel := 0;
    if kept.Document? { fuel := NestingBound(kept.value); }
    var compaction := CompactPayload(c, raw);
    assert compaction.manifest in PayloadBlobs(c, raw);
    assert forall d | d in compaction.blobs :: d in PayloadBlobs(c, raw);
    PayloadRoundTrip(c, store, raw, fuel);
    assert LoadsWithin(c, store, RootOf(c, raw), ReadBack(c, raw), fuel);
  }

  lemma {:induction false} LoadUnique(c: Codec, store: Store, root: Hash, a: Bytes, b: Bytes)
    requires LoadsTo(c, store, root, a) && LoadsTo(c, store, root, b)
    ensures a == b
  {
    var f: nat :| LoadsWithin(c, store, root, a, f);
    var g: nat :| LoadsWithin(c, store, root, b, g);
    if store[root] != [] {
      var v := c.unmarshal(store[root]).value;
      if f <= g { MoreFuel(c, store, v, f, g); } else { MoreFuel(c, store, v, g, f); }
    }
  }

  /** Once expansion succeeds, more fuel changes nothing. */
  lemma {:induction false} MoreFuel(c: Codec, store: Store, v: Json, f: nat, g: nat)
    requires f <= g && Expand(c, store, v, f).Some?
    ensures Expand(c, store, v, g) == Expand(c, store, v, f)
    decreases f, v
  {
    match v
    case Arr(items) =>
      forall i | 0 <= i < |items| ensures Expand(c, store, items[i], g) == Expand(c, store, items[i], f) {
        MoreFuel(c, store, items[i], f, g);
      }
      assert Expand(c, store, v, g).value.items == Expand(c, store, v, f).value.items;
    case Obj(fields) =>
      if IsRef(fields) {
        var raw := Load(store, fields[REF_KEY].text).value;
        if TextField(fields, "encoding") == "json" { MoreFuel(c, store, c.unmarshal(raw).value, f - 1, g - 1); }
      } else {
        forall k | k in fields ensures Expand(c, store, fields[k], g) == Expand(c, store, fields[k], f) {
          MoreFuel(c, store, fields[k], f, g);
        }
        AssembleFields(c, store, fields, Expand(c, store, v, f).value.fields, g);
      }
    case _ =>
  }
}
