/** Exactly when expansion gives a compacted value back (internal/archive/cas.go): the spelling
of data URLs and the objects that pose as references decide it. */
module CasExact {
  import opened Types
  import opened Cas

  // ----- Data URLs -----

  /** `data:<media>;base64,<data>` with no parameter and canonical base64. */
  ghost predicate Spelled(c: Codec, s: string, media: string, data: string) {
    && ';' !in media && ',' !in media
    && s == "data:" + media + ";base64" + [','] + data
    && c.base64Decode(data).Some? && c.base64Encode(c.base64Decode(data).value) == data
  }

  /** A text that compaction takes apart is spelled canonically. */
  ghost predicate CanonicalText(c: Codec, s: string) {
    ParseDataUrl(c, s).Some? ==> exists media, data :: Spelled(c, s, media, data)
  }

  ghost predicate CanonicalUrls(c: Codec, v: Json) {
    match v
    case Str(s) => CanonicalText(c, s)
    case Arr(items) => forall i | 0 <= i < |items| :: CanonicalUrls(c, items[i])
    case Obj(fields) => forall k | k in fields && !IsNoise(c, k) :: CanonicalUrls(c, fields[k])
    case _ => true
  }

  lemma {:induction false} FirstByte(a: string, b: string, ch: char)
    requires ch !in a
    ensures IndexByte(a + [ch] + b, ch) == |a|
    decreases |a|
  {
    if a != [] {
      assert (a + [ch] + b)[1..] == a[1..] + [ch] + b;
      FirstByte(a[1..], b, ch);
    }
  }

  lemma {:induction false} ContainsAt(s: string, sub: string, i: nat)
    requires i <= |s| && sub <= s[i..]
    ensures Contains(s, sub)
    decreases i
  {
    if i > 0 {
      assert s[1..][i - 1..] == s[i..];
      ContainsAt(s[1..], sub, i - 1);
    }
  }

  lemma HeadMedia(media: string, rest: string)
    requires ';' !in media
    ensures var head := "data:" + media + [';'] + rest + "base64";
            MediaOf(head) == media && "data:" <= head
  {
    var head := "data:" + media + [';'] + rest + "base64";
    assert head == ("data:" + media) + [';'] + (rest + "base64");
    FirstByte("data:" + media, rest + "base64", ';');
    assert head[..5 + |media|] == "data:" + media;
  }

  lemma EndsInBase64(start: string)
    ensures Contains(start + ";base64", ";base64")
  {
    var head := start + ";base64";
    assert head[|start|..] == ";base64";
    ContainsAt(head, ";base64", |start|);
  }

  lemma ParsedHead(c: Codec, head: string, data: string)
    requires ',' !in head && "data:" <= head && |head| > 5 && Contains(head, ";base64")
    requires c.base64Decode(data).Some?
    ensures ParseDataUrl(c, head + [','] + data) == Some(DataUrl(MediaOf(head), c.base64Decode(data).value))
  {
    var s := head + [','] + data;
    FirstByte(head, data, ',');
    assert s[..|head|] == head && s[|head| + 1..] == data;
  }

  lemma SpelledRestores(c: Codec, s: string, media: string, data: string)
    requires Spelled(c, s, media, data)
    ensures RestoredText(c, s) == s
  {
    var head := "data:" + media + ";base64";
    HeadMedia(media, "");
    assert head == "data:" + media + [';'] + "" + "base64";
    EndsInBase64("data:" + media);
    ParsedHead(c, head, data);
    assert DataUrlText(c, media, c.base64Decode(data).value) == s;
  }

  lemma MediaIsClean(c: Codec, s: string)
    requires ParseDataUrl(c, s).Some?
    ensures ';' !in ParseDataUrl(c, s).value.media && ',' !in ParseDataUrl(c, s).value.media
  {
    var head := s[..IndexByte(s, ',')];
    var part := head[..IndexByte(head, ';')];
    assert forall ch | ch in part :: ch in head;
    assert forall ch | ch in MediaOf(head) :: ch in part;
  }

  lemma RestoredIsSpelled(c: Codec, s: string)
    requires ParseDataUrl(c, s).Some? && RestoredText(c, s) == s
    ensures exists media, data :: Spelled(c, s, media, data)
  {
    var url := ParseDataUrl(c, s).value;
    MediaIsClean(c, s);
    var head, encoded := "data:" + url.media + ";base64", c.base64Encode(url.raw);
    assert s == head + [','] + encoded;
    FirstByte(head, encoded, ',');
    assert s[|head| + 1..] == encoded;
    assert Spelled(c, s, url.media, encoded);
  }

  /** A text survives the round trip if and only if it is no data URL that compaction takes
      apart, or one without parameters and in canonical base64. */
  lemma TextUnchangedExactly(c: Codec, s: string)
    ensures RestoredText(c, s) == s <==> CanonicalText(c, s)
  {
    if ParseDataUrl(c, s).Some? {
      if RestoredText(c, s) == s { RestoredIsSpelled(c, s); }
      if media, data :| Spelled(c, s, media, data) { SpelledRestores(c, s, media, data); }
    }
  }

  lemma ItemsUnchanged(c: Codec, items: seq<Json>)
    requires forall i | 0 <= i < |items| ::
               Restored(c, items[i]) == Denoised(c, items[i]) <==> CanonicalUrls(c, items[i])
    ensures Restored(c, Arr(items)) == Denoised(c, Arr(items)) <==> CanonicalUrls(c, Arr(items))
  {
    var r, d := Restored(c, Arr(items)).items, Denoised(c, Arr(items)).items;
    assert forall i | 0 <= i < |items| :: r[i] == Restored(c, items[i]) && d[i] == Denoised(c, items[i]);
  }

  lemma FieldsUnchanged(c: Codec, fields: map<string, Json>)
    requires forall k | k in fields ::
               Restored(c, fields[k]) == Denoised(c, fields[k]) <==> CanonicalUrls(c, fields[k])
    ensures Restored(c, Obj(fields)) == Denoised(c, Obj(fields)) <==> CanonicalUrls(c, Obj(fields))
  {
    var r, d := Restored(c, Obj(fields)).fields, Denoised(c, Obj(fields)).fields;
    assert forall k | k in fields && !IsNoise(c, k) ::
        k in r && k in d && r[k] == Restored(c, fields[k]) && d[k] == Denoised(c, fields[k]);
  }

  /** What the round trip restores is the original up to noise keys if and only if every data
      URL in it is spelled canonically. */
  lemma {:induction false} UnchangedExactlyWhenCanonical(c: Codec, v: Json)
    ensures Restored(c, v) == Denoised(c, v) <==> CanonicalUrls(c, v)
    decreases v
  {
    match v
    case Str(s) => TextUnchangedExactly(c, s);
    case Arr(items) =>
      forall i | 0 <= i < |items|
        ensures Restored(c, items[i]) == Denoised(c, items[i]) <==> CanonicalUrls(c, items[i])
      {
        UnchangedExactlyWhenCanonical(c, items[i]);
      }
      ItemsUnchanged(c, items);
    case Obj(fields) =>
      forall k | k in fields
        ensures Restored(c, fields[k]) == Denoised(c, fields[k]) <==> CanonicalUrls(c, fields[k])
      {
        UnchangedExactlyWhenCanonical(c, fields[k]);
      }
      FieldsUnchanged(c, fields);
    case _ =>
  }

  /** Every data URL with a parameter besides `base64` loses it. */
  lemma ParameterIsDropped(c: Codec, media: string, params: string, data: string)
    requires ',' !in media && ';' !in media && ',' !in params && c.base64Decode(data).Some?
    ensures var s := "data:" + media + ";" + params + ";base64" + "," + data;
            && RestoredText(c, s) == DataUrlText(c, media, c.base64Decode(data).value)
            && !CanonicalText(c, s)
  {
    var head := "data:" + media + ";" + params + ";base64";
    var s := head + [','] + data;
    HeadMedia(media, params + ";");
    assert head == "data:" + media + [';'] + (params + ";") + "base64";
    EndsInBase64("data:" + media + ";" + params);
    ParsedHead(c, head, data);
    var encoded := c.base64Encode(c.base64Decode(data).value);
    FirstByte(head, data, ',');
    FirstByte("data:" + media + ";base64", encoded, ',');
    assert DataUrlText(c, media, c.base64Decode(data).value) == "data:" + media + ";base64" + [','] + encoded;
    TextUnchangedExactly(c, s);
  }

  // ----- Objects that pose as references -----

  /** The names that posing objects put under the reference key, at every depth. */
  function ClashNames(c: Codec, v: Json): set<string> {
    match v
    case Arr(items) => set i, n | 0 <= i < |items| && n in ClashNames(c, items[i]) :: n
    case Obj(fields) =>
      (if Clashes(c, fields) then {fields[REF_KEY].text} else {})
      + (set k, n | k in fields && !IsNoise(c, k) && n in ClashNames(c, fields[k]) :: n)
    case _ => {}
  }

  ghost predicate NamesNothing(store: Store, names: set<string>) {
    forall n | n in names :: n !in store
  }

  /** The outcome for a posing object: it is not what should have come back, and if every
      posing name is non-empty there is nothing at all. */
  ghost predicate Fails(c: Codec, out: Option<Json>, v: Json) {
    out != Some(Restored(c, v)) && out != Some(Denoised(c, v)) && ("" !in ClashNames(c, v) ==> out.None?)
  }

  lemma PosingObjectFails(c: Codec, store: Store, fields: map<string, Json>, nested: bool, fuel: nat)
    requires Lawful(c) && Clashes(c, fields) && fields[REF_KEY].text !in store
    ensures Fails(c, Expand(c, store, Inner(c, Obj(fields), nested), fuel), Obj(fields))
  {
    var name := fields[REF_KEY].text;
    var inner := Inner(c, Obj(fields), nested).fields;
    assert CompactString(c, name) == Str(name);
    assert inner[REF_KEY] == Compact(c, fields[REF_KEY], true) == Str(name);
    AbsentReference(c, store, inner, fuel);
    assert name in ClashNames(c, Obj(fields));
  }

  /** A reference to no blob expands to no object. */
  lemma AbsentReference(c: Codec, store: Store, inner: map<string, Json>, fuel: nat)
    requires c.unmarshal([]).None? && IsRef(inner) && inner[REF_KEY].text !in store
    ensures var out := Expand(c, store, Obj(inner), fuel);
            (inner[REF_KEY].text != "" ==> out.None?) && (out.Some? ==> !out.value.Obj?)
  {
    assert Expand(c, store, Obj(inner), fuel) == ExpandRef(c, store, inner, fuel);
  }

  lemma ItemFails(c: Codec, store: Store, items: seq<Json>, nested: bool, fuel: nat, i: nat)
    requires i < |items| && Fails(c, Expand(c, store, Compact(c, items[i], true), fuel), items[i])
    ensures Fails(c, Expand(c, store, Inner(c, Arr(items), nested), fuel), Arr(items))
  {
    var v, inner := Arr(items), Inner(c, Arr(items), nested);
    var out := Expand(c, store, inner, fuel);
    assert inner.items[i] == Compact(c, items[i], true);
    assert forall n | n in ClashNames(c, items[i]) :: n in ClashNames(c, v);
    assert out.Some? ==> out.value.items[i] == Expand(c, store, inner.items[i], fuel).value;
    assert Restored(c, v).items[i] == Restored(c, items[i]) && Denoised(c, v).items[i] == Denoised(c, items[i]);
  }

  lemma FieldFails(c: Codec, store: Store, fields: map<string, Json>, nested: bool, fuel: nat, k: string)
    requires Plain(Obj(fields)) && !Clashes(c, fields) && k in fields && !IsNoise(c, k)
    requires Fails(c, Expand(c, store, Compact(c, fields[k], true), fuel), fields[k])
    ensures Fails(c, Expand(c, store, Inner(c, Obj(fields), nested), fuel), Obj(fields))
  {
    var v, inner := Obj(fields), Inner(c, Obj(fields), nested);
    InnerIsNoRef(c, fields, nested);
    var out := Expand(c, store, inner, fuel);
    assert inner.fields[k] == Compact(c, fields[k], true);
    assert forall n | n in ClashNames(c, fields[k]) :: n in ClashNames(c, v);
    assert out.Some? ==> out.value.fields[k] == Expand(c, store, inner.fields[k], fuel).value;
    assert Restored(c, v).fields[k] == Restored(c, fields[k]) && Denoised(c, v).fields[k] == Denoised(c, fields[k]);
  }

  lemma {:induction false} InnerFails(c: Codec, store: Store, v: Json, nested: bool, fuel: nat)
    requires Lawful(c) && Plain(v) && !NoClash(c, v) && NamesNothing(store, ClashNames(c, v))
    requires Holds(c, store, ChildBlobs(c, v, nested))
    ensures v.Arr? || v.Obj?
    ensures Fails(c, Expand(c, store, Inner(c, v, nested), fuel), v)
    decreases v, 0
  {
    match v
    case Arr(items) =>
      var i :| 0 <= i < |items| && !NoClash(c, items[i]);
      assert forall d | d in Emitted(c, items[i], true) :: d in ChildBlobs(c, v, nested);
      assert forall n | n in ClashNames(c, items[i]) :: n in ClashNames(c, v);
      ClashFails(c, store, items[i], true, fuel);
      ItemFails(c, store, items, nested, fuel, i);
    case Obj(fields) =>
      if Clashes(c, fields) {
        assert fields[REF_KEY].text in ClashNames(c, v);
        PosingObjectFails(c, store, fields, nested, fuel);
      } else {
        var k :| k in fields && !IsNoise(c, k) && !NoClash(c, fields[k]);
        assert forall d | d in Emitted(c, fields[k], true) :: d in ChildBlobs(c, v, nested);
        assert forall n | n in ClashNames(c, fields[k]) :: n in ClashNames(c, v);
        ClashFails(c, store, fields[k], true, fuel);
        FieldFails(c, store, fields, nested, fuel, k);
      }
    case _ =>
  }

  lemma ContainerParts(c: Codec, v: Json, nested: bool)
    requires !NoClash(c, v)
    ensures v.Arr? || v.Obj?
    ensures Compact(c, v, nested) == MaybeExternalize(c, Inner(c, v, nested), nested)
    ensures Emitted(c, v, nested) == ChildBlobs(c, v, nested) + OwnBlob(c, v, nested)
  {
  }

  lemma NothingFails(c: Codec, v: Json)
    ensures Fails(c, None, v)
  {
  }

  ghost predicate InnerFailsWith(c: Codec, store: Store, v: Json, nested: bool, fuel: nat) {
    Fails(c, Expand(c, store, Inner(c, v, nested), fuel), v)
  }

  /** Moving a failing container out of the manifest does not help it. */
  lemma ContainerFails(c: Codec, store: Store, v: Json, nested: bool, fuel: nat)
    requires Lawful(c) && Plain(v) && Holds(c, store, OwnBlob(c, v, nested))
    requires forall f: nat :: InnerFailsWith(c, store, v, nested, f)
    ensures Fails(c, Expand(c, store, MaybeExternalize(c, Inner(c, v, nested), nested), fuel), v)
  {
    NothingFails(c, v);
    assert InnerFailsWith(c, store, v, nested, fuel);
    if Externalizes(c, Inner(c, v, nested), nested) {
      ExternalExpands(c, store, v, nested, fuel);
      if fuel > 0 { assert InnerFailsWith(c, store, v, nested, fuel - 1); }
    }
  }

  /** An object at any depth that poses as a reference to a blob the store does not have
      spoils the round trip, whatever fuel is given. */
  lemma {:induction false} ClashFails(c: Codec, store: Store, v: Json, nested: bool, fuel: nat)
    requires Lawful(c) && Plain(v) && !NoClash(c, v) && NamesNothing(store, ClashNames(c, v))
    requires Holds(c, store, Emitted(c, v, nested))
    ensures Fails(c, Expand(c, store, Compact(c, v, nested), fuel), v)
    decreases v, 1
  {
    ContainerParts(c, v, nested);
    forall f: nat ensures InnerFailsWith(c, store, v, nested, f) { InnerFails(c, store, v, nested, f); }
    ContainerFails(c, store, v, nested, fuel);
  }

  /** The exact law. Over a store that holds the compacted blobs and nothing under a posing
      name: the value comes back if and only if no object poses as a reference, unchanged up
      to noise keys if and only if its data URLs are canonical too, and if no posing name is
      empty the only other outcome is an error. */
  lemma RoundTripExactly(c: Codec, store: Store, v: Json, nested: bool, fuel: nat)
    requires Lawful(c) && Plain(v) && NestsWithin(v, fuel)
    requires Holds(c, store, Emitted(c, v, nested)) && NamesNothing(store, ClashNames(c, v))
    ensures var out := Expand(c, store, Compact(c, v, nested), fuel);
            && (out == Some(Restored(c, v)) <==> NoClash(c, v))
            && (out == Some(Denoised(c, v)) <==> NoClash(c, v) && CanonicalUrls(c, v))
            && ("" !in ClashNames(c, v) ==> (out.None? <==> !NoClash(c, v)))
  {
    UnchangedExactlyWhenCanonical(c, v);
    if NoClash(c, v) {
      RoundTrip(c, store, v, nested, fuel);
    } else {
      ClashFails(c, store, v, nested, fuel);
    }
  }
}
