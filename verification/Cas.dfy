/** Content-addressed payload compaction (internal/archive/cas.go).

JSON text, SHA-256 and base64 enter as the functions of a `Codec`; everything that
cas.go itself decides - which strings and subtrees leave the manifest, what a reference
looks like, what expansion puts back - is defined here. */
module Cas {
  import opened Types

  /** A decoded JSON value. Numbers are opaque literals; `RawPayload` is the marker value
      that expansion yields for a payload that was never JSON. */
  datatype Json =
    | Null
    | Bool(b: bool)
    | Num(literal: string)
    | Str(text: string)
    | Arr(items: seq<Json>)
    | Obj(fields: map<string, Json>)
    | RawPayload(data: Bytes)

  datatype Codec = Codec(
    marshal: Json -> Bytes,
    unmarshal: Bytes -> Option<Json>,       // the whole input is one document
    decodeFirst: Bytes -> Option<Json>,     // the first document of the input
    sha: Bytes -> Hash,
    base64Decode: string -> Option<Bytes>,
    base64Encode: Bytes -> string,
    lower: string -> string)

  const INLINE_THRESHOLD := 1024
  const SUBTREE_THRESHOLD := 16384
  const REF_KEY := "$cpa_blob"
  const NOISE_KEYS := {"encrypted_content", "internal_chat_message_metadata_passthrough"}

  /** Values a JSON decoder can produce. */
  ghost predicate Plain(v: Json) {
    match v
    case Arr(items) => forall i | 0 <= i < |items| :: Plain(items[i])
    case Obj(fields) => forall k | k in fields :: Plain(fields[k])
    case RawPayload(_) => false
    case _ => true
  }

  /** What is assumed of encoding/json and SHA-256; nothing is assumed of base64. */
  ghost predicate Lawful(c: Codec) {
    && (forall v | Plain(v) :: c.unmarshal(c.marshal(v)) == Some(v))
    && (forall v | Plain(v) :: c.decodeFirst(c.marshal(v)) == Some(v))
    && (forall raw :: c.decodeFirst(raw).Some? ==> Plain(c.decodeFirst(raw).value))
    && (forall v :: c.marshal(v) != [])
    && c.unmarshal([]).None?
    && CollisionFree(c)
    && (forall raw :: c.sha(raw) != "")
  }

  ghost predicate CollisionFree(c: Codec) {
    forall a, b | c.sha(a) == c.sha(b) :: a == b
  }

  predicate IsNoise(c: Codec, key: string) {
    c.lower(key) in NOISE_KEYS
  }

  function Decimal(n: nat): string {
    if n < 10 then [(n as char) + '0'] else Decimal(n / 10) + [((n % 10) as char) + '0']
  }

  /** The JSON form of a blobRef. */
  function RefJson(hash: Hash, encoding: string, size: nat, media: string): Json {
    var fields := map[REF_KEY := Str(hash), "encoding" := Str(encoding), "size" := Num(Decimal(size))];
    Obj(if media == "" then fields else fields["media_type" := Str(media)])
  }

  function IndexByte(s: string, ch: char): (i: nat)
    ensures i <= |s| && (i < |s| ==> s[i] == ch) && ch !in s[..i]
  {
    if s == [] || s[0] == ch then 0 else 1 + IndexByte(s[1..], ch)
  }

  predicate Contains(s: string, sub: string) {
    sub <= s || (s != [] && Contains(s[1..], sub))
  }

  datatype DataUrl = DataUrl(media: string, raw: Bytes)

  function MediaOf(head: string): string {
    var part := head[..IndexByte(head, ';')];
    if "data:" <= part then part[5..] else part
  }

  /** The data URLs that compaction takes apart. */
  function ParseDataUrl(c: Codec, s: string): Option<DataUrl> {
    var comma := IndexByte(s, ',');
    if "data:" <= s && 5 < comma < |s| && Contains(s[..comma], ";base64") then
      var raw := c.base64Decode(s[comma + 1..]);
      if raw.None? then None else Some(DataUrl(MediaOf(s[..comma]), raw.value))
    else None
  }

  function DataUrlText(c: Codec, media: string, raw: Bytes): string {
    "data:" + media + ";base64," + c.base64Encode(raw)
  }

  function CompactString(c: Codec, s: string): Json {
    match ParseDataUrl(c, s)
    case Some(url) => RefJson(c.sha(url.raw), "data-url", |url.raw|, url.media)
    case None =>
      if |s| < INLINE_THRESHOLD then Str(s)
      else RefJson(c.sha(s), "utf8", |s|, "text/plain; charset=utf-8")
  }

  function StringBlobs(c: Codec, s: string): set<Bytes> {
    match ParseDataUrl(c, s)
    case Some(url) => {url.raw}
    case None => if |s| < INLINE_THRESHOLD then {} else {s}
  }

  predicate Externalizes(c: Codec, v: Json, nested: bool) {
    nested && |c.marshal(v)| >= SUBTREE_THRESHOLD
  }

  function MaybeExternalize(c: Codec, v: Json, nested: bool): Json {
    if Externalizes(c, v, nested)
    then RefJson(c.sha(c.marshal(v)), "json", |c.marshal(v)|, "application/json")
    else v
  }

  /** A container with its children compacted, before its own size is considered. */
  function Inner(c: Codec, v: Json, nested: bool): Json
    decreases v, 0
  {
    match v
    case Arr(items) => Arr(seq(|items|, i requires 0 <= i < |items| => Compact(c, items[i], true)))
    case Obj(fields) => Obj(map k | k in fields && !IsNoise(c, k) :: Compact(c, fields[k], true))
    case _ => v
  }

  function Compact(c: Codec, v: Json, nested: bool): Json
    decreases v, 1
  {
    match v
    case Str(s) => CompactString(c, s)
    case Arr(_) => MaybeExternalize(c, Inner(c, v, nested), nested)
    case Obj(_) => MaybeExternalize(c, Inner(c, v, nested), nested)
    case _ => v
  }

  function ChildBlobs(c: Codec, v: Json, nested: bool): set<Bytes>
    decreases v, 0
  {
    match v
    case Arr(items) => set i, d | 0 <= i < |items| && d in Emitted(c, items[i], true) :: d
    case Obj(fields) => set k, d | k in fields && !IsNoise(c, k) && d in Emitted(c, fields[k], true) :: d
    case _ => {}
  }

  function OwnBlob(c: Codec, v: Json, nested: bool): set<Bytes> {
    if Externalizes(c, Inner(c, v, nested), nested) then {c.marshal(Inner(c, v, nested))} else {}
  }

  /** The blobs that compaction hands to the store beside the manifest. */
  function Emitted(c: Codec, v: Json, nested: bool): set<Bytes>
    decreases v, 1
  {
    match v
    case Str(s) => StringBlobs(c, s)
    case Arr(_) => ChildBlobs(c, v, nested) + OwnBlob(c, v, nested)
    case Obj(_) => ChildBlobs(c, v, nested) + OwnBlob(c, v, nested)
    case _ => {}
  }

  predicate IsRef(fields: map<string, Json>) {
    REF_KEY in fields && fields[REF_KEY].Str?
  }

  function TextField(fields: map<string, Json>, key: string): string {
    if key in fields && fields[key].Str? then fields[key].text else ""
  }

  /** expandValue. Every `json` reference followed costs one unit of fuel. */
  function Expand(c: Codec, store: Store, v: Json, fuel: nat): Option<Json>
    decreases fuel, v
  {
    match v
    case Arr(items) =>
      if forall i | 0 <= i < |items| :: Expand(c, store, items[i], fuel).Some?
      then Some(Arr(seq(|items|, i requires 0 <= i < |items| => Expand(c, store, items[i], fuel).value)))
      else None
    case Obj(fields) =>
      if IsRef(fields) then ExpandRef(c, store, fields, fuel)
      else if forall k | k in fields :: Expand(c, store, fields[k], fuel).Some?
      then Some(Obj(map k | k in fields :: Expand(c, store, fields[k], fuel).value))
      else None
    case _ => Some(v)
  }

  function ExpandRef(c: Codec, store: Store, fields: map<string, Json>, fuel: nat): Option<Json>
    requires IsRef(fields)
    decreases fuel, Obj(fields), 0
  {
    match Load(store, fields[REF_KEY].text)
    case None => None
    case Some(raw) =>
      var encoding := TextField(fields, "encoding");
      if encoding == "raw" then Some(RawPayload(raw))
      else if encoding == "utf8" then Some(Str(raw))
      else if encoding == "data-url" then Some(Str(DataUrlText(c, TextField(fields, "media_type"), raw)))
      else if encoding == "json" && fuel > 0 && c.unmarshal(raw).Some?
      then Expand(c, store, c.unmarshal(raw).value, fuel - 1)
      else None
  }

  // ----- What a round trip gives back -----

  /** A string after the round trip: a data URL that was taken apart is rebuilt from its
      media type and bytes, every other string is untouched. */
  function RestoredText(c: Codec, s: string): string {
    match ParseDataUrl(c, s)
    case Some(url) => DataUrlText(c, url.media, url.raw)
    case None => s
  }

  /** The value with noise keys removed at every depth; `rebuilt` says whether data URLs
      went through the store on the way. */
  function Cleaned(c: Codec, rebuilt: bool, v: Json): Json {
    match v
    case Str(s) => Str(if rebuilt then RestoredText(c, s) else s)
    case Arr(items) => Arr(seq(|items|, i requires 0 <= i < |items| => Cleaned(c, rebuilt, items[i])))
    case Obj(fields) => Obj(map k | k in fields && !IsNoise(c, k) :: Cleaned(c, rebuilt, fields[k]))
    case _ => v
  }

  /** The original value minus its noise keys. */
  function Denoised(c: Codec, v: Json): Json {
    Cleaned(c, false, v)
  }

  function Restored(c: Codec, v: Json): Json {
    Cleaned(c, true, v)
  }

  /** The object keeps a string under the reference key once it is compacted. */
  predicate Clashes(c: Codec, fields: map<string, Json>) {
    REF_KEY in fields && !IsNoise(c, REF_KEY) && fields[REF_KEY].Str? && CompactString(c, fields[REF_KEY].text).Str?
  }

  /** No object at any depth does. */
  ghost predicate NoClash(c: Codec, v: Json) {
    match v
    case Arr(items) => forall i | 0 <= i < |items| :: NoClash(c, items[i])
    case Obj(fields) => !Clashes(c, fields) && forall k | k in fields && !IsNoise(c, k) :: NoClash(c, fields[k])
    case _ => true
  }

  /** At most `d` containers are nested inside one another. */
  ghost predicate NestsWithin(v: Json, d: nat) {
    match v
    case Arr(items) => d > 0 && forall i | 0 <= i < |items| :: NestsWithin(items[i], d - 1)
    case Obj(fields) => d > 0 && forall k | k in fields :: NestsWithin(fields[k], d - 1)
    case _ => true
  }

  /** `store` holds each of `blobs` under its hash. */
  ghost predicate Holds(c: Codec, store: Store, blobs: set<Bytes>) {
    forall d | d in blobs :: Load(store, c.sha(d)) == Some(d)
  }

  lemma {:induction false} NestsMonotone(v: Json, d: nat, e: nat)
    requires NestsWithin(v, d) && d <= e
    ensures NestsWithin(v, e)
    decreases v
  {
    match v
    case Arr(items) =>
      forall i | 0 <= i < |items| ensures NestsWithin(items[i], e - 1) { NestsMonotone(items[i], d - 1, e - 1); }
    case Obj(fields) =>
      forall k | k in fields ensures NestsWithin(fields[k], e - 1) { NestsMonotone(fields[k], d - 1, e - 1); }
    case _ =>
  }

  /** Compaction never leaves the values a decoder can produce. */
  lemma {:induction false} CompactPlain(c: Codec, v: Json, nested: bool)
    requires Plain(v)
    ensures Plain(Inner(c, v, nested)) && Plain(Compact(c, v, nested))
    decreases v
  {
    match v
    case Arr(items) =>
      forall i | 0 <= i < |items| ensures Plain(Compact(c, items[i], true)) {
        CompactPlain(c, items[i], true);
      }
    case Obj(fields) =>
      forall k | k in fields ensures Plain(Compact(c, fields[k], true)) {
        CompactPlain(c, fields[k], true);
      }
    case _ =>
  }

  /** Elements restored one by one restore the array they sit in. */
  lemma {:induction false} ItemsExpand(c: Codec, store: Store, v: Json, nested: bool, fuel: nat)
    requires Lawful(c) && Plain(v) && NoClash(c, v) && v.Arr?
    requires Holds(c, store, ChildBlobs(c, v, nested))
    requires forall i | 0 <= i < |v.items| :: NestsWithin(v.items[i], fuel)
    ensures Expand(c, store, Inner(c, v, nested), fuel) == Some(Restored(c, v))
    decreases v, 0, 0
  {
    forall i | 0 <= i < |v.items|
      ensures Expand(c, store, Compact(c, v.items[i], true), fuel) == Some(Restored(c, v.items[i]))
    {
      assert forall d | d in Emitted(c, v.items[i], true) :: d in ChildBlobs(c, v, nested);
      RoundTrip(c, store, v.items[i], true, fuel);
    }
    var inner := Inner(c, v, nested);
    assert forall i | 0 <= i < |v.items| :: inner.items[i] == Compact(c, v.items[i], true);
    assert Expand(c, store, inner, fuel).value.items == Restored(c, v).items;
  }

  lemma {:induction false} FieldsExpand(c: Codec, store: Store, v: Json, nested: bool, fuel: nat)
    requires Lawful(c) && Plain(v) && NoClash(c, v) && v.Obj?
    requires Holds(c, store, ChildBlobs(c, v, nested))
    requires forall k | k in v.fields :: NestsWithin(v.fields[k], fuel)
    ensures Expand(c, store, Inner(c, v, nested), fuel) == Some(Restored(c, v))
    decreases v, 0, 0
  {
    forall k | k in v.fields && !IsNoise(c, k)
      ensures Expand(c, store, Compact(c, v.fields[k], true), fuel) == Some(Restored(c, v.fields[k]))
    {
      assert forall d | d in Emitted(c, v.fields[k], true) :: d in ChildBlobs(c, v, nested);
      RoundTrip(c, store, v.fields[k], true, fuel);
    }
    InnerIsNoRef(c, v.fields, nested);
    AssembleFields(c, store, Inner(c, v, nested).fields, Restored(c, v).fields, fuel);
  }

  lemma AssembleFields(c: Codec, store: Store, stored: map<string, Json>, out: map<string, Json>, fuel: nat)
    requires !IsRef(stored) && stored.Keys == out.Keys
    requires forall k | k in stored :: Expand(c, store, stored[k], fuel) == Some(out[k])
    ensures Expand(c, store, Obj(stored), fuel) == Some(Obj(out))
  {
    assert Expand(c, store, Obj(stored), fuel).value.fields == out;
  }

  lemma InnerIsNoRef(c: Codec, fields: map<string, Json>, nested: bool)
    requires !Clashes(c, fields) && Plain(Obj(fields))
    ensures !IsRef(Inner(c, Obj(fields), nested).fields)
  {
    if REF_KEY in fields && !IsNoise(c, REF_KEY) {
      var child := fields[REF_KEY];
      if !child.Str? { assert !Compact(c, child, true).Str?; }
    }
  }

  /** Expanding a compacted value restores it, whichever strings and subtrees the size
      thresholds moved out, with fuel for no more than its own nesting depth. */
  lemma {:induction false} RoundTrip(c: Codec, store: Store, v: Json, nested: bool, fuel: nat)
    requires Lawful(c) && Plain(v) && NoClash(c, v) && NestsWithin(v, fuel)
    requires Holds(c, store, Emitted(c, v, nested))
    ensures Expand(c, store, Compact(c, v, nested), fuel) == Some(Restored(c, v))
    decreases v, 2
  {
    match v
    case Str(s) => StringRoundTrip(c, store, s, fuel);
    case Arr(_) => ContainerRoundTrip(c, store, v, nested, fuel);
    case Obj(_) => ContainerRoundTrip(c, store, v, nested, fuel);
    case _ =>
  }

  lemma RefFields(hash: Hash, encoding: string, size: nat, media: string)
    ensures var ref := RefJson(hash, encoding, size, media);
            && ref.Obj? && IsRef(ref.fields) && ref.fields[REF_KEY].text == hash
            && TextField(ref.fields, "encoding") == encoding && TextField(ref.fields, "media_type") == media
  {
  }

  lemma StringRoundTrip(c: Codec, store: Store, s: string, fuel: nat)
    requires Lawful(c) && Holds(c, store, StringBlobs(c, s))
    ensures Expand(c, store, CompactString(c, s), fuel) == Some(Str(RestoredText(c, s)))
  {
    match ParseDataUrl(c, s)
    case Some(url) =>
      RefFields(c.sha(url.raw), "data-url", |url.raw|, url.media);
      assert url.raw in StringBlobs(c, s);
    case None =>
      if |s| >= INLINE_THRESHOLD {
        RefFields(c.sha(s), "utf8", |s|, "text/plain; charset=utf-8");
        assert s in StringBlobs(c, s);
      }
  }

  lemma JsonRefExpands(c: Codec, store: Store, inner: Json, fuel: nat)
    requires c.unmarshal(c.marshal(inner)) == Some(inner)
    requires Load(store, c.sha(c.marshal(inner))) == Some(c.marshal(inner))
    ensures Expand(c, store, RefJson(c.sha(c.marshal(inner)), "json", |c.marshal(inner)|, "application/json"), fuel)
            == if fuel == 0 then None else Expand(c, store, inner, fuel - 1)
  {
  }

  lemma InnerDecodes(c: Codec, v: Json, nested: bool)
    requires Lawful(c) && Plain(v)
    ensures c.unmarshal(c.marshal(Inner(c, v, nested))) == Some(Inner(c, v, nested))
  {
    CompactPlain(c, v, nested);
  }

  lemma OwnBlobHeld(c: Codec, store: Store, v: Json, nested: bool)
    requires Holds(c, store, OwnBlob(c, v, nested)) && Externalizes(c, Inner(c, v, nested), nested)
    ensures var raw := c.marshal(Inner(c, v, nested));
            Load(store, c.sha(raw)) == Some(raw)
  {
  }

  /** An externalised container expands as its stored form, at the price of one unit of fuel. */
  lemma ExternalExpands(c: Codec, store: Store, v: Json, nested: bool, fuel: nat)
    requires Lawful(c) && Plain(v) && Externalizes(c, Inner(c, v, nested), nested)
    requires Holds(c, store, OwnBlob(c, v, nested))
    ensures Expand(c, store, MaybeExternalize(c, Inner(c, v, nested), nested), fuel)
            == if fuel == 0 then None else Expand(c, store, Inner(c, v, nested), fuel - 1)
  {
    var inner := Inner(c, v, nested);
    OwnBlobHeld(c, store, v, nested);
    InnerDecodes(c, v, nested);
    JsonRefExpands(c, store, inner, fuel);
  }

  lemma {:induction false} ContainerRoundTrip(c: Codec, store: Store, v: Json, nested: bool, fuel: nat)
    requires Lawful(c) && Plain(v) && NoClash(c, v) && NestsWithin(v, fuel) && (v.Arr? || v.Obj?)
    requires Holds(c, store, ChildBlobs(c, v, nested)) && Holds(c, store, OwnBlob(c, v, nested))
    ensures Expand(c, store, MaybeExternalize(c, Inner(c, v, nested), nested), fuel) == Some(Restored(c, v))
    decreases v, 1
  {
    if Externalizes(c, Inner(c, v, nested), nested) {
      ExternalExpands(c, store, v, nested, fuel);
      InnerExpands(c, store, v, nested, fuel, fuel - 1);
    } else {
      InnerExpands(c, store, v, nested, fuel, fuel);
    }
  }

  lemma {:induction false} InnerExpands(c: Codec, store: Store, v: Json, nested: bool, d: nat, fuel: nat)
    requires Lawful(c) && Plain(v) && NoClash(c, v) && NestsWithin(v, d) && (v.Arr? || v.Obj?)
    requires d - 1 <= fuel && Holds(c, store, ChildBlobs(c, v, nested))
    ensures Expand(c, store, Inner(c, v, nested), fuel) == Some(Restored(c, v))
    decreases v, 0, 1
  {
    if v.Arr? {
      forall i | 0 <= i < |v.items| ensures NestsWithin(v.items[i], fuel) { NestsMonotone(v.items[i], d - 1, fuel); }
      ItemsExpand(c, store, v, nested, fuel);
    } else {
      forall k | k in v.fields ensures NestsWithin(v.fields[k], fuel) { NestsMonotone(v.fields[k], d - 1, fuel); }
      FieldsExpand(c, store, v, nested, fuel);
    }
  }

  // ----- Payloads -----

  function LastIndex(s: Bytes, sub: Bytes): (i: int)
    ensures i == -1 || (0 <= i <= |s| && sub <= s[i..])
    decreases |s|
  {
    if s == [] then (if sub == [] then 0 else -1)
    else
      var later := LastIndex(s[1..], sub);
      if later >= 0 then later + 1 else if sub <= s then 0 else -1
  }

  function FirstIndex(s: Bytes, sub: Bytes): (i: int)
    ensures i == -1 || (0 <= i <= |s| && sub <= s[i..])
    decreases |s|
  {
    if sub <= s then 0
    else if s == [] then -1
    else
      var later := FirstIndex(s[1..], sub);
      if later < 0 then -1 else later + 1
  }

  const COMPLETED_MARKER := "event: response.completed"

  /** The terminal event of a completed stream, or nothing. */
  function TerminalSse(c: Codec, raw: Bytes): Option<Json> {
    var pos := LastIndex(raw, COMPLETED_MARKER);
    if pos < 0 then None
    else
      var tail := raw[pos..][|COMPLETED_MARKER|..];
      var data := FirstIndex(tail, "data:");
      if data < 0 || data > 128 then None
      else
        match c.decodeFirst(tail[data..][5..])
        case Some(Obj(event)) =>
          if "type" in event && event["type"] == Str("response.completed") then Some(Obj(event)) else None
        case _ => None
  }

  /** What the archive keeps of a payload: the terminal event of a completed stream, the
      first JSON document of any other JSON payload, or the bytes themselves. */
  datatype Kept = Document(value: Json) | Opaque(bytes: Bytes)

  function KeptOf(c: Codec, raw: Bytes): Kept {
    match TerminalSse(c, raw)
    case Some(event) => Document(event)
    case None =>
      match c.decodeFirst(raw)
      case Some(v) => Document(v)
      case None => Opaque(raw)
  }

  datatype Compaction = Compaction(manifest: Bytes, blobs: set<Bytes>)

  /** CompactPayload. */
  function CompactPayload(c: Codec, raw: Bytes): Compaction {
    if raw == [] then Compaction([], {})
    else
      var event := TerminalSse(c, raw);
      var source := if event.Some? then c.marshal(event.value) else raw;
      match c.decodeFirst(source)
      case Some(v) => Compaction(c.marshal(Compact(c, v, false)), Emitted(c, v, false))
      case None => Compaction(c.marshal(RefJson(c.sha(source), "raw", |source|, "")), {source})
  }

  /** ExpandPayload. */
  function ExpandPayload(c: Codec, store: Store, manifest: Bytes, fuel: nat): Option<Bytes> {
    if manifest == [] then Some([])
    else
      match c.unmarshal(manifest)
      case None => None
      case Some(v) =>
        match Expand(c, store, v, fuel)
        case None => None
        case Some(RawPayload(data)) => Some(data)
        case Some(value) => Some(c.marshal(value))
  }

  /** The bytes a stored payload reads back as. */
  function ReadBack(c: Codec, raw: Bytes): Bytes {
    if raw == [] then []
    else
      match KeptOf(c, raw)
      case Document(v) => c.marshal(Restored(c, v))
      case Opaque(bytes) => bytes
  }

  lemma {:induction false} RestoredPlain(c: Codec, v: Json)
    requires Plain(v)
    ensures Plain(Restored(c, v))
    decreases v
  {
    match v
    case Arr(items) => forall i | 0 <= i < |items| ensures Plain(Restored(c, items[i])) { RestoredPlain(c, items[i]); }
    case Obj(fields) => forall k | k in fields ensures Plain(Restored(c, fields[k])) { RestoredPlain(c, fields[k]); }
    case _ =>
  }

  /** The premises a payload's document must meet for the round trip. */
  ghost predicate Storable(c: Codec, raw: Bytes, fuel: nat) {
    var kept := KeptOf(c, raw);
    kept.Document? ==> NoClash(c, kept.value) && NestsWithin(kept.value, fuel)
  }

  lemma DocumentRoundTrip(c: Codec, store: Store, v: Json, fuel: nat)
    requires Lawful(c) && Plain(v) && NoClash(c, v) && NestsWithin(v, fuel) && Holds(c, store, Emitted(c, v, false))
    ensures ExpandPayload(c, store, c.marshal(Compact(c, v, false)), fuel) == Some(c.marshal(Restored(c, v)))
  {
    CompactPlain(c, v, false);
    RoundTrip(c, store, v, false, fuel);
    RestoredPlain(c, v);
  }

  lemma RawRoundTrip(c: Codec, store: Store, raw: Bytes, fuel: nat)
    requires Lawful(c) && Load(store, c.sha(raw)) == Some(raw)
    ensures ExpandPayload(c, store, c.marshal(RefJson(c.sha(raw), "raw", |raw|, "")), fuel) == Some(raw)
  {
    RefFields(c.sha(raw), "raw", |raw|, "");
    var ref := RefJson(c.sha(raw), "raw", |raw|, "");
    assert Plain(ref);
    assert Expand(c, store, ref, fuel) == Some(RawPayload(raw));
  }

  /** Every payload expands to its kept document, or byte for byte to itself. */
  lemma PayloadRoundTrip(c: Codec, store: Store, raw: Bytes, fuel: nat)
    requires Lawful(c) && Storable(c, raw, fuel)
    requires Holds(c, store, CompactPayload(c, raw).blobs)
    ensures ExpandPayload(c, store, CompactPayload(c, raw).manifest, fuel) == Some(ReadBack(c, raw))
  {
    if raw != [] {
      match KeptOf(c, raw)
      case Document(v) =>
        TerminalPlain(c, raw);
        DocumentRoundTrip(c, store, v, fuel);
      case Opaque(_) =>
        assert raw in CompactPayload(c, raw).blobs;
        RawRoundTrip(c, store, raw, fuel);
    }
  }

  lemma TerminalPlain(c: Codec, raw: Bytes)
    requires Lawful(c) && KeptOf(c, raw).Document?
    ensures Plain(KeptOf(c, raw).value)
    ensures raw != [] ==> CompactPayload(c, raw).manifest == c.marshal(Compact(c, KeptOf(c, raw).value, false))
    ensures raw != [] ==> CompactPayload(c, raw).blobs == Emitted(c, KeptOf(c, raw).value, false)
  {
  }

  /** Anything that is neither JSON nor a completed stream survives byte for byte. */
  lemma OpaqueSurvives(c: Codec, store: Store, raw: Bytes, fuel: nat)
    requires Lawful(c) && c.decodeFirst(raw).None? && TerminalSse(c, raw).None?
    requires Holds(c, store, CompactPayload(c, raw).blobs)
    ensures ExpandPayload(c, store, CompactPayload(c, raw).manifest, fuel) == Some(raw)
  {
    PayloadRoundTrip(c, store, raw, fuel);
  }

  // ----- compactValue as the loops that fill the blob table -----

  ghost predicate Addressed(c: Codec, store: Store) {
    forall h | h in store :: h == c.sha(store[h])
  }

  method AddBlob(c: Codec, data: Bytes, blobs: Store) returns (out: Store)
    requires CollisionFree(c) && Addressed(c, blobs)
    ensures Addressed(c, out) && out.Values == blobs.Values + {data}
  {
    var h := c.sha(data);
    out := blobs[h := data];
    assert out[h] == data;
    assert forall k | k in blobs :: out[k] == blobs[k];
  }

  method CompactText(c: Codec, s: string, blobs: Store) returns (out: Json, table: Store)
    requires CollisionFree(c) && Addressed(c, blobs)
    ensures out == CompactString(c, s)
    ensures Addressed(c, table) && table.Values == blobs.Values + StringBlobs(c, s)
  {
    match ParseDataUrl(c, s)
    case Some(url) =>
      table := AddBlob(c, url.raw, blobs);
      out := RefJson(c.sha(url.raw), "data-url", |url.raw|, url.media);
    case None =>
      out, table := Str(s), blobs;
      if |s| >= INLINE_THRESHOLD {
        table := AddBlob(c, s, blobs);
        out := RefJson(c.sha(s), "utf8", |s|, "text/plain; charset=utf-8");
      }
  }

  method CompactValue(c: Codec, v: Json, nested: bool, blobs: Store) returns (out: Json, table: Store)
    requires CollisionFree(c) && Addressed(c, blobs)
    ensures out == Compact(c, v, nested)
    ensures Addressed(c, table) && table.Values == blobs.Values + Emitted(c, v, nested)
    decreases v, 2
  {
    match v
    case Str(s) =>
      out, table := CompactText(c, s, blobs);
    case Arr(_) =>
      var inner;
      inner, table := CompactItems(c, v, nested, blobs);
      out, table := Externalize(c, v, inner, nested, table, blobs.Values);
    case Obj(_) =>
      var compacted;
      compacted, table := CompactFields(c, v, blobs);
      ObjectDone(c, v, nested);
      out, table := Externalize(c, v, Obj(compacted), nested, table, blobs.Values);
    case _ =>
      out, table := v, blobs;
  }

  method Externalize(c: Codec, ghost v: Json, inner: Json, nested: bool, blobs: Store, ghost base: set<Bytes>)
    returns (out: Json, table: Store)
    requires CollisionFree(c) && Addressed(c, blobs)
    requires inner == Inner(c, v, nested) && blobs.Values == base + ChildBlobs(c, v, nested)
    ensures out == MaybeExternalize(c, inner, nested)
    ensures Addressed(c, table) && table.Values == base + (ChildBlobs(c, v, nested) + OwnBlob(c, v, nested))
  {
    out, table := inner, blobs;
    if nested {
      var raw := c.marshal(inner);
      if |raw| >= SUBTREE_THRESHOLD {
        table := AddBlob(c, raw, table);
        out := RefJson(c.sha(raw), "json", |raw|, "application/json");
      }
    }
  }

  ghost function ItemBlobs(c: Codec, items: seq<Json>, n: nat): set<Bytes>
    requires n <= |items|
  {
    set i, d | 0 <= i < n && d in Emitted(c, items[i], true) :: d
  }

  lemma ItemBlobsStep(c: Codec, items: seq<Json>, n: nat)
    requires n < |items|
    ensures ItemBlobs(c, items, n + 1) == ItemBlobs(c, items, n) + Emitted(c, items[n], true)
  {
  }

  ghost function FieldBlobs(c: Codec, fields: map<string, Json>, keys: set<string>): set<Bytes>
    requires keys <= fields.Keys
  {
    set k, d | k in keys && !IsNoise(c, k) && d in Emitted(c, fields[k], true) :: d
  }

  lemma FieldBlobsStep(c: Codec, fields: map<string, Json>, keys: set<string>, key: string)
    requires keys <= fields.Keys && key in fields
    ensures FieldBlobs(c, fields, keys + {key})
            == FieldBlobs(c, fields, keys) + (if IsNoise(c, key) then {} else Emitted(c, fields[key], true))
  {
  }

  method CompactItems(c: Codec, v: Json, nested: bool, blobs: Store) returns (inner: Json, table: Store)
    requires CollisionFree(c) && Addressed(c, blobs) && v.Arr?
    ensures inner == Inner(c, v, nested)
    ensures Addressed(c, table) && table.Values == blobs.Values + ChildBlobs(c, v, nested)
    decreases v, 1
  {
    var items := [];
    table := blobs;
    for i := 0 to |v.items|
      invariant ItemsDone(c, v.items, i, items)
      invariant Addressed(c, table)
      invariant table.Values == blobs.Values + ItemBlobs(c, v.items, i)
    {
      items, table := CompactItem(c, v, i, items, table, blobs.Values);
    }
    inner := Arr(items);
    ArrayDone(c, v, nested, items);
  }

  ghost predicate ItemsDone(c: Codec, items: seq<Json>, n: nat, done: seq<Json>) {
    n <= |items| && |done| == n && forall j | 0 <= j < n :: done[j] == Compact(c, items[j], true)
  }

  method CompactItem(c: Codec, v: Json, i: nat, items: seq<Json>, blobs: Store, ghost base: set<Bytes>)
    returns (out: seq<Json>, table: Store)
    requires CollisionFree(c) && Addressed(c, blobs) && v.Arr? && i < |v.items| && ItemsDone(c, v.items, i, items)
    requires blobs.Values == base + ItemBlobs(c, v.items, i)
    ensures ItemsDone(c, v.items, i + 1, out) && Addressed(c, table)
    ensures table.Values == base + ItemBlobs(c, v.items, i + 1)
    decreases v, 0
  {
    ItemBlobsStep(c, v.items, i);
    var item;
    item, table := CompactValue(c, v.items[i], true, blobs);
    out := items + [item];
  }

  lemma ArrayDone(c: Codec, v: Json, nested: bool, items: seq<Json>)
    requires v.Arr? && ItemsDone(c, v.items, |v.items|, items)
    ensures Inner(c, v, nested) == Arr(items)
    ensures ChildBlobs(c, v, nested) == ItemBlobs(c, v.items, |v.items|)
  {
    assert Inner(c, v, nested).items == items;
  }

  ghost function FieldsDone(c: Codec, fields: map<string, Json>, keys: set<string>): map<string, Json>
    requires keys <= fields.Keys
  {
    map k | k in keys && !IsNoise(c, k) :: Compact(c, fields[k], true)
  }

  method CompactField(c: Codec, v: Json, key: string, fields: map<string, Json>, blobs: Store,
                      ghost done: set<string>, ghost base: set<Bytes>)
    returns (out: map<string, Json>, table: Store)
    requires CollisionFree(c) && Addressed(c, blobs) && v.Obj? && key in v.fields && done <= v.fields.Keys
    requires fields == FieldsDone(c, v.fields, done) && blobs.Values == base + FieldBlobs(c, v.fields, done)
    ensures out == FieldsDone(c, v.fields, done + {key})
    ensures Addressed(c, table)
    ensures table.Values == base + FieldBlobs(c, v.fields, done + {key})
    decreases v, 0
  {
    FieldBlobsStep(c, v.fields, done, key);
    out, table := fields, blobs;
    if !IsNoise(c, key) {
      var item;
      item, table := CompactValue(c, v.fields[key], true, table);
      out := out[key := item];
    }
  }

  method CompactFields(c: Codec, v: Json, blobs: Store) returns (fields: map<string, Json>, table: Store)
    requires CollisionFree(c) && Addressed(c, blobs) && v.Obj?
    ensures fields == FieldsDone(c, v.fields, v.fields.Keys)
    ensures Addressed(c, table) && table.Values == blobs.Values + FieldBlobs(c, v.fields, v.fields.Keys)
    decreases v, 1
  {
    var pending := v.fields.Keys;
    ghost var done: set<string> := {};
    fields, table := map[], blobs;
    while pending != {}
      invariant pending + done == v.fields.Keys
      invariant fields == FieldsDone(c, v.fields, done)
      invariant Addressed(c, table)
      invariant table.Values == blobs.Values + FieldBlobs(c, v.fields, done)
      decreases |pending|
    {
      var k :| k in pending;
      fields, table := CompactField(c, v, k, fields, table, done, blobs.Values);
      pending, done := pending - {k}, done + {k};
    }
    assert done == v.fields.Keys;
  }

  lemma ObjectDone(c: Codec, v: Json, nested: bool)
    requires v.Obj?
    ensures Inner(c, v, nested) == Obj(FieldsDone(c, v.fields, v.fields.Keys))
    ensures ChildBlobs(c, v, nested) == FieldBlobs(c, v.fields, v.fields.Keys)
  {
  }
}
