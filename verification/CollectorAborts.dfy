/** Exactly when a collection aborts (internal/archive/store.go). The collector reads every
reachable blob as if it were a manifest, so a stored text can name blobs that never existed;
nothing else can stop it. */
module CollectorAborts {
  import opened Types
  import opened Cas
  import opened BlobStore
  import opened Collector

  // ----- The two kinds of blobs of a payload -----

  /** The subtrees that compaction stored as documents of their own. */
  function Subtrees(c: Codec, v: Json, nested: bool): set<Bytes> {
    match v
    case Arr(items) => (set i, d | 0 <= i < |items| && d in Subtrees(c, items[i], true) :: d) + OwnBlob(c, v, nested)
    case Obj(fields) =>
      (set k, d | k in fields && !IsNoise(c, k) && d in Subtrees(c, fields[k], true) :: d) + OwnBlob(c, v, nested)
    case _ => {}
  }

  /** The texts and the decoded data URLs. */
  function Texts(c: Codec, v: Json): set<Bytes> {
    match v
    case Str(s) => StringBlobs(c, s)
    case Arr(items) => set i, d | 0 <= i < |items| && d in Texts(c, items[i]) :: d
    case Obj(fields) => set k, d | k in fields && !IsNoise(c, k) && d in Texts(c, fields[k]) :: d
    case _ => {}
  }

  lemma ItemParts(c: Codec, items: seq<Json>, nested: bool)
    requires forall i | 0 <= i < |items| ::
               Emitted(c, items[i], true) == Subtrees(c, items[i], true) + Texts(c, items[i])
    ensures Emitted(c, Arr(items), nested) == Subtrees(c, Arr(items), nested) + Texts(c, Arr(items))
  {
  }

  lemma FieldParts(c: Codec, fields: map<string, Json>, nested: bool)
    requires forall k | k in fields ::
               Emitted(c, fields[k], true) == Subtrees(c, fields[k], true) + Texts(c, fields[k])
    ensures Emitted(c, Obj(fields), nested) == Subtrees(c, Obj(fields), nested) + Texts(c, Obj(fields))
  {
  }

  lemma {:induction false} EmittedParts(c: Codec, v: Json, nested: bool)
    ensures Emitted(c, v, nested) == Subtrees(c, v, nested) + Texts(c, v)
    decreases v
  {
    match v
    case Arr(items) =>
      forall i | 0 <= i < |items|
        ensures Emitted(c, items[i], true) == Subtrees(c, items[i], true) + Texts(c, items[i])
      {
        EmittedParts(c, items[i], true);
      }
      ItemParts(c, items, nested);
    case Obj(fields) =>
      forall k | k in fields
        ensures Emitted(c, fields[k], true) == Subtrees(c, fields[k], true) + Texts(c, fields[k])
      {
        EmittedParts(c, fields[k], true);
      }
      FieldParts(c, fields, nested);
    case _ =>
  }

  /** Manifest and subtrees of a payload. */
  function Structure(c: Codec, raw: Bytes): set<Bytes> {
    if raw == [] then {}
    else
      match KeptOf(c, raw)
      case Document(v) => {CompactPayload(c, raw).manifest} + Subtrees(c, v, false)
      case Opaque(_) => {CompactPayload(c, raw).manifest}
  }

  /** Its texts, its data URLs, or its raw bytes. */
  function Leaves(c: Codec, raw: Bytes): set<Bytes> {
    if raw == [] then {}
    else
      match KeptOf(c, raw)
      case Document(v) => Texts(c, v)
      case Opaque(bytes) => {bytes}
  }

  lemma PayloadParts(c: Codec, raw: Bytes)
    requires Lawful(c)
    ensures PayloadBlobs(c, raw) == Structure(c, raw) + Leaves(c, raw)
  {
    if raw != [] && KeptOf(c, raw).Document? {
      TerminalPlain(c, raw);
      EmittedParts(c, KeptOf(c, raw).value, false);
    }
  }

  // ----- Structure refers to the payload's own blobs only -----

  ghost predicate Named(c: Codec, blobs: set<Bytes>, h: Hash) {
    exists d :: d in blobs && h == c.sha(d)
  }

  ghost predicate AllNamed(c: Codec, blobs: set<Bytes>, hashes: set<Hash>) {
    forall h | h in hashes :: Named(c, blobs, h)
  }

  lemma NamedMore(c: Codec, few: set<Bytes>, many: set<Bytes>, hashes: set<Hash>)
    requires AllNamed(c, few, hashes) && few <= many
    ensures AllNamed(c, many, hashes)
  {
    forall h | h in hashes ensures Named(c, many, h) {
      var d :| d in few && h == c.sha(d);
      assert d in many;
    }
  }

  lemma RefNamed(c: Codec, blobs: set<Bytes>, d: Bytes, encoding: string, media: string)
    requires d in blobs
    ensures AllNamed(c, blobs, Refs(RefJson(c.sha(d), encoding, |d|, media)))
  {
    RefFields(c.sha(d), encoding, |d|, media);
    var ref := RefJson(c.sha(d), encoding, |d|, media);
    assert Refs(ref) <= {c.sha(d)} by {
      if c.sha(d) == "" { assert forall k | k in ref.fields :: Refs(ref.fields[k]) == {}; }
    }
    assert Named(c, blobs, c.sha(d));
  }

  lemma TextRefs(c: Codec, s: string)
    ensures AllNamed(c, StringBlobs(c, s), Refs(CompactString(c, s)))
  {
    match ParseDataUrl(c, s)
    case Some(url) => RefNamed(c, StringBlobs(c, s), url.raw, "data-url", url.media);
    case None =>
      if |s| >= INLINE_THRESHOLD { RefNamed(c, StringBlobs(c, s), s, "utf8", "text/plain; charset=utf-8"); }
  }

  lemma {:induction false} InnerRefs(c: Codec, v: Json, nested: bool)
    requires Plain(v) && NoClash(c, v) && (v.Arr? || v.Obj?)
    ensures AllNamed(c, ChildBlobs(c, v, nested), Refs(Inner(c, v, nested)))
    decreases v, 0
  {
    var inner := Inner(c, v, nested);
    match v
    case Arr(items) =>
      forall h | h in Refs(inner) ensures Named(c, ChildBlobs(c, v, nested), h) {
        var i :| 0 <= i < |items| && h in Refs(inner.items[i]);
        CompactRefs(c, items[i], true);
        NamedMore(c, Emitted(c, items[i], true), ChildBlobs(c, v, nested), Refs(inner.items[i]));
      }
    case Obj(fields) =>
      InnerIsNoRef(c, fields, nested);
      forall h | h in Refs(inner) ensures Named(c, ChildBlobs(c, v, nested), h) {
        var k :| k in inner.fields && h in Refs(inner.fields[k]);
        CompactRefs(c, fields[k], true);
        NamedMore(c, Emitted(c, fields[k], true), ChildBlobs(c, v, nested), Refs(inner.fields[k]));
      }
  }

  /** A compacted value refers to nothing but the blobs compaction emitted for it. */
  lemma {:induction false} CompactRefs(c: Codec, v: Json, nested: bool)
    requires Plain(v) && NoClash(c, v)
    ensures AllNamed(c, Emitted(c, v, nested), Refs(Compact(c, v, nested)))
    decreases v, 1
  {
    if v.Str? {
      TextRefs(c, v.text);
    } else if v.Arr? || v.Obj? {
      InnerRefs(c, v, nested);
      ContainerRefs(c, v, nested);
    }
  }

  lemma ContainerRefs(c: Codec, v: Json, nested: bool)
    requires (v.Arr? || v.Obj?) && AllNamed(c, ChildBlobs(c, v, nested), Refs(Inner(c, v, nested)))
    ensures AllNamed(c, ChildBlobs(c, v, nested) + OwnBlob(c, v, nested),
                     Refs(MaybeExternalize(c, Inner(c, v, nested), nested)))
  {
    var inner := Inner(c, v, nested);
    var blobs := ChildBlobs(c, v, nested) + OwnBlob(c, v, nested);
    if Externalizes(c, inner, nested) {
      RefNamed(c, blobs, c.marshal(inner), "json", "application/json");
    } else {
      NamedMore(c, ChildBlobs(c, v, nested), blobs, Refs(inner));
    }
  }

  lemma OwnRefs(c: Codec, v: Json, nested: bool, b: Bytes)
    requires Lawful(c) && Plain(v) && NoClash(c, v) && (v.Arr? || v.Obj?) && b in OwnBlob(c, v, nested)
    ensures AllNamed(c, Emitted(c, v, nested), NestedRefs(c, b))
  {
    InnerDecodes(c, v, nested);
    InnerRefs(c, v, nested);
    NamedMore(c, ChildBlobs(c, v, nested), Emitted(c, v, nested), NestedRefs(c, b));
  }

  lemma ItemEmitted(c: Codec, items: seq<Json>, nested: bool, i: nat, hashes: set<Hash>)
    requires i < |items| && AllNamed(c, Emitted(c, items[i], true), hashes)
    ensures AllNamed(c, Emitted(c, Arr(items), nested), hashes)
  {
    assert forall d | d in Emitted(c, items[i], true) :: d in ChildBlobs(c, Arr(items), nested);
    NamedMore(c, Emitted(c, items[i], true), Emitted(c, Arr(items), nested), hashes);
  }

  lemma FieldEmitted(c: Codec, fields: map<string, Json>, nested: bool, k: string, hashes: set<Hash>)
    requires k in fields && !IsNoise(c, k) && AllNamed(c, Emitted(c, fields[k], true), hashes)
    ensures AllNamed(c, Emitted(c, Obj(fields), nested), hashes)
  {
    assert forall d | d in Emitted(c, fields[k], true) :: d in ChildBlobs(c, Obj(fields), nested);
    NamedMore(c, Emitted(c, fields[k], true), Emitted(c, Obj(fields), nested), hashes);
  }

  /** So does every subtree it moved out. */
  lemma {:induction false} SubtreeRefs(c: Codec, v: Json, nested: bool, b: Bytes)
    requires Lawful(c) && Plain(v) && NoClash(c, v) && b in Subtrees(c, v, nested)
    ensures AllNamed(c, Emitted(c, v, nested), NestedRefs(c, b))
    decreases v
  {
    match v
    case Arr(items) =>
      if b in OwnBlob(c, v, nested) {
        OwnRefs(c, v, nested, b);
      } else {
        var i :| 0 <= i < |items| && b in Subtrees(c, items[i], true);
        SubtreeRefs(c, items[i], true, b);
        ItemEmitted(c, items, nested, i, NestedRefs(c, b));
      }
    case Obj(fields) =>
      if b in OwnBlob(c, v, nested) {
        OwnRefs(c, v, nested, b);
      } else {
        var k :| k in fields && !IsNoise(c, k) && b in Subtrees(c, fields[k], true);
        SubtreeRefs(c, fields[k], true, b);
        FieldEmitted(c, fields, nested, k, NestedRefs(c, b));
      }
  }

  lemma DocumentRefs(c: Codec, raw: Bytes, v: Json, b: Bytes)
    requires Lawful(c) && Wellformed(c, raw) && raw != [] && KeptOf(c, raw) == Document(v) && b in Structure(c, raw)
    ensures AllNamed(c, Emitted(c, v, false), NestedRefs(c, b))
  {
    TerminalPlain(c, raw);
    if b in Subtrees(c, v, false) {
      SubtreeRefs(c, v, false, b);
    } else {
      CompactPlain(c, v, false);
      CompactRefs(c, v, false);
    }
  }

  /** Manifests and subtrees of a payload refer to nothing but its own blobs. */
  lemma StructureRefs(c: Codec, raw: Bytes, b: Bytes)
    requires Lawful(c) && Wellformed(c, raw) && b in Structure(c, raw)
    ensures AllNamed(c, PayloadBlobs(c, raw), NestedRefs(c, b))
  {
    match KeptOf(c, raw)
    case Document(v) =>
      DocumentRefs(c, raw, v, b);
      TerminalPlain(c, raw);
      NamedMore(c, Emitted(c, v, false), PayloadBlobs(c, raw), NestedRefs(c, b));
    case Opaque(_) =>
      var ref := RefJson(c.sha(raw), "raw", |raw|, "");
      assert Plain(ref);
      RefNamed(c, PayloadBlobs(c, raw), raw, "raw", "");
  }

  // ----- Every reachable state -----

  /** The payloads that the first `i` steps put. */
  ghost function Written(steps: seq<Step>, i: nat): set<Bytes>
    requires i <= |steps|
  {
    if i == 0 then {}
    else Written(steps, i - 1) + match steps[i - 1] case Write(payloads, _) => payloads case Collect => {}
  }

  ghost function AllLeaves(c: Codec, payloads: set<Bytes>): set<Bytes> {
    set raw, d | raw in payloads && d in Leaves(c, raw) :: d
  }

  /** A blob whose references are not all present is a leaf of some payload. */
  ghost predicate Accounted(c: Codec, store: Store, payloads: set<Bytes>) {
    forall h | h in store :: store[h] in AllLeaves(c, payloads) || NestedRefs(c, store[h]) <= store.Keys
  }

  lemma InsertedAccounted(c: Codec, before: Store, payloads: set<Bytes>, after: Store, h: Hash)
    requires Lawful(c) && (forall raw | raw in payloads :: Wellformed(c, raw))
    requires Inserted(c, before, WrittenBlobs(c, payloads), after) && h in after && h !in before
    ensures after[h] in AllLeaves(c, payloads) || NestedRefs(c, after[h]) <= after.Keys
  {
    var b := after[h];
    assert b in WrittenBlobs(c, payloads);
    var raw :| raw in payloads && b in PayloadBlobs(c, raw);
    PayloadParts(c, raw);
    if b in Structure(c, raw) {
      StructureRefs(c, raw, b);
      forall q | q in NestedRefs(c, b) ensures q in after {
        assert Named(c, PayloadBlobs(c, raw), q);
        var d :| d in PayloadBlobs(c, raw) && q == c.sha(d);
        assert d in WrittenBlobs(c, payloads);
      }
    }
  }

  lemma WriteAccounted(c: Codec, v: Vault, step: Step, w: Vault, payloads: set<Bytes>)
    requires Lawful(c) && Accounted(c, v.blobs, payloads) && step.Write? && Enabled(c, v, step) && Next(c, v, step, w)
    ensures Accounted(c, w.blobs, payloads + step.payloads)
  {
    forall h | h in w.blobs
      ensures w.blobs[h] in AllLeaves(c, payloads + step.payloads) || NestedRefs(c, w.blobs[h]) <= w.blobs.Keys
    {
      if h !in v.blobs { InsertedAccounted(c, v.blobs, step.payloads, w.blobs, h); }
    }
  }

  lemma CollectAccounted(c: Codec, v: Vault, w: Vault, payloads: set<Bytes>)
    requires Accounted(c, v.blobs, payloads) && Next(c, v, Collect, w)
    ensures Accounted(c, w.blobs, payloads)
  {
    if w != v {
      forall h | h in w.blobs && w.blobs[h] !in AllLeaves(c, payloads)
        ensures NestedRefs(c, w.blobs[h]) <= w.blobs.Keys
      {
        forall q | q in NestedRefs(c, w.blobs[h]) ensures q in w.blobs {
          StepReachable(c, v.blobs, Roots(v), h, q);
        }
      }
    }
  }

  lemma {:induction false} RunAccounted(c: Codec, run: seq<Vault>, steps: seq<Step>, i: nat)
    requires Lawful(c) && IsRun(c, run, steps) && i < |run|
    ensures Accounted(c, run[i].blobs, Written(steps, i))
    decreases i
  {
    if i > 0 {
      RunAccounted(c, run, steps, i - 1);
      assert StepAt(c, run, steps, i - 1);
      if steps[i - 1].Write? {
        WriteAccounted(c, run[i - 1], steps[i - 1], run[i], Written(steps, i - 1));
      } else {
        CollectAccounted(c, run[i - 1], run[i], Written(steps, i - 1));
        assert Written(steps, i) == Written(steps, i - 1);
      }
    }
  }

  /** A reachable blob of the vault that names a blob which is not there. */
  ghost predicate Dangling(c: Codec, v: Vault, h: Hash, q: Hash) {
    h in v.blobs && Reachable(c, v.blobs, Roots(v), h) && q in NestedRefs(c, v.blobs[h]) && q !in v.blobs
  }

  lemma MissingIsDangling(c: Codec, v: Vault) returns (h: Hash, q: Hash)
    requires !Intact(c, v.blobs, Roots(v)) && Roots(v) <= v.blobs.Keys
    ensures Dangling(c, v, h, q)
  {
    q :| Reachable(c, v.blobs, Roots(v), q) && q !in v.blobs;
    var p :| IsChain(c, v.blobs, Roots(v), p) && p[|p| - 1] == q;
    h := p[|p| - 2];
    assert IsChain(c, v.blobs, Roots(v), p[..|p| - 1]);
  }

  lemma DanglingIsMissing(c: Codec, v: Vault, h: Hash, q: Hash)
    requires Dangling(c, v, h, q)
    ensures !Intact(c, v.blobs, Roots(v))
  {
    StepReachable(c, v.blobs, Roots(v), h, q);
  }

  lemma RootsPresent(c: Codec, v: Vault)
    requires Inv(c, v)
    ensures Roots(v) <= v.blobs.Keys
  {
    forall h | h in Roots(v) ensures h in v.blobs {
      assert Meaningful(c, v.blobs, h);
      var raw :| raw != [] && h == RootOf(c, raw) && LoadsTo(c, v.blobs, h, ReadBack(c, raw));
      var fuel: nat :| LoadsWithin(c, v.blobs, h, ReadBack(c, raw), fuel);
    }
  }

  /** In every reachable state a collection aborts if and only if some reachable leaf - a text,
      a data URL or raw bytes of a payload that was put - names a blob that is not there. */
  lemma AbortsExactly(c: Codec, run: seq<Vault>, steps: seq<Step>, i: nat)
    requires Lawful(c) && IsRun(c, run, steps) && i < |run|
    ensures !Intact(c, run[i].blobs, Roots(run[i])) <==>
            exists h, q :: Dangling(c, run[i], h, q) && run[i].blobs[h] in AllLeaves(c, Written(steps, i))
  {
    var v := run[i];
    if !Intact(c, v.blobs, Roots(v)) {
      Collector.RunInvariant(c, run, steps, i);
      RootsPresent(c, v);
      RunAccounted(c, run, steps, i);
      var h, q := MissingIsDangling(c, v);
      assert v.blobs[h] in AllLeaves(c, Written(steps, i));
    }
    if h, q :| Dangling(c, v, h, q) && v.blobs[h] in AllLeaves(c, Written(steps, i)) {
      DanglingIsMissing(c, v, h, q);
    }
  }

  /** Leaves that quote no reference never stop a collection. */
  lemma UnquotedNeverAborts(c: Codec, run: seq<Vault>, steps: seq<Step>, i: nat)
    requires Lawful(c) && IsRun(c, run, steps) && i < |run|
    requires forall d | d in AllLeaves(c, Written(steps, i)) :: NestedRefs(c, d) == {}
    ensures Intact(c, run[i].blobs, Roots(run[i]))
  {
    AbortsExactly(c, run, steps, i);
  }

  // ----- A run that aborts -----

  ghost predicate QuotingText(c: Codec, text: string, quoted: Hash) {
    && |text| >= INLINE_THRESHOLD && ParseDataUrl(c, text).None?
    && TerminalSse(c, c.marshal(Str(text))).None?
    && quoted in NestedRefs(c, text)
  }

  lemma TextPayload(c: Codec, text: string, quoted: Hash)
    requires Lawful(c) && QuotingText(c, text, quoted)
    ensures var raw := c.marshal(Str(text));
            && Wellformed(c, raw) && KeptOf(c, raw) == Document(Str(text))
            && CompactPayload(c, raw).manifest == c.marshal(CompactString(c, text))
            && CompactPayload(c, raw).blobs == {text}
  {
    assert Plain(Str(text));
  }

  ghost function TextVault(c: Codec, text: string): Vault {
    var raw := c.marshal(Str(text));
    var manifest := CompactPayload(c, raw).manifest;
    Vault(map[c.sha(text) := text, c.sha(manifest) := manifest], map["r" := {c.sha(manifest)}])
  }

  lemma OnePayload(c: Codec, raw: Bytes)
    ensures WrittenBlobs(c, {raw}) == PayloadBlobs(c, raw)
  {
    forall d | d in PayloadBlobs(c, raw) ensures d in WrittenBlobs(c, {raw}) { assert raw in {raw}; }
  }

  lemma TextWritten(c: Codec, text: string, quoted: Hash)
    requires Lawful(c) && QuotingText(c, text, quoted)
    ensures var step := Write({c.marshal(Str(text))}, TextVault(c, text).refs);
            Enabled(c, Vault(map[], map[]), step) && Next(c, Vault(map[], map[]), step, TextVault(c, text))
  {
    var raw := c.marshal(Str(text));
    TextPayload(c, text, quoted);
    var v := TextVault(c, text);
    assert raw != [] && PayloadBlobs(c, raw) == {text, CompactPayload(c, raw).manifest};
    OnePayload(c, raw);
    assert RootOf(c, raw) == c.sha(CompactPayload(c, raw).manifest);
  }

  lemma TextReached(c: Codec, text: string, quoted: Hash)
    requires Lawful(c) && QuotingText(c, text, quoted)
    ensures var v := TextVault(c, text);
            && c.sha(text) in v.blobs && v.blobs[c.sha(text)] == text
            && Reachable(c, v.blobs, Roots(v), c.sha(text))
  {
    TextPayload(c, text, quoted);
    var v := TextVault(c, text);
    var manifest := c.marshal(CompactString(c, text));
    var root := c.sha(manifest);
    assert root in v.refs["r"];
    RootReachable(c, v.blobs, Roots(v), root);
    RefFields(c.sha(text), "utf8", |text|, "text/plain; charset=utf-8");
    CompactPlain(c, Str(text), false);
    assert v.blobs[root] == manifest;
    StepReachable(c, v.blobs, Roots(v), root, c.sha(text));
  }

  lemma TextBlocks(c: Codec, text: string, quoted: Hash)
    requires Lawful(c) && QuotingText(c, text, quoted)
    requires quoted != c.sha(text) && quoted != RootOf(c, c.marshal(Str(text)))
    ensures !Intact(c, TextVault(c, text).blobs, Roots(TextVault(c, text)))
  {
    TextReached(c, text, quoted);
    DanglingIsMissing(c, TextVault(c, text), c.sha(text), quoted);
  }

  /** The run: the payload that holds the text is put, then a collection runs. */
  ghost predicate PutThenCollect(c: Codec, raw: Bytes, run: seq<Vault>, steps: seq<Step>) {
    |run| == 3 && |steps| == 2 && IsRun(c, run, steps) && steps[0] == Write({raw}, run[1].refs) && steps[1] == Collect
  }

  lemma TextRun(c: Codec, text: string, quoted: Hash) returns (run: seq<Vault>, steps: seq<Step>)
    requires Lawful(c) && QuotingText(c, text, quoted)
    requires quoted != c.sha(text) && quoted != RootOf(c, c.marshal(Str(text)))
    ensures PutThenCollect(c, c.marshal(Str(text)), run, steps)
    ensures run[1] == run[2] == TextVault(c, text)
  {
    var v := TextVault(c, text);
    TextWritten(c, text, quoted);
    TextBlocks(c, text, quoted);
    run, steps := [Vault(map[], map[]), v, v], [Write({c.marshal(Str(text))}, v.refs), Collect];
    assert StepAt(c, run, steps, 0) && StepAt(c, run, steps, 1);
  }

  /** A long text that parses as a reference to a blob nobody has: the payload is stored and
      loads, and from then on no collection deletes anything. */
  lemma QuotedTextAborts(c: Codec, text: string, quoted: Hash) returns (run: seq<Vault>, steps: seq<Step>)
    requires Lawful(c) && QuotingText(c, text, quoted)
    requires quoted != c.sha(text) && quoted != RootOf(c, c.marshal(Str(text)))
    ensures PutThenCollect(c, c.marshal(Str(text)), run, steps)
    ensures LoadsTo(c, run[1].blobs, RootOf(c, c.marshal(Str(text))), ReadBack(c, c.marshal(Str(text))))
    ensures !Intact(c, run[1].blobs, Roots(run[1])) && run[2] == run[1]
  {
    TextBlocks(c, text, quoted);
    run, steps := TextRun(c, text, quoted);
    ReferencedPayloadSurvives(c, run, steps, 0, 1, c.marshal(Str(text)));
  }
}
