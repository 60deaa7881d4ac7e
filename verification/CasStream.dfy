/** What the archive keeps of a payload, told from its bytes (internal/archive/cas.go): the
completed event of a stream, the first document, or the bytes themselves. */
module CasStream {
  import opened Types
  import opened Cas

  ghost predicate OccursAt(s: Bytes, sub: Bytes, i: nat) {
    i <= |s| && sub <= s[i..]
  }

  lemma OccursLater(s: Bytes, sub: Bytes, i: nat)
    requires s != []
    ensures OccursAt(s, sub, i + 1) <==> OccursAt(s[1..], sub, i)
  {
    assert i + 1 <= |s| ==> s[i + 1..] == s[1..][i..];
  }

  /** bytes.LastIndex: no later occurrence, and -1 only without any. */
  lemma {:induction false} LastIndexIs(s: Bytes, sub: Bytes)
    ensures var i := LastIndex(s, sub);
            && (i < 0 ==> forall j: nat :: !OccursAt(s, sub, j))
            && (i >= 0 ==> OccursAt(s, sub, i) && forall j: nat | j > i :: !OccursAt(s, sub, j))
    decreases |s|
  {
    if s != [] {
      LastIndexIs(s[1..], sub);
      assert s[0..] == s;
      forall j: nat | j > 0 ensures OccursAt(s, sub, j) <==> OccursAt(s[1..], sub, j - 1) {
        OccursLater(s, sub, j - 1);
      }
    }
  }

  /** bytes.Index: no earlier occurrence, and -1 only without any. */
  lemma {:induction false} FirstIndexIs(s: Bytes, sub: Bytes)
    ensures var i := FirstIndex(s, sub);
            && (i < 0 ==> forall j: nat :: !OccursAt(s, sub, j))
            && (i >= 0 ==> OccursAt(s, sub, i) && forall j: nat | j < i :: !OccursAt(s, sub, j))
    decreases |s|
  {
    assert s[0..] == s;
    if !(sub <= s) && s != [] {
      FirstIndexIs(s[1..], sub);
      forall j: nat | j > 0 ensures OccursAt(s, sub, j) <==> OccursAt(s[1..], sub, j - 1) {
        OccursLater(s, sub, j - 1);
      }
    }
  }

  /** The bytes are a stream whose last completed event is followed, within 128 bytes, by its
      first data field. */
  ghost predicate StreamOf(raw: Bytes, pre: Bytes, gap: Bytes, body: Bytes) {
    && raw == pre + "event: response.completed" + (gap + "data:" + body) && |gap| <= 128
    && (forall j: nat | j > |pre| :: !OccursAt(raw, "event: response.completed", j))
    && (forall j: nat | j < |gap| :: !OccursAt(gap + "data:" + body, "data:", j))
  }

  /** The data begins with a completed event. */
  ghost predicate Completes(c: Codec, body: Bytes, event: map<string, Json>) {
    c.decodeFirst(body) == Some(Obj(event)) && "type" in event && event["type"] == Str("response.completed")
  }

  lemma MarkerFound(raw: Bytes, pre: Bytes, gap: Bytes, body: Bytes)
    requires StreamOf(raw, pre, gap, body)
    ensures LastIndex(raw, "event: response.completed") == |pre|
    ensures raw[|pre|..][|"event: response.completed"|..] == gap + "data:" + body
  {
    var marker := "event: response.completed";
    LastIndexIs(raw, marker);
    assert raw[|pre|..] == marker + (gap + "data:" + body);
    assert OccursAt(raw, marker, |pre|);
  }

  lemma DataFound(gap: Bytes, body: Bytes)
    requires forall j: nat | j < |gap| :: !OccursAt(gap + "data:" + body, "data:", j)
    ensures FirstIndex(gap + "data:" + body, "data:") == |gap|
    ensures (gap + "data:" + body)[|gap|..][5..] == body
  {
    var tail := gap + "data:" + body;
    FirstIndexIs(tail, "data:");
    assert tail[|gap|..] == "data:" + body;
    assert OccursAt(tail, "data:", |gap|);
  }

  lemma StreamTerminal(c: Codec, raw: Bytes, pre: Bytes, gap: Bytes, body: Bytes, event: map<string, Json>)
    requires StreamOf(raw, pre, gap, body) && Completes(c, body, event)
    ensures TerminalSse(c, raw) == Some(Obj(event))
  {
    MarkerFound(raw, pre, gap, body);
    DataFound(gap, body);
  }

  /** The bytes behind a marker. */
  function Behind(raw: Bytes, pos: nat): Bytes
    requires pos + 25 <= |raw|
  {
    raw[pos + 25..]
  }

  lemma SplitAtMarker(raw: Bytes, pos: nat)
    requires OccursAt(raw, "event: response.completed", pos)
    ensures pos + 25 <= |raw| && raw[pos..][25..] == Behind(raw, pos)
    ensures raw == raw[..pos] + "event: response.completed" + Behind(raw, pos)
  {
    assert raw[pos..] == "event: response.completed" + raw[pos..][25..];
  }

  lemma SplitAtData(tail: Bytes, data: nat)
    requires OccursAt(tail, "data:", data)
    ensures data + 5 <= |tail| && tail[data..][5..] == tail[data + 5..]
    ensures tail == tail[..data] + "data:" + tail[data + 5..]
  {
    assert tail[data..] == "data:" + tail[data..][5..];
  }

  /** The two searches cut the bytes as a stream is cut. */
  lemma SearchesSplit(raw: Bytes, pos: nat, data: nat)
    requires LastIndex(raw, "event: response.completed") == pos && pos + 25 <= |raw|
    requires FirstIndex(Behind(raw, pos), "data:") == data <= 128
    ensures data + 5 <= |Behind(raw, pos)|
    ensures StreamOf(raw, raw[..pos], Behind(raw, pos)[..data], Behind(raw, pos)[data + 5..])
  {
    LastIndexIs(raw, "event: response.completed");
    FirstIndexIs(Behind(raw, pos), "data:");
    SplitAtMarker(raw, pos);
    SplitAtData(Behind(raw, pos), data);
  }

  lemma TerminalIsStream(c: Codec, raw: Bytes)
    returns (pre: Bytes, gap: Bytes, body: Bytes, event: map<string, Json>)
    requires TerminalSse(c, raw).Some?
    ensures StreamOf(raw, pre, gap, body) && Completes(c, body, event) && TerminalSse(c, raw) == Some(Obj(event))
  {
    var pos := LastIndex(raw, "event: response.completed");
    LastIndexIs(raw, "event: response.completed");
    SplitAtMarker(raw, pos);
    var tail := Behind(raw, pos);
    var data := FirstIndex(tail, "data:");
    FirstIndexIs(tail, "data:");
    SplitAtData(tail, data);
    SearchesSplit(raw, pos, data);
    pre, gap, body := raw[..pos], tail[..data], tail[data + 5..];
    event := TerminalSse(c, raw).value.fields;
  }

  ghost predicate IsCompletedStream(c: Codec, raw: Bytes) {
    exists pre, gap, body, event :: StreamOf(raw, pre, gap, body) && Completes(c, body, event)
  }

  /** What is kept, told from the bytes: the completed event of a completed stream, else the
      first document, else the bytes. */
  lemma KeptExactly(c: Codec, raw: Bytes)
    ensures forall pre, gap, body, event | StreamOf(raw, pre, gap, body) && Completes(c, body, event) ::
              KeptOf(c, raw) == Document(Obj(event))
    ensures !IsCompletedStream(c, raw) ==>
              KeptOf(c, raw) == match c.decodeFirst(raw) case Some(v) => Document(v) case None => Opaque(raw)
  {
    forall pre, gap, body, event | StreamOf(raw, pre, gap, body) && Completes(c, body, event)
      ensures KeptOf(c, raw) == Document(Obj(event))
    {
      StreamTerminal(c, raw, pre, gap, body, event);
    }
    if TerminalSse(c, raw).Some? {
      var pre, gap, body, event := TerminalIsStream(c, raw);
    }
  }

  /** A completed stream reads back as its completed event, whatever came before it. */
  lemma StreamReadsBack(c: Codec, store: Store, raw: Bytes, pre: Bytes, gap: Bytes, body: Bytes,
                        event: map<string, Json>, fuel: nat)
    requires Lawful(c) && StreamOf(raw, pre, gap, body) && Completes(c, body, event)
    requires NoClash(c, Obj(event)) && NestsWithin(Obj(event), fuel) && Holds(c, store, CompactPayload(c, raw).blobs)
    ensures ExpandPayload(c, store, CompactPayload(c, raw).manifest, fuel) == Some(c.marshal(Restored(c, Obj(event))))
  {
    KeptExactly(c, raw);
    PayloadRoundTrip(c, store, raw, fuel);
  }

  /** Any other non-empty payload reads back as its first document, restored, or byte for byte. */
  lemma OtherReadsBack(c: Codec, store: Store, raw: Bytes, fuel: nat)
    requires Lawful(c) && !IsCompletedStream(c, raw) && raw != []
    requires c.decodeFirst(raw).Some? ==>
               NoClash(c, c.decodeFirst(raw).value) && NestsWithin(c.decodeFirst(raw).value, fuel)
    requires Holds(c, store, CompactPayload(c, raw).blobs)
    ensures ExpandPayload(c, store, CompactPayload(c, raw).manifest, fuel) ==
            match c.decodeFirst(raw)
            case Some(v) => Some(c.marshal(Restored(c, v)))
            case None => Some(raw)
  {
    KeptExactly(c, raw);
    PayloadRoundTrip(c, store, raw, fuel);
  }
}
