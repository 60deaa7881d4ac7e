/** Removing a replay from a sequence, elements compared by a key. */
module Replay {

  /** How many of the first `n` elements have key `k`. */
  function Count<T(!new), K(==)>(key: T -> K, es: seq<T>, n: nat, k: K): nat
    requires n <= |es|
  {
    if n == 0 then 0 else Count(key, es, n - 1, k) + if key(es[n - 1]) == k then 1 else 0
  }

  function Total<T(!new), K(==)>(key: T -> K, es: seq<T>, k: K): nat {
    Count(key, es, |es|, k)
  }

  lemma {:induction false} CountMonotone<T(!new), K>(key: T -> K, es: seq<T>, m: nat, n: nat, k: K)
    requires m <= n <= |es|
    ensures Count(key, es, m, k) <= Count(key, es, n, k)
    decreases n
  {
    if m < n { CountMonotone(key, es, m, n - 1, k); }
  }

  /** Counts only depend on the keys. */
  lemma {:induction false} CountSame<T(!new), K>(key: T -> K, a: seq<T>, b: seq<T>, n: nat, k: K)
    requires n <= |a| && n <= |b| && forall i | 0 <= i < n :: key(a[i]) == key(b[i])
    ensures Count(key, a, n, k) == Count(key, b, n, k)
    decreases n
  {
    if n > 0 { CountSame(key, a, b, n - 1, k); }
  }

  /** The j-th occurrence of a key survives when the replay holds fewer than j of it. */
  predicate Survives<T(!new), K(==)>(key: T -> K, entries: seq<T>, replay: seq<T>, i: nat)
    requires i < |entries|
  {
    Count(key, entries, i, key(entries[i])) >= Total(key, replay, key(entries[i]))
  }

  function Survivors<T(!new), K(==)>(key: T -> K, entries: seq<T>, replay: seq<T>, n: nat): (r: seq<T>)
    requires n <= |entries|
    ensures |r| <= n
  {
    if n == 0 then []
    else if Survives(key, entries, replay, n - 1) then Survivors(key, entries, replay, n - 1) + [entries[n - 1]]
    else Survivors(key, entries, replay, n - 1)
  }

  function Fresh<T(!new), K(==)>(key: T -> K, entries: seq<T>, replay: seq<T>): seq<T> {
    Survivors(key, entries, replay, |entries|)
  }

  /** What is left of `want` after `had` were taken. */
  function Left(had: nat, want: nat): nat {
    if had >= want then 0 else want - had
  }

  function Lookup<K(==)>(counts: map<K, nat>, k: K): nat {
    if k in counts then counts[k] else 0
  }

  method CountReplay<T(!new), K(==, !new)>(key: T -> K, replay: seq<T>) returns (counts: map<K, nat>)
    ensures forall k :: Lookup(counts, k) == Total(key, replay, k)
  {
    counts := map[];
    for i := 0 to |replay|
      invariant forall k :: Lookup(counts, k) == Count(key, replay, i, k)
    {
      var k := key(replay[i]);
      counts := counts[k := Lookup(counts, k) + 1];
    }
  }

  method Subtract<T(!new), K(==, !new)>(key: T -> K, entries: seq<T>, replay: seq<T>) returns (out: seq<T>)
    ensures out == Fresh(key, entries, replay)
  {
    var counts := CountReplay(key, replay);
    out := [];
    for i := 0 to |entries|
      invariant out == Survivors(key, entries, replay, i)
      invariant forall k :: Lookup(counts, k) == Left(Count(key, entries, i, k), Total(key, replay, k))
    {
      var k := key(entries[i]);
      if Lookup(counts, k) > 0 {
        counts := counts[k := counts[k] - 1];
      } else {
        out := out + [entries[i]];
      }
    }
  }

  lemma CountAppend<T(!new), K>(key: T -> K, es: seq<T>, e: T, k: K)
    ensures Total(key, es + [e], k) == Total(key, es, k) + if key(e) == k then 1 else 0
  {
    CountSame(key, es + [e], es, |es|, k);
  }

  /** The surviving keys are the multiset difference. */
  lemma {:induction false} SurvivorsCounted<T(!new), K>(key: T -> K, entries: seq<T>, replay: seq<T>, n: nat, k: K)
    requires n <= |entries|
    ensures Total(key, Survivors(key, entries, replay, n), k) == Left(Total(key, replay, k), Count(key, entries, n, k))
    decreases n
  {
    if n > 0 {
      SurvivorsCounted(key, entries, replay, n - 1, k);
      if Survives(key, entries, replay, n - 1) {
        CountAppend(key, Survivors(key, entries, replay, n - 1), entries[n - 1], k);
      }
    }
  }

  /** `sub` keeps its order inside `all`: `at` gives the positions. */
  ghost predicate Positions<T(!new)>(sub: seq<T>, all: seq<T>, at: seq<nat>) {
    && |at| == |sub|
    && (forall k | 0 <= k < |at| :: at[k] < |all| && all[at[k]] == sub[k])
    && (forall k, m | 0 <= k < m < |at| :: at[k] < at[m])
  }

  /** What survives is a subsequence. */
  lemma {:induction false} SurvivorPositions<T(!new), K>(key: T -> K, entries: seq<T>, replay: seq<T>, n: nat)
    returns (at: seq<nat>)
    requires n <= |entries|
    ensures Positions(Survivors(key, entries, replay, n), entries, at)
    ensures forall k | 0 <= k < |at| :: at[k] < n
    decreases n
  {
    at := [];
    if n > 0 {
      at := SurvivorPositions(key, entries, replay, n - 1);
      if Survives(key, entries, replay, n - 1) {
        at := at + [n - 1];
      }
    }
  }

  lemma SurvivesBehindReplay<T(!new), K>(key: T -> K, all: seq<T>, replay: seq<T>, i: nat)
    requires i < |all| && |replay| <= |all| && forall j | 0 <= j < |replay| :: key(all[j]) == key(replay[j])
    ensures Survives(key, all, replay, i) <==> i >= |replay|
  {
    var k := key(all[i]);
    CountSame(key, all, replay, |replay|, k);
    if i < |replay| {
      CountMonotone(key, all, i + 1, |replay|, k);
    } else {
      CountMonotone(key, all, |replay|, i, k);
    }
  }

  /** When the entries begin with the replay, exactly the rest survives. */
  lemma {:induction false} ReplayRemoved<T(!new), K>(key: T -> K, all: seq<T>, replay: seq<T>, n: nat)
    requires n <= |all| && |replay| <= |all| && forall j | 0 <= j < |replay| :: key(all[j]) == key(replay[j])
    ensures Survivors(key, all, replay, n) == if n <= |replay| then [] else all[|replay|..n]
    decreases n
  {
    if n > 0 {
      ReplayRemoved(key, all, replay, n - 1);
      SurvivesBehindReplay(key, all, replay, n - 1);
      if n > |replay| {
        assert all[|replay|..n] == all[|replay|..n - 1] + [all[n - 1]];
      }
    }
  }

  // ----- As multisets -----

  function Keys<T(!new), K(==)>(key: T -> K, es: seq<T>, n: nat): (r: seq<K>)
    requires n <= |es|
    ensures |r| == n
  {
    if n == 0 then [] else Keys(key, es, n - 1) + [key(es[n - 1])]
  }

  function KeyBag<T(!new), K(==)>(key: T -> K, es: seq<T>): multiset<K> {
    multiset(Keys(key, es, |es|))
  }

  lemma {:induction false} BagCounts<T(!new), K>(key: T -> K, es: seq<T>, n: nat, k: K)
    requires n <= |es|
    ensures multiset(Keys(key, es, n))[k] == Count(key, es, n, k)
    decreases n
  {
    if n > 0 { BagCounts(key, es, n - 1, k); }
  }

  lemma BagSize<T(!new), K>(key: T -> K, es: seq<T>)
    ensures |KeyBag(key, es)| == |es|
  {
  }

  lemma FreshBag<T(!new), K(!new)>(key: T -> K, entries: seq<T>, replay: seq<T>)
    ensures KeyBag(key, Fresh(key, entries, replay)) == KeyBag(key, entries) - KeyBag(key, replay)
  {
    var left := Fresh(key, entries, replay);
    forall k ensures KeyBag(key, left)[k] == (KeyBag(key, entries) - KeyBag(key, replay))[k] {
      SurvivorsCounted(key, entries, replay, |entries|, k);
      BagCounts(key, left, |left|, k);
      BagCounts(key, entries, |entries|, k);
      BagCounts(key, replay, |replay|, k);
    }
  }

  /** As many elements are removed as the two bags have in common. */
  lemma RemovedCount<T(!new), K(!new)>(key: T -> K, entries: seq<T>, replay: seq<T>)
    ensures |entries| - |Fresh(key, entries, replay)| == |KeyBag(key, entries) * KeyBag(key, replay)|
  {
    FreshBag(key, entries, replay);
    BagSize(key, entries);
    BagSize(key, Fresh(key, entries, replay));
    BagParts(KeyBag(key, entries), KeyBag(key, replay));
  }

  lemma BagParts<K(!new)>(a: multiset<K>, b: multiset<K>)
    ensures |a| == |a - b| + |a * b|
  {
  }
}

/** What a request adds to its conversation (internal/archive/timeline.go): the input minus the
history it repeats and minus the replay of the previous response. */
module Timeline {
  import opened Types
  import Replay

  const SHOWN_LIMIT := 24
  const TEXT_LIMIT := 40000

  datatype Entry = Entry(role: string, tag: string, callId: string, text: string, truncated: bool)

  /** entrySignature up to its hash; the hash is taken to be collision-free. A line break inside
      a field can make two different entries share a signature, as in the hashed text. */
  function Signature(e: Entry): string {
    e.role + "\n" + e.tag + "\n" + e.callId + "\n" + e.text
  }

  // ----- When two entries share a signature -----

  ghost predicate OneLine(s: string) {
    '\n' !in s
  }

  lemma FirstChar(a: string, b: string)
    ensures (a + "\n" + b)[0] == if a == [] then '\n' else a[0]
    ensures a != [] ==> a[0] in a
  {
  }

  lemma {:induction false} SplitOnce(a: string, b: string, x: string, y: string)
    requires OneLine(a) && OneLine(x) && a + "\n" + b == x + "\n" + y
    ensures a == x && b == y
    decreases |a|
  {
    var left, right := a + "\n" + b, x + "\n" + y;
    FirstChar(a, b);
    FirstChar(x, y);
    if a == [] {
      assert left[1..] == b && right[1..] == y;
    } else {
      assert left[1..] == a[1..] + "\n" + b && right[1..] == x[1..] + "\n" + y;
      SplitOnce(a[1..], b, x[1..], y);
    }
  }

  lemma SignatureParts(e: Entry)
    ensures Signature(e) == e.role + "\n" + (e.tag + "\n" + (e.callId + "\n" + e.text))
  {
  }

  /** Entries whose role, label and call id are single lines share a signature if and only if they
      agree in role, label, call id and text. */
  lemma SignatureExactly(a: Entry, b: Entry)
    requires OneLine(a.role) && OneLine(a.tag) && OneLine(a.callId)
    requires OneLine(b.role) && OneLine(b.tag) && OneLine(b.callId)
    ensures Signature(a) == Signature(b) <==>
            a.role == b.role && a.tag == b.tag && a.callId == b.callId && a.text == b.text
  {
    SignatureParts(a);
    SignatureParts(b);
    if Signature(a) == Signature(b) {
      SplitOnce(a.role, a.tag + "\n" + (a.callId + "\n" + a.text), b.role, b.tag + "\n" + (b.callId + "\n" + b.text));
      SplitOnce(a.tag, a.callId + "\n" + a.text, b.tag, b.callId + "\n" + b.text);
      SplitOnce(a.callId, a.text, b.callId, b.text);
    }
  }

  /** A line break inside a label moves the parts: such entries share a signature and differ. */
  lemma BrokenLabelClashes(role: string, first: string, second: string, callId: string, text: string)
    ensures var a := Entry(role, first + "\n" + second, callId, text, false);
            var b := Entry(role, first, second, callId + "\n" + text, false);
            Signature(a) == Signature(b) && a != b
  {
    var a := Entry(role, first + "\n" + second, callId, text, false);
    var b := Entry(role, first, second, callId + "\n" + text, false);
    assert |a.tag| > |b.tag|;
  }

  // ----- The common prefix -----

  /** `n` is the length of the longest common prefix, entries compared by signature. */
  ghost predicate IsCommonPrefix(left: seq<Entry>, right: seq<Entry>, n: nat) {
    && n <= |left| && n <= |right|
    && (forall i | 0 <= i < n :: Signature(left[i]) == Signature(right[i]))
    && (n < |left| && n < |right| ==> Signature(left[n]) != Signature(right[n]))
  }

  lemma CommonPrefixUnique(left: seq<Entry>, right: seq<Entry>, m: nat, n: nat)
    requires IsCommonPrefix(left, right, m) && IsCommonPrefix(left, right, n)
    ensures m == n
  {
  }

  method CommonEntryPrefix(left: seq<Entry>, right: seq<Entry>) returns (n: nat)
    ensures IsCommonPrefix(left, right, n)
  {
    var limit := if |right| < |left| then |right| else |left|;
    n := 0;
    while n < limit && Signature(left[n]) == Signature(right[n])
      invariant n <= limit
      invariant forall i | 0 <= i < n :: Signature(left[i]) == Signature(right[i])
    {
      n := n + 1;
    }
  }

  // ----- Removing the replay -----

  /** The entries left once the replay is taken out, occurrence by occurrence. */
  function Fresh(entries: seq<Entry>, replay: seq<Entry>): seq<Entry> {
    Replay.Fresh(Signature, entries, replay)
  }

  function Bag(entries: seq<Entry>): multiset<string> {
    Replay.KeyBag(Signature, entries)
  }

  /** subtractEntries. */
  method SubtractEntries(entries: seq<Entry>, replay: seq<Entry>) returns (out: seq<Entry>)
    ensures out == Fresh(entries, replay)
  {
    out := Replay.Subtract(Signature, entries, replay);
  }

  /** What is left is a subsequence whose signatures are the difference of the two bags. */
  lemma FreshIsDifference(entries: seq<Entry>, replay: seq<Entry>)
    ensures Bag(Fresh(entries, replay)) == Bag(entries) - Bag(replay)
    ensures exists at :: Replay.Positions(Fresh(entries, replay), entries, at)
  {
    Replay.FreshBag(Signature, entries, replay);
    var at := Replay.SurvivorPositions(Signature, entries, replay, |entries|);
    assert Replay.Positions(Fresh(entries, replay), entries, at);
  }

  // ----- The view of one request -----

  /** The previous request of the session: its input and its response. */
  datatype Previous = Previous(input: seq<Entry>, response: seq<Entry>)

  datatype View = View(kind: string, inputItems: nat, historyItems: nat, entries: seq<Entry>)

  predicate HasRole(es: seq<Entry>, role: string) {
    exists i | 0 <= i < |es| :: es[i].role == role
  }

  method ContainsRole(es: seq<Entry>, role: string) returns (found: bool)
    ensures found <==> HasRole(es, role)
  {
    for i := 0 to |es|
      invariant !HasRole(es[..i], role)
    {
      if es[i].role == role {
        return true;
      }
    }
    found := false;
  }

  /** A declared kind before the conversation is looked at. */
  function DeclaredKind(declared: string): string {
    if declared == "compact" then "compaction" else if declared == "" then "turn" else declared
  }

  function Kind(declared: string, first: bool, items: nat, common: nat, delta: seq<Entry>): string {
    var kind := DeclaredKind(declared);
    if kind == "compaction" || HasRole(delta, "compaction") then "compaction"
    else if !first && items > 0 && common == items then "retry"
    else if first && items > SHOWN_LIMIT then "history_snapshot"
    else if !first && common == 0 && items > SHOWN_LIMIT then "context_rebuild"
    else if !HasRole(delta, "user") && HasRole(delta, "tool_result") then "tool_continuation"
    else kind
  }

  /** How many entries of the delta are moved into the history count. */
  function Trimmed(kind: string, delta: nat): nat {
    if (kind == "history_snapshot" || kind == "context_rebuild") && delta > SHOWN_LIMIT then delta - SHOWN_LIMIT else 0
  }

  function CutText(e: Entry): Entry {
    if |e.text| > TEXT_LIMIT then e.(text := e.text[..TEXT_LIMIT], truncated := true) else e
  }

  function CutTexts(es: seq<Entry>): (r: seq<Entry>)
    ensures |r| == |es| && forall i | 0 <= i < |es| :: r[i] == CutText(es[i])
  {
    if es == [] then [] else CutTexts(es[..|es| - 1]) + [CutText(es[|es| - 1])]
  }

  function PreviousInput(previous: Option<Previous>): seq<Entry> {
    if previous.Some? then previous.value.input else []
  }

  function PreviousResponse(previous: Option<Previous>): seq<Entry> {
    if previous.Some? then previous.value.response else []
  }

  /** RequestTimeline's view, for the given length of common history. */
  function ViewOf(input: seq<Entry>, previous: Option<Previous>, response: seq<Entry>, declared: string,
                  common: nat): View
    requires common <= |input|
  {
    var delta := Fresh(input[common..], PreviousResponse(previous));
    var kind := Kind(declared, previous.None?, |input|, common, delta);
    var trim := Trimmed(kind, |delta|);
    View(kind, |input|, common + trim, CutTexts(delta[trim..] + response))
  }

  method DecideKind(declared: string, first: bool, items: nat, common: nat, delta: seq<Entry>) returns (kind: string)
    ensures kind == Kind(declared, first, items, common, delta)
  {
    kind := declared;
    if kind == "compact" {
      kind := "compaction";
    }
    if kind == "" {
      kind := "turn";
    }
    var compacted := ContainsRole(delta, "compaction");
    var fromUser := ContainsRole(delta, "user");
    var fromTool := ContainsRole(delta, "tool_result");
    if kind == "compaction" || compacted {
      kind := "compaction";
    } else if !first && items > 0 && common == items {
      kind := "retry";
    } else if first && items > SHOWN_LIMIT {
      kind := "history_snapshot";
    } else if !first && common == 0 && items > SHOWN_LIMIT {
      kind := "context_rebuild";
    } else if !fromUser && fromTool {
      kind := "tool_continuation";
    }
  }

  method TrimDelta(kind: string, delta: seq<Entry>) returns (trim: nat, tail: seq<Entry>)
    ensures trim == Trimmed(kind, |delta|) && trim <= |delta| && tail == delta[trim..]
  {
    trim, tail := 0, delta;
    if (kind == "history_snapshot" || kind == "context_rebuild") && |delta| > SHOWN_LIMIT {
      trim := |delta| - SHOWN_LIMIT;
      tail := delta[|delta| - SHOWN_LIMIT..];
    }
  }

  /** RequestTimeline. `common` is the length of the history it shares with its predecessor. */
  method RequestTimeline(input: seq<Entry>, previous: Option<Previous>, response: seq<Entry>, declared: string)
    returns (view: View, common: nat)
    ensures IsCommonPrefix(PreviousInput(previous), input, common)
    ensures view == ViewOf(input, previous, response, declared, common)
  {
    common := CommonEntryPrefix(PreviousInput(previous), input);
    var delta := SubtractEntries(input[common..], PreviousResponse(previous));
    var kind := DecideKind(declared, previous.None?, |input|, common, delta);
    var trim, tail := TrimDelta(kind, delta);
    view := View(kind, |input|, common + trim, CutTexts(tail + response));
  }

  function Shown(view: View, response: seq<Entry>): int {
    |view.entries| - |response|
  }

  /** Every input item is counted once: as history, as a removed replay, or as a shown entry;
      the removed ones are the signatures shared by the suffix and the previous response. */
  lemma InputConserved(input: seq<Entry>, previous: Option<Previous>, response: seq<Entry>, declared: string,
                       common: nat)
    requires common <= |input|
    ensures var view := ViewOf(input, previous, response, declared, common);
            && view.inputItems == |input|
            && view.inputItems == view.historyItems + |Bag(input[common..]) * Bag(PreviousResponse(previous))|
                + Shown(view, response)
  {
    Replay.RemovedCount(Signature, input[common..], PreviousResponse(previous));
  }

  /** Snapshots and rebuilds show at most the last entries; a retry shows no input at all. */
  lemma ShownBound(input: seq<Entry>, previous: Option<Previous>, response: seq<Entry>, declared: string, common: nat)
    requires common <= |input|
    ensures var view := ViewOf(input, previous, response, declared, common);
            && Shown(view, response) >= 0
            && (view.kind == "history_snapshot" || view.kind == "context_rebuild" ==>
                  Shown(view, response) <= 24)
            && (view.kind == "retry" && declared != "retry" ==>
                  Shown(view, response) == 0 && view.historyItems == |input|)
  {
  }

  /** The shown input entries are the last ones of the suffix that survive, in order. */
  lemma ShownIsSubsequence(input: seq<Entry>, previous: Option<Previous>, response: seq<Entry>, declared: string,
                           common: nat)
    returns (tail: seq<Entry>, at: seq<nat>)
    requires common <= |input|
    ensures Replay.Positions(tail, input[common..], at)
    ensures var delta := Fresh(input[common..], PreviousResponse(previous));
            |tail| <= |delta| && tail == delta[|delta| - |tail|..]
    ensures ViewOf(input, previous, response, declared, common).entries == CutTexts(tail + response)
  {
    var suffix := input[common..];
    var delta := Fresh(suffix, PreviousResponse(previous));
    var kind := Kind(declared, previous.None?, |input|, common, delta);
    var trim := Trimmed(kind, |delta|);
    at := Replay.SurvivorPositions(Signature, suffix, PreviousResponse(previous), |suffix|);
    tail, at := delta[trim..], at[trim..];
  }

  ghost predicate SameSignatures(a: seq<Entry>, b: seq<Entry>) {
    |a| == |b| && forall i | 0 <= i < |a| :: Signature(a[i]) == Signature(b[i])
  }

  /** Previous input, then previous response, then new entries, compared by signature: exactly
      the new entries are fresh. */
  lemma ContinuationDelta(input: seq<Entry>, previous: Previous, p: nat, r: nat, common: nat)
    requires p + r <= |input|
    requires SameSignatures(input[..p], previous.input) && SameSignatures(input[p..p + r], previous.response)
    requires IsCommonPrefix(previous.input, input, common)
    ensures common == p
    ensures Fresh(input[common..], previous.response) == input[p + r..]
  {
    assert forall i | 0 <= i < p :: input[..p][i] == input[i];
    CommonPrefixUnique(previous.input, input, common, p);
    var suffix := input[p..];
    forall j | 0 <= j < r ensures Signature(suffix[j]) == Signature(previous.response[j]) {
      assert input[p..p + r][j] == suffix[j];
    }
    Replay.ReplayRemoved(Signature, suffix, previous.response, |suffix|);
    assert suffix[r..|suffix|] == input[p + r..];
  }

  /** So the view shows the new entries and the response, and counts the previous input as
      history. A client that declares a snapshot or rebuild kind still gets the trim. */
  lemma ContinuationShowsNew(input: seq<Entry>, previous: Previous, response: seq<Entry>, declared: string, p: nat,
                             r: nat)
    requires 0 < p && p + r <= |input|
    requires SameSignatures(input[..p], previous.input) && SameSignatures(input[p..p + r], previous.response)
    requires IsCommonPrefix(previous.input, input, p)
    requires declared != "history_snapshot" && declared != "context_rebuild"
    ensures var view := ViewOf(input, Some(previous), response, declared, p);
            && view.entries == CutTexts(input[p + r..] + response)
            && view.historyItems == p
  {
    ContinuationDelta(input, previous, p, r, p);
    var delta := input[p + r..];
    assert delta[0..] == delta;
  }

  // ----- What a kind tells about the conversation -----


  lemma {:induction false} NothingReplayed(entries: seq<Entry>, n: nat)
    requires n <= |entries|
    ensures Replay.Survivors(Signature, entries, [], n) == entries[..n]
    decreases n
  {
    if n > 0 {
      NothingReplayed(entries, n - 1);
      assert entries[..n] == entries[..n - 1] + [entries[n - 1]];
    }
  }

  ghost predicate DeclaresCompaction(declared: string) {
    declared == "compact" || declared == "compaction"
  }

  lemma FreshOfNothing(replay: seq<Entry>)
    ensures Fresh([], replay) == []
  {
  }

  /** Unless the client says otherwise, a request is shown as a retry if and only if its whole,
      non-empty input repeats the beginning of the previous request's input. */
  lemma RetryExactly(input: seq<Entry>, previous: Option<Previous>, response: seq<Entry>, declared: string, common: nat)
    requires IsCommonPrefix(PreviousInput(previous), input, common)
    requires declared != "retry" && !DeclaresCompaction(declared)
    ensures ViewOf(input, previous, response, declared, common).kind == "retry" <==>
            && previous.Some? && 0 < |input| <= |previous.value.input|
            && SameSignatures(previous.value.input[..|input|], input)
  {
    FreshOfNothing(PreviousResponse(previous));
    assert common == |input| ==> input[common..] == [];
    assert |input| <= |PreviousInput(previous)| && SameSignatures(PreviousInput(previous)[..|input|], input) ==>
        IsCommonPrefix(PreviousInput(previous), input, |input|);
    if IsCommonPrefix(PreviousInput(previous), input, |input|) {
      CommonPrefixUnique(PreviousInput(previous), input, common, |input|);
    }
  }

  /** It is shown as a rebuilt context if and only if its long input begins differently from the
      previous request's and what is new in it holds no compaction. */
  lemma RebuildExactly(input: seq<Entry>, previous: Option<Previous>, response: seq<Entry>, declared: string,
                       common: nat)
    requires IsCommonPrefix(PreviousInput(previous), input, common)
    requires declared != "context_rebuild" && !DeclaresCompaction(declared)
    ensures ViewOf(input, previous, response, declared, common).kind == "context_rebuild" <==>
            && previous.Some? && |input| > 24 && !HasRole(Fresh(input, previous.value.response), "compaction")
            && (previous.value.input == [] || Signature(previous.value.input[0]) != Signature(input[0]))
  {
    assert input[0..] == input;
    assert common > 0 ==> Signature(PreviousInput(previous)[0]) == Signature(input[0]);
  }

  /** It is shown as a history snapshot if and only if it is the first of its session, long, and
      free of compactions. */
  lemma SnapshotExactly(input: seq<Entry>, previous: Option<Previous>, response: seq<Entry>, declared: string,
                        common: nat)
    requires IsCommonPrefix(PreviousInput(previous), input, common)
    requires declared != "history_snapshot" && !DeclaresCompaction(declared)
    ensures ViewOf(input, previous, response, declared, common).kind == "history_snapshot" <==>
            previous.None? && |input| > 24 && !HasRole(input, "compaction")
  {
    assert input[0..] == input && input[..|input|] == input;
    NothingReplayed(input, |input|);
  }

  /** A request is shown as a compaction if and only if it is declared one or an entry that is new
      in it has that role. */
  lemma CompactionExactly(input: seq<Entry>, previous: Option<Previous>, response: seq<Entry>, declared: string,
                          common: nat)
    requires common <= |input|
    ensures ViewOf(input, previous, response, declared, common).kind == "compaction" <==>
            || declared == "compact" || declared == "compaction"
            || exists i | 0 <= i < |Fresh(input[common..], PreviousResponse(previous))| ::
                 Fresh(input[common..], PreviousResponse(previous))[i].role == "compaction"
  {
  }

  /** Unless declared, it continues a tool call if and only if something new in it is a tool result,
      nothing new comes from the user or is a compaction, and it is neither a long first request nor
      a rebuilt context. */
  lemma ContinuationExactly(input: seq<Entry>, previous: Option<Previous>, response: seq<Entry>, declared: string,
                            common: nat)
    requires IsCommonPrefix(PreviousInput(previous), input, common)
    requires declared != "tool_continuation" && !DeclaresCompaction(declared)
    ensures ViewOf(input, previous, response, declared, common).kind == "tool_continuation" <==>
            && HasRole(Fresh(input[common..], PreviousResponse(previous)), "tool_result")
            && !HasRole(Fresh(input[common..], PreviousResponse(previous)), "user")
            && !HasRole(Fresh(input[common..], PreviousResponse(previous)), "compaction")
            && (|input| > 24 ==> previous.Some? && common > 0)
  {
    FreshOfNothing(PreviousResponse(previous));
    assert common == |input| ==> input[common..] == [];
    ContinuationKind(declared, previous.None?, |input|, common, Fresh(input[common..], PreviousResponse(previous)));
  }

  lemma ContinuationKind(declared: string, first: bool, items: nat, common: nat, delta: seq<Entry>)
    requires declared != "tool_continuation" && !DeclaresCompaction(declared) && (first ==> common == 0)
    requires common == items ==> delta == []
    ensures Kind(declared, first, items, common, delta) == "tool_continuation" <==>
            && HasRole(delta, "tool_result") && !HasRole(delta, "user") && !HasRole(delta, "compaction")
            && (items > 24 ==> !first && common > 0)
  {
  }

  /** Otherwise the kind is the declared one, or a turn. */
  lemma OtherKinds(input: seq<Entry>, previous: Option<Previous>, response: seq<Entry>, declared: string, common: nat)
    requires common <= |input|
    ensures var kind := ViewOf(input, previous, response, declared, common).kind;
            kind in {"compaction", "retry", "history_snapshot", "context_rebuild", "tool_continuation"}
            || kind == (if declared == "" then "turn" else declared)
  {
  }

  /** A shown entry keeps role, label and call id; a text over 40000 is cut there and marked. */
  lemma ShownTexts(es: seq<Entry>, i: nat)
    requires i < |es|
    ensures var e, shown := es[i], CutTexts(es)[i];
            && shown.role == e.role && shown.tag == e.tag && shown.callId == e.callId
            && |shown.text| <= 40000 && shown.text <= e.text
            && (|e.text| <= 40000 ==> shown == e) && (|e.text| > 40000 ==> |shown.text| == 40000 && shown.truncated)
  {
  }
}
