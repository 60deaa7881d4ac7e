/** Rename maps as chains: when following one ends, and where. */
module Chains {

  type Mapping = map<string, string>

  /** mapping[v] ?? v. */
  function Step(m: Mapping, v: string): string {
    if v in m then m[v] else v
  }

  /** Following the map from `v` leaves it within `n` steps. */
  predicate EndsIn(m: Mapping, v: string, n: nat)
    decreases n
  {
    v !in m || (n > 0 && EndsIn(m, m[v], n - 1))
  }

  ghost predicate Terminates(m: Mapping, v: string) {
    exists n: nat :: EndsIn(m, v, n)
  }

  /** `b` is `k` steps behind `a`. */
  predicate Reaches(m: Mapping, a: string, k: nat, b: string)
    decreases k
  {
    if k == 0 then a == b else a in m && Reaches(m, m[a], k - 1, b)
  }

  ghost predicate Acyclic(m: Mapping) {
    forall v, k: nat | k > 0 :: !Reaches(m, v, k, v)
  }

  // ----- Acyclic is the same as terminating everywhere -----

  lemma {:induction false} EndsLater(m: Mapping, v: string, k: nat, w: string, n: nat)
    requires EndsIn(m, v, n) && Reaches(m, v, k, w)
    ensures w in m ==> k < n
    ensures k <= n ==> EndsIn(m, w, n - k)
    decreases k
  {
    if k > 0 { EndsLater(m, m[v], k - 1, w, n - 1); }
  }

  lemma {:induction false} CycleNeverEnds(m: Mapping, v: string, k: nat, n: nat)
    requires k > 0 && Reaches(m, v, k, v)
    ensures !EndsIn(m, v, n)
    decreases n
  {
    if EndsIn(m, v, n) {
      EndsLater(m, v, k, v, n);
      CycleNeverEnds(m, v, k, n - k);
    }
  }

  lemma {:induction false} ReachesWithout(m: Mapping, u: string, a: string, k: nat, b: string)
    requires Reaches(m - {u}, a, k, b)
    ensures Reaches(m, a, k, b)
    decreases k
  {
    if k > 0 { ReachesWithout(m, u, m[a], k - 1, b); }
  }

  lemma {:induction false} EndsWith(m: Mapping, u: string, w: string, n: nat)
    requires EndsIn(m - {u}, w, n) && forall k: nat :: !Reaches(m, w, k, u)
    ensures EndsIn(m, w, n)
    decreases n
  {
    assert !Reaches(m, w, 0, u);
    if w in m {
      forall k: nat ensures !Reaches(m, m[w], k, u) {
        assert !Reaches(m, w, k + 1, u);
      }
      EndsWith(m, u, m[w], n - 1);
    }
  }

  /** Pigeonhole: without a cycle a chain visits each source at most once. */
  lemma {:induction false} AcyclicEnds(m: Mapping, v: string)
    requires Acyclic(m)
    ensures EndsIn(m, v, |m|)
    decreases |m|
  {
    if v in m {
      var rest := m - {v};
      assert |rest| == |m| - 1 by { assert m.Keys == rest.Keys + {v}; assert |m.Keys| == |m| && |rest.Keys| == |rest|; }
      forall w, k: nat | k > 0 ensures !Reaches(rest, w, k, w) {
        if Reaches(rest, w, k, w) { ReachesWithout(m, v, w, k, w); }
      }
      AcyclicEnds(rest, m[v]);
      forall k: nat ensures !Reaches(m, m[v], k, v) {
        assert !Reaches(m, v, k + 1, v);
      }
      EndsWith(m, v, m[v], |m| - 1);
    }
  }

  lemma AcyclicExactly(m: Mapping)
    ensures Acyclic(m) <==> forall v :: Terminates(m, v)
  {
    if Acyclic(m) {
      forall v ensures Terminates(m, v) { AcyclicEnds(m, v); }
    }
    if forall v :: Terminates(m, v) {
      forall v, k: nat | k > 0 ensures !Reaches(m, v, k, v) {
        assert Terminates(m, v);
        var n: nat :| EndsIn(m, v, n);
        if Reaches(m, v, k, v) { CycleNeverEnds(m, v, k, n); }
      }
    }
  }

  // ----- Height and end of a chain -----

  function HeightIn(m: Mapping, v: string, n: nat): nat
    requires EndsIn(m, v, n)
    decreases n
  {
    if v !in m then 0 else 1 + HeightIn(m, m[v], n - 1)
  }

  function EndOf(m: Mapping, v: string, n: nat): (end: string)
    requires EndsIn(m, v, n)
    ensures end !in m
    decreases n
  {
    if v !in m then v else EndOf(m, m[v], n - 1)
  }

  lemma {:induction false} FuelFree(m: Mapping, v: string, i: nat, j: nat)
    requires EndsIn(m, v, i) && EndsIn(m, v, j)
    ensures HeightIn(m, v, i) == HeightIn(m, v, j) && EndOf(m, v, i) == EndOf(m, v, j)
    decreases i
  {
    if v in m { FuelFree(m, m[v], i - 1, j - 1); }
  }

  ghost function Height(m: Mapping, v: string): nat
    requires Terminates(m, v)
  {
    var n: nat :| EndsIn(m, v, n);
    HeightIn(m, v, n)
  }

  ghost function End(m: Mapping, v: string): (end: string)
    requires Terminates(m, v)
    ensures end !in m
  {
    var n: nat :| EndsIn(m, v, n);
    EndOf(m, v, n)
  }

  lemma AtFuel(m: Mapping, v: string, n: nat)
    requires EndsIn(m, v, n)
    ensures Terminates(m, v) && Height(m, v) == HeightIn(m, v, n) && End(m, v) == EndOf(m, v, n)
  {
    var k: nat :| EndsIn(m, v, k) && Height(m, v) == HeightIn(m, v, k);
    FuelFree(m, v, k, n);
    var l: nat :| EndsIn(m, v, l) && End(m, v) == EndOf(m, v, l);
    FuelFree(m, v, l, n);
  }

  /** One step along the chain: one less to go, to the same end. */
  lemma StepDown(m: Mapping, v: string)
    requires Terminates(m, v)
    ensures Terminates(m, Step(m, v))
    ensures v in m ==> Height(m, v) == Height(m, Step(m, v)) + 1
    ensures End(m, v) == End(m, Step(m, v))
    ensures v !in m ==> End(m, v) == v && Height(m, v) == 0
  {
    var n: nat :| EndsIn(m, v, n);
    AtFuel(m, v, n);
    if v in m {
      AtFuel(m, m[v], n - 1);
    }
  }

  /** The end of a chain is reached by following it and is no source. */
  lemma {:induction false} EndOfReached(m: Mapping, v: string, n: nat) returns (k: nat)
    requires EndsIn(m, v, n)
    ensures Reaches(m, v, k, EndOf(m, v, n)) && EndOf(m, v, n) !in m
    decreases n
  {
    k := 0;
    if v in m {
      var j := EndOfReached(m, m[v], n - 1);
      k := j + 1;
    }
  }

  ghost predicate Leads(m: Mapping, v: string, end: string) {
    end !in m && exists k: nat :: Reaches(m, v, k, end)
  }

  lemma EndLeads(m: Mapping, v: string)
    requires Terminates(m, v)
    ensures Leads(m, v, End(m, v))
  {
    var n: nat :| EndsIn(m, v, n);
    AtFuel(m, v, n);
    var k := EndOfReached(m, v, n);
  }

  /** A value whose chain never ends stays a source for ever. */
  lemma StuckStays(m: Mapping, v: string)
    requires !Terminates(m, v)
    ensures v in m && !Terminates(m, Step(m, v))
  {
    assert !EndsIn(m, v, 0);
    if Terminates(m, m[v]) {
      var n: nat :| EndsIn(m, m[v], n);
      assert EndsIn(m, v, n + 1);
    }
  }

  // ----- One entry after the other -----

  datatype Entry = Entry(source: string, target: string)

  function Rename(e: Entry, v: string): string {
    if v == e.source then e.target else v
  }

  /** What a value becomes when the entries are applied once each, in order. */
  function Apply(es: seq<Entry>, v: string): string {
    if es == [] then v else Apply(es[1..], Rename(es[0], v))
  }

  function MapOf(es: seq<Entry>): Mapping {
    if es == [] then map[] else MapOf(es[1..])[es[0].source := es[0].target]
  }

  /** The keys of an object are distinct. */
  ghost predicate DistinctSources(es: seq<Entry>) {
    forall i, j | 0 <= i < j < |es| :: es[i].source != es[j].source
  }

  /** Every target that is itself a source is renamed later. */
  ghost predicate Forward(es: seq<Entry>) {
    forall i, j | 0 <= i < |es| && 0 <= j < |es| && es[i].target == es[j].source :: i < j
  }

  lemma {:induction false} MapOfAt(es: seq<Entry>, v: string)
    requires DistinctSources(es)
    ensures v in MapOf(es) <==> exists i | 0 <= i < |es| :: es[i].source == v
    ensures forall i | 0 <= i < |es| && es[i].source == v :: v in MapOf(es) && MapOf(es)[v] == es[i].target
    decreases |es|
  {
    if es != [] {
      var rest := es[1..];
      assert DistinctSources(rest);
      MapOfAt(rest, v);
      if v in MapOf(es) && v != es[0].source {
        var i :| 0 <= i < |rest| && rest[i].source == v;
        assert es[i + 1].source == v;
      }
      forall i | 0 <= i < |es| && es[i].source == v
        ensures v in MapOf(es) && MapOf(es)[v] == es[i].target
      {
        if i > 0 { assert rest[i - 1] == es[i]; }
      }
    }
  }

  lemma {:induction false} UntouchedByLater(es: seq<Entry>, v: string)
    requires forall i | 0 <= i < |es| :: es[i].source != v
    ensures Apply(es, v) == v
    decreases |es|
  {
    if es != [] {
      forall i | 0 <= i < |es[1..]| ensures es[1..][i].source != v { assert es[1..][i] == es[i + 1]; }
      UntouchedByLater(es[1..], v);
    }
  }

  /** Dropping a source that is no target does not change where other chains end. */
  lemma {:induction false} EndWithout(m: Mapping, u: string, v: string, n: nat)
    requires EndsIn(m - {u}, v, n) && v != u && forall s | s in m :: m[s] != u
    ensures EndsIn(m, v, n) && EndOf(m, v, n) == EndOf(m - {u}, v, n)
    decreases n
  {
    if v in m { EndWithout(m, u, m[v], n - 1); }
  }

  lemma TailMap(es: seq<Entry>)
    requires es != [] && DistinctSources(es)
    ensures MapOf(es) - {es[0].source} == MapOf(es[1..])
  {
    var rest := es[1..];
    assert DistinctSources(rest);
    MapOfAt(rest, es[0].source);
    assert forall i | 0 <= i < |rest| :: rest[i] == es[i + 1];
  }

  lemma {:induction false} ForwardEnds(es: seq<Entry>, v: string)
    requires DistinctSources(es) && Forward(es)
    ensures EndsIn(MapOf(es), v, |es|) && Apply(es, v) == EndOf(MapOf(es), v, |es|)
    decreases |es|
  {
    if es != [] {
      var s, t, rest := es[0].source, es[0].target, es[1..];
      var m := MapOf(es);
      assert forall i | 0 <= i < |rest| :: rest[i] == es[i + 1];
      var w := Rename(es[0], v);
      ForwardEnds(rest, w);
      TailMap(es);
      NotATarget(es);
      assert w != s;
      EndWithout(m, s, w, |rest|);
      if v == s {
        assert m[v] == w;
      } else {
        MoreFuel(m, v, |rest|);
        FuelFree(m, v, |rest|, |es|);
      }
    }
  }

  lemma {:induction false} MoreFuel(m: Mapping, v: string, n: nat)
    requires EndsIn(m, v, n)
    ensures EndsIn(m, v, n + 1)
    decreases n
  {
    if v in m { MoreFuel(m, m[v], n - 1); }
  }

  lemma NotATarget(es: seq<Entry>)
    requires es != [] && DistinctSources(es) && Forward(es)
    ensures forall s | s in MapOf(es) :: MapOf(es)[s] != es[0].source
  {
    forall s | s in MapOf(es) ensures MapOf(es)[s] != es[0].source {
      MapOfAt(es, s);
      var i :| 0 <= i < |es| && es[i].source == s;
    }
  }

  /** An entry whose target was renamed before it leaves a source behind. */
  lemma {:induction false} BackwardStops(es: seq<Entry>, i: nat)
    requires DistinctSources(es) && i < |es|
    requires exists j | 0 <= j < i :: es[j].source == es[i].target
    ensures Apply(es, es[i].source) == es[i].target
    decreases |es|
  {
    var rest := es[1..];
    assert forall k | 0 <= k < |rest| :: rest[k] == es[k + 1];
    var j :| 0 <= j < i && es[j].source == es[i].target;
    assert es[0].source != es[i].source;
    LandsAt(rest, i - 1, es[j].source);
  }

  lemma {:induction false} LandsAt(es: seq<Entry>, i: nat, done: string)
    requires DistinctSources(es) && i < |es| && es[i].target == done
    requires forall k | i < k < |es| :: es[k].source != done
    ensures Apply(es, es[i].source) == done
    decreases i
  {
    var rest := es[1..];
    assert forall k | 0 <= k < |rest| :: rest[k] == es[k + 1];
    if i == 0 {
      UntouchedByLater(rest, done);
    } else {
      LandsAt(rest, i - 1, done);
    }
  }

  ghost predicate OnePassEnds(es: seq<Entry>, v: string) {
    Terminates(MapOf(es), v) && Apply(es, v) == End(MapOf(es), v)
  }

  lemma ForwardNeeded(es: seq<Entry>, i: nat, j: nat)
    requires DistinctSources(es) && i < |es| && j < |es| && es[i].target == es[j].source
    requires Acyclic(MapOf(es)) && OnePassEnds(es, es[i].source)
    ensures i < j
  {
    var m := MapOf(es);
    MapOfAt(es, es[i].source);
    MapOfAt(es, es[j].source);
    if i == j {
      assert Reaches(m, m[es[i].source], 0, es[i].source);
      assert Reaches(m, es[i].source, 1, es[i].source);
    } else if j < i {
      BackwardStops(es, i);
    }
  }

  /** Applying the entries once each, in order, takes every value to its chain end exactly when
      every target that is also a source comes later. */
  lemma OnePassReachesEnds(es: seq<Entry>)
    requires DistinctSources(es) && Acyclic(MapOf(es))
    ensures (forall v :: OnePassEnds(es, v)) <==> Forward(es)
  {
    if Forward(es) {
      forall v ensures OnePassEnds(es, v) {
        ForwardEnds(es, v);
        AtFuel(MapOf(es), v, |es|);
      }
    }
    if forall v :: OnePassEnds(es, v) {
      forall i, j | 0 <= i < |es| && 0 <= j < |es| && es[i].target == es[j].source ensures i < j {
        assert OnePassEnds(es, es[i].source);
        ForwardNeeded(es, i, j);
      }
    }
  }

  /** When no target is also a source, one rename is the whole story, however it is done. */
  lemma FlatMap(es: seq<Entry>, v: string)
    requires DistinctSources(es) && forall i, j | 0 <= i < |es| && 0 <= j < |es| :: es[i].target != es[j].source
    ensures Terminates(MapOf(es), v)
    ensures Apply(es, v) == Step(MapOf(es), v) == End(MapOf(es), v)
  {
    var m := MapOf(es);
    MapOfAt(es, v);
    MapOfAt(es, Step(m, v));
    assert EndsIn(m, v, 1) by {
      if v in m { assert EndsIn(m, m[v], 0); }
    }
    AtFuel(m, v, 1);
    ForwardEnds(es, v);
    FuelFree(m, v, 1, |es|);
  }
}
