/** Byte order on text and the unique ascending listing of a finite set.

SQLite's ORDER BY over a unique key, Go's sort package and ORDER BY ... COLLATE BINARY
all produce the listing defined here. */
module Ordering {

  /** Strict bytewise order: SQLite's BINARY collation and Go's string comparison. */
  predicate TextLess(a: string, b: string)
    decreases |a|
  {
    b != [] && (a == [] || a[0] < b[0] || (a[0] == b[0] && TextLess(a[1..], b[1..])))
  }

  lemma {:induction false} TextLessIrreflexive(a: string)
    ensures !TextLess(a, a)
    decreases |a|
  {
    if a != [] {
      TextLessIrreflexive(a[1..]);
    }
  }

  lemma {:induction false} TextLessTransitive(a: string, b: string, c: string)
    requires TextLess(a, b) && TextLess(b, c)
    ensures TextLess(a, c)
    decreases |a|
  {
    if a != [] && a[0] == b[0] && b[0] == c[0] {
      TextLessTransitive(a[1..], b[1..], c[1..]);
    }
  }

  lemma {:induction false} TextLessConnected(a: string, b: string)
    requires a != b
    ensures TextLess(a, b) || TextLess(b, a)
    decreases |a|
  {
    if a != [] && b != [] && a[0] == b[0] {
      assert a == [a[0]] + a[1..] && b == [b[0]] + b[1..];
      TextLessConnected(a[1..], b[1..]);
    }
  }

  /** The order in plain terms: a proper prefix comes first, else the first difference decides. */
  ghost predicate DiffersAt(a: string, b: string, k: nat) {
    k < |a| && k < |b| && a[..k] == b[..k] && a[k] < b[k]
  }

  lemma {:induction false} TextLessExactly(a: string, b: string)
    ensures TextLess(a, b) <==> (a <= b && a != b) || exists k: nat :: DiffersAt(a, b, k)
    decreases |a|
  {
    if a != [] && b != [] {
      TextLessExactly(a[1..], b[1..]);
      assert a == [a[0]] + a[1..] && b == [b[0]] + b[1..];
      if a[0] < b[0] { assert DiffersAt(a, b, 0); }
      if a[0] == b[0] {
        if k: nat :| DiffersAt(a[1..], b[1..], k) { DiffersLater(a, b, k); }
        if k: nat :| DiffersAt(a, b, k) { DiffersEarlier(a, b, k); }
      }
    }
  }

  lemma DiffersLater(a: string, b: string, k: nat)
    requires a != [] && b != [] && a[0] == b[0] && DiffersAt(a[1..], b[1..], k)
    ensures DiffersAt(a, b, k + 1)
  {
    assert a[..k + 1] == [a[0]] + a[1..][..k] && b[..k + 1] == [b[0]] + b[1..][..k];
  }

  lemma DiffersEarlier(a: string, b: string, k: nat)
    requires a != [] && b != [] && a[0] == b[0] && DiffersAt(a, b, k)
    ensures k > 0 && DiffersAt(a[1..], b[1..], k - 1)
  {
    assert a[1..][..k - 1] == a[..k][1..] && b[1..][..k - 1] == b[..k][1..];
  }

  /** `less` is a strict total order on the elements of `s`. */
  ghost predicate TotalOn<T(!new)>(less: (T, T) -> bool, s: set<T>) {
    && (forall x | x in s :: !less(x, x))
    && (forall x, y, z | x in s && y in s && z in s && less(x, y) && less(y, z) :: less(x, z))
    && (forall x, y | x in s && y in s && x != y :: less(x, y) || less(y, x))
  }

  lemma TotalOnSubset<T(!new)>(less: (T, T) -> bool, s: set<T>, sub: set<T>)
    requires TotalOn(less, s) && sub <= s
    ensures TotalOn(less, sub)
  {
  }

  ghost predicate Ascending<T(!new)>(less: (T, T) -> bool, s: seq<T>) {
    forall i, j | 0 <= i < j < |s| :: less(s[i], s[j])
  }

  ghost function Elements<T(!new)>(s: seq<T>): set<T> {
    set x | x in s
  }

  lemma TextTotal(s: set<string>)
    ensures TotalOn(TextLess, s)
  {
    forall x | x in s ensures !TextLess(x, x) { TextLessIrreflexive(x); }
    forall x, y, z | x in s && y in s && z in s && TextLess(x, y) && TextLess(y, z)
      ensures TextLess(x, z)
    {
      TextLessTransitive(x, y, z);
    }
    forall x, y | x in s && y in s && x != y ensures TextLess(x, y) || TextLess(y, x) {
      TextLessConnected(x, y);
    }
  }

  /** Every non-empty finite set has a least element. */
  lemma {:induction false} LeastExists<T(!new)>(less: (T, T) -> bool, s: set<T>) returns (m: T)
    requires s != {} && TotalOn(less, s)
    ensures m in s && forall x | x in s && x != m :: less(m, x)
    decreases |s|
  {
    var x :| x in s;
    if s == {x} {
      m := x;
    } else {
      var rest := s - {x};
      assert s == rest + {x};
      var r := LeastExists(less, rest);
      m := if less(x, r) then x else r;
    }
  }

  ghost predicate IsLeast<T(!new)>(less: (T, T) -> bool, s: set<T>, m: T) {
    m in s && forall x | x in s && x != m :: less(m, x)
  }

  /** The elements of `s`, each once, in ascending order. */
  ghost function Listing<T(!new)>(less: (T, T) -> bool, s: set<T>): (r: seq<T>)
    requires TotalOn(less, s)
    ensures Elements(r) == s
    ensures Ascending(less, r)
    ensures |r| == |s|
    decreases |s|
  {
    if s == {} then []
    else
      assert exists m :: IsLeast(less, s, m) by { var m := LeastExists(less, s); assert IsLeast(less, s, m); }
      var m :| IsLeast(less, s, m);
      var rest := Listing(less, s - {m});
      assert Elements([m] + rest) == s by {
        assert forall x :: x in [m] + rest <==> x == m || x in rest;
        assert forall x :: x in rest <==> x in Elements(rest);
      }
      assert forall i | 0 <= i < |rest| :: rest[i] in Elements(rest);
      [m] + rest
  }

  lemma EmptyElements<T(!new)>(a: seq<T>)
    ensures a == [] <==> Elements(a) == {}
  {
    if a != [] { assert a[0] in Elements(a); }
  }

  /** Two ascending sequences with the same elements are the same sequence. */
  lemma {:induction false} AscendingUnique<T(!new)>(less: (T, T) -> bool, a: seq<T>, b: seq<T>)
    requires TotalOn(less, Elements(a)) && Elements(a) == Elements(b)
    requires Ascending(less, a) && Ascending(less, b)
    ensures a == b
    decreases |a|
  {
    EmptyElements(a);
    EmptyElements(b);
    if a != [] {
      assert a[0] in Elements(a) && b[0] in Elements(a) && a[0] in Elements(b) && b[0] in Elements(b);
      assert a[0] == b[0];
      TailElements(less, a);
      TailElements(less, b);
      AscendingUnique(less, a[1..], b[1..]);
      assert a == [a[0]] + a[1..] && b == [b[0]] + b[1..];
    }
  }

  lemma TailElements<T(!new)>(less: (T, T) -> bool, a: seq<T>)
    requires a != [] && TotalOn(less, Elements(a)) && Ascending(less, a)
    ensures Elements(a[1..]) == Elements(a) - {a[0]}
  {
  }

  lemma AscendingIsListing<T(!new)>(less: (T, T) -> bool, a: seq<T>, s: set<T>)
    requires Elements(a) == s && TotalOn(less, s) && Ascending(less, a)
    ensures a == Listing(less, s)
  {
    AscendingUnique(less, a, Listing(less, s));
  }

  /** Elements kept by a filter stay ascending and are exactly those that pass. */
  function Filter<T(!new)>(keep: T -> bool, s: seq<T>): (r: seq<T>)
    ensures forall x :: x in r <==> x in s && keep(x)
  {
    if s == [] then []
    else if keep(s[0]) then [s[0]] + Filter(keep, s[1..])
    else Filter(keep, s[1..])
  }

  lemma {:induction false} FilterAscending<T(!new)>(less: (T, T) -> bool, keep: T -> bool, s: seq<T>)
    requires Ascending(less, s)
    ensures Ascending(less, Filter(keep, s))
    decreases |s|
  {
    if s != [] {
      FilterAscending(less, keep, s[1..]);
      var rest := Filter(keep, s[1..]);
      forall i | 0 <= i < |rest| ensures less(s[0], rest[i]) {
        assert rest[i] in s[1..];
      }
    }
  }

  /** Insertion into an ascending sequence. */
  function Insert<T(!new)>(less: (T, T) -> bool, x: T, s: seq<T>): (r: seq<T>)
    ensures multiset(r) == multiset(s) + multiset{x}
  {
    if s == [] then [x]
    else if less(x, s[0]) then [x] + s
    else
      assert s == [s[0]] + s[1..];
      [s[0]] + Insert(less, x, s[1..])
  }

  /** Go's sort on a slice. */
  function Sort<T(!new)>(less: (T, T) -> bool, s: seq<T>): (r: seq<T>)
    ensures multiset(r) == multiset(s)
  {
    if s == [] then []
    else
      assert s == [s[0]] + s[1..];
      Insert(less, s[0], Sort(less, s[1..]))
  }

  ghost predicate Distinct<T(!new)>(s: seq<T>) {
    forall i, j | 0 <= i < j < |s| :: s[i] != s[j]
  }

  lemma {:induction false} InsertAscending<T(!new)>(less: (T, T) -> bool, x: T, s: seq<T>)
    requires Ascending(less, s) && x !in s && TotalOn(less, Elements(s) + {x})
    ensures Ascending(less, Insert(less, x, s))
    decreases |s|
  {
    if s == [] {
    } else if less(x, s[0]) {
      forall i | 0 <= i < |s| ensures less(x, s[i]) {
        assert s[0] in Elements(s) && s[i] in Elements(s);
      }
    } else {
      assert s[0] in Elements(s);
      assert Elements(s[1..]) <= Elements(s);
      InsertAscending(less, x, s[1..]);
      var rest := Insert(less, x, s[1..]);
      forall i | 0 <= i < |rest| ensures less(s[0], rest[i]) {
        assert rest[i] in multiset(rest);
        assert rest[i] == x || rest[i] in multiset(s[1..]);
      }
    }
  }

  lemma SortElements<T(!new)>(less: (T, T) -> bool, s: seq<T>)
    ensures forall x :: x in Sort(less, s) <==> x in s
    ensures Elements(Sort(less, s)) == Elements(s)
  {
    var r := Sort(less, s);
    forall x ensures x in r <==> x in s {
      assert x in multiset(r) <==> x in multiset(s);
    }
  }

  lemma {:induction false} SortAscending<T(!new)>(less: (T, T) -> bool, s: seq<T>)
    requires Distinct(s) && TotalOn(less, Elements(s))
    ensures Ascending(less, Sort(less, s))
    decreases |s|
  {
    if s != [] {
      TotalOnSubset(less, Elements(s), Elements(s[1..]));
      SortAscending(less, s[1..]);
      var rest := Sort(less, s[1..]);
      SortElements(less, s[1..]);
      assert s[0] !in s[1..];
      TotalOnSubset(less, Elements(s), Elements(rest) + {s[0]});
      InsertAscending(less, s[0], rest);
    }
  }

  /** Sorting distinct elements lists them as a set: the input order does not matter. */
  lemma SortIsListing<T(!new)>(less: (T, T) -> bool, s: seq<T>)
    requires Distinct(s) && TotalOn(less, Elements(s))
    ensures Elements(Sort(less, s)) == Elements(s)
    ensures Sort(less, s) == Listing(less, Elements(s))
  {
    SortElements(less, s);
    SortAscending(less, s);
    AscendingIsListing(less, Sort(less, s), Elements(s));
  }

  /** A subset is no larger. */
  lemma {:induction false} SubsetSize<T>(small: set<T>, large: set<T>)
    requires small <= large
    ensures |small| <= |large|
    decreases |small|
  {
    if small != {} {
      var x :| x in small;
      SubsetSize(small - {x}, large - {x});
    }
  }
}
