/** Sorting by a string key, and the fact that makes its result canonical: a set of
    strings has exactly one strictly increasing listing. */
module Sorting {
  import opened Text

  ghost predicate StrictlySorted(s: seq<string>) {
    forall i, j | 0 <= i < j < |s| :: Lt(s[i], s[j])
  }

  ghost predicate Lists(s: seq<string>, elements: set<string>) {
    forall x :: x in s <==> x in elements
  }

  ghost function Least(elements: set<string>): (m: string)
    requires elements != {}
    ensures m in elements
    ensures forall x | x in elements && x != m :: Lt(m, x)
  {
    var x :| x in elements;
    var rest := elements - {x};
    if rest == {} then
      assert elements == {x};
      x
    else
      var m := Least(rest);
      LtTotal(x, m);
      if Lt(x, m) then
        BelowLeast(x, m, rest);
        x
      else
        m
  }

  lemma BelowLeast(x: string, m: string, rest: set<string>)
    requires Lt(x, m) && forall y | y in rest && y != m :: Lt(m, y)
    ensures forall y | y in rest :: Lt(x, y)
  {
    forall y | y in rest && y != m ensures Lt(x, y) { LtTransitive(x, m, y); }
  }

  /** The one increasing listing of a set of strings. */
  ghost function SortedSet(elements: set<string>): (s: seq<string>)
    ensures StrictlySorted(s) && Lists(s, elements)
  {
    if elements == {} then
      []
    else
      var m := Least(elements);
      [m] + SortedSet(elements - {m})
  }

  /** A set has no other increasing listing: whatever order the elements were met in,
      sorting them gives the same sequence. */
  lemma {:induction false} SortedSetUnique(s: seq<string>, elements: set<string>)
    requires StrictlySorted(s) && Lists(s, elements)
    ensures s == SortedSet(elements)
    decreases |s|
  {
    var t := SortedSet(elements);
    if s == [] {
      assert elements == {};
    } else {
      assert s[0] in t && t[0] in s;
      var i :| 0 <= i < |t| && t[i] == s[0];
      var j :| 0 <= j < |s| && s[j] == t[0];
      LtAsymmetric(s[0], t[0]);
      assert s[0] == t[0];
      LtAsymmetric(s[0], s[0]);
      var rest := elements - {s[0]};
      forall x ensures x in s[1..] <==> x in rest {
        assert x in s <==> x == s[0] || x in s[1..];
      }
      SortedSetUnique(s[1..], rest);
      assert elements != {};
      assert Least(elements) == t[0];
      assert s == [s[0]] + s[1..];
    }
  }

  // ----- the library sort

  ghost predicate SortedBy<T>(s: seq<T>, key: T -> string) {
    forall i, j | 0 <= i < j < |s| :: !Lt(key(s[j]), key(s[i]))
  }

  function Insert<T>(x: T, s: seq<T>, key: T -> string): seq<T> {
    if s == [] || Lt(key(x), key(s[0])) then [x] + s else [s[0]] + Insert(x, s[1..], key)
  }

  /** sort.Strings and sort.Slice: some sorted permutation of the argument. */
  function Sort<T>(s: seq<T>, key: T -> string): seq<T> {
    if s == [] then [] else Insert(s[0], Sort(s[1..], key), key)
  }

  lemma {:induction false} InsertSorts<T>(x: T, s: seq<T>, key: T -> string)
    requires SortedBy(s, key)
    ensures SortedBy(Insert(x, s, key), key)
    ensures multiset(Insert(x, s, key)) == multiset{x} + multiset(s)
    decreases |s|
  {
    var r := Insert(x, s, key);
    if s == [] {
    } else if Lt(key(x), key(s[0])) {
      forall i, j | 0 <= i < j < |r| ensures !Lt(key(r[j]), key(r[i])) {
        if i == 0 && Lt(key(r[j]), key(x)) {
          LtTransitive(key(r[j]), key(x), key(s[0]));
          LtAsymmetric(key(x), key(s[0]));
        }
      }
    } else {
      InsertSorts(x, s[1..], key);
      var t := Insert(x, s[1..], key);
      assert s == [s[0]] + s[1..];
      forall j | 0 <= j < |t| ensures !Lt(key(t[j]), key(s[0])) {
        assert t[j] in multiset(t);
        assert t[j] == x || t[j] in s[1..];
      }
    }
  }

  lemma {:induction false} SortSorts<T>(s: seq<T>, key: T -> string)
    ensures SortedBy(Sort(s, key), key)
    ensures multiset(Sort(s, key)) == multiset(s)
    decreases |s|
  {
    if s != [] {
      SortSorts(s[1..], key);
      InsertSorts(s[0], Sort(s[1..], key), key);
      assert s == [s[0]] + s[1..];
    }
  }

  // ----- sorting what a map iteration or a directory scan collected

  ghost predicate Distinct<T>(s: seq<T>) {
    forall i, j | 0 <= i < j < |s| :: s[i] != s[j]
  }

  lemma {:induction false} DistinctCount<T>(s: seq<T>, x: T)
    requires Distinct(s)
    ensures multiset(s)[x] <= 1
    decreases |s|
  {
    if s != [] {
      DistinctCount(s[1..], x);
      assert s == [s[0]] + s[1..];
      if x == s[0] { assert x !in s[1..]; }
    }
  }

  lemma {:induction false} CountDistinct<T(!new)>(s: seq<T>)
    requires forall x :: multiset(s)[x] <= 1
    ensures Distinct(s)
    decreases |s|
  {
    if s != [] {
      assert s == [s[0]] + s[1..];
      forall x ensures multiset(s[1..])[x] <= 1 { assert multiset(s)[x] <= 1; }
      CountDistinct(s[1..]);
      assert s[0] !in s[1..] by { assert multiset(s)[s[0]] == 1 + multiset(s[1..])[s[0]]; }
    }
  }

  /** Sorting permutes: same elements, still distinct. */
  lemma SortKeepsElements<T(!new)>(s: seq<T>, key: T -> string)
    requires Distinct(s)
    ensures var r := Sort(s, key);
      SortedBy(r, key) && Distinct(r) && |r| == |s| && forall x :: x in r <==> x in s
  {
    SortSorts(s, key);
    var r := Sort(s, key);
    assert |r| == |multiset(r)| == |multiset(s)|;
    forall x ensures x in r <==> x in s { assert x in multiset(r) <==> x in multiset(s); }
    forall x ensures multiset(r)[x] <= 1 { DistinctCount(s, x); }
    CountDistinct(r);
  }

  /** sort.Strings on a duplicate-free collection yields its one increasing listing. */
  lemma SortStringsCanonical(s: seq<string>, elements: set<string>)
    requires Distinct(s) && Lists(s, elements)
    ensures Sort(s, (x: string) => x) == SortedSet(elements)
  {
    var id := (x: string) => x;
    SortKeepsElements(s, id);
    var r := Sort(s, id);
    forall i, j | 0 <= i < j < |r| ensures Lt(r[i], r[j]) { LtTotal(r[i], r[j]); assert !Lt(id(r[j]), id(r[i])); }
    SortedSetUnique(r, elements);
  }
}
