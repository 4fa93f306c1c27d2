/** Generic list operations the application performs with Array.prototype
    methods: `filter`, `includes` followed by `filter` (removal of a value), and
    the first-occurrence de-duplication of `Array.from(new Set(...))`. */
module Sequences {

  /** `s.filter(p)`: the elements satisfying `p`, in order. */
  function Filter<T(!new)>(s: seq<T>, p: T -> bool): (r: seq<T>)
    ensures |r| <= |s|
    ensures forall x :: x in r <==> x in s && p(x)
    ensures forall x :: multiset(r)[x] == if p(x) then multiset(s)[x] else 0
  {
    if s == [] then []
    else
      assert s == [s[0]] + s[1..];
      (if p(s[0]) then [s[0]] else []) + Filter(s[1..], p)
  }

  /** Filtering distributes over concatenation, so it keeps relative order. */
  lemma {:induction false} FilterAppend<T(!new)>(a: seq<T>, b: seq<T>, p: T -> bool)
    ensures Filter(a + b, p) == Filter(a, p) + Filter(b, p)
  {
    if a == [] {
      assert a + b == b;
    } else {
      var h := if p(a[0]) then [a[0]] else [];
      assert (a + b)[0] == a[0] && (a + b)[1..] == a[1..] + b;
      calc {
        Filter(a + b, p);
        h + Filter(a[1..] + b, p);
        { FilterAppend(a[1..], b, p); }
        h + (Filter(a[1..], p) + Filter(b, p));
        (h + Filter(a[1..], p)) + Filter(b, p);
      }
    }
  }

  /** A prefix one longer is the prefix with the next element pushed. */
  lemma PrefixSnoc<T>(s: seq<T>, i: nat)
    requires i < |s|
    ensures s[..i + 1] == s[..i] + [s[i]]
  {
  }

  /** A non-empty list is its initial part with the last element pushed. */
  lemma InitLast<T>(s: seq<T>)
    requires s != []
    ensures s[..|s| - 1] + [s[|s| - 1]] == s
  {
  }

  /** Filtering one element keeps it exactly when it passes. */
  lemma FilterSingleton<T(!new)>(x: T, p: T -> bool)
    ensures Filter([x], p) == if p(x) then [x] else []
  {
    assert [x][1..] == [];
  }

  /** A filter keeping everything is the identity. */
  lemma {:induction false} FilterAll<T(!new)>(s: seq<T>, p: T -> bool)
    requires forall x :: x in s ==> p(x)
    ensures Filter(s, p) == s
  {
    if s != [] {
      FilterAll(s[1..], p);
      assert s == [s[0]] + s[1..];
    }
  }

  /** The number of elements satisfying `p` (`s.filter(p).length`). */
  function CountWhere<T(!new)>(s: seq<T>, p: T -> bool): (n: nat)
    ensures n == |Filter(s, p)|
  {
    if s == [] then 0 else (if p(s[0]) then 1 else 0) + CountWhere(s[1..], p)
  }

  /** The test `y => y !== x`. */
  function Differs<T(==)>(x: T): T -> bool
  {
    y => y != x
  }

  /** `s.filter(y => y !== x)`: every occurrence of `x` removed. */
  function Remove<T(==,!new)>(s: seq<T>, x: T): (r: seq<T>)
    ensures x !in r
    ensures forall y :: y in r <==> y in s && y != x
    ensures forall y :: y != x ==> multiset(r)[y] == multiset(s)[y]
  {
    Filter(s, Differs(x))
  }

  /** Removing a value that is not there changes nothing. */
  lemma RemoveAbsent<T(!new)>(s: seq<T>, x: T)
    requires x !in s
    ensures Remove(s, x) == s
  {
    FilterAll(s, Differs(x));
  }

  /** Removal distributes over concatenation. */
  lemma RemoveAppend<T(!new)>(a: seq<T>, b: seq<T>, x: T)
    ensures Remove(a + b, x) == Remove(a, x) + Remove(b, x)
  {
    FilterAppend(a, b, Differs(x));
  }

  /** First-occurrence de-duplication of `s`, skipping the values in `seen`. */
  function DedupeFrom<T(==,!new)>(s: seq<T>, seen: set<T>): (r: seq<T>)
    ensures forall x :: x in r <==> x in s && x !in seen
    ensures forall i, j :: 0 <= i < j < |r| ==> r[i] != r[j]
  {
    if s == [] then []
    else if s[0] in seen then DedupeFrom(s[1..], seen)
    else [s[0]] + DedupeFrom(s[1..], seen + {s[0]})
  }

  /** `Array.from(new Set(s))`: each value once, at its first position. */
  function Dedupe<T(==,!new)>(s: seq<T>): (r: seq<T>)
    ensures forall x :: x in r <==> x in s
    ensures forall i, j :: 0 <= i < j < |r| ==> r[i] != r[j]
  {
    DedupeFrom(s, {})
  }

  /** De-duplicating a concatenation keeps the first part's survivors first,
      followed by the second part's values that were not seen yet. */
  lemma {:induction false} DedupeFromAppend<T(!new)>(a: seq<T>, b: seq<T>, seen: set<T>)
    ensures DedupeFrom(a + b, seen) == DedupeFrom(a, seen) + DedupeFrom(b, seen + set x | x in a)
  {
    if a == [] {
      assert a + b == b;
      assert (set x | x in a) == {};
      assert seen + (set x | x in a) == seen;
    } else {
      assert (a + b)[0] == a[0] && (a + b)[1..] == a[1..] + b;
      var seen' := if a[0] in seen then seen else seen + {a[0]};
      DedupeFromAppend(a[1..], b, seen');
      assert seen' + (set x | x in a[1..]) == seen + (set x | x in a);
    }
  }

  /** A list without repeated values, none of them in `seen`, is its own
      de-duplication. */
  lemma {:induction false} DedupeFromDistinct<T(!new)>(s: seq<T>, seen: set<T>)
    requires forall i, j :: 0 <= i < j < |s| ==> s[i] != s[j]
    requires forall x :: x in s ==> x !in seen
    ensures DedupeFrom(s, seen) == s
  {
    if s != [] {
      forall x | x in s[1..] ensures x !in seen + {s[0]} {
        var k :| 0 <= k < |s[1..]| && s[1..][k] == x;
        assert s[k + 1] == x;
      }
      DedupeFromDistinct(s[1..], seen + {s[0]});
    }
  }
}
