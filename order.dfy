/**
 * Python's ordering of strings (code point by code point, a proper prefix
 * first) and `sorted(keywords)` for a set of keywords.
 */
module Order {

  /** Python's `a < b` on `str`. */
  predicate Less(a: string, b: string)
    ensures Less(a, b) ==> a != b
  {
    if |a| == 0 then |b| > 0
    else if |b| == 0 then false
    else a[0] < b[0] || (a[0] == b[0] && Less(a[1..], b[1..]))
  }

  lemma {:induction false} LessIrreflexive(a: string)
    ensures !Less(a, a)
  {
    if |a| > 0 {
      LessIrreflexive(a[1..]);
    }
  }

  lemma {:induction false} LessAsymmetric(a: string, b: string)
    ensures Less(a, b) ==> !Less(b, a)
  {
    if |a| > 0 && |b| > 0 && a[0] == b[0] {
      LessAsymmetric(a[1..], b[1..]);
    }
  }

  lemma {:induction false} LessTransitive(a: string, b: string, c: string)
    requires Less(a, b) && Less(b, c)
    ensures Less(a, c)
  {
    if |a| > 0 && a[0] == b[0] && b[0] == c[0] {
      LessTransitive(a[1..], b[1..], c[1..]);
    }
  }

  /** Any two distinct strings are ordered one way or the other. */
  lemma {:induction false} LessTotal(a: string, b: string)
    ensures a == b || Less(a, b) || Less(b, a)
  {
    if |a| > 0 && |b| > 0 && a[0] == b[0] {
      LessTotal(a[1..], b[1..]);
      if a[1..] == b[1..] {
        assert a == [a[0]] + a[1..] && b == [b[0]] + b[1..];
      }
    }
  }


  /** Strictly increasing: sorted and without repetitions. */
  predicate StrictlySorted(s: seq<string>)
  {
    forall i, j :: 0 <= i < j < |s| ==> Less(s[i], s[j])
  }

  function Elems(s: seq<string>): set<string>
  {
    set x | x in s
  }

  /** `m` is the smallest element of `k`. */
  predicate IsLeast(m: string, k: set<string>)
  {
    m in k && forall x :: x in k && x != m ==> Less(m, x)
  }

  lemma {:induction false} LeastExists(k: set<string>)
    requires k != {}
    ensures exists m :: IsLeast(m, k)
    decreases |k|
  {
    var x :| x in k;
    if k - {x} == {} {
      assert k == {x};
      assert IsLeast(x, k);
    } else {
      LeastExists(k - {x});
      var m :| IsLeast(m, k - {x});
      LessTotal(m, x);
      if Less(m, x) {
        assert IsLeast(m, k);
      } else {
        forall y | y in k && y != x
          ensures Less(x, y)
        {
          if y != m {
            LessTransitive(x, m, y);
          }
        }
        assert IsLeast(x, k);
      }
    }
  }

  lemma LeastUnique(k: set<string>)
    ensures forall m, n :: IsLeast(m, k) && IsLeast(n, k) ==> m == n
  {
    forall m, n | IsLeast(m, k) && IsLeast(n, k) ensures m == n {
      LessAsymmetric(m, n);
    }
  }

  /** Python's `sorted(k)` for a set of strings. */
  function SortedKeys(k: set<string>): (r: seq<string>)
    ensures StrictlySorted(r)
    ensures Elems(r) == k
    ensures |r| == |k|
    decreases k
  {
    if k == {} then []
    else
      LeastExists(k);
      LeastUnique(k);
      var m :| IsLeast(m, k);
      var rest := SortedKeys(k - {m});
      LeastFirst(m, k, rest);
      [m] + rest
  }

  /** Putting the least element in front of a sorted enumeration of the
      others gives a sorted enumeration of the whole set. */
  lemma LeastFirst(m: string, k: set<string>, rest: seq<string>)
    requires IsLeast(m, k)
    requires StrictlySorted(rest) && Elems(rest) == k - {m} && |rest| == |k - {m}|
    ensures StrictlySorted([m] + rest) && Elems([m] + rest) == k && |[m] + rest| == |k|
  {
    assert Elems([m] + rest) == {m} + Elems(rest) by {
      assert forall x :: x in [m] + rest <==> x == m || x in rest;
    }
    assert {m} + (k - {m}) == k;
    forall j | 0 <= j < |rest| ensures Less(m, rest[j]) {
      assert rest[j] in Elems(rest);
    }
  }

  /** A strictly sorted sequence is determined by its elements, so `sorted`
      does not depend on the order in which the set is iterated. */
  lemma {:induction false} StrictlySortedUnique(a: seq<string>, b: seq<string>)
    requires StrictlySorted(a) && StrictlySorted(b)
    requires Elems(a) == Elems(b)
    ensures a == b
    decreases |a|
  {
    if a == [] {
      ElemsEmpty(b);
    } else {
      assert b != [] by { assert a[0] in Elems(a); }
      if a[0] != b[0] {
        assert a[0] in Elems(b);
        var j :| 0 <= j < |b| && b[j] == a[0];
        assert b[0] in Elems(a);
        var i :| 0 <= i < |a| && a[i] == b[0];
        LessAsymmetric(a[0], b[0]);
        assert false;
      }
      TailElems(a);
      TailElems(b);
      StrictlySortedUnique(a[1..], b[1..]);
      assert a == [a[0]] + a[1..] && b == [b[0]] + b[1..];
    }
  }

  lemma ElemsEmpty(s: seq<string>)
    ensures Elems(s) == {} <==> s == []
  {
    if s != [] {
      assert s[0] in Elems(s);
    }
  }

  lemma TailElems(a: seq<string>)
    requires StrictlySorted(a) && a != []
    ensures Elems(a[1..]) == Elems(a) - {a[0]}
  {
    forall j | 0 < j < |a| ensures a[j] != a[0] {
      LessIrreflexive(a[0]);
    }
    assert a == [a[0]] + a[1..];
  }

  /** Sorting a set and then keeping the keys that satisfy `p` gives the
      sorted set of those keys. */
  lemma SortedFilter(k: set<string>, p: string -> bool)
    ensures FilterKeys(SortedKeys(k), p) == SortedKeys(set x | x in k && p(x))
  {
    FilterKeysSorted(SortedKeys(k), p);
    StrictlySortedUnique(FilterKeys(SortedKeys(k), p), SortedKeys(set x | x in k && p(x)));
  }

  /** The keys of `s` that satisfy `p`, in their order in `s`. */
  function FilterKeys(s: seq<string>, p: string -> bool): seq<string>
  {
    if s == [] then []
    else FilterKeys(s[..|s| - 1], p) + (if p(s[|s| - 1]) then [s[|s| - 1]] else [])
  }

  lemma {:induction false} FilterKeysSorted(s: seq<string>, p: string -> bool)
    requires StrictlySorted(s)
    ensures StrictlySorted(FilterKeys(s, p))
    ensures Elems(FilterKeys(s, p)) == set x | x in s && p(x)
  {
    if s != [] {
      var init := s[..|s| - 1];
      var last := s[|s| - 1];
      FilterKeysSorted(init, p);
      var f := FilterKeys(init, p);
      var kept := if p(last) then [last] else [];
      assert FilterKeys(s, p) == f + kept;
      forall i | 0 <= i < |f| ensures Less(f[i], last) {
        assert f[i] in Elems(f);
      }
      assert s == init + [last];
      assert (set x | x in s && p(x)) == (set x | x in init && p(x)) + Elems(kept);
      assert Elems(f + kept) == Elems(f) + Elems(kept);
    }
  }
}
