/** Order-preserving list filters: list difference and intersection, and the
    sequence facts the rest of the model uses about filtering. */
module ListUtils {

  /** The elements of `s` that satisfy `keep`, in their order in `s`
      (a Python list comprehension with an `if`). */
  function Filter<T>(s: seq<T>, keep: T -> bool): (r: seq<T>)
    ensures |r| <= |s|
  {
    if s == [] then []
    else if keep(s[0]) then [s[0]] + Filter(s[1..], keep)
    else Filter(s[1..], keep)
  }

  /** `s` can be obtained from `t` by deleting elements. */
  ghost predicate IsSubsequence<T>(s: seq<T>, t: seq<T>)
    decreases |t|
  {
    s == [] || (t != [] && ((s[0] == t[0] && IsSubsequence(s[1..], t[1..])) || IsSubsequence(s, t[1..])))
  }

  /** No element occurs twice. */
  ghost predicate Distinct<T>(s: seq<T>)
  {
    forall i, j :: 0 <= i < j < |s| ==> s[i] != s[j]
  }

  /** The concatenation of `xs` in order (nested `for` loops that append). */
  function Concat<T>(xs: seq<seq<T>>): (r: seq<T>)
  {
    if xs == [] then [] else Concat(xs[..|xs| - 1]) + xs[|xs| - 1]
  }

  /** The total of the lengths of the lists in `xs`. */
  function TotalLength<T>(xs: seq<seq<T>>): nat
  {
    if xs == [] then 0 else TotalLength(xs[..|xs| - 1]) + |xs[|xs| - 1]|
  }

  /** Python's `list.remove(x)`: drops the first occurrence of `x`. */
  function Remove<T(==)>(s: seq<T>, x: T): (r: seq<T>)
    requires x in s
    ensures |r| == |s| - 1
  {
    if s[0] == x then s[1..] else [s[0]] + Remove(s[1..], x)
  }

  function NotIn<T(==)>(b: seq<T>): T -> bool
  {
    x => x !in b
  }

  function In<T(==)>(b: seq<T>): T -> bool
  {
    x => x in b
  }

  /** `list_subtract(a, b)`: the elements of `a` that are not in `b`, in `a`'s order. */
  function Subtract<T(==)>(a: seq<T>, b: seq<T>): (r: seq<T>)
    ensures forall i :: 0 <= i < |r| ==> r[i] in a && r[i] !in b
    ensures forall i :: 0 <= i < |a| && a[i] !in b ==> a[i] in r
  {
    SubtractMembers(a, b);
    Filter(a, NotIn(b))
  }

  /** `list_intersect(a, b)`: the elements of `a` that are in `b`, in `a`'s order. */
  function Intersect<T(==)>(a: seq<T>, b: seq<T>): (r: seq<T>)
    ensures forall i :: 0 <= i < |r| ==> r[i] in a && r[i] in b
    ensures forall i :: 0 <= i < |a| && a[i] in b ==> a[i] in r
  {
    IntersectMembers(a, b);
    Filter(a, In(b))
  }

  // ---------------------------------------------------------------------
  // Facts about Filter

  lemma {:induction false} FilterMembers<T>(s: seq<T>, keep: T -> bool)
    ensures forall x :: x in Filter(s, keep) ==> x in s && keep(x)
    ensures forall x :: x in s && keep(x) ==> x in Filter(s, keep)
  {
    if s != [] {
      FilterMembers(s[1..], keep);
      assert forall x :: x in s <==> x == s[0] || x in s[1..];
    }
  }

  lemma {:induction false} FilterIsSubsequence<T>(s: seq<T>, keep: T -> bool)
    ensures IsSubsequence(Filter(s, keep), s)
  {
    if s != [] {
      FilterIsSubsequence(s[1..], keep);
      if keep(s[0]) {
        var r := Filter(s, keep);
        assert r[0] == s[0] && r[1..] == Filter(s[1..], keep);
      }
    }
  }

  /** Appending the same element to both lists keeps one a subsequence of the
      other, and so does appending it to the longer list only. */
  lemma {:induction false} SubsequenceAppend<T>(s: seq<T>, t: seq<T>, x: T)
    requires IsSubsequence(s, t)
    ensures IsSubsequence(s, t + [x]) && IsSubsequence(s + [x], t + [x])
    decreases |t|
  {
    if t == [] {
      assert s == [];
      assert ([x])[1..] == [];
    } else {
      assert (t + [x])[1..] == t[1..] + [x];
      if s == [] {
        SubsequenceAppend(s, t[1..], x);
        assert s + [x] == [x];
      } else if s[0] == t[0] && IsSubsequence(s[1..], t[1..]) {
        SubsequenceAppend(s[1..], t[1..], x);
        assert (s + [x])[1..] == s[1..] + [x];
      } else {
        SubsequenceAppend(s, t[1..], x);
      }
    }
  }

  /** How many times `x` occurs in the filtered list: every occurrence or none. */
  lemma {:induction false} FilterCount<T>(s: seq<T>, keep: T -> bool, x: T)
    ensures multiset(Filter(s, keep))[x] == if keep(x) then multiset(s)[x] else 0
  {
    if s != [] {
      FilterCount(s[1..], keep, x);
      assert s == [s[0]] + s[1..];
    }
  }

  /** Two complementary filters split a list between them. */
  lemma {:induction false} FilterSplit<T>(s: seq<T>, keep: T -> bool, drop: T -> bool)
    requires forall x :: x in s ==> drop(x) == !keep(x)
    ensures |Filter(s, keep)| + |Filter(s, drop)| == |s|
  {
    if s != [] {
      assert forall x :: x in s[1..] ==> x in s;
      FilterSplit(s[1..], keep, drop);
    }
  }

  lemma {:induction false} FilterIdempotent<T>(s: seq<T>, keep: T -> bool)
    ensures Filter(Filter(s, keep), keep) == Filter(s, keep)
  {
    if s != [] {
      FilterIdempotent(s[1..], keep);
    }
  }

  lemma {:induction false} FilterKeepsAll<T>(s: seq<T>, keep: T -> bool)
    requires forall x :: x in s ==> keep(x)
    ensures Filter(s, keep) == s
  {
    if s != [] {
      assert forall x :: x in s[1..] ==> x in s;
      FilterKeepsAll(s[1..], keep);
    }
  }

  lemma {:induction false} FilterKeepsNone<T>(s: seq<T>, keep: T -> bool)
    requires forall x :: x in s ==> !keep(x)
    ensures Filter(s, keep) == []
  {
    if s != [] {
      assert forall x :: x in s[1..] ==> x in s;
      FilterKeepsNone(s[1..], keep);
    }
  }

  lemma {:induction false} FilterDistinct<T>(s: seq<T>, keep: T -> bool)
    requires Distinct(s)
    ensures Distinct(Filter(s, keep))
  {
    if s != [] {
      assert Distinct(s[1..]) by {
        forall i, j | 0 <= i < j < |s[1..]| ensures s[1..][i] != s[1..][j] {
          assert s[1..][i] == s[i + 1] && s[1..][j] == s[j + 1];
        }
      }
      FilterDistinct(s[1..], keep);
      FilterMembers(s[1..], keep);
      if keep(s[0]) {
        var r := Filter(s, keep);
        var t := Filter(s[1..], keep);
        assert r == [s[0]] + t;
        assert s[0] !in s[1..] by {
          forall k | 0 <= k < |s[1..]| ensures s[1..][k] != s[0] {
            assert s[1..][k] == s[k + 1];
          }
        }
        forall i, j | 0 <= i < j < |r| ensures r[i] != r[j] {
          if i == 0 {
            assert r[j] == t[j - 1];
            assert r[j] in t;
          } else {
            assert r[i] == t[i - 1] && r[j] == t[j - 1];
          }
        }
      }
    }
  }

  /** Removing the only occurrence of `x`, at index `i`, cuts out index `i`. */
  lemma {:induction false} RemoveAt<T>(s: seq<T>, i: nat, x: T)
    requires i < |s| && s[i] == x && x !in s[..i]
    ensures Remove(s, x) == s[..i] + s[i + 1..]
  {
    if i > 0 {
      assert s[0] in s[..i];
      assert s[..i] == [s[0]] + s[1..][..i - 1];
      RemoveAt(s[1..], i - 1, x);
      assert s[1..][i..] == s[i + 1..];
    }
  }

  // ---------------------------------------------------------------------
  // list_subtract and list_intersect

  lemma SubtractMembers<T>(a: seq<T>, b: seq<T>)
    ensures forall i :: 0 <= i < |Filter(a, NotIn(b))| ==> Filter(a, NotIn(b))[i] in a && Filter(a, NotIn(b))[i] !in b
    ensures forall i :: 0 <= i < |a| && a[i] !in b ==> a[i] in Filter(a, NotIn(b))
  {
    var r := Filter(a, NotIn(b));
    FilterMembers(a, NotIn(b));
    forall i | 0 <= i < |r| ensures r[i] in a && r[i] !in b {
      assert r[i] in r;
      assert r[i] in a && NotIn(b)(r[i]);
    }
  }

  lemma IntersectMembers<T>(a: seq<T>, b: seq<T>)
    ensures forall i :: 0 <= i < |Filter(a, In(b))| ==> Filter(a, In(b))[i] in a && Filter(a, In(b))[i] in b
    ensures forall i :: 0 <= i < |a| && a[i] in b ==> a[i] in Filter(a, In(b))
  {
    var r := Filter(a, In(b));
    FilterMembers(a, In(b));
    forall i | 0 <= i < |r| ensures r[i] in a && r[i] in b {
      assert r[i] in r;
      assert r[i] in a && In(b)(r[i]);
    }
  }

  /** Each result keeps a list's order, and together they account for every element of `a`. */
  lemma SubtractIntersectSplit<T>(a: seq<T>, b: seq<T>)
    ensures IsSubsequence(Subtract(a, b), a) && IsSubsequence(Intersect(a, b), a)
    ensures |Subtract(a, b)| + |Intersect(a, b)| == |a|
  {
    FilterIsSubsequence(a, NotIn(b));
    FilterIsSubsequence(a, In(b));
    FilterSplit(a, NotIn(b), In(b));
  }

  /** Duplicates are kept per occurrence: an element of `a` outside `b` occurs in
      `Subtract(a, b)` as often as in `a`, and symmetrically for `Intersect`. */
  lemma SubtractIntersectCounts<T>(a: seq<T>, b: seq<T>, x: T)
    ensures multiset(Subtract(a, b))[x] == if x in b then 0 else multiset(a)[x]
    ensures multiset(Intersect(a, b))[x] == if x in b then multiset(a)[x] else 0
  {
    FilterCount(a, NotIn(b), x);
    FilterCount(a, In(b), x);
  }

  lemma SubtractNothing<T>(a: seq<T>)
    ensures Subtract(a, []) == a
  {
    FilterKeepsAll(a, NotIn([]));
  }

  lemma IntersectNothing<T>(a: seq<T>)
    ensures Intersect(a, []) == []
  {
    FilterKeepsNone(a, In([]));
  }

  lemma SubtractIdempotent<T>(a: seq<T>, b: seq<T>)
    ensures Subtract(Subtract(a, b), b) == Subtract(a, b)
  {
    FilterIdempotent(a, NotIn(b));
  }

  lemma IntersectSelf<T>(a: seq<T>)
    ensures Intersect(a, a) == a
  {
    FilterKeepsAll(a, In(a));
  }

  // ---------------------------------------------------------------------
  // Facts about Concat

  lemma {:induction false} ConcatLength<T>(xs: seq<seq<T>>)
    ensures |Concat(xs)| == TotalLength(xs)
  {
    if xs != [] {
      ConcatLength(xs[..|xs| - 1]);
    }
  }

  lemma {:induction false} ConcatMembers<T>(xs: seq<seq<T>>, x: T)
    ensures x in Concat(xs) <==> exists i :: 0 <= i < |xs| && x in xs[i]
  {
    if xs != [] {
      var init := xs[..|xs| - 1];
      ConcatMembers(init, x);
      assert forall i :: 0 <= i < |init| ==> init[i] == xs[i];
      if x in xs[|xs| - 1] {
        assert x in Concat(xs);
      }
    }
  }
}
