/** Order-preserving filtering of sequences, the shape of every accumulating `for` loop over a list in the
    monitored system, with the facts the queries built on it rely on. */
module SeqUtil {

  function Last<T>(s: seq<T>): T
    requires |s| > 0
  {
    s[|s| - 1]
  }

  function DropLast<T>(s: seq<T>): seq<T>
    requires |s| > 0
  {
    s[..|s| - 1]
  }

  /** Concatenation regroups freely. */
  lemma AppendAssoc<T>(a: seq<T>, b: seq<T>, c: seq<T>)
    ensures (a + b) + c == a + (b + c)
  {
  }

  /** The elements of `s` for which `keep` holds, in their order in `s`. */
  function Filter<T>(s: seq<T>, keep: T -> bool): (r: seq<T>)
    ensures |r| <= |s|
  {
    if s == [] then []
    else Filter(DropLast(s), keep) + (if keep(Last(s)) then [Last(s)] else [])
  }

  /** `a` can be obtained from `b` by deleting elements. */
  predicate IsSubsequence<T(==)>(a: seq<T>, b: seq<T>)
    decreases |b|
  {
    if a == [] then true
    else if b == [] then false
    else (Last(a) == Last(b) && IsSubsequence(DropLast(a), DropLast(b))) || IsSubsequence(a, DropLast(b))
  }

  lemma {:induction false} FilterAppend<T>(a: seq<T>, b: seq<T>, keep: T -> bool)
    ensures Filter(a + b, keep) == Filter(a, keep) + Filter(b, keep)
    decreases |b|
  {
    if b == [] {
      assert a + b == a;
    } else {
      assert DropLast(a + b) == a + DropLast(b);
      assert Last(a + b) == Last(b);
      FilterAppend(a, DropLast(b), keep);
    }
  }

  lemma {:induction false} FilterIsSubsequence<T>(s: seq<T>, keep: T -> bool)
    ensures IsSubsequence(Filter(s, keep), s)
    decreases |s|
  {
    if s != [] {
      FilterIsSubsequence(DropLast(s), keep);
      var f := Filter(DropLast(s), keep);
      if keep(Last(s)) {
        assert DropLast(f + [Last(s)]) == f;
      } else {
        assert Filter(s, keep) == f + [];
        assert f + [] == f;
      }
    }
  }

  /** Each kept value occurs in the result exactly as often as in `s`; every other value does not occur. */
  lemma {:induction false} FilterMultiset<T>(s: seq<T>, keep: T -> bool)
    ensures forall x :: multiset(Filter(s, keep))[x] == if keep(x) then multiset(s)[x] else 0
    decreases |s|
  {
    if s != [] {
      FilterMultiset(DropLast(s), keep);
      assert s == DropLast(s) + [Last(s)];
      assert multiset(s) == multiset(DropLast(s)) + multiset{Last(s)};
    }
  }

  lemma FilterMembership<T>(s: seq<T>, keep: T -> bool, x: T)
    ensures x in Filter(s, keep) <==> x in s && keep(x)
  {
    FilterMultiset(s, keep);
    assert x in Filter(s, keep) <==> multiset(Filter(s, keep))[x] > 0;
    assert x in s <==> multiset(s)[x] > 0;
  }

  /** Filtering keeps the whole sequence exactly when every element is kept. */
  lemma {:induction false} FilterKeepsAll<T>(s: seq<T>, keep: T -> bool)
    ensures |Filter(s, keep)| == |s| <==> forall i :: 0 <= i < |s| ==> keep(s[i])
    ensures |Filter(s, keep)| == |s| ==> Filter(s, keep) == s
    decreases |s|
  {
    if s != [] {
      var d := DropLast(s);
      FilterKeepsAll(d, keep);
      assert forall i :: 0 <= i < |d| ==> d[i] == s[i];
      assert s == d + [Last(s)];
    }
  }

  /** A filter that keeps nothing of `s` yields the empty sequence. */
  lemma {:induction false} FilterKeepsNone<T>(s: seq<T>, keep: T -> bool)
    requires forall i :: 0 <= i < |s| ==> !keep(s[i])
    ensures Filter(s, keep) == []
    decreases |s|
  {
    if s != [] {
      FilterKeepsNone(DropLast(s), keep);
    }
  }

  /** Filtering twice is filtering once by the conjunction (stated pointwise, for any `both` that is it). */
  lemma {:induction false} FilterCompose<T>(s: seq<T>, first: T -> bool, second: T -> bool, both: T -> bool)
    requires forall x :: both(x) == (first(x) && second(x))
    ensures Filter(Filter(s, first), second) == Filter(s, both)
    decreases |s|
  {
    if s != [] {
      FilterCompose(DropLast(s), first, second, both);
      var x := Last(s);
      FilterAppend(Filter(DropLast(s), first), if first(x) then [x] else [], second);
      if first(x) {
        assert Filter([x], second) == (if second(x) then [x] else []) by {
          assert DropLast([x]) == [];
        }
      }
    }
  }

  /** Index of the first element of `s` satisfying `keep`, or |s| when there is none. */
  function FirstIndex<T>(s: seq<T>, keep: T -> bool): (r: nat)
    ensures r <= |s|
    ensures forall i :: 0 <= i < r ==> !keep(s[i])
    ensures r < |s| ==> keep(s[r])
    decreases |s|
  {
    if s == [] then 0
    else if keep(s[0]) then 0
    else 1 + FirstIndex(s[1..], keep)
  }

  /** The head of a filtered sequence is the first element that the filter keeps. */
  lemma {:induction false} FilterHead<T>(s: seq<T>, keep: T -> bool)
    ensures Filter(s, keep) == [] <==> FirstIndex(s, keep) == |s|
    ensures Filter(s, keep) != [] ==> Filter(s, keep)[0] == s[FirstIndex(s, keep)]
    decreases |s|
  {
    if s != [] {
      FilterHead(s[1..], keep);
      assert s == [s[0]] + s[1..];
      FilterAppend([s[0]], s[1..], keep);
      assert Filter([s[0]], keep) == (if keep(s[0]) then [s[0]] else []) by {
        assert DropLast([s[0]]) == [];
      }
    }
  }

  /** The first kept position is the one before which nothing is kept and at which (unless it is the end)
      something is. */
  lemma FirstIndexAt<T>(s: seq<T>, keep: T -> bool, i: nat)
    requires i <= |s|
    requires forall j :: 0 <= j < i ==> !keep(s[j])
    requires i < |s| ==> keep(s[i])
    ensures FirstIndex(s, keep) == i
  {
  }
}
