/** Generic sequence helpers: list comprehensions with a condition, concatenation of
    lists of lists, and the subsequence relation. */
module Seqs {

  /** The elements of `s` that satisfy `p`, in order: `[x for x in s if p(x)]`. */
  function Filter<T>(s: seq<T>, p: T -> bool): (r: seq<T>)
    ensures |r| <= |s|
  {
    if s == [] then [] else Filter(s[..|s| - 1], p) + (if p(s[|s| - 1]) then [s[|s| - 1]] else [])
  }

  /** What `Filter` keeps: only elements of `s` that satisfy `p`, and every one of them. */
  lemma {:induction false} FilterSpec<T>(s: seq<T>, p: T -> bool)
    ensures forall i :: 0 <= i < |Filter(s, p)| ==> Filter(s, p)[i] in s && p(Filter(s, p)[i])
    ensures forall i :: 0 <= i < |s| && p(s[i]) ==> s[i] in Filter(s, p)
    decreases |s|
  {
    if s != [] {
      var init := s[..|s| - 1];
      FilterSpec(init, p);
      assert s == init + [s[|s| - 1]];
      forall i | 0 <= i < |s| && p(s[i]) ensures s[i] in Filter(s, p) {
        if i < |s| - 1 {
          assert s[i] == init[i];
        }
      }
    }
  }

  lemma FilterKeeps<T>(s: seq<T>, p: T -> bool, x: T)
    requires x in Filter(s, p)
    ensures p(x)
  {
    FilterSpec(s, p);
  }

  lemma {:induction false} FilterAppend<T>(a: seq<T>, b: seq<T>, p: T -> bool)
    ensures Filter(a + b, p) == Filter(a, p) + Filter(b, p)
    decreases |b|
  {
    if b == [] {
      assert a + b == a;
    } else {
      var init := b[..|b| - 1];
      assert a + b == (a + init) + [b[|b| - 1]];
      assert (a + b)[..|a + b| - 1] == a + init;
      FilterAppend(a, init, p);
    }
  }

  /** The concatenation of a list of lists (`extend` of every element in turn). */
  function Flatten<T>(ss: seq<seq<T>>): seq<T>
  {
    if ss == [] then [] else Flatten(ss[..|ss| - 1]) + ss[|ss| - 1]
  }

  lemma {:induction false} FlattenAppend<T>(a: seq<seq<T>>, b: seq<seq<T>>)
    ensures Flatten(a + b) == Flatten(a) + Flatten(b)
    decreases |b|
  {
    if b == [] {
      assert a + b == a;
    } else {
      var init := b[..|b| - 1];
      assert (a + b)[..|a + b| - 1] == a + init;
      FlattenAppend(a, init);
    }
  }

  /** `a` can be obtained from `b` by deleting elements. */
  predicate IsSubsequence<T(==)>(a: seq<T>, b: seq<T>)
    decreases |b|
  {
    if a == [] then true
    else if b == [] then false
    else if a[|a| - 1] == b[|b| - 1] then IsSubsequence(a[..|a| - 1], b[..|b| - 1])
    else IsSubsequence(a, b[..|b| - 1])
  }

  lemma {:induction false} SubsequenceRefl<T>(a: seq<T>)
    ensures IsSubsequence(a, a)
    decreases |a|
  {
    if a != [] {
      SubsequenceRefl(a[..|a| - 1]);
    }
  }

  /** One more element at the end of the longer sequence keeps the relation. */
  lemma {:induction false} SubsequenceSnoc<T>(a: seq<T>, b: seq<T>, c: T)
    requires IsSubsequence(a, b)
    ensures IsSubsequence(a, b + [c])
    decreases |a| + |b|, 1
  {
    var b' := b + [c];
    assert b'[..|b'| - 1] == b;
    if a != [] && a[|a| - 1] == c {
      SubsequenceDropLast(a, b);
    }
  }

  lemma {:induction false} SubsequenceDropLast<T>(a: seq<T>, b: seq<T>)
    requires a != [] && IsSubsequence(a, b)
    ensures IsSubsequence(a[..|a| - 1], b)
    decreases |a| + |b|, 0
  {
    var a' := a[..|a| - 1];
    var b' := b[..|b| - 1];
    assert b' + [b[|b| - 1]] == b;
    if a[|a| - 1] == b[|b| - 1] {
      SubsequenceSnoc(a', b', b[|b| - 1]);
    } else {
      SubsequenceDropLast(a, b');
      SubsequenceSnoc(a', b', b[|b| - 1]);
    }
  }

  lemma {:induction false} SubsequenceExtendRight<T>(a: seq<T>, b: seq<T>, x: seq<T>)
    requires IsSubsequence(a, b)
    ensures IsSubsequence(a, b + x)
    decreases |x|
  {
    if x == [] {
      assert b + x == b;
    } else {
      var init := x[..|x| - 1];
      SubsequenceExtendRight(a, b, init);
      SubsequenceSnoc(a, b + init, x[|x| - 1]);
      assert (b + init) + [x[|x| - 1]] == b + x;
    }
  }

  lemma {:induction false} SubsequenceAppend<T>(a: seq<T>, b: seq<T>, x: seq<T>)
    requires IsSubsequence(a, b)
    ensures IsSubsequence(a + x, b + x)
    decreases |x|
  {
    if x != [] {
      var init := x[..|x| - 1];
      SubsequenceAppend(a, b, init);
      assert (a + x)[..|a + x| - 1] == a + init;
      assert (b + x)[..|b + x| - 1] == b + init;
    } else {
      assert a + x == a && b + x == b;
    }
  }

  lemma {:induction false} SubsequenceTrans<T>(a: seq<T>, b: seq<T>, c: seq<T>)
    requires IsSubsequence(a, b) && IsSubsequence(b, c)
    ensures IsSubsequence(a, c)
    decreases |c|
  {
    if a == [] {
    } else if b[|b| - 1] == c[|c| - 1] {
      var c' := c[..|c| - 1];
      if a[|a| - 1] == b[|b| - 1] {
        SubsequenceTrans(a[..|a| - 1], b[..|b| - 1], c');
      } else {
        SubsequenceTrans(a, b[..|b| - 1], c');
      }
    } else {
      var c' := c[..|c| - 1];
      SubsequenceTrans(a, b, c');
      SubsequenceSnoc(a, c', c[|c| - 1]);
      assert c' + [c[|c| - 1]] == c;
    }
  }

  /** What the filter keeps stands in the order of the input. */
  lemma {:induction false} FilterIsSubsequence<T>(s: seq<T>, p: T -> bool)
    ensures IsSubsequence(Filter(s, p), s)
    decreases |s|
  {
    if s != [] {
      var init := s[..|s| - 1];
      var last := s[|s| - 1];
      assert init + [last] == s;
      FilterIsSubsequence(init, p);
      if p(last) {
        assert Filter(s, p) == Filter(init, p) + [last];
        SubsequenceAppend(Filter(init, p), init, [last]);
      } else {
        assert Filter(s, p) == Filter(init, p);
        SubsequenceSnoc(Filter(init, p), init, last);
      }
    }
  }

  /** Dropping whole lists keeps the characters of the kept ones in order. */
  lemma {:induction false} FlattenFilterIsSubsequence<T>(ss: seq<seq<T>>, p: seq<T> -> bool)
    ensures IsSubsequence(Flatten(Filter(ss, p)), Flatten(ss))
    decreases |ss|
  {
    if ss == [] {
    } else {
      var init := ss[..|ss| - 1];
      var last := ss[|ss| - 1];
      FlattenFilterIsSubsequence(init, p);
      if p(last) {
        FlattenAppend(Filter(init, p), [last]);
        assert Flatten([last]) == last by { assert [last][..0] == []; }
        SubsequenceAppend(Flatten(Filter(init, p)), Flatten(init), last);
      } else {
        assert Filter(ss, p) == Filter(init, p);
        SubsequenceExtendRight(Flatten(Filter(init, p)), Flatten(init), last);
      }
    }
  }

  /** No element occurs twice. */
  predicate NoDuplicates<T(==)>(s: seq<T>)
  {
    forall i, j :: 0 <= i < j < |s| ==> s[i] != s[j]
  }

  /** The first `n` elements, or all of them when there are fewer: Python's `s[:n]` for `n >= 0`. */
  function Take<T>(s: seq<T>, n: nat): (r: seq<T>)
    ensures |r| == if n <= |s| then n else |s|
    ensures forall i :: 0 <= i < |r| ==> r[i] == s[i]
  {
    if n <= |s| then s[..n] else s
  }
}
