/** Python's `collections.Counter` as the core uses it: counting a list of words, and
    `most_common(n)`. A Counter is a dict, so it remembers the order in which its keys were
    first inserted; `most_common` sorts its items by count, descending, with a stable sort,
    so equal counts stay in insertion order. */
module Counting {
  import opened Seqs

  /** The distinct elements of `s` in order of first occurrence: the key order of a dict
      filled from `s` left to right. */
  function Distinct(s: seq<string>): (d: seq<string>)
    ensures NoDuplicates(d)
    ensures forall x :: x in d <==> x in s
  {
    if s == [] then []
    else
      var d := Distinct(s[..|s| - 1]);
      var x := s[|s| - 1];
      assert forall y :: y in s <==> y in s[..|s| - 1] || y == x by {
        assert s == s[..|s| - 1] + [x];
      }
      if x in d then d else d + [x]
  }

  /** The counts of a Counter: its keys in insertion order and the count stored for each. */
  datatype Counter = Counter(keys: seq<string>, counts: map<string, nat>)
  {
    /** `counter[w]`; a Counter answers 0 for a missing key. */
    function Get(w: string): nat
    {
      if w in counts then counts[w] else 0
    }

    /** What counting a list always produces: distinct keys, exactly the keys of the map,
        and no zero count. */
    ghost predicate Valid()
    {
      && NoDuplicates(keys)
      && (forall w :: w in counts <==> w in keys)
      && (forall w :: w in counts ==> counts[w] >= 1)
    }

    /** The sum of all the counts. */
    function Total(): nat
    {
      SumCounts(keys)
    }

    function SumCounts(ks: seq<string>): nat
    {
      if ks == [] then 0 else SumCounts(ks[..|ks| - 1]) + Get(ks[|ks| - 1])
    }
  }

  /** The Counter that counting `words` produces. */
  function CounterOf(words: seq<string>): (c: Counter)
    ensures c.Valid()
    ensures c.keys == Distinct(words)
    ensures forall w :: c.Get(w) == multiset(words)[w]
  {
    Counter(Distinct(words), map w | w in words :: multiset(words)[w])
  }

  /** `Counter(words)`: one pass over the list, adding a key the first time a word is seen
      and incrementing its count every time. */
  method CountWords(words: seq<string>) returns (c: Counter)
    ensures c == CounterOf(words)
    ensures forall w :: w in c.counts <==> w in words
    ensures forall w :: c.Get(w) == multiset(words)[w]
  {
    var keys: seq<string> := [];
    var counts: map<string, nat> := map[];
    for i := 0 to |words|
      invariant Counter(keys, counts) == CounterOf(words[..i])
    {
      var w := words[i];
      CounterOfNext(words, i);
      if w in counts {
        counts := counts[w := counts[w] + 1];
      } else {
        keys := keys + [w];
        counts := counts[w := 1];
      }
    }
    assert words[..|words|] == words;
    c := Counter(keys, counts);
  }

  /** Counting one more word: a new key at the end, or one more for a key already there. */
  lemma CounterOfSnoc(ws: seq<string>, w: string)
    ensures CounterOf(ws + [w]) ==
      var c := CounterOf(ws);
      if w in c.counts then Counter(c.keys, c.counts[w := c.counts[w] + 1])
      else Counter(c.keys + [w], c.counts[w := 1])
  {
    var s := ws + [w];
    var c, d := CounterOf(ws), CounterOf(s);
    assert s[..|s| - 1] == ws;
    assert d.keys == if w in c.counts then c.keys else c.keys + [w];
    var m := c.counts[w := if w in c.counts then c.counts[w] + 1 else 1];
    CountsSnoc(ws, w);
    MapsEqual(d.counts, m);
  }

  lemma CounterOfNext(words: seq<string>, i: nat)
    requires i < |words|
    ensures CounterOf(words[..i + 1]) ==
      var c, w := CounterOf(words[..i]), words[i];
      if w in c.counts then Counter(c.keys, c.counts[w := c.counts[w] + 1])
      else Counter(c.keys + [w], c.counts[w := 1])
  {
    assert words[..i + 1] == words[..i] + [words[i]];
    CounterOfSnoc(words[..i], words[i]);
  }

  lemma CountsSnoc(ws: seq<string>, w: string)
    ensures var c, d := CounterOf(ws), CounterOf(ws + [w]);
      && (forall y :: y in d.counts <==> y in c.counts || y == w)
      && d.Get(w) == c.Get(w) + 1
      && (forall y :: y != w ==> d.Get(y) == c.Get(y))
  {
    var s := ws + [w];
    assert multiset(s) == multiset(ws) + multiset{w};
    assert forall y :: y in s <==> y in ws || y == w;
  }

  lemma MapsEqual(a: map<string, nat>, b: map<string, nat>)
    requires forall y :: y in a <==> y in b
    requires forall y :: y in a ==> a[y] == b[y]
    ensures a == b
  {
  }

  // ---------------------------------------------------------------------------------------
  // most_common: a stable sort by count, descending, then the first n items

  /** Insert `x` before the first element whose count is not larger than its own. */
  function Insert(c: Counter, x: string, s: seq<string>): (r: seq<string>)
    ensures multiset(r) == multiset(s) + multiset{x}
    ensures |r| == |s| + 1
    ensures r[0] == x || (s != [] && r[0] == s[0])
  {
    if s == [] then [x]
    else if c.Get(x) >= c.Get(s[0]) then [x] + s
    else
      var t := Insert(c, x, s[1..]);
      assert s == [s[0]] + s[1..];
      [s[0]] + t
  }

  /** Insertion sort by count, descending; every element is inserted ahead of the equal
      counts that follow it in the input, which makes the sort stable. */
  function SortByCount(c: Counter, ks: seq<string>): (r: seq<string>)
    ensures multiset(r) == multiset(ks)
    ensures |r| == |ks|
  {
    if ks == [] then []
    else
      assert ks == [ks[0]] + ks[1..];
      Insert(c, ks[0], SortByCount(c, ks[1..]))
  }

  /** `counter.most_common(n)`: the `n` items with the largest counts, largest first; for
      `n <= 0` nothing. */
  function MostCommon(c: Counter, n: int): seq<(string, nat)>
  {
    var top := Take(SortByCount(c, c.keys), if n < 0 then 0 else n);
    seq(|top|, i requires 0 <= i < |top| => (top[i], c.Get(top[i])))
  }

  /** The words of a list of `(word, count)` pairs. */
  function Words(r: seq<(string, nat)>): (ws: seq<string>)
    ensures |ws| == |r| && forall i :: 0 <= i < |r| ==> ws[i] == r[i].0
  {
    seq(|r|, i requires 0 <= i < |r| => r[i].0)
  }

  /** Counts never grow from left to right. */
  ghost predicate NonIncreasing(c: Counter, s: seq<string>)
  {
    forall i, j :: 0 <= i < j < |s| ==> c.Get(s[i]) >= c.Get(s[j])
  }

  /** The elements of `s` whose count is `k`, in order. */
  function OfCount(c: Counter, s: seq<string>, k: nat): seq<string>
  {
    if s == [] then [] else (if c.Get(s[0]) == k then [s[0]] else []) + OfCount(c, s[1..], k)
  }

  predicate IsPrefix(a: seq<string>, b: seq<string>)
  {
    |a| <= |b| && b[..|a|] == a
  }

  lemma {:induction false} InsertNonIncreasing(c: Counter, x: string, s: seq<string>)
    requires NonIncreasing(c, s)
    ensures NonIncreasing(c, Insert(c, x, s))
    decreases |s|
  {
    if s != [] && c.Get(x) < c.Get(s[0]) {
      var t := Insert(c, x, s[1..]);
      assert NonIncreasing(c, s[1..]) by {
        forall i, j | 0 <= i < j < |s[1..]| ensures c.Get(s[1..][i]) >= c.Get(s[1..][j]) {
          assert s[1..][i] == s[i + 1] && s[1..][j] == s[j + 1];
        }
      }
      InsertNonIncreasing(c, x, s[1..]);
      var r := [s[0]] + t;
      forall i, j | 0 <= i < j < |r| ensures c.Get(r[i]) >= c.Get(r[j]) {
        if i == 0 {
          assert r[j] == t[j - 1];
          assert c.Get(t[0]) <= c.Get(s[0]) by {
            if t[0] != x {
              assert t[0] == s[1];
            }
          }
          if j > 1 {
            assert c.Get(t[0]) >= c.Get(t[j - 1]);
          }
        } else {
          assert r[i] == t[i - 1] && r[j] == t[j - 1];
        }
      }
    }
  }

  lemma {:induction false} SortNonIncreasing(c: Counter, ks: seq<string>)
    ensures NonIncreasing(c, SortByCount(c, ks))
    decreases |ks|
  {
    if ks != [] {
      SortNonIncreasing(c, ks[1..]);
      InsertNonIncreasing(c, ks[0], SortByCount(c, ks[1..]));
    }
  }

  lemma {:induction false} OfCountAppend(c: Counter, a: seq<string>, b: seq<string>, k: nat)
    ensures OfCount(c, a + b, k) == OfCount(c, a, k) + OfCount(c, b, k)
    decreases |a|
  {
    if a == [] {
      assert a + b == b;
    } else {
      assert (a + b)[1..] == a[1..] + b;
      OfCountAppend(c, a[1..], b, k);
    }
  }

  /** Insertion puts `x` ahead of every element with its count. */
  lemma {:induction false} InsertOfCount(c: Counter, x: string, s: seq<string>, k: nat)
    ensures OfCount(c, Insert(c, x, s), k) == (if c.Get(x) == k then [x] else []) + OfCount(c, s, k)
    decreases |s|, 1
  {
    var hx := if c.Get(x) == k then [x] else [];
    if s == [] {
      assert OfCount(c, [x], k) == hx + OfCount(c, [], k);
    } else if c.Get(x) >= c.Get(s[0]) {
      assert ([x] + s)[1..] == s;
    } else {
      InsertOfCountLater(c, x, s, k);
    }
  }

  lemma {:induction false} InsertOfCountLater(c: Counter, x: string, s: seq<string>, k: nat)
    requires s != [] && c.Get(x) < c.Get(s[0])
    ensures OfCount(c, Insert(c, x, s), k) == (if c.Get(x) == k then [x] else []) + OfCount(c, s, k)
    decreases |s|, 0
  {
    var t := Insert(c, x, s[1..]);
    assert Insert(c, x, s) == [s[0]] + t;
    OfCountCons(c, s[0], t, k);
    OfCountCons(c, s[0], s[1..], k);
    assert [s[0]] + s[1..] == s;
    InsertOfCount(c, x, s[1..], k);
    SwapHeads(if c.Get(s[0]) == k then [s[0]] else [], if c.Get(x) == k then [x] else [],
      OfCount(c, s[1..], k));
  }

  lemma OfCountCons(c: Counter, y: string, s: seq<string>, k: nat)
    ensures OfCount(c, [y] + s, k) == (if c.Get(y) == k then [y] else []) + OfCount(c, s, k)
  {
    assert ([y] + s)[1..] == s;
  }

  lemma SwapHeads(a: seq<string>, b: seq<string>, r: seq<string>)
    requires a == [] || b == []
    ensures a + (b + r) == b + (a + r)
  {
    if a == [] {
      assert a + (b + r) == b + r;
    } else {
      assert b + (a + r) == a + r;
    }
  }

  /** The sort is stable: for every count, the elements with that count keep their order. */
  lemma {:induction false} SortOfCount(c: Counter, ks: seq<string>, k: nat)
    ensures OfCount(c, SortByCount(c, ks), k) == OfCount(c, ks, k)
    decreases |ks|
  {
    if ks != [] {
      SortOfCount(c, ks[1..], k);
      InsertOfCount(c, ks[0], SortByCount(c, ks[1..]), k);
    }
  }

  lemma OfCountPrefix(c: Counter, s: seq<string>, m: nat, k: nat)
    requires m <= |s|
    ensures IsPrefix(OfCount(c, s[..m], k), OfCount(c, s, k))
  {
    assert s == s[..m] + s[m..];
    OfCountAppend(c, s[..m], s[m..], k);
  }

  /** The words `most_common(n)` returns: the first `n` of the sorted keys. */
  lemma MostCommonWords(c: Counter, n: int)
    ensures Words(MostCommon(c, n)) == Take(SortByCount(c, c.keys), if n < 0 then 0 else n)
  {
  }

  /** At most `n` items, and all the keys when there are fewer. */
  lemma MostCommonLength(c: Counter, n: int)
    ensures |MostCommon(c, n)| == if n <= 0 then 0 else if n <= |c.keys| then n else |c.keys|
  {
  }

  /** Every item is a key paired with its own count, which is at least 1, and no key
      appears twice. */
  lemma MostCommonItems(c: Counter, n: int)
    requires c.Valid()
    ensures var r := MostCommon(c, n);
      && (forall i :: 0 <= i < |r| ==> r[i].0 in c.keys && r[i].1 == c.Get(r[i].0) && r[i].1 >= 1)
      && NoDuplicates(Words(r))
  {
    var sorted := SortByCount(c, c.keys);
    var r := MostCommon(c, n);
    MostCommonWords(c, n);
    forall i | 0 <= i < |r| ensures r[i].0 in c.keys {
      assert r[i].0 == sorted[i];
      assert sorted[i] in multiset(sorted);
    }
    DistinctPermutation(c.keys, sorted);
  }

  /** Largest counts first. */
  lemma MostCommonOrdered(c: Counter, n: int)
    ensures var r := MostCommon(c, n); forall i, j :: 0 <= i < j < |r| ==> r[i].1 >= r[j].1
  {
    var sorted := SortByCount(c, c.keys);
    SortNonIncreasing(c, c.keys);
    var r := MostCommon(c, n);
    forall i, j | 0 <= i < j < |r| ensures r[i].1 >= r[j].1 {
      assert r[i].0 == sorted[i] && r[j].0 == sorted[j];
    }
  }

  /** No key that is left out has a larger count than a key that is taken. */
  lemma MostCommonIsTop(c: Counter, n: int)
    ensures var r := MostCommon(c, n);
      forall w, i :: w in c.keys && w !in Words(r) && 0 <= i < |r| ==> c.Get(w) <= r[i].1
  {
    var sorted := SortByCount(c, c.keys);
    SortNonIncreasing(c, c.keys);
    var r := MostCommon(c, n);
    MostCommonWords(c, n);
    var top := Words(r);
    forall w, i | w in c.keys && w !in top && 0 <= i < |r| ensures c.Get(w) <= r[i].1 {
      assert w in multiset(sorted);
      var j :| 0 <= j < |sorted| && sorted[j] == w;
      assert forall t :: 0 <= t < |top| ==> top[t] == sorted[t];
      assert j >= |top|;
      assert r[i].0 == sorted[i];
    }
  }

  /** Ties stay in insertion order: for every count, the keys taken with that count are the
      first ones, in key order, of all the keys with that count. */
  lemma MostCommonTies(c: Counter, n: int, k: nat)
    ensures IsPrefix(OfCount(c, Words(MostCommon(c, n)), k), OfCount(c, c.keys, k))
  {
    var sorted := SortByCount(c, c.keys);
    var m := if n < 0 then 0 else n;
    MostCommonWords(c, n);
    SortOfCount(c, c.keys, k);
    if m <= |sorted| {
      OfCountPrefix(c, sorted, m, k);
    } else {
      assert Take(sorted, m) == sorted;
    }
  }

  /** A permutation of a list without duplicates has none either. */
  lemma DistinctPermutation(a: seq<string>, b: seq<string>)
    requires NoDuplicates(a) && multiset(a) == multiset(b)
    ensures NoDuplicates(b)
  {
    forall i, j | 0 <= i < j < |b| ensures b[i] != b[j] {
      if b[i] == b[j] {
        assert multiset(b)[b[i]] >= 2 by {
          assert b == b[..i] + [b[i]] + b[i + 1..j] + [b[j]] + b[j + 1..];
        }
        DistinctCount(a, b[i]);
      }
    }
  }

  lemma {:induction false} DistinctCount(a: seq<string>, x: string)
    requires NoDuplicates(a)
    ensures multiset(a)[x] <= 1
    decreases |a|
  {
    if a != [] {
      var init := a[..|a| - 1];
      assert a == init + [a[|a| - 1]];
      DistinctCount(init, x);
      if x == a[|a| - 1] {
        assert x !in init;
      }
    }
  }

  // ---------------------------------------------------------------------------------------
  // Counting: every word is counted once

  function SumMultiplicities(ks: seq<string>, m: multiset<string>): nat
  {
    if ks == [] then 0 else SumMultiplicities(ks[..|ks| - 1], m) + m[ks[|ks| - 1]]
  }

  lemma {:induction false} SumMultiplicitiesAdd(ks: seq<string>, m: multiset<string>, x: string)
    requires NoDuplicates(ks)
    ensures SumMultiplicities(ks, m + multiset{x}) == SumMultiplicities(ks, m) + (if x in ks then 1 else 0)
    decreases |ks|
  {
    if ks != [] {
      var init := ks[..|ks| - 1];
      assert ks == init + [ks[|ks| - 1]];
      SumMultiplicitiesAdd(init, m, x);
    }
  }

  lemma {:induction false} SumMultiplicitiesDistinct(words: seq<string>)
    ensures SumMultiplicities(Distinct(words), multiset(words)) == |words|
    decreases |words|
  {
    if words != [] {
      var init := words[..|words| - 1];
      var x := words[|words| - 1];
      assert words == init + [x];
      SumMultiplicitiesDistinct(init);
      SumMultiplicitiesAdd(Distinct(init), multiset(init), x);
      if x !in Distinct(init) {
        assert Distinct(words) == Distinct(init) + [x];
        assert multiset(init)[x] == 0;
      }
    }
  }

  lemma {:induction false} SumCountsIsMultiplicities(c: Counter, ks: seq<string>, m: multiset<string>)
    requires forall w :: c.Get(w) == m[w]
    ensures c.SumCounts(ks) == SumMultiplicities(ks, m)
    decreases |ks|
  {
    if ks != [] {
      SumCountsIsMultiplicities(c, ks[..|ks| - 1], m);
    }
  }

  /** The counts of `Counter(words)` add up to the number of words. */
  lemma CounterTotal(words: seq<string>)
    ensures CounterOf(words).Total() == |words|
  {
    var c := CounterOf(words);
    SumCountsIsMultiplicities(c, c.keys, multiset(words));
    SumMultiplicitiesDistinct(words);
  }
}
