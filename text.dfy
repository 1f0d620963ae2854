/** The parts of Python's `str` and `re` behaviour that the core relies on, on code points:
    `str.isspace`, `str.isdigit`, the `in` operator, `str.split()`, `str.strip()`, and the
    three `re.sub` calls of the simple tokenizer. */
module Text {
  import opened Seqs

  /** `str.isspace()` on one code point. The same table decides `\s` in `re`, and where
      `str.split()` and `str.strip()` cut. */
  predicate IsSpace(c: char)
  {
    || ('\t' <= c <= '\r')
    || ('\U{1C}' <= c <= '\U{1F}')
    || c == ' '
    || c == '\U{85}'
    || c == '\U{A0}'
    || c == '\U{1680}'
    || ('\U{2000}' <= c <= '\U{200A}')
    || c == '\U{2028}'
    || c == '\U{2029}'
    || c == '\U{202F}'
    || c == '\U{205F}'
    || c == '\U{3000}'
  }

  /** `w` holds no whitespace. */
  predicate NoSpace(w: string)
  {
    forall i :: 0 <= i < |w| ==> !IsSpace(w[i])
  }

  /** Not whitespace: the characters a word of `str.split()` is made of. */
  predicate IsWordChar(c: char)
  {
    !IsSpace(c)
  }

  /** The regex class `[!-/:-@\\[-`{-~]`: every printable ASCII character that is neither a
      letter nor a digit. */
  predicate IsAsciiPunct(c: char)
  {
    ('!' <= c <= '/') || (':' <= c <= '@') || ('[' <= c <= '`') || ('{' <= c <= '~')
  }

  /** The regex class `[0-9]`, which matches ASCII digits only. */
  predicate IsAsciiDigit(c: char)
  {
    '0' <= c <= '9'
  }

  predicate IsNotAsciiDigit(c: char)
  {
    !IsAsciiDigit(c)
  }

  /** `str.isdigit()` on one code point: the decimal digits of the common scripts, the
      full-width digits, superscript and subscript digits and the circled digits 1-9. */
  predicate IsDigitChar(c: char)
  {
    || IsAsciiDigit(c)
    || ('\U{660}' <= c <= '\U{669}')     // Arabic-Indic
    || ('\U{6F0}' <= c <= '\U{6F9}')     // extended Arabic-Indic
    || ('\U{966}' <= c <= '\U{96F}')     // Devanagari
    || ('\U{E50}' <= c <= '\U{E59}')     // Thai
    || ('\U{FF10}' <= c <= '\U{FF19}')   // full-width
    || c == '\U{B2}' || c == '\U{B3}' || c == '\U{B9}'
    || c == '\U{2070}' || ('\U{2074}' <= c <= '\U{2079}')
    || ('\U{2080}' <= c <= '\U{2089}')
    || ('\U{2460}' <= c <= '\U{2468}')   // circled 1-9
  }

  /** `w.isdigit()`: non-empty and made of digits only. */
  predicate IsDigitString(w: string)
  {
    |w| > 0 && forall i :: 0 <= i < |w| ==> IsDigitChar(w[i])
  }

  predicate StartsWith(s: string, p: string)
  {
    |p| <= |s| && s[..|p|] == p
  }

  /** `p` occurs in `s` at position `i`. */
  predicate OccursAt(s: string, p: string, i: int)
  {
    0 <= i <= |s| - |p| && s[i..i + |p|] == p
  }

  /** Python's `p in s` on strings: `p` occurs in `s` as a contiguous piece. */
  predicate Contains(s: string, p: string)
    decreases |s|
  {
    StartsWith(s, p) || (s != [] && Contains(s[1..], p))
  }

  /** `Contains` is substring occurrence at some position. */
  lemma {:induction false} ContainsIff(s: string, p: string)
    ensures Contains(s, p) <==> exists i :: OccursAt(s, p, i)
    decreases |s|
  {
    if s == [] {
      if p == [] {
        assert OccursAt(s, p, 0);
      }
      if exists i :: OccursAt(s, p, i) {
        var i :| OccursAt(s, p, i);
        assert p == [];
      }
    } else {
      ContainsIff(s[1..], p);
      if Contains(s[1..], p) {
        var i :| OccursAt(s[1..], p, i);
        assert s[1..][i..i + |p|] == s[i + 1..i + 1 + |p|];
        assert OccursAt(s, p, i + 1);
      }
      if StartsWith(s, p) {
        assert OccursAt(s, p, 0);
      }
      if exists i :: OccursAt(s, p, i) {
        var i :| OccursAt(s, p, i);
        if i > 0 {
          assert s[1..][i - 1..i - 1 + |p|] == s[i..i + |p|];
          assert OccursAt(s[1..], p, i - 1);
        } else {
          assert StartsWith(s, p);
        }
      }
    }
  }

  /** `p[j..]` matches `s` at position `i + j`, one character at a time; with `Search`, a
      restatement of `Contains` by positions, which the verifier can evaluate on constants. */
  predicate MatchAt(s: string, p: string, i: nat, j: nat)
    requires i + |p| <= |s| && j <= |p|
    decreases |p| - j
  {
    j == |p| || (s[i + j] == p[j] && MatchAt(s, p, i, j + 1))
  }

  /** `p` occurs in `s` at some position from `i` on. */
  predicate Search(s: string, p: string, i: nat)
    decreases |s| - i
  {
    i + |p| <= |s| && (MatchAt(s, p, i, 0) || Search(s, p, i + 1))
  }

  lemma {:induction false} MatchAtIff(s: string, p: string, i: nat, j: nat)
    requires i + |p| <= |s| && j <= |p|
    ensures MatchAt(s, p, i, j) <==> s[i + j..i + |p|] == p[j..]
    decreases |p| - j
  {
    if j < |p| {
      MatchAtIff(s, p, i, j + 1);
      assert s[i + j..i + |p|] == [s[i + j]] + s[i + j + 1..i + |p|];
      assert p[j..] == [p[j]] + p[j + 1..];
    }
  }

  lemma {:induction false} SearchIff(s: string, p: string, i: nat)
    ensures Search(s, p, i) <==> exists k :: i <= k && OccursAt(s, p, k)
    decreases |s| - i
  {
    if i + |p| <= |s| {
      MatchAtIff(s, p, i, 0);
      SearchIff(s, p, i + 1);
      if Search(s, p, i) {
        if MatchAt(s, p, i, 0) {
          assert OccursAt(s, p, i);
        }
      }
      if exists k :: i <= k && OccursAt(s, p, k) {
        var k :| i <= k && OccursAt(s, p, k);
        if k > i {
          assert i + 1 <= k && OccursAt(s, p, k);
        } else {
          assert MatchAt(s, p, i, 0);
        }
      }
    } else {
      assert forall k :: i <= k ==> !OccursAt(s, p, k);
    }
  }

  /** `Contains` and `Search` agree. */
  lemma ContainsSearch(s: string, p: string)
    ensures Contains(s, p) <==> Search(s, p, 0)
  {
    ContainsIff(s, p);
    SearchIff(s, p, 0);
  }

  /** A piece whose first character does not occur in `s` does not occur in `s`. */
  lemma NoFirstChar(s: string, p: string)
    requires p != [] && p[0] !in s
    ensures !Contains(s, p)
  {
    ContainsIff(s, p);
  }

  /** Leading whitespace removed. */
  function DropSpaces(s: string): (r: string)
    ensures |r| <= |s| && r == s[|s| - |r|..]
    ensures r == [] || !IsSpace(r[0])
    ensures AllSpace(s[..|s| - |r|])
    decreases |s|
  {
    if s != [] && IsSpace(s[0]) then
      var r := DropSpaces(s[1..]);
      assert s[..|s| - |r|] == [s[0]] + s[1..][..|s| - 1 - |r|];
      r
    else s
  }

  /** The longest prefix without whitespace. */
  function TakeWord(s: string): (w: string)
    ensures |w| <= |s| && w == s[..|w|]
    ensures NoSpace(w)
    ensures |w| == |s| || IsSpace(s[|w|])
    decreases |s|
  {
    if s != [] && !IsSpace(s[0]) then [s[0]] + TakeWord(s[1..]) else []
  }

  /** `s.split()`: the maximal runs of non-whitespace, left to right. */
  function SplitWords(s: string): (ws: seq<string>)
    ensures AllWords(ws)
    decreases |s|
  {
    var t := DropSpaces(s);
    if t == [] then []
    else
      var w := TakeWord(t);
      assert w != [] by { assert !IsSpace(t[0]); }
      var rest := SplitWords(t[|w|..]);
      PrependWord(w, rest);
      [w] + rest
  }

  /** There are only words in `s.split()`: non-empty runs of non-whitespace. */
  predicate AllWords(ws: seq<string>)
  {
    forall k :: 0 <= k < |ws| ==> ws[k] != [] && NoSpace(ws[k])
  }

  lemma PrependWord(w: string, ws: seq<string>)
    requires w != [] && NoSpace(w)
    requires AllWords(ws)
    ensures AllWords([w] + ws)
  {
    var vs := [w] + ws;
    forall k | 0 <= k < |vs| ensures vs[k] != [] && NoSpace(vs[k]) {
      if k > 0 {
        assert vs[k] == ws[k - 1];
      }
    }
  }

  /** `w.strip()`: leading and trailing whitespace removed. */
  function Strip(w: string): (r: string)
    decreases |w|
  {
    if w != [] && IsSpace(w[0]) then Strip(w[1..])
    else if w != [] && IsSpace(w[|w| - 1]) then Strip(w[..|w| - 1])
    else w
  }

  /** `[w.strip() for w in ws if w.strip()]`. */
  function StripAll(ws: seq<string>): seq<string>
  {
    if ws == [] then []
    else
      var w := Strip(ws[|ws| - 1]);
      StripAll(ws[..|ws| - 1]) + (if w != [] then [w] else [])
  }

  /** `re.sub(r'\s+', ' ', s)`: every maximal run of whitespace becomes one space. */
  function CollapseSpaces(s: string): string
    decreases |s|
  {
    if s == [] then []
    else if IsSpace(s[0]) then [' '] + CollapseSpaces(DropSpaces(s[1..]))
    else [s[0]] + CollapseSpaces(s[1..])
  }

  /** `re.sub(r'[!-/:-@\\[-`{-~]', ' ', s)`: every ASCII punctuation character becomes a space. */
  function BlankPunct(s: string): (r: string)
    ensures |r| == |s|
  {
    seq(|s|, i requires 0 <= i < |s| => if IsAsciiPunct(s[i]) then ' ' else s[i])
  }

  /** `re.sub(r'[0-9]+', '', s)`: deleting every run of ASCII digits deletes every ASCII digit. */
  function DeleteDigits(s: string): string
  {
    Filter(s, IsNotAsciiDigit)
  }

  // ---------------------------------------------------------------------------------------
  // Properties of split, strip and the substitutions

  /** `s` is whitespace only. */
  predicate AllSpace(s: string)
  {
    forall i :: 0 <= i < |s| ==> IsSpace(s[i])
  }

  lemma StripWord(w: string)
    requires w != [] && NoSpace(w)
    ensures Strip(w) == w
  {
  }

  /** The comprehension of line 111 changes nothing on the output of `split()`. */
  lemma {:induction false} StripAllOfWords(ws: seq<string>)
    requires AllWords(ws)
    ensures StripAll(ws) == ws
    decreases |ws|
  {
    if ws != [] {
      var init := ws[..|ws| - 1];
      assert forall k :: 0 <= k < |init| ==> init[k] == ws[k];
      StripAllOfWords(init);
      StripWord(ws[|ws| - 1]);
      assert init + [ws[|ws| - 1]] == ws;
    }
  }

  lemma {:induction false} FilterAllSpaces(s: string)
    requires AllSpace(s)
    ensures Filter(s, IsWordChar) == []
    decreases |s|
  {
    if s != [] {
      FilterAllSpaces(s[..|s| - 1]);
    }
  }

  lemma {:induction false} FilterNoSpaces(s: string)
    requires NoSpace(s)
    ensures Filter(s, IsWordChar) == s
    decreases |s|
  {
    if s != [] {
      FilterNoSpaces(s[..|s| - 1]);
      assert s[..|s| - 1] + [s[|s| - 1]] == s;
    }
  }

  lemma {:induction false} TakeWordOf(w: string, r: string)
    requires NoSpace(w)
    requires r == [] || IsSpace(r[0])
    ensures TakeWord(w + r) == w
    decreases |w|
  {
    if w != [] {
      assert (w + r)[0] == w[0];
      assert (w + r)[1..] == w[1..] + r;
      TakeWordOf(w[1..], r);
      assert [w[0]] + w[1..] == w;
    } else {
      assert w + r == r;
    }
  }

  /** A word followed by nothing or by whitespace is the first word of `split()`. */
  lemma SplitWordsLeadingWord(w: string, r: string)
    requires w != [] && NoSpace(w)
    requires r == [] || IsSpace(r[0])
    ensures SplitWords(w + r) == [w] + SplitWords(r)
  {
    assert (w + r)[0] == w[0];
    assert DropSpaces(w + r) == w + r;
    TakeWordOf(w, r);
    assert (w + r)[|w|..] == r;
  }

  lemma SplitWordsDropSpaces(s: string)
    ensures SplitWords(DropSpaces(s)) == SplitWords(s)
  {
    var t := DropSpaces(s);
    assert DropSpaces(t) == t;
  }

  /** Every space of a whitespace run is redundant for `split()`. */
  lemma SplitWordsLeadingSpace(c: char, s: string)
    requires IsSpace(c)
    ensures SplitWords([c] + s) == SplitWords(s)
  {
    assert ([c] + s)[1..] == s;
    assert DropSpaces([c] + s) == DropSpaces(s);
    SplitWordsDropSpaces([c] + s);
    SplitWordsDropSpaces(s);
  }

  lemma {:induction false} CollapseWord(w: string, r: string)
    requires NoSpace(w)
    ensures CollapseSpaces(w + r) == w + CollapseSpaces(r)
    decreases |w|
  {
    if w != [] {
      assert (w + r)[0] == w[0];
      assert (w + r)[1..] == w[1..] + r;
      CollapseWord(w[1..], r);
      assert [w[0]] + w[1..] == w;
    } else {
      assert w + r == r;
    }
  }

  lemma CollapseStartsWithSpace(s: string)
    requires s != [] && IsSpace(s[0])
    ensures CollapseSpaces(s) == [' '] + CollapseSpaces(DropSpaces(s[1..]))
  {
  }

  /** Line 108 does not change what `split()` returns (line 111). */
  lemma {:induction false} SplitWordsCollapse(s: string)
    ensures SplitWords(CollapseSpaces(s)) == SplitWords(s)
    decreases |s|
  {
    if s == [] {
    } else if IsSpace(s[0]) {
      SplitWordsCollapseSpace(s);
    } else {
      SplitWordsCollapseWord(s);
    }
  }

  lemma {:induction false} SplitWordsCollapseSpace(s: string)
    requires s != [] && IsSpace(s[0])
    ensures SplitWords(CollapseSpaces(s)) == SplitWords(s)
    decreases |s|, 0
  {
    var t := DropSpaces(s[1..]);
    calc {
      SplitWords(CollapseSpaces(s));
      { CollapseStartsWithSpace(s); }
      SplitWords([' '] + CollapseSpaces(t));
      { SplitWordsLeadingSpace(' ', CollapseSpaces(t)); }
      SplitWords(CollapseSpaces(t));
      { SplitWordsCollapse(t); }
      SplitWords(t);
      { SplitWordsDropSpaces(s[1..]); }
      SplitWords(s[1..]);
      { SplitWordsLeadingSpace(s[0], s[1..]); assert [s[0]] + s[1..] == s; }
      SplitWords(s);
    }
  }

  lemma {:induction false} SplitWordsCollapseWord(s: string)
    requires s != [] && !IsSpace(s[0])
    ensures SplitWords(CollapseSpaces(s)) == SplitWords(s)
    decreases |s|, 0
  {
    var w := TakeWord(s);
    var r := s[|w|..];
    assert s == w + r;
    CollapseWord(w, r);
    SplitWordsCollapse(r);
    SplitWordsLeadingWord(w, r);
    if r != [] {
      CollapseStartsWithSpace(r);
    }
    SplitWordsLeadingWord(w, CollapseSpaces(r));
  }

  /** The words of `split()`, run together, are the non-whitespace characters of `s`. */
  lemma {:induction false} FlattenSplitWords(s: string)
    ensures Flatten(SplitWords(s)) == Filter(s, IsWordChar)
    decreases |s|
  {
    var t := DropSpaces(s);
    FilterDropSpaces(s);
    SplitWordsDropSpaces(s);
    if t != [] {
      FlattenSplitWordsWord(t);
    }
  }

  /** Leading whitespace contributes nothing to the non-whitespace characters. */
  lemma {:induction false} FilterDropSpaces(s: string)
    ensures Filter(s, IsWordChar) == Filter(DropSpaces(s), IsWordChar)
    decreases |s|
  {
    if s != [] && IsSpace(s[0]) {
      var c, rest := [s[0]], s[1..];
      assert s == c + rest;
      FilterAppend(c, rest, IsWordChar);
      assert Filter(c, IsWordChar) == [] by { assert c[..0] == []; }
      FilterDropSpaces(rest);
    }
  }

  lemma {:induction false} FlattenSplitWordsWord(t: string)
    requires t != [] && !IsSpace(t[0])
    ensures Flatten(SplitWords(t)) == Filter(t, IsWordChar)
    decreases |t|, 0
  {
    var w := TakeWord(t);
    var r := t[|w|..];
    assert t == w + r;
    assert DropSpaces(t) == t;
    assert SplitWords(t) == [w] + SplitWords(r);
    FlattenSplitWords(r);
    FlattenAppend([w], SplitWords(r));
    assert Flatten([w]) == w by { assert [w][..0] == []; }
    FilterNoSpaces(w);
    FilterAppend(w, r, IsWordChar);
  }

  /** Collapsing whitespace keeps the non-whitespace characters as they are. */
  lemma {:induction false} FilterCollapse(s: string)
    ensures Filter(CollapseSpaces(s), IsWordChar) == Filter(s, IsWordChar)
    decreases |s|
  {
    if s == [] {
    } else if IsSpace(s[0]) {
      var t := DropSpaces(s[1..]);
      FilterDropSpaces(s);
      assert DropSpaces(s) == t;
      FilterCollapse(t);
      CollapseStartsWithSpace(s);
      FilterAppend([' '], CollapseSpaces(t), IsWordChar);
      assert Filter([' '], IsWordChar) == [] by { assert [' '][..0] == []; }
    } else {
      FilterCollapseWord(s);
    }
  }

  lemma {:induction false} FilterCollapseWord(s: string)
    requires s != [] && !IsSpace(s[0])
    ensures Filter(CollapseSpaces(s), IsWordChar) == Filter(s, IsWordChar)
    decreases |s|, 0
  {
    var head := [s[0]];
    var rest := s[1..];
    assert s == head + rest;
    assert CollapseSpaces(s) == head + CollapseSpaces(rest);
    FilterCollapse(rest);
    FilterAppend(head, rest, IsWordChar);
    FilterAppend(head, CollapseSpaces(rest), IsWordChar);
    FilterNoSpaces(head);
  }
}
