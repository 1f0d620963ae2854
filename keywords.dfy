/** backend/analyzer/keywords.py: `KeywordExtractor`, which turns comment texts into words
    (with the janome morphological analyzer when it is available, with a regex-and-split
    fallback otherwise), filters them and counts the survivors. */
module Keywords {
  import opened Wrappers
  import opened Seqs
  import opened Text
  import opened Counting

  /** A janome token: its surface form and its part-of-speech string, whose fields are
      separated by commas ("名詞,一般,*,*"). */
  datatype Morpheme = Morpheme(surface: string, partOfSpeech: string)

  /** `tokenizer.tokenize(text, wakati=False)` iterated to the end: the tokens, or None
      when the analysis raised. */
  type Tokenize = string -> Option<seq<Morpheme>>

  /** How the import of janome and the call `Tokenizer()` turned out at construction. */
  datatype TokenizerProbe = NotInstalled | InitFailed | Available(tokenize: Tokenize)

  /** `self.exclude_pos`: particles, auxiliary verbs, symbols, auxiliary symbols, fillers. */
  const ExcludePos: set<string> := {"助詞", "助動詞", "記号", "補助記号", "フィラー"}

  /** `self.stopwords`. */
  const Stopwords: set<string> := {
    "の", "は", "が", "を", "に", "で", "と", "から", "まで", "より",
    "て", "だ", "である", "です", "ます", "する", "した", "される",
    "これ", "それ", "あれ", "この", "その", "あの", "ここ", "そこ", "あそこ",
    "こと", "もの", "ため", "とき", "時", "人", "方", "さん", "やつ",
    "やっぱり", "やはり", "でも", "しかし", "ただ", "ちょっと", "すごく",
    "とても", "かなり", "なんか", "なんて", "みたい", "ような", "という",
    "w", "ww", "www", "笑", "lol", "lmao"
  }

  /** The top-level category of a part-of-speech string: `pos.split(',')[0]`. */
  function PosHead(pos: string): (h: string)
    ensures |h| <= |pos| && pos[..|h|] == h
    ensures forall i :: 0 <= i < |h| ==> h[i] != ','
    ensures |h| == |pos| || pos[|h|] == ','
  {
    if pos == [] || pos[0] == ',' then [] else [pos[0]] + PosHead(pos[1..])
  }

  // ---------------------------------------------------------------------------------------
  // The meaningful-word test

  /** The class `[!-/:-@\\[-`{-~\s　]`: ASCII punctuation, whitespace, the ideographic space. */
  predicate IsSymbolOrSpace(c: char)
  {
    IsAsciiPunct(c) || IsSpace(c) || c == '\U{3000}'
  }

  /** `set(word)`. */
  function CharSet(w: string): set<char>
  {
    set i | 0 <= i < |w| :: w[i]
  }

  /** `_is_meaningful_word(word)`. */
  predicate IsMeaningful(w: string)
  {
    if Contains(w, "http") || Contains(w, "@") || Contains(w, ".com") then false
    else if |w| > 0 && (forall i :: 0 <= i < |w| ==> IsSymbolOrSpace(w[i])) then false
    else if |CharSet(w)| == 1 && |w| > 2 then false
    else true
  }

  /** The tests that both extraction paths apply: at least two code points, not a stopword,
      meaningful. */
  predicate PassesCommon(w: string)
  {
    |w| >= 2 && w !in Stopwords && IsMeaningful(w)
  }

  /** One distinct character means: one character, repeated. */
  lemma CharSetSingleton(w: string)
    ensures |CharSet(w)| == 1 <==> |w| > 0 && forall i :: 0 <= i < |w| ==> w[i] == w[0]
  {
    if |w| > 0 && forall i :: 0 <= i < |w| ==> w[i] == w[0] {
      assert CharSet(w) == {w[0]};
    }
    if w == [] {
      assert CharSet(w) == {};
    }
    if |CharSet(w)| == 1 {
      assert w[0] in CharSet(w);
      var rest := CharSet(w) - {w[0]};
      assert |rest| == 0;
      assert rest == {};
      assert CharSet(w) == {w[0]};
      forall i | 0 <= i < |w| ensures w[i] == w[0] {
        assert w[i] in CharSet(w);
      }
    }
  }

  /** The meaningful-word test, stated without the helpers: a word is rejected exactly when
      it contains "http", "@" or ".com", or is made only of symbols and whitespace, or is one
      character repeated more than twice. */
  lemma IsMeaningfulIff(w: string)
    ensures IsMeaningful(w) <==>
      && !(exists i :: OccursAt(w, "http", i))
      && !(exists i :: OccursAt(w, "@", i))
      && !(exists i :: OccursAt(w, ".com", i))
      && !(|w| > 0 && forall i :: 0 <= i < |w| ==> IsSymbolOrSpace(w[i]))
      && !(|w| > 2 && forall i :: 0 <= i < |w| ==> w[i] == w[0])
  {
    ContainsIff(w, "http");
    ContainsIff(w, "@");
    ContainsIff(w, ".com");
    CharSetSingleton(w);
  }

  /** A laughter-style run and a URL are dropped even when they are frequent. */
  lemma RejectedExamples()
    ensures !IsMeaningful("wwwww")
    ensures !IsMeaningful("笑笑笑")
    ensures !IsMeaningful("http://x.com")
  {
    CharSetSingleton("wwwww");
    CharSetSingleton("笑笑笑");
    assert StartsWith("http://x.com", "http");
  }

  lemma SymbolsRejected()
    ensures !IsMeaningful("!?　")
  {
  }

  lemma MeaningfulExample()
    ensures IsMeaningful("面白い")
  {
    ContainsIff("面白い", "@");
    CharSetSingleton("面白い");
    assert "面白い"[1] != "面白い"[0];
  }

  // ---------------------------------------------------------------------------------------
  // The janome path

  /** The per-token test of lines 89-93. */
  predicate KeepMorpheme(m: Morpheme)
  {
    && |m.surface| >= 2
    && PosHead(m.partOfSpeech) !in ExcludePos
    && m.surface !in Stopwords
    && !IsDigitString(m.surface)
    && IsMeaningful(m.surface)
  }

  function Surfaces(ms: seq<Morpheme>): (ws: seq<string>)
    ensures |ws| == |ms| && forall i :: 0 <= i < |ms| ==> ws[i] == ms[i].surface
  {
    if ms == [] then [] else Surfaces(ms[..|ms| - 1]) + [ms[|ms| - 1].surface]
  }

  /** The words that `_extract_with_janome` collects from a token list. */
  function JanomeWords(ms: seq<Morpheme>): seq<string>
  {
    Surfaces(Filter(ms, KeepMorpheme))
  }

  /** Every word from the janome path passes the common tests, is not all digits, and comes
      from a token whose part of speech is not excluded; every such token contributes. */
  lemma JanomeWordsSpec(ms: seq<Morpheme>)
    ensures forall w :: w in JanomeWords(ms) ==> PassesCommon(w) && !IsDigitString(w)
    ensures forall w :: w in JanomeWords(ms) <==>
      exists i :: 0 <= i < |ms| && ms[i].surface == w && KeepMorpheme(ms[i])
  {
    var kept := Filter(ms, KeepMorpheme);
    FilterSpec(ms, KeepMorpheme);
    forall w | w in JanomeWords(ms)
      ensures PassesCommon(w) && !IsDigitString(w)
      ensures exists i :: 0 <= i < |ms| && ms[i].surface == w && KeepMorpheme(ms[i])
    {
      var k :| 0 <= k < |kept| && kept[k].surface == w;
      assert kept[k] in ms;
      var i :| 0 <= i < |ms| && ms[i] == kept[k];
    }
    forall i | 0 <= i < |ms| && KeepMorpheme(ms[i]) ensures ms[i].surface in JanomeWords(ms) {
      assert ms[i] in kept;
      var k :| 0 <= k < |kept| && kept[k] == ms[i];
      assert JanomeWords(ms)[k] == ms[i].surface;
    }
  }

  /** The janome words of a token list split anywhere are the words of the two parts. */
  lemma JanomeWordsAppend(a: seq<Morpheme>, b: seq<Morpheme>)
    ensures JanomeWords(a + b) == JanomeWords(a) + JanomeWords(b)
  {
    FilterAppend(a, b, KeepMorpheme);
    SurfacesAppend(Filter(a, KeepMorpheme), Filter(b, KeepMorpheme));
  }

  lemma SurfacesAppend(a: seq<Morpheme>, b: seq<Morpheme>)
    ensures Surfaces(a + b) == Surfaces(a) + Surfaces(b)
  {
  }

  // ---------------------------------------------------------------------------------------
  // The simple path

  /** Lines 106-108: punctuation to spaces, digit runs deleted, whitespace runs collapsed. */
  function CleanText(text: string): string
  {
    CollapseSpaces(DeleteDigits(BlankPunct(text)))
  }

  /** Line 111: the stripped, non-empty pieces of `split()`. */
  function Candidates(text: string): seq<string>
  {
    StripAll(SplitWords(CleanText(text)))
  }

  /** What `_extract_simple(text)` returns. */
  function SimpleWords(text: string): seq<string>
  {
    Filter(Candidates(text), PassesCommon)
  }

  /** A character the simple path lets through: not whitespace, not ASCII punctuation, not
      an ASCII digit. */
  predicate IsKeptChar(c: char)
  {
    !IsSpace(c) && !IsAsciiPunct(c) && !IsAsciiDigit(c)
  }

  predicate IsNotDigitWordChar(c: char)
  {
    IsNotAsciiDigit(c) && IsWordChar(c)
  }

  lemma {:induction false} FilterDigitsThenSpaces(s: string)
    ensures Filter(Filter(s, IsNotAsciiDigit), IsWordChar) == Filter(s, IsNotDigitWordChar)
    decreases |s|
  {
    if s != [] {
      var init := s[..|s| - 1];
      var c := s[|s| - 1];
      FilterDigitsThenSpaces(init);
      var f := Filter(init, IsNotAsciiDigit);
      if IsNotAsciiDigit(c) {
        assert Filter(s, IsNotAsciiDigit) == f + [c];
        assert (f + [c])[..|f|] == f;
        assert Filter(f + [c], IsWordChar) == Filter(f, IsWordChar) + (if IsWordChar(c) then [c] else []);
      } else {
        assert Filter(s, IsNotAsciiDigit) == f;
      }
    }
  }

  lemma {:induction false} FilterBlankPunct(s: string)
    ensures Filter(BlankPunct(s), IsNotDigitWordChar) == Filter(s, IsKeptChar)
    decreases |s|
  {
    if s != [] {
      var init := s[..|s| - 1];
      FilterBlankPunct(init);
      var b := BlankPunct(s);
      assert b[..|b| - 1] == BlankPunct(init);
    }
  }

  /** The candidates of the simple path, run together, are exactly the characters of the
      text that are neither whitespace, ASCII punctuation nor ASCII digits, in order. */
  lemma CandidatesChars(text: string)
    ensures Candidates(text) == SplitWords(CleanText(text))
    ensures Flatten(Candidates(text)) == Filter(text, IsKeptChar)
  {
    var d := DeleteDigits(BlankPunct(text));
    StripAllOfWords(SplitWords(CleanText(text)));
    FlattenSplitWords(CleanText(text));
    FilterCollapse(d);
    FilterDigitsThenSpaces(BlankPunct(text));
    FilterBlankPunct(text);
  }

  lemma {:induction false} FlattenMember(ss: seq<string>, k: nat, i: nat)
    requires k < |ss| && i < |ss[k]|
    ensures ss[k][i] in Flatten(ss)
    decreases |ss|
  {
    var init := ss[..|ss| - 1];
    if k < |ss| - 1 {
      FlattenMember(init, k, i);
    } else {
      assert Flatten(ss) == Flatten(init) + ss[k];
      assert Flatten(ss)[|Flatten(init)| + i] == ss[k][i];
    }
  }

  /** The simple path: every word passes the common tests and holds no whitespace, no ASCII
      punctuation and no ASCII digit (other digits stay), and the words appear in the order
      of the text. */
  lemma SimpleWordsSpec(text: string)
    ensures forall w :: w in SimpleWords(text) ==> PassesCommon(w)
    ensures forall k, i :: 0 <= k < |SimpleWords(text)| && 0 <= i < |SimpleWords(text)[k]| ==>
      IsKeptChar(SimpleWords(text)[k][i])
    ensures IsSubsequence(Flatten(SimpleWords(text)), text)
  {
    FilterSpec(Candidates(text), PassesCommon);
    SimpleWordsChars(text);
    SimpleWordsOrder(text);
  }

  lemma SimpleWordsChars(text: string)
    ensures forall k, i :: 0 <= k < |SimpleWords(text)| && 0 <= i < |SimpleWords(text)[k]| ==>
      IsKeptChar(SimpleWords(text)[k][i])
  {
    var ws := SimpleWords(text);
    FilterSpec(Candidates(text), PassesCommon);
    forall k, i | 0 <= k < |ws| && 0 <= i < |ws[k]| ensures IsKeptChar(ws[k][i]) {
      CandidateChar(text, ws[k], i);
    }
  }

  lemma CandidateChar(text: string, w: string, i: nat)
    requires w in Candidates(text) && i < |w|
    ensures IsKeptChar(w[i])
  {
    var cands := Candidates(text);
    var k :| 0 <= k < |cands| && cands[k] == w;
    FlattenMember(cands, k, i);
    CandidatesChars(text);
    FilterKeeps(text, IsKeptChar, w[i]);
  }

  lemma SimpleWordsOrder(text: string)
    ensures IsSubsequence(Flatten(SimpleWords(text)), text)
  {
    var cands := Candidates(text);
    CandidatesChars(text);
    FlattenFilterIsSubsequence(cands, PassesCommon);
    FilterIsSubsequence(text, IsKeptChar);
    SubsequenceTrans(Flatten(SimpleWords(text)), Flatten(cands), text);
  }

  // ---------------------------------------------------------------------------------------
  // The extractor

  class KeywordExtractor {
    /** `self.tokenizer`: the janome tokenizer, or None when it is not available. The
        exclusion and stopword sets are the same in every instance: `ExcludePos`, `Stopwords`. */
    const tokenizer: Option<Tokenize>

    /** `__init__`: a missing library and a failing constructor both leave no tokenizer, for
        the lifetime of the object. */
    constructor (probe: TokenizerProbe)
      ensures tokenizer == if probe.Available? then Some(probe.tokenize) else None
    {
      match probe
      case NotInstalled => tokenizer := None;
      case InitFailed => tokenizer := None;
      case Available(tokenize) => tokenizer := Some(tokenize);
    }

    /** What `_extract_with_janome(text)` returns. Without a tokenizer the attribute access
        raises, which the same `except` turns into the simple path. */
    function JanomeOrSimple(text: string): seq<string>
    {
      match (if tokenizer.Some? then tokenizer.value(text) else None)
      case Some(ms) => JanomeWords(ms)
      case None => SimpleWords(text)
    }

    /** What `_extract_words_from_text(text)` returns. */
    function WordsFromText(text: string): (ws: seq<string>)
      ensures forall w :: w in ws ==> PassesCommon(w)
    {
      SimpleWordsSpec(text);
      if tokenizer.Some? then
        var tokens := tokenizer.value(text);
        if tokens.Some? then JanomeWordsSpec(tokens.value); JanomeOrSimple(text)
        else JanomeOrSimple(text)
      else SimpleWords(text)
    }

    /** `all_words` after the loop over the texts. */
    function AllWords(texts: seq<string>): (all: seq<string>)
      ensures forall w :: w in all ==> PassesCommon(w)
    {
      if texts == [] then []
      else
        var init := AllWords(texts[..|texts| - 1]);
        var last := WordsFromText(texts[|texts| - 1]);
        assert forall w :: w in init + last ==> w in init || w in last;
        init + last
    }

    /** The result of `extract_keywords(texts, n)`. */
    function TopKeywords(texts: seq<string>, n: int): seq<(string, nat)>
    {
      MostCommon(CounterOf(AllWords(texts)), n)
    }

    /** The result of `get_word_frequency(texts)`. */
    function Frequency(texts: seq<string>): map<string, nat>
    {
      CounterOf(AllWords(texts)).counts
    }

    /** `_extract_simple(text)`. */
    method ExtractSimple(text: string) returns (filtered: seq<string>)
      ensures filtered == SimpleWords(text)
    {
      var t := BlankPunct(text);
      t := DeleteDigits(t);
      t := CollapseSpaces(t);
      var words := StripAll(SplitWords(t));
      filtered := KeepCommon(words);
    }

    /** The filtering loop of `_extract_simple` (lines 114-119). */
    method KeepCommon(words: seq<string>) returns (filtered: seq<string>)
      ensures filtered == Filter(words, PassesCommon)
    {
      filtered := [];
      for i := 0 to |words|
        invariant filtered == Filter(words[..i], PassesCommon)
      {
        var word := words[i];
        assert words[..i + 1][..i] == words[..i];
        if |word| >= 2 && word !in Stopwords && IsMeaningful(word) {
          filtered := filtered + [word];
        }
      }
      assert words[..|words|] == words;
    }

    /** `_extract_with_janome(text)`. */
    method ExtractWithJanome(text: string) returns (words: seq<string>)
      ensures words == JanomeOrSimple(text)
    {
      var tokens := if tokenizer.Some? then tokenizer.value(text) else None;
      if tokens.None? {
        words := ExtractSimple(text);
        return;
      }
      var ms := tokens.value;
      words := [];
      for i := 0 to |ms|
        invariant words == JanomeWords(ms[..i])
      {
        var pos := PosHead(ms[i].partOfSpeech);
        var word := ms[i].surface;
        assert ms[..i + 1][..i] == ms[..i];
        if |word| >= 2 && pos !in ExcludePos && word !in Stopwords && !IsDigitString(word) && IsMeaningful(word) {
          words := words + [word];
        }
      }
      assert ms[..|ms|] == ms;
    }

    /** `_extract_words_from_text(text)`. */
    method ExtractWordsFromText(text: string) returns (words: seq<string>)
      ensures words == WordsFromText(text)
    {
      if tokenizer.Some? {
        words := ExtractWithJanome(text);
      } else {
        words := ExtractSimple(text);
      }
    }

    /** The loop shared by `extract_keywords` and `get_word_frequency`. */
    method CollectWords(texts: seq<string>) returns (all: seq<string>)
      ensures all == AllWords(texts)
    {
      all := [];
      for i := 0 to |texts|
        invariant all == AllWords(texts[..i])
      {
        var words := ExtractWordsFromText(texts[i]);
        assert texts[..i + 1][..i] == texts[..i];
        all := all + words;
      }
      assert texts[..|texts|] == texts;
    }

    /** `extract_keywords(texts, top_n)`: at most `top_n` pairs, each a surviving word with
        the number of times it was extracted, largest counts first; nothing for no texts. */
    method ExtractKeywords(texts: seq<string>, topN: int) returns (top: seq<(string, nat)>)
      ensures top == TopKeywords(texts, topN)
      ensures |top| <= if topN < 0 then 0 else topN
      ensures forall i :: 0 <= i < |top| ==>
        && top[i].1 == multiset(AllWords(texts))[top[i].0]
        && top[i].1 >= 1
        && PassesCommon(top[i].0)
      ensures forall i, j :: 0 <= i < j < |top| ==> top[i].1 >= top[j].1
      ensures texts == [] ==> top == []
    {
      var all := CollectWords(texts);
      var counter := CountWords(all);
      top := MostCommon(counter, topN);
      MostCommonLength(counter, topN);
      MostCommonItems(counter, topN);
      MostCommonOrdered(counter, topN);
      forall i | 0 <= i < |top| ensures PassesCommon(top[i].0) {
        assert top[i].0 in Distinct(all);
      }
    }

    /** `get_word_frequency(texts)`: every extracted word with its number of occurrences;
        the counts, summed over the keys, give the number of extracted words. */
    method GetWordFrequency(texts: seq<string>) returns (freq: map<string, nat>)
      ensures freq == Frequency(texts)
      ensures forall w :: w in freq <==> w in AllWords(texts)
      ensures forall w :: w in freq ==> freq[w] == multiset(AllWords(texts))[w]
      ensures Counter(Distinct(AllWords(texts)), freq).Total() == |AllWords(texts)|
    {
      var all := CollectWords(texts);
      var counter := CountWords(all);
      freq := counter.counts;
      CounterTotal(all);
    }
  }

  // ---------------------------------------------------------------------------------------
  // Properties across calls

  /** Every pair of `extract_keywords` agrees with `get_word_frequency` on the same texts. */
  lemma TopAgreesWithFrequency(e: KeywordExtractor, texts: seq<string>, n: int)
    ensures var top := e.TopKeywords(texts, n); var freq := e.Frequency(texts);
      forall i :: 0 <= i < |top| ==> top[i].0 in freq && freq[top[i].0] == top[i].1
  {
    var c := CounterOf(e.AllWords(texts));
    MostCommonItems(c, n);
  }

  /** The pairs that `extract_keywords` leaves out never have a larger count than one it
      keeps, and ties are kept in the order in which the words were first extracted. */
  lemma TopKeywordsAreTop(e: KeywordExtractor, texts: seq<string>, n: int, k: nat)
    ensures var all := e.AllWords(texts); var top := e.TopKeywords(texts, n);
      && (forall w, i :: w in all && w !in Words(top) && 0 <= i < |top| ==>
            multiset(all)[w] <= top[i].1)
      && IsPrefix(OfCount(CounterOf(all), Words(top), k), OfCount(CounterOf(all), Distinct(all), k))
  {
    var c := CounterOf(e.AllWords(texts));
    MostCommonIsTop(c, n);
    MostCommonTies(c, n, k);
  }

  /** Without a tokenizer every text goes through the simple path. */
  lemma DegradedExtractorIsSimple(e: KeywordExtractor, text: string)
    requires e.tokenizer.None?
    ensures e.WordsFromText(text) == SimpleWords(text)
  {
  }
}
