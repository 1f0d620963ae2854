/** backend/analyzer/sentiment.py: `SentimentAnalyzer`, which labels a comment positive,
    neutral or negative (with the oseti polarity analyzer when it is available, with a fixed
    keyword list otherwise) and tallies the labels of a batch. */
module Sentiment {
  import opened Wrappers
  import opened Seqs
  import opened Text

  /** The three labels `'positive'`, `'neutral'` and `'negative'`. */
  datatype Label = Positive | Neutral | Negative

  /** The dictionary key of a label. */
  function Name(l: Label): string
  {
    match l
    case Positive => "positive"
    case Neutral => "neutral"
    case Negative => "negative"
  }

  /** Distinct labels have distinct keys, so the three buckets of line 67 never collide. */
  lemma NameInjective(a: Label, b: Label)
    ensures Name(a) == Name(b) <==> a == b
  {
    if a != b {
      assert Name(a)[2] != Name(b)[2];
    }
  }

  /** `analyzer.analyze(text)`: one polarity score per sentence, or None when it raised. */
  type Analyze = string -> Option<seq<real>>

  /** How the import of oseti and the call `oseti.Analyzer()` turned out at construction. */
  datatype AnalyzerProbe = NotInstalled | InitFailed | Available(analyze: Analyze)

  /** `positive_words` of `_simple_sentiment_analysis`. */
  const PositiveWords: seq<string> := [
    "素晴らしい", "最高", "面白い", "いいね", "良い", "よい", "よかった",
    "ありがとう", "感動", "楽しい", "嬉しい", "すごい", "かっこいい",
    "きれい", "美しい", "感謝", "好き", "愛", "幸せ", "喜び"
  ]

  /** `negative_words` of `_simple_sentiment_analysis`. */
  const NegativeWords: seq<string> := [
    "つまらない", "嫌い", "ひどい", "最悪", "悪い", "だめ", "ダメ",
    "残念", "微妙", "納得いかない", "腹立つ", "怒", "悲しい",
    "失望", "がっかり", "不満", "問題", "困る"
  ]

  /** `sum(1 for word in words if word in text)`. */
  function CountPresent(words: seq<string>, text: string): (n: nat)
    ensures n <= |words|
  {
    if words == [] then 0
    else CountPresent(words[..|words| - 1], text) + (if Contains(text, words[|words| - 1]) then 1 else 0)
  }

  /** The entries of `words` that occur in `text`, in list order. */
  function Present(words: seq<string>, text: string): (p: seq<string>)
    ensures forall w :: w in p <==> w in words && Contains(text, w)
  {
    var occurs := w => Contains(text, w);
    FilterSpec(words, occurs);
    Filter(words, occurs)
  }

  /** A keyword count is the number of list entries that occur in the text: an entry
      counts once however often it occurs. */
  lemma {:induction false} CountPresentIsEntries(words: seq<string>, text: string)
    ensures CountPresent(words, text) == |Present(words, text)|
    decreases |words|
  {
    if words != [] {
      CountPresentIsEntries(words[..|words| - 1], text);
    }
  }

  /** Occurrence only matters, not where or how often: texts that contain the same entries
      give the same count. */
  lemma {:induction false} CountPresentOnlyOccurrence(words: seq<string>, a: string, b: string)
    requires forall k :: 0 <= k < |words| ==> (Contains(a, words[k]) <==> Contains(b, words[k]))
    ensures CountPresent(words, a) == CountPresent(words, b)
    decreases |words|
  {
    if words != [] {
      CountPresentOnlyOccurrence(words[..|words| - 1], a, b);
    }
  }

  /** Text added at either end never lowers a count. */
  lemma {:induction false} CountPresentExtend(words: seq<string>, pre: string, text: string, post: string)
    ensures CountPresent(words, text) <= CountPresent(words, pre + text + post)
    decreases |words|
  {
    if words != [] {
      CountPresentExtend(words[..|words| - 1], pre, text, post);
      var w := words[|words| - 1];
      if Contains(text, w) {
        ContainsIff(text, w);
        var i :| OccursAt(text, w, i);
        var t := pre + text + post;
        assert t[|pre| + i..|pre| + i + |w|] == text[i..i + |w|];
        assert OccursAt(t, w, |pre| + i);
        ContainsIff(t, w);
      }
    }
  }

  lemma {:induction false} CountPresentNone(words: seq<string>, text: string)
    requires forall w :: w in words ==> !Contains(text, w)
    ensures CountPresent(words, text) == 0
    decreases |words|
  {
    if words != [] {
      assert words[|words| - 1] in words;
      CountPresentNone(words[..|words| - 1], text);
    }
  }

  lemma {:induction false} CountPresentSome(words: seq<string>, text: string, w: string)
    requires w in words && Contains(text, w)
    ensures CountPresent(words, text) >= 1
    decreases |words|
  {
    var init := words[..|words| - 1];
    if words[|words| - 1] != w {
      assert w in init by {
        var k :| 0 <= k < |words| && words[k] == w;
        assert k < |words| - 1 && init[k] == w;
      }
      CountPresentSome(init, text, w);
    }
  }

  /** Lines 105-110: the larger count wins; equal counts, zero against zero included, are
      neutral. */
  function CompareCounts(pc: nat, nc: nat): (l: Label)
    ensures l == Positive <==> pc > nc
    ensures l == Negative <==> nc > pc
    ensures l == Neutral <==> pc == nc
  {
    if pc > nc then Positive else if nc > pc then Negative else Neutral
  }

  /** Exchanging the two counts exchanges positive and negative. */
  function Mirror(l: Label): Label
  {
    match l
    case Positive => Negative
    case Neutral => Neutral
    case Negative => Positive
  }

  lemma CompareCountsMirror(pc: nat, nc: nat)
    ensures CompareCounts(nc, pc) == Mirror(CompareCounts(pc, nc))
  {
  }

  /** `_simple_sentiment_analysis(text)`. */
  function SimpleSentiment(text: string): Label
  {
    CompareCounts(CountPresent(PositiveWords, text), CountPresent(NegativeWords, text))
  }

  /** The keyword counts are bounded by the list lengths. */
  lemma SimpleCountsBounded(text: string)
    ensures 0 <= CountPresent(PositiveWords, text) <= 20
    ensures 0 <= CountPresent(NegativeWords, text) <= 18
  {
  }

  /** No entry of `words` occurs in `t` when every entry starts with a character that `t`
      does not contain. */
  lemma NoneStartWith(words: seq<string>, t: string)
    requires forall w :: w in words ==> w != [] && w[0] !in t
    ensures CountPresent(words, t) == 0
  {
    forall w | w in words ensures !Contains(t, w) {
      NoFirstChar(t, w);
    }
    CountPresentNone(words, t);
  }

  /** The cases of lines 102-110 on four comments; the last shows that a keyword counts only
      as a whole: "面白い" does not occur in "面白くない". */
  lemma SimpleExamplePositive()
    ensures SimpleSentiment("素晴らしい") == Positive
  {
    var t := "素晴らしい";
    WonderfulNoNegative("素晴らしい");
    assert StartsWith(t, "素晴らしい");
    CountPresentSome(PositiveWords, t, "素晴らしい");
  }

  lemma SimpleExampleNegative()
    ensures SimpleSentiment("最悪") == Negative
  {
    var t := "最悪";
    WorstNoPositive("最悪");
    assert StartsWith(t, "最悪");
    CountPresentSome(NegativeWords, t, "最悪");
  }

  lemma SimpleExampleNeutral()
    ensures SimpleSentiment("普通のコメントです") == Neutral
  {
    OrdinaryNoPositive("普通のコメントです");
    OrdinaryNoNegative("普通のコメントです");
  }

  lemma SimpleExampleNegated()
    ensures SimpleSentiment("面白くない") == Neutral
  {
    NegatedNoPositive("面白くない");
    NegatedNoNegative("面白くない");
  }

  lemma OrdinaryNoPositive(t: string)
    requires t == "普通のコメントです"
    ensures CountPresent(PositiveWords, t) == 0
  {
    forall w | w in PositiveWords ensures !Contains(t, w) {
      if w == "すごい" {
        OrdinaryNoSugoi(t);
      } else {
        NoFirstChar(t, w);
      }
    }
    CountPresentNone(PositiveWords, t);
  }

  /** "す" occurs in "です", but "すごい" does not. */
  lemma OrdinaryNoSugoi(t: string)
    requires t == "普通のコメントです"
    ensures !Contains(t, "すごい")
  {
    ContainsSearch("普通のコメントです", "すごい");
  }

  lemma OrdinaryNoNegative(t: string)
    requires t == "普通のコメントです"
    ensures CountPresent(NegativeWords, t) == 0
  {
    NoneStartWith(NegativeWords, t);
  }

  lemma NegatedNoPositive(t: string)
    requires t == "面白くない"
    ensures CountPresent(PositiveWords, t) == 0
  {
    NegatedAbsent(t);
    ContainsSearch("面白くない", "面白い");
    ContainsSearch("面白くない", "いいね");
    CountPresentNone(PositiveWords, t);
  }

  lemma NegatedAbsent(t: string)
    requires t == "面白くない"
    ensures forall w :: w in PositiveWords && w != "面白い" && w != "いいね" ==> !Contains(t, w)
  {
    forall w | w in PositiveWords && w != "面白い" && w != "いいね" ensures !Contains(t, w) {
      NoFirstChar(t, w);
    }
  }

  lemma NegatedNoNegative(t: string)
    requires t == "面白くない"
    ensures CountPresent(NegativeWords, t) == 0
  {
    NoneStartWith(NegativeWords, t);
  }

  lemma BoringNoPositive(t: string)
    requires t == "つまらない"
    ensures CountPresent(PositiveWords, t) == 0
  {
    BoringAbsent(t);
    ContainsSearch("つまらない", "いいね");
    CountPresentNone(PositiveWords, t);
  }

  lemma BoringAbsent(t: string)
    requires t == "つまらない"
    ensures forall w :: w in PositiveWords && w != "いいね" ==> !Contains(t, w)
  {
    forall w | w in PositiveWords && w != "いいね" ensures !Contains(t, w) {
      NoFirstChar(t, w);
    }
  }

  lemma WorstNoPositive(t: string)
    requires t == "最悪"
    ensures CountPresent(PositiveWords, t) == 0
  {
    forall w | w in PositiveWords && w != "最高" ensures !Contains(t, w) {
      NoFirstChar(t, w);
    }
    ContainsSearch("最悪", "最高");
    CountPresentNone(PositiveWords, t);
  }

  lemma BestNoNegative(t: string)
    requires t == "最高でした"
    ensures CountPresent(NegativeWords, t) == 0
  {
    BestAbsent(t);
    ContainsSearch("最高でした", "最悪");
    CountPresentNone(NegativeWords, t);
  }

  lemma BestAbsent(t: string)
    requires t == "最高でした"
    ensures forall w :: w in NegativeWords && w != "最悪" ==> !Contains(t, w)
  {
    forall w | w in NegativeWords && w != "最悪" ensures !Contains(t, w) {
      NoFirstChar(t, w);
    }
  }

  lemma WonderfulNoNegative(t: string)
    requires t == "素晴らしい"
    ensures CountPresent(NegativeWords, t) == 0
  {
    NoneStartWith(NegativeWords, t);
  }

  /** `sum(scores)`, over the reals. */
  function Sum(scores: seq<real>): real
  {
    if scores == [] then 0.0 else Sum(scores[..|scores| - 1]) + scores[|scores| - 1]
  }

  /** Lines 44-49: the label of a total polarity score. */
  function Classify(total: real): (l: Label)
    ensures l == Positive <==> total > 0.1
    ensures l == Negative <==> total < -0.1
    ensures l == Neutral <==> -0.1 <= total <= 0.1
  {
    if total > 0.1 then Positive else if total < -0.1 then Negative else Neutral
  }

  function Rank(l: Label): int
  {
    match l
    case Negative => -1
    case Neutral => 0
    case Positive => 1
  }

  /** A larger score never gets a lower label, and the thresholds are symmetric. */
  lemma ClassifyMonotoneAndSymmetric(x: real, y: real)
    ensures x <= y ==> Rank(Classify(x)) <= Rank(Classify(y))
    ensures Classify(-x) == Mirror(Classify(x))
  {
  }

  /** How the label of a text is decided. */
  lemma ScoreExamples()
    ensures Classify(Sum([])) == Neutral
    ensures Classify(Sum([0.5, -0.3])) == Positive
    ensures Classify(Sum([0.05, 0.05])) == Neutral
    ensures Classify(Sum([-0.2])) == Negative
  {
  }

  class SentimentAnalyzer {
    /** `self.analyzer`: the oseti analyzer, or None when it is not available. */
    const analyzer: Option<Analyze>

    /** `__init__`: a missing library and a failing constructor both leave no analyzer, for
        the lifetime of the object. */
    constructor (probe: AnalyzerProbe)
      ensures analyzer == if probe.Available? then Some(probe.analyze) else None
    {
      match probe
      case NotInstalled => analyzer := None;
      case InitFailed => analyzer := None;
      case Available(analyze) => analyzer := Some(analyze);
    }

    /** `analyze_text(text)`. */
    function AnalyzeText(text: string): Label
    {
      match analyzer
      case None => SimpleSentiment(text)
      case Some(analyze) =>
        match analyze(text)
        case Some(scores) => Classify(Sum(scores))
        case None => SimpleSentiment(text)
    }

    /** The label of every text, in order. */
    function Labels(texts: seq<string>): (ls: seq<Label>)
      ensures |ls| == |texts| && forall i :: 0 <= i < |texts| ==> ls[i] == AnalyzeText(texts[i])
    {
      if texts == [] then [] else Labels(texts[..|texts| - 1]) + [AnalyzeText(texts[|texts| - 1])]
    }

    /** `sentiment_counts` after the loop of `analyze_batch` over `texts`. */
    function TallyOf(texts: seq<string>): (t: map<Label, nat>)
      ensures t.Keys == {Positive, Neutral, Negative}
    {
      if texts == [] then map[Positive := 0, Neutral := 0, Negative := 0]
      else
        var t := TallyOf(texts[..|texts| - 1]);
        var l := AnalyzeText(texts[|texts| - 1]);
        t[l := t[l] + 1]
    }

    /** `analyze_batch(texts)`. */
    method AnalyzeBatch(texts: seq<string>) returns (counts: map<Label, nat>)
      ensures counts == TallyOf(texts)
      ensures counts.Keys == {Positive, Neutral, Negative}
      ensures forall l :: l in counts ==> counts[l] == multiset(Labels(texts))[l]
      ensures counts[Positive] + counts[Neutral] + counts[Negative] == |texts|
      ensures texts == [] ==> counts == map[Positive := 0, Neutral := 0, Negative := 0]
    {
      counts := map[Positive := 0, Neutral := 0, Negative := 0];
      for i := 0 to |texts|
        invariant counts == TallyOf(texts[..i])
      {
        var sentiment := AnalyzeText(texts[i]);
        assert texts[..i + 1][..i] == texts[..i];
        counts := counts[sentiment := counts[sentiment] + 1];
      }
      assert texts[..|texts|] == texts;
      TallyCounts(this, texts);
    }
  }

  /** Each bucket holds the number of texts with that label, and the buckets together hold
      every text once. */
  lemma {:induction false} TallyCounts(a: SentimentAnalyzer, texts: seq<string>)
    ensures forall l :: l in a.TallyOf(texts) ==> a.TallyOf(texts)[l] == multiset(a.Labels(texts))[l]
    ensures a.TallyOf(texts)[Positive] + a.TallyOf(texts)[Neutral] + a.TallyOf(texts)[Negative] == |texts|
    decreases |texts|
  {
    if texts != [] {
      var init := texts[..|texts| - 1];
      TallyCounts(a, init);
      assert a.Labels(texts) == a.Labels(init) + [a.AnalyzeText(texts[|texts| - 1])];
    }
  }

  /** Without an analyzer, and on a call where the analyzer raises, the keyword classifier
      decides. */
  lemma FallbackIsSimple(a: SentimentAnalyzer, text: string)
    requires a.analyzer.None? || a.analyzer.value(text).None?
    ensures a.AnalyzeText(text) == SimpleSentiment(text)
  {
  }

  lemma BestIsPositive()
    ensures SimpleSentiment("最高でした") == Positive
  {
    BestNoNegative("最高でした");
    assert StartsWith("最高でした", "最高");
    CountPresentSome(PositiveWords, "最高でした", "最高");
  }

  lemma BoringIsNegative()
    ensures SimpleSentiment("つまらない") == Negative
  {
    BoringNoPositive("つまらない");
    assert StartsWith("つまらない", "つまらない");
    CountPresentSome(NegativeWords, "つまらない", "つまらない");
  }

  lemma TallyTwoToOne(a: SentimentAnalyzer, good: string, bad: string)
    requires a.AnalyzeText(good) == Positive && a.AnalyzeText(bad) == Negative
    ensures a.TallyOf([good, bad, good]) == map[Positive := 2, Neutral := 0, Negative := 1]
  {
    var texts := [good, bad, good];
    assert texts[..2] == [good, bad] && [good, bad][..1] == [good] && [good][..0] == [];
    var t0 := a.TallyOf([]);
    var t1 := a.TallyOf([good]);
    assert t1 == t0[Positive := t0[Positive] + 1];
    assert t1 == map[Positive := 1, Neutral := 0, Negative := 0];
    var t2 := a.TallyOf([good, bad]);
    assert t2 == t1[Negative := 1];
    assert a.TallyOf(texts) == t2[Positive := 2];
  }

  /** A batch of three comments classified by keywords: two positive, one negative. */
  lemma DegradedBatchExample(a: SentimentAnalyzer)
    requires a.analyzer.None?
    ensures a.TallyOf(["最高でした", "つまらない", "最高でした"]) ==
      map[Positive := 2, Neutral := 0, Negative := 1]
  {
    BestIsPositive();
    BoringIsNegative();
    TallyTwoToOne(a, "最高でした", "つまらない");
  }
}
