/** backend/main.py: `extract_video_id` and the body of the `POST /api/analyze` handler
    `analyze_comments`, with the comment fetch as a parameter. */
module Api {
  import opened Wrappers
  import opened Text
  import Counting
  import Keywords
  import Sentiment

  // ---------------------------------------------------------------------------------------
  // extract_video_id

  /** The class `[a-zA-Z0-9_-]`. */
  predicate IsIdChar(c: char)
  {
    ('a' <= c <= 'z') || ('A' <= c <= 'Z') || ('0' <= c <= '9') || c == '_' || c == '-'
  }

  /** The greedy `([a-zA-Z0-9_-]+)` group: the longest run of id characters at the start. */
  function IdRun(s: string): (r: string)
    ensures |r| <= |s| && r == s[..|r|]
    ensures forall i :: 0 <= i < |r| ==> IsIdChar(r[i])
    ensures |r| == |s| || !IsIdChar(s[|r|])
  {
    if s != [] && IsIdChar(s[0]) then [s[0]] + IdRun(s[1..]) else []
  }

  /** The literal parts of the three patterns, in the order they are tried. */
  const Markers: seq<string> := ["youtube.com/watch?v=", "youtu.be/", "youtube.com/embed/"]

  /** What `(?:https?:\/\/)?(?:www\.)?` can consume, in the order the regex engine tries
      it: both optional groups are greedy and `s?` prefers the `s`. */
  const Prefixes: seq<string> := ["https://www.", "https://", "http://www.", "http://", "www.", ""]

  /** Marker `m` occurs at `q` and an id character follows it. */
  predicate Good(s: string, m: string, q: int)
  {
    OccursAt(s, m, q) && q + |m| < |s| && IsIdChar(s[q + |m|])
  }

  /** The match attempt at start position `p`, backtracking over the alternatives `pres` for
      the optional groups in order: where the marker begins in the first alternative that
      lets the rest of the pattern match. */
  function TryPrefixes(s: string, m: string, p: nat, pres: seq<string>): (r: Option<nat>)
    ensures r.Some? ==> Good(s, m, r.value)
    decreases |pres|
  {
    if pres == [] then None
    else if OccursAt(s, pres[0], p) && Good(s, m, p + |pres[0]|) then Some(p + |pres[0]|)
    else TryPrefixes(s, m, p, pres[1..])
  }

  /** `re.search` of one pattern from start position `p` on: the captured group of the
      leftmost match. */
  function SearchPattern(s: string, m: string, pres: seq<string>, p: nat): Option<string>
    decreases |s| + 1 - p
  {
    if p > |s| then None
    else
      match TryPrefixes(s, m, p, pres)
      case Some(q) => Some(IdRun(s[q + |m|..]))
      case None => SearchPattern(s, m, pres, p + 1)
  }

  /** The first position from `p` on where marker `m` is followed by an id character. */
  function FirstGood(s: string, m: string, p: nat): (r: Option<nat>)
    ensures r.Some? ==> p <= r.value && Good(s, m, r.value)
    decreases |s| + 1 - p
  {
    if p > |s| then None
    else if Good(s, m, p) then Some(p)
    else FirstGood(s, m, p + 1)
  }

  /** The id a pattern yields by the simple reading: the id run after the first occurrence
      of its marker that an id character follows. */
  function IdAfterFirstMarker(s: string, m: string, p: nat): Option<string>
  {
    match FirstGood(s, m, p)
    case Some(q) => Some(IdRun(s[q + |m|..]))
    case None => None
  }

  /** `FirstGood` finds the first good position, and finds none only when there is none. */
  lemma {:induction false} FirstGoodSpec(s: string, m: string, p: nat)
    ensures FirstGood(s, m, p).Some? ==> forall q :: p <= q < FirstGood(s, m, p).value ==> !Good(s, m, q)
    ensures FirstGood(s, m, p).None? ==> forall q :: p <= q ==> !Good(s, m, q)
    decreases |s| + 1 - p
  {
    if p <= |s| && !Good(s, m, p) {
      FirstGoodSpec(s, m, p + 1);
    }
  }

  /** No alternative of the optional groups contains a 'y'. */
  predicate NoY(pres: seq<string>)
  {
    forall j, i :: 0 <= j < |pres| && 0 <= i < |pres[j]| ==> pres[j][i] != 'y'
  }

  lemma PrefixesFacts()
    ensures NoY(Prefixes) && Prefixes != [] && Prefixes[|Prefixes| - 1] == []
  {
    forall j, i | 0 <= j < |Prefixes| && 0 <= i < |Prefixes[j]| ensures Prefixes[j][i] != 'y' {
      assert Prefixes[j] in Prefixes;
    }
  }

  lemma MarkersStartWithY()
    ensures forall i :: 0 <= i < |Markers| ==> |Markers[i]| > 0 && Markers[i][0] == 'y'
  {
  }

  /** A match attempt that succeeds puts the marker at an occurrence of a prefix. */
  lemma {:induction false} TryPrefixesSome(s: string, m: string, p: nat, pres: seq<string>)
    requires TryPrefixes(s, m, p, pres).Some?
    ensures exists j :: 0 <= j < |pres| && TryPrefixes(s, m, p, pres).value == p + |pres[j]| && OccursAt(s, pres[j], p)
    decreases |pres|
  {
    if !(OccursAt(s, pres[0], p) && Good(s, m, p + |pres[0]|)) {
      TryPrefixesSome(s, m, p, pres[1..]);
      var j :| 0 <= j < |pres| - 1 && TryPrefixes(s, m, p, pres[1..]).value == p + |pres[1..][j]| && OccursAt(s, pres[1..][j], p);
      assert pres[1..][j] == pres[j + 1];
    } else {
      assert 0 < |pres|;
    }
  }

  /** A match attempt that fails everywhere tried the empty alternative last. */
  lemma {:induction false} TryPrefixesNone(s: string, m: string, p: nat, pres: seq<string>)
    requires pres != [] && pres[|pres| - 1] == [] && p <= |s|
    requires TryPrefixes(s, m, p, pres).None?
    ensures !Good(s, m, p)
    decreases |pres|
  {
    if |pres| > 1 {
      assert pres[1..][|pres[1..]| - 1] == [];
      TryPrefixesNone(s, m, p, pres[1..]);
    } else {
      assert OccursAt(s, pres[0], p);
    }
  }

  /** The attempt at `p` succeeds exactly at the first good position from `p` on, when no
      alternative contains a 'y' and the marker starts with one. */
  lemma MatchIsFirstGood(s: string, m: string, p: nat, pres: seq<string>)
    requires |m| > 0 && m[0] == 'y' && p <= |s|
    requires NoY(pres) && pres != [] && pres[|pres| - 1] == []
    ensures TryPrefixes(s, m, p, pres).Some? ==> FirstGood(s, m, p) == TryPrefixes(s, m, p, pres)
    ensures TryPrefixes(s, m, p, pres).None? ==> !Good(s, m, p)
  {
    var r := TryPrefixes(s, m, p, pres);
    if r.Some? {
      TryPrefixesSome(s, m, p, pres);
      var j :| 0 <= j < |pres| && r.value == p + |pres[j]| && OccursAt(s, pres[j], p);
      GoodAfterPrefix(s, m, p, pres[j]);
    } else {
      TryPrefixesNone(s, m, p, pres);
    }
  }

  /** A marker found right after a prefix without 'y' is the first good one from `p` on. */
  lemma GoodAfterPrefix(s: string, m: string, p: nat, pre: string)
    requires |m| > 0 && m[0] == 'y'
    requires OccursAt(s, pre, p) && Good(s, m, p + |pre|)
    requires forall i :: 0 <= i < |pre| ==> pre[i] != 'y'
    ensures FirstGood(s, m, p) == Some(p + |pre|)
  {
    forall q | p <= q < p + |pre| ensures !Good(s, m, q) {
      assert s[q] == s[p..p + |pre|][q - p] == pre[q - p];
    }
    FirstGoodSpec(s, m, p);
  }

  /** The backtracking search of a pattern finds what the simple reading finds: no prefix
      contains a 'y' and every marker starts with one, so a match that consumes a prefix
      never skips an earlier marker. */
  lemma {:induction false} SearchPatternIsFirstGood(s: string, m: string, pres: seq<string>, p: nat)
    requires |m| > 0 && m[0] == 'y'
    requires NoY(pres) && pres != [] && pres[|pres| - 1] == []
    ensures SearchPattern(s, m, pres, p) == IdAfterFirstMarker(s, m, p)
    decreases |s| + 1 - p
  {
    if p <= |s| {
      MatchIsFirstGood(s, m, p, pres);
      if TryPrefixes(s, m, p, pres).None? {
        SearchPatternIsFirstGood(s, m, pres, p + 1);
        SkipPosition(s, m, pres, p);
      }
    }
  }

  /** Where the attempt fails, both readings go on at the next position. */
  lemma SkipPosition(s: string, m: string, pres: seq<string>, p: nat)
    requires p <= |s| && TryPrefixes(s, m, p, pres).None? && !Good(s, m, p)
    ensures SearchPattern(s, m, pres, p) == SearchPattern(s, m, pres, p + 1)
    ensures IdAfterFirstMarker(s, m, p) == IdAfterFirstMarker(s, m, p + 1)
  {
    assert FirstGood(s, m, p) == FirstGood(s, m, p + 1);
  }

  /** The same for the three patterns of `extract_video_id`. */
  lemma PatternIsFirstGood(s: string, i: nat)
    requires i < |Markers|
    ensures SearchPattern(s, Markers[i], Prefixes, 0) == IdAfterFirstMarker(s, Markers[i], 0)
  {
    PrefixesFacts();
    MarkersStartWithY();
    SearchPatternIsFirstGood(s, Markers[i], Prefixes, 0);
  }

  /** The patterns from the `i`-th on, tried in order; the first that matches decides. */
  function FirstPattern(url: string, i: nat): Option<string>
    decreases |Markers| - i
  {
    if i >= |Markers| then None
    else
      match SearchPattern(url, Markers[i], Prefixes, 0)
      case Some(id) => Some(id)
      case None => FirstPattern(url, i + 1)
  }

  /** The message of the `ValueError` at line 67. */
  const InvalidUrl: string := "無効なYouTube URLです"

  /** `extract_video_id(url)`: the id, or the `ValueError` it raises. */
  function ExtractVideoId(url: string): Result<string, string>
  {
    match FirstPattern(url, 0)
    case Some(id) => Ok(id)
    case None => Err(InvalidUrl)
  }

  /** Pattern `i` matches, at occurrence `q` of its marker, and nothing before decides: no
      earlier occurrence of its marker has an id after it and no earlier pattern matches
      anywhere. */
  ghost predicate Wins(url: string, i: nat, q: int)
    requires i < |Markers|
  {
    && Good(url, Markers[i], q)
    && (forall q' :: 0 <= q' < q ==> !Good(url, Markers[i], q'))
    && (forall j, q' :: 0 <= j < i ==> !Good(url, Markers[j], q'))
  }

  lemma {:induction false} FirstPatternSpec(url: string, i: nat)
    requires i <= |Markers|
    requires forall j, q :: 0 <= j < i ==> !Good(url, Markers[j], q)
    ensures FirstPattern(url, i).None? <==> forall j, q :: i <= j < |Markers| ==> !Good(url, Markers[j], q)
    ensures FirstPattern(url, i).Some? ==> exists j, q :: (i <= j < |Markers| && Wins(url, j, q) &&
      FirstPattern(url, i).value == IdRun(url[q + |Markers[j]|..]))
    decreases |Markers| - i
  {
    if i < |Markers| {
      var m := Markers[i];
      PatternIsFirstGood(url, i);
      var f := FirstGood(url, m, 0);
      FirstGoodSpec(url, m, 0);
      if f.Some? {
        assert Wins(url, i, f.value);
      } else {
        FirstPatternSpec(url, i + 1);
        if FirstPattern(url, i + 1).None? {
          forall j, q | i <= j < |Markers| ensures !Good(url, Markers[j], q) {
            if j > i {
              assert i + 1 <= j;
            }
          }
        }
      }
    }
  }

  /** `id` is what follows the marker of pattern `i` at `q`, whole: up to the end of the url
      or to a character that is not an id character. */
  ghost predicate TakenAfter(url: string, i: nat, q: int, id: string)
    requires i < |Markers|
  {
    var start := q + |Markers[i]|;
    && 0 <= start && start + |id| <= |url| && url[start..start + |id|] == id
    && (start + |id| == |url| || !IsIdChar(url[start + |id|]))
  }

  /** When `extract_video_id` succeeds, the id is non-empty, consists of id characters, and
      was taken whole from after the marker of the winning pattern. */
  lemma ExtractVideoIdOk(url: string)
    requires ExtractVideoId(url).Ok?
    ensures var id := ExtractVideoId(url).value;
      && id != []
      && (forall k :: 0 <= k < |id| ==> IsIdChar(id[k]))
      && exists i, q :: 0 <= i < |Markers| && Wins(url, i, q) && TakenAfter(url, i, q, id)
  {
    FirstPatternSpec(url, 0);
    var id := ExtractVideoId(url).value;
    var i, q :| 0 <= i < |Markers| && Wins(url, i, q) && id == IdRun(url[q + |Markers[i]|..]);
    IdTakenAfter(url, i, q);
  }

  /** The id run after a good marker is taken whole from the url. */
  lemma IdTakenAfter(url: string, i: nat, q: int)
    requires i < |Markers| && Good(url, Markers[i], q)
    ensures var id := IdRun(url[q + |Markers[i]|..]);
      id != [] && TakenAfter(url, i, q, id)
  {
    var start := q + |Markers[i]|;
    IdRunTaken(url, start);
  }

  /** The id run starting at an id character. */
  lemma IdRunTaken(url: string, start: nat)
    requires start < |url| && IsIdChar(url[start])
    ensures var id := IdRun(url[start..]);
      && id != []
      && start + |id| <= |url| && url[start..start + |id|] == id
      && (start + |id| == |url| || !IsIdChar(url[start + |id|]))
  {
    var rest := url[start..];
    var id := IdRun(rest);
    assert rest[..|id|] == url[start..start + |id|];
    assert IsIdChar(rest[0]);
    assert |id| == |rest| || rest[|id|] == url[start + |id|];
  }

  /** `extract_video_id` raises exactly when no marker anywhere is followed by an id
      character. */
  lemma ExtractVideoIdErr(url: string)
    ensures ExtractVideoId(url).Err? <==> forall i, q :: 0 <= i < |Markers| ==> !Good(url, Markers[i], q)
    ensures ExtractVideoId(url).Err? ==> ExtractVideoId(url).error == InvalidUrl
  {
    FirstPatternSpec(url, 0);
  }

  /** Shifting the url right by a piece without 'y' shifts the good marker positions. */
  lemma GoodShift(pre: string, u: string, m: string, q: int)
    requires |m| > 0 && m[0] == 'y'
    requires forall k :: 0 <= k < |pre| ==> pre[k] != 'y'
    ensures Good(pre + u, m, q) <==> q >= |pre| && Good(u, m, q - |pre|)
  {
    var s := pre + u;
    if Good(s, m, q) {
      assert s[q..q + |m|][0] == s[q];
      assert s[q..q + |m|] == u[q - |pre|..q - |pre| + |m|];
      assert s[q + |m|] == u[q - |pre| + |m|];
    }
    if q >= |pre| && Good(u, m, q - |pre|) {
      assert s[q..q + |m|] == u[q - |pre|..q - |pre| + |m|];
      assert s[q + |m|] == u[q - |pre| + |m|];
    }
  }

  lemma IdAfterFirstMarkerShift(pre: string, u: string, m: string)
    requires |m| > 0 && m[0] == 'y'
    requires forall k :: 0 <= k < |pre| ==> pre[k] != 'y'
    ensures IdAfterFirstMarker(pre + u, m, 0) == IdAfterFirstMarker(u, m, 0)
  {
    FirstGoodShift(pre, u, m);
    var fu := FirstGood(u, m, 0);
    if fu.Some? {
      var r := fu.value;
      assert (pre + u)[r + |pre| + |m|..] == u[r + |m|..];
    }
  }

  lemma FirstGoodShift(pre: string, u: string, m: string)
    requires |m| > 0 && m[0] == 'y'
    requires forall k :: 0 <= k < |pre| ==> pre[k] != 'y'
    ensures FirstGood(pre + u, m, 0).Some? <==> FirstGood(u, m, 0).Some?
    ensures FirstGood(u, m, 0).Some? ==> FirstGood(pre + u, m, 0).value == FirstGood(u, m, 0).value + |pre|
  {
    var s := pre + u;
    forall q ensures Good(s, m, q) <==> q >= |pre| && Good(u, m, q - |pre|) {
      GoodShift(pre, u, m, q);
    }
    var fu := FirstGood(u, m, 0);
    var fs := FirstGood(s, m, 0);
    FirstGoodSpec(u, m, 0);
    FirstGoodSpec(s, m, 0);
    if fu.Some? {
      assert Good(s, m, fu.value + |pre|);
    }
  }

  lemma {:induction false} FirstPatternShift(pre: string, u: string, i: nat)
    requires forall k :: 0 <= k < |pre| ==> pre[k] != 'y'
    ensures FirstPattern(pre + u, i) == FirstPattern(u, i)
    decreases |Markers| - i
  {
    if i < |Markers| {
      MarkersStartWithY();
      var m := Markers[i];
      PatternIsFirstGood(pre + u, i);
      PatternIsFirstGood(u, i);
      IdAfterFirstMarkerShift(pre, u, m);
      FirstPatternShift(pre, u, i + 1);
    }
  }

  /** A scheme, a `www.`, or any other text without the letter 'y' written before a url
      does not change its id. */
  lemma PrefixIrrelevant(pre: string, u: string)
    requires forall k :: 0 <= k < |pre| ==> pre[k] != 'y'
    ensures ExtractVideoId(pre + u) == ExtractVideoId(u)
  {
    FirstPatternShift(pre, u, 0);
  }

  /** The optional groups in particular. */
  lemma OptionalPrefixesIrrelevant(j: nat, u: string)
    requires j < |Prefixes|
    ensures ExtractVideoId(Prefixes[j] + u) == ExtractVideoId(u)
  {
    PrefixesFacts();
    PrefixIrrelevant(Prefixes[j], u);
  }

  // ---------------------------------------------------------------------------------------
  // analyze_comments

  /** `SentimentData`. */
  datatype SentimentData = SentimentData(positive: nat, neutral: nat, negative: nat)

  /** `KeywordItem`. */
  datatype KeywordItem = KeywordItem(word: string, count: nat)

  /** `AnalyzeResponse`. */
  datatype AnalyzeResponse = AnalyzeResponse(sentiment: SentimentData, keywords: seq<KeywordItem>, totalComments: nat)

  /** What `youtube_client.get_comments(video_id)` did: the comments, or the
      `HTTPException` it raised (status 403, 404 or 500 and a message). */
  datatype FetchOutcome = Fetched(comments: seq<string>) | FetchFailed(status: nat, detail: string)

  /** What the handler sends: the response, or the `HTTPException` it raises. */
  datatype Reply = Success(response: AnalyzeResponse) | Failure(status: nat, detail: string)

  /** The `top_n` of line 96. */
  const TopN: int := 20

  /** The detail of the catch-all at line 120. */
  const AnalysisFailed: string := "分析処理中にエラーが発生しました"

  /** The detail of the exception at line 89. */
  const NoComments: string := "コメントが見つかりませんでした"

  function KeywordItems(top: seq<(string, nat)>): (items: seq<KeywordItem>)
    ensures |items| == |top| && forall i :: 0 <= i < |top| ==> items[i] == KeywordItem(top[i].0, top[i].1)
  {
    if top == [] then [] else KeywordItems(top[..|top| - 1]) + [KeywordItem(top[|top| - 1].0, top[|top| - 1].1)]
  }

  /** Lines 92-111: the response for a non-empty comment list. */
  function BuildResponse(sa: Sentiment.SentimentAnalyzer, ke: Keywords.KeywordExtractor, comments: seq<string>): AnalyzeResponse
  {
    var tally := sa.TallyOf(comments);
    var top := ke.TopKeywords(comments, TopN);
    AnalyzeResponse(
      SentimentData(tally[Sentiment.Positive], tally[Sentiment.Neutral], tally[Sentiment.Negative]),
      KeywordItems(top),
      |comments|)
  }

  /** `analyze_comments` as written: the 404 raised for an empty comment list and the
      client's own `HTTPException`s are caught by `except Exception` and become 500. */
  function AnalyzeCommentsAsWritten(url: string, fetch: string -> FetchOutcome,
    sa: Sentiment.SentimentAnalyzer, ke: Keywords.KeywordExtractor): Reply
  {
    match ExtractVideoId(url)
    case Err(message) => Failure(400, message)
    case Ok(videoId) =>
      match fetch(videoId)
      case FetchFailed(_, _) => Failure(500, AnalysisFailed)
      case Fetched(comments) =>
        if comments == [] then Failure(500, AnalysisFailed)
        else Success(BuildResponse(sa, ke, comments))
  }

  /** `analyze_comments` as its raises evidently mean it: an `HTTPException` from the fetch
      or for an empty list reaches the client unchanged. */
  function AnalyzeComments(url: string, fetch: string -> FetchOutcome,
    sa: Sentiment.SentimentAnalyzer, ke: Keywords.KeywordExtractor): Reply
  {
    match ExtractVideoId(url)
    case Err(message) => Failure(400, message)
    case Ok(videoId) =>
      match fetch(videoId)
      case FetchFailed(status, detail) => Failure(status, detail)
      case Fetched(comments) =>
        if comments == [] then Failure(404, NoComments)
        else Success(BuildResponse(sa, ke, comments))
  }

  /** A successful reply describes every fetched comment once: the total is the number of
      comments, the three sentiment fields are the buckets of `analyze_batch` and add up to
      it, and the keywords are the pairs of
      `extract_keywords`, in its order, at most twenty of them, largest counts first. */
  lemma AnalyzeCommentsSuccess(url: string, fetch: string -> FetchOutcome,
    sa: Sentiment.SentimentAnalyzer, ke: Keywords.KeywordExtractor)
    ensures var reply := AnalyzeComments(url, fetch, sa, ke);
      reply.Success? <==> (ExtractVideoId(url).Ok? && fetch(ExtractVideoId(url).value).Fetched? &&
        fetch(ExtractVideoId(url).value).comments != [])
    ensures var reply := AnalyzeComments(url, fetch, sa, ke);
      reply.Success? ==>
        var comments := fetch(ExtractVideoId(url).value).comments;
        var r := reply.response;
        var tally := sa.TallyOf(comments);
        var top := ke.TopKeywords(comments, TopN);
        && r.totalComments == |comments| > 0
        && r.sentiment == SentimentData(tally[Sentiment.Positive], tally[Sentiment.Neutral], tally[Sentiment.Negative])
        && r.sentiment.positive + r.sentiment.neutral + r.sentiment.negative == r.totalComments
        && |r.keywords| == |top| <= 20
        && (forall i :: 0 <= i < |top| ==> r.keywords[i].word == top[i].0 && r.keywords[i].count == top[i].1)
        && (forall i, j :: 0 <= i < j < |r.keywords| ==> r.keywords[i].count >= r.keywords[j].count)
  {
    var reply := AnalyzeComments(url, fetch, sa, ke);
    if reply.Success? {
      var comments := fetch(ExtractVideoId(url).value).comments;
      Sentiment.TallyCounts(sa, comments);
      var c := Counting.CounterOf(ke.AllWords(comments));
      Counting.MostCommonLength(c, TopN);
      Counting.MostCommonOrdered(c, TopN);
    }
  }

  /** The failures of the intended handler: 400 with the `ValueError` message for a url
      without an id, the client's status for a failed fetch, 404 for no comments. */
  lemma AnalyzeCommentsFailure(url: string, fetch: string -> FetchOutcome,
    sa: Sentiment.SentimentAnalyzer, ke: Keywords.KeywordExtractor)
    ensures ExtractVideoId(url).Err? ==> AnalyzeComments(url, fetch, sa, ke) == Failure(400, InvalidUrl)
    ensures ExtractVideoId(url).Ok? && fetch(ExtractVideoId(url).value).FetchFailed? ==>
      var f := fetch(ExtractVideoId(url).value);
      AnalyzeComments(url, fetch, sa, ke) == Failure(f.status, f.detail)
    ensures ExtractVideoId(url).Ok? && fetch(ExtractVideoId(url).value) == Fetched([]) ==>
      AnalyzeComments(url, fetch, sa, ke) == Failure(404, NoComments)
  {
    ExtractVideoIdErr(url);
  }

  /** As written, every failure other than a bad url is a 500 with the generic message; the
      two handlers agree except on those failures. */
  lemma AsWrittenMasksStatus(url: string, fetch: string -> FetchOutcome,
    sa: Sentiment.SentimentAnalyzer, ke: Keywords.KeywordExtractor)
    ensures var w := AnalyzeCommentsAsWritten(url, fetch, sa, ke);
      w.Failure? ==> ((w.status == 400 <==> ExtractVideoId(url).Err?) &&
        (w.status != 400 ==> w == Failure(500, AnalysisFailed)))
    ensures var w := AnalyzeCommentsAsWritten(url, fetch, sa, ke);
      var c := AnalyzeComments(url, fetch, sa, ke);
      (w.Success? <==> c.Success?) && (w.Success? ==> c == w) && (ExtractVideoId(url).Err? ==> w == c)
  {
  }

  /** A short link: the first pattern does not occur, the second does. */
  lemma ShortLinkExample()
    ensures ExtractVideoId("https://youtu.be/abc") == Ok("abc")
  {
    ShortLink("https://youtu.be/abc");
  }

  lemma ShortLink(u: string)
    requires u == "https://youtu.be/abc"
    ensures ExtractVideoId(u) == Ok("abc")
  {
    var v := "youtu.be/abc";
    assert u == "https://" + v;
    PrefixIrrelevant("https://", v);
    NoWatchMarker(v);
    ShortLinkMarker(v);
  }

  lemma NoWatchMarker(v: string)
    requires v == "youtu.be/abc"
    ensures SearchPattern(v, Markers[0], Prefixes, 0).None?
  {
    PatternIsFirstGood(v, 0);
    assert forall q :: !OccursAt(v, Markers[0], q);
  }

  lemma ShortLinkMarker(v: string)
    requires v == "youtu.be/abc"
    ensures SearchPattern(v, Markers[1], Prefixes, 0) == Some("abc")
  {
    PatternIsFirstGood(v, 1);
    ShortLinkAtStart(v);
    assert |Markers[1]| == 9;
    IdOfAbc(v[9..]);
  }

  lemma ShortLinkAtStart(v: string)
    requires v == "youtu.be/abc"
    ensures FirstGood(v, Markers[1], 0) == Some(0)
  {
    assert v[0..9] == Markers[1];
    assert Good(v, Markers[1], 0);
  }

  lemma IdOfAbc(rest: string)
    requires rest == "abc"
    ensures IdRun(rest) == "abc"
  {
    assert rest[1..] == "bc" && rest[1..][1..] == "c" && rest[1..][1..][1..] == [];
  }

  /** The input that shows the difference: a valid url whose video has no comments. */
  lemma EmptyCommentsExample(sa: Sentiment.SentimentAnalyzer, ke: Keywords.KeywordExtractor)
    ensures var fetch := (id: string) => Fetched([]);
      && AnalyzeCommentsAsWritten("https://youtu.be/abc", fetch, sa, ke) == Failure(500, AnalysisFailed)
      && AnalyzeComments("https://youtu.be/abc", fetch, sa, ke) == Failure(404, NoComments)
  {
    ShortLinkExample();
  }
}
