/** The run of one search: split the keyword input, search each keyword,
    and for every search item keep a record of the channel when its title or
    description is Korean, its channel lookup succeeds and its performance
    qualifies. The platform calls are the fields of a `Platform` value:
    functions from their arguments to the parsed answer, or `None` when the
    call, or a lookup on its answer, raises. */
module CreatorSearch {
  import opened Wrappers
  import opened Text
  import opened LanguageDetector
  import opened EmailExtractor
  import opened PerformanceEvaluator

  /** One item of the channel search: `snippet.channelId`, `snippet.title`
      and `snippet.description` (`None` when the key is absent). */
  datatype SearchItem = SearchItem(channelId: string, title: string, description: Option<string>)

  /** What the loop reads from the channel lookup: the channel id, the
      subscriber count (`None` when hidden), the uploads playlist, the
      default thumbnail and the channel description. */
  datatype Channel = Channel(
    id: string,
    subscriberCount: Option<int>,
    uploadsPlaylist: string,
    thumbnailUrl: string,
    description: string)

  /** The external calls.
      - `search(keyword, maxResults)`: the items of the channel search in the
        KR region, or `None` when it raises (which ends the whole run);
      - `channel(id)`: the first item of the channel lookup, or `None` when
        the call raises, returns no item, or lacks a field the loop reads;
      - `uploads(playlistId)`: the videos of the playlist-items call followed
        by the video-statistics call, or `None` when either raises;
      - `generate(prompt)`: the text of the model's answer, or `None`. */
  datatype Platform = Platform(
    search: (string, int) -> Option<seq<SearchItem>>,
    channel: string -> Option<Channel>,
    uploads: string -> Option<seq<Video>>,
    generate: string -> Option<string>)

  /** The form's three settings: `efficiency_val` (percent), `min_view_floor`
      and `max_res`. */
  datatype Settings = Settings(efficiencyPercent: int, minViewFloor: int, maxResults: int)

  /** One row of the result table; the average and the ratio are exact
      where the table shows them rounded. */
  datatype CreatorRecord = CreatorRecord(
    name: string,
    subscribers: int,
    averageViews: real,
    efficiency: real,
    email: string,
    url: string,
    thumbnailUrl: string)

  /** How a run ends: no input (a warning, nothing searched), a search that
      raised (the run stops there), or the finished list of records. */
  datatype RunOutcome =
    | NoKeywords
    | SearchFailed(keyword: string)
    | Finished(records: seq<CreatorRecord>)

  const ChannelUrlPrefix: string := "https://youtube.com/channel/"

  /** `item['snippet'].get('description', '')`. */
  function DescriptionOf(item: SearchItem): string {
    match item.description
    case Some(d) => d
    case None => ""
  }

  /** `int(ch['statistics'].get('subscriberCount', 0))`. */
  function SubscribersOf(ch: Channel): int {
    match ch.subscriberCount
    case Some(n) => n
    case None => 0
  }

  /** The language filter of the loop. */
  predicate LooksKorean(item: SearchItem) {
    IsKorean(item.title) || IsKorean(DescriptionOf(item))
  }

  /** `check_performance` on a looked-up channel. */
  function PerformanceOf(ch: Channel, p: Platform, st: Settings): Performance {
    CheckPerformance(SubscribersOf(ch), p.uploads(ch.uploadsPlaylist), st.efficiencyPercent, st.minViewFloor)
  }

  /** The record one search item contributes, if any: one exists exactly
      when the item looks Korean, its channel lookup succeeds and the
      channel qualifies. The record carries the item's title, and the looked-up
      channel's subscriber count, performance figures, thumbnail and e-mail,
      the e-mail resolved from the channel's own description. */
  function Evaluate(item: SearchItem, p: Platform, st: Settings): (r: Option<CreatorRecord>)
    ensures r.Some? <==>
      && LooksKorean(item)
      && p.channel(item.channelId).Some?
      && PerformanceOf(p.channel(item.channelId).value, p, st).qualifies
    ensures r.Some? ==> r.value.name == item.title
    ensures r.Some? ==>
      var ch := p.channel(item.channelId).value;
      var perf := PerformanceOf(ch, p, st);
      && r.value.email == ResolveEmail(ch.description, p.generate)
      && r.value.subscribers == SubscribersOf(ch)
      && r.value.averageViews == perf.averageViews
      && r.value.efficiency == perf.efficiency
      && r.value.thumbnailUrl == ch.thumbnailUrl
  {
    if !LooksKorean(item) then None
    else
      match p.channel(item.channelId)
      case None => None
      case Some(ch) =>
        var perf := PerformanceOf(ch, p, st);
        if !perf.qualifies then None
        else
          Some(CreatorRecord(item.title, SubscribersOf(ch), perf.averageViews, perf.efficiency,
                             ResolveEmail(ch.description, p.generate), ChannelUrlPrefix + ch.id, ch.thumbnailUrl))
  }

  /** Every record meets both thresholds of the form, comes from a channel
      with subscribers, and carries the channel's address and either an
      e-mail address or one of the sentinel notes. */
  lemma RecordMeetsThresholds(item: SearchItem, p: Platform, st: Settings)
    requires Evaluate(item, p, st).Some?
    ensures
      var rec := Evaluate(item, p, st).value;
      && rec.subscribers != 0
      && rec.efficiency >= (st.efficiencyPercent as real) / 100.0
      && rec.averageViews >= st.minViewFloor as real
      && (IsSentinel(rec.email) || '@' in rec.email)
      && rec.url == ChannelUrlPrefix + p.channel(item.channelId).value.id
  {
    var ch := p.channel(item.channelId).value;
    var perf := PerformanceOf(ch, p, st);
    QualifyingMeetsThresholds(SubscribersOf(ch), p.uploads(ch.uploadsPlaylist), st.efficiencyPercent, st.minViewFloor);
    var email := ResolveEmail(ch.description, p.generate);
    assert IsSentinel(email) || '@' in email;
    assert Evaluate(item, p, st).value ==
      CreatorRecord(item.title, SubscribersOf(ch), perf.averageViews, perf.efficiency,
                    email, ChannelUrlPrefix + ch.id, ch.thumbnailUrl);
  }

  /** The keyword search with the form's `max_res` bound in. */
  type Searcher = string -> Option<seq<SearchItem>>

  /** The per-item decision of the loop. */
  type Evaluator = SearchItem -> Option<CreatorRecord>

  function SearcherOf(p: Platform, st: Settings): Searcher {
    kw => p.search(kw, st.maxResults)
  }

  function EvaluatorOf(p: Platform, st: Settings): Evaluator {
    item => Evaluate(item, p, st)
  }

  /** The zero or one records one item contributes. */
  function RecordOf(item: SearchItem, eval: Evaluator): seq<CreatorRecord> {
    match eval(item)
    case None => []
    case Some(rec) => [rec]
  }

  /** The records one keyword's search items contribute, in search order. */
  function KeywordRecords(items: seq<SearchItem>, eval: Evaluator): (r: seq<CreatorRecord>)
    ensures |r| <= |items|
  {
    if items == [] then [] else RecordOf(items[0], eval) + KeywordRecords(items[1..], eval)
  }

  /** Every record of a keyword comes from one of its search items. */
  lemma {:induction false} KeywordRecordProvenance(items: seq<SearchItem>, rec: CreatorRecord, eval: Evaluator)
    requires rec in KeywordRecords(items, eval)
    ensures exists t :: 0 <= t < |items| && eval(items[t]) == Some(rec)
  {
    if rec !in RecordOf(items[0], eval) {
      KeywordRecordProvenance(items[1..], rec, eval);
      var t :| 0 <= t < |items[1..]| && eval(items[1..][t]) == Some(rec);
      assert items[1..][t] == items[t + 1];
    }
  }

  /** The records of consecutive items follow one another: records keep the
      order of the search results. */
  lemma {:induction false} KeywordRecordsAppend(a: seq<SearchItem>, b: seq<SearchItem>, eval: Evaluator)
    ensures KeywordRecords(a + b, eval) == KeywordRecords(a, eval) + KeywordRecords(b, eval)
  {
    if a == [] {
      assert a + b == b;
    } else {
      assert (a + b)[0] == a[0];
      assert (a + b)[1..] == a[1..] + b;
      KeywordRecordsAppend(a[1..], b, eval);
    }
  }

  /** Every item that passes has its record at its own place: after the
      records of the items before it and before those after it. */
  lemma ItemRecordInPlace(items: seq<SearchItem>, t: int, eval: Evaluator)
    requires 0 <= t < |items| && eval(items[t]).Some?
    ensures KeywordRecords(items, eval) ==
      KeywordRecords(items[..t], eval) + [eval(items[t]).value] + KeywordRecords(items[t + 1..], eval)
  {
    var pre, post := items[..t], items[t..];
    assert items == pre + post;
    KeywordRecordsAppend(pre, post, eval);
    assert post[0] == items[t] && post[1..] == items[t + 1..];
    SeqAssoc(KeywordRecords(pre, eval), [eval(items[t]).value], KeywordRecords(items[t + 1..], eval));
  }

  /** The records of the search results of `kws`, keyword by keyword; the
      first search that raises ends the run. A finished run yields no more
      records than the search items it went through. */
  function RunKeywords(kws: seq<string>, search: Searcher, eval: Evaluator): (r: RunOutcome)
    ensures !r.NoKeywords?
    ensures r.Finished? ==> |r.records| <= ItemCount(kws, search)
    decreases |kws|
  {
    if kws == [] then Finished([])
    else
      var before := RunKeywords(kws[..|kws| - 1], search, eval);
      if !before.Finished? then before
      else
        match search(kws[|kws| - 1])
        case None => SearchFailed(kws[|kws| - 1])
        case Some(items) => Finished(before.records + KeywordRecords(items, eval))
  }

  /** A run finishes exactly when every keyword's search succeeds. */
  lemma {:induction false} FinishesIffAllSearchesSucceed(kws: seq<string>, search: Searcher, eval: Evaluator)
    ensures RunKeywords(kws, search, eval).Finished? <==> forall t :: 0 <= t < |kws| ==> search(kws[t]).Some?
    decreases |kws|
  {
    if kws != [] {
      var front := kws[..|kws| - 1];
      FinishesIffAllSearchesSucceed(front, search, eval);
      assert forall t :: 0 <= t < |front| ==> front[t] == kws[t];
    }
  }

  /** `kws[t]` is the first keyword whose search raises. */
  ghost predicate FirstFailure(kws: seq<string>, t: int, search: Searcher) {
    && 0 <= t < |kws|
    && search(kws[t]).None?
    && forall u :: 0 <= u < t ==> search(kws[u]).Some?
  }

  /** A run that fails names the first keyword whose search raised. */
  lemma {:induction false} FailureNamesFirstFailure(kws: seq<string>, search: Searcher, eval: Evaluator)
    requires RunKeywords(kws, search, eval).SearchFailed?
    ensures exists t :: FirstFailure(kws, t, search) && kws[t] == RunKeywords(kws, search, eval).keyword
    decreases |kws|
  {
    var front := kws[..|kws| - 1];
    assert forall t :: 0 <= t < |front| ==> front[t] == kws[t];
    if RunKeywords(front, search, eval).SearchFailed? {
      FailureNamesFirstFailure(front, search, eval);
      var t :| FirstFailure(front, t, search) && front[t] == RunKeywords(front, search, eval).keyword;
      assert FirstFailure(kws, t, search);
    } else {
      FinishesIffAllSearchesSucceed(front, search, eval);
      assert FirstFailure(kws, |kws| - 1, search);
    }
  }

  /** The number of search items the run goes through (the progress counter
      `curr` when every search succeeds). */
  function ItemCount(kws: seq<string>, search: Searcher): nat
    decreases |kws|
  {
    if kws == [] then 0
    else
      ItemCount(kws[..|kws| - 1], search) +
        match search(kws[|kws| - 1])
        case None => 0
        case Some(items) => |items|
  }

  /** Keyword order: the records of a run over `a + b` are those of `a`
      followed by those of `b`. */
  lemma {:induction false} RunKeywordsAppend(a: seq<string>, b: seq<string>, search: Searcher, eval: Evaluator)
    requires RunKeywords(a, search, eval).Finished? && RunKeywords(b, search, eval).Finished?
    ensures RunKeywords(a + b, search, eval) ==
      Finished(RunKeywords(a, search, eval).records + RunKeywords(b, search, eval).records)
    decreases |b|
  {
    if b == [] {
      assert a + b == a;
    } else {
      var front := b[..|b| - 1];
      RunKeywordsAppend(a, front, search, eval);
      assert (a + b)[..|a + b| - 1] == a + front;
      SeqAssoc(RunKeywords(a, search, eval).records, RunKeywords(front, search, eval).records,
               KeywordRecords(search(b[|b| - 1]).value, eval));
    }
  }

  lemma SeqAssoc<T>(x: seq<T>, y: seq<T>, z: seq<T>)
    ensures (x + y) + z == x + (y + z)
  {
  }

  /** Once a search has failed, later keywords change nothing. */
  lemma {:induction false} FailureEndsRun(a: seq<string>, b: seq<string>, search: Searcher, eval: Evaluator)
    requires RunKeywords(a, search, eval).SearchFailed?
    ensures RunKeywords(a + b, search, eval) == RunKeywords(a, search, eval)
    decreases |b|
  {
    if b == [] {
      assert a + b == a;
    } else {
      var front := b[..|b| - 1];
      assert (a + b)[..|a + b| - 1] == a + front;
      FailureEndsRun(a, front, search, eval);
    }
  }

  /** A keyword whose search finds nothing contributes nothing. */
  lemma {:induction false} EmptySearchAddsNothing(a: seq<string>, kw: string, b: seq<string>, search: Searcher, eval: Evaluator)
    requires search(kw) == Some([])
    ensures RunKeywords(a + [kw] + b, search, eval) == RunKeywords(a + b, search, eval)
    decreases |b|
  {
    if b == [] {
      assert a + [kw] + b == a + [kw];
      assert (a + [kw])[..|a|] == a;
      assert a + b == a;
    } else {
      var front := b[..|b| - 1];
      assert (a + [kw] + b)[..|a + [kw] + b| - 1] == a + [kw] + front;
      assert (a + b)[..|a + b| - 1] == a + front;
      assert (a + [kw] + b)[|a + [kw] + b| - 1] == b[|b| - 1] == (a + b)[|a + b| - 1];
      EmptySearchAddsNothing(a, kw, front, search, eval);
    }
  }

  /** No deduplication: a keyword given twice contributes its records twice. */
  lemma RepeatedKeywordRepeatsRecords(kw: string, search: Searcher, eval: Evaluator)
    requires search(kw).Some?
    ensures
      var once := KeywordRecords(search(kw).value, eval);
      RunKeywords([kw, kw], search, eval) == Finished(once + once)
  {
    assert [kw][..0] == [];
    assert RunKeywords([kw], search, eval).Finished?;
    RunKeywordsAppend([kw], [kw], search, eval);
    assert [kw] + [kw] == [kw, kw];
  }

  /** Every record of a run comes from an item of one of the keyword
      searches that passed the item test. */
  lemma {:induction false} RecordProvenance(kws: seq<string>, rec: CreatorRecord, search: Searcher, eval: Evaluator)
    requires RunKeywords(kws, search, eval).Finished? && rec in RunKeywords(kws, search, eval).records
    ensures exists t, u ::
      && 0 <= t < |kws|
      && search(kws[t]).Some?
      && 0 <= u < |search(kws[t]).value|
      && eval(search(kws[t]).value[u]) == Some(rec)
    decreases |kws|
  {
    var front := kws[..|kws| - 1];
    if rec in RunKeywords(front, search, eval).records {
      RecordProvenance(front, rec, search, eval);
      var t, u :| 0 <= t < |front| && search(front[t]).Some?
        && 0 <= u < |search(front[t]).value| && eval(search(front[t]).value[u]) == Some(rec);
      assert kws[t] == front[t];
    } else {
      var items := search(kws[|kws| - 1]).value;
      KeywordRecordProvenance(items, rec, eval);
      var u :| 0 <= u < |items| && eval(items[u]) == Some(rec);
      assert 0 <= |kws| - 1 < |kws|;
    }
  }

  /** One more item: its record, if any, goes after those of the items
      before it. */
  lemma KeywordRecordsSnoc(items: seq<SearchItem>, j: int, eval: Evaluator)
    requires 0 <= j < |items|
    ensures KeywordRecords(items[..j + 1], eval) == KeywordRecords(items[..j], eval) + RecordOf(items[j], eval)
  {
    assert items[..j + 1] == items[..j] + [items[j]];
    KeywordRecordsAppend(items[..j], [items[j]], eval);
    assert [items[j]][1..] == [];
  }

  /** One step of the inner loop: appending the item's record, if any, to
      the records so far gives the records of one more item. */
  lemma CollectStep(items: seq<SearchItem>, j: int, eval: Evaluator,
                    acc: seq<CreatorRecord>, sofar: seq<CreatorRecord>, rec: Option<CreatorRecord>)
    requires 0 <= j < |items| && sofar == acc + KeywordRecords(items[..j], eval) && eval(items[j]) == rec
    ensures (if rec.Some? then sofar + [rec.value] else sofar) == acc + KeywordRecords(items[..j + 1], eval)
  {
    KeywordRecordsSnoc(items, j, eval);
    SeqAssoc(acc, KeywordRecords(items[..j], eval), RecordOf(items[j], eval));
  }

  /** One more keyword after a run that has not failed: its search either
      fails the run or adds its records and its items. */
  lemma RunKeywordsSnoc(kws: seq<string>, i: int, search: Searcher, eval: Evaluator)
    requires 0 <= i < |kws| && RunKeywords(kws[..i], search, eval).Finished?
    ensures search(kws[i]).None? ==> RunKeywords(kws, search, eval) == SearchFailed(kws[i])
    ensures search(kws[i]).Some? ==>
      && RunKeywords(kws[..i + 1], search, eval) ==
           Finished(RunKeywords(kws[..i], search, eval).records + KeywordRecords(search(kws[i]).value, eval))
      && ItemCount(kws[..i + 1], search) == ItemCount(kws[..i], search) + |search(kws[i]).value|
  {
    assert kws[..i + 1][..i] == kws[..i] && kws[..i + 1][i] == kws[i];
    if search(kws[i]).None? {
      FailureEndsRun(kws[..i + 1], kws[i + 1..], search, eval);
      assert kws[..i + 1] + kws[i + 1..] == kws;
    }
  }

  /** `[k.strip() for k in keywords_input.split(",")]`: one keyword per
      comma-separated piece, in order, empty pieces kept; each keyword is
      stripped and holds no comma. */
  function Keywords(input: string): (r: seq<string>)
    ensures |r| == Occurrences(input, ',') + 1
    ensures forall t :: 0 <= t < |r| ==> r[t] == Strip(SplitOn(input, ',')[t])
    ensures forall t :: 0 <= t < |r| ==> ',' !in r[t] && Strip(r[t]) == r[t]
  {
    var parts := SplitOn(input, ',');
    var r := seq(|parts|, t requires 0 <= t < |parts| => Strip(parts[t]));
    assert forall t :: 0 <= t < |r| ==> ',' !in r[t] && Strip(r[t]) == r[t] by {
      forall t | 0 <= t < |r|
        ensures ',' !in r[t] && Strip(r[t]) == r[t]
      {
        StripIdempotent(parts[t]);
        NoCommaInSlice(parts[t], StripStart(parts[t]), StripStart(parts[t]) + |r[t]|);
      }
    }
    r
  }

  /** Pieces are stripped one by one and empty pieces stay: a trailing
      comma yields an empty keyword that is still searched. */
  lemma KeywordsExample()
    ensures Keywords("a, b,") == ["a", "b", ""]
  {
    ExampleSplit();
    ExampleStrips();
    var k := Keywords("a, b,");
    assert |k| == 3;
    assert k == [k[0], k[1], k[2]];
  }

  lemma ExampleStrips()
    ensures Strip("a") == "a" && Strip(" b") == "b" && Strip("") == ""
  {
    assert SkipSpace("a", 0) == 0 && SkipSpaceBack("a", 0, 1) == 1;
    assert SkipSpace(" b", 0) == 1 && SkipSpaceBack(" b", 1, 2) == 2;
    assert " b"[1..2] == "b";
  }

  lemma ExampleSplit()
    ensures SplitOn("a, b,", ',') == ["a", " b", ""]
  {
    var parts := ["a", " b", ""];
    assert JoinWith(parts[2..], ',') == "";
    assert JoinWith(parts[1..], ',') == " b" + [','] + "";
    assert JoinWith(parts, ',') == "a" + [','] + (" b" + [','] + "");
    assert "a" + [','] + (" b" + [','] + "") == "a, b,";
    SplitJoin(parts, ',');
  }

  /** A slice of a string without commas has no commas. */
  lemma NoCommaInSlice(s: string, lo: int, hi: int)
    requires 0 <= lo <= hi <= |s| && ',' !in s
    ensures ',' !in s[lo..hi]
  {
    forall t | 0 <= t < hi - lo
      ensures s[lo..hi][t] != ','
    {
      assert s[lo + t] in s;
    }
  }

  /** The outcome of one press of the search button. */
  function Run(input: string, p: Platform, st: Settings): (r: RunOutcome)
    ensures r.NoKeywords? <==> input == []
  {
    if input == [] then NoKeywords else RunKeywords(Keywords(input), SearcherOf(p, st), EvaluatorOf(p, st))
  }

  /** The body of the inner loop for one search item: skip it unless its
      title or description is Korean, look up its channel (skip when the
      lookup fails), check its performance and, when it qualifies, resolve
      the e-mail and build the record. */
  method ProcessItem(item: SearchItem, p: Platform, st: Settings) returns (rec: Option<CreatorRecord>)
    ensures rec == Evaluate(item, p, st)
  {
    rec := None;
    var title := item.title;
    var desc := DescriptionOf(item);
    if !(IsKorean(title) || IsKorean(desc)) {
      return;
    }
    var ch := p.channel(item.channelId);
    if ch.None? {
      return;
    }
    var subs := SubscribersOf(ch.value);
    var perf := CheckPerformance(subs, p.uploads(ch.value.uploadsPlaylist), st.efficiencyPercent, st.minViewFloor);
    if perf.qualifies {
      var email := ResolveEmail(ch.value.description, p.generate);
      rec := Some(CreatorRecord(title, subs, perf.averageViews, perf.efficiency,
                                email, ChannelUrlPrefix + ch.value.id, ch.value.thumbnailUrl));
    }
  }

  /** The inner loop over one keyword's search items: counts each item and
      appends the record of each one that passes, in order. */
  method CollectRecords(items: seq<SearchItem>, p: Platform, st: Settings, acc: seq<CreatorRecord>, count: nat)
    returns (finalList: seq<CreatorRecord>, processed: nat)
    ensures finalList == acc + KeywordRecords(items, EvaluatorOf(p, st))
    ensures processed == count + |items|
  {
    ghost var eval := EvaluatorOf(p, st);
    finalList, processed := acc, count;
    var j := 0;
    while j < |items|
      invariant 0 <= j <= |items|
      invariant finalList == acc + KeywordRecords(items[..j], eval)
      invariant processed == count + j
    {
      var item := items[j];
      processed := processed + 1;
      var rec := ProcessItem(item, p, st);
      CollectStep(items, j, eval, acc, finalList, rec);
      if rec.Some? {
        finalList := finalList + [rec.value];
      }
      j := j + 1;
    }
    assert items[..|items|] == items;
  }

  /** The run block: for each keyword, search; for each item, count it, skip
      it unless it looks Korean, look up its channel (skip on failure), check
      its performance and append a record when it qualifies. `processed` is
      the progress counter `curr`. */
  method RunSearch(input: string, p: Platform, st: Settings) returns (outcome: RunOutcome, processed: nat)
    ensures outcome == Run(input, p, st)
    ensures outcome.Finished? ==>
      processed == ItemCount(Keywords(input), SearcherOf(p, st)) && |outcome.records| <= processed
  {
    processed := 0;
    if input == [] {
      return NoKeywords, processed;
    }
    var kws := Keywords(input);
    ghost var search, eval := SearcherOf(p, st), EvaluatorOf(p, st);
    var finalList: seq<CreatorRecord> := [];
    var i := 0;
    while i < |kws|
      invariant 0 <= i <= |kws|
      invariant RunKeywords(kws[..i], search, eval) == Finished(finalList)
      invariant processed == ItemCount(kws[..i], search)
      invariant |finalList| <= processed
    {
      var kw := kws[i];
      var found := p.search(kw, st.maxResults);
      RunKeywordsSnoc(kws, i, search, eval);
      if found.None? {
        return SearchFailed(kw), processed;
      }
      finalList, processed := CollectRecords(found.value, p, st, finalList, processed);
      i := i + 1;
    }
    assert kws[..|kws|] == kws;
    outcome := Finished(finalList);
  }
}
