/**
 * The pure decisions of the play command and of `play_track` around
 * media extraction: which search entries are usable, which one is chosen,
 * which audio format supplies the stream URL, and the order in which
 * search strings are tried. Extraction itself is a parameter.
 */
module Search {
  import opened Wrappers
  import opened Sequences

  /**
   * One entry of a search result as extraction returns it: something that
   * is not a dictionary, or a dictionary with the keys the bot reads.
   */
  datatype Entry =
    | NotADict
    | Dict(url: Option<string>, title: Option<string>,
           viewCount: Option<int>, likeCount: Option<int>, duration: Option<int>)

  /** An entry that passed the filter; its page URL is its `url`. */
  datatype Candidate = Candidate(
    webpageUrl: string, title: string,
    viewCount: Option<int>, likeCount: Option<int>, duration: Option<int>)

  /** Only dictionaries with both `url` and `title` are kept. */
  predicate Usable(e: Entry) {
    e.Dict? && e.url.Some? && e.title.Some?
  }

  /** A kept entry gets `webpage_url` set to its `url`. */
  function ToCandidate(e: Entry): Candidate
    requires Usable(e)
  {
    Candidate(e.url.value, e.title.value, e.viewCount, e.likeCount, e.duration)
  }

  /** The entry filter: usable entries, converted, in their original order. */
  function UsableEntries(es: seq<Entry>): (r: seq<Candidate>)
    ensures |r| <= |es|
    ensures forall i :: 0 <= i < |es| && Usable(es[i]) ==> ToCandidate(es[i]) in r
    ensures forall c :: c in r ==> exists i :: 0 <= i < |es| && Usable(es[i]) && ToCandidate(es[i]) == c
    ensures (forall i :: 0 <= i < |es| ==> Usable(es[i])) ==> |r| == |es|
  {
    if |es| == 0 then []
    else
      var rest := UsableEntries(es[1..]);
      assert forall i :: 1 <= i < |es| ==> es[i] == es[1..][i - 1];
      if Usable(es[0]) then [ToCandidate(es[0])] + rest else rest
  }

  /** A single entry survives the filter exactly when it is usable. */
  lemma UsableEntriesSingle(e: Entry)
    ensures Usable(e) ==> UsableEntries([e]) == [ToCandidate(e)]
    ensures !Usable(e) ==> UsableEntries([e]) == []
  {
    assert [e][1..] == [];
  }

  /**
   * The filter works entry by entry and keeps the order: filtering a
   * concatenation concatenates the filtered parts.
   */
  lemma {:induction false} UsableEntriesAppend(a: seq<Entry>, b: seq<Entry>)
    ensures UsableEntries(a + b) == UsableEntries(a) + UsableEntries(b)
    decreases |a|
  {
    if |a| == 0 {
      assert a + b == b;
    } else {
      assert (a + b)[0] == a[0];
      assert (a + b)[1..] == a[1..] + b;
      UsableEntriesAppend(a[1..], b);
    }
  }

  /** What extraction returned: nothing, a search result list, or a single video. */
  datatype Info =
    | NoInfo
    | SearchResults(entries: seq<Entry>)
    | Video(url: Option<string>, title: Option<string>,
            viewCount: Option<int>, likeCount: Option<int>, duration: Option<int>)

  datatype Resolved = Entries(candidates: seq<Candidate>) | Single(video: Candidate)

  datatype ResolveError =
    | NoVideoInformation
    | NoSearchResults
    | NoValidSearchResults
    | MalformedEntry
    | IncompleteVideoInformation

  /**
   * The checks `try_extract_info` applies to an extraction result: an empty
   * result, an empty or fully filtered entry list, and a single video
   * without `url` or `title` are errors. The entry loop calls `.get` on
   * every entry before its dictionary test, so an entry that is not a
   * dictionary raises there and fails the whole result.
   */
  function ValidateInfo(info: Info): (r: Result<Resolved, ResolveError>)
    ensures r == Failure(NoVideoInformation) <==> info.NoInfo?
    ensures r == Failure(NoSearchResults) <==> info.SearchResults? && |info.entries| == 0
    ensures r == Failure(MalformedEntry) <==>
              info.SearchResults? && exists i :: 0 <= i < |info.entries| && info.entries[i].NotADict?
    ensures r == Failure(NoValidSearchResults) <==>
              && info.SearchResults? && |info.entries| > 0
              && (forall i :: 0 <= i < |info.entries| ==> info.entries[i].Dict?)
              && (forall i :: 0 <= i < |info.entries| ==> !Usable(info.entries[i]))
    ensures r == Failure(IncompleteVideoInformation) <==>
              info.Video? && (info.url.None? || info.title.None?)
    ensures r.Success? && r.value.Entries? ==>
              && info.SearchResults? && (forall i :: 0 <= i < |info.entries| ==> info.entries[i].Dict?)
              && r.value.candidates == UsableEntries(info.entries) && |r.value.candidates| > 0
    ensures r.Success? && r.value.Single? ==> info.Video? && r.value.video.webpageUrl == info.url.value
    ensures r.Success? && r.value.Single? ==>
              r.value.video == Candidate(info.url.value, info.title.value, info.viewCount, info.likeCount, info.duration)
  {
    match info
    case NoInfo => Failure(NoVideoInformation)
    case SearchResults(es) =>
      if |es| == 0 then Failure(NoSearchResults)
      else if exists i :: 0 <= i < |es| && es[i].NotADict? then Failure(MalformedEntry)
      else
        var cs := UsableEntries(es);
        if |cs| == 0 then
          Failure(NoValidSearchResults)
        else
          assert exists i :: 0 <= i < |es| && Usable(es[i]) by {
            assert cs[0] in cs;
          }
          Success(Entries(cs))
    case Video(u, t, v, l, d) =>
      if u.None? || t.None? then Failure(IncompleteVideoInformation)
      else Success(Single(Candidate(u.value, t.value, v, l, d)))
  }

  // ---------------------------------------------------------------------
  // Ranking
  // ---------------------------------------------------------------------

  /** `(view_count, like_count, duration)`, each defaulting to 0 when absent. */
  datatype Key = Key(views: int, likes: int, duration: int)

  function RankKey(c: Candidate): Key {
    Key(c.viewCount.GetOr(0), c.likeCount.GetOr(0), c.duration.GetOr(0))
  }

  /** Python's tuple order. */
  predicate KeyLess(a: Key, b: Key) {
    || a.views < b.views
    || (a.views == b.views && a.likes < b.likes)
    || (a.views == b.views && a.likes == b.likes && a.duration < b.duration)
  }

  /**
   * The head of a stable descending sort: a maximal key, and strictly
   * greater than every key before it.
   */
  predicate IsSortHead(cs: seq<Candidate>, i: nat) {
    && i < |cs|
    && (forall j :: 0 <= j < |cs| ==> !KeyLess(RankKey(cs[i]), RankKey(cs[j])))
    && (forall j :: 0 <= j < i ==> KeyLess(RankKey(cs[j]), RankKey(cs[i])))
  }

  lemma KeyTrichotomy(a: Key, b: Key)
    ensures KeyLess(a, b) || KeyLess(b, a) || a == b
  {
  }

  /** `entries.sort(key=..., reverse=True)` followed by `entries[0]`, as an index. */
  method BestCandidate(cs: seq<Candidate>) returns (best: nat)
    requires |cs| > 0
    ensures IsSortHead(cs, best)
  {
    best := 0;
    var i := 1;
    while i < |cs|
      invariant 1 <= i <= |cs| && best < i
      invariant forall j :: 0 <= j < i ==> !KeyLess(RankKey(cs[best]), RankKey(cs[j]))
      invariant forall j :: 0 <= j < best ==> KeyLess(RankKey(cs[j]), RankKey(cs[best]))
    {
      if KeyLess(RankKey(cs[best]), RankKey(cs[i])) {
        forall j | 0 <= j < i
          ensures KeyLess(RankKey(cs[j]), RankKey(cs[i]))
        {
          KeyTrichotomy(RankKey(cs[j]), RankKey(cs[best]));
        }
        best := i;
      }
      i := i + 1;
    }
  }

  /** The sort head is unique: any two indices meeting it coincide. */
  lemma SortHeadUnique(cs: seq<Candidate>, i: nat, j: nat)
    requires IsSortHead(cs, i) && IsSortHead(cs, j)
    ensures i == j
  {
    var ki, kj := RankKey(cs[i]), RankKey(cs[j]);
    assert i < j ==> KeyLess(ki, kj);
    assert !KeyLess(ki, kj);
    assert j < i ==> KeyLess(kj, ki);
    assert !KeyLess(kj, ki);
  }

  /** The page URL the play command appends to the queue. */
  method ChosenUrl(r: Resolved) returns (url: string)
    requires r.Entries? ==> |r.candidates| > 0
    ensures r.Single? ==> url == r.video.webpageUrl
    ensures r.Entries? ==> exists i: nat :: IsSortHead(r.candidates, i) && url == r.candidates[i].webpageUrl
  {
    match r
    case Single(v) =>
      url := v.webpageUrl;
    case Entries(cs) =>
      var i := BestCandidate(cs);
      url := cs[i].webpageUrl;
  }

  // ---------------------------------------------------------------------
  // Audio format
  // ---------------------------------------------------------------------

  datatype Format = Format(acodec: Option<string>, vcodec: Option<string>, url: Option<string>)

  /** `f.get('acodec') != 'none' and f.get('vcodec') == 'none'`. */
  predicate AudioOnly(f: Format) {
    f.acodec != Some("none") && f.vcodec == Some("none")
  }

  /** Index of the last audio-only format, if any. */
  function LastAudioOnly(fs: seq<Format>): (r: Option<nat>)
    ensures r.Some? ==> r.value < |fs| && AudioOnly(fs[r.value])
    ensures r.Some? ==> forall j :: r.value < j < |fs| ==> !AudioOnly(fs[j])
    ensures r.None? <==> forall j :: 0 <= j < |fs| ==> !AudioOnly(fs[j])
  {
    if |fs| == 0 then None
    else if AudioOnly(fs[|fs| - 1]) then Some(|fs| - 1)
    else
      var r := LastAudioOnly(fs[..|fs| - 1]);
      assert forall j :: 0 <= j < |fs| - 1 ==> fs[..|fs| - 1][j] == fs[j];
      r
  }

  datatype StreamError = NoSuitableAudioFormat | FormatWithoutUrl

  /**
   * The stream URL `play_track` hands to FFmpeg: the info's own `url` when
   * present, otherwise the `url` of the last audio-only format; no
   * audio-only format raises, and so does one without `url`.
   */
  function StreamUrl(direct: Option<string>, formats: seq<Format>): (r: Result<string, StreamError>)
    ensures direct.Some? ==> r == Success(direct.value)
    ensures direct.None? ==>
              (r == Failure(NoSuitableAudioFormat) <==> forall j :: 0 <= j < |formats| ==> !AudioOnly(formats[j]))
    ensures direct.None? ==>
              (r.Success? <==> var last := LastAudioOnly(formats);
                               last.Some? && formats[last.value].url.Some?)
    ensures direct.None? && r.Success? ==>
              exists i :: 0 <= i < |formats| && AudioOnly(formats[i]) && formats[i].url == Some(r.value)
                          && forall j :: i < j < |formats| ==> !AudioOnly(formats[j])
  {
    if direct.Some? then Success(direct.value)
    else
      match LastAudioOnly(formats)
      case None => Failure(NoSuitableAudioFormat)
      case Some(i) =>
        if formats[i].url.Some? then Success(formats[i].url.value) else Failure(FormatWithoutUrl)
  }

  // ---------------------------------------------------------------------
  // Search strategies
  // ---------------------------------------------------------------------

  const StrategySuffixes: seq<string> := ["", " music", " audio", " official", " lyrics"]

  /** The query, then the query with " music", " audio", " official" and " lyrics" appended. */
  function SearchStrategies(query: string): (r: seq<string>)
    ensures |r| == |StrategySuffixes| && r[0] == query
    ensures forall i :: 0 <= i < |r| ==> r[i] == query + StrategySuffixes[i]
  {
    seq(|StrategySuffixes|, i requires 0 <= i < |StrategySuffixes| => query + StrategySuffixes[i])
  }

  /** No two strategies are the same string, so the "last strategy" test only fires at the end. */
  lemma StrategiesDistinct(query: string)
    ensures Distinct(SearchStrategies(query))
  {
    var r := SearchStrategies(query);
    forall i, j | 0 <= i < j < |r|
      ensures r[i] != r[j]
    {
      assert r[i][|query|..] == StrategySuffixes[i];
      assert r[j][|query|..] == StrategySuffixes[j];
      assert StrategySuffixes[i] != StrategySuffixes[j];
    }
  }

  /**
   * The strategy loop of the play command, with each strategy's extraction
   * outcome given: stop at the first success; a failure ends the command
   * only when the failing string equals the last strategy, otherwise the
   * next one is tried. The success carries the strategy index. A failure
   * is any error a strategy raised: a failed validation or the extraction
   * call itself.
   */
  method TryStrategies<T, E>(strategies: seq<string>, outcomes: seq<Result<T, E>>)
    returns (r: Result<nat, E>)
    requires |outcomes| == |strategies| > 0
    ensures r.Success? ==>
              r.value < |outcomes| && outcomes[r.value].Success? &&
              forall j :: 0 <= j < r.value ==> outcomes[j].Failure?
    ensures r.Failure? ==>
              exists i :: 0 <= i < |outcomes| && outcomes[i] == Failure(r.error) &&
                          strategies[i] == strategies[|strategies| - 1]
    ensures Distinct(strategies) ==>
              (r.Failure? <==> forall j :: 0 <= j < |outcomes| ==> outcomes[j].Failure?)
  {
    var n := |strategies|;
    var last := strategies[n - 1];
    var i := 0;
    while i < n - 1
      invariant 0 <= i <= n - 1
      invariant forall j :: 0 <= j < i ==> outcomes[j].Failure? && strategies[j] != last
    {
      match outcomes[i]
      case Success(_) =>
        return Success(i);
      case Failure(e) =>
        if strategies[i] == last {
          return Failure(e);
        }
      i := i + 1;
    }
    match outcomes[n - 1]
    case Success(_) =>
      r := Success(n - 1);
    case Failure(e) =>
      r := Failure(e);
  }
}
