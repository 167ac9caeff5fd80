/** The stream handler: preferred resolution, the provider tasks a request
    creates, `Promise.allSettled` and its merge, and the autoplay choice.
    The providers are parameters; the metadata lookup is an input. */
module Handler {
  import opened Wrappers
  import opened Text
  import opened Seqs
  import opened Streams
  import opened Scoring
  import opened Ranking
  import opened Episodes

  const DefaultResolution := "1080p"

  /** The best candidate must score at least this to be played. */
  const AutoplayFloor := -4000

  /** `config?.resolution || "1080p"`. */
  function PreferredResolution(configured: Option<string>): (pref: string)
    ensures pref != ""
    ensures configured.Some? && configured.value != "" ==> pref == configured.value
    ensures configured.None? || configured.value == "" ==> pref == DefaultResolution
  {
    match configured
    case Some(r) => if r != "" then r else DefaultResolution
    case None => DefaultResolution
  }

  /** The title lookup's answer; an empty `year` is a missing one. */
  datatype Meta = Meta(name: string, year: string)

  /** `meta ? meta.name : ""`, followed by ` ${meta.year}` when there is a year. */
  function SearchQuery(meta: Option<Meta>): (q: string)
    ensures meta.None? ==> q == ""
    ensures meta.Some? ==> StartsWith(q, meta.value.name)
    ensures q == "" <==> meta.None? || (meta.value.name == "" && meta.value.year == "")
    ensures meta.Some? && meta.value.year == "" ==> q == meta.value.name
    ensures meta.Some? && meta.value.year != "" ==> q == meta.value.name + " " + meta.value.year
  {
    match meta
    case None => ""
    case Some(m) => if m.year != "" then m.name + " " + m.year else m.name
  }

  /** `${query} S${ss}E${ee}`: the TPB search for one episode. */
  function EpisodeQuery(query: string, e: EpisodeRef): (q: string)
    ensures StartsWith(q, query)
    ensures q[|query|..] == " " + SeasonEpisodeTag(e)
  {
    var tag := " " + SeasonEpisodeTag(e);
    assert (query + tag)[|query|..] == tag;
    query + tag
  }

  /** The series search for season 1, episode 2 of "Show 2020". */
  lemma EpisodeQueryForS01E02(imdbId: string)
    ensures EpisodeQuery("Show 2020", EpisodeRef(imdbId, 1, 2)) == "Show 2020 S01E02"
  {
    TagsForS01E02(imdbId);
  }

  /** One provider call the handler starts. */
  datatype Task = YtsTask(imdbId: string) | TpbTask(query: string) | EztvTask(episode: EpisodeRef)

  /** The provider calls pushed for a request, in push order. */
  function Tasks(mediaType: string, id: string, query: string): (ts: seq<Task>)
    ensures |ts| <= 2
    ensures mediaType != "movie" && mediaType != "series" ==> ts == []
  {
    if mediaType == "movie" then
      [YtsTask(id)] + (if query != "" then [TpbTask(query)] else [])
    else if mediaType == "series" then
      match ParseSeriesId(id)
      case None => []
      case Some(e) => [EztvTask(e)] + (if query != "" then [TpbTask(EpisodeQuery(query, e))] else [])
    else []
  }

  /** A movie asks YTS first, then TPB with the title query when there
      is one. */
  lemma MovieTasks(id: string, query: string)
    ensures var ts := Tasks("movie", id, query);
      |ts| == (if query == "" then 1 else 2) && ts[0] == YtsTask(id) &&
      (query != "" ==> ts[1] == TpbTask(query))
  {
  }

  /** A series asks EZTV first and TPB with the episode query second, and
      only when its id passes the guard. */
  lemma SeriesTasks(id: string, query: string)
    ensures Tasks("series", id, query) != [] <==> ParseSeriesId(id).Some?
    ensures ParseSeriesId(id).Some? ==>
      var ts := Tasks("series", id, query);
      var e := ParseSeriesId(id).value;
      |ts| == (if query == "" then 1 else 2) && ts[0] == EztvTask(e) &&
      (query != "" ==> ts[1] == TpbTask(EpisodeQuery(query, e)))
  {
    assert "series" != "movie";
  }

  /** A settled promise. */
  datatype Settled<T> = Fulfilled(value: T) | Rejected

  /** The three provider calls, each given the string the handler passes. */
  datatype Providers = Providers(
    yts: string -> Settled<seq<Stream>>,
    tpb: string -> Settled<seq<Stream>>,
    eztv: string -> Settled<seq<Stream>>)

  /** One task: EZTV's results go through the episode filter (`.then`),
      which a rejection skips. */
  function Run(t: Task, p: Providers): (r: Settled<seq<Stream>>)
    ensures t.YtsTask? ==> r == p.yts(t.imdbId)
    ensures t.TpbTask? ==> r == p.tpb(t.query)
    ensures t.EztvTask? ==> (r.Rejected? <==> p.eztv(t.episode.imdbId).Rejected?)
    ensures t.EztvTask? && r.Fulfilled? ==>
      var xs := p.eztv(t.episode.imdbId).value;
      IsSubsequence(r.value, xs) &&
      (forall k :: 0 <= k < |r.value| ==> IsEpisodeTitle(r.value[k].title, t.episode)) &&
      (forall k :: 0 <= k < |xs| && IsEpisodeTitle(xs[k].title, t.episode) ==> xs[k] in r.value) &&
      (forall k :: 0 <= k < |xs| ==>
        multiset(r.value)[xs[k]] == if IsEpisodeTitle(xs[k].title, t.episode) then multiset(xs)[xs[k]] else 0)
  {
    match t
    case YtsTask(id) => p.yts(id)
    case TpbTask(q) => p.tpb(q)
    case EztvTask(e) =>
      match p.eztv(e.imdbId)
      case Fulfilled(xs) => Fulfilled(EpisodeFilter(xs, e))
      case Rejected => Rejected
  }

  function RunAll(ts: seq<Task>, p: Providers): (rs: seq<Settled<seq<Stream>>>)
    ensures |rs| == |ts|
    ensures forall k :: 0 <= k < |ts| ==> rs[k] == Run(ts[k], p)
  {
    seq(|ts|, k requires 0 <= k < |ts| => Run(ts[k], p))
  }

  /** What one settled task adds to the merged list. */
  function Contribution<T>(r: Settled<seq<T>>): seq<T>
  {
    match r
    case Fulfilled(xs) => xs
    case Rejected => []
  }

  /** `results.flatMap(r => r.status === 'fulfilled' ? r.value : [])`. */
  function Merge<T>(results: seq<Settled<seq<T>>>): seq<T>
  {
    if |results| == 0 then []
    else Contribution(results[0]) + Merge(results[1..])
  }

  /** Every value of every fulfilled task is in the merged list. */
  lemma {:induction false} MergeComplete<T>(results: seq<Settled<seq<T>>>)
    ensures forall i, j :: 0 <= i < |results| && results[i].Fulfilled? && 0 <= j < |results[i].value| ==>
      results[i].value[j] in Merge(results)
  {
    if |results| > 0 {
      var rest := Merge(results[1..]);
      MergeComplete(results[1..]);
      assert forall i :: 1 <= i < |results| ==> results[i] == results[1..][i - 1];
      assert Merge(results) == Contribution(results[0]) + rest;
    }
  }

  /** `x` is one of the values of a fulfilled task. */
  ghost predicate FromFulfilled<T>(results: seq<Settled<seq<T>>>, x: T)
  {
    exists i :: 0 <= i < |results| && results[i].Fulfilled? && x in results[i].value
  }

  /** Every merged candidate comes from a fulfilled task. */
  lemma {:induction false} MergeSources<T>(results: seq<Settled<seq<T>>>)
    ensures forall k :: 0 <= k < |Merge(results)| ==> FromFulfilled(results, Merge(results)[k])
  {
    if |results| > 0 {
      var c := Contribution(results[0]);
      var rest := Merge(results[1..]);
      var m := Merge(results);
      MergeSources(results[1..]);
      assert m == c + rest;
      forall k | 0 <= k < |m|
        ensures FromFulfilled(results, m[k])
      {
        if k < |c| {
          assert m[k] == c[k];
        } else {
          assert m[k] == rest[k - |c|];
          FromFulfilledTail(results, m[k]);
        }
      }
    }
  }

  lemma FromFulfilledTail<T>(results: seq<Settled<seq<T>>>, x: T)
    requires |results| > 0 && FromFulfilled(results[1..], x)
    ensures FromFulfilled(results, x)
  {
    var i :| 0 <= i < |results[1..]| && results[1..][i].Fulfilled? && x in results[1..][i].value;
    assert results[i + 1] == results[1..][i];
  }

  lemma {:induction false} MergeAppend<T>(a: seq<Settled<seq<T>>>, b: seq<Settled<seq<T>>>)
    ensures Merge(a + b) == Merge(a) + Merge(b)
  {
    if |a| > 0 {
      var head := Contribution(a[0]);
      var t := a[1..];
      assert a == [a[0]] + t;
      assert a + b == [a[0]] + (t + b);
      MergeCons(a[0], t);
      MergeCons(a[0], t + b);
      MergeAppend(t, b);
      assert head + (Merge(t) + Merge(b)) == (head + Merge(t)) + Merge(b);
    } else {
      assert a + b == b;
      assert Merge(a) == [];
      assert [] + Merge(b) == Merge(b);
    }
  }

  /** The first task's contribution comes first. */
  lemma MergeCons<T>(r: Settled<seq<T>>, rest: seq<Settled<seq<T>>>)
    ensures Merge([r] + rest) == Contribution(r) + Merge(rest)
  {
    assert ([r] + rest)[0] == r;
    assert ([r] + rest)[1..] == rest;
  }

  /** A single settled task merges to exactly its own contribution, in its
      own order: with `MergeAppend` this fixes the merged list completely. */
  lemma MergeOne<T>(r: Settled<seq<T>>)
    ensures Merge([r]) == Contribution(r)
  {
  }

  /** A rejected task contributes nothing. */
  lemma MergeSkipsRejected<T>(a: seq<Settled<seq<T>>>, b: seq<Settled<seq<T>>>)
    ensures Merge(a + [Rejected] + b) == Merge(a + b)
  {
    var c: seq<Settled<seq<T>>> := [Rejected] + b;
    assert a + [Rejected] + b == a + c;
    assert c[0] == Rejected && c[1..] == b;
    assert Merge(c) == [] + Merge(b) == Merge(b);
    MergeAppend(a, c);
    MergeAppend(a, b);
  }

  /** Results with the same contributions merge to the same list. */
  lemma {:induction false} MergeByContributions<T>(a: seq<Settled<seq<T>>>, b: seq<Settled<seq<T>>>)
    requires |a| == |b|
    requires forall k :: 0 <= k < |a| ==> Contribution(a[k]) == Contribution(b[k])
    ensures Merge(a) == Merge(b)
  {
    if |a| > 0 {
      MergeByContributions(a[1..], b[1..]);
    }
  }

  /** The scoring function as a sort key. */
  function ScoreKey(pref: string): Stream -> int
  {
    s => Score(s, pref)
  }

  /** Score, sort stably in descending order and take the first; nothing
      when there are no candidates or the best is below the floor. */
  function Autoplay(raw: seq<Stream>, pref: string): (chosen: seq<Stream>)
    ensures |chosen| <= 1
    ensures chosen == [] <==> forall k :: 0 <= k < |raw| ==> Score(raw[k], pref) < AutoplayFloor
    ensures chosen != [] ==>
      exists i :: 0 <= i < |raw| && chosen[0] == raw[i] &&
        (forall j :: 0 <= j < |raw| ==> Score(raw[j], pref) <= Score(raw[i], pref)) &&
        (forall j :: 0 <= j < i ==> Score(raw[j], pref) < Score(raw[i], pref))
    ensures chosen != [] ==> Score(chosen[0], pref) >= AutoplayFloor && chosen[0].seeds >= 1
    ensures chosen != [] ==> |raw| > 0 && chosen[0] == raw[EarliestMax(raw, ScoreKey(pref))]
  {
    if |raw| == 0 then []
    else
      var key := ScoreKey(pref);
      var ranked := SortDesc(raw, key);
      SortDescHead(raw, key);
      var i := EarliestMax(raw, key);
      EarliestBestScore(raw, pref);
      assert ranked[0] == raw[i];
      if Score(ranked[0], pref) < AutoplayFloor then [] else [ranked[0]]
  }

  /** `EarliestMax` under the score key, restated in terms of scores. */
  lemma EarliestBestScore(raw: seq<Stream>, pref: string)
    requires |raw| > 0
    ensures var i := EarliestMax(raw, ScoreKey(pref));
      (forall j :: 0 <= j < |raw| ==> Score(raw[j], pref) <= Score(raw[i], pref)) &&
      (forall j :: 0 <= j < i ==> Score(raw[j], pref) < Score(raw[i], pref)) &&
      (Score(raw[i], pref) < AutoplayFloor <==> forall k :: 0 <= k < |raw| ==> Score(raw[k], pref) < AutoplayFloor)
  {
  }

  /** The whole handler, up to the display fields of the returned stream:
      the earliest best candidate of the merged results, unless even it is
      below the floor. */
  function HandleStream(mediaType: string, id: string, configured: Option<string>, meta: Option<Meta>, p: Providers): (streams: seq<Stream>)
    ensures |streams| <= 1
    ensures mediaType != "movie" && mediaType != "series" ==> streams == []
    ensures mediaType == "series" && ParseSeriesId(id).None? ==> streams == []
    ensures streams != [] ==>
      streams[0].seeds >= 1 && Score(streams[0], PreferredResolution(configured)) >= AutoplayFloor
    ensures var raw := Merge(RunAll(Tasks(mediaType, id, SearchQuery(meta)), p));
      var pref := PreferredResolution(configured);
      (streams == [] <==> forall k :: 0 <= k < |raw| ==> Score(raw[k], pref) < AutoplayFloor) &&
      (streams != [] ==> |raw| > 0 && streams[0] == raw[EarliestMax(raw, ScoreKey(pref))])
  {
    var ts := Tasks(mediaType, id, SearchQuery(meta));
    var raw := Merge(RunAll(ts, p));
    assert ts == [] ==> raw == [];
    Autoplay(raw, PreferredResolution(configured))
  }

  /** Every EZTV candidate that reaches scoring matches the requested
      episode's pattern `S{ss}E{ee}|{season}x{ee}` (which, unanchored, also
      lets "11x02" through for season 1). */
  lemma EztvCandidatesMatchEpisode(e: EpisodeRef, p: Providers)
    ensures forall k :: 0 <= k < |Contribution(Run(EztvTask(e), p))| ==>
      IsEpisodeTitle(Contribution(Run(EztvTask(e), p))[k].title, e)
  {
  }

  /** The handler sees a provider only through what it contributes: a
      provider that fails is indistinguishable from one that finds nothing. */
  lemma OnlyContributionsMatter(mediaType: string, id: string, configured: Option<string>, meta: Option<Meta>, p: Providers, q: Providers)
    requires forall s :: Contribution(p.yts(s)) == Contribution(q.yts(s))
    requires forall s :: Contribution(p.tpb(s)) == Contribution(q.tpb(s))
    requires forall s :: Contribution(p.eztv(s)) == Contribution(q.eztv(s))
    ensures HandleStream(mediaType, id, configured, meta, p) == HandleStream(mediaType, id, configured, meta, q)
  {
    var ts := Tasks(mediaType, id, SearchQuery(meta));
    forall k | 0 <= k < |ts|
      ensures Contribution(Run(ts[k], p)) == Contribution(Run(ts[k], q))
    {
      if ts[k].EztvTask? {
        assert Contribution(p.eztv(ts[k].episode.imdbId)) == Contribution(q.eztv(ts[k].episode.imdbId));
      }
    }
    MergeByContributions(RunAll(ts, p), RunAll(ts, q));
  }

  /** A clean, seeded candidate at the preferred resolution beats a more
      popular one at a lower tier: "Movie.1080p" with 40 seeds wins over
      "Movie.720p" with 500 when 1080p is preferred, in either order. */
  lemma ResolutionOutweighsSeeds(a: Stream, b: Stream)
    requires a.title == "Movie.1080p" && a.resolution == "1080p" && a.seeds == 40
    requires b.title == "Movie.720p" && b.resolution == "720p" && b.seeds == 500
    ensures Autoplay([a, b], "1080p") == [a]
    ensures Autoplay([b, a], "1080p") == [a]
  {
    ScenarioScores(a, b);
    StrictlyBestIsChosen([a, b], "1080p", 0);
    StrictlyBestIsChosen([b, a], "1080p", 1);
  }

  /** A candidate above the floor that outscores every other one is the
      one played. */
  lemma StrictlyBestIsChosen(raw: seq<Stream>, pref: string, i: nat)
    requires i < |raw| && Score(raw[i], pref) >= AutoplayFloor
    requires forall j :: 0 <= j < |raw| && j != i ==> Score(raw[j], pref) < Score(raw[i], pref)
    ensures Autoplay(raw, pref) == [raw[i]]
  {
    var r := Autoplay(raw, pref);
    assert r != [];
    var m :| 0 <= m < |raw| && r[0] == raw[m] &&
      forall j :: 0 <= j < |raw| ==> Score(raw[j], pref) <= Score(raw[m], pref);
    assert m == i;
  }
}
