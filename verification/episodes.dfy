/** Series requests: the `tt…:season:episode` identifier, its gating, the
    two-digit padding and the episode filter applied to EZTV results. */
module Episodes {
  import opened Wrappers
  import opened Text
  import opened Numbers
  import opened Seqs
  import opened Streams

  datatype EpisodeRef = EpisodeRef(imdbId: string, season: int, episode: int)

  /** `parseInt(parts[k], 10)`; a missing part is `undefined`, which parses
      as `NaN`. */
  function ParsePart(parts: seq<string>, k: nat): Option<int>
  {
    if k < |parts| then ParseInt(parts[k], Decimal) else None
  }

  /** `id.split(":")` followed by the guard `imdbId && sea && ep`: the id
      part must be non-empty and both numbers must be neither `NaN` nor 0. */
  function ParseSeriesId(id: string): (r: Option<EpisodeRef>)
    ensures r.Some? ==> r.value.imdbId != "" && ':' !in r.value.imdbId
    ensures r.Some? ==> r.value.season != 0 && r.value.episode != 0
  {
    var parts := Split(id, ':');
    var sea := ParsePart(parts, 1);
    var ep := ParsePart(parts, 2);
    if parts[0] != "" && sea.Some? && sea.value != 0 && ep.Some? && ep.value != 0
    then Some(EpisodeRef(parts[0], sea.value, ep.value))
    else None
  }

  lemma SplitThree(x: string, a: string, b: string)
    requires ':' !in x && ':' !in a && ':' !in b
    ensures Split(x + ":" + a + ":" + b, ':') == [x, a, b]
  {
    var parts := [x, a, b];
    assert parts[1..] == [a, b] && parts[1..][1..] == [b];
    assert Join([a, b], ':') == a + [':'] + b;
    assert Join(parts, ':') == x + ":" + a + ":" + b;
    JoinThenSplit(parts, ':');
  }

  lemma ParseDecimal(n: int)
    ensures ParseInt(IntToString(n), Decimal) == Some(n)
  {
    ParseIntOfIntToString(n, "", Decimal);
    assert IntToString(n) + "" == IntToString(n);
  }

  /** An identifier written as `imdbId:season:episode` reads back. */
  lemma ParseSeriesIdRoundTrip(imdbId: string, season: int, episode: int)
    requires imdbId != "" && ':' !in imdbId
    requires season != 0 && episode != 0
    ensures ParseSeriesId(imdbId + ":" + IntToString(season) + ":" + IntToString(episode))
      == Some(EpisodeRef(imdbId, season, episode))
  {
    var a := IntToString(season);
    var b := IntToString(episode);
    NoColonInNumber(season);
    NoColonInNumber(episode);
    var id := imdbId + ":" + a + ":" + b;
    SplitThree(imdbId, a, b);
    ParseDecimal(season);
    ParseDecimal(episode);
    ParseSeriesIdOfParts(id, [imdbId, a, b]);
  }

  /** A rendered number never contains the separator. */
  lemma NoColonInNumber(n: int)
    ensures ':' !in IntToString(n)
  {
    var s := IntToString(n);
    assert forall i :: 0 <= i < |s| ==> s[i] != ':';
  }

  lemma ParseSeriesIdOfParts(id: string, parts: seq<string>)
    requires Split(id, ':') == parts && |parts| == 3 && parts[0] != ""
    requires ParseInt(parts[1], Decimal).Some? && ParseInt(parts[1], Decimal).value != 0
    requires ParseInt(parts[2], Decimal).Some? && ParseInt(parts[2], Decimal).value != 0
    ensures ParseSeriesId(id) == Some(EpisodeRef(parts[0], ParseInt(parts[1], Decimal).value, ParseInt(parts[2], Decimal).value))
  {
  }

  /** A bare IMDb id creates no series work. */
  lemma BareIdRejected(imdbId: string)
    requires ':' !in imdbId
    ensures ParseSeriesId(imdbId) == None
  {
    SplitOfPiece(imdbId, ':');
  }

  /** A season or episode that reads as `NaN` or 0 is falsy, so it creates
      no series work either. */
  lemma FalsyNumberRejected(imdbId: string, season: string, episode: string)
    requires ':' !in imdbId && ':' !in season && ':' !in episode
    requires ParseInt(season, Decimal) in {None, Some(0)} || ParseInt(episode, Decimal) in {None, Some(0)}
    ensures ParseSeriesId(imdbId + ":" + season + ":" + episode) == None
  {
    SplitThree(imdbId, season, episode);
  }

  /** `n < 10 ? `0${n}` : n`: a leading zero for values below 10 only
      (negative values included). */
  function Pad2(n: int): (r: string)
    ensures |r| >= 1
    ensures 0 <= n < 100 ==> |r| == 2
    ensures n >= 10 ==> r == IntToString(n)
    ensures r[0] == '0' <==> n < 10
  {
    if n < 10 then "0" + IntToString(n)
    else
      assert n < 100 ==> NatToString(n) == NatToString(n / 10) + [DigitChar(n % 10)];
      IntToString(n)
  }

  /** Padding does not change the number a reader sees. */
  lemma Pad2ReadsBack(n: int)
    requires n >= 0
    ensures ParseInt(Pad2(n), Decimal) == Some(n)
  {
    if n >= 10 {
      ParseIntOfIntToString(n, "", Decimal);
      assert IntToString(n) + "" == IntToString(n);
    } else {
      var s := Pad2(n);
      assert s == ['0', DigitChar(n)];
      assert !IsJsSpace(s[0]);
      assert TrimStart(s) == s;
      assert DigitRun(s[1..], 10) == s[1..];
      assert DigitRun(s, 10) == s;
      assert s[..1] == "0";
      assert Value(s, 10) == n;
      assert ParseMagnitude(s, Decimal) == Some(n);
    }
  }

  /** Negative seasons pass the guard and are padded as written. */
  lemma NegativePadding()
    ensures ParseSeriesId("tt1:-1:2") == Some(EpisodeRef("tt1", -1, 2))
    ensures Pad2(-1) == "0-1"
  {
    MinusOneAndTwo();
    var text := "tt1" + ":" + IntToString(-1) + ":" + IntToString(2);
    assert text == "tt1:-1:2";
    assert ':' !in "tt1";
    ParseSeriesIdRoundTrip("tt1", -1, 2);
  }

  lemma MinusOneAndTwo()
    ensures IntToString(-1) == "-1" && IntToString(2) == "2"
  {
  }

  /** `S{ss}E{ee}`. */
  function SeasonEpisodeTag(e: EpisodeRef): string
  {
    "S" + Pad2(e.season) + "E" + Pad2(e.episode)
  }

  /** `{season}x{ee}`: the season is not padded. */
  function CrossTag(e: EpisodeRef): string
  {
    IntToString(e.season) + "x" + Pad2(e.episode)
  }

  /** The filter's regular expression `S{ss}E{ee}|{season}x{ee}` with the
      `i` flag, unanchored. */
  predicate IsEpisodeTitle(title: string, e: EpisodeRef): (b: bool)
    ensures b <==> Occurs(title, SeasonEpisodeTag(e), true) || Occurs(title, CrossTag(e), true)
  {
    ContainsCI(title, SeasonEpisodeTag(e)) || ContainsCI(title, CrossTag(e))
  }

  /** `res.filter(r => pattern.test(r.title))`. */
  function EpisodeFilter(streams: seq<Stream>, e: EpisodeRef): (r: seq<Stream>)
    ensures IsSubsequence(r, streams)
    ensures forall k :: 0 <= k < |r| ==> r[k] in streams && IsEpisodeTitle(r[k].title, e)
    ensures forall k :: 0 <= k < |streams| && IsEpisodeTitle(streams[k].title, e) ==> streams[k] in r
    ensures forall k :: 0 <= k < |streams| ==>
      multiset(r)[streams[k]] == if IsEpisodeTitle(streams[k].title, e) then multiset(streams)[streams[k]] else 0
  {
    var keep := (s: Stream) => IsEpisodeTitle(s.title, e);
    FilterCounts(streams, keep);
    Filter(streams, keep)
  }

  lemma TagsForS01E02(imdbId: string)
    ensures SeasonEpisodeTag(EpisodeRef(imdbId, 1, 2)) == "S01E02"
    ensures CrossTag(EpisodeRef(imdbId, 1, 2)) == "1x02"
  {
    assert IntToString(1) == "1" && IntToString(2) == "2";
    assert Pad2(1) == "01" && Pad2(2) == "02";
  }

  /** Both formats are accepted, in any letter case. */
  lemma SeasonEpisodeFormatAccepted(imdbId: string)
    ensures IsEpisodeTitle("Show.S01E02.720p", EpisodeRef(imdbId, 1, 2))
  {
    TagsForS01E02(imdbId);
    assert MatchAt("Show.S01E02.720p", "S01E02", 5, true);
  }

  lemma LowerCaseFormatAccepted(imdbId: string)
    ensures IsEpisodeTitle("show.s01e02.hdtv", EpisodeRef(imdbId, 1, 2))
  {
    TagsForS01E02(imdbId);
    assert MatchAt("show.s01e02.hdtv", "S01E02", 5, true);
  }

  lemma CrossFormatAccepted(imdbId: string)
    ensures IsEpisodeTitle("Show 1x02 HDTV", EpisodeRef(imdbId, 1, 2))
  {
    TagsForS01E02(imdbId);
    assert MatchAt("Show 1x02 HDTV", "1x02", 5, true);
  }

  /** The match is unanchored: season 11's "11x02" passes the filter for
      season 1, episode 2. */
  lemma CrossTagIsUnanchored(imdbId: string)
    ensures IsEpisodeTitle("Show 11x02 720p", EpisodeRef(imdbId, 1, 2))
  {
    TagsForS01E02(imdbId);
    assert MatchAt("Show 11x02 720p", "1x02", 6, true);
  }

  /** Whichever format matched, the title holds the padded episode
      number. */
  lemma EpisodeTitleNamesEpisode(title: string, e: EpisodeRef)
    requires IsEpisodeTitle(title, e)
    ensures Occurs(title, Pad2(e.episode), true)
  {
    var ep := Pad2(e.episode);
    if ContainsCI(title, SeasonEpisodeTag(e)) {
      assert SeasonEpisodeTag(e) == ("S" + Pad2(e.season) + "E") + ep;
      TailOccurrence(title, "S" + Pad2(e.season) + "E", ep, true);
    } else {
      assert CrossTag(e) == (IntToString(e.season) + "x") + ep;
      TailOccurrence(title, IntToString(e.season) + "x", ep, true);
    }
  }

  /** A title lacking the last digit of the padded episode number is
      dropped. */
  lemma EpisodeDigitRequired(title: string, e: EpisodeRef)
    requires LacksCI(title, Pad2(e.episode)[|Pad2(e.episode)| - 1])
    ensures !IsEpisodeTitle(title, e)
  {
    var ep := Pad2(e.episode);
    AbsentCharBlocksMatch(title, ep, |ep| - 1);
    if IsEpisodeTitle(title, e) {
      EpisodeTitleNamesEpisode(title, e);
    }
  }

  /** Another episode of the same season is dropped. */
  lemma OtherEpisodeRejected(imdbId: string)
    ensures !IsEpisodeTitle("Show.S01E01.HDTV", EpisodeRef(imdbId, 1, 2))
  {
    TagsForS01E02(imdbId);
    NoTwoInTitle();
    EpisodeDigitRequired("Show.S01E01.HDTV", EpisodeRef(imdbId, 1, 2));
  }

  lemma NoTwoInTitle()
    ensures LacksCI("Show.S01E01.HDTV", '2')
  {
    var t := "Show.S01E01.HDTV";
    assert forall p :: 0 <= p < |t| ==> t[p] != '2';
  }
}
