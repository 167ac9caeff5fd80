/** `scoreStream`: an integer desirability score built from the resolution
    tier, the capped seed count and two penalties. */
module Scoring {
  import opened Text
  import opened Streams

  const ExactMatchBonus := 2000
  const SeedCap := 500
  const NoSeedPenalty := 10000
  const LowQualityPenalty := 5000

  /** Resolution tier: an exact match beats everything; only a preference
      of exactly "1080p" rewards a neighbour (2160p above 720p). */
  function ResolutionBonus(resolution: string, pref: string): (b: int)
    ensures 0 <= b <= ExactMatchBonus
    ensures b == ExactMatchBonus <==> resolution == pref
    ensures b > 0 && resolution != pref ==> pref == "1080p"
  {
    if resolution == pref then ExactMatchBonus
    else if pref == "1080p" && resolution == "2160p" then 1500
    else if pref == "1080p" && resolution == "720p" then 1000
    else 0
  }

  /** `Math.min(seeds, 500)`. */
  function SeedTerm(seeds: int): (t: int)
    ensures t <= SeedCap && t <= seeds
    ensures t == seeds || t == SeedCap
  {
    if seeds < SeedCap then seeds else SeedCap
  }

  /** `/CAM|HDCAM|TS|HDTS|SCR/i.test(title)` after dropping the alternatives
      that contain another one: an unanchored, case-insensitive substring
      test, so "[YTS]" and "Description" both qualify. */
  predicate LowQuality(title: string): (b: bool)
    ensures b <==> MatchesCamRegex(title)
  {
    HdVariantsSubsumed(title);
    ContainsCI(title, "CAM") || ContainsCI(title, "TS") || ContainsCI(title, "SCR")
  }

  /** The regular expression as written, all five alternatives. */
  ghost predicate MatchesCamRegex(title: string)
  {
    Occurs(title, "CAM", true) || Occurs(title, "HDCAM", true) || Occurs(title, "TS", true) ||
    Occurs(title, "HDTS", true) || Occurs(title, "SCR", true)
  }

  function Score(s: Stream, pref: string): (r: int)
    ensures r <= ExactMatchBonus + SeedCap
    ensures s.seeds < 1 ==> r <= ExactMatchBonus - NoSeedPenalty
    ensures LowQuality(s.title) ==> r <= ExactMatchBonus + SeedCap - LowQualityPenalty
    ensures s.seeds >= 1 && !LowQuality(s.title) ==> r >= 1
  {
    ResolutionBonus(s.resolution, pref)
    + SeedTerm(s.seeds)
    - (if s.seeds < 1 then NoSeedPenalty else 0)
    - (if LowQuality(s.title) then LowQualityPenalty else 0)
  }

  /** HDCAM and HDTS add nothing to the regex: a title containing either
      already contains CAM or TS. */
  lemma HdVariantsSubsumed(title: string)
    ensures Occurs(title, "HDCAM", true) ==> Occurs(title, "CAM", true)
    ensures Occurs(title, "HDTS", true) ==> Occurs(title, "TS", true)
  {
    if Occurs(title, "HDCAM", true) {
      assert "HD" + "CAM" == "HDCAM";
      TailOccurrence(title, "HD", "CAM", true);
    }
    if Occurs(title, "HDTS", true) {
      assert "HD" + "TS" == "HDTS";
      TailOccurrence(title, "HD", "TS", true);
    }
  }

  /** With a preference of "1080p" the tiers are strictly ordered
      1080p > 2160p > 720p > anything else. */
  lemma TiersAround1080p(other: string)
    requires other != "1080p" && other != "2160p" && other != "720p"
    ensures ResolutionBonus("1080p", "1080p") == 2000
    ensures ResolutionBonus("2160p", "1080p") == 1500
    ensures ResolutionBonus("720p", "1080p") == 1000
    ensures ResolutionBonus(other, "1080p") == 0
  {
  }

  /** Any other preference rewards the exact match only. */
  lemma OnlyExactMatchOtherwise(resolution: string, pref: string)
    requires pref != "1080p"
    ensures ResolutionBonus(resolution, pref) == (if resolution == pref then 2000 else 0)
  {
  }

  /** Seeds beyond 500 add nothing. */
  lemma SeedsSaturate(s: Stream, pref: string, more: int)
    requires s.seeds >= SeedCap && more >= SeedCap
    ensures Score(s.(seeds := more), pref) == Score(s, pref)
  {
  }

  /** More seeds never lower the score. */
  lemma ScoreMonotoneInSeeds(s: Stream, pref: string, more: int)
    requires s.seeds <= more
    ensures Score(s, pref) <= Score(s.(seeds := more), pref)
  {
  }

  /** A stream clears the autoplay floor of -4000 exactly when it has a
      seed and, if it is flagged low quality, its resolution bonus and
      capped seeds reach 1000. */
  lemma AboveFloorIff(s: Stream, pref: string)
    ensures Score(s, pref) >= -4000 <==>
      s.seeds >= 1 &&
      (!LowQuality(s.title) || ResolutionBonus(s.resolution, pref) + SeedTerm(s.seeds) >= 1000)
  {
  }

  /** Every YTS title starts with "[YTS]", which contains "TS": every YTS
      candidate takes the low-quality penalty. */
  lemma YtsAlwaysLowQuality(s: Stream, pref: string)
    requires StartsWith(s.title, "[YTS] ")
    ensures LowQuality(s.title)
    ensures Score(s, pref) <= -2500
  {
    assert MatchAt(s.title, "TS", 2, true);
  }

  /** The match is not whole-word: an ordinary word containing "scr"
      counts as a screener marker. */
  lemma DescriptionIsLowQuality()
    ensures LowQuality("Description")
  {
    assert MatchAt("Description", "SCR", 2, true);
  }

  /** A TPB candidate can never match a "720p" preference, since TPB never
      labels anything "720p"; likewise no EZTV candidate matches "2160p". */
  lemma AdapterLabelsLimitTiers(row: TpbRow, t: EztvTorrent)
    ensures ResolutionBonus(TpbStream(row).resolution, "720p") == 0
    ensures ResolutionBonus(EztvStream(t).resolution, "2160p") == 0
  {
  }

  /** The scores of the two example candidates used when comparing a
      well-seeded 720p stream with a less seeded 1080p one. */
  lemma ScenarioScores(a: Stream, b: Stream)
    requires a.title == "Movie.1080p" && a.resolution == "1080p" && a.seeds == 40
    requires b.title == "Movie.720p" && b.resolution == "720p" && b.seeds == 500
    ensures Score(a, "1080p") == 2040 && Score(b, "1080p") == 1500
  {
    MovieTitlesClean();
    TiersAround1080p("SD");
    assert ResolutionBonus(a.resolution, "1080p") == 2000;
    assert ResolutionBonus(b.resolution, "1080p") == 1000;
    assert SeedTerm(a.seeds) == 40 && SeedTerm(b.seeds) == 500;
  }

  lemma MovieTitlesClean()
    ensures !LowQuality("Movie.1080p") && !LowQuality("Movie.720p")
  {
    NoCOrS1080();
    NoCOrS720();
    CleanTitle("Movie.1080p");
    CleanTitle("Movie.720p");
  }

  lemma NoCOrS1080()
    ensures LacksCI("Movie.1080p", 'C') && LacksCI("Movie.1080p", 'S')
  {
    var t := "Movie.1080p";
    assert forall p :: 0 <= p < |t| ==> t[p] !in "CcSs";
  }

  lemma NoCOrS720()
    ensures LacksCI("Movie.720p", 'C') && LacksCI("Movie.720p", 'S')
  {
    var t := "Movie.720p";
    assert forall p :: 0 <= p < |t| ==> t[p] !in "CcSs";
  }

  /** A title with neither a C nor an S cannot hold a low-quality marker. */
  lemma CleanTitle(title: string)
    requires LacksCI(title, 'C') && LacksCI(title, 'S')
    ensures !LowQuality(title)
  {
    AbsentCharBlocksMatch(title, "CAM", 0);
    AbsentCharBlocksMatch(title, "TS", 1);
    AbsentCharBlocksMatch(title, "SCR", 0);
  }
}
