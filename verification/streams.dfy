/** Candidate streams and the three provider adapters of the add-on (YTS,
    EZTV, The Pirate Bay): how each turns the payload its mirrors return
    into uniform candidates, including the first-match resolution rules.
    Payloads are given after JSON or HTML decoding. */
module Streams {
  import opened Wrappers
  import opened Text
  import opened Numbers
  import opened Seqs
  import Mirrors

  /** A candidate as every adapter builds it. `seeds` is whatever number the
      provider reported (TPB's is parsed from text). */
  datatype Stream = Stream(title: string, magnet: string, seeds: int, source: string, resolution: string)

  /** EZTV labels a torrent by the first of "1080p", "720p" found in its
      title (case-sensitive), "480p" otherwise. */
  function EztvResolution(title: string): (r: string)
    ensures r == "1080p" || r == "720p" || r == "480p"
    ensures Contains(title, "1080p") ==> r == "1080p"
    ensures r != "480p" ==> Contains(title, r)
    ensures r == "480p" <==> !Contains(title, "1080p") && !Contains(title, "720p")
  {
    if Contains(title, "1080p") then "1080p"
    else if Contains(title, "720p") then "720p"
    else "480p"
  }

  /** TPB labels a result by the first of "2160p", "1080p" found in its
      name (case-sensitive), "SD" otherwise: it never says "720p". */
  function TpbResolution(name: string): (r: string)
    ensures r == "2160p" || r == "1080p" || r == "SD"
    ensures Contains(name, "2160p") ==> r == "2160p"
    ensures r != "SD" ==> Contains(name, r)
    ensures r == "SD" <==> !Contains(name, "2160p") && !Contains(name, "1080p")
  {
    if Contains(name, "2160p") then "2160p"
    else if Contains(name, "1080p") then "1080p"
    else "SD"
  }

  // ---- YTS ----

  datatype YtsTorrent = YtsTorrent(hash: string, quality: string, kind: string, seeds: int)

  /** A movie entry; `torrents` is `None` when the field is missing. */
  datatype YtsMovie = YtsMovie(title: string, torrents: Option<seq<YtsTorrent>>)

  const YtsTracker := "udp://open.demonii.com:1337/announce"

  /** One YTS torrent as a candidate; `encode` is `encodeURIComponent`. */
  function YtsStream(movieTitle: string, t: YtsTorrent, encode: string -> string): (s: Stream)
    ensures StartsWith(s.title, "[YTS] ")
    ensures s.source == "YTS" && s.resolution == t.quality && s.seeds == t.seeds
  {
    Stream(
      title := "[YTS] " + movieTitle + " " + t.quality + " " + t.kind,
      magnet := "magnet:?xt=urn:btih:" + t.hash + "&dn=" + encode(movieTitle) + "+" + t.quality + "&tr=" + YtsTracker,
      seeds := t.seeds,
      source := "YTS",
      resolution := t.quality)
  }

  /** `m.torrents.map(...)` for one movie's torrent list. */
  function TorrentStreams(movieTitle: string, ts: seq<YtsTorrent>, encode: string -> string): (r: seq<Stream>)
    ensures |r| == |ts|
    ensures forall j :: 0 <= j < |ts| ==> r[j] == YtsStream(movieTitle, ts[j], encode)
  {
    seq(|ts|, j requires 0 <= j < |ts| => YtsStream(movieTitle, ts[j], encode))
  }

  /** `movies.flatMap(m => m.torrents.map(...))`: `None` when the mapping
      throws because some movie has no torrent list. */
  function YtsStreams(movies: seq<YtsMovie>, encode: string -> string): (r: Option<seq<Stream>>)
    ensures r.None? <==> exists i :: 0 <= i < |movies| && movies[i].torrents.None?
    ensures r.Some? ==> forall k :: 0 <= k < |r.value| ==>
      r.value[k].source == "YTS" && StartsWith(r.value[k].title, "[YTS] ")
  {
    if |movies| == 0 then Some([])
    else match movies[0].torrents
      case None => None
      case Some(ts) =>
        var here := TorrentStreams(movies[0].title, ts, encode);
        match YtsStreams(movies[1..], encode)
        case None => None
        case Some(rest) =>
          assert forall i :: 1 <= i < |movies| ==> movies[i] == movies[1..][i - 1];
          Some(here + rest)
  }

  /** Every torrent of every movie yields a candidate when none is malformed. */
  lemma {:induction false} YtsStreamsComplete(movies: seq<YtsMovie>, encode: string -> string, i: nat, j: nat)
    requires YtsStreams(movies, encode).Some?
    requires i < |movies| && movies[i].torrents.Some? && j < |movies[i].torrents.value|
    ensures YtsStream(movies[i].title, movies[i].torrents.value[j], encode) in YtsStreams(movies, encode).value
  {
    var ts := movies[0].torrents.value;
    var here := TorrentStreams(movies[0].title, ts, encode);
    var rest := YtsStreams(movies[1..], encode).value;
    assert YtsStreams(movies, encode).value == here + rest;
    if i == 0 {
      assert here[j] in here + rest;
    } else {
      assert movies[1..][i - 1] == movies[i];
      YtsStreamsComplete(movies[1..], encode, i - 1, j);
    }
  }

  /** A single movie contributes its torrents' candidates in list order. */
  lemma YtsStreamsOfOne(m: YtsMovie, encode: string -> string)
    ensures m.torrents.None? ==> YtsStreams([m], encode).None?
    ensures m.torrents.Some? ==> (
      var r := YtsStreams([m], encode);
      r.Some? && |r.value| == |m.torrents.value| &&
      forall j :: 0 <= j < |m.torrents.value| ==> r.value[j] == YtsStream(m.title, m.torrents.value[j], encode))
  {
  }

  /** `flatMap` order: the candidates of `a + b` are those of `a`
      followed by those of `b`, and a malformed movie in either part
      makes the whole mapping throw. */
  lemma {:induction false} YtsStreamsConcat(a: seq<YtsMovie>, b: seq<YtsMovie>, encode: string -> string)
    ensures YtsStreams(a + b, encode) ==
      if YtsStreams(a, encode).Some? && YtsStreams(b, encode).Some?
      then Some(YtsStreams(a, encode).value + YtsStreams(b, encode).value)
      else None
  {
    if |a| == 0 {
      assert a + b == b;
      if YtsStreams(b, encode).Some? {
        var y := YtsStreams(b, encode).value;
        assert [] + y == y;
      }
    } else {
      assert (a + b)[0] == a[0];
      assert (a + b)[1..] == a[1..] + b;
      YtsStreamsConcat(a[1..], b, encode);
      if a[0].torrents.Some? {
        var ts := a[0].torrents.value;
        var here := TorrentStreams(a[0].title, ts, encode);
        if YtsStreams(a[1..], encode).Some? && YtsStreams(b, encode).Some? {
          var x := YtsStreams(a[1..], encode).value;
          var y := YtsStreams(b, encode).value;
          assert here + (x + y) == (here + x) + y;
        }
      }
    }
  }

  /** `s` is the candidate of some torrent of some movie in `movies`. */
  ghost predicate FromTorrent(movies: seq<YtsMovie>, encode: string -> string, s: Stream)
  {
    exists i, j :: 0 <= i < |movies| && movies[i].torrents.Some? && 0 <= j < |movies[i].torrents.value| &&
      s == YtsStream(movies[i].title, movies[i].torrents.value[j], encode)
  }

  /** Every candidate is the candidate of some torrent of some movie. */
  lemma {:induction false} YtsStreamsSound(movies: seq<YtsMovie>, encode: string -> string)
    requires YtsStreams(movies, encode).Some?
    ensures forall k :: 0 <= k < |YtsStreams(movies, encode).value| ==>
      FromTorrent(movies, encode, YtsStreams(movies, encode).value[k])
  {
    if |movies| > 0 {
      var r := YtsStreams(movies, encode).value;
      var ts := movies[0].torrents.value;
      var here := TorrentStreams(movies[0].title, ts, encode);
      var rest := YtsStreams(movies[1..], encode).value;
      assert r == here + rest;
      YtsStreamsSound(movies[1..], encode);
      forall k | 0 <= k < |r|
        ensures FromTorrent(movies, encode, r[k])
      {
        if k < |here| {
          assert r[k] == YtsStream(movies[0].title, movies[0].torrents.value[k], encode);
        } else {
          assert r[k] == rest[k - |here|];
          assert FromTorrent(movies[1..], encode, rest[k - |here|]);
          var i, j :| 0 <= i < |movies[1..]| && movies[1..][i].torrents.Some? && 0 <= j < |movies[1..][i].torrents.value| &&
            rest[k - |here|] == YtsStream(movies[1..][i].title, movies[1..][i].torrents.value[j], encode);
          assert movies[1..][i] == movies[i + 1];
        }
      }
    }
  }

  /** `scrapeYTS_Fixed`: every failure (all mirrors down, no movie list,
      a malformed movie) is swallowed into no candidates. */
  function ScrapeYts(fetched: Mirrors.Result<Option<seq<YtsMovie>>>, encode: string -> string): (r: seq<Stream>)
    ensures fetched.AllMirrorsFailed? ==> r == []
    ensures fetched.Ok? && fetched.value.None? ==> r == []
    ensures fetched.Ok? && fetched.value.Some? && YtsStreams(fetched.value.value, encode).None? ==> r == []
    ensures fetched.Ok? && fetched.value.Some? && YtsStreams(fetched.value.value, encode).Some? ==>
      r == YtsStreams(fetched.value.value, encode).value
    ensures forall k :: 0 <= k < |r| ==> r[k].source == "YTS" && StartsWith(r[k].title, "[YTS] ")
  {
    match fetched
    case AllMirrorsFailed(_) => []
    case Ok(None) => []
    case Ok(Some(movies)) => YtsStreams(movies, encode).GetOr([])
  }

  // ---- EZTV ----

  datatype EztvTorrent = EztvTorrent(title: string, magnetUrl: string, seeds: int)

  function EztvStream(t: EztvTorrent): Stream
  {
    Stream("[EZTV] " + t.title, t.magnetUrl, t.seeds, "EZTV", EztvResolution(t.title))
  }

  /** `scrapeEZTV_Fixed`: one candidate per torrent, in the order given;
      no torrent list or no mirror gives no candidates. */
  function ScrapeEztv(fetched: Mirrors.Result<Option<seq<EztvTorrent>>>): (r: seq<Stream>)
    ensures (fetched.AllMirrorsFailed? || fetched.value.None?) ==> r == []
    ensures fetched.Ok? && fetched.value.Some? ==> |r| == |fetched.value.value|
    ensures fetched.Ok? && fetched.value.Some? ==> forall k :: 0 <= k < |r| ==>
      r[k].title == "[EZTV] " + fetched.value.value[k].title &&
      r[k].magnet == fetched.value.value[k].magnetUrl &&
      r[k].seeds == fetched.value.value[k].seeds &&
      r[k].source == "EZTV" &&
      r[k].resolution == EztvResolution(fetched.value.value[k].title)
  {
    match fetched
    case AllMirrorsFailed(_) => []
    case Ok(None) => []
    case Ok(Some(ts)) => seq(|ts|, k requires 0 <= k < |ts| => EztvStream(ts[k]))
  }

  // ---- The Pirate Bay ----

  /** One table row of the search page: the name link's text, the magnet
      link ("" when absent), the first right-aligned cell and the third cell. */
  datatype TpbRow = TpbRow(name: string, magnet: string, seedsCell: string, thirdCell: string)

  /** `parseInt(seedsText) || 0`, reading the third cell when the
      right-aligned one is empty. */
  function TpbSeeds(row: TpbRow): (n: int)
    ensures var text := if row.seedsCell != "" then row.seedsCell else row.thirdCell;
      (n == 0 <==> ParseInt(text, Unspecified).None? || ParseInt(text, Unspecified) == Some(0)) &&
      (n != 0 ==> ParseInt(text, Unspecified) == Some(n))
  {
    var text := if row.seedsCell != "" then row.seedsCell else row.thirdCell;
    ParseInt(text, Unspecified).GetOr(0)
  }

  /** A row becomes a candidate only with both a name and a magnet link. */
  predicate IsListing(row: TpbRow)
  {
    row.name != "" && row.magnet != ""
  }

  function TpbStream(row: TpbRow): Stream
  {
    Stream("[TPB] " + row.name, row.magnet, TpbSeeds(row), "TPB", TpbResolution(row.name))
  }

  /** The candidates of the kept rows, one each, in order. */
  function TpbStreams(kept: seq<TpbRow>): (r: seq<Stream>)
    ensures |r| == |kept|
    ensures forall k :: 0 <= k < |kept| ==> r[k] == TpbStream(kept[k])
  {
    seq(|kept|, k requires 0 <= k < |kept| => TpbStream(kept[k]))
  }

  /** `scrapeTPB_Html`: the header row is skipped, the other rows with a
      name and a magnet become candidates, in table order. */
  function ScrapeTpb(fetched: Mirrors.Result<seq<TpbRow>>): (r: seq<Stream>)
    ensures fetched.AllMirrorsFailed? ==> r == []
    ensures fetched.Ok? && |fetched.value| == 0 ==> r == []
    ensures fetched.Ok? && |fetched.value| > 0 ==> (
      var kept := Filter(fetched.value[1..], IsListing);
      |r| == |kept| && forall k :: 0 <= k < |r| ==> r[k] == TpbStream(kept[k]))
    ensures fetched.Ok? && |fetched.value| > 0 ==> (
      var kept := Filter(fetched.value[1..], IsListing);
      forall k :: 0 <= k < |r| ==>
        r[k].title == "[TPB] " + kept[k].name && r[k].magnet == kept[k].magnet &&
        r[k].seeds == TpbSeeds(kept[k]) && r[k].resolution == TpbResolution(kept[k].name))
    ensures forall k :: 0 <= k < |r| ==>
      r[k].magnet != "" && r[k].source == "TPB" && StartsWith(r[k].title, "[TPB] ")
  {
    match fetched
    case AllMirrorsFailed(_) => []
    case Ok(rows) =>
      if |rows| == 0 then []
      else
        var tail := rows[1..];
        TpbStreams(Filter(tail, IsListing))
  }

  /** Every listing row after the header becomes a candidate. */
  lemma ScrapeTpbKeepsListings(rows: seq<TpbRow>)
    ensures forall i :: 1 <= i < |rows| && IsListing(rows[i]) ==>
      TpbStream(rows[i]) in ScrapeTpb(Mirrors.Ok(rows))
  {
    if |rows| > 0 {
      var r := ScrapeTpb(Mirrors.Ok(rows));
      var kept := Filter(rows[1..], IsListing);
      forall i | 1 <= i < |rows| && IsListing(rows[i])
        ensures TpbStream(rows[i]) in r
      {
        assert rows[1..][i - 1] == rows[i];
        var k :| 0 <= k < |kept| && kept[k] == rows[i];
        assert r[k] == TpbStream(rows[i]);
      }
    }
  }

  /** Every candidate comes from a listing row after the header. */
  lemma ScrapeTpbOnlyListings(rows: seq<TpbRow>)
    ensures var r := ScrapeTpb(Mirrors.Ok(rows));
      forall k :: 0 <= k < |r| ==>
        exists i :: 1 <= i < |rows| && IsListing(rows[i]) && r[k] == TpbStream(rows[i])
  {
  }

  /** A seed cell holding a number written out in decimal reads back as
      that number. */
  lemma TpbSeedsReadsDecimal(name: string, magnet: string, n: int, third: string)
    ensures TpbSeeds(TpbRow(name, magnet, IntToString(n), third)) == n
  {
    ParseIntOfIntToString(n, "", Unspecified);
    assert IntToString(n) + "" == IntToString(n);
  }

  /** An empty right-aligned cell falls back to the third cell: a number
      there is read, text with no digits reads as no seeds. */
  lemma TpbSeedsFallback(name: string, magnet: string, third: string, n: int)
    requires ParseInt(third, Unspecified).None?
    ensures TpbSeeds(TpbRow(name, magnet, "", third)) == 0
    ensures TpbSeeds(TpbRow(name, magnet, "", IntToString(n))) == n
  {
    ParseIntOfIntToString(n, "", Unspecified);
    assert IntToString(n) + "" == IntToString(n);
  }
}
