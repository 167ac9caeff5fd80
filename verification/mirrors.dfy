/** Mirror failover (`fetchWithFailover`): the mirrors of one provider are
    tried strictly in order and the first response wins; only when every
    mirror fails is a single error raised. An HTTP request is reduced to its
    outcome. */
module Mirrors {

  /** The outcome of one request to one mirror. */
  datatype Attempt<D> = Fetched(data: D) | Failed

  /** What `fetchWithFailover` resolves to, or the one error it throws. */
  datatype Result<D> = Ok(value: D) | AllMirrorsFailed(scraper: string)

  /** Mirror `k` is the first to answer: every earlier one failed. */
  ghost predicate FirstSuccess<D>(attempts: seq<Attempt<D>>, k: int)
  {
    0 <= k < |attempts| && attempts[k].Fetched? &&
    forall j :: 0 <= j < k ==> attempts[j].Failed?
  }

  /** The failover loop as a fold over the outcomes of the mirrors, in order. */
  function Failover<D>(attempts: seq<Attempt<D>>, scraper: string): (r: Result<D>)
    ensures r.AllMirrorsFailed? ==> r.scraper == scraper
    ensures r.AllMirrorsFailed? <==> forall i :: 0 <= i < |attempts| ==> attempts[i].Failed?
    ensures r.Ok? ==> exists k :: FirstSuccess(attempts, k) && r.value == attempts[k].data
  {
    if |attempts| == 0 then AllMirrorsFailed(scraper)
    else match attempts[0]
      case Fetched(d) =>
        assert FirstSuccess(attempts, 0);
        Ok(d)
      case Failed =>
        assert forall k :: FirstSuccess(attempts[1..], k) ==> FirstSuccess(attempts, k + 1);
        Failover(attempts[1..], scraper)
  }

  /** The mirrors after the first one that answers are never consulted:
      replacing their outcomes changes nothing. */
  lemma {:induction false} FailoverStopsAtFirstSuccess<D>(attempts: seq<Attempt<D>>, k: nat, later: seq<Attempt<D>>, scraper: string)
    requires FirstSuccess(attempts, k)
    ensures Failover(attempts[..k + 1] + later, scraper) == Ok(attempts[k].data)
    ensures Failover(attempts, scraper) == Ok(attempts[k].data)
  {
    if k > 0 {
      assert FirstSuccess(attempts[1..], k - 1);
      FailoverStopsAtFirstSuccess(attempts[1..], k - 1, later, scraper);
      assert (attempts[..k + 1] + later)[1..] == attempts[1..][..k] + later;
    }
  }

  /** `fetchWithFailover(urls, scraperName)` with the network reduced to
      `get`, the outcome of requesting one URL. Also returns the URLs it
      requested, in order. */
  method FetchWithFailover<D>(urls: seq<string>, scraper: string, get: string -> Attempt<D>)
    returns (r: Result<D>, tried: seq<string>)
    ensures tried <= urls
    ensures r == Failover(seq(|urls|, i requires 0 <= i < |urls| => get(urls[i])), scraper)
    ensures forall j :: 0 <= j < |tried| - 1 ==> get(tried[j]).Failed?
    ensures r.Ok? ==> |tried| > 0 && get(tried[|tried| - 1]) == Fetched(r.value)
    ensures r.AllMirrorsFailed? ==> tried == urls && r.scraper == scraper
  {
    var outcomes := seq(|urls|, i requires 0 <= i < |urls| => get(urls[i]));
    tried := [];
    var n := 0;
    while n < |urls|
      invariant 0 <= n <= |urls|
      invariant tried == urls[..n]
      invariant forall j :: 0 <= j < n ==> get(tried[j]).Failed?
      invariant Failover(outcomes, scraper) == Failover(outcomes[n..], scraper)
    {
      tried := tried + [urls[n]];
      assert tried == urls[..n + 1];
      match get(urls[n])
      case Fetched(d) =>
        assert outcomes[n..][0] == Fetched(d);
        assert Failover(outcomes[n..], scraper) == Ok(d);
        r := Ok(d);
        return;
      case Failed =>
        assert outcomes[n..][0] == Failed;
        assert outcomes[n..][1..] == outcomes[n + 1..];
      n := n + 1;
    }
    r := AllMirrorsFailed(scraper);
  }
}
