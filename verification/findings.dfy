/** `legit_link` (crawler.py:43-50) is written as a yes/no filter, but the
    `urlparse` call in it raises `ValueError` on a reference whose host has
    an unbalanced bracket. Inside the link loop of `scrape` that exception
    ends the loop, so one malformed anchor on a page costs every link after
    it. This module states that behaviour of the code as written, and the
    filter as evidently intended (a reference that cannot be parsed is not
    crawl-worthy) together with what it would keep. The rest of the model
    follows the code as written. */
module Findings {
  import opened Wrappers
  import opened Links
  import opened Frontier

  /** An anchor `urlsplit` cannot parse: an IPv6 host with no closing bracket. */
  const MalformedHref: string := "http://[::1"

  /** As written: the malformed anchor stops the loop, and the page keeps
      none of its links, whatever follows the anchor. */
  lemma MalformedHrefDropsPage(cfg: Config, join: Resolver, f: State, url: Url, text: string, rest: seq<string>)
    ensures ScrapePage(cfg, join, f, url, Fetched(text, [MalformedHref] + rest)).kept == []
  {
    var hrefs := [MalformedHref] + rest;
    RaisesOnUnclosedIpv6Host();
    var os := Outcomes(join, url, hrefs);
    assert os[0] == Judge(join, url, MalformedHref) == Stop;
  }

  /** As intended: `legit_link` answers no instead of raising; everything
      else is as written. */
  function JudgeTotal(join: Resolver, base: Url, raw: string): (o: Outcome)
    ensures LegitLink(raw) == Raise ==> o == Skip
    ensures LegitLink(raw) != Raise ==> o == Judge(join, base, raw)
    ensures o == Stop <==> LegitLink(raw) == Accept && join(base, raw) == None
  {
    match LegitLink(raw)
    case Accept => Judge(join, base, raw)
    case _ => Skip
  }

  /** The outcomes of a page's anchors under the intended filter: the
      same map as `Outcomes`, with `JudgeTotal` in place of `Judge`. */
  function OutcomesTotal(join: Resolver, base: Url, hrefs: seq<string>): (os: seq<Outcome>)
    ensures |os| == |hrefs|
    decreases |hrefs|
  {
    if hrefs == [] then [] else [JudgeTotal(join, base, hrefs[0])] + OutcomesTotal(join, base, hrefs[1..])
  }

  /** Under the intended filter only a failing `urljoin` can stop the loop:
      when every accepted anchor resolves, the loop gets through all of
      them. */
  lemma {:induction false} TotalFilterNeverStops(join: Resolver, base: Url, hrefs: seq<string>)
    requires forall k | 0 <= k < |hrefs| && LegitLink(hrefs[k]) == Accept :: join(base, hrefs[k]).Some?
    ensures Stop !in OutcomesTotal(join, base, hrefs)
    decreases |hrefs|
  {
    if hrefs != [] {
      assert forall k | 1 <= k < |hrefs| :: hrefs[k] == hrefs[1..][k - 1];
      TotalFilterNeverStops(join, base, hrefs[1..]);
    }
  }

  /** Under the intended filter, when every accepted anchor resolves, the
      page keeps every unvisited resolution of its anchors, in order and
      with repeats: no anchor can cost the page the links after it. */
  lemma TotalFilterKeepsEveryResolution(visited: set<Url>, join: Resolver, base: Url, hrefs: seq<string>)
    requires forall k | 0 <= k < |hrefs| && LegitLink(hrefs[k]) == Accept :: join(base, hrefs[k]).Some?
    ensures ExtractFrom(visited, OutcomesTotal(join, base, hrefs), []) == Unvisited(visited, OutcomesTotal(join, base, hrefs))
  {
    var os := OutcomesTotal(join, base, hrefs);
    TotalFilterNeverStops(join, base, hrefs);
    ReachedAll(os);
    assert [] + Unvisited(visited, os) == Unvisited(visited, os);
  }

  /** Under the intended filter the malformed anchor is skipped, and the
      page keeps exactly the links it would keep without it. */
  lemma MalformedHrefSkipped(visited: set<Url>, join: Resolver, base: Url, rest: seq<string>)
    ensures ExtractFrom(visited, OutcomesTotal(join, base, [MalformedHref] + rest), [])
         == ExtractFrom(visited, OutcomesTotal(join, base, rest), [])
  {
    MalformedHrefOutcome(join, base, rest);
    SkipExtractsNothing(visited, [Skip] + OutcomesTotal(join, base, rest));
  }

  lemma MalformedHrefOutcome(join: Resolver, base: Url, rest: seq<string>)
    ensures OutcomesTotal(join, base, [MalformedHref] + rest) == [Skip] + OutcomesTotal(join, base, rest)
  {
    RaisesOnUnclosedIpv6Host();
    assert ([MalformedHref] + rest)[1..] == rest;
  }

  /** A skipped anchor adds nothing to the links the loop keeps. */
  lemma SkipExtractsNothing(visited: set<Url>, os: seq<Outcome>)
    requires os != [] && os[0] == Skip
    ensures ExtractFrom(visited, os, []) == ExtractFrom(visited, os[1..], [])
  {
    assert ExtractOne(visited, os[0], []) == [];
  }
}
