/**
 * `scrape_generic` with the browser taken away: the page's anchors arrive as
 * a pre-read sequence of `(href, inner text)` pairs, and the clock reading
 * `normalize` would take for the anchor at index `i` is `stamp(i)`.
 */
module Extraction {
  import opened Wrappers
  import opened Text
  import opened Postings
  import opened UrlDedup

  /** One entry of `sources.yaml`. */
  datatype Source = Source(name: string, company: string, url: string)

  /** What `a.get_attribute("href")` and `a.inner_text()` return; either may be `None`. */
  datatype Anchor = Anchor(href: Option<string>, text: Option<string>)

  const HelloFreshSite: string := "https://careers.hellofresh.com"
  const BookingSite: string := "https://jobs.booking.com"
  const Amsterdam: string := "Amsterdam, NL"

  /** Anchors whose stripped text is shorter than this are not treated as postings. */
  const MinTextLength: nat := 6

  /**
   * `href if href.startswith("http") else f'{site}{href}'`: the href always
   * ends the url, and the url is absolute whenever the site is.
   */
  function Absolute(href: string, site: string): (url: string)
    ensures StartsWith(href, "http") ==> url == href
    ensures !StartsWith(href, "http") ==> url == site + href
    ensures |href| <= |url| && url[|url| - |href|..] == href
    ensures StartsWith(site, "http") ==> StartsWith(url, "http")
  {
    if StartsWith(href, "http") then href else site + href
  }

  /** The per-site url filter of `scrape_generic`: which hrefs look like a job detail page. */
  predicate SiteAccepts(name: string, href: string): (b: bool)
    ensures b ==> name == "hellofresh" || name == "uber" || name == "booking"
    ensures b && name == "hellofresh" ==> !Contains(href, "search-results")
  {
    if name == "hellofresh" then
      !Contains(href, "search-results")
      && (Contains(href, "/job/") || Contains(href, "jobId") || Contains(href, "jobs/"))
    else if name == "uber" then
      Contains(href, "jobs.uber.com") || (Contains(href, "/careers/") && Contains(href, "uber.com"))
    else if name == "booking" then
      Contains(href, "/jobs/")
    else
      false
  }

  /** The location `scrape_generic` records for a site. */
  function SiteLocation(name: string): string {
    if name == "hellofresh" then "" else Amsterdam
  }

  /** The url `scrape_generic` records for an accepted href: only hellofresh and booking absolutize. */
  function SiteUrl(name: string, href: string): string {
    if name == "hellofresh" then Absolute(href, HelloFreshSite)
    else if name == "booking" then Absolute(href, BookingSite)
    else href
  }

  /** The href and the stripped text of an anchor, `None` read as "". */
  function Href(a: Anchor): string { a.href.GetOr("") }
  function InnerText(a: Anchor): string { Strip(a.text.GetOr("")) }

  /** The skip rule: an empty href or a stripped text under six characters produced nothing. */
  predicate Skipped(a: Anchor) {
    Href(a) == "" || |InnerText(a)| < MinTextLength
  }

  /** One pass of the anchor loop: the posting this anchor produced, or `None` for `continue`. */
  function Candidate(src: Source, a: Anchor, at: string): (r: Option<Posting>)
    ensures r.Some? <==> !Skipped(a) && SiteAccepts(src.name, Href(a))
  {
    if Skipped(a) || !SiteAccepts(src.name, Href(a)) then None
    else Some(Normalize(at, src.name, src.company, Some(InnerText(a)),
                        Some(SiteLocation(src.name)), Some(SiteUrl(src.name, Href(a)))))
  }

  /** A posting extracted from an anchor: the source's tag and company, the anchor's stripped text, normalized fields. */
  lemma CandidateFields(src: Source, a: Anchor, at: string)
    requires Candidate(src, a, at).Some?
    ensures var p := Candidate(src, a, at).value;
      && p.source == src.name && p.company == src.company && p.detectedAt == at
      && p.title == InnerText(a) && IsNormalized(p)
  {
    StripIdempotent(a.text.GetOr(""));
    NormalizeIdempotent(at, src.name, src.company, Some(InnerText(a)),
                        Some(SiteLocation(src.name)), Some(SiteUrl(src.name, Href(a))));
  }

  /** The site rules: what each of the three sites accepts, and the location and url it records. */
  lemma CandidateSiteRules(src: Source, a: Anchor, at: string)
    requires Candidate(src, a, at).Some?
    ensures src.name in {"hellofresh", "uber", "booking"}
    ensures var p := Candidate(src, a, at).value;
      && (src.name == "hellofresh" ==>
            !Contains(Href(a), "search-results") && p.location == ""
            && p.url == Strip(Absolute(Href(a), HelloFreshSite)))
      && (src.name == "uber" ==> p.location == Amsterdam && p.url == Strip(Href(a)))
      && (src.name == "booking" ==>
            p.location == Amsterdam && p.url == Strip(Absolute(Href(a), BookingSite)))
  {
    assert Strip(Amsterdam) == Amsterdam by { StripUnique(Amsterdam, 0, |Amsterdam|); }
  }

  function OptionToSeq<T>(o: Option<T>): (s: seq<T>)
    ensures o.Some? ==> s == [o.value]
    ensures o.None? ==> s == []
  {
    match o
    case Some(v) => [v]
    case None => []
  }

  /** The `jobs` list after the anchor loop, before the url dedup. */
  function Extract(src: Source, anchors: seq<Anchor>, stamp: nat -> string): seq<Posting>
  {
    if anchors == [] then []
    else
      var n := |anchors| - 1;
      Extract(src, anchors[..n], stamp) + OptionToSeq(Candidate(src, anchors[n], stamp(n)))
  }

  /** Every extracted posting is the candidate of some anchor... */
  lemma {:induction false} ExtractSound(src: Source, anchors: seq<Anchor>, stamp: nat -> string, p: Posting)
    requires p in Extract(src, anchors, stamp)
    ensures exists i :: 0 <= i < |anchors| && Candidate(src, anchors[i], stamp(i)) == Some(p)
  {
    var n := |anchors| - 1;
    if p in Extract(src, anchors[..n], stamp) {
      ExtractSound(src, anchors[..n], stamp, p);
      var i :| 0 <= i < n && Candidate(src, anchors[..n][i], stamp(i)) == Some(p);
      assert anchors[..n][i] == anchors[i];
    } else {
      assert Candidate(src, anchors[n], stamp(n)) == Some(p);
    }
  }

  /** ...and every anchor that produced a candidate contributes it. */
  lemma {:induction false} ExtractComplete(src: Source, anchors: seq<Anchor>, stamp: nat -> string, i: nat)
    requires i < |anchors| && Candidate(src, anchors[i], stamp(i)).Some?
    ensures Candidate(src, anchors[i], stamp(i)).value in Extract(src, anchors, stamp)
  {
    var n := |anchors| - 1;
    if i < n {
      assert anchors[..n][i] == anchors[i];
      ExtractComplete(src, anchors[..n], stamp, i);
    }
  }

  /** The clock only sets timestamps: two runs over the same anchors extract the same records. */
  lemma {:induction false} ExtractIgnoresClock(src: Source, anchors: seq<Anchor>, s1: nat -> string, s2: nat -> string)
    ensures SameUpToTime(Extract(src, anchors, s1), Extract(src, anchors, s2))
  {
    if anchors != [] {
      var n := |anchors| - 1;
      ExtractIgnoresClock(src, anchors[..n], s1, s2);
      var c1, c2 := Candidate(src, anchors[n], s1(n)), Candidate(src, anchors[n], s2(n));
      assert c1.Some? ==> Identity(c1.value) == Identity(c2.value);
    }
  }

  /**
   * What `scrape_generic` returns: candidates of the page's anchors only,
   * with non-empty, pairwise distinct urls.
   */
  lemma ScrapedJobs(src: Source, anchors: seq<Anchor>, stamp: nat -> string)
    ensures var result := UniqByUrl(Extract(src, anchors, stamp));
      && (forall m :: 0 <= m < |result| ==>
            result[m].url != "" && exists i :: 0 <= i < |anchors| && Candidate(src, anchors[i], stamp(i)) == Some(result[m]))
      && (forall m, m' :: 0 <= m < m' < |result| ==> result[m].url != result[m'].url)
  {
    var jobs := Extract(src, anchors, stamp);
    var result := UniqByUrl(jobs);
    UniqByUrlProperties(jobs);
    forall m | 0 <= m < |result|
      ensures exists i :: 0 <= i < |anchors| && Candidate(src, anchors[i], stamp(i)) == Some(result[m])
    {
      ExtractSound(src, anchors, stamp, result[m]);
    }
  }

  /** One pass of the anchor loop of `scrape_generic`: the posting anchor `a` yields, if any. */
  method ScrapeAnchor(src: Source, a: Anchor, at: string) returns (produced: seq<Posting>)
    ensures produced == OptionToSeq(Candidate(src, a, at))
    ensures |produced| <= 1
  {
    produced := [];
    var href := a.href.GetOr("");
    var text := Strip(a.text.GetOr(""));
    if href == "" || |text| < MinTextLength {
      // continue
    } else if src.name == "hellofresh" {
      if Contains(href, "search-results") {
        // continue
      } else if Contains(href, "/job/") || Contains(href, "jobId") || Contains(href, "jobs/") {
        var url := if StartsWith(href, "http") then href else HelloFreshSite + href;
        produced := [Normalize(at, "hellofresh", src.company, Some(text), Some(""), Some(url))];
      }
    } else if src.name == "uber" {
      if Contains(href, "jobs.uber.com") || (Contains(href, "/careers/") && Contains(href, "uber.com")) {
        var url := href;
        produced := [Normalize(at, "uber", src.company, Some(text), Some(Amsterdam), Some(url))];
      }
    } else if src.name == "booking" {
      if Contains(href, "/jobs/") {
        var url := if StartsWith(href, "http") then href else BookingSite + href;
        produced := [Normalize(at, "booking", src.company, Some(text), Some(Amsterdam), Some(url))];
      }
    }
  }

  /** The anchor loop and the url dedup of `scrape_generic(page, src)`. */
  method ScrapeGeneric(src: Source, anchors: seq<Anchor>, stamp: nat -> string) returns (result: seq<Posting>)
    ensures result == UniqByUrl(Extract(src, anchors, stamp))
    ensures forall m :: 0 <= m < |result| ==>
      result[m].url != "" && exists i :: 0 <= i < |anchors| && Candidate(src, anchors[i], stamp(i)) == Some(result[m])
    ensures forall m, m' :: 0 <= m < m' < |result| ==> result[m].url != result[m'].url
  {
    var jobs: seq<Posting> := [];
    var i := 0;
    while i < |anchors|
      invariant 0 <= i <= |anchors|
      invariant jobs == Extract(src, anchors[..i], stamp)
    {
      var produced := ScrapeAnchor(src, anchors[i], stamp(i));
      assert anchors[..i + 1][..i] == anchors[..i] && anchors[..i + 1][i] == anchors[i];
      jobs := jobs + produced;
      i := i + 1;
    }
    assert anchors[..|anchors|] == anchors;
    result := UniqByUrl(jobs);
    ScrapedJobs(src, anchors, stamp);
  }
}
