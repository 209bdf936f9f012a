/**
 * The last step of `scrape_generic`: `{j["url"]: j for j in jobs if j.get("url")}`
 * followed by `list(uniq.values())`. A Python dict keeps each key at the
 * position of its first insertion and holds the value of its last write.
 */
module UrlDedup {
  import opened Wrappers
  import opened Postings

  /** The set of urls occurring in `jobs`. */
  function Urls(jobs: seq<Posting>): set<string> {
    set i | 0 <= i < |jobs| :: jobs[i].url
  }

  /** The position of an entry holding url `u`, as a dict lookup finds it. */
  function IndexOfUrl(d: seq<Posting>, u: string): (r: Option<nat>)
    ensures r.Some? ==> r.value < |d| && d[r.value].url == u
    ensures r.None? ==> forall k :: 0 <= k < |d| ==> d[k].url != u
  {
    if d == [] then None
    else if d[0].url == u then Some(0)
    else match IndexOfUrl(d[1..], u)
      case Some(k) => Some(k + 1)
      case None => None
  }

  /** `uniq[j["url"]] = j`: overwrite the entry holding that url where it stands, or append one. */
  function Put(d: seq<Posting>, j: Posting): (r: seq<Posting>)
    ensures |r| == if IndexOfUrl(d, j.url).Some? then |d| else |d| + 1
    ensures forall m :: 0 <= m < |r| ==> r[m].url == if m < |d| then d[m].url else j.url
  {
    match IndexOfUrl(d, j.url)
    case Some(k) => d[k := j]
    case None => d + [j]
  }

  /**
   * In a list with distinct urls, `Put` writes `j` into the entry under its
   * url (or a new last entry) and leaves every other entry as it was.
   */
  lemma PutWrites(d: seq<Posting>, j: Posting)
    requires forall m, m' :: 0 <= m < m' < |d| ==> d[m].url != d[m'].url
    ensures forall m :: 0 <= m < |Put(d, j)| ==>
      Put(d, j)[m] == (if m < |d| && d[m].url != j.url then d[m] else j)
  {
  }

  /** `list({j["url"]: j for j in jobs if j.get("url")}.values())` */
  function UniqByUrl(jobs: seq<Posting>): (r: seq<Posting>)
    ensures |r| <= |jobs|
    ensures forall m :: 0 <= m < |r| ==> r[m].url != ""
    ensures forall m, m' :: 0 <= m < m' < |r| ==> r[m].url != r[m'].url
  {
    if jobs == [] then []
    else
      var n := |jobs| - 1;
      var d := UniqByUrl(jobs[..n]);
      if jobs[n].url == "" then d else Put(d, jobs[n])
  }

  // ------------------------------------------------ the reference description

  /** The distinct non-empty urls of `jobs`, in the order they first appear. */
  function FirstUrls(jobs: seq<Posting>): (us: seq<string>)
    ensures forall k :: 0 <= k < |us| ==> us[k] != ""
    ensures forall k, l :: 0 <= k < l < |us| ==> us[k] != us[l]
    ensures forall u :: u in us <==> u in Urls(jobs) && u != ""
  {
    if jobs == [] then []
    else
      var n := |jobs| - 1;
      var us := FirstUrls(jobs[..n]);
      assert Urls(jobs) == Urls(jobs[..n]) + {jobs[n].url} by {
        assert forall i | 0 <= i < n :: jobs[..n][i] == jobs[i];
      }
      if jobs[n].url == "" || jobs[n].url in us then us else us + [jobs[n].url]
  }

  /** The index of the last posting in `jobs` whose url is `u`, if any. */
  function LastIndex(jobs: seq<Posting>, u: string): (r: Option<nat>)
    ensures r.Some? ==> r.value < |jobs| && jobs[r.value].url == u
    ensures r.Some? ==> forall k :: r.value < k < |jobs| ==> jobs[k].url != u
    ensures r.None? ==> forall k :: 0 <= k < |jobs| ==> jobs[k].url != u
  {
    if jobs == [] then None
    else
      var n := |jobs| - 1;
      if jobs[n].url == u then Some(n) else LastIndex(jobs[..n], u)
  }

  /** `d` describes `jobs` the way the dict comprehension should. */
  ghost predicate Describes(d: seq<Posting>, jobs: seq<Posting>) {
    var us := FirstUrls(jobs);
    && |d| == |us|
    && forall m :: 0 <= m < |us| ==>
         && LastIndex(jobs, us[m]).Some?
         && d[m] == jobs[LastIndex(jobs, us[m]).value]
  }

  /**
   * The dict comprehension, described without a dict: one entry per distinct
   * non-empty url, in first-appearance order, each the LAST posting written under that url.
   */
  lemma {:induction false} UniqByUrlSpec(jobs: seq<Posting>)
    ensures |UniqByUrl(jobs)| == |FirstUrls(jobs)|
    ensures forall m :: 0 <= m < |FirstUrls(jobs)| ==>
      && LastIndex(jobs, FirstUrls(jobs)[m]).Some?
      && UniqByUrl(jobs)[m] == jobs[LastIndex(jobs, FirstUrls(jobs)[m]).value]
  {
    if jobs != [] {
      var n := |jobs| - 1;
      UniqByUrlSpec(jobs[..n]);
      assert jobs[..n] + [jobs[n]] == jobs;
      UniqByUrlStep(jobs[..n], jobs[n]);
    }
  }

  lemma LastIndexSnoc(pre: seq<Posting>, x: Posting, u: string)
    ensures LastIndex(pre + [x], u) == if x.url == u then Some(|pre|) else LastIndex(pre, u)
  {
    assert (pre + [x])[..|pre|] == pre;
  }

  lemma UniqByUrlStep(pre: seq<Posting>, x: Posting)
    requires Describes(UniqByUrl(pre), pre)
    ensures Describes(UniqByUrl(pre + [x]), pre + [x])
  {
    var jobs := pre + [x];
    assert jobs[..|pre|] == pre;
    if x.url == "" {
      forall u | u != x.url ensures LastIndex(jobs, u) == LastIndex(pre, u) {
        LastIndexSnoc(pre, x, u);
      }
      assert UniqByUrl(jobs) == UniqByUrl(pre) && FirstUrls(jobs) == FirstUrls(pre);
    } else if x.url in FirstUrls(pre) {
      StepOverwrite(pre, x);
    } else {
      StepAppend(pre, x);
    }
  }

  lemma StepOverwrite(pre: seq<Posting>, x: Posting)
    requires Describes(UniqByUrl(pre), pre) && x.url != "" && x.url in FirstUrls(pre)
    ensures Describes(UniqByUrl(pre + [x]), pre + [x])
  {
    var jobs := pre + [x];
    assert jobs[..|pre|] == pre;
    var d, us := UniqByUrl(pre), FirstUrls(pre);
    var m0 :| 0 <= m0 < |us| && us[m0] == x.url;
    assert forall m :: 0 <= m < |d| ==> d[m].url == us[m];
    var r := IndexOfUrl(d, x.url);
    assert r.Some? by {
      assert d[m0].url == x.url;
    }
    assert r.value == m0 by {
      assert us[r.value] == us[m0];
    }
    assert UniqByUrl(jobs) == Put(d, x);
    assert UniqByUrl(jobs) == d[m0 := x];
    assert FirstUrls(jobs) == us;
    forall m | 0 <= m < |us|
      ensures LastIndex(jobs, us[m]).Some? && d[m0 := x][m] == jobs[LastIndex(jobs, us[m]).value]
    {
      LastIndexSnoc(pre, x, us[m]);
    }
  }

  lemma StepAppend(pre: seq<Posting>, x: Posting)
    requires Describes(UniqByUrl(pre), pre) && x.url != "" && x.url !in FirstUrls(pre)
    ensures Describes(UniqByUrl(pre + [x]), pre + [x])
  {
    var jobs := pre + [x];
    assert jobs[..|pre|] == pre;
    var d, us := UniqByUrl(pre), FirstUrls(pre);
    assert IndexOfUrl(d, x.url).None? by {
      assert forall m :: 0 <= m < |d| ==> d[m].url == us[m];
    }
    assert UniqByUrl(jobs) == Put(d, x) == d + [x];
    assert FirstUrls(jobs) == us + [x.url];
    DescribesAppend(pre, x, d, us);
  }

  lemma DescribesAppend(pre: seq<Posting>, x: Posting, d: seq<Posting>, us: seq<string>)
    requires us == FirstUrls(pre) && Describes(d, pre) && FirstUrls(pre + [x]) == us + [x.url]
    ensures Describes(d + [x], pre + [x])
  {
    var jobs := pre + [x];
    LastIndexSnoc(pre, x, x.url);
    assert (d + [x])[|us|] == x && (us + [x.url])[|us|] == x.url;
    forall m | 0 <= m < |us| + 1
      ensures LastIndex(jobs, (us + [x.url])[m]).Some?
      ensures (d + [x])[m] == jobs[LastIndex(jobs, (us + [x.url])[m]).value]
    {
      if m < |us| {
        assert (us + [x.url])[m] == us[m] && (d + [x])[m] == d[m];
        LastIndexSnoc(pre, x, us[m]);
      }
    }
  }

  /** A url that comes later in `FirstUrls` never occurs before the first occurrence of an earlier one. */
  lemma {:induction false} FirstUrlsOrder(jobs: seq<Posting>, k: nat, l: nat, i: nat)
    requires k < l < |FirstUrls(jobs)| && i < |jobs| && jobs[i].url == FirstUrls(jobs)[l]
    ensures exists i' :: 0 <= i' < i && jobs[i'].url == FirstUrls(jobs)[k]
  {
    var n := |jobs| - 1;
    var pre := jobs[..n];
    var us := FirstUrls(pre);
    assert Urls(pre) == set i | 0 <= i < n :: jobs[i].url by {
      assert forall i | 0 <= i < n :: pre[i] == jobs[i];
    }
    if i < n && l < |us| {
      FirstUrlsOrder(pre, k, l, i);
      var i' :| 0 <= i' < i && pre[i'].url == us[k];
      assert jobs[i'].url == FirstUrls(jobs)[k];
    } else {
      // us[k] occurs in pre, before n; and i == n, since jobs[n].url is new to pre
      assert us[k] in Urls(pre);
      var i' :| 0 <= i' < n && jobs[i'].url == us[k];
    }
  }

  /** What callers of `scrape_generic` rely on: non-empty, pairwise distinct urls, every one kept. */
  lemma UniqByUrlProperties(jobs: seq<Posting>)
    ensures forall m :: 0 <= m < |UniqByUrl(jobs)| ==> UniqByUrl(jobs)[m] in jobs && UniqByUrl(jobs)[m].url != ""
    ensures forall m, m' :: 0 <= m < m' < |UniqByUrl(jobs)| ==> UniqByUrl(jobs)[m].url != UniqByUrl(jobs)[m'].url
    ensures forall i :: 0 <= i < |jobs| && jobs[i].url != "" ==> exists m :: 0 <= m < |UniqByUrl(jobs)| && UniqByUrl(jobs)[m].url == jobs[i].url
  {
    UniqByUrlSpec(jobs);
    var r, us := UniqByUrl(jobs), FirstUrls(jobs);
    assert forall m :: 0 <= m < |r| ==> r[m].url == us[m];
    forall i | 0 <= i < |jobs| && jobs[i].url != ""
      ensures exists m :: 0 <= m < |r| && r[m].url == jobs[i].url
    {
      assert jobs[i].url in Urls(jobs);
      var m :| 0 <= m < |us| && us[m] == jobs[i].url;
      assert r[m].url == jobs[i].url;
    }
  }

  /** The url dedup looks at urls and positions only, never at timestamps. */
  lemma {:induction false} UniqByUrlIgnoresTime(a: seq<Posting>, b: seq<Posting>)
    requires SameUpToTime(a, b)
    ensures SameUpToTime(UniqByUrl(a), UniqByUrl(b))
  {
    if a != [] {
      var n := |a| - 1;
      assert SameUpToTime(a[..n], b[..n]);
      UniqByUrlIgnoresTime(a[..n], b[..n]);
      assert Identity(a[n]) == Identity(b[n]);
      PutIgnoresTime(UniqByUrl(a[..n]), UniqByUrl(b[..n]), a[n], b[n]);
    }
  }

  lemma PutIgnoresTime(da: seq<Posting>, db: seq<Posting>, x: Posting, y: Posting)
    requires SameUpToTime(da, db) && Identity(x) == Identity(y)
    ensures SameUpToTime(Put(da, x), Put(db, y))
  {
    assert x.url == y.url;
    IndexOfUrlIgnoresTime(da, db, x.url);
  }

  lemma {:induction false} IndexOfUrlIgnoresTime(a: seq<Posting>, b: seq<Posting>, u: string)
    requires SameUpToTime(a, b)
    ensures IndexOfUrl(a, u) == IndexOfUrl(b, u)
  {
    if a != [] {
      assert a[0].url == b[0].url by { assert Identity(a[0]) == Identity(b[0]); }
      IndexOfUrlIgnoresTime(a[1..], b[1..], u);
    }
  }
}
