/**
 * `main()`: load the seen keys once, scrape every configured source in order,
 * run each source's jobs through the diff against the one shared seen-set,
 * then replace the new view and append to the ledger.
 */
module Pipeline {
  import opened Wrappers
  import opened Postings
  import opened UrlDedup
  import opened Extraction
  import opened DiffEngine
  import opened Sheets

  /** A configured source together with the anchors its page shows. */
  datatype SourcePage = SourcePage(src: Source, anchors: seq<Anchor>)

  /** What `scrape_generic` returns for one page; `stamp(i)` is the clock at its anchor `i`. */
  function Batch(page: SourcePage, stamp: nat -> string): seq<Posting> {
    UniqByUrl(Extract(page.src, page.anchors, stamp))
  }

  /**
   * Every scraped job of the run, source after source in configuration order;
   * `clock(s)(i)` is the clock reading for anchor `i` of source `s`.
   */
  function AllJobs(pages: seq<SourcePage>, clock: nat -> nat -> string): (jobs: seq<Posting>)
    ensures forall m :: 0 <= m < |jobs| ==> jobs[m].url != ""
  {
    if pages == [] then []
    else
      var n := |pages| - 1;
      AllJobs(pages[..n], clock) + Batch(pages[n], clock(n))
  }

  /** Every scraped job comes from the batch of one configured source and carries that source's tag. */
  lemma {:induction false} AllJobsFromPages(pages: seq<SourcePage>, clock: nat -> nat -> string, m: nat)
    requires m < |AllJobs(pages, clock)|
    ensures exists s :: 0 <= s < |pages| && AllJobs(pages, clock)[m] in Batch(pages[s], clock(s))
                        && AllJobs(pages, clock)[m].source == pages[s].src.name
  {
    var n := |pages| - 1;
    var pre := AllJobs(pages[..n], clock);
    var x := AllJobs(pages, clock)[m];
    if m < |pre| {
      AllJobsFromPages(pages[..n], clock, m);
      var s :| 0 <= s < n && pre[m] in Batch(pages[..n][s], clock(s)) && pre[m].source == pages[..n][s].src.name;
      assert pages[..n][s] == pages[s];
    } else {
      var src, e := pages[n].src, Extract(pages[n].src, pages[n].anchors, clock(n));
      assert x == UniqByUrl(e)[m - |pre|];
      UniqByUrlProperties(e);
      ExtractSound(src, pages[n].anchors, clock(n), x);
      var i :| 0 <= i < |pages[n].anchors| && Candidate(src, pages[n].anchors[i], clock(n)(i)) == Some(x);
      CandidateFields(src, pages[n].anchors[i], clock(n)(i));
    }
  }

  /** `new_rows` at the end of the source loop. */
  function NewBatch(hash: string -> Digest, seen: set<string>, pages: seq<SourcePage>,
                    clock: nat -> nat -> string): seq<Job> {
    Accepted(seen, KeyAll(hash, AllJobs(pages, clock)))
  }

  /**
   * The `for j in jobs` loop of `main` on one source's jobs: attach the key,
   * accept the job if the key is not in `seen`, and insert the key at once.
   * `newRows` and `newlySeen` come in holding the earlier sources' acceptances.
   */
  method DiffBatch(hash: string -> Digest, jobs: seq<Posting>, seen0: set<string>,
                   newRows0: seq<Job>, newlySeen0: seq<Job>)
    returns (newRows: seq<Job>, newlySeen: seq<Job>, seen: set<string>)
    ensures newRows == newRows0 + Accepted(seen0, KeyAll(hash, jobs))
    ensures newlySeen == newlySeen0 + Accepted(seen0, KeyAll(hash, jobs))
    ensures seen == seen0 + KeysOf(KeyAll(hash, jobs))
  {
    newRows, newlySeen, seen := newRows0, newlySeen0, seen0;
    ghost var keyed := KeyAll(hash, jobs);
    var k := 0;
    while k < |jobs|
      invariant 0 <= k <= |jobs|
      invariant newRows == newRows0 + Accepted(seen0, keyed[..k])
      invariant newlySeen == newlySeen0 + Accepted(seen0, keyed[..k])
      invariant seen == seen0 + KeysOf(keyed[..k])
    {
      var j := Job(jobs[k], MakeKey(hash, jobs[k]));
      assert keyed[..k + 1] == keyed[..k] + [j];
      AcceptedSnoc(seen0, keyed[..k], j);
      if j.key !in seen {
        newRows := newRows + [j];
        newlySeen := newlySeen + [j];
        seen := seen + {j.key};
      }
      k := k + 1;
    }
    assert keyed[..|jobs|] == keyed;
  }

  /**
   * The source loop of `main`, from the seen-set `seen0` that `load_seen`
   * returned: scrape each source in turn and diff its jobs against the shared set.
   */
  method Detect(hash: string -> Digest, seen0: set<string>, pages: seq<SourcePage>, clock: nat -> nat -> string)
    returns (newRows: seq<Job>, newlySeen: seq<Job>, seen: set<string>)
    ensures newRows == NewBatch(hash, seen0, pages, clock)
    ensures newlySeen == newRows
    ensures seen == seen0 + KeysOf(KeyAll(hash, AllJobs(pages, clock)))
  {
    newRows, newlySeen, seen := [], [], seen0;
    var s := 0;
    while s < |pages|
      invariant 0 <= s <= |pages|
      invariant newRows == NewBatch(hash, seen0, pages[..s], clock) && newlySeen == newRows
      invariant seen == seen0 + KeysOf(KeyAll(hash, AllJobs(pages[..s], clock)))
    {
      ghost var before := KeyAll(hash, AllJobs(pages[..s], clock));
      var jobs := ScrapeGeneric(pages[s].src, pages[s].anchors, clock(s));
      newRows, newlySeen, seen := DiffBatch(hash, jobs, seen, newRows, newlySeen);
      assert pages[..s + 1][..s] == pages[..s];
      assert AllJobs(pages[..s + 1], clock) == AllJobs(pages[..s], clock) + jobs;
      KeyAllAppend(hash, AllJobs(pages[..s], clock), jobs);
      AcceptedAppend(seen0, before, KeyAll(hash, jobs));
      KeysOfAppend(before, KeyAll(hash, jobs));
      s := s + 1;
    }
    assert pages[..|pages|] == pages;
  }

  /** What the two tabs hold after one run of `main` on tabs `st`. */
  function Run(st: Tabs, hash: string -> Digest, pages: seq<SourcePage>, clock: nat -> nat -> string): (st': Tabs)
    ensures |st'.newJobs| >= 1 && st'.newJobs[0] == NewHeaders
    ensures st.seenKeys <= st'.seenKeys
    ensures |st'.newJobs| - 1 == |st'.seenKeys| - |st.seenKeys|
  {
    var batch := NewBatch(hash, LoadSeenKeys(st.seenKeys), pages, clock);
    Tabs([NewHeaders] + NewRows(batch), if batch == [] then st.seenKeys else st.seenKeys + SeenRows(batch))
  }

  /** `main()` against the store: load_seen, the source loop, replace_new, append_seen. */
  method RunMain(store: Store, hash: string -> Digest, pages: seq<SourcePage>, clock: nat -> nat -> string)
    requires store.Valid()
    modifies store
    ensures store.Valid()
    ensures store.State() == Run(old(store.State()), hash, pages, clock)
  {
    var seen := store.LoadSeen();
    var newRows, newlySeen, _ := Detect(hash, seen, pages, clock);
    store.ReplaceNew(newRows);
    store.AppendSeen(newlySeen);
  }

  // ------------------------------------------------------------ run-level laws

  /** Sources are diffed in configuration order, each against the keys of all earlier sources. */
  lemma NewBatchSourceOrder(hash: string -> Digest, seen: set<string>, pages: seq<SourcePage>,
                            page: SourcePage, clock: nat -> nat -> string)
    ensures NewBatch(hash, seen, pages + [page], clock)
         == NewBatch(hash, seen, pages, clock)
            + Accepted(seen + KeysOf(KeyAll(hash, AllJobs(pages, clock))),
                       KeyAll(hash, Batch(page, clock(|pages|))))
  {
    var all := pages + [page];
    assert all[..|pages|] == pages && all[|pages|] == page;
    KeyAllAppend(hash, AllJobs(pages, clock), Batch(page, clock(|pages|)));
    AcceptedAppend(seen, KeyAll(hash, AllJobs(pages, clock)), KeyAll(hash, Batch(page, clock(|pages|))));
  }

  /** Every key `make_key` attaches is 24 characters long, so never the empty cell `load_seen` skips. */
  lemma AcceptedKeysNonEmpty(hash: string -> Digest, seen: set<string>, ps: seq<Posting>)
    ensures forall m :: 0 <= m < |Accepted(seen, KeyAll(hash, ps))| ==> |Accepted(seen, KeyAll(hash, ps))[m].key| == KeyLength
  {
    var js := KeyAll(hash, ps);
    var r := Accepted(seen, js);
    forall m | 0 <= m < |r| ensures |r[m].key| == KeyLength {
      assert r[m].key in KeysOf(r);
      var i :| 0 <= i < |js| && js[i].key == r[m].key;
    }
  }

  /** Row `m` of the view's data and row `m` of what is appended to the ledger are written from the same job. */
  lemma ViewMatchesAppended(ledger: seq<Row>, batch: seq<Job>)
    ensures var view, ledger' := [NewHeaders] + NewRows(batch), ledger + SeenRows(batch);
      && |view| - 1 == |ledger'| - |ledger|
      && forall m :: 1 <= m < |view| ==> ledger'[|ledger| + m - 1] == [view[m][6]] + view[m][..6]
  {
    var view, ledger' := [NewHeaders] + NewRows(batch), ledger + SeenRows(batch);
    forall m | 1 <= m < |view|
      ensures ledger'[|ledger| + m - 1] == [view[m][6]] + view[m][..6]
    {
      assert view[m] == NewRow(batch[m - 1]);
      assert ledger'[|ledger| + m - 1] == SeenRow(batch[m - 1]);
      SeenRowRotatesNewRow(batch[m - 1]);
    }
  }

  /**
   * The rows that replace the new view are exactly the rows appended to the
   * ledger, in the same order; the ledger's old rows stay as they were.
   */
  lemma RunViewMatchesLedger(st: Tabs, hash: string -> Digest, pages: seq<SourcePage>, clock: nat -> nat -> string)
    ensures var st' := Run(st, hash, pages, clock);
      && |st'.newJobs| >= 1 && st'.newJobs[0] == NewHeaders
      && st.seenKeys <= st'.seenKeys
      && |st'.newJobs| - 1 == |st'.seenKeys| - |st.seenKeys|
      && forall m :: 1 <= m < |st'.newJobs| ==>
           st'.seenKeys[|st.seenKeys| + m - 1] == [st'.newJobs[m][6]] + st'.newJobs[m][..6]
  {
    var batch := NewBatch(hash, LoadSeenKeys(st.seenKeys), pages, clock);
    ViewMatchesAppended(st.seenKeys, batch);
    if batch == [] {
      assert st.seenKeys + SeenRows([]) == st.seenKeys;
    }
  }

  /** A run that accepts nothing blanks the view to its header and leaves the ledger untouched. */
  lemma RunNothingNew(st: Tabs, hash: string -> Digest, pages: seq<SourcePage>, clock: nat -> nat -> string)
    requires NewBatch(hash, LoadSeenKeys(st.seenKeys), pages, clock) == []
    ensures Run(st, hash, pages, clock) == Tabs([NewHeaders], st.seenKeys)
  {
  }

  /** Pages without anchors produce no jobs. */
  lemma {:induction false} NoAnchorsNoJobs(pages: seq<SourcePage>, clock: nat -> nat -> string)
    requires forall s :: 0 <= s < |pages| ==> pages[s].anchors == []
    ensures AllJobs(pages, clock) == []
  {
    if pages != [] {
      var n := |pages| - 1;
      NoAnchorsNoJobs(pages[..n], clock);
    }
  }

  /** With an empty extraction for every source, the view becomes the header only, whatever it held. */
  lemma RunEmptyExtraction(st: Tabs, hash: string -> Digest, pages: seq<SourcePage>, clock: nat -> nat -> string)
    requires forall s :: 0 <= s < |pages| ==> pages[s].anchors == []
    ensures Run(st, hash, pages, clock) == Tabs([NewHeaders], st.seenKeys)
  {
    NoAnchorsNoJobs(pages, clock);
    assert KeyAll(hash, []) == [];
  }

  /**
   * The ledger is append-only, what `load_seen` reads afterwards is the old
   * seen-set plus every key the run processed, and no key is ever written to
   * the ledger twice.
   */
  lemma RunLedgerInvariant(st: Tabs, hash: string -> Digest, pages: seq<SourcePage>, clock: nat -> nat -> string)
    requires |st.seenKeys| >= 1 && KeysUnique(st.seenKeys)
    ensures var st' := Run(st, hash, pages, clock);
      && st.seenKeys <= st'.seenKeys
      && LoadSeenKeys(st'.seenKeys)
         == LoadSeenKeys(st.seenKeys) + KeysOf(KeyAll(hash, AllJobs(pages, clock)))
      && KeysUnique(st'.seenKeys)
  {
    var seen := LoadSeenKeys(st.seenKeys);
    var batch := NewBatch(hash, seen, pages, clock);
    RunReadsBack(st, hash, pages, clock);
    AcceptedKeysNonEmpty(hash, seen, AllJobs(pages, clock));
    AppendKeepsKeysUnique(st.seenKeys, batch);
    assert st.seenKeys + SeenRows([]) == st.seenKeys;
  }

  /** Scraping the same pages at other times yields the same records. */
  lemma {:induction false} AllJobsIgnoresClock(pages: seq<SourcePage>, c1: nat -> nat -> string, c2: nat -> nat -> string)
    ensures SameUpToTime(AllJobs(pages, c1), AllJobs(pages, c2))
  {
    if pages != [] {
      var n := |pages| - 1;
      AllJobsIgnoresClock(pages[..n], c1, c2);
      ExtractIgnoresClock(pages[n].src, pages[n].anchors, c1(n), c2(n));
      UniqByUrlIgnoresTime(Extract(pages[n].src, pages[n].anchors, c1(n)), Extract(pages[n].src, pages[n].anchors, c2(n)));
      SameUpToTimeAppend(AllJobs(pages[..n], c1), Batch(pages[n], c1(n)),
                         AllJobs(pages[..n], c2), Batch(pages[n], c2(n)));
    }
  }

  /** Records equal up to their timestamps carry the same keys. */
  lemma KeysIgnoreTime(hash: string -> Digest, a: seq<Posting>, b: seq<Posting>)
    requires SameUpToTime(a, b)
    ensures KeysOf(KeyAll(hash, a)) == KeysOf(KeyAll(hash, b))
  {
    forall i | 0 <= i < |a| ensures MakeKey(hash, a[i]) == MakeKey(hash, b[i]) {
      KeyIgnoresTimestamp(hash, a[i], b[i]);
    }
    assert forall i | 0 <= i < |a| :: KeyAll(hash, a)[i].key == KeyAll(hash, b)[i].key;
  }

  /**
   * Idempotence on re-run: running `main` again over the same pages, at any
   * later time, reports nothing new and appends nothing.
   */
  lemma RunTwice(st: Tabs, hash: string -> Digest, pages: seq<SourcePage>,
                 c1: nat -> nat -> string, c2: nat -> nat -> string)
    requires |st.seenKeys| >= 1
    ensures var st1 := Run(st, hash, pages, c1);
      Run(st1, hash, pages, c2) == Tabs([NewHeaders], st1.seenKeys)
  {
    var seen := LoadSeenKeys(st.seenKeys);
    var k1 := KeyAll(hash, AllJobs(pages, c1));
    RunReadsBack(st, hash, pages, c1);
    var st1 := Run(st, hash, pages, c1);
    AllJobsIgnoresClock(pages, c1, c2);
    KeysIgnoreTime(hash, AllJobs(pages, c1), AllJobs(pages, c2));
    AcceptedNothingNew(seen + KeysOf(k1), KeyAll(hash, AllJobs(pages, c2)));
    RunNothingNew(st1, hash, pages, c2);
  }

  /** What `load_seen` reads after a run: the old keys plus every key the run processed. */
  lemma RunReadsBack(st: Tabs, hash: string -> Digest, pages: seq<SourcePage>, clock: nat -> nat -> string)
    requires |st.seenKeys| >= 1
    ensures LoadSeenKeys(Run(st, hash, pages, clock).seenKeys)
         == LoadSeenKeys(st.seenKeys) + KeysOf(KeyAll(hash, AllJobs(pages, clock)))
  {
    var seen := LoadSeenKeys(st.seenKeys);
    var batch := NewBatch(hash, seen, pages, clock);
    AcceptedKeysNonEmpty(hash, seen, AllJobs(pages, clock));
    LoadAfterAppend(st.seenKeys, batch);
    assert st.seenKeys + SeenRows([]) == st.seenKeys;
  }

  const UberSource: Source := Source("uber", "Uber", "https://www.uber.com/careers")
  const UberAnchor: Anchor := Anchor(Some("https://jobs.uber.com/123"), Some("Software Engineer"))

  /** The posting the uber anchor yields at time `at`. */
  function UberPosting(at: string): Posting {
    Posting(at, "uber", "Uber", "Software Engineer", Amsterdam, "https://jobs.uber.com/123")
  }

  lemma UberNotSkipped()
    ensures Href(UberAnchor) == "https://jobs.uber.com/123"
    ensures InnerText(UberAnchor) == "Software Engineer" && !Skipped(UberAnchor)
  {
    Text.StripTrimmed("Software Engineer");
  }

  lemma UberAccepted()
    ensures SiteAccepts("uber", "https://jobs.uber.com/123")
  {
    var href := "https://jobs.uber.com/123";
    assert Text.Contains(href, "jobs.uber.com") by {
      assert href[8..] == "jobs.uber.com/123";
    }
  }

  lemma UberNormalized(at: string)
    ensures Normalize(at, "uber", "Uber", Some("Software Engineer"), Some(Amsterdam),
                      Some("https://jobs.uber.com/123")) == UberPosting(at)
  {
    Text.StripTrimmed("Software Engineer");
    Text.StripTrimmed("https://jobs.uber.com/123");
    Text.StripTrimmed(Amsterdam);
  }

  lemma UberCandidate(at: string)
    ensures Candidate(UberSource, UberAnchor, at) == Some(UberPosting(at))
  {
    UberNotSkipped();
    UberAccepted();
    UberNormalized(at);
  }

  lemma ExtractOne(src: Source, anchors: seq<Anchor>, stamp: nat -> string)
    requires |anchors| == 1
    ensures Extract(src, anchors, stamp) == OptionToSeq(Candidate(src, anchors[0], stamp(0)))
  {
    assert anchors[..0] == [];
  }

  lemma UniqOne(p: Posting)
    requires p.url != ""
    ensures UniqByUrl([p]) == [p]
  {
    assert [p][..0] == [];
    assert IndexOfUrl([], p.url).None?;
  }

  lemma AllJobsOne(page: SourcePage, clock: nat -> nat -> string)
    ensures AllJobs([page], clock) == Batch(page, clock(0))
  {
    assert [page][..0] == [];
  }

  /** A one-source, one-anchor run scrapes exactly that anchor's candidate. */
  lemma SingleAnchorJobs(page: SourcePage, clock: nat -> nat -> string, p: Posting)
    requires |page.anchors| == 1 && p.url != ""
    requires Candidate(page.src, page.anchors[0], clock(0)(0)) == Some(p)
    ensures AllJobs([page], clock) == [p]
  {
    ExtractOne(page.src, page.anchors, clock(0));
    UniqOne(p);
    AllJobsOne(page, clock);
  }

  lemma UberJobs(clock: nat -> nat -> string)
    ensures AllJobs([SourcePage(UberSource, [UberAnchor])], clock) == [UberPosting(clock(0)(0))]
  {
    UberCandidate(clock(0)(0));
    SingleAnchorJobs(SourcePage(UberSource, [UberAnchor]), clock, UberPosting(clock(0)(0)));
  }

  /** On a first run, a single scraped job lands in both tabs. */
  lemma FirstRunSingle(hash: string -> Digest, pages: seq<SourcePage>, clock: nat -> nat -> string, p: Posting)
    requires AllJobs(pages, clock) == [p]
    ensures var j := Job(p, MakeKey(hash, p));
            Run(Tabs([NewHeaders], [SeenHeaders]), hash, pages, clock)
            == Tabs([NewHeaders, NewRow(j)], [SeenHeaders, SeenRow(j)])
  {
    var j := Job(p, MakeKey(hash, p));
    NewBatchOne(hash, pages, clock, p);
    assert NewRows([j]) == [NewRow(j)] && SeenRows([j]) == [SeenRow(j)];
  }

  lemma NewBatchOne(hash: string -> Digest, pages: seq<SourcePage>, clock: nat -> nat -> string, p: Posting)
    requires AllJobs(pages, clock) == [p]
    ensures NewBatch(hash, LoadSeenKeys([SeenHeaders]), pages, clock) == [Job(p, MakeKey(hash, p))]
  {
    assert LoadSeenKeys([SeenHeaders]) == {};
    assert KeyAll(hash, [p]) == [Job(p, MakeKey(hash, p))];
    AcceptedOne(Job(p, MakeKey(hash, p)));
  }

  lemma AcceptedOne(j: Job)
    ensures Accepted({}, [j]) == [j]
  {
    assert [j][..0] == [];
  }

  /**
   * The worked example: one uber anchor on a first run. The view gets exactly
   * that posting, under a 24-character key, and the ledger exactly one row.
   */
  lemma UberFirstRun(hash: string -> Digest, clock: nat -> nat -> string)
    ensures var p := UberPosting(clock(0)(0));
            var j := Job(p, MakeKey(hash, p));
            && |j.key| == 24
            && Run(Tabs([NewHeaders], [SeenHeaders]), hash, [SourcePage(UberSource, [UberAnchor])], clock)
               == Tabs([NewHeaders, NewRow(j)], [SeenHeaders, SeenRow(j)])
  {
    UberJobs(clock);
    FirstRunSingle(hash, [SourcePage(UberSource, [UberAnchor])], clock, UberPosting(clock(0)(0)));
  }
}
