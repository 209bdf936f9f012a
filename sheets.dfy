/**
 * The two worksheets, as sequences of rows: the `new_jobs` view and the
 * `seen_keys` ledger. The spreadsheet service is replaced by these values;
 * `SheetsStore`'s methods become the row shaping they perform on them.
 */
module Sheets {
  import opened Postings
  import opened DiffEngine

  /** One worksheet row: its cells from column A on. */
  type Row = seq<string>

  const NewHeaders: Row := ["detected_at", "company", "title", "location", "url", "source", "key"]
  const SeenHeaders: Row := ["key", "first_seen_at", "company", "title", "location", "url", "source"]

  /** The value of a job under a column header of either tab (`first_seen_at` is the detection time). */
  function Field(j: Job, header: string): string {
    if header == "detected_at" || header == "first_seen_at" then j.posting.detectedAt
    else if header == "company" then j.posting.company
    else if header == "title" then j.posting.title
    else if header == "location" then j.posting.location
    else if header == "url" then j.posting.url
    else if header == "source" then j.posting.source
    else if header == "key" then j.key
    else ""
  }

  /** The row `replace_new` writes for a job: its cells follow `NEW_HEADERS`. */
  function NewRow(j: Job): (row: Row)
    ensures |row| == |NewHeaders|
    ensures forall c :: 0 <= c < |row| ==> row[c] == Field(j, NewHeaders[c])
  {
    [j.posting.detectedAt, j.posting.company, j.posting.title, j.posting.location,
     j.posting.url, j.posting.source, j.key]
  }

  /** The row `append_seen` writes for a job: its cells follow `SEEN_HEADERS`. */
  function SeenRow(j: Job): (row: Row)
    ensures |row| == |SeenHeaders|
    ensures forall c :: 0 <= c < |row| ==> row[c] == Field(j, SeenHeaders[c])
  {
    [j.key, j.posting.detectedAt, j.posting.company, j.posting.title, j.posting.location,
     j.posting.url, j.posting.source]
  }

  /** The two tabs hold the same cells: the ledger row is the view row with the key moved to the front. */
  lemma SeenRowRotatesNewRow(j: Job)
    ensures SeenRow(j) == [NewRow(j)[6]] + NewRow(j)[..6]
  {
  }

  function NewRows(js: seq<Job>): (rows: seq<Row>)
    ensures |rows| == |js| && forall m :: 0 <= m < |js| ==> rows[m] == NewRow(js[m])
  {
    seq(|js|, m requires 0 <= m < |js| => NewRow(js[m]))
  }

  function SeenRows(js: seq<Job>): (rows: seq<Row>)
    ensures |rows| == |js| && forall m :: 0 <= m < |js| ==> rows[m] == SeenRow(js[m])
  {
    seq(|js|, m requires 0 <= m < |js| => SeenRow(js[m]))
  }

  /** The cell in column `c` of a row, "" beyond its last cell. */
  function Cell(row: Row, c: nat): string {
    if c < |row| then row[c] else ""
  }

  /** `set(v for v in ws.col_values(1)[1:] if v)`: the non-empty keys below the header row. */
  function LoadSeenKeys(rows: seq<Row>): (keys: set<string>)
    ensures "" !in keys
    ensures forall i :: 1 <= i < |rows| && Cell(rows[i], 0) != "" ==> Cell(rows[i], 0) in keys
    ensures forall k :: k in keys ==> exists i :: 1 <= i < |rows| && Cell(rows[i], 0) == k
  {
    set i | 1 <= i < |rows| && Cell(rows[i], 0) != "" :: Cell(rows[i], 0)
  }

  /** Appending rows for jobs with non-empty keys adds exactly their keys to what `load_seen` reads. */
  lemma LoadAfterAppend(rows: seq<Row>, js: seq<Job>)
    requires |rows| >= 1
    requires forall m :: 0 <= m < |js| ==> js[m].key != ""
    ensures LoadSeenKeys(rows + SeenRows(js)) == LoadSeenKeys(rows) + KeysOf(js)
  {
    var all := rows + SeenRows(js);
    assert forall i | 0 <= i < |rows| :: all[i] == rows[i];
    forall m | 0 <= m < |js| ensures Cell(all[|rows| + m], 0) == js[m].key {
      assert all[|rows| + m] == SeenRow(js[m]);
    }
    forall k | k in LoadSeenKeys(all) ensures k in LoadSeenKeys(rows) + KeysOf(js) {
      var i :| 1 <= i < |all| && Cell(all[i], 0) != "" && Cell(all[i], 0) == k;
      if i >= |rows| {
        assert js[i - |rows|].key == k;
      }
    }
    forall k | k in KeysOf(js) ensures k in LoadSeenKeys(all) {
      var m :| 0 <= m < |js| && js[m].key == k;
      assert Cell(all[|rows| + m], 0) == k;
    }
  }

  /** Every non-empty key below the header row stands in one row only: no key was written twice. */
  ghost predicate KeysUnique(rows: seq<Row>) {
    forall i, i' :: 1 <= i < i' < |rows| && Cell(rows[i], 0) != "" ==> Cell(rows[i], 0) != Cell(rows[i'], 0)
  }

  /** Appending rows for fresh, pairwise distinct keys keeps the keys unique. */
  lemma AppendKeepsKeysUnique(rows: seq<Row>, js: seq<Job>)
    requires |rows| >= 1 && KeysUnique(rows)
    requires forall m :: 0 <= m < |js| ==> js[m].key !in LoadSeenKeys(rows)
    requires forall m, m' :: 0 <= m < m' < |js| ==> js[m].key != js[m'].key
    ensures KeysUnique(rows + SeenRows(js))
  {
    var all := rows + SeenRows(js);
    assert forall i | 0 <= i < |rows| :: all[i] == rows[i];
    assert forall m | 0 <= m < |js| :: Cell(all[|rows| + m], 0) == js[m].key;
    forall i, i' | 1 <= i < i' < |all| && Cell(all[i], 0) != ""
      ensures Cell(all[i], 0) != Cell(all[i'], 0)
    {
      if i' >= |rows| && i < |rows| {
        assert Cell(rows[i], 0) in LoadSeenKeys(rows);
      } else if i >= |rows| {
        assert Cell(all[i], 0) == js[i - |rows|].key && Cell(all[i'], 0) == js[i' - |rows|].key;
      }
    }
  }

  /** The first row holds nothing: `ws.row_values(1)` is empty. */
  predicate FirstRowBlank(rows: seq<Row>) {
    rows == [] || forall c :: 0 <= c < |rows[0]| ==> rows[0][c] == ""
  }

  /** `_ensure(tab, headers)` on a tab's rows (a missing tab is added with no rows). */
  function Ensure(rows: seq<Row>, headers: Row): (r: seq<Row>)
    ensures |r| >= 1
    ensures FirstRowBlank(rows) ==> r == [headers] + (if rows == [] then [] else rows[1..])
    ensures !FirstRowBlank(rows) ==> r == rows
  {
    if !FirstRowBlank(rows) then rows
    else if rows == [] then [headers]
    else [headers] + rows[1..]
  }

  /** `_ensure` writes the header once: applying it again changes nothing. */
  lemma EnsureIdempotent(rows: seq<Row>, headers: Row)
    requires !FirstRowBlank([headers])
    ensures Ensure(Ensure(rows, headers), headers) == Ensure(rows, headers)
  {
  }

  /** Both worksheets of the spreadsheet, as rows. */
  datatype Tabs = Tabs(newJobs: seq<Row>, seenKeys: seq<Row>)

  /** `SheetsStore`, with the spreadsheet's two worksheets held as rows. */
  class Store {
    var newJobs: seq<Row>
    var seenKeys: seq<Row>

    /** Both tabs have a first row, where the header was ensured. */
    ghost predicate Valid()
      reads this
    {
      |newJobs| >= 1 && |seenKeys| >= 1
    }

    function State(): Tabs
      reads this
    {
      Tabs(newJobs, seenKeys)
    }

    /** `SheetsStore(sa_key, sheet_id)` over the tabs' existing rows: ensures both headers. */
    constructor (newTab: seq<Row>, seenTab: seq<Row>)
      ensures Valid()
      ensures newJobs == Ensure(newTab, NewHeaders) && seenKeys == Ensure(seenTab, SeenHeaders)
    {
      newJobs := Ensure(newTab, NewHeaders);
      seenKeys := Ensure(seenTab, SeenHeaders);
    }

    /** `load_seen()` */
    function LoadSeen(): (keys: set<string>)
      reads this
      ensures "" !in keys
      ensures forall i :: 1 <= i < |seenKeys| && Cell(seenKeys[i], 0) != "" ==> Cell(seenKeys[i], 0) in keys
      ensures forall k :: k in keys ==> exists i :: 1 <= i < |seenKeys| && Cell(seenKeys[i], 0) == k
    {
      LoadSeenKeys(seenKeys)
    }

    /** `replace_new(rows)`: the view becomes the header followed by one row per job. */
    method ReplaceNew(rows: seq<Job>)
      requires Valid()
      modifies this
      ensures Valid()
      ensures newJobs == [NewHeaders] + NewRows(rows)
      ensures seenKeys == old(seenKeys)
    {
      newJobs := [];
      newJobs := [NewHeaders];
      if rows == [] {
        return;
      }
      newJobs := newJobs + NewRows(rows);
    }

    /** `append_seen(rows)`: one ledger row per job after the existing ones; no write at all for none. */
    method AppendSeen(rows: seq<Job>)
      requires Valid()
      modifies this
      ensures Valid()
      ensures seenKeys == old(seenKeys) + SeenRows(rows)
      ensures rows == [] ==> seenKeys == old(seenKeys)
      ensures newJobs == old(newJobs)
    {
      if rows == [] {
        return;
      }
      seenKeys := seenKeys + SeenRows(rows);
    }
  }
}
