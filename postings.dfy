/**
 * The canonical job record: `normalize` turns a raw scraped tuple into one,
 * and `make_key` derives the identity key the deduplication runs on.
 */
module Postings {
  import opened Wrappers
  import opened Text

  /** A normalized posting, before its key is attached (the dict `normalize` returns). */
  datatype Posting = Posting(
    detectedAt: string,
    source: string,
    company: string,
    title: string,
    location: string,
    url: string)

  /** The posting with its timestamp blanked: everything the key may depend on. */
  function Identity(p: Posting): Posting {
    p.(detectedAt := "")
  }

  /** Two batches that match record for record in everything but the timestamps. */
  predicate SameUpToTime(a: seq<Posting>, b: seq<Posting>) {
    |a| == |b| && forall i :: 0 <= i < |a| ==> Identity(a[i]) == Identity(b[i])
  }

  lemma SameUpToTimeAppend(a1: seq<Posting>, b1: seq<Posting>, a2: seq<Posting>, b2: seq<Posting>)
    requires SameUpToTime(a1, a2) && SameUpToTime(b1, b2)
    ensures SameUpToTime(a1 + b1, a2 + b2)
  {
    forall i | 0 <= i < |a1 + b1| ensures Identity((a1 + b1)[i]) == Identity((a2 + b2)[i]) {
      if i < |a1| {
        assert (a1 + b1)[i] == a1[i] && (a2 + b2)[i] == a2[i];
      } else {
        assert (a1 + b1)[i] == b1[i - |a1|] && (a2 + b2)[i] == b2[i - |a1|];
      }
    }
  }

  /**
   * `normalize(source, company, title, location, url)`, with the clock reading
   * `iso_now()` passed in as `detectedAt`. A missing field (`None`) becomes "".
   */
  function Normalize(detectedAt: string, source: string, company: string,
                     title: Option<string>, location: Option<string>, url: Option<string>): (p: Posting)
    ensures p.detectedAt == detectedAt && p.source == source && p.company == company
    ensures p.title == Strip(title.GetOr(""))
    ensures p.location == Strip(location.GetOr(""))
    ensures p.url == Strip(url.GetOr(""))
  {
    Posting(detectedAt, source, company,
            Strip(title.GetOr("")), Strip(location.GetOr("")), Strip(url.GetOr("")))
  }

  /** The fields `normalize` trims carry no surrounding whitespace. */
  predicate IsNormalized(p: Posting) {
    Trimmed(p.title) && Trimmed(p.location) && Trimmed(p.url)
  }

  /** Every record `normalize` produces is normalized, and normalizing it again changes nothing. */
  lemma NormalizeIdempotent(detectedAt: string, source: string, company: string,
                            title: Option<string>, location: Option<string>, url: Option<string>)
    ensures var p := Normalize(detectedAt, source, company, title, location, url);
      && IsNormalized(p)
      && Normalize(p.detectedAt, p.source, p.company, Some(p.title), Some(p.location), Some(p.url)) == p
  {
    StripIdempotent(title.GetOr(""));
    StripIdempotent(location.GetOr(""));
    StripIdempotent(url.GetOr(""));
  }

  /** A normalized record is a fixed point of `normalize`. */
  lemma NormalizedIsFixpoint(p: Posting)
    requires IsNormalized(p)
    ensures Normalize(p.detectedAt, p.source, p.company, Some(p.title), Some(p.location), Some(p.url)) == p
  {
    StripUnique(p.title, 0, |p.title|);
    StripUnique(p.location, 0, |p.location|);
    StripUnique(p.url, 0, |p.url|);
  }

  // ---------------------------------------------------------------- keys

  predicate IsHexDigit(c: char) {
    '0' <= c <= '9' || 'a' <= c <= 'f'
  }

  predicate IsHex(s: string) {
    forall i :: 0 <= i < |s| ==> IsHexDigit(s[i])
  }

  /** What `hashlib.sha256(...).hexdigest()` returns: 64 lowercase hex digits. */
  type Digest = s: string | |s| == 64 && IsHex(s)
    witness seq(64, _ => '0')

  /** `make_key` keeps this many leading hex digits of the digest. */
  const KeyLength: nat := 24

  const Delimiter: char := '|'

  /** `"|".join(fields)` */
  function Join(fields: seq<string>): (r: string)
    requires |fields| >= 1
  {
    if |fields| == 1 then fields[0] else fields[0] + [Delimiter] + Join(fields[1..])
  }

  /** The five identity fields, in the order `make_key` writes them. */
  function KeyFields(p: Posting): (fs: seq<string>)
    ensures |fs| == 5
  {
    [p.company, p.title, p.location, p.url, p.source]
  }

  /** The string `make_key` hashes: `company|title|location|url|source`. */
  function Canonical(p: Posting): (c: string)
    ensures DelimiterFree(p) ==> Split(c) == [p.company, p.title, p.location, p.url, p.source]
  {
    var fs := KeyFields(p);
    assert DelimiterFree(p) ==> Split(Join(fs)) == fs by {
      if DelimiterFree(p) {
        SplitJoinAll(fs);
      }
    }
    Join(fs)
  }

  /**
   * `make_key(job)`. SHA-256 over the UTF-8 bytes is the opaque `hash`
   * parameter; the key is the first 24 characters of its hex digest.
   */
  function MakeKey(hash: string -> Digest, p: Posting): (k: string)
    ensures |k| == KeyLength && IsHex(k)
    ensures k <= hash(Canonical(p))
  {
    hash(Canonical(p))[..KeyLength]
  }

  /** The timestamp never reaches the hash: records that differ only in `detectedAt` share a key. */
  lemma KeyIgnoresTimestamp(hash: string -> Digest, p: Posting, q: Posting)
    requires Identity(p) == Identity(q)
    ensures MakeKey(hash, p) == MakeKey(hash, q)
  {
    assert Canonical(p) == Canonical(q);
  }

  /** Python's `s.split("|")`. */
  function Split(s: string): (parts: seq<string>)
    ensures |parts| >= 1
  {
    if s == [] then [""]
    else if s[0] == Delimiter then [""] + Split(s[1..])
    else
      var rest := Split(s[1..]);
      [[s[0]] + rest[0]] + rest[1..]
  }

  lemma {:induction false} SplitNoDelimiter(s: string)
    requires Delimiter !in s
    ensures Split(s) == [s]
  {
    if s != [] {
      SplitNoDelimiter(s[1..]);
      assert [s[0]] + s[1..] == s;
    }
  }

  lemma {:induction false} SplitJoin(a: string, b: string)
    requires Delimiter !in a
    ensures Split(a + [Delimiter] + b) == [a] + Split(b)
  {
    var x := a + [Delimiter] + b;
    if a == [] {
      assert x[0] == Delimiter && x[1..] == b;
    } else {
      assert x[0] == a[0] && x[1..] == a[1..] + [Delimiter] + b;
      SplitJoin(a[1..], b);
      assert [a[0]] + a[1..] == a;
    }
  }

  /** Splitting undoes joining as long as no field holds the delimiter. */
  lemma {:induction false} SplitJoinAll(fields: seq<string>)
    requires |fields| >= 1
    requires forall i :: 0 <= i < |fields| ==> Delimiter !in fields[i]
    ensures Split(Join(fields)) == fields
  {
    if |fields| == 1 {
      SplitNoDelimiter(fields[0]);
    } else {
      SplitJoinAll(fields[1..]);
      SplitJoin(fields[0], Join(fields[1..]));
      assert [fields[0]] + fields[1..] == fields;
    }
  }

  /** No field of the posting contains the delimiter. */
  predicate DelimiterFree(p: Posting) {
    Delimiter !in p.company && Delimiter !in p.title && Delimiter !in p.location
    && Delimiter !in p.url && Delimiter !in p.source
  }

  /** While no field holds `|`, the canonical string splits back into exactly its five fields. */
  lemma CanonicalSplits(p: Posting)
    requires DelimiterFree(p)
    ensures Split(Canonical(p)) == [p.company, p.title, p.location, p.url, p.source]
  {
    SplitJoinAll(KeyFields(p));
  }

  /** Hence, for delimiter-free records, equal canonical strings mean equal identities. */
  lemma CanonicalInjective(p: Posting, q: Posting)
    requires DelimiterFree(p) && DelimiterFree(q) && Canonical(p) == Canonical(q)
    ensures Identity(p) == Identity(q)
  {
    CanonicalSplits(p);
    CanonicalSplits(q);
  }

  /** The canonical string written out: `f'{company}|{title}|{location}|{url}|{source}'`. */
  lemma CanonicalSpelledOut(p: Posting)
    ensures Canonical(p)
         == p.company + [Delimiter] + p.title + [Delimiter] + p.location + [Delimiter] + p.url + [Delimiter] + p.source
  {
    var f4, f3 := [p.source], [p.url, p.source];
    var f2, f1 := [p.location] + f3, [p.title, p.location] + f3;
    assert f3[1..] == f4 && f2[1..] == f3 && f1[1..] == f2 && KeyFields(p)[1..] == f1;
    assert Join(f3) == p.url + [Delimiter] + p.source;
    assert Join(f2) == p.location + [Delimiter] + p.url + [Delimiter] + p.source;
    assert Join(f1) == p.title + [Delimiter] + p.location + [Delimiter] + p.url + [Delimiter] + p.source;
  }

  /**
   * The accepted limitation of the delimiter-joined scheme: a `|` inside a
   * field lets two different records share the canonical string, and so the key.
   */
  lemma DelimiterCollision(hash: string -> Digest)
    ensures var p := Posting("", "uber", "A|B", "C", "", "");
            var q := Posting("", "uber", "A", "B|C", "", "");
            Identity(p) != Identity(q) && MakeKey(hash, p) == MakeKey(hash, q)
  {
    var p := Posting("", "uber", "A|B", "C", "", "");
    var q := Posting("", "uber", "A", "B|C", "", "");
    CanonicalSpelledOut(p);
    CanonicalSpelledOut(q);
    assert Canonical(p) == "A|B|C|||uber" == Canonical(q);
    assert p.company != q.company;
  }
}
