/**
 * The diff engine of `main`: a job is accepted when its key is not yet in
 * `seen`, and its key is inserted into `seen` at once, so that a later
 * duplicate, in the same source's batch or in a later source's, is dropped.
 * The loop itself (a method over a mutable set) lives in `Pipeline.Detect`;
 * this module holds the function it is proved against and that function's laws.
 */
module DiffEngine {
  import opened Postings

  /** A posting after `j["key"] = make_key(j)`. */
  datatype Job = Job(posting: Posting, key: string)

  /** Attaches its key to every posting of a batch. */
  function KeyAll(hash: string -> Digest, ps: seq<Posting>): (js: seq<Job>)
    ensures |js| == |ps|
    ensures forall i :: 0 <= i < |ps| ==> js[i].posting == ps[i] && js[i].key == MakeKey(hash, ps[i])
  {
    seq(|ps|, i requires 0 <= i < |ps| => Job(ps[i], MakeKey(hash, ps[i])))
  }

  lemma KeyAllAppend(hash: string -> Digest, a: seq<Posting>, b: seq<Posting>)
    ensures KeyAll(hash, a + b) == KeyAll(hash, a) + KeyAll(hash, b)
  {
  }

  lemma KeyAllSnoc(hash: string -> Digest, ps: seq<Posting>, p: Posting)
    ensures KeyAll(hash, ps + [p]) == KeyAll(hash, ps) + [Job(p, MakeKey(hash, p))]
  {
  }

  /** The keys of a sequence of jobs. */
  function KeysOf(js: seq<Job>): set<string> {
    set i | 0 <= i < |js| :: js[i].key
  }

  lemma KeysOfSnoc(js: seq<Job>, x: Job)
    ensures KeysOf(js + [x]) == KeysOf(js) + {x.key}
  {
    assert forall i | 0 <= i < |js| :: (js + [x])[i] == js[i];
    assert (js + [x])[|js|] == x;
  }

  lemma KeysOfAppend(a: seq<Job>, b: seq<Job>)
    ensures KeysOf(a + b) == KeysOf(a) + KeysOf(b)
  {
    assert forall i | 0 <= i < |a| :: (a + b)[i] == a[i];
    assert forall i | 0 <= i < |b| :: (a + b)[|a| + i] == b[i];
    forall k | k in KeysOf(b) ensures k in KeysOf(a + b) {
      var i :| 0 <= i < |b| && b[i].key == k;
      assert (a + b)[|a| + i].key == k;
    }
  }

  /**
   * The jobs the loop accepts from `js`, starting from the seen-set `seen`:
   * a job is accepted iff its key is in neither `seen` nor the keys of the
   * jobs before it (each of which was either already in `seen` or inserted).
   */
  function Accepted(seen: set<string>, js: seq<Job>): (r: seq<Job>)
    ensures forall m :: 0 <= m < |r| ==> r[m].key !in seen
    ensures forall m, m' :: 0 <= m < m' < |r| ==> r[m].key != r[m'].key
    ensures KeysOf(r) == KeysOf(js) - seen
  {
    if js == [] then []
    else
      var n := |js| - 1;
      var r := Accepted(seen, js[..n]);
      assert js == js[..n] + [js[n]];
      KeysOfSnoc(js[..n], js[n]);
      if js[n].key in seen || js[n].key in KeysOf(js[..n]) then r
      else
        KeysOfSnoc(r, js[n]);
        assert forall m :: 0 <= m < |r| ==> r[m].key in KeysOf(r);
        r + [js[n]]
  }

  /** `js[i]` is the first job of `js` with its key, and that key is not in `seen`. */
  ghost predicate FirstUnseen(seen: set<string>, js: seq<Job>, i: nat)
    requires i < |js|
  {
    js[i].key !in seen && forall i' :: 0 <= i' < i ==> js[i'].key != js[i].key
  }

  /** One more job: accepted iff its key is in neither `seen` nor the keys before it. */
  lemma AcceptedSnoc(seen: set<string>, js: seq<Job>, x: Job)
    ensures Accepted(seen, js + [x])
         == Accepted(seen, js) + (if x.key in seen + KeysOf(js) then [] else [x])
    ensures KeysOf(js + [x]) == KeysOf(js) + {x.key}
  {
    assert (js + [x])[..|js|] == js;
    KeysOfSnoc(js, x);
  }

  /** The positions of `js` that are accepted, in increasing order. */
  ghost function AcceptedAt(seen: set<string>, js: seq<Job>): (idx: seq<nat>)
    ensures |idx| == |Accepted(seen, js)|
    ensures forall m :: 0 <= m < |idx| ==> idx[m] < |js| && Accepted(seen, js)[m] == js[idx[m]]
    ensures forall m, m' :: 0 <= m < m' < |idx| ==> idx[m] < idx[m']
  {
    if js == [] then []
    else
      var n := |js| - 1;
      var idx := AcceptedAt(seen, js[..n]);
      if js[n].key in seen || js[n].key in KeysOf(js[..n]) then idx else idx + [n]
  }

  /**
   * Accepted in order, and exactly the right ones: a position is accepted iff
   * it holds the first occurrence of a key that `seen` does not already hold.
   */
  lemma {:induction false} AcceptedExactly(seen: set<string>, js: seq<Job>, i: nat)
    requires i < |js|
    ensures i in AcceptedAt(seen, js) <==> FirstUnseen(seen, js, i)
  {
    var n := |js| - 1;
    var pre := js[..n];
    var idx := AcceptedAt(seen, pre);
    assert forall k | 0 <= k < n :: pre[k] == js[k];
    if i < n {
      AcceptedExactly(seen, pre, i);
      assert FirstUnseen(seen, pre, i) <==> FirstUnseen(seen, js, i);
    } else if js[n].key in KeysOf(pre) {
      var i' :| 0 <= i' < n && pre[i'].key == js[n].key;
      assert js[i'].key == js[i].key;
    }
  }

  /** Accepting from two batches in turn is accepting from their concatenation: the seen-set carries over. */
  lemma {:induction false} AcceptedAppend(seen: set<string>, a: seq<Job>, b: seq<Job>)
    ensures Accepted(seen, a + b) == Accepted(seen, a) + Accepted(seen + KeysOf(a), b)
  {
    if b == [] {
      assert a + b == a;
    } else {
      var n := |b| - 1;
      AcceptedAppend(seen, a, b[..n]);
      assert (a + b)[..|a + b| - 1] == a + b[..n];
      assert (a + b)[|a + b| - 1] == b[n];
      KeysOfAppend(a, b[..n]);
    }
  }

  /** Once every key of the batch is seen, nothing is accepted. */
  lemma AcceptedNothingNew(seen: set<string>, js: seq<Job>)
    requires KeysOf(js) <= seen
    ensures Accepted(seen, js) == []
  {
  }

  /** Running the loop again over the same batch, from the seen-set the first run left, accepts nothing. */
  lemma AcceptedRerun(seen: set<string>, js: seq<Job>)
    ensures Accepted(seen + KeysOf(js), js) == []
  {
    AcceptedNothingNew(seen + KeysOf(js), js);
  }

  /**
   * The loop as the per-posting procedure it is written as: drop a job whose
   * key is seen, otherwise accept it and insert its key before the next one.
   */
  function FirstNew(seen: set<string>, js: seq<Job>): (r: seq<Job>)
    ensures |r| <= |js|
    ensures forall m :: 0 <= m < |r| ==> r[m].key !in seen
    ensures forall m, m' :: 0 <= m < m' < |r| ==> r[m].key != r[m'].key
    decreases |js|
  {
    if js == [] then []
    else if js[0].key in seen then FirstNew(seen, js[1..])
    else [js[0]] + FirstNew(seen + {js[0].key}, js[1..])
  }

  lemma {:induction false} AcceptedIsFirstNew(seen: set<string>, js: seq<Job>)
    ensures Accepted(seen, js) == FirstNew(seen, js)
    decreases |js|
  {
    if js != [] {
      var x, t := js[0], js[1..];
      assert js == [x] + t;
      AcceptedAppend(seen, [x], t);
      assert KeysOf([x]) == {x.key};
      assert Accepted(seen, [x]) == (if x.key in seen then [] else [x]) by {
        assert [x][..0] == [];
      }
      if x.key in seen {
        assert seen + {x.key} == seen;
        AcceptedIsFirstNew(seen, t);
      } else {
        AcceptedIsFirstNew(seen + {x.key}, t);
      }
    }
  }
}
