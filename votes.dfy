/**
 * The dedup-and-append step shared by every vote table of the in-memory
 * store (prepare, commit and view-change, in both revisions): a map from a
 * key to the list of senders that voted under it, in arrival order.
 */
module Votes {
  import opened Common

  /** `map.get(key) || []`: the senders stored under `k`, or none. */
  function Senders<K>(m: map<K, seq<SenderId>>, k: K): seq<SenderId> {
    if k in m then m[k] else []
  }

  predicate NoDuplicates<S(==)>(s: seq<S>) {
    forall i, j :: 0 <= i < j < |s| ==> s[i] != s[j]
  }

  /** The store's invariant: every list it holds is non-empty and duplicate-free. */
  ghost predicate WellFormed<K>(m: map<K, seq<SenderId>>) {
    forall k :: k in m ==> m[k] != [] && NoDuplicates(m[k])
  }

  /**
   * Records a vote of `s` under `k`: a sender already present leaves the
   * table as it was and yields false; a new sender is appended at the end of
   * the key's list (which is created if absent) and yields true.
   */
  function Record<K(!new)>(m: map<K, seq<SenderId>>, k: K, s: SenderId): (r: (map<K, seq<SenderId>>, bool))
    ensures r.1 <==> s !in Senders(m, k)
    ensures s in Senders(r.0, k)
    ensures Senders(r.0, k) == if r.1 then Senders(m, k) + [s] else Senders(m, k)
    ensures forall k' :: k' != k ==> Senders(r.0, k') == Senders(m, k')
    ensures r.0.Keys == m.Keys + {k}
  {
    if s in Senders(m, k) then (m, false) else (m[k := Senders(m, k) + [s]], true)
  }

  /** Recording a vote keeps every list non-empty and duplicate-free. */
  lemma RecordKeepsWellFormed<K(!new)>(m: map<K, seq<SenderId>>, k: K, s: SenderId)
    requires WellFormed(m)
    ensures WellFormed(Record(m, k, s).0)
  {
    var r := Record(m, k, s).0;
    forall k' | k' in r
      ensures r[k'] != [] && NoDuplicates(r[k'])
    {
      assert r[k'] == Senders(r, k');
    }
  }

  /** Recording the same vote twice is the same as recording it once. */
  lemma RecordIdempotent<K(!new)>(m: map<K, seq<SenderId>>, k: K, s: SenderId)
    ensures Record(Record(m, k, s).0, k, s) == (Record(m, k, s).0, false)
  {
  }

  /** The distinct elements of `xs`, in order of first occurrence. */
  ghost function Dedup(xs: seq<SenderId>): (r: seq<SenderId>)
    ensures NoDuplicates(r)
    ensures forall x :: x in r <==> x in xs
    ensures |r| <= |xs|
  {
    if xs == [] then []
    else
      var d := Dedup(xs[..|xs| - 1]);
      if xs[|xs| - 1] in d then d else d + [xs[|xs| - 1]]
  }

  /** A table after a sequence of (key, sender) store calls, applied in arrival order. */
  ghost function Replay<K(!new)>(m: map<K, seq<SenderId>>, log: seq<(K, SenderId)>): map<K, seq<SenderId>> {
    if log == [] then m
    else
      var last := log[|log| - 1];
      Record(Replay(m, log[..|log| - 1]), last.0, last.1).0
  }

  /** The senders of the calls in `log` made under key `k`, in arrival order. */
  ghost function SentUnder<K>(log: seq<(K, SenderId)>, k: K): seq<SenderId> {
    if log == [] then []
    else
      var last := log[|log| - 1];
      SentUnder(log[..|log| - 1], k) + (if last.0 == k then [last.1] else [])
  }

  /**
   * Starting from an empty table, the list under `k` is exactly the distinct
   * senders of the calls made under `k`, in order of first arrival; calls made
   * under any other key never show up in it.
   */
  lemma {:induction false} ReplayFromEmpty<K(!new)>(log: seq<(K, SenderId)>, k: K)
    ensures Senders(Replay(map[], log), k) == Dedup(SentUnder(log, k))
  {
    if log != [] {
      var prefix := log[..|log| - 1];
      var last := log[|log| - 1];
      var before := Replay(map[], prefix);
      ReplayFromEmpty(prefix, k);
      assert Replay(map[], log) == Record(before, last.0, last.1).0;
      if last.0 == k {
        assert SentUnder(log, k) == SentUnder(prefix, k) + [last.1];
        DedupSnoc(SentUnder(prefix, k), last.1);
      } else {
        assert Senders(Replay(map[], log), k) == Senders(before, k);
        assert SentUnder(prefix, k) + [] == SentUnder(prefix, k);
        assert SentUnder(log, k) == SentUnder(prefix, k);
      }
    }
  }

  lemma DedupSnoc(xs: seq<SenderId>, x: SenderId)
    ensures Dedup(xs + [x]) == if x in Dedup(xs) then Dedup(xs) else Dedup(xs) + [x]
  {
    assert (xs + [x])[..|xs|] == xs;
  }

  /** A duplicate-free list has as many elements as distinct values. */
  lemma {:induction false} DistinctCount(s: seq<SenderId>)
    requires NoDuplicates(s)
    ensures |set x | x in s| == |s|
  {
    if s != [] {
      var init := s[..|s| - 1];
      var last := s[|s| - 1];
      assert NoDuplicates(init);
      DistinctCount(init);
      assert last !in init;
      assert (set x | x in s) == (set x | x in init) + {last};
    }
  }

  /**
   * Starting from an empty table, the number of votes stored under `k` is the
   * number of distinct senders that voted under `k`.
   */
  lemma CountIsDistinctSenders<K(!new)>(log: seq<(K, SenderId)>, k: K)
    ensures |Senders(Replay(map[], log), k)| == |set x | x in SentUnder(log, k)|
  {
    ReplayFromEmpty(log, k);
    var d := Dedup(SentUnder(log, k));
    DistinctCount(d);
    assert (set x | x in d) == (set x | x in SentUnder(log, k));
  }

  /** A table built from nothing but store calls satisfies the store's invariant. */
  lemma {:induction false} ReplayWellFormed<K(!new)>(m: map<K, seq<SenderId>>, log: seq<(K, SenderId)>)
    requires WellFormed(m)
    ensures WellFormed(Replay(m, log))
  {
    if log != [] {
      ReplayWellFormed(m, log[..|log| - 1]);
      RecordKeepsWellFormed(Replay(m, log[..|log| - 1]), log[|log| - 1].0, log[|log| - 1].1);
    }
  }
}
