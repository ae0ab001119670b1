/**
 * `getLatestBlockFromViewChangeMessages`: keep the view-change messages that
 * carry a block, sort that copy by the view of their prepared proof's
 * preprepare, highest first, and take the head's block.
 */
module BlockExtractor {
  import opened Common
  import opened Messages

  /** The comparator dereferences `preparedProof` unguarded, so a missing one throws. */
  datatype ExtractError = TypeError

  predicate HasProof(m: ViewChangeMessage) {
    m.signedHeader.preparedProof.Some?
  }

  /** The sort key: the view of the preprepare inside the message's prepared proof. */
  function ProofView(m: ViewChangeMessage): int
    requires HasProof(m)
  {
    m.signedHeader.preparedProof.value.preprepareBlockRefMessage.signedHeader.view
  }

  /** `messages.filter(msg => msg.block !== undefined)`. */
  function WithBlocks(messages: seq<ViewChangeMessage>): (r: seq<ViewChangeMessage>)
    ensures forall m :: m in r <==> m in messages && m.block.Some?
    ensures |r| <= |messages|
  {
    if messages == [] then []
    else (if messages[0].block.Some? then [messages[0]] else []) + WithBlocks(messages[1..])
  }

  /**
   * Sorting two or more elements compares each of them at least once, and
   * every comparison reads both elements' proofs.
   */
  predicate SortThrows(filtered: seq<ViewChangeMessage>) {
    |filtered| >= 2 && exists m :: m in filtered && !HasProof(m)
  }

  /** Every message carries a proof, and proof views never increase along the sequence. */
  predicate Descending(s: seq<ViewChangeMessage>) {
    && (forall m :: m in s ==> HasProof(m))
    && forall i, j :: 0 <= i < j < |s| ==> ProofView(s[j]) <= ProofView(s[i])
  }

  /** Inserts `x` before the first element of lower view; on equal views earlier input stays first. */
  function Insert(x: ViewChangeMessage, sorted: seq<ViewChangeMessage>): (r: seq<ViewChangeMessage>)
    requires HasProof(x) && forall m :: m in sorted ==> HasProof(m)
    ensures multiset(r) == multiset{x} + multiset(sorted)
    ensures forall m :: m in r ==> HasProof(m)
  {
    if sorted == [] || ProofView(sorted[0]) <= ProofView(x) then [x] + sorted
    else
      assert sorted == [sorted[0]] + sorted[1..];
      [sorted[0]] + Insert(x, sorted[1..])
  }

  /** A message of highest view put before a descending sequence keeps it descending. */
  lemma DescendingCons(h: ViewChangeMessage, t: seq<ViewChangeMessage>)
    requires HasProof(h) && Descending(t)
    requires forall m :: m in t ==> ProofView(m) <= ProofView(h)
    ensures Descending([h] + t)
  {
    var r := [h] + t;
    forall i, j | 0 <= i < j < |r| ensures ProofView(r[j]) <= ProofView(r[i]) {
      assert r[j] == t[j - 1];
      if i > 0 {
        assert r[i] == t[i - 1];
      }
    }
  }

  lemma DescendingTail(s: seq<ViewChangeMessage>)
    requires s != [] && Descending(s)
    ensures Descending(s[1..])
    ensures forall m :: m in s[1..] ==> ProofView(m) <= ProofView(s[0])
  {
    var t := s[1..];
    forall i, j | 0 <= i < j < |t| ensures ProofView(t[j]) <= ProofView(t[i]) {
      assert t[i] == s[i + 1] && t[j] == s[j + 1];
    }
    forall m | m in t ensures ProofView(m) <= ProofView(s[0]) {
      var k :| 0 <= k < |t| && t[k] == m;
      assert s[k + 1] == m;
    }
  }

  /** Inserting into a descending sequence keeps it descending. */
  lemma {:induction false} InsertKeepsDescending(x: ViewChangeMessage, sorted: seq<ViewChangeMessage>)
    requires HasProof(x) && Descending(sorted)
    ensures Descending(Insert(x, sorted))
  {
    if sorted == [] || ProofView(sorted[0]) <= ProofView(x) {
      if sorted != [] {
        DescendingTail(sorted);
      }
      DescendingCons(x, sorted);
    } else {
      DescendingTail(sorted);
      var tail := sorted[1..];
      InsertKeepsDescending(x, tail);
      var rest := Insert(x, tail);
      forall m | m in rest ensures ProofView(m) <= ProofView(sorted[0]) {
        assert m in multiset(rest);
      }
      DescendingCons(sorted[0], rest);
    }
  }

  /** A stable sort by descending proof view (the comparator `b.view - a.view`). */
  function SortByViewDescending(s: seq<ViewChangeMessage>): (r: seq<ViewChangeMessage>)
    requires forall m :: m in s ==> HasProof(m)
    ensures multiset(r) == multiset(s)
    ensures forall m :: m in r ==> HasProof(m)
  {
    if s == [] then []
    else
      assert s == [s[0]] + s[1..];
      Insert(s[0], SortByViewDescending(s[1..]))
  }

  /** The sorted copy is in descending proof-view order. */
  lemma {:induction false} SortIsDescending(s: seq<ViewChangeMessage>)
    requires forall m :: m in s ==> HasProof(m)
    ensures Descending(SortByViewDescending(s))
  {
    if s != [] {
      assert forall m :: m in s[1..] ==> m in s;
      SortIsDescending(s[1..]);
      InsertKeepsDescending(s[0], SortByViewDescending(s[1..]));
    }
  }

  /** The position of the first element whose proof view is the highest. */
  function LatestIndex(s: seq<ViewChangeMessage>): (r: nat)
    requires s != [] && forall m :: m in s ==> HasProof(m)
    ensures r < |s|
    ensures forall j :: 0 <= j < |s| ==> ProofView(s[j]) <= ProofView(s[r])
    ensures forall j :: 0 <= j < r ==> ProofView(s[j]) < ProofView(s[r])
  {
    if |s| == 1 then 0
    else
      var k := LatestIndex(s[1..]);
      if ProofView(s[k + 1]) <= ProofView(s[0]) then 0 else k + 1
  }

  /** The head of the sorted copy is the first message of highest proof view. */
  lemma {:induction false} SortedHeadIsLatest(s: seq<ViewChangeMessage>)
    requires s != [] && forall m :: m in s ==> HasProof(m)
    ensures |SortByViewDescending(s)| == |s|
    ensures SortByViewDescending(s)[0] == s[LatestIndex(s)]
  {
    var sorted := SortByViewDescending(s);
    assert |sorted| == |multiset(sorted)| == |multiset(s)| == |s|;
    if |s| > 1 {
      var rest := SortByViewDescending(s[1..]);
      SortedHeadIsLatest(s[1..]);
      assert s[1..][LatestIndex(s[1..])] == s[LatestIndex(s[1..]) + 1];
    }
  }

  /** Whether `m` carries a block whose proof view no other block-carrying message exceeds. */
  ghost predicate IsLatest(messages: seq<ViewChangeMessage>, m: ViewChangeMessage) {
    && m.block.Some?
    && forall m' :: m' in messages && m'.block.Some? && m' != m ==>
         HasProof(m) && HasProof(m') && ProofView(m') <= ProofView(m)
  }

  function GetLatestBlockFromViewChangeMessages(messages: seq<ViewChangeMessage>): (r: Result<Option<Block>, ExtractError>)
    ensures r == Success(None) <==> forall m :: m in messages ==> m.block.None?
    ensures r.Failure? <==> SortThrows(WithBlocks(messages))
    ensures r.Success? && r.value.Some? ==>
              exists m :: m in messages && m.block == r.value && IsLatest(messages, m)
  {
    var filteredProofs := WithBlocks(messages);
    if SortThrows(filteredProofs) then Failure(TypeError)
    else if |filteredProofs| == 0 then Success(None)
    else if |filteredProofs| == 1 then Success(filteredProofs[0].block)
    else
      var sorted := SortByViewDescending(filteredProofs);
      SortedHeadIsLatest(filteredProofs);
      Success(sorted[0].block)
  }
}
