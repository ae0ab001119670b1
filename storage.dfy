/**
 * The in-memory quorum vote store, `src/` revision. Keys are composite
 * tuples in place of the source's `term_view[_blockHash]` strings (a number
 * prints without `_`, so the string encoding is injective and the two agree).
 * View-change votes in this revision are keyed by the view alone.
 */
module Storage {
  import opened Common
  import opened Votes

  class InMemoryPBFTStorage {
    var prePrepareStorage: map<(int, int), BlockHash>
    var prepareStorage: map<(int, int, BlockHash), seq<SenderId>>
    var commitStorage: map<(int, int, BlockHash), seq<SenderId>>
    var viewChangeStorage: map<int, seq<SenderId>>

    /** Every vote list is non-empty and holds each sender at most once. */
    ghost predicate Valid()
      reads this
    {
      WellFormed(prepareStorage) && WellFormed(commitStorage) && WellFormed(viewChangeStorage)
    }

    constructor ()
      ensures Valid()
      ensures prePrepareStorage == map[] && prepareStorage == map[]
      ensures commitStorage == map[] && viewChangeStorage == map[]
    {
      prePrepareStorage := map[];
      prepareStorage := map[];
      commitStorage := map[];
      viewChangeStorage := map[];
    }

    /** First writer wins: the slot of (term, view) is written only while it is empty. */
    method StorePrePrepare(term: int, view: int, blockHash: BlockHash) returns (stored: bool)
      requires Valid()
      modifies this`prePrepareStorage
      ensures Valid()
      ensures stored <==> old(GetPrePrepare(term, view)).None?
      ensures prePrepareStorage ==
                if stored then old(prePrepareStorage)[(term, view) := blockHash] else old(prePrepareStorage)
      ensures GetPrePrepare(term, view) == if stored then Some(blockHash) else old(GetPrePrepare(term, view))
    {
      var key := (term, view);
      if key in prePrepareStorage {
        return false;
      }
      prePrepareStorage := prePrepareStorage[key := blockHash];
      return true;
    }

    /** The hash stored for (term, view), or `undefined`. */
    function GetPrePrepare(term: int, view: int): (r: Option<BlockHash>)
      reads this
      ensures r.Some? <==> (term, view) in prePrepareStorage
      ensures r.Some? ==> r.value == prePrepareStorage[(term, view)]
    {
      var key := (term, view);
      if key in prePrepareStorage then Some(prePrepareStorage[key]) else None
    }

    method StorePrepare(term: int, view: int, senderId: SenderId, blockHash: BlockHash) returns (stored: bool)
      requires Valid()
      modifies this`prepareStorage
      ensures Valid()
      ensures (prepareStorage, stored) == Record(old(prepareStorage), (term, view, blockHash), senderId)
    {
      var key := (term, view, blockHash);
      if key in prepareStorage {
        var prepares := prepareStorage[key];
        if IndexOf(prepares, senderId) == -1 {
          prepareStorage := prepareStorage[key := prepares + [senderId]];
        } else {
          return false;
        }
      } else {
        prepareStorage := prepareStorage[key := [senderId]];
        assert [senderId] == Senders(old(prepareStorage), key) + [senderId];
      }
      RecordKeepsWellFormed(old(prepareStorage), key, senderId);
      return true;
    }

    /** The senders of the prepares stored under (term, view, blockHash), in arrival order. */
    function GetPrepare(term: int, view: int, blockHash: BlockHash): (r: seq<SenderId>)
      reads this
      requires Valid()
      ensures NoDuplicates(r)
      ensures r == [] <==> (term, view, blockHash) !in prepareStorage
    {
      Senders(prepareStorage, (term, view, blockHash))
    }

    method StoreCommit(term: int, view: int, senderId: SenderId, blockHash: BlockHash) returns (stored: bool)
      requires Valid()
      modifies this`commitStorage
      ensures Valid()
      ensures (commitStorage, stored) == Record(old(commitStorage), (term, view, blockHash), senderId)
    {
      var key := (term, view, blockHash);
      if key in commitStorage {
        var commits := commitStorage[key];
        if IndexOf(commits, senderId) == -1 {
          commitStorage := commitStorage[key := commits + [senderId]];
        } else {
          return false;
        }
      } else {
        commitStorage := commitStorage[key := [senderId]];
        assert [senderId] == Senders(old(commitStorage), key) + [senderId];
      }
      RecordKeepsWellFormed(old(commitStorage), key, senderId);
      return true;
    }

    /** The senders of the commits stored under (term, view, blockHash), in arrival order. */
    function GetCommit(term: int, view: int, blockHash: BlockHash): (r: seq<SenderId>)
      reads this
      requires Valid()
      ensures NoDuplicates(r)
      ensures r == [] <==> (term, view, blockHash) !in commitStorage
    {
      Senders(commitStorage, (term, view, blockHash))
    }

    /** Keyed by `view` only: votes for the same view of different terms share one list. */
    method StoreViewChange(view: int, senderId: SenderId) returns (stored: bool)
      requires Valid()
      modifies this`viewChangeStorage
      ensures Valid()
      ensures (viewChangeStorage, stored) == Record(old(viewChangeStorage), view, senderId)
    {
      if view in viewChangeStorage {
        var senders := viewChangeStorage[view];
        if IndexOf(senders, senderId) == -1 {
          viewChangeStorage := viewChangeStorage[view := senders + [senderId]];
        } else {
          return false;
        }
      } else {
        viewChangeStorage := viewChangeStorage[view := [senderId]];
        assert [senderId] == Senders(old(viewChangeStorage), view) + [senderId];
      }
      RecordKeepsWellFormed(old(viewChangeStorage), view, senderId);
      return true;
    }

    /** The number of distinct senders of view-change votes stored for `view`. */
    function CountOfViewChange(view: int): (r: nat)
      reads this
      requires Valid()
      ensures r == |set s | s in Senders(viewChangeStorage, view)|
      ensures r == 0 <==> view !in viewChangeStorage
    {
      var viewChanges := Senders(viewChangeStorage, view);
      DistinctCount(viewChanges);
      |viewChanges|
    }
  }

  /**
   * `PBFT` shares one store across terms, and this revision keys view-change
   * votes by view alone: a sender's view-0 vote in term 2 is refused after
   * its view-0 vote in term 1, and the count term 2 reads already holds the
   * term-1 vote.
   */
  method ViewChangeVotesCollideAcrossTerms() returns (inTerm1: bool, inTerm2: bool, countInTerm2: nat)
    ensures inTerm1 && !inTerm2 && countInTerm2 == 1
  {
    var storage := new InMemoryPBFTStorage();
    inTerm1 := storage.StoreViewChange(0, "Node 1");
    inTerm2 := storage.StoreViewChange(0, "Node 1");
    countInTerm2 := storage.CountOfViewChange(0);
  }
}
