/**
 * The in-memory quorum vote store, term-scoped revision (the one under
 * `test/`). It differs from the `src/` revision in three ways: view-change
 * votes are keyed by (term, view), prepare and commit take
 * `(blockHash, senderId)` in that order, and a preprepare carries a block
 * content that is logged and never stored. Keys are tuples, as there.
 */
module TermStorage {
  import opened Common
  import opened Votes

  class InMemoryPBFTStorage {
    var prePrepareStorage: map<(int, int), BlockHash>
    var prepareStorage: map<(int, int, BlockHash), seq<SenderId>>
    var commitStorage: map<(int, int, BlockHash), seq<SenderId>>
    var viewChangeStorage: map<(int, int), seq<SenderId>>

    /** Every vote list is non-empty and holds each sender at most once. */
    ghost predicate Valid()
      reads this
    {
      WellFormed(prepareStorage) && WellFormed(commitStorage) && WellFormed(viewChangeStorage)
    }

    constructor ()
      ensures Valid()
      ensures prePrepareStorage == map[] && prepareStorage == map[]
      ensures commitStorage == map[] && viewChangeStorage == map[]
    {
      prePrepareStorage := map[];
      prepareStorage := map[];
      commitStorage := map[];
      viewChangeStorage := map[];
    }

    /**
     * First writer wins: the slot of (term, view) is written only while it is
     * empty, and only the hash goes into it; `blockContent` is never stored.
     */
    method StorePrePrepare(term: int, view: int, blockHash: BlockHash, blockContent: string) returns (stored: bool)
      requires Valid()
      modifies this`prePrepareStorage
      ensures Valid()
      ensures stored <==> old(GetPrePrepare(term, view)).None?
      ensures prePrepareStorage ==
                if stored then old(prePrepareStorage)[(term, view) := blockHash] else old(prePrepareStorage)
      ensures GetPrePrepare(term, view) == if stored then Some(blockHash) else old(GetPrePrepare(term, view))
    {
      var key := (term, view);
      if key in prePrepareStorage {
        return false;
      }
      prePrepareStorage := prePrepareStorage[key := blockHash];
      return true;
    }

    /** The hash stored for (term, view), or `undefined`. */
    function GetPrePrepare(term: int, view: int): (r: Option<BlockHash>)
      reads this
      ensures r.Some? <==> (term, view) in prePrepareStorage
      ensures r.Some? ==> r.value == prePrepareStorage[(term, view)]
    {
      var key := (term, view);
      if key in prePrepareStorage then Some(prePrepareStorage[key]) else None
    }

    method StorePrepare(term: int, view: int, blockHash: BlockHash, senderId: SenderId) returns (stored: bool)
      requires Valid()
      modifies this`prepareStorage
      ensures Valid()
      ensures (prepareStorage, stored) == Record(old(prepareStorage), (term, view, blockHash), senderId)
    {
      var key := (term, view, blockHash);
      if key in prepareStorage {
        var prepares := prepareStorage[key];
        if IndexOf(prepares, senderId) == -1 {
          prepareStorage := prepareStorage[key := prepares + [senderId]];
        } else {
          return false;
        }
      } else {
        prepareStorage := prepareStorage[key := [senderId]];
        assert [senderId] == Senders(old(prepareStorage), key) + [senderId];
      }
      RecordKeepsWellFormed(old(prepareStorage), key, senderId);
      return true;
    }

    /** The senders of the prepares stored under (term, view, blockHash), in arrival order. */
    function GetPrepare(term: int, view: int, blockHash: BlockHash): (r: seq<SenderId>)
      reads this
      requires Valid()
      ensures NoDuplicates(r)
      ensures r == [] <==> (term, view, blockHash) !in prepareStorage
    {
      Senders(prepareStorage, (term, view, blockHash))
    }

    method StoreCommit(term: int, view: int, blockHash: BlockHash, senderId: SenderId) returns (stored: bool)
      requires Valid()
      modifies this`commitStorage
      ensures Valid()
      ensures (commitStorage, stored) == Record(old(commitStorage), (term, view, blockHash), senderId)
    {
      var key := (term, view, blockHash);
      if key in commitStorage {
        var commits := commitStorage[key];
        if IndexOf(commits, senderId) == -1 {
          commitStorage := commitStorage[key := commits + [senderId]];
        } else {
          return false;
        }
      } else {
        commitStorage := commitStorage[key := [senderId]];
        assert [senderId] == Senders(old(commitStorage), key) + [senderId];
      }
      RecordKeepsWellFormed(old(commitStorage), key, senderId);
      return true;
    }

    /** The senders of the commits stored under (term, view, blockHash), in arrival order. */
    function GetCommit(term: int, view: int, blockHash: BlockHash): (r: seq<SenderId>)
      reads this
      requires Valid()
      ensures NoDuplicates(r)
      ensures r == [] <==> (term, view, blockHash) !in commitStorage
    {
      Senders(commitStorage, (term, view, blockHash))
    }

    /** View-change votes are keyed by (term, view). */
    method StoreViewChange(term: int, view: int, senderId: SenderId) returns (stored: bool)
      requires Valid()
      modifies this`viewChangeStorage
      ensures Valid()
      ensures (viewChangeStorage, stored) == Record(old(viewChangeStorage), (term, view), senderId)
    {
      var key := (term, view);
      if key in viewChangeStorage {
        var senders := viewChangeStorage[key];
        if IndexOf(senders, senderId) == -1 {
          viewChangeStorage := viewChangeStorage[key := senders + [senderId]];
        } else {
          return false;
        }
      } else {
        viewChangeStorage := viewChangeStorage[key := [senderId]];
        assert [senderId] == Senders(old(viewChangeStorage), key) + [senderId];
      }
      RecordKeepsWellFormed(old(viewChangeStorage), key, senderId);
      return true;
    }

    /** The number of distinct senders of view-change votes stored for exactly (term, view). */
    function CountOfViewChange(term: int, view: int): (r: nat)
      reads this
      requires Valid()
      ensures r == |set s | s in Senders(viewChangeStorage, (term, view))|
      ensures r == 0 <==> (term, view) !in viewChangeStorage
    {
      var viewChanges := Senders(viewChangeStorage, (term, view));
      DistinctCount(viewChanges);
      |viewChanges|
    }
  }

  /**
   * Keyed by (term, view), a view-change vote never changes the votes held
   * for the same view of another term.
   */
  lemma ViewChangeVotesStayInTheirTerm(m: map<(int, int), seq<SenderId>>, term: int, view: int,
                                       senderId: SenderId, otherTerm: int)
    requires otherTerm != term
    ensures Senders(Record(m, (term, view), senderId).0, (otherTerm, view)) == Senders(m, (otherTerm, view))
  {
  }

  /**
   * One store serving two terms: a sender's view-0 vote in term 2 is stored
   * after its view-0 vote in term 1, and term 2 counts only its own vote.
   */
  method ViewChangeVotesStayApartAcrossTerms() returns (inTerm1: bool, inTerm2: bool, countInTerm2: nat)
    ensures inTerm1 && inTerm2 && countInTerm2 == 1
  {
    var storage := new InMemoryPBFTStorage();
    inTerm1 := storage.StoreViewChange(1, 0, "Node 1");
    inTerm2 := storage.StoreViewChange(2, 0, "Node 1");
    countInTerm2 := storage.CountOfViewChange(2, 0);
  }
}
