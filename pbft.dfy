/**
 * The term lifecycle driver of src/PBFT.ts. It keeps one active `PBFTTerm`
 * per height: `start` records the last committed block's hash, disposes the
 * running term and creates the next one, and a term that commits a block
 * notifies the registered listeners and starts over from that block.
 * `PBFTTerm`, `NetworkMessagesFilter` and `BlockUtils` are reduced to the
 * state the driver reads and writes.
 */
module Driver {
  import opened Common
  import Storage

  /** A consensus term for one height. */
  class PBFTTerm {
    const height: int
    /** What the term's `isLeader()` answers. */
    const leader: bool
    var disposed: bool

    constructor (height: int, leader: bool)
      ensures this.height == height && this.leader == leader && !disposed
    {
      this.height := height;
      this.leader := leader;
      disposed := false;
    }

    method Dispose()
      modifies this`disposed
      ensures disposed
    {
      disposed := true;
    }
  }

  /** Routes incoming messages to the term of the height it was last given. */
  class NetworkMessagesFilter {
    var term: Option<int>
    var handler: PBFTTerm?
    var disposed: bool

    constructor ()
      ensures term.None? && handler == null && !disposed
    {
      term := None;
      handler := null;
      disposed := false;
    }

    method SetTerm(term: int, handler: PBFTTerm)
      modifies this`term, this`handler
      ensures this.term == Some(term) && this.handler == handler
    {
      this.term := Some(term);
      this.handler := handler;
    }

    method Dispose()
      modifies this`disposed
      ensures disposed
    {
      disposed := true;
    }
  }

  /** The block validator and provider, identified, and the hash of the last committed block. */
  class BlockUtils {
    const blocksValidator: nat
    const blocksProvider: nat
    var lastCommittedBlockHash: Option<Bytes>

    constructor (blocksValidator: nat, blocksProvider: nat)
      ensures this.blocksValidator == blocksValidator && this.blocksProvider == blocksProvider
      ensures lastCommittedBlockHash.None?
    {
      this.blocksValidator := blocksValidator;
      this.blocksProvider := blocksProvider;
      lastCommittedBlockHash := None;
    }

    method SetLastCommittedBlockHash(blockHash: Bytes)
      modifies this`lastCommittedBlockHash
      ensures lastCommittedBlockHash == Some(blockHash)
    {
      lastCommittedBlockHash := Some(blockHash);
    }
  }

  /** The parts of the node configuration the driver passes on. */
  datatype Config = Config(pbftStorage: Option<Storage.InMemoryPBFTStorage>, blocksValidator: nat, blocksProvider: nat)

  /** What every term of this driver is created with. */
  datatype TermConfig = TermConfig(pbftStorage: Storage.InMemoryPBFTStorage, blockUtils: BlockUtils)

  /** An `onCommitted` callback, by identity. */
  datatype Listener = Listener(id: nat)

  /** One call `cb(block)`. */
  datatype Notification = Notification(listener: Listener, block: Block)

  class PBFT {
    var onCommittedListeners: seq<Listener>
    const pbftTermConfig: TermConfig
    var pbftTerm: PBFTTerm?
    const networkMessagesFilter: NetworkMessagesFilter
    /** `calculateBlockHash` of BlockUtils. */
    const calculateBlockHash: Block -> Bytes
    /** The leadership a newly created term of a height reports. */
    const leaderAt: int -> bool
    /** Every term this driver has created. */
    ghost var createdTerms: set<PBFTTerm>

    /** The configured storage when there is one, otherwise a fresh empty in-memory one. */
    static method BuildTermConfig(config: Config) returns (termConfig: TermConfig)
      ensures config.pbftStorage.Some? ==> termConfig.pbftStorage == config.pbftStorage.value
      ensures config.pbftStorage.None? ==>
                && fresh(termConfig.pbftStorage) && termConfig.pbftStorage.Valid()
                && termConfig.pbftStorage.prePrepareStorage == map[] && termConfig.pbftStorage.prepareStorage == map[]
                && termConfig.pbftStorage.commitStorage == map[] && termConfig.pbftStorage.viewChangeStorage == map[]
      ensures fresh(termConfig.blockUtils) && termConfig.blockUtils.lastCommittedBlockHash.None?
      ensures termConfig.blockUtils.blocksValidator == config.blocksValidator
      ensures termConfig.blockUtils.blocksProvider == config.blocksProvider
    {
      var pbftStorage;
      if config.pbftStorage.Some? {
        pbftStorage := config.pbftStorage.value;
      } else {
        pbftStorage := new Storage.InMemoryPBFTStorage();
      }
      var blockUtils := new BlockUtils(config.blocksValidator, config.blocksProvider);
      termConfig := TermConfig(pbftStorage, blockUtils);
    }

    /** The terms created and not yet disposed. */
    ghost function ActiveTerms(): set<PBFTTerm>
      reads this, createdTerms
    {
      set t | t in createdTerms && !t.disposed
    }

    /** The current term is the one undisposed term; every earlier one was disposed. */
    ghost predicate Valid()
      reads this, createdTerms
    {
      && (pbftTerm != null ==> pbftTerm in createdTerms)
      && ActiveTerms() == (if pbftTerm == null then {} else {pbftTerm})
    }

    constructor (config: Config, calculateBlockHash: Block -> Bytes, leaderAt: int -> bool)
      ensures Valid()
      ensures onCommittedListeners == [] && pbftTerm == null && createdTerms == {}
      ensures config.pbftStorage.Some? ==> pbftTermConfig.pbftStorage == config.pbftStorage.value
      ensures config.pbftStorage.None? ==>
                && fresh(pbftTermConfig.pbftStorage) && pbftTermConfig.pbftStorage.Valid()
                && pbftTermConfig.pbftStorage.prePrepareStorage == map[] && pbftTermConfig.pbftStorage.prepareStorage == map[]
                && pbftTermConfig.pbftStorage.commitStorage == map[] && pbftTermConfig.pbftStorage.viewChangeStorage == map[]
      ensures fresh(pbftTermConfig.blockUtils) && pbftTermConfig.blockUtils.lastCommittedBlockHash.None?
      ensures pbftTermConfig.blockUtils.blocksValidator == config.blocksValidator
      ensures pbftTermConfig.blockUtils.blocksProvider == config.blocksProvider
      ensures fresh(networkMessagesFilter) && networkMessagesFilter.term.None?
      ensures this.calculateBlockHash == calculateBlockHash && this.leaderAt == leaderAt
    {
      onCommittedListeners := [];
      var termConfig := BuildTermConfig(config);
      pbftTermConfig := termConfig;
      networkMessagesFilter := new NetworkMessagesFilter();
      this.calculateBlockHash := calculateBlockHash;
      this.leaderAt := leaderAt;
      pbftTerm := null;
      createdTerms := {};
    }

    /** Calls every listener with `block`, in registration order. */
    method NotifyCommitted(block: Block) returns (notified: seq<Notification>)
      ensures |notified| == |onCommittedListeners|
      ensures forall k :: 0 <= k < |notified| ==> notified[k] == Notification(onCommittedListeners[k], block)
    {
      notified := [];
      var i := 0;
      while i < |onCommittedListeners|
        invariant 0 <= i <= |onCommittedListeners|
        invariant |notified| == i
        invariant forall k :: 0 <= k < i ==> notified[k] == Notification(onCommittedListeners[k], block)
      {
        notified := notified + [Notification(onCommittedListeners[i], block)];
        i := i + 1;
      }
    }

    /** Disposes the current term, if any, and forgets it; without one nothing changes. */
    method DisposePBFTTerm()
      requires Valid()
      modifies this`pbftTerm, pbftTerm
      ensures Valid()
      ensures pbftTerm == null && ActiveTerms() == {}
      ensures old(pbftTerm) != null ==> old(pbftTerm).disposed
      ensures old(pbftTerm) == null ==> unchanged(this)
    {
      if pbftTerm != null {
        ghost var current := pbftTerm;
        assert forall t :: t in createdTerms && t != current ==> t.disposed by {
          assert forall t :: t in createdTerms && t != current ==> t !in ActiveTerms();
        }
        pbftTerm.Dispose();
        pbftTerm := null;
        assert ActiveTerms() == {};
      }
    }

    /** Creates the term of `height` and routes that height's messages to it. */
    method CreatePBFTTerm(height: int)
      requires Valid() && pbftTerm == null
      modifies this`pbftTerm, this`createdTerms, networkMessagesFilter`term, networkMessagesFilter`handler
      ensures Valid()
      ensures pbftTerm != null && fresh(pbftTerm)
      ensures pbftTerm.height == height && pbftTerm.leader == leaderAt(height)
      ensures ActiveTerms() == {pbftTerm}
      ensures networkMessagesFilter.term == Some(height) && networkMessagesFilter.handler == pbftTerm
    {
      var term := new PBFTTerm(height, leaderAt(height));
      ghost var before := createdTerms;
      pbftTerm := term;
      createdTerms := createdTerms + {term};
      networkMessagesFilter.SetTerm(height, term);
      assert ActiveTerms() == {term} by {
        assert forall t :: t in before ==> t.disposed;
      }
    }

    /**
     * Records the hash of the last committed block, disposes the running
     * term and leaves exactly one active term, of the next height.
     */
    method Start(lastCommittedBlock: Block)
      requires Valid()
      modifies this`pbftTerm, this`createdTerms, pbftTerm, pbftTermConfig.blockUtils
      modifies networkMessagesFilter`term, networkMessagesFilter`handler
      ensures Valid()
      ensures pbftTermConfig.blockUtils.lastCommittedBlockHash == Some(calculateBlockHash(lastCommittedBlock))
      ensures old(pbftTerm) != null ==> old(pbftTerm).disposed
      ensures pbftTerm != null && fresh(pbftTerm) && pbftTerm.height == lastCommittedBlock.header.height + 1
      ensures ActiveTerms() == {pbftTerm}
      ensures IsLeader() == Some(leaderAt(lastCommittedBlock.header.height + 1))
      ensures networkMessagesFilter.term == Some(pbftTerm.height) && networkMessagesFilter.handler == pbftTerm
    {
      pbftTermConfig.blockUtils.SetLastCommittedBlockHash(calculateBlockHash(lastCommittedBlock));
      DisposePBFTTerm();
      CreatePBFTTerm(lastCommittedBlock.header.height + 1);
    }

    /** The term's commit callback: notify every listener, then start again from `block`. */
    method OnTermCommitted(block: Block) returns (notified: seq<Notification>)
      requires Valid()
      modifies this`pbftTerm, this`createdTerms, pbftTerm, pbftTermConfig.blockUtils
      modifies networkMessagesFilter`term, networkMessagesFilter`handler
      ensures Valid()
      ensures |notified| == |onCommittedListeners|
      ensures forall k :: 0 <= k < |notified| ==> notified[k] == Notification(onCommittedListeners[k], block)
      ensures onCommittedListeners == old(onCommittedListeners)
      ensures pbftTermConfig.blockUtils.lastCommittedBlockHash == Some(calculateBlockHash(block))
      ensures old(pbftTerm) != null ==> old(pbftTerm).disposed
      ensures pbftTerm != null && fresh(pbftTerm) && pbftTerm.height == block.header.height + 1
      ensures ActiveTerms() == {pbftTerm}
      ensures IsLeader() == Some(leaderAt(block.header.height + 1))
      ensures networkMessagesFilter.term == Some(pbftTerm.height) && networkMessagesFilter.handler == pbftTerm
    {
      notified := NotifyCommitted(block);
      Start(block);
    }

    /** The current term's answer, or none without a term. */
    function IsLeader(): (r: Option<bool>)
      reads this, pbftTerm
      ensures r.None? <==> pbftTerm == null
      ensures r.Some? ==> pbftTerm != null && r.value == pbftTerm.leader
    {
      if pbftTerm != null then Some(pbftTerm.leader) else None
    }

    /** Appends `bc` to the listeners; nothing else changes. */
    method RegisterOnCommitted(bc: Listener)
      modifies this`onCommittedListeners
      ensures onCommittedListeners == old(onCommittedListeners) + [bc]
    {
      onCommittedListeners := onCommittedListeners + [bc];
    }

    /** Drops every listener, disposes the current term and the message filter. */
    method Dispose()
      requires Valid()
      modifies this`onCommittedListeners, this`pbftTerm, pbftTerm, networkMessagesFilter`disposed
      ensures Valid()
      ensures onCommittedListeners == [] && pbftTerm == null && ActiveTerms() == {}
      ensures IsLeader().None?
      ensures networkMessagesFilter.disposed
    {
      onCommittedListeners := [];
      DisposePBFTTerm();
      networkMessagesFilter.Dispose();
    }
  }
}
