/**
 * `extractPreparedMessages`: the latest preprepare stored for a height and
 * its prepares, returned only when the prepares reach q - 1.
 */
module PreparedMessagesExtractor {
  import opened Common
  import opened Messages

  datatype PreparedMessages =
    PreparedMessages(preprepareMessage: PrePrepareMessage, prepareMessages: seq<PrepareMessage>)

  /** The two queries the extractor makes of the storage, as that storage answers them. */
  datatype StorageQueries = StorageQueries(
    getLatestPrePrepare: int -> Option<PrePrepareMessage>,
    getPrepareMessages: (int, int, Bytes) -> seq<PrepareMessage>)

  /** The prepares stored for the view and hash of `pp` at `blockHeight`. */
  function PreparesFor(pbftStorage: StorageQueries, blockHeight: int, pp: PrePrepareMessage): seq<PrepareMessage> {
    pbftStorage.getPrepareMessages(blockHeight, pp.signedHeader.view, pp.signedHeader.blockHash)
  }

  function ExtractPreparedMessages(blockHeight: int, pbftStorage: StorageQueries, q: int): (r: Option<PreparedMessages>)
    ensures pbftStorage.getLatestPrePrepare(blockHeight).None? ==> r.None?
    ensures r.Some? ==>
              && pbftStorage.getLatestPrePrepare(blockHeight) == Some(r.value.preprepareMessage)
              && r.value.prepareMessages == PreparesFor(pbftStorage, blockHeight, r.value.preprepareMessage)
              && |r.value.prepareMessages| >= q - 1
    ensures r.None? && pbftStorage.getLatestPrePrepare(blockHeight).Some? ==>
              |PreparesFor(pbftStorage, blockHeight, pbftStorage.getLatestPrePrepare(blockHeight).value)| < q - 1
  {
    var preprepare := pbftStorage.getLatestPrePrepare(blockHeight);
    if preprepare.Some? then
      var preprepareMessage := preprepare.value;
      var lastView := preprepareMessage.signedHeader.view;
      var prepareMessages := pbftStorage.getPrepareMessages(blockHeight, lastView, preprepareMessage.signedHeader.blockHash);
      if |prepareMessages| >= q - 1 then Some(PreparedMessages(preprepareMessage, prepareMessages)) else None
    else None
  }

  /** Lowering the threshold never loses a result, and does not change it. */
  lemma LowerQuorumKeepsResult(blockHeight: int, pbftStorage: StorageQueries, q: int, q': int)
    requires q' <= q
    requires ExtractPreparedMessages(blockHeight, pbftStorage, q).Some?
    ensures ExtractPreparedMessages(blockHeight, pbftStorage, q') == ExtractPreparedMessages(blockHeight, pbftStorage, q)
  {
  }
}
