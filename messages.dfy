/** The protocol messages, as declared in src/networkCommunication/Messages.ts. */
module Messages {
  import opened Common

  /** The five message kinds; the source numbers them 0 to 4 in this order. */
  datatype MessageType = PREPREPARE | PREPARE | COMMIT | VIEW_CHANGE | NEW_VIEW

  datatype SenderSignature = SenderSignature(senderPublicKey: string, contentSignature: string)

  datatype BlockMessageContent =
    BlockMessageContent(messageType: MessageType, term: int, view: int, blockHash: Bytes)

  datatype BlockRefMessage = BlockRefMessage(signedHeader: BlockMessageContent, sender: SenderSignature)

  datatype PrePrepareMessage =
    PrePrepareMessage(signedHeader: BlockMessageContent, sender: SenderSignature, block: Block)

  type PrepareMessage = BlockRefMessage

  datatype PreparedProof =
    PreparedProof(preprepareBlockRefMessage: BlockRefMessage, prepareBlockRefMessages: seq<BlockRefMessage>)

  datatype ViewChangeMessageContent =
    ViewChangeMessageContent(messageType: MessageType, term: int, view: int, preparedProof: Option<PreparedProof>)

  /** A view-change vote; `block` is present when the sender was prepared on one. */
  datatype ViewChangeMessage =
    ViewChangeMessage(signedHeader: ViewChangeMessageContent, sender: SenderSignature, block: Option<Block>)
}
