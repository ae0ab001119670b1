# PBFT-Typescript: a Dafny model of the replica's bookkeeping

This project models the state-keeping core of orbs-network's PBFT-Typescript
replica. That core has five parts:

- the in-memory quorum vote store (`InMemoryPBFTStorage`), in its `src/` revision and its term-scoped `test/` revision;
- the validator for the prepared proof a view-change carries (`validatePrepared`);
- the two pure extractors that pick the latest prepared block from view-change messages and read a prepared certificate out of the store;
- the term lifecycle driver (`PBFT`), which keeps exactly one live term per height and hands committed blocks to listeners;
- the in-process gossip network the tests run on (`InMemoryGossip` with its `InMemoryGossipDiscovery`).

Modules, one per source component:

- `Common` (`common.dfy`): `Option`, `Result`, bytes, blocks, and `IndexOf` (`Array.prototype.indexOf`).
- `Votes` (`votes.dfy`): the dedup-and-append step shared by every vote table, `Record`. Also a replay of a sequence of store calls, and what the table holds after one.
- `Storage` (`storage.dfy`): `src/storage/InMemoryPBFTStorage.ts` as a class whose fields are the four maps.
- `TermStorage` (`term_storage.dfy`): `test/storage/InMemoryPBFTStorage.ts` as a class.
- `ProofsValidator` (`proofs_validator.dfy`): `validatePrepared`, its reference definition `Acceptable`, and the quorum property.
- `Messages` (`messages.dfy`): the message records of `src/networkCommunication/Messages.ts`.
- `BlockExtractor` (`block_extractor.dfy`): `getLatestBlockFromViewChangeMessages`.
- `PreparedMessagesExtractor` (`prepared_messages_extractor.dfy`): `extractPreparedMessages`.
- `Gossip` (`gossip.dfy`): the two in-memory gossip classes.
- `Driver` (`pbft.dfy`): the `PBFT` class, with small classes for the term, the message filter and the block utilities it drives.

How the source's parts are represented:

- **Stores and maps.** The store's string keys `term_view` and `term_view_hash` become tuples. The two encodings identify the same entries, because a number's decimal text never contains `_`.
- **Ordered maps.** A JavaScript `Map` iterates in insertion order. The maps that are iterated (gossip subscriptions, registered gossips) are therefore sequences of entries.
- **Callbacks.** A call back into code the model does not see becomes a returned record of the call:
  - `Invocation` for a gossip subscriber;
  - `Notification` for an `onCommitted` listener.
- **Caller-supplied functions.** Signature checking, block hashing and the leader of a view are parameters.

The two storage revisions differ:

- `src/` keys view-change votes by view alone. `test/` keys them by (term, view).
- The sender and hash argument order of `storePrepare` and `storeCommit` differs.
- `test/` takes a block content with a preprepare, logs it and never stores it.

Both revisions are modelled as written.

`getLatestBlockFromViewChangeMessages` reads `content.preparedProof…content.view`, and `extractPreparedMessages` reads `preprepareMessage.content.signedHeader.view` and `.content.signedHeader.blockHash` (src/storage/PreparedMessagesExtractor.ts:12-13). `Messages.ts` declares no `content` field: the header record is the message's own `signedHeader`. Both extractors are therefore modelled reading the message's `signedHeader` directly. The comparator dereferences the prepared proof without a guard. With two or more block-carrying messages and one of them lacking a proof, the sort throws a `TypeError`. The model returns that as `Failure(TypeError)`.

## Model

| member | source | states |
|---|---|---|
| Votes.Record | src/storage/InMemoryPBFTStorage.ts:32-46 | the vote is new (result true) exactly when the sender is not yet listed under the key; afterwards the sender is listed, a new sender is appended at the end, and every other key's list is unchanged |
| Votes.RecordKeepsWellFormed | src/storage/InMemoryPBFTStorage.ts:34-43 | recording keeps every stored list non-empty and free of duplicate senders |
| Votes.RecordIdempotent | src/storage/InMemoryPBFTStorage.ts:36-40 | repeating a vote is refused and leaves the table as after the first |
| Votes.ReplayFromEmpty | src/storage/InMemoryPBFTStorage.ts:32-51 | after any sequence of store calls on an empty table, a key's list is the distinct senders of the calls under that key, in order of first arrival, and calls under other keys never appear in it |
| Votes.CountIsDistinctSenders | src/storage/InMemoryPBFTStorage.ts:74-92 | after any sequence of store calls, the count under a key is the number of distinct senders that voted under it |
| Votes.ReplayWellFormed | src/storage/InMemoryPBFTStorage.ts:32-87 | any sequence of store calls keeps the store's invariant |
| Storage.InMemoryPBFTStorage.constructor | src/storage/InMemoryPBFTStorage.ts:10-15 | all four tables start empty |
| Storage.InMemoryPBFTStorage.StorePrePrepare | src/storage/InMemoryPBFTStorage.ts:17-25 | stores the hash and returns true exactly when nothing was stored for (term, view); otherwise returns false and keeps the first hash; no other table changes |
| Storage.InMemoryPBFTStorage.GetPrePrepare | src/storage/InMemoryPBFTStorage.ts:27-30 | the stored hash for (term, view), or none exactly when absent |
| Storage.InMemoryPBFTStorage.StorePrepare | src/storage/InMemoryPBFTStorage.ts:32-46 | the prepare table and the result are those of `Record` under (term, view, hash); the invariant is kept and no other table changes |
| Storage.InMemoryPBFTStorage.GetPrepare | src/storage/InMemoryPBFTStorage.ts:48-51 | the senders returned hold no duplicates, and are empty exactly when nothing was stored under the key |
| Storage.InMemoryPBFTStorage.StoreCommit | src/storage/InMemoryPBFTStorage.ts:53-67 | as `StorePrepare`, on the commit table |
| Storage.InMemoryPBFTStorage.GetCommit | src/storage/InMemoryPBFTStorage.ts:69-72 | as `GetPrepare`, on the commit table |
| Storage.InMemoryPBFTStorage.StoreViewChange | src/storage/InMemoryPBFTStorage.ts:74-87 | `Record` on the view-change table keyed by view alone |
| Storage.InMemoryPBFTStorage.CountOfViewChange | src/storage/InMemoryPBFTStorage.ts:89-92 | the number of distinct senders stored for the view, zero exactly when none |
| TermStorage.InMemoryPBFTStorage.constructor | test/storage/InMemoryPBFTStorage.ts:10-15 | all four tables start empty |
| TermStorage.InMemoryPBFTStorage.StorePrePrepare | test/storage/InMemoryPBFTStorage.ts:17-25 | first-write-wins on (term, view), true exactly when stored; the block content is not stored |
| TermStorage.InMemoryPBFTStorage.GetPrePrepare | test/storage/InMemoryPBFTStorage.ts:27-30 | the stored hash for (term, view), or none exactly when absent |
| TermStorage.InMemoryPBFTStorage.StorePrepare | test/storage/InMemoryPBFTStorage.ts:32-46 | `Record` under (term, view, hash), with hash before sender in the argument list |
| TermStorage.InMemoryPBFTStorage.GetPrepare | test/storage/InMemoryPBFTStorage.ts:48-51 | duplicate-free senders, empty exactly when the key is absent |
| TermStorage.InMemoryPBFTStorage.StoreCommit | test/storage/InMemoryPBFTStorage.ts:53-67 | `Record` under (term, view, hash) on the commit table |
| TermStorage.InMemoryPBFTStorage.GetCommit | test/storage/InMemoryPBFTStorage.ts:69-72 | duplicate-free senders, empty exactly when the key is absent |
| TermStorage.InMemoryPBFTStorage.StoreViewChange | test/storage/InMemoryPBFTStorage.ts:74-88 | `Record` on the view-change table keyed by (term, view) |
| TermStorage.InMemoryPBFTStorage.CountOfViewChange | test/storage/InMemoryPBFTStorage.ts:90-94 | the number of distinct senders stored for exactly (term, view) |
| TermStorage.ViewChangeVotesStayInTheirTerm | test/storage/InMemoryPBFTStorage.ts:74-94 | a view-change vote in one term leaves the same view's votes of every other term unchanged |
| TermStorage.ViewChangeVotesStayApartAcrossTerms | test/storage/InMemoryPBFTStorage.ts:74-94 | on one store, a sender's view-0 vote in term 2 is stored after its view-0 vote in term 1, and term 2's count is 1 |
| Storage.ViewChangeVotesCollideAcrossTerms | src/storage/InMemoryPBFTStorage.ts:74-92 | on one store, a sender's view-0 vote in term 2 is refused after its view-0 vote in term 1, and the count term 2 reads already holds the term-1 vote |
| ProofsValidator.SignerKeysMembers | src/proofsValidator/ProofsValidator.ts:39 | the key set built by the `reduce` holds exactly the prepares' signer keys, and is no larger than the prepare list |
| ProofsValidator.SignerKeysDistinct | src/proofsValidator/ProofsValidator.ts:39-42 | the size test succeeds exactly when no two prepares share a signer key |
| ProofsValidator.FindMismatch | src/proofsValidator/ProofsValidator.ts:48-50 | -1 exactly when every prepare agrees with the preprepare on term, view and hash; otherwise the index of a prepare that disagrees |
| ProofsValidator.CheckPrepared | src/proofsValidator/ProofsValidator.ts:12-61 | an empty proof is accepted, a half-empty one rejected, and otherwise the proof is accepted exactly when every rule of `Acceptable` holds: at least 2f prepares, a block, a verified preprepare signed by the leader of its view, distinct prepare signers, verified prepares agreeing with the preprepare, and a block whose hash matches |
| ProofsValidator.ValidatePrepared | src/proofsValidator/ProofsValidator.ts:5-62 | accepted exactly when `Acceptable` holds with the hashes compared by content |
| ProofsValidator.ValidatePreparedAsWritten | src/proofsValidator/ProofsValidator.ts:48-54 | accepted exactly when `Acceptable` holds with the hashes compared as objects |
| ProofsValidator.AsWrittenIsStricter | src/proofsValidator/ProofsValidator.ts:48-56 | every proof the written check accepts is accepted by the content check |
| ProofsValidator.AsWrittenRejectsCopiedHash | src/proofsValidator/ProofsValidator.ts:48-54 | a proof whose prepares carry an equal copy of the preprepare's hash is rejected as written and accepted by the content check |
| ProofsValidator.AcceptedProofHasQuorum | src/proofsValidator/ProofsValidator.ts:21-23 | an accepted non-empty proof has prepares from at least 2f distinct signer keys |
| ProofsValidator.AcceptsPrepareSignedByLeader | src/proofsValidator/ProofsValidator.ts:25-42 | no rule excludes the leader from the prepare signers: a proof with prepares from the leader and one other key is accepted with f = 1 |
| BlockExtractor.WithBlocks | src/blockExtractor/BlockExtractor.ts:5-6 | keeps exactly the messages that carry a block |
| BlockExtractor.Insert | src/blockExtractor/BlockExtractor.ts:7 | the result is a permutation of the list plus the inserted message |
| BlockExtractor.InsertKeepsDescending | src/blockExtractor/BlockExtractor.ts:7 | inserting into a list in descending proof-view order keeps it in that order |
| BlockExtractor.SortByViewDescending | src/blockExtractor/BlockExtractor.ts:7 | the sorted copy is a permutation of its input |
| BlockExtractor.SortIsDescending | src/blockExtractor/BlockExtractor.ts:7 | the sorted copy is in descending proof-view order, as the comparator `b.view - a.view` asks |
| BlockExtractor.LatestIndex | src/blockExtractor/BlockExtractor.ts:7-10 | an index whose proof view is the highest, with every earlier message's view strictly lower |
| BlockExtractor.SortedHeadIsLatest | src/blockExtractor/BlockExtractor.ts:7-10 | the head of the stable descending sort is the first message of highest proof view |
| BlockExtractor.GetLatestBlockFromViewChangeMessages | src/blockExtractor/BlockExtractor.ts:4-14 | none exactly when no message carries a block; a `TypeError` exactly when the sort compares a message without a proof; otherwise the block of a message whose proof view no other block-carrying message exceeds |
| PreparedMessagesExtractor.ExtractPreparedMessages | src/storage/PreparedMessagesExtractor.ts:9-18 | none without a latest preprepare; when a result is returned it is the store's latest preprepare with exactly the store's prepares for its view and hash, at least q - 1 of them; none when there are fewer |
| PreparedMessagesExtractor.LowerQuorumKeepsResult | src/storage/PreparedMessagesExtractor.ts:14-18 | a certificate returned for q is returned unchanged for any lower q |
| Gossip.Without | test/gossip/InMemoryGossip.ts:35-37 | removes exactly the entries with the token, keeping the others |
| Gossip.WithoutKeepsIncreasing | test/gossip/InMemoryGossip.ts:35-37 | removing an entry keeps the remaining tokens in increasing order |
| Gossip.WithoutUnknownToken | test/gossip/InMemoryGossip.ts:35-37 | unsubscribing a token no entry holds changes nothing |
| Gossip.SubscribeThenUnsubscribe | test/gossip/InMemoryGossip.ts:29-37 | unsubscribing the token a subscribe returned restores the previous subscriptions |
| Gossip.Deliveries | test/gossip/InMemoryGossip.ts:21-27 | every subscription to the message name yields a call with the sender and payload, and every call comes from such a subscription |
| Gossip.DeliveriesInTokenOrder | test/gossip/InMemoryGossip.ts:21-27 | under increasing tokens the calls' tokens strictly increase: no subscription is called twice, and the calls follow the `Map`'s insertion order |
| Gossip.Others | test/gossip/InMemoryGossip.ts:39-45 | keeps exactly the gossips other than the sender's own instance |
| Gossip.Find | test/gossip/InMemoryGossipDiscovery.ts:6-8 | none exactly when no gossip is registered under the id; otherwise a gossip registered under it |
| Gossip.Put | test/gossip/InMemoryGossipDiscovery.ts:10-12 | an existing id keeps its position and every other entry stays; a new id goes last |
| Gossip.PutFinds | test/gossip/InMemoryGossipDiscovery.ts:6-12 | after registering, the id finds the new gossip and every other id finds what it found before |
| Gossip.PutKeepsDistinct | test/gossip/InMemoryGossipDiscovery.ts:10-12 | registering keeps the ids distinct |
| Gossip.Values | test/gossip/InMemoryGossipDiscovery.ts:19-20 | every registered gossip, in registration order |
| Gossip.Selected | test/gossip/InMemoryGossipDiscovery.ts:15-17 | at most one gossip per registered entry; which and in what order are stated by `SelectedMembers` and `SelectedInRegistrationOrder` |
| Gossip.MatchingIncreasing | test/gossip/InMemoryGossipDiscovery.ts:16-17 | the positions of the requested entries strictly increase |
| Gossip.MatchingExact | test/gossip/InMemoryGossipDiscovery.ts:16-17 | a position is listed exactly when its entry's id is requested |
| Gossip.SelectedAtMatching | test/gossip/InMemoryGossipDiscovery.ts:16-17 | the filtered list takes the gossips at exactly those positions, one each, in order |
| Gossip.SelectedInRegistrationOrder | test/gossip/InMemoryGossipDiscovery.ts:15-17 | the filtered list is the ordered subsequence of the registered gossips whose ids are requested: one per such entry, at strictly increasing positions, and none missing |
| Gossip.SelectedMembers | test/gossip/InMemoryGossipDiscovery.ts:15-17 | the filtered list holds exactly the gossips registered under a requested id |
| Gossip.SelectedIgnoresRequestOrder | test/gossip/InMemoryGossipDiscovery.ts:15-17 | only which ids are requested matters, not their order or repetition |
| Gossip.SelectingAllIsAll | test/gossip/InMemoryGossipDiscovery.ts:14-21 | requesting every registered id yields the same as requesting none |
| Gossip.InMemoryGossip.constructor | test/gossip/InMemoryGossip.ts:15-19 | no subscriptions, counter at zero |
| Gossip.InMemoryGossip.Subscribe | test/gossip/InMemoryGossip.ts:29-33 | returns the counter plus one, larger than every earlier token, and appends exactly that one entry |
| Gossip.InMemoryGossip.Unsubscribe | test/gossip/InMemoryGossip.ts:35-37 | removes only the entry for the token; the counter stays |
| Gossip.InMemoryGossip.OnRemoteMessage | test/gossip/InMemoryGossip.ts:21-27 | the calls made are `Deliveries`: one for every subscription to the name and none other; when the subscription tokens increase, as the gossip's invariant keeps them, the calls' tokens strictly increase, so each subscription is called once, in token order |
| Gossip.InMemoryGossip.Broadcast | test/gossip/InMemoryGossip.ts:39-45 | the targets and calls are `BroadcastDeliveries` over every registered gossip, in registration order |
| Gossip.BroadcastReachesOthers | test/gossip/InMemoryGossip.ts:39-45 | a broadcast reaches exactly the gossips other than the sender's own instance, in order, each with the deliveries its own subscriptions make |
| Gossip.InMemoryGossip.Unicast | test/gossip/InMemoryGossip.ts:47-52 | delivers once to the gossip registered under the target id, and does nothing when there is none |
| Gossip.InMemoryGossipDiscovery.constructor | test/gossip/InMemoryGossipDiscovery.ts:4 | nothing is registered |
| Gossip.InMemoryGossipDiscovery.GetGossipById | test/gossip/InMemoryGossipDiscovery.ts:6-8 | none exactly when the id is unregistered; otherwise the gossip registered under it; with distinct ids, that gossip is the one every entry for the id holds |
| Gossip.InMemoryGossipDiscovery.RegisterGossip | test/gossip/InMemoryGossipDiscovery.ts:10-12 | the id now yields the gossip and every other id yields what it did; ids stay distinct |
| Gossip.InMemoryGossipDiscovery.GetGossips | test/gossip/InMemoryGossipDiscovery.ts:14-21 | without ids every gossip in registration order; with ids exactly the gossips registered under one of them, one per matching entry, at strictly increasing registration positions |
| Driver.PBFT.BuildTermConfig | src/PBFT.ts:23-32 | the configured storage when given, otherwise a fresh empty in-memory storage; fresh block utilities over the configured validator and provider |
| Driver.PBFT.constructor | src/PBFT.ts:16-21 | no listeners, no term, a fresh message filter, fresh block utilities over the configured validator and provider, and the configured storage or a fresh empty one |
| Driver.PBFT.NotifyCommitted | src/PBFT.ts:34-36 | one notification per listener with the block, in registration order |
| Driver.PBFT.DisposePBFTTerm | src/PBFT.ts:38-43 | afterwards no term is active and the previous one is disposed; without a term nothing changes, so a second call is harmless |
| Driver.PBFT.CreatePBFTTerm | src/PBFT.ts:45-51 | a fresh term of the height becomes the one active term, and the filter routes that height to it |
| Driver.PBFT.Start | src/PBFT.ts:63-67 | records the hash of the last committed block, disposes the previous term, and leaves exactly one active term, of height `last.height + 1`, to which the filter routes |
| Driver.PBFT.OnTermCommitted | src/PBFT.ts:46-49 | notifies every listener in registration order, then restarts at the committed block's height plus one: the previous term is disposed, the new one is the one active term, its leadership is answered, and the filter routes to it |
| Driver.PBFT.IsLeader | src/PBFT.ts:53-57 | none exactly when there is no term; otherwise the term's answer |
| Driver.PBFT.RegisterOnCommitted | src/PBFT.ts:59-61 | appends the listener; nothing else changes |
| Driver.PBFT.Dispose | src/PBFT.ts:69-73 | no listeners, no active term, and a disposed filter |

## Left out

- Logging: every `logger.log` call is dropped. The logger's argument (a vote count, say) is computed from state and has no effect on it.
- Returned arrays alias the stored lists in the source: a caller that pushes to the array of `getPrepare` changes the store. The model returns values.
- `PBFTTerm`, `NetworkMessagesFilter`, `BlockUtils` and `calculateBlockHash`: their source is not part of this model. They are reduced to what the driver reads and writes:
  - a term's height, disposed flag and leadership answer;
  - the filter's routed height, handler and disposed flag;
  - the last committed hash.
- `keyManager.verify`, `calcLeaderPk` and `blockUtils.calculateBlockHash` are parameters of the validator.
- The block returned by the extractor's sort aliases the input message's block; the model returns the value.
- What a gossip subscriber or an `onCommitted` listener does when called is not modelled.
  - Each call is returned as a record instead.
  - A callback that re-enters the gossip or the driver during delivery (a listener calling `dispose`, say) is therefore not covered.
- `InMemoryGossip.broadcast` calls `getAllGossips()`, which `test/gossip/InMemoryGossipDiscovery.ts` does not define. The model takes it to be `getGossips()` with no ids: every registered gossip, in registration order.
- Gossip payloads: the commit payload is imported in `src/gossip/Gossip.ts` but not declared in `src/gossip/Payload.ts`, so the payload type has no commit shape. `multicast` is declared in the interface but not implemented by `InMemoryGossip`.
- Driver.PBFT.CreatePBFTTerm: requires that no term is active. Its only caller, `start`, disposes the previous term first. Called otherwise, the source would leave that term running.
- Driver.PBFT.BuildTermConfig: the election trigger, network, key manager and logger are only passed through, and are left out. `src/Config.ts` declares `network` and `logger`; the election trigger and key manager are not declared in it.
- ProofsValidator.ValidatePrepared: models the five-argument `src/` revision, which has no membership check and no leader-exclusion check. `test/proofsValidator/ProofsValidator.spec.ts` calls a six-argument revision that also takes `membersPKs`. Its rejections of a prepare signed by a non-member (lines 100-111) and of a prepare from the leader (lines 113-124) belong to that revision, which is not part of this model; `AcceptsPrepareSignedByLeader` shows what the modelled revision does instead.
- Node's number type: terms, views, heights and the subscription counter are unbounded integers. Floating-point precision beyond 2^53 is not modelled.
- The logger parameter of the storage constructor, and `genesisBlockHash`, `onNewBlock` and `validateBlock` of `Config`, play no part in the modelled behaviour.

## Findings

| source | as written | input that shows it | evidently intended | confidence | as-written member | corrected member |
|---|---|---|---|---|---|---|
| src/proofsValidator/ProofsValidator.ts:48-54 | each prepare's `blockHash` is compared with the preprepare's using `!==`, which compares `Buffer` objects, not their content | f = 1; a leader-signed preprepare over hash bytes `[1]`; two prepares from distinct keys, each holding its own `Buffer` of bytes `[1]` (as any proof decoded from the network does) | compare content, as line 56 does with `.equals` | medium; not executed (the tests build every payload from one shared `Buffer`) | ProofsValidator.AsWrittenRejectsCopiedHash | ProofsValidator.ValidatePrepared |
| src/storage/InMemoryPBFTStorage.ts:74-92 | view-change votes are keyed by view alone, and `PBFT` hands one storage to every term | one sender votes view-change for view 0 in term 1 and again in term 2: the second vote is refused and the count for view 0 includes the term-1 vote | key by (term, view), as test/storage/InMemoryPBFTStorage.ts:74-94 does | medium; not executed | Storage.ViewChangeVotesCollideAcrossTerms | TermStorage.InMemoryPBFTStorage.StoreViewChange |
