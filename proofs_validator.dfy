/**
 * `validatePrepared`: the acceptance test for a prepared proof (one
 * preprepare plus its prepares) carried by a view-change. Signature checking,
 * block hashing and the leader of a view are the caller's functions.
 */
module ProofsValidator {
  import opened Common

  /** A signer's public key, compared by value. */
  datatype PublicKey = PublicKey(key: string)
  type Signature = string

  /**
   * A Node `Buffer` object: `allocation` tells two objects apart, `bytes` is
   * the content. `!==` compares objects; `.equals` compares content.
   */
  datatype Buffer = Buffer(allocation: nat, bytes: Bytes)

  /** The signed part of a payload: what the three equality checks compare. */
  datatype BlockRef = BlockRef(term: int, view: int, blockHash: Buffer)

  datatype PreparePayload = PreparePayload(pk: PublicKey, signature: Signature, data: BlockRef)

  datatype PrePreparePayload =
    PrePreparePayload(pk: PublicKey, signature: Signature, data: BlockRef, block: Option<Block>)

  /** Either part may be `undefined`. */
  datatype PreparedProof =
    PreparedProof(prepreparePayload: Option<PrePreparePayload>, preparePayloads: Option<seq<PreparePayload>>)

  /** `keyManager.verify(data, signature, pk)`. */
  type Verifier = (BlockRef, Signature, PublicKey) -> bool

  /** The distinct signer keys, accumulated left to right as the `reduce` into a `Map` does. */
  function SignerKeys(ps: seq<PreparePayload>): set<PublicKey> {
    if ps == [] then {} else SignerKeys(ps[..|ps| - 1]) + {ps[|ps| - 1].pk}
  }

  /** No two prepares share a signer. */
  ghost predicate DistinctSigners(ps: seq<PreparePayload>) {
    forall i, j :: 0 <= i < j < |ps| ==> ps[i].pk != ps[j].pk
  }

  /** Every signer is among the keys, and every key comes from some signer. */
  lemma {:induction false} SignerKeysMembers(ps: seq<PreparePayload>)
    ensures forall i :: 0 <= i < |ps| ==> ps[i].pk in SignerKeys(ps)
    ensures forall k :: k in SignerKeys(ps) ==> exists i :: 0 <= i < |ps| && ps[i].pk == k
    ensures |SignerKeys(ps)| <= |ps|
  {
    if ps != [] {
      var init := ps[..|ps| - 1];
      SignerKeysMembers(init);
      forall i | 0 <= i < |init| ensures ps[i] == init[i] { }
    }
  }

  /** Appending a prepare keeps the signers distinct iff its signer is new. */
  lemma DistinctSignersSnoc(init: seq<PreparePayload>, last: PreparePayload)
    ensures DistinctSigners(init + [last]) <==>
              DistinctSigners(init) && forall i :: 0 <= i < |init| ==> init[i].pk != last.pk
  {
    var ps := init + [last];
    if DistinctSigners(ps) {
      forall i, j | 0 <= i < j < |init| ensures init[i].pk != init[j].pk {
        assert ps[i] == init[i] && ps[j] == init[j];
      }
      forall i | 0 <= i < |init| ensures init[i].pk != last.pk {
        assert ps[i] == init[i] && ps[|init|] == last;
      }
    }
  }

  /** The map-size test for unique signers holds exactly when no signer repeats. */
  lemma {:induction false} SignerKeysDistinct(ps: seq<PreparePayload>)
    ensures |SignerKeys(ps)| == |ps| <==> DistinctSigners(ps)
  {
    if ps != [] {
      var init := ps[..|ps| - 1];
      var last := ps[|ps| - 1];
      assert ps == init + [last];
      SignerKeysDistinct(init);
      SignerKeysMembers(init);
      DistinctSignersSnoc(init, last);
      assert SignerKeys(ps) == SignerKeys(init) + {last.pk};
      if last.pk in SignerKeys(init) {
        assert SignerKeys(ps) == SignerKeys(init);
      } else {
        assert |SignerKeys(ps)| == |SignerKeys(init)| + 1;
      }
    }
  }

  /** `a.equals(b)`: same content. */
  predicate SameContent(a: Buffer, b: Buffer) {
    a.bytes == b.bytes
  }

  /** `a === b`: the same object. */
  predicate SameObject(a: Buffer, b: Buffer) {
    a == b
  }

  /** Whether a prepare's signed (term, view, blockHash) differs from the preprepare's. */
  predicate Mismatches(p: BlockRef, term: int, view: int, blockHash: Buffer, sameHash: (Buffer, Buffer) -> bool) {
    p.view != view || p.term != term || !sameHash(p.blockHash, blockHash)
  }

  /** `findIndex` of the first mismatching prepare, or -1. */
  function FindMismatch(ps: seq<PreparePayload>, term: int, view: int, blockHash: Buffer,
                        sameHash: (Buffer, Buffer) -> bool): (i: int)
    ensures -1 <= i < |ps|
    ensures i == -1 <==> forall k :: 0 <= k < |ps| ==> !Mismatches(ps[k].data, term, view, blockHash, sameHash)
    ensures 0 <= i ==> Mismatches(ps[i].data, term, view, blockHash, sameHash)
  {
    if ps == [] then -1
    else if Mismatches(ps[0].data, term, view, blockHash, sameHash) then 0
    else
      var j := FindMismatch(ps[1..], term, view, blockHash, sameHash);
      if j == -1 then -1 else j + 1
  }

  /**
   * What an acceptable prepared proof is, rule by rule, as a reference
   * definition; `sameHash` is how a prepare's block hash is compared with the
   * preprepare's.
   */
  ghost predicate Acceptable(proof: PreparedProof, f: int, verify: Verifier,
                             calculateBlockHash: Block -> Bytes, calcLeaderPk: int -> PublicKey,
                             sameHash: (Buffer, Buffer) -> bool)
  {
    match (proof.prepreparePayload, proof.preparePayloads)
    case (None, None) => true
    case (Some(pp), Some(ps)) =>
      && |ps| >= 2 * f
      && pp.block.Some?
      && verify(pp.data, pp.signature, pp.pk)
      && calcLeaderPk(pp.data.view) == pp.pk
      && DistinctSigners(ps)
      && (forall k :: 0 <= k < |ps| ==> verify(ps[k].data, ps[k].signature, ps[k].pk))
      && (forall k :: 0 <= k < |ps| ==>
            ps[k].data.term == pp.data.term && ps[k].data.view == pp.data.view
            && sameHash(ps[k].data.blockHash, pp.data.blockHash))
      && calculateBlockHash(pp.block.value) == pp.data.blockHash.bytes
    case _ => false
  }

  /**
   * The guards in the source's order, each returning false on failure. The
   * result is true exactly when every rule of `Acceptable` holds.
   */
  function CheckPrepared(preparedProof: PreparedProof, f: int, verify: Verifier,
                         calculateBlockHash: Block -> Bytes, calcLeaderPk: int -> PublicKey,
                         sameHash: (Buffer, Buffer) -> bool): (r: bool)
    ensures preparedProof.prepreparePayload.None? && preparedProof.preparePayloads.None? ==> r
    ensures preparedProof.prepreparePayload.None? != preparedProof.preparePayloads.None? ==> !r
    ensures r <==> Acceptable(preparedProof, f, verify, calculateBlockHash, calcLeaderPk, sameHash)
  {
    var PreparedProof(prepreparePayload, preparePayloads) := preparedProof;
    if preparePayloads.None? && prepreparePayload.None? then true
    else if preparePayloads.None? || prepreparePayload.None? then false
    else
      var ps := preparePayloads.value;
      var pp := prepreparePayload.value;
      if |ps| < 2 * f then false
      else if pp.block.None? then false
      else if !verify(pp.data, pp.signature, pp.pk) then false
      else
        var BlockRef(term, view, blockHash) := pp.data;
        if calcLeaderPk(view) != pp.pk then false
        else
          SignerKeysDistinct(ps);
          if |SignerKeys(ps)| != |ps| then false
          else if !(forall k :: 0 <= k < |ps| ==> verify(ps[k].data, ps[k].signature, ps[k].pk)) then false
          else if FindMismatch(ps, term, view, blockHash, sameHash) > -1 then false
          else calculateBlockHash(pp.block.value) == blockHash.bytes
  }

  /** `validatePrepared` with the prepares' block hashes compared by content. */
  function ValidatePrepared(preparedProof: PreparedProof, f: int, verify: Verifier,
                            calculateBlockHash: Block -> Bytes, calcLeaderPk: int -> PublicKey): (r: bool)
    ensures r <==> Acceptable(preparedProof, f, verify, calculateBlockHash, calcLeaderPk, SameContent)
  {
    CheckPrepared(preparedProof, f, verify, calculateBlockHash, calcLeaderPk, SameContent)
  }

  /** `validatePrepared` as written: the prepares' block hashes compared with `!==`. */
  function ValidatePreparedAsWritten(preparedProof: PreparedProof, f: int, verify: Verifier,
                                     calculateBlockHash: Block -> Bytes, calcLeaderPk: int -> PublicKey): (r: bool)
    ensures r <==> Acceptable(preparedProof, f, verify, calculateBlockHash, calcLeaderPk, SameObject)
  {
    CheckPrepared(preparedProof, f, verify, calculateBlockHash, calcLeaderPk, SameObject)
  }

  /** Comparing by object is stricter: whatever the written check accepts, the content check accepts. */
  lemma AsWrittenIsStricter(preparedProof: PreparedProof, f: int, verify: Verifier,
                            calculateBlockHash: Block -> Bytes, calcLeaderPk: int -> PublicKey)
    requires ValidatePreparedAsWritten(preparedProof, f, verify, calculateBlockHash, calcLeaderPk)
    ensures ValidatePrepared(preparedProof, f, verify, calculateBlockHash, calcLeaderPk)
  {
  }

  /** An accepted non-empty proof carries prepares from at least 2f distinct signers. */
  lemma AcceptedProofHasQuorum(preparedProof: PreparedProof, f: int, verify: Verifier,
                               calculateBlockHash: Block -> Bytes, calcLeaderPk: int -> PublicKey)
    requires ValidatePrepared(preparedProof, f, verify, calculateBlockHash, calcLeaderPk)
    requires preparedProof.preparePayloads.Some?
    ensures |set p | p in preparedProof.preparePayloads.value :: p.pk| >= 2 * f
  {
    var ps := preparedProof.preparePayloads.value;
    SignerKeysDistinct(ps);
    SignerKeysMembers(ps);
    assert SignerKeys(ps) == set p | p in ps :: p.pk;
  }

  /**
   * This revision checks neither that prepare signers are members nor that
   * the leader did not also sign a prepare: a proof whose prepares come from
   * the leader and one other key is accepted with f = 1.
   */
  lemma AcceptsPrepareSignedByLeader()
    ensures
      var block := Block(BlockHeader(1, [1]));
      var data := BlockRef(0, 0, Buffer(0, [1]));
      var proof := PreparedProof(
        Some(PrePreparePayload(PublicKey("Leader PK"), "sig", data, Some(block))),
        Some([PreparePayload(PublicKey("Leader PK"), "sig", data), PreparePayload(PublicKey("Node 2"), "sig", data)]));
      ValidatePrepared(proof, 1, (d, s, k) => true, (b: Block) => b.header.blockHash, v => PublicKey("Leader PK"))
  {
    var data := BlockRef(0, 0, Buffer(0, [1]));
    var ps := [PreparePayload(PublicKey("Leader PK"), "sig", data), PreparePayload(PublicKey("Node 2"), "sig", data)];
    assert ps[..1] == [ps[0]];
    assert [ps[0]][..0] == [];
    assert SignerKeys([ps[0]]) == {PublicKey("Leader PK")};
    assert SignerKeys(ps) == {PublicKey("Leader PK"), PublicKey("Node 2")};
  }

  /**
   * Prepares that carry their own copy of the preprepare's block hash, as a
   * proof decoded from the network does, fail the written check and pass the
   * content check.
   */
  lemma AsWrittenRejectsCopiedHash()
    ensures
      var block := Block(BlockHeader(1, [1]));
      var copy := BlockRef(0, 0, Buffer(1, [1]));
      var proof := PreparedProof(
        Some(PrePreparePayload(PublicKey("Leader PK"), "sig", BlockRef(0, 0, Buffer(0, [1])), Some(block))),
        Some([PreparePayload(PublicKey("Node 1"), "sig", copy), PreparePayload(PublicKey("Node 2"), "sig", copy)]));
      var verify: Verifier := (d, s, k) => true;
      var hash := (b: Block) => b.header.blockHash;
      var leader := v => PublicKey("Leader PK");
      && !ValidatePreparedAsWritten(proof, 1, verify, hash, leader)
      && ValidatePrepared(proof, 1, verify, hash, leader)
  {
    var copy := BlockRef(0, 0, Buffer(1, [1]));
    var ps := [PreparePayload(PublicKey("Node 1"), "sig", copy), PreparePayload(PublicKey("Node 2"), "sig", copy)];
    assert ps[..1] == [ps[0]];
    assert [ps[0]][..0] == [];
    assert SignerKeys([ps[0]]) == {PublicKey("Node 1")};
    assert SignerKeys(ps) == {PublicKey("Node 1"), PublicKey("Node 2")};
    assert Mismatches(ps[0].data, 0, 0, Buffer(0, [1]), SameObject);
  }
}
