/** Value types shared by every component of the model. */
module Common {

  /** `undefined` versus a present value. */
  datatype Option<+T> = None | Some(value: T)

  /** A value, or the exception the source would throw instead. */
  datatype Result<+R, +E> = Success(value: R) | Failure(error: E)

  /**
   * The content of a Node `Buffer`. Where only content matters (block
   * headers, `calculateBlockHash`) a hash is `Bytes`; `validatePrepared`
   * also compares `Buffer` objects by identity, so it wraps these bytes in
   * its own `Buffer` datatype, which adds the object's identity.
   */
  type Bytes = seq<bv8>

  /**
   * Replica identities, and block hashes as the vote store receives them:
   * both store revisions take the hash as a `string` and splice it into
   * their `term_view_hash` keys, so the store never sees hash bytes.
   */
  type SenderId = string
  type BlockHash = string

  /** A block: opaque except for its header (height and content hash). */
  datatype BlockHeader = BlockHeader(height: int, blockHash: Bytes)
  datatype Block = Block(header: BlockHeader)

  /** `Array.prototype.indexOf`: the first position of `x` in `s`, or -1. */
  function IndexOf<S(==)>(s: seq<S>, x: S): (i: int)
    ensures -1 <= i < |s|
    ensures i == -1 <==> x !in s
    ensures 0 <= i ==> s[i] == x && x !in s[..i]
  {
    if s == [] then -1
    else if s[0] == x then 0
    else
      var j := IndexOf(s[1..], x);
      if j == -1 then -1
      else
        assert s[..j + 1] == [s[0]] + s[1..][..j];
        j + 1
  }
}
