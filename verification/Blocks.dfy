/** Blocks and their content identifiers, as the blockstores see them. */
module Blocks {

  type Data = string

  const IDENTITY: nat := 0

  /** The hash part of a cid. decodes: its bytes are a well-formed multihash. */
  datatype Multihash = Multihash(code: nat, digest: Data, decodes: bool)

  /** A cid: version and codec, and the multihash. */
  datatype Cid = Cid(prefix: nat, hash: Multihash)

  datatype Block = Block(cid: Cid, data: Data)

  /** Content addressing: a multihash stands for one byte string. */
  type Content = Multihash -> Data

  predicate Sound(content: Content, b: Block) {
    b.data == content(b.cid.hash)
  }
}
