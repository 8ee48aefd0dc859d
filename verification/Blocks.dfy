/** Blocks as stored: the fields consensus reads, and those it only carries. */
module Blocks {
  import opened BlockGraph
  import opened Words
  import opened Wrappers

  datatype Block = Block(
    id: BlockId,
    parents: seq<BlockId>,
    work: u128,
    timestampMs: u64,
    nonce: u64,
    vrfPublicKey: Option<Bytes>,
    vrfProof: Option<Bytes>,
    vrfOutput: Option<Bytes>,
    payload: Option<Bytes>)
  {
    function ToVertex(): Vertex {
      Vertex(parents, work as nat, timestampMs as nat)
    }

    /** Evict the payload; the id is kept. */
    function Pruned(): Block {
      this.(payload := None)
    }
  }
}
