/** The values every node exchanges, and the two things a deployment fixes: the digest
    of a block header and the difficulty. */
module Entities {
  import opened GoText

  datatype Transaction = Transaction(id: Text, data: Text, timestamp: int64)

  datatype Block = Block(
    version: int64,
    difficulty: int64,
    index: int64,
    timestamp: int64,
    transactions: seq<Transaction>,
    prevHash: Text,
    hash: Text,
    nonce: uint64)

  /** The fields of a block that its hash protects: all of them but the hash. */
  datatype Header = Header(
    version: int64,
    difficulty: int64,
    index: int64,
    timestamp: int64,
    transactions: seq<Transaction>,
    prevHash: Text,
    nonce: uint64)

  function HeaderOf(b: Block): Header {
    Header(b.version, b.difficulty, b.index, b.timestamp, b.transactions, b.prevHash, b.nonce)
  }

  /** Any function to 64 lower-case hexadecimal digits. No collision resistance is
      built in: where a result needs it, it is a hypothesis about the blocks at hand. */
  type Digest = f: Header -> Text | forall h :: IsDigest(f(h)) witness (h: Header) => seq(64, i => 48)

  datatype Rules = Rules(digest: Digest, difficulty: int64)

  function CalculateHash(p: Rules, b: Block): (t: Text)
    ensures IsDigest(t)
  {
    p.digest(HeaderOf(b))
  }

  /** No two different headers among `blocks` share a digest. */
  ghost predicate NoCollision(p: Rules, blocks: set<Block>) {
    forall x, y | x in blocks && y in blocks && CalculateHash(p, x) == CalculateHash(p, y) :: HeaderOf(x) == HeaderOf(y)
  }

  /** Results of ledger operations. `Invalid` stands for Go's unnamed errors, which no
      caller tells apart; the others are the sentinels callers test for. */
  datatype Status =
    | Accepted
    | Invalid
    | StaleBlock
    | NotBetter
    | Duplicate
    | Full
    | SaveFailed
    | TipChanged
    | Canceled
    | Exhausted

  datatype Option<+T> = None | Some(value: T) {
    predicate IsFailure() {
      None?
    }

    function PropagateFailure<U>(): Option<U>
      requires None?
    {
      None
    }

    function Extract(): T
      requires Some?
    {
      value
    }
  }
}
