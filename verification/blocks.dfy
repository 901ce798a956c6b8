/** Block records as the unlocker and the store exchange them (storage/redis.go:21-77,
    870-922). Sorted-set members are kept as typed rows here; module Rows proves that a row
    and the colon-joined string that Redis holds determine each other. */
module Blocks {
  import opened Common

  /** A member of `blocks:candidates`. */
  datatype CandidateRow = CandidateRow(
    nonce: string, eNonce1: string, eNonce2: string,
    timestamp: int, difficulty: int, totalShares: int,
    coinBase: int, fee: int)

  /** A member of `blocks:immature` or `blocks:matured`; the leading uncle height is always 0. */
  datatype BlockRow = BlockRow(
    orphan: bool, nonce: string, hash: string,
    timestamp: int, difficulty: int, totalShares: int,
    coinBase: int, fee: int, reward: int)

  /** The Go struct BlockData; `reward` and `extraReward` are nil until a header confirms the
      block, and the two raw keys remember the member the record was read from. */
  datatype BlockData = BlockData(
    height: int, roundHeight: int,
    timestamp: int, difficulty: int, totalShares: int,
    orphan: bool, hash: string, nonce: string,
    coinBase: int, fee: int,
    reward: Option<int>, extraReward: Option<int>,
    candidateKey: Option<CandidateRow>, immatureKey: Option<BlockRow>)
  {
    function SerializeHash(): string {
      if hash != "" then hash else "0x0"
    }

    function Key(): BlockRow {
      BlockRow(orphan, nonce, SerializeHash(), timestamp, difficulty, totalShares, coinBase, fee,
               if reward.Some? then reward.value else 0)
    }
  }

  /** convertCandidateResults on one member and its score. */
  function FromCandidate(row: CandidateRow, score: int): BlockData {
    BlockData(score, score, row.timestamp, row.difficulty, row.totalShares, false, "", row.nonce,
              row.coinBase, row.fee, None, None, Some(row), None)
  }

  /** convertBlockResults on one member and its score; the stored reward is read into a string
      field only, so the big integer Reward starts out nil again. */
  function FromBlockRow(row: BlockRow, score: int): BlockData {
    BlockData(score, score, row.timestamp, row.difficulty, row.totalShares, row.orphan, row.hash, row.nonce,
              row.coinBase, row.fee, None, None, None, Some(row))
  }

  /** A found block is told apart from all others by the fields that survive in every kind of row:
      a block row has no extra nonces, and a candidate row no hash. */
  datatype Id = Id(nonce: string, timestamp: int, difficulty: int, totalShares: int, coinBase: int, fee: int)

  function CandidateId(row: CandidateRow): Id {
    Id(row.nonce, row.timestamp, row.difficulty, row.totalShares, row.coinBase, row.fee)
  }

  function BlockId(row: BlockRow): Id {
    Id(row.nonce, row.timestamp, row.difficulty, row.totalShares, row.coinBase, row.fee)
  }

  function DataId(b: BlockData): Id {
    Id(b.nonce, b.timestamp, b.difficulty, b.totalShares, b.coinBase, b.fee)
  }

  /** Nothing less will do: two candidates that are orphaned become one and the same row exactly
      when they agree in these fields. */
  lemma OrphansCollapse(a: CandidateRow, b: CandidateRow, height: int, other: int)
    ensures FromCandidate(a, height).(orphan := true).Key() == FromCandidate(b, other).(orphan := true).Key()
            <==> CandidateId(a) == CandidateId(b)
  {
  }
}
