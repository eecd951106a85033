/** The relational schema: what the writers receive, and the rows they keep.
    Every table is a map keyed by its primary key. The empty string stands for
    an absent address in the inputs; the rows hold NULL as None. */
module Schema {
  import opened Prelude

  type Hash = string
  type Address = string

  // ----- Inputs -----

  /** The columns of a transaction no writer ever changes after the first insert. */
  datatype Payload = Payload(
    value: int, gas: nat, gasPrice: nat, priorityFee: Option<nat>,
    txType: nat, nonce: nat, data: seq<byte>)

  datatype Tx = Tx(
    hash: Hash, from: Address, to: Address, payload: Payload,
    timestamp: Time, created: Address)

  datatype Receipt = Receipt(gasUsed: nat, effectiveGasPrice: Option<nat>, status: int)

  datatype Block = Block(
    number: nat, hash: Hash, parentHash: Hash, minedAt: Time,
    txCount: nat, gasUsed: nat, baseFee: Option<nat>)

  datatype Transfer = Transfer(
    txHash: Hash, logIndex: nat, token: Address, from: Address, to: Address, amount: nat)

  datatype MinedBlock = MinedBlock(
    block: Block, transactions: seq<Tx>, receipts: map<Hash, Receipt>, transfers: seq<Transfer>)

  // ----- Rows -----

  datatype TxStatus = Pending | Mined | Replaced | Dropped

  datatype TxRow = TxRow(
    from: Address, to: Option<Address>, payload: Payload, timestamp: Time,
    status: TxStatus, blockNumber: Option<nat>, minedAt: Option<Time>,
    gasUsed: Option<nat>, effectiveGasPrice: Option<nat>, receiptStatus: Option<int>,
    created: Option<Address>)

  datatype BlockRow = BlockRow(block: Block, ingestedAt: Time)

  datatype TransferRow = TransferRow(
    blockNumber: nat, token: Address, from: Address, to: Address, amount: nat)

  datatype AccountRow = AccountRow(isContract: bool, firstSeen: Time, lastSeen: Time)

  datatype JobStatus = Queued | Processing | Done | Failed

  datatype JobRow = JobRow(
    status: JobStatus, attempts: nat, availableAt: Time,
    lockedAt: Option<Time>, hasError: bool, updatedAt: Time)

  datatype TransferKey = TransferKey(txHash: Hash, logIndex: nat)

  datatype Db = Db(
    blocks: map<nat, BlockRow>,
    txs: map<Hash, TxRow>,
    transfers: map<TransferKey, TransferRow>,
    accounts: map<Address, AccountRow>,
    jobs: map<Hash, JobRow>)

  /** Why PostgreSQL refused a statement, or why a transaction was given up. */
  datatype SqlError =
    | CheckViolation | ForeignKeyViolation | UniqueViolation | CardinalityViolation
    | DeadlockDetected | SerializationFailure | Cancelled | Unavailable

  function Nullable(a: Address): Option<Address> {
    if a == "" then None else Some(a)
  }

  predicate HexDigit(c: char) {
    '0' <= c <= '9' || 'a' <= c <= 'f' || 'A' <= c <= 'F'
  }

  /** The CHECK constraint on accounts.address. */
  predicate WellFormed(a: Address) {
    |a| == 42 && a[0] == '0' && a[1] == 'x' && forall i | 2 <= i < 42 :: HexDigit(a[i])
  }

  function HashSet(list: seq<Tx>): set<Hash> {
    set t | t in list :: t.hash
  }

  function TransferHashes(list: seq<Transfer>): set<Hash> {
    set tt | tt in list :: tt.txHash
  }

  function Key(tt: Transfer): TransferKey {
    TransferKey(tt.txHash, tt.logIndex)
  }
}
