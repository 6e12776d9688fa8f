/** The values that travel between the nodes: 32-bit token amounts, the signed
    Stellar envelope, and the payment transactions wrapped around it. */
module Types {

  /** A `models.TransactionAmount`: Go's `uint32`, in thousandths of a token. */
  const U32 := 0x1_0000_0000
  type Amount = n: nat | n < U32

  /** Stellar account addresses and session ids: only ever compared for equality. */
  type Address(==, !new)
  type Session(==, !new)

  /** `uint32` addition, which wraps around. */
  function Add(a: Amount, b: Amount): Amount {
    if a + b < U32 then a + b else a + b - U32
  }

  /** `uint32` subtraction, which wraps around. */
  function Sub(a: Amount, b: Amount): Amount {
    if b <= a then a - b else a - b + U32
  }

  datatype Option<+T> = None | Some(value: T)

  datatype Result<+T> = Ok(value: T) | Err(error: Error)

  datatype Error =
    | PayeeMismatch
    | PayerMismatch
    | UnknownAccount
    | UnreadableEnvelope
    | NodeEnded
    | SelfPayment
    | StaleSequence
    | WrongSource
    | MissingPayerSignature
    | MissingSourceSignature
    | UnknownSession
    | UnknownNode
    | BadRoute
    | InsufficientBalance
    | WrongAmount
    | AmountOutTooLarge
    | SequenceMismatch
    | DuplicateNode
    | BumpFailed
    | UnknownCommodity
    | AssetMismatch

  /** The XDR of a transaction: issued from `source`'s account under `sequence`, it
      holds one payment of `stroops` (1e-7 tokens) and the signatures in the order
      in which they were appended. */
  datatype Envelope = Envelope(
    source: Address,
    sequence: int,
    payer: Address,
    payee: Address,
    stroops: nat,
    signatures: seq<Address>)

  /** `models.PaymentTransaction`. `xdr` is `None` while no envelope has been built. */
  datatype Transaction = Transaction(
    source: Address,
    amountIn: Amount,
    amountOut: Amount,
    xdr: Option<Envelope>,
    payer: Address,
    payee: Address,
    session: Session)

  /** `models.PaymentTransactionReplacing`: a pending transaction together with the
      active one it replaces, if any. */
  datatype Replacing = Replacing(pending: Transaction, reference: Option<Transaction>)

  /** `models.PaymentTransactionWithSequence`. */
  datatype Entry = Entry(tx: Transaction, sequence: int)

  /** `models.CreateTransactionCommand`. */
  datatype CreateRequest = CreateRequest(totalIn: Amount, totalOut: Amount, payer: Address, session: Session)

  /** `models.PaymentRequest`. */
  datatype PaymentRequest = PaymentRequest(amount: Amount, session: Session, address: Address)

  /** What the ledger does with a transaction whose sequence number is the next one:
      apply it, refuse it outright, or use up its number although the payment failed. */
  datatype Fate = Applied | Rejected | Consumed

  function HeadFate(fates: seq<Fate>): Fate {
    if fates == [] then Applied else fates[0]
  }

  function RestFates(fates: seq<Fate>): seq<Fate> {
    if fates == [] then [] else fates[1..]
  }

  function WithSignatures(t: Transaction, signatures: seq<Address>): Transaction {
    if t.xdr.Some? then t.(xdr := Some(t.xdr.value.(signatures := signatures))) else t
  }

  /** Equal up to the signatures on the envelope. */
  predicate SameBody(t: Transaction, u: Transaction) {
    && t.xdr.Some? && u.xdr.Some?
    && t.(xdr := None) == u.(xdr := None)
    && t.xdr.value.(signatures := []) == u.xdr.value.(signatures := [])
  }
}
