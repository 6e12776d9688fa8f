/** A payment through a chain of nodes, as the client drives it: create a transaction at
    every hop from the service backwards, have them signed pairwise, check them, and
    commit them in the same order. */
module PaymentModel {
  import opened Types
  import opened LedgerModel
  import opened NodeModel
  import Amounts

  /** A node of the route, with the fee it is listed at. */
  datatype Hop = Hop(address: Address, fee: Amount)

  datatype World = World(nodes: map<Address, NodeState>, ledger: LedgerState)

  function Addresses(route: seq<Hop>): set<Address> {
    set h | h in route :: h.address
  }

  // ----- Creating -----

  function CreateAt(w: World, a: Address, request: CreateRequest): (World, Result<Replacing>) {
    if a !in w.nodes then (w, Err(UnknownNode))
    else
      var (node, made) := NodeModel.Create(w.nodes[a], SequenceOf(w.ledger, a), request.payer in w.ledger.sequence,
          request);
      (w.(nodes := w.nodes[a := node]), made)
  }

  /** The request to hop `i`, when the hops beyond it charge `fee` together. */
  function HopRequest(pr: PaymentRequest, route: seq<Hop>, i: nat, fee: Amount): CreateRequest
    requires 0 < i < |route|
  {
    CreateRequest(Add(Add(pr.amount, fee), route[i].fee), Add(pr.amount, fee), route[i - 1].address, pr.session)
  }

  datatype Created = Created(made: seq<Replacing>, totalFee: Amount)

  /** `createTransactions` from hop `i` back to the first, with `fee` accumulated so far. */
  function CreateLoop(w: World, pr: PaymentRequest, route: seq<Hop>, i: nat, fee: Amount, made: seq<Replacing>)
    : (r: (World, Result<Created>))
    requires i < |route|
    ensures r.1.Ok? ==> |r.1.value.made| == |made| + i
    decreases i
  {
    if i == 0 then (w, Ok(Created(made, fee)))
    else
      var (w', result) := CreateAt(w, route[i].address, HopRequest(pr, route, i, fee));
      match result
      case Err(e) => (w', Err(e))
      case Ok(tr) =>
        if tr.pending.payer == tr.pending.payee then (w', Err(SelfPayment))
        else CreateLoop(w', pr, route, i - 1, Add(fee, route[i].fee), made + [tr])
  }

  /** `createTransactions` on a whole route. */
  function CreatedAll(w: World, pr: PaymentRequest, route: seq<Hop>): (r: (World, Result<Created>))
    requires route != []
    ensures r.1.Ok? ==> |r.1.value.made| == |route| - 1
  {
    CreateLoop(w, pr, route, |route| - 1, 0, [])
  }

  // ----- Signing -----

  datatype Signing = Signing(signed: seq<Replacing>, debit: Replacing)

  /** The pairwise loop of `signTransactions` from `idx` on: the payee of the next
      transaction signs it as its credit and the previous one as its debit. */
  function SignLoop(known: set<Address>, ts: seq<Replacing>, idx: nat, debit: Replacing, signed: seq<Replacing>)
    : Result<Signing>
    decreases |ts| - idx
  {
    if idx >= |ts| then Ok(Signing(signed, debit))
    else
      var node := ts[idx].pending.payee;
      if node !in known then Err(UnknownNode)
      else
        match SignPair(node, ts[idx], debit)
        case Err(e) => Err(e)
        case Ok((credit, done)) => SignLoop(known, ts, idx + 1, credit, signed + [done])
  }

  /** `signInitialTransactions`: the client's own check of what it is about to pay. */
  function SignInitial(client: Address, r: Replacing, destination: Address, amount: Amount): Result<Replacing> {
    if r.pending.xdr.None? then Err(UnreadableEnvelope)
    else
      var e := r.pending.xdr.value;
      var expected := if r.reference.Some? then Add(amount, r.reference.value.amountIn) else amount;
      if e.payer != client then Err(PayerMismatch)
      else if e.payee != destination then Err(PayeeMismatch)
      else if Amounts.ReadBack(e.stroops) != expected then Err(WrongAmount)
      else SignPending(client, r)
  }

  /** `signTransactions`; only the nodes in `reachable` answer. */
  function SignAll(
    reachable: set<Address>, client: Address, pr: PaymentRequest, route: seq<Hop>,
        created: Created): Result<seq<Replacing>>
    requires |route| >= 2 && created.made != []
  {
    if route[|route| - 1].address !in reachable then Err(UnknownNode)
    else
      match SignService(route[|route| - 1].address, created.made[0])
      case Err(e) => Err(e)
      case Ok(debit) => SignRest(Addresses(route) * reachable, client, pr, route, created, debit)
  }

  function SignRest(
    known: set<Address>, client: Address, pr: PaymentRequest, route: seq<Hop>, created: Created, first: Replacing)
    : Result<seq<Replacing>>
    requires |route| >= 2
  {
    match SignLoop(known, created.made, 1, first, [])
    case Err(e) => Err(e)
    case Ok(s) =>
      match SignInitial(client, s.debit, route[1].address, Add(pr.amount, created.totalFee))
      case Err(e) => Err(e)
      case Ok(own) => Ok(s.signed + [own])
  }

  predicate PaysItself(r: Replacing) {
    r.pending.payer == r.pending.payee
  }

  function SignAndCheck(
    reachable: set<Address>, client: Address, pr: PaymentRequest, route: seq<Hop>,
        created: Created): Result<seq<Replacing>>
    requires |route| >= 2 && created.made != []
  {
    match SignAll(reachable, client, pr, route, created)
    case Err(e) => Err(e)
    case Ok(ts) => if exists r :: r in ts && PaysItself(r) then Err(SelfPayment) else Ok(ts)
  }

  /** `InitiatePayment`. `balance` is what the ledger reports the client to have. */
  function Initiate(w: World, client: Address, balance: Amount, pr: PaymentRequest, route: seq<Hop>)
    : (World, Result<seq<Replacing>>)
    requires |route| >= 2
  {
    if route[0].address != client || route[|route| - 1].address != pr.address then (w, Err(BadRoute))
    else if pr.amount > balance then (w, Err(InsufficientBalance))
    else
      var (w', created) := CreatedAll(w, pr, route);
      match created
      case Err(e) => (w', Err(e))
      case Ok(c) => (w', SignAndCheck(w'.nodes.Keys, client, pr, route, c))
  }

  // ----- Validating -----

  /** `validateSingleTransaction`. */
  function ValidateSingle(t: Transaction): Result<()> {
    if t.amountIn < t.amountOut then Err(AmountOutTooLarge)
    else if t.source != t.payee then Err(WrongSource)
    else if t.payer == t.payee then Err(SelfPayment)
    else Ok(())
  }

  /** `PaymentTransactionReplacing.Validate`. */
  function Validate(r: Replacing): Result<()> {
    if r.pending.xdr.None? then Err(UnreadableEnvelope)
    else if ValidateSingle(r.pending).Err? then ValidateSingle(r.pending)
    else if r.reference.None? then Ok(())
    else if r.reference.value.xdr.None? then Err(UnreadableEnvelope)
    else if r.pending.xdr.value.sequence != r.reference.value.xdr.value.sequence then Err(SequenceMismatch)
    else Ok(())
  }

  /** `VerifyTransactions` from the `j`-th transaction on. */
  function VerifyLoop(ts: seq<Replacing>, j: nat): Result<()>
    decreases |ts| - j
  {
    if j >= |ts| then Ok(())
    else if Validate(ts[j]).Err? then Validate(ts[j])
    else VerifyLoop(ts, j + 1)
  }

  // ----- Committing -----

  function CommitAt(w: World, pr: PaymentRequest, known: set<Address>, r: Replacing): (World, Result<()>) {
    var a := r.pending.payee;
    if a !in known || a !in w.nodes then (w, Err(UnknownNode))
    else
      var cur := SequenceOf(w.ledger, a);
      var (node, result) :=
        if a == pr.address then CommitService(w.nodes[a], cur, r.pending, pr.session)
        else Commit(w.nodes[a], cur, r.pending);
      (w.(nodes := w.nodes[a := node]), result)
  }

  /** `FinalizePayment` from the `j`-th transaction on: commit in the order of the list and
      stop at the first failure. */
  function FinalizeLoop(w: World, pr: PaymentRequest, known: set<Address>, ts: seq<Replacing>, j: nat)
    : (World, Result<()>)
    decreases |ts| - j
  {
    if j >= |ts| then (w, Ok(()))
    else
      var (w', result) := CommitAt(w, pr, known, ts[j]);
      if result.Err? then (w', result) else FinalizeLoop(w', pr, known, ts, j + 1)
  }

  function First(ts: seq<Replacing>, k: Option<nat>): seq<Replacing> {
    if k.Some? && k.value < |ts| then ts[..k.value] else ts
  }

  /** `paymentProcess`: initiate, verify and finalize as one run, which may break off after
      some number of commits. */
  function PayUntil(
    w: World, client: Address, balance: Amount, pr: PaymentRequest, route: seq<Hop>, breakOff: Option<nat>): (World,
        Result<()>)
    requires |route| >= 2
  {
    var (w', initiated) := Initiate(w, client, balance, pr, route);
    match initiated
    case Err(e) => (w', Err(e))
    case Ok(ts) =>
      if VerifyLoop(ts, 0).Err? then (w', VerifyLoop(ts, 0))
      else FinalizeLoop(w', pr, Addresses(route), First(ts, breakOff), 0)
  }

  function Pay(w: World, client: Address, balance: Amount, pr: PaymentRequest, route: seq<Hop>): (World, Result<()>)
    requires |route| >= 2
  {
    PayUntil(w, client, balance, pr, route, None)
  }

  /** A payment after its initiation. */
  lemma PayOnwards(w: World, w': World, initiated: Result<seq<Replacing>>, client: Address, balance: Amount,
      pr: PaymentRequest, route: seq<Hop>, breakOff: Option<nat>)
    requires |route| >= 2 && Initiate(w, client, balance, pr, route) == (w', initiated)
    ensures PayUntil(w, client, balance, pr, route, breakOff)
         == if initiated.Err? then (w', Err(initiated.error))
            else if VerifyLoop(initiated.value, 0).Err? then (w', VerifyLoop(initiated.value, 0))
            else FinalizeLoop(w', pr, Addresses(route), First(initiated.value, breakOff), 0)
  {
  }

  // ----- Flushing -----

  function TransferAll(balance: map<Address, int>, settled: seq<Entry>): map<Address, int>
    decreases |settled|
  {
    if settled == [] then balance
    else
      var x := settled[0].tx.xdr;
      TransferAll(if x.Some? then Transfer(balance, x.value) else balance, settled[1..])
  }

  /** The ledger after a flush by the account `a`. */
  function FlushedLedger(l: LedgerState, a: Address, f: Flushed): LedgerState {
    LedgerState(if f.cur == SequenceOf(l, a) then l.sequence else l.sequence[a := f.cur],
                TransferAll(l.balance, f.settled))
  }

  /** `FlushTransactions` at node `a`. */
  function FlushAt(w: World, a: Address, order: seq<Entry>, bumpAccepted: bool, fates: seq<Fate>): (World, bool)
    requires a in w.nodes
  {
    var cur := SequenceOf(w.ledger, a);
    var f := NodeModel.Flush(w.nodes[a], cur, order, bumpAccepted, fates);
    (World(w.nodes[a := f.node], FlushedLedger(w.ledger, a, f)), f.ok)
  }

  /** `NewPaymentRequest` at node `a`. */
  function RequestAt(w: World, a: Address, session: Session, amount: Amount): World
    requires a in w.nodes
  {
    w.(nodes := w.nodes[a := AddUsage(w.nodes[a], session, amount)])
  }
}
