/** A gateway node: its registry and its key, working against the shared ledger. Every
    method does what the functions of `NodeModel` say. */
module Node {
  import opened Types
  import opened LedgerModel
  import opened NodeModel
  import opened PaymentModel
  import opened Registry
  import opened Root

  class NodeImpl {
    const root: RootApi
    const registry: PaymentRegistry

    constructor (root: RootApi)
      requires root.lastSequenceId == 0
      ensures this.root == root && fresh(registry) && Valid()
      ensures State() == NodeState(root.address, 0, map[], map[], map[])
    {
      this.root := root;
      registry := new PaymentRegistry();
    }

    function State(): NodeState
      reads root, registry
    {
      NodeState(root.address, root.lastSequenceId, registry.active, registry.sessions, registry.pending)
    }

    /** What is active has passed verification, and sits in its payer's slot under its own
        number. */
    ghost predicate Valid()
      reads registry
    {
      forall p | p in registry.active :: Committed(root.address, p, registry.active[p])
    }

    // ----- Creating -----

    method NewPaymentRequest(session: Session, amount: Amount)
      requires Valid()
      modifies registry
      ensures Valid() && State() == AddUsage(old(State()), session, amount)
    {
      registry.AddServiceUsage(session, amount);
    }

    method CreateReferenceTransaction(pt: Transaction, ref: Option<Transaction>) returns (result: Result<Replacing>)
      ensures result == Accumulate(pt, ref)
    {
      var pending := pt;
      if ref.Some? && ref.value.xdr.Some? {
        if pt.payee != ref.value.payee {
          return Err(PayeeMismatch);
        }
        if pt.payer != ref.value.payer {
          return Err(PayerMismatch);
        }
        pending := pending.(amountOut := Add(ref.value.amountOut, pending.amountOut));
        pending := pending.(amountIn := Add(ref.value.amountIn, pending.amountIn));
      }
      return Ok(Replacing(pending, ref));
    }

    method CreateTransaction(request: CreateRequest) returns (result: Result<Replacing>)
      requires Valid()
      modifies root
      ensures Valid()
      ensures (State(), result)
           == NodeModel.Create(old(State()), root.Current(), request.payer in root.ledger.sequence, request)
    {
      var pt := NewTransaction(root.address, request);
      var ref := registry.GetActiveTransaction(request.payer);
      result := CreateReferenceTransaction(pt, ref);
      if result.Ok? {
        result := root.CreateTransaction(request, result.value);
      }
    }

    // ----- Signing -----

    method SignServiceTransaction(r: Replacing) returns (result: Result<Replacing>)
      ensures result == SignService(root.address, r)
    {
      if r.pending.payee != root.address {
        return Err(PayeeMismatch);
      }
      var signed := root.SignPaymentTransaction(r.pending);
      if signed.Err? {
        return Err(signed.error);
      }
      return Ok(r.(pending := signed.value));
    }

    /** Signs what the node is to receive and what it is to pay; there is no further check. A
        failure to sign ends the process. */
    method SignChainTransaction(credit: Replacing, debit: Replacing) returns (result: Result<(Replacing, Replacing)>)
      ensures result == SignPair(root.address, credit, debit)
    {
      var signedCredit := root.SignPaymentTransaction(credit.pending);
      if signedCredit.Err? {
        return Err(NodeEnded);
      }
      var signedDebit := root.SignPaymentTransaction(debit.pending);
      if signedDebit.Err? {
        return Err(NodeEnded);
      }
      return Ok((credit.(pending := signedCredit.value), debit.(pending := signedDebit.value)));
    }

    // ----- Committing -----

    method CommitTransaction(t: Transaction) returns (result: Result<()>)
      requires Valid()
      modifies registry`active, registry`sessions
      ensures Valid()
      ensures (State(), result) == Commit(old(State()), root.Current(), t)
    {
      result := root.VerifyTransaction(t);
      if result.Ok? {
        registry.SaveTransaction(t.xdr.value.sequence, t);
      }
    }

    method CommitChainTransaction(r: Replacing) returns (result: Result<()>)
      requires Valid()
      modifies registry
      ensures Valid()
      ensures (State(), result) == Commit(old(State()), root.Current(), r.pending)
    {
      result := CommitTransaction(r.pending);
    }

    method CommitServiceTransaction(r: Replacing, session: Session) returns (result: Result<()>)
      requires Valid()
      modifies registry
      ensures Valid()
      ensures (State(), result) == CommitService(old(State()), root.Current(), r.pending, session)
    {
      result := CommitTransaction(r.pending);
      if result.Ok? {
        result := registry.ReducePendingAmount(session, r.pending.amountOut);
      }
    }

    // ----- Flushing -----

    /** Submits the active transactions in the order of their numbers, as long as the
        ledger applies them. `order` is the sorted list it worked on. */
    method FlushTransactions(bumpAccepted: bool, fates: seq<Fate>) returns (ok: bool, ghost order: seq<Entry>)
      requires Valid()
      modifies registry`active, registry`sessions, root.ledger
      ensures Valid()
      ensures Lists(order, old(registry.active)) && SortedBySequence(order)
      ensures
        var f := Flush(old(State()), old(root.Current()), order, bumpAccepted, fates);
        && State() == f.node && ok == f.ok
        && root.ledger.State() == FlushedLedger(old(root.ledger.State()), root.address, f)
    {
      var list := registry.GetActiveTransactions();
      list := SortBySequence(list, registry.active);
      order := list;
      ok := true;
      if list == [] {
        return;
      }
      list := root.RemoveTransactionsIfSequence(list);
      if list == [] {
        return;
      }
      ghost var before := root.ledger.State();
      assert forall i | 0 <= i < |list| :: CommittedEntry(root.address, list[i]) by {
        QueueIsCommitted(root.address, registry.active, order, root.Current());
      }
      ok := root.BumpSequenceIfNeed(list[0], bumpAccepted);
      if !ok {
        return;
      }
      SubmitAll(list, fates, before);
    }

    /** The submission loop. */
    method SubmitAll(list: seq<Entry>, fates: seq<Fate>, ghost before: LedgerState)
      requires Valid()
      requires forall i | 0 <= i < |list| :: CommittedEntry(root.address, list[i])
      requires OnlyOwnNumber(before, root.address, root.Current(), root.ledger.sequence)
      modifies registry`active, registry`sessions, root.ledger
      ensures Valid()
      ensures
        var run := SubmitRun(old(root.Current()), list, fates);
        && State() == CompleteAll(old(State()), run.settled)
        && root.ledger.balance == TransferAll(old(root.ledger.balance), run.settled)
        && OnlyOwnNumber(before, root.address, run.cur, root.ledger.sequence)
    {
      var rest := fates;
      for i := 0 to |list|
        invariant Valid()
        invariant OnlyOwnNumber(before, root.address, root.Current(), root.ledger.sequence)
        invariant
          var all, left := SubmitRun(old(root.Current()), list, fates), SubmitRun(root.Current(), list[i..], rest);
          && all.cur == left.cur
          && CompleteAll(old(State()), all.settled) == CompleteAll(State(), left.settled)
          && TransferAll(old(root.ledger.balance), all.settled) == TransferAll(root.ledger.balance, left.settled)
      {
        SubmitRunStep(root.Current(), list[i..], rest);
        var applied := SubmitEntry(list[i], HeadFate(rest), before);
        if !applied {
          break;
        }
        rest := RestFates(rest);
        assert list[i..][1..] == list[i + 1..];
      }
    }

    method SubmitEntry(e: Entry, fate: Fate, ghost before: LedgerState) returns (applied: bool)
      requires Valid() && CommittedEntry(root.address, e)
      requires OnlyOwnNumber(before, root.address, root.Current(), root.ledger.sequence)
      modifies registry`active, registry`sessions, root.ledger
      ensures Valid()
      ensures applied <==> e.sequence == old(root.Current()) + 1 && fate == Applied
      ensures State() == if applied then Complete(old(State()), e) else old(State())
      ensures root.ledger.balance
           == if applied then Transfer(old(root.ledger.balance), e.tx.xdr.value) else old(root.ledger.balance)
      ensures root.Current()
           == if e.sequence == old(root.Current()) + 1 && fate != Rejected then e.sequence else old(root.Current())
      ensures OnlyOwnNumber(before, root.address, root.Current(), root.ledger.sequence)
    {
      applied := root.SubmitTransactionXDR(e.tx.xdr, fate);
      if applied {
        registry.CompletePayment(e.tx.payer, e.tx.session);
      }
    }
  }

  /** An entry whose transaction the node at `address` has verified. */
  predicate CommittedEntry(address: Address, e: Entry) {
    && e.tx.xdr.Some?
    && SignaturesAccepted(address, e.tx.xdr.value)
    && e.sequence == e.tx.xdr.value.sequence
  }

  predicate Committed(address: Address, p: Address, e: Entry) {
    e.tx.payer == p && CommittedEntry(address, e)
  }

  /** `sequence` differs from the one before at most in the account's own number, which
      has not fallen and is `cur` now. */
  predicate OnlyOwnNumber(before: LedgerState, address: Address, cur: int, sequence: map<Address, int>) {
    && SequenceOf(before, address) <= cur
    && sequence == if cur == SequenceOf(before, address) then before.sequence else before.sequence[address := cur]
  }

  lemma QueueIsCommitted(address: Address, active: map<Address, Entry>, order: seq<Entry>, cur: int)
    requires Lists(order, active) && SortedBySequence(order)
    requires forall p | p in active :: Committed(address, p, active[p])
    ensures forall i | 0 <= i < |DropStale(order, cur)| :: CommittedEntry(address, DropStale(order, cur)[i])
  {
    var k := QueueIsSuffix(order, cur);
    forall i | 0 <= i < |DropStale(order, cur)| ensures CommittedEntry(address, DropStale(order, cur)[i]) {
      assert Committed(address, order[k + i].tx.payer, active[order[k + i].tx.payer]);
    }
  }

  /** `sort.Slice` by sequence number. */
  method SortBySequence(list: seq<Entry>, ghost active: map<Address, Entry>) returns (sorted: seq<Entry>)
    requires Keyed(active) && Lists(list, active)
    ensures Lists(sorted, active) && SortedBySequence(sorted)
  {
    sorted := [];
    ghost var done: map<Address, Entry> := map[];
    for i := 0 to |list|
      invariant SortedBySequence(sorted) && Lists(sorted, done)
      invariant done.Keys <= active.Keys && forall p | p in done :: active[p] == done[p]
      invariant forall j | 0 <= j < |list| :: list[j].tx.payer in done <==> j < i
    {
      sorted := Insert(sorted, list[i], done);
      done := done[list[i].tx.payer := list[i]];
    }
    forall p | p in active ensures p in done {
      assert active[p] in list;
    }
    assert done == active;
  }

  method Insert(sorted: seq<Entry>, e: Entry, ghost done: map<Address, Entry>) returns (longer: seq<Entry>)
    requires SortedBySequence(sorted) && Lists(sorted, done) && e.tx.payer !in done
    ensures SortedBySequence(longer) && Lists(longer, done[e.tx.payer := e])
  {
    var k := |sorted|;
    while k > 0 && sorted[k - 1].sequence > e.sequence
      invariant 0 <= k <= |sorted|
      invariant forall j | k <= j < |sorted| :: sorted[j].sequence > e.sequence
    {
      k := k - 1;
    }
    ListsWith(sorted, done, e, k);
    InsertSorts(sorted, e, k);
    longer := sorted[..k] + [e] + sorted[k..];
  }
}
