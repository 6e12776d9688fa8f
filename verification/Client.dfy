/** The paying client: it drives a payment over a route, one command at a time. Every
    method does what the functions of `PaymentModel` say. */
module Client {
  import opened Types
  import opened PaymentModel
  import opened Root
  import opened Network
  import opened Route
  import Amounts

  class ServiceClient {
    const root: RootApi
    const network: Nodes

    constructor (root: RootApi, network: Nodes)
      ensures this.root == root && this.network == network
    {
      this.root, this.network := root, network;
    }

    // ----- Creating -----

    /** From the service backwards, each node is asked for a transaction on top of the fees
        of the nodes beyond it. */
    method CreateTransactions(pr: PaymentRequest, manager: NodeManager) returns (result: Result<Created>)
      requires network.Valid() && manager.Valid() && manager.nodesBySequence != []
      modifies set a | a in network.nodes :: network.nodes[a].root
      ensures network.Valid()
      ensures (network.World(), result) == CreatedAll(old(network.World()), pr, manager.nodesBySequence)
    {
      var nodes := manager.nodesBySequence;
      var totalFee: Amount := 0;
      var transactions: seq<Replacing> := [];
      var i := |nodes| - 1;
      ghost var outcome := CreatedAll(network.World(), pr, nodes);
      while i > 0
        invariant 0 <= i < |nodes| && network.Valid()
        invariant CreateLoop(network.World(), pr, nodes, i, totalFee, transactions) == outcome
      {
        var created := CreateNext(pr, nodes, i, totalFee, transactions, outcome);
        if created.Err? {
          return Err(created.error);
        }
        transactions := transactions + [created.value];
        totalFee := Add(totalFee, nodes[i].fee);
        i := i - 1;
      }
      return Ok(Created(transactions, totalFee));
    }

    /** One round of the loop, which is to end with `outcome`. */
    method CreateNext(pr: PaymentRequest, nodes: seq<Hop>, i: nat, totalFee: Amount, ghost transactions: seq<Replacing>,
        ghost outcome: (World, Result<Created>))
      returns (created: Result<Replacing>)
      requires network.Valid() && 0 < i < |nodes|
      requires CreateLoop(network.World(), pr, nodes, i, totalFee, transactions) == outcome
      modifies set a | a in network.nodes :: network.nodes[a].root
      ensures network.Valid()
      ensures created.Err? ==> outcome == (network.World(), Err(created.error))
      ensures created.Ok? ==>
        outcome == CreateLoop(network.World(), pr, nodes, i - 1, Add(totalFee, nodes[i].fee),
            transactions + [created.value])
    {
      var request := CreateRequest(
        Add(Add(pr.amount, totalFee), nodes[i].fee), Add(pr.amount, totalFee), nodes[i - 1].address, pr.session);
      ghost var before := network.World();
      created := network.CreateTransaction(nodes[i].address, request);
      CreateOne(before, network.World(), created, pr, nodes, i, totalFee, transactions);
      if created.Ok? && created.value.pending.payer == created.value.pending.payee {
        return Err(SelfPayment);
      }
    }

    // ----- Signing -----

    method SignInitialTransactions(r: Replacing, destination: Address, amount: Amount)
      returns (result: Result<Replacing>)
      ensures result == SignInitial(root.address, r, destination, amount)
    {
      if r.pending.xdr.None? {
        return Err(UnreadableEnvelope);
      }
      var e := r.pending.xdr.value;
      if e.payer != root.address {
        return Err(PayerMismatch);
      }
      if e.payee != destination {
        return Err(PayeeMismatch);
      }
      var expected := amount;
      if r.reference.Some? {
        expected := Add(expected, r.reference.value.amountIn);
      }
      if Amounts.ReadBack(e.stroops) != expected {
        return Err(WrongAmount);
      }
      var signed := root.SignPaymentTransaction(r.pending);
      return Ok(r.(pending := signed.value));
    }

    /** The service signs first; then each node signs what it is to receive and what it is to
        pay; the client signs last. */
    method SignTransactions(pr: PaymentRequest, manager: NodeManager, trs: Created)
      returns (result: Result<seq<Replacing>>)
      requires network.Valid() && manager.Valid() && |manager.nodesBySequence| >= 2 && trs.made != []
      ensures result == SignAll(network.nodes.Keys, root.address, pr, manager.nodesBySequence, trs)
    {
      var nodes := manager.nodesBySequence;
      var transactions := trs.made;
      var first := network.SignServiceTransaction(nodes[|nodes| - 1].address, transactions[0]);
      if first.Err? {
        return Err(first.error);
      }
      var debit := first.value;
      var signed: seq<Replacing> := [];
      ghost var known := Addresses(nodes) * network.nodes.Keys;
      for idx := 1 to |transactions|
        invariant SignLoop(known, transactions, idx, debit, signed) == SignLoop(known, transactions, 1, first.value, [])
      {
        var step := manager.GetNodeByAddress(transactions[idx].pending.payee);
        if step.None? {
          return Err(UnknownNode);
        }
        var pair := network.SignChainTransaction(step.value.address, transactions[idx], debit);
        if pair.Err? {
          return Err(pair.error);
        }
        signed := signed + [pair.value.1];
        debit := pair.value.0;
      }
      var own := SignInitialTransactions(debit, nodes[1].address, Add(pr.amount, trs.totalFee));
      if own.Err? {
        return Err(own.error);
      }
      return Ok(signed + [own.value]);
    }

    // ----- The three phases -----

    /** `balance` is what the ledger reports the client to have. */
    method InitiatePayment(pr: PaymentRequest, manager: NodeManager, balance: Amount)
      returns (result: Result<seq<Replacing>>)
      requires network.Valid() && manager.Valid() && |manager.nodesBySequence| >= 2
      modifies set a | a in network.nodes :: network.nodes[a].root
      ensures network.Valid()
      ensures (network.World(), result)
           == Initiate(old(network.World()), root.address, balance, pr, manager.nodesBySequence)
    {
      var checked := manager.Validate(root.address, pr.address);
      if checked.Err? {
        return Err(checked.error);
      }
      if pr.amount > balance {
        return Err(InsufficientBalance);
      }
      var created := CreateTransactions(pr, manager);
      if created.Err? {
        return Err(created.error);
      }
      ghost var after := network.World();
      result := SignAndCheck(pr, manager, created.value);
      assert network.World() == after && after.nodes.Keys == network.nodes.Keys;
    }

    method SignAndCheck(pr: PaymentRequest, manager: NodeManager, trs: Created) returns (result: Result<seq<Replacing>>)
      requires network.Valid() && manager.Valid() && |manager.nodesBySequence| >= 2 && trs.made != []
      ensures result == PaymentModel.SignAndCheck(network.nodes.Keys, root.address, pr, manager.nodesBySequence, trs)
    {
      result := SignTransactions(pr, manager, trs);
      if result.Ok? {
        var targetsItself := AnyPaysItself(result.value);
        if targetsItself {
          return Err(SelfPayment);
        }
      }
    }

    method AnyPaysItself(trs: seq<Replacing>) returns (found: bool)
      ensures found <==> exists r :: r in trs && PaysItself(r)
    {
      for j := 0 to |trs|
        invariant forall i | 0 <= i < j :: !PaysItself(trs[i])
      {
        if trs[j].pending.payer == trs[j].pending.payee {
          assert PaysItself(trs[j]);
          return true;
        }
      }
      return false;
    }

    method VerifyTransactions(trs: seq<Replacing>) returns (result: Result<()>)
      ensures result == VerifyLoop(trs, 0)
    {
      for j := 0 to |trs|
        invariant VerifyLoop(trs, j) == VerifyLoop(trs, 0)
      {
        result := Validate(trs[j]);
        if result.Err? {
          return;
        }
      }
      return Ok(());
    }

    method FinalizePayment(manager: NodeManager, pr: PaymentRequest, trs: seq<Replacing>) returns (result: Result<()>)
      requires network.Valid() && manager.Valid()
      modifies set a | a in network.nodes :: network.nodes[a].registry
      ensures network.Valid()
      ensures (network.World(), result)
           == FinalizeLoop(old(network.World()), pr, Addresses(manager.nodesBySequence), trs, 0)
    {
      ghost var known := Addresses(manager.nodesBySequence);
      ghost var outcome := FinalizeLoop(network.World(), pr, known, trs, 0);
      for j := 0 to |trs|
        invariant network.Valid()
        invariant FinalizeLoop(network.World(), pr, known, trs, j) == outcome
      {
        var node := manager.GetNodeByAddress(trs[j].pending.payee);
        if node.None? {
          return Err(UnknownNode);
        }
        ghost var before := network.World();
        result := network.CommitTransaction(node.value.address, pr, trs[j], known);
        FinalizeOne(before, network.World(), result, pr, known, trs, j);
        if result.Err? {
          return;
        }
      }
      return Ok(());
    }

    /** `paymentProcess`. */
    method ProcessPayment(manager: NodeManager, pr: PaymentRequest, balance: Amount) returns (result: Result<()>)
      requires network.Valid() && manager.Valid() && |manager.nodesBySequence| >= 2
      modifies set a | a in network.nodes :: network.nodes[a].root
      modifies set a | a in network.nodes :: network.nodes[a].registry
      ensures network.Valid()
      ensures (network.World(), result)
           == Pay(old(network.World()), root.address, balance, pr, manager.nodesBySequence)
    {
      ghost var before := network.World();
      var initiated := InitiatePayment(pr, manager, balance);
      ghost var after := network.World();
      assert (after, initiated) == Initiate(before, root.address, balance, pr, manager.nodesBySequence);
      if initiated.Err? {
        return Err(initiated.error);
      }
      var verified := VerifyTransactions(initiated.value);
      if verified.Err? {
        return verified;
      }
      result := FinalizePayment(manager, pr, initiated.value);
    }
  }

  /** One round of the creation loop. */
  lemma CreateOne(w: World, w': World, created: Result<Replacing>, pr: PaymentRequest, route: seq<Hop>, i: nat,
      fee: Amount, made: seq<Replacing>)
    requires 0 < i < |route| && CreateAt(w, route[i].address, HopRequest(pr, route, i, fee)) == (w', created)
    ensures CreateLoop(w, pr, route, i, fee, made)
         == if created.Err? then (w', Err(created.error))
            else if PaysItself(created.value) then (w', Err(SelfPayment))
            else CreateLoop(w', pr, route, i - 1, Add(fee, route[i].fee), made + [created.value])
  {
  }

  /** One round of the commit loop. */
  lemma FinalizeOne(w: World, w': World, result: Result<()>, pr: PaymentRequest, known: set<Address>,
      trs: seq<Replacing>, j: nat)
    requires j < |trs| && CommitAt(w, pr, known, trs[j]) == (w', result)
    ensures FinalizeLoop(w, pr, known, trs, j)
         == if result.Err? then (w', result) else FinalizeLoop(w', pr, known, trs, j + 1)
  {
  }
}
