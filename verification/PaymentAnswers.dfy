/** What each phase of a payment accepts and refuses, said of the transactions themselves, for
    any world: nothing is committed that does not validate, and nobody signs or commits for a
    node that does not answer. */
module PaymentAnswers {
  import opened Types
  import opened LedgerModel
  import opened NodeModel
  import opened PaymentModel
  import opened NodeAnswers
  import Amounts

  // ----- Asking -----

  /** A payment request at a node adds to what its session expects there, modulo 2^32, and
      changes nothing else anywhere. */
  lemma RequestAtExactly(w: World, a: Address, session: Session, amount: Amount)
    requires a in w.nodes
    ensures
      var n := w.nodes[a];
      var expected := if session in n.pending then n.pending[session] else 0;
      RequestAt(w, a, session, amount)
      == w.(nodes := w.nodes[a := n.(pending := n.pending[session := (expected + amount) % U32])])
  {
    RequestAdds(w.nodes[a], session, amount);
  }

  // ----- Creating -----

  /** Only the node asked can change; if it does not answer, nothing does. A payer without an
      account is refused. */
  lemma CreateAtExactly(w: World, a: Address, request: CreateRequest)
    ensures
      var (w', made) := CreateAt(w, a, request);
      && (a !in w.nodes ==> made == Err(UnknownNode) && w' == w)
      && (a in w.nodes ==>
            && a in w'.nodes && w' == w.(nodes := w.nodes[a := w'.nodes[a]])
            && (request.payer !in w.ledger.sequence ==> made.Err? && w'.nodes[a] == w.nodes[a])
            && (made.Ok? <==>
                  && request.payer in w.ledger.sequence && request.payer != w.nodes[a].address
                  && Mergeable(w.nodes[a], request.payer)))
  {
    if a in w.nodes {
      CreatesExactly(w.nodes[a], SequenceOf(w.ledger, a), request.payer in w.ledger.sequence, request);
    }
  }

  // ----- Signing -----

  /** The client signs exactly what it is to pay itself, to the next node on the route, over the
      amount and the fees on top of what is replaced, as far as it can read that. */
  lemma ClientSignsExactly(client: Address, r: Replacing, destination: Address, amount: Amount)
    ensures
      var signed := SignInitial(client, r, destination, amount);
      var expected := (amount + if r.reference.Some? then r.reference.value.amountIn else 0) % U32;
      && (signed.Ok? <==>
            && r.pending.xdr.Some?
            && r.pending.xdr.value.payer == client && r.pending.xdr.value.payee == destination
            && Amounts.ReadBack(r.pending.xdr.value.stroops) == expected)
      && (signed.Ok? ==> Countersigned(r, signed.value, client))
      && (r.pending.xdr.None? ==> signed == Err(UnreadableEnvelope))
      && (r.pending.xdr.Some? ==>
            var e := r.pending.xdr.value;
            && (e.payer != client ==> signed == Err(PayerMismatch))
            && (e.payer == client && e.payee != destination ==> signed == Err(PayeeMismatch))
            && (e.payer == client && e.payee == destination && Amounts.ReadBack(e.stroops) != expected
                ==> signed == Err(WrongAmount)))
  {
    AddIsModulo(amount, if r.reference.Some? then r.reference.value.amountIn else 0);
  }

  /** The loop signs for nodes on the list of those that answer only. */
  lemma {:induction false} SigningNeedsAnswers(known: set<Address>, ts: seq<Replacing>, idx: nat, debit: Replacing,
      signed: seq<Replacing>, m: nat)
    requires SignLoop(known, ts, idx, debit, signed).Ok? && idx <= m < |ts|
    ensures ts[m].pending.payee in known
    decreases |ts| - idx
  {
    if idx < m {
      var pair := SignPair(ts[idx].pending.payee, ts[idx], debit).value;
      SigningNeedsAnswers(known, ts, idx + 1, pair.0, signed + [pair.1], m);
    }
  }

  /** So does the whole of it; the service must answer as well. */
  lemma SignsAnswered(reachable: set<Address>, client: Address, pr: PaymentRequest, route: seq<Hop>, created: Created,
      m: nat)
    requires |route| >= 2 && created.made != [] && SignAll(reachable, client, pr, route, created).Ok?
    requires m < |created.made|
    ensures route[|route| - 1].address in reachable
    ensures if m == 0 then created.made[0].pending.payee == route[|route| - 1].address
            else created.made[m].pending.payee in Addresses(route) && created.made[m].pending.payee in reachable
  {
    var first := SignService(route[|route| - 1].address, created.made[0]).value;
    if m > 0 { SigningNeedsAnswers(Addresses(route) * reachable, created.made, 1, first, [], m); }
  }

  /** An initiation fails at once, and changes nothing, over a route that does not lead from the
      client to the service, or an amount above the reported balance. When it succeeds, no
      transaction on the list pays its own payee. */
  lemma InitiatesAtMost(w: World, client: Address, balance: Amount, pr: PaymentRequest, route: seq<Hop>)
    requires |route| >= 2
    ensures
      var (w', initiated) := Initiate(w, client, balance, pr, route);
      var leads := route[0].address == client && route[|route| - 1].address == pr.address;
      && (!leads ==> initiated == Err(BadRoute) && w' == w)
      && (leads && pr.amount > balance ==> initiated == Err(InsufficientBalance) && w' == w)
      && (initiated.Ok? ==> leads && pr.amount <= balance)
      && (initiated.Ok? ==> forall r | r in initiated.value :: r.pending.payer != r.pending.payee)
  {
    var initiated := Initiate(w, client, balance, pr, route).1;
    if initiated.Ok? {
      forall r | r in initiated.value ensures r.pending.payer != r.pending.payee {
        assert !PaysItself(r);
      }
    }
  }

  // ----- Validating -----

  /** What a transaction must be like to be committed: readable, passing on no more than it
      brings, sourced by its payee, paid by someone else, and under the number of the one it
      replaces. */
  predicate Acceptable(r: Replacing) {
    && r.pending.xdr.Some?
    && r.pending.amountOut <= r.pending.amountIn
    && r.pending.source == r.pending.payee
    && r.pending.payer != r.pending.payee
    && (r.reference.Some? ==>
          && r.reference.value.xdr.Some?
          && r.reference.value.xdr.value.sequence == r.pending.xdr.value.sequence)
  }

  /** A list is accepted exactly when each of its transactions is acceptable. */
  lemma {:induction false} VerifiesExactly(ts: seq<Replacing>, j: nat)
    ensures VerifyLoop(ts, j) == Ok(()) <==> forall i | j <= i < |ts| :: Acceptable(ts[i])
    decreases |ts| - j
  {
    if j < |ts| {
      VerifiesExactly(ts, j + 1);
      assert Validate(ts[j]) == Ok(()) <==> Acceptable(ts[j]);
    }
  }

  /** The error is that of the first transaction that is not, which is found out in this order. */
  lemma {:induction false} FirstFailureDecides(ts: seq<Replacing>, j: nat, k: nat)
    requires j <= k < |ts| && !Acceptable(ts[k]) && forall i | j <= i < k :: Acceptable(ts[i])
    ensures
      var r, result := ts[k], VerifyLoop(ts, j);
      var t := r.pending;
      && (t.xdr.None? ==> result == Err(UnreadableEnvelope))
      && (t.xdr.Some? ==>
            && (t.amountOut > t.amountIn ==> result == Err(AmountOutTooLarge))
            && (t.amountOut <= t.amountIn ==>
                  && (t.source != t.payee ==> result == Err(WrongSource))
                  && (t.source == t.payee && t.payer == t.payee ==> result == Err(SelfPayment))
                  && (t.source == t.payee && t.payer != t.payee ==>
                        result == Err(if r.reference.value.xdr.None? then UnreadableEnvelope else SequenceMismatch))))
    decreases |ts| - j
  {
    if j < k {
      assert Acceptable(ts[j]);
      FirstFailureDecides(ts, j + 1, k);
    }
  }

  lemma OkIsUnit(result: Result<()>)
    ensures result.Ok? ==> result == Ok(())
  {
    if result.Ok? { assert result.value == (); }
  }

  /** Whatever the nodes answer, nothing is committed, and the payment fails, unless each signed
      transaction is acceptable. */
  lemma CommitsOnlyAcceptable(w: World, client: Address, balance: Amount, pr: PaymentRequest, route: seq<Hop>,
      breakOff: Option<nat>)
    requires |route| >= 2
    ensures
      var (w1, initiated) := Initiate(w, client, balance, pr, route);
      var (w', result) := PayUntil(w, client, balance, pr, route, breakOff);
      || (initiated.Ok? && forall i | 0 <= i < |initiated.value| :: Acceptable(initiated.value[i]))
      || (w' == w1 && result.Err?)
  {
    var (w1, initiated) := Initiate(w, client, balance, pr, route);
    PayOnwards(w, w1, initiated, client, balance, pr, route, breakOff);
    if initiated.Ok? {
      VerifiesExactly(initiated.value, 0);
      OkIsUnit(VerifyLoop(initiated.value, 0));
    }
  }

  // ----- Committing -----

  /** A commit is sent to the payee, and only it can change; if it is not on the route or does not
      answer, nothing does. Only at the service does it concern a session's expected amount. */
  lemma CommitAtExactly(w: World, pr: PaymentRequest, known: set<Address>, r: Replacing)
    ensures
      var (w', result) := CommitAt(w, pr, known, r);
      var a := r.pending.payee;
      && (a !in known || a !in w.nodes ==> result == Err(UnknownNode) && w' == w)
      && (a in known && a in w.nodes ==>
            var (saved, accepted) := Commit(w.nodes[a], SequenceOf(w.ledger, a), r.pending);
            && a in w'.nodes && w' == w.(nodes := w.nodes[a := w'.nodes[a]])
            && (accepted.Err? ==> result == accepted && w'.nodes[a] == w.nodes[a])
            && (accepted.Ok? && a != pr.address ==> result == Ok(()) && w'.nodes[a] == saved)
            && (accepted.Ok? && a == pr.address ==>
                  && result == (if pr.session in w.nodes[a].pending then Ok(()) else Err(UnknownSession))
                  && w'.nodes[a].active == saved.active && w'.nodes[a].sessions == saved.sessions
                  && (result.Err? ==> w'.nodes[a].pending == w.nodes[a].pending)
                  && (result.Ok? ==>
                        var left := (w.nodes[a].pending[pr.session] - r.pending.amountOut) % U32;
                        w'.nodes[a].pending
                        == if left == 0 then w.nodes[a].pending - {pr.session}
                           else w.nodes[a].pending[pr.session := left])))
  {
    var a := r.pending.payee;
    if a in known && a in w.nodes {
      var n, cur := w.nodes[a], SequenceOf(w.ledger, a);
      CommitsExactly(n, cur, r.pending);
      ServiceCommitsExactly(n, cur, r.pending, pr.session);
    }
  }

  // ----- Flushing -----

  /** A flush at a node changes that node, its account's number, and what the settled entries
      transfer; and nothing at all when it fails, which is exactly when all that the node could
      submit lies beyond a gap and the bump is refused. */
  lemma FlushAtExactly(w: World, a: Address, order: seq<Entry>, bump: bool, fates: seq<Fate>)
    requires a in w.nodes && SortedBySequence(order)
    ensures
      var (w', ok) := FlushAt(w, a, order, bump, fates);
      var n, cur := w.nodes[a], SequenceOf(w.ledger, a);
      var f := Flush(n, cur, order, bump, fates);
      && w'.nodes == w.nodes[a := f.node] && SequenceOf(w'.ledger, a) == f.cur
      && (forall b | b != a :: SequenceOf(w'.ledger, b) == SequenceOf(w.ledger, b))
      && w'.ledger.balance == TransferAll(w.ledger.balance, f.settled)
      && (!ok <==> !bump && AnyLeft(order, cur) && forall e | e in order && e.sequence > cur :: e.sequence > cur + 1)
      && (!ok ==> w' == w)
  {
    FlushFailsExactly(w.nodes[a], SequenceOf(w.ledger, a), order, bump, fates);
    assert w.nodes[a := w.nodes[a]] == w.nodes;
  }
}
