/** What a payment leaves at every node: whose pending transaction is which, in both indices, and
    what the service's session still expects. */
module NodesAfter {
  import opened Types
  import opened LedgerModel
  import opened NodeModel
  import opened PaymentModel
  import opened Positions
  import opened Creation
  import opened Payments
  import Signing
  import Amounts

  // ----- One node -----

  /** From `n` to `n'` the node has taken a transaction of `payer` for the session, which adds
      the amounts to those of the one it replaces, under its number if there is one; for payer
      and session it is the one pending now, and no other payer's or session's has changed. */
  ghost predicate Taken(n: NodeState, n': NodeState, payer: Address, session: Session, totalIn: nat, totalOut: nat) {
    && n'.address == n.address
    && payer in n'.active
    && (var e := n'.active[payer];
        && n'.active == n.active[payer := e] && n'.sessions == n.sessions[session := e]
        && e.tx.payer == payer && e.tx.payee == e.tx.source == n.address && e.tx.session == session
        && e.tx.amountIn == ActiveAmount(n, payer) + totalIn
        && e.tx.amountOut == ActiveOut(n, payer) + totalOut
        && e.tx.xdr.Some? && e.tx.xdr.value.sequence == e.sequence
        && (payer in n.active ==> e.sequence == n.active[payer].sequence)
        && e.tx.xdr.value.signatures == [n.address, payer]
        && e.tx.xdr.value.stroops == 10_000 * e.tx.amountIn)
  }

  /** Nothing has changed but the last number handed out. */
  predicate Untouched(n: NodeState, n': NodeState) {
    Numbered(n, n')
  }

  /** What sessions expect when `out` has been taken off one of them, modulo 2^32. */
  function Less(expected: map<Session, Amount>, session: Session, out: nat): map<Session, Amount> {
    if session !in expected then expected
    else
      var left := (expected[session] - out) % U32;
      if left == 0 then expected - {session} else expected[session := left]
  }

  /** The session is gone exactly when it expected just that, and no other session has changed. */
  lemma LessExactly(expected: map<Session, Amount>, session: Session, out: nat)
    ensures
      var after := Less(expected, session, out);
      && (session in expected ==> (session !in after <==> expected[session] == out % U32))
      && (session in after ==> session in expected && after[session] == (expected[session] - out) % U32)
      && after - {session} == expected - {session}
  {
    if session in expected {
      var m := expected[session];
      assert out == U32 * (out / U32) + out % U32;
      assert (m - out) % U32 == Sub(m, out % U32) by {
        var left := Sub(m, out % U32);
        assert m - out == U32 * (if out % U32 <= m then -(out / U32) else -(out / U32) - 1) + left;
      }
    }
  }

  /** What the payment's commit at hop `i` does to its payee. */
  ghost predicate HopPaid(n: NodeState, n': NodeState, pr: PaymentRequest, route: seq<Hop>, i: nat)
    requires 0 < i < |route|
  {
    && Taken(n, n', route[i - 1].address, pr.session, HopIn(pr, route, i), HopIn(pr, route, i + 1))
    && n'.pending == (if i == |route| - 1
                      then Less(n.pending, pr.session, ActiveOut(n, route[i - 1].address) + pr.amount)
                      else n.pending)
  }

  lemma CommitTakes(n: NodeState, cur: int, p: Address, totalIn: nat, totalOut: nat, r: Replacing)
    requires Healthy(n, cur) && p != n.address && totalOut <= totalIn
    requires MadeBy(n, cur, p, totalIn, totalOut, r) && SlotFresh(n, cur, p)
    ensures
      var (n', result) := Commit(n, cur, Signing.ByBoth(r).pending);
      result == Ok(()) && Taken(n, n', p, r.pending.session, totalIn, totalOut) && n'.pending == n.pending
  {
    CommitDecides(n, cur, p, totalIn, totalOut, r);
    if p in n.active { assert HeldFor(n, p, n.active[p]); }
  }

  lemma ReducingReduces(n: NodeState, session: Session, amount: Amount, out: nat)
    requires session in n.pending && amount == out
    ensures
      var (n', result) := ReducePending(n, session, amount);
      result == Ok(()) && n' == n.(pending := Less(n.pending, session, out))
  {
    SubIsModulo(n.pending[session], amount);
  }

  lemma SubIsModulo(a: Amount, b: Amount)
    ensures Sub(a, b) == (a - b) % U32 && b % U32 == b
    ensures Sub(a, b) == 0 <==> a == b
  {
  }

  /** The service also reduces what the session expects, by what it is paid now and by what the
      transaction replaced. */
  lemma ServiceReduces(n: NodeState, cur: int, p: Address, totalIn: nat, totalOut: nat, session: Session, r: Replacing)
    requires Healthy(n, cur) && p != n.address && totalOut <= totalIn
    requires MadeBy(n, cur, p, totalIn, totalOut, r) && SlotFresh(n, cur, p) && r.pending.session == session
    ensures
      var n' := CommitService(n, cur, Signing.ByBoth(r).pending, session).0;
      && Taken(n, n', p, session, totalIn, totalOut)
      && n'.pending == Less(n.pending, session, ActiveOut(n, p) + totalOut)
  {
    var t := Signing.ByBoth(r).pending;
    CommitTakes(n, cur, p, totalIn, totalOut, r);
    if session in n.pending {
      ReducingReduces(Commit(n, cur, t).0, session, t.amountOut, ActiveOut(n, p) + totalOut);
    }
  }

  lemma SentToPayee(w: World, pr: PaymentRequest, route: seq<Hop>, i: nat, r: Replacing)
    requires 0 < i < |route| && DistinctNodes(route) && route[|route| - 1].address == pr.address
    requires route[i].address in w.nodes && Signing.ByBoth(r).pending.payee == route[i].address
    ensures
      var y, t := route[i].address, Signing.ByBoth(r).pending;
      var w' := CommitAt(w, pr, Addresses(route), Signing.ByBoth(r)).0;
      && y in w'.nodes
      && w'.nodes[y] == if i == |route| - 1 then CommitService(w.nodes[y], SequenceOf(w.ledger, y), t, pr.session).0
                        else Commit(w.nodes[y], SequenceOf(w.ledger, y), t).0
  {
    assert route[i] in route;
  }

  lemma PayeeIsPaid(n: NodeState, cur: int, pr: PaymentRequest, route: seq<Hop>, i: nat, r: Replacing)
    requires 0 < i < |route| && Healthy(n, cur) && route[i - 1].address != n.address
    requires MadeBy(n, cur, route[i - 1].address, HopIn(pr, route, i), HopIn(pr, route, i + 1), r)
    requires SlotFresh(n, cur, route[i - 1].address) && r.pending.session == pr.session
    ensures
      var t := Signing.ByBoth(r).pending;
      HopPaid(n, if i == |route| - 1 then CommitService(n, cur, t, pr.session).0 else Commit(n, cur, t).0, pr, route, i)
  {
    var p := route[i - 1].address;
    if i == |route| - 1 {
      assert HopIn(pr, route, i + 1) == pr.amount;
      ServiceReduces(n, cur, p, HopIn(pr, route, i), pr.amount, pr.session, r);
    } else {
      CommitTakes(n, cur, p, HopIn(pr, route, i), HopIn(pr, route, i + 1), r);
    }
  }

  /** The commit of hop `i` at its payee, when its slot there is fresh. */
  lemma HopIsPaid(w: World, all: seq<Address>, pr: PaymentRequest, route: seq<Hop>, i: nat, r: Replacing)
    requires Sound(w, all) && DistinctNodes(route) && Reachable(w, route) && route[|route| - 1].address == pr.address
    requires 0 < i < |route| && MadeFor(w, pr, route, i, r) && HopFresh(w, route, i)
    ensures
      var w', y := CommitAt(w, pr, Addresses(route), Signing.ByBoth(r)).0, route[i].address;
      y in w'.nodes && HopPaid(w.nodes[y], w'.nodes[y], pr, route, i)
  {
    var y := route[i].address;
    assert SoundAt(w, y);
    SentToPayee(w, pr, route, i, r);
    PayeeIsPaid(w.nodes[y], SequenceOf(w.ledger, y), pr, route, i, r);
  }

  // ----- The commit loop, node by node -----

  /** A commit depends on and changes its payee only. */
  lemma CommitIsLocal(w: World, pr: PaymentRequest, known: set<Address>, r: Replacing, a: Address)
    requires a in w.nodes && r.pending.payee != a
    ensures
      var w' := CommitAt(w, pr, known, r).0;
      w'.ledger == w.ledger && a in w'.nodes && w'.nodes[a] == w.nodes[a]
  {
  }

  lemma {:induction false} CommitsPassBy(w: World, pr: PaymentRequest, known: set<Address>, ts: seq<Replacing>, j: nat,
      a: Address)
    requires a in w.nodes && j <= |ts| && forall i | j <= i < |ts| :: ts[i].pending.payee != a
    ensures a in FinalizeLoop(w, pr, known, ts, j).0.nodes && FinalizeLoop(w, pr, known, ts, j).0.nodes[a] == w.nodes[a]
    decreases |ts| - j
  {
    if j < |ts| {
      CommitIsLocal(w, pr, known, ts[j], a);
      CommitsPassBy(CommitAt(w, pr, known, ts[j]).0, pr, known, ts, j + 1, a);
    }
  }

  /** The payee of the `j`-th transaction. */
  lemma PayeeOf(ledger: LedgerState, all: seq<Address>, pr: PaymentRequest, route: seq<Hop>, made: seq<Replacing>,
      w: World, j: nat, m: nat)
    requires Committing(ledger, all, pr, route, made)(w, j) && j <= m < |made| < |route|
    ensures Sound(w, all) && DistinctNodes(route) && Reachable(w, route) && w.ledger == ledger
    ensures route[|route| - 1].address == pr.address
    ensures MadeFor(w, pr, route, |route| - 1 - m, made[m])
    ensures Signing.ByBoth(made[m]).pending.payee == route[|route| - 1 - m].address
  {
    assert Standing(pr, route, made)(w, j);
    MadeAt(w, pr, route, made, j, m);
  }

  /** From the `j`-th transaction on, exactly the hops committed are paid at their payees. */
  ghost predicate LoopPays(pr: PaymentRequest, route: seq<Hop>, ts: seq<Replacing>, w: World, j: nat, i: nat)
    requires 0 < i < |route| && j <= |ts| && j < |route|
  {
    var w', y := FinalizeLoop(w, pr, Addresses(route), ts, j).0, route[i].address;
    && y in w.nodes && y in w'.nodes
    && (if CommitReach(w, pr, route, |route| - 1 - j, |ts| - j).0 <= i
        then HopPaid(w.nodes[y], w'.nodes[y], pr, route, i)
        else w'.nodes[y] == w.nodes[y])
  }

  /** The commit at hop `|route| - 1 - j` is the last to touch its payee. */
  lemma OwnCommitPays(ledger: LedgerState, all: seq<Address>, pr: PaymentRequest, route: seq<Hop>,
      made: seq<Replacing>, ts: seq<Replacing>, w: World, j: nat)
    requires Committing(ledger, all, pr, route, made)(w, j) && j < |ts| <= |made| < |route|
    requires ts <= Signing.ByBothAll(made) && HopFresh(w, route, |route| - 1 - j)
    ensures
      var w1, y := CommitAt(w, pr, Addresses(route), ts[j]).0, route[|route| - 1 - j].address;
      && y in w.nodes && y in w1.nodes && HopPaid(w.nodes[y], w1.nodes[y], pr, route, |route| - 1 - j)
      && (forall m | j < m < |ts| :: ts[m].pending.payee != y)
  {
    PayeeOf(ledger, all, pr, route, made, w, j, j);
    assert ts[j] == Signing.ByBoth(made[j]);
    HopIsPaid(w, all, pr, route, |route| - 1 - j, made[j]);
    forall m | j < m < |ts| ensures ts[m].pending.payee != route[|route| - 1 - j].address {
      assert ts[m] == Signing.ByBoth(made[m]);
      PayeeOf(ledger, all, pr, route, made, w, j, m);
    }
  }

  lemma OtherCommitPassesBy(ledger: LedgerState, all: seq<Address>, pr: PaymentRequest, route: seq<Hop>,
      made: seq<Replacing>, ts: seq<Replacing>, w: World, j: nat, i: nat)
    requires Committing(ledger, all, pr, route, made)(w, j) && j < |ts| <= |made| < |route|
    requires ts <= Signing.ByBothAll(made) && 0 < i < |route| - 1 - j
    ensures
      var w1, y := CommitAt(w, pr, Addresses(route), ts[j]).0, route[i].address;
      y in w.nodes && y in w1.nodes && w1.nodes[y] == w.nodes[y]
  {
    PayeeOf(ledger, all, pr, route, made, w, j, j);
    assert ts[j] == Signing.ByBoth(made[j]);
    CommitIsLocal(w, pr, Addresses(route), ts[j], route[i].address);
  }

  lemma PaysNow(ledger: LedgerState, all: seq<Address>, pr: PaymentRequest, route: seq<Hop>,
      made: seq<Replacing>, ts: seq<Replacing>, w: World, j: nat)
    requires Committing(ledger, all, pr, route, made)(w, j) && j < |ts| <= |made| == |route| - 1
    requires ts <= Signing.ByBothAll(made) && HopFresh(w, route, |route| - 1 - j)
    ensures LoopPays(pr, route, ts, w, j, |route| - 1 - j)
  {
    var w1 := OneCommitAt(ledger, all, pr, route, made, ts, w, j, pr.address);
    OwnCommitPays(ledger, all, pr, route, made, ts, w, j);
    CommitsPassBy(w1, pr, Addresses(route), ts, j + 1, route[|route| - 1 - j].address);
  }

  lemma PaysLater(ledger: LedgerState, all: seq<Address>, pr: PaymentRequest, route: seq<Hop>,
      made: seq<Replacing>, ts: seq<Replacing>, w: World, j: nat, i: nat)
    returns (w1: World)
    requires Committing(ledger, all, pr, route, made)(w, j) && j < |ts| <= |made| == |route| - 1
    requires ts <= Signing.ByBothAll(made) && HopFresh(w, route, |route| - 1 - j) && 0 < i < |route| - 1 - j
    ensures Committing(ledger, all, pr, route, made)(w1, j + 1)
    ensures (j == 0 && !SessionKnown(w, pr)) || LoopPays(pr, route, ts, w1, j + 1, i)
        ==> LoopPays(pr, route, ts, w, j, i)
  {
    w1 := OneCommitAt(ledger, all, pr, route, made, ts, w, j, pr.address);
    OtherCommitPassesBy(ledger, all, pr, route, made, ts, w, j, i);
  }

  lemma {:induction false} LoopPaysEach(ledger: LedgerState, all: seq<Address>, pr: PaymentRequest, route: seq<Hop>,
      made: seq<Replacing>, ts: seq<Replacing>, w: World, j: nat, i: nat)
    requires Committing(ledger, all, pr, route, made)(w, j) && j <= |ts| <= |made| == |route| - 1
    requires ts <= Signing.ByBothAll(made) && 0 < i <= |route| - 1 - j
    ensures LoopPays(pr, route, ts, w, j, i)
    decreases |ts| - j
  {
    if j == |ts| || !HopFresh(w, route, |route| - 1 - j) {
      PaysNoMore(ledger, all, pr, route, made, ts, w, j, i);
    } else if i == |route| - 1 - j {
      PaysNow(ledger, all, pr, route, made, ts, w, j);
    } else {
      var w1 := PaysLater(ledger, all, pr, route, made, ts, w, j, i);
      if j > 0 || SessionKnown(w, pr) { LoopPaysEach(ledger, all, pr, route, made, ts, w1, j + 1, i); }
    }
  }

  lemma PaysNoMore(ledger: LedgerState, all: seq<Address>, pr: PaymentRequest, route: seq<Hop>,
      made: seq<Replacing>, ts: seq<Replacing>, w: World, j: nat, i: nat)
    requires Committing(ledger, all, pr, route, made)(w, j) && j <= |ts| <= |made| == |route| - 1
    requires ts <= Signing.ByBothAll(made) && 0 < i <= |route| - 1 - j
    requires j == |ts| || !HopFresh(w, route, |route| - 1 - j)
    ensures LoopPays(pr, route, ts, w, j, i)
  {
    PayeeOf(ledger, all, pr, route, made, w, j, |route| - 1 - i);
    if j < |ts| { NoCommit(ledger, all, pr, route, made, ts, w, j); }
  }

  /** A node that is no payee on the route is passed by. */
  lemma LoopPassesBy(ledger: LedgerState, all: seq<Address>, pr: PaymentRequest, route: seq<Hop>,
      made: seq<Replacing>, ts: seq<Replacing>, w: World, a: Address)
    requires Committing(ledger, all, pr, route, made)(w, 0) && |ts| <= |made| == |route| - 1
    requires ts <= Signing.ByBothAll(made) && a in w.nodes && forall i | 0 < i < |route| :: route[i].address != a
    ensures
      var w' := FinalizeLoop(w, pr, Addresses(route), ts, 0).0;
      a in w'.nodes && w'.nodes[a] == w.nodes[a]
  {
    forall m | 0 <= m < |ts| ensures ts[m].pending.payee != a {
      assert ts[m] == Signing.ByBoth(made[m]);
      PayeeOf(ledger, all, pr, route, made, w, 0, m);
    }
    CommitsPassBy(w, pr, Addresses(route), ts, 0, a);
  }

  // ----- Whole payments, node by node -----

  lemma PaidSinceNumbered(n: NodeState, n1: NodeState, n': NodeState, pr: PaymentRequest, route: seq<Hop>, i: nat)
    requires 0 < i < |route| && Numbered(n, n1) && HopPaid(n1, n', pr, route, i)
    ensures HopPaid(n, n', pr, route, i)
  {
  }

  lemma CommitsAtPayee(w: World, w1: World, all: seq<Address>, pr: PaymentRequest, route: seq<Hop>,
      made: seq<Replacing>, breakOff: Option<nat>, i: nat)
    requires OnlyNumbered(w, w1) && Sound(w1, all) && DistinctNodes(route) && Reachable(w, route) && 0 < i < |route|
    requires route[|route| - 1].address == pr.address && MadeDownTo(w1, pr, route, 0, made)
    ensures
      var w' := FinalizeLoop(w1, pr, Addresses(route), First(Signing.ByBothAll(made), breakOff), 0).0;
      var y := route[i].address;
      && y in w.nodes && y in w'.nodes
      && (if FirstCommitted(w, pr, route, breakOff) <= i
          then HopPaid(w.nodes[y], w'.nodes[y], pr, route, i)
          else Untouched(w.nodes[y], w'.nodes[y]))
  {
    var ts := FirstSigned(route, made, breakOff);
    NumberedKeepsReach(w, w1, pr, route, |ts|);
    ReadyToCommit(w1, all, pr, route, made);
    LoopPaysEach(w1.ledger, all, pr, route, made, ts, w1, 0, i);
    var w', y := FinalizeLoop(w1, pr, Addresses(route), ts, 0).0, route[i].address;
    assert Numbered(w.nodes[y], w1.nodes[y]);
    if FirstCommitted(w, pr, route, breakOff) <= i {
      PaidSinceNumbered(w.nodes[y], w1.nodes[y], w'.nodes[y], pr, route, i);
    }
  }

  /** What any payment by a node, wherever it breaks off, does at the payee of hop `i`: if it
      gets the hop committed, the hop is paid there; otherwise nothing but numbers has been
      handed out. */
  lemma PaymentAtPayee(w: World, all: seq<Address>, client: Address, balance: Amount, pr: PaymentRequest,
      route: seq<Hop>, breakOff: Option<nat>, i: nat)
    requires Sound(w, all) && Fits(w, pr, route) && client in w.nodes
    requires 0 < i < |route| && route[i].address in w.nodes
    ensures
      var w', y := PayUntil(w, client, balance, pr, route, breakOff).0, route[i].address;
      && y in w'.nodes
      && (if Startable(w, client, balance, pr, route) && FirstCommitted(w, pr, route, breakOff) <= i
          then HopPaid(w.nodes[y], w'.nodes[y], pr, route, i)
          else Untouched(w.nodes[y], w'.nodes[y]))
  {
    var w1, made := InitiateOutcome(w, all, client, balance, pr, route);
    PayOnwards(w, w1, Initiate(w, client, balance, pr, route).1, client, balance, pr, route, breakOff);
    assert Numbered(w.nodes[route[i].address], w1.nodes[route[i].address]);
    if Startable(w, client, balance, pr, route) { CommitsAtPayee(w, w1, all, pr, route, made, breakOff, i); }
  }

  /** And at a node that is no payee on the route. */
  lemma PaymentElsewhere(w: World, all: seq<Address>, client: Address, balance: Amount, pr: PaymentRequest,
      route: seq<Hop>, breakOff: Option<nat>, a: Address)
    requires Sound(w, all) && Fits(w, pr, route) && client in w.nodes
    requires a in w.nodes && forall i | 0 < i < |route| :: route[i].address != a
    ensures
      var w' := PayUntil(w, client, balance, pr, route, breakOff).0;
      a in w'.nodes && Untouched(w.nodes[a], w'.nodes[a])
  {
    var w1, made := InitiateOutcome(w, all, client, balance, pr, route);
    PayOnwards(w, w1, Initiate(w, client, balance, pr, route).1, client, balance, pr, route, breakOff);
    assert Numbered(w.nodes[a], w1.nodes[a]);
    if Startable(w, client, balance, pr, route) {
      var ts := FirstSigned(route, made, breakOff);
      NumberedKeepsFit(w, w1, pr, route);
      ReadyToCommit(w1, all, pr, route, made);
      LoopPassesBy(w1.ledger, all, pr, route, made, ts, w1, a);
    }
  }

  lemma SessionAtPayee(w: World, all: seq<Address>, client: Address, balance: Amount, pr: PaymentRequest,
      route: seq<Hop>, breakOff: Option<nat>, i: nat)
    requires Sound(w, all) && Fits(w, pr, route) && client in w.nodes
    requires 0 < i < |route| && route[i].address in w.nodes
    ensures
      var w', y := PayUntil(w, client, balance, pr, route, breakOff).0, route[i].address;
      && y in w'.nodes
      && w'.nodes[y].pending
         == PendingAt(w.nodes[y], pr, route, i,
                      Startable(w, client, balance, pr, route) && FirstCommitted(w, pr, route, breakOff) <= i)
  {
    PaymentAtPayee(w, all, client, balance, pr, route, breakOff, i);
  }

  /** What the payee of hop `i` expects, once the hop is paid or if it is not. */
  function PendingAt(n: NodeState, pr: PaymentRequest, route: seq<Hop>, i: nat, paid: bool): map<Session, Amount>
    requires 0 < i < |route|
  {
    if paid && i == |route| - 1
    then Less(n.pending, pr.session, ActiveOut(n, route[i - 1].address) + pr.amount)
    else n.pending
  }

  /** Where on the route `a` is paid, 0 if nowhere. */
  lemma PlaceAmong(route: seq<Hop>, a: Address) returns (m: nat)
    requires |route| >= 2
    ensures m < |route|
    ensures if m > 0 then route[m].address == a else forall i | 0 < i < |route| :: route[i].address != a
  {
    m := 0;
    if i :| 0 < i < |route| && route[i].address == a { m := i; }
  }

  /** What sessions expect at node `a` after a payment: at the service, once its hop is committed,
      the amount and the `AmountOut` the hop replaced are taken off the session, if it is known;
      nothing has changed otherwise, and anywhere else. */
  function PendingAfter(w: World, client: Address, balance: Amount, pr: PaymentRequest, route: seq<Hop>,
      breakOff: Option<nat>, a: Address)
    : map<Session, Amount>
    requires Fits(w, pr, route) && a in w.nodes
  {
    if a == pr.address && Startable(w, client, balance, pr, route) && FirstCommitted(w, pr, route, breakOff) < |route|
    then Less(w.nodes[a].pending, pr.session, ActiveOut(w.nodes[a], route[|route| - 2].address) + pr.amount)
    else w.nodes[a].pending
  }

  lemma PendingMatches(w: World, client: Address, balance: Amount, pr: PaymentRequest, route: seq<Hop>,
      breakOff: Option<nat>, a: Address, m: nat)
    requires Fits(w, pr, route) && a in w.nodes && m < |route|
    requires if m > 0 then route[m].address == a else forall i | 0 < i < |route| :: route[i].address != a
    ensures PendingAfter(w, client, balance, pr, route, breakOff, a)
         == if m == 0 then w.nodes[a].pending
            else PendingAt(w.nodes[a], pr, route, m,
                           Startable(w, client, balance, pr, route) && FirstCommitted(w, pr, route, breakOff) <= m)
  {
  }

  /** The session that is paid, for any payment by a node, wherever it breaks off. */
  lemma PaymentReducesSession(w: World, all: seq<Address>, client: Address, balance: Amount, pr: PaymentRequest,
      route: seq<Hop>, breakOff: Option<nat>, a: Address)
    requires Sound(w, all) && Fits(w, pr, route) && client in w.nodes && a in w.nodes
    ensures
      var w' := PayUntil(w, client, balance, pr, route, breakOff).0;
      a in w'.nodes && w'.nodes[a].pending == PendingAfter(w, client, balance, pr, route, breakOff, a)
  {
    var m := PlaceAmong(route, a);
    PendingMatches(w, client, balance, pr, route, breakOff, a, m);
    if m > 0 {
      SessionAtPayee(w, all, client, balance, pr, route, breakOff, m);
    } else {
      PaymentElsewhere(w, all, client, balance, pr, route, breakOff, a);
    }
  }

  lemma ReachesAll(w: World, client: Address, balance: Amount, pr: PaymentRequest, route: seq<Hop>)
    requires Fits(w, pr, route) && Admissible(w, client, balance, pr, route)
    ensures FirstCommitted(w, pr, route, None) == 1
  {
    ReachExactly(w, pr, route, |route| - 1, |route| - 1);
  }

  /** After a payment that succeeds, the session's entry at every payee of the route is the
      one pending there for its payer, for that session. */
  lemma PaidUnderSession(w: World, all: seq<Address>, client: Address, balance: Amount, pr: PaymentRequest,
      route: seq<Hop>, i: nat)
    requires Sound(w, all) && Fits(w, pr, route) && client in w.nodes && 0 < i < |route|
    requires Admissible(w, client, balance, pr, route)
    ensures
      var w', y, p := Pay(w, client, balance, pr, route).0, route[i].address, route[i - 1].address;
      && y in w'.nodes && p in w'.nodes[y].active && pr.session in w'.nodes[y].sessions
      && w'.nodes[y].sessions[pr.session] == w'.nodes[y].active[p]
      && w'.nodes[y].active[p].tx.session == pr.session
  {
    ReachesAll(w, client, balance, pr, route);
    PaymentAtPayee(w, all, client, balance, pr, route, None, i);
  }

  /** A service asks for an amount under a new session; when a payer with nothing pending there
      pays it, the service's sessions expect what they expected before. */
  lemma RequestedThenPaid(w: World, all: seq<Address>, client: Address, balance: Amount, pr: PaymentRequest,
      route: seq<Hop>)
    requires Sound(w, all) && Fits(w, pr, route) && client in w.nodes && pr.address in w.nodes
    requires pr.session !in w.nodes[pr.address].pending
    requires route[|route| - 2].address !in w.nodes[pr.address].active
    requires
      var asked := RequestAt(w, pr.address, pr.session, pr.amount);
      Sound(asked, all) && Fits(asked, pr, route) && Admissible(asked, client, balance, pr, route)
    ensures
      var w' := Pay(RequestAt(w, pr.address, pr.session, pr.amount), client, balance, pr, route).0;
      pr.address in w'.nodes && w'.nodes[pr.address].pending == w.nodes[pr.address].pending
  {
    var asked := RequestAt(w, pr.address, pr.session, pr.amount);
    PaidOff(asked, all, client, balance, pr, route, w.nodes[pr.address].pending);
  }

  /** For a payment that succeeds, the session is known, and reduced. */
  lemma SuccessReducesSession(w: World, client: Address, balance: Amount, pr: PaymentRequest, route: seq<Hop>)
    requires Fits(w, pr, route) && Admissible(w, client, balance, pr, route)
    ensures pr.address in w.nodes && pr.session in w.nodes[pr.address].pending
    ensures PendingAfter(w, client, balance, pr, route, None, pr.address)
         == Less(w.nodes[pr.address].pending, pr.session,
                 ActiveOut(w.nodes[pr.address], route[|route| - 2].address) + pr.amount)
  {
    ReachesAll(w, client, balance, pr, route);
  }

  /** A payer with nothing pending at the service pays off a session that expects the amount. */
  lemma PaidOff(w: World, all: seq<Address>, client: Address, balance: Amount, pr: PaymentRequest, route: seq<Hop>,
      others: map<Session, Amount>)
    requires Sound(w, all) && Fits(w, pr, route) && client in w.nodes && Admissible(w, client, balance, pr, route)
    requires pr.address in w.nodes && route[|route| - 2].address !in w.nodes[pr.address].active
    requires pr.session !in others && w.nodes[pr.address].pending == others[pr.session := pr.amount]
    ensures
      var w' := Pay(w, client, balance, pr, route).0;
      pr.address in w'.nodes && w'.nodes[pr.address].pending == others
  {
    PaymentReducesSession(w, all, client, balance, pr, route, None, pr.address);
    SuccessReducesSession(w, client, balance, pr, route);
    RequestUndone(others, pr.session, pr.amount);
  }

  lemma RequestUndone(others: map<Session, Amount>, session: Session, amount: Amount)
    requires session !in others
    ensures Less(others[session := amount], session, amount) == others
  {
    assert others[session := amount] - {session} == others;
  }
}
