/** A node's payment registry: the transactions it has committed but not yet submitted,
    indexed by payer and by session, and the amounts its sessions still expect. */
module Registry {
  import opened Types
  import opened NodeModel

  class PaymentRegistry {
    var active: map<Address, Entry>
    var sessions: map<Session, Entry>
    var pending: map<Session, Amount>

    constructor ()
      ensures active == map[] && sessions == map[] && pending == map[]
    {
      active, sessions, pending := map[], map[], map[];
    }

    method AddServiceUsage(session: Session, amount: Amount)
      modifies this`pending
      ensures pending
          == old(pending)[session := if session in old(pending) then Add(old(pending[session]), amount) else amount]
    {
      if session in pending {
        pending := pending[session := Add(pending[session], amount)];
      } else {
        pending := pending[session := amount];
      }
    }

    /** An entry that reaches 0 is deleted. */
    method ReducePendingAmount(session: Session, amount: Amount) returns (result: Result<()>)
      modifies this`pending
      ensures result == if session in old(pending) then Ok(()) else Err(UnknownSession)
      ensures session !in old(pending) ==> pending == old(pending)
      ensures session in old(pending) && Sub(old(pending[session]), amount) == 0 ==> pending == old(pending) - {session}
      ensures session in old(pending) && Sub(old(pending[session]), amount) != 0
        ==> pending == old(pending)[session := Sub(old(pending[session]), amount)]
    {
      if session !in pending {
        return Err(UnknownSession);
      }
      pending := pending[session := Sub(pending[session], amount)];
      if pending[session] == 0 {
        pending := pending - {session};
      }
      return Ok(());
    }

    method SaveTransaction(sequence: int, t: Transaction)
      modifies this`active, this`sessions
      ensures active == old(active)[t.payer := Entry(t, sequence)]
      ensures sessions == old(sessions)[t.session := Entry(t, sequence)]
    {
      var entry := Entry(t, sequence);
      active := active[t.payer := entry];
      sessions := sessions[t.session := entry];
    }

    method CompletePayment(payer: Address, session: Session)
      modifies this`active, this`sessions
      ensures active == old(active) - {payer} && sessions == old(sessions) - {session}
    {
      active := active - {payer};
      sessions := sessions - {session};
    }

    method GetActiveTransaction(payer: Address) returns (t: Option<Transaction>)
      ensures t.Some? <==> payer in active
      ensures t.Some? ==> t.value == active[payer].tx
    {
      if payer in active {
        return Some(active[payer].tx);
      }
      return None;
    }

    /** Every active entry once, in no particular order. */
    method GetActiveTransactions() returns (list: seq<Entry>)
      requires Keyed(active)
      ensures Lists(list, active)
    {
      list := [];
      var rest := active.Keys;
      while rest != {}
        invariant rest <= active.Keys
        invariant Lists(list, active - rest)
        decreases rest
      {
        var p :| p in rest;
        ListsWith(list, active - rest, active[p], |list|);
        assert active - (rest - {p}) == (active - rest)[p := active[p]];
        assert list[..|list|] + [active[p]] + list[|list|..] == list + [active[p]];
        rest := rest - {p};
        list := list + [active[p]];
      }
      assert active - rest == active;
    }
  }

  // ----- The indices over any run of saves and completions -----

  datatype Call = Saving(entry: Entry) | Completing(payer: Address, session: Session)

  datatype Indices = Indices(active: map<Address, Entry>, sessions: map<Session, Entry>)

  /** The indices after a run that starts with both empty. */
  function IndicesAfter(calls: seq<Call>): Indices {
    if calls == [] then Indices(map[], map[])
    else
      var before := IndicesAfter(calls[..|calls| - 1]);
      match calls[|calls| - 1]
      case Saving(e) => Indices(before.active[e.tx.payer := e], before.sessions[e.tx.session := e])
      case Completing(p, s) => Indices(before.active - {p}, before.sessions - {s})
  }

  function PayerOf(call: Call): Address {
    match call
    case Saving(e) => e.tx.payer
    case Completing(p, _) => p
  }

  function SessionOf(call: Call): Session {
    match call
    case Saving(e) => e.tx.session
    case Completing(_, s) => s
  }

  /** The `i`-th call is the last one about payer `p`; -1 if there is none. */
  predicate LastAbout(calls: seq<Call>, p: Address, i: int) {
    && -1 <= i < |calls|
    && (i >= 0 ==> PayerOf(calls[i]) == p)
    && (forall j | i < j < |calls| :: PayerOf(calls[j]) != p)
  }

  /** The `i`-th call is the last one about session `x`; -1 if there is none. */
  predicate LastOfSession(calls: seq<Call>, x: Session, i: int) {
    && -1 <= i < |calls|
    && (i >= 0 ==> SessionOf(calls[i]) == x)
    && (forall j | i < j < |calls| :: SessionOf(calls[j]) != x)
  }

  /** `p`'s active transaction is the last one saved for `p` since `p` was last completed:
      none if the last call about `p` completed it, or if there was no such call. */
  lemma {:induction false} ActiveIsLastSaved(calls: seq<Call>, p: Address, i: int)
    requires LastAbout(calls, p, i)
    ensures p in IndicesAfter(calls).active <==> i >= 0 && calls[i].Saving?
    ensures p in IndicesAfter(calls).active
        ==> IndicesAfter(calls).active[p] == calls[i].entry && calls[i].entry.tx.payer == p
  {
    if calls != [] {
      var front := calls[..|calls| - 1];
      if i < |front| { ActiveIsLastSaved(front, p, i); }
    }
  }

  /** Likewise for the session index. */
  lemma {:induction false} SessionIsLastSaved(calls: seq<Call>, x: Session, i: int)
    requires LastOfSession(calls, x, i)
    ensures x in IndicesAfter(calls).sessions <==> i >= 0 && calls[i].Saving?
    ensures x in IndicesAfter(calls).sessions
      ==> IndicesAfter(calls).sessions[x] == calls[i].entry && calls[i].entry.tx.session == x
  {
    if calls != [] {
      var front := calls[..|calls| - 1];
      if i < |front| { SessionIsLastSaved(front, x, i); }
    }
  }

  lemma {:induction false} LastOfSessionExists(calls: seq<Call>, x: Session) returns (i: int)
    ensures LastOfSession(calls, x, i)
  {
    if calls == [] {
      i := -1;
    } else if SessionOf(calls[|calls| - 1]) == x {
      i := |calls| - 1;
    } else {
      i := LastOfSessionExists(calls[..|calls| - 1], x);
    }
  }

  lemma {:induction false} LastAboutExists(calls: seq<Call>, p: Address) returns (i: int)
    ensures LastAbout(calls, p, i)
  {
    if calls == [] {
      i := -1;
    } else if PayerOf(calls[|calls| - 1]) == p {
      i := |calls| - 1;
    } else {
      i := LastAboutExists(calls[..|calls| - 1], p);
    }
  }

  /** The session index holds `e` for its session. */
  predicate HeldForSession(x: Indices, e: Entry) {
    e.tx.session in x.sessions && x.sessions[e.tx.session] == e
  }

  /** `e` is active. */
  predicate HeldForPayer(x: Indices, e: Entry) {
    e.tx.payer in x.active && x.active[e.tx.payer] == e
  }

  /** What is active for a payer, saved by the `i`-th call, is what the session index holds
      for its session exactly when no later call is about that session. */
  lemma ActiveIsHeldExactly(calls: seq<Call>, p: Address, i: nat)
    requires LastAbout(calls, p, i) && calls[i].Saving?
    ensures HeldForSession(IndicesAfter(calls), calls[i].entry)
       <==> forall j | i < j < |calls| :: SessionOf(calls[j]) != SessionOf(calls[i])
  {
    var k := LastOfSessionExists(calls, SessionOf(calls[i]));
    SessionIsLastSaved(calls, SessionOf(calls[i]), k);
    if k > i { assert PayerOf(calls[k]) != p; }
  }

  /** Conversely, what the session index holds for a session, saved by the `i`-th call, is
      still active exactly when no later call is about its payer. */
  lemma HeldIsActiveExactly(calls: seq<Call>, x: Session, i: nat)
    requires LastOfSession(calls, x, i) && calls[i].Saving?
    ensures HeldForPayer(IndicesAfter(calls), calls[i].entry)
       <==> forall j | i < j < |calls| :: PayerOf(calls[j]) != PayerOf(calls[i])
  {
    var k := LastAboutExists(calls, PayerOf(calls[i]));
    ActiveIsLastSaved(calls, PayerOf(calls[i]), k);
    if k > i { assert SessionOf(calls[k]) != x; }
  }

  /** Each session is used with one payer. */
  predicate OneOwner(calls: seq<Call>) {
    forall i, j | 0 <= i < j < |calls| && SessionOf(calls[i]) == SessionOf(calls[j]) ::
        PayerOf(calls[i]) == PayerOf(calls[j])
  }

  /** So when each session is used with one payer, everything active is held by the session
      index, keyed by its own payer and its own session. */
  lemma IndicesAgree(calls: seq<Call>, p: Address)
    requires OneOwner(calls) && p in IndicesAfter(calls).active
    ensures
      var x := IndicesAfter(calls);
      x.active[p].tx.payer == p && HeldForSession(x, x.active[p])
  {
    var i := LastAboutExists(calls, p);
    ActiveIsLastSaved(calls, p, i);
    ActiveIsHeldExactly(calls, p, i);
  }

  /** When two payers share a session, it need not be. */
  lemma SharedSessionSplitsIndices(a: Entry, b: Entry)
    requires a.tx.payer != b.tx.payer && a.tx.session == b.tx.session
    ensures
      var x := IndicesAfter([Saving(a), Saving(b)]);
      && x.active == map[a.tx.payer := a, b.tx.payer := b]
      && x.sessions == map[a.tx.session := b]
  {
    assert [Saving(a), Saving(b)][..1] == [Saving(a)];
    assert [Saving(a)][..0] == [];
    assert IndicesAfter([Saving(a)]) == Indices(map[a.tx.payer := a], map[a.tx.session := a]);
  }

  /** And the session index keeps what is no longer active, even for a single payer: the
      entry of a session that was paid before the one that got completed. */
  lemma ReplacedSessionRemains(a: Entry, b: Entry)
    requires a.tx.payer == b.tx.payer && a.tx.session != b.tx.session
    ensures
      var calls := [Saving(a), Saving(b), Completing(b.tx.payer, b.tx.session)];
      OneOwner(calls) && IndicesAfter(calls) == Indices(map[], map[a.tx.session := a])
  {
    var calls := [Saving(a), Saving(b), Completing(b.tx.payer, b.tx.session)];
    assert calls[..2] == [Saving(a), Saving(b)] && calls[..2][..1] == [Saving(a)] && [Saving(a)][..0] == [];
    assert IndicesAfter([Saving(a)]) == Indices(map[a.tx.payer := a], map[a.tx.session := a]);
  }

  // ----- What a service payment leaves of its session -----

  /** A session that expects `amount` is cleared and deleted by the payment of that amount
      exactly when the payment replaces nothing (or a transaction that passed on nothing);
      otherwise the session is left expecting minus the replaced `AmountOut`, modulo 2^32. */
  lemma ServicePaymentClearsSession(n: NodeState, cur: int, request: CreateRequest, signatures: seq<Address>,
      later: int)
    requires request.session in n.pending && n.pending[request.session] == request.totalOut
    requires NodeModel.Create(n, cur, true, request).1.Ok?
    requires
      var (n1, made) := NodeModel.Create(n, cur, true, request);
      Commit(n1, later, WithSignatures(made.value.pending, signatures)).1.Ok?
    ensures
      var (n1, made) := NodeModel.Create(n, cur, true, request);
      var (n2, result) := CommitService(n1, later, WithSignatures(made.value.pending, signatures), request.session);
      var out := ActiveOut(n, request.payer);
      && result == Ok(())
      && (request.session !in n2.pending <==> out == 0)
      && (out != 0 ==> n2.pending[request.session] == U32 - out)
  {
  }

  /** So of two sessions paid one after the other, with nothing flushed in between, only
      the first is cleared. */
  lemma SecondSessionStaysPending(n: NodeState, cur: int, payer: Address, first: Session, second: Session, a: Amount,
      b: Amount)
    requires payer !in n.active && payer != n.address && first != second && 0 < a && a + b < U32
    requires first in n.pending && n.pending[first] == a && second in n.pending && n.pending[second] == b
    requires n.last > 0 && cur <= n.last
    ensures
      var n1 := ServicePayment(n, cur, CreateRequest(a, a, payer, first));
      var n2 := ServicePayment(n1, cur, CreateRequest(b, b, payer, second));
      first !in n2.pending && second in n2.pending && n2.pending[second] == U32 - a
  {
  }

  /** One service payment, created, signed by both and committed. */
  function ServicePayment(n: NodeState, cur: int, request: CreateRequest): NodeState {
    var (n1, made) := NodeModel.Create(n, cur, true, request);
    if made.Err? then n1
    else CommitService(n1, cur, WithSignatures(made.value.pending, [n.address, request.payer]), request.session).0
  }
}
