/** One node over whole runs: Create, Commit and Flush steps in any interleaving, against
    a ledger that applies, refuses or burns what is submitted. */
module NodeRuns {
  import opened Types
  import opened NodeModel
  import Amounts

  /** A transaction the node created, with the request it answered. */
  datatype Issued = Issued(request: CreateRequest, made: Replacing)

  /** The node, its account's sequence number, and the history: every transaction created,
      every one committed, and every entry that settled on the ledger. */
  datatype Run = Run(
    node: NodeState,
    cur: int,
    issued: seq<Issued>,
    accepted: seq<Issued>,
    settled: seq<Entry>)

  /** A commit presents the `k`-th created transaction under arbitrary signatures. */
  datatype Step =
    | Create(payerKnown: bool, request: CreateRequest)
    | Commit(k: nat, signatures: seq<Address>)
    | Flush(order: seq<Entry>, bumpAccepted: bool, fates: seq<Fate>)

  ghost predicate Enabled(s: Run, step: Step) {
    match step
    case Create(_, _) => true
    case Commit(k, _) => k < |s.issued|
    case Flush(order, _, _) => Lists(order, s.node.active) && SortedBySequence(order)
  }

  function Presented(s: Run, k: nat, signatures: seq<Address>): Transaction
    requires k < |s.issued|
  {
    WithSignatures(s.issued[k].made.pending, signatures)
  }

  ghost function Next(s: Run, step: Step): Run
    requires Enabled(s, step)
  {
    match step
    case Create(known, request) =>
      var (node, made) := NodeModel.Create(s.node, s.cur, known, request);
      s.(node := node, issued := if made.Ok? then s.issued + [Issued(request, made.value)] else s.issued)
    case Commit(k, signatures) =>
      var (node, result) := NodeModel.Commit(s.node, s.cur, Presented(s, k, signatures));
      s.(node := node, accepted := if result.Ok? then s.accepted + [s.issued[k]] else s.accepted)
    case Flush(order, bump, fates) =>
      var f := NodeModel.Flush(s.node, s.cur, order, bump, fates);
      s.(node := f.node, cur := f.cur, settled := s.settled + f.settled)
  }

  ghost predicate Allowed(s: Run, steps: seq<Step>)
    decreases |steps|
  {
    steps == [] || (Enabled(s, steps[0]) && Allowed(Next(s, steps[0]), steps[1..]))
  }

  ghost function After(s: Run, steps: seq<Step>): Run
    requires Allowed(s, steps)
    decreases |steps|
  {
    if steps == [] then s else After(Next(s, steps[0]), steps[1..])
  }

  function Initial(address: Address, cur: nat): Run {
    Run(NodeState(address, 0, map[], map[], map[]), cur, [], [], [])
  }

  // ----- The invariant -----

  function NumberOf(t: Transaction): int {
    if t.xdr.Some? then t.xdr.value.sequence else 0
  }

  /** A created transaction: sourced and received by the node, for the session that was asked
      for; its envelope pays the accumulated amount, and it replaces its reference under the
      reference's number. */
  predicate WellMade(n: NodeState, i: Issued) {
    var t, r := i.made.pending, i.made.reference;
    && t.xdr.Some?
    && t.payer == t.xdr.value.payer == i.request.payer
    && t.payer != n.address
    && t.payee == t.source == t.xdr.value.source == t.xdr.value.payee == n.address
    && t.xdr.value.stroops == Amounts.Stroops(t.amountIn)
    && t.session == i.request.session
    && 0 < NumberOf(t) <= n.last
    && (r.None? ==> t.amountIn == i.request.totalIn && t.amountOut == i.request.totalOut)
    && (r.Some? ==>
          && r.value.xdr.Some?
          && NumberOf(r.value) == NumberOf(t)
          && r.value.payer == t.payer
          && t.amountIn == Add(r.value.amountIn, i.request.totalIn)
          && t.amountOut == Add(r.value.amountOut, i.request.totalOut))
  }

  ghost predicate FromIssued(issued: seq<Issued>, t: Transaction) {
    exists k :: 0 <= k < |issued| && SameBody(t, issued[k].made.pending)
  }

  /** Sequence lineage: one payer per number, and a number handed out without a reference
      is above every number handed out before. */
  predicate Lineage(issued: seq<Issued>) {
    && (forall i, j | 0 <= i < j < |issued| ::
          NumberOf(issued[i].made.pending) == NumberOf(issued[j].made.pending)
          ==> issued[i].request.payer == issued[j].request.payer)
    && (forall i, j | 0 <= i < j < |issued| && issued[j].made.reference.None? ::
          NumberOf(issued[i].made.pending) < NumberOf(issued[j].made.pending))
  }

  ghost predicate ActiveKept(s: Run) {
    forall p | p in s.node.active ::
      var e := s.node.active[p];
      && e.tx.payer == p
      && FromIssued(s.issued, e.tx)
      && e.sequence == NumberOf(e.tx)
  }

  /** Settled numbers only grow and stay at or below the account's own. */
  ghost predicate SettledInOrder(s: Run) {
    && (forall i | 0 <= i < |s.settled| :: s.settled[i].sequence <= s.cur)
    && (forall i, j | 0 <= i < j < |s.settled| :: s.settled[i].sequence < s.settled[j].sequence)
  }

  /** No active entry carries a number that has settled. */
  ghost predicate NoDoubleSettlement(s: Run) {
    forall i, p | 0 <= i < |s.settled| && p in s.node.active ::
      s.settled[i].sequence != s.node.active[p].sequence
  }

  ghost predicate Inv(s: Run) {
    && s.cur >= 0
    && (s.node.last == 0 ==> s.issued == [])
    && (s.node.last != 0 ==> s.cur <= s.node.last)
    && (forall i | 0 <= i < |s.issued| :: WellMade(s.node, s.issued[i]))
    && Lineage(s.issued)
    && ActiveKept(s)
    && SettledInOrder(s)
    && NoDoubleSettlement(s)
  }

  /** What holds besides, as long as no submission uses up its number in vain. */
  ghost predicate NothingStale(s: Run) {
    forall p | p in s.node.active :: s.cur < s.node.active[p].sequence
  }

  predicate NeverConsumes(step: Step) {
    step.Flush? ==> Consumed !in step.fates
  }

  // ----- Steps keep it -----

  lemma CreateOutcome(s: Run, known: bool, request: CreateRequest)
    requires Inv(s)
    ensures
      var (node, made) := NodeModel.Create(s.node, s.cur, known, request);
      && node == s.node.(last := node.last)
      && s.node.last <= node.last && s.cur <= (if node.last == 0 then s.cur else node.last)
      && (made.Ok? ==>
            var i := Issued(request, made.value);
            && WellMade(node, i)
            && made.value.reference == ActiveTransaction(s.node, request.payer)
            && (made.value.reference.None? ==> NumberOf(made.value.pending) == node.last > s.node.last))
  {
    var ref := ActiveTransaction(s.node, request.payer);
    if ref.Some? {
      var k :| 0 <= k < |s.issued| && SameBody(ref.value, s.issued[k].made.pending);
      assert WellMade(s.node, s.issued[k]);
    }
  }

  lemma CreateKeepsInv(s: Run, known: bool, request: CreateRequest)
    requires Inv(s)
    ensures Inv(Next(s, Create(known, request)))
    ensures NothingStale(s) ==> NothingStale(Next(s, Create(known, request)))
  {
    var s' := Next(s, Create(known, request));
    CreateOutcome(s, known, request);
    forall i | 0 <= i < |s.issued| ensures WellMade(s'.node, s.issued[i]) {
      assert WellMade(s.node, s.issued[i]);
    }
    forall p | p in s'.node.active ensures FromIssued(s'.issued, s'.node.active[p].tx) {
      FromIssuedGrows(s, s', s.node.active[p].tx);
    }
    if s'.issued != s.issued { NewNumberKeepsLineage(s, request, s'.issued[|s.issued|]); }
  }

  lemma FromIssuedGrows(s: Run, s': Run, t: Transaction)
    requires FromIssued(s.issued, t) && s.issued <= s'.issued
    ensures FromIssued(s'.issued, t)
  {
    var k :| 0 <= k < |s.issued| && SameBody(t, s.issued[k].made.pending);
    assert s'.issued[k] == s.issued[k];
  }

  /** Reusing an active number stays with its payer; a fresh number is above all others. */
  lemma NewNumberKeepsLineage(s: Run, request: CreateRequest, added: Issued)
    requires Inv(s) && added.request == request
    requires
      var t, r := added.made.pending, added.made.reference;
      && r == ActiveTransaction(s.node, request.payer)
      && (r.None? ==> NumberOf(t) > s.node.last)
      && (r.Some? ==> NumberOf(t) == NumberOf(r.value))
    ensures Lineage(s.issued + [added])
  {
    forall i | 0 <= i < |s.issued| ensures
      && (NumberOf(s.issued[i].made.pending) == NumberOf(added.made.pending)
          ==> s.issued[i].request.payer == request.payer)
      && (added.made.reference.None? ==> NumberOf(s.issued[i].made.pending) < NumberOf(added.made.pending))
    {
      assert WellMade(s.node, s.issued[i]);
      if added.made.reference.Some? {
        var t := s.node.active[request.payer].tx;
        var k :| 0 <= k < |s.issued| && SameBody(t, s.issued[k].made.pending);
        assert WellMade(s.node, s.issued[k]);
      }
    }
  }

  lemma CommitKeepsInv(s: Run, k: nat, signatures: seq<Address>)
    requires Inv(s) && k < |s.issued|
    ensures Inv(Next(s, Commit(k, signatures)))
    ensures NothingStale(s) ==> NothingStale(Next(s, Commit(k, signatures)))
  {
    var t := Presented(s, k, signatures);
    assert WellMade(s.node, s.issued[k]);
    assert SameBody(t, s.issued[k].made.pending);
  }

  /** Active entries of different payers never share a sequence number. */
  lemma ActiveNumbersDiffer(s: Run, p: Address, q: Address)
    requires Inv(s) && p in s.node.active && q in s.node.active && p != q
    ensures s.node.active[p].sequence != s.node.active[q].sequence
  {
    var e, f := s.node.active[p], s.node.active[q];
    var i :| 0 <= i < |s.issued| && SameBody(e.tx, s.issued[i].made.pending);
    var j :| 0 <= j < |s.issued| && SameBody(f.tx, s.issued[j].made.pending);
    assert WellMade(s.node, s.issued[i]) && WellMade(s.node, s.issued[j]);
  }

  lemma ListingIsStrict(s: Run, order: seq<Entry>)
    requires Inv(s) && Lists(order, s.node.active) && SortedBySequence(order)
    ensures StrictlySorted(order)
    ensures forall i | 0 <= i < |order| :: order[i].sequence <= s.node.last && s.node.last != 0
  {
    forall i, j | 0 <= i < j < |order| ensures order[i].sequence < order[j].sequence {
      ActiveNumbersDiffer(s, order[i].tx.payer, order[j].tx.payer);
    }
    forall i | 0 <= i < |order| ensures order[i].sequence <= s.node.last && s.node.last != 0 {
      var p := order[i].tx.payer;
      var k :| 0 <= k < |s.issued| && SameBody(s.node.active[p].tx, s.issued[k].made.pending);
      assert WellMade(s.node, s.issued[k]);
    }
  }

  lemma FlushKeepsNoDouble(s: Run, order: seq<Entry>, bump: bool, fates: seq<Fate>, e: Entry, p: Address)
    requires Inv(s) && Enabled(s, Flush(order, bump, fates))
    requires
      var f := NodeModel.Flush(s.node, s.cur, order, bump, fates);
      e in s.settled + f.settled && p in f.node.active
    ensures e.sequence != NodeModel.Flush(s.node, s.cur, order, bump, fates).node.active[p].sequence
  {
    FlushRemoves(s.node, s.cur, order, bump, fates);
    if e in s.settled {
      var i :| 0 <= i < |s.settled| && s.settled[i] == e;
    } else {
      ActiveNumbersDiffer(s, p, e.tx.payer);
    }
  }

  lemma FlushKeepsOrder(s: Run, order: seq<Entry>, bump: bool, fates: seq<Fate>)
    requires SettledInOrder(s) && Enabled(s, Flush(order, bump, fates))
    ensures SettledInOrder(Next(s, Flush(order, bump, fates)))
  {
    FlushNumbers(s.node, s.cur, order, bump, fates);
  }

  lemma FlushKeepsFresh(s: Run, order: seq<Entry>, bump: bool, fates: seq<Fate>)
    requires Inv(s) && NothingStale(s) && Enabled(s, Flush(order, bump, fates)) && Consumed !in fates
    ensures NothingStale(Next(s, Flush(order, bump, fates)))
  {
    var s' := Next(s, Flush(order, bump, fates));
    FlushRemoves(s.node, s.cur, order, bump, fates);
    ListingIsStrict(s, order);
    forall p | p in s'.node.active ensures s'.cur < s'.node.active[p].sequence {
      FlushLeavesNoneStale(s.node, s.cur, order, bump, fates, s.node.active[p]);
    }
  }

  lemma FlushKeepsInv(s: Run, order: seq<Entry>, bump: bool, fates: seq<Fate>)
    requires Inv(s) && Enabled(s, Flush(order, bump, fates))
    ensures Inv(Next(s, Flush(order, bump, fates)))
    ensures NothingStale(s) && Consumed !in fates ==> NothingStale(Next(s, Flush(order, bump, fates)))
  {
    var s' := Next(s, Flush(order, bump, fates));
    FlushRemoves(s.node, s.cur, order, bump, fates);
    ListingIsStrict(s, order);
    assert s.cur <= s'.cur && (s'.cur > s.cur ==> s'.cur <= s.node.last && s.node.last != 0) by {
      FlushNumbers(s.node, s.cur, order, bump, fates);
    }
    FlushKeepsOrder(s, order, bump, fates);
    forall i | 0 <= i < |s.issued| ensures WellMade(s'.node, s.issued[i]) {
      assert WellMade(s.node, s.issued[i]);
    }
    forall i, p | 0 <= i < |s'.settled| && p in s'.node.active
        ensures s'.settled[i].sequence != s'.node.active[p].sequence {
      FlushKeepsNoDouble(s, order, bump, fates, s'.settled[i], p);
    }
    if NothingStale(s) && Consumed !in fates { FlushKeepsFresh(s, order, bump, fates); }
  }

  lemma {:induction false} StepKeepsInv(s: Run, step: Step)
    requires Inv(s) && Enabled(s, step)
    ensures Inv(Next(s, step))
    ensures NothingStale(s) && NeverConsumes(step) ==> NothingStale(Next(s, step))
  {
    match step
    case Create(known, request) => CreateKeepsInv(s, known, request);
    case Commit(k, signatures) => CommitKeepsInv(s, k, signatures);
    case Flush(order, bump, fates) => FlushKeepsInv(s, order, bump, fates);
  }

  lemma {:induction false} RunKeepsInv(s: Run, steps: seq<Step>)
    requires Inv(s) && Allowed(s, steps)
    ensures Inv(After(s, steps))
    ensures
      (NothingStale(s) && (forall i | 0 <= i < |steps| :: NeverConsumes(steps[i])))
      ==> NothingStale(After(s, steps))
    decreases |steps|
  {
    if steps != [] {
      StepKeepsInv(s, steps[0]);
      RunKeepsInv(Next(s, steps[0]), steps[1..]);
    }
  }
}
