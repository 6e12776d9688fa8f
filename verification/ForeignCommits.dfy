/** `SignChainTransaction` signs whatever it is sent, so that a node can be presented with
    transactions it has signed but never created. What of the guarantees survives that, and
    exactly which of these commits endanger the rest. */
module ForeignCommits {
  import opened Types
  import opened NodeModel
  import opened NodeRuns
  import opened NodeLaws
  import opened Collisions

  /** A step of the node's own, or the commit of an arbitrary transaction. */
  datatype AnyStep = Own(step: Step) | Foreign(t: Transaction)

  ghost predicate AnyEnabled(s: Run, step: AnyStep) {
    step.Own? ==> Enabled(s, step.step)
  }

  ghost function AnyNext(s: Run, step: AnyStep): Run
    requires AnyEnabled(s, step)
  {
    match step
    case Own(own) => Next(s, own)
    case Foreign(t) => s.(node := NodeModel.Commit(s.node, s.cur, t).0)
  }

  ghost predicate AnyAllowed(s: Run, steps: seq<AnyStep>)
    decreases |steps|
  {
    steps == [] || (AnyEnabled(s, steps[0]) && AnyAllowed(AnyNext(s, steps[0]), steps[1..]))
  }

  ghost function AnyAfter(s: Run, steps: seq<AnyStep>): Run
    requires AnyAllowed(s, steps)
    decreases |steps|
  {
    if steps == [] then s else AnyAfter(AnyNext(s, steps[0]), steps[1..])
  }

  // ----- What survives -----

  lemma {:induction false} AnyRunKeepsOrder(s: Run, steps: seq<AnyStep>)
    requires SettledInOrder(s) && AnyAllowed(s, steps)
    ensures SettledInOrder(AnyAfter(s, steps)) && s.settled <= AnyAfter(s, steps).settled
    decreases |steps|
  {
    if steps != [] {
      if steps[0].Own? {
        if steps[0].step.Flush? {
          FlushKeepsOrder(s, steps[0].step.order, steps[0].step.bumpAccepted, steps[0].step.fates);
        }
        NextGrows(s, steps[0].step);
      }
      AnyRunKeepsOrder(AnyNext(s, steps[0]), steps[1..]);
    }
  }

  /** Whatever is committed, no number settles twice, and any transaction under a number
      that has settled is refused ever after. */
  lemma SettlesAtMostOnce(address: Address, cur: nat, steps: seq<AnyStep>, t: Transaction)
    requires AnyAllowed(Initial(address, cur), steps)
    ensures
      var s := AnyAfter(Initial(address, cur), steps);
      && (forall i, j | 0 <= i < j < |s.settled| :: s.settled[i].sequence < s.settled[j].sequence <= s.cur)
      && (t.xdr.Some? && (exists e :: e in s.settled && e.sequence == t.xdr.value.sequence)
          ==> NodeModel.Commit(s.node, s.cur, t) == (s.node, Err(StaleSequence)))
  {
    AnyRunKeepsOrder(Initial(address, cur), steps);
  }

  // ----- What of the invariant does not -----

  /** The invariant but for where active entries come from. */
  ghost predicate InvButOrigin(s: Run) {
    && s.cur >= 0
    && (s.node.last == 0 ==> s.issued == [])
    && (s.node.last != 0 ==> s.cur <= s.node.last)
    && (forall i | 0 <= i < |s.issued| :: WellMade(s.node, s.issued[i]))
    && Lineage(s.issued)
    && (forall p | p in s.node.active ::
        s.node.active[p].tx.payer == p && s.node.active[p].sequence == NumberOf(s.node.active[p].tx))
    && SettledInOrder(s)
    && NoDoubleSettlement(s)
  }

  /** The commit of an arbitrary transaction keeps every clause of the invariant but one, and
      that one exactly when it is refused, or the node has created the transaction. */
  lemma ForeignKeepsInvExactly(s: Run, t: Transaction)
    requires Inv(s)
    ensures InvButOrigin(AnyNext(s, Foreign(t)))
    ensures Inv(AnyNext(s, Foreign(t)))
       <==> NodeModel.Commit(s.node, s.cur, t).1.Err? || FromIssued(s.issued, t)
  {
    var s' := AnyNext(s, Foreign(t));
    if NodeModel.Commit(s.node, s.cur, t).1.Ok? {
      assert s'.node.active[t.payer].tx == t;
    }
  }

  // ----- Which such commits do harm -----

  ghost predicate CommitAccepted(s: Run, t: Transaction) {
    NodeModel.Commit(s.node, s.cur, t).1.Ok?
  }

  /** The number of `t` is active for no other payer. */
  predicate NobodyElses(s: Run, t: Transaction) {
    forall q | q in s.node.active && q != t.payer :: s.node.active[q].sequence != NumberOf(t)
  }

  lemma AcceptedCollides(s: Run, t: Transaction)
    requires Settling(s) && NumbersDiffer(s) && CommitAccepted(s, t)
    ensures
      var s' := AnyNext(s, Foreign(t));
      Settling(s') && (NumbersDiffer(s') <==> NobodyElses(s, t))
  {
    var s' := AnyNext(s, Foreign(t));
    assert s'.node.active[t.payer].sequence == NumberOf(t) > s.cur;
    forall q | q in s.node.active && q != t.payer ensures s'.node.active[q] == s.node.active[q] {}
  }

  /** The guard: after the commit of an arbitrary transaction, no flushes leave a number settled
      and active, if and only if its number is active for no other payer. */
  lemma ForeignFlushesSafeExactly(s: Run, t: Transaction)
    requires Settling(s) && NumbersDiffer(s) && CommitAccepted(s, t)
    ensures FlushesAreSafe(AnyNext(s, Foreign(t))) <==> NobodyElses(s, t)
  {
    AcceptedCollides(s, t);
    FlushesSafeExactly(AnyNext(s, Foreign(t)));
  }

  /** What keeps a node's own steps safe, wherever its active entries come from: their numbers
      have been handed out, and to nobody else. */
  ghost predicate Orderly(s: Run) {
    && s.cur >= 0
    && (s.node.last == 0 ==> s.issued == [])
    && (s.node.last != 0 ==> s.cur <= s.node.last)
    && (forall i | 0 <= i < |s.issued| :: WellMade(s.node, s.issued[i]))
    && (forall p | p in s.node.active :: OwnSlot(s, p, s.node.active[p]))
    && NumbersPairUp(s) && AllDiffer(s) && Settling(s)
  }

  /** Equal numbers were issued to the same payer. */
  predicate NumbersPairUp(s: Run) {
    forall i, j | 0 <= i < |s.issued| && 0 <= j < |s.issued| ::
      NumberOf(s.issued[i].made.pending) == NumberOf(s.issued[j].made.pending)
      ==> s.issued[i].request.payer == s.issued[j].request.payer
  }

  /** No number is active for two payers. */
  predicate AllDiffer(s: Run) {
    forall p, q | p in s.node.active && q in s.node.active && p != q ::
      s.node.active[p].sequence != s.node.active[q].sequence
  }

  predicate OwnSlot(s: Run, p: Address, e: Entry) {
    && e.tx.payer == p && e.tx.xdr.Some? && 0 < e.sequence == NumberOf(e.tx) <= s.node.last
    && IssuedToNobodyElse(s, e.tx)
  }

  predicate IssuedToNobodyElse(s: Run, t: Transaction) {
    forall i | 0 <= i < |s.issued| && s.issued[i].request.payer != t.payer ::
      NumberOf(s.issued[i].made.pending) != NumberOf(t)
  }

  /** The number of `t` has been handed out, and neither issued to nor active for another payer. */
  predicate NumberIsHis(s: Run, t: Transaction) {
    NumberOf(t) <= s.node.last && NobodyElses(s, t) && IssuedToNobodyElse(s, t)
  }

  lemma InvIsOrderly(s: Run)
    requires Inv(s)
    ensures Orderly(s)
  {
    forall p | p in s.node.active ensures OwnSlot(s, p, s.node.active[p]) {
      var t := s.node.active[p].tx;
      var k :| 0 <= k < |s.issued| && SameBody(t, s.issued[k].made.pending);
      assert WellMade(s.node, s.issued[k]);
    }
    forall p, q | p in s.node.active && q in s.node.active && p != q
      ensures s.node.active[p].sequence != s.node.active[q].sequence
    {
      ActiveNumbersDiffer(s, p, q);
    }
  }

  // ----- Own steps after such a commit -----

  /** What a creation adds: a fresh number, or the one active for the payer. */
  lemma CreateAdds(s: Run, known: bool, request: CreateRequest)
    requires Orderly(s)
    ensures
      var (node, made) := NodeModel.Create(s.node, s.cur, known, request);
      && node == s.node.(last := node.last)
      && s.node.last <= node.last && (node.last != 0 ==> s.cur <= node.last)
      && (made.Ok? ==>
            && WellMade(node, Issued(request, made.value))
            && (NumberOf(made.value.pending) > s.node.last
                || (request.payer in s.node.active
                    && NumberOf(made.value.pending) == s.node.active[request.payer].sequence)))
  {
    if request.payer in s.node.active { assert OwnSlot(s, request.payer, s.node.active[request.payer]); }
  }

  /** Such a number belongs to its payer alone. */
  lemma AddedIsHis(s: Run, added: Issued)
    requires Orderly(s)
    requires NumberOf(added.made.pending) > s.node.last
        || (added.request.payer in s.node.active
            && NumberOf(added.made.pending) == s.node.active[added.request.payer].sequence)
    ensures forall i | 0 <= i < |s.issued| && s.issued[i].request.payer != added.request.payer ::
        NumberOf(s.issued[i].made.pending) != NumberOf(added.made.pending)
    ensures forall q | q in s.node.active && q != added.request.payer ::
        s.node.active[q].sequence != NumberOf(added.made.pending)
  {
    var p := added.request.payer;
    if p in s.node.active { assert OwnSlot(s, p, s.node.active[p]); }
    forall i | 0 <= i < |s.issued| ensures NumberOf(s.issued[i].made.pending) <= s.node.last {
      assert WellMade(s.node, s.issued[i]);
    }
    forall q | q in s.node.active ensures s.node.active[q].sequence <= s.node.last {
      assert OwnSlot(s, q, s.node.active[q]);
    }
  }

  lemma CreateIsOrderly(s: Run, known: bool, request: CreateRequest)
    requires Orderly(s)
    ensures Orderly(Next(s, Create(known, request)))
  {
    var s' := Next(s, Create(known, request));
    CreateAdds(s, known, request);
    if s'.issued != s.issued { AddedIsHis(s, s'.issued[|s.issued|]); }
    forall i | 0 <= i < |s.issued| ensures WellMade(s'.node, s'.issued[i]) {
      assert WellMade(s.node, s.issued[i]);
    }
    forall p | p in s'.node.active ensures OwnSlot(s', p, s'.node.active[p]) {
      assert OwnSlot(s, p, s.node.active[p]);
    }
  }

  /** A commit keeps the node orderly if the number is the payer's. */
  lemma CommitIsOrderly(s: Run, t: Transaction)
    requires Orderly(s) && (CommitAccepted(s, t) ==> NumberIsHis(s, t))
    ensures Orderly(AnyNext(s, Foreign(t)))
  {
    var s' := AnyNext(s, Foreign(t));
    if CommitAccepted(s, t) {
      AcceptedCollides(s, t);
      forall p | p in s'.node.active ensures OwnSlot(s', p, s'.node.active[p]) {
        if p != t.payer { assert OwnSlot(s, p, s.node.active[p]); }
      }
      forall i | 0 <= i < |s.issued| ensures WellMade(s'.node, s.issued[i]) {
        assert WellMade(s.node, s.issued[i]);
      }
    }
  }

  /** The number of a created transaction is its payer's. */
  lemma CreatedIsHis(s: Run, k: nat, signatures: seq<Address>)
    requires Orderly(s) && k < |s.issued|
    ensures NumberIsHis(s, Presented(s, k, signatures))
  {
    var t := Presented(s, k, signatures);
    assert WellMade(s.node, s.issued[k]);
    forall q | q in s.node.active && q != t.payer ensures s.node.active[q].sequence != NumberOf(t) {
      assert OwnSlot(s, q, s.node.active[q]);
    }
  }

  lemma FlushIsOrderly(s: Run, step: Step)
    requires Orderly(s) && step.Flush? && Enabled(s, step)
    ensures Orderly(Next(s, step))
  {
    var s' := Next(s, step);
    FlushKeepsDiffering(s, step);
    FlushKeepsKeyed(s, step);
    FlushReaches(s, step);
    forall i | 0 <= i < |s.issued| ensures WellMade(s'.node, s.issued[i]) {
      assert WellMade(s.node, s.issued[i]);
    }
    forall p | p in s'.node.active ensures OwnSlot(s', p, s'.node.active[p]) {
      assert OwnSlot(s, p, s.node.active[p]);
    }
  }

  lemma FlushReaches(s: Run, step: Step)
    requires Orderly(s) && step.Flush? && Enabled(s, step)
    ensures
      var s' := Next(s, step);
      && s'.node.last == s.node.last && s'.node.address == s.node.address && s'.issued == s.issued
      && s.cur <= s'.cur && (s'.node.last != 0 ==> s'.cur <= s'.node.last)
  {
    FlushNumbers(s.node, s.cur, step.order, step.bumpAccepted, step.fates);
    FlushRemoves(s.node, s.cur, step.order, step.bumpAccepted, step.fates);
    if step.order != [] {
      var e := step.order[|step.order| - 1];
      assert OwnSlot(s, e.tx.payer, e);
    }
  }

  lemma {:induction false} AnyStepIsOrderly(s: Run, step: AnyStep)
    requires Orderly(s) && AnyEnabled(s, step)
    requires step.Foreign? && CommitAccepted(s, step.t) ==> NumberIsHis(s, step.t)
    ensures Orderly(AnyNext(s, step))
  {
    match step
    case Foreign(t) => CommitIsOrderly(s, t);
    case Own(own) =>
      match own
      case Create(known, request) => CreateIsOrderly(s, known, request);
      case Flush(_, _, _) => FlushIsOrderly(s, own);
      case Commit(k, signatures) =>
        CreatedIsHis(s, k, signatures);
        CommitIsOrderly(s, Presented(s, k, signatures));
        assert AnyNext(s, Foreign(Presented(s, k, signatures))).node == Next(s, own).node;
  }

  /** Every arbitrary transaction that is accepted carries a number of its payer's. */
  ghost predicate AllHis(s: Run, steps: seq<AnyStep>)
    requires AnyAllowed(s, steps)
    decreases |steps|
  {
    steps == [] ||
    (&& (steps[0].Foreign? && CommitAccepted(s, steps[0].t) ==> NumberIsHis(s, steps[0].t))
     && AllHis(AnyNext(s, steps[0]), steps[1..]))
  }

  lemma {:induction false} OrderlyRuns(s: Run, steps: seq<AnyStep>)
    requires Orderly(s) && AnyAllowed(s, steps) && AllHis(s, steps)
    ensures Orderly(AnyAfter(s, steps))
    decreases |steps|
  {
    if steps != [] {
      AnyStepIsOrderly(s, steps[0]);
      OrderlyRuns(AnyNext(s, steps[0]), steps[1..]);
    }
  }

  /** In every run in which arbitrary transactions are accepted only under numbers that are
      their payers', no active entry carries a number that has settled. */
  lemma HisNumbersAreSafe(address: Address, cur: nat, steps: seq<AnyStep>)
    requires AnyAllowed(Initial(address, cur), steps) && AllHis(Initial(address, cur), steps)
    ensures NoDoubleSettlement(AnyAfter(Initial(address, cur), steps))
  {
    OrderlyRuns(Initial(address, cur), steps);
  }

  lemma {:induction false} OwnRunIsOrderly(s: Run, steps: seq<Step>)
    requires Orderly(s) && Allowed(s, steps)
    ensures Orderly(After(s, steps))
    decreases |steps|
  {
    if steps != [] {
      AnyStepIsOrderly(s, Own(steps[0]));
      OwnRunIsOrderly(Next(s, steps[0]), steps[1..]);
    }
  }

  // ----- And only these -----

  ghost predicate RunsAreSafe(s: Run) {
    forall steps | Allowed(s, steps) :: NoDoubleSettlement(After(s, steps))
  }

  lemma UnsafeNext(s: Run, step: Step)
    requires Enabled(s, step) && !RunsAreSafe(Next(s, step))
    ensures !RunsAreSafe(s)
  {
    var rest :| Allowed(Next(s, step), rest) && !NoDoubleSettlement(After(Next(s, step), rest));
    FirstStep(s, step, rest);
  }

  lemma {:induction false} UnsafeLater(s: Run, steps: seq<Step>)
    requires Allowed(s, steps) && !RunsAreSafe(After(s, steps))
    ensures !RunsAreSafe(s)
    decreases |steps|
  {
    if steps != [] {
      UnsafeLater(Next(s, steps[0]), steps[1..]);
      UnsafeNext(s, steps[0]);
    }
  }

  lemma SharedIsUnsafe(s: Run, p: Address, q: Address)
    requires Settling(s) && Shared(s, p, q)
    ensures !RunsAreSafe(s)
  {
    var steps := CollisionSurfaces(s, p, q);
  }

  /** Committing the `k`-th created transaction makes `q` share its number. */
  lemma IssuedIsUnsafe(s: Run, k: nat, q: Address)
    requires Settling(s) && k < |s.issued| && WellMade(s.node, s.issued[k]) && s.issued[k].request.payer != q
    requires q in s.node.active && s.cur < s.node.active[q].sequence == NumberOf(s.issued[k].made.pending)
    ensures !RunsAreSafe(s)
  {
    var r := s.issued[k].request.payer;
    var both := [r, s.node.address];
    assert both[0] in both && both[1] in both;
    var s1 := Next(s, Commit(k, both));
    SharedIsUnsafe(s1, r, q);
    UnsafeNext(s, Commit(k, both));
  }

  /** Asked again and again by a payer that commits nothing, a node hands out every number. */
  lemma {:induction false} NumberGetsIssued(s: Run, z: Address, number: int, session: Session)
    returns (steps: seq<Step>)
    requires z !in s.node.active && z != s.node.address && NextNumber(s) <= number && s.cur >= 0 && s.node.last >= 0
    ensures Allowed(s, steps)
    ensures
      var s' := After(s, steps);
      && s'.node == s.node.(last := number) && s'.cur == s.cur && s'.settled == s.settled
      && s'.issued != [] && s'.issued[|s'.issued| - 1] == FreshIssue(s.node.address, z, number, 1, session)
    decreases number - NextNumber(s)
  {
    var step := Create(true, CreateRequest(1, 1, z, session));
    FreshCreate(s, z, 1, session);
    var s1 := Next(s, step);
    var rest: seq<Step> := [];
    if NextNumber(s) < number { rest := NumberGetsIssued(s1, z, number, session); }
    FirstStep(s, step, rest);
    steps := [step] + rest;
  }

  lemma UnissuedIsUnsafe(s: Run, q: Address, z: Address)
    requires Settling(s) && s.cur >= 0 && s.node.last >= 0 && q in s.node.active && s.node.active[q].sequence > s.cur
    requires s.node.active[q].sequence > s.node.last
    requires z !in s.node.active && z != s.node.address
    ensures !RunsAreSafe(s)
  {
    var number := s.node.active[q].sequence;
    var steps := NumberGetsIssued(s, z, number, s.node.active[q].tx.session);
    var s1 := After(s, steps);
    var k := |s1.issued| - 1;
    var both := [z, s.node.address];
    FreshCommit(s1, k, z, number, 1, s.node.active[q].tx.session);
    var s2 := Next(s1, Commit(k, both));
    IssuedIsUnsafe(s1, k, q);
    UnsafeLater(s, steps);
  }

  /** After the commit of an arbitrary transaction, no run of the node's own steps leaves a
      number settled and active, if and only if the transaction's number has been handed out,
      and neither issued to nor active for another payer. (`z` is any address with nothing
      pending.) */
  lemma ForeignSafeExactly(s: Run, t: Transaction, z: Address)
    requires Orderly(s) && CommitAccepted(s, t)
    requires z !in s.node.active && z != s.node.address && z != t.payer
    ensures RunsAreSafe(AnyNext(s, Foreign(t))) <==> NumberIsHis(s, t)
  {
    var s1 := AnyNext(s, Foreign(t));
    AcceptedCollides(s, t);
    if NumberIsHis(s, t) {
      CommitIsOrderly(s, t);
      forall steps | Allowed(s1, steps) ensures NoDoubleSettlement(After(s1, steps)) {
        OwnRunIsOrderly(s1, steps);
      }
    } else if !NobodyElses(s, t) {
      var q :| q in s.node.active && q != t.payer && s.node.active[q].sequence == NumberOf(t);
      SharedIsUnsafe(s1, t.payer, q);
    } else if !IssuedToNobodyElse(s, t) {
      var k :| 0 <= k < |s.issued| && s.issued[k].request.payer != t.payer
          && NumberOf(s.issued[k].made.pending) == NumberOf(t);
      assert WellMade(s.node, s.issued[k]);
      IssuedIsUnsafe(s1, k, t.payer);
    } else {
      UnissuedIsUnsafe(s1, t.payer, z);
    }
  }

  /** A transaction for payer `q` under a number the node has given to someone else. */
  function MadeUp(address: Address, q: Address, number: int, session: Session): Transaction {
    WithSignatures(FreshIssue(address, q, number, 1, session).made.pending, [q, address])
  }

  /** The shortest way to harm: once such a transaction has been committed, one flush settles a
      number for one payer and leaves it active for another. */
  lemma MadeUpNumberSettledAndActive(s: Run, p: Address, q: Address, session: Session)
    requires Inv(s) && NothingStale(s) && s.node.active.Keys == {p} && q != p && q != s.node.address
    ensures
      var e := s.node.active[p];
      var t := MadeUp(s.node.address, q, e.sequence, session);
      var s1 := AnyNext(s, Foreign(t));
      var order := [e, Entry(t, e.sequence)];
      && Enabled(s1, Flush(order, true, []))
      && (var s2 := Next(s1, Flush(order, true, []));
          && s2.settled == s.settled + [e]
          && q in s2.node.active && s2.node.active[q].sequence == e.sequence)
  {
    var e := s.node.active[p];
    var t := MadeUp(s.node.address, q, e.sequence, session);
    var both := [q, s.node.address];
    assert both[0] in both && both[1] in both;
    var s1 := AnyNext(s, Foreign(t));
    var f := Entry(t, e.sequence);
    var order := [e, f];
    assert s1.node.active == s.node.active[q := f];
    assert order[0] == e && order[1] == f;
    assert DropStale(order, s.cur) == order;
    FlushOfTwo(s1.node, s.cur, e, f);
  }

  lemma FlushOfTwo(n: NodeState, cur: int, e: Entry, f: Entry)
    requires cur < e.sequence == f.sequence
    ensures
      var flushed := NodeModel.Flush(n, cur, [e, f], true, []);
      flushed.settled == [e] && flushed.node == Complete(n, e)
  {
    var order := [e, f];
    assert DropStale(order, cur) == order && order[1..] == [f];
    assert SubmitRun(e.sequence, [f], []) == Submitted([], e.sequence);
    assert SubmitRun(e.sequence - 1, order, []) == Submitted([e], e.sequence);
    assert [e][1..] == [];
    assert CompleteAll(n, [e]) == Complete(n, e);
  }
}
