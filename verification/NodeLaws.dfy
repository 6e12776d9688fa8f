/** What the runs of one node guarantee: numbers are never reused across payers nor
    settled twice, accumulated payments add up, and when they do not. */
module NodeLaws {
  import opened Types
  import opened NodeModel
  import opened NodeRuns

  // ----- Safety over whole runs -----

  /** Under any interleaving and any behaviour of the ledger, every number settles at most
      once, and no active entry carries a number that has settled. */
  lemma NeverSettledAndActive(address: Address, cur: nat, steps: seq<Step>)
    requires Allowed(Initial(address, cur), steps)
    ensures
      var s := After(Initial(address, cur), steps);
      && (forall i, j | 0 <= i < j < |s.settled| :: s.settled[i].sequence < s.settled[j].sequence <= s.cur)
      && (forall i, p | 0 <= i < |s.settled| && p in s.node.active ::
          s.settled[i].sequence != s.node.active[p].sequence)
  {
    RunKeepsInv(Initial(address, cur), steps);
  }

  /** If moreover no submission uses up its number in vain, every active entry is still
      usable and within the numbers handed out. */
  lemma ActiveStaysUsable(address: Address, cur: nat, steps: seq<Step>)
    requires Allowed(Initial(address, cur), steps)
    requires forall i | 0 <= i < |steps| :: NeverConsumes(steps[i])
    ensures
      var s := After(Initial(address, cur), steps);
      forall p | p in s.node.active :: s.cur < s.node.active[p].sequence <= s.node.last
  {
    RunKeepsInv(Initial(address, cur), steps);
    var s := After(Initial(address, cur), steps);
    forall p | p in s.node.active ensures s.node.active[p].sequence <= s.node.last {
      var k :| 0 <= k < |s.issued| && SameBody(s.node.active[p].tx, s.issued[k].made.pending);
      assert WellMade(s.node, s.issued[k]);
    }
  }

  /** Equal numbers mean the same payer; numbers handed out without a reference strictly
      increase; and active entries of different payers differ in their numbers. */
  lemma NumbersBelongToOnePayer(address: Address, cur: nat, steps: seq<Step>)
    requires Allowed(Initial(address, cur), steps)
    ensures
      var s := After(Initial(address, cur), steps);
      && (forall i, j | 0 <= i < |s.issued| && 0 <= j < |s.issued| ::
            NumberOf(s.issued[i].made.pending) == NumberOf(s.issued[j].made.pending)
            ==> s.issued[i].made.pending.payer == s.issued[j].made.pending.payer)
      && (forall i, j | 0 <= i < j < |s.issued| && s.issued[j].made.reference.None? ::
            NumberOf(s.issued[i].made.pending) < NumberOf(s.issued[j].made.pending))
      && (forall p, q | p in s.node.active && q in s.node.active && p != q ::
            s.node.active[p].sequence != s.node.active[q].sequence)
  {
    RunKeepsInv(Initial(address, cur), steps);
    OnePayerEach(After(Initial(address, cur), steps));
  }

  lemma OnePayerEach(s: Run)
    requires Inv(s)
    ensures forall i | 0 <= i < |s.issued| :: s.issued[i].made.pending.payer == s.issued[i].request.payer
    ensures forall p, q | p in s.node.active && q in s.node.active && p != q ::
        s.node.active[p].sequence != s.node.active[q].sequence
  {
    forall i | 0 <= i < |s.issued| ensures s.issued[i].made.pending.payer == s.issued[i].request.payer {
      assert WellMade(s.node, s.issued[i]);
    }
    forall p, q | p in s.node.active && q in s.node.active && p != q
      ensures s.node.active[p].sequence != s.node.active[q].sequence
    {
      ActiveNumbersDiffer(s, p, q);
    }
  }

  lemma {:induction false} HistoryGrows(s: Run, steps: seq<Step>)
    requires Allowed(s, steps)
    ensures
      var s' := After(s, steps);
      && s.settled <= s'.settled && s.issued <= s'.issued && s.accepted <= s'.accepted
      && s'.node.address == s.node.address
    decreases |steps|
  {
    if steps != [] {
      NextGrows(s, steps[0]);
      HistoryGrows(Next(s, steps[0]), steps[1..]);
    }
  }

  lemma NextGrows(s: Run, step: Step)
    requires Enabled(s, step)
    ensures
      var s' := Next(s, step);
      && s.settled <= s'.settled && s.issued <= s'.issued && s.accepted <= s'.accepted
      && s'.node.address == s.node.address
  {
    if step.Flush? {
      CompleteAllRemoves(s.node, NodeModel.Flush(s.node, s.cur, step.order, step.bumpAccepted, step.fates).settled);
    }
  }

  /** A transaction whose number has settled is refused ever after, whoever signed it: in
      particular a replacement created before a flush and committed after it. */
  lemma SettledNumberIsRefused(s: Run, steps: seq<Step>, k: nat, signatures: seq<Address>, e: Entry)
    requires Inv(s) && Allowed(s, steps)
    requires k < |s.issued| && e in s.settled && e.sequence == NumberOf(s.issued[k].made.pending)
    ensures
      var s' := After(s, steps);
      && k < |s'.issued|
      && NodeModel.Commit(s'.node, s'.cur, Presented(s', k, signatures)) == (s'.node, Err(StaleSequence))
  {
    RunKeepsInv(s, steps);
    HistoryGrows(s, steps);
    var s' := After(s, steps);
    assert WellMade(s'.node, s'.issued[k]);
    var i :| 0 <= i < |s.settled| && s.settled[i] == e;
    assert s'.settled[i] == e;
  }

  // ----- Accumulation -----

  /** What payer `p` has committed, what of it has settled, and what is still active. */
  function AcceptedFor(accepted: seq<Issued>, p: Address): nat {
    if accepted == [] then 0
    else
      var i := accepted[|accepted| - 1];
      AcceptedFor(accepted[..|accepted| - 1], p) + if i.request.payer == p then i.request.totalIn else 0
  }

  function SettledFor(settled: seq<Entry>, p: Address): nat {
    if settled == [] then 0
    else
      var e := settled[|settled| - 1];
      SettledFor(settled[..|settled| - 1], p) + if e.tx.payer == p then e.tx.amountIn else 0
  }

  /** What `p` has committed beyond what has settled and what is active. */
  function Missing(s: Run, p: Address): int {
    AcceptedFor(s.accepted, p) - SettledFor(s.settled, p) - ActiveAmount(s.node, p)
  }

  /** Nothing committed by `p` has been lost or counted twice. */
  ghost predicate AddsUp(s: Run, p: Address) {
    SettledFor(s.settled, p) + ActiveAmount(s.node, p) == AcceptedFor(s.accepted, p)
  }

  /** The step commits one of `p`'s transactions, and it is accepted. */
  ghost predicate CommitsFor(s: Run, step: Step, p: Address) {
    && step.Commit? && step.k < |s.issued| && s.issued[step.k].request.payer == p
    && NodeModel.Commit(s.node, s.cur, Presented(s, step.k, step.signatures)).1.Ok?
  }

  function ReferenceAmount(i: Issued): Amount {
    if i.made.reference.Some? then i.made.reference.value.amountIn else 0
  }

  /** What the step commits for `p` accumulates upon the amount active now, and the sum fits
      32 bits. */
  ghost predicate Accumulates(s: Run, step: Step, p: Address) {
    CommitsFor(s, step, p) ==>
      var i := s.issued[step.k];
      && ReferenceAmount(i) == ActiveAmount(s.node, p)
      && ActiveAmount(s.node, p) + i.request.totalIn < U32
  }

  ghost predicate AllAccumulate(s: Run, steps: seq<Step>, p: Address)
    requires Allowed(s, steps)
    decreases |steps|
  {
    steps == [] || (Accumulates(s, steps[0], p) && AllAccumulate(Next(s, steps[0]), steps[1..], p))
  }

  /** `p`'s payments add up at every moment of the run. */
  ghost predicate AlwaysAddsUp(s: Run, steps: seq<Step>, p: Address)
    requires Allowed(s, steps)
    decreases |steps|
  {
    AddsUp(s, p) && (steps == [] || AlwaysAddsUp(Next(s, steps[0]), steps[1..], p))
  }

  /** How much less is active for `p` after the step than was active and is added; negative
      if it is more. */
  ghost function Loss(s: Run, step: Step, p: Address): int {
    if CommitsFor(s, step, p)
    then ActiveAmount(s.node, p) + s.issued[step.k].request.totalIn - s.issued[step.k].made.pending.amountIn
    else 0
  }

  ghost function Losses(s: Run, steps: seq<Step>, p: Address): int
    requires Allowed(s, steps)
    decreases |steps|
  {
    if steps == [] then 0 else Loss(s, steps[0], p) + Losses(Next(s, steps[0]), steps[1..], p)
  }

  lemma {:induction false} SettledForAppends(a: seq<Entry>, b: seq<Entry>, p: Address)
    ensures SettledFor(a + b, p) == SettledFor(a, p) + SettledFor(b, p)
  {
    if b == [] {
      assert a + b == a;
    } else {
      assert (a + b)[..|a + b| - 1] == a + b[..|b| - 1];
      SettledForAppends(a, b[..|b| - 1], p);
    }
  }

  /** In a list whose numbers increase, `p`'s only possible entry counts at most once. */
  lemma {:induction false} SettledForOne(settled: seq<Entry>, p: Address, mine: Option<Entry>)
    requires StrictlySorted(settled)
    requires forall e | e in settled && e.tx.payer == p :: mine == Some(e)
    requires mine.Some? ==> mine.value.tx.payer == p
    ensures SettledFor(settled, p) == if mine.Some? && mine.value in settled then mine.value.tx.amountIn else 0
  {
    if settled != [] {
      var front, e := settled[..|settled| - 1], settled[|settled| - 1];
      assert settled == front + [e];
      SettledForOne(front, p, mine);
      assert forall i | 0 <= i < |front| :: front[i] == settled[i] && front[i].sequence < e.sequence;
    }
  }

  /** What a flush settles for a payer is what was active for it, unless that stays active. */
  lemma FlushedOrActive(n: NodeState, cur: int, order: seq<Entry>, bump: bool, fates: seq<Fate>, p: Address)
    requires Keyed(n.active) && Lists(order, n.active) && SortedBySequence(order)
    ensures
      var f := NodeModel.Flush(n, cur, order, bump, fates);
      SettledFor(f.settled, p) + ActiveAmount(f.node, p) == ActiveAmount(n, p)
  {
    var f := NodeModel.Flush(n, cur, order, bump, fates);
    FlushRemoves(n, cur, order, bump, fates);
    assert StrictlySorted(f.settled) by { FlushNumbers(n, cur, order, bump, fates); }
    SettledForOne(f.settled, p, if p in n.active then Some(n.active[p]) else None);
  }

  /** A flush loses nothing, however the ledger behaves and wherever it stops. */
  lemma FlushKeepsSum(s: Run, step: Step, p: Address)
    requires Inv(s) && Enabled(s, step) && step.Flush?
    ensures Missing(Next(s, step), p) == Missing(s, p)
  {
    FlushedOrActive(s.node, s.cur, step.order, step.bumpAccepted, step.fates, p);
    var f := NodeModel.Flush(s.node, s.cur, step.order, step.bumpAccepted, step.fates);
    SettledForAppends(s.settled, f.settled, p);
  }

  /** What a commit does to any payer's sum. */
  lemma CommitLoses(s: Run, k: nat, signatures: seq<Address>, p: Address)
    requires Inv(s) && k < |s.issued|
    ensures Missing(Next(s, Commit(k, signatures)), p) == Missing(s, p) + Loss(s, Commit(k, signatures), p)
  {
    var s' := Next(s, Commit(k, signatures));
    assert WellMade(s.node, s.issued[k]);
    if s'.accepted != s.accepted { assert s'.accepted[..|s'.accepted| - 1] == s.accepted; }
  }

  lemma StepLoses(s: Run, step: Step, p: Address)
    requires Inv(s) && Enabled(s, step)
    ensures Missing(Next(s, step), p) == Missing(s, p) + Loss(s, step, p)
  {
    match step
    case Create(known, request) => CreateOutcome(s, known, request);
    case Flush(_, _, _) => FlushKeepsSum(s, step, p);
    case Commit(k, signatures) => CommitLoses(s, k, signatures, p);
  }

  /** Nothing is lost by a commit exactly when it is refused, or not by `p`, or accumulates upon
      the amount now active without exceeding 32 bits. */
  lemma NoLossExactly(s: Run, step: Step, p: Address)
    requires Inv(s) && Enabled(s, step)
    ensures Loss(s, step, p) == 0 <==> Accumulates(s, step, p)
  {
    if step.Commit? { assert WellMade(s.node, s.issued[step.k]); }
  }

  /** Exactly when a step keeps the sum. */
  lemma StepKeepsSumExactly(s: Run, step: Step, p: Address)
    requires Inv(s) && Enabled(s, step) && AddsUp(s, p)
    ensures AddsUp(Next(s, step), p) <==> Accumulates(s, step, p)
  {
    StepLoses(s, step, p);
    NoLossExactly(s, step, p);
  }

  /** Every run is accounted for: what a payer has committed has settled, is active, or has been
      lost by one of the commits, by exactly the amount each says. */
  lemma {:induction false} RunLoses(s: Run, steps: seq<Step>, p: Address)
    requires Inv(s) && Allowed(s, steps)
    ensures Missing(After(s, steps), p) == Missing(s, p) + Losses(s, steps, p)
    decreases |steps|
  {
    if steps != [] {
      StepKeepsInv(s, steps[0]);
      StepLoses(s, steps[0], p);
      RunLoses(Next(s, steps[0]), steps[1..], p);
    }
  }

  /** Accumulation conserves value: in every run, what a payer has committed equals what has
      settled plus what is active at every moment, if and only if every commit that is accepted
      accumulates upon the amount then active, within 32 bits; however the ledger behaves, and
      wherever a flush stops. */
  lemma {:induction false} AccumulationConserves(s: Run, steps: seq<Step>, p: Address)
    requires Inv(s) && AddsUp(s, p) && Allowed(s, steps)
    ensures AlwaysAddsUp(s, steps, p) <==> AllAccumulate(s, steps, p)
    ensures AllAccumulate(s, steps, p) ==> AddsUp(After(s, steps), p)
    decreases |steps|
  {
    if steps != [] {
      var s1 := Next(s, steps[0]);
      StepKeepsInv(s, steps[0]);
      StepKeepsSumExactly(s, steps[0], p);
      if AddsUp(s1, p) { AccumulationConserves(s1, steps[1..], p); }
    }
  }

  function FreshIssue(node: Address, payer: Address, number: int, amount: Amount, session: Session): Issued {
    var request := CreateRequest(amount, amount, payer, session);
    var t := NewTransaction(node, request);
    Issued(request, Replacing(t.(xdr := Some(NewEnvelope(node, number, payer, amount))), None))
  }

  /** The number a node hands out next. */
  function NextNumber(s: Run): int {
    (if s.node.last == 0 then s.cur else s.node.last) + 1
  }

  lemma FreshCreate(s: Run, payer: Address, amount: Amount, session: Session)
    requires payer !in s.node.active && payer != s.node.address
    ensures
      var n := s.node;
      Next(s, Create(true, CreateRequest(amount, amount, payer, session)))
      == s.(node := n.(last := NextNumber(s)), issued := s.issued
          + [FreshIssue(n.address, payer, NextNumber(s), amount, session)])
  {
  }

  lemma FreshCommit(s: Run, k: nat, payer: Address, number: int, amount: Amount, session: Session)
    requires k < |s.issued| && s.issued[k] == FreshIssue(s.node.address, payer, number, amount, session)
    requires payer != s.node.address && s.cur < number
    ensures
      var s' := Next(s, Commit(k, [payer, s.node.address]));
      && s'.cur == s.cur && s'.issued == s.issued && s'.settled == s.settled
      && s'.accepted == s.accepted + [s.issued[k]] && s'.node.address == s.node.address
      && AcceptedFor(s'.accepted, payer) == AcceptedFor(s.accepted, payer) + amount
      && ActiveAmount(s'.node, payer) == amount
  {
    var both := [payer, s.node.address];
    assert both[0] in both && both[1] in both;
    var s' := Next(s, Commit(k, both));
    assert s'.accepted[..|s'.accepted| - 1] == s.accepted;
  }

  lemma FirstStep(s: Run, step: Step, rest: seq<Step>)
    requires Enabled(s, step) && Allowed(Next(s, step), rest)
    ensures Allowed(s, [step] + rest) && After(s, [step] + rest) == After(Next(s, step), rest)
  {
    assert ([step] + rest)[1..] == rest;
  }

  /** Two payments, both created before either is committed. */
  function TwoPayments(address: Address, payer: Address, a: Session, b: Session): seq<Step> {
    [Create(true, CreateRequest(5, 5, payer, a))]
    + ([Create(true, CreateRequest(7, 7, payer, b))]
       + ([Commit(0, [payer, address])] + ([Commit(1, [payer, address])] + [])))
  }

  /** Without that hypothesis value is lost: when a node that has just started is asked for
      payments of 5 and 7, and both are created before either is committed, only the second
      one is active in the end, and nothing has settled. */
  lemma LostUpdate(address: Address, cur: nat, payer: Address, a: Session, b: Session)
    requires payer != address
    ensures
      var steps := TwoPayments(address, payer, a, b);
      && Allowed(Initial(address, cur), steps)
      && (var s := After(Initial(address, cur), steps);
          && AcceptedFor(s.accepted, payer) == 12
          && SettledFor(s.settled, payer) + ActiveAmount(s.node, payer) == 7)
  {
    var both := [payer, address];
    var s := Initial(address, cur);
    var first, second := Create(true, CreateRequest(5, 5, payer, a)), Create(true, CreateRequest(7, 7, payer, b));
    FreshCreate(s, payer, 5, a);
    var s1 := Next(s, first);
    FreshCreate(s1, payer, 7, b);
    var s2 := Next(s1, second);
    FreshCommit(s2, 0, payer, cur + 1, 5, a);
    var s3 := Next(s2, Commit(0, both));
    FreshCommit(s3, 1, payer, cur + 2, 7, b);
    FirstStep(s3, Commit(1, both), []);
    FirstStep(s2, Commit(0, both), [Commit(1, both)] + []);
    FirstStep(s1, second, [Commit(0, both)] + ([Commit(1, both)] + []));
    FirstStep(s, first, [second] + ([Commit(0, both)] + ([Commit(1, both)] + [])));
  }
}
