/** What the runs of a node look like to its registry: saves and completions, whose effect on the
    two indices is what `Registry` says of such calls. */
module RegistryRuns {
  import opened Types
  import opened NodeModel
  import opened NodeRuns
  import opened Registry

  function Completions(settled: seq<Entry>): seq<Call> {
    if settled == [] then []
    else [Completing(settled[0].tx.payer, settled[0].tx.session)] + Completions(settled[1..])
  }

  /** The calls a step makes to the registry. */
  ghost function CallsOf(s: Run, step: Step): seq<Call>
    requires NodeRuns.Enabled(s, step)
  {
    match step
    case Create(_, _) => []
    case Commit(k, signatures) =>
      var t := Presented(s, k, signatures);
      if NodeModel.Commit(s.node, s.cur, t).1.Ok? then [Saving(Entry(t, t.xdr.value.sequence))] else []
    case Flush(order, bump, fates) => Completions(NodeModel.Flush(s.node, s.cur, order, bump, fates).settled)
  }

  ghost function AllCalls(s: Run, steps: seq<Step>): seq<Call>
    requires Allowed(s, steps)
    decreases |steps|
  {
    if steps == [] then [] else CallsOf(s, steps[0]) + AllCalls(Next(s, steps[0]), steps[1..])
  }

  /** The node's indices are those after the calls. */
  predicate Reflects(n: NodeState, calls: seq<Call>) {
    IndicesAfter(calls) == Indices(n.active, n.sessions)
  }

  lemma OneCall(n: NodeState, n': NodeState, calls: seq<Call>, call: Call)
    requires Reflects(n, calls)
    requires
      match call
      case Saving(e) => n'.active == n.active[e.tx.payer := e] && n'.sessions == n.sessions[e.tx.session := e]
      case Completing(p, x) => n'.active == n.active - {p} && n'.sessions == n.sessions - {x}
    ensures Reflects(n', calls + [call])
  {
    assert (calls + [call])[..|calls + [call]| - 1] == calls;
  }

  lemma Regroup<T>(a: seq<T>, b: seq<T>, c: seq<T>)
    ensures a + b + c == a + (b + c)
  {
  }

  lemma {:induction false} CompletingReflects(n: NodeState, calls: seq<Call>, settled: seq<Entry>)
    requires Reflects(n, calls)
    ensures Reflects(CompleteAll(n, settled), calls + Completions(settled))
    decreases |settled|
  {
    if settled == [] {
      assert calls + [] == calls;
    } else {
      var e := settled[0];
      var call := Completing(e.tx.payer, e.tx.session);
      OneCall(n, Complete(n, e), calls, call);
      CompletingReflects(Complete(n, e), calls + [call], settled[1..]);
      Regroup(calls, [call], Completions(settled[1..]));
    }
  }

  lemma CommitReflects(s: Run, k: nat, signatures: seq<Address>, calls: seq<Call>)
    requires k < |s.issued| && Reflects(s.node, calls)
    ensures Reflects(Next(s, Commit(k, signatures)).node, calls + CallsOf(s, Commit(k, signatures)))
  {
    var t := Presented(s, k, signatures);
    if NodeModel.Commit(s.node, s.cur, t).1.Ok? {
      OneCall(s.node, Next(s, Commit(k, signatures)).node, calls, Saving(Entry(t, t.xdr.value.sequence)));
    } else {
      assert calls + [] == calls;
    }
  }

  lemma StepReflects(s: Run, step: Step, calls: seq<Call>)
    requires NodeRuns.Enabled(s, step) && Reflects(s.node, calls)
    ensures Reflects(Next(s, step).node, calls + CallsOf(s, step))
  {
    match step
    case Create(_, _) => assert calls + [] == calls;
    case Commit(k, signatures) => CommitReflects(s, k, signatures, calls);
    case Flush(order, bump, fates) =>
      CompletingReflects(s.node, calls, NodeModel.Flush(s.node, s.cur, order, bump, fates).settled);
  }

  lemma {:induction false} RunReflects(s: Run, steps: seq<Step>, calls: seq<Call>)
    requires Allowed(s, steps) && Reflects(s.node, calls)
    ensures Reflects(After(s, steps).node, calls + AllCalls(s, steps))
    decreases |steps|
  {
    if steps == [] {
      assert calls + [] == calls;
    } else {
      StepReflects(s, steps[0], calls);
      RunReflects(Next(s, steps[0]), steps[1..], calls + CallsOf(s, steps[0]));
      Regroup(calls, CallsOf(s, steps[0]), AllCalls(Next(s, steps[0]), steps[1..]));
    }
  }

  /** In every run of a node both its indices are those its calls to the registry lead to. */
  lemma RunIndices(address: Address, cur: nat, steps: seq<Step>)
    requires Allowed(Initial(address, cur), steps)
    ensures
      var n := After(Initial(address, cur), steps).node;
      IndicesAfter(AllCalls(Initial(address, cur), steps)) == Indices(n.active, n.sessions)
  {
    RunReflects(Initial(address, cur), steps, []);
    assert [] + AllCalls(Initial(address, cur), steps) == AllCalls(Initial(address, cur), steps);
  }

  /** So a pending transaction of a run is held by the session index if and only if no call since
      the one that saved it is about its session. */
  lemma PendingIsHeldExactly(address: Address, cur: nat, steps: seq<Step>, p: Address) returns (i: nat)
    requires Allowed(Initial(address, cur), steps) && p in After(Initial(address, cur), steps).node.active
    ensures
      var n, calls := After(Initial(address, cur), steps).node, AllCalls(Initial(address, cur), steps);
      var e := n.active[p];
      && LastAbout(calls, p, i) && calls[i] == Saving(e)
      && (e.tx.session in n.sessions && n.sessions[e.tx.session] == e
          <==> forall j | i < j < |calls| :: SessionOf(calls[j]) != e.tx.session)
  {
    var calls := AllCalls(Initial(address, cur), steps);
    RunIndices(address, cur, steps);
    var last := LastAboutExists(calls, p);
    ActiveIsLastSaved(calls, p, last);
    i := last;
    ActiveIsHeldExactly(calls, p, i);
  }
}
