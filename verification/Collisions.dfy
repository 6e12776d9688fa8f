/** When a number can settle for one payer while it stays active for another: exactly when two
    payers' active entries that are not stale share a number. */
module Collisions {
  import opened Types
  import opened NodeModel
  import opened NodeRuns
  import NodeLaws
  import Draining

  predicate OnlyFlushes(steps: seq<Step>) {
    forall i | 0 <= i < |steps| :: steps[i].Flush?
  }

  /** No number that can still be used is active for two payers. */
  ghost predicate NumbersDiffer(s: Run) {
    forall p, q | p in s.node.active && q in s.node.active && p != q && s.node.active[p].sequence > s.cur ::
      s.node.active[p].sequence != s.node.active[q].sequence
  }

  /** Entries sit in their payers' slots, numbers have settled in order, and none is active. */
  ghost predicate Settling(s: Run) {
    Keyed(s.node.active) && SettledInOrder(s) && NoDoubleSettlement(s)
  }

  ghost predicate FlushesAreSafe(s: Run) {
    forall steps | Allowed(s, steps) && OnlyFlushes(steps) :: NoDoubleSettlement(After(s, steps))
  }

  lemma FlushKeepsKeyed(s: Run, step: Step)
    requires Keyed(s.node.active) && Enabled(s, step) && step.Flush?
    ensures Keyed(Next(s, step).node.active) && Next(s, step).node.active.Keys <= s.node.active.Keys
    ensures forall p | p in Next(s, step).node.active :: Next(s, step).node.active[p] == s.node.active[p]
  {
    FlushRemoves(s.node, s.cur, step.order, step.bumpAccepted, step.fates);
  }

  /** What has just settled for one payer is not active for another. */
  lemma FlushedDiffers(s: Run, step: Step, e: Entry, p: Address)
    requires Settling(s) && NumbersDiffer(s) && Enabled(s, step) && step.Flush?
    requires e in Next(s, step).settled && p in Next(s, step).node.active
    ensures e.sequence != Next(s, step).node.active[p].sequence
  {
    var f := NodeModel.Flush(s.node, s.cur, step.order, step.bumpAccepted, step.fates);
    FlushRemoves(s.node, s.cur, step.order, step.bumpAccepted, step.fates);
    if e in s.settled {
      var i :| 0 <= i < |s.settled| && s.settled[i] == e;
    } else {
      FlushNumbers(s.node, s.cur, step.order, step.bumpAccepted, step.fates);
      var i :| 0 <= i < |f.settled| && f.settled[i] == e;
    }
  }

  lemma FlushKeepsDiffering(s: Run, step: Step)
    requires Settling(s) && NumbersDiffer(s) && Enabled(s, step) && step.Flush?
    ensures Settling(Next(s, step)) && NumbersDiffer(Next(s, step))
  {
    var s' := Next(s, step);
    FlushKeepsKeyed(s, step);
    FlushKeepsOrder(s, step.order, step.bumpAccepted, step.fates);
    assert s.cur <= s'.cur by { FlushNumbers(s.node, s.cur, step.order, step.bumpAccepted, step.fates); }
    forall i, p | 0 <= i < |s'.settled| && p in s'.node.active
      ensures s'.settled[i].sequence != s'.node.active[p].sequence
    {
      FlushedDiffers(s, step, s'.settled[i], p);
    }
  }

  lemma {:induction false} FlushesKeepDiffering(s: Run, steps: seq<Step>)
    requires Settling(s) && NumbersDiffer(s) && Allowed(s, steps) && OnlyFlushes(steps)
    ensures NoDoubleSettlement(After(s, steps))
    decreases |steps|
  {
    if steps != [] {
      FlushKeepsDiffering(s, steps[0]);
      FlushesKeepDiffering(Next(s, steps[0]), steps[1..]);
    }
  }

  // ----- A shared number comes to light -----

  /** A usable entry is in the queue. */
  lemma InQueue(order: seq<Entry>, cur: int, e: Entry)
    requires SortedBySequence(order) && e in order && e.sequence > cur
    ensures e in DropStale(order, cur)
  {
    var k := QueueIsSuffix(order, cur);
    var i :| 0 <= i < |order| && order[i] == e;
    assert order[k..][i - k] == e;
  }

  lemma BlockComesFirst(order: seq<Entry>, cur: int, k: nat, e: Entry)
    requires SortedBySequence(order) && 0 < k <= |DropStale(order, cur)|
    requires e in DropStale(order, cur) && e !in DropStale(order, cur)[..k]
    ensures e.sequence >= DropStale(order, cur)[k - 1].sequence
  {
    DropStaleIsFilter(order, cur);
    var i :| 0 <= i < |DropStale(order, cur)| && DropStale(order, cur)[i] == e;
  }

  /** `e` has settled, or is active for `p` with a number not below the account's. */
  predicate SettledOrLeft(f: Flushed, p: Address, e: Entry) {
    e in f.settled || (p in f.node.active && f.node.active[p] == e && e.sequence >= f.cur)
  }

  lemma SettledOrActive(n: NodeState, cur: int, order: seq<Entry>, p: Address)
    requires Keyed(n.active) && Lists(order, n.active) && SortedBySequence(order) && p in n.active
    ensures
      var f := NodeModel.Flush(n, cur, order, true, []);
      n.active[p] in f.settled || (p in f.node.active && f.node.active[p] == n.active[p])
  {
    FlushRemoves(n, cur, order, true, []);
  }

  /** What is settled ends with the account's new number. */
  predicate SettledInTurn(f: Flushed) {
    f.settled != [] && f.settled[|f.settled| - 1].sequence == f.cur && StrictlySorted(f.settled)
  }

  lemma SettledStrictly(n: NodeState, cur: int, order: seq<Entry>)
    requires SortedBySequence(order)
    ensures StrictlySorted(NodeModel.Flush(n, cur, order, true, []).settled)
  {
    FlushNumbers(n, cur, order, true, []);
  }

  lemma SettledInBlock(n: NodeState, cur: int, order: seq<Entry>)
    requires Keyed(n.active) && Lists(order, n.active) && SortedBySequence(order) && DropStale(order, cur) != []
    ensures SettledInTurn(NodeModel.Flush(n, cur, order, true, []))
    ensures NodeModel.Flush(n, cur, order, true, []).settled <= DropStale(order, cur)
  {
    SettledStrictly(n, cur, order);
    Draining.SettlesBlock(n, cur, order, []);
  }

  /** A clean flush ends with a number that it has settled, and leaves no usable entry below. */
  lemma CleanFlushUses(n: NodeState, cur: int, order: seq<Entry>, p: Address)
    requires Keyed(n.active) && Lists(order, n.active) && SortedBySequence(order)
    requires p in n.active && n.active[p].sequence > cur
    ensures SettledInTurn(NodeModel.Flush(n, cur, order, true, []))
    ensures SettledOrLeft(NodeModel.Flush(n, cur, order, true, []), p, n.active[p])
  {
    InQueue(order, cur, n.active[p]);
    SettledInBlock(n, cur, order);
    SettledOrActive(n, cur, order, p);
    LeftBehind(NodeModel.Flush(n, cur, order, true, []), order, cur, n.active[p]);
  }

  lemma LeftBehind(f: Flushed, order: seq<Entry>, cur: int, e: Entry)
    requires SortedBySequence(order) && SettledInTurn(f) && f.settled <= DropStale(order, cur)
    requires e in DropStale(order, cur)
    ensures e in f.settled || e.sequence >= f.cur
  {
    if e !in f.settled { BlockComesFirst(order, cur, |f.settled|, e); }
  }

  /** `p` and `q` share a number that can still be used. */
  ghost predicate Shared(s: Run, p: Address, q: Address) {
    && p in s.node.active && q in s.node.active && p != q
    && s.cur < s.node.active[p].sequence == s.node.active[q].sequence
  }

  lemma SettledAndActive(s: Run, e: Entry, p: Address)
    requires e in s.settled && p in s.node.active && e.sequence == s.node.active[p].sequence
    ensures !NoDoubleSettlement(s)
  {
    var i :| 0 <= i < |s.settled| && s.settled[i] == e;
  }

  lemma SettledOnce(settled: seq<Entry>, e: Entry, g: Entry)
    requires StrictlySorted(settled) && e in settled && g in settled && e.sequence == g.sequence
    ensures e == g
  {
  }

  lemma SharedLater(s: Run, s': Run, f: Flushed, p: Address, q: Address)
    requires Keyed(s.node.active) && Shared(s, p, q) && SettledInTurn(f)
    requires s'.node == f.node && s'.cur == f.cur && s'.settled == s.settled + f.settled
    requires SettledOrLeft(f, p, s.node.active[p]) && SettledOrLeft(f, q, s.node.active[q])
    requires NoDoubleSettlement(s')
    ensures Shared(s', p, q)
  {
    var e, g := s.node.active[p], s.node.active[q];
    if e in f.settled {
      if g in f.settled { SettledOnce(f.settled, e, g); } else { SettledAndActive(s', e, q); }
    } else if g in f.settled {
      SettledAndActive(s', g, p);
    } else if e.sequence == f.cur {
      SettledAndActive(s', f.settled[|f.settled| - 1], p);
    }
  }

  /** After a clean flush a number shared by `p` and `q` is settled and active, or still shared
      and usable. */
  lemma SharedAfterFlush(s: Run, order: seq<Entry>, p: Address, q: Address)
    requires Settling(s) && Enabled(s, Flush(order, true, [])) && Shared(s, p, q)
    ensures
      var s' := Next(s, Flush(order, true, []));
      NoDoubleSettlement(s') ==> Shared(s', p, q)
  {
    var s', f := Next(s, Flush(order, true, [])), NodeModel.Flush(s.node, s.cur, order, true, []);
    CleanFlushUses(s.node, s.cur, order, p);
    CleanFlushUses(s.node, s.cur, order, q);
    if NoDoubleSettlement(s') { SharedLater(s, s', f, p, q); }
  }

  lemma CleanFlushProceeds(s: Run, order: seq<Entry>, p: Address)
    requires Settling(s) && Enabled(s, Flush(order, true, []))
    requires p in s.node.active && s.node.active[p].sequence > s.cur
    ensures
      var s' := Next(s, Flush(order, true, []));
      Keyed(s'.node.active) && SettledInOrder(s') && s'.node.active.Keys < s.node.active.Keys
  {
    FlushKeepsKeyed(s, Flush(order, true, []));
    FlushKeepsOrder(s, order, true, []);
    CleanFlushUses(s.node, s.cur, order, p);
    FlushRemoves(s.node, s.cur, order, true, []);
    var f := NodeModel.Flush(s.node, s.cur, order, true, []);
    assert f.settled[0] in f.settled;
  }

  lemma CleanFlushStep(s: Run, p: Address, q: Address) returns (step: Step)
    requires Settling(s) && Shared(s, p, q)
    ensures Enabled(s, step) && step.Flush?
    ensures
      var s' := Next(s, step);
      && Keyed(s'.node.active) && SettledInOrder(s') && s'.node.active.Keys < s.node.active.Keys
      && (NoDoubleSettlement(s') ==> Shared(s', p, q))
  {
    var order := SortedListing(s.node.active);
    CleanFlushProceeds(s, order, p);
    SharedAfterFlush(s, order, p, q);
    step := Flush(order, true, []);
  }

  /** Some flushes bring a shared number to light. */
  lemma {:induction false} CollisionSurfaces(s: Run, p: Address, q: Address) returns (steps: seq<Step>)
    requires Settling(s) && Shared(s, p, q)
    ensures Allowed(s, steps) && OnlyFlushes(steps) && !NoDoubleSettlement(After(s, steps))
    decreases s.node.active.Keys
  {
    var step := CleanFlushStep(s, p, q);
    var rest: seq<Step> := [];
    if NoDoubleSettlement(Next(s, step)) { rest := CollisionSurfaces(Next(s, step), p, q); }
    NodeLaws.FirstStep(s, step, rest);
    steps := [step] + rest;
  }

  /** Whatever the ledger does, no flushes leave a number settled and active, if and only if no
      number that can still be used is active for two payers. */
  lemma FlushesSafeExactly(s: Run)
    requires Settling(s)
    ensures FlushesAreSafe(s) <==> NumbersDiffer(s)
  {
    if NumbersDiffer(s) {
      forall steps | Allowed(s, steps) && OnlyFlushes(steps) ensures NoDoubleSettlement(After(s, steps)) {
        FlushesKeepDiffering(s, steps);
      }
    } else {
      var p, q :| p in s.node.active && q in s.node.active && p != q && s.node.active[p].sequence > s.cur
          && s.node.active[p].sequence == s.node.active[q].sequence;
      var steps := CollisionSurfaces(s, p, q);
    }
  }
}
