/** How much one flush settles, and how many flushes empty a node. */
module Draining {
  import opened Types
  import opened NodeModel
  import opened NodeRuns

  /** The length of the first block of consecutive numbers. */
  function BlockLength(queue: seq<Entry>): (k: nat)
    ensures k <= |queue| && (queue != [] ==> k > 0)
  {
    if |queue| <= 1 then |queue|
    else if queue[1].sequence == queue[0].sequence + 1 then 1 + BlockLength(queue[1..])
    else 1
  }

  /** The number of maximal blocks. */
  function Blocks(queue: seq<Entry>): nat
    decreases |queue|
  {
    if queue == [] then 0 else 1 + Blocks(queue[BlockLength(queue)..])
  }

  predicate AllApplied(fates: seq<Fate>) {
    forall i | 0 <= i < |fates| :: fates[i] == Applied
  }

  /** The block is consecutive, and cannot be extended. */
  lemma {:induction false} BlockIsMaximal(queue: seq<Entry>)
    ensures
      var k := BlockLength(queue);
      && (forall i | 0 <= i < k :: queue[i].sequence == queue[0].sequence + i)
      && (0 < k < |queue| ==> queue[k].sequence != queue[k - 1].sequence + 1)
    decreases |queue|
  {
    if |queue| > 1 && queue[1].sequence == queue[0].sequence + 1 {
      var rest := queue[1..];
      BlockIsMaximal(rest);
      var k := BlockLength(rest);
      assert forall i | 0 <= i < |rest| :: rest[i] == queue[i + 1];
      forall i | 0 <= i < k + 1 ensures queue[i].sequence == queue[0].sequence + i {
        if i > 0 { assert rest[i - 1].sequence == rest[0].sequence + (i - 1); }
      }
    }
  }

  lemma {:induction false} SubmitsOneBlock(cur: int, queue: seq<Entry>, fates: seq<Fate>)
    requires queue != [] && queue[0].sequence == cur + 1 && AllApplied(fates)
    ensures
      var run := SubmitRun(cur, queue, fates);
      run.settled == queue[..BlockLength(queue)] && run.cur == cur + BlockLength(queue)
    decreases |queue|
  {
    var rest := queue[1..];
    var after := SubmitRun(cur + 1, rest, RestFates(fates));
    assert SubmitRun(cur, queue, fates) == Submitted([queue[0]] + after.settled, after.cur);
    if |queue| > 1 && queue[1].sequence == cur + 2 {
      SubmitsOneBlock(cur + 1, rest, RestFates(fates));
      FirstOf(queue, BlockLength(rest));
    } else {
      assert after == Submitted([], cur + 1);
      FirstOf(queue, 0);
    }
  }

  lemma FirstOf(queue: seq<Entry>, k: nat)
    requires k < |queue|
    ensures [queue[0]] + queue[1..][..k] == queue[..1 + k]
  {
  }

  lemma SettlesBlock(n: NodeState, cur: int, order: seq<Entry>, fates: seq<Fate>)
    requires SortedBySequence(order) && AllApplied(fates) && DropStale(order, cur) != []
    ensures
      var queue := DropStale(order, cur);
      var f, k := NodeModel.Flush(n, cur, order, true, fates), BlockLength(queue);
      && f.ok && f.settled == queue[..k] && f.cur == queue[0].sequence + k - 1 == queue[k - 1].sequence
      && f.settled != [] && f.settled[|f.settled| - 1].sequence == f.cur && f.settled <= queue
  {
    var queue := DropStale(order, cur);
    var _ := QueueIsSuffix(order, cur);
    SubmitsOneBlock(BumpedFrom(cur, queue[0].sequence), queue, fates);
    BlockIsMaximal(queue);
  }

  /** A flush whose every usable submission is applied settles and completes exactly the
      first maximal block of what is not stale, leaves every other entry as it was, and
      ends with the account at the last number of the block. */
  lemma FlushSettlesOneBlock(n: NodeState, cur: int, order: seq<Entry>, fates: seq<Fate>)
    requires Lists(order, n.active) && SortedBySequence(order) && Keyed(n.active) && AllApplied(fates)
    requires DropStale(order, cur) != []
    ensures
      var queue := DropStale(order, cur);
      var k := BlockLength(queue);
      var f := NodeModel.Flush(n, cur, order, true, fates);
      && f.ok
      && f.settled == queue[..k]
      && f.cur == queue[0].sequence + k - 1 == queue[k - 1].sequence
      && (k < |queue| ==> queue[k].sequence != f.cur + 1)
      && f.node.active == n.active - PayersOf(queue[..k])
  {
    SettlesBlock(n, cur, order, fates);
    BlockIsMaximal(DropStale(order, cur));
    CompleteAllRemoves(n, NodeModel.Flush(n, cur, order, true, fates).settled);
  }

  /** A strictly sorted list is determined by its elements. */
  lemma {:induction false} SortedListIsUnique(a: seq<Entry>, b: seq<Entry>)
    requires StrictlySorted(a) && StrictlySorted(b)
    requires forall e :: e in a <==> e in b
    ensures a == b
    decreases |a|
  {
    assert b != [] ==> b[0] in b;
    if a != [] {
      assert a[0] in b;
      FirstIsLeast(a, b[0]);
      FirstIsLeast(b, a[0]);
      forall e ensures e in a[1..] <==> e in b[1..] {
        InRest(a, e);
        InRest(b, e);
      }
      SortedListIsUnique(a[1..], b[1..]);
    }
  }

  lemma FirstIsLeast(a: seq<Entry>, e: Entry)
    requires StrictlySorted(a) && e in a
    ensures a[0] == e || a[0].sequence < e.sequence
  {
  }

  lemma InRest(a: seq<Entry>, e: Entry)
    requires StrictlySorted(a) && a != []
    ensures e in a[1..] <==> e in a && e != a[0]
  {
    assert a == [a[0]] + a[1..];
    if e in a[1..] {
      var k :| 0 <= k < |a[1..]| && a[1..][k] == e;
      assert a[k + 1] == e;
    }
  }

  predicate CleanFlush(step: Step) {
    step.Flush? && step.bumpAccepted && AllApplied(step.fates)
  }

  /** The active entries that can still be used, and those that cannot. */
  function Usable(s: Run): map<Address, Entry> {
    map p | p in s.node.active && s.node.active[p].sequence > s.cur :: s.node.active[p]
  }

  function StaleEntries(s: Run): map<Address, Entry> {
    map p | p in s.node.active && s.node.active[p].sequence <= s.cur :: s.node.active[p]
  }

  /** Draining terminates: with no new commits and every usable submission applied, each flush
      takes exactly one block of what can be used away. That many flushes, and no fewer, leave
      exactly the entries that were stale from the start. */
  lemma DrainingTerminates(s: Run, order: seq<Entry>, steps: seq<Step>, order': seq<Entry>)
    requires Inv(s) && Lists(order, s.node.active) && SortedBySequence(order)
    requires Allowed(s, steps) && forall i | 0 <= i < |steps| :: CleanFlush(steps[i])
    requires Lists(order', After(s, steps).node.active) && SortedBySequence(order')
    ensures
      var s', blocks := After(s, steps), Blocks(DropStale(order, s.cur));
      && Blocks(DropStale(order', s'.cur)) == (if |steps| <= blocks then blocks - |steps| else 0)
      && StaleEntries(s') == StaleEntries(s)
      && (|steps| >= blocks <==> s'.node.active == StaleEntries(s))
  {
    QueueListsUsable(s, order);
    var left := Drains(s, DropStale(order, s.cur), StaleEntries(s), steps);
    var s' := After(s, steps);
    QueueListsUsable(s', order');
    SameElements(DropStale(order', s'.cur), left, Usable(s'));
    NothingUsable(s', left);
  }

  lemma NothingUsable(s: Run, queue: seq<Entry>)
    requires Lists(queue, Usable(s))
    ensures Blocks(queue) == 0 <==> s.node.active == StaleEntries(s)
  {
    if queue != [] {
      assert queue[0].tx.payer in Usable(s) && queue[0].tx.payer !in StaleEntries(s);
    } else {
      forall p | p in s.node.active ensures p in StaleEntries(s) {
        assert p !in Usable(s);
      }
    }
  }

  lemma SameElements(a: seq<Entry>, b: seq<Entry>, active: map<Address, Entry>)
    requires Lists(a, active) && Lists(b, active) && StrictlySorted(a) && StrictlySorted(b)
    ensures a == b
  {
    forall e ensures e in a <==> e in b {
      if e in a { assert active[e.tx.payer] == e; }
      if e in b { assert active[e.tx.payer] == e; }
    }
    SortedListIsUnique(a, b);
  }

  /** What a flush submits is what can be used. */
  lemma QueueListsUsable(s: Run, order: seq<Entry>)
    requires Inv(s) && Lists(order, s.node.active) && SortedBySequence(order)
    ensures Lists(DropStale(order, s.cur), Usable(s)) && StrictlySorted(DropStale(order, s.cur))
  {
    ListingIsStrict(s, order);
    var k := QueueIsSuffix(order, s.cur);
    SuffixSorted(order, k);
    var queue := order[k..];
    forall i | 0 <= i < |queue| ensures queue[i].tx.payer in Usable(s) && Usable(s)[queue[i].tx.payer] == queue[i] {
      assert queue[i] == order[k + i];
    }
    forall p | p in Usable(s) ensures Usable(s)[p] in queue {
      var i :| 0 <= i < |order| && order[i] == s.node.active[p];
      assert queue[i - k] == order[i];
    }
  }

  /** `queue` lists what can be used, and the rest is `stale`. */
  ghost predicate Queued(s: Run, queue: seq<Entry>, stale: map<Address, Entry>) {
    Inv(s) && Lists(queue, Usable(s)) && StrictlySorted(queue) && StaleEntries(s) == stale
  }

  ghost predicate Clean(s: Run, steps: seq<Step>) {
    Allowed(s, steps) && forall i | 0 <= i < |steps| :: CleanFlush(steps[i])
  }

  lemma {:induction false} Drains(s: Run, queue: seq<Entry>, stale: map<Address, Entry>, steps: seq<Step>)
    returns (left: seq<Entry>)
    requires Queued(s, queue, stale) && Clean(s, steps)
    ensures Queued(After(s, steps), left, stale)
    ensures Blocks(left) == if |steps| <= Blocks(queue) then Blocks(queue) - |steps| else 0
    decreases |steps|
  {
    left := queue;
    if steps != [] {
      CleanOn(s, steps);
      left := DrainsOnce(s, queue, stale, steps[0]);
      left := Drains(Next(s, steps[0]), left, stale, steps[1..]);
    }
  }

  lemma CleanOn(s: Run, steps: seq<Step>)
    requires Clean(s, steps) && steps != []
    ensures CleanFlush(steps[0]) && Enabled(s, steps[0]) && Clean(Next(s, steps[0]), steps[1..])
  {
  }

  lemma DrainsOnce(s: Run, queue: seq<Entry>, stale: map<Address, Entry>, step: Step) returns (rest: seq<Entry>)
    requires Queued(s, queue, stale) && CleanFlush(step) && Enabled(s, step)
    ensures Queued(Next(s, step), rest, stale)
    ensures Blocks(rest) == if queue == [] then 0 else Blocks(queue) - 1
  {
    QueueListsUsable(s, step.order);
    SameElements(DropStale(step.order, s.cur), queue, Usable(s));
    StepKeepsInv(s, step);
    CleanFlushLeaves(s, queue, step);
    rest := queue[BlockLength(queue)..];
  }

  /** A clean flush takes the first block of the queue, and nothing goes stale. */
  lemma CleanFlushLeaves(s: Run, queue: seq<Entry>, step: Step)
    requires Inv(s) && CleanFlush(step) && Enabled(s, step) && queue == DropStale(step.order, s.cur)
    requires Lists(queue, Usable(s)) && StrictlySorted(queue)
    ensures
      var s', rest := Next(s, step), queue[BlockLength(queue)..];
      Lists(rest, Usable(s')) && StrictlySorted(rest) && StaleEntries(s') == StaleEntries(s)
  {
    var s', k := Next(s, step), BlockLength(queue);
    SuffixSorted(queue, k);
    CleanFlushSplits(s, queue, step);
    RestOfListing(Usable(s), Usable(s'), queue, k);
  }

  lemma CleanFlushSplits(s: Run, queue: seq<Entry>, step: Step)
    requires Inv(s) && CleanFlush(step) && Enabled(s, step) && queue == DropStale(step.order, s.cur)
    ensures
      var s', block := Next(s, step), queue[..BlockLength(queue)];
      && (forall p :: p in Usable(s') <==> p in Usable(s) && Usable(s)[p] !in block)
      && (forall p | p in Usable(s') :: Usable(s')[p] == Usable(s)[p])
      && StaleEntries(s') == StaleEntries(s)
  {
    var s' := Next(s, step);
    assert NodeModel.Flush(s.node, s.cur, step.order, true, step.fates).settled == queue[..BlockLength(queue)] by {
      if queue != [] { FlushSettlesOneBlock(s.node, s.cur, step.order, step.fates); }
    }
    forall p { EntryAfter(s, step, p); }
  }

  /** What becomes of `p`'s entry. */
  lemma EntryAfter(s: Run, step: Step, p: Address)
    requires Inv(s) && CleanFlush(step) && Enabled(s, step)
    ensures
      var s', settled := Next(s, step), NodeModel.Flush(s.node, s.cur, step.order, true, step.fates).settled;
      && (p in Usable(s') <==> p in Usable(s) && Usable(s)[p] !in settled)
      && (p in Usable(s') ==> Usable(s')[p] == Usable(s)[p])
      && (p in StaleEntries(s') <==> p in StaleEntries(s))
      && (p in StaleEntries(s') ==> StaleEntries(s')[p] == StaleEntries(s)[p])
  {
    FlushRemoves(s.node, s.cur, step.order, true, step.fates);
    if p in s.node.active {
      if s.node.active[p].sequence <= s.cur {
        StaleStays(s.node, s.cur, step.order, true, step.fates, p);
      } else {
        ListingIsStrict(s, step.order);
        FlushLeavesNoneStale(s.node, s.cur, step.order, true, step.fates, s.node.active[p]);
      }
    }
  }

  /** A sorted list splits into two parts without common entries. */
  lemma SplitSorted(order: seq<Entry>, k: nat, e: Entry)
    requires StrictlySorted(order) && k <= |order|
    ensures e in order <==> e in order[..k] || e in order[k..]
    ensures !(e in order[..k] && e in order[k..])
  {
    assert order == order[..k] + order[k..];
    if e in order[k..] {
      var i :| 0 <= i < |order[k..]| && order[k..][i] == e;
      assert order[k + i] == e;
      assert forall j | 0 <= j < k :: order[..k][j] == order[j] && order[j].sequence < e.sequence;
    }
  }

  lemma RestOfListing(active: map<Address, Entry>, left: map<Address, Entry>, order: seq<Entry>, k: nat)
    requires k <= |order| && Lists(order, active) && StrictlySorted(order)
    requires forall p :: p in left <==> p in active && active[p] !in order[..k]
    requires forall p | p in left :: left[p] == active[p]
    ensures Lists(order[k..], left)
  {
    var rest := order[k..];
    forall i | 0 <= i < |rest| ensures rest[i].tx.payer in left && left[rest[i].tx.payer] == rest[i] {
      assert order[k + i] == rest[i];
      SplitSorted(order, k, rest[i]);
    }
    forall p | p in left ensures left[p] in rest {
      SplitSorted(order, k, left[p]);
    }
  }
}
