/** A number used up in vain: which payers it leaves stuck, and that exactly these stay so. */
module StuckPayers {
  import opened Types
  import opened NodeModel
  import opened NodeRuns
  import opened NodeLaws

  /** `p`'s active entry, and all that was ever created for `p`, is at or below the
      account's number. */
  ghost predicate Stuck(s: Run, p: Address) {
    && p in s.node.active
    && s.node.active[p].sequence <= s.cur
    && NothingNewer(s, p, s.cur)
  }

  predicate NothingNewer(s: Run, p: Address, number: int) {
    forall i | 0 <= i < |s.issued| && s.issued[i].request.payer == p :: NumberOf(s.issued[i].made.pending) <= number
  }

  /** Between `s` and `s'` a payment by `p` was accepted, or an entry of `p` settled. */
  ghost predicate Progress(s: Run, s': Run, p: Address) {
    || (exists i :: |s.accepted| <= i < |s'.accepted| && s'.accepted[i].request.payer == p)
    || (exists i :: |s.settled| <= i < |s'.settled| && s'.settled[i].tx.payer == p)
  }

  lemma StuckStep(s: Run, step: Step, p: Address)
    requires Inv(s) && Enabled(s, step) && Stuck(s, p)
    ensures
      var s' := Next(s, step);
      Stuck(s', p) && s'.node.active[p] == s.node.active[p] && !Progress(s, s', p)
  {
    match step
    case Create(known, request) => StuckCreate(s, known, request, p);
    case Commit(k, signatures) => StuckCommit(s, k, signatures, p);
    case Flush(order, bump, fates) => StuckFlush(s, order, bump, fates, p);
  }

  lemma StuckCreate(s: Run, known: bool, request: CreateRequest, p: Address)
    requires Inv(s) && Stuck(s, p)
    ensures
      var s' := Next(s, Create(known, request));
      Stuck(s', p) && s'.node.active == s.node.active && s'.accepted == s.accepted && s'.settled == s.settled
  {
    CreateOutcome(s, known, request);
  }

  lemma StuckCommit(s: Run, k: nat, signatures: seq<Address>, p: Address)
    requires Inv(s) && Stuck(s, p) && k < |s.issued|
    ensures
      var s' := Next(s, Commit(k, signatures));
      Stuck(s', p) && s'.node.active[p] == s.node.active[p] && !Progress(s, s', p)
  {
    assert WellMade(s.node, s.issued[k]);
  }

  lemma StuckFlush(s: Run, order: seq<Entry>, bump: bool, fates: seq<Fate>, p: Address)
    requires Keyed(s.node.active) && Enabled(s, Flush(order, bump, fates)) && Stuck(s, p)
    ensures
      var s' := Next(s, Flush(order, bump, fates));
      Stuck(s', p) && s'.node.active[p] == s.node.active[p] && !Progress(s, s', p)
  {
    StaleStays(s.node, s.cur, order, bump, fates, p);
  }

  lemma NoProgressTwice(s: Run, s1: Run, s2: Run, p: Address)
    requires s.accepted <= s1.accepted <= s2.accepted && s.settled <= s1.settled <= s2.settled
    requires !Progress(s, s1, p) && !Progress(s1, s2, p)
    ensures !Progress(s, s2, p)
  {
    forall i | |s.accepted| <= i < |s2.accepted| ensures s2.accepted[i].request.payer != p {
      if i < |s1.accepted| { assert s1.accepted[i] == s2.accepted[i]; }
    }
    forall i | |s.settled| <= i < |s2.settled| ensures s2.settled[i].tx.payer != p {
      if i < |s1.settled| { assert s1.settled[i] == s2.settled[i]; }
    }
  }

  /** A stuck payer stays so in every run: its entry never leaves the active index, none of
      its payments is accepted, and nothing of it settles any more. */
  lemma {:induction false} StuckForever(s: Run, steps: seq<Step>, p: Address)
    requires Inv(s) && Allowed(s, steps) && Stuck(s, p)
    ensures
      var s' := After(s, steps);
      Stuck(s', p) && s'.node.active[p] == s.node.active[p] && !Progress(s, s', p)
    decreases |steps|
  {
    if steps != [] {
      var s1 := Next(s, steps[0]);
      StepKeepsInv(s, steps[0]);
      StuckStep(s, steps[0], p);
      StuckForever(s1, steps[1..], p);
      NextGrows(s, steps[0]);
      HistoryGrows(s1, steps[1..]);
      NoProgressTwice(s, s1, After(s1, steps[1..]), p);
    }
  }

  /** Any other active payer can go on at once: a transaction created for it is still
      accepted when both have signed it. */
  lemma OthersGoOn(s: Run, p: Address) returns (k: nat)
    requires Inv(s) && p in s.node.active && !Stuck(s, p)
    ensures k < |s.issued| && s.issued[k].request.payer == p
    ensures Progress(s, Next(s, Commit(k, [p, s.node.address])), p)
  {
    var both := [p, s.node.address];
    assert both[0] in both && both[1] in both;
    if s.cur < s.node.active[p].sequence {
      k :| k < |s.issued| && SameBody(s.node.active[p].tx, s.issued[k].made.pending);
    } else {
      k :| k < |s.issued| && s.issued[k].request.payer == p && NumberOf(s.issued[k].made.pending) > s.cur;
    }
    assert WellMade(s.node, s.issued[k]);
    var s' := Next(s, Commit(k, both));
    assert s'.accepted[|s.accepted|] == s.issued[k];
  }

  /** An active payer is stuck if and only if no run whatsoever gets a payment of it
      accepted, or an entry of it settled. */
  lemma StuckExactly(s: Run, p: Address)
    requires Inv(s) && p in s.node.active
    ensures Stuck(s, p) <==> forall steps | Allowed(s, steps) :: !Progress(s, After(s, steps), p)
  {
    if Stuck(s, p) {
      forall steps | Allowed(s, steps) ensures !Progress(s, After(s, steps), p) {
        StuckForever(s, steps, p);
      }
    } else {
      var k := OthersGoOn(s, p);
      var step := Commit(k, [p, s.node.address]);
      FirstStep(s, step, []);
      assert Allowed(s, [step] + []) && After(s, [step] + []) == Next(s, step);
    }
  }

  /** What a flush leaves unsettled is stuck exactly when nothing created for its payer is
      above the number the account has then. */
  lemma UnsettledIsStuck(s: Run, order: seq<Entry>, bump: bool, fates: seq<Fate>, e: Entry)
    requires Inv(s) && Enabled(s, Flush(order, bump, fates)) && e in order
    requires e !in NodeModel.Flush(s.node, s.cur, order, bump, fates).settled
    ensures
      var s' := Next(s, Flush(order, bump, fates));
      Stuck(s', e.tx.payer) <==> NothingNewer(s, e.tx.payer, s'.cur)
  {
    var s' := Next(s, Flush(order, bump, fates));
    FlushRemoves(s.node, s.cur, order, bump, fates);
    assert s.node.active[e.tx.payer] == e;
    var k :| 0 <= k < |s.issued| && SameBody(e.tx, s.issued[k].made.pending);
    assert WellMade(s.node, s.issued[k]);
  }

  /** Where nothing was stale, what a flush leaves unsettled and stale carries the last number
      it used, which was used up in vain. */
  lemma StaleIsUsedInVain(s: Run, order: seq<Entry>, bump: bool, fates: seq<Fate>, e: Entry)
    requires Inv(s) && NothingStale(s) && Enabled(s, Flush(order, bump, fates)) && e in order
    requires
      var f := NodeModel.Flush(s.node, s.cur, order, bump, fates);
      e !in f.settled && e.sequence <= f.cur
    ensures e.sequence == NodeModel.Flush(s.node, s.cur, order, bump, fates).cur && Consumed in fates
  {
    ListingIsStrict(s, order);
    assert s.node.active[e.tx.payer] == e;
    if Consumed !in fates { FlushLeavesNoneStale(s.node, s.cur, order, bump, fates, e); }
    var i := QueueHolds(order, s.cur, e);
    StaleInQueue(s.cur, DropStale(order, s.cur), fates, i);
  }
}
