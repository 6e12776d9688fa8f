/** What a node answers to a command, said of what it is sent and of what it holds: exactly when
    it refuses, with which error, and what has changed in either case. */
module NodeAnswers {
  import opened Types
  import opened NodeModel
  import Amounts

  // ----- Create -----

  /** A pending transaction that a new one for the same payer can be merged with. */
  predicate Mergeable(n: NodeState, payer: Address) {
    payer in n.active ==>
      var t := n.active[payer].tx;
      t.xdr.Some? && t.payee == n.address && t.payer == payer
  }

  /** A node creates a transaction exactly when the payer has an account, is another node, and
      what is pending for it can be merged with. It never touches its indices, and hands out a
      number exactly when nothing is pending for the payer. */
  lemma CreatesExactly(n: NodeState, cur: int, known: bool, request: CreateRequest)
    ensures
      var (n', made) := Create(n, cur, known, request);
      && (made.Ok? <==> known && request.payer != n.address && Mergeable(n, request.payer))
      && n' == n.(last := n'.last)
      && (!known ==> n'.last == n.last)
      && (known && request.payer !in n.active ==> n'.last == (if n.last == 0 then cur else n.last) + 1)
      && (known && request.payer in n.active ==> n'.last == n.last || (n.last == 0 && n'.last == cur))
  {
  }

  /** Which error a refusal gives. */
  lemma CreateRefuses(n: NodeState, cur: int, known: bool, request: CreateRequest)
    ensures
      var made := Create(n, cur, known, request).1;
      && (!known && Mergeable(n, request.payer) ==> made == Err(UnknownAccount))
      && (known && Mergeable(n, request.payer) && request.payer == n.address ==> made == Err(SelfPayment))
      && (request.payer in n.active ==>
            var t := n.active[request.payer].tx;
            && (t.xdr.Some? && t.payee != n.address ==> made == Err(PayeeMismatch))
            && (t.xdr.Some? && t.payee == n.address && t.payer != request.payer ==> made == Err(PayerMismatch))
            && (t.xdr.None? ==> made == Err(if known then UnreadableEnvelope else UnknownAccount)))
  {
  }

  /** What it creates: a transaction between the two, for the session it was asked for, over the
      amounts asked for on top of those pending, unsigned, under the number handed out or the one
      pending. */
  lemma CreatedTransaction(n: NodeState, cur: int, request: CreateRequest)
    requires request.payer != n.address && Mergeable(n, request.payer)
    ensures
      var (n', made) := Create(n, cur, true, request);
      && made.Ok?
      && made.value.reference
         == (if request.payer in n.active then Some(n.active[request.payer].tx) else None)
      && (var t := made.value.pending;
          && t.payer == request.payer && t.payee == t.source == n.address && t.session == request.session
          && t.amountIn == (ActiveAmount(n, request.payer) + request.totalIn) % U32
          && t.amountOut == (ActiveOut(n, request.payer) + request.totalOut) % U32
          && t.xdr == Some(Envelope(
               n.address,
               if request.payer in n.active then n.active[request.payer].tx.xdr.value.sequence else n'.last,
               request.payer, n.address, 10_000 * t.amountIn, [])))
  {
    AddIsModulo(ActiveAmount(n, request.payer), request.totalIn);
    AddIsModulo(ActiveOut(n, request.payer), request.totalOut);
  }

  lemma AddIsModulo(a: Amount, b: Amount)
    ensures Add(a, b) == (a + b) % U32 && Sub(a, b) == (a - b) % U32
    ensures Add(0, b) == b && (0 + b) % U32 == b
  {
  }

  // ----- Sign -----

  /** `r` with one more signature. */
  predicate Countersigned(r: Replacing, signed: Replacing, signer: Address) {
    && r.pending.xdr.Some? && signed.pending.xdr.Some?
    && signed.reference == r.reference
    && signed.pending.xdr.value.signatures == r.pending.xdr.value.signatures + [signer]
    && signed.pending.xdr.value.(signatures := []) == r.pending.xdr.value.(signatures := [])
    && signed.pending.(xdr := None) == r.pending.(xdr := None)
  }

  /** A service signs exactly what it is to receive itself, and changes nothing else in it. */
  lemma ServiceSignsExactly(signer: Address, r: Replacing)
    ensures
      var signed := SignService(signer, r);
      && (signed.Ok? <==> r.pending.payee == signer && r.pending.xdr.Some?)
      && (signed.Ok? ==> Countersigned(r, signed.value, signer))
      && (r.pending.payee != signer ==> signed == Err(PayeeMismatch))
      && (r.pending.payee == signer && r.pending.xdr.None? ==> signed == Err(UnreadableEnvelope))
  {
  }

  /** A node on the chain signs any two readable transactions, whoever they concern; it ends
      over any other. */
  lemma ChainSignsAnything(signer: Address, credit: Replacing, debit: Replacing)
    ensures
      var signed := SignPair(signer, credit, debit);
      && (signed.Ok? <==> credit.pending.xdr.Some? && debit.pending.xdr.Some?)
      && (signed.Ok? ==> Countersigned(credit, signed.value.0, signer) && Countersigned(debit, signed.value.1, signer))
      && (signed.Err? ==> signed.error == NodeEnded)
  {
  }

  // ----- Commit -----

  /** A node accepts exactly what is sourced by it under a number above its account's and signed
      by the payer, who is someone else, and by itself. Then this is the entry of the payer and
      of the session; otherwise nothing changes. */
  lemma CommitsExactly(n: NodeState, cur: int, t: Transaction)
    ensures
      var (n', result) := Commit(n, cur, t);
      && (result == Ok(()) <==>
            && t.xdr.Some?
            && t.xdr.value.source == n.address && t.xdr.value.sequence > cur
            && t.xdr.value.payer in t.xdr.value.signatures && n.address in t.xdr.value.signatures
            && t.xdr.value.payer != n.address)
      && (result.Err? ==> n' == n)
      && (result.Ok? ==>
            var e := Entry(t, t.xdr.value.sequence);
            && n'.active == n.active[t.payer := e] && n'.sessions == n.sessions[t.session := e]
            && n'.address == n.address && n'.last == n.last && n'.pending == n.pending)
  {
  }

  /** Which error a refusal gives. */
  lemma CommitRefuses(n: NodeState, cur: int, t: Transaction)
    ensures
      var result := Commit(n, cur, t).1;
      && (t.xdr.None? ==> result == Err(UnreadableEnvelope))
      && (t.xdr.Some? ==>
            var e := t.xdr.value;
            && (e.sequence <= cur ==> result == Err(StaleSequence))
            && (e.sequence > cur && e.source != n.address ==> result == Err(WrongSource))
            && (e.sequence > cur && e.source == n.address && e.payer !in e.signatures
                ==> result == Err(MissingPayerSignature))
            && (e.sequence > cur && e.source == n.address && e.payer in e.signatures
                && (e.payer == n.address || n.address !in e.signatures)
                ==> result == Err(MissingSourceSignature)))
  {
  }

  /** The service's commit saves the same, and fails over an unknown session; a known one is
      reduced by the transaction's `AmountOut`, and leaves at 0. */
  lemma ServiceCommitsExactly(n: NodeState, cur: int, t: Transaction, session: Session)
    ensures
      var (saved, accepted) := Commit(n, cur, t);
      var (n', result) := CommitService(n, cur, t, session);
      && n' == saved.(pending := n'.pending)
      && (accepted.Err? ==> result == accepted && n' == n)
      && (accepted.Ok? ==> result == if session in n.pending then Ok(()) else Err(UnknownSession))
      && (result.Err? ==> n'.pending == n.pending)
      && (result.Ok? ==>
            var left := (n.pending[session] - t.amountOut) % U32;
            n'.pending == if left == 0 then n.pending - {session} else n.pending[session := left])
  {
    if session in n.pending { AddIsModulo(n.pending[session], t.amountOut); }
  }

  /** A payment request adds to what its session expects, modulo 2^32, and to nothing else. */
  lemma RequestAdds(n: NodeState, session: Session, amount: Amount)
    ensures
      var n', expected := AddUsage(n, session, amount), if session in n.pending then n.pending[session] else 0;
      && n' == n.(pending := n'.pending)
      && n'.pending == n.pending[session := (expected + amount) % U32]
  {
    if session in n.pending { AddIsModulo(n.pending[session], amount); } else { AddIsModulo(0, amount); }
  }

  // ----- Flush -----

  function FateAt(fates: seq<Fate>, i: nat): Fate {
    if i < |fates| then fates[i] else Applied
  }

  /** The `i`-th submission carries the number right after those before it, and is applied. */
  predicate GoesThrough(cur: int, queue: seq<Entry>, fates: seq<Fate>, i: nat)
    requires i < |queue|
  {
    queue[i].sequence == cur + 1 + i && FateAt(fates, i) == Applied
  }

  /** Starting after `cur`, exactly the longest part of the queue that goes through has settled;
      the account's number has advanced by that many, and by one more if the next submission was
      in turn but its number used up in vain. */
  predicate LongestPart(cur: int, queue: seq<Entry>, fates: seq<Fate>, run: Submitted) {
    var k := |run.settled|;
    && k <= |queue| && run.settled == queue[..k]
    && (forall i | 0 <= i < k :: GoesThrough(cur, queue, fates, i))
    && (k < |queue| ==> !GoesThrough(cur, queue, fates, k))
    && run.cur == cur + k
         + if k < |queue| && queue[k].sequence == cur + 1 + k && FateAt(fates, k) == Consumed then 1 else 0
  }

  lemma OneMoreThrough(cur: int, queue: seq<Entry>, fates: seq<Fate>, later: Submitted)
    requires queue != [] && GoesThrough(cur, queue, fates, 0)
    requires LongestPart(cur + 1, queue[1..], RestFates(fates), later)
    ensures LongestPart(cur, queue, fates, Submitted([queue[0]] + later.settled, later.cur))
  {
    var rest, k := queue[1..], |later.settled|;
    forall i | 0 <= i < |rest|
      ensures GoesThrough(cur + 1, rest, RestFates(fates), i) <==> GoesThrough(cur, queue, fates, i + 1)
      ensures rest[i] == queue[i + 1]
    {
    }
    forall i | 0 <= i < k + 1 ensures GoesThrough(cur, queue, fates, i) {
      if i > 0 { assert GoesThrough(cur + 1, rest, RestFates(fates), i - 1); }
    }
  }

  /** That is what the submission loop does. */
  lemma {:induction false} SubmitsExactly(cur: int, queue: seq<Entry>, fates: seq<Fate>)
    ensures LongestPart(cur, queue, fates, SubmitRun(cur, queue, fates))
    decreases |queue|
  {
    if queue != [] && GoesThrough(cur, queue, fates, 0) {
      SubmitsExactly(cur + 1, queue[1..], RestFates(fates));
      OneMoreThrough(cur, queue, fates, SubmitRun(cur + 1, queue[1..], RestFates(fates)));
    }
  }

  /** A flush fails exactly when the first number it could use is not the account's next, and
      the bump is refused; then it has done nothing. */
  lemma FlushFailsExactly(n: NodeState, cur: int, order: seq<Entry>, bump: bool, fates: seq<Fate>)
    requires SortedBySequence(order)
    ensures
      var f := Flush(n, cur, order, bump, fates);
      && (!f.ok <==> !bump && AnyLeft(order, cur) && forall e | e in order && e.sequence > cur :: e.sequence > cur + 1)
      && (!f.ok ==> f.node == n && f.cur == cur && f.settled == [])
  {
    var k := QueueIsSuffix(order, cur);
    if k < |order| {
      assert order[k..][0] == order[k] && order[k] in order;
      forall e | e in order && e.sequence > cur ensures e.sequence >= order[k].sequence {
        var i :| 0 <= i < |order| && order[i] == e;
      }
    }
  }

  /** Something listed is not stale. */
  predicate AnyLeft(order: seq<Entry>, cur: int) {
    exists e :: e in order && e.sequence > cur
  }

  /** What a flush that does not fail settles: nothing if all is stale; otherwise the longest part
      of what is not that goes through, counting from just below its first number if there is a
      gap. Exactly the payers and sessions of what has settled leave the indices. */
  lemma FlushSettlesExactly(n: NodeState, cur: int, order: seq<Entry>, bump: bool, fates: seq<Fate>)
    requires SortedBySequence(order) && Flush(n, cur, order, bump, fates).ok
    ensures
      var f, queue := Flush(n, cur, order, bump, fates), Fresh(order, cur);
      && f.node == n.(active := n.active - PayersOf(f.settled), sessions := n.sessions - SessionsOf(f.settled))
      && (if queue == [] then f.settled == [] && f.cur == cur
          else LongestPart(if queue[0].sequence > cur + 1 then queue[0].sequence - 1 else cur, queue, fates,
                           Submitted(f.settled, f.cur)))
  {
    DropStaleIsFilter(order, cur);
    FlushRuns(n, cur, order, bump, fates);
    CompleteAllRemoves(n, Flush(n, cur, order, bump, fates).settled);
  }

  lemma FlushRuns(n: NodeState, cur: int, order: seq<Entry>, bump: bool, fates: seq<Fate>)
    requires Flush(n, cur, order, bump, fates).ok
    ensures
      var f, queue := Flush(n, cur, order, bump, fates), DropStale(order, cur);
      && f.node == CompleteAll(n, f.settled)
      && (if queue == [] then f.settled == [] && f.cur == cur
          else LongestPart(BumpedFrom(cur, queue[0].sequence), queue, fates, Submitted(f.settled, f.cur)))
  {
    var queue := DropStale(order, cur);
    if queue != [] { SubmitsExactly(BumpedFrom(cur, queue[0].sequence), queue, fates); }
  }
}
