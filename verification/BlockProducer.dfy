/**
  Block production: the greedy fill under resource bounds, the loop that drops failed
  transactions and proposes again, and proof-of-burn turns
  (src/block_production/block_producer.cpp).

  Hashing, signing and the chain's answers are function parameters.
 */
module BlockProducer {
  import opened Options
  import opened Bytes
  import opened Eligibility
  import opened Sequences

  datatype Usage = Usage(disk: nat, network: nat, compute: nat)

  datatype Transaction = Transaction(header: Bytes, signatures: Bytes, rcLimit: nat)

  datatype Pending = Pending(transaction: Transaction, used: Usage, system: Usage)

  datatype Config = Config(maxAttempts: nat, lowerBound: nat, upperBound: nat, approvedProposals: seq<Bytes>)

  datatype Header = Header(previous: Bytes, height: nat, timestamp: nat, stateRoot: Bytes, signer: Bytes,
                           approvedProposals: seq<Bytes>, transactionRoot: Bytes)

  datatype Block = Block(header: Header, transactions: seq<Transaction>, id: Bytes, signature: Bytes)

  function Plus(a: Usage, b: Usage): Usage {
    Usage(a.disk + b.disk, a.network + b.network, a.compute + b.compute)
  }

  predicate AtMost(a: Usage, b: Usage) {
    a.disk <= b.disk && a.network <= b.network && a.compute <= b.compute
  }

  /** A percentage of each limit. */
  function Share(limits: Usage, percent: nat): Usage {
    Usage(limits.disk * percent / 100, limits.network * percent / 100, limits.compute * percent / 100)
  }

  // ---- Subsequences ----------------------------------------------------------

  predicate Increasing(s: seq<nat>) {
    forall i, j :: 0 <= i < j < |s| ==> s[i] < s[j]
  }

  /** The elements of s at the given positions. */
  function Pick<T>(s: seq<T>, at: seq<nat>): (r: seq<T>)
    requires forall i :: 0 <= i < |at| ==> at[i] < |s|
  {
    seq(|at|, i requires 0 <= i < |at| => s[at[i]])
  }

  lemma {:induction false} PickMore<T>(s: seq<T>, at: seq<nat>, n: nat)
    requires n < |s| && forall i :: 0 <= i < |at| ==> at[i] < |s|
    ensures Pick(s, at + [n]) == Pick(s, at) + [s[n]]
  {
  }

  /** The elements of s from position b on whose positions are not in `out`. */
  function KeptFrom<T>(s: seq<T>, out: set<nat>, b: nat): seq<T>
    requires b <= |s|
    decreases |s| - b
  {
    if b == |s| then []
    else if b in out then KeptFrom(s, out, b + 1)
    else [s[b]] + KeptFrom(s, out, b + 1)
  }

  lemma {:induction false} KeptFromRun<T>(s: seq<T>, out: set<nat>, a: nat, b: nat)
    requires a <= b <= |s| && forall i :: a <= i < b ==> i !in out
    ensures KeptFrom(s, out, a) == s[a..b] + KeptFrom(s, out, b)
    decreases b - a
  {
    if a < b {
      KeptFromRun(s, out, a + 1, b);
      assert s[a..b] == [s[a]] + s[a + 1..b];
      Reassociate([s[a]], s[a + 1..b], KeptFrom(s, out, b));
    } else {
      assert s[a..b] + KeptFrom(s, out, b) == KeptFrom(s, out, b);
    }
  }

  /** What was kept is a subsequence: increasing positions, none of them dropped. */
  lemma {:induction false} KeptPositions<T>(s: seq<T>, out: set<nat>, b: nat) returns (at: seq<nat>)
    requires b <= |s|
    ensures Increasing(at) && forall i :: 0 <= i < |at| ==> b <= at[i] < |s| && at[i] !in out
    ensures Pick(s, at) == KeptFrom(s, out, b)
    decreases |s| - b
  {
    if b == |s| {
      at := [];
    } else {
      at := KeptPositions(s, out, b + 1);
      if b !in out {
        PickFront(s, b, at);
        at := [b] + at;
      }
    }
  }

  lemma {:induction false} PickFront<T>(s: seq<T>, b: nat, at: seq<nat>)
    requires b < |s| && Increasing(at) && forall i :: 0 <= i < |at| ==> b < at[i] < |s|
    ensures Increasing([b] + at) && Pick(s, [b] + at) == [s[b]] + Pick(s, at)
  {
    var more := [b] + at;
    forall i, j | 0 <= i < j < |more|
      ensures more[i] < more[j]
    {
      if i > 0 { assert at[i - 1] < at[j - 1]; }
    }
  }

  // ---- Greedy fill -----------------------------------------------------------

  /** The total use of the chosen transactions. */
  function Used(pending: seq<Pending>, chosen: seq<nat>): Usage
    requires forall i :: 0 <= i < |chosen| ==> chosen[i] < |pending|
  {
    if chosen == [] then Usage(0, 0, 0)
    else
      var p := pending[chosen[|chosen| - 1]];
      Plus(Plus(p.used, p.system), Used(pending, chosen[..|chosen| - 1]))
  }

  /** One resource of the chosen transactions, added up. */
  function Total(pending: seq<Pending>, chosen: seq<nat>, amount: Usage -> nat): nat
    requires forall i :: 0 <= i < |chosen| ==> chosen[i] < |pending|
  {
    if chosen == [] then 0
    else
      var p := pending[chosen[|chosen| - 1]];
      Total(pending, chosen[..|chosen| - 1], amount) + amount(p.used) + amount(p.system)
  }

  /** The three resources are counted apart, each with the system's share. */
  lemma {:induction false} UsedTotals(pending: seq<Pending>, chosen: seq<nat>)
    requires forall i :: 0 <= i < |chosen| ==> chosen[i] < |pending|
    ensures Used(pending, chosen).disk == Total(pending, chosen, (u: Usage) => u.disk)
    ensures Used(pending, chosen).network == Total(pending, chosen, (u: Usage) => u.network)
    ensures Used(pending, chosen).compute == Total(pending, chosen, (u: Usage) => u.compute)
    decreases |chosen|
  {
    if chosen != [] { UsedTotals(pending, chosen[..|chosen| - 1]); }
  }

  /** How many of an increasing sequence lie below i. */
  function Below(chosen: seq<nat>, i: nat): (n: nat)
    ensures n <= |chosen|
  {
    if chosen == [] then 0
    else if chosen[|chosen| - 1] < i then |chosen|
    else Below(chosen[..|chosen| - 1], i)
  }

  /** Some count has reached its lower bound. */
  predicate Saturated(u: Usage, lower: Usage) {
    u.disk >= lower.disk || u.network >= lower.network || u.compute >= lower.compute
  }

  /** Adding p to the use so far stays within every upper bound. */
  predicate Fits(p: Pending, u: Usage, upper: Usage) {
    p.transaction.rcLimit != 0 && AtMost(Plus(Plus(p.used, p.system), u), upper)
  }

  /** `chosen` are the positions a greedy pass over the first `n` transactions takes:
      each is taken exactly when it fits on top of those taken before it. */
  ghost predicate GreedySoFar(pending: seq<Pending>, tries: nat, lower: Usage, upper: Usage, chosen: seq<nat>, n: nat)
    requires n <= |pending|
  {
    && Increasing(chosen) && (forall i :: 0 <= i < |chosen| ==> chosen[i] < n)
    && forall i :: 0 <= i < n ==> GreedyAt(pending, tries, lower, upper, chosen, i)
  }

  /** A whole greedy pass: it does not stop early, and it stops for a reason. */
  ghost predicate GreedyFill(pending: seq<Pending>, tries: nat, lower: Usage, upper: Usage, chosen: seq<nat>, stop: nat) {
    && stop <= |pending| && GreedySoFar(pending, tries, lower, upper, chosen, stop)
    && (stop == |pending| || stop >= tries || Saturated(Used(pending, chosen), lower))
  }

  ghost predicate GreedyAt(pending: seq<Pending>, tries: nat, lower: Usage, upper: Usage, chosen: seq<nat>, i: nat)
    requires i < |pending| && forall k :: 0 <= k < |chosen| ==> chosen[k] < |pending|
  {
    var before := Used(pending, chosen[..Below(chosen, i)]);
    && i < tries && !Saturated(before, lower)
    && (i in chosen <==> Fits(pending[i], before, upper))
  }

  lemma {:induction false} BelowAll(chosen: seq<nat>, i: nat)
    requires forall k :: 0 <= k < |chosen| ==> chosen[k] < i
    ensures chosen[..Below(chosen, i)] == chosen
  {
    assert chosen[..|chosen|] == chosen;
  }

  lemma {:induction false} BelowAppend(chosen: seq<nat>, n: nat, i: nat)
    requires i <= n
    ensures Below(chosen + [n], i) == Below(chosen, i)
    ensures (chosen + [n])[..Below(chosen, i)] == chosen[..Below(chosen, i)]
  {
    assert (chosen + [n])[..|chosen|] == chosen;
  }

  lemma {:induction false} GreedyStays(pending: seq<Pending>, tries: nat, lower: Usage, upper: Usage, chosen: seq<nat>, n: nat, i: nat)
    requires i < n < |pending| && (forall k :: 0 <= k < |chosen| ==> chosen[k] < |pending|)
    requires GreedyAt(pending, tries, lower, upper, chosen, i)
    ensures GreedyAt(pending, tries, lower, upper, chosen + [n], i)
  {
    BelowAppend(chosen, n, i);
    assert i in chosen + [n] <==> i in chosen;
  }

  lemma {:induction false} GreedyTakes(pending: seq<Pending>, tries: nat, lower: Usage, upper: Usage, chosen: seq<nat>, n: nat)
    requires n < |pending| && n < tries && (forall k :: 0 <= k < |chosen| ==> chosen[k] < n)
    requires !Saturated(Used(pending, chosen), lower)
    ensures Fits(pending[n], Used(pending, chosen), upper) ==> GreedyAt(pending, tries, lower, upper, chosen + [n], n)
    ensures !Fits(pending[n], Used(pending, chosen), upper) ==> GreedyAt(pending, tries, lower, upper, chosen, n)
  {
    BelowAll(chosen, n);
    BelowAppend(chosen, n, n);
    assert n in chosen + [n] by { assert (chosen + [n])[|chosen|] == n; }
  }

  lemma {:induction false} GreedyGrows(pending: seq<Pending>, tries: nat, lower: Usage, upper: Usage, chosen: seq<nat>, n: nat)
    requires n < |pending| && n < tries && GreedySoFar(pending, tries, lower, upper, chosen, n)
    requires !Saturated(Used(pending, chosen), lower)
    requires Fits(pending[n], Used(pending, chosen), upper)
    ensures GreedySoFar(pending, tries, lower, upper, chosen + [n], n + 1)
  {
    forall i | 0 <= i < n
      ensures GreedyAt(pending, tries, lower, upper, chosen + [n], i)
    {
      GreedyStays(pending, tries, lower, upper, chosen, n, i);
    }
    GreedyTakes(pending, tries, lower, upper, chosen, n);
    IncreasingAppend(chosen, n);
  }

  lemma {:induction false} IncreasingAppend(chosen: seq<nat>, n: nat)
    requires Increasing(chosen) && forall i :: 0 <= i < |chosen| ==> chosen[i] < n
    ensures Increasing(chosen + [n]) && forall i :: 0 <= i < |chosen| + 1 ==> (chosen + [n])[i] < n + 1
  {
  }

  lemma {:induction false} UsedMore(pending: seq<Pending>, chosen: seq<nat>, n: nat)
    requires n < |pending| && forall i :: 0 <= i < |chosen| ==> chosen[i] < |pending|
    ensures Used(pending, chosen + [n]) == Plus(Plus(pending[n].used, pending[n].system), Used(pending, chosen))
  {
    assert (chosen + [n])[..|chosen|] == chosen;
  }

  lemma {:induction false} GreedySkips(pending: seq<Pending>, tries: nat, lower: Usage, upper: Usage, chosen: seq<nat>, n: nat)
    requires n < |pending| && n < tries && GreedySoFar(pending, tries, lower, upper, chosen, n)
    requires !Saturated(Used(pending, chosen), lower)
    requires !Fits(pending[n], Used(pending, chosen), upper)
    ensures GreedySoFar(pending, tries, lower, upper, chosen, n + 1)
  {
    GreedyTakes(pending, tries, lower, upper, chosen, n);
  }

  function Transactions(pending: seq<Pending>): seq<Transaction> {
    seq(|pending|, i requires 0 <= i < |pending| => pending[i].transaction)
  }

  /** fill_block. */
  method FillBlock(pending: seq<Pending>, config: Config, limits: Usage)
    returns (transactions: seq<Transaction>, ghost chosen: seq<nat>, ghost stop: nat)
    ensures GreedyFill(pending, config.maxAttempts, Share(limits, config.lowerBound), Share(limits, config.upperBound), chosen, stop)
    ensures transactions == Pick(Transactions(pending), chosen)
  {
    transactions, chosen, stop := Fill(pending, config.maxAttempts, Share(limits, config.lowerBound), Share(limits, config.upperBound));
  }

  method Fill(pending: seq<Pending>, tries: nat, lower: Usage, upper: Usage)
    returns (transactions: seq<Transaction>, ghost chosen: seq<nat>, ghost stop: nat)
    ensures GreedyFill(pending, tries, lower, upper, chosen, stop)
    ensures transactions == Pick(Transactions(pending), chosen)
  {
    transactions, chosen, stop := [], [], 0;
    var count := Usage(0, 0, 0);
    for i := 0 to |pending|
      invariant stop == i && GreedySoFar(pending, tries, lower, upper, chosen, i)
      invariant count == Used(pending, chosen)
      invariant transactions == Pick(Transactions(pending), chosen)
    {
      if i >= tries || count.disk >= lower.disk || count.network >= lower.network || count.compute >= lower.compute {
        return;
      }
      stop := i + 1;
      var p := pending[i];
      if p.transaction.rcLimit == 0 {
        GreedySkips(pending, tries, lower, upper, chosen, i);
        continue;
      }
      var more := Plus(Plus(p.used, p.system), count);
      if AtMost(more, upper) {
        GreedyGrows(pending, tries, lower, upper, chosen, i);
        UsedMore(pending, chosen, i);
        PickMore(Transactions(pending), chosen, i);
        transactions := transactions + [p.transaction];
        chosen := chosen + [i];
        count := more;
      } else {
        GreedySkips(pending, tries, lower, upper, chosen, i);
      }
    }
  }

  /** The transactions are those of a greedy pass over the pending list, between the
      configured shares of the limits. */
  ghost predicate Filled(pending: seq<Pending>, config: Config, limits: Usage, transactions: seq<Transaction>) {
    exists chosen, stop :: FilledAt(pending, config, limits, transactions, chosen, stop)
  }

  ghost predicate FilledAt(pending: seq<Pending>, config: Config, limits: Usage, transactions: seq<Transaction>, chosen: seq<nat>, stop: nat) {
    && GreedyFill(pending, config.maxAttempts, Share(limits, config.lowerBound), Share(limits, config.upperBound), chosen, stop)
    && transactions == Pick(Transactions(pending), chosen)
  }

  /** A share is the percentage, rounded down. */
  lemma {:induction false} ShareRoundsDown(limits: Usage, percent: nat)
    ensures var r := Share(limits, percent);
      && 100 * r.disk <= limits.disk * percent < 100 * (r.disk + 1)
      && 100 * r.network <= limits.network * percent < 100 * (r.network + 1)
      && 100 * r.compute <= limits.compute * percent < 100 * (r.compute + 1)
  {
  }

  /** A greedy fill has only one result. */
  lemma {:induction false} GreedyUnique(pending: seq<Pending>, tries: nat, lower: Usage, upper: Usage, a: seq<nat>, n: nat, b: seq<nat>, m: nat)
    requires GreedyFill(pending, tries, lower, upper, a, n) && GreedyFill(pending, tries, lower, upper, b, m)
    ensures n == m && a == b
  {
    SameTaken(pending, tries, lower, upper, a, n, b, m, if n <= m then n else m);
    StopsThere(pending, tries, lower, upper, a, n, b, m);
    StopsThere(pending, tries, lower, upper, b, m, a, n);
    BelowAll(a, n);
    BelowAll(b, m);
  }

  /** Two passes agree on what they took below any position both have passed. */
  lemma {:induction false} SameTaken(pending: seq<Pending>, tries: nat, lower: Usage, upper: Usage, a: seq<nat>, n: nat, b: seq<nat>, m: nat, i: nat)
    requires n <= |pending| && m <= |pending| && i <= n && i <= m
    requires GreedySoFar(pending, tries, lower, upper, a, n) && GreedySoFar(pending, tries, lower, upper, b, m)
    ensures a[..Below(a, i)] == b[..Below(b, i)]
    decreases i
  {
    if i == 0 {
      BelowNone(a);
      BelowNone(b);
    } else {
      SameTaken(pending, tries, lower, upper, a, n, b, m, i - 1);
      assert GreedyAt(pending, tries, lower, upper, a, i - 1) && GreedyAt(pending, tries, lower, upper, b, i - 1);
      BelowNext(a, i - 1);
      BelowNext(b, i - 1);
    }
  }

  lemma {:induction false} BelowNone(chosen: seq<nat>)
    ensures Below(chosen, 0) == 0
    decreases |chosen|
  {
    if chosen != [] { BelowNone(chosen[..|chosen| - 1]); }
  }

  lemma {:induction false} BelowNext(chosen: seq<nat>, i: nat)
    requires Increasing(chosen)
    ensures chosen[..Below(chosen, i + 1)] == chosen[..Below(chosen, i)] + (if i in chosen then [i] else [])
    decreases |chosen|
  {
    if chosen != [] {
      var front, last := chosen[..|chosen| - 1], chosen[|chosen| - 1];
      assert chosen == front + [last] && chosen[..|chosen|] == chosen;
      BelowNext(front, i);
      assert front[..Below(front, i)] == chosen[..Below(front, i)] && front[..Below(front, i + 1)] == chosen[..Below(front, i + 1)];
      if last == i {
        BelowAll(front, i);
        assert i in chosen;
      } else if last < i {
        assert i !in chosen;
      } else {
        assert i in chosen <==> i in front;
      }
    }
  }

  lemma {:induction false} GoesOn(pending: seq<Pending>, tries: nat, lower: Usage, upper: Usage, chosen: seq<nat>, n: nat, i: nat)
    requires i < n <= |pending| && GreedySoFar(pending, tries, lower, upper, chosen, n)
    ensures i < tries && !Saturated(Used(pending, chosen[..Below(chosen, i)]), lower)
  {
    assert GreedyAt(pending, tries, lower, upper, chosen, i);
  }

  /** No pass goes on past the stop of another one that took the same. */
  lemma {:induction false} StopsThere(pending: seq<Pending>, tries: nat, lower: Usage, upper: Usage, a: seq<nat>, n: nat, b: seq<nat>, m: nat)
    requires GreedyFill(pending, tries, lower, upper, a, n) && GreedyFill(pending, tries, lower, upper, b, m)
    requires n < m ==> a[..Below(a, n)] == b[..Below(b, n)]
    ensures m <= n
  {
    BelowAll(a, n);
    if n < m { GoesOn(pending, tries, lower, upper, b, m, n); }
  }

  /** A greedy fill stays within all three upper bounds. */
  lemma {:induction false} FillWithinBounds(pending: seq<Pending>, tries: nat, lower: Usage, upper: Usage, chosen: seq<nat>, stop: nat)
    requires GreedyFill(pending, tries, lower, upper, chosen, stop)
    ensures AtMost(Used(pending, chosen), upper)
  {
    if chosen != [] {
      var front, last := chosen[..|chosen| - 1], chosen[|chosen| - 1];
      assert last in chosen;
      assert GreedyAt(pending, tries, lower, upper, chosen, last);
      assert Below(chosen, last) == |front| by { BelowAll(front, last); }
    }
  }

  /** Dropping transactions never raises the use. */
  lemma {:induction false} SubsequenceUsesLess(pending: seq<Pending>, chosen: seq<nat>, at: seq<nat>)
    requires (forall i :: 0 <= i < |chosen| ==> chosen[i] < |pending|) && Increasing(at)
    requires forall i :: 0 <= i < |at| ==> at[i] < |chosen|
    ensures AtMost(Used(pending, Pick(chosen, at)), Used(pending, chosen))
    decreases |chosen|
  {
    if chosen != [] {
      var front, n := chosen[..|chosen| - 1], |chosen| - 1;
      if at != [] && at[|at| - 1] == n {
        var rest := at[..|at| - 1];
        SubsequenceUsesLess(pending, front, rest);
        assert Pick(chosen, at)[..|at| - 1] == Pick(front, rest);
      } else {
        forall i | 0 <= i < |at|
          ensures at[i] < n
        {
          assert i < |at| - 1 ==> at[i] < at[|at| - 1];
        }
        SubsequenceUsesLess(pending, front, at);
        assert Pick(chosen, at) == Pick(front, at);
      }
    }
  }

  // ---- Dropping failed transactions ------------------------------------------

  ghost predicate InRange(failed: seq<nat>, n: nat) {
    Increasing(failed) && forall i :: 0 <= i < |failed| ==> failed[i] < n
  }

  function Members(failed: seq<nat>): set<nat> {
    set i | 0 <= i < |failed| :: failed[i]
  }

  /** DeleteSubrange from the back: exactly the transactions that did not fail stay,
      in order. */
  method DropFailed(transactions: seq<Transaction>, failed: seq<nat>) returns (kept: seq<Transaction>)
    requires InRange(failed, |transactions|)
    ensures kept == KeptFrom(transactions, Members(failed), 0)
    ensures |kept| == |transactions| - |failed|
  {
    kept := transactions;
    var i := |failed|;
    ghost var b := |transactions|;
    ghost var out := Members(failed);
    assert transactions[..b] + KeptFrom(transactions, out, b) == transactions;
    while i > 0
      invariant 0 <= i <= |failed| && b == if i == |failed| then |transactions| else failed[i]
      invariant kept == transactions[..b] + KeptFrom(transactions, out, b)
      invariant |kept| == |transactions| - (|failed| - i)
    {
      i := i - 1;
      var p := failed[i];
      NotFailedBetween(failed, i, |transactions|);
      KeptFromRun(transactions, out, p + 1, b);
      DeleteOne(transactions, p, b, KeptFrom(transactions, out, b));
      kept := kept[..p] + kept[p + 1..];
      b := p;
    }
    if failed != [] { NotFailedBefore(failed); }
    KeptFromRun(transactions, out, 0, b);
  }

  lemma {:induction false} NotFailedBetween(failed: seq<nat>, i: nat, n: nat)
    requires InRange(failed, n) && i < |failed|
    ensures failed[i] in Members(failed)
    ensures var b := if i + 1 == |failed| then n else failed[i + 1];
      failed[i] < b && forall k :: failed[i] < k < b ==> k !in Members(failed)
  {
  }

  lemma {:induction false} NotFailedBefore(failed: seq<nat>)
    requires Increasing(failed) && failed != []
    ensures forall k :: 0 <= k < failed[0] ==> k !in Members(failed)
  {
  }

  lemma {:induction false} DeleteOne<T>(s: seq<T>, p: nat, b: nat, tail: seq<T>)
    requires p < b <= |s|
    ensures var whole := s[..b] + tail;
      whole[..p] + whole[p + 1..] == s[..p] + (s[p + 1..b] + tail)
  {
  }

  // ---- Proposing -------------------------------------------------------------

  /** Hashing and the Merkle tree. */
  datatype Crypto = Crypto(hash: Bytes -> Bytes, hashHeader: Header -> Bytes, merkle: seq<Bytes> -> Bytes)

  /** Two leaves per transaction. */
  function Leaves(hash: Bytes -> Bytes, transactions: seq<Transaction>): seq<Bytes> {
    if transactions == [] then []
    else
      var t := transactions[|transactions| - 1];
      Leaves(hash, transactions[..|transactions| - 1]) + [hash(t.header), hash(t.signatures)]
  }

  lemma {:induction false} LeavesAt(hash: Bytes -> Bytes, transactions: seq<Transaction>, i: nat)
    requires i < |transactions|
    ensures |Leaves(hash, transactions)| == 2 * |transactions|
    ensures Leaves(hash, transactions)[2 * i] == hash(transactions[i].header)
    ensures Leaves(hash, transactions)[2 * i + 1] == hash(transactions[i].signatures)
    decreases |transactions|
  {
    if |transactions| > 1 { LeavesAt(hash, transactions[..|transactions| - 1], if i < |transactions| - 1 then i else 0); }
  }

  predicate RootMatches(c: Crypto, b: Block) {
    b.header.transactionRoot == c.merkle(Leaves(c.hash, b.transactions))
  }

  /** Merkle root, id and signature all match the block's content. */
  predicate Sealed(c: Crypto, sign: Bytes -> Bytes, b: Block) {
    RootMatches(c, b) && b.id == c.hashHeader(b.header) && b.signature == sign(b.id)
  }

  predicate SameHeaderButRoot(a: Header, b: Header) {
    a == b.(transactionRoot := a.transactionRoot)
  }

  method SetMerkleRoot(c: Crypto, b: Block) returns (r: Block)
    ensures RootMatches(c, r) && r.transactions == b.transactions && SameHeaderButRoot(r.header, b.header)
  {
    var leaves := [];
    for i := 0 to |b.transactions|
      invariant leaves == Leaves(c.hash, b.transactions[..i])
    {
      assert b.transactions[..i + 1][..i] == b.transactions[..i];
      var t := b.transactions[i];
      leaves := leaves + [c.hash(t.header), c.hash(t.signatures)];
    }
    assert b.transactions[..|b.transactions|] == b.transactions;
    r := b.(header := b.header.(transactionRoot := c.merkle(leaves)));
  }

  datatype Response = Receipt | Rejected(failed: seq<nat>)

  datatype Status = Produced | NotReady | NotOurTurn | Threw

  /** The chain reports failed positions of the proposed block in ascending order. */
  ghost predicate FairChain(propose: (nat, Block) -> Response) {
    forall k, b :: FairAnswer(propose(k, b), b)
  }

  ghost predicate FairAnswer(r: Response, b: Block) {
    r.Rejected? ==> InRange(r.failed, |b.transactions|)
  }

  /** What one more round changes. */
  ghost predicate NextRound(c: Crypto, r: Response, b: Block, next: Block) {
    && r.Rejected? && r.failed != []
    && next.transactions == KeptFrom(b.transactions, Members(r.failed), 0)
    && SameHeaderButRoot(next.header, b.header) && RootMatches(c, next)
  }

  /** submit_block: true means drop, recompute the root and propose again. */
  method SubmitBlock(c: Crypto, r: Response, b: Block) returns (again: bool, next: Block, status: Status, removed: nat)
    requires FairAnswer(r, b)
    ensures again <==> r.Rejected? && r.failed != []
    ensures again ==> NextRound(c, r, b, next) && removed == |r.failed| > 0 && |next.transactions| == |b.transactions| - removed
    ensures !again ==> next == b && removed == 0 && status == if r.Receipt? then Produced else NotReady
  {
    if r.Receipt? {
      return false, b, Produced, 0;
    }
    if r.failed == [] {
      return false, b, NotReady, 0;
    }
    var kept := DropFailed(b.transactions, r.failed);
    next := SetMerkleRoot(c, b.(transactions := kept));
    return true, next, NotReady, |r.failed|;
  }

  method Seal(c: Crypto, sign: Bytes -> Bytes, b: Block) returns (r: Block)
    requires RootMatches(c, b)
    ensures Sealed(c, sign, r) && r.header == b.header && r.transactions == b.transactions
  {
    var id := c.hashHeader(b.header);
    r := b.(id := id, signature := sign(id));
  }

  /** The proposals of one production attempt: each is sealed, and each follows from
      the one before it. */
  ghost predicate Rounds(c: Crypto, sign: Bytes -> Bytes, propose: (nat, Block) -> Response, proposed: seq<Block>) {
    && (forall k :: 0 <= k < |proposed| ==> Sealed(c, sign, proposed[k]))
    && forall k :: 0 < k < |proposed| ==> NextRound(c, propose(k - 1, proposed[k - 1]), proposed[k - 1], proposed[k])
  }

  /** The resubmit loop. */
  method ProposeUntilSettled(c: Crypto, sign: Bytes -> Bytes, propose: (nat, Block) -> Response, b: Block)
    returns (status: Status, last: Block, removed: nat, ghost proposed: seq<Block>)
    requires Sealed(c, sign, b) && FairChain(propose)
    ensures 1 <= |proposed| <= |b.transactions| + 1 && proposed[0] == b && proposed[|proposed| - 1] == last
    ensures Rounds(c, sign, propose, proposed)
    ensures var answer := propose(|proposed| - 1, last);
      (answer.Receipt? && status == Produced) || (answer == Rejected([]) && status == NotReady)
    ensures removed + |last.transactions| == |b.transactions|
  {
    status, last, removed, proposed := NotReady, b, 0, [b];
    var round := 0;
    var again := true;
    while again
      invariant round + 1 == |proposed| && proposed[0] == b && proposed[round] == last
      invariant Rounds(c, sign, propose, proposed)
      invariant removed + |last.transactions| == |b.transactions| && round <= removed
      invariant !again ==>
        (propose(round, last).Receipt? && status == Produced) || (propose(round, last) == Rejected([]) && status == NotReady)
      decreases |last.transactions|, again
    {
      assert FairAnswer(propose(round, last), last);
      var next: Block, dropped: nat;
      again, next, status, dropped := SubmitBlock(c, propose(round, last), last);
      if again {
        last := Seal(c, sign, next);
        RoundsGrow(c, sign, propose, proposed, last);
        removed, round, proposed := removed + dropped, round + 1, proposed + [last];
      }
    }
  }

  lemma {:induction false} RoundsGrow(c: Crypto, sign: Bytes -> Bytes, propose: (nat, Block) -> Response, proposed: seq<Block>, next: Block)
    requires proposed != [] && Rounds(c, sign, propose, proposed) && Sealed(c, sign, next)
    requires NextRound(c, propose(|proposed| - 1, proposed[|proposed| - 1]), proposed[|proposed| - 1], next)
    ensures Rounds(c, sign, propose, proposed + [next])
  {
  }

  lemma {:induction false} PickPick<T>(s: seq<T>, outer: seq<nat>, inner: seq<nat>)
    requires Increasing(outer) && Increasing(inner)
    requires (forall i :: 0 <= i < |outer| ==> outer[i] < |s|) && forall i :: 0 <= i < |inner| ==> inner[i] < |outer|
    ensures Increasing(Pick(outer, inner)) && forall i :: 0 <= i < |inner| ==> Pick(outer, inner)[i] < |s|
    ensures Pick(Pick(s, outer), inner) == Pick(s, Pick(outer, inner))
  {
  }

  /** Whatever the chain answers, every proposal is a subsequence of the first. */
  lemma {:induction false} RoundsPositions(c: Crypto, sign: Bytes -> Bytes, propose: (nat, Block) -> Response, proposed: seq<Block>, k: nat)
    returns (at: seq<nat>)
    requires Rounds(c, sign, propose, proposed) && k < |proposed|
    ensures Increasing(at) && (forall i :: 0 <= i < |at| ==> at[i] < |proposed[0].transactions|)
    ensures proposed[k].transactions == Pick(proposed[0].transactions, at)
    ensures SameHeaderButRoot(proposed[k].header, proposed[0].header)
  {
    var first := proposed[0].transactions;
    if k == 0 {
      at := seq(|first|, i => i);
    } else {
      var outer := RoundsPositions(c, sign, propose, proposed, k - 1);
      var before := proposed[k - 1].transactions;
      assert NextRound(c, propose(k - 1, proposed[k - 1]), proposed[k - 1], proposed[k]);
      var inner := KeptPositions(before, Members(propose(k - 1, proposed[k - 1]).failed), 0);
      PickPick(first, outer, inner);
      at := Pick(outer, inner);
    }
  }

  datatype HeadInfo = HeadInfo(id: Bytes, height: nat, time: nat, stateRoot: Bytes)

  /** A subsequence of the pending list, within all three upper bounds. */
  ghost predicate DrawnFrom(pending: seq<Pending>, upper: Usage, transactions: seq<Transaction>) {
    exists at :: DrawnAt(pending, upper, transactions, at)
  }

  ghost predicate DrawnAt(pending: seq<Pending>, upper: Usage, transactions: seq<Transaction>, at: seq<nat>) {
    && InRange(at, |pending|) && transactions == Pick(Transactions(pending), at)
    && AtMost(Used(pending, at), upper)
  }

  lemma {:induction false} DrawnSubsequence(pending: seq<Pending>, upper: Usage, transactions: seq<Transaction>, at: seq<nat>)
    requires DrawnFrom(pending, upper, transactions) && InRange(at, |transactions|)
    ensures DrawnFrom(pending, upper, Pick(transactions, at))
  {
    var outer :| DrawnAt(pending, upper, transactions, outer);
    PickPick(Transactions(pending), outer, at);
    SubsequenceUsesLess(pending, outer, at);
    assert DrawnAt(pending, upper, Pick(transactions, at), Pick(outer, at));
  }

  /** next_block. */
  method NextBlock(c: Crypto, head: HeadInfo, now: nat, signer: Bytes, pending: seq<Pending>, config: Config, limits: Usage) returns (b: Block)
    ensures RootMatches(c, b) && DrawnFrom(pending, Share(limits, config.upperBound), b.transactions)
    ensures Filled(pending, config, limits, b.transactions)
    ensures OnHead(b.header, head, now, signer, config)
  {
    var transactions, chosen, stop := FillBlock(pending, config, limits);
    FillWithinBounds(pending, config.maxAttempts, Share(limits, config.lowerBound), Share(limits, config.upperBound), chosen, stop);
    assert DrawnAt(pending, Share(limits, config.upperBound), transactions, chosen);
    assert FilledAt(pending, config, limits, transactions, chosen, stop);
    var time := if now < head.time then head.time else now;
    b := SetMerkleRoot(c, Block(Header(head.id, head.height + 1, time, head.stateRoot, signer, config.approvedProposals, []), transactions, [], []));
  }

  /** produce_federated_once. */
  method ProduceFederated(c: Crypto, sign: Bytes -> Bytes, propose: (nat, Block) -> Response, head: HeadInfo, now: nat, signer: Bytes,
                          pending: seq<Pending>, config: Config, limits: Usage)
    returns (status: Status, last: Block, ghost proposed: seq<Block>)
    requires FairChain(propose)
    ensures 1 <= |proposed| <= |proposed[0].transactions| + 1 && proposed[|proposed| - 1] == last
    ensures Rounds(c, sign, propose, proposed)
    ensures forall k :: 0 <= k < |proposed| ==> DrawnFrom(pending, Share(limits, config.upperBound), proposed[k].transactions)
    ensures Filled(pending, config, limits, proposed[0].transactions)
    ensures forall k :: 0 <= k < |proposed| ==> OnHead(proposed[k].header, head, now, signer, config)
    ensures status == Produced <==> propose(|proposed| - 1, last).Receipt?
  {
    var b := NextBlock(c, head, now, signer, pending, config, limits);
    b := Seal(c, sign, b);
    var removed: nat;
    status, last, removed, proposed := ProposeUntilSettled(c, sign, propose, b);
    forall k | 0 <= k < |proposed|
      ensures DrawnFrom(pending, Share(limits, config.upperBound), proposed[k].transactions)
    {
      var at := RoundsPositions(c, sign, propose, proposed, k);
      DrawnSubsequence(pending, Share(limits, config.upperBound), b.transactions, at);
    }
    forall k | 0 <= k < |proposed|
      ensures OnHead(proposed[k].header, head, now, signer, config)
    {
      var at := RoundsPositions(c, sign, propose, proposed, k);
    }
  }

  /** The header a new block gets. */
  predicate OnHead(h: Header, head: HeadInfo, now: nat, signer: Bytes, config: Config) {
    && h.previous == head.id && h.height == head.height + 1 && h.stateRoot == head.stateRoot
    && h.signer == signer && h.approvedProposals == config.approvedProposals
    && h.timestamp >= head.time && h.timestamp >= now && (h.timestamp == head.time || h.timestamp == now)
  }

  // ---- Proof of burn ---------------------------------------------------------

  datatype Bundle = Bundle(block: Block, seed: Bytes, vhp: nat, difficulty: Bytes, quantum: nat)

  /** The random proof for a seed and a time, and the digest of its hash. */
  datatype Vrf = Vrf(proof: Bytes, digest: Bytes)

  /** The signing key: signatures, random proofs, and the packed signature data. */
  datatype Key = Key(sign: Bytes -> Bytes, prove: (Bytes, nat) -> Vrf, pack: (Vrf, Bytes) -> Bytes)

  function PobSignature(key: Key, vrf: Vrf): Bytes -> Bytes {
    id => key.pack(vrf, key.sign(id))
  }

  ghost predicate Eligible(key: Key, bundle: Bundle) {
    Wins(Value(key.prove(bundle.seed, bundle.quantum).digest) % TWO256 / TWO128, bundle.vhp, Value(bundle.difficulty) % TWO128)
  }

  /** The proposals made with a bundle: each carries the quantum as its time, is sealed
      with the quantum's proof, and the first holds all the bundle's transactions. */
  ghost predicate PobRounds(c: Crypto, key: Key, propose: (nat, Block) -> Response, work: Bundle, proposed: seq<Block>) {
    && Rounds(c, PobSignature(key, key.prove(work.seed, work.quantum)), propose, proposed)
    && 1 <= |proposed| <= |work.block.transactions| + 1 && proposed[0].transactions == work.block.transactions
    && proposed[0].header == work.block.header.(timestamp := work.quantum)
    && forall k :: 0 <= k < |proposed| ==> proposed[k].header.timestamp == work.quantum
  }

  method ProposeBundle(c: Crypto, key: Key, propose: (nat, Block) -> Response, work: Bundle, b: Block)
    returns (status: Status, ghost proposed: seq<Block>)
    requires Sealed(c, PobSignature(key, key.prove(work.seed, work.quantum)), b) && FairChain(propose)
    requires b.transactions == work.block.transactions && b.header == work.block.header.(timestamp := work.quantum)
    ensures PobRounds(c, key, propose, work, proposed)
    ensures status == Produced <==> propose(|proposed| - 1, proposed[|proposed| - 1]).Receipt?
    ensures status == Produced || status == NotReady
  {
    var last: Block, removed: nat;
    status, last, removed, proposed := ProposeUntilSettled(c, PobSignature(key, key.prove(work.seed, work.quantum)), propose, b);
    forall k | 0 <= k < |proposed|
      ensures proposed[k].header.timestamp == work.quantum
    {
      var at := RoundsPositions(c, PobSignature(key, key.prove(work.seed, work.quantum)), propose, proposed, k);
    }
  }

  method LaterTurn(work: Bundle, now: nat, quantumLength: nat) returns (later: Bundle)
    ensures later == work.(quantum := later.quantum) && IsNextQuantum(work.quantum, now, quantumLength, later.quantum)
  {
    var next := NextTimeQuantum(work.quantum, now, quantumLength);
    later := work.(quantum := next);
  }

  /** One attempt with a given bundle, and the bundle it leaves. */
  method TakeTurn(c: Crypto, key: Key, propose: (nat, Block) -> Response, work: Bundle, now: nat, quantumLength: nat)
    returns (status: Status, left: Option<Bundle>, ghost proposed: seq<Block>)
    requires RootMatches(c, work.block) && FairChain(propose)
    ensures status != Threw && (status == NotOurTurn ==> proposed == [])
    ensures status != NotOurTurn <==> work.quantum <= now + 5000 && Eligible(key, work)
    ensures status != NotOurTurn ==> left == None && PobRounds(c, key, propose, work, proposed)
    ensures status == Produced ==> proposed != [] && propose(|proposed| - 1, proposed[|proposed| - 1]).Receipt?
    ensures status == NotOurTurn ==> left.Some? && PutOff(c, work, left.value, now, quantumLength)
  {
    if work.quantum > now + 5000 {
      return NotOurTurn, Some(work), [];
    }
    var vrf := key.prove(work.seed, work.quantum);
    var b := Seal(c, PobSignature(key, vrf), work.block.(header := work.block.header.(timestamp := work.quantum)));
    var met := DifficultyMet(vrf.digest, work.vhp, work.difficulty);
    if !met {
      var later := LaterTurn(work.(block := b), now, quantumLength);
      return NotOurTurn, Some(later), [];
    }
    left := None;
    status, proposed := ProposeBundle(c, key, propose, work, b);
  }

  /** A lost quantum is followed by the next one, on the same transactions and stake; a
      quantum that is not due yet is kept. */
  ghost predicate PutOff(c: Crypto, work: Bundle, left: Bundle, now: nat, quantumLength: nat) {
    && left.block.transactions == work.block.transactions && RootMatches(c, left.block)
    && left.block.header == work.block.header.(timestamp := left.block.header.timestamp)
    && (work.quantum > now + 5000 ==> left == work)
    && left.seed == work.seed && left.vhp == work.vhp && left.difficulty == work.difficulty
    && (work.quantum <= now + 5000 ==> IsNextQuantum(work.quantum, now, quantumLength, left.quantum))
  }

  /** What a producer reads from the chain and the mempool when it builds a bundle. */
  datatype ChainView = ChainView(head: HeadInfo, pending: seq<Pending>, limits: Usage,
                                 seed: Bytes, difficulty: Bytes, vhp: nat, quantumLength: nat)

  /** The block extends the view's head with transactions drawn from its pending list,
      within all three upper bounds. */
  ghost predicate BuiltOn(config: Config, view: ChainView, b: Block) {
    && DrawnFrom(view.pending, Share(view.limits, config.upperBound), b.transactions)
    && b.header.previous == view.head.id && b.header.height == view.head.height + 1 && b.header.stateRoot == view.head.stateRoot
    && b.header.approvedProposals == config.approvedProposals
  }

  /** And the transactions are a whole greedy fill. */
  ghost predicate FullyBuiltOn(config: Config, view: ChainView, b: Block) {
    BuiltOn(config, view, b) && Filled(view.pending, config, view.limits, b.transactions)
  }

  /** The view carries stake and a difficulty to work with. */
  predicate Workable(view: ChainView) {
    view.vhp > 0 && Value(view.difficulty) % TWO128 > 0
  }

  /** next_pob_bundle, or None when it throws. */
  method NextBundle(c: Crypto, config: Config, signer: Bytes, view: ChainView, now: nat) returns (bundle: Option<Bundle>)
    ensures bundle.Some? <==> Workable(view)
    ensures bundle.Some? ==>
      var b := bundle.value;
      && RootMatches(c, b.block) && FullyBuiltOn(config, view, b.block) && OnHead(b.block.header, view.head, now, signer, config)
      && b.seed == view.seed && b.difficulty == view.difficulty && b.vhp == view.vhp
      && IsNextQuantum(b.block.header.timestamp, now, view.quantumLength, b.quantum)
  {
    var block := NextBlock(c, view.head, now, signer, view.pending, config, view.limits);
    var quantum := NextTimeQuantum(block.header.timestamp, now, view.quantumLength);
    if view.vhp == 0 {
      return None;
    }
    var difficulty := DecodeBigEndian(view.difficulty, TWO128, TWO128 / 256);
    if difficulty == 0 {
      return None;
    }
    return Some(Bundle(block, view.seed, view.vhp, view.difficulty, quantum));
  }

  /** Rounds keep a block on its head and within its bounds. */
  lemma {:induction false} RoundsStayBuilt(c: Crypto, key: Key, propose: (nat, Block) -> Response, work: Bundle, proposed: seq<Block>,
                                           config: Config, view: ChainView, k: nat)
    requires PobRounds(c, key, propose, work, proposed) && BuiltOn(config, view, work.block) && k < |proposed|
    ensures BuiltOn(config, view, proposed[k])
  {
    var at := RoundsPositions(c, PobSignature(key, key.prove(work.seed, work.quantum)), propose, proposed, k);
    DrawnSubsequence(view.pending, Share(view.limits, config.upperBound), work.block.transactions, at);
  }

  lemma {:induction false} AllStayBuilt(c: Crypto, key: Key, propose: (nat, Block) -> Response, work: Bundle, proposed: seq<Block>,
                                        config: Config, view: ChainView)
    requires PobRounds(c, key, propose, work, proposed) && BuiltOn(config, view, work.block)
    ensures AllBuiltOn(config, view, proposed)
  {
    forall k | 0 <= k < |proposed|
      ensures BuiltOn(config, view, proposed[k])
    {
      RoundsStayBuilt(c, key, propose, work, proposed, config, view, k);
    }
  }

  ghost predicate AllBuiltOn(config: Config, view: ChainView, proposed: seq<Block>) {
    forall k :: 0 <= k < |proposed| ==> BuiltOn(config, view, proposed[k])
  }

  /** What an attempt with a bundle comes to. */
  ghost predicate TurnOutcome(c: Crypto, key: Key, config: Config, propose: (nat, Block) -> Response, view: ChainView, work: Bundle, now: nat,
                              quantumLength: nat, status: Status, left: Option<Bundle>, proposed: seq<Block>)
  {
    && status != Threw
    // A block is proposed exactly when the quantum is due and its proof wins.
    && (status != NotOurTurn <==> work.quantum <= now + 5000 && Eligible(key, work))
    && (status == NotOurTurn ==> proposed == [] && left.Some? && PutOff(c, work, left.value, now, quantumLength))
    && (status != NotOurTurn ==> left == None && PobRounds(c, key, propose, work, proposed))
    && (status == Produced ==> proposed != [] && propose(|proposed| - 1, proposed[|proposed| - 1]).Receipt?)
    // Every proposal extends the head, within the bounds the bundle was built under, and
    // the first one is a whole greedy fill.
    && AllBuiltOn(config, view, proposed)
    && (proposed != [] ==> FullyBuiltOn(config, view, proposed[0]))
  }

  /** The bundle carries the view's seed, difficulty and stake, and the next quantum. */
  predicate NewBundle(b: Bundle, view: ChainView, now: nat, signer: Bytes) {
    && b.seed == view.seed && b.difficulty == view.difficulty && b.vhp == view.vhp && b.block.header.signer == signer
    && b.block.header.timestamp == (if now < view.head.time then view.head.time else now)
    && IsNextQuantum(b.block.header.timestamp, now, view.quantumLength, b.quantum)
  }

  class PobProducer {
    const crypto: Crypto
    const key: Key
    const config: Config
    const signer: Bytes
    var bundle: Option<Bundle>
    var quantumLength: nat
    /** What the bundle was built from. */
    ghost var origin: ChainView

    ghost predicate Valid()
      reads this
    {
      bundle.Some? ==> RootMatches(crypto, bundle.value.block) && FullyBuiltOn(config, origin, bundle.value.block)
    }

    constructor (crypto: Crypto, key: Key, config: Config, signer: Bytes, view: ChainView)
      ensures Valid() && this.crypto == crypto && this.key == key && this.config == config && this.signer == signer && bundle == None
    {
      this.crypto, this.key, this.config, this.signer := crypto, key, config, signer;
      bundle, quantumLength, origin := None, view.quantumLength, view;
    }

    /** The bundle is kept while the head it was built on is still the head. */
    predicate Keeps(head: Bytes)
      reads this
    {
      bundle.Some? && bundle.value.block.header.previous == head
    }

    /** Before an attempt: the kept bundle, or a new one on the current head. */
    method Refresh(view: ChainView, now: nat) returns (ok: bool)
      requires Valid()
      modifies this
      ensures Valid() && ok == (old(Keeps(view.head.id)) || Workable(view))
      ensures ok ==> Keeps(view.head.id) && origin.head.id == view.head.id
      ensures old(Keeps(view.head.id)) || !ok ==> bundle == old(bundle) && origin == old(origin)
      ensures ok && !old(Keeps(view.head.id)) ==>
        origin == view && NewBundle(bundle.value, view, now, signer) && quantumLength == view.quantumLength
    {
      if Keeps(view.head.id) {
        return true;
      }
      var next := NextBundle(crypto, config, signer, view, now);
      if next.None? {
        return false;
      }
      bundle, quantumLength, origin := next, view.quantumLength, view;
      return true;
    }

    /** produce_pob_once.  `work` is the bundle the attempt worked on. */
    method ProduceOnce(view: ChainView, now: nat, propose: (nat, Block) -> Response)
      returns (status: Status, ghost work: Option<Bundle>, ghost proposed: seq<Block>)
      requires Valid() && FairChain(propose)
      modifies this
      ensures Valid()
      ensures old(Keeps(view.head.id)) ==> work == old(bundle) && origin == old(origin)
      ensures work.None? <==> status == Threw
      ensures !old(Keeps(view.head.id)) && status != Threw ==>
        origin == view && NewBundle(work.value, view, now, signer) && quantumLength == view.quantumLength
      ensures status == Threw <==> !old(Keeps(view.head.id)) && !Workable(view)
      ensures status == Threw ==> bundle == old(bundle) && proposed == []
      ensures work.Some? ==>
        && origin.head.id == view.head.id
        && TurnOutcome(crypto, key, config, propose, origin, work.value, now, quantumLength, status, bundle, proposed)
    {
      var ok := Refresh(view, now);
      if !ok {
        return Threw, None, [];
      }
      work := bundle;
      status, proposed := Attempt(now, propose);
    }

    /** One attempt with the bundle at hand. */
    method Attempt(now: nat, propose: (nat, Block) -> Response) returns (status: Status, ghost proposed: seq<Block>)
      requires Valid() && FairChain(propose) && bundle.Some?
      modifies this`bundle
      ensures Valid() && TurnOutcome(crypto, key, config, propose, origin, old(bundle).value, now, quantumLength, status, bundle, proposed)
    {
      ghost var work := bundle.value;
      status, bundle, proposed := TakeTurn(crypto, key, propose, bundle.value, now, quantumLength);
      if proposed != [] { AllStayBuilt(crypto, key, propose, work, proposed, config, origin); }
    }
  }
}
