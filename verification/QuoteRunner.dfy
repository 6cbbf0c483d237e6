/** Quote attempts under a shared budget, with a queue of requests that failures may extend. */
module QuoteRunner {
  import opened Outcomes

  const REQUEST_ERROR_ATTEMPT_LIMIT := 2

  datatype Status = Pass | Partial | Unsupported | NeedsKey | RateLimited | BudgetExhausted | NoLiquidity | Error | Fail

  datatype PairResult = PairResult(status: Status, requestUrl: Option<string>, attemptCount: Option<nat>, detail: string)

  datatype Request = Request(url: string, discoversAfterFailure: bool)

  /** What an attempt meets: the primary result, and the results of the follow-up requests an
      evidence hook makes, each of which needs budget of its own. */
  datatype Reply = Reply(primary: PairResult, followUps: seq<PairResult>)

  /** What may still be attempted; an adapter without a maximum has no budget at all. */
  datatype Allowance = Unlimited | Limited(left: nat)

  predicate Has(a: Allowance) { a.Unlimited? || a.left > 0 }

  function Less(a: Allowance, n: nat): Allowance
    requires a.Limited? ==> n <= a.left
  {
    if a.Unlimited? then a else Limited(a.left - n)
  }

  class QuoteAttemptBudget {
    var remaining: int

    constructor (maxQuoteRequestsPerRun: int)
      ensures remaining == maxQuoteRequestsPerRun
    {
      remaining := maxQuoteRequestsPerRun;
    }
  }

  function AllowanceOf(remaining: int): Allowance { Limited(if remaining < 0 then 0 else remaining) }

  ghost function Left(budget: QuoteAttemptBudget?): Allowance
    reads budget
  {
    if budget == null then Unlimited else AllowanceOf(budget.remaining)
  }

  method ConsumeQuoteAttempt(budget: QuoteAttemptBudget?) returns (ok: bool)
    modifies budget
    ensures ok == old(Has(Left(budget)))
    ensures Left(budget) == if ok then Less(old(Left(budget)), 1) else old(Left(budget))
  {
    if budget == null { return true; }
    if budget.remaining <= 0 { return false; }
    budget.remaining := budget.remaining - 1;
    ok := true;
  }

  method HasQuoteAttempt(budget: QuoteAttemptBudget?) returns (has: bool)
    ensures has == Has(Left(budget))
  {
    has := budget == null || budget.remaining > 0;
  }

  function SkippedResult(status: Status, detail: string): PairResult {
    PairResult(status, None, None, detail)
  }

  function QuoteBudgetExhaustedResult(attemptCount: nat): PairResult {
    SkippedResult(BudgetExhausted, "Adapter quote-attempt budget exhausted.").(attemptCount := Some(attemptCount))
  }

  function FallbackPriority(s: Status): nat {
    match s
    case Fail => 6
    case NoLiquidity => 5
    case Unsupported => 4
    case Error => 3
    case BudgetExhausted => 2
    case RateLimited => 2
    case NeedsKey => 1
    case Partial => 0
    case Pass => 0
  }

  function BetterFallback(current: Option<PairResult>, candidate: PairResult): PairResult {
    if current.None? then candidate
    else if FallbackPriority(candidate.status) >= FallbackPriority(current.value.status) then candidate else current.value
  }

  predicate TerminalStatus(s: Status) { s == NeedsKey || s == RateLimited || s == BudgetExhausted }

  predicate RequestErrored(r: PairResult) { r.status == Error && r.requestUrl.Some? }

  // ---------------------------------------------------------------- what a list of attempts means

  function ErrorsIn(attempts: seq<PairResult>): nat {
    if attempts == [] then 0 else ErrorsIn(attempts[..|attempts| - 1]) + (if attempts[|attempts| - 1].status == Error && attempts[|attempts| - 1].requestUrl.Some? then 1 else 0)
  }

  /** None of the attempts ended the loop: no success, no missing key, no limit, one request error at most. */
  ghost predicate Inconclusive(attempts: seq<PairResult>) {
    && (forall r :: r in attempts ==> r.status in {Partial, Unsupported, NoLiquidity, Error, Fail})
    && ErrorsIn(attempts) < 2
  }

  /** The last attempt, and no earlier one, ended the loop. */
  ghost predicate EndedByLast(attempts: seq<PairResult>) {
    && attempts != [] && Inconclusive(attempts[..|attempts| - 1])
    && var last := attempts[|attempts| - 1];
       last.status in {Pass, NeedsKey, RateLimited, BudgetExhausted} || (last.status == Error && last.requestUrl.Some? && ErrorsIn(attempts) >= 2)
  }

  /** Which of two failures says more about the pair: a quoted failure, then no liquidity, no support,
      an error, a limit, a missing key; successes do not count as fallbacks. */
  predicate Outranks(a: Status, b: Status) {
    match a
    case Fail => b != Fail
    case NoLiquidity => b !in {Fail, NoLiquidity}
    case Unsupported => b !in {Fail, NoLiquidity, Unsupported}
    case Error => b in {BudgetExhausted, RateLimited, NeedsKey, Partial, Pass}
    case BudgetExhausted => b in {NeedsKey, Partial, Pass}
    case RateLimited => b in {NeedsKey, Partial, Pass}
    case NeedsKey => b in {Partial, Pass}
    case Partial => false
    case Pass => false
  }

  lemma PriorityMeans(a: Status, b: Status)
    ensures FallbackPriority(a) > FallbackPriority(b) <==> Outranks(a, b)
  {
  }

  /** None of the attempts says more, and no later one as much. */
  ghost predicate IsBest(attempts: seq<PairResult>, r: PairResult) {
    exists i :: 0 <= i < |attempts| && attempts[i] == r
      && (forall j :: 0 <= j < |attempts| ==> !Outranks(attempts[j].status, r.status))
      && (forall j :: i < j < |attempts| ==> Outranks(r.status, attempts[j].status))
  }

  lemma BestGrows(attempts: seq<PairResult>, fallback: Option<PairResult>, r: PairResult)
    requires BestSoFar(attempts, fallback)
    ensures BestSoFar(attempts + [r], Some(BetterFallback(fallback, r)))
  {
    hide FallbackPriority, Outranks;
    var all := attempts + [r];
    forall a, b ensures FallbackPriority(a) > FallbackPriority(b) <==> Outranks(a, b) { PriorityMeans(a, b); }
    if fallback.None? || FallbackPriority(r.status) >= FallbackPriority(fallback.value.status) {
      assert all[|attempts|] == r;
    } else {
      var i :| 0 <= i < |attempts| && attempts[i] == fallback.value
        && (forall j :: 0 <= j < |attempts| ==> !Outranks(attempts[j].status, fallback.value.status))
        && (forall j :: i < j < |attempts| ==> Outranks(fallback.value.status, attempts[j].status));
      assert all[i] == fallback.value;
    }
  }

  // ---------------------------------------------------------------- the run of one pair

  /** An answer with its follow-ups: the last of them that the budget still covers decides. */
  function AttemptResult(reply: Reply, left: Allowance): PairResult {
    if reply.followUps == [] then reply.primary
    else if left.Unlimited? || left.left >= |reply.followUps| then reply.followUps[|reply.followUps| - 1]
    else QuoteBudgetExhaustedResult(0)
  }

  function AttemptUses(reply: Reply, left: Allowance): nat {
    if left.Limited? && left.left < |reply.followUps| then left.left else |reply.followUps|
  }

  /** The answers and the discoveries are functions of the attempt's number and request. */
  datatype Service = Service(respond: (nat, Request) -> Reply, discover: (nat, Request) -> seq<Request>)

  datatype Play = Play(queue: seq<Request>, attempts: seq<PairResult>, followUps: nat, left: Allowance)

  /** One more attempt: it takes one from the budget, its follow-ups theirs, and what it discovers
      joins the queue as long as something is left. */
  function Next(p: Play, service: Service): Play
    requires |p.attempts| < |p.queue| && Has(p.left)
  {
    var i := |p.attempts|;
    var reply := service.respond(i, p.queue[i]);
    var used := AttemptUses(reply, Less(p.left, 1));
    var left := Less(Less(p.left, 1), used);
    Play(p.queue + (if p.queue[i].discoversAfterFailure && Has(left) then service.discover(i, p.queue[i]) else []),
         p.attempts + [AttemptResult(reply, Less(p.left, 1)).(attemptCount := Some(i + 1))], p.followUps + used, left)
  }

  ghost function PlayOf(requests: seq<Request>, service: Service, budget: Allowance, n: nat): Play {
    if n == 0 then Play(requests, [], 0, budget)
    else
      var p := PlayOf(requests, service, budget, n - 1);
      if |p.attempts| < |p.queue| && Has(p.left) then Next(p, service) else p
  }

  /** Where the loop stops, and with what: the last attempt settled it, the budget ran out with
      requests to go, or the queue drained and the best attempt stands. */
  ghost predicate Explains(result: PairResult, p: Play) {
    if EndedByLast(p.attempts) then result == p.attempts[|p.attempts| - 1]
    else
      && Inconclusive(p.attempts)
      && (if !Has(p.left) && (p.attempts == [] || |p.attempts| < |p.queue|) then result == QuoteBudgetExhaustedResult(|p.attempts|)
          else if p.attempts == [] then p.queue == [] && result == SkippedResult(Error, "No quote requests built.")
          else |p.attempts| == |p.queue| && exists best :: IsBest(p.attempts, best) && result == best.(attemptCount := Some(|p.attempts|)))
  }

  ghost predicate Stops(result: PairResult, requests: seq<Request>, service: Service, budget: Allowance, n: nat) {
    var p := PlayOf(requests, service, budget, n);
    |p.attempts| == n && Explains(result, p)
  }

  /** What is spent and what is left add up. */
  predicate Spends(before: Allowance, spent: nat, after: Allowance) {
    match before
    case Unlimited => after == Unlimited
    case Limited(budget) => after.Limited? && spent + after.left == budget
  }

  /** Nothing is spent but attempts and follow-ups, and never more than the budget. */
  lemma {:induction false} PlaySpends(requests: seq<Request>, service: Service, budget: Allowance, n: nat)
    ensures
      var p := PlayOf(requests, service, budget, n);
      Spends(budget, |p.attempts| + p.followUps, p.left) && |p.attempts| <= n && |p.attempts| <= |p.queue| && requests <= p.queue
  {
    if n > 0 { PlaySpends(requests, service, budget, n - 1); }
  }

  lemma {:induction false} PlayGrows(requests: seq<Request>, service: Service, budget: Allowance, m: nat, n: nat)
    requires m <= n
    ensures PlayOf(requests, service, budget, m).attempts <= PlayOf(requests, service, budget, n).attempts
    ensures |PlayOf(requests, service, budget, m).attempts| < m ==> PlayOf(requests, service, budget, n) == PlayOf(requests, service, budget, m)
    decreases n
  {
    hide Next;
    if m < n {
      PlayGrows(requests, service, budget, m, n - 1);
      NextAttempts(PlayOf(requests, service, budget, n - 1), service);
      if m > 0 { PlayGrows(requests, service, budget, m - 1, m); }
      PlayStuck(requests, service, budget, m, n - 1);
    }
  }

  lemma NextAttempts(p: Play, service: Service)
    ensures |p.attempts| < |p.queue| && Has(p.left) ==> p.attempts <= Next(p, service).attempts && |Next(p, service).attempts| == |p.attempts| + 1
  {
  }

  /** A play that has stopped stays where it is. */
  lemma {:induction false} PlayStuck(requests: seq<Request>, service: Service, budget: Allowance, m: nat, n: nat)
    requires m <= n
    ensures
      var p := PlayOf(requests, service, budget, m);
      |p.attempts| < m || !(|p.attempts| < |p.queue| && Has(p.left)) ==>
        PlayOf(requests, service, budget, n) == p && !(|p.attempts| < |p.queue| && Has(p.left))
    decreases n, m
  {
    hide Next;
    var p := PlayOf(requests, service, budget, m);
    if |p.attempts| < m {
      var q := PlayOf(requests, service, budget, m - 1);
      PlayStuck(requests, service, budget, m - 1, m - 1);
      PlaySpends(requests, service, budget, m - 1);
      NextAttempts(q, service);
    }
    if m < n { PlayStuck(requests, service, budget, m, n - 1); }
  }

  /** The requests, the service and the budget determine the result. */
  lemma ResultIsDetermined(a: PairResult, b: PairResult, requests: seq<Request>, service: Service, budget: Allowance, m: nat, n: nat)
    requires Stops(a, requests, service, budget, m) && Stops(b, requests, service, budget, n)
    ensures m == n && a == b
    decreases m > n
  {
    if m > n {
      ResultIsDetermined(b, a, requests, service, budget, n, m);
      return;
    }
    hide TerminalStatus, RequestErrored, ErrorsIn, Next, PlayOf, FallbackPriority;
    var p, q := PlayOf(requests, service, budget, m), PlayOf(requests, service, budget, n);
    PlayGrows(requests, service, budget, m, n);
    PlayStuck(requests, service, budget, m, n);
    PlaySpends(requests, service, budget, m);
    if m < n && EndedByLast(p.attempts) { NotConclusiveBefore(p.attempts, q.attempts); }
    if m == n && !EndedByLast(p.attempts) && p.attempts != [] && |p.attempts| == |p.queue| {
      var best :| IsBest(p.attempts, best) && a == best.(attemptCount := Some(m));
      var other :| IsBest(p.attempts, other) && b == other.(attemptCount := Some(m));
      BestIsOne(p.attempts, best, other);
    }
  }

  /** An attempt that ends the loop is the last one. */
  lemma {:induction false} NotConclusiveBefore(attempts: seq<PairResult>, more: seq<PairResult>)
    requires EndedByLast(attempts) && attempts <= more && |attempts| < |more|
    ensures !EndedByLast(more) && !Inconclusive(more)
    decreases |more|
  {
    hide TerminalStatus, RequestErrored;
    var last := attempts[|attempts| - 1];
    assert last in more;
    var init := more[..|more| - 1];
    assert last == init[|attempts| - 1];
    if |init| > |attempts| {
      NotConclusiveBefore(attempts, init);
    } else {
      assert init == attempts;
    }
  }

  lemma BestIsOne(attempts: seq<PairResult>, a: PairResult, b: PairResult)
    requires IsBest(attempts, a) && IsBest(attempts, b)
    ensures a == b
  {
    hide FallbackPriority;
  }

  // ---------------------------------------------------------------- the code for one pair

  /** The evidence hook stops at the first follow-up the budget refuses. */
  method FetchAndEvaluateAttempt(reply: Reply, budget: QuoteAttemptBudget?) returns (result: PairResult)
    modifies budget
    ensures result == AttemptResult(reply, old(Left(budget)))
    ensures Left(budget) == Less(old(Left(budget)), AttemptUses(reply, old(Left(budget))))
  {
    result := reply.primary;
    for i := 0 to |reply.followUps|
      invariant old(Left(budget)).Limited? ==> i <= old(Left(budget)).left
      invariant Left(budget) == Less(old(Left(budget)), i)
      invariant result == if i == 0 then reply.primary else reply.followUps[i - 1]
    {
      var ok := ConsumeQuoteAttempt(budget);
      if !ok { return QuoteBudgetExhaustedResult(0); }
      result := reply.followUps[i];
    }
  }

  /** Without a budget nothing but the answers ends the loop: that they do is the caller's affair. */
  ghost predicate Ends(requests: seq<Request>, service: Service) {
    exists r, n: nat :: Stops(r, requests, service, Unlimited, n)
  }

  method FetchAndEvaluate(requests: seq<Request>, service: Service, budget: QuoteAttemptBudget?) returns (result: PairResult, ghost n: nat)
    requires budget == null ==> Ends(requests, service)
    modifies budget
    ensures Stops(result, requests, service, old(Left(budget)), n)
    ensures Left(budget) == PlayOf(requests, service, old(Left(budget)), n).left
  {
    hide IsBest, BetterFallback, TerminalStatus, RequestErrored, Explains, Inconclusive, ErrorsIn, BestSoFar, AttemptResult, AttemptUses, Next, PlayOf, Ends, Less;
    n := 0;
    ghost var p := Play(requests, [], 0, Left(budget));
    FirstPlay(requests, service, Left(budget));
    NothingAttempted();
    var any := HasQuoteAttempt(budget);
    if !any {
      OutOfBudget(p);
      return QuoteBudgetExhaustedResult(0), n;
    }
    ghost var last, bound := SkippedResult(Error, ""), 0;
    if budget == null { last, bound := TheEnd(requests, service); }
    var queue := requests;
    var fallback: Option<PairResult> := None;
    var attemptCount := 0;
    var requestErrorAttempts := 0;
    var index := 0;
    while index < |queue|
      invariant index == attemptCount == n == |p.attempts| <= |queue| && p.queue == queue
      invariant p == PlayOf(requests, service, old(Left(budget)), n) && p.left == Left(budget)
      invariant Inconclusive(p.attempts) && requestErrorAttempts == ErrorsIn(p.attempts)
      invariant BestSoFar(p.attempts, fallback)
      invariant n == 0 ==> Has(Left(budget))
      decreases if budget == null then bound - index else p.left.left, |queue| - index
    {
      var request := queue[index];
      if budget == null { NotPastTheEnd(last, requests, service, bound, n); }
      var ok := ConsumeQuoteAttempt(budget);
      if !ok {
        OutOfBudget(p);
        return QuoteBudgetExhaustedResult(attemptCount), n;
      }
      attemptCount := attemptCount + 1;
      result := FetchAndEvaluateAttempt(service.respond(index, request), budget);
      result := result.(attemptCount := Some(attemptCount));
      BestGrows(p.attempts, fallback, result);
      NextPlay(p, requests, service, old(Left(budget)), n);
      OneMoreAttempt(p, result, Next(p, service));
      p, n := Next(p, service), n + 1;
      if result.status == Pass { return result, n; }
      fallback := Some(BetterFallback(fallback, result));
      if RequestErrored(result) { requestErrorAttempts := requestErrorAttempts + 1; }
      if TerminalStatus(result.status) { return result, n; }
      if RequestErrored(result) && requestErrorAttempts >= REQUEST_ERROR_ATTEMPT_LIMIT { return result, n; }
      var more := HasQuoteAttempt(budget);
      if request.discoversAfterFailure && more {
        queue := queue + service.discover(index, request);
      }
      index := index + 1;
    }
    result := if fallback.Some? then fallback.value.(attemptCount := Some(attemptCount)) else SkippedResult(Error, "No quote requests built.");
    Drained(p, fallback);
  }

  lemma TheEnd(requests: seq<Request>, service: Service) returns (last: PairResult, n: nat)
    requires Ends(requests, service)
    ensures Stops(last, requests, service, Unlimited, n)
  {
    last, n :| Stops(last, requests, service, Unlimited, n);
  }

  /** As long as the attempts decide nothing and the queue holds more, the end lies ahead. */
  lemma NotPastTheEnd(last: PairResult, requests: seq<Request>, service: Service, bound: nat, n: nat)
    requires Stops(last, requests, service, Unlimited, bound)
    requires
      var p := PlayOf(requests, service, Unlimited, n);
      |p.attempts| == n < |p.queue| && Inconclusive(p.attempts)
    ensures n < bound
  {
    hide PlayOf, TerminalStatus, RequestErrored, ErrorsIn;
    if bound <= n {
      var p, q := PlayOf(requests, service, Unlimited, n), PlayOf(requests, service, Unlimited, bound);
      PlayGrows(requests, service, Unlimited, bound, n);
      PlayStuck(requests, service, Unlimited, bound, n);
      PlaySpends(requests, service, Unlimited, bound);
      InconclusiveGoesOn(p.attempts);
      if bound < n && EndedByLast(q.attempts) { NotConclusiveBefore(q.attempts, p.attempts); }
    }
  }

  /** The running fallback is the best of the attempts so far. */
  ghost predicate BestSoFar(attempts: seq<PairResult>, fallback: Option<PairResult>) {
    if attempts == [] then fallback.None? else fallback.Some? && IsBest(attempts, fallback.value)
  }

  lemma FirstPlay(requests: seq<Request>, service: Service, budget: Allowance)
    ensures PlayOf(requests, service, budget, 0) == Play(requests, [], 0, budget)
  {
  }

  lemma NextPlay(p: Play, requests: seq<Request>, service: Service, budget: Allowance, n: nat)
    requires p == PlayOf(requests, service, budget, n) && |p.attempts| < |p.queue| && Has(p.left)
    ensures
      var i, q := |p.attempts|, Next(p, service);
      var reply := service.respond(i, p.queue[i]);
      && q == PlayOf(requests, service, budget, n + 1)
      && q.attempts == p.attempts + [AttemptResult(reply, Less(p.left, 1)).(attemptCount := Some(i + 1))]
      && q.left == Less(Less(p.left, 1), AttemptUses(reply, Less(p.left, 1)))
      && (q.left.Unlimited? <==> p.left.Unlimited?) && (q.left.Limited? ==> q.left.left < p.left.left)
      && q.queue == p.queue + (if p.queue[i].discoversAfterFailure && Has(q.left) then service.discover(i, p.queue[i]) else [])
  {
  }

  lemma NothingAttempted()
    ensures Inconclusive([]) && ErrorsIn([]) == 0 && BestSoFar([], None)
  {
  }

  lemma InconclusiveGoesOn(attempts: seq<PairResult>)
    requires Inconclusive(attempts)
    ensures !EndedByLast(attempts)
  {
    if attempts != [] { assert attempts[|attempts| - 1] in attempts; }
  }

  lemma OutOfBudget(p: Play)
    requires Inconclusive(p.attempts) && !Has(p.left) && (p.attempts == [] || |p.attempts| < |p.queue|)
    ensures Explains(QuoteBudgetExhaustedResult(|p.attempts|), p)
  {
    InconclusiveGoesOn(p.attempts);
  }

  lemma OneMoreAttempt(p: Play, r: PairResult, after: Play)
    requires Inconclusive(p.attempts) && after.attempts == p.attempts + [r]
    ensures
      && ErrorsIn(after.attempts) == ErrorsIn(p.attempts) + (if RequestErrored(r) then 1 else 0)
      && (if r.status == Pass || TerminalStatus(r.status) || (RequestErrored(r) && ErrorsIn(after.attempts) >= REQUEST_ERROR_ATTEMPT_LIMIT)
          then Explains(r, after) else Inconclusive(after.attempts))
  {
    var all := p.attempts + [r];
    assert all[..|p.attempts|] == p.attempts && all[|p.attempts|] == r;
  }

  lemma Drained(p: Play, fallback: Option<PairResult>)
    requires Inconclusive(p.attempts) && BestSoFar(p.attempts, fallback) && |p.attempts| == |p.queue| && (p.attempts == [] ==> Has(p.left))
    ensures Explains(if fallback.Some? then fallback.value.(attemptCount := Some(|p.attempts|)) else SkippedResult(Error, "No quote requests built."), p)
  {
    hide IsBest;
    InconclusiveGoesOn(p.attempts);
  }

  // ---------------------------------------------------------------- all pairs of an adapter

  /** What decides a pair before any request is made. */
  datatype Precheck = Ready | NotSupported(note: string) | MissingCredential(name: string) | NoQuoteParser(note: string)

  datatype Pair = Pair(precheck: Precheck, requests: seq<Request>, service: Service)

  function Prechecked(p: Precheck): Option<PairResult> {
    match p
    case Ready => None
    case NotSupported(note) => Some(SkippedResult(Unsupported, note))
    case MissingCredential(name) => Some(SkippedResult(NeedsKey, "Missing " + name))
    case NoQuoteParser(note) => Some(SkippedResult(Error, note))
  }

  /** A pair started with `before` in the budget: what it gives, what it spends and what it leaves. */
  ghost predicate PairRun(pair: Pair, before: Allowance, result: PairResult, spent: nat, after: Allowance) {
    if pair.precheck != Ready then Some(result) == Prechecked(pair.precheck) && spent == 0 && after == before
    else
      exists n: nat :: Stops(result, pair.requests, pair.service, before, n) &&
        var p := PlayOf(pair.requests, pair.service, before, n); spent == |p.attempts| + p.followUps && after == p.left
  }

  /** The pairs one after another on one budget: what each spends, and what is left before each
      and at the end. */
  ghost predicate PairsRun(pairs: seq<Pair>, results: seq<PairResult>, spent: seq<nat>, left: seq<Allowance>) {
    && |results| == |spent| == |pairs| && |left| == |pairs| + 1
    && forall i :: 0 <= i < |pairs| ==> PairRun(pairs[i], left[i], results[i], spent[i], left[i + 1])
  }

  /** Chain by chain and pair by pair on one budget, or on none. */
  method ProbeAdapterPairs(pairs: seq<Pair>, maxQuoteRequestsPerRun: Option<int>) returns (results: seq<PairResult>, remaining: Allowance)
    requires maxQuoteRequestsPerRun.None? ==> forall p :: p in pairs && p.precheck == Ready ==> Ends(p.requests, p.service)
    ensures exists spent: seq<nat>, left: seq<Allowance> ::
      PairsRun(pairs, results, spent, left) && left[0] == InitialAllowance(maxQuoteRequestsPerRun) && left[|pairs|] == remaining
  {
    hide Stops, PlayOf, PairRun, Ends;
    var budget: QuoteAttemptBudget? := null;
    if maxQuoteRequestsPerRun.Some? { budget := new QuoteAttemptBudget(maxQuoteRequestsPerRun.value); }
    results := [];
    ghost var spent: seq<nat>, left: seq<Allowance> := [], [Left(budget)];
    for i := 0 to |pairs|
      invariant budget == null <==> maxQuoteRequestsPerRun.None?
      invariant budget != null ==> fresh(budget)
      invariant PairsRun(pairs[..i], results, spent, left) && left[0] == InitialAllowance(maxQuoteRequestsPerRun) && left[i] == Left(budget)
    {
      ghost var more := 0;
      var skipped := Prechecked(pairs[i].precheck);
      var result;
      if skipped.Some? {
        result := skipped.value;
        SkippedRun(pairs[i], Left(budget), result);
      } else {
        ghost var n;
        result, n := FetchAndEvaluate(pairs[i].requests, pairs[i].service, budget);
        ghost var p := PlayOf(pairs[i].requests, pairs[i].service, left[i], n);
        more := |p.attempts| + p.followUps;
        PlayedRun(pairs[i], left[i], result, n);
      }
      assert pairs[..i + 1] == pairs[..i] + [pairs[i]];
      results, spent, left := results + [result], spent + [more], left + [Left(budget)];
    }
    assert pairs[..|pairs|] == pairs;
    remaining := if budget == null then Unlimited else AllowanceOf(budget.remaining);
  }

  function InitialAllowance(maxQuoteRequestsPerRun: Option<int>): Allowance {
    if maxQuoteRequestsPerRun.None? then Unlimited else AllowanceOf(maxQuoteRequestsPerRun.value)
  }

  lemma SkippedRun(pair: Pair, before: Allowance, result: PairResult)
    requires Some(result) == Prechecked(pair.precheck)
    ensures PairRun(pair, before, result, 0, before)
  {
  }

  lemma PlayedRun(pair: Pair, before: Allowance, result: PairResult, n: nat)
    requires pair.precheck == Ready && Stops(result, pair.requests, pair.service, before, n)
    ensures
      var p := PlayOf(pair.requests, pair.service, before, n);
      PairRun(pair, before, result, |p.attempts| + p.followUps, p.left)
  {
    hide Stops, PlayOf;
  }

  function Total(spent: seq<nat>): nat {
    if spent == [] then 0 else Total(spent[..|spent| - 1]) + spent[|spent| - 1]
  }

  lemma RunSpends(pair: Pair, before: Allowance, result: PairResult, spent: nat, after: Allowance)
    requires PairRun(pair, before, result, spent, after)
    ensures Spends(before, spent, after)
  {
    hide Stops, PlayOf;
    if pair.precheck == Ready {
      var n: nat :| Stops(result, pair.requests, pair.service, before, n) &&
        var p := PlayOf(pair.requests, pair.service, before, n); spent == |p.attempts| + p.followUps && after == p.left;
      PlaySpends(pair.requests, pair.service, before, n);
    }
  }

  /** Over all pairs the attempts and follow-ups spent and what remains always add up to the
      initial budget, which is never overdrawn. */
  lemma {:induction false} BudgetIsConserved(pairs: seq<Pair>, results: seq<PairResult>, spent: seq<nat>, left: seq<Allowance>)
    requires PairsRun(pairs, results, spent, left)
    ensures Spends(left[0], Total(spent), left[|pairs|])
    decreases |pairs|
  {
    hide PairRun;
    if pairs != [] {
      var n := |pairs| - 1;
      BudgetIsConserved(pairs[..n], results[..n], spent[..n], left[..n + 1]);
      RunSpends(pairs[n], left[n], results[n], spent[n], left[n + 1]);
    }
  }

  /** The pairs, their services and the budget determine all results and what remains. */
  lemma {:induction false} ResultsAreDetermined(pairs: seq<Pair>, results: seq<PairResult>, spent: seq<nat>, left: seq<Allowance>,
      results': seq<PairResult>, spent': seq<nat>, left': seq<Allowance>)
    requires PairsRun(pairs, results, spent, left) && PairsRun(pairs, results', spent', left') && left[0] == left'[0]
    ensures results == results' && left == left'
    decreases |pairs|
  {
    hide PairRun;
    if pairs != [] {
      var n := |pairs| - 1;
      ResultsAreDetermined(pairs[..n], results[..n], spent[..n], left[..n + 1], results'[..n], spent'[..n], left'[..n + 1]);
      assert left[..n + 1][n] == left'[..n + 1][n];
      RunIsDetermined(pairs[n], left[n], results[n], spent[n], left[n + 1], results'[n], spent'[n], left'[n + 1]);
      assert results == results[..n] + [results[n]] && results' == results'[..n] + [results'[n]];
      assert left == left[..n + 1] + [left[n + 1]] && left' == left'[..n + 1] + [left'[n + 1]];
    }
  }

  lemma RunIsDetermined(pair: Pair, before: Allowance, result: PairResult, spent: nat, after: Allowance, result': PairResult, spent': nat, after': Allowance)
    requires PairRun(pair, before, result, spent, after) && PairRun(pair, before, result', spent', after')
    ensures result == result' && after == after'
  {
    hide Stops, PlayOf;
    if pair.precheck == Ready {
      var n: nat :| Stops(result, pair.requests, pair.service, before, n) &&
        var p := PlayOf(pair.requests, pair.service, before, n); spent == |p.attempts| + p.followUps && after == p.left;
      var m: nat :| Stops(result', pair.requests, pair.service, before, m) &&
        var p := PlayOf(pair.requests, pair.service, before, m); spent' == |p.attempts| + p.followUps && after' == p.left;
      ResultIsDetermined(result, result', pair.requests, pair.service, before, n, m);
    }
  }

  // ---------------------------------------------------------------- status of a chain

  function StatusesOf(results: seq<PairResult>): set<Status> {
    set r | r in results :: r.status
  }

  function AggregatePairStatus(results: seq<PairResult>): Status {
    var statuses := StatusesOf(results);
    if results == [] then Error
    else if statuses == {results[0].status} then results[0].status
    else if RateLimited in statuses then RateLimited
    else if NeedsKey in statuses && Pass in statuses then NeedsKey
    else if Pass in statuses then Partial
    else if BudgetExhausted in statuses then BudgetExhausted
    else Fail
  }

  ghost predicate AnyIs(results: seq<PairResult>, s: Status) { exists r :: r in results && r.status == s }

  /** The status of a chain in every case: that of its pairs if they agree; else the first of rate
      limit, missing key beside a success, partial success and exhausted budget that occurs. */
  lemma ChainStatusMeans(results: seq<PairResult>)
    ensures
      var status := AggregatePairStatus(results);
      if results == [] then status == Error
      else if forall r :: r in results ==> r.status == results[0].status then status == results[0].status
      else if AnyIs(results, RateLimited) then status == RateLimited
      else if AnyIs(results, Pass) then status == (if AnyIs(results, NeedsKey) then NeedsKey else Partial)
      else if AnyIs(results, BudgetExhausted) then status == BudgetExhausted
      else status == Fail
  {
    forall s ensures s in StatusesOf(results) <==> AnyIs(results, s) {
      if r :| r in results && r.status == s { assert r.status in StatusesOf(results); }
    }
    if results != [] { assert StatusesOf(results) == {results[0].status} <==> forall r :: r in results ==> r.status == results[0].status by { OneStatus(results); } }
  }

  lemma OneStatus(results: seq<PairResult>)
    requires results != []
    ensures StatusesOf(results) == {results[0].status} <==> forall r :: r in results ==> r.status == results[0].status
  {
    assert results[0] in results;
    forall r | r in results ensures r.status in StatusesOf(results) {}
    if forall r :: r in results ==> r.status == results[0].status {
      forall s ensures s in StatusesOf(results) <==> s == results[0].status {}
    }
  }

  /** A chain passes exactly when it has pairs and all pass. */
  lemma ChainPasses(results: seq<PairResult>)
    ensures AggregatePairStatus(results) == Pass <==> results != [] && forall r :: r in results ==> r.status == Pass
  {
    forall r | r in results ensures r.status in StatusesOf(results) {}
    if results != [] {
      assert results[0] in results;
      if forall r :: r in results ==> r.status == Pass { assert StatusesOf(results) == {Pass}; }
    }
  }

  /** The order of the pairs never matters. */
  lemma PairOrderDoesNotMatter(a: seq<PairResult>, b: seq<PairResult>)
    requires multiset(a) == multiset(b)
    ensures AggregatePairStatus(a) == AggregatePairStatus(b)
  {
    forall r ensures r in a <==> r in b { assert r in a <==> r in multiset(a); assert r in b <==> r in multiset(b); }
    assert StatusesOf(a) == StatusesOf(b);
    assert |multiset(a)| == |a| && |multiset(b)| == |b|;
    if a != [] {
      assert a[0].status in StatusesOf(b) && b[0].status in StatusesOf(a);
    }
  }
}
