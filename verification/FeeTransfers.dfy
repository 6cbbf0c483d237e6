/** What a day's fee snapshot adds up to, recomputed from its transfers. */
module FeeTransfers {
  import opened Arithmetic
  import opened Outcomes
  import opened Ordering
  import opened FeeSnapshot

  /** All that was transferred of a token. */
  function Transferred(ops: seq<Op>, token: string): nat {
    if ops == [] then 0 else
      var op := ops[|ops| - 1];
      Transferred(ops[..|ops| - 1], token) + (if op.mode == Add && op.input.token == token then op.input.amount else 0)
  }

  function Transfers(ops: seq<Op>): nat {
    if ops == [] then 0 else Transfers(ops[..|ops| - 1]) + (if ops[|ops| - 1].mode == Add then 1 else 0)
  }

  /** A heal touches the row once its token has been transferred; an add always does. */
  predicate Touches(ops: seq<Op>, op: Op) {
    op.mode == Add || op.input.token in TokensOf(ops)
  }

  /** The latest block of the operations that touched the row. */
  function BlockOf(ops: seq<Op>): Option<int> {
    if ops == [] then None else
      var init, op := ops[..|ops| - 1], ops[|ops| - 1];
      if !Touches(init, op) then BlockOf(init)
      else match BlockOf(init) case None => Some(op.input.block) case Some(block) => Some(Max(block, op.input.block))
  }

  /** The time of the last operation that touched the row. */
  function StampOf(ops: seq<Op>): Option<int> {
    if ops == [] then None else
      var init, op := ops[..|ops| - 1], ops[|ops| - 1];
      if Touches(init, op) then Some(op.input.updatedAt) else StampOf(init)
  }

  function TokensOf(ops: seq<Op>): set<string> {
    if ops == [] then {} else
      TokensOf(ops[..|ops| - 1]) + (if ops[|ops| - 1].mode == Add then {ops[|ops| - 1].input.token} else {})
  }

  /** The dollar value of an amount of a token, in 10^-18 dollars. */
  function DollarWei(m: Metadata, amount: nat): int {
    if Pegged(m.symbol) then amount * 1_000_000_000_000_000_000 / Pow10(m.decimals) else 0
  }

  lemma PriceIsDollarWei(m: Metadata, amount: nat)
    ensures ComputeFeeUsdWei(m.symbol, m.decimals, amount) == DollarWei(m, amount)
  {
    hide Pegged, ComputeFeeUsdWei, Pow10;
    PricesInDollars(m.symbol, m.decimals, amount);
    if Pegged(m.symbol) {
      var v := ComputeFeeUsdWei(m.symbol, m.decimals, amount);
      QuotientBetween(amount * 1_000_000_000_000_000_000, v, v, Pow10(m.decimals));
    }
  }

  /** The true dollar value of all transfers of the given tokens, one by one. */
  function Dollars(truth: Registry, ops: seq<Op>, tokens: set<string>): int {
    if ops == [] then 0 else
      var op := ops[|ops| - 1];
      Dollars(truth, ops[..|ops| - 1], tokens) +
      (if op.mode == Add && op.input.token in tokens && op.input.token in truth
       then DollarWei(truth[op.input.token], op.input.amount) else 0)
  }

  /** The tokens whose symbol is known among the first `n` slots. */
  ghost function ResolvedIn(s: Snapshot, n: nat): set<string>
    requires Parallel(s) && n <= |s.tokens|
  {
    set i | 0 <= i < n && s.symbols[i] != UNKNOWN :: s.tokens[i]
  }

  // ---------------------------------------------------------------- tokens, amounts and counts

  ghost predicate AddsUp(row: Option<Snapshot>, ops: seq<Op>) {
    match row
    case None => Transfers(ops) == 0 && TokensOf(ops) == {} && BlockOf(ops) == None && StampOf(ops) == None
    case Some(s) =>
      && Parallel(s) && Distinct(s.tokens) && s.transferCount == Transfers(ops) > 0 && Elements(s.tokens) == TokensOf(ops)
      && (forall i :: 0 <= i < |s.tokens| ==> s.amounts[i] == Transferred(ops, s.tokens[i]))
      && BlockOf(ops) == Some(s.block) && StampOf(ops) == Some(s.updatedAt)
  }

  lemma {:induction false} NothingTransferred(ops: seq<Op>, token: string)
    requires token !in TokensOf(ops)
    ensures Transferred(ops, token) == 0
  {
    if ops != [] { NothingTransferred(ops[..|ops| - 1], token); }
  }

  lemma NothingYet()
    ensures AddsUp(None, [])
  {
  }

  lemma OneMore(ops: seq<Op>, op: Op)
    ensures Transfers(ops + [op]) == Transfers(ops) + (if op.mode == Add then 1 else 0)
    ensures TokensOf(ops + [op]) == TokensOf(ops) + (if op.mode == Add then {op.input.token} else {})
    ensures BlockOf(ops + [op]) ==
      if !Touches(ops, op) then BlockOf(ops) else if BlockOf(ops).None? then Some(op.input.block) else Some(Max(BlockOf(ops).value, op.input.block))
    ensures StampOf(ops + [op]) == if Touches(ops, op) then Some(op.input.updatedAt) else StampOf(ops)
    ensures forall t :: Transferred(ops + [op], t) == Transferred(ops, t) + (if op.mode == Add && op.input.token == t then op.input.amount else 0)
  {
    assert (ops + [op])[..|ops + [op]| - 1] == ops;
  }

  /** What one merge does to the lists: an add puts its amount on its token's slot, a new one if
      need be; a heal moves nothing. */
  lemma MergeMoves(row: Option<Snapshot>, op: Op)
    requires row.Some? ==> Parallel(row.value) && Distinct(row.value.tokens)
    ensures
      var after := RowAfter(row, op);
      && (row.None? && op.mode == Heal ==> after.None?)
      && (row.None? && op.mode == Add ==>
            after.Some? && after.value.tokens == [op.input.token] && after.value.amounts == [op.input.amount] && after.value.transferCount == 1
            && after.value.block == op.input.block && after.value.updatedAt == op.input.updatedAt)
      && (row.Some? ==> after.Some? && var s, t := row.value, after.value;
            && (op.mode == Heal && op.input.token !in s.tokens ==> t.block == s.block && t.updatedAt == s.updatedAt)
            && (op.mode == Add || op.input.token in s.tokens ==> t.block == Max(s.block, op.input.block) && t.updatedAt == op.input.updatedAt) &&
            if op.mode == Heal then t.tokens == s.tokens && t.amounts == s.amounts && t.transferCount == s.transferCount
            else
              && t.transferCount == s.transferCount + 1
              && (op.input.token !in s.tokens ==> t.tokens == s.tokens + [op.input.token] && t.amounts == s.amounts + [op.input.amount])
              && (op.input.token in s.tokens ==>
                    t.tokens == s.tokens && |t.amounts| == |s.amounts| &&
                    forall i :: 0 <= i < |s.tokens| ==> t.amounts[i] == s.amounts[i] + (if s.tokens[i] == op.input.token then op.input.amount else 0)))
  {
    hide ComputeFeeUsdWei, Pegged, RecomputeAllPegged, UsdOf, UnknownIn;
  }

  lemma AddsUpStep(row: Option<Snapshot>, ops: seq<Op>, op: Op)
    requires AddsUp(row, ops)
    requires RowAfter(row, op).Some? ==> Parallel(RowAfter(row, op).value)
    ensures AddsUp(RowAfter(row, op), ops + [op])
  {
    hide RowAfter;
    MergeMoves(row, op);
    OneMore(ops, op);
    if row.Some? && op.mode == Add {
      var s := row.value;
      if op.input.token !in s.tokens {
        NothingTransferred(ops, op.input.token);
        DistinctAppend(s.tokens, op.input.token);
      }
    } else if row.None? {
      NothingTransferred(ops, op.input.token);
    }
  }

  /** Whatever adds and heals come in whatever order: one slot for each token transferred, holding
      exactly all that was transferred of it, and a count of the transfers. */
  lemma {:induction false} SnapshotAddsUp(ops: seq<Op>)
    ensures AddsUp(RowOf(ops), ops)
  {
    hide AddsUp, RowAfter;
    if ops == [] {
      NothingYet();
    } else {
      var init, op := ops[..|ops| - 1], ops[|ops| - 1];
      SnapshotAddsUp(init);
      assert ops == init + [op];
      assert RowOf(ops) == RowAfter(RowOf(init), op);
      AddsUpStep(RowOf(init), init, op);
    }
  }

  // ---------------------------------------------------------------- the value

  /** Counting one more token adds the value of all its transfers at once. */
  lemma {:induction false} DollarsOfMore(truth: Registry, ops: seq<Op>, tokens: set<string>, token: string)
    requires SoundRegistry(truth) && token in truth && token !in tokens
    ensures Dollars(truth, ops, tokens + {token}) ==
      Dollars(truth, ops, tokens) + ComputeFeeUsdWei(truth[token].symbol, truth[token].decimals, Transferred(ops, token))
  {
    hide ComputeFeeUsdWei, DollarWei;
    var symbol, decimals := truth[token].symbol, truth[token].decimals;
    if ops == [] {
      ExactPricing(symbol, decimals, 0, 0);
    } else {
      var init, op := ops[..|ops| - 1], ops[|ops| - 1];
      DollarsOfMore(truth, init, tokens, token);
      ExactPricing(symbol, decimals, Transferred(init, token), op.input.amount);
      PriceIsDollarWei(truth[token], op.input.amount);
    }
  }

  lemma {:induction false} DollarsOfNone(truth: Registry, ops: seq<Op>)
    ensures Dollars(truth, ops, {}) == 0
  {
    if ops != [] { DollarsOfNone(truth, ops[..|ops| - 1]); }
  }

  lemma {:induction false} SlotsAreDollars(truth: Registry, s: Snapshot, ops: seq<Op>, n: nat)
    requires SoundRegistry(truth) && Sound(truth, s) && AddsUp(Some(s), ops) && n <= |s.tokens|
    ensures UsdOf(s, n) == Dollars(truth, ops, ResolvedIn(s, n))
  {
    hide ComputeFeeUsdWei, UnknownIn, RecomputeAllPegged, Dollars;
    if n == 0 {
      DollarsOfNone(truth, ops);
      assert ResolvedIn(s, 0) == {};
    } else {
      SlotsAreDollars(truth, s, ops, n - 1);
      if s.symbols[n - 1] == UNKNOWN {
        UnknownIsWorthNothing(s.decimals[n - 1], s.amounts[n - 1]);
        assert ResolvedIn(s, n) == ResolvedIn(s, n - 1);
      } else {
        assert Metadata(s.symbols[n - 1], s.decimals[n - 1]) == truth[s.tokens[n - 1]];
        assert s.tokens[n - 1] !in ResolvedIn(s, n - 1);
        assert ResolvedIn(s, n) == ResolvedIn(s, n - 1) + {s.tokens[n - 1]};
        DollarsOfMore(truth, ops, ResolvedIn(s, n - 1), s.tokens[n - 1]);
      }
    }
  }

  /** At every moment the row's value is the true dollar value of every transfer so far of the
      tokens whose symbol is known by now, early transfers included. */
  lemma ValueIsDollars(truth: Registry, ops: seq<Op>)
    requires SoundOps(truth, ops) && RowOf(ops).Some?
    ensures
      var s := RowOf(ops).value;
      Parallel(s) && s.feesUsdWei == Dollars(truth, ops, ResolvedIn(s, |s.tokens|))
  {
    SnapshotAddsUp(ops);
    RowIsSound(truth, ops);
    SlotsAreDollars(truth, RowOf(ops).value, ops, |RowOf(ops).value.tokens|);
  }
}
