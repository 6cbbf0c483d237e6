/** Per-pool daily protocol fees: one slot per token, priced as soon as its symbol is known. */
module FeeSnapshot {
  import opened Arithmetic
  import opened Outcomes

  const UNKNOWN := "UNKNOWN"
  const USD_WEI_DECIMALS := 18

  const USD_PEGGED_SYMBOLS: set<string> :=
    {"USDm", "USDC", "USDT", "USDT0", "USD\U{20AE}", "AUSD", "cUSD", "axlUSDC"}

  predicate Pegged(symbol: string) { symbol in USD_PEGGED_SYMBOLS }

  /** A pegged amount in 18-decimal dollars; truncates only above 18 decimals. */
  function ScaleToUsdWei(amount: nat, decimals: nat): int {
    if decimals == USD_WEI_DECIMALS then amount
    else if decimals < USD_WEI_DECIMALS then amount * Pow10(USD_WEI_DECIMALS - decimals)
    else amount / Pow10(decimals - USD_WEI_DECIMALS)
  }

  function ComputeFeeUsdWei(symbol: string, decimals: nat, amount: nat): int {
    if !Pegged(symbol) then 0 else ScaleToUsdWei(amount, decimals)
  }

  /** A pegged amount is worth its whole number of dollar-wei: exact up to 18 decimals, above that
      rounded down. Any other token is worth nothing. */
  lemma PricesInDollars(symbol: string, decimals: nat, amount: nat)
    ensures Pegged(symbol) ==> IsScaledTo18(amount, decimals, ComputeFeeUsdWei(symbol, decimals, amount))
    ensures !Pegged(symbol) ==> ComputeFeeUsdWei(symbol, decimals, amount) == 0
  {
    if decimals <= USD_WEI_DECIMALS { ScalingUp(amount, decimals); } else { ScalingDown(amount, decimals); }
  }

  datatype Snapshot = Snapshot(
    tokens: seq<string>, symbols: seq<string>, decimals: seq<nat>, amounts: seq<nat>,
    feesUsdWei: int, allPegged: bool, unresolvedCount: int, transferCount: int, block: int, updatedAt: int)

  datatype Mode = Add | Heal

  datatype Input = Input(token: string, symbol: string, decimals: nat, amount: nat, block: int, updatedAt: int)

  datatype Flags = Flags(input: Input, contribution: int, pegged: bool, unresolved: bool)

  predicate Parallel(s: Snapshot) {
    |s.tokens| == |s.symbols| == |s.decimals| == |s.amounts|
  }

  /** The first index of `x`, or -1. */
  function IndexOf(s: seq<string>, x: string): (i: int)
    ensures -1 <= i < |s|
    ensures i >= 0 ==> s[i] == x
    ensures i < 0 ==> x !in s
  {
    if s == [] then -1
    else
      var i := IndexOf(s[..|s| - 1], x);
      if i >= 0 then i else if s[|s| - 1] == x then |s| - 1
      else assert s == s[..|s| - 1] + [s[|s| - 1]]; -1
  }

  predicate RecomputeAllPegged(symbols: seq<string>) {
    forall s :: s in symbols ==> Pegged(s)
  }

  function FlagsOf(input: Input): Flags {
    Flags(input, ComputeFeeUsdWei(input.symbol, input.decimals, input.amount), Pegged(input.symbol), input.symbol == UNKNOWN)
  }

  function CreateFeeSnapshot(f: Flags): Snapshot {
    Snapshot([f.input.token], [f.input.symbol], [f.input.decimals], [f.input.amount],
             f.contribution, f.pegged, if f.unresolved then 1 else 0, 1, f.input.block, f.input.updatedAt)
  }

  function AppendNewTokenSlot(s: Snapshot, f: Flags): Snapshot {
    Snapshot(s.tokens + [f.input.token], s.symbols + [f.input.symbol], s.decimals + [f.input.decimals], s.amounts + [f.input.amount],
             s.feesUsdWei + f.contribution, s.allPegged && f.pegged, s.unresolvedCount + (if f.unresolved then 1 else 0),
             s.transferCount + 1, Max(f.input.block, s.block), f.input.updatedAt)
  }

  /** An unresolved transfer of an already resolved token is priced with the slot's metadata. */
  function EffectiveAddFlags(s: Snapshot, i: nat, f: Flags): Flags
    requires Parallel(s) && i < |s.tokens|
  {
    if !f.unresolved || s.symbols[i] == UNKNOWN then f
    else
      var input := f.input.(symbol := s.symbols[i], decimals := s.decimals[i]);
      Flags(input, ComputeFeeUsdWei(s.symbols[i], s.decimals[i], input.amount), Pegged(s.symbols[i]), false)
  }

  /** The slot's metadata and the amounts priced so far, once its symbol arrives. */
  function Healed(s: Snapshot, i: nat, input: Input): Snapshot
    requires Parallel(s) && i < |s.tokens|
  {
    var symbols := s.symbols[i := input.symbol];
    s.(symbols := symbols, decimals := s.decimals[i := input.decimals],
       feesUsdWei := s.feesUsdWei + ComputeFeeUsdWei(input.symbol, input.decimals, s.amounts[i]),
       unresolvedCount := if s.unresolvedCount - 1 > 0 then s.unresolvedCount - 1 else 0,
       allPegged := RecomputeAllPegged(symbols))
  }

  function FinalizeAdd(s: Snapshot, base: Snapshot, i: nat, f: Flags, healed: bool): Snapshot
    requires Parallel(s) && i < |s.tokens|
  {
    base.(amounts := s.amounts[i := s.amounts[i] + f.input.amount],
          feesUsdWei := base.feesUsdWei + (if f.unresolved then 0 else f.contribution),
          allPegged := base.allPegged && !(!healed && (f.unresolved || !f.pegged)),
          transferCount := s.transferCount + 1,
          block := Max(f.input.block, s.block), updatedAt := f.input.updatedAt)
  }

  function MergeFeeSnapshot(existing: Option<Snapshot>, input: Input, mode: Mode): Option<Snapshot>
    requires existing.Some? ==> Parallel(existing.value)
  {
    var f := FlagsOf(input);
    if existing.None? then
      if mode == Heal then None else Some(CreateFeeSnapshot(f))
    else
      var s := existing.value;
      var i := IndexOf(s.tokens, input.token);
      if i < 0 then Some(if mode == Heal then s else AppendNewTokenSlot(s, f))
      else
        var shouldHeal := s.symbols[i] == UNKNOWN && !f.unresolved;
        var base := if shouldHeal then Healed(s, i, input) else s;
        if mode == Heal then Some(base.(block := Max(input.block, s.block), updatedAt := input.updatedAt))
        else Some(FinalizeAdd(s, base, i, EffectiveAddFlags(s, i, f), shouldHeal))
  }

  // ---------------------------------------------------------------- what a snapshot means

  /** The one true metadata of each token. */
  datatype Metadata = Metadata(symbol: string, decimals: nat)
  type Registry = map<string, Metadata>

  ghost predicate Resolvable(truth: Registry) {
    forall t :: t in truth ==> truth[t].symbol != UNKNOWN
  }

  /** Pricing truncates no token: none that is pegged has more than 18 decimals. */
  ghost predicate Exact(truth: Registry) {
    forall t :: t in truth && Pegged(truth[t].symbol) ==> truth[t].decimals <= USD_WEI_DECIMALS
  }

  ghost predicate SoundRegistry(truth: Registry) {
    Resolvable(truth) && Exact(truth)
  }

  /** The token is known, and the symbol is either unresolved or the true one, with its decimals. */
  ghost predicate SoundInput(truth: Registry, x: Input) {
    x.token in truth && (x.symbol == UNKNOWN || Metadata(x.symbol, x.decimals) == truth[x.token])
  }

  ghost function SlotUsd(s: Snapshot, i: nat): int
    requires Parallel(s) && i < |s.tokens|
  {
    ComputeFeeUsdWei(s.symbols[i], s.decimals[i], s.amounts[i])
  }

  /** The dollar value of the first `n` slots. */
  ghost function UsdOf(s: Snapshot, n: nat): int
    requires Parallel(s) && n <= |s.tokens|
  {
    if n == 0 then 0 else UsdOf(s, n - 1) + SlotUsd(s, n - 1)
  }

  function UnknownIn(symbols: seq<string>): nat {
    if symbols == [] then 0 else UnknownIn(symbols[..|symbols| - 1]) + (if symbols[|symbols| - 1] == UNKNOWN then 1 else 0)
  }

  ghost predicate Sound(truth: Registry, s: Snapshot) {
    && Parallel(s)
    && (forall i, j :: 0 <= i < j < |s.tokens| ==> s.tokens[i] != s.tokens[j])
    && (forall i :: 0 <= i < |s.tokens| ==> s.tokens[i] in truth)
    && (forall i :: 0 <= i < |s.tokens| && s.symbols[i] != UNKNOWN ==> Metadata(s.symbols[i], s.decimals[i]) == truth[s.tokens[i]])
    && s.unresolvedCount == UnknownIn(s.symbols)
    && (s.allPegged <==> RecomputeAllPegged(s.symbols))
    && s.feesUsdWei == UsdOf(s, |s.tokens|)
  }

  // ---------------------------------------------------------------- sums over slots

  ghost predicate Additive(symbol: string, decimals: nat, a: nat, b: nat) {
    ComputeFeeUsdWei(symbol, decimals, a + b) == ComputeFeeUsdWei(symbol, decimals, a) + ComputeFeeUsdWei(symbol, decimals, b)
  }

  lemma ExactPricing(symbol: string, decimals: nat, a: nat, b: nat)
    requires !Pegged(symbol) || decimals <= USD_WEI_DECIMALS
    ensures Additive(symbol, decimals, a, b)
  {
    hide Pow10;
    if decimals < USD_WEI_DECIMALS {
      var p := Pow10(USD_WEI_DECIMALS - decimals);
      assert (a + b) * p == a * p + b * p;
    }
  }

  /** Half of what one dollar-wei takes at `decimals`. */
  function HalfUnit(decimals: nat): nat
    requires decimals > USD_WEI_DECIMALS
  {
    5 * Pow10(decimals - USD_WEI_DECIMALS - 1)
  }

  /** Two halves are worth nothing one by one and one dollar-wei together. */
  lemma HalvesAreLost(symbol: string, decimals: nat)
    requires Pegged(symbol) && decimals > USD_WEI_DECIMALS
    ensures
      var half := HalfUnit(decimals);
      ComputeFeeUsdWei(symbol, decimals, half) == 0 && ComputeFeeUsdWei(symbol, decimals, half + half) == 1
  {
    var unit := Pow10(decimals - USD_WEI_DECIMALS);
    assert unit == 10 * Pow10(decimals - USD_WEI_DECIMALS - 1) && HalfUnit(decimals) + HalfUnit(decimals) == unit;
    QuotientBetween(HalfUnit(decimals), 0, 0, unit);
    QuotientBetween(unit, 1, 1, unit);
  }

  /** Pricing is additive if and only if the symbol is not pegged or has at most 18 decimals. */
  lemma PricingIsAdditive(symbol: string, decimals: nat)
    ensures (forall a, b :: Additive(symbol, decimals, a, b)) <==> !Pegged(symbol) || decimals <= USD_WEI_DECIMALS
  {
    hide ComputeFeeUsdWei, Pegged;
    if !Pegged(symbol) || decimals <= USD_WEI_DECIMALS {
      forall a: nat, b: nat ensures Additive(symbol, decimals, a, b) { ExactPricing(symbol, decimals, a, b); }
    } else {
      HalvesAreLost(symbol, decimals);
      assert !Additive(symbol, decimals, HalfUnit(decimals), HalfUnit(decimals));
    }
  }

  lemma UnknownIsWorthNothing(decimals: nat, amount: nat)
    ensures !Pegged(UNKNOWN) && ComputeFeeUsdWei(UNKNOWN, decimals, amount) == 0
  {
  }

  /** Slots that agree are worth the same. */
  lemma {:induction false} UsdSame(s: Snapshot, t: Snapshot, n: nat)
    requires Parallel(s) && Parallel(t) && n <= |s.tokens| && n <= |t.tokens|
    requires forall i :: 0 <= i < n ==> s.symbols[i] == t.symbols[i] && s.decimals[i] == t.decimals[i] && s.amounts[i] == t.amounts[i]
    ensures UsdOf(s, n) == UsdOf(t, n)
  {
    if n > 0 { UsdSame(s, t, n - 1); }
  }

  /** Changing one slot changes the total by that slot's difference. */
  lemma {:induction false} UsdOneSlot(s: Snapshot, t: Snapshot, i: nat, n: nat)
    requires Parallel(s) && Parallel(t) && |s.tokens| == |t.tokens| && i < n <= |s.tokens|
    requires forall j :: 0 <= j < n && j != i ==> s.symbols[j] == t.symbols[j] && s.decimals[j] == t.decimals[j] && s.amounts[j] == t.amounts[j]
    ensures UsdOf(t, n) == UsdOf(s, n) - SlotUsd(s, i) + SlotUsd(t, i)
  {
    hide ComputeFeeUsdWei;
    if n == i + 1 { UsdSame(s, t, i); } else { UsdOneSlot(s, t, i, n - 1); }
  }

  lemma {:induction false} UnknownOneSlot(symbols: seq<string>, i: nat, symbol: string)
    requires i < |symbols| && symbols[i] == UNKNOWN && symbol != UNKNOWN
    ensures UnknownIn(symbols[i := symbol]) == UnknownIn(symbols) - 1
  {
    var n := |symbols| - 1;
    if i == n {
      assert symbols[i := symbol][..n] == symbols[..n];
    } else {
      assert symbols[i := symbol][..n] == symbols[..n][i := symbol];
      UnknownOneSlot(symbols[..n], i, symbol);
    }
  }

  lemma UnknownAppend(symbols: seq<string>, symbol: string)
    ensures UnknownIn(symbols + [symbol]) == UnknownIn(symbols) + (if symbol == UNKNOWN then 1 else 0)
  {
    assert (symbols + [symbol])[..|symbols|] == symbols;
  }

  // ---------------------------------------------------------------- every merge keeps a snapshot sound

  lemma CreateIsSound(truth: Registry, x: Input)
    requires SoundRegistry(truth) && SoundInput(truth, x)
    ensures Sound(truth, CreateFeeSnapshot(FlagsOf(x)))
  {
    hide ComputeFeeUsdWei;
    UnknownIsWorthNothing(x.decimals, x.amount);
    var s := CreateFeeSnapshot(FlagsOf(x));
    UnknownAppend([], x.symbol);
    assert [] + [x.symbol] == [x.symbol];
    assert UsdOf(s, 0) == 0 && UsdOf(s, 1) == SlotUsd(s, 0);
  }

  lemma AppendIsSound(truth: Registry, s: Snapshot, x: Input)
    requires SoundRegistry(truth) && SoundInput(truth, x) && Sound(truth, s) && x.token !in s.tokens
    ensures Sound(truth, AppendNewTokenSlot(s, FlagsOf(x)))
  {
    hide ComputeFeeUsdWei, UnknownIn, Pegged, RecomputeAllPegged;
    var t := AppendNewTokenSlot(s, FlagsOf(x));
    UnknownAppend(s.symbols, x.symbol);
    PeggedAppend(s.symbols, x.symbol);
    UsdSame(s, t, |s.tokens|);
  }

  lemma PeggedAppend(symbols: seq<string>, symbol: string)
    ensures RecomputeAllPegged(symbols + [symbol]) <==> RecomputeAllPegged(symbols) && Pegged(symbol)
  {
    hide Pegged;
    assert forall y :: y in symbols + [symbol] <==> y in symbols || y == symbol;
  }

  lemma HealIsSound(truth: Registry, s: Snapshot, i: nat, x: Input)
    requires SoundInput(truth, x) && Sound(truth, s) && i < |s.tokens| && s.tokens[i] == x.token
    requires s.symbols[i] == UNKNOWN && x.symbol != UNKNOWN
    ensures Sound(truth, Healed(s, i, x))
  {
    hide ComputeFeeUsdWei, UnknownIn, Pegged;
    UnknownIsWorthNothing(s.decimals[i], s.amounts[i]);
    UnknownOneSlot(s.symbols, i, x.symbol);
    UsdOneSlot(s, Healed(s, i, x), i, |s.tokens|);
  }

  lemma SlotPegged(s: Snapshot, i: nat)
    requires Parallel(s) && i < |s.tokens| && RecomputeAllPegged(s.symbols)
    ensures Pegged(s.symbols[i])
  {
    assert s.symbols[i] in s.symbols;
  }

  /** Adding an amount to a slot: with the slot's own metadata, whatever the input knew. */
  lemma AddIsSound(truth: Registry, s: Snapshot, base: Snapshot, i: nat, x: Input, healed: bool)
    requires SoundRegistry(truth) && SoundInput(truth, x) && Sound(truth, s) && i < |s.tokens| && s.tokens[i] == x.token
    requires healed == (s.symbols[i] == UNKNOWN && x.symbol != UNKNOWN)
    requires base == if healed then Healed(s, i, x) else s
    requires Sound(truth, base)
    ensures Sound(truth, FinalizeAdd(s, base, i, EffectiveAddFlags(s, i, FlagsOf(x)), healed))
  {
    hide ComputeFeeUsdWei, UnknownIn, Pegged, RecomputeAllPegged;
    var f := EffectiveAddFlags(s, i, FlagsOf(x));
    var t := FinalizeAdd(s, base, i, f, healed);
    UnknownIsWorthNothing(base.decimals[i], s.amounts[i]);
    UnknownIsWorthNothing(base.decimals[i], s.amounts[i] + x.amount);
    if base.symbols[i] != UNKNOWN { ExactPricing(base.symbols[i], base.decimals[i], s.amounts[i], x.amount); }
    UsdOneSlot(base, t, i, |s.tokens|);
    if RecomputeAllPegged(base.symbols) { SlotPegged(base, i); }
  }

  /** Whatever is merged, in either mode: parallel lists of distinct tokens, and the counters,
      the flag and the value that follow from the slots. */
  lemma MergeIsSound(truth: Registry, existing: Option<Snapshot>, x: Input, mode: Mode)
    requires SoundRegistry(truth) && SoundInput(truth, x)
    requires existing.Some? ==> Sound(truth, existing.value)
    ensures
      var r := MergeFeeSnapshot(existing, x, mode);
      (r.Some? ==> Sound(truth, r.value)) && (r.None? <==> existing.None? && mode == Heal)
  {
    hide Healed, FinalizeAdd, AppendNewTokenSlot, CreateFeeSnapshot, EffectiveAddFlags;
    if existing.None? {
      CreateIsSound(truth, x);
    } else {
      var s := existing.value;
      var i := IndexOf(s.tokens, x.token);
      if i < 0 {
        AppendIsSound(truth, s, x);
      } else {
        var healed := s.symbols[i] == UNKNOWN && x.symbol != UNKNOWN;
        if healed { HealIsSound(truth, s, i, x); }
        var base := if healed then Healed(s, i, x) else s;
        AddIsSound(truth, s, base, i, x, healed);
        RestampIsSound(truth, base, Max(x.block, s.block), x.updatedAt);
      }
    }
  }

  lemma RestampIsSound(truth: Registry, s: Snapshot, block: int, updatedAt: int)
    requires Sound(truth, s)
    ensures Sound(truth, s.(block := block, updatedAt := updatedAt))
  {
    hide ComputeFeeUsdWei;
    UsdSame(s, s.(block := block, updatedAt := updatedAt), |s.tokens|);
  }

  // ---------------------------------------------------------------- confluence

  datatype Op = Op(mode: Mode, input: Input)

  /** The row after one upsert; a merge without a result writes nothing. */
  function RowAfter(row: Option<Snapshot>, op: Op): Option<Snapshot>
    requires row.Some? ==> Parallel(row.value)
  {
    var r := MergeFeeSnapshot(row, op.input, op.mode);
    if r.None? then row else r
  }

  /** The row after a list of upserts. */
  function RowOf(ops: seq<Op>): (row: Option<Snapshot>)
    ensures row.Some? ==> Parallel(row.value)
  {
    if ops == [] then None else RowAfter(RowOf(ops[..|ops| - 1]), ops[|ops| - 1])
  }

  ghost predicate SoundInputs(truth: Registry, ops: seq<Op>) {
    forall i :: 0 <= i < |ops| ==> SoundInput(truth, ops[i].input)
  }

  ghost predicate SoundOps(truth: Registry, ops: seq<Op>) {
    SoundRegistry(truth) && SoundInputs(truth, ops)
  }

  lemma {:induction false} RowIsSound(truth: Registry, ops: seq<Op>)
    requires SoundOps(truth, ops)
    ensures RowOf(ops).Some? ==> Sound(truth, RowOf(ops).value)
  {
    hide Sound, MergeFeeSnapshot, SoundInput;
    if ops != [] {
      RowIsSound(truth, ops[..|ops| - 1]);
      MergeIsSound(truth, RowOf(ops[..|ops| - 1]), ops[|ops| - 1].input, ops[|ops| - 1].mode);
    }
  }

  /** The same upserts with every symbol resolved from the start. */
  function Resolved(truth: Registry, op: Op): Op {
    if op.input.token in truth
    then op.(input := op.input.(symbol := truth[op.input.token].symbol, decimals := truth[op.input.token].decimals))
    else op
  }

  function AllResolved(truth: Registry, ops: seq<Op>): seq<Op> {
    seq(|ops|, i requires 0 <= i < |ops| => Resolved(truth, ops[i]))
  }

  predicate FullyResolved(row: Option<Snapshot>) {
    row.Some? && UNKNOWN !in row.value.symbols
  }

  /** `r` is `s` with every slot resolved; both have the same tokens and amounts. */
  ghost predicate SameButSymbols(truth: Registry, s: Option<Snapshot>, r: Option<Snapshot>) {
    && s.Some? == r.Some?
    && (s.Some? ==>
          && Sound(truth, s.value) && Sound(truth, r.value)
          && s.value.tokens == r.value.tokens && s.value.amounts == r.value.amounts
          && s.value.transferCount == r.value.transferCount && s.value.block == r.value.block && s.value.updatedAt == r.value.updatedAt
          && forall i :: 0 <= i < |r.value.symbols| ==> r.value.symbols[i] != UNKNOWN)
  }

  lemma SameStep(truth: Registry, s: Option<Snapshot>, r: Option<Snapshot>, op: Op)
    requires SoundRegistry(truth) && SoundInput(truth, op.input) && SameButSymbols(truth, s, r)
    ensures SameButSymbols(truth, RowAfter(s, op), RowAfter(r, Resolved(truth, op)))
  {
    hide Sound, ComputeFeeUsdWei, Pegged, RecomputeAllPegged;
    var op' := Resolved(truth, op);
    MergeIsSound(truth, s, op.input, op.mode);
    MergeIsSound(truth, r, op'.input, op'.mode);
    if s.Some? { SoundIsParallel(truth, s.value); SoundIsParallel(truth, r.value); }
  }

  lemma SoundIsParallel(truth: Registry, s: Snapshot)
    requires Sound(truth, s)
    ensures Parallel(s)
  {
  }

  lemma {:induction false} SameOnRuns(truth: Registry, ops: seq<Op>)
    requires SoundOps(truth, ops)
    ensures SameButSymbols(truth, RowOf(ops), RowOf(AllResolved(truth, ops)))
  {
    hide SameButSymbols, Sound, MergeFeeSnapshot, Resolved, SoundInput;
    if ops == [] {
      NothingYet(truth);
    } else {
      var init := ops[..|ops| - 1];
      SameOnRuns(truth, init);
      assert AllResolved(truth, ops)[..|ops| - 1] == AllResolved(truth, init);
      SameStep(truth, RowOf(init), RowOf(AllResolved(truth, init)), ops[|ops| - 1]);
    }
  }

  lemma NothingYet(truth: Registry)
    ensures SameButSymbols(truth, None, None)
  {
  }

  /** Sound rows with the same tokens and amounts and no unknown slot hold the same values. */
  lemma ResolvedRowsAreEqual(truth: Registry, s: Snapshot, r: Snapshot)
    requires SameButSymbols(truth, Some(s), Some(r)) && forall i :: 0 <= i < |s.symbols| ==> s.symbols[i] != UNKNOWN
    ensures s == r
  {
    hide ComputeFeeUsdWei, UnknownIn, Pegged;
    forall i | 0 <= i < |s.tokens| ensures s.symbols[i] == r.symbols[i] && s.decimals[i] == r.decimals[i] {
      assert Metadata(s.symbols[i], s.decimals[i]) == truth[s.tokens[i]] == Metadata(r.symbols[i], r.decimals[i]);
    }
    assert s.symbols == r.symbols && s.decimals == r.decimals;
    UsdSame(s, r, |s.tokens|);
  }

  /** Once every slot has resolved the row is exactly that of the run in which every symbol was
      known from the start, whenever the resolutions came. */
  lemma Confluence(truth: Registry, ops: seq<Op>)
    requires SoundOps(truth, ops) && FullyResolved(RowOf(ops))
    ensures RowOf(ops) == RowOf(AllResolved(truth, ops))
  {
    hide Sound;
    SameOnRuns(truth, ops);
    ResolvedRowsAreEqual(truth, RowOf(ops).value, RowOf(AllResolved(truth, ops)).value);
  }

  // ---------------------------------------------------------------- above 18 decimals

  /** Two halves of a dollar-wei come in while the symbol is unknown, then the symbol does. */
  function LateRun(token: string, truth: Metadata, at: int): seq<Op>
    requires truth.decimals > USD_WEI_DECIMALS
  {
    var early := Input(token, UNKNOWN, truth.decimals, HalfUnit(truth.decimals), at, at);
    [Op(Add, early), Op(Add, early), Op(Heal, early.(symbol := truth.symbol))]
  }

  /** For every pegged symbol and every number of decimals above 18 pricing truncates, and the row of
      the late run is worth one dollar-wei where the run known from the start is worth nothing. */
  lemma TruncationBreaksConfluence(truth: Registry, token: string, at: int)
    requires token in truth && Pegged(truth[token].symbol) && truth[token].decimals > USD_WEI_DECIMALS
    ensures
      var ops := LateRun(token, truth[token], at);
      && SoundInputs(truth, ops) && FullyResolved(RowOf(ops)) && FullyResolved(RowOf(AllResolved(truth, ops)))
      && RowOf(ops).value.feesUsdWei == 1 && RowOf(AllResolved(truth, ops)).value.feesUsdWei == 0
  {
    hide HalfUnit, ComputeFeeUsdWei, RowOf, RowAfter, AllResolved, SoundInputs;
    var meta := truth[token];
    var half := HalfUnit(meta.decimals);
    var early, known := Input(token, UNKNOWN, meta.decimals, half, at, at), Input(token, meta.symbol, meta.decimals, half, at, at);
    HalvesAreLost(meta.symbol, meta.decimals);
    UnknownIsWorthNothing(meta.decimals, half);
    UnknownIsWorthNothing(meta.decimals, half + half);
    KnownRun(truth, token, at);
    RowOfThree(Op(Add, early), Op(Add, early), Op(Heal, known));
    OneTokenRow(token, UNKNOWN, meta.symbol, meta.decimals, half, at);
    RowOfThree(Op(Add, known), Op(Add, known), Op(Heal, known));
    OneTokenRow(token, meta.symbol, meta.symbol, meta.decimals, half, at);
  }

  lemma KnownRun(truth: Registry, token: string, at: int)
    requires token in truth && Pegged(truth[token].symbol) && truth[token].decimals > USD_WEI_DECIMALS
    ensures
      var ops, known := LateRun(token, truth[token], at), Input(token, truth[token].symbol, truth[token].decimals, HalfUnit(truth[token].decimals), at, at);
      SoundInputs(truth, ops) && AllResolved(truth, ops) == [Op(Add, known), Op(Add, known), Op(Heal, known)]
  {
    hide HalfUnit;
  }

  lemma RowOfThree(a: Op, b: Op, c: Op)
    ensures RowOf([a]) == RowAfter(None, a) && RowOf([a, b]) == RowAfter(RowOf([a]), b) && RowOf([a, b, c]) == RowAfter(RowOf([a, b]), c)
  {
    hide RowAfter;
    assert [a][..0] == [] && [a, b][..1] == [a] && [a, b, c][..2] == [a, b];
  }

  /** Two equal transfers of one token and then its symbol, which may have been known before. */
  lemma OneTokenRow(token: string, first: string, symbol: string, decimals: nat, amount: nat, at: int)
    requires symbol != UNKNOWN && (first == UNKNOWN || first == symbol)
    ensures
      var early := Input(token, first, decimals, amount, at, at);
      var row := RowAfter(RowAfter(RowAfter(None, Op(Add, early)), Op(Add, early)), Op(Heal, early.(symbol := symbol)));
      && row.Some? && row.value.symbols == [symbol]
      && row.value.feesUsdWei ==
           ComputeFeeUsdWei(first, decimals, amount) + ComputeFeeUsdWei(first, decimals, amount)
           + (if first == UNKNOWN then ComputeFeeUsdWei(symbol, decimals, amount + amount) - 2 * ComputeFeeUsdWei(first, decimals, amount) else 0)
  {
    hide ComputeFeeUsdWei, Pegged;
    UnknownIsWorthNothing(decimals, amount);
    assert IndexOf([token], token) == 0;
  }

  ghost predicate ConfluentOn(truth: Registry, ops: seq<Op>) {
    SoundInputs(truth, ops) && FullyResolved(RowOf(ops)) ==> RowOf(ops) == RowOf(AllResolved(truth, ops))
  }

  /** The time of resolution never matters, in any run of adds and heals, if and only if no pegged
      token has more than 18 decimals. */
  lemma ConfluenceExactly(truth: Registry)
    requires Resolvable(truth)
    ensures (forall ops :: ConfluentOn(truth, ops)) <==> Exact(truth)
  {
    hide RowOf, AllResolved, SoundInputs, FullyResolved;
    if Exact(truth) {
      forall ops ensures ConfluentOn(truth, ops) {
        if SoundInputs(truth, ops) && FullyResolved(RowOf(ops)) { Confluence(truth, ops); }
      }
    } else {
      var token :| token in truth && Pegged(truth[token].symbol) && truth[token].decimals > USD_WEI_DECIMALS;
      TruncationBreaksConfluence(truth, token, 0);
      assert !ConfluentOn(truth, LateRun(token, truth[token], 0));
    }
  }
}
