/** What a call cost, in micro-cents: the fixed-point arithmetic of crates/dam-ai/src/pricing.rs.

    Machine widths are explicit. Token counts are `u64`, rates are `i64`, the intermediate is `i128`, and the
    result saturates at the top of `i64`. */
module Pricing {
  import opened Widths
  import opened Wrappers

  const TOKENS_PER_RATE_UNIT: int := 1_000_000

  /** The four rates, in micro-cents per million tokens. */
  datatype Price = Price(input: I64, output: I64, cachedInput: I64, cacheWrite: I64) {
    predicate NonNegative() {
      input >= 0 && output >= 0 && cachedInput >= 0 && cacheWrite >= 0
    }

    /** Every rate of `this` is at most the same rate of `other`. */
    predicate AtMost(other: Price) {
      input <= other.input && output <= other.output && cachedInput <= other.cachedInput
          && cacheWrite <= other.cacheWrite
    }
  }

  datatype Usage = Usage(inputTokens: U64, outputTokens: U64, cachedInputTokens: U64, cacheWriteTokens: U64) {
    predicate AtMost(other: Usage) {
      inputTokens <= other.inputTokens && outputTokens <= other.outputTokens
      && cachedInputTokens <= other.cachedInputTokens && cacheWriteTokens <= other.cacheWriteTokens
    }
  }

  // ---------- cost ----------

  /** Division as Rust does it: toward zero. */
  function TruncDiv(a: int, b: int): int
    requires b > 0
  {
    if a >= 0 then a / b else -(-a / b)
  }

  function TruncMod(a: int, b: int): int
    requires b > 0
  {
    a - b * TruncDiv(a, b)
  }

  function RateCost(tokens: U64, perMtok: I64): int {
    TruncDiv(tokens * perMtok, TOKENS_PER_RATE_UNIT)
  }

  function Total(price: Price, usage: Usage): int {
    RateCost(usage.inputTokens, price.input)
    + RateCost(usage.outputTokens, price.output)
    + RateCost(usage.cachedInputTokens, price.cachedInput)
    + RateCost(usage.cacheWriteTokens, price.cacheWrite)
  }

  function Cost(price: Price, usage: Usage): I64 {
    var total := Total(price, usage);
    if I64_MIN <= total <= I64_MAX then total else I64_MAX
  }

  /** The price with no rounding at all, in millionths of a micro-cent. */
  function ExactPrice(price: Price, usage: Usage): int {
    usage.inputTokens * price.input + usage.outputTokens * price.output
    + usage.cachedInputTokens * price.cachedInput + usage.cacheWriteTokens * price.cacheWrite
  }

  ghost predicate FitsI128(n: int) {
    I128_MIN <= n <= I128_MAX
  }

  lemma {:induction false} ProductAtMost(a: int, b: int, c: int, d: int)
    requires 0 <= a <= b && 0 <= c <= d
    ensures 0 <= a * c <= b * d
  {
    assert a * c <= b * c;
    assert b * c <= b * d;
  }

  lemma {:induction false} ProductBounds(t: int, r: int)
    requires 0 <= t <= U64_MAX && I64_MIN <= r <= I64_MAX
    ensures U64_MAX * I64_MIN <= t * r <= U64_MAX * I64_MAX
  {
    if r >= 0 {
      ProductAtMost(t, U64_MAX, r, I64_MAX);
    } else {
      ProductAtMost(t, U64_MAX, -r, -I64_MIN);
      assert t * r == -(t * -r);
    }
  }

  /** For every count and every rate of either sign, no intermediate of `cost` leaves `i128`: each product fits,
      and so does each partial sum of the four quotients. */
  lemma {:induction false} NoIntermediateOverflow(price: Price, usage: Usage)
    ensures FitsI128(usage.inputTokens * price.input)
    ensures FitsI128(usage.outputTokens * price.output)
    ensures FitsI128(usage.cachedInputTokens * price.cachedInput)
    ensures FitsI128(usage.cacheWriteTokens * price.cacheWrite)
    ensures FitsI128(RateCost(usage.inputTokens, price.input) + RateCost(usage.outputTokens, price.output))
    ensures FitsI128(RateCost(usage.inputTokens, price.input) + RateCost(usage.outputTokens, price.output)
                     + RateCost(usage.cachedInputTokens, price.cachedInput))
    ensures FitsI128(Total(price, usage))
  {
    ProductBounds(usage.inputTokens, price.input);
    ProductBounds(usage.outputTokens, price.output);
    ProductBounds(usage.cachedInputTokens, price.cachedInput);
    ProductBounds(usage.cacheWriteTokens, price.cacheWrite);
  }

  lemma {:induction false} ProductNonNegative(t: U64, r: I64)
    requires r >= 0
    ensures t * r >= 0
  {
  }

  /** Each cost lies within four micro-cents below the exact rational price, and never above it, until it
      saturates; saturation happens exactly when the price is out of reach of `i64`. */
  lemma {:induction false} CostBounds(price: Price, usage: Usage)
    requires price.NonNegative()
    ensures 0 <= Cost(price, usage)
    ensures TOKENS_PER_RATE_UNIT * Total(price, usage) <= ExactPrice(price, usage)
            <= TOKENS_PER_RATE_UNIT * Total(price, usage) + 4 * (TOKENS_PER_RATE_UNIT - 1)
    ensures Cost(price, usage) == if Total(price, usage) <= I64_MAX then Total(price, usage) else I64_MAX
    ensures TOKENS_PER_RATE_UNIT * Cost(price, usage) <= ExactPrice(price, usage)
    ensures Cost(price, usage) < I64_MAX ==> ExactPrice(price, usage) < TOKENS_PER_RATE_UNIT * (Cost(price, usage) + 4)
  {
    ProductNonNegative(usage.inputTokens, price.input);
    ProductNonNegative(usage.outputTokens, price.output);
    ProductNonNegative(usage.cachedInputTokens, price.cachedInput);
    ProductNonNegative(usage.cacheWriteTokens, price.cacheWrite);
  }

  lemma {:induction false} RateCostMonotone(t: U64, u: U64, r: I64, s: I64)
    requires 0 <= r <= s && t <= u
    ensures 0 <= RateCost(t, r) <= RateCost(u, s)
  {
    assert 0 <= t * r;
    assert t * r <= u * r;
    assert u * r <= u * s;
  }

  /** Monotone in every count and in every rate. */
  lemma {:induction false} CostMonotone(price: Price, dearer: Price, usage: Usage, more: Usage)
    requires price.NonNegative() && price.AtMost(dearer) && usage.AtMost(more)
    ensures Cost(price, usage) <= Cost(dearer, more)
  {
    RateCostMonotone(usage.inputTokens, more.inputTokens, price.input, dearer.input);
    RateCostMonotone(usage.outputTokens, more.outputTokens, price.output, dearer.output);
    RateCostMonotone(usage.cachedInputTokens, more.cachedInputTokens, price.cachedInput, dearer.cachedInput);
    RateCostMonotone(usage.cacheWriteTokens, more.cacheWriteTokens, price.cacheWrite, dearer.cacheWrite);
  }

  // ---------- a backfill: many usages at one price ----------

  ghost predicate SumFits(u: Usage, v: Usage) {
    u.inputTokens + v.inputTokens <= U64_MAX && u.outputTokens + v.outputTokens <= U64_MAX
    && u.cachedInputTokens + v.cachedInputTokens <= U64_MAX && u.cacheWriteTokens + v.cacheWriteTokens <= U64_MAX
  }

  ghost function Add(u: Usage, v: Usage): Usage
    requires SumFits(u, v)
  {
    Usage(u.inputTokens + v.inputTokens, u.outputTokens + v.outputTokens,
          u.cachedInputTokens + v.cachedInputTokens, u.cacheWriteTokens + v.cacheWriteTokens)
  }

  /** The token counts of a whole backfill, when they still fit `u64`. */
  ghost function Combined(us: seq<Usage>): Option<Usage> {
    if us == [] then Some(Usage(0, 0, 0, 0))
    else match Combined(us[1..])
      case None => None
      case Some(rest) => if SumFits(us[0], rest) then Some(Add(us[0], rest)) else None
  }

  ghost function SumTotal(price: Price, us: seq<Usage>): int {
    if us == [] then 0 else Total(price, us[0]) + SumTotal(price, us[1..])
  }

  ghost function SumCost(price: Price, us: seq<Usage>): int {
    if us == [] then 0 else Cost(price, us[0]) + SumCost(price, us[1..])
  }

  lemma {:induction false} RateCostAdds(t: U64, u: U64, r: I64)
    requires r >= 0 && t + u <= U64_MAX
    ensures RateCost(t, r) + RateCost(u, r) <= RateCost(t + u, r) <= RateCost(t, r) + RateCost(u, r) + 1
  {
    assert (t + u) * r == t * r + u * r;
    ProductNonNegative(t, r);
    ProductNonNegative(u, r);
  }

  lemma {:induction false} TotalAdds(price: Price, u: Usage, v: Usage)
    requires price.NonNegative() && SumFits(u, v)
    ensures Total(price, u) + Total(price, v) <= Total(price, Add(u, v)) <= Total(price, u) + Total(price, v) + 4
  {
    RateCostAdds(u.inputTokens, v.inputTokens, price.input);
    RateCostAdds(u.outputTokens, v.outputTokens, price.output);
    RateCostAdds(u.cachedInputTokens, v.cachedInputTokens, price.cachedInput);
    RateCostAdds(u.cacheWriteTokens, v.cacheWriteTokens, price.cacheWrite);
  }

  lemma {:induction false} TotalOfSum(price: Price, us: seq<Usage>)
    requires price.NonNegative() && us != [] && Combined(us).Some?
    ensures SumTotal(price, us) <= Total(price, Combined(us).value) <= SumTotal(price, us) + 4 * (|us| - 1)
  {
    if |us| == 1 {
      assert us[1..] == [];
      assert Combined(us).value == us[0];
    } else {
      TotalOfSum(price, us[1..]);
      TotalAdds(price, us[0], Combined(us[1..]).value);
    }
  }

  lemma {:induction false} SumCostAgainstTotal(price: Price, us: seq<Usage>)
    requires price.NonNegative()
    ensures 0 <= SumCost(price, us) <= SumTotal(price, us)
    ensures SumCost(price, us) < SumTotal(price, us) ==> I64_MAX <= SumCost(price, us)
  {
    if us != [] {
      CostBounds(price, us[0]);
      SumCostAgainstTotal(price, us[1..]);
    }
  }

  /** Pricing a backfill in one go against pricing its calls one by one, saturation included: the sum of the
      prices never exceeds the price of the sum (short of the `i64` ceiling), and falls behind by at most four
      micro-cents per further call. */
  lemma {:induction false} PriceOfTheSum(price: Price, us: seq<Usage>)
    requires price.NonNegative() && us != [] && Combined(us).Some?
    ensures var whole := Cost(price, Combined(us).value);
            && (SumCost(price, us) <= whole || whole == I64_MAX)
            && whole <= SumCost(price, us) + 4 * (|us| - 1)
  {
    TotalOfSum(price, us);
    SumCostAgainstTotal(price, us);
    CostBounds(price, Combined(us).value);
  }

  ghost function Repeated(u: Usage, n: nat): seq<Usage> {
    if n == 0 then [] else [u] + Repeated(u, n - 1)
  }

  lemma {:induction false} WorstBackfill(n: nat)
    requires n <= TOKENS_PER_RATE_UNIT
    ensures var us := Repeated(Usage(999_999, 999_999, 999_999, 999_999), n);
            && |us| == n && SumCost(Price(1, 1, 1, 1), us) == 0
            && Combined(us) == Some(Usage(n * 999_999, n * 999_999, n * 999_999, n * 999_999))
  {
    if n > 0 {
      WorstBackfill(n - 1);
      var u := Usage(999_999, 999_999, 999_999, 999_999);
      var rest := Repeated(u, n - 1);
      assert Repeated(u, n)[1..] == rest;
      assert Cost(Price(1, 1, 1, 1), u) == 0;
    }
  }

  /** The bound of `PriceOfTheSum` is attained by backfills of every size up to a million calls, so no smaller
      constant would do. */
  lemma {:induction false} SumBoundIsTight(n: nat)
    requires 1 <= n <= TOKENS_PER_RATE_UNIT
    ensures exists us: seq<Usage> ::
              && |us| == n && Combined(us).Some?
              && Cost(Price(1, 1, 1, 1), Combined(us).value) == SumCost(Price(1, 1, 1, 1), us) + 4 * (n - 1)
  {
    WorstBackfill(n);
    var us := Repeated(Usage(999_999, 999_999, 999_999, 999_999), n);
    assert RateCost(n * 999_999, 1) == n - 1;
  }

  // ---------- the batch discount ----------

  /** Half, rounded away from losing the last micro-cent. */
  function Batched(full: I64): I64 {
    TruncDiv(full, 2) + TruncMod(full, 2)
  }

  ghost function SumBatched(price: Price, us: seq<Usage>): int {
    if us == [] then 0 else Batched(Cost(price, us[0])) + SumBatched(price, us[1..])
  }

  ghost function SumExact(price: Price, us: seq<Usage>): int {
    if us == [] then 0 else ExactPrice(price, us[0]) + SumExact(price, us[1..])
  }

  /** A single batched call is half price, never below it, and free only when the call itself was. */
  lemma {:induction false} BatchedHalves(full: I64)
    requires full >= 0
    ensures full <= 2 * Batched(full) <= full + 1
    ensures Batched(full) == 0 <==> full == 0
  {
  }

  /** Over a whole backfill the batched total is half the synchronous one to within half a micro-cent a call. */
  lemma {:induction false} BatchDiscount(price: Price, us: seq<Usage>)
    requires price.NonNegative()
    ensures 0 <= 2 * SumBatched(price, us) - SumCost(price, us) <= |us|
    ensures SumBatched(price, us) == 0 <==> SumCost(price, us) == 0
    ensures 0 <= SumBatched(price, us) && 0 <= SumCost(price, us)
  {
    if us != [] {
      CostBounds(price, us[0]);
      BatchedHalves(Cost(price, us[0]));
      BatchDiscount(price, us[1..]);
    }
  }

  ghost predicate NoneSaturate(price: Price, us: seq<Usage>) {
    forall i :: 0 <= i < |us| ==> Total(price, us[i]) <= I64_MAX
  }

  /** Against the exact list price, with no rounding anywhere: twice the batched total is strictly above it minus
      four micro-cents a call, and at most one micro-cent a call above it. */
  lemma {:induction false} BatchAgainstListPrice(price: Price, us: seq<Usage>)
    requires price.NonNegative() && NoneSaturate(price, us)
    ensures var twice := TOKENS_PER_RATE_UNIT * 2 * SumBatched(price, us);
            && (us != [] ==> SumExact(price, us) - TOKENS_PER_RATE_UNIT * 4 * |us| < twice)
            && twice <= SumExact(price, us) + TOKENS_PER_RATE_UNIT * |us|
  {
    if us != [] {
      CostBounds(price, us[0]);
      BatchedHalves(Cost(price, us[0]));
      BatchAgainstListPrice(price, us[1..]);
    }
  }

  // ---------- published rates ----------

  /** `f64::round`, on reals: half away from zero. */
  function Round(x: real): int {
    if x >= 0.0 then (x + 0.5).Floor else -((-x + 0.5).Floor)
  }

  /** A float-to-integer `as` cast saturates. */
  function SaturateI64(n: int): I64 {
    if n < I64_MIN then I64_MIN else if n > I64_MAX then I64_MAX else n
  }

  function MicroCents(dollars: real): I64 {
    SaturateI64(Round(dollars * 100000000.0))
  }

  function PerMtokDollars(input: real, output: real): Price {
    Price(MicroCents(input), MicroCents(output), MicroCents(input * 0.1), MicroCents(input * 1.25))
  }

  lemma {:induction false} MicroCentsMonotone(a: real, b: real)
    requires 0.0 <= a <= b
    ensures 0 <= MicroCents(a) <= MicroCents(b)
  {
  }

  /** A published price is never negative, a cached token never costs more than a fresh one, and a cache write
      never costs less. */
  lemma {:induction false} PublishedPriceShape(input: real, output: real)
    requires input >= 0.0 && output >= 0.0
    ensures PerMtokDollars(input, output).NonNegative()
    ensures PerMtokDollars(input, output).cachedInput <= PerMtokDollars(input, output).input
    ensures PerMtokDollars(input, output).input <= PerMtokDollars(input, output).cacheWrite
  {
    MicroCentsMonotone(0.0, output);
    MicroCentsMonotone(input * 0.1, input);
    MicroCentsMonotone(input, input * 1.25);
  }

  /** A rate is the micro-cent nearest to its dollars. */
  ghost predicate IsNearest(rate: I64, dollars: real) {
    dollars * 100000000.0 - 0.5 <= rate as real <= dollars * 100000000.0 + 0.5
  }

  /** A published price is, to the nearest micro-cent, its dollars in each direction, a tenth of the input's for a
      cached token, and five quarters of it for one written to a cache; a price too high to be one is the highest. */
  lemma {:induction false} PublishedPriceIsNearest(input: real, output: real)
    requires 0.0 <= input <= 70000000000.0 && 0.0 <= output <= 70000000000.0
    ensures var price := PerMtokDollars(input, output);
            && IsNearest(price.input, input) && IsNearest(price.output, output)
            && IsNearest(price.cachedInput, input / 10.0) && IsNearest(price.cacheWrite, input * 5.0 / 4.0)
  {
    MicroCentsAreNearest(input);
    MicroCentsAreNearest(output);
    MicroCentsAreNearest(input * 0.1);
    MicroCentsAreNearest(input * 1.25);
  }

  lemma {:induction false} MicroCentsAreNearest(dollars: real)
    requires 0.0 <= dollars <= 90000000000.0
    ensures IsNearest(MicroCents(dollars), dollars)
  {
  }

  /** An override as configuration spells it. */
  datatype ModelPrice = ModelPrice(inputDollars: real, outputDollars: real)

  type Table = map<string, Price>

  function DefaultTable(): Table {
    map[
      "claude-opus-5" := PerMtokDollars(5.0, 25.0),
      "claude-opus-4" := PerMtokDollars(5.0, 25.0),
      "claude-sonnet-5" := PerMtokDollars(3.0, 15.0),
      "claude-sonnet-4" := PerMtokDollars(3.0, 15.0),
      "claude-haiku-4-5" := PerMtokDollars(1.0, 5.0),
      "claude-fable-5" := PerMtokDollars(10.0, 50.0),
      "gpt-4o-mini" := PerMtokDollars(0.15, 0.6),
      "gpt-4o" := PerMtokDollars(2.5, 10.0),
      "gpt-4.1-mini" := PerMtokDollars(0.4, 1.6),
      "gpt-4.1" := PerMtokDollars(2.0, 8.0),
      "o4-mini" := PerMtokDollars(1.1, 4.4)
    ]
  }

  function Fallback(): Price {
    PerMtokDollars(10.0, 50.0)
  }

  // ---------- matching a model name ----------

  /** `iter().filter(starts_with).max_by_key(len)` over one enumeration of the table: of two equally long
      matches the later one wins. */
  function BestPrefix(order: seq<string>, model: string): Option<string> {
    if order == [] then None
    else
      var before := BestPrefix(order[..|order| - 1], model);
      var name := order[|order| - 1];
      if !(name <= model) then before
      else if before.Some? && |before.value| > |name| then before
      else Some(name)
  }

  ghost predicate Enumerates(order: seq<string>, table: Table) {
    forall name :: name in order <==> name in table
  }

  /** `order` is the order the map is walked in. */
  function ForModel(table: Table, order: seq<string>, model: string): Price
    requires Enumerates(order, table)
  {
    if model in table then table[model]
    else match BestPrefix(order, model)
      case Some(name) => BestPrefixIsAKey(order, model); table[name]
      case None => Fallback()
  }

  lemma {:induction false} BestPrefixIsAKey(order: seq<string>, model: string)
    ensures BestPrefix(order, model).Some? ==> BestPrefix(order, model).value in order
  {
    if order != [] {
      BestPrefixIsAKey(order[..|order| - 1], model);
    }
  }

  /** The specification: no other key that begins the model's name is longer. */
  ghost predicate IsLongestKey(table: Table, model: string, key: string) {
    && key in table && key <= model
    && forall other :: other in table && other <= model ==> |other| <= |key|
  }

  ghost predicate NoKeyMatches(table: Table, model: string) {
    forall key :: key in table ==> !(key <= model)
  }

  /** Two prefixes of one name that are equally long are the same string, which is why a tie cannot happen. */
  lemma {:induction false} LongestKeyIsUnique(table: Table, model: string, k1: string, k2: string)
    requires IsLongestKey(table, model, k1) && IsLongestKey(table, model, k2)
    ensures k1 == k2
  {
    assert k1 == model[..|k1|] && k2 == model[..|k2|];
  }

  lemma {:induction false} BestPrefixIsLongest(order: seq<string>, model: string)
    ensures match BestPrefix(order, model)
            case None => forall name :: name in order ==> !(name <= model)
            case Some(best) => best in order && best <= model
                               && forall name :: name in order && name <= model ==> |name| <= |best|
  {
    if order != [] {
      var init, last := order[..|order| - 1], order[|order| - 1];
      BestPrefixIsLongest(init, model);
      assert order == init + [last];
    }
  }

  /** `for_model` is longest-matching-prefix and nothing else: the exact-match branch changes no answer, the walk
      order changes no answer, and the fallback is charged exactly when no key begins the name. */
  lemma {:induction false} ForModelIsLongestPrefix(table: Table, order: seq<string>, model: string)
    requires Enumerates(order, table)
    ensures forall key :: IsLongestKey(table, model, key) ==> ForModel(table, order, model) == table[key]
    ensures (exists key :: IsLongestKey(table, model, key)) <==> !NoKeyMatches(table, model)
    ensures NoKeyMatches(table, model) ==> ForModel(table, order, model) == Fallback()
  {
    BestPrefixIsLongest(order, model);
    if model in table {
      assert IsLongestKey(table, model, model);
    } else if BestPrefix(order, model).Some? {
      assert IsLongestKey(table, model, BestPrefix(order, model).value);
    }
    forall key | IsLongestKey(table, model, key)
      ensures ForModel(table, order, model) == table[key]
    {
      if model in table {
        LongestKeyIsUnique(table, model, key, model);
      } else {
        LongestKeyIsUnique(table, model, key, BestPrefix(order, model).value);
      }
    }
  }

  function Estimate(table: Table, order: seq<string>, model: string, usage: Usage): I64
    requires Enumerates(order, table)
  {
    Cost(ForModel(table, order, model), usage)
  }

  function EstimateBatched(table: Table, order: seq<string>, model: string, usage: Usage): I64
    requires Enumerates(order, table)
  {
    Batched(Estimate(table, order, model, usage))
  }

  // ---------- overrides ----------

  function Published(rates: ModelPrice): Price {
    PerMtokDollars(rates.inputDollars, rates.outputDollars)
  }

  ghost function OverridePrices(overrides: map<string, ModelPrice>): Table {
    map name | name in overrides :: Published(overrides[name])
  }

  /** What a name is charged once some of the overrides are in. */
  ghost function PriceUnder(base: Table, overrides: map<string, ModelPrice>, pending: set<string>,
                            name: string): Option<Price> {
    if name in overrides && name !in pending then Some(Published(overrides[name])) else HeldIn(base, name)
  }

  /** Inserts the overrides one by one on top of a table. */
  method Overlay(base: Table, overrides: map<string, ModelPrice>) returns (table: Table)
    ensures table == base + OverridePrices(overrides)
  {
    table := base;
    var pending := overrides.Keys;
    while pending != {}
      invariant pending <= overrides.Keys
      invariant forall name :: HeldIn(table, name) == PriceUnder(base, overrides, pending, name)
      decreases |pending|
    {
      var name :| name in pending;
      ghost var before := table;
      table := table[name := Published(overrides[name])];
      assert forall other :: other != name ==> HeldIn(table, other) == HeldIn(before, other);
      pending := pending - {name};
    }
    OverlaidIsUnique(base, overrides, table);
  }

  lemma {:induction false} OverlaidIsUnique(base: Table, overrides: map<string, ModelPrice>, table: Table)
    requires forall name :: HeldIn(table, name) == PriceUnder(base, overrides, {}, name)
    ensures table == base + OverridePrices(overrides)
  {
    var merged := base + OverridePrices(overrides);
    forall name
      ensures HeldIn(table, name) == HeldIn(merged, name)
    {
      assert HeldIn(table, name) == PriceUnder(base, overrides, {}, name);
    }
    SameMap(table, merged);
  }

  /** The built-in table with a deployment's overrides applied on top: merged, never replaced. */
  method WithOverrides(overrides: map<string, ModelPrice>) returns (table: Table)
    ensures table == DefaultTable() + OverridePrices(overrides)
  {
    table := Overlay(DefaultTable(), overrides);
  }

  /** After merging, a name is priced by its longest override key when that is at least as long as its longest
      default key, and by the default table otherwise; a name no override key begins keeps its price. */
  lemma {:induction false} OverridesChangeOnlyTheirOwn(base: Table, overrides: Table, baseOrder: seq<string>,
      order: seq<string>, model: string)
    requires Enumerates(baseOrder, base) && Enumerates(order, base + overrides)
    ensures forall o :: IsLongestKey(overrides, model, o)
                        && (forall b :: b in base && b <= model ==> |b| <= |o|)
                        ==> ForModel(base + overrides, order, model) == overrides[o]
    ensures forall b :: IsLongestKey(base, model, b)
                        && (forall o :: o in overrides && o <= model ==> |o| < |b|)
                        ==> ForModel(base + overrides, order, model) == ForModel(base, baseOrder, model)
    ensures NoKeyMatches(overrides, model)
            ==> ForModel(base + overrides, order, model) == ForModel(base, baseOrder, model)
  {
    var merged := base + overrides;
    ForModelIsLongestPrefix(merged, order, model);
    ForModelIsLongestPrefix(base, baseOrder, model);
    forall o | IsLongestKey(overrides, model, o) && forall b :: b in base && b <= model ==> |b| <= |o|
      ensures ForModel(merged, order, model) == overrides[o]
    {
      assert IsLongestKey(merged, model, o);
    }
    forall b | IsLongestKey(base, model, b) && forall o :: o in overrides && o <= model ==> |o| < |b|
      ensures ForModel(merged, order, model) == ForModel(base, baseOrder, model)
    {
      assert IsLongestKey(merged, model, b);
    }
    if NoKeyMatches(overrides, model) {
      if NoKeyMatches(base, model) {
        assert NoKeyMatches(merged, model);
      } else {
        var b :| IsLongestKey(base, model, b);
        assert IsLongestKey(merged, model, b);
      }
    }
  }

  /** An override charges what it says in each direction; and what an estimate charges is the cost at the longest
      matching key's price, or at the fallback where none matches, and half of it, rounded up, in a batch. */
  lemma {:induction false} EstimateIsTheLongestKeys(table: Table, overrides: map<string, ModelPrice>,
                                                    order: seq<string>,
                                                    model: string, usage: Usage)
    requires Enumerates(order, table)
    ensures forall key :: IsLongestKey(table, model, key)
                          ==> Estimate(table, order, model, usage) == Cost(table[key], usage)
    ensures NoKeyMatches(table, model)
            ==> Estimate(table, order, model, usage) == Cost(PerMtokDollars(10.0, 50.0), usage)
    ensures var full := Estimate(table, order, model, usage);
            full >= 0 ==> full <= 2 * EstimateBatched(table, order, model, usage) <= full + 1
    ensures forall name :: name in overrides
                           ==> name in OverridePrices(overrides)
                               && OverridePrices(overrides)[name]
                                  == PerMtokDollars(overrides[name].inputDollars, overrides[name].outputDollars)
  {
    ForModelIsLongestPrefix(table, order, model);
    if Estimate(table, order, model, usage) >= 0 {
      BatchedHalves(Estimate(table, order, model, usage));
    }
  }

  // ---------- the default table ----------

  lemma {:induction false} ListedPrice(input: real, output: real)
    requires 0.15 <= input <= 10.0 && 0.6 <= output <= 50.0
    ensures PerMtokDollars(input, output).NonNegative()
    ensures PerMtokDollars(input, output).AtMost(Fallback())
    ensures var p := PerMtokDollars(input, output);
            p.input >= TOKENS_PER_RATE_UNIT && p.output >= TOKENS_PER_RATE_UNIT
            && p.cachedInput >= TOKENS_PER_RATE_UNIT && p.cacheWrite >= TOKENS_PER_RATE_UNIT
  {
    MicroCentsMonotone(input, 10.0);
    MicroCentsMonotone(output, 50.0);
    MicroCentsMonotone(input * 0.1, 10.0 * 0.1);
    MicroCentsMonotone(input * 1.25, 10.0 * 1.25);
    MicroCentsMonotone(0.15, input);
    MicroCentsMonotone(0.6, output);
    MicroCentsMonotone(0.15 * 0.1, input * 0.1);
    MicroCentsMonotone(0.15 * 1.25, input * 1.25);
    assert Round(0.15 * 0.1 * 100000000.0) == 1_500_000;
  }

  /** Whatever model answered, under the default table: the price charged has every rate between one micro-cent a
      token and the fallback's. */
  lemma {:induction false} DefaultPriceRange(order: seq<string>, model: string)
    requires Enumerates(order, DefaultTable())
    ensures var p := ForModel(DefaultTable(), order, model);
            && p.NonNegative() && p.AtMost(Fallback())
            && p.input >= TOKENS_PER_RATE_UNIT && p.output >= TOKENS_PER_RATE_UNIT
            && p.cachedInput >= TOKENS_PER_RATE_UNIT && p.cacheWrite >= TOKENS_PER_RATE_UNIT
  {
    ListedPrice(5.0, 25.0);
    ListedPrice(3.0, 15.0);
    ListedPrice(1.0, 5.0);
    ListedPrice(10.0, 50.0);
    ListedPrice(0.15, 0.6);
    ListedPrice(2.5, 10.0);
    ListedPrice(0.4, 1.6);
    ListedPrice(2.0, 8.0);
    ListedPrice(1.1, 4.4);
    BestPrefixIsAKey(order, model);
  }

  lemma {:induction false} AtLeastOnePerToken(t: U64, r: I64)
    requires r >= TOKENS_PER_RATE_UNIT
    ensures RateCost(t, r) >= t
  {
    assert t * r >= t * TOKENS_PER_RATE_UNIT;
  }

  lemma {:induction false} TotalAtLeastTokens(p: Price, usage: Usage)
    requires p.input >= TOKENS_PER_RATE_UNIT && p.output >= TOKENS_PER_RATE_UNIT
    requires p.cachedInput >= TOKENS_PER_RATE_UNIT && p.cacheWrite >= TOKENS_PER_RATE_UNIT
    ensures Total(p, usage) >= usage.inputTokens + usage.outputTokens + usage.cachedInputTokens + usage.cacheWriteTokens
  {
    AtLeastOnePerToken(usage.inputTokens, p.input);
    AtLeastOnePerToken(usage.outputTokens, p.output);
    AtLeastOnePerToken(usage.cachedInputTokens, p.cachedInput);
    AtLeastOnePerToken(usage.cacheWriteTokens, p.cacheWrite);
  }

  lemma {:induction false} TokensAreNotFree(p: Price, usage: Usage)
    requires p.input >= TOKENS_PER_RATE_UNIT && p.output >= TOKENS_PER_RATE_UNIT
    requires p.cachedInput >= TOKENS_PER_RATE_UNIT && p.cacheWrite >= TOKENS_PER_RATE_UNIT
    requires usage != Usage(0, 0, 0, 0)
    ensures Cost(p, usage) >= 1 && Batched(Cost(p, usage)) >= 1
  {
    TotalAtLeastTokens(p, usage);
    var total := Total(p, usage);
    assert total >= 1;
    assert Cost(p, usage) == if total <= I64_MAX then total else I64_MAX;
    BatchedHalves(Cost(p, usage));
  }

  /** Under the default table an unpriced model is never the cheap one, and no call that used a token is free,
      batched or not. */
  lemma {:induction false} NoCallIsFree(order: seq<string>, model: string, usage: Usage)
    requires Enumerates(order, DefaultTable())
    ensures Estimate(DefaultTable(), order, model, usage) <= Cost(Fallback(), usage)
    ensures usage != Usage(0, 0, 0, 0) ==> Estimate(DefaultTable(), order, model, usage) >= 1
                                           && EstimateBatched(DefaultTable(), order, model, usage) >= 1
  {
    var table := DefaultTable();
    DefaultPriceRange(order, model);
    CostMonotone(ForModel(table, order, model), Fallback(), usage, usage);
    if usage != Usage(0, 0, 0, 0) {
      TokensAreNotFree(ForModel(table, order, model), usage);
    }
  }
}
