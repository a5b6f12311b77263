/** The cost of token usage under a price card: `model_price_card.rs`. */
module PriceCard {
  import opened Common

  const PICO_PER_MICRO := 1_000_000

  datatype Rate = Rate(input: U64, output: U64, cacheRead: U64, cacheWrite: U64)
  datatype Tokens = Tokens(input: U64, output: U64, cacheRead: U64, cacheWrite: U64)

  /** A price card: model ids with their pico-USD per token, looked up by exact id. */
  type Card = seq<(string, Rate)>

  function RateFor(card: Card, model: string): Option<Rate> {
    if card == [] then None else if card[0].0 == model then Some(card[0].1) else RateFor(card[1..], model)
  }

  /** Pair `i` is the first of the card with this model. */
  ghost predicate FirstListed(card: Card, model: string, i: nat) {
    i < |card| && card[i].0 == model && forall j :: 0 <= j < i ==> card[j].0 != model
  }

  /** The rate found is that of the first pair with exactly this model, and there is none when no pair
      has it. */
  lemma {:induction false} RateIsFirstListed(card: Card, model: string)
    ensures RateFor(card, model).None? <==> forall i :: 0 <= i < |card| ==> card[i].0 != model
    ensures forall i: nat :: FirstListed(card, model, i) ==> RateFor(card, model) == Some(card[i].1)
  {
    if card == [] {
    } else {
      RateIsFirstListed(card[1..], model);
      assert forall i :: 0 < i < |card| ==> card[i] == card[1..][i - 1];
      forall i: nat | FirstListed(card, model, i) ensures RateFor(card, model) == Some(card[i].1) {
        if i > 0 { assert FirstListed(card[1..], model, i - 1); }
      }
    }
  }

  function CheckedMul(a: U64, b: U64): Option<U64> { if 0 <= a * b < U64_LIMIT then Some(a * b) else None }

  function CheckedAdd(a: Option<U64>, b: Option<U64>): Option<U64> {
    if a.None? || b.None? || a.value + b.value >= U64_LIMIT then None else Some(a.value + b.value)
  }

  /** `cost_micros`: every product and every sum is checked, in this order. */
  function CostMicros(card: Card, model: string, t: Tokens): Option<U64> {
    var rate := RateFor(card, model);
    if rate.None? then None
    else
      var r := rate.value;
      var pico := CheckedAdd(CheckedAdd(CheckedAdd(CheckedMul(t.input, r.input), CheckedMul(t.output, r.output)),
                                        CheckedMul(t.cacheRead, r.cacheRead)), CheckedMul(t.cacheWrite, r.cacheWrite));
      if pico.None? then None else Some(pico.value / PICO_PER_MICRO)
  }

  /** The exact cost in pico-USD, unbounded. */
  function ExactPico(r: Rate, t: Tokens): int {
    t.input * r.input + t.output * r.output + t.cacheRead * r.cacheRead + t.cacheWrite * r.cacheWrite
  }

  lemma ProductNonNegative(a: U64, b: U64)
    ensures a * b >= 0
  {
  }

  /** A cost is reported exactly when the model is listed and the exact sum fits in 64 bits,
      whatever the checked steps in between, and it is the exact cost rounded down. */
  lemma CostIsExactFloor(card: Card, model: string, t: Tokens)
    ensures CostMicros(card, model, t).Some? <==>
              RateFor(card, model).Some? && ExactPico(RateFor(card, model).value, t) < U64_LIMIT
    ensures CostMicros(card, model, t).Some? ==>
              CostMicros(card, model, t).value == ExactPico(RateFor(card, model).value, t) / PICO_PER_MICRO
  {
    if RateFor(card, model).Some? {
      var r := RateFor(card, model).value;
      ProductNonNegative(t.input, r.input);
      ProductNonNegative(t.output, r.output);
      ProductNonNegative(t.cacheRead, r.cacheRead);
      ProductNonNegative(t.cacheWrite, r.cacheWrite);
    }
  }

  /** The usage of several batches together is `total`, field by field. */
  ghost predicate IsCombined(batches: seq<Tokens>, total: Tokens) {
    if batches == [] then total == Tokens(0, 0, 0, 0)
    else exists rest: Tokens :: IsCombined(batches[1..], rest) &&
           total.input == batches[0].input + rest.input && total.output == batches[0].output + rest.output &&
           total.cacheRead == batches[0].cacheRead + rest.cacheRead &&
             total.cacheWrite == batches[0].cacheWrite + rest.cacheWrite
  }

  function SumCosts(card: Card, model: string, batches: seq<Tokens>): int {
    if batches == [] then 0
    else (if CostMicros(card, model, batches[0]).Some? then CostMicros(card, model, batches[0]).value else 0) +
         SumCosts(card, model, batches[1..])
  }

  lemma PicoAdds(r: Rate, a: Tokens, b: Tokens, c: Tokens)
    requires c.input == a.input + b.input && c.output == a.output + b.output
    requires c.cacheRead == a.cacheRead + b.cacheRead && c.cacheWrite == a.cacheWrite + b.cacheWrite
    ensures ExactPico(r, c) == ExactPico(r, a) + ExactPico(r, b) && ExactPico(r, a) >= 0 && ExactPico(r, b) >= 0
  {
    ProductNonNegative(a.input, r.input);
    ProductNonNegative(a.output, r.output);
    ProductNonNegative(a.cacheRead, r.cacheRead);
    ProductNonNegative(a.cacheWrite, r.cacheWrite);
    ProductNonNegative(b.input, r.input);
    ProductNonNegative(b.output, r.output);
    ProductNonNegative(b.cacheRead, r.cacheRead);
    ProductNonNegative(b.cacheWrite, r.cacheWrite);
  }

  /** Batching loses at most a micro-USD per extra batch: when the combined usage has a cost, so has
      every batch, and the combined cost is at least their sum and at most n - 1 more. */
  lemma {:induction false} BatchingBound(card: Card, model: string, batches: seq<Tokens>, total: Tokens)
    requires batches != [] && IsCombined(batches, total) && CostMicros(card, model, total).Some?
    ensures forall i :: 0 <= i < |batches| ==> CostMicros(card, model, batches[i]).Some?
    ensures 0 <= CostMicros(card, model, total).value - SumCosts(card, model, batches) <= |batches| - 1
  {
    var r := RateFor(card, model).value;
    var first := batches[0];
    var rest: Tokens :| IsCombined(batches[1..], rest) &&
      total.input == first.input + rest.input && total.output == first.output + rest.output &&
      total.cacheRead == first.cacheRead + rest.cacheRead && total.cacheWrite == first.cacheWrite + rest.cacheWrite;
    PicoAdds(r, first, rest, total);
    CostIsExactFloor(card, model, total);
    CostIsExactFloor(card, model, first);
    CostIsExactFloor(card, model, rest);
    if |batches| > 1 {
      BatchingBound(card, model, batches[1..], rest);
      assert forall i :: 1 <= i < |batches| ==> batches[i] == batches[1..][i - 1];
    } else {
      assert batches[1..] == [] && ExactPico(r, rest) == 0;
    }
  }
}
