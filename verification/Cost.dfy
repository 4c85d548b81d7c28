/** Token usage, prices and the per-tier cost of a request (src/billing.rs). */
module Cost {
  import opened Prelude

  const MICRO := 1_000_000

  datatype Usage = Usage(input: int, output: int, cacheRead: int, cacheWrite: int) {
    function Plus(u: Usage): Usage {
      Usage(input + u.input, output + u.output, cacheRead + u.cacheRead, cacheWrite + u.cacheWrite)
    }
    predicate AtMost(u: Usage) {
      input <= u.input && output <= u.output && cacheRead <= u.cacheRead && cacheWrite <= u.cacheWrite
    }
  }

  const ZERO_USAGE := Usage(0, 0, 0, 0)

  /** Prices in micro-CNY per million tokens. */
  datatype Prices = Prices(input: int, output: int, cacheRead: int, cacheWrite: int) {
    predicate AtMost(p: Prices) {
      input <= p.input && output <= p.output && cacheRead <= p.cacheRead && cacheWrite <= p.cacheWrite
    }
  }

  /** One tier: the ceiling of tokens * price / 10^6, dirty values clamped to 0, saturating at I64_MAX. */
  function LineCostMicro(tokens: int, price: int): int {
    if tokens <= 0 then 0
    else
      var quotient := (tokens * Max(price, 0) + MICRO - 1) / MICRO;
      Min(quotient, I64_MAX)
  }

  /** The sum of the tiers over the integers. */
  function CostSum(u: Usage, p: Prices): int {
    LineCostMicro(u.input, p.input) + LineCostMicro(u.output, p.output)
    + LineCostMicro(u.cacheRead, p.cacheRead) + LineCostMicro(u.cacheWrite, p.cacheWrite)
  }

  const WRAP := 0x1_0000_0000_0000_0000

  /** Two's-complement wrap-around of a 64-bit release build. */
  function Wrap64(x: int): int { (x - I64_MIN) % WRAP + I64_MIN }

  /** The source adds the four tiers with plain `+`. */
  function ComputeCostMicro(u: Usage, p: Prices): int { Wrap64(CostSum(u, p)) }

  /** What a tier owes before rounding, scaled by 10^6. */
  function LineExact(tokens: int, price: int): int { Max(tokens, 0) * Max(price, 0) }

  function CostExact(u: Usage, p: Prices): int {
    LineExact(u.input, p.input) + LineExact(u.output, p.output)
    + LineExact(u.cacheRead, p.cacheRead) + LineExact(u.cacheWrite, p.cacheWrite)
  }

  predicate Unsaturated(u: Usage, p: Prices) {
    && LineExact(u.input, p.input) <= 1_000_000 * I64_MAX
    && LineExact(u.output, p.output) <= 1_000_000 * I64_MAX
    && LineExact(u.cacheRead, p.cacheRead) <= 1_000_000 * I64_MAX
    && LineExact(u.cacheWrite, p.cacheWrite) <= 1_000_000 * I64_MAX
  }

  lemma Nonneg(a: int, b: int)
    requires 0 <= a && 0 <= b
    ensures 0 <= a * b
  {
  }

  lemma CeilDiv(x: int)
    requires 0 <= x
    ensures var q := (x + 1_000_000 - 1) / 1_000_000; 0 <= 1_000_000 * q - x <= 1_000_000 - 1
  {
  }

  lemma LineCeiling(tokens: int, price: int)
    ensures LineExact(tokens, price) >= 0
    ensures 0 <= LineCostMicro(tokens, price) <= I64_MAX
    ensures LineExact(tokens, price) > 1_000_000 * I64_MAX ==> LineCostMicro(tokens, price) == I64_MAX
    ensures LineExact(tokens, price) <= 1_000_000 * I64_MAX ==>
              0 <= 1_000_000 * LineCostMicro(tokens, price) - LineExact(tokens, price) <= 1_000_000 - 1
  {
    Nonneg(Max(tokens, 0), Max(price, 0));
    if tokens > 0 {
      CeilDiv(tokens * Max(price, 0));
    }
  }

  /** The sum over the integers never under-bills and over-bills by less than four micro. */
  lemma SumBounds(u: Usage, p: Prices)
    requires Unsaturated(u, p)
    ensures 0 <= 1_000_000 * CostSum(u, p) - CostExact(u, p) <= 4 * (1_000_000 - 1)
  {
    LineCeiling(u.input, p.input);
    LineCeiling(u.output, p.output);
    LineCeiling(u.cacheRead, p.cacheRead);
    LineCeiling(u.cacheWrite, p.cacheWrite);
  }

  lemma SumRange(u: Usage, p: Prices)
    ensures 0 <= CostSum(u, p) <= 4 * I64_MAX
  {
    LineCeiling(u.input, p.input);
    LineCeiling(u.output, p.output);
    LineCeiling(u.cacheRead, p.cacheRead);
    LineCeiling(u.cacheWrite, p.cacheWrite);
  }

  /** How often the additions wrap. */
  function Wraps(u: Usage, p: Prices): int { (CostSum(u, p) - I64_MIN) / WRAP }

  lemma WrapsOff(u: Usage, p: Prices)
    ensures ComputeCostMicro(u, p) == CostSum(u, p) - Wraps(u, p) * WRAP
    ensures 0 <= Wraps(u, p) && (Wraps(u, p) == 0 <==> CostSum(u, p) <= I64_MAX)
  {
    SumRange(u, p);
    var x := CostSum(u, p) - I64_MIN;
    assert x == WRAP * (x / WRAP) + x % WRAP;
  }

  /** The plain additions compute the sum exactly when it fits 64 bits. */
  lemma CostExactIffFits(u: Usage, p: Prices)
    ensures ComputeCostMicro(u, p) == CostSum(u, p) <==> CostSum(u, p) <= I64_MAX
    ensures CostSum(u, p) <= I64_MAX ==> 0 <= ComputeCostMicro(u, p)
  {
    WrapsOff(u, p);
    SumRange(u, p);
  }

  /** Without saturation, a request is never under-billed and over-billed by less than four micro exactly when the sum
      of its tiers fits 64 bits. */
  lemma CostBounds(u: Usage, p: Prices)
    requires Unsaturated(u, p)
    ensures 0 <= 1_000_000 * ComputeCostMicro(u, p) - CostExact(u, p) <= 4 * (1_000_000 - 1) <==> CostSum(u, p) <= I64_MAX
  {
    SumBounds(u, p);
    WrapsOff(u, p);
  }

  lemma LineMonotone(t: int, t': int, p: int, p': int)
    requires t <= t' && p <= p'
    ensures LineExact(t, p) <= LineExact(t', p')
    ensures LineCostMicro(t, p) <= LineCostMicro(t', p')
  {
    var a, a', b, b' := Max(t, 0), Max(t', 0), Max(p, 0), Max(p', 0);
    Nonneg(a' - a, b);
    Nonneg(a', b' - b);
    assert a' * b' - a * b == (a' - a) * b + a' * (b' - b);
    LineCeiling(t, p);
    LineCeiling(t', p');
  }

  lemma SumMonotone(u: Usage, v: Usage, p: Prices, q: Prices)
    requires u.AtMost(v) && p.AtMost(q)
    ensures CostSum(u, p) <= CostSum(v, q)
  {
    LineMonotone(u.input, v.input, p.input, q.input);
    LineMonotone(u.output, v.output, p.output, q.output);
    LineMonotone(u.cacheRead, v.cacheRead, p.cacheRead, q.cacheRead);
    LineMonotone(u.cacheWrite, v.cacheWrite, p.cacheWrite, q.cacheWrite);
  }

  lemma LineFree(tokens: int, price: int)
    requires tokens <= 0 || price <= 0
    ensures LineCostMicro(tokens, price) == 0
  {
    if tokens > 0 {
      assert tokens * Max(price, 0) == 0;
    }
  }

  /** A price is per million tokens, in every tier; negative counts and prices cost nothing. */
  lemma MillionTokens(price: int)
    requires 0 <= price <= I64_MAX
    ensures forall q: Prices | q.input == price :: ComputeCostMicro(Usage(1_000_000, 0, 0, 0), q) == price
    ensures forall q: Prices | q.output == price :: ComputeCostMicro(Usage(0, 1_000_000, 0, 0), q) == price
    ensures forall q: Prices | q.cacheRead == price :: ComputeCostMicro(Usage(0, 0, 1_000_000, 0), q) == price
    ensures forall q: Prices | q.cacheWrite == price :: ComputeCostMicro(Usage(0, 0, 0, 1_000_000), q) == price
  {
    assert LineCostMicro(1_000_000, price) == price;
  }

  lemma DirtyValuesFree(u: Usage, q: Prices)
    requires (u.input <= 0 || q.input <= 0) && (u.output <= 0 || q.output <= 0)
    requires (u.cacheRead <= 0 || q.cacheRead <= 0) && (u.cacheWrite <= 0 || q.cacheWrite <= 0)
    ensures ComputeCostMicro(u, q) == 0
  {
    LineFree(u.input, q.input);
    LineFree(u.output, q.output);
    LineFree(u.cacheRead, q.cacheRead);
    LineFree(u.cacheWrite, q.cacheWrite);
  }

  /** More tokens or higher prices never cost less, clamping and saturation included, if the larger sum fits. */
  lemma CostMonotone(u: Usage, v: Usage, p: Prices, q: Prices)
    requires u.AtMost(v) && p.AtMost(q) && CostSum(v, q) <= I64_MAX
    ensures ComputeCostMicro(u, p) <= ComputeCostMicro(v, q)
  {
    SumMonotone(u, v, p, q);
    CostExactIffFits(u, p);
    CostExactIffFits(v, q);
  }

  /** Nothing up to `v` at these prices costs less than what it contains. */
  ghost predicate MonotoneUpTo(v: Usage, q: Prices) {
    forall u: Usage, w: Usage | u.AtMost(w) && w.AtMost(v) :: ComputeCostMicro(u, q) <= ComputeCostMicro(w, q)
  }

  lemma NegativeOnceWrapped(u: Usage, p: Prices)
    requires I64_MAX < CostSum(u, p) < WRAP
    ensures ComputeCostMicro(u, p) < 0
  {
    WrapsOff(u, p);
  }

  /** The sum without the last tier, or without the last two. */
  lemma PartialSums(v: Usage, q: Prices)
    ensures var three := v.(cacheWrite := Min(v.cacheWrite, 0));
            var two := three.(cacheRead := Min(v.cacheRead, 0));
            && 0 <= CostSum(two, q) <= CostSum(three, q) <= CostSum(v, q)
            && CostSum(two, q) <= 2 * I64_MAX
            && CostSum(three, q) <= CostSum(two, q) + I64_MAX && CostSum(v, q) <= CostSum(three, q) + I64_MAX
  {
    LineCeiling(v.input, q.input);
    LineCeiling(v.output, q.output);
    LineCeiling(v.cacheRead, q.cacheRead);
    LineCeiling(v.cacheWrite, q.cacheWrite);
    assert LineCostMicro(Min(v.cacheRead, 0), q.cacheRead) == 0;
    assert LineCostMicro(Min(v.cacheWrite, 0), q.cacheWrite) == 0;
  }

  /** Past 64 bits, some part of the usage has a negative cost: the sum first wraps at some tier. */
  lemma FirstWrap(v: Usage, q: Prices) returns (w: Usage)
    requires CostSum(v, q) > I64_MAX
    ensures w.AtMost(v) && ComputeCostMicro(w, q) < 0
  {
    PartialSums(v, q);
    var three := v.(cacheWrite := Min(v.cacheWrite, 0));
    var two := three.(cacheRead := Min(v.cacheRead, 0));
    w := if CostSum(two, q) > I64_MAX then two else if CostSum(three, q) > I64_MAX then three else v;
    NegativeOnceWrapped(w, q);
  }

  /** So the cost is monotone up to a usage exactly when that usage fits. */
  lemma MonotoneIffFits(v: Usage, q: Prices)
    ensures MonotoneUpTo(v, q) <==> CostSum(v, q) <= I64_MAX
  {
    if CostSum(v, q) <= I64_MAX {
      forall u: Usage, w: Usage | u.AtMost(w) && w.AtMost(v)
        ensures ComputeCostMicro(u, q) <= ComputeCostMicro(w, q)
      {
        SumMonotone(w, v, q, q);
        CostMonotone(u, w, q, q);
      }
    } else {
      var w := FirstWrap(v, q);
      var u := Usage(Min(w.input, 0), Min(w.output, 0), Min(w.cacheRead, 0), Min(w.cacheWrite, 0));
      assert ComputeCostMicro(u, q) == 0 && u.AtMost(w);
    }
  }

  lemma Distribute(s: int, t: int, b: int)
    requires 0 <= s && 0 <= t && 0 <= b
    ensures (s + t) * b == s * b + t * b
    ensures 0 <= s * b && 0 <= t * b
  {
  }

  lemma LineSplit(s: int, t: int, p: int)
    requires 0 <= s && 0 <= t && LineExact(s + t, p) <= 1_000_000 * I64_MAX
    ensures LineCostMicro(s + t, p) <= LineCostMicro(s, p) + LineCostMicro(t, p) <= LineCostMicro(s + t, p) + 1
  {
    Distribute(s, t, Max(p, 0));
    LineCeiling(s, p);
    LineCeiling(t, p);
    LineCeiling(s + t, p);
  }

  lemma SumSplit(u: Usage, v: Usage, p: Prices)
    requires ZERO_USAGE.AtMost(u) && ZERO_USAGE.AtMost(v) && Unsaturated(u.Plus(v), p)
    ensures CostSum(u.Plus(v), p) <= CostSum(u, p) + CostSum(v, p) <= CostSum(u.Plus(v), p) + 4
  {
    LineSplit(u.input, v.input, p.input);
    LineSplit(u.output, v.output, p.output);
    LineSplit(u.cacheRead, v.cacheRead, p.cacheRead);
    LineSplit(u.cacheWrite, v.cacheWrite, p.cacheWrite);
  }

  /** Billing one request in two parts costs at most four micro more, and never less, exactly when the whole wraps as
      often as its parts together; so in particular when the whole fits. */
  lemma CostSplit(u: Usage, v: Usage, p: Prices)
    requires ZERO_USAGE.AtMost(u) && ZERO_USAGE.AtMost(v) && Unsaturated(u.Plus(v), p)
    ensures var whole, parts := ComputeCostMicro(u.Plus(v), p), ComputeCostMicro(u, p) + ComputeCostMicro(v, p);
            && (whole <= parts <= whole + 4 <==> Wraps(u.Plus(v), p) == Wraps(u, p) + Wraps(v, p))
            && (CostSum(u.Plus(v), p) <= I64_MAX ==> whole <= parts <= whole + 4)
  {
    SumSplit(u, v, p);
    SumMonotone(u, u.Plus(v), p, p);
    SumMonotone(v, u.Plus(v), p, p);
    WrapsOff(u, p);
    WrapsOff(v, p);
    WrapsOff(u.Plus(v), p);
  }

  /** Two tiers at the 64-bit maximum wrap to a negative cost: they reach it exactly at one CNY per million tokens, and
      saturate there, so as never to bill too little, at any higher price. */
  lemma FullTiersWrap(price: int)
    requires price >= 1_000_000
    ensures ComputeCostMicro(Usage(I64_MAX, I64_MAX, 0, 0), Prices(price, price, 0, 0)) == -2
  {
    LineMonotone(I64_MAX, I64_MAX, 1_000_000, price);
    LineCeiling(I64_MAX, price);
  }
}
