/**
 * Exact billing of model usage: src/core/ai-cost-meter.js. A price is a JavaScript number in US dollars per
 * million tokens, so tokens times price is in millionths of a dollar.
 */
module CostMeter {
  import opened Common
  import opened JsNumber

  // ------------------------------------------------------- exact fractions

  function Pow10(e: nat): (p: nat)
    ensures p > 0
  {
    if e == 0 then 1 else 10 * Pow10(e - 1)
  }

  /** Ten to any integer power. */
  function Scale10(e: int): real {
    if e >= 0 then Pow10(e) as real else 1.0 / Pow10(-e) as real
  }

  /** m times ten to the power e. */
  function Scaled(m: nat, e: int): real { m as real * Scale10(e) }

  predicate IsPrice(x: Finite) { x.NonZero? ==> !x.negative }

  /** The number itself: 0.DIGITS times ten to the power `point`. */
  function RateOf(x: Finite): real
    requires IsPrice(x)
  {
    match x
    case NonZero(_, digits, point) => Scaled(NatOf(digits), point - |digits|)
    case _ => 0.0
  }

  datatype Fraction = Fraction(numerator: nat, denominator: nat)

  datatype Error =
    | NotExact | ExponentInvalid | OutsideSafeRange | BadRecord | DuplicateInvocation | AggregateOverflow | TooMany

  /** The captures of the printed price, joined to one integer over a power of ten. */
  function FractionOf(d: Decimal): Result<Fraction, Error>
    requires DecimalValid(d)
  {
    if d.exponent < -1000 || d.exponent > 1000 then Err(ExponentInvalid)
    else
      var numerator := NatOf(d.whole + d.fraction);
      var scale := |d.fraction| - d.exponent;
      if scale < 0 then Ok(Fraction(numerator * Pow10(-scale), 1)) else Ok(Fraction(numerator, Pow10(scale)))
  }

  function DecimalFraction(x: Finite): Result<Fraction, Error> {
    match ReadDecimal(Print(x))
    case None => Err(NotExact)
    case Some((d, rest)) => if d.negative || rest != [] then Err(NotExact) else FractionOf(d)
  }

  lemma TimesTen(a: nat, b: nat)
    ensures 10 * (a * b) == a * (10 * b)
  {
  }

  lemma {:induction false} NatOfTrailingZeros(digits: Text, k: nat)
    requires AllDigits(digits)
    ensures AllDigits(digits + Zeros(k)) && NatOf(digits + Zeros(k)) == NatOf(digits) * Pow10(k)
    decreases k
  {
    if k == 0 {
      assert digits + Zeros(0) == digits;
    } else {
      NatOfTrailingZeros(digits, k - 1);
      var t := digits + Zeros(k);
      assert t[..|t| - 1] == digits + Zeros(k - 1);
      TimesTen(NatOf(digits), Pow10(k - 1));
    }
  }

  lemma {:induction false} NatOfLeadingZeros(k: nat, digits: Text)
    requires AllDigits(digits)
    ensures AllDigits(Zeros(k) + digits) && NatOf(Zeros(k) + digits) == NatOf(digits)
    decreases k + |digits|
  {
    var t := Zeros(k) + digits;
    if digits != [] {
      NatOfLeadingZeros(k, digits[..|digits| - 1]);
      assert t[..|t| - 1] == Zeros(k) + digits[..|digits| - 1];
    } else if k > 0 {
      NatOfLeadingZeros(k - 1, []);
      assert t[..|t| - 1] == Zeros(k - 1) + [];
    }
  }

  function ValueOf(f: Fraction): real
    requires f.denominator > 0
  {
    f.numerator as real / f.denominator as real
  }

  lemma ProductOfReals(a: nat, b: nat)
    ensures (a * b) as real == a as real * b as real
  {
  }

  lemma PowerQuotient(m: nat, scale: int)
    ensures scale < 0 ==> ValueOf(Fraction(m * Pow10(-scale), 1)) == Scaled(m, -scale)
    ensures scale >= 0 ==> ValueOf(Fraction(m, Pow10(scale))) == Scaled(m, -scale)
  {
    if scale < 0 {
      ProductOfReals(m, Pow10(-scale));
    } else if scale > 0 {
      Quotient(m, Pow10(scale));
    } else {
      assert Pow10(0) == 1;
    }
  }

  lemma FractionValue(d: Decimal)
    requires DecimalValid(d) && FractionOf(d).Ok?
    ensures FractionOf(d).value.denominator > 0
    ensures ValueOf(FractionOf(d).value) == Scaled(NatOf(d.whole + d.fraction), d.exponent - |d.fraction|)
  {
    hide ValueOf, Scaled, Pow10, NatOf;
    PowerQuotient(NatOf(d.whole + d.fraction), |d.fraction| - d.exponent);
  }

  lemma Quotient(a: nat, b: nat)
    requires b > 0
    ensures a as real / b as real == a as real * (1.0 / b as real)
  {
  }

  /** The digits the pattern captures, and what became of the point. */
  lemma CapturedDigits(digits: Text, n: int)
    requires Valid(NonZero(false, digits, n))
    ensures var d := Captures(false, digits, n);
            && DecimalValid(d)
            && (-5 <= n <= 21 && n >= |digits| ==>
                  NatOf(d.whole + d.fraction) == NatOf(digits) * Pow10(n - |digits|) && d.exponent - |d.fraction| == 0)
            && (!(-5 <= n <= 21 && n >= |digits|) ==>
                  NatOf(d.whole + d.fraction) == NatOf(digits) && d.exponent - |d.fraction| == n - |digits|)
  {
    CapturesValid(false, digits, n);
    var d := Captures(false, digits, n);
    if -5 <= n <= 21 && n >= |digits| {
      NatOfTrailingZeros(digits, n - |digits|);
      assert d.whole + d.fraction == digits + Zeros(n - |digits|);
    } else if -5 <= n <= 0 {
      NatOfLeadingZeros(1 - n, digits);
      assert d.whole + d.fraction == Zeros(1 - n) + digits;
    } else {
      assert d.whole + d.fraction == digits;
    }
  }

  lemma ScaledUp(m: nat, k: nat)
    ensures Scaled(m * Pow10(k), 0) == Scaled(m, k)
  {
    ProductOfReals(m, Pow10(k));
    assert Pow10(0) == 1;
  }

  /** The captures of a printed number still hold its value. */
  lemma CapturesKeepValue(digits: Text, n: int)
    requires Valid(NonZero(false, digits, n))
    ensures var d := Captures(false, digits, n);
            && DecimalValid(d)
            && Scaled(NatOf(d.whole + d.fraction), d.exponent - |d.fraction|) == Scaled(NatOf(digits), n - |digits|)
  {
    hide Scaled, Pow10, NatOf, Captures;
    CapturedDigits(digits, n);
    if -5 <= n <= 21 && n >= |digits| { ScaledUp(NatOf(digits), n - |digits|); }
  }

  lemma CapturedExponent(digits: Text, n: int)
    requires digits != []
    ensures Captures(false, digits, n).exponent == (if -5 <= n <= 21 then 0 else n - 1)
  {
  }

  lemma FractionExactly(d: Decimal)
    requires DecimalValid(d)
    ensures FractionOf(d).Ok? <==> -1000 <= d.exponent <= 1000
  {
    hide NatOf, Pow10;
  }

  lemma PriceFraction(digits: Text, n: int)
    requires Valid(NonZero(false, digits, n))
    ensures DecimalValid(Captures(false, digits, n))
    ensures var r := FractionOf(Captures(false, digits, n));
            && (r.Ok? <==> -5 <= n <= 21 || -999 <= n <= 1001)
            && (r.Ok? ==> r.value.denominator > 0 && ValueOf(r.value) == Scaled(NatOf(digits), n - |digits|))
  {
    hide NatOf, Scaled, Pow10, ValueOf, Captures, FractionOf;
    CapturesKeepValue(digits, n);
    CapturedExponent(digits, n);
    FractionExactly(Captures(false, digits, n));
    if FractionOf(Captures(false, digits, n)).Ok? { FractionValue(Captures(false, digits, n)); }
  }

  lemma PrintedPriceReads(digits: Text, n: int)
    requires Valid(NonZero(false, digits, n))
    ensures ReadDecimal(Print(NonZero(false, digits, n))) == Some((Captures(false, digits, n), []))
  {
    ReadPrintedMagnitude(false, digits, n, []);
    hide ReadDecimal, PrintMagnitude, Captures;
    assert [] + (PrintMagnitude(digits, n) + []) == Print(NonZero(false, digits, n));
  }

  lemma NothingScaled(e: int)
    ensures Scaled(0, e) == 0.0
  {
  }

  const ZERO: Decimal := Decimal(false, [ZERO_DIGIT], [], 0)

  lemma PrintedZeroReads()
    ensures ReadDecimal([ZERO_DIGIT]) == Some((ZERO, [])) && DecimalValid(ZERO) && NatOf(ZERO.whole + ZERO.fraction) == 0
  {
    ReadPrintedZero([]);
    assert [ZERO_DIGIT] + [] == [ZERO_DIGIT];
    assert [ZERO_DIGIT][..0] == [];
  }

  /**
   * The fraction is exactly the number, whichever way the number prints; the only refusal is an exponent out of
   * range, which no double has.
   */
  lemma DecimalFractionIsExact(x: Finite)
    requires IsPrice(x)
    ensures DecimalFraction(x).Ok? <==> (x.NonZero? ==> -5 <= x.point <= 21 || -999 <= x.point <= 1001)
    ensures DecimalFraction(x).Ok? ==> DecimalFraction(x).value.denominator > 0 && ValueOf(DecimalFraction(x).value) == RateOf(x)
  {
    if x.NonZero? {
      hide ReadDecimal, Print, NatOf, Scaled, Pow10, ValueOf, Captures, FractionOf;
      PrintedPriceReads(x.digits, x.point);
      PriceFraction(x.digits, x.point);
    } else {
      PrintedZeroReads();
      FractionValue(ZERO);
      NothingScaled(0 - 0);
    }
  }

  // --------------------------------------------------------------- billing

  function RoundedUp(tokens: nat, f: Fraction): nat
    requires f.denominator > 0
  {
    var raw := tokens * f.numerator;
    if raw == 0 then 0 else (raw + f.denominator - 1) / f.denominator
  }

  function BilledUsdMicros(tokens: nat, rate: Finite): Result<nat, Error>
    requires IsPrice(rate)
  {
    var f :- DecimalFraction(rate);
    DecimalFractionIsExact(rate);
    if RoundedUp(tokens, f) > MAX_SAFE_INTEGER then Err(OutsideSafeRange) else Ok(RoundedUp(tokens, f))
  }

  lemma RoundedUpBounds(raw: nat, d: nat)
    requires d > 0
    ensures var c := if raw == 0 then 0 else (raw + d - 1) / d; raw <= c * d < raw + d
  {
    if raw > 0 {
      var c := (raw + d - 1) / d;
      assert c * d + (raw + d - 1) % d == raw + d - 1;
    }
  }

  lemma Comparable(x: real, y: real, d: real)
    requires d > 0.0
    ensures x * d <= y * d <==> x <= y
    ensures x * d < y * d <==> x < y
  {
  }

  lemma QuotientTimes(a: real, b: real) returns (x: real)
    requires b > 0.0
    ensures x == a / b && x * b == a
  {
    x := a / b;
  }

  lemma OneMoreTime(x: real, d: real)
    ensures (x + 1.0) * d == x * d + d
  {
  }

  lemma BoundsFromProducts(x: real, c: real, d: real, xd: real, cd: real)
    requires d > 0.0 && xd == x * d && cd == c * d && xd <= cd < xd + d
    ensures x <= c < x + 1.0
  {
    OneMoreTime(x, d);
    Comparable(x, c, d);
    Comparable(c, x + 1.0, d);
  }

  lemma DividedBounds(raw: nat, d: nat, c: nat)
    requires d > 0 && raw <= c * d < raw + d
    ensures raw as real / d as real <= c as real < raw as real / d as real + 1.0
  {
    ProductOfReals(c, d);
    var product := c * d;
    assert raw as real <= product as real < raw as real + d as real;
    var x := QuotientTimes(raw as real, d as real);
    BoundsFromProducts(x, c as real, d as real, raw as real, product as real);
  }

  lemma TimesRate(tokens: nat, f: Fraction)
    requires f.denominator > 0
    ensures (tokens * f.numerator) as real / f.denominator as real == tokens as real * ValueOf(f)
  {
    var v := f.numerator as real / f.denominator as real;
    ProductOfReals(tokens, f.numerator);
    TimesQuotient(tokens as real, f.numerator as real, f.denominator as real);
  }

  lemma TimesQuotient(t: real, a: real, b: real)
    requires b > 0.0
    ensures (t * a) / b == t * (a / b)
  {
  }

  /** The exact price of the usage in micros, rounding nothing. */
  function ExactCost(tokens: nat, rate: Finite): real
    requires IsPrice(rate)
  {
    tokens as real * RateOf(rate)
  }

  lemma ExactCostAdds(a: nat, b: nat, rate: Finite)
    requires IsPrice(rate)
    ensures ExactCost(a + b, rate) == ExactCost(a, rate) + ExactCost(b, rate)
  {
    hide RateOf;
    assert (a + b) as real == a as real + b as real;
  }

  lemma ExactCostGrows(a: nat, b: nat, rate: Finite)
    requires IsPrice(rate) && a <= b
    ensures ExactCost(a, rate) <= ExactCost(b, rate)
  {
    RateIsNotNegative(rate);
    ExactCostAdds(a, b - a, rate);
    NotNegative((b - a) as real, RateOf(rate));
  }

  lemma NotNegative(x: real, y: real)
    requires x >= 0.0 && y >= 0.0
    ensures x * y >= 0.0
  {
  }

  /** The bill is the least whole number of micros that is not below the exact price of the usage. */
  lemma BilledIsLeast(tokens: nat, rate: Finite)
    requires IsPrice(rate) && DecimalFraction(rate).Ok?
    ensures DecimalFraction(rate).value.denominator > 0
    ensures var c := RoundedUp(tokens, DecimalFraction(rate).value);
            && ExactCost(tokens, rate) <= c as real < ExactCost(tokens, rate) + 1.0
            && (BilledUsdMicros(tokens, rate) == if c > MAX_SAFE_INTEGER then Err(OutsideSafeRange) else Ok(c))
  {
    hide DecimalFraction, RateOf, ValueOf;
    DecimalFractionIsExact(rate);
    var f := DecimalFraction(rate).value;
    RoundedUpBounds(tokens * f.numerator, f.denominator);
    DividedBounds(tokens * f.numerator, f.denominator, RoundedUp(tokens, f));
    TimesRate(tokens, f);
  }

  lemma BillBounds(tokens: nat, rate: Finite)
    requires IsPrice(rate) && BilledUsdMicros(tokens, rate).Ok?
    ensures var c := BilledUsdMicros(tokens, rate).value; ExactCost(tokens, rate) <= c as real < ExactCost(tokens, rate) + 1.0
  {
    hide DecimalFraction, ExactCost, RoundedUp;
    BilledIsLeast(tokens, rate);
  }

  /** Splitting the usage over several records never makes the bill smaller. */
  lemma SplittingNeverSaves(a: nat, b: nat, rate: Finite)
    requires IsPrice(rate) && BilledUsdMicros(a, rate).Ok? && BilledUsdMicros(b, rate).Ok?
    requires BilledUsdMicros(a + b, rate).Ok?
    ensures BilledUsdMicros(a + b, rate).value <= BilledUsdMicros(a, rate).value + BilledUsdMicros(b, rate).value
  {
    hide ExactCost, BilledUsdMicros;
    BillBounds(a, rate);
    BillBounds(b, rate);
    BillBounds(a + b, rate);
    ExactCostAdds(a, b, rate);
  }

  /** More usage is never cheaper. */
  lemma BillingIsMonotone(a: nat, b: nat, rate: Finite)
    requires IsPrice(rate) && a <= b && BilledUsdMicros(b, rate).Ok?
    ensures BilledUsdMicros(a, rate).Ok? && BilledUsdMicros(a, rate).value <= BilledUsdMicros(b, rate).value
  {
    hide ExactCost, DecimalFraction, RoundedUp;
    BilledIsLeast(a, rate);
    BilledIsLeast(b, rate);
    ExactCostGrows(a, b, rate);
  }

  lemma RateIsNotNegative(rate: Finite)
    requires IsPrice(rate)
    ensures RateOf(rate) >= 0.0
  {
    if rate.NonZero? { NotNegative(NatOf(rate.digits) as real, Scale10(rate.point - |rate.digits|)); }
  }

  // ------------------------------------------------- records and aggregates

  /** One metered model call; routes and models are taken as validated. */
  datatype Record = Record(
    invocationId: Text, free: bool, inputTokens: int, outputTokens: int, modelCalls: int,
    inputRate: Finite, outputRate: Finite, costUsdMicros: int)

  datatype Totals = Totals(modelCalls: nat, inputTokens: nat, outputTokens: nat, costUsdMicros: nat)

  datatype Aggregate = Aggregate(recordCount: nat, totals: Totals)

  const MAX_RECORDS: nat := 10000

  const MAX_PRICE: real := 1000000.0

  predicate PriceValid(x: Finite) { IsPrice(x) && RateOf(x) <= MAX_PRICE }

  function ConservativeCost(inputTokens: nat, outputTokens: nat, inputRate: Finite, outputRate: Finite): Result<nat, Error>
    requires IsPrice(inputRate) && IsPrice(outputRate)
  {
    var input :- BilledUsdMicros(inputTokens, inputRate);
    var output :- BilledUsdMicros(outputTokens, outputRate);
    if input + output > MAX_SAFE_INTEGER then Err(OutsideSafeRange) else Ok(input + output)
  }

  /** Free routes cost nothing and may not name a price. */
  predicate CostMatches(r: Record)
    requires IsPrice(r.inputRate) && IsPrice(r.outputRate) && r.inputTokens >= 0 && r.outputTokens >= 0
  {
    if r.free then !r.inputRate.NonZero? && !r.outputRate.NonZero? && r.costUsdMicros == 0
    else
      var cost := ConservativeCost(r.inputTokens, r.outputTokens, r.inputRate, r.outputRate);
      cost.Ok? && r.costUsdMicros == cost.value
  }

  predicate RecordValid(r: Record) {
    && 0 <= r.inputTokens <= MAX_SAFE_INTEGER && 0 <= r.outputTokens <= MAX_SAFE_INTEGER && r.modelCalls == 1
    && PriceValid(r.inputRate) && PriceValid(r.outputRate)
    && 0 <= r.costUsdMicros <= MAX_SAFE_INTEGER && CostMatches(r)
  }

  predicate AllValid(records: seq<Record>) { forall i | 0 <= i < |records| :: RecordValid(records[i]) }

  predicate DistinctInvocations(records: seq<Record>) {
    forall i, j | 0 <= i < j < |records| :: records[i].invocationId != records[j].invocationId
  }

  function Plus(t: Totals, r: Record): Totals
    requires r.inputTokens >= 0 && r.outputTokens >= 0 && r.modelCalls >= 0 && r.costUsdMicros >= 0
  {
    Totals(t.modelCalls + r.modelCalls, t.inputTokens + r.inputTokens, t.outputTokens + r.outputTokens,
           t.costUsdMicros + r.costUsdMicros)
  }

  predicate Safe(t: Totals) {
    && t.modelCalls <= MAX_SAFE_INTEGER && t.inputTokens <= MAX_SAFE_INTEGER
    && t.outputTokens <= MAX_SAFE_INTEGER && t.costUsdMicros <= MAX_SAFE_INTEGER
  }

  predicate Below(a: Totals, b: Totals) {
    && a.modelCalls <= b.modelCalls && a.inputTokens <= b.inputTokens
    && a.outputTokens <= b.outputTokens && a.costUsdMicros <= b.costUsdMicros
  }

  function TotalOf(records: seq<Record>): Totals
    requires AllValid(records)
    decreases |records|
  {
    if records == [] then Totals(0, 0, 0, 0) else Plus(TotalOf(records[..|records| - 1]), records[|records| - 1])
  }

  lemma {:induction false} TotalsGrow(records: seq<Record>, k: nat)
    requires AllValid(records) && k <= |records|
    ensures Below(TotalOf(records[..k]), TotalOf(records))
    decreases |records|
  {
    hide RecordValid;
    if k < |records| {
      var n := |records| - 1;
      TotalsGrow(records[..n], k);
      assert records[..n][..k] == records[..k];
      PlusGrows(TotalOf(records[..n]), records[n]);
    } else {
      assert records[..k] == records;
    }
  }

  lemma PlusGrows(t: Totals, r: Record)
    requires RecordValid(r)
    ensures Below(t, Plus(t, r))
  {
  }

  lemma TotalSnoc(records: seq<Record>, k: nat)
    requires k < |records| && AllValid(records[..k + 1])
    ensures AllValid(records[..k]) && RecordValid(records[k])
    ensures TotalOf(records[..k + 1]) == Plus(TotalOf(records[..k]), records[k])
  {
    hide RecordValid;
    assert records[..k + 1][..k] == records[..k];
    assert records[..k + 1][k] == records[k];
    forall i | 0 <= i < k ensures RecordValid(records[..k][i]) { assert records[..k + 1][i] == records[..k][i]; }
  }

  lemma ValidSnoc(records: seq<Record>, k: nat)
    requires k < |records|
    ensures AllValid(records[..k + 1]) <==> AllValid(records[..k]) && RecordValid(records[k])
  {
    hide RecordValid;
    assert records[..k + 1][..k] == records[..k];
    if AllValid(records[..k + 1]) {
      assert records[..k + 1][k] == records[k];
      forall i | 0 <= i < k ensures RecordValid(records[..k][i]) { assert records[..k + 1][i] == records[..k][i]; }
    }
  }

  method AggregateCostRecords(records: seq<Record>) returns (r: Result<Aggregate, Error>)
    ensures r.Ok? <==> |records| <= MAX_RECORDS && AllValid(records) && DistinctInvocations(records) && Safe(TotalOf(records))
    ensures r.Ok? ==> r.value == Aggregate(|records|, TotalOf(records))
  {
    hide RecordValid, TotalOf;
    if |records| > MAX_RECORDS { return Err(TooMany); }
    var total := Totals(0, 0, 0, 0);
    var seen: set<Text> := {};
    NothingYet();
    for k := 0 to |records|
      invariant AllValid(records[..k]) && total == TotalOf(records[..k])
      invariant forall id :: id in seen <==> exists i | 0 <= i < k :: records[i].invocationId == id
      invariant forall i, j | 0 <= i < j < k :: records[i].invocationId != records[j].invocationId
      invariant Safe(total)
    {
      var record := records[k];
      ValidSnoc(records, k);
      if !RecordValid(record) { return Err(BadRecord); }
      if record.invocationId in seen { return Err(DuplicateInvocation); }
      seen := seen + {record.invocationId};
      TotalSnoc(records, k);
      Countable(record);
      total := Plus(total, record);
      if !Safe(total) {
        if AllValid(records) { TotalsGrow(records, k + 1); }
        return Err(AggregateOverflow);
      }
    }
    assert records[..|records|] == records;
    return Ok(Aggregate(|records|, total));
  }

  lemma NothingYet()
    ensures AllValid([]) && TotalOf([]) == Totals(0, 0, 0, 0)
  {
  }

  lemma Countable(r: Record)
    requires RecordValid(r)
    ensures r.inputTokens >= 0 && r.outputTokens >= 0 && r.modelCalls >= 0 && r.costUsdMicros >= 0
  {
  }

  /** The least whole number not below x. */
  predicate LeastAbove(c: int, x: real) { x <= c as real && c as real < x + 1.0 }

  /** A price that can be read exactly. */
  predicate Readable(rate: Finite) { IsPrice(rate) && DecimalFraction(rate).Ok? }

  lemma LeastIsUnique(a: int, b: int, x: real)
    requires LeastAbove(a, x) && LeastAbove(b, x)
    ensures a == b
  {
  }

  lemma BillExactly(tokens: nat, rate: Finite, c: nat)
    requires IsPrice(rate)
    ensures BilledUsdMicros(tokens, rate) == Ok(c) <==>
              DecimalFraction(rate).Ok? && LeastAbove(c, ExactCost(tokens, rate)) && c <= MAX_SAFE_INTEGER
  {
    hide ExactCost, RoundedUp, DecimalFraction;
    if DecimalFraction(rate).Ok? {
      BilledIsLeast(tokens, rate);
      var least := RoundedUp(tokens, DecimalFraction(rate).value);
      if LeastAbove(c, ExactCost(tokens, rate)) { LeastIsUnique(c, least, ExactCost(tokens, rate)); }
    }
  }

  /** One record as the program accepts it: a free one costs and prices nothing, a paid one is billed input and output apart. */
  ghost predicate GoodRecord(r: Record) {
    && 0 <= r.inputTokens <= MAX_SAFE_INTEGER && 0 <= r.outputTokens <= MAX_SAFE_INTEGER && r.modelCalls == 1
    && IsPrice(r.inputRate) && IsPrice(r.outputRate) && RateOf(r.inputRate) <= 1000000.0 && RateOf(r.outputRate) <= 1000000.0
    && 0 <= r.costUsdMicros <= MAX_SAFE_INTEGER
    && (r.free ==> !r.inputRate.NonZero? && !r.outputRate.NonZero? && r.costUsdMicros == 0)
    && (!r.free ==>
          && Readable(r.inputRate) && Readable(r.outputRate)
          && exists a, b :: a + b == r.costUsdMicros && LeastAbove(a, ExactCost(r.inputTokens, r.inputRate))
                            && LeastAbove(b, ExactCost(r.outputTokens, r.outputRate)))
  }

  lemma PaidMeans(input: nat, output: nat, inputRate: Finite, outputRate: Finite, cost: nat)
    requires IsPrice(inputRate) && IsPrice(outputRate) && cost <= MAX_SAFE_INTEGER
    ensures ConservativeCost(input, output, inputRate, outputRate) == Ok(cost) <==>
              && DecimalFraction(inputRate).Ok? && DecimalFraction(outputRate).Ok?
              && exists a, b :: a + b == cost && LeastAbove(a, ExactCost(input, inputRate)) && LeastAbove(b, ExactCost(output, outputRate))
  {
    hide BilledUsdMicros, DecimalFraction, ExactCost;
    forall a: nat ensures BilledUsdMicros(input, inputRate) == Ok(a) <==>
                            DecimalFraction(inputRate).Ok? && LeastAbove(a, ExactCost(input, inputRate)) && a <= MAX_SAFE_INTEGER
    {
      BillExactly(input, inputRate, a);
    }
    forall b: nat ensures BilledUsdMicros(output, outputRate) == Ok(b) <==>
                            DecimalFraction(outputRate).Ok? && LeastAbove(b, ExactCost(output, outputRate)) && b <= MAX_SAFE_INTEGER
    {
      BillExactly(output, outputRate, b);
    }
    CostIsNatural(input, inputRate);
    CostIsNatural(output, outputRate);
  }

  lemma CostIsNatural(tokens: nat, rate: Finite)
    requires IsPrice(rate)
    ensures forall c :: LeastAbove(c, ExactCost(tokens, rate)) ==> c >= 0
  {
    RateIsNotNegative(rate);
  }

  function SumOf(records: seq<Record>, field: Record -> int): int
    decreases |records|
  {
    if records == [] then 0 else SumOf(records[..|records| - 1], field) + field(records[|records| - 1])
  }

  /** A record is accepted exactly if it is good. */
  lemma RecordMeans(r: Record)
    ensures RecordValid(r) <==> GoodRecord(r)
  {
    hide DecimalFraction, ExactCost, RateOf, ConservativeCost, LeastAbove;
    if IsPrice(r.inputRate) && IsPrice(r.outputRate) && r.inputTokens >= 0 && r.outputTokens >= 0
       && 0 <= r.costUsdMicros <= MAX_SAFE_INTEGER {
      PaidMeans(r.inputTokens, r.outputTokens, r.inputRate, r.outputRate, r.costUsdMicros);
    }
  }

  /** Each total is the sum of its own field over the records, and every record is one call. */
  lemma {:induction false} TotalsAreSums(records: seq<Record>)
    requires AllValid(records)
    ensures var t := TotalOf(records);
            && t.modelCalls == |records|
            && t.inputTokens == SumOf(records, (r: Record) => r.inputTokens)
            && t.outputTokens == SumOf(records, (r: Record) => r.outputTokens)
            && t.costUsdMicros == SumOf(records, (r: Record) => r.costUsdMicros)
    decreases |records|
  {
    if records != [] { TotalsAreSums(records[..|records| - 1]); }
  }

  /** Records add up exactly when every one of the four sums can still be counted. */
  lemma SafeMeans(records: seq<Record>)
    requires AllValid(records)
    ensures Safe(TotalOf(records)) <==>
              && |records| <= MAX_SAFE_INTEGER
              && SumOf(records, (r: Record) => r.inputTokens) <= MAX_SAFE_INTEGER
              && SumOf(records, (r: Record) => r.outputTokens) <= MAX_SAFE_INTEGER
              && SumOf(records, (r: Record) => r.costUsdMicros) <= MAX_SAFE_INTEGER
  {
    TotalsAreSums(records);
    hide SumOf, TotalOf;
  }

  /** What the records would cost without any rounding. */
  function ExactOf(r: Record): real
    requires RecordValid(r)
  {
    ExactCost(r.inputTokens, r.inputRate) + ExactCost(r.outputTokens, r.outputRate)
  }

  function ExactTotal(records: seq<Record>): real
    requires AllValid(records)
    decreases |records|
  {
    if records == [] then 0.0 else ExactTotal(records[..|records| - 1]) + ExactOf(records[|records| - 1])
  }

  lemma RecordBounds(r: Record)
    requires RecordValid(r)
    ensures ExactOf(r) <= r.costUsdMicros as real < ExactOf(r) + 2.0
  {
    if r.free {
      FreeCostsNothing(r.inputTokens, r.inputRate);
      FreeCostsNothing(r.outputTokens, r.outputRate);
    } else {
      hide ExactCost, BilledUsdMicros, RateOf;
      BillBounds(r.inputTokens, r.inputRate);
      BillBounds(r.outputTokens, r.outputRate);
    }
  }

  lemma FreeCostsNothing(tokens: nat, rate: Finite)
    requires !rate.NonZero?
    ensures ExactCost(tokens, rate) == 0.0
  {
  }

  /** An aggregate never falls below the exact cost, and exceeds it by less than two micros a record. */
  lemma {:induction false} AggregateBounds(records: seq<Record>)
    requires AllValid(records)
    ensures ExactTotal(records) <= TotalOf(records).costUsdMicros as real
    ensures records != [] ==> (TotalOf(records).costUsdMicros as real) < ExactTotal(records) + (2 * |records|) as real
    ensures records == [] ==> TotalOf(records).costUsdMicros == 0
    decreases |records|
  {
    hide RecordValid, ExactOf;
    if records != [] {
      var n := |records| - 1;
      AggregateBounds(records[..n]);
      RecordBounds(records[n]);
    }
  }
}
