/** The estimates that a request adds up over its ad slots (src/request_handler.cc), over the reals. */
module Estimates {
  import Bitmap
  import opened Bytes
  import opened BidBitmap
  import MergeRate
  import Popping
  import Scan
  import UvMerge

  const ESCAPE_ZERO: real := MergeRate.ESCAPE_ZERO
  const MIN_DISPLAY_PV: real := 0.99
  const HIGHEST_BID: real := 65535.0
  const HOURS_PER_DAY: nat := 24

  /** What the configuration says; the least bid is the one of the platform and kind of ad asked about. */
  datatype Options = Options(pvUseDelta: bool, uvUseDelta: bool, winUseDelta: bool, winUsePos: bool,
                             ctrUsePos: bool, bidUsePos: bool, minBid: real,
                             uvPvMin: real, uvPvMax: real, maxWinRate: real)

  /** An ad slot: its samples, its requests and how often it was shown, the click rate of the hours asked
      about, and the values of the step functions for it. */
  datatype Slot = Slot(size: nat, request: nat, shown: nat, clickRate: real, viewDelta: real, winDelta: real)

  /** What the counts of a mask without padding have to do with each other. */
  predicate Sane(r: Result) {
    && r.zeroNum + r.bidNum == r.targetNum && r.zeroNum <= r.winNum <= r.targetNum < 0x1_0000_0000
    && r.bidSum <= 0xffff * r.bidNum
  }

  // ----------------------------------------------------------------- win rates

  /** The difference of two unsigned 32-bit numbers. */
  function Minus(x: nat, y: nat): nat { (x - y) % 0x1_0000_0000 }

  /** The wins among the samples, and among those with a bid; each with a number of samples that is
      never zero. */
  function Rate(wins: nat, samples: nat): real { wins as real / (samples as real + ESCAPE_ZERO) }

  function RateWithZero(r: Result): real { Rate(r.winNum, r.targetNum) }

  function RateWithoutZero(r: Result): real { Rate(Minus(r.winNum, r.zeroNum), Minus(r.targetNum, r.zeroNum)) }

  function WinRate(r: Result, o: Options, delta: real): real {
    if o.winUseDelta then Mix(RateWithZero(r), RateWithoutZero(r), delta) else RateWithZero(r)
  }

  function Mix(a: real, b: real, d: real): real { a * d + b * (1.0 - d) }

  // Products are given names so that what is left to show is linear.

  lemma Times(a: real, b: real, d: real, p: real, q: real)
    requires a <= b && 0.0 <= d && p == a * d && q == b * d
    ensures p <= q
  {
  }

  lemma NotNegative(a: real, d: real, p: real)
    requires 0.0 <= a && 0.0 <= d && p == a * d
    ensures 0.0 <= p
  {
  }

  lemma Shares(b: real, d: real, p: real, q: real)
    requires p == b * d && q == b * (1.0 - d)
    ensures p + q == b
  {
  }

  lemma PartBelow(rate: real, weight: real, p: real)
    requires 0.0 <= rate < 1.0 && 0.0 <= weight && p == rate * weight
    ensures 0.0 <= p && (p < weight || p == weight == 0.0)
  {
    NotNegative(rate, weight, p);
    if weight > 0.0 {
      Strict(rate, 1.0, weight, p, weight);
    }
  }

  lemma Strict(a: real, b: real, d: real, p: real, q: real)
    requires a < b && 0.0 < d && p == a * d && q == b * d
    ensures p < q
  {
  }

  lemma Fraction(x: real, y: real)
    requires 0.0 <= x < y
    ensures 0.0 <= x / y < 1.0
  {
  }

  lemma FractionGrows(x: real, z: real, y: real)
    requires 0.0 <= x <= z && 0.0 < y
    ensures x / y <= z / y
  {
    var i := 1.0 / y;
    assert x / y == x * i && z / y == z * i;
    Times(x, z, i, x / y, z / y);
  }

  lemma MixedBelow(a: real, b: real, d: real, top: real)
    requires a <= top && b <= top && 0.0 <= d <= 1.0
    ensures Mix(a, b, d) <= top
  {
    var p, q, r, s := a * d, top * d, b * (1.0 - d), top * (1.0 - d);
    Times(a, top, d, p, q);
    Times(b, top, 1.0 - d, r, s);
    Shares(top, d, q, s);
    assert p + r <= top;
  }

  lemma MixedAbove(a: real, b: real, d: real)
    requires 0.0 <= a && 0.0 <= b && 0.0 <= d <= 1.0
    ensures 0.0 <= Mix(a, b, d)
  {
    var p, r := a * d, b * (1.0 - d);
    NotNegative(a, d, p);
    NotNegative(b, 1.0 - d, r);
    assert 0.0 <= p + r;
  }

  lemma Mixed(a: real, b: real, d: real)
    requires 0.0 <= a < 1.0 && 0.0 <= b < 1.0 && 0.0 <= d <= 1.0
    ensures 0.0 <= Mix(a, b, d) < 1.0
  {
    MixedBelow(a, b, d, if a <= b then b else a);
    MixedAbove(a, b, d);
  }

  lemma MixGrows(a: real, b: real, a': real, b': real, d: real)
    requires a <= a' && b <= b' && 0.0 <= d <= 1.0
    ensures Mix(a, b, d) <= Mix(a', b', d)
  {
    var p, q, r, s := a * d, a' * d, b * (1.0 - d), b' * (1.0 - d);
    Times(a, a', d, p, q);
    Times(b, b', 1.0 - d, r, s);
    assert p + r <= q + s;
  }

  lemma RateIsFraction(wins: nat, samples: nat)
    requires wins <= samples
    ensures 0.0 <= Rate(wins, samples) < 1.0
  {
    Fraction(wins as real, samples as real + ESCAPE_ZERO);
  }

  lemma RateGrows(wins: nat, more: nat, samples: nat)
    requires wins <= more
    ensures Rate(wins, samples) <= Rate(more, samples)
  {
    FractionGrows(wins as real, more as real, samples as real + ESCAPE_ZERO);
  }

  /** The subtractions do not wrap, and the rate of a slot is in [0, 1). */
  lemma WinRateIsFraction(r: Result, o: Options, delta: real)
    requires Sane(r) && 0.0 <= delta <= 1.0
    ensures Minus(r.winNum, r.zeroNum) == r.winNum - r.zeroNum
    ensures Minus(r.targetNum, r.zeroNum) == r.targetNum - r.zeroNum == r.bidNum
    ensures 0.0 <= WinRate(r, o, delta) < 1.0
  {
    RateIsFraction(r.winNum, r.targetNum);
    RateIsFraction(r.winNum - r.zeroNum, r.targetNum - r.zeroNum);
    Mixed(RateWithZero(r), RateWithoutZero(r), delta);
  }

  /** More wins among the same samples do not lower it. */
  lemma WinRateGrows(r: Result, q: Result, o: Options, delta: real)
    requires Sane(r) && Sane(q) && q == r.(winNum := q.winNum) && r.winNum <= q.winNum
    requires 0.0 <= delta <= 1.0
    ensures WinRate(r, o, delta) <= WinRate(q, o, delta)
  {
    RateGrows(r.winNum, q.winNum, r.targetNum);
    RateWithoutZeroGrows(r, q);
    MixGrows(RateWithZero(r), RateWithoutZero(r), RateWithZero(q), RateWithoutZero(q), delta);
  }

  lemma RateWithoutZeroGrows(r: Result, q: Result)
    requires Sane(r) && Sane(q) && q == r.(winNum := q.winNum) && r.winNum <= q.winNum
    ensures RateWithoutZero(r) <= RateWithoutZero(q)
  {
    NoWrap(r.winNum, r.zeroNum);
    NoWrap(q.winNum, r.zeroNum);
    RateGrows(r.winNum - r.zeroNum, q.winNum - r.zeroNum, Minus(r.targetNum, r.zeroNum));
  }

  lemma NoWrap(x: nat, y: nat)
    requires y <= x < 0x1_0000_0000
    ensures Minus(x, y) == x - y
  {
  }

  // ----------------------------------------------------------------- weighted means

  datatype Term = Term(value: real, weight: nat)

  function Weighted(terms: seq<Term>): real {
    if terms == [] then 0.0 else Weighted(terms[..|terms| - 1]) + Product(terms[|terms| - 1])
  }

  function Product(t: Term): real { t.value * t.weight as real }

  function Weights(terms: seq<Term>): nat {
    if terms == [] then 0 else Weights(terms[..|terms| - 1]) + terms[|terms| - 1].weight
  }

  /** A weighted mean, with a sum of weights that is never zero. */
  function Mean(sum: real, weights: nat): real { sum / (weights as real + ESCAPE_ZERO) }

  function MeanOf(terms: seq<Term>): real { Mean(Weighted(terms), Weights(terms)) }

  predicate Between(terms: seq<Term>, low: real, high: real) {
    forall i :: 0 <= i < |terms| ==> low <= terms[i].value <= high
  }

  lemma OneMore(terms: seq<Term>, t: Term)
    ensures Weighted(terms + [t]) == Weighted(terms) + Product(t)
    ensures Weights(terms + [t]) == Weights(terms) + t.weight
  {
    assert (terms + [t])[..|terms|] == terms;
  }

  lemma Distributes(a: real, w: real, v: real)
    ensures a * (w + v) == a * w + a * v
  {
  }

  predicate Framed(sum: real, weights: nat, low: real, high: real) {
    low * weights as real <= sum <= high * weights as real
  }

  /** Values between two bounds have a weighted sum between the bounds times the sum of the weights. */
  lemma WeightedBetween(terms: seq<Term>, low: real, high: real)
    requires Between(terms, low, high)
    ensures low * Weights(terms) as real <= Weighted(terms) <= high * Weights(terms) as real
  {
    WeightedFramed(terms, low, high);
  }

  lemma {:induction false} WeightedFramed(terms: seq<Term>, low: real, high: real)
    requires Between(terms, low, high)
    ensures Framed(Weighted(terms), Weights(terms), low, high)
    decreases |terms|
  {
    if terms != [] {
      var n := |terms| - 1;
      WeightedFramed(terms[..n], low, high);
      FramedNext(Weighted(terms[..n]), Weights(terms[..n]), terms[n], low, high);
    }
  }

  lemma FramedNext(sum: real, weights: nat, t: Term, low: real, high: real)
    requires Framed(sum, weights, low, high) && low <= t.value <= high
    ensures Framed(sum + Product(t), weights + t.weight, low, high)
  {
    var v := t.weight as real;
    Times(low, t.value, v, low * v, Product(t));
    Times(t.value, high, v, Product(t), high * v);
    Distributes(low, weights as real, v);
    Distributes(high, weights as real, v);
  }

  /** The mean of values up to a positive bound is below the bound. */
  lemma MeanBelow(sum: real, weights: nat, top: real, p: real)
    requires p == top * weights as real && 0.0 <= sum <= p && 0.0 < top
    ensures 0.0 <= Mean(sum, weights) < top
  {
    var w := weights as real + ESCAPE_ZERO;
    Distributes(top, weights as real, ESCAPE_ZERO);
    QuotientBelow(sum, w, top, top * w);
  }

  lemma QuotientBelow(sum: real, w: real, top: real, p: real)
    requires 0.0 < w && p == top * w && 0.0 <= sum < p
    ensures 0.0 <= sum / w < top
  {
    var m := sum / w;
    assert m * w == sum;
    if m >= top {
      Times(top, m, w, p, sum);
    }
  }

  lemma MeanTimes(sum: real, weights: nat)
    ensures Mean(sum, weights) * (weights as real + ESCAPE_ZERO) == sum
  {
  }

  /** Terms with the same weights and no smaller values. */
  ghost predicate AtLeast(terms: seq<Term>, others: seq<Term>) {
    && |terms| == |others|
    && (forall i :: 0 <= i < |terms| ==> others[i].weight == terms[i].weight && terms[i].value <= others[i].value)
  }

  lemma {:induction false} WeightedGrows(terms: seq<Term>, others: seq<Term>)
    requires AtLeast(terms, others)
    ensures Weighted(terms) <= Weighted(others) && Weights(terms) == Weights(others)
    decreases |terms|
  {
    if terms != [] {
      var n := |terms| - 1;
      WeightedGrows(terms[..n], others[..n]);
      var t, u := terms[n], others[n];
      Times(t.value, u.value, t.weight as real, Product(t), Product(u));
    }
  }

  lemma MeanGrows(terms: seq<Term>, others: seq<Term>)
    requires AtLeast(terms, others)
    ensures MeanOf(terms) <= MeanOf(others)
  {
    WeightedGrows(terms, others);
    QuotientGrows(Weighted(terms), Weighted(others), Weights(terms) as real + ESCAPE_ZERO);
  }

  lemma QuotientGrows(x: real, z: real, y: real)
    requires x <= z && 0.0 < y
    ensures x / y <= z / y
  {
    var i := 1.0 / y;
    assert x / y == x * i && z / y == z * i;
    Times(x, z, i, x / y, z / y);
  }

  // ----------------------------------------------------------------- the click rate of some hours

  /** The hours asked about that exist, each with its click rate and views. */
  function HourTerms(views: seq<nat>, rates: seq<real>, hours: seq<nat>): seq<Term>
    requires |views| == |rates| == HOURS_PER_DAY
  {
    if hours == [] then []
    else
      var before, hour := HourTerms(views, rates, hours[..|hours| - 1]), hours[|hours| - 1];
      if hour < HOURS_PER_DAY then before + [Term(rates[hour], views[hour])] else before
  }

  lemma {:induction false} HoursBetween(views: seq<nat>, rates: seq<real>, hours: seq<nat>)
    requires |views| == |rates| == HOURS_PER_DAY
    requires forall h :: 0 <= h < HOURS_PER_DAY ==> 0.0 <= rates[h] <= 1.0
    ensures Between(HourTerms(views, rates, hours), 0.0, 1.0)
    decreases |hours|
  {
    if hours != [] {
      HoursBetween(views, rates, hours[..|hours| - 1]);
    }
  }

  /** An hour of the 24 there are counts with its own rate and views. */
  lemma HoursAre(views: seq<nat>, rates: seq<real>, hour: nat)
    requires |views| == |rates| == 24
    ensures HourTerms(views, rates, [hour]) == if hour < 24 then [Term(rates[hour], views[hour])] else []
  {
    assert [hour][..0] == [];
  }

  /** GetHourlyCtr: the mean click rate of the hours.  The views are added in 32 bits. */
  method HourlyClickRate(views: seq<nat>, rates: seq<real>, hours: seq<nat>) returns (rate: real)
    requires |views| == |rates| == HOURS_PER_DAY
    ensures var terms := HourTerms(views, rates, hours);
            && rate == Mean(Weighted(terms), Weights(terms) % 0x1_0000_0000)
            && ((forall h :: 0 <= h < HOURS_PER_DAY ==> 0.0 <= rates[h] <= 1.0) && Weights(terms) < 0x1_0000_0000 ==>
                  0.0 <= rate < 1.0)
  {
    var clicks, sum := SumHours(views, rates, hours);
    rate := Mean(clicks, sum);
    ClicksBelow(views, rates, hours);
  }

  /** The loop of GetHourlyCtr. */
  method SumHours(views: seq<nat>, rates: seq<real>, hours: seq<nat>) returns (clicks: real, sum: nat)
    requires |views| == |rates| == HOURS_PER_DAY
    ensures clicks == Weighted(HourTerms(views, rates, hours))
    ensures sum == Weights(HourTerms(views, rates, hours)) % 0x1_0000_0000
  {
    clicks, sum := 0.0, 0;
    ghost var terms := [];
    for i := 0 to |hours|
      invariant terms == HourTerms(views, rates, hours[..i])
      invariant clicks == Weighted(terms) && sum == Weights(terms) % 0x1_0000_0000
    {
      HourTermsNext(views, rates, hours, i);
      var hour := hours[i];
      if hour < HOURS_PER_DAY {
        var term := Term(rates[hour], views[hour]);
        HourAdded(terms, term);
        clicks, sum := clicks + Product(term), Plus32(sum, term.weight);
        terms := terms + [term];
      }
    }
    assert hours[..|hours|] == hours;
  }

  function Plus32(x: nat, y: nat): nat { (x + y) % 0x1_0000_0000 }

  lemma HourAdded(before: seq<Term>, t: Term)
    ensures Weighted(before + [t]) == Weighted(before) + Product(t)
    ensures Weights(before + [t]) % 0x1_0000_0000 == Plus32(Weights(before) % 0x1_0000_0000, t.weight)
  {
    OneMore(before, t);
    WrapsLater(Weights(before), t.weight);
  }

  lemma HourTermsNext(views: seq<nat>, rates: seq<real>, hours: seq<nat>, i: nat)
    requires |views| == |rates| == HOURS_PER_DAY && i < |hours|
    ensures HourTerms(views, rates, hours[..i + 1]) ==
              var before := HourTerms(views, rates, hours[..i]);
              if hours[i] < HOURS_PER_DAY then before + [Term(rates[hours[i]], views[hours[i]])] else before
  {
    assert hours[..i + 1][..i] == hours[..i];
  }

  lemma WrapsLater(a: nat, b: nat)
    ensures (a % 0x1_0000_0000 + b) % 0x1_0000_0000 == (a + b) % 0x1_0000_0000
  {
  }

  lemma ClicksBelow(views: seq<nat>, rates: seq<real>, hours: seq<nat>)
    requires |views| == |rates| == HOURS_PER_DAY
    ensures (forall h :: 0 <= h < HOURS_PER_DAY ==> 0.0 <= rates[h] <= 1.0) ==>
      0.0 <= MeanOf(HourTerms(views, rates, hours)) < 1.0
  {
    if forall h :: 0 <= h < HOURS_PER_DAY ==> 0.0 <= rates[h] <= 1.0 {
      HoursBetween(views, rates, hours);
      RatesMean(HourTerms(views, rates, hours));
    }
  }

  lemma RatesMean(terms: seq<Term>)
    requires Between(terms, 0.0, 1.0)
    ensures 0.0 <= MeanOf(terms) < 1.0
  {
    WeightedBetween(terms, 0.0, 1.0);
    MeanBelow(Weighted(terms), Weights(terms), 1.0, 1.0 * Weights(terms) as real);
  }

  // ----------------------------------------------------------------- sums over slots

  /** A slot of the request and the counts of its samples. */
  datatype Entry = Entry(slot: Slot, result: Result)

  /** The values that the rate of clicks and the step functions may have. */
  predicate SlotFits(slot: Slot) {
    slot.size > 0 && 0.0 <= slot.clickRate <= 1.0 && 0.0 <= slot.viewDelta && 0.0 <= slot.winDelta <= 1.0
  }

  predicate Fits(e: Entry) { SlotFits(e.slot) && Sane(e.result) }

  predicate EntriesFit(entries: seq<Entry>) { forall i :: 0 <= i < |entries| ==> Fits(entries[i]) }

  /** The part of the samples that is won, times how often the slot was shown. */
  function Views(e: Entry, useDelta: bool): real
    requires e.slot.size > 0
  {
    var part := e.result.winNum as real / e.slot.size as real;
    if useDelta then part * e.slot.viewDelta * e.slot.request as real else part * e.slot.shown as real
  }

  function ViewSum(entries: seq<Entry>, useDelta: bool): real
    requires EntriesFit(entries)
  {
    if entries == [] then 0.0 else ViewSum(entries[..|entries| - 1], useDelta) + Views(entries[|entries| - 1], useDelta)
  }

  /** What the weighted means are taken of. */
  datatype Measure = Clicks | Bids | Wins

  /** The mean bid of the samples with a bid, but not less than the least bid. */
  function AverageBid(r: Result, minBid: real): real {
    Most(r.bidSum as real / (r.bidNum as real + ESCAPE_ZERO), minBid)
  }

  function Value(m: Measure, e: Entry, o: Options): real {
    match m
    case Clicks => e.slot.clickRate
    case Bids => AverageBid(e.result, o.minBid)
    case Wins => WinRate(e.result, o, e.slot.winDelta)
  }

  /** The number of requests or of views, as the option says. */
  function Weight(m: Measure, slot: Slot, o: Options): nat {
    var usePos := match m case Clicks => o.ctrUsePos case Bids => o.bidUsePos case Wins => o.winUsePos;
    if usePos then slot.request else slot.shown
  }

  function TermOf(m: Measure, e: Entry, o: Options): Term { Term(Value(m, e, o), Weight(m, e.slot, o)) }

  function Terms(m: Measure, entries: seq<Entry>, o: Options): seq<Term> {
    seq(|entries|, i requires 0 <= i < |entries| => TermOf(m, entries[i], o))
  }

  lemma TermsNext(m: Measure, entries: seq<Entry>, o: Options, e: Entry)
    ensures Terms(m, entries + [e], o) == Terms(m, entries, o) + [TermOf(m, e, o)]
  {
  }

  function Top(m: Measure, o: Options): real { if m.Bids? then Most(HIGHEST_BID, o.minBid) else 1.0 }

  function Bottom(m: Measure, o: Options): real { if m.Bids? then Most(0.0, o.minBid) else 0.0 }

  lemma BidIsBetween(r: Result, o: Options)
    requires Sane(r)
    ensures Bottom(Bids, o) <= AverageBid(r, o.minBid) <= Top(Bids, o)
  {
    var sum, n := r.bidSum as real, r.bidNum as real;
    AtMostTimes(r.bidSum, r.bidNum);
    Distributes(HIGHEST_BID, n, ESCAPE_ZERO);
    QuotientAtMost(sum, n + ESCAPE_ZERO, HIGHEST_BID, HIGHEST_BID * (n + ESCAPE_ZERO));
  }

  lemma AtMostTimes(sum: nat, n: nat)
    requires sum <= 0xffff * n
    ensures sum as real <= HIGHEST_BID * n as real
  {
  }

  lemma QuotientAtMost(x: real, w: real, top: real, p: real)
    requires 0.0 < w && p == top * w && 0.0 <= x <= p
    ensures 0.0 <= x / w <= top
  {
    var m := x / w;
    assert m * w == x;
    if m > top {
      Strict(top, m, w, p, x);
    }
  }

  lemma ValueIsBetween(m: Measure, e: Entry, o: Options)
    requires Fits(e)
    ensures Bottom(m, o) <= Value(m, e, o) <= Top(m, o)
  {
    match m
    case Clicks =>
    case Bids => BidIsBetween(e.result, o);
    case Wins => WinRateIsFraction(e.result, o, e.slot.winDelta);
  }

  /** For every list of slots, the mean of a measure is not negative and below its top ... */
  lemma MeanIsBetween(m: Measure, entries: seq<Entry>, o: Options)
    requires EntriesFit(entries)
    ensures 0.0 <= MeanOf(Terms(m, entries, o)) < Top(m, o)
  {
    ValuesAreBetween(m, entries, o);
    MeanBetween(Terms(m, entries, o), Bottom(m, o), Top(m, o));
  }

  /** ... and, but for the little that is added to the weights, not below its bottom. */
  lemma MeanNotBelow(m: Measure, entries: seq<Entry>, o: Options)
    requires EntriesFit(entries)
    ensures NotUnder(Terms(m, entries, o), Bottom(m, o))
  {
    ValuesAreBetween(m, entries, o);
    MeanNotUnder(Terms(m, entries, o), Bottom(m, o), Top(m, o));
  }

  predicate NotUnder(terms: seq<Term>, low: real) {
    low * Weights(terms) as real <= MeanOf(terms) * (Weights(terms) as real + ESCAPE_ZERO)
  }

  lemma MeanNotUnder(terms: seq<Term>, low: real, top: real)
    requires Between(terms, low, top)
    ensures NotUnder(terms, low)
  {
    WeightedBetween(terms, low, top);
    MeanTimes(Weighted(terms), Weights(terms));
  }

  lemma ValuesAreBetween(m: Measure, entries: seq<Entry>, o: Options)
    requires EntriesFit(entries)
    ensures Between(Terms(m, entries, o), Bottom(m, o), Top(m, o))
  {
    forall i | 0 <= i < |entries| ensures Bottom(m, o) <= Value(m, entries[i], o) <= Top(m, o) {
      ValueIsBetween(m, entries[i], o);
    }
  }

  lemma MeanBetween(terms: seq<Term>, low: real, top: real)
    requires Between(terms, low, top) && 0.0 <= low && 0.0 < top
    ensures 0.0 <= MeanOf(terms) < top
  {
    WeightedBetween(terms, low, top);
    var w := Weights(terms) as real;
    NotNegative(low, w, low * w);
    MeanBelow(Weighted(terms), Weights(terms), top, top * w);
  }

  /** The same slots asked about at a price that wins no less. */
  ghost predicate WinsMore(entries: seq<Entry>, others: seq<Entry>) {
    |entries| == |others| && (forall i :: 0 <= i < |entries| ==> WonMore(entries[i], others[i]))
  }

  ghost predicate WonMore(e: Entry, f: Entry) {
    f == e.(result := e.result.(winNum := f.result.winNum)) && e.result.winNum <= f.result.winNum
  }

  lemma ValueGrows(m: Measure, e: Entry, f: Entry, o: Options)
    requires Fits(e) && Fits(f) && WonMore(e, f)
    ensures Value(m, e, o) <= Value(m, f, o)
  {
    if m.Wins? {
      WinRateGrows(e.result, f.result, o, e.slot.winDelta);
    }
  }

  /** No mean is lowered by a price that wins no less. */
  lemma MeanOfMoreWins(m: Measure, entries: seq<Entry>, others: seq<Entry>, o: Options)
    requires EntriesFit(entries) && EntriesFit(others) && WinsMore(entries, others)
    ensures MeanOf(Terms(m, entries, o)) <= MeanOf(Terms(m, others, o))
  {
    var terms, more := Terms(m, entries, o), Terms(m, others, o);
    forall i | 0 <= i < |terms| ensures more[i].weight == terms[i].weight && terms[i].value <= more[i].value {
      ValueGrows(m, entries[i], others[i], o);
    }
    MeanGrows(terms, more);
  }

  lemma {:induction false} ViewSumGrows(entries: seq<Entry>, others: seq<Entry>, useDelta: bool)
    requires EntriesFit(entries) && EntriesFit(others) && WinsMore(entries, others)
    ensures 0.0 <= ViewSum(entries, useDelta) <= ViewSum(others, useDelta)
    decreases |entries|
  {
    if entries != [] {
      var n := |entries| - 1;
      ViewSumGrows(entries[..n], others[..n], useDelta);
      ViewsGrow(entries[n], others[n], useDelta);
    }
  }

  lemma ViewsGrow(e: Entry, f: Entry, useDelta: bool)
    requires SlotFits(e.slot) && WonMore(e, f)
    ensures 0.0 <= Views(e, useDelta) <= Views(f, useDelta)
  {
    var slot := e.slot;
    var a, b := e.result.winNum as real / slot.size as real, f.result.winNum as real / slot.size as real;
    FractionGrows(0.0, e.result.winNum as real, slot.size as real);
    FractionGrows(e.result.winNum as real, f.result.winNum as real, slot.size as real);
    if useDelta {
      var p, q := a * slot.viewDelta, b * slot.viewDelta;
      NotNegative(a, slot.viewDelta, p);
      Times(a, b, slot.viewDelta, p, q);
      NotNegative(p, slot.request as real, Views(e, true));
      Times(p, q, slot.request as real, Views(e, true), Views(f, true));
    } else {
      NotNegative(a, slot.shown as real, Views(e, false));
      Times(a, b, slot.shown as real, Views(e, false), Views(f, false));
    }
  }

  lemma WinsAsMuch(entries: seq<Entry>)
    ensures WinsMore(entries, entries)
  {
  }

  /** What a request has added up: the page views of its slots and their unique views.  The unique views of
      slots without a delta function are added to the page views. */
  function PvSum(views: seq<Entry>, visitors: seq<Entry>, o: Options): real
    requires EntriesFit(views) && EntriesFit(visitors)
  {
    ViewSum(views, o.pvUseDelta) + if o.uvUseDelta then 0.0 else ViewSum(visitors, false)
  }

  function UvSum(visitors: seq<Entry>, o: Options): real
    requires EntriesFit(visitors)
  {
    if o.uvUseDelta then ViewSum(visitors, true) else 0.0
  }

  // ----------------------------------------------------------------- the answer

  function Ceil(x: real): (n: int)
    ensures n as real - 1.0 < x <= n as real
  {
    -((-x).Floor)
  }

  lemma CeilGrows(x: real, y: real)
    requires x <= y
    ensures Ceil(x) <= Ceil(y)
  {
  }

  function Least(x: real, y: real): real { if x < y then x else y }

  function Most(x: real, y: real): real { if x > y then x else y }

  /** A seventh, rounded up. */
  function PerDay(x: real): (day: int)
    ensures 0.0 <= x ==> 0 <= day
  {
    Ceil(x / 7.0)
  }

  lemma PerDayGrows(x: real, y: real)
    requires x <= y
    ensures PerDay(x) <= PerDay(y)
  {
    CeilGrows(x / 7.0, y / 7.0);
  }

  /** The unique views of a day, cut to the range from low to high. */
  function Clamped(low: real, high: real, uv: int): int {
    var once := if uv as real > high then Ceil(high) else uv;
    if once as real < low then Ceil(low) else once
  }

  lemma ClampedIsBetween(low: real, high: real, uv: int)
    requires low <= high
    ensures low <= Clamped(low, high, uv) as real && Clamped(low, high, uv) <= Ceil(high)
    ensures low <= uv as real <= high ==> Clamped(low, high, uv) == uv
    ensures uv as real > high ==> Clamped(low, high, uv) == Ceil(high)
    ensures uv as real < low ==> Clamped(low, high, uv) == Ceil(low)
  {
    CeilGrows(low, high);
  }

  lemma ClampedGrows(low: real, high: real, uv: int, low': real, high': real, uv': int)
    requires low <= low' && high <= high' && uv <= uv'
    ensures Clamped(low, high, uv) <= Clamped(low', high', uv')
  {
    CeilGrows(high, high');
    CeilGrows(low, low');
  }

  datatype Answer = Answer(pv: int, uv: int, clickRate: real, bid: real, winRate: real)

  function MeanIfShown(m: Measure, views: seq<Entry>, o: Options, pv: int): real {
    if pv as real > MIN_DISPLAY_PV then MeanOf(Terms(m, views, o)) else 0.0
  }

  /** The win rate, lowered by the price correction if there is no delta function and cut at the maximum. */
  function Capped(mean: real, o: Options, correction: real): real {
    Least(if o.winUseDelta then mean else mean * Least(correction, 1.0), o.maxWinRate)
  }

  /** What a request answers, by its slots, the merge rate and the price correction. */
  function AnswerOf(views: seq<Entry>, visitors: seq<Entry>, o: Options, mergeRate: real, correction: real): Answer
    requires EntriesFit(views) && EntriesFit(visitors)
  {
    var pv := PvOf(views, visitors, o);
    Answer(pv, InRange(pv, MergedDay(UvSum(visitors, o), mergeRate), o), MeanIfShown(Clicks, views, o, pv),
           MeanIfShown(Bids, views, o, pv), Capped(MeanIfShown(Wins, views, o, pv), o, correction))
  }

  function PvOf(views: seq<Entry>, visitors: seq<Entry>, o: Options): int
    requires EntriesFit(views) && EntriesFit(visitors)
  {
    PerDay(PvSum(views, visitors, o))
  }

  function MergedDay(sum: real, mergeRate: real): int { PerDay(sum * mergeRate) }

  /** The unique views of a day, brought into the range that the page views allow. */
  function InRange(pv: int, day: int, o: Options): int {
    Clamped(Share(pv, o.uvPvMin), Share(pv, o.uvPvMax), day)
  }

  function Share(pv: int, ratio: real): real { pv as real * ratio }

  lemma ShareGrows(pv: nat, pv': nat, ratio: real)
    requires pv <= pv' && 0.0 <= ratio
    ensures Share(pv, ratio) <= Share(pv', ratio)
  {
    Times(pv as real, pv' as real, ratio, Share(pv, ratio), Share(pv', ratio));
  }

  lemma ShareOrdered(pv: nat, ratio: real, ratio': real)
    requires ratio <= ratio'
    ensures Share(pv, ratio) <= Share(pv, ratio')
  {
    TimesLeft(pv as real, ratio, ratio', Share(pv, ratio), Share(pv, ratio'));
  }

  predicate Allowed(pv: int, uv: int, o: Options) {
    Share(pv, o.uvPvMin) <= uv as real && uv <= Ceil(Share(pv, o.uvPvMax))
  }

  predicate Configured(o: Options) { 0.0 <= o.uvPvMin <= o.uvPvMax && 0.0 <= o.maxWinRate }

  lemma TimesLeft(d: real, a: real, b: real, p: real, q: real)
    requires a <= b && 0.0 <= d && p == d * a && q == d * b
    ensures p <= q
  {
  }

  lemma CappedIsFraction(mean: real, o: Options, correction: real)
    requires 0.0 <= mean < 1.0 && 0.0 <= correction && 0.0 <= o.maxWinRate
    ensures 0.0 <= Capped(mean, o, correction) < 1.0 && Capped(mean, o, correction) <= o.maxWinRate
  {
    var factor := Least(correction, 1.0);
    PartBelow(mean, factor, mean * factor);
  }

  lemma CappedGrows(mean: real, more: real, o: Options, correction: real, higher: real)
    requires 0.0 <= mean <= more && 0.0 <= correction <= higher
    ensures Capped(mean, o, correction) <= Capped(more, o, higher)
  {
    var a, b := Least(correction, 1.0), Least(higher, 1.0);
    Times(mean, more, a, mean * a, more * a);
    TimesLeft(more, a, b, more * a, more * b);
  }

  lemma MeanIfShownIsBetween(m: Measure, views: seq<Entry>, o: Options, pv: int)
    requires EntriesFit(views)
    ensures 0.0 <= MeanIfShown(m, views, o, pv) < Top(m, o)
  {
    MeanIsBetween(m, views, o);
  }

  lemma MeanIfShownGrows(m: Measure, views: seq<Entry>, others: seq<Entry>, o: Options, pv: int, more: int)
    requires EntriesFit(views) && EntriesFit(others) && WinsMore(views, others) && pv <= more
    ensures 0.0 <= MeanIfShown(m, views, o, pv) <= MeanIfShown(m, others, o, more)
  {
    MeanIsBetween(m, views, o);
    MeanIsBetween(m, others, o);
    MeanOfMoreWins(m, views, others, o);
  }

  lemma SumsGrow(views: seq<Entry>, visitors: seq<Entry>, views': seq<Entry>, visitors': seq<Entry>, o: Options)
    requires EntriesFit(views) && EntriesFit(visitors) && EntriesFit(views') && EntriesFit(visitors')
    requires WinsMore(views, views') && WinsMore(visitors, visitors')
    ensures 0.0 <= PvSum(views, visitors, o) <= PvSum(views', visitors', o)
    ensures 0.0 <= UvSum(visitors, o) <= UvSum(visitors', o)
  {
    ViewSumGrows(views, views', o.pvUseDelta);
    ViewSumGrows(visitors, visitors', o.uvUseDelta);
  }

  /** For every list of slots the answer is in its ranges. */
  lemma AnswerIsInRange(views: seq<Entry>, visitors: seq<Entry>, o: Options, mergeRate: real, correction: real)
    requires EntriesFit(views) && EntriesFit(visitors) && Configured(o) && 0.0 <= correction
    ensures var a := AnswerOf(views, visitors, o, mergeRate, correction);
            && 0 <= a.pv && Allowed(a.pv, a.uv, o)
            && 0.0 <= a.clickRate < 1.0 && 0.0 <= a.bid < Most(HIGHEST_BID, o.minBid)
            && 0.0 <= a.winRate < 1.0 && a.winRate <= o.maxWinRate
  {
    var pv, day := PvOf(views, visitors, o), MergedDay(UvSum(visitors, o), mergeRate);
    SumsNotNegative(views, visitors, o);
    ViewsInRange(pv, day, o);
    MeansInRange(views, o, pv, correction);
  }

  lemma SumsNotNegative(views: seq<Entry>, visitors: seq<Entry>, o: Options)
    requires EntriesFit(views) && EntriesFit(visitors)
    ensures 0 <= PvOf(views, visitors, o)
  {
    WinsAsMuch(views);
    WinsAsMuch(visitors);
    SumsGrow(views, visitors, views, visitors, o);
  }

  lemma MeansInRange(views: seq<Entry>, o: Options, pv: int, correction: real)
    requires EntriesFit(views) && 0.0 <= correction && 0.0 <= o.maxWinRate
    ensures 0.0 <= MeanIfShown(Clicks, views, o, pv) < 1.0
    ensures 0.0 <= MeanIfShown(Bids, views, o, pv) < Most(HIGHEST_BID, o.minBid)
    ensures var winRate := Capped(MeanIfShown(Wins, views, o, pv), o, correction);
            0.0 <= winRate < 1.0 && winRate <= o.maxWinRate
  {
    MeanIfShownIsBetween(Clicks, views, o, pv);
    MeanIfShownIsBetween(Bids, views, o, pv);
    MeanIfShownIsBetween(Wins, views, o, pv);
    CappedIsFraction(MeanIfShown(Wins, views, o, pv), o, correction);
  }

  lemma ViewsInRange(pv: nat, day: int, o: Options)
    requires Configured(o)
    ensures Allowed(pv, InRange(pv, day, o), o)
  {
    ShareOrdered(pv, o.uvPvMin, o.uvPvMax);
    ClampedIsBetween(Share(pv, o.uvPvMin), Share(pv, o.uvPvMax), day);
  }

  /** A price at which no slot wins less, and whose correction is no smaller, lowers nothing in the answer:
      neither the views, although the unique ones are clamped between bounds that move with the page
      views, nor any of the means. */
  lemma PriceLowersNothing(views: seq<Entry>, visitors: seq<Entry>, views': seq<Entry>, visitors': seq<Entry>,
                           o: Options, mergeRate: real, correction: real, higher: real)
    requires EntriesFit(views) && EntriesFit(visitors) && EntriesFit(views') && EntriesFit(visitors')
    requires WinsMore(views, views') && WinsMore(visitors, visitors')
    requires Configured(o) && 0.0 <= mergeRate && 0.0 <= correction <= higher
    ensures var a, b := AnswerOf(views, visitors, o, mergeRate, correction),
                        AnswerOf(views', visitors', o, mergeRate, higher);
            && a.pv <= b.pv && a.uv <= b.uv && a.clickRate <= b.clickRate && a.bid <= b.bid
            && a.winRate <= b.winRate
  {
    SumsGrow(views, visitors, views', visitors', o);
    var pv, pv' := PvOf(views, visitors, o), PvOf(views', visitors', o);
    PvGrows(views, visitors, views', visitors', o);
    UniqueViewsGrow(pv, UvSum(visitors, o), pv', UvSum(visitors', o), o, mergeRate);
    MeansGrow(views, views', o, pv, pv', correction, higher);
  }

  lemma MeansGrow(views: seq<Entry>, views': seq<Entry>, o: Options, pv: int, pv': int, correction: real, higher: real)
    requires EntriesFit(views) && EntriesFit(views') && WinsMore(views, views')
    requires pv <= pv' && 0.0 <= correction <= higher
    ensures MeanIfShown(Clicks, views, o, pv) <= MeanIfShown(Clicks, views', o, pv')
    ensures MeanIfShown(Bids, views, o, pv) <= MeanIfShown(Bids, views', o, pv')
    ensures Capped(MeanIfShown(Wins, views, o, pv), o, correction)
         <= Capped(MeanIfShown(Wins, views', o, pv'), o, higher)
  {
    MeanIfShownGrows(Clicks, views, views', o, pv, pv');
    MeanIfShownGrows(Bids, views, views', o, pv, pv');
    MeanIfShownGrows(Wins, views, views', o, pv, pv');
    CappedGrows(MeanIfShown(Wins, views, o, pv), MeanIfShown(Wins, views', o, pv'), o, correction, higher);
  }

  lemma PvGrows(views: seq<Entry>, visitors: seq<Entry>, views': seq<Entry>, visitors': seq<Entry>, o: Options)
    requires EntriesFit(views) && EntriesFit(visitors) && EntriesFit(views') && EntriesFit(visitors')
    requires 0.0 <= PvSum(views, visitors, o) <= PvSum(views', visitors', o)
    ensures 0 <= PvOf(views, visitors, o) <= PvOf(views', visitors', o)
  {
    PerDayGrows(PvSum(views, visitors, o), PvSum(views', visitors', o));
  }

  lemma UniqueViewsGrow(pv: nat, sum: real, pv': nat, sum': real, o: Options, mergeRate: real)
    requires pv <= pv' && sum <= sum' && Configured(o) && 0.0 <= mergeRate
    ensures InRange(pv, MergedDay(sum, mergeRate), o) <= InRange(pv', MergedDay(sum', mergeRate), o)
  {
    MergedDayGrows(sum, sum', mergeRate, sum * mergeRate, sum' * mergeRate);
    InRangeGrows(pv, MergedDay(sum, mergeRate), pv', MergedDay(sum', mergeRate), o);
  }

  lemma MergedDayGrows(sum: real, sum': real, mergeRate: real, p: real, q: real)
    requires sum <= sum' && 0.0 <= mergeRate && p == sum * mergeRate && q == sum' * mergeRate
    ensures MergedDay(sum, mergeRate) <= MergedDay(sum', mergeRate)
  {
    Times(sum, sum', mergeRate, p, q);
    PerDayGrows(p, q);
  }

  lemma InRangeGrows(pv: nat, day: int, pv': nat, day': int, o: Options)
    requires pv <= pv' && day <= day' && Configured(o)
    ensures InRange(pv, day, o) <= InRange(pv', day', o)
  {
    ShareGrows(pv, pv', o.uvPvMin);
    ShareGrows(pv, pv', o.uvPvMax);
    ClampedGrows(Share(pv, o.uvPvMin), Share(pv, o.uvPvMax), day, Share(pv', o.uvPvMin), Share(pv', o.uvPvMax), day');
  }

  // ----------------------------------------------------------------- what the numbers are

  /** How often the slots were shown, and how often the delta function expects them to be. */
  function ShownSum(entries: seq<Entry>): nat {
    if entries == [] then 0 else ShownSum(entries[..|entries| - 1]) + entries[|entries| - 1].slot.shown
  }

  function ExpectedSum(entries: seq<Entry>): real {
    if entries == [] then 0.0
    else
      var slot := entries[|entries| - 1].slot;
      ExpectedSum(entries[..|entries| - 1]) + slot.viewDelta * slot.request as real
  }

  lemma WonWhole(e: Entry)
    requires e.slot.size > 0 && e.result.winNum == e.slot.size
    ensures Views(e, false) == e.slot.shown as real
    ensures Views(e, true) == e.slot.viewDelta * e.slot.request as real
  {
    QuotientIsOne(e.result.winNum as real, e.slot.size as real);
  }

  lemma QuotientIsOne(x: real, y: real)
    requires x == y && 0.0 < y
    ensures x / y == 1.0
  {
  }

  /** Slots all of whose samples are won give all their views. */
  lemma {:induction false} WonWholeSum(entries: seq<Entry>)
    requires EntriesFit(entries)
    requires forall i :: 0 <= i < |entries| ==> entries[i].result.winNum == entries[i].slot.size
    ensures ViewSum(entries, false) == ShownSum(entries) as real
    ensures ViewSum(entries, true) == ExpectedSum(entries)
    decreases |entries|
  {
    if entries != [] {
      var n := |entries| - 1;
      WonWholeSum(entries[..n]);
      WonWhole(entries[n]);
    }
  }

  /** The views of a slot are in proportion to its wins: won times over its size they are all its views. */
  lemma ViewsInProportion(e: Entry)
    requires e.slot.size > 0
    ensures Views(e, false) * e.slot.size as real == e.result.winNum as real * e.slot.shown as real
    ensures Views(e, true) * e.slot.size as real
         == e.result.winNum as real * (e.slot.viewDelta * e.slot.request as real)
  {
    var w, n := e.result.winNum as real, e.slot.size as real;
    InProportion(w, n, w / n, e.slot.shown as real);
    var a := w / n * e.slot.viewDelta;
    Regrouped(w / n, e.slot.viewDelta, e.slot.request as real);
    InProportion(w, n, w / n, e.slot.viewDelta * e.slot.request as real);
  }

  lemma InProportion(w: real, n: real, part: real, v: real)
    requires 0.0 < n && part == w / n
    ensures part * v * n == w * v
  {
    assert part * n == w;
    Regrouped(part, v, n);
    Regrouped(part, n, v);
  }

  lemma Regrouped(a: real, b: real, c: real)
    ensures a * b * c == a * (b * c)
    ensures b * c == c * b
  {
  }

  /** Without a delta function the requests of a slot do not matter, with one its views do not. */
  ghost predicate SameButRequests(e: Entry, f: Entry) { f == e.(slot := e.slot.(request := f.slot.request)) }

  ghost predicate SameButShown(e: Entry, f: Entry) { f == e.(slot := e.slot.(shown := f.slot.shown)) }

  lemma {:induction false} ViewSumDependsOn(entries: seq<Entry>, others: seq<Entry>)
    requires EntriesFit(entries) && EntriesFit(others) && |entries| == |others|
    ensures (forall i :: 0 <= i < |entries| ==> SameButRequests(entries[i], others[i])) ==>
      ViewSum(others, false) == ViewSum(entries, false)
    ensures (forall i :: 0 <= i < |entries| ==> SameButShown(entries[i], others[i])) ==>
      ViewSum(others, true) == ViewSum(entries, true)
    decreases |entries|
  {
    if entries != [] {
      var n := |entries| - 1;
      ViewSumDependsOn(entries[..n], others[..n]);
      ViewsDependOn(entries[n], others[n]);
    }
  }

  lemma ViewsDependOn(e: Entry, f: Entry)
    requires e.slot.size > 0 && f.slot.size > 0
    ensures SameButRequests(e, f) ==> Views(f, false) == Views(e, false)
    ensures SameButShown(e, f) ==> Views(f, true) == Views(e, true)
  {
  }

  /** The weights are the requests or the views, as the option of the measure says. */
  function RequestSum(entries: seq<Entry>): nat {
    if entries == [] then 0 else RequestSum(entries[..|entries| - 1]) + entries[|entries| - 1].slot.request
  }

  lemma {:induction false} WeightsAre(m: Measure, entries: seq<Entry>, o: Options)
    ensures Weights(Terms(m, entries, o)) ==
      if (m == Clicks && o.ctrUsePos) || (m == Bids && o.bidUsePos) || (m == Wins && o.winUsePos)
      then RequestSum(entries) else ShownSum(entries)
    decreases |entries|
  {
    if entries != [] {
      var n := |entries| - 1;
      WeightsAre(m, entries[..n], o);
      assert entries[..n] + [entries[n]] == entries;
      TermAdded(m, entries[..n], o, entries[n]);
    }
  }

  /** Slots with one value between them have that value as their mean, but for what is added to the
      weights. */
  lemma MeanOfEqual(terms: seq<Term>, v: real)
    requires forall i :: 0 <= i < |terms| ==> terms[i].value == v
    ensures MeanOf(terms) * (Weights(terms) as real + 0.000000001) == v * Weights(terms) as real
  {
    WeightedBetween(terms, v, v);
    MeanTimes(Weighted(terms), Weights(terms));
  }

  lemma RateTimes(wins: nat, samples: nat)
    ensures Rate(wins, samples) * (samples as real + 0.000000001) == wins as real
  {
  }

  /** Without a delta function, or with one that is 1, the win rate is that among all samples; with one
      that is 0 it is that among the samples with a bid; in between it is mixed of the two. */
  lemma WinRateIs(r: Result, o: Options, delta: real)
    requires Sane(r)
    ensures !o.winUseDelta || delta == 1.0 ==>
      WinRate(r, o, delta) * (r.targetNum as real + 0.000000001) == r.winNum as real
    ensures o.winUseDelta && delta == 0.0 ==>
      WinRate(r, o, delta) * (r.bidNum as real + 0.000000001) == (r.winNum - r.zeroNum) as real
    ensures o.winUseDelta ==>
      WinRate(r, o, delta) == WinRate(r, o, 0.0) + delta * (WinRate(r, o, 1.0) - WinRate(r, o, 0.0))
  {
    NoWrap(r.winNum, r.zeroNum);
    NoWrap(r.targetNum, r.zeroNum);
    RateTimes(r.winNum, r.targetNum);
    RateTimes(r.winNum - r.zeroNum, r.bidNum);
    Ends(RateWithZero(r), RateWithoutZero(r), delta);
  }

  lemma Ends(a: real, b: real, d: real)
    ensures Mix(a, b, 1.0) == a && Mix(a, b, 0.0) == b && Mix(a, b, d) == b + d * (a - b)
  {
  }

  /** The average bid is that of the samples with a bid, unless that is less than the least bid. */
  lemma AverageBidIs(r: Result, minBid: real)
    ensures var average, w := AverageBid(r, minBid), r.bidNum as real + 0.000000001;
            && minBid <= average && r.bidSum as real <= average * w
            && (average == minBid || average * w == r.bidSum as real)
  {
    var x, w := r.bidSum as real, r.bidNum as real + 0.000000001;
    var m := x / w;
    assert m * w == x;
    if m < minBid {
      Times(m, minBid, w, x, minBid * w);
    }
  }

  /** The day is the least number that is at least a seventh. */
  lemma PerDayIs(x: real)
    ensures 7.0 * (PerDay(x) as real - 1.0) < x <= 7.0 * PerDay(x) as real
  {
  }

  /** The bounds of the unique views, spelled out. */
  lemma AllowedIs(pv: int, uv: int, o: Options)
    ensures Allowed(pv, uv, o) <==>
      pv as real * o.uvPvMin <= uv as real && uv as real < pv as real * o.uvPvMax + 1.0
  {
    var x := pv as real * o.uvPvMax;
    assert uv <= Ceil(x) <==> (uv as real) < x + 1.0;
  }

  /** The answer of a request, spelled out: a seventh of the page views, and the means if there is a page
      view a day at all, that of the win rates corrected and cut. */
  lemma AnswerIs(views: seq<Entry>, visitors: seq<Entry>, o: Options, mergeRate: real, correction: real)
    requires EntriesFit(views) && EntriesFit(visitors)
    ensures var a := AnswerOf(views, visitors, o, mergeRate, correction);
            var pv := ViewSum(views, o.pvUseDelta) + if o.uvUseDelta then 0.0 else ViewSum(visitors, false);
            && 7.0 * (a.pv as real - 1.0) < pv <= 7.0 * a.pv as real
            && (a.pv >= 1 ==> a.clickRate == MeanOf(Terms(Clicks, views, o)) && a.bid == MeanOf(Terms(Bids, views, o)))
            && (a.pv <= 0 ==> a.clickRate == 0.0 && a.bid == 0.0)
            && a.winRate == Capped(if a.pv >= 1 then MeanOf(Terms(Wins, views, o)) else 0.0, o, correction)
  {
    PerDayIs(PvSum(views, visitors, o));
  }

  lemma MergedDayIs(sum: real, mergeRate: real, merged: real)
    requires merged == sum * mergeRate
    ensures var day := MergedDay(sum, mergeRate) as real; 7.0 * (day - 1.0) < merged <= 7.0 * day
  {
    PerDayIs(merged);
  }

  /** The unique views are those of the merged day, in the range that the page views allow ... */
  lemma UniqueViewsAre(views: seq<Entry>, visitors: seq<Entry>, o: Options, mergeRate: real, correction: real)
    requires EntriesFit(views) && EntriesFit(visitors)
    ensures var a := AnswerOf(views, visitors, o, mergeRate, correction);
            0 <= a.pv && a.uv == InRange(a.pv, MergedDay(UvSum(visitors, o), mergeRate), o)
  {
    SumsNotNegative(views, visitors, o);
  }

  /** ... which leaves them as they are between two shares of the page views, and else makes them the nearer
      one, rounded up. */
  lemma RangeIs(pv: nat, day: int, o: Options, low: real, high: real)
    requires Configured(o) && low == pv as real * o.uvPvMin && high == pv as real * o.uvPvMax
    ensures var uv := InRange(pv, day, o);
            && (low <= day as real <= high ==> uv == day)
            && (day as real > high ==> high <= uv as real < high + 1.0)
            && ((day as real) < low ==> low <= uv as real < low + 1.0)
  {
    InRangeIs(pv, day, o, low, high);
    ClampedIsBetween(low, high, day);
  }

  lemma InRangeIs(pv: nat, day: int, o: Options, low: real, high: real)
    requires Configured(o) && low == pv as real * o.uvPvMin && high == pv as real * o.uvPvMax
    ensures InRange(pv, day, o) == Clamped(low, high, day) && low <= high
  {
    ShareIs(pv, o.uvPvMin, low);
    ShareIs(pv, o.uvPvMax, high);
    ShareOrdered(pv, o.uvPvMin, o.uvPvMax);
  }

  lemma ShareIs(pv: int, ratio: real, p: real)
    requires p == pv as real * ratio
    ensures Share(pv, ratio) == p
  {
  }

  /** The win rate is the mean, times the correction if that is below 1 and there is no delta function, and
      the maximum if that is less. */
  lemma CappedIs(mean: real, o: Options, correction: real, corrected: real)
    requires corrected == mean * correction
    ensures Capped(mean, o, correction) ==
      var rate := if o.winUseDelta || correction >= 1.0 then mean else corrected;
      if rate <= o.maxWinRate then rate else o.maxWinRate
  {
  }

  // ----------------------------------------------------------------- the request handler

  class Handler {
    const options: Options
    const merger: MergeRate.Merger
    var mergeRate: real
    var pvSum: real
    var uvSum: real
    var ctrWeightedSum: real
    var ctrWeightsSum: nat
    var bidWeightedSum: real
    var bidWeightsSum: nat
    var winRateWeightedSum: real
    var winRateWeightsSum: nat
    /** The slots accumulated so far. */
    ghost var views: seq<Entry>
    ghost var visitors: seq<Entry>

    ghost predicate SumsAre(m: Measure, weighted: real, weights: nat)
      reads this
    {
      weighted == Weighted(Terms(m, views, options)) && weights == Weights(Terms(m, views, options))
    }

    /** The sums are those over the slots so far. */
    ghost predicate Valid()
      reads this
    {
      && EntriesFit(views) && EntriesFit(visitors)
      && pvSum == PvSum(views, visitors, options) && uvSum == UvSum(visitors, options)
      && SumsAre(Clicks, ctrWeightedSum, ctrWeightsSum)
      && SumsAre(Bids, bidWeightedSum, bidWeightsSum)
      && SumsAre(Wins, winRateWeightedSum, winRateWeightsSum)
    }

    constructor (options: Options, merger: MergeRate.Merger)
      ensures Valid() && this.options == options && this.merger == merger && views == visitors == []
    {
      this.options, this.merger, mergeRate := options, merger, 0.0;
      pvSum, uvSum := 0.0, 0.0;
      ctrWeightedSum, ctrWeightsSum := 0.0, 0;
      bidWeightedSum, bidWeightsSum := 0.0, 0;
      winRateWeightedSum, winRateWeightsSum := 0.0, 0;
      views, visitors := [], [];
    }

    /** The merge rate of the slots asked about. */
    method Merge(uv: UvMerge.UvMergeBitmap, slots: seq<Name>, ghost psids: seq<seq<Name>>)
      requires Valid() && uv.IsMergeOf(psids)
      requires uv.bitmap.width <= merger.buffer.Length && uv.bitmap.data != merger.buffer
      modifies this`mergeRate, merger.buffer
      ensures Valid() && 0.0 < mergeRate <= 1.0
      ensures |UvMerge.SamplesOfAny(psids, slots)| <= UvMerge.UvSum(psids, slots)
      ensures mergeRate == MergeRate.Rate(|UvMerge.SamplesOfAny(psids, slots)|, UvMerge.UvSum(psids, slots))
    {
      mergeRate := merger.GetUvMergeRate(uv, slots, psids);
    }

    /** Accumulate for page views: the views won, and the weighted click rate, bid and win rate. */
    method AccumulatePv(slot: Slot, r: Result)
      requires Valid() && Fits(Entry(slot, r))
      modifies this
      ensures Valid() && views == old(views) + [Entry(slot, r)]
      ensures visitors == old(visitors) && mergeRate == old(mergeRate)
    {
      ghost var e := Entry(slot, r);
      ViewsAdded(views, visitors, options, e);
      TermAdded(Clicks, views, options, e);
      TermAdded(Bids, views, options, e);
      TermAdded(Wins, views, options, e);
      pvSum := pvSum + Views(Entry(slot, r), options.pvUseDelta);
      AddClicks(slot, r);
      AddBid(slot, r);
      AddWins(slot, r);
      views := views + [e];
    }

    method AddClicks(slot: Slot, r: Result)
      modifies this`ctrWeightedSum, this`ctrWeightsSum
      ensures ctrWeightedSum == old(ctrWeightedSum) + Product(TermOf(Clicks, Entry(slot, r), options))
      ensures ctrWeightsSum == old(ctrWeightsSum) + Weight(Clicks, slot, options)
    {
      var weight := if options.ctrUsePos then slot.request else slot.shown;
      ctrWeightedSum := ctrWeightedSum + slot.clickRate * weight as real;
      ctrWeightsSum := ctrWeightsSum + weight;
    }

    method AddBid(slot: Slot, r: Result)
      modifies this`bidWeightedSum, this`bidWeightsSum
      ensures bidWeightedSum == old(bidWeightedSum) + Product(TermOf(Bids, Entry(slot, r), options))
      ensures bidWeightsSum == old(bidWeightsSum) + Weight(Bids, slot, options)
    {
      var average := AverageBid(r, options.minBid);
      var weight := if options.bidUsePos then slot.request else slot.shown;
      bidWeightedSum := bidWeightedSum + average * weight as real;
      bidWeightsSum := bidWeightsSum + weight;
    }

    method AddWins(slot: Slot, r: Result)
      modifies this`winRateWeightedSum, this`winRateWeightsSum
      ensures winRateWeightedSum == old(winRateWeightedSum) + Product(TermOf(Wins, Entry(slot, r), options))
      ensures winRateWeightsSum == old(winRateWeightsSum) + Weight(Wins, slot, options)
    {
      var winRate := WinRate(r, options, slot.winDelta);
      var weight := if options.winUsePos then slot.request else slot.shown;
      winRateWeightedSum := winRateWeightedSum + winRate * weight as real;
      winRateWeightsSum := winRateWeightsSum + weight;
    }

    /** Accumulate for unique views: without a delta function they go to the page views. */
    method AccumulateUv(slot: Slot, r: Result)
      requires Valid() && Fits(Entry(slot, r))
      modifies this`uvSum, this`pvSum, this`visitors
      ensures Valid() && visitors == old(visitors) + [Entry(slot, r)]
      ensures if options.uvUseDelta then pvSum == old(pvSum) else uvSum == old(uvSum)
    {
      ghost var e := Entry(slot, r);
      VisitorsAdded(views, visitors, options, e);
      if options.uvUseDelta {
        uvSum := uvSum + Views(Entry(slot, r), true);
      } else {
        pvSum := pvSum + Views(Entry(slot, r), false);
      }
      visitors := visitors + [e];
    }

    /** Calculate: the answer for the slots accumulated. */
    method Calculate(correction: real) returns (a: Answer)
      requires Valid()
      ensures a == AnswerOf(views, visitors, options, mergeRate, correction)
    {
      var pv := PerDay(pvSum);
      var uv := UniqueViews(pv);
      var clickRate, bid, winRate := Means(pv);
      winRate := Correct(winRate, correction);
      a := Answer(pv, uv, clickRate, bid, winRate);
    }

    method Means(pv: int) returns (clickRate: real, bid: real, winRate: real)
      requires Valid()
      ensures clickRate == MeanIfShown(Clicks, views, options, pv)
      ensures bid == MeanIfShown(Bids, views, options, pv)
      ensures winRate == MeanIfShown(Wins, views, options, pv)
    {
      clickRate, bid, winRate := 0.0, 0.0, 0.0;
      if pv as real > MIN_DISPLAY_PV {
        clickRate := Mean(ctrWeightedSum, ctrWeightsSum);
        bid := Mean(bidWeightedSum, bidWeightsSum);
        winRate := Mean(winRateWeightedSum, winRateWeightsSum);
      }
    }

    /** The unique views after the merge, brought into the range that the page views allow. */
    method UniqueViews(pv: int) returns (uv: int)
      ensures uv == InRange(pv, MergedDay(uvSum, mergeRate), options)
    {
      var low, high := Share(pv, options.uvPvMin), Share(pv, options.uvPvMax);
      uv := PerDay(uvSum * mergeRate);
      uv := if uv as real > high then Ceil(high) else uv;
      uv := if (uv as real) < low then Ceil(low) else uv;
    }

    method Correct(mean: real, correction: real) returns (winRate: real)
      ensures winRate == Capped(mean, options, correction)
    {
      winRate := mean;
      if !options.winUseDelta {
        winRate := winRate * if correction < 1.0 then correction else 1.0;
      }
      winRate := if winRate > options.maxWinRate then options.maxWinRate else winRate;
    }
  }

  lemma ViewsNext(entries: seq<Entry>, useDelta: bool, e: Entry)
    requires EntriesFit(entries) && Fits(e)
    ensures EntriesFit(entries + [e])
    ensures ViewSum(entries + [e], useDelta) == ViewSum(entries, useDelta) + Views(e, useDelta)
  {
    assert (entries + [e])[..|entries|] == entries;
  }

  lemma ViewsAdded(views: seq<Entry>, visitors: seq<Entry>, o: Options, e: Entry)
    requires EntriesFit(views) && EntriesFit(visitors) && Fits(e)
    ensures EntriesFit(views + [e])
    ensures PvSum(views + [e], visitors, o) == PvSum(views, visitors, o) + Views(e, o.pvUseDelta)
  {
    ViewsNext(views, o.pvUseDelta, e);
  }

  lemma VisitorsAdded(views: seq<Entry>, visitors: seq<Entry>, o: Options, e: Entry)
    requires EntriesFit(views) && EntriesFit(visitors) && Fits(e)
    ensures EntriesFit(visitors + [e])
    ensures UvSum(visitors + [e], o) == UvSum(visitors, o) + if o.uvUseDelta then Views(e, true) else 0.0
    ensures PvSum(views, visitors + [e], o) == PvSum(views, visitors, o) +
              if o.uvUseDelta then 0.0 else Views(e, false)
  {
    ViewsNext(visitors, o.uvUseDelta, e);
  }

  lemma TermAdded(m: Measure, entries: seq<Entry>, o: Options, e: Entry)
    ensures Weighted(Terms(m, entries + [e], o)) == Weighted(Terms(m, entries, o)) + Product(TermOf(m, e, o))
    ensures Weights(Terms(m, entries + [e], o)) == Weights(Terms(m, entries, o)) + Weight(m, e.slot, o)
  {
    TermsNext(m, entries, o, e);
    OneMore(Terms(m, entries, o), TermOf(m, e, o));
  }

  // ----------------------------------------------------------------- the counts of a mask

  lemma {:induction false} TotalAtMost(row: seq<Byte>, lo: nat, hi: nat)
    requires lo <= hi <= 8 * |row|
    ensures Popping.Total(Bitmap.One(), row, lo, hi) <= hi - lo
    decreases hi - lo
  {
    if lo < hi {
      TotalAtMost(row, lo + 1, hi);
    }
  }

  lemma {:induction false} BidsAtMost(bids: seq<nat>, row: seq<Byte>, lo: nat, hi: nat)
    requires lo <= hi <= 8 * |row| && (forall c :: 0 <= c < |bids| ==> bids[c] <= 0xffff)
    ensures Popping.Total(BidOf(bids), row, lo, hi) <= 0xffff * Popping.Total(IsPaid(bids), row, lo, hi)
    decreases hi - lo
  {
    if lo < hi {
      BidsAtMost(bids, row, lo + 1, hi);
    }
  }

  /** The counts of every mask over 16-bit bids can be accumulated, and asking at a higher price wins no less. */
  lemma CountsAccumulate(bids: seq<nat>, price: nat, higher: nat, row: seq<Byte>, slot: Slot)
    requires price <= higher && 8 * |row| < 0x1_0000_0000
    requires forall c :: 0 <= c < |bids| ==> bids[c] <= 0xffff
    ensures var r, q := Sums(bids, price, row, 0, 8 * |row|), Sums(bids, higher, row, 0, 8 * |row|);
            Sane(r) && Sane(q) && WonMore(Entry(slot, r), Entry(slot, q))
  {
    Scan.CountsAreSane(bids, price, higher, row);
    Scan.CountsAreSane(bids, higher, higher, row);
    TotalAtMost(row, 0, 8 * |row|);
    BidsAtMost(bids, row, 0, 8 * |row|);
  }
}
