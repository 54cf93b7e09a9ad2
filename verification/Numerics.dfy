/** The numeric heart of post-processing, over the reals: softmax, the index of the largest
    value, confidence and rounding. The exponential and the logarithm are parameters about which
    only the stated laws are used. */
module Numerics {
  import opened Wrappers

  datatype Math = Math(exp: real -> real, log: real -> real)

  ghost predicate Additive(exp: real -> real, a: real, b: real) {
    exp(a + b) == exp(a) * exp(b)
  }

  ghost predicate Increasing(exp: real -> real, a: real, b: real) {
    a < b ==> exp(a) < exp(b)
  }

  ghost predicate IsExponential(exp: real -> real) {
    && exp(0.0) == 1.0
    && (forall a :: exp(a) > 0.0)
    && (forall a, b :: Increasing(exp, a, b))
    && (forall a, b :: Additive(exp, a, b))
  }

  function LogOf(m: Math, n: nat): real {
    m.log(n as real)
  }

  ghost predicate Lawful(m: Math) {
    IsExponential(m.exp) && forall n: nat :: n >= 2 ==> LogOf(m, n) > 0.0
  }

  /** The most negative finite double, where the search for the largest scaled logit starts. */
  const LOWEST_FLOAT: real := -179769313486231570814527423731704356798070567525844996598917476803157260780028538760589558632766878171540458953514382464234321326889464182768467546703537516986049910576551282076245490090389328944075868508455133942304583236903222948165808559332123348274797826204144723168738177180919299881250404026184124858368.0

  function Sum(xs: seq<real>): real {
    if xs == [] then 0.0 else Sum(xs[..|xs| - 1]) + xs[|xs| - 1]
  }

  function Scaled(logits: seq<real>, t: real): seq<real>
    requires t > 0.0
  {
    seq(|logits|, i requires 0 <= i < |logits| => logits[i] / t)
  }

  function Exps(exp: real -> real, xs: seq<real>, shift: real): seq<real> {
    seq(|xs|, i requires 0 <= i < |xs| => exp(xs[i] - shift))
  }

  /** The textbook definition: exp(x/T) over the sum of all of them. */
  ghost function Softmax(exp: real -> real, logits: seq<real>, t: real): seq<real>
    requires t > 0.0 && logits != [] && IsExponential(exp)
  {
    var exps := Exps(exp, Scaled(logits, t), 0.0);
    SumPositive(exps);
    seq(|exps|, i requires 0 <= i < |exps| => exps[i] / Sum(exps))
  }

  lemma {:induction false} SumPositive(xs: seq<real>)
    requires xs != [] && forall i :: 0 <= i < |xs| ==> xs[i] > 0.0
    ensures Sum(xs) > 0.0
  {
    if |xs| > 1 { SumPositive(xs[..|xs| - 1]); }
  }

  ghost predicate Multiplied(xs: seq<real>, ys: seq<real>, c: real) {
    |xs| == |ys| && forall i :: 0 <= i < |xs| ==> ys[i] == xs[i] * c
  }

  lemma {:induction false} SumScales(xs: seq<real>, ys: seq<real>, c: real)
    requires Multiplied(xs, ys, c)
    ensures Sum(ys) == Sum(xs) * c
  {
    if xs != [] {
      var n := |xs| - 1;
      SumScales(xs[..n], ys[..n], c);
      assert (Sum(xs[..n]) + xs[n]) * c == Sum(xs[..n]) * c + xs[n] * c;
    }
  }

  lemma ExpShift(exp: real -> real, x: real, shift: real)
    requires IsExponential(exp)
    ensures exp(x - 0.0) == exp(x - shift) * exp(shift)
  {
    assert Additive(exp, x - shift, shift);
    assert x - shift + shift == x - 0.0;
  }

  lemma ExpsShift(exp: real -> real, xs: seq<real>, shift: real)
    requires IsExponential(exp)
    ensures Sum(Exps(exp, xs, 0.0)) == Sum(Exps(exp, xs, shift)) * exp(shift)
  {
    var shifted, plain, c := Exps(exp, xs, shift), Exps(exp, xs, 0.0), exp(shift);
    forall j | 0 <= j < |xs| ensures plain[j] == shifted[j] * c { ExpShift(exp, xs[j], shift); }
    assert Multiplied(shifted, plain, c);
    SumScales(shifted, plain, c);
  }

  /** Subtracting any shift before exponentiating does not change the quotients. */
  lemma ShiftCancels(exp: real -> real, xs: seq<real>, shift: real, i: nat)
    requires IsExponential(exp) && i < |xs|
    ensures Sum(Exps(exp, xs, shift)) > 0.0 && Sum(Exps(exp, xs, 0.0)) > 0.0
    ensures Exps(exp, xs, shift)[i] / Sum(Exps(exp, xs, shift)) == Exps(exp, xs, 0.0)[i] / Sum(Exps(exp, xs, 0.0))
  {
    SumPositive(Exps(exp, xs, shift));
    SumPositive(Exps(exp, xs, 0.0));
    ExpShift(exp, xs[i], shift);
    ExpsShift(exp, xs, shift);
    QuotientsCancel(Exps(exp, xs, shift)[i], Sum(Exps(exp, xs, shift)), exp(shift));
  }

  lemma QuotientsCancel(x: real, total: real, c: real)
    requires total > 0.0 && c > 0.0
    ensures (total * c) > 0.0 && x / total == (x * c) / (total * c)
  {
    var q := x / total;
    assert q * total == x;
    assert q * (total * c) == x * c;
  }

  function MaxReal(a: real, b: real): real {
    if a >= b then a else b
  }

  function MinReal(a: real, b: real): real {
    if a <= b then a else b
  }

  /** The max-shifted computation, loop by loop; it never refuses what it is given unless there
      are no logits or the temperature is not positive, and its result is the plain softmax. */
  method StableSoftmax(exp: real -> real, logits: seq<real>, temperature: real) returns (r: Option<seq<real>>)
    requires IsExponential(exp)
    ensures r.Some? <==> logits != [] && temperature > 0.0
    ensures r.Some? ==> r.value == Softmax(exp, logits, temperature)
  {
    if |logits| == 0 {
      return None;
    }
    if temperature <= 0.0 {
      return None;
    }
    var scaled: seq<real> := [];
    var maximum := LOWEST_FLOAT;
    for i := 0 to |logits|
      invariant scaled == Scaled(logits, temperature)[..i]
    {
      scaled := scaled + [logits[i] / temperature];
      maximum := MaxReal(maximum, scaled[i]);
    }
    ghost var plain := Scaled(logits, temperature);
    assert scaled == plain;
    ghost var exps := Exps(exp, plain, maximum);
    var total := 0.0;
    for i := 0 to |scaled|
      invariant |scaled| == |plain| && scaled[..i] == exps[..i] && scaled[i..] == plain[i..]
      invariant total == Sum(exps[..i])
    {
      assert scaled[i] == plain[i];
      scaled := scaled[i := exp(scaled[i] - maximum)];
      assert exps[..i + 1][..i] == exps[..i];
      total := total + scaled[i];
    }
    assert exps[..|exps|] == exps && scaled == exps;
    SumPositive(exps);
    if total <= 0.0 {
      return None;
    }
    for i := 0 to |scaled|
      invariant |scaled| == |exps| && scaled[i..] == exps[i..]
      invariant forall j :: 0 <= j < i ==> scaled[j] == exps[j] / total
    {
      assert scaled[i] == exps[i];
      scaled := scaled[i := scaled[i] / total];
    }
    forall i | 0 <= i < |scaled|
      ensures scaled[i] == Softmax(exp, logits, temperature)[i]
    {
      ShiftCancels(exp, plain, maximum, i);
    }
    r := Some(scaled);
  }

  lemma DivideAdds(a: real, b: real, c: real)
    requires c > 0.0
    ensures (a + b) / c == a / c + b / c
  {
    var x, y := a / c, b / c;
    assert x * c == a && y * c == b;
    assert (x + y) * c == a + b;
  }

  ghost predicate Divided(xs: seq<real>, ys: seq<real>, c: real)
    requires c > 0.0
  {
    |xs| == |ys| && forall i :: 0 <= i < |xs| ==> ys[i] == xs[i] / c
  }

  lemma {:induction false} SumDivides(xs: seq<real>, ys: seq<real>, c: real)
    requires c > 0.0 && Divided(xs, ys, c)
    ensures Sum(ys) == Sum(xs) / c
  {
    if xs != [] {
      var n := |xs| - 1;
      SumDivides(xs[..n], ys[..n], c);
      DivideAdds(Sum(xs[..n]), xs[n], c);
    }
  }

  lemma SelfQuotient(x: real)
    requires x > 0.0
    ensures x / x == 1.0
  {}

  lemma SharesSumToOne(xs: seq<real>, shares: seq<real>)
    requires Sum(xs) > 0.0 && Divided(xs, shares, Sum(xs)) && forall i :: 0 <= i < |xs| ==> xs[i] > 0.0
    ensures Sum(shares) == 1.0 && forall i :: 0 <= i < |shares| ==> shares[i] > 0.0
  {
    var total := Sum(xs);
    SumDivides(xs, shares, total);
    SelfQuotient(total);
    forall i | 0 <= i < |shares| ensures shares[i] > 0.0 { QuotientOrder(0.0, xs[i], total); }
  }

  lemma SoftmaxSums(exp: real -> real, logits: seq<real>, t: real)
    requires IsExponential(exp) && logits != [] && t > 0.0
    ensures var p := Softmax(exp, logits, t);
      |p| == |logits| && Sum(p) == 1.0 && forall i :: 0 <= i < |p| ==> p[i] > 0.0
  {
    var exps := Exps(exp, Scaled(logits, t), 0.0);
    var p := Softmax(exp, logits, t);
    SumPositive(exps);
    assert Divided(exps, p, Sum(exps));
    SharesSumToOne(exps, p);
  }

  lemma SoftmaxOrder(exp: real -> real, logits: seq<real>, t: real, i: nat, j: nat)
    requires IsExponential(exp) && t > 0.0 && i < |logits| && j < |logits|
    ensures var p := Softmax(exp, logits, t); |p| == |logits| && (p[i] < p[j] <==> logits[i] < logits[j])
  {
    var exps := Exps(exp, Scaled(logits, t), 0.0);
    SumPositive(exps);
    QuotientOrder(logits[i], logits[j], t);
    QuotientOrder(exps[i], exps[j], Sum(exps));
    var a, b := logits[i] / t - 0.0, logits[j] / t - 0.0;
    assert Increasing(exp, a, b) && Increasing(exp, b, a);
  }

  /** Softmax is a probability distribution with no zero entry, and it orders its entries exactly
      as the logits are ordered, whatever the temperature. */
  lemma SoftmaxIsDistribution(exp: real -> real, logits: seq<real>, t: real)
    requires IsExponential(exp) && logits != [] && t > 0.0
    ensures var p := Softmax(exp, logits, t);
      && |p| == |logits|
      && Sum(p) == 1.0
      && (forall i :: 0 <= i < |p| ==> 0.0 < p[i] <= 1.0)
      && (forall i, j :: 0 <= i < |p| && 0 <= j < |p| ==> (p[i] < p[j] <==> logits[i] < logits[j]))
  {
    SoftmaxSums(exp, logits, t);
    var p := Softmax(exp, logits, t);
    forall i | 0 <= i < |p| ensures p[i] <= 1.0 { PartOfSum(p, i); }
    forall i, j | 0 <= i < |p| && 0 <= j < |p|
      ensures p[i] < p[j] <==> logits[i] < logits[j]
    {
      SoftmaxOrder(exp, logits, t, i, j);
    }
  }

  lemma QuotientOrder(a: real, b: real, t: real)
    requires t > 0.0
    ensures a / t < b / t <==> a < b
    ensures a / t == b / t <==> a == b
  {
    var x, y := a / t, b / t;
    assert x * t == a && y * t == b;
  }

  lemma {:induction false} PartOfSum(xs: seq<real>, i: nat)
    requires i < |xs| && forall j :: 0 <= j < |xs| ==> xs[j] >= 0.0
    ensures 0.0 <= xs[i] <= Sum(xs)
  {
    if i < |xs| - 1 {
      PartOfSum(xs[..|xs| - 1], i);
    } else if |xs| > 1 {
      PartOfSum(xs[..|xs| - 1], 0);
    }
  }

  // ---- the largest ----

  ghost predicate IsFirstMaximum(values: seq<real>, k: nat) {
    && k < |values|
    && (forall j :: 0 <= j < |values| ==> values[j] <= values[k])
    && (forall j :: 0 <= j < k ==> values[j] < values[k])
  }

  lemma FirstMaximumUnique(values: seq<real>, j: nat, k: nat)
    requires IsFirstMaximum(values, j) && IsFirstMaximum(values, k)
    ensures j == k
  {
    assert values[j] == values[k];
  }

  method MaximumIndex(values: seq<real>) returns (best: nat)
    requires values != []
    ensures IsFirstMaximum(values, best)
  {
    best := 0;
    for index := 1 to |values|
      invariant best < index && IsFirstMaximum(values[..index], best)
    {
      if values[index] > values[best] {
        best := index;
      }
    }
  }

  /** The first largest probability is at the first largest logit. */
  lemma FirstMaximumOfLogits(exp: real -> real, logits: seq<real>, t: real, k: nat)
    requires IsExponential(exp) && logits != [] && t > 0.0
    ensures IsFirstMaximum(Softmax(exp, logits, t), k) <==> IsFirstMaximum(logits, k)
  {
    SoftmaxIsDistribution(exp, logits, t);
    var p := Softmax(exp, logits, t);
    if k < |p| {
      assert forall j :: 0 <= j < |p| ==> (p[k] < p[j] <==> logits[k] < logits[j]);
      assert forall j :: 0 <= j < |p| ==> (p[j] < p[k] <==> logits[j] < logits[k]);
    }
  }

  // ---- rounding ----

  /** To the nearest integer, halves away from zero. */
  function Round(x: real): int {
    if x >= 0.0 then (x + 0.5).Floor else -((-x + 0.5).Floor)
  }

  function RoundFour(value: real): real {
    Round(value * 10000.0) as real / 10000.0
  }

  lemma RoundMonotone(a: real, b: real)
    requires a <= b
    ensures RoundFour(a) <= RoundFour(b)
  {
    var x, y := a * 10000.0, b * 10000.0;
    FloorMonotone(x + 0.5, y + 0.5);
    FloorMonotone(-y + 0.5, -x + 0.5);
    assert Round(x) <= Round(y);
  }

  lemma FloorMonotone(a: real, b: real)
    requires a <= b
    ensures a.Floor <= b.Floor
  {
  }

  lemma RoundFixesIntegers(n: nat)
    ensures RoundFour(n as real) == n as real
  {
    var x := n as real * 10000.0;
    assert x == (n * 10000) as real;
    assert (x + 0.5).Floor == n * 10000;
  }

  /** Rounding never leaves an interval whose ends are whole numbers, and moves by at most half a
      unit in the fourth place. */
  lemma RoundStaysWithin(value: real, top: nat)
    requires 0.0 <= value <= top as real
    ensures 0.0 <= RoundFour(value) <= top as real
    ensures -0.00005 <= RoundFour(value) - value <= 0.00005
  {
    RoundMonotone(0.0, value);
    RoundMonotone(value, top as real);
    RoundFixesIntegers(0);
    RoundFixesIntegers(top);
    var x := value * 10000.0;
    assert -0.5 <= Round(x) as real - x <= 0.5;
  }

  // ---- confidence and the expected level ----

  function Bounded(p: real): real {
    MinReal(1.0, MaxReal(0.000000000001, p))
  }

  function Entropy(log: real -> real, probabilities: seq<real>): real {
    if probabilities == [] then 0.0
    else
      var n := |probabilities| - 1;
      Entropy(log, probabilities[..n]) - probabilities[n] * log(Bounded(probabilities[n]))
  }

  function Confidence(m: Math, probabilities: seq<real>): (c: real)
    requires |probabilities| >= 2 ==> LogOf(m, |probabilities|) > 0.0
    ensures 0.0 <= c <= 1.0
  {
    if |probabilities| < 2 then 1.0
    else MinReal(1.0, MaxReal(0.0, 1.0 - Entropy(m.log, probabilities) / LogOf(m, |probabilities|)))
  }

  method ConfidenceFromProbabilities(m: Math, probabilities: seq<real>) returns (confidence: real)
    requires Lawful(m)
    ensures confidence == Confidence(m, probabilities)
  {
    if |probabilities| < 2 {
      return 1.0;
    }
    var entropy := 0.0;
    for i := 0 to |probabilities|
      invariant entropy == Entropy(m.log, probabilities[..i])
    {
      var bounded := MinReal(1.0, MaxReal(0.000000000001, probabilities[i]));
      assert probabilities[..i + 1][..i] == probabilities[..i];
      entropy := entropy - probabilities[i] * m.log(bounded);
    }
    assert probabilities[..|probabilities|] == probabilities;
    return MinReal(1.0, MaxReal(0.0, 1.0 - entropy / LogOf(m, |probabilities|)));
  }

  function Expected(probabilities: seq<real>): real {
    if probabilities == [] then 0.0
    else
      var n := |probabilities| - 1;
      Expected(probabilities[..n]) + n as real * probabilities[n]
  }

  /** The expected index under non-negative weights lies between zero and the last index times
      their sum. */
  lemma {:induction false} ExpectedWithin(probabilities: seq<real>)
    requires probabilities != [] && forall i :: 0 <= i < |probabilities| ==> probabilities[i] >= 0.0
    ensures 0.0 <= Expected(probabilities) <= (|probabilities| - 1) as real * Sum(probabilities)
  {
    var n := |probabilities| - 1;
    var p := probabilities[n];
    if n > 0 {
      var before := probabilities[..n];
      ExpectedWithin(before);
      SumNonNegative(before);
      assert n as real * p >= 0.0;
      assert (n - 1) as real * Sum(before) == n as real * Sum(before) - Sum(before);
      assert n as real * (Sum(before) + p) == n as real * Sum(before) + n as real * p;
    }
  }

  lemma {:induction false} SumNonNegative(xs: seq<real>)
    requires forall i :: 0 <= i < |xs| ==> xs[i] >= 0.0
    ensures Sum(xs) >= 0.0
  {
    if xs != [] { SumNonNegative(xs[..|xs| - 1]); }
  }
}
