/** The exporter's own description of how raw outputs become a typed answer. Apart from summation it
    is written independently of `Numerics` and `Postprocess`; the math library and the rounding are
    parameters. */
module ReferenceAnswers {
  import opened Wrappers
  import opened Questions
  import N = Numerics
  import R = Reference

  datatype Library = Library(exp: real -> real, log: real -> real, round: real -> real)

  datatype Answer =
    | ChoiceAnswer(choice: string, keys: seq<string>, probabilities: seq<real>, confidence: real, act: real)
    | ScoreAnswer(score: real, probabilities: seq<real>, confidence: real, act: real)
    | NoulAnswer(noul: real, confidence: real, act: real)

  ghost predicate Positive(exp: real -> real) {
    forall x :: exp(x) > 0.0
  }

  function Largest(xs: seq<real>): real
    requires xs != []
  {
    if |xs| == 1 then xs[0]
    else if xs[0] >= Largest(xs[1..]) then xs[0]
    else Largest(xs[1..])
  }

  function Exponents(exp: real -> real, scaled: seq<real>): seq<real>
    requires scaled != []
  {
    seq(|scaled|, i requires 0 <= i < |scaled| => exp(scaled[i] - Largest(scaled)))
  }

  ghost function Softmax(exp: real -> real, logits: seq<real>, temperature: real): seq<real>
    requires logits != [] && Positive(exp)
  {
    var scale := R.ClampTemperature(Some(temperature));
    var exponents := Exponents(exp, seq(|logits|, i requires 0 <= i < |logits| => logits[i] / scale));
    N.SumPositive(exponents);
    seq(|exponents|, i requires 0 <= i < |exponents| => exponents[i] / N.Sum(exponents))
  }

  function Least(a: real, b: real): real {
    if b < a then b else a
  }

  function Greatest(a: real, b: real): real {
    if b > a then b else a
  }

  function LogSum(log: real -> real, p: seq<real>): real {
    if p == [] then 0.0
    else
      var last := p[|p| - 1];
      LogSum(log, p[..|p| - 1]) + last * log(Greatest(0.000000000001, Least(1.0, last)))
  }

  function Confidence(log: real -> real, p: seq<real>): real
    requires |p| >= 2 ==> log(|p| as real) != 0.0
  {
    if |p| < 2 then 1.0
    else Least(1.0, Greatest(0.0, 1.0 - -LogSum(log, p) / log(|p| as real)))
  }

  /** The index of the largest entry, the first of equal ones. */
  function Best(p: seq<real>): (k: nat)
    requires p != []
    ensures k < |p|
  {
    if |p| == 1 then 0
    else
      var k := Best(p[..|p| - 1]);
      if p[|p| - 1] > p[k] then |p| - 1 else k
  }

  function Score(p: seq<real>): real {
    if p == [] then 0.0 else Score(p[..|p| - 1]) + (|p| - 1) as real * p[|p| - 1]
  }

  function Rounded(round: real -> real, p: seq<real>): seq<real> {
    seq(|p|, i requires 0 <= i < |p| => round(p[i]))
  }

  ghost function FormatAnswer(lib: Library, q: Question, logits: seq<real>, action: seq<real>,
                              temperature: seq<Option<real>>, byOptions: map<string, Option<real>>): Answer
    requires Positive(lib.exp) && |temperature| == 3 && action != []
    requires |logits| == |R.RenderOptions(q)| >= 2 && lib.log(|logits| as real) != 0.0
  {
    var effective := R.SelectTemperature(R.QuestionTypeIndex(q), |R.RenderOptions(q)|, temperature, byOptions);
    var p := Softmax(lib.exp, logits, effective);
    var confidence := lib.round(Confidence(lib.log, p));
    var act := lib.round(Softmax(lib.exp, action, 1.0)[0]);
    match q
    case Choice(_, _, criteria) =>
      var keys := seq(|criteria|, i requires 0 <= i < |criteria| => criteria[i].id);
      ChoiceAnswer(keys[Best(p)], keys, Rounded(lib.round, p), confidence, act)
    case Score(_, _, _) => ScoreAnswer(lib.round(Score(p)), Rounded(lib.round, p), confidence, act)
    case Noul(_, _, _, _) => NoulAnswer(lib.round(p[1]), lib.round(Greatest(p[1], 1.0 - p[1])), act)
  }
}
