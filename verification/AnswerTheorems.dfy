/** The results the engine formats are the exporter's reference answers, up to how exact halves
    are rounded. */
module AnswerTheorems {
  import opened Wrappers
  import opened Questions
  import opened Preprocess
  import opened Calibration
  import opened Numerics
  import opened Results
  import opened Postprocess
  import PT = PreprocessTheorems
  import R = Reference
  import RA = ReferenceAnswers

  // ---- the two softmaxes ----

  /** The reference clamps the temperature once more and shifts by the largest entry; neither
      changes the distribution. */
  lemma SoftmaxesAgree(exp: real -> real, logits: seq<real>, t: real)
    requires IsExponential(exp) && logits != [] && 0.5 <= t <= 5.0
    ensures RA.Softmax(exp, logits, t) == Softmax(exp, logits, t)
  {
    var plain := Scaled(logits, t);
    var shift := RA.Largest(plain);
    var shifted := Exps(exp, plain, shift);
    assert RA.Exponents(exp, plain) == shifted;
    var p, reference := Softmax(exp, logits, t), RA.Softmax(exp, logits, t);
    forall i | 0 <= i < |logits| ensures reference[i] == p[i] { ShiftCancels(exp, plain, shift, i); }
  }

  // ---- confidence, score and selection ----

  lemma {:induction false} EntropiesAgree(log: real -> real, p: seq<real>)
    ensures Entropy(log, p) == -RA.LogSum(log, p)
  {
    if p != [] {
      var last := p[|p| - 1];
      EntropiesAgree(log, p[..|p| - 1]);
      assert Bounded(last) == RA.Greatest(0.000000000001, RA.Least(1.0, last));
    }
  }

  lemma {:induction false} ScoresAgree(p: seq<real>)
    ensures RA.Score(p) == Expected(p)
  {
    if p != [] { ScoresAgree(p[..|p| - 1]); }
  }

  lemma {:induction false} BestIsFirstMaximum(p: seq<real>)
    requires p != []
    ensures IsFirstMaximum(p, RA.Best(p))
  {
    if |p| > 1 { BestIsFirstMaximum(p[..|p| - 1]); }
  }

  // ---- whole answers ----

  /** The lists of criteria and of levels, against the reference's rounding of the same entries. */
  ghost predicate SameCriteria(listed: seq<CriterionProbability>, keys: seq<string>, probabilities: seq<real>) {
    && |keys| == |probabilities| == |listed|
    && forall i :: 0 <= i < |listed| ==> listed[i].id == keys[i] && listed[i].probability == probabilities[i]
  }

  ghost predicate SameLevels(listed: seq<LevelProbability>, probabilities: seq<real>) {
    |probabilities| == |listed| && forall i :: 0 <= i < |listed| ==> listed[i].probability == probabilities[i]
  }

  /** The result and the answer say the same, entry by entry. The reference's extra confidence of
      boolean questions has no counterpart in the result. */
  ghost predicate SameAnswer(r: Answer, a: RA.Answer) {
    && r.action == a.act
    && match r
       case ChoiceResult(_, selected, probabilities, confidence, _) =>
         a.ChoiceAnswer? && a.choice == selected && a.confidence == confidence
         && SameCriteria(probabilities, a.keys, a.probabilities)
       case ScoreResult(_, expected, distribution, confidence, _) =>
         a.ScoreAnswer? && a.score == expected && a.confidence == confidence
         && SameLevels(distribution, a.probabilities)
       case NoulResult(_, probability, _) => a.NoulAnswer? && a.noul == probability
  }

  /** The numbers a result of this kind rounds. */
  ghost function RoundedValues(m: Math, kind: Kind, p: seq<real>, act: real): seq<real>
    requires Lawful(m) && |p| >= 2
  {
    match kind
    case ChoiceKind => [act, Confidence(m, p)] + p
    case ScoreKind => [act, Confidence(m, p), Expected(p)] + p
    case NoulKind => [act, p[1]]
  }

  ghost predicate RoundsAlike(round: real -> real, values: seq<real>) {
    forall i :: 0 <= i < |values| ==> round(values[i]) == RoundFour(values[i])
  }

  lemma RoundsAlikeSplits(round: real -> real, first: seq<real>, rest: seq<real>)
    ensures RoundsAlike(round, first + rest) <==> RoundsAlike(round, first) && RoundsAlike(round, rest)
  {
    if RoundsAlike(round, first + rest) {
      forall i | 0 <= i < |first| ensures round(first[i]) == RoundFour(first[i]) { assert (first + rest)[i] == first[i]; }
      forall i | 0 <= i < |rest| ensures round(rest[i]) == RoundFour(rest[i]) { assert (first + rest)[|first| + i] == rest[i]; }
    }
  }

  /** The reference's answer in terms of one distribution and the rounding. */
  ghost function AnswerOver(m: Math, round: real -> real, question: Question, p: seq<real>, act: real): RA.Answer
    requires Lawful(m) && |p| == |R.RenderOptions(question)| >= 2
  {
    match question
    case Choice(_, _, criteria) =>
      var keys := seq(|criteria|, i requires 0 <= i < |criteria| => criteria[i].id);
      RA.ChoiceAnswer(keys[RA.Best(p)], keys, RA.Rounded(round, p), round(Confidence(m, p)), round(act))
    case Score(_, _, _) => RA.ScoreAnswer(round(Expected(p)), RA.Rounded(round, p), round(Confidence(m, p)), round(act))
    case Noul(_, _, _, _) => RA.NoulAnswer(round(p[1]), round(RA.Greatest(p[1], 1.0 - p[1])), round(act))
  }

  lemma ConfidencesAgree(m: Math, p: seq<real>)
    requires Lawful(m) && |p| >= 2 && LogOf(m, |p|) > 0.0
    ensures RA.Confidence(m.log, p) == Confidence(m, p)
  {
    EntropiesAgree(m.log, p);
  }

  lemma TemperaturesAgree(question: Question, temperature: seq<Raw>, byOptions: map<string, Raw>)
    requires |temperature| == 3
    ensures var t := R.SelectTemperature(R.QuestionTypeIndex(question), |R.RenderOptions(question)|, temperature, byOptions);
      && SelectValue(Parse(SUPPORTED_BOUNDS, temperature, byOptions).value, Normalize(question)) == Some(t)
      && 0.5 <= t <= 5.0
  {
    PT.NormalizeAgrees(question);
    SelectionRefinesReference(temperature, byOptions, Normalize(question));
  }

  lemma ReferenceAnswerIs(m: Math, round: real -> real, question: Question, logits: seq<real>, action: seq<real>,
                          temperature: seq<Raw>, byOptions: map<string, Raw>, t: real)
    requires Lawful(m) && |temperature| == 3 && action != [] && |logits| == |R.RenderOptions(question)| >= 2
    requires t == R.SelectTemperature(R.QuestionTypeIndex(question), |logits|, temperature, byOptions) && 0.5 <= t <= 5.0
    requires LogOf(m, |logits|) > 0.0
    ensures |Softmax(m.exp, logits, t)| == |logits| && Softmax(m.exp, action, 1.0) != []
    ensures RA.FormatAnswer(RA.Library(m.exp, m.log, round), question, logits, action, temperature, byOptions)
      == AnswerOver(m, round, question, Softmax(m.exp, logits, t), Softmax(m.exp, action, 1.0)[0])
  {
    SoftmaxesAgree(m.exp, logits, t);
    SoftmaxesAgree(m.exp, action, 1.0);
    ConfidencesAgree(m, Softmax(m.exp, logits, t));
    ScoresAgree(Softmax(m.exp, logits, t));
  }

  /** What the result of a row is, in terms of the same distribution. */
  ghost predicate ResultOver(m: Math, q: Prepared, best: nat, p: seq<real>, act: real, r: Answer)
    requires Lawful(m) && |p| >= 2
  {
    && r.action == RoundFour(act)
    && match q.kind
       case ChoiceKind =>
         && r.ChoiceResult? && |r.probabilities| == |q.optionIds| == |p|
         && (forall i :: 0 <= i < |p| ==> r.probabilities[i] == CriterionProbability(q.optionIds[i], RoundFour(p[i])))
         && best < |p| && r.selected == q.optionIds[best] && r.confidence == RoundFour(Confidence(m, p))
       case ScoreKind =>
         && r.ScoreResult? && |r.distribution| == |p|
         && (forall i :: 0 <= i < |p| ==> r.distribution[i].probability == RoundFour(p[i]))
         && r.expected == RoundFour(Expected(p)) && r.confidence == RoundFour(Confidence(m, p))
       case NoulKind => r.NoulResult? && r.probability == RoundFour(p[1])
  }

  lemma RoundsAlikeTwo(round: real -> real, a: real, b: real)
    ensures RoundsAlike(round, [a, b]) <==> round(a) == RoundFour(a) && round(b) == RoundFour(b)
  {
    var values := [a, b];
    assert values[0] == a && values[1] == b;
  }

  lemma RoundsAlikeThree(round: real -> real, a: real, b: real, c: real)
    ensures RoundsAlike(round, [a, b, c]) <==> round(a) == RoundFour(a) && round(b) == RoundFour(b) && round(c) == RoundFour(c)
  {
    var values := [a, b, c];
    assert values[0] == a && values[1] == b && values[2] == c;
  }

  lemma CriteriaRoundAlike(round: real -> real, p: seq<real>, keys: seq<string>, listed: seq<CriterionProbability>)
    requires |keys| == |p| == |listed|
    requires forall i :: 0 <= i < |p| ==> listed[i] == CriterionProbability(keys[i], RoundFour(p[i]))
    ensures SameCriteria(listed, keys, RA.Rounded(round, p)) <==> RoundsAlike(round, p)
  {
    if SameCriteria(listed, keys, RA.Rounded(round, p)) {
      forall i | 0 <= i < |p| ensures round(p[i]) == RoundFour(p[i]) { assert listed[i].probability == RA.Rounded(round, p)[i]; }
    }
  }

  lemma LevelsRoundAlike(round: real -> real, p: seq<real>, listed: seq<LevelProbability>)
    requires |p| == |listed| && forall i :: 0 <= i < |p| ==> listed[i].probability == RoundFour(p[i])
    ensures SameLevels(listed, RA.Rounded(round, p)) <==> RoundsAlike(round, p)
  {
    if SameLevels(listed, RA.Rounded(round, p)) {
      forall i | 0 <= i < |p| ensures round(p[i]) == RoundFour(p[i]) { assert listed[i].probability == RA.Rounded(round, p)[i]; }
    }
  }

  lemma SameChoice(m: Math, round: real -> real, question: Question, p: seq<real>, act: real, r: Answer)
    requires Lawful(m) && |p| == |R.RenderOptions(question)| >= 2 && question.Choice?
    requires ResultOver(m, Normalize(question), RA.Best(p), p, act, r)
    ensures SameAnswer(r, AnswerOver(m, round, question, p, act))
      <==> RoundsAlike(round, [act, Confidence(m, p)]) && RoundsAlike(round, p)
  {
    RoundsAlikeTwo(round, act, Confidence(m, p));
    CriteriaRoundAlike(round, p, Normalize(question).optionIds, r.probabilities);
    assert AnswerOver(m, round, question, p, act).keys == Normalize(question).optionIds;
  }

  lemma SameScore(m: Math, round: real -> real, question: Question, p: seq<real>, act: real, r: Answer)
    requires Lawful(m) && |p| == |R.RenderOptions(question)| >= 2 && question.Score?
    requires ResultOver(m, Normalize(question), RA.Best(p), p, act, r)
    ensures SameAnswer(r, AnswerOver(m, round, question, p, act))
      <==> RoundsAlike(round, [act, Confidence(m, p), Expected(p)]) && RoundsAlike(round, p)
  {
    RoundsAlikeThree(round, act, Confidence(m, p), Expected(p));
    LevelsRoundAlike(round, p, r.distribution);
  }

  lemma SameExactlyWhenRoundedAlike(m: Math, round: real -> real, question: Question, p: seq<real>, act: real, r: Answer)
    requires Lawful(m) && |p| == |R.RenderOptions(question)| >= 2
    requires ResultOver(m, Normalize(question), RA.Best(p), p, act, r)
    ensures SameAnswer(r, AnswerOver(m, round, question, p, act))
      <==> RoundsAlike(round, RoundedValues(m, Normalize(question).kind, p, act))
  {
    match question {
      case Choice(_, _, _) =>
        RoundsAlikeSplits(round, [act, Confidence(m, p)], p);
        SameChoice(m, round, question, p, act, r);
      case Score(_, _, _) =>
        RoundsAlikeSplits(round, [act, Confidence(m, p), Expected(p)], p);
        SameScore(m, round, question, p, act, r);
      case Noul(_, _, _, _) => RoundsAlikeTwo(round, act, p[1]);
    }
  }

  lemma ResultIsOver(m: Math, q: Prepared, logits: seq<real>, action: seq<real>, t: real, r: Answer)
    requires Lawful(m) && t > 0.0 && action != [] && |logits| == |q.options| >= 2
    requires IsResultOf(m, q, logits, action, t, r)
    ensures |Softmax(m.exp, logits, t)| == |logits| && Softmax(m.exp, action, 1.0) != []
    ensures var p := Softmax(m.exp, logits, t); ResultOver(m, q, RA.Best(p), p, Softmax(m.exp, action, 1.0)[0], r)
  {
    var p := Softmax(m.exp, logits, t);
    BestIsFirstMaximum(p);
    FirstMaximumOfLogits(m.exp, logits, t, RA.Best(p));
    if q.kind == ChoiceKind {
      var k: nat :| IsFirstMaximum(logits, k) && r.selected == q.optionIds[k];
      FirstMaximumUnique(logits, k, RA.Best(p));
    }
  }

  /** For every question, calibration and row of outputs, and whatever rounding the reference uses:
      the engine's result is the reference's answer if and only if that rounding agrees with the
      engine's on the values rounded. */
  lemma ResultRefinesReference(m: Math, round: real -> real, question: Question, logits: seq<real>, action: seq<real>,
                               temperature: seq<Raw>, byOptions: map<string, Raw>, t: real, r: Answer)
    requires Lawful(m) && |temperature| == 3 && action != []
    requires |logits| == |Normalize(question).options| >= 2
    requires SelectValue(Parse(SUPPORTED_BOUNDS, temperature, byOptions).value, Normalize(question)) == Some(t) && t > 0.0
    requires IsResultOf(m, Normalize(question), logits, action, t, r)
    ensures |R.RenderOptions(question)| == |logits| && LogOf(m, |logits|) > 0.0
    ensures |Softmax(m.exp, logits, t)| == |logits| && Softmax(m.exp, action, 1.0) != []
    ensures SameAnswer(r, RA.FormatAnswer(RA.Library(m.exp, m.log, round), question, logits, action, temperature, byOptions))
      <==> RoundsAlike(round, RoundedValues(m, Normalize(question).kind, Softmax(m.exp, logits, t),
                                            Softmax(m.exp, action, 1.0)[0]))
  {
    PT.NormalizeAgrees(question);
    TemperaturesAgree(question, temperature, byOptions);
    ReferenceAnswerIs(m, round, question, logits, action, temperature, byOptions, t);
    ResultIsOver(m, Normalize(question), logits, action, t, r);
    SameExactlyWhenRoundedAlike(m, round, question, Softmax(m.exp, logits, t), Softmax(m.exp, action, 1.0)[0], r);
  }

  // ---- the two roundings ----

  /** To the nearest integer, halves to the even one. */
  function HalfEven(x: real): int {
    var rest := x - x.Floor as real;
    if rest < 0.5 then x.Floor
    else if rest > 0.5 then x.Floor + 1
    else if x.Floor % 2 == 0 then x.Floor
    else x.Floor + 1
  }

  function RoundFourHalfEven(value: real): real {
    HalfEven(value * 10000.0) as real / 10000.0
  }

  /** Exactly half way between two fourth places, of which the lower is even. */
  predicate EvenTie(value: real) {
    var x := value * 10000.0;
    x - x.Floor as real == 0.5 && x.Floor % 2 == 0
  }

  /** The engine rounds halves away from zero and the reference to even: they differ on exactly the
      ties above an even fourth place. */
  lemma RoundingsDifferExactlyOnEvenTies(value: real)
    requires value >= 0.0
    ensures RoundFourHalfEven(value) != RoundFour(value) <==> EvenTie(value)
  {
    var x := value * 10000.0;
    assert Round(x) == if x - x.Floor as real >= 0.5 then x.Floor + 1 else x.Floor;
  }

  lemma RoundedValuesNotNegative(m: Math, kind: Kind, logits: seq<real>, action: seq<real>, t: real)
    requires Lawful(m) && t > 0.0 && |logits| >= 2 && action != []
    ensures |Softmax(m.exp, logits, t)| == |logits| && Softmax(m.exp, action, 1.0) != []
    ensures var values := RoundedValues(m, kind, Softmax(m.exp, logits, t), Softmax(m.exp, action, 1.0)[0]);
      forall i :: 0 <= i < |values| ==> values[i] >= 0.0
  {
    SoftmaxIsDistribution(m.exp, logits, t);
    SoftmaxIsDistribution(m.exp, action, 1.0);
    ExpectedWithin(Softmax(m.exp, logits, t));
  }

  /** With the reference's own rounding, then, result and answer are the same if and only if none of
      the values rounded is such a tie. */
  lemma ResultIsReferenceAnswerUnlessEvenTie(m: Math, question: Question, logits: seq<real>, action: seq<real>,
                                             temperature: seq<Raw>, byOptions: map<string, Raw>, t: real, r: Answer)
    requires Lawful(m) && |temperature| == 3 && action != []
    requires |logits| == |Normalize(question).options| >= 2
    requires SelectValue(Parse(SUPPORTED_BOUNDS, temperature, byOptions).value, Normalize(question)) == Some(t) && t > 0.0
    requires IsResultOf(m, Normalize(question), logits, action, t, r)
    ensures |R.RenderOptions(question)| == |logits| && LogOf(m, |logits|) > 0.0
    ensures |Softmax(m.exp, logits, t)| == |logits| && Softmax(m.exp, action, 1.0) != []
    ensures var values := RoundedValues(m, Normalize(question).kind, Softmax(m.exp, logits, t), Softmax(m.exp, action, 1.0)[0]);
      SameAnswer(r, RA.FormatAnswer(RA.Library(m.exp, m.log, RoundFourHalfEven), question, logits, action, temperature, byOptions))
      <==> forall i :: 0 <= i < |values| ==> !EvenTie(values[i])
  {
    ResultRefinesReference(m, RoundFourHalfEven, question, logits, action, temperature, byOptions, t, r);
    RoundedValuesNotNegative(m, Normalize(question).kind, logits, action, t);
    var values := RoundedValues(m, Normalize(question).kind, Softmax(m.exp, logits, t), Softmax(m.exp, action, 1.0)[0]);
    forall i | 0 <= i < |values| ensures RoundFourHalfEven(values[i]) == RoundFour(values[i]) <==> !EvenTie(values[i]) {
      RoundingsDifferExactlyOnEvenTies(values[i]);
    }
  }

  // ---- such ties happen ----

  lemma {:induction false} SumOfEqual(xs: seq<real>, c: real)
    requires forall i :: 0 <= i < |xs| ==> xs[i] == c
    ensures Sum(xs) == |xs| as real * c
  {
    if xs != [] {
      var n := |xs| - 1;
      SumOfEqual(xs[..n], c);
      assert (n as real + 1.0) * c == n as real * c + c;
    }
  }

  /** Equal logits get equal shares, at every temperature. */
  lemma EqualLogitsShareEqually(exp: real -> real, logits: seq<real>, x: real, t: real)
    requires IsExponential(exp) && t > 0.0 && logits != [] && forall i :: 0 <= i < |logits| ==> logits[i] == x
    ensures var p := Softmax(exp, logits, t);
      |p| == |logits| && forall i :: 0 <= i < |p| ==> p[i] == 1.0 / |logits| as real
  {
    var e, n := exp(x / t - 0.0), |logits| as real;
    var exps := Exps(exp, Scaled(logits, t), 0.0);
    SumOfEqual(exps, e);
    QuotientsCancel(1.0, n, e);
  }

  lemma ThirtySecondIsEvenTie()
    ensures EvenTie(0.03125) && RoundFour(0.03125) == 0.0313 && RoundFourHalfEven(0.03125) == 0.0312
  {
    assert (312.5 as real).Floor == 312;
  }

  /** The engine's result for a choice all of whose shares round to the same value. */
  lemma EvenResult(m: Math, q: Prepared, logits: seq<real>, action: seq<real>, t: real, share: real, x: real) returns (r: Answer)
    requires Lawful(m) && t > 0.0 && action != [] && q.kind == ChoiceKind
    requires |logits| == |q.options| == |q.optionIds| >= 2 && forall i :: 0 <= i < |logits| ==> logits[i] == x
    requires |Softmax(m.exp, logits, t)| == |logits| && forall i :: 0 <= i < |logits| ==> Softmax(m.exp, logits, t)[i] == share
    ensures IsResultOf(m, q, logits, action, t, r)
    ensures r.ChoiceResult? && forall i :: 0 <= i < |r.probabilities| ==> r.probabilities[i].probability == RoundFour(share)
  {
    var p := Softmax(m.exp, logits, t);
    r := ChoiceResult(q.id, q.optionIds[0],
                      seq(|p|, i requires 0 <= i < |p| => CriterionProbability(q.optionIds[i], RoundFour(share))),
                      RoundFour(Confidence(m, p)), RoundFour(Softmax(m.exp, action, 1.0)[0]));
    assert IsFirstMaximum(logits, 0);
  }

  /** A choice among 32 criteria whose logits are all equal, under any calibration: the engine
      answers 0.0313 for every criterion where the reference answers 0.0312. */
  lemma EvenChoiceOf32Differs(m: Math, question: Question, x: real, action: seq<real>,
                              temperature: seq<Raw>, byOptions: map<string, Raw>) returns (logits: seq<real>, t: real, r: Answer)
    requires Lawful(m) && question.Choice? && |question.criteria| == 32 && |temperature| == 3 && action != []
    ensures logits == seq(32, i => x) && |Normalize(question).options| == |R.RenderOptions(question)| == 32
    ensures t > 0.0 && LogOf(m, 32) > 0.0
    ensures SelectValue(Parse(SUPPORTED_BOUNDS, temperature, byOptions).value, Normalize(question)) == Some(t)
    ensures IsResultOf(m, Normalize(question), logits, action, t, r)
    ensures r.ChoiceResult? && forall i :: 0 <= i < |r.probabilities| ==> r.probabilities[i].probability == 0.0313
    ensures var a := RA.FormatAnswer(RA.Library(m.exp, m.log, RoundFourHalfEven), question, logits, action, temperature, byOptions);
      !SameAnswer(r, a) && a.ChoiceAnswer? && forall i :: 0 <= i < |a.probabilities| ==> a.probabilities[i] == 0.0312
  {
    logits := seq(32, i => x);
    PT.NormalizeAgrees(question);
    TemperaturesAgree(question, temperature, byOptions);
    t := R.SelectTemperature(R.QuestionTypeIndex(question), |R.RenderOptions(question)|, temperature, byOptions);
    EqualLogitsShareEqually(m.exp, logits, x, t);
    ThirtySecondIsEvenTie();
    r := EvenResult(m, Normalize(question), logits, action, t, 0.03125, x);
    EvenReference(m, question, logits, action, temperature, byOptions, t, 0.03125);
    assert r.probabilities[0].probability == 0.0313;
  }

  lemma EvenReference(m: Math, question: Question, logits: seq<real>, action: seq<real>,
                      temperature: seq<Raw>, byOptions: map<string, Raw>, t: real, share: real)
    requires Lawful(m) && question.Choice? && |temperature| == 3 && action != []
    requires |logits| == |R.RenderOptions(question)| >= 2 && LogOf(m, |logits|) > 0.0
    requires t == R.SelectTemperature(R.QuestionTypeIndex(question), |logits|, temperature, byOptions) && 0.5 <= t <= 5.0
    requires |Softmax(m.exp, logits, t)| == |logits| && forall i :: 0 <= i < |logits| ==> Softmax(m.exp, logits, t)[i] == share
    ensures var a := RA.FormatAnswer(RA.Library(m.exp, m.log, RoundFourHalfEven), question, logits, action, temperature, byOptions);
      a.ChoiceAnswer? && |a.probabilities| == |logits|
      && forall i :: 0 <= i < |a.probabilities| ==> a.probabilities[i] == RoundFourHalfEven(share)
  {
    ReferenceAnswerIs(m, RoundFourHalfEven, question, logits, action, temperature, byOptions, t);
  }
}
