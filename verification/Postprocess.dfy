/** Turning raw model outputs into typed results. */
module Postprocess {
  import opened Wrappers
  import opened Questions
  import opened Preprocess
  import opened Calibration
  import opened Numerics
  import opened Results
  import C = Collate

  datatype Outputs = Outputs(logits: seq<seq<real>>, actionLogits: seq<seq<real>>)

  datatype FormatError = BadShape | NoTemperature | BadSoftmax | BadResult

  // ---- what each row means ----

  /** The result of one row, read off its logits, its action logits and its temperature. */
  ghost predicate IsResultOf(m: Math, q: Prepared, logits: seq<real>, action: seq<real>, t: real, r: Answer)
    requires IsExponential(m.exp) && t > 0.0 && |logits| == |q.options| && action != []
    requires |q.options| >= 2 && Lawful(m)
  {
    var p := Softmax(m.exp, logits, t);
    && r.questionId == q.id
    && r.action == RoundFour(Softmax(m.exp, action, 1.0)[0])
    && match q.kind
       case ChoiceKind =>
         && r.ChoiceResult?
         && |r.probabilities| == |q.optionIds| == |p|
         && (forall i :: 0 <= i < |p| ==>
              r.probabilities[i] == CriterionProbability(q.optionIds[i], RoundFour(p[i])))
         && (exists k: nat :: IsFirstMaximum(logits, k) && r.selected == q.optionIds[k])
         && r.confidence == RoundFour(Confidence(m, p))
       case ScoreKind =>
         && r.ScoreResult?
         && |r.distribution| == |q.optionLabels| == |p|
         && (forall i :: 0 <= i < |p| ==>
              r.distribution[i] == LevelProbability(i, q.optionLabels[i], RoundFour(p[i])))
         && r.expected == RoundFour(Expected(p))
         && r.confidence == RoundFour(Confidence(m, p))
       case NoulKind => r.NoulResult? && r.probability == RoundFour(p[1])
  }

  /** A prepared question whose option lists match its kind, as normalization makes them. */
  ghost predicate WellPrepared(q: Prepared) {
    && q.qtype == QType(q.kind)
    && |q.options| >= 2
    && (q.kind == ChoiceKind ==> |q.optionIds| == |q.options|)
    && (q.kind == ScoreKind ==> |q.optionLabels| == |q.options|)
    && (q.kind == NoulKind ==> |q.options| == 2)
  }

  /** Every rounded entry of a distribution, and every rounded confidence, is a probability. */
  lemma RoundedAreProbabilities(m: Math, logits: seq<real>, t: real)
    requires Lawful(m) && t > 0.0 && logits != []
    ensures var p := Softmax(m.exp, logits, t);
      && |p| == |logits|
      && (forall i :: 0 <= i < |p| ==> IsProbability(RoundFour(p[i])))
      && IsProbability(RoundFour(Confidence(m, p)))
      && 0.0 <= RoundFour(Expected(p)) <= (|p| - 1) as real
  {
    var p := Softmax(m.exp, logits, t);
    SoftmaxIsDistribution(m.exp, logits, t);
    forall i | 0 <= i < |p| ensures IsProbability(RoundFour(p[i])) { RoundStaysWithin(p[i], 1); }
    RoundStaysWithin(Confidence(m, p), 1);
    ExpectedWithin(p);
    RoundStaysWithin(Expected(p), |p| - 1);
  }

  /** A row's result passes every check on results and answers its question. */
  lemma RowIsValid(m: Math, question: Question, logits: seq<real>, action: seq<real>, t: real, r: Answer)
    requires Lawful(m) && t > 0.0 && action != [] && ValidQuestion(question)
    requires |Normalize(question).options| >= 2 && |logits| == |Normalize(question).options|
    requires IsResultOf(m, Normalize(question), logits, action, t, r)
    ensures ValidResult(r) && r.questionId == question.id && Matches(r, question)
  {
    var q := Normalize(question);
    var p := Softmax(m.exp, logits, t);
    RoundedAreProbabilities(m, logits, t);
    RoundedAreProbabilities(m, action, 1.0);
    match question {
      case Choice(_, _, criteria) =>
        forall i | 0 <= i < |criteria|
          ensures r.probabilities[i].id == criteria[i].id && IsProbability(r.probabilities[i].probability)
        {
          assert r.probabilities[i] == CriterionProbability(q.optionIds[i], RoundFour(p[i]));
        }
        var k: nat :| IsFirstMaximum(logits, k) && r.selected == q.optionIds[k];
        assert r.probabilities[k].id == r.selected;
      case Score(_, _, rubric) =>
        forall i | 0 <= i < |rubric|
          ensures r.distribution[i].level == i && r.distribution[i].name == rubric[i].name
          ensures IsProbability(r.distribution[i].probability)
        {
          assert r.distribution[i] == LevelProbability(i, q.optionLabels[i], RoundFour(p[i]));
        }
      case Noul(_, _, _, _) =>
    }
  }

  // ---- the computation ----

  datatype Derivation = Derivation(
    probabilities: seq<real>,
    actionProbabilities: seq<real>,
    confidence: real,
    expected: real,
    trueProbability: real)

  predicate WellShaped(markerWidth: nat, rows: nat, outputs: Outputs) {
    && |outputs.logits| == |outputs.actionLogits| == rows
    && (forall i :: 0 <= i < rows ==> |outputs.logits[i]| == markerWidth && |outputs.actionLogits[i]| == 2)
  }

  method ValidateRawOutputs(batch: C.Batch, outputs: Outputs) returns (ok: bool)
    requires |batch.markerPos| == |batch.items|
    ensures ok <==> WellShaped(if batch.items == [] then 0 else |batch.markerPos[0]|, |batch.items|, outputs)
    ensures ok <==>
      && |outputs.logits| == |batch.items| == |outputs.actionLogits|
      && forall i :: 0 <= i < |batch.items| ==> |outputs.logits[i]| == |batch.markerPos[0]| && |outputs.actionLogits[i]| == 2
  {
    var rows := |batch.items|;
    if |outputs.logits| != rows || |outputs.actionLogits| != rows {
      return false;
    }
    var markerWidth := 0;
    if rows > 0 {
      markerWidth := |batch.markerPos[0]|;
    }
    for row := 0 to rows
      invariant forall k :: 0 <= k < row ==> |outputs.logits[k]| == markerWidth && |outputs.actionLogits[k]| == 2
    {
      if |outputs.logits[row]| != markerWidth || |outputs.actionLogits[row]| != 2 {
        return false;
      }
    }
    ok := true;
  }

  method ExpectedLevel(p: seq<real>) returns (expected: real)
    ensures expected == Expected(p)
  {
    expected := 0.0;
    for i := 0 to |p|
      invariant expected == Expected(p[..i])
    {
      assert p[..i + 1][..i] == p[..i];
      expected := expected + i as real * p[i];
    }
    assert p[..|p|] == p;
  }

  method DeriveOutputRow(m: Math, q: Prepared, logits: seq<real>, action: seq<real>, c: Config)
      returns (r: Result<Derivation, FormatError>, ghost t: real)
    requires Lawful(m) && WellPrepared(q) && |action| == 2
    requires exists b: Bounds :: Accepted(c, b)
    ensures r.Ok? <==> |logits| == |q.options|
    ensures r.Ok? ==>
      && SelectValue(c, q) == Some(t) && t > 0.0
      && var p := Softmax(m.exp, logits, t);
      && r.value.probabilities == p
      && r.value.actionProbabilities == Softmax(m.exp, action, 1.0)
      && r.value.confidence == Confidence(m, p)
      && (q.kind == ScoreKind ==> r.value.expected == Expected(p))
      && (q.kind == NoulKind ==> |p| > 1 && r.value.trueProbability == p[1])
  {
    t := 1.0;
    if |logits| != |q.options| {
      return Err(BadShape), t;
    }
    ghost var b: Bounds :| Accepted(c, b);
    SelectionSucceeds(c, b, q);
    var selected := SelectValue(c, q);
    if selected.None? {
      return Err(NoTemperature), t;
    }
    t := selected.value;
    var probabilities := StableSoftmax(m.exp, logits, selected.value);
    if probabilities.None? {
      return Err(BadSoftmax), t;
    }
    var actions := StableSoftmax(m.exp, action, 1.0);
    if actions.None? {
      return Err(BadSoftmax), t;
    }
    var p := probabilities.value;
    var confidence := ConfidenceFromProbabilities(m, p);
    var expected := 0.0;
    if q.kind == ScoreKind {
      expected := ExpectedLevel(p);
    }
    var trueProbability := 0.0;
    if q.kind == NoulKind {
      trueProbability := p[1];
    }
    r := Ok(Derivation(p, actions.value, confidence, expected, trueProbability));
  }

  method ResultFromDerivation(m: Math, q: Prepared, d: Derivation, ghost logits: seq<real>, ghost action: seq<real>,
                              ghost t: real) returns (r: Answer)
    requires Lawful(m) && WellPrepared(q) && t > 0.0 && |logits| == |q.options| && |action| == 2
    requires d.probabilities == Softmax(m.exp, logits, t)
    requires d.actionProbabilities == Softmax(m.exp, action, 1.0)
    requires d.confidence == Confidence(m, d.probabilities)
    requires q.kind == ScoreKind ==> d.expected == Expected(d.probabilities)
    requires q.kind == NoulKind ==> d.trueProbability == d.probabilities[1]
    ensures IsResultOf(m, q, logits, action, t, r)
  {
    var actionProbability := RoundFour(d.actionProbabilities[0]);
    match q.kind {
      case ChoiceKind =>
        var best := MaximumIndex(d.probabilities);
        FirstMaximumOfLogits(m.exp, logits, t, best);
        var probabilities: seq<CriterionProbability> := [];
        for i := 0 to |q.optionIds|
          invariant |probabilities| == i
          invariant forall k :: 0 <= k < i ==>
            probabilities[k] == CriterionProbability(q.optionIds[k], RoundFour(d.probabilities[k]))
        {
          probabilities := probabilities + [CriterionProbability(q.optionIds[i], RoundFour(d.probabilities[i]))];
        }
        r := ChoiceResult(q.id, q.optionIds[best], probabilities, RoundFour(d.confidence), actionProbability);
      case ScoreKind =>
        var distribution: seq<LevelProbability> := [];
        for i := 0 to |q.optionLabels|
          invariant |distribution| == i
          invariant forall k :: 0 <= k < i ==>
            distribution[k] == LevelProbability(k, q.optionLabels[k], RoundFour(d.probabilities[k]))
        {
          distribution := distribution + [LevelProbability(i, q.optionLabels[i], RoundFour(d.probabilities[i]))];
        }
        r := ScoreResult(q.id, RoundFour(d.expected), distribution, RoundFour(d.confidence), actionProbability);
      case NoulKind =>
        r := NoulResult(q.id, RoundFour(d.trueProbability), actionProbability);
    }
  }

  /** A batch for these questions: one item each, in order, rows wide enough for every option,
      and counts that agree. */
  ghost predicate Formattable(batch: C.Batch, questions: seq<Question>) {
    && ValidRequest(questions)
    && |batch.items| == |batch.markerPos| == |questions|
    && (forall i :: 0 <= i < |questions| ==>
         && batch.items[i].question == Normalize(questions[i])
         && |Normalize(questions[i]).options| <= |batch.markerPos[0]|)
    && 0 <= batch.inputTokens && ValidTruncation(batch.truncation)
  }

  lemma CollatedIsFormattable(items: seq<Item>, questions: seq<Question>, pad: int)
    requires ValidRequest(questions) && |items| == |questions|
    requires forall i :: 0 <= i < |items| ==>
      && items[i].question == Normalize(questions[i])
      && |items[i].markers| == |items[i].question.options|
      && C.Counted(items[i])
    ensures Formattable(C.Collated(items, pad), questions)
  {
    C.CountsAreConserved(items, pad);
    var batch := C.Collated(items, pad);
    forall i | 0 <= i < |questions|
      ensures batch.items[i].question == Normalize(questions[i])
      ensures |Normalize(questions[i]).options| <= |batch.markerPos[0]|
    {
      assert C.Marks(items)[i] == items[i].markers;
    }
  }

  /** Preparing valid questions yields such a batch, whatever the limits and the tokenizer. */
  lemma PreparedIsFormattable(state: string, questions: seq<Question>, b: Budget, special: Special,
                              tokenizer: Tokenizer, limit: int, policy: Policy)
    requires ValidRequest(questions)
    requires C.PrepareAll(state, questions, b, special, tokenizer, limit, policy).Ok?
    ensures Formattable(
      C.Collated(C.PrepareAll(state, questions, b, special, tokenizer, limit, policy).value, special.pad), questions)
  {
    C.PreparedItems(state, questions, b, special, tokenizer, limit, policy);
    CollatedIsFormattable(C.PrepareAll(state, questions, b, special, tokenizer, limit, policy).value,
                          questions, special.pad);
  }

  lemma NormalizedIsWellPrepared(q: Question)
    requires ValidQuestion(q)
    ensures WellPrepared(Normalize(q)) && Normalize(q).id == q.id
  {
  }

  /** What row `i` of a prediction must be. */
  ghost predicate RowAnswers(m: Math, question: Question, logits: seq<real>, action: seq<real>, c: Config, r: Answer)
  {
    var q := Normalize(question);
    && Lawful(m) && WellPrepared(q) && |q.options| <= |logits| && action != []
    && exists t :: t > 0.0 && SelectValue(c, q) == Some(t) && IsResultOf(m, q, logits[..|q.options|], action, t, r)
  }

  method FormatRow(m: Math, ghost question: Question, q: Prepared, logits: seq<real>, action: seq<real>, c: Config)
      returns (r: Result<Answer, FormatError>)
    requires Lawful(m) && ValidQuestion(question) && q == Normalize(question)
    requires |q.options| <= |logits| && |action| == 2
    requires exists b: Bounds :: Accepted(c, b)
    ensures r.Ok? && ValidResult(r.value) && r.value.questionId == question.id && Matches(r.value, question)
    ensures RowAnswers(m, question, logits, action, c, r.value)
  {
    NormalizedIsWellPrepared(question);
    var used := logits[..|q.options|];
    var derived, t := DeriveOutputRow(m, q, used, action, c);
    match derived {
      case Err(e) => return Err(e);
      case Ok(derivation) =>
        var result := ResultFromDerivation(m, q, derivation, used, action, t);
        RowIsValid(m, question, used, action, t, result);
        r := Ok(result);
    }
  }

  /** The result answers its question and is the one its row denotes. */
  ghost predicate AnswersRow(m: Math, question: Question, outputs: Outputs, i: nat, c: Config, r: Answer)
    requires i < |outputs.logits| && i < |outputs.actionLogits|
  {
    && ValidResult(r) && r.questionId == question.id && Matches(r, question)
    && RowAnswers(m, question, outputs.logits[i], outputs.actionLogits[i], c, r)
  }

  /** One result for each question, read off the question's own row. */
  ghost predicate RowsAnswered(m: Math, questions: seq<Question>, outputs: Outputs, c: Config, results: seq<Answer>) {
    && |results| == |questions| == |outputs.logits| == |outputs.actionLogits|
    && forall i :: 0 <= i < |questions| ==> AnswersRow(m, questions[i], outputs, i, c, results[i])
  }

  method FormatRows(m: Math, items: seq<Item>, outputs: Outputs, c: Config, ghost questions: seq<Question>)
      returns (r: Result<seq<Answer>, FormatError>)
    requires Lawful(m) && exists b: Bounds :: Accepted(c, b)
    requires |items| == |questions| == |outputs.logits| == |outputs.actionLogits|
    requires forall i :: 0 <= i < |questions| ==>
      && ValidQuestion(questions[i]) && items[i].question == Normalize(questions[i])
      && |items[i].question.options| <= |outputs.logits[i]| && |outputs.actionLogits[i]| == 2
    ensures r.Ok? && |r.value| == |questions|
    ensures forall i :: 0 <= i < |questions| ==> AnswersRow(m, questions[i], outputs, i, c, r.value[i])
  {
    var results: seq<Answer> := [];
    for i := 0 to |items|
      invariant |results| == i
      invariant forall k :: 0 <= k < i ==> AnswersRow(m, questions[k], outputs, k, c, results[k])
    {
      var row := FormatRow(m, questions[i], items[i].question, outputs.logits[i], outputs.actionLogits[i], c);
      match row {
        case Err(e) => return Err(e);
        case Ok(result) => results := results + [result];
      }
    }
    r := Ok(results);
  }

  lemma RowsMakeAnswers(m: Math, questions: seq<Question>, outputs: Outputs, c: Config, p: Prediction)
    requires ValidRequest(questions) && 0 <= p.inputTokens && 0 <= p.outputTokens && ValidTruncation(p.truncation)
    requires |p.results| == |questions| == |outputs.logits| == |outputs.actionLogits|
    requires forall i :: 0 <= i < |questions| ==> AnswersRow(m, questions[i], outputs, i, c, p.results[i])
    ensures Answers(p, questions)
  {
    forall i | 0 <= i < |questions|
      ensures ValidResult(p.results[i]) && p.results[i].questionId == questions[i].id && Matches(p.results[i], questions[i])
    {
      assert AnswersRow(m, questions[i], outputs, i, c, p.results[i]);
    }
  }

  /** Formatting never fails on outputs of the right shape, and refuses all others: for every batch
      of valid questions and every accepted calibration, each question's row is in bounds, every
      result is the one its row denotes, and the prediction passes the check that guards callers. */
  method FormatInferencePrediction(m: Math, batch: C.Batch, outputs: Outputs, c: Config,
                                   ghost questions: seq<Question>, ghost b: Bounds)
      returns (r: Result<Prediction, FormatError>)
    requires Lawful(m) && Formattable(batch, questions) && Accepted(c, b)
    ensures r.Ok? <==> WellShaped(|batch.markerPos[0]|, |questions|, outputs)
    ensures r.Ok? <==>
      && |outputs.logits| == |questions| == |outputs.actionLogits|
      && forall i :: 0 <= i < |questions| ==> |outputs.logits[i]| == |batch.markerPos[0]| && |outputs.actionLogits[i]| == 2
    ensures r.Ok? ==>
      && Answers(r.value, questions)
      && r.value.truncation == batch.truncation && r.value.inputTokens == batch.inputTokens && r.value.outputTokens == 0
      && RowsAnswered(m, questions, outputs, c, r.value.results)
    ensures r.Err? ==> r.error == BadShape
  {
    var shaped := ValidateRawOutputs(batch, outputs);
    if !shaped {
      return Err(BadShape);
    }
    var rows := FormatRows(m, batch.items, outputs, c, questions);
    match rows {
      case Err(e) => return Err(e);
      case Ok(results) =>
        var prediction := Prediction(results, batch.inputTokens, 0, batch.truncation);
        RowsMakeAnswers(m, questions, outputs, c, prediction);
        var valid := ValidatePrediction(prediction);
        if !valid {
          return Err(BadResult);
        }
        r := Ok(prediction);
    }
  }
}
