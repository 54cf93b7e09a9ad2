/** Typed results, the checks every prediction must pass, and the check that a prediction answers
    the questions that were asked. */
module Results {
  import opened Questions

  datatype CriterionProbability = CriterionProbability(id: string, probability: real)

  datatype LevelProbability = LevelProbability(level: nat, name: string, probability: real)

  datatype Answer =
    | ChoiceResult(questionId: string, selected: string, probabilities: seq<CriterionProbability>,
                   confidence: real, action: real)
    | ScoreResult(questionId: string, expected: real, distribution: seq<LevelProbability>,
                  confidence: real, action: real)
    | NoulResult(questionId: string, probability: real, action: real)

  datatype Truncation = Truncation(truncated: bool, original: int, effective: int)

  datatype Prediction = Prediction(results: seq<Answer>, inputTokens: int, outputTokens: int, truncation: Truncation)

  predicate IsProbability(p: real) {
    0.0 <= p <= 1.0
  }

  ghost predicate ValidResult(r: Answer) {
    && r.questionId != ""
    && IsProbability(r.action)
    && match r
       case ChoiceResult(_, selected, probabilities, confidence, _) =>
         && selected != "" && probabilities != []
         && (forall i :: 0 <= i < |probabilities| ==> probabilities[i].id != "" && IsProbability(probabilities[i].probability))
         && (forall i, j :: 0 <= i < j < |probabilities| ==> probabilities[i].id != probabilities[j].id)
         && (exists i :: 0 <= i < |probabilities| && probabilities[i].id == selected)
         && IsProbability(confidence)
       case ScoreResult(_, expected, distribution, confidence, _) =>
         && distribution != []
         && 0.0 <= expected <= (|distribution| - 1) as real
         && (forall i :: 0 <= i < |distribution| ==>
              distribution[i].level == i && distribution[i].name != "" && IsProbability(distribution[i].probability))
         && IsProbability(confidence)
       case NoulResult(_, probability, _) => IsProbability(probability)
  }

  ghost predicate ValidTruncation(t: Truncation) {
    && 0 <= t.original && 0 <= t.effective
    && (if t.truncated then t.effective < t.original else t.effective == t.original)
  }

  ghost predicate ValidPrediction(p: Prediction) {
    && p.results != []
    && (forall i :: 0 <= i < |p.results| ==> ValidResult(p.results[i]))
    && (forall i, j :: 0 <= i < j < |p.results| ==> p.results[i].questionId != p.results[j].questionId)
    && 0 <= p.inputTokens && 0 <= p.outputTokens
    && ValidTruncation(p.truncation)
  }

  /** The result is of the question's kind and lists exactly its options, in order. */
  ghost predicate Matches(r: Answer, q: Question) {
    match q
    case Choice(_, _, criteria) =>
      r.ChoiceResult? && |r.probabilities| == |criteria|
      && forall i :: 0 <= i < |criteria| ==> r.probabilities[i].id == criteria[i].id
    case Score(_, _, rubric) =>
      r.ScoreResult? && |r.distribution| == |rubric|
      && forall i :: 0 <= i < |rubric| ==> r.distribution[i].name == rubric[i].name
    case Noul(_, _, _, _) => r.NoulResult?
  }

  ghost predicate Answers(p: Prediction, questions: seq<Question>) {
    && ValidPrediction(p)
    && |p.results| == |questions|
    && forall i :: 0 <= i < |questions| ==>
         p.results[i].questionId == questions[i].id && Matches(p.results[i], questions[i])
  }

  // ---- the same, by counting and over the fields ----

  function ListedIds(probabilities: seq<CriterionProbability>): seq<string> {
    seq(|probabilities|, i requires 0 <= i < |probabilities| => probabilities[i].id)
  }

  function AnsweredIds(results: seq<Answer>): seq<string> {
    seq(|results|, i requires 0 <= i < |results| => results[i].questionId)
  }

  lemma ChoiceByCounting(r: Answer)
    requires r.ChoiceResult?
    ensures ValidResult(r) <==>
      && r.questionId != "" && r.selected in SetOf(ListedIds(r.probabilities))
      && "" !in SetOf(ListedIds(r.probabilities)) && |SetOf(ListedIds(r.probabilities))| == |r.probabilities|
      && 0.0 <= r.confidence <= 1.0 && 0.0 <= r.action <= 1.0
      && forall p :: p in r.probabilities ==> 0.0 <= p.probability <= 1.0
  {
    var ids := ListedIds(r.probabilities);
    DistinctByCounting(ids);
    forall i | 0 <= i < |ids| ensures ids[i] == r.probabilities[i].id {}
    if |SetOf(ids)| == |ids| {
      forall i, j | 0 <= i < j < |ids| ensures r.probabilities[i].id != r.probabilities[j].id { assert ids[i] != ids[j]; }
    }
    if "" !in SetOf(ids) {
      forall i | 0 <= i < |ids| ensures r.probabilities[i].id != "" { assert ids[i] in SetOf(ids); }
    }
  }

  lemma ScoreOverFields(r: Answer)
    requires r.ScoreResult?
    ensures ValidResult(r) <==>
      && r.questionId != "" && r.distribution != []
      && 0.0 <= r.expected && r.expected + 1.0 <= |r.distribution| as real
      && 0.0 <= r.confidence <= 1.0 && 0.0 <= r.action <= 1.0
      && (forall p :: p in r.distribution ==> p.name != "" && 0.0 <= p.probability <= 1.0)
      && forall i :: 0 <= i < |r.distribution| ==> r.distribution[i].level == i
  {}

  lemma NoulOverFields(r: Answer)
    requires r.NoulResult?
    ensures ValidResult(r) <==> r.questionId != "" && 0.0 <= r.probability <= 1.0 && 0.0 <= r.action <= 1.0
  {}

  lemma PredictionByCounting(p: Prediction)
    ensures ValidPrediction(p) <==>
      && 0 < |p.results| == |SetOf(AnsweredIds(p.results))|
      && (forall r :: r in p.results ==> ValidResult(r))
      && 0 <= p.inputTokens && 0 <= p.outputTokens
      && 0 <= p.truncation.effective <= p.truncation.original
      && (p.truncation.truncated <==> p.truncation.effective != p.truncation.original)
  {
    var ids := AnsweredIds(p.results);
    DistinctByCounting(ids);
    assert (forall i, j :: 0 <= i < j < |ids| ==> ids[i] != ids[j])
      <==> (forall i, j :: 0 <= i < j < |p.results| ==> p.results[i].questionId != p.results[j].questionId) by {
      forall i | 0 <= i < |ids| ensures ids[i] == p.results[i].questionId {}
    }
  }

  /** What a caller gets: one result for each question, of its kind, under its id, with exactly its
      options, in order. */
  lemma AnswersOverFields(p: Prediction, questions: seq<Question>)
    ensures Answers(p, questions) <==>
      && ValidPrediction(p) && AnsweredIds(p.results) == QuestionIds(questions)
      && forall i :: 0 <= i < |questions| && i < |p.results| ==>
           && (questions[i].Choice? ==>
                p.results[i].ChoiceResult? && ListedIds(p.results[i].probabilities) == CriterionIds(questions[i].criteria))
           && (questions[i].Score? ==>
                p.results[i].ScoreResult? && ListedNames(p.results[i].distribution) == LevelNames(questions[i].rubric))
           && (questions[i].Noul? ==> p.results[i].NoulResult?)
  {
    if Answers(p, questions) {
      assert AnsweredIds(p.results) == QuestionIds(questions);
      forall i | 0 <= i < |questions| ensures MatchesFields(p.results[i], questions[i]) { MatchesMeans(p.results[i], questions[i]); }
    }
    if ValidPrediction(p) && AnsweredIds(p.results) == QuestionIds(questions) {
      assert |AnsweredIds(p.results)| == |p.results| && |QuestionIds(questions)| == |questions|;
      forall i | 0 <= i < |questions| ensures p.results[i].questionId == questions[i].id {
        assert AnsweredIds(p.results)[i] == QuestionIds(questions)[i];
      }
      forall i | 0 <= i < |questions| ensures Matches(p.results[i], questions[i]) <==> MatchesFields(p.results[i], questions[i]) {
        MatchesMeans(p.results[i], questions[i]);
      }
    }
  }

  function ListedNames(distribution: seq<LevelProbability>): seq<string> {
    seq(|distribution|, i requires 0 <= i < |distribution| => distribution[i].name)
  }

  ghost predicate MatchesFields(r: Answer, q: Question) {
    && (q.Choice? ==> r.ChoiceResult? && ListedIds(r.probabilities) == CriterionIds(q.criteria))
    && (q.Score? ==> r.ScoreResult? && ListedNames(r.distribution) == LevelNames(q.rubric))
    && (q.Noul? ==> r.NoulResult?)
  }

  lemma MatchesMeans(r: Answer, q: Question)
    ensures Matches(r, q) <==> MatchesFields(r, q)
  {
    match q
    case Choice(_, _, criteria) =>
      if r.ChoiceResult? && ListedIds(r.probabilities) == CriterionIds(criteria) {
        assert |ListedIds(r.probabilities)| == |r.probabilities| && |CriterionIds(criteria)| == |criteria|;
        forall i | 0 <= i < |criteria| ensures r.probabilities[i].id == criteria[i].id {
          assert ListedIds(r.probabilities)[i] == CriterionIds(criteria)[i];
        }
      }
    case Score(_, _, rubric) =>
      if r.ScoreResult? && ListedNames(r.distribution) == LevelNames(rubric) {
        assert |ListedNames(r.distribution)| == |r.distribution| && |LevelNames(rubric)| == |rubric|;
        forall i | 0 <= i < |rubric| ensures r.distribution[i].name == rubric[i].name {
          assert ListedNames(r.distribution)[i] == LevelNames(rubric)[i];
        }
      }
    case Noul(_, _, _, _) =>
  }

  method ValidateChoice(r: Answer) returns (ok: bool)
    requires r.ChoiceResult?
    ensures ok <==> ValidResult(r)
  {
    if r.questionId == "" || r.selected == "" || |r.probabilities| == 0 {
      return false;
    }
    var seen: set<string> := {};
    var selectedFound := false;
    for i := 0 to |r.probabilities|
      invariant seen == set k | 0 <= k < i :: r.probabilities[k].id
      invariant forall k :: 0 <= k < i ==> r.probabilities[k].id != "" && IsProbability(r.probabilities[k].probability)
      invariant forall k, l :: 0 <= k < l < i ==> r.probabilities[k].id != r.probabilities[l].id
      invariant selectedFound <==> exists k :: 0 <= k < i && r.probabilities[k].id == r.selected
    {
      var p := r.probabilities[i];
      if p.id == "" || p.id in seen || !IsProbability(p.probability) {
        return false;
      }
      seen := seen + {p.id};
      selectedFound := selectedFound || p.id == r.selected;
    }
    return selectedFound && IsProbability(r.confidence) && IsProbability(r.action);
  }

  method ValidateScore(r: Answer) returns (ok: bool)
    requires r.ScoreResult?
    ensures ok <==> ValidResult(r)
  {
    if r.questionId == "" || |r.distribution| == 0 {
      return false;
    }
    if r.expected < 0.0 || r.expected > (|r.distribution| - 1) as real {
      return false;
    }
    for i := 0 to |r.distribution|
      invariant forall k :: 0 <= k < i ==>
        r.distribution[k].level == k && r.distribution[k].name != "" && IsProbability(r.distribution[k].probability)
    {
      var p := r.distribution[i];
      if p.level != i || p.name == "" || !IsProbability(p.probability) {
        return false;
      }
    }
    return IsProbability(r.confidence) && IsProbability(r.action);
  }

  method ValidateResult(r: Answer) returns (ok: bool)
    ensures ok <==> ValidResult(r)
  {
    match r {
      case ChoiceResult(_, _, _, _, _) => ok := ValidateChoice(r);
      case ScoreResult(_, _, _, _, _) => ok := ValidateScore(r);
      case NoulResult(id, probability, action) => return id != "" && IsProbability(probability) && IsProbability(action);
    }
  }

  method ValidateTruncation(t: Truncation) returns (ok: bool)
    ensures ok <==> ValidTruncation(t)
  {
    if t.original < 0 || t.effective < 0 {
      return false;
    }
    if t.truncated && t.original <= t.effective {
      return false;
    }
    return t.truncated || t.original == t.effective;
  }

  method ValidatePrediction(p: Prediction) returns (ok: bool)
    ensures ok <==> ValidPrediction(p)
  {
    if |p.results| == 0 {
      return false;
    }
    var seen: set<string> := {};
    for i := 0 to |p.results|
      invariant seen == set k | 0 <= k < i :: p.results[k].questionId
      invariant forall k :: 0 <= k < i ==> ValidResult(p.results[k])
      invariant forall k, l :: 0 <= k < l < i ==> p.results[k].questionId != p.results[l].questionId
    {
      var valid := ValidateResult(p.results[i]);
      if !valid || p.results[i].questionId in seen {
        return false;
      }
      seen := seen + {p.results[i].questionId};
    }
    if p.inputTokens < 0 || p.outputTokens < 0 {
      return false;
    }
    ok := ValidateTruncation(p.truncation);
  }

  method ValidateResultForQuestion(r: Answer, q: Question) returns (ok: bool)
    ensures ok <==> Matches(r, q)
  {
    match q {
      case Choice(_, _, criteria) =>
        if !r.ChoiceResult? || |r.probabilities| != |criteria| {
          return false;
        }
        for i := 0 to |criteria|
          invariant forall k :: 0 <= k < i ==> r.probabilities[k].id == criteria[k].id
        {
          if r.probabilities[i].id != criteria[i].id {
            return false;
          }
        }
        return true;
      case Score(_, _, rubric) =>
        if !r.ScoreResult? || |r.distribution| != |rubric| {
          return false;
        }
        for i := 0 to |rubric|
          invariant forall k :: 0 <= k < i ==> r.distribution[k].name == rubric[k].name
        {
          if r.distribution[i].name != rubric[i].name {
            return false;
          }
        }
        return true;
      case Noul(_, _, _, _) => return r.NoulResult?;
    }
  }

  /** The check every prediction passes before a caller sees it. */
  method ValidatePredictionForQuestions(p: Prediction, questions: seq<Question>) returns (ok: bool)
    ensures ok <==> Answers(p, questions)
  {
    ok := ValidatePrediction(p);
    if !ok || |p.results| != |questions| {
      return false;
    }
    for i := 0 to |questions|
      invariant forall k :: 0 <= k < i ==>
        p.results[k].questionId == questions[k].id && Matches(p.results[k], questions[k])
    {
      if p.results[i].questionId != questions[i].id {
        return false;
      }
      var matches := ValidateResultForQuestion(p.results[i], questions[i]);
      if !matches {
        return false;
      }
    }
    return true;
  }
}
