/** The questions a caller asks, and the checks every request passes first. */
module Questions {

  datatype Criterion = Criterion(id: string, description: string)

  datatype Level = Level(name: string, description: string)

  datatype Question =
    | Choice(id: string, instructions: string, criteria: seq<Criterion>)
    | Score(id: string, instructions: string, rubric: seq<Level>)
    | Noul(id: string, instructions: string, falseText: string, trueText: string)

  ghost predicate ValidQuestion(q: Question) {
    && q.id != "" && q.instructions != ""
    && match q
       case Choice(_, _, criteria) =>
         && |criteria| >= 2
         && (forall i :: 0 <= i < |criteria| ==> criteria[i].id != "" && criteria[i].description != "")
         && (forall i, j :: 0 <= i < j < |criteria| ==> criteria[i].id != criteria[j].id)
       case Score(_, _, rubric) =>
         && |rubric| >= 2
         && (forall i :: 0 <= i < |rubric| ==> rubric[i].name != "" && rubric[i].description != "")
         && (forall i, j :: 0 <= i < j < |rubric| ==> rubric[i].name != rubric[j].name)
       case Noul(_, _, _, _) => true
  }

  ghost predicate ValidRequest(questions: seq<Question>) {
    && questions != []
    && (forall i :: 0 <= i < |questions| ==> ValidQuestion(questions[i]))
    && (forall i, j :: 0 <= i < j < |questions| ==> questions[i].id != questions[j].id)
  }

  // ---- distinctness by counting ----

  function SetOf(xs: seq<string>): set<string> {
    set i | 0 <= i < |xs| :: xs[i]
  }

  /** Names are distinct exactly when there are as many of them as entries. */
  lemma {:induction false} DistinctByCounting(xs: seq<string>)
    ensures |SetOf(xs)| <= |xs|
    ensures |SetOf(xs)| == |xs| <==> forall i, j :: 0 <= i < j < |xs| ==> xs[i] != xs[j]
  {
    if xs != [] {
      var n := |xs| - 1;
      DistinctByCounting(xs[..n]);
      assert SetOf(xs) == SetOf(xs[..n]) + {xs[n]} by {
        forall i | 0 <= i < n ensures xs[..n][i] == xs[i] {}
      }
      if xs[n] in SetOf(xs[..n]) {
        var i :| 0 <= i < n && xs[..n][i] == xs[n];
        assert xs[i] == xs[n];
        assert SetOf(xs) == SetOf(xs[..n]);
      } else {
        forall i | 0 <= i < n ensures xs[i] != xs[n] { assert xs[..n][i] == xs[i]; }
        if forall i, j :: 0 <= i < j < n ==> xs[..n][i] != xs[..n][j] {
          forall i, j | 0 <= i < j < |xs| ensures xs[i] != xs[j] {
            if j < n { assert xs[..n][i] == xs[i] && xs[..n][j] == xs[j]; }
          }
        }
      }
      if forall i, j :: 0 <= i < j < |xs| ==> xs[i] != xs[j] {
        forall i, j | 0 <= i < j < n ensures xs[..n][i] != xs[..n][j] { assert xs[i] != xs[j]; }
      }
    }
  }

  function CriterionIds(criteria: seq<Criterion>): seq<string> {
    seq(|criteria|, i requires 0 <= i < |criteria| => criteria[i].id)
  }

  function LevelNames(rubric: seq<Level>): seq<string> {
    seq(|rubric|, i requires 0 <= i < |rubric| => rubric[i].name)
  }

  function QuestionIds(questions: seq<Question>): seq<string> {
    seq(|questions|, i requires 0 <= i < |questions| => questions[i].id)
  }

  lemma QuestionByCounting(q: Question)
    ensures q.Choice? ==> (ValidQuestion(q) <==>
      && q.id != "" && q.instructions != ""
      && 2 <= |q.criteria| == |SetOf(CriterionIds(q.criteria))|
      && forall c :: c in q.criteria ==> c.id != "" && c.description != "")
    ensures q.Score? ==> (ValidQuestion(q) <==>
      && q.id != "" && q.instructions != ""
      && 2 <= |q.rubric| == |SetOf(LevelNames(q.rubric))|
      && forall l :: l in q.rubric ==> l.name != "" && l.description != "")
    ensures q.Noul? ==> (ValidQuestion(q) <==> q.id != "" && q.instructions != "")
  {
    match q
    case Choice(_, _, criteria) =>
      var ids := CriterionIds(criteria);
      DistinctByCounting(ids);
      assert (forall i, j :: 0 <= i < j < |ids| ==> ids[i] != ids[j])
        <==> (forall i, j :: 0 <= i < j < |criteria| ==> criteria[i].id != criteria[j].id) by {
        forall i | 0 <= i < |ids| ensures ids[i] == criteria[i].id {}
      }
    case Score(_, _, rubric) =>
      var names := LevelNames(rubric);
      DistinctByCounting(names);
      assert (forall i, j :: 0 <= i < j < |names| ==> names[i] != names[j])
        <==> (forall i, j :: 0 <= i < j < |rubric| ==> rubric[i].name != rubric[j].name) by {
        forall i | 0 <= i < |names| ensures names[i] == rubric[i].name {}
      }
    case Noul(_, _, _, _) =>
  }

  lemma RequestByCounting(questions: seq<Question>)
    ensures ValidRequest(questions) <==>
      && 0 < |questions| == |SetOf(QuestionIds(questions))|
      && forall q :: q in questions ==> ValidQuestion(q)
  {
    var ids := QuestionIds(questions);
    DistinctByCounting(ids);
    assert (forall i, j :: 0 <= i < j < |ids| ==> ids[i] != ids[j])
      <==> (forall i, j :: 0 <= i < j < |questions| ==> questions[i].id != questions[j].id) by {
      forall i | 0 <= i < |ids| ensures ids[i] == questions[i].id {}
    }
  }

  method ValidateQuestion(q: Question) returns (ok: bool)
    ensures ok <==> ValidQuestion(q)
  {
    if q.id == "" || q.instructions == "" {
      return false;
    }
    match q {
      case Noul(_, _, _, _) => return true;
      case Choice(_, _, criteria) =>
        if |criteria| < 2 {
          return false;
        }
        var seen: set<string> := {};
        for i := 0 to |criteria|
          invariant seen == set k | 0 <= k < i :: criteria[k].id
          invariant forall k :: 0 <= k < i ==> criteria[k].id != "" && criteria[k].description != ""
          invariant forall k, l :: 0 <= k < l < i ==> criteria[k].id != criteria[l].id
        {
          if criteria[i].id == "" || criteria[i].description == "" || criteria[i].id in seen {
            return false;
          }
          seen := seen + {criteria[i].id};
        }
        return true;
      case Score(_, _, rubric) =>
        if |rubric| < 2 {
          return false;
        }
        var seen: set<string> := {};
        for i := 0 to |rubric|
          invariant seen == set k | 0 <= k < i :: rubric[k].name
          invariant forall k :: 0 <= k < i ==> rubric[k].name != "" && rubric[k].description != ""
          invariant forall k, l :: 0 <= k < l < i ==> rubric[k].name != rubric[l].name
        {
          if rubric[i].name == "" || rubric[i].description == "" || rubric[i].name in seen {
            return false;
          }
          seen := seen + {rubric[i].name};
        }
        return true;
    }
  }

  method ValidateQuestions(questions: seq<Question>) returns (ok: bool)
    ensures ok <==> ValidRequest(questions)
  {
    if |questions| == 0 {
      return false;
    }
    var seen: set<string> := {};
    for i := 0 to |questions|
      invariant seen == set k | 0 <= k < i :: questions[k].id
      invariant forall k :: 0 <= k < i ==> ValidQuestion(questions[k])
      invariant forall k, l :: 0 <= k < l < i ==> questions[k].id != questions[l].id
    {
      var valid := ValidateQuestion(questions[i]);
      if !valid || questions[i].id in seen {
        return false;
      }
      seen := seen + {questions[i].id};
    }
    ok := true;
  }
}
