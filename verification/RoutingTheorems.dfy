/** Routing from the configuration to the node that runs next, and routing of the answers the
    engine produces. */
module RoutingTheorems {
  import opened Questions
  import opened Preprocess
  import opened Numerics
  import opened Results
  import opened Postprocess
  import opened Wrappers
  import R = Routing

  /** What an accepted configuration's construction guarantees. */
  ghost predicate Built(c: R.Config, routing: R.Routing) {
    && R.Acceptable(c)
    && R.RoutesCriteria(c.branches, routing.routes)
    && routing.question == Choice(c.questionId, c.instructions, R.AllCriteria(c.branches))
    && R.Keyed(routing.question.criteria, routing.routes)
    && R.EdgesDeliver(c, routing.edges)
  }

  ghost predicate InBranch(c: R.Config, i: nat, id: string) {
    i < |c.branches| && exists k :: 0 <= k < |c.branches[i].criteria| && c.branches[i].criteria[k].id == id
  }

  lemma {:induction false} CriterionHasBranch(branches: seq<R.Branch>, k: nat) returns (i: nat, j: nat)
    requires k < |R.AllCriteria(branches)|
    ensures i < |branches| && j < |branches[i].criteria| && branches[i].criteria[j] == R.AllCriteria(branches)[k]
  {
    var last := |branches| - 1;
    var before := R.AllCriteria(branches[..last]);
    if k < |before| {
      i, j := CriterionHasBranch(branches[..last], k);
    } else {
      i, j := last, k - |before|;
    }
  }

  /** Edge `k`, and no other, carries the label `r` emits, and leads where `r` should go. */
  ghost predicate DeliveredBy(c: R.Config, routing: R.Routing, r: Answer, k: nat)
    requires r.ChoiceResult? && c.policy.Some?
  {
    && k < |routing.edges|
    && R.Carriers(routing.edges, R.RouteOf(r, routing.routes, c.policy.value)) == {k}
    && if R.StrictlyBest(r) && R.MeetsThresholds(r, c.policy.value)
       then exists i: nat :: InBranch(c, i, r.selected) && c.branches[i].target == Some(routing.edges[k].target)
       else c.fallback == Some(routing.edges[k].target)
  }

  /** Whatever valid answer the routing question gets, the label it emits lies on exactly one edge.
      That edge leads to the target of the branch that lists the selected criterion when the answer
      is the strict maximum and meets every threshold, and to the fallback otherwise. */
  lemma EveryAnswerIsDelivered(c: R.Config, routing: R.Routing, r: Answer)
    requires Built(c, routing) && ValidResult(r) && Matches(r, routing.question)
    ensures exists k: nat :: DeliveredBy(c, routing, r, k)
  {
    if R.StrictlyBest(r) && R.MeetsThresholds(r, c.policy.value) {
      var s :| 0 <= s < |r.probabilities| && r.probabilities[s].id == r.selected;
      var i, j := CriterionHasBranch(c.branches, s);
      assert c.branches[i].criteria[j].id == r.selected;
      assert R.RoutesTo(c.branches[i].criteria, routing.routes, R.Label(i));
      assert InBranch(c, i, r.selected);
      var k :| 0 <= k < |routing.edges| && R.Carriers(routing.edges, R.Label(i)) == {k}
        && Some(routing.edges[k].target) == c.branches[i].target;
      assert R.RouteOf(r, routing.routes, c.policy.value) == R.Label(i);
      assert DeliveredBy(c, routing, r, k);
    } else {
      var k :| 0 <= k < |routing.edges| && R.Carriers(routing.edges, R.FALLBACK) == {k}
        && Some(routing.edges[k].target) == c.fallback;
      assert DeliveredBy(c, routing, r, k);
    }
  }

  /** Another option rounds to the same probability as the one with the first largest logit. */
  ghost predicate RoundedTie(p: seq<real>, best: nat)
    requires best < |p|
  {
    exists j :: 0 <= j < |p| && j != best && RoundFour(p[j]) == RoundFour(p[best])
  }

  /** For an answer the engine produced, being the strict maximum after rounding means exactly
      that no other option rounds to the same value: rounding never reverses an order. */
  lemma EngineAnswerIsBestUnlessRoundedTie(m: Math, q: Prepared, logits: seq<real>, action: seq<real>, t: real,
                                           r: Answer, best: nat)
    requires Lawful(m) && t > 0.0 && action != [] && |q.options| >= 2 && |logits| == |q.options|
    requires q.kind == ChoiceKind && IsResultOf(m, q, logits, action, t, r) && ValidResult(r)
    requires IsFirstMaximum(logits, best)
    ensures |Softmax(m.exp, logits, t)| == |logits| && best < |q.optionIds| && r.selected == q.optionIds[best]
    ensures R.StrictlyBest(r) <==> !RoundedTie(Softmax(m.exp, logits, t), best)
  {
    var p := Softmax(m.exp, logits, t);
    var k: nat :| IsFirstMaximum(logits, k) && r.selected == q.optionIds[k];
    FirstMaximumUnique(logits, k, best);
    FirstMaximumOfLogits(m.exp, logits, t, best);
    forall j | 0 <= j < |p|
      ensures r.probabilities[j].probability == RoundFour(p[j]) <= RoundFour(p[best])
    {
      assert r.probabilities[j] == CriterionProbability(q.optionIds[j], RoundFour(p[j]));
      RoundMonotone(p[j], p[best]);
    }
    assert r.probabilities[best].id == r.selected;
    if R.StrictlyBest(r) {
      var s :| 0 <= s < |r.probabilities| && r.probabilities[s].id == r.selected && R.Dominates(r.probabilities, s);
      assert s == best;
    }
    if !RoundedTie(p, best) {
      assert R.Dominates(r.probabilities, best);
    }
  }

  /** So an engine answer to an accepted routing question takes the fallback if and only if another
      option ties with it after rounding or a threshold fails. */
  lemma EngineFallbackExactly(m: Math, c: R.Config, routing: R.Routing, logits: seq<real>, action: seq<real>,
                              t: real, r: Answer, best: nat)
    requires Lawful(m) && t > 0.0 && action != [] && Built(c, routing)
    requires |Normalize(routing.question).options| == |logits|
    requires IsFirstMaximum(logits, best)
    requires |Normalize(routing.question).options| >= 2
    requires IsResultOf(m, Normalize(routing.question), logits, action, t, r)
    ensures |Softmax(m.exp, logits, t)| == |logits|
    ensures R.RouteOf(r, routing.routes, c.policy.value) == R.FALLBACK
      <==> RoundedTie(Softmax(m.exp, logits, t), best) || !R.MeetsThresholds(r, c.policy.value)
  {
    var q := Normalize(routing.question);
    RowIsValid(m, routing.question, logits, action, t, r);
    EngineAnswerIsBestUnlessRoundedTie(m, q, logits, action, t, r, best);
    var criteria := routing.question.criteria;
    assert r.selected == criteria[best].id;
    assert r.selected in routing.routes.Keys;
    var i, j := CriterionHasBranch(c.branches, best);
    assert R.RoutesTo(c.branches[i].criteria, routing.routes, R.Label(i));
    assert routing.routes[r.selected] == R.Label(i);
    R.LabelsDiffer(i, i);
  }
}
