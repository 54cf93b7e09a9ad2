/** Choice routing: a table from criteria to route labels, the edges that carry those labels to
    their targets, and the acceptance test that decides which label an answer emits. */
module Routing {
  import opened Wrappers
  import opened Questions
  import opened Text
  import opened Results

  /** A workflow node, compared by identity. */
  datatype Node = Node(identity: nat, name: string)

  datatype Policy = Policy(minSelected: real, minConfidence: real, maxAction: real)

  datatype Branch = Branch(criteria: seq<Criterion>, target: Option<Node>)

  /** `validOptions` says whether the node options are valid, `hasProjector` whether there is a
      function from inputs to states. */
  datatype Config = Config(
    validOptions: bool,
    hasProjector: bool,
    questionId: string,
    instructions: string,
    branches: seq<Branch>,
    fallback: Option<Node>,
    policy: Option<Policy>)

  datatype Edge = Edge(target: Node, routes: seq<string>)

  datatype Routing = Routing(edges: seq<Edge>, routes: map<string, string>, question: Question)

  datatype ConfigError = BadOptions | NoProjector | BadPolicy | NoFallback | NoBranches | NoTarget | NoCriteria | BadName | RepeatedName
                       | RepeatedCriterion | FallbackIsBranch | BadQuestion

  const FALLBACK := "laya.fallback"

  function Label(branch: nat): string {
    "laya.branch." + Decimal(branch)
  }

  lemma LabelsDiffer(i: nat, j: nat)
    ensures Label(i) == Label(j) ==> i == j
    ensures Label(i) != FALLBACK
  {
    assert Label(i)[5] == 'b' && FALLBACK[5] == 'f';
    if Label(i) == Label(j) {
      assert Decimal(i) == Label(i)[12..] == Label(j)[12..] == Decimal(j);
      DecimalInjective(i, j);
    }
  }

  // ---- configurations ----

  predicate IsSpace(c: char) {
    c in {' ', '\t', '\n', '\U{b}', '\U{c}', '\r', '\U{85}', '\U{a0}', '\U{1680}', '\U{2028}', '\U{2029}', '\U{202f}',
          '\U{205f}', '\U{3000}'}
    || '\U{2000}' <= c <= '\U{200a}'
  }

  predicate Usable(name: string) {
    name != "user" && exists i :: 0 <= i < |name| && !IsSpace(name[i])
  }

  predicate ValidPolicy(p: Policy) {
    IsProbability(p.minSelected) && IsProbability(p.minConfidence) && IsProbability(p.maxAction)
  }

  function AllCriteria(branches: seq<Branch>): seq<Criterion> {
    if branches == [] then []
    else AllCriteria(branches[..|branches| - 1]) + branches[|branches| - 1].criteria
  }

  /** The nodes an accepted configuration can send to. */
  ghost predicate IsTarget(c: Config, n: Node) {
    c.fallback == Some(n) || exists i :: 0 <= i < |c.branches| && c.branches[i].target == Some(n)
  }

  /** What a configuration must satisfy to be accepted. */
  ghost predicate Acceptable(c: Config) {
    && c.validOptions && c.hasProjector
    && c.policy.Some? && ValidPolicy(c.policy.value)
    && c.fallback.Some?
    && c.branches != []
    && (forall i :: 0 <= i < |c.branches| ==> c.branches[i].target.Some? && c.branches[i].criteria != [])
    && (forall i :: 0 <= i < |c.branches| ==> c.branches[i].target != c.fallback)
    && (forall n :: IsTarget(c, n) ==> Usable(n.name))
    && (forall n, k :: IsTarget(c, n) && IsTarget(c, k) && n.name == k.name ==> n == k)
    && ValidQuestion(Choice(c.questionId, c.instructions, AllCriteria(c.branches)))
  }

  // ---- what the constructor guarantees ----

  /** Every criterion of every branch is routed to that branch's label. */
  ghost predicate RoutesCriteria(branches: seq<Branch>, routes: map<string, string>) {
    forall i :: 0 <= i < |branches| ==> RoutesTo(branches[i].criteria, routes, Label(i))
  }

  ghost predicate RoutesTo(criteria: seq<Criterion>, routes: map<string, string>, route: string) {
    forall k :: 0 <= k < |criteria| ==> criteria[k].id in routes && routes[criteria[k].id] == route
  }

  /** The routed criteria are exactly these, each once. */
  ghost predicate Keyed(criteria: seq<Criterion>, routes: map<string, string>) {
    && routes.Keys == (set k | 0 <= k < |criteria| :: criteria[k].id)
    && DistinctIds(criteria)
  }

  ghost predicate DistinctIds(criteria: seq<Criterion>) {
    forall k, l :: 0 <= k < l < |criteria| ==> criteria[k].id != criteria[l].id
  }

  /** The labels of the branches that share a target, in order. */
  function LabelsOf(branches: seq<Branch>, n: Node): seq<string> {
    if branches == [] then []
    else
      var last := |branches| - 1;
      LabelsOf(branches[..last], n) + (if branches[last].target == Some(n) then [Label(last)] else [])
  }

  lemma {:induction false} LabelsOfMembers(branches: seq<Branch>, n: Node, i: nat)
    ensures Label(i) in LabelsOf(branches, n) <==> i < |branches| && branches[i].target == Some(n)
    ensures FALLBACK !in LabelsOf(branches, n)
  {
    if branches != [] {
      var last := |branches| - 1;
      LabelsOfMembers(branches[..last], n, i);
      LabelsDiffer(i, last);
      LabelsDiffer(last, last);
    }
  }

  ghost predicate DistinctNodes(nodes: seq<Node>) {
    forall i, j :: 0 <= i < j < |nodes| ==> nodes[i] != nodes[j]
  }

  /** The state of the construction after the first branches. */
  datatype Table = Table(
    criteria: seq<Criterion>,
    routes: map<string, string>,
    targetRoutes: map<Node, seq<string>>,
    names: map<string, Node>,
    order: seq<Node>)

  ghost predicate TargetOf(branches: seq<Branch>, n: Node) {
    exists i :: 0 <= i < |branches| && branches[i].target == Some(n)
  }

  /** Some branch leads to `m` before any leads to `n`. */
  ghost predicate UsedBefore(branches: seq<Branch>, m: Node, n: Node) {
    exists i :: 0 <= i < |branches| && branches[i].target == Some(m) && UnusedUpTo(branches, i, n)
  }

  ghost predicate UnusedUpTo(branches: seq<Branch>, i: int, n: Node)
    requires 0 <= i < |branches|
  {
    forall j :: 0 <= j <= i ==> branches[j].target != Some(n)
  }

  ghost predicate InOrderOfUse(branches: seq<Branch>, order: seq<Node>) {
    forall a, b :: 0 <= a < b < |order| ==> UsedBefore(branches, order[a], order[b])
  }

  lemma UsedBeforeGrows(branches: seq<Branch>, i: nat, m: Node, n: Node)
    requires i < |branches| && UsedBefore(branches[..i], m, n)
    ensures UsedBefore(branches[..i + 1], m, n)
  {
    var k :| 0 <= k < i && branches[..i][k].target == Some(m) && UnusedUpTo(branches[..i], k, n);
    UnusedGrows(branches, i, k, n);
    assert branches[..i + 1][k] == branches[..i][k];
  }

  lemma UnusedGrows(branches: seq<Branch>, i: nat, k: nat, n: Node)
    requires k < i < |branches| && UnusedUpTo(branches[..i], k, n)
    ensures UnusedUpTo(branches[..i + 1], k, n)
  {
    var before, after := branches[..i], branches[..i + 1];
    forall j | 0 <= j <= k ensures after[j].target != Some(n) { assert after[j] == before[j]; }
  }

  lemma NewTargetIsLast(branches: seq<Branch>, i: nat, order: seq<Node>, target: Node)
    requires i < |branches| && InOrderOfUse(branches[..i], order)
    requires forall n :: n in order <==> TargetOf(branches[..i], n)
    requires branches[i].target == Some(target)
    ensures InOrderOfUse(branches[..i + 1], if target in order then order else order + [target])
  {
    var now := if target in order then order else order + [target];
    forall a, b | 0 <= a < b < |now| ensures UsedBefore(branches[..i + 1], now[a], now[b]) {
      if b < |order| {
        UsedBeforeGrows(branches, i, order[a], order[b]);
      } else {
        assert order[a] in order && TargetOf(branches[..i], order[a]) && !TargetOf(branches[..i], target);
        var k :| 0 <= k < i && branches[..i][k].target == Some(order[a]);
        assert branches[..i + 1][k] == branches[..i][k];
        assert UnusedUpTo(branches[..i], k, target);
        UnusedGrows(branches, i, k, target);
      }
    }
  }

  ghost predicate TargetsRecorded(branches: seq<Branch>, order: seq<Node>, targetRoutes: map<Node, seq<string>>) {
    && DistinctNodes(order)
    && (forall n :: n in order <==> n in targetRoutes)
    && (forall n :: n in targetRoutes <==> TargetOf(branches, n))
    && (forall n :: n in targetRoutes ==> targetRoutes[n] == LabelsOf(branches, n))
  }

  ghost predicate NamesRecorded(branches: seq<Branch>, names: map<string, Node>) {
    && (forall n :: TargetOf(branches, n) ==> Usable(n.name) && n.name in names && names[n.name] == n)
    && (forall name :: name in names ==> names[name].name == name && TargetOf(branches, names[name]))
  }

  ghost predicate CriteriaRecorded(branches: seq<Branch>, criteria: seq<Criterion>, routes: map<string, string>) {
    criteria == AllCriteria(branches) && Keyed(criteria, routes) && RoutesCriteria(branches, routes)
  }

  ghost predicate Recorded(branches: seq<Branch>, t: Table) {
    && TargetsRecorded(branches, t.order, t.targetRoutes)
    && InOrderOfUse(branches, t.order)
    && NamesRecorded(branches, t.names)
    && CriteriaRecorded(branches, t.criteria, t.routes)
  }

  method ValidateTarget(target: Node, names: map<string, Node>) returns (r: Result<map<string, Node>, ConfigError>)
    ensures r.Ok? <==> Usable(target.name) && (target.name in names ==> names[target.name] == target)
    ensures r.Ok? ==> r.value == names[target.name := target]
  {
    if !exists i :: 0 <= i < |target.name| && !IsSpace(target.name[i]) {
      return Err(BadName);
    }
    if target.name == "user" {
      return Err(BadName);
    }
    if target.name in names && names[target.name] != target {
      return Err(RepeatedName);
    }
    r := Ok(names[target.name := target]);
  }

  lemma KeyedSnoc(criteria: seq<Criterion>, routes: map<string, string>, x: Criterion, route: string)
    requires Keyed(criteria, routes) && x.id !in routes
    ensures Keyed(criteria + [x], routes[x.id := route])
  {
    var all := criteria + [x];
    forall k | 0 <= k < |criteria| ensures criteria[k].id != x.id { assert criteria[k].id in routes.Keys; }
    assert (set k | 0 <= k < |all| :: all[k].id) == (set k | 0 <= k < |criteria| :: criteria[k].id) + {x.id} by {
      assert all[|criteria|].id == x.id;
      forall k | 0 <= k < |criteria| ensures all[k].id == criteria[k].id {}
    }
  }

  lemma KeyClash(all: seq<Criterion>, k: nat, routes: map<string, string>)
    requires k < |all| && Keyed(all[..k], routes) && all[k].id in routes
    ensures !DistinctIds(all)
  {
    assert all[k].id in routes.Keys;
    var j :| 0 <= j < k && all[..k][j].id == all[k].id;
    assert all[j].id == all[k].id;
  }

  lemma RoutesToSnoc(added: seq<Criterion>, k: nat, routes: map<string, string>, route: string)
    requires k < |added| && RoutesTo(added[..k], routes, route)
    ensures RoutesTo(added[..k + 1], routes[added[k].id := route], route)
  {
    assert forall j :: 0 <= j < k ==> added[..k + 1][j] == added[..k][j];
  }

  /** The table after the first `k` criteria of a branch. */
  ghost predicate Added(criteria: seq<Criterion>, routes: map<string, string>, added: seq<Criterion>, route: string,
                        k: nat, now: map<string, string>)
  {
    && k <= |added| && Keyed(criteria + added[..k], now) && RoutesTo(added[..k], now, route)
    && forall id :: id in routes ==> id in now && now[id] == routes[id]
  }

  lemma CriterionAdded(criteria: seq<Criterion>, routes: map<string, string>, added: seq<Criterion>, route: string,
                       k: nat, now: map<string, string>)
    requires Added(criteria, routes, added, route, k, now) && k < |added| && added[k].id !in now
    ensures Added(criteria, routes, added, route, k + 1, now[added[k].id := route])
  {
    KeyedSnoc(criteria + added[..k], now, added[k], route);
    assert criteria + added[..k + 1] == criteria + added[..k] + [added[k]];
    RoutesToSnoc(added, k, now, route);
  }

  lemma CriterionClashes(criteria: seq<Criterion>, routes: map<string, string>, added: seq<Criterion>, route: string,
                         k: nat, now: map<string, string>)
    requires Added(criteria, routes, added, route, k, now) && k < |added| && added[k].id in now
    ensures !DistinctIds(criteria + added)
  {
    var all, n := criteria + added, |criteria|;
    assert all[..n + k] == criteria + added[..k] && all[n + k] == added[k];
    KeyClash(all, n + k, now);
  }

  /** Records a branch's criteria under its label; refuses one that is already routed. */
  method AddCriteria(criteria: seq<Criterion>, routes: map<string, string>, added: seq<Criterion>, route: string)
      returns (r: Result<map<string, string>, ConfigError>)
    requires Keyed(criteria, routes)
    ensures r.Ok? ==>
      && Keyed(criteria + added, r.value)
      && (forall id :: id in routes ==> id in r.value && r.value[id] == routes[id])
      && RoutesTo(added, r.value, route)
    ensures r.Err? ==> !DistinctIds(criteria + added)
  {
    var now := routes;
    assert criteria + added[..0] == criteria;
    for k := 0 to |added|
      invariant Added(criteria, routes, added, route, k, now)
    {
      if added[k].id in now {
        CriterionClashes(criteria, routes, added, route, k, now);
        return Err(RepeatedCriterion);
      }
      CriterionAdded(criteria, routes, added, route, k, now);
      now := now[added[k].id := route];
    }
    assert added[..|added|] == added;
    r := Ok(now);
  }

  lemma CriteriaStep(branches: seq<Branch>, i: nat, criteria: seq<Criterion>, routes: map<string, string>,
                     now: map<string, string>)
    requires i < |branches| && CriteriaRecorded(branches[..i], criteria, routes)
    requires Keyed(criteria + branches[i].criteria, now)
    requires forall id :: id in routes ==> id in now && now[id] == routes[id]
    requires RoutesTo(branches[i].criteria, now, Label(i))
    ensures CriteriaRecorded(branches[..i + 1], criteria + branches[i].criteria, now)
  {
    assert branches[..i + 1][..i] == branches[..i];
    forall b | 0 <= b < i ensures RoutesTo(branches[..i + 1][b].criteria, now, Label(b)) {
      assert RoutesTo(branches[..i][b].criteria, routes, Label(b));
    }
  }

  lemma TargetOfSnoc(branches: seq<Branch>, i: nat, n: Node)
    requires i < |branches|
    ensures TargetOf(branches[..i + 1], n) <==> TargetOf(branches[..i], n) || branches[i].target == Some(n)
  {
    if TargetOf(branches[..i], n) {
      var k :| 0 <= k < i && branches[..i][k].target == Some(n);
      assert branches[..i + 1][k].target == Some(n);
    }
    if branches[i].target == Some(n) { assert branches[..i + 1][i].target == Some(n); }
  }

  /** Records the target of branch `i`. */
  method AddTarget(branches: seq<Branch>, i: nat, target: Node, order: seq<Node>, targetRoutes: map<Node, seq<string>>)
      returns (newOrder: seq<Node>, newRoutes: map<Node, seq<string>>)
    requires i < |branches| && branches[i].target == Some(target) && TargetsRecorded(branches[..i], order, targetRoutes)
    requires InOrderOfUse(branches[..i], order)
    ensures TargetsRecorded(branches[..i + 1], newOrder, newRoutes)
    ensures InOrderOfUse(branches[..i + 1], newOrder)
  {
    TargetStep(branches, i, target, order, targetRoutes);
    NewTargetIsLast(branches, i, order, target);
    newOrder := order;
    if target !in targetRoutes {
      newOrder := newOrder + [target];
    }
    var before := if target in targetRoutes then targetRoutes[target] else [];
    newRoutes := targetRoutes[target := before + [Label(i)]];
  }

  lemma TargetStep(branches: seq<Branch>, i: nat, target: Node, order: seq<Node>, targetRoutes: map<Node, seq<string>>)
    requires i < |branches| && branches[i].target == Some(target) && TargetsRecorded(branches[..i], order, targetRoutes)
    ensures TargetsRecorded(branches[..i + 1], if target in targetRoutes then order else order + [target],
                            targetRoutes[target := (if target in targetRoutes then targetRoutes[target] else []) + [Label(i)]])
  {
    var newRoutes := targetRoutes[target := (if target in targetRoutes then targetRoutes[target] else []) + [Label(i)]];
    var newOrder := if target in targetRoutes then order else order + [target];
    TargetKeysStep(branches, i, target, newRoutes.Keys, targetRoutes.Keys);
    TargetLabelsStep(branches, i, target, targetRoutes, newRoutes);
    NodesSnoc(order, target);
    assert forall n :: n in newOrder <==> n in order || n == target;
  }

  lemma TargetKeysStep(branches: seq<Branch>, i: nat, target: Node, after: set<Node>, before: set<Node>)
    requires i < |branches| && branches[i].target == Some(target) && after == before + {target}
    requires forall n :: n in before <==> TargetOf(branches[..i], n)
    ensures forall n :: n in after <==> TargetOf(branches[..i + 1], n)
  {
    forall n ensures n in after <==> TargetOf(branches[..i + 1], n) { TargetOfSnoc(branches, i, n); }
  }

  lemma TargetLabelsStep(branches: seq<Branch>, i: nat, target: Node, before: map<Node, seq<string>>,
                         after: map<Node, seq<string>>)
    requires i < |branches| && branches[i].target == Some(target)
    requires forall n :: n in before <==> TargetOf(branches[..i], n)
    requires forall n :: n in before ==> before[n] == LabelsOf(branches[..i], n)
    requires after == before[target := (if target in before then before[target] else []) + [Label(i)]]
    ensures forall n :: n in after ==> after[n] == LabelsOf(branches[..i + 1], n)
  {
    if target !in before { NoLabels(branches[..i], target); }
    forall n | n in after ensures after[n] == LabelsOf(branches[..i + 1], n) { LabelsSnoc(branches, i, n); }
  }

  lemma LabelsSnoc(branches: seq<Branch>, i: nat, n: Node)
    requires i < |branches|
    ensures LabelsOf(branches[..i + 1], n) == LabelsOf(branches[..i], n) + if branches[i].target == Some(n) then [Label(i)] else []
  {
    assert branches[..i + 1][..i] == branches[..i];
  }

  lemma NodesSnoc(order: seq<Node>, n: Node)
    requires DistinctNodes(order)
    ensures n !in order ==> DistinctNodes(order + [n])
  {}

  lemma {:induction false} NoLabels(branches: seq<Branch>, n: Node)
    requires !TargetOf(branches, n)
    ensures LabelsOf(branches, n) == []
  {
    if branches != [] {
      var last := |branches| - 1;
      forall k | 0 <= k < last ensures branches[..last][k].target != Some(n) { assert branches[k].target != Some(n); }
      NoLabels(branches[..last], n);
    }
  }

  /** The first `n` branches have been read into the table. */
  ghost predicate ReadUpTo(c: Config, n: nat, t: Table) {
    && n <= |c.branches| && Recorded(c.branches[..n], t)
    && forall k :: 0 <= k < n ==> c.branches[k].target.Some? && c.branches[k].criteria != []
  }

  lemma NothingRead(c: Config)
    ensures ReadUpTo(c, 0, Table([], map[], map[], map[], []))
  {
    assert c.branches[..0] == [];
  }

  method ReadBranch(c: Config, i: nat, t: Table) returns (r: Result<Table, ConfigError>)
    requires i < |c.branches| && ReadUpTo(c, i, t)
    ensures r.Ok? ==> ReadUpTo(c, i + 1, r.value)
    ensures r.Err? ==> !Acceptable(c)
  {
    var branch := c.branches[i];
    if branch.target.None? {
      return Err(NoTarget);
    }
    if |branch.criteria| == 0 {
      return Err(NoCriteria);
    }
    var target := branch.target.value;
    var named := ValidateTarget(target, t.names);
    if named.Err? {
      NameClash(c, i, target, t.names);
      return Err(named.error);
    }
    NamesStep(c.branches, i, target, t.names);
    var order, targetRoutes := AddTarget(c.branches, i, target, t.order, t.targetRoutes);
    var routes := AddCriteria(t.criteria, t.routes, branch.criteria, Label(i));
    if routes.Err? {
      CriteriaClash(c, i);
      return Err(routes.error);
    }
    CriteriaStep(c.branches, i, t.criteria, t.routes, routes.value);
    r := Ok(Table(t.criteria + branch.criteria, routes.value, targetRoutes, named.value, order));
  }

  /** Reads the branches one by one; refuses a configuration as soon as one of them cannot be part
      of an acceptable one. */
  method ReadBranches(c: Config) returns (r: Result<Table, ConfigError>)
    ensures r.Ok? ==> Recorded(c.branches, r.value)
    ensures r.Ok? ==> forall i :: 0 <= i < |c.branches| ==> c.branches[i].target.Some? && c.branches[i].criteria != []
    ensures r.Err? ==> !Acceptable(c)
  {
    var t := Table([], map[], map[], map[], []);
    NothingRead(c);
    for i := 0 to |c.branches|
      invariant ReadUpTo(c, i, t)
    {
      var read := ReadBranch(c, i, t);
      if read.Err? {
        return Err(read.error);
      }
      t := read.value;
    }
    assert c.branches[..|c.branches|] == c.branches;
    r := Ok(t);
  }

  lemma NamesStep(branches: seq<Branch>, i: nat, target: Node, names: map<string, Node>)
    requires i < |branches| && branches[i].target == Some(target) && NamesRecorded(branches[..i], names)
    requires Usable(target.name) && (target.name in names ==> names[target.name] == target)
    ensures NamesRecorded(branches[..i + 1], names[target.name := target])
  {
    forall n ensures TargetOf(branches[..i + 1], n) <==> TargetOf(branches[..i], n) || n == target {
      TargetOfSnoc(branches, i, n);
    }
  }

  lemma NameClash(c: Config, i: nat, target: Node, names: map<string, Node>)
    requires i < |c.branches| && c.branches[i].target == Some(target) && NamesRecorded(c.branches[..i], names)
    requires !(Usable(target.name) && (target.name in names ==> names[target.name] == target))
    ensures !Acceptable(c)
  {
    assert IsTarget(c, target);
    if target.name in names && names[target.name] != target {
      var other := names[target.name];
      var k :| 0 <= k < i && c.branches[..i][k].target == Some(other);
      assert c.branches[k].target == Some(other);
      assert IsTarget(c, other);
    }
  }

  lemma CriteriaClash(c: Config, i: nat)
    requires i < |c.branches| && !DistinctIds(AllCriteria(c.branches[..i]) + c.branches[i].criteria)
    ensures !Acceptable(c)
  {
    CriteriaPrefix(c.branches, i + 1);
    assert c.branches[..i + 1][..i] == c.branches[..i];
    assert AllCriteria(c.branches[..i + 1]) == AllCriteria(c.branches[..i]) + c.branches[i].criteria;
  }

  lemma {:induction false} CriteriaPrefix(branches: seq<Branch>, i: nat)
    requires i <= |branches|
    ensures AllCriteria(branches[..i]) <= AllCriteria(branches)
    decreases |branches| - i
  {
    if i == |branches| {
      assert branches[..i] == branches;
    } else {
      CriteriaPrefix(branches, i + 1);
      assert branches[..i + 1][..i] == branches[..i];
      assert AllCriteria(branches[..i]) <= AllCriteria(branches[..i + 1]);
    }
  }

  /** The edges, one per target in order of first appearance, then the fallback's. */
  method BuildEdges(t: Table, fallback: Node) returns (edges: seq<Edge>)
    requires forall n :: n in t.order ==> n in t.targetRoutes
    ensures |edges| == |t.order| + 1
    ensures forall k :: 0 <= k < |t.order| ==>
      t.order[k] in t.targetRoutes && edges[k] == Edge(t.order[k], t.targetRoutes[t.order[k]])
    ensures edges[|t.order|] == Edge(fallback, [FALLBACK])
  {
    edges := [];
    for k := 0 to |t.order|
      invariant |edges| == k
      invariant forall j :: 0 <= j < k ==> edges[j] == Edge(t.order[j], t.targetRoutes[t.order[j]])
    {
      edges := edges + [Edge(t.order[k], t.targetRoutes[t.order[k]])];
    }
    edges := edges + [Edge(fallback, [FALLBACK])];
  }

  /** The edges that carry a label. */
  function Carriers(edges: seq<Edge>, route: string): set<int> {
    set k | 0 <= k < |edges| && route in edges[k].routes
  }

  /** Each branch's label, and the fallback's, lies on exactly one edge, and that edge leads to the
      configured node; no two edges lead to the same node. */
  ghost predicate EdgesDeliver(c: Config, edges: seq<Edge>) {
    && (forall i :: 0 <= i < |c.branches| ==>
         exists k :: 0 <= k < |edges| && Carriers(edges, Label(i)) == {k} && Some(edges[k].target) == c.branches[i].target)
    && (exists k :: 0 <= k < |edges| && Carriers(edges, FALLBACK) == {k} && Some(edges[k].target) == c.fallback)
    && (forall k, l :: 0 <= k < l < |edges| ==> edges[k].target != edges[l].target)
  }

  lemma EdgesCarryLabels(c: Config, t: Table, edges: seq<Edge>)
    requires TargetsRecorded(c.branches, t.order, t.targetRoutes) && c.fallback.Some?
    requires forall i :: 0 <= i < |c.branches| ==> c.branches[i].target.Some?
    requires !TargetOf(c.branches, c.fallback.value)
    requires |edges| == |t.order| + 1
    requires forall k :: 0 <= k < |t.order| ==>
      t.order[k] in t.targetRoutes && edges[k] == Edge(t.order[k], t.targetRoutes[t.order[k]])
    requires edges[|t.order|] == Edge(c.fallback.value, [FALLBACK])
    ensures EdgesDeliver(c, edges)
  {
    var n := |t.order|;
    forall i | 0 <= i < |c.branches|
      ensures exists k :: 0 <= k < |edges| && Carriers(edges, Label(i)) == {k} && Some(edges[k].target) == c.branches[i].target
    {
      var target := c.branches[i].target.value;
      assert TargetOf(c.branches, target);
      var k :| 0 <= k < n && t.order[k] == target;
      LabelsDiffer(i, i);
      forall l | 0 <= l < |edges| ensures Label(i) in edges[l].routes <==> l == k {
        if l < n { LabelsOfMembers(c.branches, t.order[l], i); }
      }
      assert Carriers(edges, Label(i)) == {k};
    }
    forall l | 0 <= l < |edges| ensures FALLBACK in edges[l].routes <==> l == n {
      if l < n { LabelsOfMembers(c.branches, t.order[l], 0); }
    }
    assert Carriers(edges, FALLBACK) == {n} && Some(edges[n].target) == c.fallback;
    forall k | 0 <= k < n ensures edges[k].target != c.fallback.value { assert t.order[k] in t.targetRoutes; }
  }

  /** The edges come in the order in which their targets are first used, the fallback's last, and each
      carries the labels of its branches. */
  ghost predicate EdgesInOrder(c: Config, edges: seq<Edge>) {
    && edges != [] && c.fallback == Some(edges[|edges| - 1].target) && edges[|edges| - 1].routes == ["laya.fallback"]
    && (forall a, b :: 0 <= a < b < |edges| - 1 ==> UsedBefore(c.branches, edges[a].target, edges[b].target))
    && forall k :: 0 <= k < |edges| - 1 ==> edges[k].routes == LabelsOf(c.branches, edges[k].target)
  }

  lemma EdgesKeepOrder(c: Config, t: Table, edges: seq<Edge>)
    requires TargetsRecorded(c.branches, t.order, t.targetRoutes) && InOrderOfUse(c.branches, t.order) && c.fallback.Some?
    requires |edges| == |t.order| + 1
    requires forall k :: 0 <= k < |t.order| ==>
      t.order[k] in t.targetRoutes && edges[k] == Edge(t.order[k], t.targetRoutes[t.order[k]])
    requires edges[|t.order|] == Edge(c.fallback.value, [FALLBACK])
    ensures EdgesInOrder(c, edges)
  {}

  /** A target's labels are those of the branches that lead to it, in the order of the branches, each
      the fixed prefix and the branch's number. */
  lemma {:induction false} LabelsOfAscend(branches: seq<Branch>, n: Node) returns (indices: seq<nat>)
    ensures |indices| == |LabelsOf(branches, n)|
    ensures forall a, b :: 0 <= a < b < |indices| ==> indices[a] < indices[b]
    ensures forall a :: 0 <= a < |indices| ==> indices[a] < |branches| && branches[indices[a]].target == Some(n)
    ensures forall i: nat :: i < |branches| && branches[i].target == Some(n) ==> i in indices
    ensures forall a, numeral :: 0 <= a < |indices| && IsNumeral(numeral, indices[a]) ==>
      LabelsOf(branches, n)[a] == "laya.branch." + numeral
  {
    if branches == [] {
      indices := [];
    } else {
      var last := |branches| - 1;
      var before := LabelsOfAscend(branches[..last], n);
      indices := before + if branches[last].target == Some(n) then [last] else [];
      forall numeral | IsNumeral(numeral, last) ensures Label(last) == "laya.branch." + numeral { LabelIs(last, numeral); }
      forall i: nat | i < |branches| && branches[i].target == Some(n) ensures i in indices {
        if i < last { assert branches[..last][i] == branches[i] && i in before; }
      }
    }
  }

  lemma LabelIs(i: nat, numeral: string)
    requires IsNumeral(numeral, i)
    ensures Label(i) == "laya.branch." + numeral
  {
    DecimalIs(numeral, i);
  }

  /** How many criteria the branches before `i` have. */
  function CountBefore(branches: seq<Branch>, i: nat): nat
    requires i <= |branches|
  {
    if i == 0 then 0 else CountBefore(branches, i - 1) + |branches[i - 1].criteria|
  }

  /** The question asks about the criteria branch by branch, in order. */
  lemma {:induction false} CriteriaInOrder(branches: seq<Branch>, i: nat, k: nat)
    requires i < |branches| && k < |branches[i].criteria|
    ensures |AllCriteria(branches)| == CountBefore(branches, |branches|)
    ensures CountBefore(branches, i) + k < |AllCriteria(branches)|
    ensures AllCriteria(branches)[CountBefore(branches, i) + k] == branches[i].criteria[k]
    decreases |branches|
  {
    var last := |branches| - 1;
    CriteriaCounted(branches, last);
    CriteriaCounted(branches, i);
    if i < last {
      CriteriaInOrder(branches[..last], i, k);
      SameCount(branches, last, i);
    }
  }

  lemma {:induction false} SameCount(branches: seq<Branch>, n: nat, i: nat)
    requires i <= n <= |branches|
    ensures CountBefore(branches[..n], i) == CountBefore(branches, i)
  {
    if i > 0 { SameCount(branches, n, i - 1); }
  }

  lemma {:induction false} CriteriaCounted(branches: seq<Branch>, i: nat)
    requires i <= |branches|
    ensures |AllCriteria(branches[..i])| == CountBefore(branches, i)
  {
    if i > 0 {
      CriteriaCounted(branches, i - 1);
      assert branches[..i][..i - 1] == branches[..i - 1];
    }
  }

  /** What is accepted, over the fields of the configuration. */
  lemma AcceptableOverFields(c: Config)
    ensures Acceptable(c) <==>
      && c.validOptions && c.hasProjector && c.branches != []
      && c.policy.Some? && 0.0 <= c.policy.value.minSelected <= 1.0
      && 0.0 <= c.policy.value.minConfidence <= 1.0 && 0.0 <= c.policy.value.maxAction <= 1.0
      && c.fallback.Some? && NameIsUsable(c.fallback.value.name)
      && (forall b :: b in c.branches ==> b.criteria != [] && b.target.Some? && NameIsUsable(b.target.value.name))
      && (forall b :: b in c.branches ==> b.target.value.name != c.fallback.value.name)
      && (forall a, b :: a in c.branches && b in c.branches && a.target.value.name == b.target.value.name ==> a.target == b.target)
      && ValidQuestion(Choice(c.questionId, c.instructions, AllCriteria(c.branches)))
  {
    if Acceptable(c) {
      assert IsTarget(c, c.fallback.value);
      forall b | b in c.branches ensures b.target.Some? && IsTarget(c, b.target.value) && b.target != c.fallback {
        var i :| 0 <= i < |c.branches| && c.branches[i] == b;
      }
    }
    forall n | IsTarget(c, n) && c.fallback != Some(n) ensures exists b :: b in c.branches && b.target == Some(n) {
      var i :| 0 <= i < |c.branches| && c.branches[i].target == Some(n);
      assert c.branches[i] in c.branches;
    }
    forall name ensures Usable(name) <==> NameIsUsable(name) { UsableMeans(name); }
  }

  lemma UsableMeans(name: string)
    ensures Usable(name) <==> NameIsUsable(name)
  {
    forall c: char ensures IsSpace(c) <==> IsWhite(c as int) {}
  }

  /** Not the reserved name, and not blank: some character is none of the white space characters. */
  ghost predicate NameIsUsable(name: string) {
    name != "user" && exists i :: 0 <= i < |name| && !IsWhite(name[i] as int)
  }

  ghost predicate IsWhite(code: int) {
    9 <= code <= 13 || code in {0x20, 0x85, 0xa0, 0x1680, 0x2028, 0x2029, 0x202f, 0x205f, 0x3000} || 0x2000 <= code <= 0x200a
  }

  /** A configuration is accepted exactly when it is acceptable, and then its criteria are routed to
      their branches, its question asks about exactly its criteria, and its edges deliver. */
  method NewChoiceRouting(c: Config) returns (r: Result<Routing, ConfigError>)
    ensures r.Ok? <==> Acceptable(c)
    ensures r.Ok? ==>
      && RoutesCriteria(c.branches, r.value.routes)
      && r.value.question == Choice(c.questionId, c.instructions, AllCriteria(c.branches))
      && Keyed(r.value.question.criteria, r.value.routes)
      && EdgesDeliver(c, r.value.edges)
      && EdgesInOrder(c, r.value.edges)
  {
    if !c.validOptions {
      return Err(BadOptions);
    }
    if !c.hasProjector {
      return Err(NoProjector);
    }
    if c.policy.None? || !ValidPolicy(c.policy.value) {
      return Err(BadPolicy);
    }
    if c.fallback.None? {
      return Err(NoFallback);
    }
    if |c.branches| == 0 {
      return Err(NoBranches);
    }
    var read := ReadBranches(c);
    if read.Err? {
      return Err(read.error);
    }
    var t, fallback := read.value, c.fallback.value;
    if fallback in t.targetRoutes {
      return Err(FallbackIsBranch);
    }
    var named := ValidateTarget(fallback, t.names);
    assert IsTarget(c, fallback);
    if named.Err? {
      assert fallback.name in t.names ==> IsTarget(c, t.names[fallback.name]);
      return Err(named.error);
    }
    var question := Choice(c.questionId, c.instructions, t.criteria);
    var valid := ValidateQuestion(question);
    if !valid {
      return Err(BadQuestion);
    }
    var edges := BuildEdges(t, fallback);
    EdgesCarryLabels(c, t, edges);
    EdgesKeepOrder(c, t, edges);
    AcceptableAfterAll(c, t);
    r := Ok(Routing(edges, t.routes, question));
  }

  lemma AcceptableAfterAll(c: Config, t: Table)
    requires c.validOptions && c.hasProjector
    requires c.policy.Some? && ValidPolicy(c.policy.value) && c.fallback.Some? && c.branches != []
    requires forall i :: 0 <= i < |c.branches| ==> c.branches[i].target.Some? && c.branches[i].criteria != []
    requires NamesRecorded(c.branches, t.names) && !TargetOf(c.branches, c.fallback.value)
    requires var f := c.fallback.value; Usable(f.name) && (f.name in t.names ==> t.names[f.name] == f)
    requires ValidQuestion(Choice(c.questionId, c.instructions, AllCriteria(c.branches)))
    ensures Acceptable(c)
  {
    var f := c.fallback.value;
    forall n | IsTarget(c, n) ensures n == f || (TargetOf(c.branches, n) && n.name in t.names && t.names[n.name] == n) {}
  }

  // ---- acceptance ----

  /** The selected criterion's probability is strictly above every other one's. */
  ghost predicate StrictlyBest(r: Answer)
    requires r.ChoiceResult?
  {
    exists k :: 0 <= k < |r.probabilities| && r.probabilities[k].id == r.selected && Dominates(r.probabilities, k)
  }

  ghost predicate Dominates(probabilities: seq<CriterionProbability>, k: int)
    requires 0 <= k < |probabilities|
  {
    forall j :: 0 <= j < |probabilities| && j != k ==> probabilities[j].probability < probabilities[k].probability
  }

  ghost predicate MeetsThresholds(r: Answer, p: Policy)
    requires r.ChoiceResult?
  {
    && (forall k :: 0 <= k < |r.probabilities| && r.probabilities[k].id == r.selected ==>
         r.probabilities[k].probability >= p.minSelected)
    && r.confidence >= p.minConfidence && r.action <= p.maxAction
  }

  /** An answer leaves by its criterion's branch if that criterion is the strict maximum and every
      threshold holds; otherwise it takes the fallback. */
  ghost function RouteOf(r: Answer, routes: map<string, string>, policy: Policy): string
    requires r.ChoiceResult?
  {
    if StrictlyBest(r) && MeetsThresholds(r, policy) && r.selected in routes then routes[r.selected] else FALLBACK
  }

  /** The selected criterion, at `s`, strictly beats every other and reaches every threshold. */
  ghost predicate Wins(r: Answer, s: int, minSelected: real, minConfidence: real, maxAction: real)
    requires r.ChoiceResult? && 0 <= s < |r.probabilities|
  {
    && (forall j :: 0 <= j < |r.probabilities| && j != s ==> r.probabilities[j].probability < r.probabilities[s].probability)
    && minSelected <= r.probabilities[s].probability && minConfidence <= r.confidence && r.action <= maxAction
  }

  /** The route over the fields of the result and of the policy; the thresholds are inclusive. */
  lemma RouteOverFields(r: Answer, routes: map<string, string>, policy: Policy, s: int)
    requires r.ChoiceResult? && ValidResult(r) && 0 <= s < |r.probabilities| && r.probabilities[s].id == r.selected
    ensures Wins(r, s, policy.minSelected, policy.minConfidence, policy.maxAction) && r.selected in routes ==>
      RouteOf(r, routes, policy) == routes[r.selected]
    ensures !Wins(r, s, policy.minSelected, policy.minConfidence, policy.maxAction) || r.selected !in routes ==>
      RouteOf(r, routes, policy) == "laya.fallback"
  {
    forall k | 0 <= k < |r.probabilities| && r.probabilities[k].id == r.selected ensures k == s {}
    assert StrictlyBest(r) <==> Dominates(r.probabilities, s);
  }

  method AcceptedRoute(r: Answer, routes: map<string, string>, policy: Policy) returns (route: string)
    requires r.ChoiceResult? && ValidResult(r)
    ensures route == RouteOf(r, routes, policy)
  {
    var max, selectedProbability := -1.0, -1.0;
    var maxCount := 0;
    ghost var best := 0;
    for i := 0 to |r.probabilities|
      invariant forall k :: 0 <= k < i ==> r.probabilities[k].probability <= max
      invariant i == 0 ==> max == -1.0 && maxCount == 0
      invariant i > 0 ==> 0 <= best < i && r.probabilities[best].probability == max && maxCount >= 1
      invariant maxCount == 1 ==> forall k :: 0 <= k < i && k != best ==> r.probabilities[k].probability < max
      invariant maxCount > 1 ==> exists k :: 0 <= k < i && k != best && r.probabilities[k].probability == max
      invariant (forall k :: 0 <= k < i ==> r.probabilities[k].id != r.selected) ==> selectedProbability == -1.0
      invariant forall k :: 0 <= k < i && r.probabilities[k].id == r.selected ==> selectedProbability == r.probabilities[k].probability
    {
      var p := r.probabilities[i];
      if p.probability > max {
        max := p.probability;
        maxCount := 1;
        best := i;
      } else if p.probability == max {
        maxCount := maxCount + 1;
      }
      if p.id == r.selected {
        selectedProbability := p.probability;
      }
    }
    ghost var s :| 0 <= s < |r.probabilities| && r.probabilities[s].id == r.selected;
    assert StrictlyBest(r) <==> maxCount == 1 && selectedProbability == max by {
      if maxCount == 1 && selectedProbability == max {
        assert s == best;
        assert Dominates(r.probabilities, s);
      }
      if StrictlyBest(r) {
        var k :| 0 <= k < |r.probabilities| && r.probabilities[k].id == r.selected && Dominates(r.probabilities, k);
        assert best == k;
      }
    }
    if maxCount != 1 || selectedProbability != max || selectedProbability < policy.minSelected
       || r.confidence < policy.minConfidence || r.action > policy.maxAction {
      return FALLBACK;
    }
    if r.selected in routes {
      return routes[r.selected];
    }
    return FALLBACK;
  }
}
