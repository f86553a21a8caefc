/** Which alarm policy applies to each cluster: three phases of loops over a shared table, and the
    per-cluster priority rule they come to. */
module PolicyResolution {
  import opened Results
  import opened Sets
  import opened Text

  datatype TargetRule = TargetRule(key: string, op: string, value: seq<string>)

  /** A target may carry no rule. */
  type Target = Option<TargetRule>

  /** A test rule; level 0 stands for an absent level. */
  datatype AlertRule = AlertRule(level: nat, config: string)

  datatype Policy = Policy(
    id: int,
    parentId: int,
    targetLevel: string,
    promql: bool,
    targets: seq<Target>,
    testRules: Option<seq<AlertRule>>)

  datatype Cluster = Cluster(id: int, domain: string, dbType: string)

  /** The request; an absent topic or consumer group is "", an absent alert level 0. `search` is the
      regular expression engine: whether a pattern is found in a text. */
  datatype Query = Query(topic: string, consumerGroup: string, alertLevel: nat, search: (string, string) -> bool)

  const APP_LEVEL := "appid"

  type Table = map<int, Policy>

  // ---- matchers ----

  predicate MatchTargetValue(op: string, value: seq<string>, text: string, search: (string, string) -> bool) {
    if op == "eq" then text in value
    else if op == "neq" then text !in value
    else if op == "include" then exists v | v in value :: Contains(text, v)
    else if op == "exclude" then forall v | v in value :: !Contains(text, v)
    else if op == "reg" then exists v | v in value :: search(v, text)
    else if op == "nreg" then forall v | v in value :: !search(v, text)
    else false
  }

  predicate MatchPromqlTarget(op: string, value: seq<string>, domain: string, search: (string, string) -> bool) {
    if op == "=" then domain in value
    else if op == "!=" then domain !in value
    else if op == "=~" then exists v | v in value :: search(v, domain)
    else if op == "!~" then forall v | v in value :: !search(v, domain)
    else false
  }

  predicate Matcher(promql: bool, r: TargetRule, domain: string, search: (string, string) -> bool) {
    if promql then MatchPromqlTarget(r.op, r.value, domain, search)
    else MatchTargetValue(r.op, r.value, domain, search)
  }

  predicate LevelMatched(p: Policy, alertLevel: nat) {
    alertLevel == 0 || (p.testRules.Some? && exists r | r in p.testRules.value :: r.level == alertLevel)
  }

  // ---- what a sub-policy matches, cluster by cluster ----

  ghost predicate DomainRule(t: Target, promql: bool, c: Cluster, search: (string, string) -> bool) {
    t.Some? && t.value.key == "cluster_domain" && Matcher(promql, t.value, c.domain, search)
  }

  ghost predicate DomainHit(targets: seq<Target>, promql: bool, c: Cluster, search: (string, string) -> bool) {
    exists k :: 0 <= k < |targets| && DomainRule(targets[k], promql, c, search)
  }

  function Param(q: Query, key: string): string {
    if key == "topic" then q.topic else if key == "consumergroup" then q.consumerGroup else ""
  }

  /** A rule on a dimension that the request gives and that the rule's values do not admit. */
  predicate Refuses(t: Target, q: Query) {
    t.Some? && t.value.key != "cluster_domain" && t.value.value != [] && Param(q, t.value.key) != ""
    && !MatchTargetValue(t.value.op, t.value.value, Param(q, t.value.key), q.search)
  }

  /** The values of the last rule on the cluster domain, empty when there is none. */
  function LastDomainValue(targets: seq<Target>): seq<string> {
    if targets == [] then []
    else
      var t := targets[|targets| - 1];
      if t.Some? && t.value.key == "cluster_domain" then t.value.value
      else LastDomainValue(targets[..|targets| - 1])
  }

  ghost predicate SubMatches(p: Policy, c: Cluster, q: Query) {
    && LevelMatched(p, q.alertLevel)
    && if !p.promql && (q.topic != "" || q.consumerGroup != "") then
         && (forall k :: 0 <= k < |p.targets| ==> !Refuses(p.targets[k], q))
         && (LastDomainValue(p.targets) == [] || DomainHit(p.targets, false, c, q.search))
       else DomainHit(p.targets, p.promql, c, q.search)
  }

  // ---- the priority rule ----

  /** The first policy of a list that satisfies a test. */
  ghost function First(ps: seq<Policy>, test: Policy -> bool): Option<Policy> {
    if ps == [] then None
    else if test(ps[0]) then Some(ps[0])
    else First(ps[1..], test)
  }

  ghost function FirstSub(subs: seq<Policy>, c: Cluster, q: Query): Option<Policy> {
    First(subs, p => SubMatches(p, c, q))
  }

  ghost function FirstLevel(ps: seq<Policy>, q: Query): Option<Policy> {
    First(ps, p => LevelMatched(p, q.alertLevel))
  }

  /** What applies when no sub-policy does: the same for every cluster. */
  ghost function Fallback(biz: seq<Policy>, parents: seq<Policy>, q: Query): Option<Policy> {
    if FirstLevel(biz, q).Some? then FirstLevel(biz, q) else FirstLevel(parents, q)
  }

  ghost function Applies(subs: seq<Policy>, biz: seq<Policy>, parents: seq<Policy>, c: Cluster, q: Query)
    : Option<Policy>
  {
    if FirstSub(subs, c, q).Some? then FirstSub(subs, c, q) else Fallback(biz, parents, q)
  }

  /** The two policies that make cluster c ambiguous. */
  ghost predicate Doubly(subs: seq<Policy>, i: int, j: int, c: Cluster, q: Query) {
    && 0 <= i < |subs| && 0 <= j < |subs| && subs[i].id != subs[j].id
    && SubMatches(subs[i], c, q) && SubMatches(subs[j], c, q)
  }

  /** Some cluster is matched by two sub-policies with different ids. */
  ghost predicate Ambiguous(subs: seq<Policy>, clusters: seq<Cluster>, q: Query) {
    exists i, j, c :: c in clusters && Doubly(subs, i, j, c, q)
  }

  // ---- tables as values ----

  /** Recording a policy for a set of clusters, first come first served. */
  function AddAll(t: Table, ids: set<int>, p: Policy): Table {
    map id | id in t.Keys + ids :: if id in t then t[id] else p
  }

  ghost predicate Clash(t: Table, ids: set<int>, p: Policy) {
    exists id :: id in ids && id in t && t[id].id != p.id
  }

  ghost predicate DistinctIds(clusters: seq<Cluster>) {
    forall i, j :: 0 <= i < j < |clusters| ==> clusters[i].id != clusters[j].id
  }

  /** The table holds for each cluster what the rule says, and nothing else. */
  ghost predicate Holds(t: Table, clusters: seq<Cluster>, rule: Cluster -> Option<Policy>) {
    && (forall c :: c in clusters ==> if c.id in t then rule(c) == Some(t[c.id]) else rule(c) == None)
    && (forall id :: id in t ==> exists c :: c in clusters && c.id == id)
  }

  ghost function Hits(p: Policy, clusters: seq<Cluster>, q: Query): set<int> {
    set c | c in clusters && SubMatches(p, c, q) :: c.id
  }

  // ---- lemmas on First ----

  lemma {:induction false} FirstAppend(ps: seq<Policy>, p: Policy, test: Policy -> bool)
    ensures First(ps + [p], test) == if First(ps, test).Some? then First(ps, test)
                                     else if test(p) then Some(p) else None
  {
    if ps == [] {
      assert [p][1..] == [];
    } else {
      FirstAppend(ps[1..], p, test);
      assert (ps + [p])[1..] == ps[1..] + [p];
    }
  }

  /** First finds a policy of the list that passes, with none that passes before it, whenever one does. */
  lemma {:induction false} FirstFinds(ps: seq<Policy>, test: Policy -> bool)
    ensures match First(ps, test)
            case Some(p) =>
              exists k :: 0 <= k < |ps| && ps[k] == p && test(p) && forall i :: 0 <= i < k ==> !test(ps[i])
            case None => forall i :: 0 <= i < |ps| ==> !test(ps[i])
  {
    if ps != [] && !test(ps[0]) {
      FirstFinds(ps[1..], test);
      match First(ps[1..], test)
      case Some(p) =>
        var k :| 0 <= k < |ps[1..]| && ps[1..][k] == p && test(p) && forall i :: 0 <= i < k ==> !test(ps[1..][i]);
        assert ps[k + 1] == p;
        assert forall i :: 0 < i < k + 1 ==> ps[i] == ps[1..][i - 1];
      case None =>
        assert forall i :: 0 < i < |ps| ==> ps[i] == ps[1..][i - 1];
    }
  }

  lemma HitsOf(p: Policy, clusters: seq<Cluster>, q: Query, c: Cluster)
    requires DistinctIds(clusters) && c in clusters
    ensures c.id in Hits(p, clusters, q) <==> SubMatches(p, c, q)
  {
    forall b | b in clusters && b.id == c.id
      ensures b == c
    {
      var i :| 0 <= i < |clusters| && clusters[i] == b;
      var j :| 0 <= j < |clusters| && clusters[j] == c;
      assert i == j;
    }
  }

  /** Adding one more sub-policy keeps the table what the rule says. */
  lemma SubStep(t: Table, subs: seq<Policy>, p: Policy, clusters: seq<Cluster>, q: Query)
    requires DistinctIds(clusters)
    requires Holds(t, clusters, (c: Cluster) => FirstSub(subs, c, q))
    ensures Holds(AddAll(t, Hits(p, clusters, q), p), clusters, (c: Cluster) => FirstSub(subs + [p], c, q))
  {
    var t' := AddAll(t, Hits(p, clusters, q), p);
    forall c | c in clusters
      ensures if c.id in t' then FirstSub(subs + [p], c, q) == Some(t'[c.id]) else FirstSub(subs + [p], c, q) == None
    {
      FirstAppend(subs, p, x => SubMatches(x, c, q));
      HitsOf(p, clusters, q, c);
    }
  }

  lemma ClashMakesAmbiguous(t: Table, subs: seq<Policy>, p: Policy, clusters: seq<Cluster>, q: Query)
    requires Holds(t, clusters, (c: Cluster) => FirstSub(subs, c, q))
    requires Clash(t, Hits(p, clusters, q), p)
    ensures Ambiguous(subs + [p], clusters, q)
  {
    var all := subs + [p];
    var id :| id in Hits(p, clusters, q) && id in t && t[id].id != p.id;
    var c :| c in clusters && SubMatches(p, c, q) && c.id == id;
    FirstFinds(subs, x => SubMatches(x, c, q));
    var i :| 0 <= i < |subs| && subs[i] == t[id] && SubMatches(subs[i], c, q);
    assert all[i] == subs[i] && all[|subs|] == p;
    assert Doubly(all, i, |subs|, c, q);
  }

  lemma AmbiguityClashes(t: Table, subs: seq<Policy>, p: Policy, clusters: seq<Cluster>, q: Query)
    requires DistinctIds(clusters) && !Ambiguous(subs, clusters, q)
    requires Holds(t, clusters, (c: Cluster) => FirstSub(subs, c, q))
    requires Ambiguous(subs + [p], clusters, q)
    ensures Clash(t, Hits(p, clusters, q), p)
  {
    var all := subs + [p];
    var i, j, c :| c in clusters && Doubly(all, i, j, c, q);
    // one of the two is the new policy; the other is matched by the same cluster before it
    var o := if i == |subs| then j else i;
    assert o < |subs| && all[o] == subs[o] && (i == |subs| || j == |subs|) by {
      if i < |subs| && j < |subs| {
        assert Doubly(subs, i, j, c, q);
      }
    }
    HitsOf(p, clusters, q, c);
    FirstFinds(subs, x => SubMatches(x, c, q));
    var f :| 0 <= f < |subs| && subs[f] == t[c.id] && SubMatches(subs[f], c, q);
    assert subs[f].id == subs[o].id by {
      if subs[f].id != subs[o].id {
        assert Doubly(subs, f, o, c, q);
      }
    }
  }

  /** More sub-policies never make an ambiguity go away. */
  lemma AmbiguousMore(subs: seq<Policy>, more: seq<Policy>, clusters: seq<Cluster>, q: Query)
    requires Ambiguous(subs, clusters, q)
    ensures Ambiguous(subs + more, clusters, q)
  {
    var i, j, c :| c in clusters && Doubly(subs, i, j, c, q);
    assert (subs + more)[i] == subs[i] && (subs + more)[j] == subs[j];
    assert Doubly(subs + more, i, j, c, q);
  }

  /** The clusters one target's rule hits, and those a policy's cluster-domain rules hit together. */
  ghost function RuleIds(t: Target, p: Policy, q: Query, clusters: seq<Cluster>): set<int> {
    set c | c in clusters && LevelMatched(p, q.alertLevel) && DomainRule(t, p.promql, c, q.search) :: c.id
  }

  ghost function DomainIds(targets: seq<Target>, p: Policy, q: Query, clusters: seq<Cluster>): set<int> {
    set c | c in clusters && LevelMatched(p, q.alertLevel) && DomainHit(targets, p.promql, c, q.search) :: c.id
  }

  ghost function LevelIds(p: Policy, q: Query, clusters: seq<Cluster>): set<int> {
    set c | c in clusters && LevelMatched(p, q.alertLevel) :: c.id
  }

  lemma DomainIdsNext(targets: seq<Target>, k: nat, p: Policy, q: Query, clusters: seq<Cluster>)
    requires k < |targets|
    ensures DomainIds(targets[..k + 1], p, q, clusters)
         == DomainIds(targets[..k], p, q, clusters) + RuleIds(targets[k], p, q, clusters)
    ensures targets[k].None? || targets[k].value.key != "cluster_domain" ==>
              DomainIds(targets[..k + 1], p, q, clusters) == DomainIds(targets[..k], p, q, clusters)
  {
    var more, less := targets[..k + 1], targets[..k];
    forall c: Cluster
      ensures DomainHit(more, p.promql, c, q.search)
              <==> (DomainHit(less, p.promql, c, q.search) || DomainRule(targets[k], p.promql, c, q.search))
    {
      assert more[k] == targets[k];
      assert forall i :: 0 <= i < k ==> more[i] == less[i];
    }
  }

  lemma DomainIdsMore(targets: seq<Target>, k: nat, p: Policy, q: Query, clusters: seq<Cluster>)
    requires k <= |targets|
    ensures DomainIds(targets[..k], p, q, clusters) <= DomainIds(targets, p, q, clusters)
  {
    forall c | c in clusters && DomainHit(targets[..k], p.promql, c, q.search)
      ensures DomainHit(targets, p.promql, c, q.search)
    {
      var i :| 0 <= i < k && DomainRule(targets[..k][i], p.promql, c, q.search);
      assert DomainRule(targets[i], p.promql, c, q.search);
    }
  }

  lemma AddNone(t: Table, p: Policy)
    ensures AddAll(t, {}, p) == t
  {
  }

  /** Recording the same policy twice is recording it once for both sets, and never clashes with itself. */
  lemma AddTwice(t: Table, a: set<int>, b: set<int>, p: Policy)
    ensures AddAll(AddAll(t, a, p), b, p) == AddAll(t, a + b, p)
    ensures Clash(AddAll(t, a, p), b, p) <==> Clash(t, b, p)
    ensures Clash(t, a + b, p) <==> Clash(t, a, p) || Clash(t, b, p)
  {
    var t' := AddAll(t, a, p);
    assert forall id :: id in b && id in t && t[id].id != p.id ==> id in t' && t'[id] == t[id];
    assert forall id :: id in b && id in t' && t'[id].id != p.id ==> id in t;
    if Clash(t, a, p) {
      var id :| id in a && id in t && t[id].id != p.id;
      assert id in a + b;
    }
    if Clash(t, b, p) {
      var id :| id in b && id in t && t[id].id != p.id;
      assert id in a + b && id in t' && t'[id].id != p.id;
    }
  }

  // ---- the loops ----

  datatype Conflict = Conflict(clusterId: int, first: Policy, second: Policy)

  class Resolver {
    var targetPolicy: Table

    constructor ()
      ensures targetPolicy == map[]
    {
      targetPolicy := map[];
    }

    method RecordMatch(clusterId: int, policy: Policy, strict: bool) returns (raised: Option<Conflict>)
      modifies this
      ensures targetPolicy == AddAll(old(targetPolicy), {clusterId}, policy)
      ensures raised.Some? <==> strict && Clash(old(targetPolicy), {clusterId}, policy)
    {
      raised := None;
      if clusterId !in targetPolicy {
        targetPolicy := targetPolicy[clusterId := policy];
        assert targetPolicy == AddAll(old(targetPolicy), {clusterId}, policy);
        return;
      }
      var matched := targetPolicy[clusterId];
      assert targetPolicy == AddAll(old(targetPolicy), {clusterId}, policy);
      if matched.id == policy.id {
        return;
      }
      if strict {
        assert clusterId in {clusterId};
        raised := Some(Conflict(clusterId, matched, policy));
      }
    }

    /** The inner loop: one target's rule against every cluster. */
    method MatchRule(target: TargetRule, policy: Policy, q: Query, clusters: seq<Cluster>)
      returns (raised: Option<Conflict>)
      requires target.key == "cluster_domain"
      modifies this
      ensures raised.Some? <==> Clash(old(targetPolicy), RuleIds(Some(target), policy, q, clusters), policy)
      ensures raised.None? ==>
                targetPolicy == AddAll(old(targetPolicy), RuleIds(Some(target), policy, q, clusters), policy)
    {
      ghost var t0 := targetPolicy;
      raised := None;
      AddNone(t0, policy);
      for j := 0 to |clusters|
        invariant targetPolicy == AddAll(t0, RuleIds(Some(target), policy, q, clusters[..j]), policy)
        invariant raised.None? && !Clash(t0, RuleIds(Some(target), policy, q, clusters[..j]), policy)
      {
        ghost var ids := RuleIds(Some(target), policy, q, clusters[..j]);
        assert clusters[..j + 1] == clusters[..j] + [clusters[j]];
        if Matcher(policy.promql, target, clusters[j].domain, q.search) && LevelMatched(policy, q.alertLevel) {
          raised := RecordMatch(clusters[j].id, policy, true);
          AddTwice(t0, ids, {clusters[j].id}, policy);
          assert RuleIds(Some(target), policy, q, clusters[..j + 1]) == ids + {clusters[j].id};
          if raised.Some? {
            assert clusters[j].id in RuleIds(Some(target), policy, q, clusters);
            return;
          }
        } else {
          assert RuleIds(Some(target), policy, q, clusters[..j + 1]) == ids;
        }
      }
      assert clusters[..|clusters|] == clusters;
    }

    /** Records the policy for every cluster that one of its cluster-domain rules matches. */
    method MatchClusterDomain(targets: seq<Target>, policy: Policy, q: Query, clusters: seq<Cluster>)
      returns (raised: Option<Conflict>)
      modifies this
      ensures raised.Some? <==> Clash(old(targetPolicy), DomainIds(targets, policy, q, clusters), policy)
      ensures raised.None? ==>
                targetPolicy == AddAll(old(targetPolicy), DomainIds(targets, policy, q, clusters), policy)
    {
      ghost var t0 := targetPolicy;
      raised := None;
      AddNone(t0, policy);
      for k := 0 to |targets|
        invariant targetPolicy == AddAll(t0, DomainIds(targets[..k], policy, q, clusters), policy)
        invariant raised.None? && !Clash(t0, DomainIds(targets[..k], policy, q, clusters), policy)
      {
        DomainIdsNext(targets, k, policy, q, clusters);
        if targets[k].None? || targets[k].value.key != "cluster_domain" {
          continue;
        }
        raised := MatchRule(targets[k].value, policy, q, clusters);
        AddTwice(t0, DomainIds(targets[..k], policy, q, clusters), RuleIds(targets[k], policy, q, clusters), policy);
        if raised.Some? {
          DomainIdsMore(targets, k + 1, policy, q, clusters);
          return;
        }
      }
      assert targets[..|targets|] == targets;
    }

    /** Records the policy for all clusters when its level fits. */
    method MatchAllClusters(policy: Policy, q: Query, clusters: seq<Cluster>, strict: bool)
      returns (raised: Option<Conflict>)
      modifies this
      ensures raised.Some? <==> strict && Clash(old(targetPolicy), LevelIds(policy, q, clusters), policy)
      ensures raised.None? ==>
                targetPolicy == AddAll(old(targetPolicy), LevelIds(policy, q, clusters), policy)
    {
      ghost var t0 := targetPolicy;
      raised := None;
      AddNone(t0, policy);
      if !LevelMatched(policy, q.alertLevel) {
        assert LevelIds(policy, q, clusters) == {};
        return;
      }
      for j := 0 to |clusters|
        invariant targetPolicy == AddAll(t0, LevelIds(policy, q, clusters[..j]), policy)
        invariant raised.None? && (strict ==> !Clash(t0, LevelIds(policy, q, clusters[..j]), policy))
      {
        ghost var ids := LevelIds(policy, q, clusters[..j]);
        assert clusters[..j + 1] == clusters[..j] + [clusters[j]];
        raised := RecordMatch(clusters[j].id, policy, strict);
        AddTwice(t0, ids, {clusters[j].id}, policy);
        assert LevelIds(policy, q, clusters[..j + 1]) == ids + {clusters[j].id};
        if raised.Some? {
          assert clusters[j].id in LevelIds(policy, q, clusters);
          return;
        }
      }
      assert clusters[..|clusters|] == clusters;
    }

    /** Whether the topic and consumer-group rules admit the request, and the values of the last rule on
        the cluster domain. */
    static method MatchDimensions(targets: seq<Target>, q: Query)
      returns (dimensionMatched: bool, clusterDomainValue: seq<string>)
      ensures dimensionMatched <==> forall k :: 0 <= k < |targets| ==> !Refuses(targets[k], q)
      ensures clusterDomainValue == LastDomainValue(targets)
    {
      dimensionMatched, clusterDomainValue := true, [];
      for k := 0 to |targets|
        invariant dimensionMatched <==> forall i :: 0 <= i < k ==> !Refuses(targets[i], q)
        invariant clusterDomainValue == LastDomainValue(targets[..k])
      {
        assert targets[..k + 1][..k] == targets[..k];
        if targets[k].None? {
          continue;
        }
        var rule := targets[k].value;
        if rule.key == "cluster_domain" {
          clusterDomainValue := rule.value;
          continue;
        }
        if rule.key !in ["topic", "consumergroup"] || rule.value == [] {
          continue;
        }
        var paramValue := Param(q, rule.key);
        if paramValue == "" {
          continue;
        }
        if !MatchTargetValue(rule.op, rule.value, paramValue, q.search) {
          dimensionMatched := false;
        }
      }
      assert targets[..|targets|] == targets;
    }

    /** One sub-policy against all clusters, by whichever kind of match it and the request call for. */
    method MatchSubPolicy(policy: Policy, q: Query, clusters: seq<Cluster>) returns (raised: Option<Conflict>)
      modifies this
      ensures raised.Some? <==> Clash(old(targetPolicy), Hits(policy, clusters, q), policy)
      ensures raised.None? ==> targetPolicy == AddAll(old(targetPolicy), Hits(policy, clusters, q), policy)
    {
      raised := None;
      if policy.promql {
        assert Hits(policy, clusters, q) == DomainIds(policy.targets, policy, q, clusters);
        raised := MatchClusterDomain(policy.targets, policy, q, clusters);
      } else if q.topic != "" || q.consumerGroup != "" {
        var dimensionMatched, clusterDomainValue := MatchDimensions(policy.targets, q);
        if !dimensionMatched {
          assert Hits(policy, clusters, q) == {};
          AddNone(targetPolicy, policy);
          return;
        }
        if clusterDomainValue != [] {
          assert Hits(policy, clusters, q) == DomainIds(policy.targets, policy, q, clusters);
          raised := MatchClusterDomain(policy.targets, policy, q, clusters);
        } else {
          assert Hits(policy, clusters, q) == LevelIds(policy, q, clusters);
          raised := MatchAllClusters(policy, q, clusters, true);
        }
      } else {
        assert Hits(policy, clusters, q) == DomainIds(policy.targets, policy, q, clusters);
        raised := MatchClusterDomain(policy.targets, policy, q, clusters);
      }
    }

    /** The first phase: raises exactly on an ambiguity, and otherwise leaves each cluster's sub-policy. */
    method MatchSubPolicies(subs: seq<Policy>, q: Query, clusters: seq<Cluster>) returns (raised: Option<Conflict>)
      requires DistinctIds(clusters) && targetPolicy == map[]
      modifies this
      ensures raised.Some? <==> Ambiguous(subs, clusters, q)
      ensures raised.None? ==> Holds(targetPolicy, clusters, (c: Cluster) => FirstSub(subs, c, q))
    {
      raised := None;
      for k := 0 to |subs|
        invariant raised.None? && !Ambiguous(subs[..k], clusters, q)
        invariant Holds(targetPolicy, clusters, (c: Cluster) => FirstSub(subs[..k], c, q))
      {
        ghost var t := targetPolicy;
        raised := MatchSubPolicy(subs[k], q, clusters);
        assert subs[..k + 1] == subs[..k] + [subs[k]];
        if raised.Some? {
          ClashMakesAmbiguous(t, subs[..k], subs[k], clusters, q);
          AmbiguousMore(subs[..k + 1], subs[k + 1..], clusters, q);
          assert subs == subs[..k + 1] + subs[k + 1..];
          return;
        }
        if Ambiguous(subs[..k + 1], clusters, q) {
          AmbiguityClashes(t, subs[..k], subs[k], clusters, q);
        }
        SubStep(t, subs[..k], subs[k], clusters, q);
      }
      assert subs[..|subs|] == subs;
    }

    /** A fallback phase: the first policy whose level fits takes every cluster still without one. */
    method MatchFallback(policies: seq<Policy>, q: Query, clusters: seq<Cluster>)
      modifies this
      ensures targetPolicy == if FirstLevel(policies, q).None? then old(targetPolicy)
                              else AddAll(old(targetPolicy), set c | c in clusters :: c.id,
                                          FirstLevel(policies, q).value)
    {
      ghost var t0, all := targetPolicy, set c | c in clusters :: c.id;
      for k := 0 to |policies|
        invariant targetPolicy == if FirstLevel(policies[..k], q).None? then t0
                                  else AddAll(t0, all, FirstLevel(policies[..k], q).value)
      {
        assert policies[..k + 1] == policies[..k] + [policies[k]];
        FirstAppend(policies[..k], policies[k], p => LevelMatched(p, q.alertLevel));
        assert LevelIds(policies[k], q, clusters) == if LevelMatched(policies[k], q.alertLevel) then all else {};
        var raised := MatchAllClusters(policies[k], q, clusters, false);
      }
      assert policies[..|policies|] == policies;
    }
  }

  // ---- sorting the policies into the three groups ----

  predicate IsParent(p: Policy) {
    p.parentId == 0
  }

  predicate IsBiz(p: Policy) {
    !IsParent(p) && p.targetLevel == APP_LEVEL
  }

  predicate IsSub(p: Policy) {
    !IsParent(p) && p.targetLevel != APP_LEVEL
  }

  function Filter<T>(xs: seq<T>, test: T -> bool): seq<T> {
    if xs == [] then []
    else Filter(xs[..|xs| - 1], test) + (if test(xs[|xs| - 1]) then [xs[|xs| - 1]] else [])
  }

  /** ys are the elements of xs at these places, in order; they are all that pass. */
  ghost predicate PicksAt<T(!new)>(xs: seq<T>, ys: seq<T>, places: seq<nat>, test: T -> bool) {
    && |places| == |ys|
    && (forall k :: 0 <= k < |places| ==> places[k] < |xs| && ys[k] == xs[places[k]])
    && (forall j, k :: 0 <= j < k < |places| ==> places[j] < places[k])
    && (forall i :: 0 <= i < |xs| ==> (test(xs[i]) <==> i in places))
  }

  /** ys is what is left of xs when the elements that fail are taken out. */
  ghost predicate Picks<T(!new)>(xs: seq<T>, ys: seq<T>, test: T -> bool) {
    exists places :: PicksAt(xs, ys, places, test)
  }

  lemma {:induction false} FilterPicks<T(!new)>(xs: seq<T>, test: T -> bool)
    ensures Picks(xs, Filter(xs, test), test)
  {
    if xs == [] {
      assert PicksAt(xs, [], [], test);
    } else {
      var less, n := xs[..|xs| - 1], |xs| - 1;
      FilterPicks(less, test);
      var ys := Filter(less, test);
      var places :| PicksAt(less, ys, places, test);
      FilterNext(xs, ys, places, test);
      if test(xs[n]) {
        assert Filter(xs, test) == ys + [xs[n]];
      } else {
        assert Filter(xs, test) == ys + [] == ys;
      }
    }
  }

  lemma FilterNext<T(!new)>(xs: seq<T>, ys: seq<T>, places: seq<nat>, test: T -> bool)
    requires xs != [] && PicksAt(xs[..|xs| - 1], ys, places, test)
    ensures var last := xs[|xs| - 1];
            if test(last) then PicksAt(xs, ys + [last], places + [|xs| - 1], test) else PicksAt(xs, ys, places, test)
  {
    var less, n := xs[..|xs| - 1], |xs| - 1;
    assert forall i :: 0 <= i < n ==> less[i] == xs[i];
    assert n !in places by {
      assert forall k :: 0 <= k < |places| ==> places[k] < n;
    }
  }

  lemma {:induction false} FilterIn<T(!new)>(xs: seq<T>, test: T -> bool)
    ensures forall x :: x in Filter(xs, test) <==> x in xs && test(x)
  {
    if xs != [] {
      FilterIn(xs[..|xs| - 1], test);
    }
  }

  method ClassifyPolicy(policies: seq<Policy>)
    returns (parentPolicy: seq<Policy>, bizPolicy: seq<Policy>, subPolicy: seq<Policy>)
    ensures parentPolicy == Filter(policies, IsParent)
    ensures bizPolicy == Filter(policies, IsBiz)
    ensures subPolicy == Filter(policies, IsSub)
    ensures Picks(policies, parentPolicy, (p: Policy) => p.parentId == 0)
    ensures Picks(policies, bizPolicy, (p: Policy) => p.parentId != 0 && p.targetLevel == "appid")
    ensures Picks(policies, subPolicy, (p: Policy) => p.parentId != 0 && p.targetLevel != "appid")
  {
    parentPolicy, bizPolicy, subPolicy := [], [], [];
    for k := 0 to |policies|
      invariant parentPolicy == Filter(policies[..k], IsParent)
      invariant bizPolicy == Filter(policies[..k], IsBiz)
      invariant subPolicy == Filter(policies[..k], IsSub)
    {
      assert policies[..k + 1][..k] == policies[..k];
      var policy := policies[k];
      if policy.parentId == 0 {
        parentPolicy := parentPolicy + [policy];
      } else if policy.targetLevel == APP_LEVEL {
        bizPolicy := bizPolicy + [policy];
      } else {
        subPolicy := subPolicy + [policy];
      }
    }
    assert policies[..|policies|] == policies;
    FilterPicksAs(policies, IsParent, (p: Policy) => p.parentId == 0);
    FilterPicksAs(policies, IsBiz, (p: Policy) => p.parentId != 0 && p.targetLevel == "appid");
    FilterPicksAs(policies, IsSub, (p: Policy) => p.parentId != 0 && p.targetLevel != "appid");
  }

  lemma FilterPicksAs(ps: seq<Policy>, f: Policy -> bool, g: Policy -> bool)
    requires forall p :: f(p) <==> g(p)
    ensures Picks(ps, Filter(ps, f), g)
  {
    FilterPicks(ps, f);
    var places :| PicksAt(ps, Filter(ps, f), places, f);
    assert PicksAt(ps, Filter(ps, f), places, g);
  }

  // ---- the whole resolution ----

  function Unmatched(clusters: seq<Cluster>, t: Table): seq<Cluster> {
    if clusters == [] then []
    else (if clusters[0].id in t then [] else [clusters[0]]) + Unmatched(clusters[1..], t)
  }

  lemma {:induction false} UnmatchedIs(clusters: seq<Cluster>, t: Table)
    ensures forall c :: c in Unmatched(clusters, t) <==> c in clusters && c.id !in t
  {
    if clusters != [] {
      UnmatchedIs(clusters[1..], t);
    }
  }

  function WithLevel(rules: seq<AlertRule>, alertLevel: nat): seq<AlertRule> {
    Filter(rules, (r: AlertRule) => r.level == alertLevel)
  }

  /** The rules reported for a policy; None is a policy without test rules, reported as such. */
  function RulesOf(p: Policy, alertLevel: nat): Option<seq<AlertRule>>
    requires LevelMatched(p, alertLevel)
  {
    if alertLevel == 0 then p.testRules else Some(WithLevel(p.testRules.value, alertLevel))
  }

  lemma AppliesAtLevel(subs: seq<Policy>, biz: seq<Policy>, parents: seq<Policy>, c: Cluster, q: Query)
    ensures var r := Applies(subs, biz, parents, c, q); r.Some? ==> LevelMatched(r.value, q.alertLevel)
  {
    FirstFinds(subs, p => SubMatches(p, c, q));
    FirstFinds(biz, p => LevelMatched(p, q.alertLevel));
    FirstFinds(parents, p => LevelMatched(p, q.alertLevel));
  }

  function Record(t: Table, ids: set<int>, p: Option<Policy>): Table {
    if p.None? then t else AddAll(t, ids, p.value)
  }

  lemma FallbackHolds(t: Table, subs: seq<Policy>, biz: seq<Policy>, parents: seq<Policy>,
                      clusters: seq<Cluster>, rest: seq<Cluster>, q: Query)
    requires Holds(t, clusters, (c: Cluster) => FirstSub(subs, c, q))
    requires forall c :: c in rest <==> c in clusters && c.id !in t
    ensures var ids := set c | c in rest :: c.id;
            Holds(Record(Record(t, ids, FirstLevel(biz, q)), ids, FirstLevel(parents, q)), clusters,
                  (c: Cluster) => Applies(subs, biz, parents, c, q))
  {
    var ids := set c | c in rest :: c.id;
    var t' := Record(Record(t, ids, FirstLevel(biz, q)), ids, FirstLevel(parents, q));
    forall c | c in clusters
      ensures var r := Applies(subs, biz, parents, c, q);
              if c.id in t' then r == Some(t'[c.id]) else r == None
    {
      if c.id !in t {
        assert c in rest;
        assert c.id in ids;
      } else {
        assert FirstSub(subs, c, q) == Some(t[c.id]);
      }
    }
  }

  /** What the request as a whole answers, cluster by cluster. */
  ghost predicate Answers(r: Result<Option<map<int, Option<seq<AlertRule>>>>>, subs: seq<Policy>, biz: seq<Policy>,
                          parents: seq<Policy>, clusters: seq<Cluster>, q: Query)
  {
    && r.Ok?
    && (r.value.None? <==> forall c :: c in clusters ==> Applies(subs, biz, parents, c, q).None?)
    && (r.value.Some? ==>
          && (forall c :: c in clusters ==> (c.id in r.value.value <==> Applies(subs, biz, parents, c, q).Some?))
          && (forall id :: id in r.value.value ==> exists c :: c in clusters && c.id == id)
          && (forall c :: c in clusters && c.id in r.value.value ==>
                var p := Applies(subs, biz, parents, c, q).value;
                LevelMatched(p, q.alertLevel) && r.value.value[c.id] == RulesOf(p, q.alertLevel)))
  }

  /** The rules of each policy in the final table. */
  method CollectRules(t: Table, alertLevel: nat) returns (result: map<int, Option<seq<AlertRule>>>)
    requires forall id :: id in t ==> LevelMatched(t[id], alertLevel)
    ensures result.Keys == t.Keys
    ensures forall id :: id in t ==> result[id] == RulesOf(t[id], alertLevel)
  {
    result := map[];
    var todo: set<int> := t.Keys;
    while todo != {}
      invariant todo <= t.Keys && result.Keys == t.Keys - todo
      invariant forall id :: id in result ==> result[id] == RulesOf(t[id], alertLevel)
      decreases todo
    {
      IntMember(todo);
      var id :| id in todo;
      result := result[id := if alertLevel != 0 then Some(WithLevel(t[id].testRules.value, alertLevel))
                             else t[id].testRules];
      todo := todo - {id};
    }
  }

  /** The three phases on one table. */
  method ResolveTable(subs: seq<Policy>, biz: seq<Policy>, parents: seq<Policy>, clusters: seq<Cluster>, q: Query)
    returns (raised: Option<Conflict>, final: Table)
    requires DistinctIds(clusters)
    ensures raised.Some? <==> Ambiguous(subs, clusters, q)
    ensures raised.None? ==> Holds(final, clusters, (c: Cluster) => Applies(subs, biz, parents, c, q))
  {
    final := map[];
    var resolver := new Resolver();
    raised := resolver.MatchSubPolicies(subs, q, clusters);
    if raised.Some? {
      return;
    }
    ghost var t := resolver.targetPolicy;
    var rest := Unmatched(clusters, resolver.targetPolicy);
    UnmatchedIs(clusters, resolver.targetPolicy);
    ghost var ids := set c | c in rest :: c.id;
    if rest != [] {
      resolver.MatchFallback(biz, q, rest);
    }
    if rest != [] {
      resolver.MatchFallback(parents, q, rest);
    } else {
      assert ids == {};
    }
    final := resolver.targetPolicy;
    FallbackHolds(t, subs, biz, parents, clusters, rest, q);
    assert final == Record(Record(t, ids, FirstLevel(biz, q)), ids, FirstLevel(parents, q));
  }

  lemma HoldsAnswers(t: Table, rules: map<int, Option<seq<AlertRule>>>, subs: seq<Policy>, biz: seq<Policy>,
                     parents: seq<Policy>, clusters: seq<Cluster>, q: Query)
    requires Holds(t, clusters, (c: Cluster) => Applies(subs, biz, parents, c, q))
    ensures forall id :: id in t ==> LevelMatched(t[id], q.alertLevel)
    ensures t == map[] ==> Answers(Ok(None), subs, biz, parents, clusters, q)
    ensures t != map[] && rules.Keys == t.Keys
            && (forall id :: id in t ==> rules[id] == RulesOf(t[id], q.alertLevel)) ==>
              Answers(Ok(Some(rules)), subs, biz, parents, clusters, q)
  {
    forall id | id in t
      ensures LevelMatched(t[id], q.alertLevel)
    {
      var c :| c in clusters && c.id == id;
      AppliesAtLevel(subs, biz, parents, c, q);
    }
    if t != map[] {
      IntMember(t.Keys);
      var id :| id in t.Keys;
      var c :| c in clusters && c.id == id;
      assert Applies(subs, biz, parents, c, q).Some?;
    }
  }

  // ---- the rule, spelled out on the rows themselves ----

  /** What the operators of ordinary targets mean; any other operator admits nothing. */
  lemma TargetValueMeans(op: string, value: seq<string>, text: string, search: (string, string) -> bool)
    ensures MatchTargetValue("eq", value, text, search) <==> exists k :: 0 <= k < |value| && value[k] == text
    ensures MatchTargetValue("include", value, text, search) <==>
              exists k, i :: 0 <= k < |value| && 0 <= i <= |text| && OccursAt(text, value[k], i)
    ensures MatchTargetValue("reg", value, text, search) <==> exists k :: 0 <= k < |value| && search(value[k], text)
    ensures MatchTargetValue("neq", value, text, search) <==> !MatchTargetValue("eq", value, text, search)
    ensures MatchTargetValue("exclude", value, text, search) <==> !MatchTargetValue("include", value, text, search)
    ensures MatchTargetValue("nreg", value, text, search) <==> !MatchTargetValue("reg", value, text, search)
    ensures op !in {"eq", "neq", "include", "exclude", "reg", "nreg"} ==> !MatchTargetValue(op, value, text, search)
  {
    if exists k, i :: 0 <= k < |value| && 0 <= i <= |text| && OccursAt(text, value[k], i) {
      var k, i :| 0 <= k < |value| && 0 <= i <= |text| && OccursAt(text, value[k], i);
      assert value[k] in value && Contains(text, value[k]);
    }
    if exists k :: 0 <= k < |value| && search(value[k], text) {
      var k :| 0 <= k < |value| && search(value[k], text);
      assert value[k] in value;
    }
  }

  /** What the operators of query targets mean. */
  lemma PromqlTargetMeans(op: string, value: seq<string>, domain: string, search: (string, string) -> bool)
    ensures MatchPromqlTarget("=", value, domain, search) <==> exists k :: 0 <= k < |value| && value[k] == domain
    ensures MatchPromqlTarget("=~", value, domain, search) <==> exists k :: 0 <= k < |value| && search(value[k], domain)
    ensures MatchPromqlTarget("!=", value, domain, search) <==> !MatchPromqlTarget("=", value, domain, search)
    ensures MatchPromqlTarget("!~", value, domain, search) <==> !MatchPromqlTarget("=~", value, domain, search)
    ensures op !in {"=", "!=", "=~", "!~"} ==> !MatchPromqlTarget(op, value, domain, search)
  {
    if exists k :: 0 <= k < |value| && search(value[k], domain) {
      var k :| 0 <= k < |value| && search(value[k], domain);
      assert value[k] in value;
    }
  }

  /** The policy has a test rule of the level asked for, if one is. */
  ghost predicate Fits(p: Policy, alertLevel: nat) {
    alertLevel == 0
    || (p.testRules.Some? && exists k :: 0 <= k < |p.testRules.value| && p.testRules.value[k].level == alertLevel)
  }

  ghost predicate RuleOn(targets: seq<Target>, k: int, key: string) {
    0 <= k < |targets| && targets[k].Some? && targets[k].value.key == key
  }

  ghost predicate RuleAt(p: Policy, k: int, key: string) {
    RuleOn(p.targets, k, key)
  }

  /** Some rule on the cluster domain admits the cluster. */
  ghost predicate DomainAdmits(p: Policy, c: Cluster, q: Query) {
    exists k :: RuleAt(p, k, "cluster_domain")
                && var r := p.targets[k].value;
                if p.promql then MatchPromqlTarget(r.op, r.value, c.domain, q.search)
                else MatchTargetValue(r.op, r.value, c.domain, q.search)
  }

  /** Some rule with values on a topic or consumer group that the request gives does not admit it. */
  ghost predicate DimensionExcludes(p: Policy, key: string, given: string, q: Query) {
    given != "" && exists k :: RuleAt(p, k, key) && p.targets[k].value.value != []
                               && !MatchTargetValue(p.targets[k].value.op, p.targets[k].value.value, given, q.search)
  }

  /** The last rule on the cluster domain, if there is one, has no values. */
  ghost predicate NoDomainValues(p: Policy) {
    forall k :: RuleAt(p, k, "cluster_domain") && (forall j :: k < j ==> !RuleAt(p, j, "cluster_domain")) ==>
      p.targets[k].value.value == []
  }

  /** What a sub-policy has to meet for a cluster: the level, and the cluster domain; a request with a topic
      or consumer group is also held against those, and then no values on the domain mean every cluster. */
  ghost predicate Suits(p: Policy, c: Cluster, q: Query) {
    && Fits(p, q.alertLevel)
    && if p.promql || (q.topic == "" && q.consumerGroup == "") then DomainAdmits(p, c, q)
       else
         && !DimensionExcludes(p, "topic", q.topic, q) && !DimensionExcludes(p, "consumergroup", q.consumerGroup, q)
         && (NoDomainValues(p) || DomainAdmits(p, c, q))
  }

  /** The place of the last rule on the cluster domain, or -1. */
  lemma {:induction false} LastDomainIs(targets: seq<Target>) returns (k: int)
    ensures if k < 0 then LastDomainValue(targets) == [] && forall j :: !RuleOn(targets, j, "cluster_domain")
            else RuleOn(targets, k, "cluster_domain") && LastDomainValue(targets) == targets[k].value.value
                 && forall j :: k < j ==> !RuleOn(targets, j, "cluster_domain")
  {
    if targets == [] {
      k := -1;
    } else {
      var less, n := targets[..|targets| - 1], |targets| - 1;
      assert forall j :: 0 <= j < n ==> less[j] == targets[j];
      if RuleOn(targets, n, "cluster_domain") {
        k := n;
      } else {
        k := LastDomainIs(less);
        assert forall j :: RuleOn(targets, j, "cluster_domain") <==> RuleOn(less, j, "cluster_domain");
      }
    }
  }

  lemma NoDomainValuesIs(p: Policy)
    ensures NoDomainValues(p) <==> LastDomainValue(p.targets) == []
  {
    var k := LastDomainIs(p.targets);
    if k >= 0 {
      assert RuleAt(p, k, "cluster_domain");
      assert forall j :: k < j ==> !RuleAt(p, j, "cluster_domain");
      forall i | RuleAt(p, i, "cluster_domain") && forall j :: i < j ==> !RuleAt(p, j, "cluster_domain")
        ensures i == k
      {
      }
    } else {
      assert forall j :: !RuleAt(p, j, "cluster_domain");
    }
  }

  lemma FitsIs(p: Policy, alertLevel: nat)
    ensures Fits(p, alertLevel) <==> LevelMatched(p, alertLevel)
  {
    if p.testRules.Some? {
      forall k | 0 <= k < |p.testRules.value|
        ensures p.testRules.value[k] in p.testRules.value
      {
      }
    }
  }

  lemma DomainAdmitsIs(p: Policy, c: Cluster, q: Query)
    ensures DomainAdmits(p, c, q) <==> DomainHit(p.targets, p.promql, c, q.search)
  {
    forall k | 0 <= k < |p.targets|
      ensures DomainRule(p.targets[k], p.promql, c, q.search) <==>
                RuleAt(p, k, "cluster_domain")
                && var r := p.targets[k].value;
                if p.promql then MatchPromqlTarget(r.op, r.value, c.domain, q.search)
                else MatchTargetValue(r.op, r.value, c.domain, q.search)
    {
    }
  }

  lemma RefusesIs(p: Policy, q: Query)
    ensures (exists k :: 0 <= k < |p.targets| && Refuses(p.targets[k], q)) <==>
              DimensionExcludes(p, "topic", q.topic, q) || DimensionExcludes(p, "consumergroup", q.consumerGroup, q)
  {
    forall k | 0 <= k < |p.targets|
      ensures Refuses(p.targets[k], q) <==>
                p.targets[k].Some? && p.targets[k].value.value != []
                && var r := p.targets[k].value;
                   || (r.key == "topic" && q.topic != ""
                       && !MatchTargetValue(r.op, r.value, q.topic, q.search))
                   || (r.key == "consumergroup" && q.consumerGroup != ""
                       && !MatchTargetValue(r.op, r.value, q.consumerGroup, q.search))
    {
    }
    if exists k :: 0 <= k < |p.targets| && Refuses(p.targets[k], q) {
      var k :| 0 <= k < |p.targets| && Refuses(p.targets[k], q);
      assert RuleAt(p, k, p.targets[k].value.key);
    }
  }

  lemma SuitsIs(p: Policy, c: Cluster, q: Query)
    ensures Suits(p, c, q) <==> SubMatches(p, c, q)
  {
    FitsIs(p, q.alertLevel);
    DomainAdmitsIs(p, c, q);
    NoDomainValuesIs(p);
    RefusesIs(p, q);
    if !p.promql {
      assert DomainHit(p.targets, false, c, q.search) <==> DomainHit(p.targets, p.promql, c, q.search);
    }
  }

  ghost predicate SubFor(p: Policy, c: Cluster, q: Query) {
    p.parentId != 0 && p.targetLevel != "appid" && Suits(p, c, q)
  }

  ghost predicate BizFor(p: Policy, q: Query) {
    p.parentId != 0 && p.targetLevel == "appid" && Fits(p, q.alertLevel)
  }

  ghost predicate ParentFor(p: Policy, q: Query) {
    p.parentId == 0 && Fits(p, q.alertLevel)
  }

  /** The i-th row is the cluster's policy: the earliest sub-policy that suits it; when there is none, the
      earliest business policy that fits; when there is none either, the earliest parent policy that fits. */
  ghost predicate Wins(all: seq<Policy>, i: int, c: Cluster, q: Query) {
    && 0 <= i < |all|
    && if exists j :: 0 <= j < |all| && SubFor(all[j], c, q) then
         SubFor(all[i], c, q) && forall j :: 0 <= j < i ==> !SubFor(all[j], c, q)
       else if exists j :: 0 <= j < |all| && BizFor(all[j], q) then
         BizFor(all[i], q) && forall j :: 0 <= j < i ==> !BizFor(all[j], q)
       else
         ParentFor(all[i], q) && forall j :: 0 <= j < i ==> !ParentFor(all[j], q)
  }

  /** Two sub-policies with different ids suit one of the clusters. */
  ghost predicate Contested(all: seq<Policy>, clusters: seq<Cluster>, q: Query) {
    exists i, j, c :: c in clusters && 0 <= i < |all| && 0 <= j < |all| && all[i].id != all[j].id
                      && SubFor(all[i], c, q) && SubFor(all[j], c, q)
  }

  /** The rules reported for a policy: all of them as they are, or those of the level asked for, in order. */
  ghost predicate ReportedAs(p: Policy, alertLevel: nat, rules: Option<seq<AlertRule>>) {
    if alertLevel == 0 then rules == p.testRules
    else p.testRules.Some? && rules.Some?
         && Picks(p.testRules.value, rules.value, (r: AlertRule) => r.level == alertLevel)
  }

  /** Every cluster that has a policy is answered with that policy's rules, the others are not answered, and
      without any answer there is None. */
  ghost predicate Outcome(r: Result<Option<map<int, Option<seq<AlertRule>>>>>, all: seq<Policy>,
                          clusters: seq<Cluster>, q: Query)
  {
    && r.Ok?
    && (r.value.None? <==> forall i, c :: c in clusters ==> !Wins(all, i, c, q))
    && (r.value.Some? ==>
          && (forall id :: id in r.value.value ==> exists c :: c in clusters && c.id == id)
          && (forall c :: c in clusters ==> (c.id in r.value.value <==> exists i :: Wins(all, i, c, q)))
          && (forall i, c :: c in clusters && Wins(all, i, c, q) ==>
                c.id in r.value.value && ReportedAs(all[i], q.alertLevel, r.value.value[c.id])))
  }

  lemma {:induction false} FirstOfFilter(ps: seq<Policy>, f: Policy -> bool, test: Policy -> bool)
    ensures First(Filter(ps, f), test) == First(ps, p => f(p) && test(p))
  {
    if ps != [] {
      var less, last := ps[..|ps| - 1], ps[|ps| - 1];
      FirstOfFilter(less, f, test);
      FirstAppend(less, last, p => f(p) && test(p));
      assert less + [last] == ps;
      if f(last) {
        FirstAppend(Filter(less, f), last, test);
        assert Filter(ps, f) == Filter(less, f) + [last];
      } else {
        assert Filter(ps, f) == Filter(less, f) + [] == Filter(less, f);
      }
    }
  }

  /** The place among all rows of what the rule finds in one of the groups, or -1. */
  lemma FirstAt(all: seq<Policy>, f: Policy -> bool, test: Policy -> bool, both: Policy -> bool) returns (i: int)
    requires forall p :: both(p) <==> f(p) && test(p)
    ensures if i < 0 then First(Filter(all, f), test) == None && forall j :: 0 <= j < |all| ==> !both(all[j])
            else i < |all| && First(Filter(all, f), test) == Some(all[i]) && both(all[i])
                 && forall j :: 0 <= j < i ==> !both(all[j])
  {
    FirstOfFilter(all, f, test);
    FirstFinds(all, p => f(p) && test(p));
    if First(Filter(all, f), test).Some? {
      var k :| 0 <= k < |all| && Some(all[k]) == First(Filter(all, f), test) && f(all[k]) && test(all[k])
               && forall j :: 0 <= j < k ==> !(f(all[j]) && test(all[j]));
      i := k;
    } else {
      i := -1;
    }
  }

  lemma SubAt(all: seq<Policy>, c: Cluster, q: Query) returns (i: int)
    ensures if i < 0 then FirstSub(Filter(all, IsSub), c, q) == None
                          && forall j :: 0 <= j < |all| ==> !SubFor(all[j], c, q)
            else i < |all| && FirstSub(Filter(all, IsSub), c, q) == Some(all[i]) && SubFor(all[i], c, q)
                 && forall j :: 0 <= j < i ==> !SubFor(all[j], c, q)
  {
    forall p: Policy
      ensures SubMatches(p, c, q) <==> Suits(p, c, q)
    {
      SuitsIs(p, c, q);
    }
    i := FirstAt(all, IsSub, p => SubMatches(p, c, q), p => SubFor(p, c, q));
  }

  lemma BizAt(all: seq<Policy>, q: Query) returns (i: int)
    ensures if i < 0 then FirstLevel(Filter(all, IsBiz), q) == None
                          && forall j :: 0 <= j < |all| ==> !BizFor(all[j], q)
            else i < |all| && FirstLevel(Filter(all, IsBiz), q) == Some(all[i]) && BizFor(all[i], q)
                 && forall j :: 0 <= j < i ==> !BizFor(all[j], q)
  {
    forall p: Policy
      ensures LevelMatched(p, q.alertLevel) <==> Fits(p, q.alertLevel)
    {
      FitsIs(p, q.alertLevel);
    }
    i := FirstAt(all, IsBiz, p => LevelMatched(p, q.alertLevel), p => BizFor(p, q));
  }

  lemma ParentAt(all: seq<Policy>, q: Query) returns (i: int)
    ensures if i < 0 then FirstLevel(Filter(all, IsParent), q) == None
                          && forall j :: 0 <= j < |all| ==> !ParentFor(all[j], q)
            else i < |all| && FirstLevel(Filter(all, IsParent), q) == Some(all[i]) && ParentFor(all[i], q)
                 && forall j :: 0 <= j < i ==> !ParentFor(all[j], q)
  {
    forall p: Policy
      ensures LevelMatched(p, q.alertLevel) <==> Fits(p, q.alertLevel)
    {
      FitsIs(p, q.alertLevel);
    }
    i := FirstAt(all, IsParent, p => LevelMatched(p, q.alertLevel), p => ParentFor(p, q));
  }

  /** A cluster has at most one policy. */
  lemma WinsOnce(all: seq<Policy>, i: int, j: int, c: Cluster, q: Query)
    requires Wins(all, i, c, q) && Wins(all, j, c, q)
    ensures i == j
  {
  }

  lemma AppliesAt(all: seq<Policy>, c: Cluster, q: Query) returns (i: int)
    ensures var r := Applies(Filter(all, IsSub), Filter(all, IsBiz), Filter(all, IsParent), c, q);
            if r.None? then forall k :: !Wins(all, k, c, q) else Wins(all, i, c, q) && r == Some(all[i])
  {
    i := SubAt(all, c, q);
    if i < 0 {
      i := BizAt(all, q);
      if i < 0 {
        i := ParentAt(all, q);
      }
    }
  }

  lemma AppliesWins(all: seq<Policy>, c: Cluster, q: Query)
    ensures var r := Applies(Filter(all, IsSub), Filter(all, IsBiz), Filter(all, IsParent), c, q);
            && (r.Some? <==> exists i :: Wins(all, i, c, q))
            && (forall i :: Wins(all, i, c, q) ==> r == Some(all[i]))
  {
    var i := AppliesAt(all, c, q);
    forall k | Wins(all, k, c, q) && Wins(all, i, c, q)
      ensures k == i
    {
      WinsOnce(all, i, k, c, q);
    }
  }

  lemma InGroup(all: seq<Policy>, x: Policy)
    ensures x in Filter(all, IsSub) <==> x in all && x.parentId != 0 && x.targetLevel != "appid"
  {
    FilterIn(all, IsSub);
  }

  lemma AmbiguousIsContested(all: seq<Policy>, clusters: seq<Cluster>, q: Query)
    ensures Ambiguous(Filter(all, IsSub), clusters, q) <==> Contested(all, clusters, q)
  {
    if Ambiguous(Filter(all, IsSub), clusters, q) {
      AmbiguousContests(all, Filter(all, IsSub), clusters, q);
    }
    if Contested(all, clusters, q) {
      ContestedAmbiguous(all, Filter(all, IsSub), clusters, q);
    }
  }

  lemma AmbiguousContests(all: seq<Policy>, subs: seq<Policy>, clusters: seq<Cluster>, q: Query)
    requires subs == Filter(all, IsSub) && Ambiguous(subs, clusters, q)
    ensures Contested(all, clusters, q)
  {
    var i, j, c :| c in clusters && Doubly(subs, i, j, c, q);
    var a, b := subs[i], subs[j];
    InGroup(all, a);
    InGroup(all, b);
    SuitsIs(a, c, q);
    SuitsIs(b, c, q);
    var i' :| 0 <= i' < |all| && all[i'] == a;
    var j' :| 0 <= j' < |all| && all[j'] == b;
    assert SubFor(all[i'], c, q) && SubFor(all[j'], c, q) && all[i'].id != all[j'].id;
  }

  lemma ContestedAmbiguous(all: seq<Policy>, subs: seq<Policy>, clusters: seq<Cluster>, q: Query)
    requires subs == Filter(all, IsSub) && Contested(all, clusters, q)
    ensures Ambiguous(subs, clusters, q)
  {
    var i, j, c :| c in clusters && 0 <= i < |all| && 0 <= j < |all| && all[i].id != all[j].id
                   && SubFor(all[i], c, q) && SubFor(all[j], c, q);
    var a, b := all[i], all[j];
    InGroup(all, a);
    InGroup(all, b);
    SuitsIs(a, c, q);
    SuitsIs(b, c, q);
    var i' :| 0 <= i' < |subs| && subs[i'] == a;
    var j' :| 0 <= j' < |subs| && subs[j'] == b;
    assert Doubly(subs, i', j', c, q);
  }

  lemma AnswersOutcome(r: Result<Option<map<int, Option<seq<AlertRule>>>>>, all: seq<Policy>,
                       clusters: seq<Cluster>, q: Query)
    requires Answers(r, Filter(all, IsSub), Filter(all, IsBiz), Filter(all, IsParent), clusters, q)
    ensures Outcome(r, all, clusters, q)
  {
    forall c | c in clusters
      ensures var a := Applies(Filter(all, IsSub), Filter(all, IsBiz), Filter(all, IsParent), c, q);
              && (a.Some? <==> exists i :: Wins(all, i, c, q))
              && (forall i :: Wins(all, i, c, q) ==> a == Some(all[i]))
    {
      AppliesWins(all, c, q);
    }
    forall p: Policy | LevelMatched(p, q.alertLevel)
      ensures ReportedAs(p, q.alertLevel, RulesOf(p, q.alertLevel))
    {
      if q.alertLevel != 0 {
        FilterPicks(p.testRules.value, (x: AlertRule) => x.level == q.alertLevel);
      }
    }
  }

  /** The rows are those the queries return: the enabled policies, newest first, and the clusters asked
      for. None is the answer when there is nothing to resolve or no policy applies. */
  method GetPolicyThreshold(clusterId: string, dbType: string, allPolicy: seq<Policy>, clusters: seq<Cluster>, q: Query)
    returns (r: Result<Option<map<int, Option<seq<AlertRule>>>>>)
    requires DistinctIds(clusters)
    ensures var subs, biz, parents := Filter(allPolicy, IsSub), Filter(allPolicy, IsBiz), Filter(allPolicy, IsParent);
            if clusterId == "" then r.Err?
            else if allPolicy == [] || clusters == [] || exists c :: c in clusters && c.dbType != dbType
            then r == Ok(None)
            else if Ambiguous(subs, clusters, q) then r.Err?
            else Answers(r, subs, biz, parents, clusters, q)
    ensures if clusterId == "" then r.Err?
            else if allPolicy == [] || clusters == [] || exists c :: c in clusters && c.dbType != dbType
            then r == Ok(None)
            else if Contested(allPolicy, clusters, q) then r.Err?
            else Outcome(r, allPolicy, clusters, q)
  {
    AmbiguousIsContested(allPolicy, clusters, q);
    if clusterId == "" {
      return Err("missing cluster id");
    }
    if allPolicy == [] {
      return Ok(None);
    }
    var parentPolicy, bizPolicy, subPolicy := ClassifyPolicy(allPolicy);
    if clusters == [] {
      return Ok(None);
    }
    if exists c | c in clusters :: c.dbType != dbType {
      return Ok(None);
    }
    var raised, targetPolicy := ResolveTable(subPolicy, bizPolicy, parentPolicy, clusters, q);
    if raised.Some? {
      return Err("several policies match one cluster");
    }
    HoldsAnswers(targetPolicy, map[], subPolicy, bizPolicy, parentPolicy, clusters, q);
    if targetPolicy == map[] {
      AnswersOutcome(Ok(None), allPolicy, clusters, q);
      return Ok(None);
    }
    var result := CollectRules(targetPolicy, q.alertLevel);
    HoldsAnswers(targetPolicy, result, subPolicy, bizPolicy, parentPolicy, clusters, q);
    AnswersOutcome(Ok(Some(result)), allPolicy, clusters, q);
    return Ok(Some(result));
  }

  /** With an alert level given, every reported list is non-empty and holds that level only. */
  lemma ReportedRulesNonEmpty(r: Result<Option<map<int, Option<seq<AlertRule>>>>>, subs: seq<Policy>, biz: seq<Policy>,
                              parents: seq<Policy>, clusters: seq<Cluster>, q: Query, id: int)
    requires Answers(r, subs, biz, parents, clusters, q) && q.alertLevel != 0
    requires r.value.Some? && id in r.value.value
    ensures r.value.value[id].Some? && r.value.value[id].value != []
    ensures forall x :: x in r.value.value[id].value ==> x.level == q.alertLevel
  {
    var c :| c in clusters && c.id == id;
    var p := Applies(subs, biz, parents, c, q).value;
    FilterIn(p.testRules.value, (r: AlertRule) => r.level == q.alertLevel);
    var x :| x in p.testRules.value && x.level == q.alertLevel;
    assert x in WithLevel(p.testRules.value, q.alertLevel);
  }

  /** The rule, spelled out: an unambiguous cluster gets the only sub-policy that matches it, by id; failing
      that the first business policy whose level fits, failing that the first such parent policy. */
  lemma AppliesIsPriority(subs: seq<Policy>, biz: seq<Policy>, parents: seq<Policy>,
                          clusters: seq<Cluster>, c: Cluster, q: Query)
    requires c in clusters && !Ambiguous(subs, clusters, q)
    ensures var r := Applies(subs, biz, parents, c, q);
            if exists i :: 0 <= i < |subs| && SubMatches(subs[i], c, q) then
              r.Some? && r.value in subs && SubMatches(r.value, c, q)
              && forall i :: 0 <= i < |subs| && SubMatches(subs[i], c, q) ==> subs[i].id == r.value.id
            else if exists i :: 0 <= i < |biz| && LevelMatched(biz[i], q.alertLevel) then
              exists i :: 0 <= i < |biz| && r == Some(biz[i]) && LevelMatched(biz[i], q.alertLevel)
                          && forall j :: 0 <= j < i ==> !LevelMatched(biz[j], q.alertLevel)
            else if exists i :: 0 <= i < |parents| && LevelMatched(parents[i], q.alertLevel) then
              exists i :: 0 <= i < |parents| && r == Some(parents[i]) && LevelMatched(parents[i], q.alertLevel)
                          && forall j :: 0 <= j < i ==> !LevelMatched(parents[j], q.alertLevel)
            else r == None
  {
    FirstFinds(subs, p => SubMatches(p, c, q));
    FirstFinds(biz, p => LevelMatched(p, q.alertLevel));
    FirstFinds(parents, p => LevelMatched(p, q.alertLevel));
    if FirstSub(subs, c, q).Some? {
      var f :| 0 <= f < |subs| && subs[f] == FirstSub(subs, c, q).value && SubMatches(subs[f], c, q);
      forall i | 0 <= i < |subs| && SubMatches(subs[i], c, q)
        ensures subs[i].id == subs[f].id
      {
        if subs[i].id != subs[f].id {
          assert Doubly(subs, i, f, c, q);
        }
      }
    }
  }

  // ---- the order of the sub-policies does not matter ----

  ghost predicate SamePolicies(a: seq<Policy>, b: seq<Policy>) {
    multiset(a) == multiset(b)
  }

  /** An id names one policy, as a primary key does. */
  ghost predicate KeyedById(ps: seq<Policy>) {
    forall i, j :: 0 <= i < |ps| && 0 <= j < |ps| && ps[i].id == ps[j].id ==> ps[i] == ps[j]
  }

  lemma InPermutation(a: seq<Policy>, b: seq<Policy>, i: nat) returns (j: nat)
    requires SamePolicies(a, b) && i < |a|
    ensures j < |b| && b[j] == a[i]
  {
    assert a[i] in multiset(a);
    assert a[i] in b;
    j :| 0 <= j < |b| && b[j] == a[i];
  }

  lemma AmbiguousPermuted(a: seq<Policy>, b: seq<Policy>, clusters: seq<Cluster>, q: Query)
    requires SamePolicies(a, b) && Ambiguous(a, clusters, q)
    ensures Ambiguous(b, clusters, q)
  {
    var i, j, c :| c in clusters && Doubly(a, i, j, c, q);
    var i' := InPermutation(a, b, i);
    var j' := InPermutation(a, b, j);
    assert Doubly(b, i', j', c, q);
  }

  /** Whether the request is ambiguous, and which policy applies to each cluster when it is not, are the
      same for every order of the sub-policies. */
  lemma OrderIrrelevant(a: seq<Policy>, b: seq<Policy>, biz: seq<Policy>, parents: seq<Policy>,
                        clusters: seq<Cluster>, q: Query)
    requires SamePolicies(a, b) && KeyedById(a)
    ensures Ambiguous(a, clusters, q) <==> Ambiguous(b, clusters, q)
    ensures !Ambiguous(a, clusters, q) ==>
              forall c :: c in clusters ==> Applies(a, biz, parents, c, q) == Applies(b, biz, parents, c, q)
  {
    if Ambiguous(a, clusters, q) {
      AmbiguousPermuted(a, b, clusters, q);
    } else if Ambiguous(b, clusters, q) {
      AmbiguousPermuted(b, a, clusters, q);
    } else {
      forall c | c in clusters
        ensures Applies(a, biz, parents, c, q) == Applies(b, biz, parents, c, q)
      {
        FirstSubPermuted(a, b, clusters, c, q);
      }
    }
  }

  /** The sub-policies of a list that match a cluster, when it is not ambiguous, are one policy. */
  lemma MatchIsFirst(ps: seq<Policy>, clusters: seq<Cluster>, c: Cluster, q: Query, i: nat)
    requires KeyedById(ps) && c in clusters && !Ambiguous(ps, clusters, q)
    requires i < |ps| && SubMatches(ps[i], c, q)
    ensures FirstSub(ps, c, q) == Some(ps[i])
  {
    FirstFinds(ps, p => SubMatches(p, c, q));
    var f :| 0 <= f < |ps| && Some(ps[f]) == FirstSub(ps, c, q) && SubMatches(ps[f], c, q);
    assert !Doubly(ps, f, i, c, q);
  }

  lemma FirstSubPermuted(a: seq<Policy>, b: seq<Policy>, clusters: seq<Cluster>, c: Cluster, q: Query)
    requires SamePolicies(a, b) && KeyedById(a) && c in clusters && !Ambiguous(a, clusters, q)
    ensures FirstSub(a, c, q) == FirstSub(b, c, q)
  {
    FirstFinds(a, p => SubMatches(p, c, q));
    FirstFinds(b, p => SubMatches(p, c, q));
    if FirstSub(b, c, q).Some? {
      var j :| 0 <= j < |b| && Some(b[j]) == FirstSub(b, c, q) && SubMatches(b[j], c, q);
      var i := InPermutation(b, a, j);
      MatchIsFirst(a, clusters, c, q, i);
    } else if FirstSub(a, c, q).Some? {
      var i :| 0 <= i < |a| && Some(a[i]) == FirstSub(a, c, q) && SubMatches(a[i], c, q);
      var j := InPermutation(a, b, i);
      assert false;
    }
  }
}
