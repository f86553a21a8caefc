/** Aggregating load samples: samples to targets, targets to machine types, machine types to clusters. */
module ClusterLoad {
  import opened Results
  import opened Sets

  datatype Status = High | Low | Normal

  /** One series' latest data point; the point may be missing. */
  datatype Sample = Sample(cluster: string, point: Option<int>)

  /** A target's limits: the built-in ones and the configured ones that override them. */
  datatype Target = Target(name: string, max: int, min: int, ruleMax: Option<int>, ruleMin: Option<int>)

  /** What is asked for a cluster type: its machine types, each machine type's targets, and the series the
      monitor returns for each. */
  datatype Setup = Setup(machines: seq<string>, targets: string -> seq<Target>, series: (string, string) -> seq<Sample>)
  {
    ghost predicate Valid() {
      && (forall i, j :: 0 <= i < j < |machines| ==> machines[i] != machines[j])
      && (forall m :: m in machines ==> DistinctNames(targets(m)))
    }
  }

  ghost predicate DistinctNames(ts: seq<Target>) {
    forall i, j :: 0 <= i < j < |ts| ==> ts[i].name != ts[j].name
  }

  /** Cluster, machine type, target: the status the last usable sample gave. */
  type Loads = map<string, map<string, map<string, Status>>>

  // ---- what one target says of a cluster ----

  predicate Usable(s: Sample) {
    s.point.Some? && s.point.value != 0
  }

  /** The last sample of a cluster that is present and not zero. */
  function LastPoint(samples: seq<Sample>, cluster: string): Option<int> {
    if samples == [] then None
    else
      var s := samples[|samples| - 1];
      if s.cluster == cluster && Usable(s) then s.point else LastPoint(samples[..|samples| - 1], cluster)
  }

  function MaxOf(t: Target): int {
    if t.ruleMax.Some? then t.ruleMax.value else t.max
  }

  function MinOf(t: Target): int {
    if t.ruleMin.Some? then t.ruleMin.value else t.min
  }

  function Classify(point: int, t: Target): Status {
    if point > MaxOf(t) then High else if point < MinOf(t) then Low else Normal
  }

  function Verdict(samples: seq<Sample>, t: Target, cluster: string): Option<Status> {
    match LastPoint(samples, cluster)
    case None => None
    case Some(p) => Some(Classify(p, t))
  }

  // ---- the flat rule ----

  /** From a position on the cluster has no load: its points are missing or zero. */
  ghost predicate QuietFrom(samples: seq<Sample>, c: string, from: nat) {
    forall j :: from <= j < |samples| && samples[j].cluster == c ==> samples[j].point in {None, Some(0)}
  }

  /** The load p is the cluster's last in the series: the last of its points that is present and not zero. */
  ghost predicate IsLast(samples: seq<Sample>, c: string, p: int) {
    exists k :: 0 <= k < |samples| && samples[k] == Sample(c, Some(p)) && p != 0 && QuietFrom(samples, c, k + 1)
  }

  /** Some target's last sample is above its maximum, the configured one if there is one. */
  ghost predicate Above(cfg: Setup, c: string, m: string) {
    exists t, p :: t in cfg.targets(m) && IsLast(cfg.series(m, t.name), c, p)
                   && p > (if t.ruleMax.Some? then t.ruleMax.value else t.max)
  }

  ghost predicate Sampled(cfg: Setup, c: string, m: string) {
    exists t, p :: t in cfg.targets(m) && IsLast(cfg.series(m, t.name), c, p)
  }

  /** Every sampled target's last sample is below its minimum and not above its maximum. */
  ghost predicate AllBelow(cfg: Setup, c: string, m: string) {
    forall t, p :: t in cfg.targets(m) && IsLast(cfg.series(m, t.name), c, p) ==>
      && p < (if t.ruleMin.Some? then t.ruleMin.value else t.min)
      && p <= (if t.ruleMax.Some? then t.ruleMax.value else t.max)
  }

  /** Some target of some machine type is above its maximum. */
  ghost predicate Overloaded(cfg: Setup, c: string) {
    exists m :: m in cfg.machines && Above(cfg, c, m)
  }

  /** Every machine type has a sampled target and only targets below their minimum. */
  ghost predicate Idle(cfg: Setup, c: string) {
    forall m :: m in cfg.machines ==> Sampled(cfg, c, m) && AllBelow(cfg, c, m)
  }

  ghost predicate Reported(cfg: Setup, cluster: string) {
    exists m :: m in cfg.machines && Sampled(cfg, cluster, m)
  }

  /** The search from the end finds the last load, and there is no other. */
  lemma {:induction false} LastPointIs(samples: seq<Sample>, c: string, p: int)
    ensures IsLast(samples, c, p) <==> LastPoint(samples, c) == Some(p)
  {
    if samples != [] {
      var less, n := samples[..|samples| - 1], |samples| - 1;
      LastPointIs(less, c, p);
      if samples[n].cluster == c && Usable(samples[n]) {
        LastLoadIs(samples, c, p);
      } else {
        LastLoadBefore(samples, c, p);
      }
    }
  }

  lemma LastLoadIs(samples: seq<Sample>, c: string, p: int)
    requires samples != [] && samples[|samples| - 1].cluster == c && Usable(samples[|samples| - 1])
    ensures IsLast(samples, c, p) <==> samples[|samples| - 1].point == Some(p)
  {
    var n := |samples| - 1;
    if IsLast(samples, c, p) {
      var k :| 0 <= k < |samples| && samples[k] == Sample(c, Some(p)) && p != 0 && QuietFrom(samples, c, k + 1);
      assert k == n;
    }
    assert QuietFrom(samples, c, n + 1);
    assert samples[n] == Sample(c, samples[n].point);
  }

  lemma LastLoadBefore(samples: seq<Sample>, c: string, p: int)
    requires samples != [] && !(samples[|samples| - 1].cluster == c && Usable(samples[|samples| - 1]))
    ensures IsLast(samples, c, p) <==> IsLast(samples[..|samples| - 1], c, p)
  {
    var less, n := samples[..|samples| - 1], |samples| - 1;
    if IsLast(samples, c, p) {
      var k :| 0 <= k < |samples| && samples[k] == Sample(c, Some(p)) && p != 0 && QuietFrom(samples, c, k + 1);
      assert k < n && less[k] == samples[k];
      QuietBefore(samples, c, k + 1);
    }
    if IsLast(less, c, p) {
      var k :| 0 <= k < n && less[k] == Sample(c, Some(p)) && p != 0 && QuietFrom(less, c, k + 1);
      assert samples[k] == less[k];
      QuietBefore(samples, c, k + 1);
    }
  }

  lemma QuietBefore(samples: seq<Sample>, c: string, from: nat)
    requires samples != [] && !(samples[|samples| - 1].cluster == c && Usable(samples[|samples| - 1]))
    ensures QuietFrom(samples, c, from) <==> QuietFrom(samples[..|samples| - 1], c, from)
  {
    var less := samples[..|samples| - 1];
    assert forall j :: 0 <= j < |less| ==> less[j] == samples[j];
  }

  /** What the verdict on a target says of its last load. */
  lemma VerdictIs(samples: seq<Sample>, t: Target, c: string)
    ensures var most := if t.ruleMax.Some? then t.ruleMax.value else t.max;
            var least := if t.ruleMin.Some? then t.ruleMin.value else t.min;
            && (Verdict(samples, t, c) == Some(High) <==> exists p :: IsLast(samples, c, p) && p > most)
            && (Verdict(samples, t, c) == Some(Low) <==> exists p :: IsLast(samples, c, p) && p < least && p <= most)
            && (Verdict(samples, t, c).Some? <==> exists p :: IsLast(samples, c, p))
            && forall p, q :: IsLast(samples, c, p) && IsLast(samples, c, q) ==> p == q
  {
    forall p
      ensures IsLast(samples, c, p) <==> LastPoint(samples, c) == Some(p)
    {
      LastPointIs(samples, c, p);
    }
    if LastPoint(samples, c).Some? {
      assert IsLast(samples, c, LastPoint(samples, c).value);
    }
  }

  /** The flat rule of a machine type in terms of its targets' verdicts. */
  lemma MachineMeans(cfg: Setup, c: string, m: string)
    ensures Above(cfg, c, m) <==>
              exists t :: t in cfg.targets(m) && Verdict(cfg.series(m, t.name), t, c) == Some(High)
    ensures Sampled(cfg, c, m) <==> exists t :: t in cfg.targets(m) && Verdict(cfg.series(m, t.name), t, c).Some?
    ensures AllBelow(cfg, c, m) <==>
              forall t :: t in cfg.targets(m) ==> Verdict(cfg.series(m, t.name), t, c) in {None, Some(Low)}
  {
    forall t | t in cfg.targets(m)
      ensures var v := Verdict(cfg.series(m, t.name), t, c);
              && (v == Some(High) <==> exists p :: IsLast(cfg.series(m, t.name), c, p)
                                                   && p > (if t.ruleMax.Some? then t.ruleMax.value else t.max))
              && (v.Some? <==> exists p :: IsLast(cfg.series(m, t.name), c, p))
              && (v in {None, Some(Low)} <==>
                    forall p :: IsLast(cfg.series(m, t.name), c, p) ==>
                      && p < (if t.ruleMin.Some? then t.ruleMin.value else t.min)
                      && p <= (if t.ruleMax.Some? then t.ruleMax.value else t.max))
    {
      VerdictIs(cfg.series(m, t.name), t, c);
    }
  }

  lemma SampledIs(cfg: Setup, c: string, m: string)
    ensures var ts := cfg.targets(m);
            Sampled(cfg, c, m) <==> exists i :: 0 <= i < |ts| && LastPoint(cfg.series(m, ts[i].name), c).Some?
  {
    var ts := cfg.targets(m);
    MachineMeans(cfg, c, m);
    if Sampled(cfg, c, m) {
      var t :| t in ts && Verdict(cfg.series(m, t.name), t, c).Some?;
      var i :| 0 <= i < |ts| && ts[i] == t;
      assert LastPoint(cfg.series(m, ts[i].name), c).Some?;
    }
    if exists i :: 0 <= i < |ts| && LastPoint(cfg.series(m, ts[i].name), c).Some? {
      var i :| 0 <= i < |ts| && LastPoint(cfg.series(m, ts[i].name), c).Some?;
      assert ts[i] in ts && Verdict(cfg.series(m, ts[i].name), ts[i], c).Some?;
    }
  }

  // ---- the table the loops fill ----

  function StatusOf(l: Loads, c: string, m: string, t: string): Option<Status> {
    if c in l && m in l[c] && t in l[c][m] then Some(l[c][m][t]) else None
  }

  ghost predicate Shaped(l: Loads, machines: seq<string>) {
    forall c :: c in l ==> forall m :: m in l[c] <==> m in machines
  }

  function Template(machines: seq<string>): map<string, map<string, Status>> {
    map m | m in machines :: map[]
  }

  /** Setting one status, starting a cluster from the template. */
  function Put(l: Loads, machines: seq<string>, c: string, m: string, t: string, s: Status): Loads
    requires Shaped(l, machines) && m in machines
  {
    var row := if c in l then l[c] else Template(machines);
    l[c := row[m := row[m][t := s]]]
  }

  lemma PutShaped(l: Loads, machines: seq<string>, c: string, m: string, t: string, s: Status)
    requires Shaped(l, machines) && m in machines
    ensures Shaped(Put(l, machines, c, m, t, s), machines)
  {
  }

  lemma PutAt(l: Loads, machines: seq<string>, c: string, m: string, t: string, s: Status,
              c': string, m': string, t': string)
    requires Shaped(l, machines) && m in machines
    ensures var l' := Put(l, machines, c, m, t, s);
            && (c' in l' <==> c' in l || c' == c)
            && StatusOf(l', c', m', t') == if c' == c && m' == m && t' == t then Some(s) else StatusOf(l, c', m', t')
  {
  }

  ghost function Or(a: Option<Status>, b: Option<Status>): Option<Status> {
    if a.Some? then a else b
  }

  /** The table after a series, sample by sample. */
  function Records(l: Loads, machines: seq<string>, m: string, t: Target, samples: seq<Sample>): (r: Loads)
    requires Shaped(l, machines) && m in machines
    ensures Shaped(r, machines)
  {
    if samples == [] then l
    else
      var before, s := Records(l, machines, m, t, samples[..|samples| - 1]), samples[|samples| - 1];
      if Usable(s) then
        PutShaped(before, machines, s.cluster, m, t.name, Classify(s.point.value, t));
        Put(before, machines, s.cluster, m, t.name, Classify(s.point.value, t))
      else before
  }

  /** A series sets, for its own machine type and target only, each cluster's status to its last usable
      sample's. */
  lemma {:induction false} RecordsLast(l: Loads, machines: seq<string>, m: string, t: Target, samples: seq<Sample>,
                                       c: string, m': string, t': string)
    requires Shaped(l, machines) && m in machines
    ensures StatusOf(Records(l, machines, m, t, samples), c, m', t') ==
              if m' == m && t' == t.name then Or(Verdict(samples, t, c), StatusOf(l, c, m', t'))
              else StatusOf(l, c, m', t')
    ensures c in Records(l, machines, m, t, samples) <==> c in l || LastPoint(samples, c).Some?
  {
    if samples != [] {
      var less, s := samples[..|samples| - 1], samples[|samples| - 1];
      RecordsLast(l, machines, m, t, less, c, m', t');
      if Usable(s) {
        PutAt(Records(l, machines, m, t, less), machines, s.cluster, m, t.name, Classify(s.point.value, t), c, m', t');
      }
    }
  }

  /** The table holds every target's verdict on the cluster, and nothing else. */
  ghost predicate Filled(cfg: Setup, l: Loads, c: string, m: string) {
    && (forall t :: t in cfg.targets(m) ==> StatusOf(l, c, m, t.name) == Verdict(cfg.series(m, t.name), t, c))
    && (forall t' :: (forall t :: t in cfg.targets(m) ==> t.name != t') ==> StatusOf(l, c, m, t') == None)
  }

  /** The table after one machine type's targets, in turn. */
  function RecordsTargets(l: Loads, machines: seq<string>, cfg: Setup, m: string, ts: seq<Target>): (r: Loads)
    requires Shaped(l, machines) && m in machines
    ensures Shaped(r, machines)
  {
    if ts == [] then l
    else
      var t := ts[|ts| - 1];
      Records(RecordsTargets(l, machines, cfg, m, ts[..|ts| - 1]), machines, m, t, cfg.series(m, t.name))
  }

  /** Recording a machine type's targets leaves every other status alone. */
  lemma {:induction false} RecordsTargetsElsewhere(l: Loads, machines: seq<string>, cfg: Setup, m: string,
                                                   ts: seq<Target>, c: string, m': string, t': string)
    requires Shaped(l, machines) && m in machines
    requires m' != m || forall i :: 0 <= i < |ts| ==> ts[i].name != t'
    ensures StatusOf(RecordsTargets(l, machines, cfg, m, ts), c, m', t') == StatusOf(l, c, m', t')
  {
    if ts != [] {
      var less, t := ts[..|ts| - 1], ts[|ts| - 1];
      RecordsTargetsElsewhere(l, machines, cfg, m, less, c, m', t');
      RecordsLast(RecordsTargets(l, machines, cfg, m, less), machines, m, t, cfg.series(m, t.name), c, m', t');
    }
  }

  /** It gives each target its verdict. */
  lemma {:induction false} RecordsTargetsAt(l: Loads, machines: seq<string>, cfg: Setup, m: string, ts: seq<Target>,
                                            c: string, i: nat)
    requires Shaped(l, machines) && m in machines && DistinctNames(ts) && i < |ts|
    requires StatusOf(l, c, m, ts[i].name) == None
    ensures StatusOf(RecordsTargets(l, machines, cfg, m, ts), c, m, ts[i].name)
         == Verdict(cfg.series(m, ts[i].name), ts[i], c)
  {
    var less, t, name := ts[..|ts| - 1], ts[|ts| - 1], ts[i].name;
    assert DistinctNames(less);
    if i < |less| {
      assert less[i] == ts[i] && t.name != name;
      RecordsTargetsAt(l, machines, cfg, m, less, c, i);
    } else {
      RecordsTargetsElsewhere(l, machines, cfg, m, less, c, m, name);
    }
    RecordsLast(RecordsTargets(l, machines, cfg, m, less), machines, m, t, cfg.series(m, t.name), c, m, name);
  }

  /** Which clusters a machine type's targets put into the table. */
  lemma {:induction false} RecordsTargetsIn(l: Loads, machines: seq<string>, cfg: Setup, m: string, ts: seq<Target>,
                                            c: string)
    requires Shaped(l, machines) && m in machines
    ensures c in RecordsTargets(l, machines, cfg, m, ts) <==>
              c in l || exists i :: 0 <= i < |ts| && LastPoint(cfg.series(m, ts[i].name), c).Some?
  {
    if ts != [] {
      var less, t := ts[..|ts| - 1], ts[|ts| - 1];
      RecordsTargetsIn(l, machines, cfg, m, less, c);
      RecordsLast(RecordsTargets(l, machines, cfg, m, less), machines, m, t, cfg.series(m, t.name), c, m, t.name);
      assert forall i :: 0 <= i < |less| ==> ts[i] == less[i];
    }
  }

  lemma RecordsMachine(l: Loads, machines: seq<string>, cfg: Setup, m: string, c: string)
    requires Shaped(l, machines) && m in machines && DistinctNames(cfg.targets(m))
    requires forall t' :: StatusOf(l, c, m, t') == None
    ensures var r := RecordsTargets(l, machines, cfg, m, cfg.targets(m));
            && (forall m', t' :: m' != m ==> StatusOf(r, c, m', t') == StatusOf(l, c, m', t'))
            && Filled(cfg, r, c, m)
            && (c in r <==> c in l || Sampled(cfg, c, m))
  {
    var ts := cfg.targets(m);
    var r := RecordsTargets(l, machines, cfg, m, ts);
    forall m', t' | m' != m || forall t :: t in ts ==> t.name != t'
      ensures StatusOf(r, c, m', t') == StatusOf(l, c, m', t')
    {
      RecordsTargetsElsewhere(l, machines, cfg, m, ts, c, m', t');
    }
    forall t | t in ts
      ensures StatusOf(r, c, m, t.name) == Verdict(cfg.series(m, t.name), t, c)
    {
      var i :| 0 <= i < |ts| && ts[i] == t;
      RecordsTargetsAt(l, machines, cfg, m, ts, c, i);
    }
    RecordsTargetsIn(l, machines, cfg, m, ts, c);
    SampledIs(cfg, c, m);
  }

  lemma FilledKept(cfg: Setup, l: Loads, l': Loads, c: string, m: string)
    requires Filled(cfg, l, c, m) && forall t' :: StatusOf(l', c, m, t') == StatusOf(l, c, m, t')
    ensures Filled(cfg, l', c, m)
  {
  }

  /** A cluster's part of the table once the first k machine types are done. */
  ghost predicate Upto(cfg: Setup, l: Loads, k: nat, c: string)
    requires k <= |cfg.machines|
  {
    && (forall i :: 0 <= i < k ==> Filled(cfg, l, c, cfg.machines[i]))
    && (forall i, t :: k <= i < |cfg.machines| ==> StatusOf(l, c, cfg.machines[i], t) == None)
    && (c in l <==> exists i :: 0 <= i < k && Sampled(cfg, c, cfg.machines[i]))
  }

  lemma UptoNext(cfg: Setup, l: Loads, k: nat, c: string)
    requires cfg.Valid() && k < |cfg.machines| && Shaped(l, cfg.machines) && Upto(cfg, l, k, c)
    ensures var m := cfg.machines[k];
            Upto(cfg, RecordsTargets(l, cfg.machines, cfg, m, cfg.targets(m)), k + 1, c)
  {
    var m := cfg.machines[k];
    var r := RecordsTargets(l, cfg.machines, cfg, m, cfg.targets(m));
    RecordsMachine(l, cfg.machines, cfg, m, c);
    forall i | 0 <= i < k
      ensures Filled(cfg, r, c, cfg.machines[i])
    {
      FilledKept(cfg, l, r, c, cfg.machines[i]);
    }
    forall i, t | k < i < |cfg.machines|
      ensures StatusOf(r, c, cfg.machines[i], t) == None
    {
      assert StatusOf(l, c, cfg.machines[i], t) == None;
    }
  }

  class LoadTable {
    const machines: seq<string>
    var loads: Loads

    ghost predicate Valid()
      reads this
    {
      Shaped(loads, machines)
    }

    constructor (machines: seq<string>)
      ensures Valid() && loads == map[] && this.machines == machines
    {
      this.machines, loads := machines, map[];
    }

    /** The innermost loop: every usable sample of a series sets its cluster's status. */
    method RecordSeries(m: string, t: Target, samples: seq<Sample>)
      requires Valid() && m in machines
      modifies this
      ensures Valid() && loads == Records(old(loads), machines, m, t, samples)
    {
      for k := 0 to |samples|
        invariant Valid() && loads == Records(old(loads), machines, m, t, samples[..k])
      {
        assert samples[..k + 1][..k] == samples[..k];
        var data := samples[k];
        if !Usable(data) {
          continue;
        }
        var dataPoint := data.point.value;
        var status := if dataPoint > MaxOf(t) then High else if dataPoint < MinOf(t) then Low else Normal;
        PutShaped(loads, machines, data.cluster, m, t.name, status);
        loads := Put(loads, machines, data.cluster, m, t.name, status);
      }
      assert samples[..|samples|] == samples;
    }

    /** One machine type: each of its targets in turn. */
    method RecordMachine(cfg: Setup, m: string)
      requires Valid() && m in machines
      modifies this
      ensures Valid() && loads == RecordsTargets(old(loads), machines, cfg, m, cfg.targets(m))
    {
      var ts := cfg.targets(m);
      for k := 0 to |ts|
        invariant Valid() && loads == RecordsTargets(old(loads), machines, cfg, m, ts[..k])
      {
        assert ts[..k + 1][..k] == ts[..k];
        RecordSeries(m, ts[k], cfg.series(m, ts[k].name));
      }
      assert ts[..|ts|] == ts;
    }

    /** The outer loop over the machine types. */
    method RecordAll(cfg: Setup)
      requires Valid() && cfg.Valid() && machines == cfg.machines && loads == map[]
      modifies this
      ensures Valid()
      ensures forall c, m :: m in cfg.machines ==> Filled(cfg, loads, c, m)
      ensures forall c :: c in loads <==> Reported(cfg, c)
    {
      for k := 0 to |machines|
        invariant Valid() && forall c :: Upto(cfg, loads, k, c)
      {
        ghost var before, n: nat := loads, k + 1;
        RecordMachine(cfg, machines[k]);
        forall c
          ensures Upto(cfg, loads, n, c)
        {
          assert Upto(cfg, before, k, c);
          UptoNext(cfg, before, k, c);
        }
      }
      forall c
        ensures c in loads <==> Reported(cfg, c)
      {
        assert Upto(cfg, loads, |machines|, c);
      }
      forall c, m | m in cfg.machines
        ensures Filled(cfg, loads, c, m)
      {
        assert Upto(cfg, loads, |machines|, c);
      }
    }
  }

  // ---- aggregation ----

  /** High when any is high, low when there are some and all are low. */
  function Aggregate(statuses: set<Status>): Status {
    if High in statuses then High
    else if statuses == {Low} then Low
    else Normal
  }

  /** A cluster's line in the report. */
  datatype Summary = Summary(machines: map<string, Status>, status: Status)

  function Statuses(row: map<string, Status>): set<Status> {
    set t | t in row :: row[t]
  }

  /** Each machine type's status, then the cluster's from those. */
  method SummariseCluster(row: map<string, map<string, Status>>, machines: seq<string>) returns (s: Summary)
    requires forall m :: m in row <==> m in machines
    ensures s.machines == map m | m in row :: Aggregate(Statuses(row[m]))
    ensures s.status == Aggregate(Statuses(s.machines))
  {
    var byMachine: map<string, Status> := map[];
    for k := 0 to |machines|
      invariant byMachine == map m | m in machines[..k] :: Aggregate(Statuses(row[m]))
    {
      assert machines[..k + 1] == machines[..k] + [machines[k]];
      byMachine := byMachine[machines[k] := Aggregate(Statuses(row[machines[k]]))];
    }
    assert machines[..|machines|] == machines;
    s := Summary(byMachine, Aggregate(Statuses(byMachine)));
  }

  lemma TargetNamed(cfg: Setup, l: Loads, c: string, m: string, t': string) returns (t: Target)
    requires c in l && m in l[c] && t' in l[c][m] && Filled(cfg, l, c, m)
    ensures t in cfg.targets(m) && t.name == t'
    ensures Some(l[c][m][t']) == Verdict(cfg.series(m, t.name), t, c)
  {
    assert StatusOf(l, c, m, t') == Some(l[c][m][t']);
    t :| t in cfg.targets(m) && t.name == t';
  }

  lemma MachineHigh(cfg: Setup, l: Loads, c: string, m: string)
    requires c in l && m in l[c] && Filled(cfg, l, c, m)
    ensures Aggregate(Statuses(l[c][m])) == High <==> Above(cfg, c, m)
  {
    MachineMeans(cfg, c, m);
    if Aggregate(Statuses(l[c][m])) == High {
      var t' :| t' in l[c][m] && l[c][m][t'] == High;
      var t := TargetNamed(cfg, l, c, m, t');
    }
    if Above(cfg, c, m) {
      var t :| t in cfg.targets(m) && Verdict(cfg.series(m, t.name), t, c) == Some(High);
      assert StatusOf(l, c, m, t.name) == Some(High);
      assert l[c][m][t.name] in Statuses(l[c][m]);
    }
  }

  lemma MachineLow(cfg: Setup, l: Loads, c: string, m: string)
    requires c in l && m in l[c] && Filled(cfg, l, c, m)
    ensures Aggregate(Statuses(l[c][m])) == Low <==> Sampled(cfg, c, m) && AllBelow(cfg, c, m)
  {
    var row := l[c][m];
    MachineMeans(cfg, c, m);
    if Aggregate(Statuses(row)) == Low {
      assert Low in Statuses(row);
      var t' :| t' in row && row[t'] == Low;
      var t0 := TargetNamed(cfg, l, c, m, t');
      forall t | t in cfg.targets(m)
        ensures Verdict(cfg.series(m, t.name), t, c) in {None, Some(Low)}
      {
        if StatusOf(l, c, m, t.name).Some? {
          assert row[t.name] in Statuses(row);
        }
      }
    }
    if Sampled(cfg, c, m) && AllBelow(cfg, c, m) {
      var t0 :| t0 in cfg.targets(m) && Verdict(cfg.series(m, t0.name), t0, c).Some?;
      assert StatusOf(l, c, m, t0.name) == Some(Low);
      assert row[t0.name] in Statuses(row);
      forall s | s in Statuses(row)
        ensures s == Low
      {
        var t' :| t' in row && row[t'] == s;
        var t := TargetNamed(cfg, l, c, m, t');
      }
      assert Statuses(row) == {Low};
    }
  }

  /** The two-level aggregation is the flat rule. */
  lemma ClusterRule(cfg: Setup, l: Loads, c: string, byMachine: map<string, Status>)
    requires cfg.machines != [] && c in l && Shaped(l, cfg.machines)
    requires forall m :: m in cfg.machines ==> Filled(cfg, l, c, m)
    requires byMachine == map m | m in l[c] :: Aggregate(Statuses(l[c][m]))
    ensures Aggregate(Statuses(byMachine)) == High <==> Overloaded(cfg, c)
    ensures Aggregate(Statuses(byMachine)) == Low <==> Idle(cfg, c)
  {
    forall m | m in cfg.machines
      ensures byMachine[m] == High <==> Above(cfg, c, m)
      ensures byMachine[m] == Low <==> Sampled(cfg, c, m) && AllBelow(cfg, c, m)
      ensures byMachine[m] in Statuses(byMachine)
    {
      MachineHigh(cfg, l, c, m);
      MachineLow(cfg, l, c, m);
    }
    assert forall m :: m in byMachine <==> m in cfg.machines;
    MachinesRule(cfg, c, byMachine);
  }

  lemma MachinesRule(cfg: Setup, c: string, byMachine: map<string, Status>)
    requires cfg.machines != [] && forall m :: m in byMachine <==> m in cfg.machines
    requires forall m :: m in cfg.machines ==>
               && (byMachine[m] == High <==> Above(cfg, c, m))
               && (byMachine[m] == Low <==> Sampled(cfg, c, m) && AllBelow(cfg, c, m))
    ensures Aggregate(Statuses(byMachine)) == High <==> Overloaded(cfg, c)
    ensures Aggregate(Statuses(byMachine)) == Low <==> Idle(cfg, c)
  {
    assert forall m :: m in byMachine ==> byMachine[m] in Statuses(byMachine);
    assert cfg.machines[0] in cfg.machines;
    if Idle(cfg, c) {
      assert byMachine[cfg.machines[0]] == Low;
      assert Statuses(byMachine) == {Low};
    }
  }

  /** A cluster's line says what the flat rule says, of the cluster and of each of its machine types. */
  ghost predicate Rightly(cfg: Setup, c: string, s: Summary) {
    && (s.status == High <==> Overloaded(cfg, c))
    && (s.status == Low <==> Idle(cfg, c))
    && (forall m :: m in s.machines <==> m in cfg.machines)
    && (forall m :: m in cfg.machines ==>
          && (s.machines[m] == High <==> Above(cfg, c, m))
          && (s.machines[m] == Low <==> Sampled(cfg, c, m) && AllBelow(cfg, c, m)))
  }

  lemma SummaryRight(cfg: Setup, l: Loads, c: string, s: Summary)
    requires cfg.machines != [] && c in l && Shaped(l, cfg.machines)
    requires forall m :: m in cfg.machines ==> Filled(cfg, l, c, m)
    requires s.machines == map m | m in l[c] :: Aggregate(Statuses(l[c][m]))
    requires s.status == Aggregate(Statuses(s.machines))
    ensures Rightly(cfg, c, s)
  {
    ClusterRule(cfg, l, c, s.machines);
    forall m | m in cfg.machines
      ensures s.machines[m] == High <==> Above(cfg, c, m)
      ensures s.machines[m] == Low <==> Sampled(cfg, c, m) && AllBelow(cfg, c, m)
    {
      MachineHigh(cfg, l, c, m);
      MachineLow(cfg, l, c, m);
    }
  }

  /** The table's entry for a target: high when its last load is above the maximum, else low when that is
      below the minimum, else normal, and none when it has no load. */
  ghost predicate TargetRightly(cfg: Setup, l: Loads, c: string, m: string, t: Target) {
    var most := if t.ruleMax.Some? then t.ruleMax.value else t.max;
    var least := if t.ruleMin.Some? then t.ruleMin.value else t.min;
    && (StatusOf(l, c, m, t.name) == None <==> !exists p :: IsLast(cfg.series(m, t.name), c, p))
    && forall p :: IsLast(cfg.series(m, t.name), c, p) ==>
         StatusOf(l, c, m, t.name) == Some(if p > most then High else if p < least then Low else Normal)
  }

  lemma FilledRightly(cfg: Setup, l: Loads, c: string, m: string, t: Target)
    requires Filled(cfg, l, c, m) && t in cfg.targets(m)
    ensures TargetRightly(cfg, l, c, m, t)
  {
    VerdictIs(cfg.series(m, t.name), t, c);
  }

  /** The report and the table it was made from: a cluster is in both when some target of it was sampled;
      it is high exactly when overloaded and low exactly when idle, each of its machine types exactly when
      its own targets are, and the table holds every target's verdict and nothing else. */
  method QueryClusterLoad(cfg: Setup) returns (report: map<string, Summary>, loads: Loads)
    requires cfg.Valid()
    ensures forall c :: c in report <==> Reported(cfg, c)
    ensures forall c :: c in report ==> Rightly(cfg, c, report[c])
    ensures forall c :: c in loads <==> Reported(cfg, c)
    ensures Shaped(loads, cfg.machines)
    ensures forall c, m, t :: m in cfg.machines && t in cfg.targets(m) ==> TargetRightly(cfg, loads, c, m, t)
    ensures forall c, m, t' :: m in cfg.machines && (forall t :: t in cfg.targets(m) ==> t.name != t') ==>
              StatusOf(loads, c, m, t') == None
  {
    var table := new LoadTable(cfg.machines);
    table.RecordAll(cfg);
    loads := table.loads;
    forall c, m, t | m in cfg.machines && t in cfg.targets(m)
      ensures TargetRightly(cfg, loads, c, m, t)
    {
      FilledRightly(cfg, loads, c, m, t);
    }
    forall c, m, t' | m in cfg.machines && forall t :: t in cfg.targets(m) ==> t.name != t'
      ensures StatusOf(loads, c, m, t') == None
    {
      assert Filled(cfg, loads, c, m);
    }
    report := map[];
    var todo: set<string> := loads.Keys;
    while todo != {}
      invariant todo <= loads.Keys
      invariant forall c :: c in report <==> c in loads && c !in todo
      invariant forall c :: c in report ==> Rightly(cfg, c, report[c])
      decreases todo
    {
      StringMember(todo);
      var c :| c in todo;
      assert cfg.machines != [];
      var s := SummariseCluster(loads[c], cfg.machines);
      SummaryRight(cfg, loads, c, s);
      report := report[c := s];
      todo := todo - {c};
    }
  }
}
