/** Moving the hosts already in use, and then the resource hosts, into the pool table page by page. */
module Migration {
  import opened Results
  import opened HostPool

  const SIZE: nat := 200

  /** One page of hosts and the pool its hosts are left in. */
  datatype Batch = Batch(hosts: seq<HostId>, pool: Option<Pool>)

  /** A page is created when the table knows none of its hosts; otherwise only the known ones are updated. */
  function Import(rows: Rows, b: Batch): Rows {
    if NoneKnown(b.hosts, rows) then
      map h | h in rows.Keys + (set x | x in b.hosts) :: if h in b.hosts then b.pool else rows[h]
    else map h | h in rows :: if h in b.hosts then b.pool else rows[h]
  }

  function ImportAll(rows: Rows, bs: seq<Batch>): Rows
    decreases |bs|
  {
    if bs == [] then rows else Import(ImportAll(rows, bs[..|bs| - 1]), bs[|bs| - 1])
  }

  // ---- pages ----

  function Min(a: nat, b: nat): nat {
    if a < b then a else b
  }

  /** Python's slice [page * size : (page + 1) * size]. */
  function Page(hosts: seq<HostId>, page: nat): seq<HostId> {
    hosts[Min(page * SIZE, |hosts|)..Min((page + 1) * SIZE, |hosts|)]
  }

  /** ceil(count / size) */
  function PageCount(count: nat): nat {
    (count + SIZE - 1) / SIZE
  }

  function Without(hosts: seq<HostId>, gone: seq<HostId>): (r: seq<HostId>)
    ensures forall h :: h in r <==> h in hosts && h !in gone
  {
    if hosts == [] then []
    else (if hosts[0] in gone then [] else [hosts[0]]) + Without(hosts[1..], gone)
  }

  function MachineBatches(machines: seq<HostId>, n: nat): (bs: seq<Batch>)
    ensures |bs| == n
    ensures forall k :: 0 <= k < n ==> bs[k] == Batch(Page(machines, k), None)
  {
    if n == 0 then [] else MachineBatches(machines, n - 1) + [Batch(Page(machines, n - 1), None)]
  }

  function ResourceBatches(resources: seq<HostId>, machines: seq<HostId>, n: nat): (bs: seq<Batch>)
    ensures |bs| == n
    ensures forall k :: 0 <= k < n ==> bs[k] == Batch(Without(Page(resources, k), machines), Some(Resource))
  {
    if n == 0 then []
    else
      ResourceBatches(resources, machines, n - 1)
      + [Batch(Without(Page(resources, n - 1), machines), Some(Resource))]
  }

  function AllBatches(machines: seq<HostId>, resources: seq<HostId>): seq<Batch> {
    MachineBatches(machines, PageCount(|machines|)) + ResourceBatches(resources, machines, PageCount(|resources|))
  }

  // ---- the loops ----

  lemma ImportTwice(rows: Rows, hosts: seq<HostId>)
    ensures TransferRows(hosts, None, TransferRows(hosts, Some(Resource), rows)) == Import(rows, Batch(hosts, None))
    ensures TransferRows(hosts, Some(Resource), rows) == Import(rows, Batch(hosts, Some(Resource)))
  {
  }

  lemma ImportAllNext(rows: Rows, bs: seq<Batch>, b: Batch)
    ensures ImportAll(rows, bs + [b]) == Import(ImportAll(rows, bs), b)
  {
    assert (bs + [b])[..|bs|] == bs;
  }

  /** The first loop: the hosts in use go to the resource pool and at once to no pool. */
  method MigrateMachines(tables: Tables, machines: seq<HostId>)
    modifies tables`rows
    ensures tables.rows == ImportAll(old(tables.rows), MachineBatches(machines, PageCount(|machines|)))
  {
    var batch := PageCount(|machines|);
    for page := 0 to batch
      invariant tables.rows == ImportAll(old(tables.rows), MachineBatches(machines, page))
    {
      var hosts := Page(machines, page);
      ImportTwice(tables.rows, hosts);
      ImportAllNext(old(tables.rows), MachineBatches(machines, page), Batch(hosts, None));
      var r := tables.HostsPoolTransfer(hosts, Some(Resource));
      r := tables.HostsPoolTransfer(hosts, None);
    }
  }

  lemma ResourceBatchesNext(before: seq<Batch>, resources: seq<HostId>, machines: seq<HostId>, n: nat)
    ensures before + ResourceBatches(resources, machines, n + 1)
         == before + ResourceBatches(resources, machines, n)
            + [Batch(Without(Page(resources, n), machines), Some(Resource))]
  {
  }

  /** The second loop: the resource hosts that are not in use go to the resource pool. */
  method MigrateResources(tables: Tables, machines: seq<HostId>, resources: seq<HostId>, ghost rows0: Rows,
                          ghost before: seq<Batch>)
    requires tables.rows == ImportAll(rows0, before)
    modifies tables`rows
    ensures tables.rows == ImportAll(rows0, before + ResourceBatches(resources, machines, PageCount(|resources|)))
  {
    var batch := PageCount(|resources|);
    assert before + [] == before;
    for page := 0 to batch
      invariant tables.rows == ImportAll(rows0, before + ResourceBatches(resources, machines, page))
    {
      var newResourceHosts := Without(Page(resources, page), machines);
      ImportTwice(tables.rows, newResourceHosts);
      ImportAllNext(rows0, before + ResourceBatches(resources, machines, page),
                    Batch(newResourceHosts, Some(Resource)));
      ResourceBatchesNext(before, resources, machines, page);
      var r := tables.HostsPoolTransfer(newResourceHosts, Some(Resource));
    }
  }

  method MigrateMachineToHostPool(tables: Tables, machines: seq<HostId>, resources: seq<HostId>)
    modifies tables`rows
    ensures tables.rows == ImportAll(old(tables.rows), AllBatches(machines, resources))
  {
    MigrateMachines(tables, machines);
    MigrateResources(tables, machines, resources, old(tables.rows), MachineBatches(machines, PageCount(|machines|)));
  }

  // ---- what the loops come to ----

  ghost predicate Disjoint(a: Batch, b: Batch) {
    forall h :: h in a.hosts ==> h !in b.hosts
  }

  ghost predicate PairwiseDisjoint(bs: seq<Batch>) {
    forall i, j :: 0 <= i < j < |bs| ==> Disjoint(bs[i], bs[j])
  }

  /** Importing disjoint batches: a batch's hosts end up in the table, in its pool, when they were known or
      when the whole batch was unknown; no other row changes. */
  lemma {:induction false} ImportAllRows(rows: Rows, bs: seq<Batch>, h: HostId)
    requires PairwiseDisjoint(bs)
    ensures forall i :: 0 <= i < |bs| && h in bs[i].hosts ==>
              RowOf(ImportAll(rows, bs), h)
              == if h in rows || NoneKnown(bs[i].hosts, rows) then Some(bs[i].pool) else None
    ensures (forall i :: 0 <= i < |bs| ==> h !in bs[i].hosts) ==> RowOf(ImportAll(rows, bs), h) == RowOf(rows, h)
    decreases |bs|
  {
    if bs != [] {
      var less, last := bs[..|bs| - 1], bs[|bs| - 1];
      assert forall i :: 0 <= i < |less| ==> less[i] == bs[i];
      assert PairwiseDisjoint(less);
      ImportAllRows(rows, less, h);
      var mid := ImportAll(rows, less);
      forall x | x in last.hosts
        ensures RowOf(mid, x) == RowOf(rows, x)
      {
        ImportAllRows(rows, less, x);
        forall i | 0 <= i < |less|
          ensures x !in less[i].hosts
        {
          assert Disjoint(bs[i], last);
        }
      }
      assert NoneKnown(last.hosts, mid) <==> NoneKnown(last.hosts, rows) by {
        assert forall x :: x in last.hosts ==> (x in mid <==> x in rows);
      }
      assert ImportAll(rows, bs) == Import(mid, last);
      if h in last.hosts {
        assert forall i :: 0 <= i < |less| ==> Disjoint(bs[i], last);
      }
    }
  }

  /** The page a host is on. */
  lemma OnOnePage(hosts: seq<HostId>, i: nat)
    requires i < |hosts|
    ensures i / SIZE < PageCount(|hosts|) && hosts[i] in Page(hosts, i / SIZE)
  {
    var k := i / SIZE;
    assert k * SIZE <= i < (k + 1) * SIZE;
    assert Page(hosts, k)[i - k * SIZE] == hosts[i];
  }

  /** The pages are cuts of two hundred: no host is on two, and the last one is not empty. */
  lemma PagesAre(hosts: seq<HostId>, k: nat)
    ensures k < PageCount(|hosts|) <==> 200 * k < |hosts|
    ensures Page(hosts, k) == if 200 * k >= |hosts| then []
                              else hosts[200 * k..if 200 * k + 200 < |hosts| then 200 * k + 200 else |hosts|]
  {
    assert k * SIZE == 200 * k && (k + 1) * SIZE == 200 * k + 200;
  }

  lemma PagesDisjoint(hosts: seq<HostId>, a: nat, b: nat)
    requires DistinctHosts(hosts) && a < b
    ensures forall h :: h in Page(hosts, a) ==> h !in Page(hosts, b)
  {
  }

  lemma BatchesDisjointAt(machines: seq<HostId>, resources: seq<HostId>, i: nat, j: nat)
    requires DistinctHosts(machines) && DistinctHosts(resources) && i < j < |AllBatches(machines, resources)|
    ensures Disjoint(AllBatches(machines, resources)[i], AllBatches(machines, resources)[j])
  {
    var m, n := PageCount(|machines|), PageCount(|resources|);
    var ms, rs := MachineBatches(machines, m), ResourceBatches(resources, machines, n);
    if j < m {
      assert ms[i].hosts == Page(machines, i) && ms[j].hosts == Page(machines, j);
      PagesDisjoint(machines, i, j);
    } else {
      assert rs[j - m].hosts == Without(Page(resources, j - m), machines);
      if m <= i {
        assert rs[i - m].hosts == Without(Page(resources, i - m), machines);
        PagesDisjoint(resources, i - m, j - m);
      } else {
        assert ms[i].hosts == Page(machines, i);
      }
    }
  }

  lemma BatchesDisjoint(machines: seq<HostId>, resources: seq<HostId>)
    requires DistinctHosts(machines) && DistinctHosts(resources)
    ensures PairwiseDisjoint(AllBatches(machines, resources))
  {
    var bs := AllBatches(machines, resources);
    forall i, j | 0 <= i < j < |bs|
      ensures Disjoint(bs[i], bs[j])
    {
      BatchesDisjointAt(machines, resources, i, j);
    }
  }

  /** The batch of a host, and that it is in it. */
  lemma MachineBatch(machines: seq<HostId>, resources: seq<HostId>, h: HostId) returns (k: nat)
    requires h in machines
    ensures k < PageCount(|machines|) && AllBatches(machines, resources)[k] == Batch(Page(machines, k), None)
    ensures h in Page(machines, k)
  {
    var i :| 0 <= i < |machines| && machines[i] == h;
    OnOnePage(machines, i);
    k := i / SIZE;
  }

  lemma ResourceBatch(machines: seq<HostId>, resources: seq<HostId>, h: HostId) returns (k: nat)
    requires h in resources && h !in machines
    ensures k < PageCount(|resources|)
    ensures AllBatches(machines, resources)[PageCount(|machines|) + k]
         == Batch(Without(Page(resources, k), machines), Some(Resource))
    ensures h in Without(Page(resources, k), machines)
  {
    var i :| 0 <= i < |resources| && resources[i] == h;
    OnOnePage(resources, i);
    k := i / SIZE;
  }

  lemma NoBatch(machines: seq<HostId>, resources: seq<HostId>, h: HostId)
    requires h !in machines && h !in resources
    ensures forall i :: 0 <= i < |AllBatches(machines, resources)| ==> h !in AllBatches(machines, resources)[i].hosts
  {
    var bs, m := AllBatches(machines, resources), PageCount(|machines|);
    forall i | 0 <= i < |bs|
      ensures h !in bs[i].hosts
    {
      if i >= m {
        assert bs[i] == Batch(Without(Page(resources, i - m), machines), Some(Resource));
      }
    }
  }

  /** From an empty table: the hosts in use end with no pool, the resource hosts not in use in the resource
      pool, and there is no other row. */
  lemma MigrationComplete(machines: seq<HostId>, resources: seq<HostId>, h: HostId)
    requires DistinctHosts(machines) && DistinctHosts(resources)
    ensures RowOf(ImportAll(map[], AllBatches(machines, resources)), h)
         == if h in machines then Some(None) else if h in resources then Some(Some(Resource)) else None
  {
    BatchesDisjoint(machines, resources);
    ImportAllRows(map[], AllBatches(machines, resources), h);
    if h in machines {
      var k := MachineBatch(machines, resources, h);
    } else if h in resources {
      var k := ResourceBatch(machines, resources, h);
    } else {
      NoBatch(machines, resources, h);
    }
  }

  /** No batch is partly known to the table. */
  ghost predicate Unmixed(rows: Rows, bs: seq<Batch>) {
    forall i :: 0 <= i < |bs| ==>
      NoneKnown(bs[i].hosts, rows) || forall h :: h in bs[i].hosts ==> h in rows
  }

  lemma UnmixedCompletes(rows: Rows, machines: seq<HostId>, resources: seq<HostId>, h: HostId)
    requires DistinctHosts(machines) && DistinctHosts(resources) && (h in machines || h in resources)
    requires Unmixed(rows, AllBatches(machines, resources))
    ensures h in ImportAll(rows, AllBatches(machines, resources))
  {
    var bs := AllBatches(machines, resources);
    BatchesDisjoint(machines, resources);
    ImportAllRows(rows, bs, h);
    var k: nat;
    if h in machines {
      k := MachineBatch(machines, resources, h);
    } else {
      k := ResourceBatch(machines, resources, h);
      k := PageCount(|machines|) + k;
    }
    assert h in bs[k].hosts;
    assert RowOf(ImportAll(rows, bs), h).Some?;
  }

  lemma MixedLoses(rows: Rows, machines: seq<HostId>, resources: seq<HostId>) returns (h: HostId)
    requires DistinctHosts(machines) && DistinctHosts(resources)
    requires !Unmixed(rows, AllBatches(machines, resources))
    ensures (h in machines || h in resources) && h !in ImportAll(rows, AllBatches(machines, resources))
  {
    var bs := AllBatches(machines, resources);
    BatchesDisjoint(machines, resources);
    var i :| 0 <= i < |bs| && !NoneKnown(bs[i].hosts, rows) && exists x :: x in bs[i].hosts && x !in rows;
    h :| h in bs[i].hosts && h !in rows;
    ImportAllRows(rows, bs, h);
    assert RowOf(ImportAll(rows, bs), h).None?;
    BatchHostListed(machines, resources, i, h);
  }

  /** From any table, such as the one an interrupted migration left: every host ends with a row if and only
      if no page was partly known beforehand. The unknown hosts of a partly known page are dropped. */
  lemma MigrationCompleteExactly(rows: Rows, machines: seq<HostId>, resources: seq<HostId>)
    requires DistinctHosts(machines) && DistinctHosts(resources)
    ensures (forall h :: h in machines || h in resources ==> h in ImportAll(rows, AllBatches(machines, resources)))
            <==> Unmixed(rows, AllBatches(machines, resources))
  {
    if Unmixed(rows, AllBatches(machines, resources)) {
      forall h | h in machines || h in resources
        ensures h in ImportAll(rows, AllBatches(machines, resources))
      {
        UnmixedCompletes(rows, machines, resources, h);
      }
    } else {
      var h := MixedLoses(rows, machines, resources);
    }
  }

  lemma BatchHostListed(machines: seq<HostId>, resources: seq<HostId>, i: nat, h: HostId)
    requires i < |AllBatches(machines, resources)| && h in AllBatches(machines, resources)[i].hosts
    ensures h in machines || h in resources
  {
    if h !in machines && h !in resources {
      NoBatch(machines, resources, h);
    }
  }

  /** After a migration into an empty table, which logs nothing, every run of guarded requests leaves each
      host where its latest event put it, and a host without events where the migration put it. */
  lemma MigratedThenReplayed(machines: seq<HostId>, resources: seq<HostId>, inUse: set<HostId>, rs: seq<Request>,
                             h: HostId)
    requires DistinctHosts(machines) && DistinctHosts(resources)
    requires Guarded(ImportAll(map[], AllBatches(machines, resources)), inUse, rs)
    ensures var (rows, events) := AfterRequests(ImportAll(map[], AllBatches(machines, resources)), [], inUse, rs);
            RowOf(rows, h) == if Latest(events, h).Some? then Replayed(events, h)
                              else if h in machines then Some(None)
                              else if h in resources then Some(Some(Resource))
                              else None
  {
    MigrationComplete(machines, resources, h);
    ReplayExactly(ImportAll(map[], AllBatches(machines, resources)), inUse, rs);
  }
}
