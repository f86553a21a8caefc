/** The host pool table and the log of machine events, updated by one trigger. */
module HostPool {
  import opened Results
  import opened Sets

  type HostId = int

  datatype Pool = Fault | Recycle | Resource | Recycled

  datatype EventType =
    | ImportResource | ApplyResource | ReturnResource | ToRecycle | ToFault | UndoImport
    | RecycledEvent | HCMRemove | ResourceOwner | HostAttribute | RemoveHost

  /** The pool an event moves a host to; the others leave it in no pool. */
  function EventPool(kind: EventType): Option<Pool> {
    match kind
    case ToRecycle => Some(Recycle)
    case ToFault => Some(Fault)
    case ImportResource => Some(Resource)
    case ReturnResource => Some(Resource)
    case RecycledEvent => Some(Recycled)
    case HCMRemove => Some(Recycled)
    case UndoImport => Some(Recycled)
    case _ => None
  }

  datatype MachineEvent = MachineEvent(host: HostId, kind: EventType, to: Option<Pool>)

  /** A row's pool; None is the empty pool of a host in use. */
  type Rows = map<HostId, Option<Pool>>

  // ---- the transfer as a value ----

  /** Each host once, in order of first mention. */
  function Distinct(hosts: seq<HostId>): (r: seq<HostId>)
    ensures forall h :: h in r <==> h in hosts
  {
    if hosts == [] then []
    else
      var rest, last := Distinct(hosts[..|hosts| - 1]), hosts[|hosts| - 1];
      if last in rest then rest else rest + [last]
  }

  function Known(hosts: seq<HostId>, rows: Rows): (r: seq<HostId>)
    ensures forall h :: h in r <==> h in hosts && h in rows
  {
    if hosts == [] then []
    else
      var rest, last := Known(hosts[..|hosts| - 1], rows), hosts[|hosts| - 1];
      if last in rows && last !in rest then rest + [last] else rest
  }

  ghost predicate DistinctHosts(hosts: seq<HostId>) {
    forall i, j :: 0 <= i < j < |hosts| ==> hosts[i] != hosts[j]
  }

  predicate NoneKnown(hosts: seq<HostId>, rows: Rows) {
    forall h | h in hosts :: h !in rows
  }

  /** The hosts a transfer acts on and returns: those the table knows, or all of them when it knows none. */
  function Listed(hosts: seq<HostId>, rows: Rows): seq<HostId> {
    if NoneKnown(hosts, rows) then Distinct(hosts) else Known(hosts, rows)
  }

  function TransferRows(hosts: seq<HostId>, pool: Option<Pool>, rows: Rows): Rows {
    if pool == Some(Resource) && NoneKnown(hosts, rows) then
      map h | h in rows.Keys + (set x | x in hosts) :: if h in hosts then pool else rows[h]
    else if pool == Some(Recycled) then map h | h in rows && h !in hosts :: rows[h]
    else map h | h in rows :: if h in hosts then pool else rows[h]
  }

  predicate Refused(hosts: seq<HostId>, pool: Option<Pool>, machines: set<HostId>) {
    pool == Some(Recycled) && exists h | h in hosts :: h in machines
  }

  // ---- the log ----

  function EventsFor(hosts: seq<HostId>, kind: EventType, pool: Option<Pool>): seq<MachineEvent> {
    if hosts == [] then []
    else EventsFor(hosts[..|hosts| - 1], kind, pool) + [MachineEvent(hosts[|hosts| - 1], kind, pool)]
  }

  function Latest(events: seq<MachineEvent>, h: HostId): Option<MachineEvent> {
    if events == [] then None
    else if events[|events| - 1].host == h then Some(events[|events| - 1])
    else Latest(events[..|events| - 1], h)
  }

  lemma {:induction false} LatestAppend(events: seq<MachineEvent>, hosts: seq<HostId>, kind: EventType,
                                        pool: Option<Pool>, h: HostId)
    ensures Latest(events + EventsFor(hosts, kind, pool), h)
         == if h in hosts then Some(MachineEvent(h, kind, pool)) else Latest(events, h)
    decreases |hosts|
  {
    if hosts == [] {
      assert events + [] == events;
    } else {
      var less, last := hosts[..|hosts| - 1], hosts[|hosts| - 1];
      LatestAppend(events, less, kind, pool, h);
      var more := EventsFor(hosts, kind, pool);
      assert (events + more)[..|events + more| - 1] == events + EventsFor(less, kind, pool);
      assert hosts == less + [last];
    }
  }

  /** What replaying the log says about a host: no row after nothing or a recycling, else the row its
      latest event left. */
  ghost function Replayed(events: seq<MachineEvent>, h: HostId): Option<Option<Pool>> {
    match Latest(events, h)
    case None => None
    case Some(e) => if e.to == Some(Recycled) then None else Some(e.to)
  }

  ghost function RowOf(rows: Rows, h: HostId): Option<Option<Pool>> {
    if h in rows then Some(rows[h]) else None
  }

  /** The table is the replay of the log over the table there was when the log began: a host with events
      is where its latest one left it, any other is as it was. */
  ghost predicate ReplaysOver(base: Rows, rows: Rows, events: seq<MachineEvent>) {
    forall h :: RowOf(rows, h) == if Latest(events, h).Some? then Replayed(events, h) else RowOf(base, h)
  }

  /** The table is the replay of the log alone. */
  ghost predicate Consistent(rows: Rows, events: seq<MachineEvent>) {
    forall h :: RowOf(rows, h) == Replayed(events, h)
  }

  /** Every event's destination is its kind's. */
  ghost predicate WellLogged(events: seq<MachineEvent>) {
    forall k :: 0 <= k < |events| ==> events[k].to == EventPool(events[k].kind)
  }

  /** The one batch that breaks the replay: hosts the table does not know, all of them, logged as moved to
      a pool that no row is created for. */
  predicate LogsUnknown(hosts: seq<HostId>, kind: EventType, rows: Rows) {
    hosts != [] && NoneKnown(hosts, rows) && EventPool(kind) !in {Some(Resource), Some(Recycled)}
  }

  /** A trigger that goes through keeps the table the replay of the log, whatever table there was before
      the log, if and only if the batch is not of that kind. Batches may be of any mix and may repeat
      hosts. */
  lemma TriggerConsistentExactly(base: Rows, rows: Rows, events: seq<MachineEvent>, hosts: seq<HostId>,
                                 kind: EventType)
    requires ReplaysOver(base, rows, events)
    ensures var pool := EventPool(kind);
            ReplaysOver(base, TransferRows(hosts, pool, rows), events + EventsFor(Listed(hosts, rows), kind, pool))
            <==> !LogsUnknown(hosts, kind, rows)
  {
    var pool := EventPool(kind);
    var rows' := TransferRows(hosts, pool, rows);
    var listed := Listed(hosts, rows);
    var events' := events + EventsFor(listed, kind, pool);
    forall h
      ensures Latest(events', h) == if h in listed then Some(MachineEvent(h, kind, pool)) else Latest(events, h)
    {
      LatestAppend(events, listed, kind, pool, h);
    }
    if LogsUnknown(hosts, kind, rows) {
      var h := hosts[0];
      assert h in listed && h !in rows';
      assert RowOf(rows', h) != Replayed(events', h);
    } else {
      forall h
        ensures RowOf(rows', h) == if Latest(events', h).Some? then Replayed(events', h) else RowOf(base, h)
      {
        assert RowOf(rows, h) == if Latest(events, h).Some? then Replayed(events, h) else RowOf(base, h);
        if hosts == [] {
          assert h !in listed;
        }
      }
    }
  }

  lemma {:induction false} EventsForLogged(events: seq<MachineEvent>, hosts: seq<HostId>, kind: EventType)
    requires WellLogged(events)
    ensures WellLogged(events + EventsFor(hosts, kind, EventPool(kind)))
    decreases |hosts|
  {
    if hosts != [] {
      EventsForLogged(events, hosts[..|hosts| - 1], kind);
      var less := events + EventsFor(hosts[..|hosts| - 1], kind, EventPool(kind));
      assert events + EventsFor(hosts, kind, EventPool(kind))
          == less + [MachineEvent(hosts[|hosts| - 1], kind, EventPool(kind))];
    } else {
      assert events + [] == events;
    }
  }

  lemma {:induction false} KnownAgain(hosts: seq<HostId>, rows: Rows)
    requires forall h :: h in hosts ==> h in rows
    requires DistinctHosts(hosts)
    ensures Known(hosts, rows) == hosts
  {
    if hosts != [] {
      KnownAgain(hosts[..|hosts| - 1], rows);
    }
  }

  lemma {:induction false} KnownDistinct(hosts: seq<HostId>, rows: Rows)
    ensures DistinctHosts(Known(hosts, rows))
  {
    if hosts != [] {
      var rest := Known(hosts[..|hosts| - 1], rows);
      KnownDistinct(hosts[..|hosts| - 1], rows);
      assert Known(hosts, rows) == rest || Known(hosts, rows) == rest + [hosts[|hosts| - 1]];
    }
  }

  lemma {:induction false} DistinctDistinct(hosts: seq<HostId>)
    ensures DistinctHosts(Distinct(hosts))
  {
    if hosts != [] {
      var rest := Distinct(hosts[..|hosts| - 1]);
      DistinctDistinct(hosts[..|hosts| - 1]);
      assert Distinct(hosts) == rest || Distinct(hosts) == rest + [hosts[|hosts| - 1]];
    }
  }

  // ---- a trigger, spelled out ----

  /** The hosts a trigger acts on: those that have a row, or all of them when none has. */
  ghost predicate ActsOn(before: Rows, hosts: seq<HostId>, h: HostId) {
    h in hosts && (h in before || forall x :: x in hosts ==> x !in before)
  }

  /** The rows after a trigger. An import or a return leaves the hosts it acts on in the resource pool, with
      new rows if need be; the moves to fault and to recycling move the hosts that have a row; undoing an
      import and the two ways of recycling leave no row; every other event leaves a row in no pool. */
  ghost predicate RowsMoved(before: Rows, after: Rows, hosts: seq<HostId>, kind: EventType) {
    forall h ::
      RowOf(after, h) ==
        if h !in hosts then RowOf(before, h)
        else if kind in {ImportResource, ReturnResource} then
          if ActsOn(before, hosts, h) then Some(Some(Resource)) else None
        else if kind in {UndoImport, RecycledEvent, HCMRemove} || h !in before then None
        else if kind == ToFault then Some(Some(Fault))
        else if kind == ToRecycle then Some(Some(Recycle))
        else Some(None)
  }

  /** The log after a trigger: one event for each host it acts on, of its kind and with where that leads. */
  ghost predicate EventsLogged(before: Rows, events: seq<MachineEvent>, after: seq<MachineEvent>,
                               hosts: seq<HostId>, kind: EventType)
  {
    && events <= after
    && (forall k :: |events| <= k < |after| ==>
          && ActsOn(before, hosts, after[k].host) && after[k].kind == kind
          && after[k].to == (if kind in {ImportResource, ReturnResource} then Some(Resource)
                             else if kind in {UndoImport, RecycledEvent, HCMRemove} then Some(Recycled)
                             else if kind == ToFault then Some(Fault)
                             else if kind == ToRecycle then Some(Recycle)
                             else None))
    && (forall h :: ActsOn(before, hosts, h) ==> exists k :: |events| <= k < |after| && after[k].host == h)
    && (forall j, k :: |events| <= j < k < |after| ==> after[j].host != after[k].host)
  }

  /** Nothing happens when a host to be removed still has metadata. */
  ghost predicate StillInUse(hosts: seq<HostId>, kind: EventType, machines: set<HostId>) {
    kind in {UndoImport, RecycledEvent, HCMRemove} && exists h :: h in hosts && h in machines
  }

  lemma {:induction false} EventsForAre(hosts: seq<HostId>, kind: EventType, pool: Option<Pool>)
    ensures |EventsFor(hosts, kind, pool)| == |hosts|
    ensures forall k :: 0 <= k < |hosts| ==> EventsFor(hosts, kind, pool)[k] == MachineEvent(hosts[k], kind, pool)
  {
    if hosts != [] {
      EventsForAre(hosts[..|hosts| - 1], kind, pool);
    }
  }

  lemma ListedIs(hosts: seq<HostId>, rows: Rows)
    ensures DistinctHosts(Listed(hosts, rows))
    ensures forall h :: h in Listed(hosts, rows) <==> ActsOn(rows, hosts, h)
  {
    KnownDistinct(hosts, rows);
    DistinctDistinct(hosts);
  }

  lemma RowsSpelledOut(hosts: seq<HostId>, kind: EventType, rows: Rows)
    ensures RowsMoved(rows, TransferRows(hosts, EventPool(kind), rows), hosts, kind)
  {
  }

  lemma EventsSpelledOut(rows: Rows, events: seq<MachineEvent>, hosts: seq<HostId>, kind: EventType)
    ensures EventsLogged(rows, events, events + EventsFor(Listed(hosts, rows), kind, EventPool(kind)), hosts, kind)
  {
    var listed := Listed(hosts, rows);
    var more := EventsFor(listed, kind, EventPool(kind));
    ListedIs(hosts, rows);
    EventsForAre(listed, kind, EventPool(kind));
    forall h | ActsOn(rows, hosts, h)
      ensures exists k :: |events| <= k < |events + more| && (events + more)[k].host == h
    {
      var i :| 0 <= i < |listed| && listed[i] == h;
      assert (events + more)[|events| + i] == more[i];
    }
    assert forall k :: |events| <= k < |events + more| ==> (events + more)[k] == more[k - |events|];
  }

  // ---- runs ----

  datatype Request = Request(hosts: seq<HostId>, kind: EventType)

  /** A request refused because a host is still in use elsewhere changes nothing. */
  ghost function AfterRequests(rows: Rows, events: seq<MachineEvent>, machines: set<HostId>, rs: seq<Request>)
    : (Rows, seq<MachineEvent>)
    decreases |rs|
  {
    if rs == [] then (rows, events)
    else
      var r, pool := rs[0], EventPool(rs[0].kind);
      if Refused(r.hosts, pool, machines) then AfterRequests(rows, events, machines, rs[1..])
      else AfterRequests(TransferRows(r.hosts, pool, rows),
                         events + EventsFor(Listed(r.hosts, rows), r.kind, pool), machines, rs[1..])
  }

  ghost predicate Guarded(rows: Rows, machines: set<HostId>, rs: seq<Request>)
    decreases |rs|
  {
    rs == [] ||
    (var r, pool := rs[0], EventPool(rs[0].kind);
     if Refused(r.hosts, pool, machines) then Guarded(rows, machines, rs[1..])
     else !LogsUnknown(r.hosts, r.kind, rows) && Guarded(TransferRows(r.hosts, pool, rows), machines, rs[1..]))
  }

  /** In every state of the run the table is the replay of the log over `base`. */
  ghost predicate AlwaysReplays(base: Rows, rows: Rows, events: seq<MachineEvent>, machines: set<HostId>,
                                rs: seq<Request>)
    decreases |rs|
  {
    && ReplaysOver(base, rows, events)
    && (rs != [] ==>
          var r, pool := rs[0], EventPool(rs[0].kind);
          if Refused(r.hosts, pool, machines) then AlwaysReplays(base, rows, events, machines, rs[1..])
          else AlwaysReplays(base, TransferRows(r.hosts, pool, rows),
                             events + EventsFor(Listed(r.hosts, rows), r.kind, pool), machines, rs[1..]))
  }

  lemma {:induction false} AlwaysReplaysFrom(base: Rows, rows: Rows, events: seq<MachineEvent>,
                                             machines: set<HostId>, rs: seq<Request>)
    requires ReplaysOver(base, rows, events)
    ensures AlwaysReplays(base, rows, events, machines, rs) <==> Guarded(rows, machines, rs)
    ensures Guarded(rows, machines, rs) ==>
              var (rows', events') := AfterRequests(rows, events, machines, rs); ReplaysOver(base, rows', events')
    decreases |rs|
  {
    if rs != [] {
      var r, pool := rs[0], EventPool(rs[0].kind);
      if Refused(r.hosts, pool, machines) {
        AlwaysReplaysFrom(base, rows, events, machines, rs[1..]);
      } else {
        TriggerConsistentExactly(base, rows, events, r.hosts, r.kind);
        if !LogsUnknown(r.hosts, r.kind, rows) {
          AlwaysReplaysFrom(base, TransferRows(r.hosts, pool, rows),
                            events + EventsFor(Listed(r.hosts, rows), r.kind, pool), machines, rs[1..]);
        }
      }
    }
  }

  /** From any table and an empty log: the table is the replay of the log over that table in every state of
      the run if and only if no request logs hosts it did not know into a pool that creates no rows. */
  lemma ReplayExactly(rows0: Rows, machines: set<HostId>, rs: seq<Request>)
    ensures AlwaysReplays(rows0, rows0, [], machines, rs) <==> Guarded(rows0, machines, rs)
    ensures Guarded(rows0, machines, rs) ==>
              var (rows', events') := AfterRequests(rows0, [], machines, rs);
              forall h :: RowOf(rows', h) == if Latest(events', h).Some? then Replayed(events', h) else RowOf(rows0, h)
  {
    AlwaysReplaysFrom(rows0, rows0, [], machines, rs);
  }

  lemma {:induction false} RunLogs(rows: Rows, events: seq<MachineEvent>, machines: set<HostId>, rs: seq<Request>)
    requires WellLogged(events)
    ensures WellLogged(AfterRequests(rows, events, machines, rs).1)
    decreases |rs|
  {
    if rs != [] {
      var r, pool := rs[0], EventPool(rs[0].kind);
      if Refused(r.hosts, pool, machines) {
        RunLogs(rows, events, machines, rs[1..]);
      } else {
        EventsForLogged(events, Listed(r.hosts, rows), r.kind);
        RunLogs(TransferRows(r.hosts, pool, rows), events + EventsFor(Listed(r.hosts, rows), r.kind, pool),
                machines, rs[1..]);
      }
    }
  }

  /** A table that the log explains entirely, such as an empty one with an empty log, stays so. */
  lemma ReplayIsTable(rows: Rows, events: seq<MachineEvent>, machines: set<HostId>, rs: seq<Request>)
    requires Consistent(rows, events) && WellLogged(events) && Guarded(rows, machines, rs)
    ensures var (rows', events') := AfterRequests(rows, events, machines, rs);
            Consistent(rows', events') && WellLogged(events')
  {
    ConsistentIsOverNothing(rows, events);
    AlwaysReplaysFrom(map[], rows, events, machines, rs);
    RunLogs(rows, events, machines, rs);
    var (rows', events') := AfterRequests(rows, events, machines, rs);
    ConsistentIsOverNothing(rows', events');
  }

  lemma ConsistentIsOverNothing(rows: Rows, events: seq<MachineEvent>)
    ensures Consistent(rows, events) <==> ReplaysOver(map[], rows, events)
  {
  }

  // ---- undoing an import ----

  ghost predicate CanReturn(events: seq<MachineEvent>, ids: set<HostId>) {
    forall h :: h in ids && Latest(events, h).Some? ==> Latest(events, h).value.kind == ImportResource
  }

  /** No later event is of the same host. */
  ghost predicate IsLatest(events: seq<MachineEvent>, k: nat)
    requires k < |events|
  {
    forall j :: k < j < |events| ==> events[j].host != events[k].host
  }

  lemma {:induction false} LatestFinds(events: seq<MachineEvent>, h: HostId)
    ensures match Latest(events, h)
            case Some(e) => exists k :: 0 <= k < |events| && events[k] == e && e.host == h && IsLatest(events, k)
            case None => forall k :: 0 <= k < |events| ==> events[k].host != h
  {
    if events != [] && events[|events| - 1].host != h {
      var less := events[..|events| - 1];
      LatestFinds(less, h);
      assert forall k :: 0 <= k < |less| ==> less[k] == events[k];
      if Latest(less, h).Some? {
        var k :| 0 <= k < |less| && less[k] == Latest(less, h).value && less[k].host == h && IsLatest(less, k);
        assert IsLatest(events, k);
      }
    } else if events != [] {
      assert IsLatest(events, |events| - 1);
    }
  }

  /** The latest event of every listed host that has one is an import. */
  ghost predicate LastImported(events: seq<MachineEvent>, ids: set<HostId>) {
    forall k :: 0 <= k < |events| && IsLatest(events, k) && events[k].host in ids ==> events[k].kind == ImportResource
  }

  lemma CanReturnSpelledOut(events: seq<MachineEvent>, ids: set<HostId>)
    ensures CanReturn(events, ids) <==> LastImported(events, ids)
  {
    forall k | 0 <= k < |events| && IsLatest(events, k)
      ensures Latest(events, events[k].host) == Some(events[k])
    {
      LatestFinds(events, events[k].host);
    }
    forall h
      ensures Latest(events, h).Some? ==>
                exists k :: 0 <= k < |events| && events[k] == Latest(events, h).value && events[k].host == h
                            && IsLatest(events, k)
    {
      LatestFinds(events, h);
    }
  }

  lemma {:induction false} LatestIsLogged(events: seq<MachineEvent>, h: HostId)
    requires WellLogged(events) && Latest(events, h).Some?
    ensures Latest(events, h).value.to == EventPool(Latest(events, h).value.kind)
  {
    if events[|events| - 1].host != h {
      LatestIsLogged(events[..|events| - 1], h);
    }
  }

  /** A batch that may be returned holds only hosts in the resource pool and hosts the log never mentions,
      which are as they were when it began. */
  lemma CanReturnInResource(base: Rows, rows: Rows, events: seq<MachineEvent>, ids: set<HostId>, h: HostId)
    requires ReplaysOver(base, rows, events) && WellLogged(events) && CanReturn(events, ids) && h in ids
    ensures if Latest(events, h).Some? then h in rows && rows[h] == Some(Resource) else RowOf(rows, h) == RowOf(base, h)
  {
    assert RowOf(rows, h) == if Latest(events, h).Some? then Replayed(events, h) else RowOf(base, h);
    if Latest(events, h).Some? {
      LatestIsLogged(events, h);
    }
  }

  // ---- an operator's moves ----

  /** Moving known hosts: each of them, and no other, is moved and listed, and the log keeps up. */
  lemma KnownMove(ids: seq<HostId>, rows: Rows, kind: EventType)
    requires EventPool(kind).Some?
    ensures var hosts, pool := Known(ids, rows), EventPool(kind);
            && !LogsUnknown(hosts, kind, rows) && Listed(hosts, rows) == hosts
            && forall h :: RowOf(TransferRows(hosts, pool, rows), h)
                           == if h in ids && h in rows then (if pool == Some(Recycled) then None else Some(pool))
                              else RowOf(rows, h)
  {
    var hosts := Known(ids, rows);
    KnownDistinct(ids, rows);
    KnownAgain(hosts, rows);
    if hosts != [] {
      var h := hosts[0];
      assert h in hosts && h in rows;
      assert !NoneKnown(hosts, rows);
    }
  }

  lemma KnownInUse(ids: seq<HostId>, rows: Rows, kind: EventType, machines: set<HostId>)
    ensures StillInUse(Known(ids, rows), kind, machines) <==>
              kind in {UndoImport, RecycledEvent, HCMRemove} && exists h :: h in ids && h in rows && h in machines
  {
    var hosts := Known(ids, rows);
    if exists h :: h in ids && h in rows && h in machines {
      var h :| h in ids && h in rows && h in machines;
      assert h in hosts;
    }
  }

  // ---- the tables ----

  class Tables {
    var rows: Rows
    var events: seq<MachineEvent>
    var machines: set<HostId>

    /** Moves the hosts of a batch to a pool and returns the hosts it acted on. */
    method HostsPoolTransfer(hosts: seq<HostId>, pool: Option<Pool>) returns (r: Result<seq<HostId>>)
      modifies this`rows
      ensures if Refused(hosts, pool, machines) then r.Err? && rows == old(rows)
              else r == Ok(Listed(hosts, old(rows))) && rows == TransferRows(hosts, pool, old(rows))
    {
      var known := exists h | h in hosts :: h in rows;
      var listed := if known then Known(hosts, rows) else Distinct(hosts);
      if pool == Some(Resource) && !known {
        rows := rows + map h | h in listed :: pool;
      } else if pool == Some(Recycled) {
        if exists h | h in hosts :: h in machines {
          return Err("hosts still have metadata and cannot be removed");
        }
        rows := rows - (set h | h in hosts);
      } else {
        rows := map h | h in rows :: if h in hosts then pool else rows[h];
      }
      return Ok(listed);
    }

    method CreateMachineEvents(hosts: seq<HostId>, kind: EventType, pool: Option<Pool>)
      modifies this`events
      ensures events == old(events) + EventsFor(hosts, kind, pool)
    {
      var created: seq<MachineEvent> := [];
      for k := 0 to |hosts|
        invariant created == EventsFor(hosts[..k], kind, pool)
      {
        assert hosts[..k + 1][..k] == hosts[..k];
        created := created + [MachineEvent(hosts[k], kind, pool)];
      }
      assert hosts[..|hosts|] == hosts;
      events := events + created;
    }

    /** The trigger; with an import ticket the events were written beforehand and are not repeated. */
    method HostEventTrigger(hosts: seq<HostId>, kind: EventType, importTicket: bool) returns (r: Result<()>)
      modifies this`rows, this`events
      ensures var pool := EventPool(kind);
              if Refused(hosts, pool, machines) then r.Err? && rows == old(rows) && events == old(events)
              else
                && r == Ok(()) && rows == TransferRows(hosts, pool, old(rows))
                && events == (if importTicket then old(events)
                              else old(events) + EventsFor(Listed(hosts, old(rows)), kind, pool))
      ensures r.Err? <==> StillInUse(hosts, kind, machines)
      ensures r.Ok? ==> RowsMoved(old(rows), rows, hosts, kind)
      ensures r.Ok? && !importTicket ==> EventsLogged(old(rows), old(events), events, hosts, kind)
      ensures forall base :: ReplaysOver(base, old(rows), old(events)) && r.Ok? && !importTicket ==>
                (ReplaysOver(base, rows, events) <==> !LogsUnknown(hosts, kind, old(rows)))
    {
      var pool := EventPool(kind);
      RowsSpelledOut(hosts, kind, rows);
      EventsSpelledOut(rows, events, hosts, kind);
      forall base | ReplaysOver(base, rows, events) {
        TriggerConsistentExactly(base, rows, events, hosts, kind);
      }
      var listed := HostsPoolTransfer(hosts, pool);
      if listed.Err? {
        return Err(listed.error);
      }
      if !importTicket {
        CreateMachineEvents(listed.value, kind, pool);
      }
      return Ok(());
    }

    /** The listed hosts' events, host by host. */
    method GroupEvents(ids: set<HostId>) returns (grouped: map<HostId, seq<MachineEvent>>)
      ensures forall h :: h in grouped <==> h in ids && Latest(events, h).Some?
      ensures forall h :: h in grouped ==>
                grouped[h] != [] && Some(grouped[h][|grouped[h]| - 1]) == Latest(events, h)
    {
      grouped := map[];
      for k := 0 to |events|
        invariant forall h :: h in grouped <==> h in ids && Latest(events[..k], h).Some?
        invariant forall h :: h in grouped ==>
                    grouped[h] != [] && Some(grouped[h][|grouped[h]| - 1]) == Latest(events[..k], h)
      {
        assert events[..k + 1][..k] == events[..k];
        var event := events[k];
        if event.host in ids {
          grouped := grouped[event.host := (if event.host in grouped then grouped[event.host] else []) + [event]];
        }
      }
      assert events[..|events|] == events;
    }

    /** Whether every listed host with events was last imported and has not been used since. */
    method HostsCanReturn(ids: set<HostId>) returns (ok: bool)
      ensures ok <==> CanReturn(events, ids)
      ensures ok <==> LastImported(events, ids)
    {
      CanReturnSpelledOut(events, ids);
      var grouped := GroupEvents(ids);
      var todo: set<HostId> := grouped.Keys;
      while todo != {}
        invariant todo <= grouped.Keys
        invariant forall h :: h in grouped && h !in todo ==> Latest(events, h).value.kind == ImportResource
        decreases todo
      {
        IntMember(todo);
        var h :| h in todo;
        var group := grouped[h];
        if group[|group| - 1].kind != ImportResource {
          return false;
        }
        todo := todo - {h};
      }
      return true;
    }

    /** A trigger on the listed hosts that the table knows. */
    method MoveKnown(ids: seq<HostId>, kind: EventType) returns (r: Result<()>)
      requires kind in {RecycledEvent, HCMRemove, ToRecycle, ToFault}
      modifies this`rows, this`events
      ensures var hosts := Known(ids, old(rows));
              if kind in {RecycledEvent, HCMRemove} && exists h :: h in ids && h in old(rows) && h in machines
              then r.Err? && rows == old(rows) && events == old(events)
              else r == Ok(()) && events == old(events) + EventsFor(hosts, kind, EventPool(kind))
                   && EventsLogged(old(rows), old(events), events, hosts, kind)
      ensures r.Ok? ==> forall h :: RowOf(rows, h) == if h in ids && h in old(rows)
                                                     then (if kind in {RecycledEvent, HCMRemove} then None
                                                           else Some(EventPool(kind)))
                                                     else RowOf(old(rows), h)
      ensures forall base :: ReplaysOver(base, old(rows), old(events)) ==> ReplaysOver(base, rows, events)
    {
      var hosts := Known(ids, rows);
      KnownMove(ids, rows, kind);
      KnownInUse(ids, rows, kind, machines);
      r := HostEventTrigger(hosts, kind, false);
    }

    /** Moves the listed hosts that the table knows, so that the log never runs ahead of the table; the
        source named is not compared with the pool a host is in. A legal move is refused only for a host
        that still has metadata. */
    method TransferHostsToPool(ids: seq<HostId>, source: Pool, target: Pool, hcmRecycle: bool) returns (r: Result<()>)
      modifies this`rows, this`events
      ensures var legal := (source == Recycle && target == Recycled) || (source == Fault && target == Recycle)
                           || (source == Resource && target == Fault);
              var inUse := target == Recycled && exists h :: h in ids && h in old(rows) && h in machines;
              if !legal || inUse then r.Err? && rows == old(rows) && events == old(events)
              else
                var kind := if target == Recycled then (if hcmRecycle then HCMRemove else RecycledEvent)
                            else if target == Recycle then ToRecycle else ToFault;
                r == Ok(()) && events == old(events) + EventsFor(Known(ids, old(rows)), kind, Some(target))
                && EventsLogged(old(rows), old(events), events, Known(ids, old(rows)), kind)
      ensures r.Ok? ==> forall h :: RowOf(rows, h) == if h in ids && h in old(rows)
                                                     then (if target == Recycled then None else Some(Some(target)))
                                                     else RowOf(old(rows), h)
      ensures forall base :: ReplaysOver(base, old(rows), old(events)) ==> ReplaysOver(base, rows, events)
    {
      var kind: EventType;
      if source == Recycle && target == Recycled {
        kind := if hcmRecycle then HCMRemove else RecycledEvent;
      } else if source == Fault && target == Recycle {
        kind := ToRecycle;
      } else if source == Resource && target == Fault {
        kind := ToFault;
      } else {
        return Err("illegal transfer");
      }
      r := MoveKnown(ids, kind);
    }
  }
}
