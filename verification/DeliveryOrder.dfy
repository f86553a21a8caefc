/** What one session delivers while the log is written to and rotated under it: the lines from where it began,
    in order, each once, and none left out. */
module DeliveryOrder {
  import opened Results
  import opened Lines
  import opened Reading
  import opened Sessions
  import opened Protocol
  import opened ProtocolTheorems

  /** The lines delivered over a run, in the order in which the Scans returned them. */
  ghost function Deliveries(w: World, es: seq<Event>): seq<Delivery>
    requires Legal(w, es)
    decreases |es|
  {
    if es == [] then []
    else StepDeliveries(w, es[0]) + Deliveries(Apply(w, es[0]), es[1..])
  }

  ghost function StepDeliveries(w: World, e: Event): seq<Delivery>
    requires w.Shape() && Enabled(w, e)
  {
    if e.ScanNext? && Scan(w.session.value, w.data, w.bufSize).1
    then [Delivery(AfterScan(w).past.mark, AfterScan(w).session.value.line)]
    else []
  }

  /** The session lasts: while one is open none is constructed, so only a crash can end it. */
  ghost predicate NoCrash(es: seq<Event>) {
    forall i :: 0 <= i < |es| ==> !es[i].Crash?
  }

  // ---- in order ----

  /** A line is taken at or after the reading position and lies before the next one. */
  lemma ScanAdvances(w: World)
    requires Inv(w) && Enabled(w, ScanNext)
    ensures var w' := AfterScan(w);
            && w'.session.Some? && AtMost(w.Reading(), w'.Reading())
            && (Scan(w.session.value, w.data, w.bufSize).1 ==>
                  AtMost(w.Reading(), w'.past.mark) && Before(w'.past.mark, w'.Reading()))
  {
  }

  lemma StepAdvances(w: World, e: Event)
    requires Inv(w) && Enabled(w, e) && w.session.Some? && !e.Crash?
    ensures var w' := Apply(w, e); var ds := StepDeliveries(w, e);
            && Inv(w') && w'.session.Some? && AtMost(w.Reading(), w'.Reading())
            && (ds != [] ==> |ds| == 1 && AtMost(w.Reading(), ds[0].at) && Before(ds[0].at, w'.Reading()))
  {
    StepKeeps(w, e);
    if e.ScanNext? {
      ScanAdvances(w);
    }
  }

  /** The places lie from one position on, strictly ascending, before another one. */
  ghost predicate Ascending(ds: seq<Delivery>, from: Pos, to: Pos) {
    && AtMost(from, to)
    && (forall i :: 0 <= i < |ds| ==> AtMost(from, ds[i].at) && Before(ds[i].at, to))
    && (forall i, j :: 0 <= i < j < |ds| ==> Before(ds[i].at, ds[j].at))
  }

  lemma AscendingJoin(a: seq<Delivery>, b: seq<Delivery>, from: Pos, mid: Pos, to: Pos)
    requires Ascending(a, from, mid) && Ascending(b, mid, to)
    ensures Ascending(a + b, from, to)
  {
    forall i, j | 0 <= i < j < |a + b|
      ensures Before((a + b)[i].at, (a + b)[j].at)
    {
      if i < |a| <= j {
        assert Before(a[i].at, mid) && AtMost(mid, b[j - |a|].at);
      }
    }
  }

  lemma {:induction false} DeliversInOrder(w: World, es: seq<Event>)
    requires Inv(w) && w.session.Some? && Legal(w, es) && NoCrash(es)
    ensures Run(w, es).session.Some?
    ensures Ascending(Deliveries(w, es), w.Reading(), Run(w, es).Reading())
    decreases |es|
  {
    if es != [] {
      StepAdvances(w, es[0]);
      DeliversInOrder(Apply(w, es[0]), es[1..]);
      DeliversCons(w, es);
    }
  }

  lemma DeliversCons(w: World, es: seq<Event>)
    requires es != [] && Legal(w, es) && w.session.Some? && Apply(w, es[0]).session.Some? && Run(w, es).session.Some?
    requires var w', ds := Apply(w, es[0]), StepDeliveries(w, es[0]);
             && AtMost(w.Reading(), w'.Reading())
             && (ds != [] ==> |ds| == 1 && AtMost(w.Reading(), ds[0].at) && Before(ds[0].at, w'.Reading()))
             && Ascending(Deliveries(w', es[1..]), w'.Reading(), Run(w', es[1..]).Reading())
    ensures Ascending(Deliveries(w, es), w.Reading(), Run(w, es).Reading())
  {
    var w', rest := Apply(w, es[0]), es[1..];
    assert Run(w, es) == Run(w', rest);
    AscendingJoin(StepDeliveries(w, es[0]), Deliveries(w', rest), w.Reading(), w'.Reading(), Run(w', rest).Reading());
  }

  // ---- none left out ----

  /** The world as if nothing had happened before the session's present position. */
  ghost function Forgotten(w: World): World
    requires w.session.Some?
  {
    w.(past := w.past.(delivered := {}, baseline := Some(w.Reading())))
  }

  lemma ForgottenCovers(w: World, q: Pos)
    requires w.Shape() && w.session.Some? && AtMost(q, w.Reading())
    ensures var v := Forgotten(w); v.Shape() && v.Covered(q) && (q.gen < |v.past.gens| ==> v.Passed(q))
  {
  }

  lemma ForgottenHandles(w: World)
    requires w.Shape() && Handles(w) && w.session.Some?
    ensures Forgotten(w).Shape() && Handles(Forgotten(w))
  {
    if w.session.value.rotated.Some? {
      SameNoLine(w, Forgotten(w), w.past.drains, w.past.epoch);
    }
  }

  lemma ForgottenInv(w: World)
    requires Inv(w) && w.session.Some?
    ensures Inv(Forgotten(w))
  {
    ForgottenHandles(w);
    ForgottenCovers(w, w.past.durable);
    ForgottenCovers(w, w.past.mark);
    ForgottenCovers(w, w.Reading());
  }

  /** Two worlds that differ only in what was delivered before. */
  ghost predicate Alike(w: World, v: World) {
    && v == w.(past := w.past.(delivered := v.past.delivered, baseline := v.past.baseline))
    && w.past.baseline.Some? && v.past.baseline.Some?
  }

  lemma StepAlike(w: World, v: World, e: Event)
    requires Alike(w, v) && w.Shape() && Enabled(w, e) && w.session.Some? && !e.Crash?
    ensures v.Shape() && Enabled(v, e) && Alike(Apply(w, e), Apply(v, e)) && Apply(w, e).session.Some?
    ensures Apply(v, e).past.baseline == v.past.baseline
    ensures StepDeliveries(v, e) == StepDeliveries(w, e)
  {
  }

  lemma {:induction false} RunAlike(w: World, v: World, es: seq<Event>)
    requires Alike(w, v) && Legal(w, es) && w.session.Some? && NoCrash(es)
    ensures Legal(v, es) && Alike(Run(w, es), Run(v, es)) && Run(v, es).past.baseline == v.past.baseline
    ensures Deliveries(v, es) == Deliveries(w, es)
    decreases |es|
  {
    if es != [] {
      StepAlike(w, v, es[0]);
      RunAlike(Apply(w, es[0]), Apply(v, es[0]), es[1..]);
    }
  }

  ghost predicate HasAll(delivered: set<Delivery>, before: set<Delivery>, ds: seq<Delivery>) {
    forall d :: d in delivered <==> d in before || d in ds
  }

  /** The history's deliveries are those of the steps. */
  lemma {:induction false} RunDelivers(w: World, es: seq<Event>)
    requires Legal(w, es)
    ensures HasAll(Run(w, es).past.delivered, w.past.delivered, Deliveries(w, es))
    decreases |es|
  {
    if es != [] {
      var w', rest := Apply(w, es[0]), es[1..];
      RunDelivers(w', rest);
      StepDelivers(w, es[0]);
      assert Deliveries(w, es) == StepDeliveries(w, es[0]) + Deliveries(w', rest);
    }
  }

  lemma StepDelivers(w: World, e: Event)
    requires w.Shape() && Enabled(w, e)
    ensures HasAll(Apply(w, e).past.delivered, w.past.delivered, StepDeliveries(w, e))
  {
  }

  /** Of every run: what a session delivers while it lasts, whatever the writer does meanwhile, are lines at
      strictly ascending places between where it stood and where it stands, and every finished line in
      between is among them. So each is delivered once and in order, and a true Scan takes the next line. */
  lemma SessionInOrder(w0: World, before: seq<Event>, es: seq<Event>, p: Pos)
    requires Initial(w0) && Legal(w0, before) && Run(w0, before).session.Some?
    requires Legal(Run(w0, before), es) && NoCrash(es)
    ensures var w := Run(w0, before); var w', ds := Run(w, es), Deliveries(w, es);
            && w'.Shape() && Handles(w') && w'.session.Some?
            && Ascending(ds, w.Reading(), w'.Reading())
            && (w'.LineStart(p) && w'.Finished(p) && AtMost(w.Reading(), p) && Before(p, w'.Reading()) && Settled(w')
                ==> Delivery(p, LineAt(w'.File(p.gen), p.off)) in ds)
  {
    ReachableInv(w0, before);
    var w := Run(w0, before);
    DeliversInOrder(w, es);
    RunKeeps(w, es);
    var w' := Run(w, es);
    if Settled(w') && w'.LineStart(p) && w'.Finished(p) && AtMost(w.Reading(), p) && Before(p, w'.Reading()) {
      NoneLeftOut(w, es, p);
    }
  }

  lemma NoneLeftOut(w: World, es: seq<Event>, p: Pos)
    requires Inv(w) && w.session.Some? && Legal(w, es) && NoCrash(es)
    requires var w' := Run(w, es);
             && Inv(w') && w'.session.Some? && Settled(w')
             && w'.LineStart(p) && w'.Finished(p) && AtMost(w.Reading(), p) && Before(p, w'.Reading())
    ensures Delivery(p, LineAt(Run(w, es).File(p.gen), p.off)) in Deliveries(w, es)
  {
    var v := Forgotten(w);
    ForgottenInv(w);
    RunAlike(w, v, es);
    RunKeeps(v, es);
    RunDelivers(v, es);
    PassedAlike(Run(w, es), Run(v, es), p);
  }

  lemma PassedAlike(w: World, v: World, p: Pos)
    requires Alike(w, v) && Inv(w) && Inv(v) && w.session.Some? && Settled(w)
    requires w.LineStart(p) && w.Finished(p) && AtMost(v.past.baseline.value, p) && Before(p, w.Reading())
    ensures Delivery(p, LineAt(w.File(p.gen), p.off)) in v.past.delivered
  {
    assert v.Reading() == w.Reading() && v.File(p.gen) == w.File(p.gen);
    assert Settled(v);
    assert v.Since(p) && v.Finished(p);
  }
}
