/** Where the stored offsets lie. While no line ends in carriage return, line feed, the scanner stores positions
    between two lines, and delivers whole lines, exactly when its first session found the log without a
    half-written line and CommitOffset was given such positions only. */
module LineStarts {
  import opened Results
  import opened Lines
  import opened Reading
  import opened Sessions
  import opened Protocol
  import opened ProtocolTheorems

  /** No line of any file ends in carriage return, line feed; with no carriage return at all, none does. */
  ghost predicate NoCRLFs(w: World) {
    w.Shape() && forall g :: 0 <= g < |w.past.gens| ==> NoCRLF(w.File(g), 0, |w.File(g)|)
  }

  /** The place lies between two lines of its file. */
  ghost predicate OnLine(w: World, p: Pos)
    requires w.Shape()
  {
    p.gen < |w.past.gens| && Boundary(w.File(p.gen), p.off)
  }

  ghost predicate OnLineBut(w: World, p: Pos, other: Option<Pos>)
    requires w.Shape()
  {
    other == Some(p) || OnLine(w, p)
  }

  /** Everything a run starts from, stores or delivers lies between lines, or at the one other place. */
  ghost predicate LineInv(w: World, other: Option<Pos>)
    requires w.Shape()
  {
    && (w.past.baseline.Some? ==> OnLineBut(w, w.past.durable, other))
    && (w.session.Some? ==>
          && OnLineBut(w, w.past.mark, other)
          && (w.past.mark.gen == w.Reading().gen ==> OnLineBut(w, Pos(w.past.mark.gen, w.past.origin), other)))
  }

  // ---- what a caller can see to ----

  /** A CommitOffset that writes is given a place between two lines of the session's own file. */
  ghost predicate CommitOnLine(w: World, e: Event)
    requires w.Shape()
  {
    e.CommitAt? && w.session.Some? && e.offset != w.session.value.lastCommitted ==>
      w.past.epoch < |w.past.gens| && Boundary(w.File(w.past.epoch), e.offset)
  }

  ghost predicate CommitsOnLine(w: World, es: seq<Event>)
    requires Legal(w, es)
    decreases |es|
  {
    es == [] || (CommitOnLine(w, es[0]) && CommitsOnLine(Apply(w, es[0]), es[1..]))
  }

  /** The first session found the log empty or ending in a line feed. */
  ghost predicate CleanStart(w: World, es: seq<Event>)
    requires Legal(w, es)
    decreases |es|
  {
    es == [] || w.past.baseline.Some?
    || (if es[0].Construct? then LfTerminated(w.File(w.Top())) else CleanStart(Apply(w, es[0]), es[1..]))
  }

  // ---- steps ----

  /** No step changes what is before a place in a file. */
  lemma StepOnLine(w: World, e: Event, p: Pos)
    requires w.Shape() && Enabled(w, e) && Apply(w, e).Shape() && w.InFile(p)
    ensures Apply(w, e).InFile(p) && (OnLine(Apply(w, e), p) <==> OnLine(w, p))
  {
    match e
    case Append(more) => AppendShape(w, more);
    case Rotate(newDir, newInode) => RotateShape(w, newDir, newInode);
    case _ =>
  }

  lemma StepNoCRLFs(w: World, e: Event)
    requires w.Shape() && Enabled(w, e) && Apply(w, e).Shape() && NoCRLFs(Apply(w, e))
    ensures NoCRLFs(w)
  {
    var w' := Apply(w, e);
    forall g | 0 <= g < |w.past.gens|
      ensures NoCRLF(w.File(g), 0, |w.File(g)|)
    {
      StepGrows(w, e, g);
      forall i | 0 <= i < |w.File(g)| - 1
        ensures !CRLFAt(w.File(g), i)
      {
        assert !CRLFAt(w'.File(g), i);
      }
    }
  }

  lemma StepGrows(w: World, e: Event, g: nat)
    requires w.Shape() && Enabled(w, e) && Apply(w, e).Shape() && g < |w.past.gens|
    ensures g < |Apply(w, e).past.gens| && w.File(g) <= Apply(w, e).File(g)
  {
    match e
    case Append(more) => AppendShape(w, more);
    case Rotate(newDir, newInode) => RotateShape(w, newDir, newInode);
    case _ =>
  }

  /** What a construction needs: the first one starts at the end of the log. */
  ghost predicate StartOnLine(w: World, e: Event, other: Option<Pos>)
    requires w.Shape()
  {
    e.Construct? && w.past.baseline.None? ==> OnLineBut(w, Pos(w.Top(), |w.File(w.Top())|), other)
  }

  /** The writer, and the end of a session, change no place. */
  lemma WriterOnLine(w: World, e: Event, other: Option<Pos>)
    requires Inv(w) && Enabled(w, e) && LineInv(w, other)
    requires e.Append? || e.Rotate? || e.Tidy? || e.Crash?
    ensures Inv(Apply(w, e)) && LineInv(Apply(w, e), other)
  {
    StepKeeps(w, e);
    if w.past.baseline.Some? {
      StepOnLine(w, e, w.past.durable);
    }
    if w.session.Some? {
      StepOnLine(w, e, w.past.mark);
      if w.past.mark.gen == w.Reading().gen {
        StepOnLine(w, e, Pos(w.past.mark.gen, w.past.origin));
      }
    }
  }

  /** The cold start is set by the first construction, at the end of the log, and by nothing else. */
  lemma StepBaseline(w: World, e: Event)
    requires Inv(w) && Enabled(w, e)
    ensures Inv(Apply(w, e))
    ensures Apply(w, e).past.baseline ==
              if w.past.baseline.None? && e.Construct? then Some(Pos(w.Top(), |w.File(w.Top())|))
              else w.past.baseline
    ensures w.past.baseline.None? && e.Construct? ==> Apply(w, e).past.durable == Pos(w.Top(), |w.File(w.Top())|)
    ensures e.Construct? ==> Apply(w, e).data == w.data && Apply(w, e).past.gens == w.past.gens
  {
    StepKeeps(w, e);
    if e.Construct? {
      RestartResumesAtDurable(w);
    }
  }

  lemma ConstructOnLine(w: World, other: Option<Pos>)
    requires Inv(w) && Enabled(w, Construct) && LineInv(w, other) && StartOnLine(w, Construct, other)
    ensures var w' := Apply(w, Construct);
            && Inv(w') && LineInv(w', other)
            && (w.past.baseline.None? ==> w'.past.durable == Pos(w.Top(), |w.File(w.Top())|))
  {
    RestartResumesAtDurable(w);
    ConstructKeeps(w);
  }

  /** The place a line is taken from lies between lines. */
  lemma ReadingOnLine(w: World, other: Option<Pos>)
    requires Inv(w) && LineInv(w, other) && w.session.Some?
    requires w.past.mark.gen == w.Reading().gen && w.Reading().off < |w.File(w.Reading().gen)|
    requires !w.session.value.done
    ensures OnLineBut(w, w.Reading(), other)
  {
  }

  /** Where a true Scan puts the mark: at the reading position, or at the start of the new file. */
  lemma ScanMark(w: World)
    requires Inv(w) && Enabled(w, ScanNext) && Scan(w.session.value, w.data, w.bufSize).1
    ensures var past, past', r := w.past, AfterScan(w).past, w.Reading();
            if past'.mark == r && past'.origin == past.origin
            then past.mark.gen == r.gen && r.off < |w.File(r.gen)|
            else past'.mark == Pos(past.epoch, 0) && past'.origin == 0
  {
  }

  lemma ScanSame(w: World)
    requires Inv(w) && Enabled(w, ScanNext)
    ensures var w' := AfterScan(w);
            && w'.data == w.data && w'.past.gens == w.past.gens
            && w'.past.baseline == w.past.baseline && w'.past.durable == w.past.durable
            && (!Scan(w.session.value, w.data, w.bufSize).1 ==>
                  w'.past == w.past && w'.Reading().gen >= w.Reading().gen)
  {
  }

  lemma ScanOnLine(w: World, other: Option<Pos>)
    requires Inv(w) && Enabled(w, ScanNext) && LineInv(w, other)
    ensures Inv(AfterScan(w)) && LineInv(AfterScan(w), other)
  {
    ScanKeeps(w);
    ScanSame(w);
    if Scan(w.session.value, w.data, w.bufSize).1 {
      ScanMark(w);
      if AfterScan(w).past.mark == w.Reading() && AfterScan(w).past.origin == w.past.origin {
        ReadingOnLine(w, other);
      }
    }
  }

  /** Without carriage returns before line feeds, a Commit stores the mark itself. */
  lemma CommitAtMark(w: World)
    requires Inv(w) && w.session.Some? && w.past.mark.gen == w.Reading().gen && NoCRLFs(w)
    ensures w.session.value.CommitPoint() == w.past.mark.off
  {
    var d := w.File(w.past.mark.gen);
    assert NoCRLF(d, 0, |d|);
    CountCRLFNone(d, w.past.origin, w.past.mark.off);
  }

  lemma CommitsStayOnLine(w: World, offset: int, other: Option<Pos>)
    requires Inv(w) && Enabled(w, CommitAt(offset)) && LineInv(w, other) && NoCRLFs(w)
    requires offset == w.session.value.CommitPoint() || CommitOnLine(w, CommitAt(offset))
    ensures Inv(AfterCommit(w, offset)) && LineInv(AfterCommit(w, offset), other)
  {
    CommitKeeps(w, offset);
    if offset != w.session.value.lastCommitted {
      CommitPlace(w, offset);
      CommitAtMark(w);
    }
  }

  lemma StepLineInv(w: World, e: Event, other: Option<Pos>)
    requires Inv(w) && Enabled(w, e) && LineInv(w, other) && NoCRLFs(w)
    requires StartOnLine(w, e, other) && CommitOnLine(w, e)
    ensures Inv(Apply(w, e)) && LineInv(Apply(w, e), other)
  {
    match e
    case Construct => ConstructOnLine(w, other);
    case ScanNext => ScanOnLine(w, other);
    case CommitNow => CommitsStayOnLine(w, w.session.value.CommitPoint(), other);
    case CommitAt(offset) => CommitsStayOnLine(w, offset, other);
    case _ => WriterOnLine(w, e, other);
  }

  // ---- runs ----

  lemma {:induction false} RunNoCRLFs(w: World, es: seq<Event>)
    requires Inv(w) && Legal(w, es) && NoCRLFs(Run(w, es))
    ensures NoCRLFs(w)
    decreases |es|
  {
    if es != [] {
      StepKeeps(w, es[0]);
      RunNoCRLFs(Apply(w, es[0]), es[1..]);
      StepNoCRLFs(w, es[0]);
    }
  }

  /** After every step the recorded position, if there is one, lies between two lines of its file. */
  ghost predicate AlwaysOnLine(w: World, es: seq<Event>)
    requires Legal(w, es)
    decreases |es|
  {
    && w.Shape() && (w.past.baseline.Some? ==> OnLine(w, w.past.durable))
    && (es != [] ==> AlwaysOnLine(Apply(w, es[0]), es[1..]))
  }

  /** A step that is not as it should be leaves a recorded position inside a line. */
  lemma StepOffLine(w: World, e: Event)
    requires Inv(w) && Enabled(w, e) && LineInv(w, None)
    requires !StartOnLine(w, e, None) || !CommitOnLine(w, e)
    ensures Inv(Apply(w, e)) && Apply(w, e).past.baseline.Some? && !OnLine(Apply(w, e), Apply(w, e).past.durable)
  {
    StepBaseline(w, e);
  }

  lemma CleanStartNext(w: World, es: seq<Event>)
    requires Inv(w) && es != [] && Legal(w, es) && StartOnLine(w, es[0], None)
    ensures CleanStart(w, es) <==> CleanStart(Apply(w, es[0]), es[1..])
  {
    StepBaseline(w, es[0]);
  }

  lemma {:induction false} AlwaysOnLineFrom(w: World, es: seq<Event>)
    requires Inv(w) && LineInv(w, None) && Legal(w, es) && NoCRLFs(Run(w, es))
    ensures AlwaysOnLine(w, es) <==> CleanStart(w, es) && CommitsOnLine(w, es)
    decreases |es|
  {
    if es != [] {
      var e, w', rest := es[0], Apply(w, es[0]), es[1..];
      RunNoCRLFs(w, es);
      if StartOnLine(w, e, None) && CommitOnLine(w, e) {
        StepLineInv(w, e, None);
        AlwaysOnLineFrom(w', rest);
        CleanStartNext(w, es);
        assert AlwaysOnLine(w, es) <==> AlwaysOnLine(w', rest);
        assert CommitsOnLine(w, es) <==> CommitsOnLine(w', rest);
      } else {
        StepOffLine(w, e);
        assert !AlwaysOnLine(w', rest);
        assert !(CleanStart(w, es) && CommitsOnLine(w, es));
      }
    }
  }

  /** Commit only ever stores places between two lines, in every state of every run, if and only if the first
      session found the log without a half-written line and CommitOffset was given such places only. */
  lemma RecordsBetweenLinesExactly(w0: World, es: seq<Event>)
    requires Initial(w0) && Legal(w0, es) && NoCRLFs(Run(w0, es))
    ensures AlwaysOnLine(w0, es) <==> CleanStart(w0, es) && CommitsOnLine(w0, es)
  {
    AlwaysOnLineFrom(w0, es);
  }

  // ---- delivered lines ----

  lemma {:induction false} RunKeepsBaseline(w: World, es: seq<Event>)
    requires Inv(w) && Legal(w, es) && w.past.baseline.Some?
    ensures Inv(Run(w, es)) && Run(w, es).past.baseline == w.past.baseline
    decreases |es|
  {
    if es != [] {
      StepBaseline(w, es[0]);
      RunKeepsBaseline(Apply(w, es[0]), es[1..]);
    }
  }

  lemma {:induction false} RunOnLine(w: World, es: seq<Event>, p: Pos)
    requires Inv(w) && Legal(w, es) && w.InFile(p)
    ensures Inv(Run(w, es)) && Run(w, es).InFile(p) && (OnLine(Run(w, es), p) <==> OnLine(w, p))
    decreases |es|
  {
    if es != [] {
      StepKeeps(w, es[0]);
      StepOnLine(w, es[0], p);
      RunOnLine(Apply(w, es[0]), es[1..], p);
    }
  }

  /** The cold start's place, seen from the end of the run. */
  lemma {:induction false} BaselineOnLine(w: World, es: seq<Event>)
    requires Inv(w) && Legal(w, es) && w.past.baseline.None? && Run(w, es).past.baseline.Some?
    ensures Inv(Run(w, es)) && (OnLine(Run(w, es), Run(w, es).past.baseline.value) <==> CleanStart(w, es))
    decreases |es|
  {
    var e, w', rest := es[0], Apply(w, es[0]), es[1..];
    StepBaseline(w, e);
    assert Run(w, es) == Run(w', rest);
    if e.Construct? {
      RunKeepsBaseline(w', rest);
      RunOnLine(w', rest, w'.past.baseline.value);
    } else {
      BaselineOnLine(w', rest);
    }
  }

  lemma {:induction false} RunLineInv(w: World, es: seq<Event>, other: Option<Pos>)
    requires Inv(w) && LineInv(w, other) && Legal(w, es) && NoCRLFs(Run(w, es)) && CommitsOnLine(w, es)
    requires w.past.baseline.None? ==> CleanStart(w, es) || other == Run(w, es).past.baseline
    ensures Inv(Run(w, es)) && LineInv(Run(w, es), other)
    decreases |es|
  {
    if es != [] {
      var e, w', rest := es[0], Apply(w, es[0]), es[1..];
      assert Run(w, es) == Run(w', rest);
      RunNoCRLFs(w, es);
      StepBaseline(w, e);
      if e.Construct? && w.past.baseline.None? {
        RunKeepsBaseline(w', rest);
      }
      StepLineInv(w, e, other);
      RunLineInv(w', rest, other);
    }
  }

  /** The line from a start to its line feed or the end of the file, one carriage return included. */
  ghost function WholeLine(d: bytes, s: nat): bytes
    requires s <= |d|
  {
    d[s..FindLF(d, s)]
  }

  /** It is a piece of the file's split. */
  lemma {:induction false} WholeLineInSplit(d: bytes, from: nat, s: nat)
    requires from <= s && Boundary(d, s) && Boundary(d, from)
    ensures WholeLine(d, s) in SplitLF(d, from)
    decreases |d| - from
  {
    FindLFFinds(d, from);
    var k := FindLF(d, from);
    if from < s {
      assert k < s && SplitLF(d, from) == [d[from..k]] + SplitLF(d, k + 1);
      WholeLineInSplit(d, k + 1, s);
    } else {
      assert SplitLF(d, from)[0] == WholeLine(d, s);
    }
  }

  lemma TakenWhole(d: bytes, s: nat, bufSize: nat)
    requires bufSize >= MIN_BUF_SIZE && NextLine(d, s, bufSize).Line? && NoCRLF(d, 0, |d|)
    ensures s < |d| && NextLine(d, s, bufSize).text == WholeLine(d, s)
  {
    var k := FindLF(d, s);
    FindLFFinds(d, s);
    if k < |d| && s < k {
      assert !CRLFAt(d, k - 1);
    }
  }

  /** After every true Scan of every run, the offset a Commit would store is the start of a line of the file
      being read, and what was delivered is that whole line, a piece of the file's split; except for one
      line: the one at the cold start's own place, when the log did not end in a line feed then. */
  lemma OffsetIsLineStartExactly(w0: World, es: seq<Event>)
    requires Initial(w0) && Legal(w0, es) && CommitsOnLine(w0, es) && NoCRLFs(Run(w0, es))
    requires Enabled(Run(w0, es), ScanNext)
    requires var w := Run(w0, es); Scan(w.session.value, w.data, w.bufSize).1
    ensures var w' := AfterScan(Run(w0, es)); var s, m := w'.session.value, w'.past.mark;
            && w'.Shape() && w'.InFile(m) && m.gen == w'.Reading().gen
            && s.CommitPoint() == m.off
            && s.line == WholeLine(w'.File(m.gen), m.off)
            && (IsStart(w'.File(m.gen), m.off) <==> (w'.past.baseline == Some(m) ==> CleanStart(w0, es)))
            && (IsStart(w'.File(m.gen), m.off) ==> s.line in SplitLF(w'.File(m.gen), 0))
  {
    ReachableInv(w0, es);
    var w := Run(w0, es);
    var other := if CleanStart(w0, es) then None else w.past.baseline;
    RunLineInv(w0, es, other);
    BaselineOnLine(w0, es);
    OffsetOnLine(w, other);
  }

  lemma OffsetOnLine(w: World, other: Option<Pos>)
    requires Inv(w) && LineInv(w, other) && NoCRLFs(w)
    requires Enabled(w, ScanNext) && Scan(w.session.value, w.data, w.bufSize).1
    ensures var w' := AfterScan(w); var s, m := w'.session.value, w'.past.mark;
            && Inv(w') && w'.InFile(m) && m.gen == w'.Reading().gen && w'.past.baseline == w.past.baseline
            && w'.File(m.gen) == w.File(m.gen)
            && s.CommitPoint() == m.off
            && s.line == WholeLine(w'.File(m.gen), m.off)
            && (IsStart(w'.File(m.gen), m.off) <==> OnLine(w, m)) && (other == Some(m) || OnLine(w, m))
            && (IsStart(w'.File(m.gen), m.off) ==> s.line in SplitLF(w'.File(m.gen), 0))
  {
    ScanOnLine(w, other);
    TrueScanTakes(w);
    var w' := AfterScan(w);
    var m := w'.past.mark;
    var d := w.File(m.gen);
    assert w'.data == w.data && w'.past.gens == w.past.gens;
    assert forall g :: 0 <= g < |w.past.gens| ==> w'.File(g) == w.File(g);
    CommitAtMark(w');
    assert NoCRLF(d, 0, |d|);
    TakenWhole(d, m.off, w.bufSize);
    if IsStart(d, m.off) {
      WholeLineInSplit(d, 0, m.off);
    }
  }
}
