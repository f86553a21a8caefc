/** What the scanner guarantees over whole runs, and exactly where the guarantees end. */
module ProtocolTheorems {
  import opened Results
  import opened Lines
  import opened Reading
  import opened RegFile
  import opened RotatedFile
  import opened Sessions
  import opened Protocol

  // ---- runs ----

  ghost predicate Legal(w: World, es: seq<Event>)
    decreases |es|
  {
    es == [] || (w.Shape() && Enabled(w, es[0]) && Legal(Apply(w, es[0]), es[1..]))
  }

  ghost function Run(w: World, es: seq<Event>): World
    requires Legal(w, es)
    decreases |es|
  {
    if es == [] then w else Run(Apply(w, es[0]), es[1..])
  }

  lemma {:induction false} RunKeeps(w: World, es: seq<Event>)
    requires Inv(w) && Legal(w, es)
    ensures Inv(Run(w, es))
    decreases |es|
  {
    if es != [] {
      StepKeeps(w, es[0]);
      RunKeeps(Apply(w, es[0]), es[1..]);
    }
  }

  lemma ReachableInv(w0: World, es: seq<Event>)
    requires Initial(w0) && Legal(w0, es)
    ensures Inv(Run(w0, es))
  {
    RunKeeps(w0, es);
  }

  /** At least once: after any run, every finished line since the cold start was delivered, in this or an
      earlier session, or lies at or after the position that the reg file records. */
  lemma AtLeastOnce(w0: World, es: seq<Event>, p: Pos)
    requires Initial(w0) && Legal(w0, es)
    ensures var w := Run(w0, es);
            && w.Shape()
            && (w.past.baseline.Some? ==>
                  w.InFile(w.past.durable)
                  && w.reg == Some(FormatReg(w.past.durable.off, w.past.gens[w.past.durable.gen])))
            && (w.Since(p) && w.Finished(p) ==> w.Delivered(p) || AtMost(w.past.durable, p))
  {
    ReachableInv(w0, es);
  }

  lemma FalseScanAtEnd(w: World)
    requires Inv(w) && Enabled(w, ScanNext)
    requires !w.session.value.done && !Scan(w.session.value, w.data, w.bufSize).1
    ensures AfterScan(w).past == w.past && AfterScan(w).data == w.data
    ensures AfterScan(w).Reading() == Pos(w.past.epoch, |w.File(w.past.epoch)|)
  {
  }

  lemma PassedAll(w: World, p: Pos)
    requires Inv(w) && w.session.Some? && w.Reading() == Pos(w.Top(), |w.File(w.Top())|)
    ensures w.Since(p) && w.Finished(p) ==> w.Delivered(p)
  {
    if w.Since(p) && w.Finished(p) {
      assert Before(p, w.Reading());
    }
  }

  /** When a session on the log itself runs dry, every finished line since the cold start has been
      delivered. */
  lemma ExhaustedDelivers(w0: World, es: seq<Event>, p: Pos)
    requires Initial(w0) && Legal(w0, es)
    requires var w := Run(w0, es);
             && w.Shape() && Enabled(w, ScanNext)
             && !w.session.value.done && !Scan(w.session.value, w.data, w.bufSize).1
             && w.past.epoch == w.Top()
    ensures var w := Run(w0, es); w.Since(p) && w.Finished(p) ==> w.Delivered(p)
  {
    ReachableInv(w0, es);
    ExhaustedAt(Run(w0, es), p);
  }

  lemma ExhaustedAt(w: World, p: Pos)
    requires Inv(w) && Enabled(w, ScanNext) && w.past.epoch == w.Top()
    requires !w.session.value.done && !Scan(w.session.value, w.data, w.bufSize).1
    ensures w.Since(p) && w.Finished(p) ==> w.Delivered(p)
  {
    ScanKeeps(w);
    FalseScanAtEnd(w);
    PassedAll(AfterScan(w), p);
  }

  /** A CommitOffset with less than the offset last committed. */
  ghost predicate Rewinds(w: World, e: Event) {
    e.CommitAt? && w.session.Some? && e.offset < w.session.value.lastCommitted
  }

  /** A step moves the recorded position back if and only if it is a CommitOffset that asks for it: no
      Commit, restart or rotation ever does. */
  lemma StepDurable(w: World, e: Event)
    requires Inv(w) && Enabled(w, e) && w.past.baseline.Some?
    ensures Apply(w, e).past.baseline == w.past.baseline
    ensures AtMost(w.past.durable, Apply(w, e).past.durable) <==> !Rewinds(w, e)
  {
    match e
    case Construct => RestartResumesAtDurable(w);
    case CommitNow => CommitKeeps(w, w.session.value.CommitPoint());
    case CommitAt(offset) => CommitKeeps(w, offset);
    case _ =>
  }

  ghost predicate NeverRewinds(w: World, es: seq<Event>)
    requires Legal(w, es)
    decreases |es|
  {
    es == [] || (!Rewinds(w, es[0]) && NeverRewinds(Apply(w, es[0]), es[1..]))
  }

  /** Over a run without such a CommitOffset the recorded position only moves forward. */
  lemma {:induction false} DurableNeverMovesBack(w: World, es: seq<Event>)
    requires Inv(w) && Legal(w, es) && w.past.baseline.Some? && NeverRewinds(w, es)
    ensures Run(w, es).past.baseline == w.past.baseline
    ensures AtMost(w.past.durable, Run(w, es).past.durable)
    decreases |es|
  {
    if es != [] {
      StepKeeps(w, es[0]);
      StepDurable(w, es[0]);
      DurableNeverMovesBack(Apply(w, es[0]), es[1..]);
    }
  }

  /** A true Scan took the line at its mark. */
  lemma TrueScanTakes(w: World)
    requires Inv(w) && Enabled(w, ScanNext) && Scan(w.session.value, w.data, w.bufSize).1
    ensures var w' := AfterScan(w); var s, m := w'.session.value, w'.past.mark;
            && m.gen < |w.past.gens| && m.gen == w'.Reading().gen
            && NextLine(w.File(m.gen), m.off, w.bufSize).Line?
            && NextLine(w.File(m.gen), m.off, w.bufSize).text == s.line
            && Delivery(m, s.line) in w'.past.delivered
  {
  }

  lemma TakenText(d: bytes, pos: nat, bufSize: nat)
    requires bufSize >= MIN_BUF_SIZE && NextLine(d, pos, bufSize).Line?
    ensures NextLine(d, pos, bufSize).text == if Terminated(d, pos) then LineAt(d, pos) else d[pos..]
  {
  }

  /** The offset a Commit would store is never past the place the last delivered line was taken from, and is
      exactly that place if and only if no line before it in this session and file ended in carriage return,
      line feed. The delivered bytes are those from there to the line feed or the end of the file. Module
      LineStarts says when that place is the start of a line. */
  lemma OffsetExact(w0: World, es: seq<Event>)
    requires Initial(w0) && Legal(w0, es)
    requires var w := Run(w0, es);
             w.Shape() && Enabled(w, ScanNext) && Scan(w.session.value, w.data, w.bufSize).1
    ensures var w' := AfterScan(Run(w0, es)); var s, m := w'.session.value, w'.past.mark;
            && w'.Shape() && w'.InFile(m)
            && s.CommitPoint() <= m.off
            && (s.CommitPoint() == m.off <==> NoCRLF(w'.File(m.gen), w'.past.origin, m.off))
            && s.line == (if w'.Finished(m) then LineAt(w'.File(m.gen), m.off) else w'.File(m.gen)[m.off..])
            && Delivery(m, s.line) in w'.past.delivered
  {
    ReachableInv(w0, es);
    OffsetExactAt(Run(w0, es));
  }

  lemma OffsetExactAt(w: World)
    requires Inv(w) && Enabled(w, ScanNext) && Scan(w.session.value, w.data, w.bufSize).1
    ensures var w' := AfterScan(w); var s, m := w'.session.value, w'.past.mark;
            && w'.Shape() && w'.InFile(m)
            && s.CommitPoint() <= m.off
            && (s.CommitPoint() == m.off <==> NoCRLF(w'.File(m.gen), w'.past.origin, m.off))
            && s.line == (if w'.Finished(m) then LineAt(w'.File(m.gen), m.off) else w'.File(m.gen)[m.off..])
            && Delivery(m, s.line) in w'.past.delivered
  {
    ScanKeeps(w);
    TrueScanTakes(w);
    var w' := AfterScan(w);
    var m := w'.past.mark;
    assert w'.File(m.gen) == w.File(m.gen);
    TakenText(w.File(m.gen), m.off, w.bufSize);
    CountCRLFNone(w'.File(m.gen), w'.past.origin, m.off);
  }

  // ---- when a Commit is safe ----

  /** The record names a place in the log's life that is not past the last delivered line. */
  ghost predicate RecordCovers(w: World, reg: string)
    requires w.Shape()
  {
    exists g: nat, off: nat ::
      g < |w.past.gens| && ParseReg(reg) == Ok(RegData(off, w.past.gens[g])) && AtMost(Pos(g, off), w.past.mark)
  }

  lemma CommitRecord(w: World, offset: int)
    requires Inv(w) && w.session.Some? && MIN_INT64 <= offset <= MAX_INT64
    ensures var s := w.session.value;
            && w.reg.Some?
            && ParseReg(CommitOffset(s, w.reg.value, offset).1)
               == if offset == s.lastCommitted
                  then Ok(RegData(w.past.durable.off, w.past.gens[w.past.durable.gen]))
                  else Ok(RegData(offset, w.past.gens[w.past.epoch]))
  {
    if offset == w.session.value.lastCommitted {
      RegRoundTrip(w.past.durable.off, w.past.gens[w.past.durable.gen]);
    } else {
      RegRoundTrip(offset, w.past.gens[w.past.epoch]);
    }
  }

  lemma CommitCovers(w: World, offset: int)
    requires Inv(w) && w.session.Some? && MIN_INT64 <= offset <= MAX_INT64
    ensures var s, k, m := w.session.value, w.past.epoch, w.past.mark;
            && w.reg.Some?
            && (RecordCovers(w, CommitOffset(s, w.reg.value, offset).1) <==>
                  offset == s.lastCommitted || (s.rotated.None? && m.gen == k && 0 <= offset <= m.off))
  {
    var s, k, m := w.session.value, w.past.epoch, w.past.mark;
    CommitRecord(w, offset);
    if offset == s.lastCommitted {
      assert AtMost(Pos(w.past.durable.gen, w.past.durable.off), m);
    } else if s.rotated.None? && m.gen == k && 0 <= offset <= m.off {
      assert AtMost(Pos(k, offset), m);
    } else {
      assert forall g: nat :: g < |w.past.gens| && w.past.gens[g] == w.past.gens[k] ==> g == k;
    }
  }

  lemma GuardIsPlace(w: World, offset: int)
    requires Inv(w) && w.session.Some?
    requires offset <= w.session.value.CommitPoint()
             || (w.InFile(w.past.mark) && w.past.origin <= w.past.mark.off
                 && NoCRLF(w.File(w.past.mark.gen), w.past.origin, w.past.mark.off))
    ensures var s, k, m := w.session.value, w.past.epoch, w.past.mark;
            CommitSafe(s, offset) <==>
              offset == s.lastCommitted || (s.rotated.None? && m.gen == k && 0 <= offset <= m.off)
  {
    if w.past.mark.gen == w.Reading().gen {
      CountCRLFNone(w.File(w.past.mark.gen), w.past.origin, w.past.mark.off);
    }
  }

  /** The record after a Commit, at any moment of any run, is one a restart can trust if and only if the
      guard held: there was nothing to write, or the rotated file was done with and the offset was not
      negative. */
  lemma CommitSafeExactly(w0: World, es: seq<Event>)
    requires Initial(w0) && Legal(w0, es) && Run(w0, es).session.Some?
    ensures var w := Run(w0, es); var s := w.session.value;
            && w.Shape() && w.reg.Some?
            && (RecordCovers(w, Commit(s, w.reg.value).1) <==>
                  s.CommitPoint() == s.lastCommitted || (s.rotated.None? && s.CommitPoint() >= 0))
  {
    ReachableInv(w0, es);
    var w := Run(w0, es);
    CommitCovers(w, w.session.value.CommitPoint());
    GuardIsPlace(w, w.session.value.CommitPoint());
  }

  /** The same for CommitOffset with an offset of the caller's. The guard is also necessary for an offset
      up to the one Commit would store and, while no line of this session lost a carriage return, for every
      offset; otherwise offsets a little past that one are still not past the last delivered line. */
  lemma CommitOffsetSafeExactly(w0: World, es: seq<Event>, offset: int)
    requires Initial(w0) && Legal(w0, es) && Run(w0, es).session.Some?
    requires MIN_INT64 <= offset <= MAX_INT64
    ensures var w := Run(w0, es); var s, m := w.session.value, w.past.mark;
            && w.Shape() && w.reg.Some? && w.InFile(m)
            && var covers := RecordCovers(w, CommitOffset(s, w.reg.value, offset).1);
            && (CommitSafe(s, offset) ==> covers)
            && (covers && !CommitSafe(s, offset) ==> s.CommitPoint() < offset <= m.off)
            && (w.past.origin <= m.off && NoCRLF(w.File(m.gen), w.past.origin, m.off) ==>
                  (covers <==> CommitSafe(s, offset)))
  {
    ReachableInv(w0, es);
    var w := Run(w0, es);
    var s, m := w.session.value, w.past.mark;
    CommitCovers(w, offset);
    if offset <= s.CommitPoint()
       || (w.past.origin <= m.off && NoCRLF(w.File(m.gen), w.past.origin, m.off)) {
      GuardIsPlace(w, offset);
    }
  }

  /** A record with a negative offset, like a blank one, makes the next session start at the end of the
      log: nothing that is in it is delivered. */
  lemma ColdRecordSkipsLog(dir: Directory, name: string, data: Contents, reg: string, bufSize: nat)
    requires Backed(dir, data) && bufSize >= MIN_BUF_SIZE && Stat(dir, name).Some?
    requires ParseReg(reg).Ok? && ParseReg(reg).value.offset < 0
    ensures var inode := Stat(dir, name).value.inode;
            var start := Open(dir, name, data, Some(reg));
            && start == Ok(StartAt(inode, |data[inode]|))
            && start.value.session.Valid(data) && Owed(start.value.session, data, bufSize) == []
  {
  }

  /** The guard's first gap: a session whose rotated file is drained and whose new file is still empty
      scans false, and a Commit then records a negative offset, so that whatever is appended to the new
      file before the next construction is skipped. */
  lemma CommitAfterEmptyNewFile(s: Session, data: Contents, bufSize: nat, reg: string,
                                dir: Directory, name: string, later: Contents)
    requires s.Valid(data) && bufSize >= MIN_BUF_SIZE && !s.done && s.rotated.Some?
    requires !NextLine(data[s.rotated.value.inode], s.rotated.value.pos, bufSize).Line?
    requires data[s.reader.inode] == [] && 0 < s.lastScannedBytes <= MAX_INT64 && s.reader.inode <= MAX_UINT64
    requires Backed(dir, later) && Stat(dir, name).Some?
    ensures var (s', ok) := Scan(s, data, bufSize);
            var reg' := Commit(s', reg).1;
            var inode := Stat(dir, name).value.inode;
            && !ok && !CommitSafe(s', s'.CommitPoint()) && reg' == FormatReg(0 - s.lastScannedBytes, s.reader.inode)
            && Open(dir, name, later, Some(reg')) == Ok(StartAt(inode, |later[inode]|))
            && StartAt(inode, |later[inode]|).session.Valid(later)
            && Owed(StartAt(inode, |later[inode]|).session, later, bufSize) == []
  {
    var s' := Scan(s, data, bufSize).0;
    RegRoundTrip(0 - s.lastScannedBytes, s.reader.inode);
    ColdRecordSkipsLog(dir, name, later, Commit(s', reg).1, bufSize);
  }

  /** The guard's second gap: a Commit that writes while the rotated file is being drained records its
      offset under the new file's inode, so that the next session never looks for the rotated file. */
  lemma CommitWhileDraining(s: Session, reg: string, dir: Directory, name: string, later: Contents)
    requires s.rotated.Some? && s.CommitPoint() != s.lastCommitted && 0 <= s.CommitPoint() <= MAX_INT64
    requires s.reader.inode <= MAX_UINT64
    requires Backed(dir, later) && HasInode(dir, name, s.reader.inode)
    ensures var reg' := Commit(s, reg).1;
            var start := Open(dir, name, later, Some(reg'));
            && !CommitSafe(s, s.CommitPoint())
            && start == Ok(StartAt(s.reader.inode, if |later[s.reader.inode]| < s.CommitPoint() then 0
                                                   else s.CommitPoint()))
            && start.value.session.rotated.None?
  {
    RegRoundTrip(s.CommitPoint(), s.reader.inode);
  }

  /** What finishing a half-written line does when the session that reads the file has just taken it: the
      text delivered is the line exactly when the writer added nothing but its line end, and in every case
      the rest is delivered as a line of its own, and counted once more than there are bytes. The offset a
      Commit then stores is past the line's start unless as many carriage returns went uncounted before. */
  lemma FinishingADeliveredTail(s: Session, data: Contents, bufSize: nat, more: bytes)
    requires s.Valid(data) && bufSize >= MIN_BUF_SIZE && !s.done && s.rotated.None?
    requires var d, p := data[s.reader.inode], s.reader.pos;
             p < |d| && !Terminated(d, p) && !TailDropped(d, p, bufSize)
    requires Terminated(more, 0)
    ensures var d, p := data[s.reader.inode], s.reader.pos;
            var data' := data[s.reader.inode := d + more];
            var (s1, ok1) := Scan(s, data, bufSize);
            && s1.Valid(data') && ok1
            && var (s2, ok2) := Scan(s1, data', bufSize);
            && ok2 && Terminated(d + more, p)
            && (s1.line == LineAt(d + more, p) <==>
                  LineAt(more, 0) == [] && (more[0] == LF ==> d[|d| - 1] != CR))
            && s2.line == LineAt(more, 0)
            && (s2.line == LineAt(d + more, p) <==> more[0] == LF && d[p..] == [CR])
            && s2.CommitPoint() == s.pendingOffset + (|d| - p) + 1
  {
    var d, p := data[s.reader.inode], s.reader.pos;
    var e := d + more;
    var k := FindLF(more, 0);
    FindLFFinds(d, p);
    FindLFFinds(more, 0);
    FindLFIs(e, p, |d| + k);
    FindLFIs(e, |d|, |d| + k);
    FinishedRest(d, more, k);
    FinishedTexts(d, more, p, k);
  }

  /** Why the writer is held back in the runs, and only then: when a half-written line that the open session
      has just taken is finished, the next Scan takes the rest as a line of its own, from a place that is no
      line start, and the offset a Commit then stores is one more than every other place is counted as, so
      that it is past that place unless a carriage return went uncounted before. */
  lemma HeldTailMiscounts(w0: World, es: seq<Event>, more: bytes)
    requires Initial(w0) && Legal(w0, es) && Terminated(more, 0)
    requires Run(w0, es).Shape() && HoldsTail(Run(w0, es))
    ensures var w := Run(w0, es);
            var d, m, s := w.File(w.Top()), w.past.mark, w.session.value;
            var data' := w.data[w.Current() := d + more];
            && m.gen == w.Top() && w.past.origin <= m.off < |d| && s.Valid(data') && s.reader.inode == w.Current()
            && !IsStart(d + more, |d|)
            && var (s', ok) := Scan(s, data', w.bufSize);
            && ok && s.reader.pos == |d| && s'.line == LineAt(d + more, |d|)
            && s'.CommitPoint() == |d| + 1 - CountCRLF(d, w.past.origin, m.off)
            && (s'.CommitPoint() > |d| <==> NoCRLF(d, w.past.origin, m.off))
  {
    ReachableInv(w0, es);
    var w := Run(w0, es);
    HeldTailPlaces(w);
    RestIsTaken(w.File(w.Top()), more, w.bufSize);
  }

  lemma HeldTailPlaces(w: World)
    requires Inv(w) && HoldsTail(w)
    ensures var d, m, s := w.File(w.Top()), w.past.mark, w.session.value;
            && m.gen == w.Top() && w.past.origin <= m.off < |d| && s.rotated.None? && s.reader.inode == w.Current()
            && s.reader.pos == |d| && d[|d| - 1] != LF
            && s.pendingOffset == |d| + 1 - CountCRLF(d, w.past.origin, m.off)
            && (s.pendingOffset > |d| <==> NoCRLF(d, w.past.origin, m.off))
  {
    CountCRLFNone(w.File(w.Top()), w.past.origin, w.past.mark.off);
  }

  lemma RestIsTaken(d: bytes, more: bytes, bufSize: nat)
    requires bufSize >= MIN_BUF_SIZE && d != [] && d[|d| - 1] != LF && Terminated(more, 0)
    ensures var next := NextLine(d + more, |d|, bufSize);
            next.Line? && next.text == LineAt(d + more, |d|) && !IsStart(d + more, |d|)
  {
    var k := FindLF(more, 0);
    FindLFFinds(more, 0);
    FindLFIs(d + more, |d|, |d| + k);
  }

  lemma FinishedRest(d: bytes, more: bytes, k: nat)
    requires k < |more|
    ensures LineText(d + more, |d|, |d| + k) == LineText(more, 0, k)
  {
    var e := d + more;
    assert e[|d|..|d| + k] == more[0..k];
    if k > 0 {
      assert e[|d| + k - 1] == more[k - 1] && e[|d|..|d| + k - 1] == more[0..k - 1];
    }
  }

  /** The finished line's text against the two pieces. */
  lemma FinishedTexts(d: bytes, more: bytes, p: nat, k: nat)
    requires p < |d| && k < |more| && more[k] == LF && NoLF(more, 0, k)
    ensures var whole, rest := LineText(d + more, p, |d| + k), LineText(more, 0, k);
            && (d[p..] == whole <==> rest == [] && (more[0] == LF ==> d[|d| - 1] != CR))
            && (rest == whole <==> more[0] == LF && d[p..] == [CR])
  {
    var e := d + more;
    if k == 0 {
      assert e[p..|d|] == d[p..] && |e[p..|d| - 1]| == |d| - 1 - p;
      assert d[p..][|d| - 1 - p] == d[|d| - 1];
    } else {
      assert |e[p..|d| + k]| == |d| - p + k && |e[p..|d| + k - 1]| == |d| - p + k - 1;
      assert e[|d| + k - 1] == more[k - 1];
      assert k == 1 ==> e[p..|d|] == d[p..];
    }
  }

  // ---- restarts without the guard on rotation ----

  /** The lines of a whole file. */
  ghost function OwedFile(w: World, g: nat): seq<bytes>
    requires w.Shape() && g < |w.past.gens|
  {
    OwedLines(w.File(g), 0, w.bufSize)
  }

  /** The lines of whole files, from the a-th up to but excluding the b-th. */
  ghost function OwedBetween(w: World, a: nat, b: nat): seq<bytes>
    requires w.Shape() && a <= b <= |w.past.gens|
    decreases b - a
  {
    if a == b then [] else OwedFile(w, a) + OwedBetween(w, a + 1, b)
  }

  /** The recorded file's lines from the recorded position on. */
  ghost function Remainder(w: World): seq<bytes>
    requires w.Shape() && w.past.durable.gen < |w.past.gens|
  {
    OwedLines(w.File(w.past.durable.gen), w.past.durable.off, w.bufSize)
  }

  /** Every line from the recorded position to the end of the log. */
  ghost function OwedSince(w: World): seq<bytes>
    requires w.Shape() && w.past.durable.gen < |w.past.gens|
  {
    Remainder(w) + OwedBetween(w, w.past.durable.gen + 1, |w.past.gens|)
  }

  /** Files that hold nothing to deliver hold no finished line: the guard of the runs asks for less. */
  lemma NothingIsNoLine(w: World)
    requires w.Shape() && w.past.durable.gen < |w.past.gens| && PassesOverNothing(w)
    ensures w.PassesOverNoLine()
  {
    var q := w.past.durable;
    if q.gen < w.Top() {
      forall g | q.gen < g < w.Top()
        ensures NoLF(w.File(g), 0, |w.File(g)|)
      {
        assert Spent(w.File(g), 0, w.bufSize);
        FindLFFinds(w.File(g), 0);
      }
      FindLFFinds(w.File(q.gen), Clip(w.File(q.gen), q.off));
    }
  }

  /** The whole files from the a-th up to but excluding the b-th hold nothing to deliver. */
  ghost predicate NothingBetween(w: World, a: nat, b: nat)
    requires w.Shape() && b <= |w.past.gens|
  {
    forall g :: a <= g < b ==> Spent(w.File(g), 0, w.bufSize)
  }

  /** What a restart passes over holds nothing to deliver. When the recorded file is the log, it passes
      over nothing; when it is found, over the files between; when not, over its own remainder as well. */
  ghost predicate PassesOverNothing(w: World)
    requires w.Shape() && w.past.durable.gen < |w.past.gens|
  {
    var q, top := w.past.durable, w.Top();
    q.gen < top ==>
      && NothingBetween(w, q.gen + 1, top)
      && (w.Found() || Spent(w.File(q.gen), q.off, w.bufSize))
  }

  lemma {:induction false} OwedBetweenNothing(w: World, a: nat, b: nat)
    requires w.Shape() && a <= b <= |w.past.gens|
    ensures OwedBetween(w, a, b) == [] <==> NothingBetween(w, a, b)
    decreases b - a
  {
    if a < b {
      SpentOwesNothing(w.File(a), 0, w.bufSize);
      OwedBetweenNothing(w, a + 1, b);
    }
  }

  lemma {:induction false} OwedBetweenLast(w: World, a: nat, b: nat)
    requires w.Shape() && a <= b < |w.past.gens|
    ensures OwedBetween(w, a, b + 1) == OwedBetween(w, a, b) + OwedFile(w, b)
    decreases b - a
  {
    if a < b {
      OwedBetweenLast(w, a + 1, b);
    } else {
      assert OwedBetween(w, a + 1, b + 1) == [];
    }
  }

  /** What a restart will deliver, however often the log was rotated and whatever is left in the
      directory, is every line since the recorded position if and only if it passes over nothing: each
      file in between, and the recorded one's remainder when that file is not found, is empty or down to
      a tail that the reader drops. */
  lemma RestartCompleteExactly(w0: World, es: seq<Event>)
    requires Initial(w0) && Legal(w0, es) && Run(w0, es).past.baseline.Some?
    ensures var w := Run(w0, es);
            && w.Shape() && w.InFile(w.past.durable)
            && var start := Open(w.dir, w.name, w.data, w.reg);
            && start.Ok? && start.value.session.Valid(w.data)
            && (Owed(start.value.session, w.data, w.bufSize) == OwedSince(w) <==> PassesOverNothing(w))
  {
    ReachableInv(w0, es);
    RestartOwes(Run(w0, es));
    RestartLinesComplete(Run(w0, es));
  }

  lemma Splice(a: seq<bytes>, b: seq<bytes>, c: seq<bytes>, found: bool)
    ensures (if found then a + c else c) == a + (b + c) <==> b == [] && (found || a == [])
  {
    assert |a + (b + c)| == |a| + |b| + |c|;
  }

  /** What a restart delivers, said in files and positions. */
  ghost function RestartLines(w: World): seq<bytes>
    requires w.Shape() && w.past.durable.gen < |w.past.gens|
  {
    if w.past.durable.gen == w.Top() then Remainder(w)
    else if w.Found() then Remainder(w) + OwedFile(w, w.Top())
    else OwedFile(w, w.Top())
  }

  lemma OwedByStart(s: Session, data: Contents, bufSize: nat)
    requires s.Valid(data) && bufSize >= MIN_BUF_SIZE && !s.done
    ensures Owed(s, data, bufSize)
         == if s.rotated.None? then OwedBy(s.reader, data, bufSize)
            else OwedBy(s.rotated.value, data, bufSize) + OwedBy(s.reader, data, bufSize)
  {
    ReadAllIsSplit(data[s.reader.inode], s.reader.pos, bufSize);
    if s.rotated.Some? {
      ReadAllIsSplit(data[s.rotated.value.inode], s.rotated.value.pos, bufSize);
    } else {
      assert [] + OwedNew(s, data, bufSize) == OwedNew(s, data, bufSize);
    }
  }

  lemma RestartOwes(w: World)
    requires Inv(w) && w.past.baseline.Some?
    ensures var start := Open(w.dir, w.name, w.data, w.reg);
            && start.Ok? && start.value.session.Valid(w.data)
            && Owed(start.value.session, w.data, w.bufSize) == RestartLines(w)
  {
    RestartSession(w);
    OwedByStart(Open(w.dir, w.name, w.data, w.reg).value.session, w.data, w.bufSize);
  }

  lemma OwedSinceSplit(w: World)
    requires w.Shape() && w.past.durable.gen <= w.Top()
    ensures OwedSince(w)
         == if w.past.durable.gen == w.Top() then Remainder(w)
            else Remainder(w) + (OwedBetween(w, w.past.durable.gen + 1, w.Top()) + OwedFile(w, w.Top()))
  {
    if w.past.durable.gen == w.Top() {
      assert Remainder(w) + [] == Remainder(w);
    } else {
      OwedBetweenLast(w, w.past.durable.gen + 1, w.Top());
    }
  }

  lemma PassesOver(w: World)
    requires w.Shape() && w.past.durable.gen < w.Top()
    ensures PassesOverNothing(w) <==>
              OwedBetween(w, w.past.durable.gen + 1, w.Top()) == [] && (w.Found() || Remainder(w) == [])
  {
    var q := w.past.durable;
    assert OwedBetween(w, q.gen + 1, w.Top()) == [] <==> NothingBetween(w, q.gen + 1, w.Top()) by {
      OwedBetweenNothing(w, q.gen + 1, w.Top());
    }
    assert Remainder(w) == [] <==> Spent(w.File(q.gen), q.off, w.bufSize) by {
      SpentOwesNothing(w.File(q.gen), q.off, w.bufSize);
    }
  }

  lemma RestartLinesComplete(w: World)
    requires w.Shape() && w.past.durable.gen < |w.past.gens|
    ensures RestartLines(w) == OwedSince(w) <==> PassesOverNothing(w)
  {
    OwedSinceSplit(w);
    if w.past.durable.gen < w.Top() {
      PassesOver(w);
      Splice(Remainder(w), OwedBetween(w, w.past.durable.gen + 1, w.Top()), OwedFile(w, w.Top()), w.Found());
    }
  }
}
