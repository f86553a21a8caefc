/** Runs that end in each of the places where the scanner's guarantees end: every gap is reachable. */
module Gaps {
  import opened Results
  import opened Lines
  import opened Reading
  import opened RegFile
  import opened RotatedFile
  import opened Sessions
  import opened Protocol
  import opened ProtocolTheorems
  import opened LineStarts

  const LOG := "l"

  ghost predicate Reaches(w0: World, es: seq<Event>, w: World) {
    Initial(w0) && Legal(w0, es) && Run(w0, es) == w
  }

  lemma {:induction false} RunSnoc(w0: World, es: seq<Event>, e: Event)
    requires Legal(w0, es) && Run(w0, es).Shape() && Enabled(Run(w0, es), e)
    ensures Legal(w0, es + [e]) && Run(w0, es + [e]) == Apply(Run(w0, es), e)
    decreases |es|
  {
    if es == [] {
      assert [e][1..] == [];
    } else {
      RunSnoc(Apply(w0, es[0]), es[1..], e);
      assert (es + [e])[0] == es[0] && (es + [e])[1..] == es[1..] + [e];
    }
  }

  lemma Extend(w0: World, es: seq<Event>, w: World, e: Event) returns (more: seq<Event>)
    requires Reaches(w0, es, w) && w.Shape() && Enabled(w, e)
    ensures Reaches(w0, more, Apply(w, e))
  {
    RunSnoc(w0, es, e);
    more := es + [e];
  }

  // ---- the runs' common beginnings ----

  ghost function OldDir(): Directory {
    [Entry(LOG, false, 1)]
  }

  /** After a rotation that keeps the old file. */
  ghost function NewDir(): Directory {
    [Entry(LOG, false, 2), Entry(LOG + SUFFIXES[0], false, 1)]
  }

  ghost function Fresh(d: bytes, bufSize: nat): World {
    World(LOG, bufSize, OldDir(), map[1 := d], None, None, History([1], {}, None, Pos(0, 0), 0, 0, Pos(0, 0), 0))
  }

  /** A log that holds d, with a session just opened on it for the first time. */
  ghost function Opened(d: bytes, bufSize: nat): World {
    var at := Pos(0, |d|);
    Fresh(d, bufSize).(session := Some(StartAt(1, |d|).session), reg := Some(StartAt(1, |d|).reg),
                       past := History([1], {}, Some(at), at, 0, 0, at, |d|))
  }

  lemma OpenedReachable(d: bytes, bufSize: nat) returns (es: seq<Event>)
    requires bufSize >= MIN_BUF_SIZE && |d| <= MAX_INT64
    ensures Reaches(Fresh(d, bufSize), es, Opened(d, bufSize))
  {
    var w := Fresh(d, bufSize);
    assert Initial(w);
    assert Reaches(w, [], w);
    assert w.Current() == 1 && w.File(0) == d;
    RestartResumesAtDurable(w);
    es := Extend(w, [], w, Construct);
  }

  /** A log opened empty, d written to it, the log rotated, and a new session just opened: it is about to
      drain d. */
  ghost function Chained(d: bytes, bufSize: nat): World {
    var start := StartChained(2, 1, 0);
    World(LOG, bufSize, NewDir(), map[1 := d, 2 := []], Some(start.reg), Some(start.session),
          History([1, 2], {}, Some(Pos(0, 0)), Pos(0, 0), 1, 0, Pos(0, 0), 0))
  }

  lemma NewDirBacked(data: Contents)
    requires 1 in data && 2 in data
    ensures Backed(NewDir(), data) && HasInode(NewDir(), LOG, 2) && Find(NewDir(), LOG, 1) != ""
  {
    assert |LOG + SUFFIXES[0]| > |LOG|;
    assert NewDir()[1..] == [Entry(LOG + SUFFIXES[0], false, 1)];
    assert HasInode(NewDir(), LOG + SUFFIXES[0], 1);
  }

  /** The log opened empty, then d written to it. */
  ghost function Written(d: bytes, bufSize: nat): World {
    Opened([], bufSize).(data := map[1 := d])
  }

  lemma WrittenReachable(d: bytes, bufSize: nat) returns (es: seq<Event>)
    requires bufSize >= MIN_BUF_SIZE && |d| <= MAX_INT64
    ensures Reaches(Fresh([], bufSize), es, Written(d, bufSize))
  {
    es := OpenedReachable([], bufSize);
    var w := Opened([], bufSize);
    assert w.Current() == 1 && w.File(0) == [];
    es := Extend(Fresh([], bufSize), es, w, Append(d));
    assert [] + d == d;
    assert Apply(w, Append(d)) == Written(d, bufSize);
  }

  ghost function RotatedAway(d: bytes, bufSize: nat): World {
    var w := Written(d, bufSize);
    w.(dir := NewDir(), data := map[1 := d, 2 := []], past := w.past.(gens := [1, 2]))
  }

  lemma RotatedAwayReachable(d: bytes, bufSize: nat) returns (es: seq<Event>)
    requires bufSize >= MIN_BUF_SIZE && |d| <= MAX_INT64
    ensures Reaches(Fresh([], bufSize), es, RotatedAway(d, bufSize))
  {
    es := WrittenReachable(d, bufSize);
    var w := Written(d, bufSize);
    NewDirBacked(w.data[2 := []]);
    es := Extend(Fresh([], bufSize), es, w, Rotate(NewDir(), 2));
    assert Apply(w, Rotate(NewDir(), 2)) == RotatedAway(d, bufSize);
  }

  lemma ChainedReachable(d: bytes, bufSize: nat) returns (es: seq<Event>)
    requires bufSize >= MIN_BUF_SIZE && |d| <= MAX_INT64
    ensures Reaches(Fresh([], bufSize), es, Chained(d, bufSize))
  {
    es := RotatedAwayReachable(d, bufSize);
    es := Extend(Fresh([], bufSize), es, RotatedAway(d, bufSize), Crash);
    var w := RotatedAway(d, bufSize).(session := None);
    ReachableInv(Fresh([], bufSize), es);
    ReopenedChained(w, d, bufSize);
    es := Extend(Fresh([], bufSize), es, w, Construct);
  }

  lemma ReopenedChained(w: World, d: bytes, bufSize: nat)
    requires bufSize >= MIN_BUF_SIZE && |d| <= MAX_INT64
    requires w == RotatedAway(d, bufSize).(session := None) && Inv(w)
    ensures Enabled(w, Construct) && Apply(w, Construct) == Chained(d, bufSize)
  {
    NewDirBacked(w.data);
    assert w.Top() == 1 && w.Current() == 2 && w.past.gens[w.past.durable.gen] == 1;
    RestartResumesAtDurable(w);
  }

  // ---- the gaps ----

  const A: byte := 97
  const B: byte := 98
  const C: byte := 99

  lemma LineIs(d: bytes, s: nat, k: nat, bufSize: nat)
    requires bufSize >= MIN_BUF_SIZE && s < k < |d| && NoLF(d, s, k) && d[k] == LF && d[k - 1] != CR
    ensures NextLine(d, s, bufSize) == Line(d[s..k], k + 1)
    ensures Terminated(d, s) && LineAt(d, s) == d[s..k]
  {
    FindLFIs(d, s, k);
  }

  /** The draining session after its next line, of which one byte is text. */
  ghost function Drained(w: World, x: byte): World
    requires w.session.Some? && w.session.value.rotated.Some?
  {
    var s, r := w.session.value, w.session.value.rotated.value;
    w.(session := Some(Took(s.(rotated := Some(r.(pos := r.pos + 2))), [x])),
       past := w.past.(delivered := w.past.delivered + {Delivery(Pos(0, r.pos), [x])}, mark := Pos(0, r.pos)))
  }

  lemma DrainsNext(w: World, x: byte)
    requires w.Shape() && w.session.Some? && w.session.value.Valid(w.data) && !w.session.value.done
    requires w.session.value.rotated.Some? && w.past.drains == 0
    requires var r := w.session.value.rotated.value; var d := w.data[r.inode];
             r.pos + 1 < |d| && d[r.pos] == x && d[r.pos + 1] == LF && x != LF && x != CR
    ensures Enabled(w, ScanNext) && Apply(w, ScanNext) == Drained(w, x)
  {
    var r := w.session.value.rotated.value;
    var d := w.data[r.inode];
    LineIs(d, r.pos, r.pos + 1, w.bufSize);
    assert d[r.pos..r.pos + 1] == [x];
  }

  ghost function ThreeLines(): bytes {
    [A, LF, B, LF, C, LF]
  }

  /** Two of three lines of a rotated file drained. */
  ghost function HalfDrained(bufSize: nat): World {
    Drained(Drained(Chained(ThreeLines(), bufSize), A), B)
  }

  lemma ChainedShape(d: bytes, bufSize: nat)
    requires bufSize >= MIN_BUF_SIZE && |d| <= MAX_INT64
    ensures Chained(d, bufSize).Shape()
  {
    NewDirBacked(map[1 := d, 2 := []]);
  }

  lemma DrainedReachable(w0: World, es: seq<Event>, w: World, x: byte) returns (more: seq<Event>)
    requires Reaches(w0, es, w) && w.Shape()
    requires w.session.Some? && w.session.value.Valid(w.data) && !w.session.value.done
    requires w.session.value.rotated.Some? && w.past.drains == 0
    requires var r := w.session.value.rotated.value; var d := w.data[r.inode];
             r.pos + 1 < |d| && d[r.pos] == x && d[r.pos + 1] == LF && x != LF && x != CR
    ensures Reaches(w0, more, Drained(w, x)) && Drained(w, x).Shape()
  {
    DrainsNext(w, x);
    more := Extend(w0, es, w, ScanNext);
  }

  lemma HalfDrainedReachable(bufSize: nat) returns (es: seq<Event>)
    requires bufSize >= MIN_BUF_SIZE
    ensures Reaches(Fresh([], bufSize), es, HalfDrained(bufSize)) && HalfDrained(bufSize).Shape()
  {
    var w := Chained(ThreeLines(), bufSize);
    es := ChainedReachable(ThreeLines(), bufSize);
    ChainedShape(ThreeLines(), bufSize);
    es := DrainedReachable(Fresh([], bufSize), es, w, A);
    es := DrainedReachable(Fresh([], bufSize), es, Drained(w, A), B);
  }

  lemma HalfDrainedIs(bufSize: nat)
    ensures var w := HalfDrained(bufSize);
            && w.session == Some(Session(Cursor(2, 0), Some(Cursor(1, 4)), 4, 0, 2, [B], false))
            && w.past.delivered == {Delivery(Pos(0, 0), [A]), Delivery(Pos(0, 2), [B])}
            && w.past.gens == [1, 2] && w.past.baseline == Some(Pos(0, 0))
            && w.data == map[1 := ThreeLines(), 2 := []] && w.dir == NewDir() && w.name == LOG
            && w.bufSize == bufSize && w.reg.Some?
  {
  }

  /** The third line has not been delivered. */
  lemma ThirdLineNotDelivered(w: World)
    requires w == HalfDrained(w.bufSize) && w.Shape()
    ensures var p := Pos(0, 4); w.Since(p) && w.Finished(p) && !w.Delivered(p)
  {
    HalfDrainedIs(w.bufSize);
    assert w.File(0) == ThreeLines();
    FindLFIs(ThreeLines(), 4, 5);
  }

  /** A session opened after a Commit here does not owe it. */
  lemma HalfDrainedRestart(w: World)
    requires w == HalfDrained(w.bufSize) && w.bufSize >= MIN_BUF_SIZE
    ensures var s := w.session.value;
            && w.session.Some? && w.reg.Some? && s.rotated.Some? && !CommitSafe(s, s.CommitPoint())
            && Backed(w.dir, w.data)
            && var start := Open(w.dir, w.name, w.data, Some(Commit(s, w.reg.value).1));
            && start == Ok(StartAt(2, 0)) && start.value.session.Valid(w.data)
            && Owed(start.value.session, w.data, w.bufSize) == []
  {
    HalfDrainedIs(w.bufSize);
    NewDirBacked(w.data);
    CommitWhileDraining(w.session.value, w.reg.value, w.dir, w.name, w.data);
  }

  /** A run to a Commit while draining that loses a line. */
  lemma DrainingGapReached(bufSize: nat) returns (w0: World, es: seq<Event>)
    requires bufSize >= MIN_BUF_SIZE
    ensures Initial(w0) && Legal(w0, es)
    ensures var w := Run(w0, es);
            && w.Shape() && w.session.Some? && w.reg.Some?
            && var s, p := w.session.value, Pos(0, 4);
            && !CommitSafe(s, s.CommitPoint()) && s.rotated.Some?
            && w.Since(p) && w.Finished(p) && !w.Delivered(p)
            && var start := Open(w.dir, w.name, w.data, Some(Commit(s, w.reg.value).1));
            && start.Ok? && start.value.session.Valid(w.data)
            && Owed(start.value.session, w.data, w.bufSize) == []
  {
    w0 := Fresh([], bufSize);
    es := HalfDrainedReachable(bufSize);
    ThirdLineNotDelivered(Run(w0, es));
    HalfDrainedRestart(Run(w0, es));
  }

  // ---- an empty new file ----

  /** The only line of a rotated file drained, and the new file found empty. */
  ghost function RanDry(bufSize: nat): World {
    var w := Drained(Chained([A, LF], bufSize), A);
    w.(session := Some(SwitchToNewFile(w.session.value).(done := true)))
  }

  lemma RanDryReachable(bufSize: nat) returns (es: seq<Event>)
    requires bufSize >= MIN_BUF_SIZE
    ensures Reaches(Fresh([], bufSize), es, RanDry(bufSize)) && RanDry(bufSize).Shape()
  {
    var w := Chained([A, LF], bufSize);
    es := ChainedReachable([A, LF], bufSize);
    ChainedShape([A, LF], bufSize);
    es := DrainedReachable(Fresh([], bufSize), es, w, A);
    es := Extend(Fresh([], bufSize), es, Drained(w, A), ScanNext);
  }

  lemma RanDryIs(bufSize: nat)
    ensures var w := RanDry(bufSize);
            && w.session == Some(Session(Cursor(2, 0), None, 0, 0, 2, [A], true))
            && w.data == map[1 := [A, LF], 2 := []] && w.dir == NewDir() && w.name == LOG
            && w.bufSize == bufSize && w.reg.Some? && w.past.gens == [1, 2]
  {
  }

  lemma RanDryRestart(w: World, more: bytes)
    requires w == RanDry(w.bufSize) && w.bufSize >= MIN_BUF_SIZE
    ensures w.session.Some? && w.reg.Some? && w.session.value.CommitPoint() == -2
    ensures var later := w.data[2 := more];
            && Backed(w.dir, later)
            && var start := Open(w.dir, w.name, later, Some(Commit(w.session.value, w.reg.value).1));
            && start.Ok? && start.value.session.Valid(later) && Owed(start.value.session, later, w.bufSize) == []
  {
    RanDryIs(w.bufSize);
    var later := w.data[2 := more];
    NewDirBacked(later);
    RegRoundTrip(-2, 2);
    ColdRecordSkipsLog(w.dir, w.name, later, Commit(w.session.value, w.reg.value).1, w.bufSize);
  }

  /** A run to a Commit of a negative offset, after which the next session skips whatever is then written. */
  lemma EmptyFileGapReached(bufSize: nat, more: bytes) returns (w0: World, es: seq<Event>)
    requires bufSize >= MIN_BUF_SIZE
    ensures Initial(w0) && Legal(w0, es)
    ensures var w := Run(w0, es);
            && w.Shape() && w.session.Some? && w.reg.Some?
            && var s := w.session.value; var later := w.data[w.Current() := more];
            && s.done && s.CommitPoint() < 0 && !CommitSafe(s, s.CommitPoint())
            && Backed(w.dir, later)
            && var start := Open(w.dir, w.name, later, Some(Commit(s, w.reg.value).1));
            && start.Ok? && start.value.session.Valid(later)
            && Owed(start.value.session, later, w.bufSize) == []
  {
    w0 := Fresh([], bufSize);
    es := RanDryReachable(bufSize);
    RanDryIs(bufSize);
    RanDryRestart(Run(w0, es), more);
  }

  // ---- an unfinished tail ----

  /** A run in which a session is about to deliver an unfinished tail: whatever finishes it then, unless only
      its line end was missing, neither piece delivered is the line. */
  lemma TailGapReached(bufSize: nat, more: bytes) returns (w0: World, es: seq<Event>)
    requires bufSize >= MIN_BUF_SIZE && Terminated(more, 0) && LineAt(more, 0) != []
    ensures Initial(w0) && Legal(w0, es)
    ensures var w := Run(w0, es);
            && w.Shape() && w.session.Some? && w.session.value.Valid(w.data)
            && var s, d := w.session.value, w.File(0); var data' := w.data[w.Current() := d + more];
            var (s1, ok1) := Scan(s, w.data, w.bufSize);
            && s1.Valid(data') && ok1
            && var (s2, ok2) := Scan(s1, data', w.bufSize);
            && ok2 && Terminated(d + more, 0)
            && s1.line != LineAt(d + more, 0) && s2.line != LineAt(d + more, 0) && s2.CommitPoint() > 0
  {
    w0 := Fresh([], bufSize);
    es := WrittenReachable([A], bufSize);
    var w := Written([A], bufSize);
    assert w.data == map[1 := [A]] && w.past.gens == [1];
    assert w.session.value == Session(Cursor(1, 0), None, 0, 0, 0, [], false);
    FindLFIs([A], 0, 1);
    FinishingADeliveredTail(w.session.value, w.data, bufSize, more);
  }

  /** A run to the one place where the writer is held back. */
  lemma HeldTailReached(bufSize: nat) returns (w0: World, es: seq<Event>)
    requires bufSize >= MIN_BUF_SIZE
    ensures Initial(w0) && Legal(w0, es) && Run(w0, es).Shape() && HoldsTail(Run(w0, es))
  {
    w0 := Fresh([], bufSize);
    es := WrittenReachable([A], bufSize);
    var w := Written([A], bufSize);
    assert w.Shape() && w.data == map[1 := [A]] && w.past.gens == [1];
    assert w.session.value == Session(Cursor(1, 0), None, 0, 0, 0, [], false);
    FindLFIs([A], 0, 1);
    assert NextLine([A], 0, bufSize) == Line([A], 1);
    es := Extend(w0, es, w, ScanNext);
  }

  // ---- a cold start inside a line ----

  ghost function Resumed(bufSize: nat): World {
    Opened([A], bufSize).(data := map[1 := [A, B, LF]])
  }

  lemma ResumedReachable(bufSize: nat) returns (es: seq<Event>)
    requires bufSize >= MIN_BUF_SIZE
    ensures Reaches(Fresh([A], bufSize), es, Resumed(bufSize)) && Resumed(bufSize).Shape()
  {
    es := OpenedReachable([A], bufSize);
    var w := Opened([A], bufSize);
    assert w.Shape() && w.Current() == 1 && w.File(0) == [A];
    es := Extend(Fresh([A], bufSize), es, w, Append([B, LF]));
    assert [A] + [B, LF] == [A, B, LF];
  }

  lemma ResumedScans(w: World)
    requires w == Resumed(w.bufSize) && w.bufSize >= MIN_BUF_SIZE && w.Shape()
    ensures Enabled(w, ScanNext) && Scan(w.session.value, w.data, w.bufSize).1 && NoCRLFs(w)
    ensures var s', m := AfterScan(w).session.value, AfterScan(w).past.mark;
            s'.line == [B] && s'.CommitPoint() == 1 && m == Pos(0, 1) && w.past.baseline == Some(m)
  {
    var d: bytes := [A, B, LF];
    assert w.data == map[1 := d] && w.past.gens == [1];
    assert w.session.value == Session(Cursor(1, 1), None, 1, 1, 0, [], false);
    LineIs(d, 1, 2, w.bufSize);
    assert d[1..2] == [B];
  }

  lemma SplitOfOneLine(d: bytes)
    requires d == [A, B, LF]
    ensures SplitLF(d, 0) == [[A, B], []] && [B] !in SplitLF(d, 0)
  {
    FindLFIs(d, 0, 2);
    FindLFIs(d, 3, 3);
    assert d[0..2] == [A, B] && d[3..] == [];
    assert |[A, B]| == 2 && |[B]| == 1;
  }

  /** A run without any carriage return in which the cold start found half of a line that was then finished:
      the session delivers the other half, and the offset it would commit is inside the line. */
  lemma FragmentGapReached(bufSize: nat) returns (w0: World, es: seq<Event>)
    requires bufSize >= MIN_BUF_SIZE
    ensures Initial(w0) && Legal(w0, es) && NoCRLFs(Run(w0, es))
    ensures var w := Run(w0, es);
            && Enabled(w, ScanNext) && Scan(w.session.value, w.data, w.bufSize).1
            && var s, m := AfterScan(w).session.value, AfterScan(w).past.mark;
            && w.past.baseline == Some(m) && s.CommitPoint() == m.off && m.gen == 0
            && !IsStart(w.File(0), s.CommitPoint()) && s.line !in SplitLF(w.File(0), 0)
  {
    w0 := Fresh([A], bufSize);
    es := ResumedReachable(bufSize);
    ResumedScans(Run(w0, es));
    SplitOfOneLine(Run(w0, es).File(0));
  }

  // ---- carriage returns ----

  ghost function CarriageReturn(): bytes {
    [A, CR, LF, B, LF]
  }

  /** Both lines of such a file scanned: the carriage return was not counted. */
  ghost function Miscounted(bufSize: nat): World {
    var w := Written(CarriageReturn(), bufSize);
    w.(session := Some(Session(Cursor(1, 5), None, 4, 0, 2, [B], false)),
       past := w.past.(delivered := {Delivery(Pos(0, 0), [A]), Delivery(Pos(0, 3), [B])}, mark := Pos(0, 3)))
  }

  lemma CarriageReturnLines(d: bytes, bufSize: nat)
    requires d == CarriageReturn() && bufSize >= MIN_BUF_SIZE
    ensures NextLine(d, 0, bufSize) == Line([A], 3) && NextLine(d, 3, bufSize) == Line([B], 5)
  {
    FindLFIs(d, 0, 2);
    assert d[0..1] == [A];
    LineIs(d, 3, 4, bufSize);
    assert d[3..4] == [B];
  }

  lemma MiscountedReachable(bufSize: nat) returns (es: seq<Event>)
    requires bufSize >= MIN_BUF_SIZE
    ensures Reaches(Fresh([], bufSize), es, Miscounted(bufSize)) && Miscounted(bufSize).Shape()
  {
    var d, w := CarriageReturn(), Written(CarriageReturn(), bufSize);
    es := WrittenReachable(d, bufSize);
    CarriageReturnLines(d, bufSize);
    assert w.data == map[1 := d] && w.session.value == Session(Cursor(1, 0), None, 0, 0, 0, [], false);
    var w1 := w.(session := Some(Session(Cursor(1, 3), None, 2, 0, 2, [A], false)),
                 past := w.past.(delivered := {Delivery(Pos(0, 0), [A])}, mark := Pos(0, 0)));
    assert w.Shape();
    es := Extend(Fresh([], bufSize), es, w, ScanNext);
    assert Reaches(Fresh([], bufSize), es, w1);
    es := Extend(Fresh([], bufSize), es, w1, ScanNext);
    assert Reaches(Fresh([], bufSize), es, Miscounted(bufSize));
  }

  /** A run from an empty log in which a harmless Commit stores an offset inside a line, because an earlier
      line ended in carriage return, line feed. */
  lemma CarriageReturnGapReached(bufSize: nat) returns (w0: World, es: seq<Event>)
    requires bufSize >= MIN_BUF_SIZE
    ensures Initial(w0) && w0.File(0) == [] && Legal(w0, es)
    ensures var w := Run(w0, es);
            && w.Shape() && Enabled(w, CommitNow)
            && var w' := Apply(w, CommitNow);
            && w'.Shape() && w'.past.durable == Pos(0, 2) && !OnLine(w', w'.past.durable)
  {
    w0 := Fresh([], bufSize);
    es := MiscountedReachable(bufSize);
  }

  // ---- a rotated file that was not kept ----

  /** After a rotation that does not keep the old file. */
  ghost function BareDir(): Directory {
    [Entry(LOG, false, 2)]
  }

  lemma BareDirLost()
    ensures Find(BareDir(), LOG, 1) == ""
  {
    forall name: string
      ensures !HasInode(BareDir(), name, 1)
    {
      assert forall e :: e in BareDir() ==> e.inode == 2;
    }
    FindIsAnswer(BareDir(), LOG, 1, "");
  }

  ghost function Lost(bufSize: nat): World {
    var w := Written([A, LF], bufSize);
    w.(dir := BareDir(), data := map[1 := [A, LF], 2 := []], past := w.past.(gens := [1, 2]))
  }

  /** A run in which the log is rotated and its old file not kept: a restart passes over an undelivered line. */
  lemma LostFileGapReached(bufSize: nat) returns (w0: World, es: seq<Event>)
    requires bufSize >= MIN_BUF_SIZE
    ensures Initial(w0) && Legal(w0, es)
    ensures var w := Run(w0, es);
            && w.Shape() && w.past.baseline.Some? && w.InFile(w.past.durable) && !PassesOverNothing(w)
  {
    w0 := Fresh([], bufSize);
    es := WrittenReachable([A, LF], bufSize);
    var w := Written([A, LF], bufSize);
    assert w.Shape();
    es := Extend(w0, es, w, Rotate(BareDir(), 2));
    assert Apply(w, Rotate(BareDir(), 2)) == Lost(bufSize);
    FindLFIs([A, LF], 0, 1);
    BareDirLost();
    assert Lost(bufSize).File(0) == [A, LF];
  }
}
