/** The scanner, its reg file and the writer of the log as one state machine: the writer appends and
    rotates, sessions are opened, scan, commit and die, in any order. */
module Protocol {
  import opened Results
  import opened Lines
  import opened Reading
  import opened RegFile
  import opened RotatedFile
  import opened Sessions

  /** A place in the life of the log: the how-manieth file it was, and an offset in that file. */
  datatype Pos = Pos(gen: nat, off: nat)

  ghost predicate Before(p: Pos, q: Pos) {
    p.gen < q.gen || (p.gen == q.gen && p.off < q.off)
  }

  ghost predicate AtMost(p: Pos, q: Pos) {
    p == q || Before(p, q)
  }

  datatype Delivery = Delivery(at: Pos, text: bytes)

  /** What happened so far; no step's effect on the disk or the session depends on it.
      gens: the inodes the log's name has had, oldest first. delivered: every line a Scan returned.
      baseline: where the first session (the cold start) began. durable: the position the reg file
      records. epoch: which file the session's own inode is. drains: which file its rotated handle is on.
      mark: the start of the line last delivered in this session, or where the session began. origin: where
      in mark's file this session began to count bytes. */
  datatype History = History(
    gens: seq<Inode>,
    delivered: set<Delivery>,
    baseline: Option<Pos>,
    durable: Pos,
    epoch: nat,
    drains: nat,
    mark: Pos,
    origin: nat)

  datatype World = World(
    name: string,
    bufSize: nat,
    dir: Directory,
    data: Contents,
    reg: Option<string>,
    session: Option<Session>,
    past: History)
  {
    ghost predicate Shape() {
      && name != "" && bufSize >= MIN_BUF_SIZE
      && |past.gens| >= 1
      && (forall g :: 0 <= g < |past.gens| ==> past.gens[g] in data && 0 < past.gens[g] <= MAX_UINT64)
      && (forall g, h :: 0 <= g < h < |past.gens| ==> past.gens[g] != past.gens[h])
      && (forall i :: i in data ==> |data[i]| <= MAX_INT64)
      && Backed(dir, data)
      && HasInode(dir, name, past.gens[|past.gens| - 1])
    }

    ghost function Top(): nat
      requires Shape()
    {
      |past.gens| - 1
    }

    ghost function Current(): Inode
      requires Shape()
    {
      past.gens[Top()]
    }

    ghost function File(g: nat): bytes
      requires Shape() && g < |past.gens|
    {
      data[past.gens[g]]
    }

    ghost predicate LineStart(p: Pos)
      requires Shape()
    {
      p.gen < |past.gens| && IsStart(File(p.gen), p.off)
    }

    /** The line starting at p has its line feed: it is a line the writer has finished. */
    ghost predicate Finished(p: Pos)
      requires Shape()
    {
      p.gen < |past.gens| && Terminated(File(p.gen), p.off)
    }

    ghost predicate Delivered(p: Pos)
      requires Shape() && Finished(p)
    {
      Delivery(p, LineAt(File(p.gen), p.off)) in past.delivered
    }

    ghost predicate Since(p: Pos)
      requires Shape()
    {
      past.baseline.Some? && AtMost(past.baseline.value, p) && LineStart(p)
    }

    /** Every line start since the cold start and before q is that of a delivered line, but for an
        unfinished tail of an older file, which nothing will ever be appended to. */
    ghost predicate Covered(q: Pos)
      requires Shape()
    {
      forall p :: Since(p) && Before(p, q) ==>
        if Finished(p) then Delivered(p) else p.gen < q.gen
    }

    /** The same before a reading position, which may also stand after an unfinished tail. */
    ghost predicate Passed(q: Pos)
      requires Shape() && q.gen < |past.gens|
    {
      forall p :: Since(p) && Before(p, q) ==>
        if Finished(p) then Delivered(p) else p.gen < q.gen || q.off == |File(q.gen)|
    }

    /** The recorded file is still in the directory, under a name the search looks at. */
    ghost predicate Found()
      requires Shape() && past.durable.gen < |past.gens|
    {
      Find(dir, name, past.gens[past.durable.gen]) != ""
    }

    /** The whole files between the a-th and the b-th hold no finished line. */
    ghost predicate NoLineBetween(a: nat, b: nat)
      requires Shape() && b <= |past.gens|
    {
      forall g :: a < g < b ==> NoLF(File(g), 0, |File(g)|)
    }

    /** What a construction passes over holds no finished line. When the recorded file is the log, it passes
        over nothing; when it is found, over the files between; when not, over its own remainder as well. */
    ghost predicate PassesOverNoLine()
      requires Shape()
    {
      past.durable.gen < Top() ==>
        && NoLineBetween(past.durable.gen, Top())
        && (Found() || NoLF(File(past.durable.gen), Clip(File(past.durable.gen), past.durable.off),
                            |File(past.durable.gen)|))
    }

    ghost predicate InFile(p: Pos)
      requires Shape()
    {
      p.gen < |past.gens| && p.off <= |File(p.gen)|
    }

    /** The session's reading position. */
    ghost function Reading(): Pos
      requires session.Some?
    {
      if session.value.rotated.Some? then Pos(past.drains, session.value.rotated.value.pos)
      else Pos(past.epoch, session.value.reader.pos)
    }
  }

  // ---- steps ----

  datatype Event =
    | Append(more: bytes)
    | Rotate(newDir: Directory, newInode: Inode)
    | Tidy(newDir: Directory)
    | Construct
    | ScanNext
    | CommitNow
    | CommitAt(offset: int)
    | Crash

  /** The guard under which committing an offset is harmless: there is nothing to write, or the rotated
      file is done with and the offset is neither negative nor past the one Commit would store. For
      Commit itself the last part says nothing. */
  predicate CommitSafe(s: Session, offset: int) {
    offset == s.lastCommitted || (s.rotated.None? && 0 <= offset <= s.CommitPoint())
  }

  /** The position stands at the end of a file that does not end in a line feed. */
  ghost predicate TornEnd(d: bytes, pos: nat) {
    pos >= |d| && !LfTerminated(d)
  }

  /** The session has taken a half-written line of the log and will scan on. */
  ghost predicate HoldsTail(w: World)
    requires w.Shape()
  {
    && w.session.Some? && !w.session.value.done
    && w.Reading().gen == w.Top() && w.Reading() != w.past.mark && TornEnd(w.File(w.Top()), w.Reading().off)
  }

  ghost predicate Enabled(w: World, e: Event)
    requires w.Shape()
  {
    match e
    case Append(more) =>
      // a writer finishes a half-written line unless the open session has just taken it
      !HoldsTail(w) && |w.File(w.Top())| + |more| <= MAX_INT64
    case Rotate(newDir, newInode) =>
      && newInode !in w.data && 0 < newInode <= MAX_UINT64
      && Backed(newDir, w.data[newInode := []]) && HasInode(newDir, w.name, newInode)
    case Tidy(newDir) =>
      Backed(newDir, w.data) && HasInode(newDir, w.name, w.Current())
    case Construct =>
      w.session.None? && (w.past.baseline.Some? ==> w.PassesOverNoLine())
    case ScanNext => w.session.Some? && w.session.value.Valid(w.data)
    case CommitNow => w.session.Some? && w.reg.Some? && CommitSafe(w.session.value, w.session.value.CommitPoint())
    case CommitAt(offset) => w.session.Some? && w.reg.Some? && CommitSafe(w.session.value, offset)
    case Crash => true
  }

  /** Where a session opened on the top-th file begins, if a rotated file it drains is the recorded one. */
  ghost function StartPos(start: Start, recorded: nat, top: nat): Pos {
    if start.session.rotated.Some? then Pos(recorded, start.session.rotated.value.pos)
    else Pos(top, start.session.reader.pos)
  }

  ghost function AfterConstruct(w: World, start: Start): World
    requires w.Shape()
  {
    var p := StartPos(start, w.past.durable.gen, w.Top());
    w.(session := Some(start.session), reg := Some(start.reg),
       past := w.past.(baseline := if w.past.baseline.None? then Some(p) else w.past.baseline,
                       durable := p, epoch := w.Top(), drains := w.past.durable.gen, mark := p, origin := p.off))
  }

  ghost function AfterScan(w: World): World
    requires w.Shape() && w.session.Some? && w.session.value.Valid(w.data)
  {
    var s := w.session.value;
    var (s', ok) := Scan(s, w.data, w.bufSize);
    if !ok then w.(session := Some(s'))
    else
      var switched := s.rotated.Some? && s'.rotated.None?;
      var at := if switched then Pos(w.past.epoch, s.reader.pos) else w.Reading();
      w.(session := Some(s'),
         past := w.past.(delivered := w.past.delivered + {Delivery(at, s'.line)}, mark := at,
                         origin := if switched then 0 else w.past.origin))
  }

  ghost function AfterCommit(w: World, offset: int): World
    requires w.session.Some? && w.reg.Some? && CommitSafe(w.session.value, offset)
  {
    var s := w.session.value;
    var (s', reg') := CommitOffset(s, w.reg.value, offset);
    w.(session := Some(s'), reg := Some(reg'),
       past := if offset == s.lastCommitted then w.past else w.past.(durable := Pos(w.past.epoch, offset)))
  }

  ghost function Apply(w: World, e: Event): World
    requires w.Shape() && Enabled(w, e)
  {
    match e
    case Append(more) => w.(data := w.data[w.Current() := w.File(w.Top()) + more])
    case Rotate(newDir, newInode) =>
      w.(dir := newDir, data := w.data[newInode := []], past := w.past.(gens := w.past.gens + [newInode]))
    case Tidy(newDir) => w.(dir := newDir)
    case Construct =>
      var r := Open(w.dir, w.name, w.data, w.reg);
      if r.Ok? then AfterConstruct(w, r.value) else w
    case ScanNext => AfterScan(w)
    case CommitNow => AfterCommit(w, w.session.value.CommitPoint())
    case CommitAt(offset) => AfterCommit(w, offset)
    case Crash => w.(session := None)
  }

  /** The log exists, nothing was recorded yet (the reg file is missing or blank), no session is open. */
  ghost predicate Initial(w: World) {
    && w.Shape() && |w.past.gens| == 1
    && w.session.None? && w.past.baseline.None?
    && (w.reg == None || ParseReg(w.reg.value) == Ok(RegData(-1, 0)))
  }

  // ---- the invariant ----

  ghost predicate RegInv(w: World)
    requires w.Shape()
  {
    if w.past.baseline.None? then
      w.session.None? && (w.reg == None || ParseReg(w.reg.value) == Ok(RegData(-1, 0)))
    else
      && w.InFile(w.past.durable)
      && w.reg == Some(FormatReg(w.past.durable.off, w.past.gens[w.past.durable.gen]))
      && w.Covered(w.past.durable)
  }

  /** The session's handles are on the file it was opened for and on an earlier one, with no finished line
      in between. */
  ghost predicate Handles(w: World)
    requires w.Shape()
  {
    w.session.Some? ==>
      var s, k, j := w.session.value, w.past.epoch, w.past.drains;
      && k < |w.past.gens| && s.reader.inode == w.past.gens[k] && s.reader.pos <= |w.File(k)|
      && (s.rotated.Some? ==>
            && j < k && s.rotated.value.inode == w.past.gens[j] && w.NoLineBetween(j, k)
            && s.rotated.value.pos <= |w.File(j)| && s.reader.pos == 0)
  }

  /** The session did not run dry in the middle of a line that was written on since. */
  ghost predicate Settled(w: World)
    requires w.Shape() && Handles(w) && w.session.Some?
  {
    var r := w.Reading();
    w.session.value.done ==> r.off == |w.File(r.gen)| || Boundary(w.File(r.gen), r.off)
  }

  ghost predicate Progressing(w: World)
    requires w.Shape() && Handles(w)
  {
    w.session.Some? ==>
      && w.past.baseline.Some?
      && AtMost(w.past.durable, w.past.mark) && AtMost(w.past.mark, w.Reading())
      && w.InFile(w.past.mark)
      && w.Covered(w.past.mark) && (Settled(w) ==> w.Passed(w.Reading()))
  }

  /** The byte count: what was counted is the position less the carriage returns not seen. */
  ghost predicate Counted(d: bytes, origin: nat, pos: nat, count: int) {
    && origin <= pos <= |d|
    && (pos > origin ==> d[pos - 1] == LF)
    && count == pos - CountCRLF(d, origin, pos)
  }

  /** The line last delivered, of which this many bytes were counted, is the half-written end of the file. */
  ghost predicate TookTail(d: bytes, mark: nat, pos: nat, counted: nat) {
    TornEnd(d, pos) && mark < pos && counted == pos - mark + 1
  }

  ghost predicate Offsets(w: World)
    requires w.Shape() && Handles(w) && Progressing(w)
  {
    w.session.Some? ==>
      var s, r, m := w.session.value, w.Reading(), w.past.mark;
      && s.lastScannedBytes <= MAX_INT64 + 1
      && (s.rotated.Some? ==> !s.done)
      && if m.gen == r.gen then
           var d := w.File(r.gen);
           && Counted(d, w.past.origin, m.off, s.CommitPoint())
           && (s.done || TookTail(d, m.off, r.off, s.lastScannedBytes)
                      || Counted(d, w.past.origin, r.off, s.pendingOffset))
           && s.lastCommitted <= s.CommitPoint()
           && (w.past.durable.gen == r.gen ==> s.lastCommitted == w.past.durable.off)
           && (w.past.durable.gen != r.gen ==> s.rotated.None? && s.lastCommitted == 0)
         else
           && s.done && s.rotated.None?
           && s.pendingOffset == 0 && s.lastCommitted == 0
           && w.past.durable.gen != r.gen
  }

  ghost predicate Inv(w: World) {
    w.Shape() && RegInv(w) && Handles(w) && Progressing(w) && Offsets(w)
  }

  // ---- the invariant holds at the start and every step keeps it ----

  lemma BoundaryFinishes(d: bytes, s: nat, b: nat)
    requires Boundary(d, b) && s < b
    ensures Terminated(d, s)
  {
    FindLFFinds(d, s);
    assert !NoLF(d, s, b) by {
      assert d[b - 1] == LF;
    }
  }

  /** Appending changes no position that was inside a file. */
  lemma AppendCovers(w: World, w': World, more: bytes, q: Pos)
    requires w.Shape() && w'.Shape() && w.past == w'.past && w.InFile(q)
    requires w'.data == w.data[w.Current() := w.File(w.Top()) + more]
    requires w.Covered(q)
    ensures w'.Covered(q)
  {
    forall p | w'.Since(p) && Before(p, q)
      ensures if w'.Finished(p) then w'.Delivered(p) else p.gen < q.gen
    {
      AppendStart(w, w', more, p);
    }
  }

  lemma AppendStart(w: World, w': World, more: bytes, p: Pos)
    requires w.Shape() && w'.Shape() && w.past == w'.past
    requires w'.data == w.data[w.Current() := w.File(w.Top()) + more]
    requires w'.LineStart(p) && (p.gen == w.Top() ==> p.off < |w.File(p.gen)|)
    ensures w.LineStart(p)
    ensures w.Finished(p) ==> w'.Finished(p) && (w.Delivered(p) <==> w'.Delivered(p))
    ensures p.gen < w.Top() ==> w'.File(p.gen) == w.File(p.gen)
  {
    if p.gen == w.Top() {
      assert w'.File(p.gen) == w.File(p.gen) + more;
      if w.Finished(p) {
        AppendKeepsLine(w.File(p.gen), more, p.off);
      }
    } else {
      assert w.past.gens[p.gen] != w.Current();
    }
  }

  lemma AppendPasses(w: World, w': World, more: bytes, q: Pos)
    requires w.Shape() && w'.Shape() && w.past == w'.past && w.InFile(q)
    requires w'.data == w.data[w.Current() := w.File(w.Top()) + more]
    requires w.Passed(q)
    requires q.gen == w.Top() ==>
               Boundary(w.File(q.gen), q.off) || !TornEnd(w.File(q.gen), q.off) || w.Covered(q)
    ensures w'.Passed(q)
  {
    if q.gen < w.Top() {
      assert w.past.gens[q.gen] != w.Current();
    }
    forall p | w'.Since(p) && Before(p, q)
      ensures if w'.Finished(p) then w'.Delivered(p) else p.gen < q.gen || q.off == |w'.File(q.gen)|
    {
      AppendStart(w, w', more, p);
      if q.gen == w.Top() && p.gen == q.gen && Boundary(w.File(q.gen), q.off) {
        BoundaryFinishes(w.File(p.gen), p.off, q.off);
      }
    }
  }

  lemma AppendShape(w: World, more: bytes)
    requires w.Shape() && Enabled(w, Append(more))
    ensures var w' := Apply(w, Append(more));
            && w'.Shape() && w'.past == w.past && w'.session == w.session && w'.reg == w.reg
            && (forall g :: 0 <= g < |w.past.gens| ==>
                  w'.File(g) == if g == w.Top() then w.File(g) + more else w.File(g))
  {
  }

  lemma AppendCounted(d: bytes, more: bytes, origin: nat, pos: nat, count: int)
    requires Counted(d, origin, pos, count)
    ensures Counted(d + more, origin, pos, count)
  {
    CountCRLFAppend(d, more, origin, pos);
  }

  lemma AppendProgress(w: World, more: bytes)
    requires Inv(w) && Enabled(w, Append(more))
    ensures var w' := Apply(w, Append(more));
            w'.Shape() && RegInv(w') && Handles(w') && Progressing(w')
  {
    var w' := Apply(w, Append(more));
    AppendShape(w, more);
    if w.past.baseline.Some? {
      AppendCovers(w, w', more, w.past.durable);
    }
    if w.session.Some? {
      AppendCovers(w, w', more, w.past.mark);
      if Settled(w') && more != [] {
        AppendPasses(w, w', more, w.Reading());
      } else if more == [] {
        assert w.File(w.Top()) + [] == w.File(w.Top()) && w'.data == w.data;
      }
    }
  }

  lemma AppendKeeps(w: World, more: bytes)
    requires Inv(w) && Enabled(w, Append(more))
    ensures Inv(Apply(w, Append(more)))
  {
    AppendShape(w, more);
    AppendProgress(w, more);
    if w.session.Some? {
      var r, m := w.Reading(), w.past.mark;
      if r.gen == w.Top() && m.gen == r.gen {
        var d := w.File(r.gen);
        AppendCounted(d, more, w.past.origin, m.off, w.session.value.CommitPoint());
        if Counted(d, w.past.origin, r.off, w.session.value.pendingOffset) {
          AppendCounted(d, more, w.past.origin, r.off, w.session.value.pendingOffset);
        }
      }
    }
  }

  lemma RotateShape(w: World, newDir: Directory, newInode: Inode)
    requires w.Shape() && Enabled(w, Rotate(newDir, newInode))
    ensures var w' := Apply(w, Rotate(newDir, newInode));
            && w'.Shape() && w'.Top() == w.Top() + 1 && w'.File(w'.Top()) == []
            && (forall g :: 0 <= g < |w.past.gens| ==>
                  w'.past.gens[g] == w.past.gens[g] && w'.File(g) == w.File(g))
  {
  }

  lemma RotateStart(w: World, newDir: Directory, newInode: Inode, p: Pos)
    requires w.Shape() && Enabled(w, Rotate(newDir, newInode))
    ensures var w' := Apply(w, Rotate(newDir, newInode));
            w'.Shape() && (w'.Since(p) ==> w.Since(p) && w'.File(p.gen) == w.File(p.gen))
  {
    RotateShape(w, newDir, newInode);
  }

  lemma RotateCovers(w: World, newDir: Directory, newInode: Inode, q: Pos)
    requires w.Shape() && Enabled(w, Rotate(newDir, newInode)) && w.Covered(q)
    ensures Apply(w, Rotate(newDir, newInode)).Shape() && Apply(w, Rotate(newDir, newInode)).Covered(q)
  {
    RotateShape(w, newDir, newInode);
    var w' := Apply(w, Rotate(newDir, newInode));
    forall p | w'.Since(p) && Before(p, q)
      ensures if w'.Finished(p) then w'.Delivered(p) else p.gen < q.gen
    {
      RotateStart(w, newDir, newInode, p);
    }
  }

  lemma RotatePasses(w: World, newDir: Directory, newInode: Inode, q: Pos)
    requires w.Shape() && Enabled(w, Rotate(newDir, newInode)) && q.gen < |w.past.gens| && w.Passed(q)
    ensures Apply(w, Rotate(newDir, newInode)).Shape() && Apply(w, Rotate(newDir, newInode)).Passed(q)
  {
    RotateShape(w, newDir, newInode);
    var w' := Apply(w, Rotate(newDir, newInode));
    forall p | w'.Since(p) && Before(p, q)
      ensures if w'.Finished(p) then w'.Delivered(p) else p.gen < q.gen || q.off == |w'.File(q.gen)|
    {
      RotateStart(w, newDir, newInode, p);
    }
  }

  lemma RotateProgress(w: World, newDir: Directory, newInode: Inode)
    requires Inv(w) && Enabled(w, Rotate(newDir, newInode))
    ensures var w' := Apply(w, Rotate(newDir, newInode));
            w'.Shape() && RegInv(w') && Handles(w') && Progressing(w')
  {
    RotateShape(w, newDir, newInode);
    if w.past.baseline.Some? {
      RotateCovers(w, newDir, newInode, w.past.durable);
    }
    if w.session.Some? {
      RotateCovers(w, newDir, newInode, w.past.mark);
      if Settled(Apply(w, Rotate(newDir, newInode))) {
        RotatePasses(w, newDir, newInode, w.Reading());
      }
    }
  }

  lemma RotateKeeps(w: World, newDir: Directory, newInode: Inode)
    requires Inv(w) && Enabled(w, Rotate(newDir, newInode))
    ensures Inv(Apply(w, Rotate(newDir, newInode)))
  {
    RotateShape(w, newDir, newInode);
    RotateProgress(w, newDir, newInode);
  }

  lemma TidyKeeps(w: World, newDir: Directory)
    requires Inv(w) && Enabled(w, Tidy(newDir))
    ensures Inv(Apply(w, Tidy(newDir)))
  {
    SameFilesKeep(w, Apply(w, Tidy(newDir)));
  }

  lemma SameNoLine(w: World, w': World, a: nat, b: nat)
    requires w.Shape() && w'.Shape() && w'.data == w.data && w'.past.gens == w.past.gens && b <= |w.past.gens|
    ensures w.NoLineBetween(a, b) <==> w'.NoLineBetween(a, b)
  {
    assert forall g :: 0 <= g < |w.past.gens| ==> w'.File(g) == w.File(g);
  }

  lemma SameFilesKeep(w: World, w': World)
    requires Inv(w) && w'.Shape() && w'.data == w.data && w'.past == w.past && w'.reg == w.reg
    requires w'.session == w.session || w'.session.None?
    requires w'.bufSize == w.bufSize
    ensures Inv(w')
  {
    SameFiles(w, w', w.past.durable);
    if w'.session.Some? {
      assert w'.Reading() == w.Reading();
      SameNoLine(w, w', w.past.drains, w.past.epoch);
      SameFiles(w, w', w.past.mark);
      SameFiles(w, w', w.Reading());
    }
  }

  lemma RecordParses(w: World)
    requires w.Shape() && RegInv(w) && w.past.baseline.Some?
    ensures LastReg(w.reg) == Ok(RegData(w.past.durable.off, w.past.gens[w.past.durable.gen]))
  {
    RegRoundTrip(w.past.durable.off, w.past.gens[w.past.durable.gen]);
  }

  /** The session a restart opens, with no guard on what happened to the directory. */
  lemma RestartSession(w: World)
    requires w.Shape() && RegInv(w) && w.past.baseline.Some?
    ensures var q, top := w.past.durable, w.Top();
            Open(w.dir, w.name, w.data, w.reg)
            == Ok(if q.gen == top then StartAt(w.Current(), q.off)
                  else if w.Found() then StartChained(w.Current(), w.past.gens[q.gen], q.off)
                  else StartAt(w.Current(), 0))
  {
    RecordParses(w);
    var q := w.past.durable;
    assert Stat(w.dir, w.name).Some? && Stat(w.dir, w.name).value.inode == w.Current();
    assert w.past.gens[q.gen] == w.Current() <==> q.gen == w.Top();
  }

  /** A session opened in a reachable state resumes exactly at the durable position, or at the start of the
      log when the recorded file is gone; the very first one starts at the end of the log. The record is
      that of the position. */
  lemma RestartResumesAtDurable(w: World)
    requires Inv(w) && w.session.None?
    ensures Open(w.dir, w.name, w.data, w.reg).Ok?
    ensures var start, top := Open(w.dir, w.name, w.data, w.reg).value, w.Top();
            if w.past.baseline.None? then start == StartAt(w.Current(), |w.File(top)|)
            else
              var q := w.past.durable;
              && StartPos(start, q.gen, top) == (if q.gen == top || w.Found() then q else Pos(top, 0))
              && (if q.gen < top && w.Found() then start == StartChained(w.Current(), w.past.gens[q.gen], q.off)
                  else start == StartAt(w.Current(), if q.gen == top then q.off else 0))
              && (q.gen == top || w.Found() ==> start.reg == w.reg.value)
  {
    if w.past.baseline.Some? {
      RestartSession(w);
    }
  }

  /** Nothing that has to be delivered lies between the durable position and where a session resumes. */
  lemma PassedOver(w: World)
    requires w.Shape() && RegInv(w) && w.past.baseline.Some? && w.PassesOverNoLine()
    requires w.past.durable.gen < w.Top() && !w.Found()
    ensures w.Covered(Pos(w.Top(), 0))
  {
    var q := w.past.durable;
    forall p | w.Since(p) && Before(p, Pos(w.Top(), 0))
      ensures w.Finished(p) ==> w.Delivered(p)
    {
      if !Before(p, q) && w.Finished(p) {
        FindLFFinds(w.File(p.gen), p.off);
        assert false;
      }
    }
  }

  /** The world after a construction at a covered place of the log's life. */
  lemma ConstructAt(w: World, start: Start, q: Pos)
    requires Inv(w) && w.session.None? && w.InFile(q) && (w.past.baseline.None? || w.Covered(q))
    requires if q.gen == w.Top() then start == StartAt(w.Current(), q.off)
             else q.gen == w.past.durable.gen && w.NoLineBetween(q.gen, w.Top())
                  && start == StartChained(w.Current(), w.past.gens[q.gen], q.off)
    ensures Inv(AfterConstruct(w, start)) && AfterConstruct(w, start).past.durable == q
  {
    var w' := AfterConstruct(w, start);
    assert w'.Shape() && w'.Reading() == q && w'.past.durable == q && w'.past.mark == q;
    SameNoLine(w, w', q.gen, w.Top());
    assert w'.Covered(q) by {
      forall p | w'.Since(p) && Before(p, q)
        ensures if w'.Finished(p) then w'.Delivered(p) else p.gen < q.gen
      {
        assert w.Since(p);
      }
    }
    assert w'.Passed(q);
  }

  lemma ConstructKeeps(w: World)
    requires Inv(w) && Enabled(w, Construct)
    ensures Inv(Apply(w, Construct))
  {
    RestartResumesAtDurable(w);
    var start := Open(w.dir, w.name, w.data, w.reg).value;
    var q := StartPos(start, w.past.durable.gen, w.Top());
    if w.past.baseline.Some? && w.past.durable.gen < w.Top() && !w.Found() {
      PassedOver(w);
    }
    ConstructAt(w, start, q);
  }

  // ---- Scan ----

  /** Taking a line from q delivers the one line start in between, or takes an unfinished tail. */
  lemma TakePasses(w: World, w': World, q: Pos, text: bytes, next: nat)
    requires w.Shape() && w'.Shape() && w.InFile(q) && w.Passed(q)
    requires NextLine(w.File(q.gen), q.off, w.bufSize) == Line(text, next)
    requires w'.data == w.data && w'.past.gens == w.past.gens && w'.past.baseline == w.past.baseline
    requires w'.past.delivered == w.past.delivered + {Delivery(q, text)}
    ensures w'.Covered(q) && w'.Passed(Pos(q.gen, next))
  {
    var d := w.File(q.gen);
    forall p | w'.Since(p) && Before(p, Pos(q.gen, next))
      ensures if w'.Finished(p) then w'.Delivered(p) else p.gen < q.gen || next == |d|
      ensures Before(p, q) ==> if w'.Finished(p) then w'.Delivered(p) else p.gen < q.gen
    {
      assert w.Since(p);
      if p.gen == q.gen && p.off > q.off {
        NoStartInside(d, q.off, p.off);
        assert false;
      }
    }
  }

  /** When no line can be taken any more, every line of the file has been passed, and of the files after it
      up to one with a finished line. */
  lemma EndPasses(w: World, q: Pos)
    requires w.Shape() && w.InFile(q) && w.Passed(q)
    requires !NextLine(w.File(q.gen), q.off, w.bufSize).Line?
    ensures w.Passed(Pos(q.gen, |w.File(q.gen)|))
    ensures forall k :: q.gen < k < |w.past.gens| && w.NoLineBetween(q.gen, k) ==> w.Passed(Pos(k, 0))
  {
    var d := w.File(q.gen);
    forall p | w.Since(p) && Before(p, Pos(q.gen + 1, 0))
      ensures w.Finished(p) ==> w.Delivered(p)
    {
      if p.gen == q.gen && q.off <= p.off {
        if p.off > q.off {
          NoStartInside(d, q.off, p.off);
          assert false;
        }
      }
    }
    forall k | q.gen < k < |w.past.gens| && w.NoLineBetween(q.gen, k)
      ensures w.Passed(Pos(k, 0))
    {
      forall p | w.Since(p) && Before(p, Pos(k, 0))
        ensures w.Finished(p) ==> w.Delivered(p)
      {
        if q.gen < p.gen && w.Finished(p) {
          FindLFFinds(w.File(p.gen), p.off);
          assert false;
        }
      }
    }
  }

  /** The same files, history of files and start: what was covered or passed still is when more lines
      have been delivered. */
  lemma SameFiles(w: World, w': World, q: Pos)
    requires w.Shape() && w'.Shape() && w'.data == w.data && w'.past.gens == w.past.gens
    requires w'.past.baseline == w.past.baseline && w.past.delivered <= w'.past.delivered
    ensures w.Covered(q) ==> w'.Covered(q)
    ensures q.gen < |w.past.gens| && w.Passed(q) ==> w'.Passed(q)
  {
    forall p | w'.Since(p)
      ensures w.Since(p) && (w'.Finished(p) <==> w.Finished(p))
      ensures w.Finished(p) && w.Delivered(p) ==> w'.Delivered(p)
    {
    }
  }

  /** Counting a line: its length, plus one, is the distance to the next line less a lost carriage
      return; only an unfinished tail is counted one too far. */
  lemma TakeCounts(d: bytes, origin: nat, pos: nat, count: int, text: bytes, next: nat, bufSize: nat)
    requires bufSize >= MIN_BUF_SIZE && NextLine(d, pos, bufSize) == Line(text, next)
    requires Counted(d, origin, pos, count)
    ensures TookTail(d, pos, next, |text| + 1) || Counted(d, origin, next, count + |text| + 1)
    ensures |text| <= |d|
  {
    FindLFFinds(d, pos);
    var k := FindLF(d, pos);
    if k < |d| {
      CountCRLFLine(d, origin, pos, k);
    } else {
      assert d[|d| - 1] != LF;
    }
  }

  /** The world after a line was taken at q. */
  ghost function Taken(w: World, s': Session, q: Pos, origin: nat): World {
    w.(session := Some(s'),
       past := w.past.(delivered := w.past.delivered + {Delivery(q, s'.line)}, mark := q, origin := origin))
  }

  lemma TakeProgress(w: World, s': Session, q: Pos, origin: nat)
    requires Inv(w) && w.session.Some? && w.InFile(q) && w.Passed(q) && AtMost(w.past.durable, q)
    requires var next := NextLine(w.File(q.gen), q.off, w.bufSize);
             && next.Line? && s'.line == next.text && s'.lastScannedBytes == |next.text| + 1
             && Taken(w, s', q, origin).Reading() == Pos(q.gen, next.next)
    requires Handles(Taken(w, s', q, origin))
    ensures var w' := Taken(w, s', q, origin);
            w'.Shape() && RegInv(w') && Progressing(w')
  {
    var w' := Taken(w, s', q, origin);
    var next := NextLine(w.File(q.gen), q.off, w.bufSize);
    assert w'.Shape();
    TakePasses(w, w', q, next.text, next.next);
    SameFiles(w, w', w.past.durable);
  }

  lemma TakeKeeps(w: World, s': Session, q: Pos, origin: nat, count: int)
    requires Inv(w) && w.session.Some? && w.InFile(q) && w.Passed(q) && AtMost(w.past.durable, q)
    requires var next := NextLine(w.File(q.gen), q.off, w.bufSize);
             && next.Line? && s'.line == next.text && s'.lastScannedBytes == |next.text| + 1
             && Taken(w, s', q, origin).Reading() == Pos(q.gen, next.next)
    requires s'.pendingOffset == count + s'.lastScannedBytes
    requires Handles(Taken(w, s', q, origin))
    requires Counted(w.File(q.gen), origin, q.off, count)
    requires !s'.done && s'.lastCommitted <= count
    requires if w.past.durable.gen == q.gen then s'.lastCommitted == w.past.durable.off
             else s'.rotated.None? && s'.lastCommitted == 0
    ensures Inv(Taken(w, s', q, origin))
  {
    var next := NextLine(w.File(q.gen), q.off, w.bufSize);
    TakeProgress(w, s', q, origin);
    TakeCounts(w.File(q.gen), origin, q.off, count, next.text, next.next, w.bufSize);
  }

  /** The world after a Scan found nothing: only the session differs. */
  lemma FinishKeeps(w: World, s': Session)
    requires Inv(w) && w.session.Some? && Handles(w.(session := Some(s')))
    requires s'.done && s'.rotated.None?
    requires w.Passed(w.(session := Some(s')).Reading()) && AtMost(w.past.mark, w.(session := Some(s')).Reading())
    requires var r, s := w.(session := Some(s')).Reading(), w.session.value;
             if w.past.mark.gen == r.gen then
               && s.rotated.None? && s' == s.(reader := s'.reader, done := true)
               && (r == w.Reading() || TornEnd(w.File(r.gen), r.off))
             else
               && s'.pendingOffset == 0 && s'.lastCommitted == 0 && w.past.durable.gen != r.gen
               && s'.lastScannedBytes == s.lastScannedBytes
    ensures Inv(w.(session := Some(s')))
  {
    var w' := w.(session := Some(s'));
    assert w'.Shape();
    SameFiles(w, w', w'.Reading());
    SameFiles(w, w', w.past.mark);
    SameFiles(w, w', w.past.durable);
  }

  /** A Scan that finds a line in the file the session was opened for. */
  lemma ScanNewFileTakes(w: World)
    requires Inv(w) && Enabled(w, ScanNext) && w.session.value.rotated.None? && !w.session.value.done
    requires NextLine(w.File(w.past.epoch), w.session.value.reader.pos, w.bufSize).Line?
    ensures Inv(AfterScan(w))
  {
    var s, q := w.session.value, w.Reading();
    var next := NextLine(w.File(q.gen), q.off, w.bufSize);
    var s' := Took(s.(reader := s.reader.(pos := next.next)), next.text);
    assert AfterScan(w) == Taken(w, s', q, w.past.origin);
    TakeKeeps(w, s', q, w.past.origin, s.pendingOffset);
  }

  /** A Scan that finds no line in the file the session was opened for. */
  lemma ScanNewFileEnds(w: World)
    requires Inv(w) && Enabled(w, ScanNext) && w.session.value.rotated.None? && !w.session.value.done
    requires !NextLine(w.File(w.past.epoch), w.session.value.reader.pos, w.bufSize).Line?
    ensures Inv(AfterScan(w))
  {
    var s, q := w.session.value, w.Reading();
    var d := w.File(q.gen);
    EndPasses(w, q);
    if NextLine(d, q.off, w.bufSize).Torn? {
      FindLFFinds(d, q.off);
      assert !LfTerminated(d);
    }
    FinishKeeps(w, Scan(s, w.data, w.bufSize).0);
  }

  /** The session after taking the next line of the rotated file. */
  ghost function TookRotated(w: World, text: bytes, next: nat): Session
    requires w.session.Some? && w.session.value.rotated.Some?
  {
    var s := w.session.value;
    Took(s.(rotated := Some(s.rotated.value.(pos := next))), text)
  }

  lemma TookRotatedHandles(w: World, text: bytes, next: nat)
    requires w.Shape() && Handles(w) && w.session.Some? && w.session.value.rotated.Some?
    requires next <= |w.File(w.past.drains)|
    ensures Handles(Taken(w, TookRotated(w, text, next), w.Reading(), w.past.origin))
  {
    SameNoLine(w, Taken(w, TookRotated(w, text, next), w.Reading(), w.past.origin), w.past.drains, w.past.epoch);
  }

  /** A Scan that still finds a line in the rotated file. */
  lemma ScanRotatedTakes(w: World)
    requires Inv(w) && Enabled(w, ScanNext) && w.session.value.rotated.Some?
    requires NextLine(w.File(w.past.drains), w.session.value.rotated.value.pos, w.bufSize).Line?
    ensures Inv(AfterScan(w))
  {
    var s, q := w.session.value, w.Reading();
    var next := NextLine(w.File(q.gen), q.off, w.bufSize);
    var s' := TookRotated(w, next.text, next.next);
    assert AfterScan(w) == Taken(w, s', q, w.past.origin);
    TookRotatedHandles(w, next.text, next.next);
    TakeKeeps(w, s', q, w.past.origin, s.pendingOffset);
  }

  /** A Scan that leaves the rotated file behind and finds a line in the new one. */
  lemma ScanSwitchTakes(w: World)
    requires Inv(w) && Enabled(w, ScanNext) && w.session.value.rotated.Some?
    requires !NextLine(w.File(w.past.drains), w.session.value.rotated.value.pos, w.bufSize).Line?
    requires NextLine(w.File(w.past.epoch), 0, w.bufSize).Line?
    ensures Inv(AfterScan(w))
  {
    var s, q := w.session.value, Pos(w.past.epoch, 0);
    var next := NextLine(w.File(q.gen), 0, w.bufSize);
    var t := SwitchToNewFile(s);
    var s' := Took(t.(reader := t.reader.(pos := next.next)), next.text);
    EndPasses(w, w.Reading());
    assert AfterScan(w) == Taken(w, s', q, 0);
    TakeKeeps(w, s', q, 0, 0);
  }

  /** A Scan that leaves the rotated file behind and finds nothing in the new one. */
  lemma ScanSwitchEnds(w: World)
    requires Inv(w) && Enabled(w, ScanNext) && w.session.value.rotated.Some?
    requires !NextLine(w.File(w.past.drains), w.session.value.rotated.value.pos, w.bufSize).Line?
    requires !NextLine(w.File(w.past.epoch), 0, w.bufSize).Line?
    ensures Inv(AfterScan(w))
  {
    EndPasses(w, w.Reading());
    EndPasses(w, Pos(w.past.epoch, 0));
    FinishKeeps(w, Scan(w.session.value, w.data, w.bufSize).0);
  }

  lemma ScanKeeps(w: World)
    requires Inv(w) && Enabled(w, ScanNext)
    ensures Inv(AfterScan(w))
  {
    var s := w.session.value;
    if s.done {
      assert AfterScan(w) == w;
    } else if s.rotated.None? {
      if NextLine(w.File(w.past.epoch), s.reader.pos, w.bufSize).Line? {
        ScanNewFileTakes(w);
      } else {
        ScanNewFileEnds(w);
      }
    } else if NextLine(w.File(w.past.drains), s.rotated.value.pos, w.bufSize).Line? {
      ScanRotatedTakes(w);
    } else if NextLine(w.File(w.past.epoch), 0, w.bufSize).Line? {
      ScanSwitchTakes(w);
    } else {
      ScanSwitchEnds(w);
    }
  }

  // ---- Commit ----

  /** What was covered before a later position is covered before an earlier one in the same file. */
  lemma CoveredBefore(w: World, q: Pos, m: Pos)
    requires w.Shape() && w.Covered(m) && q.gen == m.gen && q.off <= m.off
    ensures w.Covered(q)
  {
    forall p | w.Since(p) && Before(p, q)
      ensures if w.Finished(p) then w.Delivered(p) else p.gen < q.gen
    {
      assert Before(p, m);
    }
  }

  /** Where a commit that writes stands: not after the mark, and before the durable position only if its
      offset is less than the one last committed. */
  lemma CommitPlace(w: World, offset: int)
    requires Inv(w) && w.session.Some? && CommitSafe(w.session.value, offset)
    requires offset != w.session.value.lastCommitted
    ensures var s, k := w.session.value, w.past.epoch;
            && k < |w.past.gens| && s.rotated.None? && s.reader.inode == w.past.gens[k]
            && w.past.mark.gen == k && 0 <= offset <= w.past.mark.off
            && (AtMost(w.past.durable, Pos(k, offset)) <==> s.lastCommitted <= offset)
  {
  }

  lemma CommitShape(w: World, offset: int)
    requires w.Shape() && Enabled(w, CommitAt(offset))
    ensures var w' := AfterCommit(w, offset);
            w'.Shape() && w'.Reading() == w.Reading() && w'.data == w.data && w'.past.gens == w.past.gens
  {
  }

  lemma CommitWrites(w: World, offset: int)
    requires Inv(w) && Enabled(w, CommitAt(offset)) && offset != w.session.value.lastCommitted
    ensures var w' := AfterCommit(w, offset);
            w'.Shape() && RegInv(w') && Handles(w') && Progressing(w') && w'.Reading() == w.Reading()
  {
    CommitPlace(w, offset);
    var w' := AfterCommit(w, offset);
    var q := Pos(w.past.epoch, offset);
    CommitShape(w, offset);
    CoveredBefore(w, q, w.past.mark);
    SameFiles(w, w', q);
    SameFiles(w, w', w.past.mark);
    SameFiles(w, w', w.Reading());
  }

  /** A guarded commit keeps the invariant, and moves the durable position back exactly when its offset is
      less than the one last committed. */
  lemma CommitKeeps(w: World, offset: int)
    requires Inv(w) && Enabled(w, CommitAt(offset))
    ensures Inv(AfterCommit(w, offset))
    ensures AtMost(w.past.durable, AfterCommit(w, offset).past.durable) <==> w.session.value.lastCommitted <= offset
  {
    if offset == w.session.value.lastCommitted {
      assert AfterCommit(w, offset) == w;
    } else {
      CommitPlace(w, offset);
      CommitWrites(w, offset);
    }
  }

  lemma CrashKeeps(w: World)
    requires Inv(w)
    ensures Inv(Apply(w, Crash))
  {
    SameFilesKeep(w, Apply(w, Crash));
  }

  lemma StepKeeps(w: World, e: Event)
    requires Inv(w) && Enabled(w, e)
    ensures Inv(Apply(w, e))
  {
    match e
    case Append(more) => AppendKeeps(w, more);
    case Rotate(newDir, newInode) => RotateKeeps(w, newDir, newInode);
    case Tidy(newDir) => TidyKeeps(w, newDir);
    case Construct => ConstructKeeps(w);
    case ScanNext => ScanKeeps(w);
    case CommitNow => CommitKeeps(w, w.session.value.CommitPoint());
    case CommitAt(offset) => CommitKeeps(w, offset);
    case Crash => CrashKeeps(w);
  }
}
