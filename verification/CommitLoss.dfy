/** What a commit costs: exactly which lines the next session no longer reads, at any moment, guarded or not. */
module CommitLoss {
  import opened Results
  import opened Lines
  import opened Reading
  import opened RegFile
  import opened RotatedFile
  import opened Sessions
  import opened Protocol
  import opened ProtocolTheorems

  /** Where a session opened right after committing an offset begins: after a commit with nothing to write
      where a restart resumes anyway; after a negative offset at the end of the log; else at that offset of
      the session's own file if this is the log, unless it is past its end, or is found; else at the start
      of the log. */
  ghost function NextStart(w: World, offset: int): Pos
    requires w.Shape() && w.session.Some? && w.past.epoch < |w.past.gens| && w.past.durable.gen < |w.past.gens|
  {
    var k, top := w.past.epoch, w.Top();
    if offset == w.session.value.lastCommitted then
      if w.past.durable.gen == top || w.Found() then w.past.durable else Pos(top, 0)
    else if offset < 0 then Pos(top, |w.File(top)|)
    else if k == top then Pos(top, if |w.File(top)| < offset then 0 else offset)
    else if Find(w.dir, w.name, w.past.gens[k]) != "" then Pos(k, offset)
    else Pos(top, 0)
  }

  ghost function StartFrom(w: World, q: Pos): Start
    requires w.Shape() && q.gen < |w.past.gens|
  {
    if q.gen == w.Top() then StartAt(w.Current(), q.off) else StartChained(w.Current(), w.past.gens[q.gen], q.off)
  }

  lemma NextSession(w: World, offset: int)
    requires Inv(w) && w.session.Some? && MIN_INT64 <= offset <= MAX_INT64
    ensures w.reg.Some?
    ensures Open(w.dir, w.name, w.data, Some(CommitOffset(w.session.value, w.reg.value, offset).1))
         == Ok(StartFrom(w, NextStart(w, offset)))
  {
    if offset == w.session.value.lastCommitted {
      RestartSession(w);
    } else {
      NextSessionWritten(w, offset);
    }
  }

  lemma NextSessionWritten(w: World, offset: int)
    requires w.Shape() && Handles(w) && w.session.Some? && MIN_INT64 <= offset <= MAX_INT64
    requires w.past.durable.gen < |w.past.gens| && offset != w.session.value.lastCommitted
    ensures Open(w.dir, w.name, w.data, Some(FormatReg(offset, w.session.value.reader.inode)))
         == Ok(StartFrom(w, NextStart(w, offset)))
  {
    var inode := w.session.value.reader.inode;
    RegRoundTrip(offset, inode);
    assert Stat(w.dir, w.name).Some? && Stat(w.dir, w.name).value.inode == w.Current();
    assert inode == w.Current() <==> w.past.epoch == w.Top();
  }

  // ---- what it reads ----

  /** The session will read the file of p from that place or before. */
  ghost predicate Reads(w: World, s: Session, p: Pos)
    requires w.Shape() && p.gen < |w.past.gens|
  {
    || (s.reader.inode == w.past.gens[p.gen] && s.reader.pos <= p.off)
    || (s.rotated.Some? && s.rotated.value.inode == w.past.gens[p.gen] && s.rotated.value.pos <= p.off)
  }

  lemma {:induction false} OwedHasLine(d: bytes, pos: nat, s: nat, bufSize: nat)
    requires bufSize >= MIN_BUF_SIZE && pos <= s && IsStart(d, s) && Terminated(d, s)
    ensures LineAt(d, s) in OwedLines(d, pos, bufSize)
    decreases |d| - pos
  {
    FindLFFinds(d, s);
    FindLFFinds(d, pos);
    OwedLinesLine(d, pos, bufSize);
    if pos < s {
      StartAfterLine(d, pos, s);
      OwedHasLine(d, FindLF(d, pos) + 1, s, bufSize);
    }
  }

  lemma StartAfterLine(d: bytes, pos: nat, s: nat)
    requires pos < s && IsStart(d, s)
    ensures FindLF(d, pos) < s
  {
    if s <= FindLF(d, pos) {
      NoStartInside(d, pos, s);
    }
  }

  /** So it owes every finished line that it reads. */
  lemma ReadIsOwed(w: World, s: Session, p: Pos)
    requires w.Shape() && s.Valid(w.data) && !s.done && w.LineStart(p) && w.Finished(p) && Reads(w, s, p)
    ensures LineAt(w.File(p.gen), p.off) in Owed(s, w.data, w.bufSize)
  {
    OwedByStart(s, w.data, w.bufSize);
    if s.reader.inode == w.past.gens[p.gen] && s.reader.pos <= p.off {
      OwedHasLine(w.File(p.gen), s.reader.pos, p.off, w.bufSize);
    } else {
      OwedHasLine(w.File(p.gen), s.rotated.value.pos, p.off, w.bufSize);
    }
  }

  // ---- what it loses ----

  /** No finished line starts from the one place on and before the other. */
  ghost predicate NoLineIn(w: World, a: Pos, b: Pos)
    requires w.Shape()
  {
    forall p :: AtMost(a, p) && Before(p, b) && w.LineStart(p) ==> !w.Finished(p)
  }

  ghost function Later(a: Pos, b: Pos): Pos {
    if Before(a, b) then b else a
  }

  /** The session reads every finished line that the present one has not passed. */
  ghost predicate ReadsOn(w: World, s: Session)
    requires w.Shape() && w.session.Some?
  {
    forall p :: AtMost(w.Reading(), p) && w.LineStart(p) && w.Finished(p) ==> Reads(w, s, p)
  }

  /** No finished line starts between the present reading position and the place, nor in the files that a
      session which begins there passes over. */
  ghost predicate PassesNone(w: World, next: Pos)
    requires w.Shape() && w.session.Some?
  {
    && NoLineIn(w, w.Reading(), next)
    && NoLineIn(w, Later(w.Reading(), Pos(next.gen + 1, 0)), Pos(w.Top(), 0))
  }

  lemma ReadsFrom(w: World, q: Pos, p: Pos)
    requires w.Shape() && q.gen < |w.past.gens| && p.gen < |w.past.gens|
    ensures Reads(w, StartFrom(w, q).session, p) <==>
              !Before(p, q) && (p.gen == q.gen || p.gen == w.Top())
  {
    assert w.past.gens[p.gen] == w.past.gens[q.gen] <==> p.gen == q.gen;
    assert w.past.gens[p.gen] == w.Current() <==> p.gen == w.Top();
  }

  lemma ReadsOnExactly(w: World, q: Pos)
    requires w.Shape() && w.session.Some? && q.gen < |w.past.gens|
    ensures ReadsOn(w, StartFrom(w, q).session) <==> PassesNone(w, q)
  {
    var s, r := StartFrom(w, q).session, w.Reading();
    forall p | AtMost(r, p) && w.LineStart(p)
      ensures !Reads(w, s, p) <==>
                Before(p, q) || (AtMost(Later(r, Pos(q.gen + 1, 0)), p) && Before(p, Pos(w.Top(), 0)))
    {
      ReadsFrom(w, q, p);
    }
    assert forall p :: AtMost(Later(r, Pos(q.gen + 1, 0)), p) ==> AtMost(r, p);
  }

  /** The session reads every finished line that was never delivered. */
  ghost predicate ReadsUndelivered(w: World, s: Session)
    requires w.Shape()
  {
    forall p :: w.Since(p) && w.Finished(p) && !w.Delivered(p) ==> Reads(w, s, p)
  }

  /** Before the reading position everything was delivered, so a session that reads on reads all the rest. */
  lemma ReadsOnIsEnough(w: World, s: Session)
    requires Inv(w) && w.session.Some? && Settled(w) && ReadsOn(w, s)
    ensures ReadsUndelivered(w, s)
  {
    forall p | w.Since(p) && w.Finished(p) && !w.Delivered(p)
      ensures Reads(w, s, p)
    {
      assert !Before(p, w.Reading());
    }
  }

  /** At any moment of any run, whatever offset is committed, guarded or not: where the next session begins,
      and that it reads every finished line the present one has not passed if and only if none starts between
      the present reading position and there, nor in the files it passes over after that.
      Unless the present session ran dry in a line that was written on since, such a next session reads every
      finished line that was never delivered. */
  lemma CommitLosesExactly(w0: World, es: seq<Event>, offset: int)
    requires Initial(w0) && Legal(w0, es) && Run(w0, es).session.Some? && MIN_INT64 <= offset <= MAX_INT64
    ensures var w := Run(w0, es);
            && w.Shape() && Handles(w) && w.reg.Some? && w.past.durable.gen < |w.past.gens|
            && var next := NextStart(w, offset);
            && Open(w.dir, w.name, w.data, Some(CommitOffset(w.session.value, w.reg.value, offset).1))
               == Ok(StartFrom(w, next))
            && var s := StartFrom(w, next).session;
            && (ReadsOn(w, s) <==> PassesNone(w, next))
            && (Settled(w) && ReadsOn(w, s) ==> ReadsUndelivered(w, s))
  {
    ReachableInv(w0, es);
    CommitLosesAt(Run(w0, es), offset);
  }

  lemma CommitLosesAt(w: World, offset: int)
    requires Inv(w) && w.session.Some? && MIN_INT64 <= offset <= MAX_INT64
    ensures w.reg.Some?
    ensures var next := NextStart(w, offset);
            && Open(w.dir, w.name, w.data, Some(CommitOffset(w.session.value, w.reg.value, offset).1))
               == Ok(StartFrom(w, next))
            && var s := StartFrom(w, next).session;
            && (ReadsOn(w, s) <==> PassesNone(w, next))
            && (Settled(w) && ReadsOn(w, s) ==> ReadsUndelivered(w, s))
  {
    NextSession(w, offset);
    var s := StartFrom(w, NextStart(w, offset)).session;
    assert ReadsOn(w, s) <==> PassesNone(w, NextStart(w, offset)) by {
      ReadsOnExactly(w, NextStart(w, offset));
    }
    if Settled(w) && ReadsOn(w, s) {
      ReadsOnIsEnough(w, s);
    }
  }

  lemma GuardedNextStart(w: World, offset: int)
    requires Inv(w) && w.session.Some? && CommitSafe(w.session.value, offset)
    requires w.session.value.rotated.None? && w.past.epoch == w.Top()
    ensures AtMost(NextStart(w, offset), w.Reading())
  {
    if offset != w.session.value.lastCommitted {
      CommitPlace(w, offset);
    }
  }

  /** A guarded commit of a session that reads the log itself loses nothing. */
  lemma GuardedCommitLosesNothing(w0: World, es: seq<Event>, offset: int)
    requires Initial(w0) && Legal(w0, es) && Run(w0, es).session.Some?
    requires var w := Run(w0, es);
             && CommitSafe(w.session.value, offset) && w.session.value.rotated.None?
             && w.Shape() && w.past.epoch == w.Top()
    ensures var w := Run(w0, es);
            w.past.durable.gen < |w.past.gens| && ReadsOn(w, StartFrom(w, NextStart(w, offset)).session)
  {
    ReachableInv(w0, es);
    GuardedReadsOn(Run(w0, es), offset);
  }

  lemma GuardedReadsOn(w: World, offset: int)
    requires Inv(w) && w.session.Some? && CommitSafe(w.session.value, offset)
    requires w.session.value.rotated.None? && w.past.epoch == w.Top()
    ensures ReadsOn(w, StartFrom(w, NextStart(w, offset)).session)
  {
    GuardedNextStart(w, offset);
    ReadsOnExactly(w, NextStart(w, offset));
  }
}
