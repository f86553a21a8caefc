/** The scanner's state as a value, and what each of its operations does to that value. The class in
    CommitScanner.dfy is proved to compute these functions; Protocol.dfy runs them against a file
    system that changes underneath. */
module Sessions {
  import opened Decimal
  import opened Results
  import opened Lines
  import opened Reading
  import opened RegFile
  import opened RotatedFile

  /** The bytes of every file, by inode. */
  type Contents = map<Inode, bytes>

  /** An open handle: the file and the position of its first unread byte. */
  datatype Cursor = Cursor(inode: Inode, pos: nat)

  /** `rotated` is present while the rotated file is being drained. */
  datatype Session = Session(
    reader: Cursor,
    rotated: Option<Cursor>,
    pendingOffset: int,
    lastCommitted: int,
    lastScannedBytes: nat,
    line: bytes,
    done: bool)
  {
    /** The offset that Commit stores: the recorded position before the last delivered line. */
    function CommitPoint(): int {
      pendingOffset - lastScannedBytes
    }

    ghost predicate Valid(data: Contents) {
      reader.inode in data && (rotated.Some? ==> rotated.value.inode in data)
    }
  }

  // ---- Scan ----

  function Took(s: Session, text: bytes): Session {
    s.(pendingOffset := s.pendingOffset + |text| + 1, lastScannedBytes := |text| + 1, line := text)
  }

  function SwitchToNewFile(s: Session): Session {
    s.(rotated := None, pendingOffset := 0, lastCommitted := 0)
  }

  function ScanNewFile(s: Session, data: Contents, bufSize: nat): (Session, bool)
    requires s.Valid(data) && bufSize >= MIN_BUF_SIZE
  {
    var d := data[s.reader.inode];
    match NextLine(d, s.reader.pos, bufSize)
    case Line(text, n) => (Took(s.(reader := s.reader.(pos := n)), text), true)
    case Torn => (s.(reader := s.reader.(pos := |d|), done := true), false)
    case Eof => (s.(done := true), false)
  }

  /** One Scan: the next line of the rotated file if it has one, else of the new file from then on. */
  function Scan(s: Session, data: Contents, bufSize: nat): (Session, bool)
    requires s.Valid(data) && bufSize >= MIN_BUF_SIZE
  {
    if s.done then (s, false)
    else if s.rotated.None? then ScanNewFile(s, data, bufSize)
    else
      var r := s.rotated.value;
      match NextLine(data[r.inode], r.pos, bufSize)
      case Line(text, n) => (Took(s.(rotated := Some(r.(pos := n))), text), true)
      case _ => ScanNewFile(SwitchToNewFile(s), data, bufSize)
  }

  // ---- Commit ----

  function CommitOffset(s: Session, reg: string, offset: int): (Session, string) {
    if offset == s.lastCommitted then (s, reg)
    else (s.(lastCommitted := offset), FormatReg(offset, s.reader.inode))
  }

  function Commit(s: Session, reg: string): (Session, string) {
    CommitOffset(s, reg, s.CommitPoint())
  }

  // ---- construction ----

  /** A fresh session and the reg text that construction writes. */
  datatype Start = Start(session: Session, reg: string)

  function StartAt(inode: Inode, offset: nat): Start {
    Start(Session(Cursor(inode, offset), None, offset, offset, 0, [], false), FormatReg(offset, inode))
  }

  function StartChained(inode: Inode, oldInode: Inode, offset: nat): Start {
    Start(Session(Cursor(inode, 0), Some(Cursor(oldInode, offset)), offset, offset, 0, [], false),
          FormatReg(offset, oldInode))
  }

  function LastReg(reg: Option<string>): Result<RegData> {
    if reg.None? then Ok(RegData(-1, 0)) else ParseReg(reg.value)
  }

  /** Every directory entry's bytes are known; no two entries share a name. */
  ghost predicate Backed(dir: Directory, data: Contents) {
    NamesDistinct(dir) && forall e :: e in dir ==> e.inode in data
  }

  /** Where a session resumes from the recorded offset and inode: the branches of the constructor. */
  function Resume(dir: Directory, name: string, inode: Inode, size: nat, last: RegData): Start {
    if last.offset < 0 then StartAt(inode, size)
    else if last.inode != 0 && last.inode != inode then
      if Find(dir, name, last.inode) != "" then StartChained(inode, last.inode, last.offset)
      else StartAt(inode, 0)
    else if size < last.offset then StartAt(inode, 0)
    else StartAt(inode, last.offset)
  }

  function Open(dir: Directory, name: string, data: Contents, reg: Option<string>): Result<Start>
    requires Backed(dir, data)
  {
    match Stat(dir, name)
    case None => Err("no such file")
    case Some(fst) =>
      match LastReg(reg)
      case Err(e) => Err(e)
      case Ok(last) => Ok(Resume(dir, name, fst.inode, |data[fst.inode]|, last))
  }

  /** Every way a construction can go, in the session's own fields. Without the log, or with a reg file that
      is no record, it fails. A negative offset, or no reg file, is a cold start at the end of the log. A
      record of another file is chained when that file is found, and else starts the log over. A record of
      this file, or of none in the older format, resumes at its offset unless the log is shorter. What is
      written back is the place resumed from, with the inode of the file that place is in. */
  lemma OpenIs(dir: Directory, name: string, data: Contents, reg: Option<string>, last: RegData)
    requires Backed(dir, data) && Stat(dir, name).Some?
    requires if reg.None? then last == RegData(-1, 0) else ParseReg(reg.value) == Ok(last)
    ensures var inode := Stat(dir, name).value.inode;
            var size, found := |data[inode]|, Find(dir, name, last.inode) != "";
            var other := last.offset >= 0 && last.inode != 0 && last.inode != inode;
            var start := if last.offset < 0 then size else if other || size < last.offset then 0 else last.offset;
            var counted := if other && found then last.offset else start;
            var r := Open(dir, name, data, reg);
            && r.Ok?
            && var s := r.value.session;
            && s.reader.inode == inode && s.reader.pos == start
            && (s.rotated.Some? <==> other && found)
            && (other && found ==> s.rotated.value.inode == last.inode && s.rotated.value.pos == last.offset)
            && s.pendingOffset == counted && s.lastCommitted == counted
            && s.lastScannedBytes == 0 && s.line == [] && !s.done
            && r.value.reg == FormatInt(counted) + "," + FormatNat(if other && found then last.inode else inode)
  {
  }

  lemma OpenFails(dir: Directory, name: string, data: Contents, reg: Option<string>)
    requires Backed(dir, data)
    ensures Open(dir, name, data, reg).Err? <==> Stat(dir, name).None? || (reg.Some? && ParseReg(reg.value).Err?)
  {
  }

  /** A record in the older format, without an inode, resumes in the log itself, whatever its inode: at the
      recorded offset, or at the start when the log is shorter; and owes every line from there. */
  lemma LegacyRestart(dir: Directory, name: string, data: Contents, reg: string, offset: nat, bufSize: nat)
    requires Backed(dir, data) && Stat(dir, name).Some? && bufSize >= MIN_BUF_SIZE
    requires ParseReg(reg) == Ok(RegData(offset, 0))
    ensures var inode := Stat(dir, name).value.inode;
            var start := if offset <= |data[inode]| then offset else 0;
            var r := Open(dir, name, data, Some(reg));
            && r.Ok?
            && var s := r.value.session;
            && s.rotated.None? && s.reader.inode == inode && s.reader.pos == start
            && s.pendingOffset == start && s.lastCommitted == start
            && r.value.reg == FormatInt(start) + "," + FormatNat(inode)
            && s.Valid(data) && Owed(s, data, bufSize) == OwedLines(data[inode], start, bufSize)
  {
    var inode := Stat(dir, name).value.inode;
    OpenIs(dir, name, data, Some(reg), RegData(offset, 0));
    var start := if offset <= |data[inode]| then offset else 0;
    ReadAllIsSplit(data[inode], start, bufSize);
    assert [] + OwedLines(data[inode], start, bufSize) == OwedLines(data[inode], start, bufSize);
  }

  /** Files only grow. */
  ghost predicate Grown(data: Contents, data': Contents) {
    forall i :: i in data ==> i in data' && data[i] <= data'[i]
  }

  /** The record a construction writes is a fixed point: constructing again, whatever was appended in
      between, resumes in the same mode at the same position and writes the same record. It holds in
      every branch: cold start, rotated, rotated but missing, truncated, older format, and normal. */
  lemma RestartStable(dir: Directory, name: string, data: Contents, data': Contents, reg: Option<string>)
    requires Backed(dir, data) && Backed(dir, data') && Grown(data, data')
    requires Open(dir, name, data, reg).Ok?
    requires var inode := Stat(dir, name).value.inode;
             inode <= MAX_UINT64 && |data[inode]| <= MAX_INT64
    ensures var first := Open(dir, name, data, reg).value;
            Open(dir, name, data', Some(first.reg)) == Ok(first)
  {
    var inode := Stat(dir, name).value.inode;
    var last := LastReg(reg).value;
    var first := Resume(dir, name, inode, |data[inode]|, last);
    if last.offset >= 0 && last.inode != 0 && last.inode != inode && Find(dir, name, last.inode) != "" {
      RegRoundTrip(last.offset, last.inode);
    } else {
      RegRoundTrip(first.session.pendingOffset, inode);
    }
  }

  // ---- a whole session on files that do not change ----

  function Unread(c: Cursor, data: Contents): nat
    requires c.inode in data
  {
    |data[c.inode]| - Clip(data[c.inode], c.pos)
  }

  /** Scanning until it returns false: the lines delivered and the final state. */
  function ScanAll(s: Session, data: Contents, bufSize: nat): (seq<bytes>, Session)
    requires s.Valid(data) && bufSize >= MIN_BUF_SIZE
    decreases s.rotated.Some?, if s.rotated.Some? then Unread(s.rotated.value, data) else Unread(s.reader, data)
  {
    var (s', ok) := Scan(s, data, bufSize);
    if ok then
      var (lines, end) := ScanAll(s', data, bufSize);
      ([s'.line] + lines, end)
    else ([], s')
  }

  function Remaining(c: Cursor, data: Contents, bufSize: nat): seq<bytes>
    requires c.inode in data && bufSize >= MIN_BUF_SIZE
  {
    ReadAll(data[c.inode], c.pos, bufSize)
  }

  /** The lines a session will still deliver, file by file. */
  function OwedRotated(s: Session, data: Contents, bufSize: nat): seq<bytes>
    requires s.Valid(data) && bufSize >= MIN_BUF_SIZE
  {
    if s.done || s.rotated.None? then [] else Remaining(s.rotated.value, data, bufSize)
  }

  function OwedNew(s: Session, data: Contents, bufSize: nat): seq<bytes>
    requires s.Valid(data) && bufSize >= MIN_BUF_SIZE
  {
    if s.done then [] else Remaining(s.reader, data, bufSize)
  }

  function Owed(s: Session, data: Contents, bufSize: nat): seq<bytes>
    requires s.Valid(data) && bufSize >= MIN_BUF_SIZE
  {
    OwedRotated(s, data, bufSize) + OwedNew(s, data, bufSize)
  }

  lemma ScanNewFileDelivers(s: Session, data: Contents, bufSize: nat)
    requires s.Valid(data) && bufSize >= MIN_BUF_SIZE && s.rotated.None? && !s.done
    ensures var (s', ok) := ScanNewFile(s, data, bufSize);
            if ok then s'.Valid(data) && s'.rotated.None?
                       && OwedNew(s, data, bufSize) == [s'.line] + OwedNew(s', data, bufSize)
            else OwedNew(s, data, bufSize) == [] && s'.done
  {
  }

  lemma ScanRotatedDelivers(s: Session, data: Contents, bufSize: nat)
    requires s.Valid(data) && bufSize >= MIN_BUF_SIZE && s.rotated.Some? && !s.done
    ensures var next := NextLine(data[s.rotated.value.inode], s.rotated.value.pos, bufSize);
            if next.Line? then
              var (s', ok) := Scan(s, data, bufSize);
              && ok && s'.Valid(data)
              && OwedRotated(s, data, bufSize) == [s'.line] + OwedRotated(s', data, bufSize)
              && OwedNew(s, data, bufSize) == OwedNew(s', data, bufSize)
            else
              var s' := SwitchToNewFile(s);
              && Scan(s, data, bufSize) == ScanNewFile(s', data, bufSize)
              && OwedRotated(s, data, bufSize) == []
              && OwedNew(s, data, bufSize) == OwedNew(s', data, bufSize)
  {
  }

  lemma ConsConcat(x: bytes, a: seq<bytes>, b: seq<bytes>)
    ensures ([x] + a) + b == [x] + (a + b)
    ensures [] + b == b
  {
  }

  /** A true Scan delivers the first owed line; a false one means nothing was owed. */
  lemma ScanDelivers(s: Session, data: Contents, bufSize: nat)
    requires s.Valid(data) && bufSize >= MIN_BUF_SIZE
    ensures var (s', ok) := Scan(s, data, bufSize);
            if ok then s'.Valid(data) && Owed(s, data, bufSize) == [s'.line] + Owed(s', data, bufSize)
            else Owed(s, data, bufSize) == [] && s'.done
  {
    var (s', ok) := Scan(s, data, bufSize);
    if s.done {
    } else {
      if s.rotated.None? {
        ScanNewFileDelivers(s, data, bufSize);
      } else {
        ScanRotatedDelivers(s, data, bufSize);
        if !NextLine(data[s.rotated.value.inode], s.rotated.value.pos, bufSize).Line? {
          ScanNewFileDelivers(SwitchToNewFile(s), data, bufSize);
        }
      }
      if ok {
        ConsConcat(s'.line, OwedRotated(s', data, bufSize), OwedNew(s', data, bufSize));
      }
    }
  }

  lemma {:induction false} ScanAllDelivers(s: Session, data: Contents, bufSize: nat)
    requires s.Valid(data) && bufSize >= MIN_BUF_SIZE
    ensures ScanAll(s, data, bufSize).0 == Owed(s, data, bufSize)
    ensures ScanAll(s, data, bufSize).1.done
    decreases s.rotated.Some?, if s.rotated.Some? then Unread(s.rotated.value, data) else Unread(s.reader, data)
  {
    ScanDelivers(s, data, bufSize);
    var (s', ok) := Scan(s, data, bufSize);
    if ok {
      ScanAllDelivers(s', data, bufSize);
    }
  }

  function OwedBy(c: Cursor, data: Contents, bufSize: nat): seq<bytes>
    requires c.inode in data && bufSize >= MIN_BUF_SIZE
  {
    OwedLines(data[c.inode], c.pos, bufSize)
  }

  /** Rotation is transparent: a session delivers the lines of the rotated file's remainder, then those
      of the new file from its position, each once and in order, and then returns false for ever,
      whatever happens to the files. */
  lemma RotationTransparent(s: Session, data: Contents, bufSize: nat, later: Contents)
    requires s.Valid(data) && bufSize >= MIN_BUF_SIZE && !s.done
    ensures ScanAll(s, data, bufSize).0 ==
            (if s.rotated.Some? then OwedBy(s.rotated.value, data, bufSize) else [])
            + OwedBy(s.reader, data, bufSize)
    ensures var end := ScanAll(s, data, bufSize).1;
            end.Valid(later) ==> Scan(end, later, bufSize) == (end, false)
  {
    ScanAllDelivers(s, data, bufSize);
    ReadAllIsSplit(data[s.reader.inode], s.reader.pos, bufSize);
    if s.rotated.Some? {
      ReadAllIsSplit(data[s.rotated.value.inode], s.rotated.value.pos, bufSize);
    }
  }
}
