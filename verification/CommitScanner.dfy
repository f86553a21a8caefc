/** The scanner itself: an object over open handles whose methods update its fields and the reg file,
    each proved to do to its state what the functions of module Sessions say. */
module CommitScanner {
  import opened Results
  import opened Lines
  import opened Reading
  import opened RegFile
  import opened RotatedFile
  import S = Sessions

  /** The part of the disk the scanner touches: the log's directory, every file's bytes, the reg file. */
  class Disk {
    var dir: Directory
    var data: S.Contents
    var reg: Option<string>
  }

  /** A buffered reader over an open file, already positioned. */
  class LineReader {
    const disk: Disk
    const inode: Inode
    const bufSize: nat
    var pos: nat

    constructor (disk: Disk, inode: Inode, pos: nat, bufSize: nat)
      ensures this.disk == disk && this.inode == inode && this.pos == pos && this.bufSize == bufSize
    {
      this.disk, this.inode, this.pos, this.bufSize := disk, inode, pos, bufSize;
    }

    ghost predicate Valid()
      reads this, disk
    {
      bufSize >= MIN_BUF_SIZE && inode in disk.data
    }

    /** The bytes of the file, as of now. */
    ghost function File(): bytes
      requires Valid()
      reads this, disk
    {
      disk.data[inode]
    }

    method ReadLine() returns (c: Chunk)
      requires Valid()
      modifies this
      ensures Valid() && c == ReadChunk(File(), old(pos), bufSize)
      ensures pos == if c.Piece? then c.next else old(pos)
    {
      c := ReadChunk(disk.data[inode], pos, bufSize);
      if c.Piece? {
        pos := c.next;
      }
    }
  }

  class OffsetCommitScanner {
    const disk: Disk
    const bufSize: nat
    const inode: Inode
    const reader: LineReader
    var rotatedReader: LineReader?
    var readingRotated: bool
    var pendingOffset: int
    var lastCommitted: int
    var lastScannedBytes: nat
    var line: bytes
    var done: bool

    ghost predicate Valid()
      reads this, disk, reader, rotatedReader
    {
      && reader.disk == disk && reader.bufSize == bufSize && reader.inode == inode && reader.Valid()
      && (readingRotated <==> rotatedReader != null)
      && (rotatedReader != null ==> rotatedReader != reader && rotatedReader.disk == disk
                                    && rotatedReader.bufSize == bufSize && rotatedReader.Valid())
      && disk.reg.Some?
    }

    /** The state as a value. */
    ghost function View(): (s: S.Session)
      requires Valid()
      reads this, disk, reader, rotatedReader
      ensures s.Valid(disk.data)
    {
      S.Session(S.Cursor(inode, reader.pos),
                if rotatedReader == null then None else Some(S.Cursor(rotatedReader.inode, rotatedReader.pos)),
                pendingOffset, lastCommitted, lastScannedBytes, line, done)
    }

    constructor (disk: Disk, bufSize: nat, reader: LineReader, rotatedReader: LineReader?, initialOffset: int)
      requires reader.disk == disk && reader.bufSize == bufSize && reader.Valid()
      requires rotatedReader != null ==> rotatedReader != reader && rotatedReader.disk == disk
                                         && rotatedReader.bufSize == bufSize && rotatedReader.Valid()
      requires disk.reg.Some?
      ensures Valid() && this.disk == disk && this.bufSize == bufSize
      ensures this.reader == reader && this.rotatedReader == rotatedReader
      ensures View() == S.Session(S.Cursor(reader.inode, reader.pos),
                                  if rotatedReader == null then None
                                  else Some(S.Cursor(rotatedReader.inode, rotatedReader.pos)),
                                  initialOffset, initialOffset, 0, [], false)
    {
      this.disk, this.bufSize, this.inode := disk, bufSize, reader.inode;
      this.reader, this.rotatedReader, this.readingRotated := reader, rotatedReader, rotatedReader != null;
      pendingOffset, lastCommitted, lastScannedBytes := initialOffset, initialOffset, 0;
      line, done := [], false;
    }

    method SwitchToNewFile()
      requires Valid()
      modifies this
      ensures Valid() && View() == S.SwitchToNewFile(old(View()))
    {
      rotatedReader := null;
      readingRotated := false;
      pendingOffset := 0;
      lastCommitted := 0;
    }

    /** The slow path: a line longer than the buffer, appended piece by piece. None is the end of file
        in the middle of it, on which what was gathered is thrown away. */
    method ReadLongLine(active: LineReader, first: bytes) returns (full: Option<bytes>)
      requires active.Valid() && active.pos <= |active.File()|
      modifies active
      ensures active.Valid()
      ensures match Gather(active.File(), old(active.pos), first, active.bufSize)
              case Line(text, next) => full == Some(text) && active.pos == next
              case _ => full == None && active.pos == |active.File()|
    {
      ghost var d := active.File();
      var fullLine, isPrefix := first, true;
      while isPrefix
        invariant active.Valid() && active.File() == d && active.pos <= |d|
        invariant Gather(d, old(active.pos), first, active.bufSize)
               == if isPrefix then Gather(d, active.pos, fullLine, active.bufSize) else Line(fullLine, active.pos)
        decreases isPrefix, |d| - active.pos
      {
        var c := active.ReadLine();
        if c.ChunkEof? {
          return None;
        }
        fullLine, isPrefix := fullLine + c.text, c.isPrefix;
      }
      return Some(fullLine);
    }

    /** The next line by either path; None when the reader reports the end of file. */
    method ReadFullLine(active: LineReader) returns (full: Option<bytes>)
      requires active.Valid()
      modifies active
      ensures active.Valid()
      ensures match NextLine(active.File(), old(active.pos), active.bufSize)
              case Line(text, next) => full == Some(text) && active.pos == next
              case Torn => full == None && active.pos == |active.File()|
              case Eof => full == None && active.pos == old(active.pos)
    {
      FirstPiece(active.File(), active.pos, active.bufSize);
      var c := active.ReadLine();
      if c.ChunkEof? {
        return None;
      }
      if !c.isPrefix {
        return Some(c.text);
      }
      GatherIsNextLine(active.File(), old(active.pos), active.pos, c.text, active.bufSize);
      full := ReadLongLine(active, c.text);
    }

    method Scan() returns (ok: bool)
      requires Valid()
      modifies this, reader, rotatedReader
      ensures Valid() && (View(), ok) == S.Scan(old(View()), disk.data, bufSize)
      ensures rotatedReader == old(rotatedReader) || rotatedReader == null
      decreases readingRotated
    {
      if done {
        return false;
      }
      var activeReader := reader;
      if readingRotated {
        activeReader := rotatedReader;
      }
      var full := ReadFullLine(activeReader);
      if full.None? {
        if readingRotated {
          SwitchToNewFile();
          ok := Scan();
          return;
        }
        done := true;
        return false;
      }
      line := full.value;
      var lineBytes := |line| + 1;
      lastScannedBytes := lineBytes;
      pendingOffset := pendingOffset + lineBytes;
      return true;
    }

    method WriteReg(offset: int)
      requires Valid()
      modifies disk`reg
      ensures Valid() && disk.reg == Some(FormatReg(offset, inode))
      ensures View() == old(View())
    {
      disk.reg := Some(FormatReg(offset, inode));
    }

    method CommitOffset(offset: int)
      requires Valid()
      modifies this, disk`reg
      ensures Valid() && disk.reg.Some?
      ensures (View(), disk.reg.value) == S.CommitOffset(old(View()), old(disk.reg.value), offset)
      ensures rotatedReader == old(rotatedReader)
    {
      if offset == lastCommitted {
        return;
      }
      WriteReg(offset);
      lastCommitted := offset;
    }

    method Commit()
      requires Valid()
      modifies this, disk`reg
      ensures Valid() && disk.reg.Some?
      ensures (View(), disk.reg.value) == S.Commit(old(View()), old(disk.reg.value))
      ensures rotatedReader == old(rotatedReader)
    {
      var lastSegEndOffset := pendingOffset - lastScannedBytes;
      if lastSegEndOffset == lastCommitted {
        return;
      }
      WriteReg(lastSegEndOffset);
      lastCommitted := lastSegEndOffset;
    }
  }

  /** Opens a session on the log `name`; on an error nothing is written. */
  method NewOffsetCommitScanner(disk: Disk, name: string, bufSize: nat) returns (r: Result<OffsetCommitScanner>)
    requires S.Backed(disk.dir, disk.data) && name != "" && bufSize >= MIN_BUF_SIZE
    modifies disk`reg
    ensures match S.Open(disk.dir, name, disk.data, old(disk.reg))
            case Err(e) => r == Err(e) && disk.reg == old(disk.reg)
            case Ok(start) =>
              && r.Ok? && fresh(r.value) && r.value.Valid() && r.value.disk == disk && r.value.bufSize == bufSize
              && r.value.View() == start.session
              && disk.reg == Some(start.reg)
  {
    var fst := Stat(disk.dir, name);
    if fst.None? {
      return Err("no such file");
    }
    var currentInode := fst.value.inode;
    var fileSize := |disk.data[currentInode]|;

    var parsed := S.LastReg(disk.reg);
    if parsed.Err? {
      return Err(parsed.error);
    }
    var lastReg := parsed.value;

    var startOffset: nat;
    var rotatedReader: LineReader? := null;
    if lastReg.offset < 0 {
      startOffset := fileSize;
    } else if lastReg.inode != 0 && lastReg.inode != currentInode {
      var rotatedPath := FindRotatedFile(disk.dir, name, lastReg.inode);
      if rotatedPath != "" {
        FoundHasInode(disk.dir, name, lastReg.inode);
        var rotated := Stat(disk.dir, rotatedPath).value;
        rotatedReader := new LineReader(disk, rotated.inode, lastReg.offset, bufSize);
      }
      startOffset := 0;
    } else if fileSize < lastReg.offset {
      startOffset := 0;
    } else {
      startOffset := lastReg.offset;
    }

    if rotatedReader != null {
      disk.reg := Some(FormatReg(lastReg.offset, lastReg.inode));
    } else {
      disk.reg := Some(FormatReg(startOffset, currentInode));
    }

    var reader := new LineReader(disk, currentInode, startOffset, bufSize);
    var initialOffset: int := startOffset;
    if rotatedReader != null {
      initialOffset := lastReg.offset;
    }
    var scanner := new OffsetCommitScanner(disk, bufSize, reader, rotatedReader, initialOffset);
    return Ok(scanner);
  }
}
