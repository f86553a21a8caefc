/** Reading lines through a fixed-size buffer: the pieces a buffered reader hands out, and the line
    they amount to whatever the size of the buffer. */
module Reading {
  import opened Lines

  /** The smallest buffer a buffered reader allocates, whatever size it is asked for. */
  const MIN_BUF_SIZE := 16

  /** What one call of ReadLine yields: an end-of-file error, or a piece of a line, whether the line
      goes on in the next piece, and the position after it. */
  datatype Chunk = ChunkEof | Piece(text: bytes, isPrefix: bool, next: nat)

  /** The contract of bufio.Reader.ReadLine at a position: a line feed within the buffer ends the line;
      a full buffer without one is a prefix, whose last carriage return is put back; otherwise the file
      has ended. */
  function ReadChunk(d: bytes, pos: nat, bufSize: nat): (c: Chunk)
    requires bufSize >= MIN_BUF_SIZE
    ensures c.Piece? ==> pos < c.next <= |d|
  {
    if pos >= |d| then ChunkEof
    else
      var k := FindLF(d, pos);
      if k < |d| && k - pos < bufSize then Piece(LineText(d, pos, k), false, k + 1)
      else if |d| - pos >= bufSize then
        var n := if d[pos + bufSize - 1] == CR then pos + bufSize - 1 else pos + bufSize;
        Piece(d[pos..n], true, n)
      else Piece(d[pos..], false, |d|)
  }

  /** What reading up to a line feed amounts to: nothing left, an unterminated tail that is thrown away
      because a long line met the end of file, or a line and the position after it. */
  datatype NextResult = Eof | Torn | Line(text: bytes, next: nat)

  /** Whether reading an unterminated tail in pieces ends on an empty rest, so that the next ReadLine
      reports end of file and the pieces are thrown away. */
  predicate TailDropped(d: bytes, from: nat, bufSize: nat)
    requires bufSize >= MIN_BUF_SIZE && from <= |d|
    decreases |d| - from
  {
    if |d| - from < bufSize then from == |d|
    else TailDropped(d, if d[from + bufSize - 1] == CR then from + bufSize - 1 else from + bufSize, bufSize)
  }

  /** The next line, said without pieces: everything up to the line feed, less one carriage return. */
  function NextLine(d: bytes, pos: nat, bufSize: nat): (r: NextResult)
    requires bufSize >= MIN_BUF_SIZE
    ensures r.Line? ==> pos < r.next <= |d|
  {
    if pos >= |d| then Eof
    else
      var k := FindLF(d, pos);
      if k < |d| then Line(LineText(d, pos, k), k + 1)
      else if TailDropped(d, pos, bufSize) then Torn
      else Line(d[pos..], |d|)
  }

  /** The state of the long-line loop after d[start..pos] has been gathered as prefixes. */
  ghost predicate Gathering(d: bytes, start: nat, pos: nat, full: bytes, bufSize: nat)
    requires bufSize >= MIN_BUF_SIZE
  {
    && start < pos <= |d|
    && full == d[start..pos]
    && pos <= FindLF(d, start)
    && (d[pos - 1] == CR ==> pos < |d| && d[pos] == CR)
    && (FindLF(d, start) == |d| ==> TailDropped(d, start, bufSize) == TailDropped(d, pos, bufSize))
  }

  lemma FirstPiece(d: bytes, pos: nat, bufSize: nat)
    requires bufSize >= MIN_BUF_SIZE
    ensures match ReadChunk(d, pos, bufSize)
            case ChunkEof => NextLine(d, pos, bufSize) == Eof
            case Piece(text, isPrefix, n) =>
              if isPrefix then Gathering(d, pos, n, text, bufSize)
              else NextLine(d, pos, bufSize) == Line(text, n)
  {
  }

  lemma NextPrefix(d: bytes, start: nat, pos: nat, full: bytes, bufSize: nat)
    requires bufSize >= MIN_BUF_SIZE && Gathering(d, start, pos, full, bufSize)
    requires var c := ReadChunk(d, pos, bufSize); c.Piece? && c.isPrefix
    ensures var c := ReadChunk(d, pos, bufSize);
            Gathering(d, start, c.next, full + c.text, bufSize)
  {
    FindLFInside(d, start, pos);
    var c := ReadChunk(d, pos, bufSize);
    assert d[start..pos] + d[pos..c.next] == d[start..c.next];
  }

  /** The last piece completes the gathered prefixes to the line, or the end of file drops them. */
  lemma LastPiece(d: bytes, start: nat, pos: nat, full: bytes, bufSize: nat)
    requires bufSize >= MIN_BUF_SIZE && Gathering(d, start, pos, full, bufSize)
    requires var c := ReadChunk(d, pos, bufSize); c.ChunkEof? || !c.isPrefix
    ensures match ReadChunk(d, pos, bufSize)
            case ChunkEof => NextLine(d, start, bufSize) == Torn && pos == |d|
            case Piece(text, _, n) => NextLine(d, start, bufSize) == Line(full + text, n)
  {
    FindLFInside(d, start, pos);
    FindLFFinds(d, start);
    var k := FindLF(d, start);
    if pos < |d| {
      if k < |d| {
        assert d[start..pos] + d[pos..k] == d[start..k];
        assert pos < k ==> d[start..pos] + d[pos..k - 1] == d[start..k - 1];
      } else {
        assert d[start..pos] + d[pos..] == d[start..];
      }
    }
  }

  /** What the long-line loop comes to from a position, with `full` gathered: the line and the position
      after it, or Torn when the file ends on a prefix. */
  function Gather(d: bytes, pos: nat, full: bytes, bufSize: nat): NextResult
    requires bufSize >= MIN_BUF_SIZE
    decreases |d| - Clip(d, pos)
  {
    match ReadChunk(d, pos, bufSize)
    case ChunkEof => Torn
    case Piece(text, isPrefix, n) =>
      if isPrefix then Gather(d, n, full + text, bufSize) else Line(full + text, n)
  }

  /** Gathering pieces refines the line said without pieces. */
  lemma {:induction false} GatherIsNextLine(d: bytes, start: nat, pos: nat, full: bytes, bufSize: nat)
    requires bufSize >= MIN_BUF_SIZE && Gathering(d, start, pos, full, bufSize)
    ensures Gather(d, pos, full, bufSize) == NextLine(d, start, bufSize)
    decreases |d| - pos
  {
    var c := ReadChunk(d, pos, bufSize);
    if c.ChunkEof? || !c.isPrefix {
      LastPiece(d, start, pos, full, bufSize);
    } else {
      NextPrefix(d, start, pos, full, bufSize);
      GatherIsNextLine(d, start, c.next, full + c.text, bufSize);
    }
  }

  // ---- a whole file ----

  /** The pieces of a split that a reader is owed: the terminated ones without their carriage return,
      and the unterminated last one unless it is empty or dropped. */
  function OwedPieces(ss: seq<bytes>, bufSize: nat): seq<bytes>
    requires bufSize >= MIN_BUF_SIZE && |ss| >= 1
  {
    if |ss| == 1 then (if TailDropped(ss[0], 0, bufSize) then [] else [ss[0]])
    else [LineText(ss[0], 0, |ss[0]|)] + OwedPieces(ss[1..], bufSize)
  }

  /** The lines a reader is owed from a position on. */
  function OwedLines(d: bytes, pos: nat, bufSize: nat): seq<bytes>
    requires bufSize >= MIN_BUF_SIZE
  {
    OwedPieces(SplitLF(d, Clip(d, pos)), bufSize)
  }

  /** What taking NextLine from a position on until it fails delivers. */
  function ReadAll(d: bytes, pos: nat, bufSize: nat): seq<bytes>
    requires bufSize >= MIN_BUF_SIZE
    decreases |d| - Clip(d, pos)
  {
    match NextLine(d, pos, bufSize)
    case Line(text, n) => [text] + ReadAll(d, n, bufSize)
    case _ => []
  }

  lemma {:induction false} TailDroppedSlice(d: bytes, pos: nat, from: nat, bufSize: nat)
    requires bufSize >= MIN_BUF_SIZE && pos <= from <= |d|
    ensures TailDropped(d[pos..], from - pos, bufSize) == TailDropped(d, from, bufSize)
    decreases |d| - from
  {
    if |d| - from >= bufSize {
      assert d[pos..][from - pos + bufSize - 1] == d[from + bufSize - 1];
      TailDroppedSlice(d, pos, if d[from + bufSize - 1] == CR then from + bufSize - 1 else from + bufSize, bufSize);
    }
  }

  lemma OwedPiecesCons(first: bytes, rest: seq<bytes>, bufSize: nat)
    requires bufSize >= MIN_BUF_SIZE && |rest| >= 1
    ensures OwedPieces([first] + rest, bufSize) == [LineText(first, 0, |first|)] + OwedPieces(rest, bufSize)
  {
    assert ([first] + rest)[1..] == rest;
  }

  lemma LineTextSlice(d: bytes, pos: nat, k: nat)
    requires pos <= k <= |d|
    ensures LineText(d[pos..k], 0, |d[pos..k]|) == LineText(d, pos, k)
  {
    var piece := d[pos..k];
    assert piece[0..|piece|] == piece;
    if pos < k {
      assert piece[k - pos - 1] == d[k - 1] && piece[0..k - pos - 1] == d[pos..k - 1];
    }
  }

  lemma OwedLinesLine(d: bytes, pos: nat, bufSize: nat)
    requires bufSize >= MIN_BUF_SIZE && pos < |d| && FindLF(d, pos) < |d|
    ensures OwedLines(d, pos, bufSize)
         == [LineText(d, pos, FindLF(d, pos))] + OwedLines(d, FindLF(d, pos) + 1, bufSize)
  {
    var k := FindLF(d, pos);
    var first, rest := d[pos..k], SplitLF(d, k + 1);
    OwedPiecesCons(first, rest, bufSize);
    LineTextSlice(d, pos, k);
    calc {
      OwedLines(d, pos, bufSize);
      OwedPieces([first] + rest, bufSize);
      [LineText(first, 0, |first|)] + OwedPieces(rest, bufSize);
      [LineText(d, pos, k)] + OwedLines(d, k + 1, bufSize);
    }
  }

  lemma OwedLinesTail(d: bytes, pos: nat, bufSize: nat)
    requires bufSize >= MIN_BUF_SIZE && FindLF(d, Clip(d, pos)) == |d|
    ensures OwedLines(d, pos, bufSize)
         == if TailDropped(d, Clip(d, pos), bufSize) then [] else [d[Clip(d, pos)..]]
  {
    TailDroppedSlice(d, Clip(d, pos), Clip(d, pos), bufSize);
  }

  /** No line feed is left from a position on, and the rest, which may be empty, is dropped. */
  predicate Spent(d: bytes, pos: nat, bufSize: nat)
    requires bufSize >= MIN_BUF_SIZE
  {
    FindLF(d, Clip(d, pos)) == |d| && TailDropped(d, Clip(d, pos), bufSize)
  }

  lemma SpentOwesNothing(d: bytes, pos: nat, bufSize: nat)
    requires bufSize >= MIN_BUF_SIZE
    ensures OwedLines(d, pos, bufSize) == [] <==> Spent(d, pos, bufSize)
  {
    if FindLF(d, Clip(d, pos)) < |d| {
      OwedLinesLine(d, pos, bufSize);
    } else {
      OwedLinesTail(d, pos, bufSize);
    }
  }

  /** Chunked reading refines the plain line split, for every buffer size. */
  lemma {:induction false} ReadAllIsSplit(d: bytes, pos: nat, bufSize: nat)
    requires bufSize >= MIN_BUF_SIZE
    ensures ReadAll(d, pos, bufSize) == OwedLines(d, pos, bufSize)
    decreases |d| - Clip(d, pos)
  {
    if pos < |d| && FindLF(d, pos) < |d| {
      OwedLinesLine(d, pos, bufSize);
      ReadAllIsSplit(d, FindLF(d, pos) + 1, bufSize);
    } else {
      OwedLinesTail(d, pos, bufSize);
    }
  }

  function Times(q: nat, n: nat): nat {
    q * n
  }

  ghost predicate MultipleOf(a: nat, n: nat) {
    exists q: nat :: Times(q, n) == a
  }

  lemma MultipleLess(a: nat, n: nat)
    requires a >= n > 0
    ensures MultipleOf(a, n) <==> MultipleOf(a - n, n)
  {
    if MultipleOf(a - n, n) {
      var q: nat :| Times(q, n) == a - n;
      assert Times(q + 1, n) == a;
    }
    if MultipleOf(a, n) {
      var q: nat :| Times(q, n) == a;
      assert q > 0;
      assert Times(q - 1, n) == a - n;
    }
  }

  /** A tail without carriage returns is dropped exactly when its length is a multiple of the buffer
      size (the empty tail included). */
  lemma {:induction false} TailDroppedWhen(d: bytes, from: nat, bufSize: nat)
    requires bufSize >= MIN_BUF_SIZE && from <= |d| && FreeOf(d, CR)
    ensures TailDropped(d, from, bufSize) <==> MultipleOf(|d| - from, bufSize)
    decreases |d| - from
  {
    if |d| - from >= bufSize {
      assert d[from + bufSize - 1] in d;
      TailDroppedWhen(d, from + bufSize, bufSize);
      MultipleLess(|d| - from, bufSize);
    } else {
      assert Times(0, bufSize) == 0;
      if MultipleOf(|d| - from, bufSize) {
        var q: nat :| Times(q, bufSize) == |d| - from;
        assert q == 0;
      }
    }
  }

  /** A tail that ends in a carriage return is always delivered. */
  lemma {:induction false} TailEndingInCRKept(d: bytes, from: nat, bufSize: nat)
    requires bufSize >= MIN_BUF_SIZE && from < |d| && d[|d| - 1] == CR
    ensures !TailDropped(d, from, bufSize)
    decreases |d| - from
  {
    if |d| - from >= bufSize {
      TailEndingInCRKept(d, if d[from + bufSize - 1] == CR then from + bufSize - 1 else from + bufSize, bufSize);
    }
  }

  /** The last piece, unless it is empty or has the length of whole buffers. */
  ghost function KeptTail(tail: bytes, bufSize: nat): seq<bytes> {
    if MultipleOf(|tail|, bufSize) then [] else [tail]
  }

  lemma {:induction false} OwedPiecesPlain(lines: seq<bytes>, tail: bytes, bufSize: nat)
    requires bufSize >= MIN_BUF_SIZE && PiecesFreeOf(lines, CR) && FreeOf(tail, CR)
    ensures OwedPieces(lines + [tail], bufSize) == lines + KeptTail(tail, bufSize)
  {
    if lines == [] {
      TailDroppedWhen(tail, 0, bufSize);
      assert lines + [tail] == [tail] && lines + KeptTail(tail, bufSize) == KeptTail(tail, bufSize);
    } else {
      var first, rest := lines[0], lines[1..];
      assert FreeOf(first, CR);
      OwedPiecesPlain(rest, tail, bufSize);
      assert LineText(first, 0, |first|) == first;
      assert lines + [tail] == [first] + (rest + [tail]);
      OwedPiecesCons(first, rest + [tail], bufSize);
      assert lines + KeptTail(tail, bufSize) == [first] + (rest + KeptTail(tail, bufSize));
    }
  }

  lemma {:induction false} SplitFreeOfCR(d: bytes, pos: nat)
    requires pos <= |d| && FreeOf(d, CR)
    ensures PiecesFreeOf(SplitLF(d, pos), CR)
    decreases |d| - pos
  {
    var k := FindLF(d, pos);
    if k < |d| {
      SplitFreeOfCR(d, k + 1);
      assert FreeOf(d[pos..k], CR);
    }
  }

  /** With no carriage return in the bytes, the lines delivered are the pieces of the split themselves,
      less a tail whose length is a multiple of the buffer size. */
  lemma PlainReadAll(d: bytes, bufSize: nat)
    requires bufSize >= MIN_BUF_SIZE && FreeOf(d, CR)
    ensures var ss := SplitLF(d, 0);
            ReadAll(d, 0, bufSize) == ss[..|ss| - 1] + KeptTail(ss[|ss| - 1], bufSize)
  {
    ReadAllIsSplit(d, 0, bufSize);
    SplitFreeOfCR(d, 0);
    var ss := SplitLF(d, 0);
    assert ss == ss[..|ss| - 1] + [ss[|ss| - 1]];
    OwedPiecesPlain(ss[..|ss| - 1], ss[|ss| - 1], bufSize);
  }
}
