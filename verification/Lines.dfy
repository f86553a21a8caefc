/** Byte strings and the line structure of a log file, independent of how the file is read.
    Positions are absolute indices into the file. */
module Lines {

  newtype byte = b: int | 0 <= b < 256

  type bytes = seq<byte>

  const LF: byte := 10
  const CR: byte := 13

  /** The first line feed at or after a position, or the length when there is none. */
  function FindLF(d: bytes, from: nat): (k: nat)
    requires from <= |d|
    ensures from <= k <= |d|
    decreases |d| - from
  {
    if from == |d| || d[from] == LF then from else FindLF(d, from + 1)
  }

  /** The text of the line whose line feed is at e: one carriage return before it does not count. */
  function LineText(d: bytes, s: nat, e: nat): (t: bytes)
    requires s <= e <= |d|
    ensures if s < e && d[e - 1] == CR then t + [CR] == d[s..e] else t == d[s..e]
  {
    if s < e && d[e - 1] == CR then d[s..e - 1] else d[s..e]
  }

  /** A position as a reader sees it; a seek may have gone past the end. */
  function Clip(d: bytes, pos: nat): (p: nat)
    ensures p <= |d|
  {
    if pos <= |d| then pos else |d|
  }

  ghost predicate NoLF(d: bytes, s: nat, e: nat)
    requires s <= e <= |d|
  {
    forall i :: s <= i < e ==> d[i] != LF
  }

  lemma {:induction false} FindLFFinds(d: bytes, from: nat)
    requires from <= |d|
    ensures NoLF(d, from, FindLF(d, from))
    ensures FindLF(d, from) < |d| ==> d[FindLF(d, from)] == LF
    decreases |d| - from
  {
    if from < |d| && d[from] != LF {
      FindLFFinds(d, from + 1);
    }
  }

  lemma FindLFIs(d: bytes, from: nat, k: nat)
    requires from <= k <= |d| && NoLF(d, from, k) && (k < |d| ==> d[k] == LF)
    ensures FindLF(d, from) == k
  {
    FindLFFinds(d, from);
    var j := FindLF(d, from);
    assert j <= k && k <= j;
  }

  /** From anywhere inside a line, the next line feed is the line's own. */
  lemma FindLFInside(d: bytes, s: nat, p: nat)
    requires s <= p <= |d| && p <= FindLF(d, s)
    ensures FindLF(d, p) == FindLF(d, s)
  {
    FindLFFinds(d, s);
    FindLFIs(d, p, FindLF(d, s));
  }

  // ---- the plain split at line feeds ----

  function SplitLF(d: bytes, pos: nat): (ss: seq<bytes>)
    requires pos <= |d|
    ensures |ss| >= 1
    decreases |d| - pos
  {
    var k := FindLF(d, pos);
    if k == |d| then [d[pos..]] else [d[pos..k]] + SplitLF(d, k + 1)
  }

  function JoinLF(ss: seq<bytes>): bytes
    requires |ss| >= 1
  {
    if |ss| == 1 then ss[0] else ss[0] + [LF] + JoinLF(ss[1..])
  }

  ghost predicate FreeOf(d: bytes, x: byte) {
    x !in d
  }

  ghost predicate PiecesFreeOf(ss: seq<bytes>, x: byte) {
    forall i :: 0 <= i < |ss| ==> FreeOf(ss[i], x)
  }

  /** SplitLF is the split at line feeds: joining gives the bytes back and no piece holds a line feed. */
  lemma {:induction false} SplitJoin(d: bytes, pos: nat)
    requires pos <= |d|
    ensures JoinLF(SplitLF(d, pos)) == d[pos..]
    ensures PiecesFreeOf(SplitLF(d, pos), LF)
    decreases |d| - pos
  {
    FindLFFinds(d, pos);
    var k := FindLF(d, pos);
    if k < |d| {
      SplitJoin(d, k + 1);
      assert d[pos..] == d[pos..k] + [LF] + d[k + 1..];
      assert SplitLF(d, pos)[1..] == SplitLF(d, k + 1);
    }
  }

  lemma FindLFAfter(d: bytes, pos: nat, piece: bytes, after: bytes)
    requires pos <= |d| && d[pos..] == piece + after
    requires FreeOf(piece, LF) && (after == [] || after[0] == LF)
    ensures FindLF(d, pos) == pos + |piece|
    ensures d[pos..pos + |piece|] == piece && d[pos + |piece|..] == after
  {
    assert forall i :: 0 <= i < |piece| + |after| ==> d[pos + i] == d[pos..][i];
    forall i | pos <= i < pos + |piece|
      ensures d[i] != LF
    {
      assert d[i] == piece[i - pos];
    }
    FindLFIs(d, pos, pos + |piece|);
  }

  /** It is the only one: line-feed free pieces whose join is the rest of the file are its split. */
  lemma {:induction false} JoinSplit(d: bytes, pos: nat, ss: seq<bytes>)
    requires |ss| >= 1 && PiecesFreeOf(ss, LF)
    requires pos <= |d| && d[pos..] == JoinLF(ss)
    ensures SplitLF(d, pos) == ss
    decreases |ss|
  {
    assert FreeOf(ss[0], LF);
    if |ss| == 1 {
      FindLFAfter(d, pos, ss[0], []);
    } else {
      var after := [LF] + JoinLF(ss[1..]);
      assert ss[0] + after == JoinLF(ss);
      FindLFAfter(d, pos, ss[0], after);
      var k := FindLF(d, pos);
      assert d[k + 1..] == after[1..];
      JoinSplit(d, k + 1, ss[1..]);
      assert SplitLF(d, pos) == [ss[0]] + ss[1..];
    }
  }

  // ---- line starts ----

  ghost predicate LfTerminated(d: bytes) {
    d == [] || d[|d| - 1] == LF
  }

  /** Nothing, or a line feed, is before the position. */
  ghost predicate Boundary(d: bytes, s: int) {
    0 <= s <= |d| && (s == 0 || d[s - 1] == LF)
  }

  ghost predicate IsStart(d: bytes, s: int) {
    0 <= s < |d| && (s == 0 || d[s - 1] == LF)
  }

  /** The line starting at s has its line feed. */
  ghost predicate Terminated(d: bytes, s: nat) {
    s <= |d| && FindLF(d, s) < |d|
  }

  ghost function LineAt(d: bytes, s: nat): bytes
    requires s <= |d|
  {
    LineText(d, s, FindLF(d, s))
  }

  /** Appending never changes a line that already has its line feed. */
  lemma AppendKeepsLine(d: bytes, more: bytes, s: nat)
    requires Terminated(d, s)
    ensures Terminated(d + more, s) && LineAt(d + more, s) == LineAt(d, s)
    ensures FindLF(d + more, s) == FindLF(d, s)
  {
    FindLFFinds(d, s);
    FindLFIs(d + more, s, FindLF(d, s));
  }

  /** Between a position and its next line feed no further line starts. */
  lemma NoStartInside(d: bytes, p: nat, s: nat)
    requires p < s < |d| && s <= FindLF(d, p)
    ensures !IsStart(d, s)
  {
    FindLFFinds(d, p);
  }

  // ---- carriage returns ----

  /** How many line feeds in d[a..b] directly follow a carriage return of d[a..b]. */
  ghost function CountCRLF(d: bytes, a: nat, b: nat): nat
    requires a <= b <= |d|
    decreases b
  {
    if b - a < 2 then 0
    else CountCRLF(d, a, b - 1) + (if d[b - 2] == CR && d[b - 1] == LF then 1 else 0)
  }

  ghost predicate CRLFAt(d: bytes, i: int) {
    0 <= i < |d| - 1 && d[i] == CR && d[i + 1] == LF
  }

  ghost predicate NoCRLF(d: bytes, a: nat, b: nat) {
    forall i :: a <= i < b - 1 ==> !CRLFAt(d, i)
  }

  lemma {:induction false} CountCRLFNone(d: bytes, a: nat, b: nat)
    requires a <= b <= |d|
    ensures CountCRLF(d, a, b) == 0 <==> NoCRLF(d, a, b)
    decreases b
  {
    if b - a >= 2 {
      CountCRLFNone(d, a, b - 1);
      assert CRLFAt(d, b - 2) <==> d[b - 2] == CR && d[b - 1] == LF;
    }
  }

  /** A stretch without line feeds adds nothing to the count. */
  lemma {:induction false} CountCRLFSameLine(d: bytes, a: nat, p: nat, e: nat)
    requires a <= p <= e <= |d| && NoLF(d, p, e)
    ensures CountCRLF(d, a, e) == CountCRLF(d, a, p)
    decreases e
  {
    if p < e {
      CountCRLFSameLine(d, a, p, e - 1);
    }
  }

  /** Reading one whole line from a boundary adds one exactly when its text lost a carriage return. */
  lemma CountCRLFLine(d: bytes, a: nat, p: nat, k: nat)
    requires a <= p <= k < |d| && k == FindLF(d, p)
    requires p == a || d[p - 1] == LF
    ensures CountCRLF(d, a, k + 1) == CountCRLF(d, a, p) + (k - p) - |LineText(d, p, k)|
  {
    FindLFFinds(d, p);
    CountCRLFSameLine(d, a, p, k);
  }

  /** Appending does not change what came before. */
  lemma {:induction false} CountCRLFAppend(d: bytes, more: bytes, a: nat, b: nat)
    requires a <= b <= |d|
    ensures CountCRLF(d + more, a, b) == CountCRLF(d, a, b)
    decreases b
  {
    if b - a >= 2 {
      CountCRLFAppend(d, more, a, b - 1);
    }
  }
}
