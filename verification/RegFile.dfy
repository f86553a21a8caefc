/** The text of the reg file: "offset,inode" in decimal, or a bare offset in the older format. */
module RegFile {
  import opened Decimal
  import opened Results

  const MAX_INT64: int := 0x7FFF_FFFF_FFFF_FFFF
  const MIN_INT64: int := -0x8000_0000_0000_0000
  const MAX_UINT64: int := 0xFFFF_FFFF_FFFF_FFFF

  datatype RegData = RegData(offset: int, inode: nat)

  // ---- printing (the %d verb) ----

  function FormatInt(i: int): string {
    if i < 0 then "-" + FormatNat(-i) else FormatNat(i)
  }

  function FormatReg(offset: int, inode: nat): string {
    FormatInt(offset) + "," + FormatNat(inode)
  }

  // ---- parsing ----

  /** Base-10 unsigned parse: digits only, no sign, within 64 bits. */
  function ParseUint(s: string): Result<nat> {
    if s == "" || !AllDigits(s) then Err("invalid syntax")
    else if DigitsValue(s) > MAX_UINT64 then Err("value out of range")
    else Ok(DigitsValue(s))
  }

  /** Base-10 signed parse: an optional sign before an unsigned number, within 64 bits. */
  function ParseInt(s: string): Result<int> {
    if s == "" then Err("invalid syntax")
    else
      var negative := s[0] == '-';
      var digits := if negative || s[0] == '+' then s[1..] else s;
      match ParseUint(digits)
      case Err(e) => Err(e)
      case Ok(n) =>
        if !negative && n > MAX_INT64 then Err("value out of range")
        else if negative && 0 - n < MIN_INT64 then Err("value out of range")
        else Ok(if negative then 0 - n else n)
  }

  /** White space as Go's unicode package defines it. */
  predicate IsSpace(c: char) {
    c in {'\t', '\n', '\U{000B}', '\U{000C}', '\r', ' ', '\U{0085}', '\U{00A0}', '\U{1680}',
          '\U{2028}', '\U{2029}', '\U{202F}', '\U{205F}', '\U{3000}'}
    || '\U{2000}' <= c <= '\U{200A}'
  }

  function TrimLeft(s: string): string {
    if s != "" && IsSpace(s[0]) then TrimLeft(s[1..]) else s
  }

  function TrimRight(s: string): string {
    if s != "" && IsSpace(s[|s| - 1]) then TrimRight(s[..|s| - 1]) else s
  }

  function TrimSpace(s: string): string {
    TrimRight(TrimLeft(s))
  }

  function IndexComma(s: string): (k: nat)
    ensures k <= |s|
  {
    if s == "" || s[0] == ',' then 0 else 1 + IndexComma(s[1..])
  }

  function ParseReg(content: string): Result<RegData> {
    var s := TrimSpace(content);
    if s == "" then Ok(RegData(-1, 0))
    else
      var k := IndexComma(s);
      match ParseInt(s[..k])
      case Err(e) => Err("parse offset: " + e)
      case Ok(offset) =>
        if k == |s| then Ok(RegData(offset, 0))
        else
          match ParseUint(s[k + 1..])
          case Err(e) => Err("parse inode: " + e)
          case Ok(inode) => Ok(RegData(offset, inode))
  }

  // ---- round trips ----

  lemma FormatIntParses(i: int)
    requires MIN_INT64 <= i <= MAX_INT64
    ensures ParseInt(FormatInt(i)) == Ok(i)
  {
    FormatNatValue(if i < 0 then -i else i);
    if i < 0 {
      assert FormatInt(i)[1..] == FormatNat(-i);
    } else {
      assert IsDigit(FormatInt(i)[0]);
    }
  }

  ghost predicate NumberText(s: string) {
    s != "" && forall i :: 0 <= i < |s| ==> IsDigit(s[i]) || s[i] == '-'
  }

  lemma FormatIntText(i: int)
    ensures NumberText(FormatInt(i))
  {
    FormatNatValue(if i < 0 then -i else i);
  }

  lemma {:induction false} IndexCommaAfter(s: string, rest: string)
    requires forall i :: 0 <= i < |s| ==> s[i] != ','
    requires rest == "" || rest[0] == ','
    ensures IndexComma(s + rest) == |s|
  {
    if s == "" {
      assert s + rest == rest;
    } else {
      IndexCommaAfter(s[1..], rest);
      assert (s + rest)[1..] == s[1..] + rest;
    }
  }

  lemma NumberNotTrimmed(s: string)
    requires s != "" && (IsDigit(s[0]) || s[0] == '-') && IsDigit(s[|s| - 1])
    ensures TrimSpace(s) == s
  {
    assert !IsSpace(s[0]) && !IsSpace(s[|s| - 1]);
  }

  lemma ParseSplit(o: string, n: string)
    requires NumberText(o) && TrimSpace(o + "," + n) == o + "," + n
    requires ParseInt(o).Ok? && ParseUint(n).Ok?
    ensures ParseReg(o + "," + n) == Ok(RegData(ParseInt(o).value, ParseUint(n).value))
  {
    var s := o + "," + n;
    assert s == o + ("," + n);
    IndexCommaAfter(o, "," + n);
    assert s[..|o|] == o && s[|o| + 1..] == n;
  }

  /** What writeReg prints, parseRegContent reads back, for every offset and inode of the source's types. */
  lemma RegRoundTrip(offset: int, inode: nat)
    requires MIN_INT64 <= offset <= MAX_INT64 && inode <= MAX_UINT64
    ensures ParseReg(FormatReg(offset, inode)) == Ok(RegData(offset, inode))
  {
    var o, n := FormatInt(offset), FormatNat(inode);
    FormatIntText(offset);
    FormatNatValue(inode);
    FormatIntParses(offset);
    var s := o + "," + n;
    assert s[0] == o[0] && s[|s| - 1] == n[|n| - 1];
    NumberNotTrimmed(s);
    ParseSplit(o, n);
  }

  /** The older format, a bare decimal, is read as that offset with inode 0. */
  lemma LegacyReg(offset: int)
    requires MIN_INT64 <= offset <= MAX_INT64
    ensures ParseReg(FormatInt(offset)) == Ok(RegData(offset, 0))
  {
    var o := FormatInt(offset);
    FormatIntText(offset);
    FormatIntParses(offset);
    FormatNatValue(if offset < 0 then -offset else offset);
    NumberNotTrimmed(o);
    assert o + "" == o;
    IndexCommaAfter(o, "");
    assert o[..|o|] == o;
  }

  /** Content that is only white space, as a freshly created or truncated file has, means a cold start. */
  lemma {:induction false} BlankReg(content: string)
    requires forall i :: 0 <= i < |content| ==> IsSpace(content[i])
    ensures ParseReg(content) == Ok(RegData(-1, 0))
  {
    AllTrimmed(content);
  }

  lemma {:induction false} AllTrimmed(s: string)
    requires forall i :: 0 <= i < |s| ==> IsSpace(s[i])
    ensures TrimLeft(s) == ""
  {
    if s != "" {
      AllTrimmed(s[1..]);
    }
  }

  // ---- the texts, spelled out ----

  /** What writeReg prints: the offset, with a minus when it is negative, a comma, and the inode, both as
      digits without leading zeros. */
  lemma FormatRegIs(offset: int, inode: nat) returns (digits: string, number: string)
    ensures FormatReg(offset, inode) == (if offset < 0 then "-" else "") + digits + "," + number
    ensures digits != "" && AllDigits(digits) && DigitsValue(digits) == (if offset < 0 then -offset else offset)
    ensures number != "" && AllDigits(number) && DigitsValue(number) == inode
    ensures (digits == "0" || digits[0] != '0') && (number == "0" || number[0] != '0')
  {
    var a: nat := if offset < 0 then -offset else offset;
    digits, number := FormatNat(a), FormatNat(inode);
    FormatNatValue(a);
    FormatNatValue(inode);
    FormatNatCanonical(a);
    FormatNatCanonical(inode);
    assert "" + digits == digits;
  }

  /** The text is this number in decimal, with an optional sign, and within a signed 64-bit integer. */
  ghost predicate Denotes(s: string, i: int) {
    exists sign, digits ::
      s == sign + digits && sign in {"", "+", "-"} && digits != "" && AllDigits(digits)
      && i == (if sign == "-" then 0 - DigitsValue(digits) else DigitsValue(digits))
      && -0x8000_0000_0000_0000 <= i <= 0x7FFF_FFFF_FFFF_FFFF
  }

  /** The text is this number in decimal, and within an unsigned 64-bit integer. */
  ghost predicate DenotesNat(s: string, n: nat) {
    s != "" && AllDigits(s) && DigitsValue(s) == n && n <= 0xFFFF_FFFF_FFFF_FFFF
  }

  lemma ParseUintIs(s: string, n: nat)
    ensures ParseUint(s) == Ok(n) <==> DenotesNat(s, n)
  {
  }

  lemma ParseIntIs(s: string, i: int)
    ensures ParseInt(s) == Ok(i) <==> Denotes(s, i)
  {
    if Denotes(s, i) {
      var sign, digits :| s == sign + digits && sign in {"", "+", "-"} && digits != "" && AllDigits(digits)
        && i == (if sign == "-" then 0 - DigitsValue(digits) else DigitsValue(digits))
        && -0x8000_0000_0000_0000 <= i <= 0x7FFF_FFFF_FFFF_FFFF;
      SignParses(sign, digits, i);
    }
    if ParseInt(s) == Ok(i) {
      ParsedDenotes(s, i);
    }
  }

  lemma SignParses(sign: string, digits: string, i: int)
    requires sign in {"", "+", "-"} && digits != "" && AllDigits(digits)
    requires i == (if sign == "-" then 0 - DigitsValue(digits) else DigitsValue(digits))
    requires MIN_INT64 <= i <= MAX_INT64
    ensures ParseInt(sign + digits) == Ok(i)
  {
    var s := sign + digits;
    assert IsDigit(digits[0]);
    if sign == "" {
      assert s == digits;
    } else {
      assert s[1..] == digits && s[0] == sign[0];
    }
  }

  lemma ParsedDenotes(s: string, i: int)
    requires ParseInt(s) == Ok(i)
    ensures Denotes(s, i)
  {
    if s[0] == '-' {
      assert s == "-" + s[1..];
    } else if s[0] == '+' {
      assert s == "+" + s[1..];
    } else {
      assert s == "" + s;
    }
  }

  /** White space by code point: the controls from tab to carriage return, and the spaces. */
  lemma IsSpaceIs(c: char)
    ensures IsSpace(c) <==>
              || 9 <= c as int <= 13 || 0x2000 <= c as int <= 0x200A
              || c as int in {0x20, 0x85, 0xA0, 0x1680, 0x2028, 0x2029, 0x202F, 0x205F, 0x3000}
  {
  }

  ghost predicate Blank(s: string) {
    forall i :: 0 <= i < |s| ==> IsSpace(s[i])
  }

  lemma {:induction false} TrimLeftIs(s: string) returns (k: nat)
    ensures k <= |s| && TrimLeft(s) == s[k..] && Blank(s[..k]) && (k < |s| ==> !IsSpace(s[k]))
  {
    if s != "" && IsSpace(s[0]) {
      k := TrimLeftIs(s[1..]);
      k := k + 1;
      assert s[..k] == [s[0]] + s[1..][..k - 1];
    } else {
      k := 0;
    }
  }

  lemma {:induction false} TrimRightIs(s: string) returns (k: nat)
    ensures k <= |s| && TrimRight(s) == s[..k] && Blank(s[k..]) && (k > 0 ==> !IsSpace(s[k - 1]))
  {
    if s != "" && IsSpace(s[|s| - 1]) {
      k := TrimRightIs(s[..|s| - 1]);
      assert s[k..] == s[..|s| - 1][k..] + [s[|s| - 1]];
    } else {
      k := |s|;
    }
  }

  /** Trimming takes white space off both ends and nothing else, and leaves none there. */
  lemma TrimSpaceIs(s: string) returns (left: string, right: string)
    ensures s == left + TrimSpace(s) + right && Blank(left) && Blank(right)
    ensures TrimSpace(s) != "" ==> !IsSpace(TrimSpace(s)[0]) && !IsSpace(TrimSpace(s)[|TrimSpace(s)| - 1])
  {
    var j := TrimLeftIs(s);
    var k := TrimRightIs(TrimLeft(s));
    left, right := s[..j], TrimLeft(s)[k..];
  }

  lemma {:induction false} IndexCommaIs(s: string)
    ensures var k := IndexComma(s); ',' !in s[..k] && (k < |s| ==> s[k] == ',')
  {
    if s != "" && s[0] != ',' {
      IndexCommaIs(s[1..]);
      var k := IndexComma(s);
      assert s[..k] == [s[0]] + s[1..][..k - 1];
    }
  }

  /** Which texts are records, and of what: nothing but white space is a cold start; else, trimmed, it is an
      offset alone, of inode 0, or an offset, the first comma, and an inode. All others are refused. */
  lemma ParseRegIs(content: string, offset: int, inode: nat)
    ensures var s := TrimSpace(content);
            ParseReg(content) == Ok(RegData(offset, inode)) <==>
              if s == "" then offset == -1 && inode == 0
              else if ',' !in s then Denotes(s, offset) && inode == 0
              else exists k :: 0 <= k < |s| && s[k] == ',' && ',' !in s[..k]
                               && Denotes(s[..k], offset) && DenotesNat(s[k + 1..], inode)
  {
    var s := TrimSpace(content);
    var k := IndexComma(s);
    IndexCommaIs(s);
    ParseIntIs(s[..k], offset);
    if k == |s| {
      assert s[..k] == s;
    } else {
      ParseUintIs(s[k + 1..], inode);
      assert s[k] in s;
      forall j | 0 <= j < |s| && s[j] == ',' && ',' !in s[..j]
        ensures j == k
      {
        FirstCommaOnce(s, j, k);
      }
    }
  }

  lemma FirstCommaOnce(s: string, j: nat, k: nat)
    requires j < |s| && k < |s| && s[j] == ',' && s[k] == ',' && ',' !in s[..j] && ',' !in s[..k]
    ensures j == k
  {
    assert forall x :: 0 <= x < j ==> s[..j][x] == s[x];
    assert forall x :: 0 <= x < k ==> s[..k][x] == s[x];
  }
}
