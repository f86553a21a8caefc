/** The business tag in front of a shield's description: adding it, taking it off, reading it back. */
module ShieldDescription {
  import opened Decimal
  import opened Results
  import opened Text

  const HEAD := "[dbm:appid="

  function Tag(bizId: nat): (p: string)
    ensures p != ""
  {
    HEAD + FormatNat(bizId) + "]"
  }

  // ---- Python's str.replace(p, "") and str.strip() ----

  function Remove(s: string, p: string): (r: string)
    requires p != ""
    ensures |r| <= |s|
  {
    if |s| < |p| then s
    else if s[..|p|] == p then Remove(s[|p|..], p)
    else [s[0]] + Remove(s[1..], p)
  }

  /** White space as Python's str.isspace has it. */
  predicate IsSpace(c: char) {
    c in {' ', '\U{0085}', '\U{00A0}', '\U{1680}', '\U{2028}', '\U{2029}', '\U{202F}', '\U{205F}', '\U{3000}'}
    || '\t' <= c <= '\r' || '\U{001C}' <= c <= '\U{001F}' || '\U{2000}' <= c <= '\U{200A}'
  }

  function StripLeft(s: string): (r: string)
    ensures |r| <= |s|
    ensures r != "" ==> !IsSpace(r[0]) && r[|r| - 1] == s[|s| - 1]
  {
    if s != "" && IsSpace(s[0]) then StripLeft(s[1..]) else s
  }

  function StripRight(s: string): (r: string)
    ensures |r| <= |s|
    ensures r != "" ==> !IsSpace(r[|r| - 1]) && r[0] == s[0]
  {
    if s != "" && IsSpace(s[|s| - 1]) then StripRight(s[..|s| - 1]) else s
  }

  function Strip(s: string): string {
    StripRight(StripLeft(s))
  }

  // ---- the three functions ----

  function Deformat(bizId: nat, description: string): string {
    Strip(Remove(description, Tag(bizId)))
  }

  function Format(bizId: nat, description: string): string {
    Tag(bizId) + Strip(Remove(description, Tag(bizId)))
  }

  /** How many digits stand at a position. */
  function DigitRun(s: string, i: nat): (n: nat)
    requires i <= |s|
    ensures i + n <= |s|
    decreases |s| - i
  {
    if i == |s| || !IsDigit(s[i]) then 0 else 1 + DigitRun(s, i + 1)
  }

  lemma {:induction false} DigitRunDigits(s: string, i: nat)
    requires i <= |s|
    ensures AllDigits(s[i..i + DigitRun(s, i)])
    decreases |s| - i
  {
    if i < |s| && IsDigit(s[i]) {
      DigitRunDigits(s, i + 1);
      var n := DigitRun(s, i);
      assert s[i..i + n] == [s[i]] + s[i + 1..i + n];
    }
  }

  /** The tag's pattern matched at a position: its head, one or more digits, and the closing bracket. */
  function MatchAt(s: string, i: nat): Option<nat>
    requires i <= |s|
  {
    if !(HEAD <= s[i..]) then None
    else
      var from := i + |HEAD|;
      var n := DigitRun(s, from);
      if n > 0 && from + n < |s| && s[from + n] == ']' then
        DigitRunDigits(s, from);
        Some(DigitsValue(s[from..from + n]))
      else None
  }

  /** The leftmost match's number, or the given default. */
  function ParseBiz(s: string, i: nat, default: nat): nat
    requires i <= |s|
    decreases |s| - i
  {
    if MatchAt(s, i).Some? then MatchAt(s, i).value
    else if i == |s| then default
    else ParseBiz(s, i + 1, default)
  }

  // ---- reading the tag back ----

  lemma {:induction false} DigitRunIs(s: string, i: nat, n: nat)
    requires i + n < |s| && (forall k :: i <= k < i + n ==> IsDigit(s[k])) && !IsDigit(s[i + n])
    ensures DigitRun(s, i) == n
    decreases n
  {
    if n > 0 {
      DigitRunIs(s, i + 1, n - 1);
    }
  }

  /** The tag stands at a position: its head, some digits, and the closing bracket. */
  ghost predicate TagAt(s: string, i: int, digits: string) {
    && digits != "" && AllDigits(digits) && 0 <= i && i + 12 + |digits| <= |s|
    && s[i..i + 12 + |digits|] == "[dbm:appid=" + digits + "]"
  }

  lemma SubSlice(s: string, i: nat, m: nat, a: nat, b: nat)
    requires i + m <= |s| && a <= b <= m
    ensures s[i..i + m][a..b] == s[i + a..i + b]
  {
    var x, y := s[i..i + m][a..b], s[i + a..i + b];
    assert |x| == |y| && forall k :: 0 <= k < |y| ==> x[k] == s[i + a + k] && y[k] == s[i + a + k];
  }

  lemma TagParts(s: string, i: nat, digits: string)
    requires TagAt(s, i, digits)
    ensures i <= |s| && HEAD <= s[i..] && s[i + 11..i + 11 + |digits|] == digits && s[i + 11 + |digits|] == ']'
  {
    var tag, n := "[dbm:appid=" + digits + "]", |digits|;
    SubSlice(s, i, 12 + n, 0, 11);
    SubSlice(s, i, 12 + n, 11, 11 + n);
    assert tag[0..11] == HEAD && tag[11..11 + n] == digits && tag[11 + n] == ']';
    assert s[i..i + 12 + n][11 + n] == s[i + 11 + n];
    assert |HEAD| == 11 && s[i..][..11] == s[i + 0..i + 11] == HEAD;
  }

  lemma TagMatches(s: string, i: nat, digits: string)
    requires TagAt(s, i, digits)
    ensures i <= |s| && MatchAt(s, i) == Some(DigitsValue(digits))
  {
    TagParts(s, i, digits);
    var n := |digits|;
    assert forall k :: i + 11 <= k < i + 11 + n ==> s[k] == digits[k - i - 11];
    DigitRunIs(s, i + 11, n);
  }

  lemma MatchIsTag(s: string, i: nat) returns (digits: string)
    requires i <= |s|
    ensures MatchAt(s, i).Some? ==> TagAt(s, i, digits)
  {
    digits := "";
    if MatchAt(s, i).Some? {
      var n := DigitRun(s, i + 11);
      DigitRunDigits(s, i + 11);
      digits := s[i + 11..i + 11 + n];
      assert s[i..i + 12 + n] == HEAD + digits + "]";
    }
  }

  lemma {:induction false} ParseBizFrom(s: string, from: nat, default: nat) returns (i: int, digits: string)
    requires from <= |s|
    ensures if i < 0 then ParseBiz(s, from, default) == default && forall j, ds :: from <= j ==> !TagAt(s, j, ds)
            else from <= i && TagAt(s, i, digits) && ParseBiz(s, from, default) == DigitsValue(digits)
                 && forall j, ds :: from <= j < i ==> !TagAt(s, j, ds)
    decreases |s| - from
  {
    if MatchAt(s, from).Some? {
      i := from;
      digits := MatchIsTag(s, from);
      TagMatches(s, from, digits);
    } else {
      forall ds
        ensures !TagAt(s, from, ds)
      {
        if TagAt(s, from, ds) {
          TagMatches(s, from, ds);
        }
      }
      if from == |s| {
        i, digits := -1, "";
      } else {
        i, digits := ParseBizFrom(s, from + 1, default);
      }
    }
  }

  /** The business read is that of the leftmost tag in the text, and the default if and only if there is none
      or its number is that. */
  lemma ParseBizIs(s: string, default: nat)
    ensures (exists i, digits :: TagAt(s, i, digits)) ==>
              exists i, digits :: TagAt(s, i, digits) && (forall j, ds :: j < i ==> !TagAt(s, j, ds))
                                  && ParseBiz(s, 0, default) == DigitsValue(digits)
    ensures !(exists i, digits :: TagAt(s, i, digits)) ==> ParseBiz(s, 0, default) == default
  {
    var i, digits := ParseBizFrom(s, 0, default);
  }

  /** Whatever the description, the formatted text carries the business it was formatted for. */
  lemma ParseFormat(bizId: nat, description: string, default: nat)
    ensures ParseBiz(Format(bizId, description), 0, default) == bizId
  {
    var digits := FormatNat(bizId);
    var s := Format(bizId, description);
    FormatNatValue(bizId);
    var from := |HEAD|;
    assert s[0..] == s;
    assert s[from..from + |digits|] == digits;
    assert forall k :: from <= k < from + |digits| ==> s[k] == digits[k - from];
    DigitRunIs(s, from, |digits|);
  }

  // ---- formatting twice, and undoing it ----

  lemma {:induction false} RemoveAbsent(s: string, p: string)
    requires p != "" && !Contains(s, p)
    ensures Remove(s, p) == s
  {
    if |s| >= |p| {
      assert !OccursAt(s, p, 0);
      forall i: nat
        ensures !OccursAt(s[1..], p, i)
      {
        assert !OccursAt(s, p, i + 1);
        assert i + |p| <= |s| - 1 ==> s[1..][i..i + |p|] == s[i + 1..i + 1 + |p|];
      }
      RemoveAbsent(s[1..], p);
    }
  }

  lemma {:induction false} RemovePresent(s: string, p: string)
    requires p != "" && Contains(s, p)
    ensures |Remove(s, p)| < |s|
  {
    var i :| 0 <= i <= |s| && OccursAt(s, p, i);
    if s[..|p|] != p {
      assert i > 0;
      assert s[1..][i - 1..i - 1 + |p|] == s[i..i + |p|];
      assert OccursAt(s[1..], p, i - 1);
      RemovePresent(s[1..], p);
    }
  }

  lemma OccursLater(s: string, p: string, j: nat)
    requires s != ""
    ensures OccursAt(s[1..], p, j) <==> OccursAt(s, p, j + 1)
  {
    assert j + |p| <= |s| - 1 ==> s[1..][j..j + |p|] == s[j + 1..j + 1 + |p|];
  }

  lemma RemoveStep(s: string, p: string)
    requires p != "" && s != "" && !OccursAt(s, p, 0)
    ensures Remove(s, p) == [s[0]] + Remove(s[1..], p)
  {
    if |s| < |p| {
      assert Remove(s[1..], p) == s[1..];
    } else {
      assert s[0..0 + |p|] == s[..|p|];
    }
  }

  /** Removing goes from left to right: up to the first copy nothing changes, and after it the rest is done. */
  lemma {:induction false} RemoveFirst(before: string, p: string, after: string)
    requires p != "" && forall j: nat :: j < |before| ==> !OccursAt(before + p + after, p, j)
    ensures Remove(before + p + after, p) == before + Remove(after, p)
    decreases |before|
  {
    var s := before + p + after;
    if before == "" {
      assert s == p + after;
      RemoveLeading(after, p);
    } else {
      var less := before[1..];
      assert s[1..] == less + p + after;
      forall j: nat | j < |less|
        ensures !OccursAt(less + p + after, p, j)
      {
        OccursLater(s, p, j);
      }
      RemoveStep(s, p);
      RemoveFirst(less, p, after);
      assert before + Remove(after, p) == [before[0]] + (less + Remove(after, p));
    }
  }

  /** White space by code point: the controls from tab to carriage return and the four separators, and the
      spaces. */
  lemma IsSpaceIs(c: char)
    ensures IsSpace(c) <==>
              || 9 <= c as int <= 13 || 28 <= c as int <= 31 || 0x2000 <= c as int <= 0x200A
              || c as int in {0x20, 0x85, 0xA0, 0x1680, 0x2028, 0x2029, 0x202F, 0x205F, 0x3000}
  {
  }

  ghost predicate Blank(s: string) {
    forall i :: 0 <= i < |s| ==> IsSpace(s[i])
  }

  lemma {:induction false} StripLeftIs(s: string) returns (k: nat)
    ensures k <= |s| && StripLeft(s) == s[k..] && Blank(s[..k])
  {
    if s != "" && IsSpace(s[0]) {
      k := StripLeftIs(s[1..]);
      k := k + 1;
      assert s[..k] == [s[0]] + s[1..][..k - 1];
    } else {
      k := 0;
    }
  }

  lemma {:induction false} StripRightIs(s: string) returns (k: nat)
    ensures k <= |s| && StripRight(s) == s[..k] && Blank(s[k..])
  {
    if s != "" && IsSpace(s[|s| - 1]) {
      k := StripRightIs(s[..|s| - 1]);
      assert s[k..] == s[..|s| - 1][k..] + [s[|s| - 1]];
    } else {
      k := |s|;
    }
  }

  /** Stripping takes white space off both ends and nothing else, and leaves none there. */
  lemma StripIs(s: string) returns (left: string, right: string)
    ensures s == left + Strip(s) + right && Blank(left) && Blank(right)
    ensures Strip(s) != "" ==> !IsSpace(Strip(s)[0]) && !IsSpace(Strip(s)[|Strip(s)| - 1])
  {
    var j := StripLeftIs(s);
    var k := StripRightIs(StripLeft(s));
    left, right := s[..j], StripLeft(s)[k..];
  }

  /** The formatted text is the tag in front of what deformatting leaves: the description without the tag,
      stripped. */
  lemma FormatIs(bizId: nat, description: string)
    ensures var tag := "[dbm:appid=" + FormatNat(bizId) + "]";
            && Format(bizId, description) == tag + Deformat(bizId, description)
            && Deformat(bizId, description) == Strip(Remove(description, tag))
  {
  }

  lemma StripTwice(s: string)
    ensures Strip(Strip(s)) == Strip(s)
  {
  }

  lemma RemoveLeading(body: string, p: string)
    requires p != ""
    ensures Remove(p + body, p) == Remove(body, p)
  {
    assert (p + body)[..|p|] == p && (p + body)[|p|..] == body;
  }

  /** Taking the tag off a formatted text gives back the bare description, if and only if the bare
      description does not hold the tag again. */
  lemma DeformatFormat(bizId: nat, description: string)
    ensures var body := Deformat(bizId, description);
            Deformat(bizId, Format(bizId, description)) == body <==> !Contains(body, Tag(bizId))
  {
    var p, body := Tag(bizId), Deformat(bizId, description);
    RemoveLeading(body, p);
    StripTwice(Remove(description, p));
    if Contains(body, p) {
      RemovePresent(body, p);
    } else {
      RemoveAbsent(body, p);
    }
  }

  /** Formatting is idempotent under the same condition, and only then. */
  lemma FormatTwice(bizId: nat, description: string)
    ensures Format(bizId, Format(bizId, description)) == Format(bizId, description)
            <==> !Contains(Deformat(bizId, description), Tag(bizId))
  {
    var p := Tag(bizId);
    DeformatFormat(bizId, description);
    var a, b := Deformat(bizId, Format(bizId, description)), Deformat(bizId, description);
    assert (p + a)[|p|..] == a && (p + b)[|p|..] == b;
  }

  /** The condition can fail, for every business: taking a tag out of the middle of a torn tag mends it. */
  lemma TornTagMends(bizId: nat)
    ensures var p := Tag(bizId); var description := p[..1] + p + p[1..];
            Deformat(bizId, description) == p && Contains(Deformat(bizId, description), p)
  {
    var p := Tag(bizId);
    var d := p[..1] + p + p[1..];
    assert p[0] == '[' && p[1] == 'd' && p[|p| - 1] == ']';
    assert d[..|p|] != p by {
      assert d[1] == '[';
    }
    assert d[1..] == p + p[1..];
    RemoveLeading(p[1..], p);
    assert Remove(d, p) == [p[0]] + p[1..];
    assert [p[0]] + p[1..] == p;
    assert !IsSpace('[') && !IsSpace(']');
    assert Strip(p) == p;
    assert OccursAt(p, p, 0);
  }
}
