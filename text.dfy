/** The handful of Python string operations the calendar relies on:
    strip(), lower(), title(), `in` on strings, join, slicing with a
    possibly negative stop, ljust, and str() of an integer. */
module Text {

  /** str.isspace() for one character: the ASCII controls TAB..CR, the
      information separators 0x1C..0x1F, and the Unicode spaces. */
  predicate IsSpace(c: char)
  {
    c == ' ' || ('\t' <= c <= '\r') || ('\U{1c}' <= c <= '\U{1f}') ||
    c == '\U{85}' || c == '\U{a0}' || c == '\U{1680}' ||
    ('\U{2000}' <= c <= '\U{200a}') || c == '\U{2028}' || c == '\U{2029}' ||
    c == '\U{202f}' || c == '\U{205f}' || c == '\U{3000}'
  }

  predicate AllSpace(s: string)
  {
    forall i :: 0 <= i < |s| ==> IsSpace(s[i])
  }

  /** The number of leading whitespace characters. */
  function LeadingSpaces(s: string): (k: nat)
    ensures k <= |s| && AllSpace(s[..k])
    ensures k == |s| || !IsSpace(s[k])
  {
    if |s| > 0 && IsSpace(s[0]) then
      var k := 1 + LeadingSpaces(s[1..]);
      assert forall i :: 1 <= i < k ==> s[i] == s[1..][i - 1];
      k
    else 0
  }

  /** The number of trailing whitespace characters. */
  function TrailingSpaces(s: string): (k: nat)
    ensures k <= |s| && AllSpace(s[|s| - k..])
    ensures k == |s| || !IsSpace(s[|s| - k - 1])
  {
    if |s| > 0 && IsSpace(s[|s| - 1]) then
      var k := 1 + TrailingSpaces(s[..|s| - 1]);
      assert forall i :: |s| - k <= i < |s| - 1 ==> s[i] == s[..|s| - 1][i];
      k
    else 0
  }

  /** str.strip() with no argument: the input minus its leading and
      trailing whitespace. */
  function Strip(s: string): (r: string)
    ensures |r| <= |s| - LeadingSpaces(s)
    ensures r == s[LeadingSpaces(s)..LeadingSpaces(s) + |r|]
    ensures r == [] || (!IsSpace(r[0]) && !IsSpace(r[|r| - 1]))
    ensures AllSpace(s[LeadingSpaces(s) + |r|..])
  {
    var a := LeadingSpaces(s);
    var t := s[a..];
    var b := TrailingSpaces(t);
    var r := t[..|t| - b];
    assert t[|t| - b..] == s[a + |r|..];
    assert r != [] ==> r[0] == s[a];
    r
  }

  /** A string with no surrounding whitespace is its own strip. */
  lemma StripUnchanged(s: string)
    requires s == [] || (!IsSpace(s[0]) && !IsSpace(s[|s| - 1]))
    ensures Strip(s) == s
  {
  }

  /** Stripping twice is stripping once. */
  lemma StripIdempotent(s: string)
    ensures Strip(Strip(s)) == Strip(s)
  {
    StripUnchanged(Strip(s));
  }

  /** A string is blank (Python: `not s.strip()`) exactly when every
      character is whitespace. */
  lemma StripEmptyIffAllSpace(s: string)
    ensures Strip(s) == "" <==> AllSpace(s)
  {
    var a := LeadingSpaces(s);
    if Strip(s) == "" {
      assert s == s[..a] + s[a..];
      AllSpaceConcat(s[..a], s[a..]);
    }
  }

  lemma AllSpaceConcat(x: string, y: string)
    requires AllSpace(x) && AllSpace(y)
    ensures AllSpace(x + y)
  {
    assert forall i :: |x| <= i < |x + y| ==> (x + y)[i] == y[i - |x|];
  }

  function LowerChar(c: char): char
  {
    if 'A' <= c <= 'Z' then (c as int + 32) as char else c
  }

  function UpperChar(c: char): char
  {
    if 'a' <= c <= 'z' then (c as int - 32) as char else c
  }

  predicate IsAsciiLetter(c: char)
  {
    ('a' <= c <= 'z') || ('A' <= c <= 'Z')
  }

  /** str.lower() on the ASCII letters. */
  function Lower(s: string): (r: string)
    ensures |r| == |s|
    ensures forall i :: 0 <= i < |s| ==> r[i] == LowerChar(s[i])
  {
    seq(|s|, i requires 0 <= i < |s| => LowerChar(s[i]))
  }

  /** Text without upper-case ASCII letters is its own lower case. */
  lemma LowerUnchanged(s: string)
    requires forall i :: 0 <= i < |s| ==> !('A' <= s[i] <= 'Z')
    ensures Lower(s) == s
  {
  }

  /** str.title() on ASCII text: a letter that follows a letter is
      lower-cased, any other letter is upper-cased. */
  function Title(s: string): (r: string)
    ensures |r| == |s|
    ensures forall i :: 0 <= i < |s| ==>
      r[i] == (if i > 0 && IsAsciiLetter(s[i - 1]) then LowerChar(s[i]) else UpperChar(s[i]))
  {
    seq(|s|, i requires 0 <= i < |s| =>
      if i > 0 && IsAsciiLetter(s[i - 1]) then LowerChar(s[i]) else UpperChar(s[i]))
  }

  /** str.replace(a, b) for single characters. */
  function ReplaceChar(s: string, a: char, b: char): (r: string)
    ensures |r| == |s|
    ensures forall i :: 0 <= i < |s| ==> r[i] == (if s[i] == a then b else s[i])
  {
    seq(|s|, i requires 0 <= i < |s| => if s[i] == a then b else s[i])
  }

  /** Replacing a character the text does not hold changes nothing. */
  lemma ReplaceAbsent(s: string, a: char, b: char)
    requires forall i :: 0 <= i < |s| ==> s[i] != a
    ensures ReplaceChar(s, a, b) == s
  {
  }

  /** Python's `needle in hay` for strings. */
  predicate Contains(hay: string, needle: string)
  {
    exists i :: 0 <= i <= |hay| && OccursAt(hay, needle, i)
  }

  predicate OccursAt(hay: string, needle: string, i: nat)
  {
    i + |needle| <= |hay| && hay[i..i + |needle|] == needle
  }

  /** The empty string is contained in every string. */
  lemma ContainsEmpty(hay: string)
    ensures Contains(hay, "")
  {
    assert OccursAt(hay, "", 0);
  }

  /** A string contains itself, and so does any string it is the middle of. */
  lemma ContainsMiddle(a: string, b: string, c: string)
    ensures Contains(a + b + c, b)
  {
    assert OccursAt(a + b + c, b, |a|);
  }

  /** A text contains its own prefix and suffix. */
  lemma ContainsPrefix(a: string, b: string)
    ensures Contains(a + b, a)
  {
    assert (a + b)[0..|a|] == a;
    assert OccursAt(a + b, a, 0);
  }

  lemma ContainsSuffix(a: string, b: string)
    ensures Contains(a + b, b)
  {
    assert (a + b)[|a|..|a| + |b|] == b;
    assert OccursAt(a + b, b, |a|);
  }

  /** Containment is transitive: a text containing b contains whatever b contains. */
  lemma ContainsTrans(a: string, b: string, c: string)
    requires Contains(a, b) && Contains(b, c)
    ensures Contains(a, c)
  {
    var i :| 0 <= i <= |a| && OccursAt(a, b, i);
    var j :| 0 <= j <= |b| && OccursAt(b, c, j);
    forall k | 0 <= k < |c|
      ensures a[i + j..i + j + |c|][k] == c[k]
    {
      assert a[i..i + |b|][j + k] == b[j + k];
      assert b[j..j + |c|][k] == c[k];
    }
    assert a[i + j..i + j + |c|] == c;
    assert OccursAt(a, c, i + j);
  }

  /** sep.join(parts). */
  function Join(sep: string, parts: seq<string>): (r: string)
    decreases |parts|
  {
    if |parts| == 0 then ""
    else if |parts| == 1 then parts[0]
    else parts[0] + sep + Join(sep, parts[1..])
  }

  /** Joining non-empty parts gives a non-empty string. */
  lemma {:induction false} JoinNonEmpty(sep: string, parts: seq<string>)
    requires |parts| > 0 && parts[0] != ""
    ensures Join(sep, parts) != ""
  {
    if |parts| > 1 {
      assert |parts[0] + sep + Join(sep, parts[1..])| >= |parts[0]|;
    }
  }

  /** Joining one more part at the end appends the separator and the part. */
  lemma {:induction false} JoinSnoc(sep: string, parts: seq<string>, p: string)
    requires |parts| > 0
    ensures Join(sep, parts + [p]) == Join(sep, parts) + sep + p
    decreases |parts|
  {
    if |parts| == 1 {
      assert parts + [p] == [parts[0], p];
      assert (parts + [p])[1..] == [p];
    } else {
      assert (parts + [p])[1..] == parts[1..] + [p];
      JoinSnoc(sep, parts[1..], p);
    }
  }

  /** A joined text contains each of its parts. */
  lemma {:induction false} JoinContains(sep: string, parts: seq<string>, i: nat)
    requires i < |parts|
    ensures Contains(Join(sep, parts), parts[i])
    decreases |parts|
  {
    if |parts| == 1 {
      assert parts[0] == "" + parts[0] + "";
      ContainsMiddle("", parts[0], "");
    } else {
      var rest := Join(sep, parts[1..]);
      if i == 0 {
        assert Join(sep, parts) == "" + parts[0] + (sep + rest);
        ContainsMiddle("", parts[0], sep + rest);
      } else {
        JoinContains(sep, parts[1..], i - 1);
        assert Join(sep, parts) == parts[0] + sep + rest + "";
        ContainsMiddle(parts[0] + sep, rest, "");
        ContainsTrans(Join(sep, parts), rest, parts[i]);
      }
    }
  }

  /** Whatever one part contains, the joined text contains too. */
  lemma JoinedPartContains(sep: string, parts: seq<string>, i: nat, needle: string)
    requires i < |parts| && Contains(parts[i], needle)
    ensures Contains(Join(sep, parts), needle)
  {
    JoinContains(sep, parts, i);
    ContainsTrans(Join(sep, parts), parts[i], needle);
  }

  /** Whatever a part between two runs of parts contains, the joined text contains too. */
  lemma JoinMiddleContains(sep: string, front: seq<string>, part: string, back: seq<string>, needle: string)
    requires Contains(part, needle)
    ensures Contains(Join(sep, front + [part] + back), needle)
  {
    var parts := front + [part] + back;
    assert parts[|front|] == part;
    JoinedPartContains(sep, parts, |front|, needle);
  }

  /** The first and last characters of a join of non-empty parts are those
      of its first and last parts. */
  lemma {:induction false} JoinEnds(sep: string, parts: seq<string>)
    requires |parts| > 0 && forall i :: 0 <= i < |parts| ==> parts[i] != ""
    ensures var r := Join(sep, parts);
      r != "" && r[0] == parts[0][0] && r[|r| - 1] == parts[|parts| - 1][|parts[|parts| - 1]| - 1]
    decreases |parts|
  {
    if |parts| > 1 {
      JoinEnds(sep, parts[1..]);
    }
  }

  /** A join of stripped, non-empty parts is itself stripped and non-empty. */
  lemma JoinStripped(sep: string, parts: seq<string>)
    requires |parts| > 0 && forall i :: 0 <= i < |parts| ==> parts[i] != "" && Strip(parts[i]) == parts[i]
    ensures Join(sep, parts) != "" && Strip(Join(sep, parts)) == Join(sep, parts)
  {
    JoinEnds(sep, parts);
    var r := Join(sep, parts);
    var first, last := parts[0], parts[|parts| - 1];
    assert !IsSpace(first[0]) && !IsSpace(last[|last| - 1]);
    StripUnchanged(r);
  }

  /** Extending the last part of a join extends the join. */
  lemma JoinExtendLast(sep: string, parts: seq<string>, a: string, s: string)
    ensures Join(sep, parts + [a + sep + s]) == Join(sep, parts + [a]) + sep + s
  {
    if |parts| == 0 {
      assert [a + sep + s] == parts + [a + sep + s];
    } else {
      JoinSnoc(sep, parts, a + sep + s);
      JoinSnoc(sep, parts, a);
    }
  }

  /** str.splitlines() line boundaries. */
  predicate IsLineBreak(c: char)
  {
    c == '\n' || c == '\r' || c == '\U{0b}' || c == '\U{0c}' || ('\U{1c}' <= c <= '\U{1e}') ||
    c == '\U{85}' || c == '\U{2028}' || c == '\U{2029}'
  }

  predicate NoLineBreak(s: string)
  {
    forall i :: 0 <= i < |s| ==> !IsLineBreak(s[i])
  }

  lemma NoLineBreakConcat(a: string, b: string)
    requires NoLineBreak(a) && NoLineBreak(b)
    ensures NoLineBreak(a + b)
  {
    assert forall i :: |a| <= i < |a + b| ==> (a + b)[i] == b[i - |a|];
  }

  /** The index of the first line boundary, or |s| when there is none. */
  function IndexOfLineBreak(s: string): (k: nat)
    ensures k <= |s| && (k < |s| ==> IsLineBreak(s[k])) && NoLineBreak(s[..k])
  {
    if s == "" then 0
    else if IsLineBreak(s[0]) then 0
    else
      var k := IndexOfLineBreak(s[1..]);
      assert s[..k + 1] == [s[0]] + s[1..][..k];
      k + 1
  }

  /** str.splitlines(): the text between boundaries, where CR LF counts as
      one boundary and a final boundary opens no further line. */
  function SplitLines(s: string): seq<string>
    decreases |s|
  {
    if s == "" then []
    else
      var k := IndexOfLineBreak(s);
      if k == |s| then [s]
      else if s[k] == '\r' && k + 1 < |s| && s[k + 1] == '\n' then [s[..k]] + SplitLines(s[k + 2..])
      else [s[..k]] + SplitLines(s[k + 1..])
  }

  /** No line holds a boundary. */
  lemma {:induction false} SplitLinesHaveNoBreaks(s: string)
    ensures forall i :: 0 <= i < |SplitLines(s)| ==> NoLineBreak(SplitLines(s)[i])
    decreases |s|
  {
    if s != "" {
      var k := IndexOfLineBreak(s);
      if k < |s| {
        if s[k] == '\r' && k + 1 < |s| && s[k + 1] == '\n' {
          SplitLinesHaveNoBreaks(s[k + 2..]);
        } else {
          SplitLinesHaveNoBreaks(s[k + 1..]);
        }
      }
    }
  }

  lemma {:induction false} IndexOfLineBreakAfter(a: string, rest: string)
    requires NoLineBreak(a)
    ensures IndexOfLineBreak(a + "\n" + rest) == |a|
    decreases |a|
  {
    if a != "" {
      assert (a + "\n" + rest)[1..] == a[1..] + "\n" + rest;
      IndexOfLineBreakAfter(a[1..], rest);
    }
  }

  /** A line without boundaries, then a line feed, starts the lines. */
  lemma SplitLinesCons(a: string, rest: string)
    requires NoLineBreak(a)
    ensures SplitLines(a + "\n" + rest) == [a] + SplitLines(rest)
  {
    var s := a + "\n" + rest;
    IndexOfLineBreakAfter(a, rest);
    assert s[..|a|] == a && s[|a|] == '\n' && s[|a| + 1..] == rest;
  }

  /** A leading line feed opens an empty line. */
  lemma SplitLinesLeadingBreak(rest: string)
    ensures SplitLines("\n" + rest) == [""] + SplitLines(rest)
  {
    var s := "\n" + rest;
    assert s[0] == '\n' && s[1..] == rest;
  }

  /** A line followed by a blank line splits off both. */
  lemma SplitLinesBlank(a: string, rest: string)
    requires NoLineBreak(a)
    ensures SplitLines(a + "\n\n" + rest) == [a, ""] + SplitLines(rest)
  {
    assert a + "\n\n" + rest == a + "\n" + ("\n" + rest);
    SplitLinesCons(a, "\n" + rest);
    SplitLinesLeadingBreak(rest);
  }

  /** A non-empty text without boundaries is a single line. */
  lemma SplitLinesSingle(a: string)
    requires a != "" && NoLineBreak(a)
    ensures SplitLines(a) == [a]
  {
    assert a[..|a|] == a;
  }

  /** The prefix `s[:k]` of a Python slice, where a negative k counts from
      the end. */
  function SliceTo(s: string, k: int): (r: string)
    ensures |r| <= |s| && r == s[..|r|]
    ensures k >= 0 ==> |r| == (if k < |s| then k else |s|)
  {
    if k >= 0 then (if k < |s| then s[..k] else s)
    else if |s| + k > 0 then s[..|s| + k] else ""
  }

  function Spaces(n: nat): (r: string)
    ensures |r| == n && forall i :: 0 <= i < n ==> r[i] == ' '
  {
    seq(n, _ => ' ')
  }

  /** str.ljust(width): pad on the right with spaces up to `width`. */
  function LJust(s: string, width: int): (r: string)
    ensures |r| == (if width > |s| then width else |s|)
    ensures r[..|s|] == s
  {
    if width > |s| then s + Spaces(width - |s|) else s
  }

  /** str.rjust(width). */
  function RJust(s: string, width: int): (r: string)
    ensures |r| == (if width > |s| then width else |s|)
  {
    if width > |s| then Spaces(width - |s|) + s else s
  }

  predicate IsDigit(c: char)
  {
    '0' <= c <= '9'
  }

  function DigitChar(d: int): char
    requires 0 <= d < 10
  {
    ('0' as int + d) as char
  }

  function DigitValue(c: char): int
    requires IsDigit(c)
  {
    c as int - '0' as int
  }

  /** str(n) for a natural number: its decimal digits, no leading zero. */
  function NatToString(n: nat): (r: string)
    ensures |r| >= 1 && forall i :: 0 <= i < |r| ==> IsDigit(r[i])
    decreases n
  {
    if n < 10 then [DigitChar(n)] else NatToString(n / 10) + [DigitChar(n % 10)]
  }

  /** str(n) for any integer. */
  function IntToString(n: int): (r: string)
    ensures |r| >= 1
  {
    if n < 0 then "-" + NatToString(-n) else NatToString(n)
  }

  /** The value of a string of decimal digits. */
  function DigitsValue(s: string): (v: nat)
    requires forall i :: 0 <= i < |s| ==> IsDigit(s[i])
    decreases |s|
  {
    if |s| == 0 then 0 else DigitsValue(s[..|s| - 1]) * 10 + DigitValue(s[|s| - 1])
  }

  predicate AllDigits(s: string)
  {
    forall i :: 0 <= i < |s| ==> IsDigit(s[i])
  }

  /** Reading back str(n) gives n. */
  lemma {:induction false} NatToStringValue(n: nat)
    ensures DigitsValue(NatToString(n)) == n
    decreases n
  {
    if n >= 10 {
      var p := NatToString(n / 10);
      NatToStringValue(n / 10);
      assert (p + [DigitChar(n % 10)])[..|p|] == p;
    }
  }

  /** Exactly `width` digits of `n`, zero-padded (the `%02d` style). */
  function ZeroPad(n: nat, width: nat): (r: string)
    ensures |r| == width && AllDigits(r)
    decreases width
  {
    if width == 0 then "" else ZeroPad(n / 10, width - 1) + [DigitChar(n % 10)]
  }

  /** Reading back a zero-padded number gives it back when it fits. */
  lemma {:induction false} ZeroPadValue(n: nat, width: nat, bound: nat)
    requires bound == Pow10(width) && n < bound
    ensures DigitsValue(ZeroPad(n, width)) == n
    decreases width
  {
    if width > 0 {
      var p := ZeroPad(n / 10, width - 1);
      ZeroPadValue(n / 10, width - 1, Pow10(width - 1));
      assert (p + [DigitChar(n % 10)])[..|p|] == p;
    }
  }

  function Pow10(k: nat): (r: nat)
    ensures r >= 1
  {
    if k == 0 then 1 else 10 * Pow10(k - 1)
  }

  /** Four-digit years print as exactly four digits. */
  lemma {:induction false} NatToStringFourDigits(n: nat)
    requires 1000 <= n <= 9999
    ensures NatToString(n) == ZeroPad(n, 4)
  {
    var a := n / 10;
    var b := a / 10;
    var c := b / 10;
    assert 100 <= a <= 999 && 10 <= b <= 99 && 1 <= c <= 9;
    assert NatToString(c) == [DigitChar(c)] == ZeroPad(c, 1);
    assert NatToString(b) == NatToString(c) + [DigitChar(b % 10)];
    assert ZeroPad(b, 2) == ZeroPad(c, 1) + [DigitChar(b % 10)];
    assert NatToString(a) == NatToString(b) + [DigitChar(a % 10)];
    assert ZeroPad(a, 3) == ZeroPad(b, 2) + [DigitChar(a % 10)];
  }
}
