/**
 * The string operations of Python that the conversion engine relies on:
 * `str.splitlines`, `'\n'.join`, `str.split('\n')`, clamped slicing,
 * substring tests and hexadecimal / decimal formatting.
 */
module Text {

  /** The characters `str.splitlines` treats as line boundaries ("\r\n" counts once). */
  predicate IsLineBreak(c: char)
  {
    c == '\n' || c == '\r' || c == '\U{000B}' || c == '\U{000C}' || c == '\U{001C}'
    || c == '\U{001D}' || c == '\U{001E}' || c == '\U{0085}' || c == '\U{2028}' || c == '\U{2029}'
  }

  predicate NoBreaks(s: string)
  {
    forall i :: 0 <= i < |s| ==> !IsLineBreak(s[i])
  }

  /** No line boundary other than '\n' occurs in `s`. */
  predicate NewlinesOnly(s: string)
  {
    forall i :: 0 <= i < |s| ==> IsLineBreak(s[i]) ==> s[i] == '\n'
  }

  /** Index of the first line boundary of `s`, or `|s|` when there is none. */
  function FirstBreak(s: string): (i: nat)
    ensures i <= |s|
    ensures NoBreaks(s[..i])
    ensures i < |s| ==> IsLineBreak(s[i])
  {
    if s == [] then 0
    else if IsLineBreak(s[0]) then 0
    else
      var j := FirstBreak(s[1..]);
      assert s[..j + 1] == [s[0]] + s[1..][..j];
      j + 1
  }

  /** Python's `s.splitlines()`: the lines of `s` without their terminators. */
  function SplitLines(s: string): (lines: seq<string>)
    decreases |s|
  {
    if s == [] then []
    else
      var i := FirstBreak(s);
      if i == |s| then [s]
      else
        var width := if s[i] == '\r' && i + 1 < |s| && s[i + 1] == '\n' then 2 else 1;
        [s[..i]] + SplitLines(s[i + width..])
  }

  /** Python's `'\n'.join(lines)`. */
  function JoinLines(lines: seq<string>): string
  {
    if |lines| == 0 then ""
    else if |lines| == 1 then lines[0]
    else lines[0] + "\n" + JoinLines(lines[1..])
  }

  /** Python's `s.split('\n')`. */
  function SplitNewline(s: string): (parts: seq<string>)
    ensures |parts| >= 1
    decreases |s|
  {
    var i := FirstIndexOf(s, '\n');
    if i == |s| then [s] else [s[..i]] + SplitNewline(s[i + 1..])
  }

  function FirstIndexOf(s: string, c: char): (i: nat)
    ensures i <= |s|
    ensures forall k :: 0 <= k < i ==> s[k] != c
    ensures i < |s| ==> s[i] == c
  {
    if s == [] then 0 else if s[0] == c then 0 else FirstIndexOf(s[1..], c) + 1
  }

  /** `s` without one trailing '\n', if it has one. */
  function DropTrailingNewline(s: string): string
  {
    if |s| > 0 && s[|s| - 1] == '\n' then s[..|s| - 1] else s
  }

  lemma {:induction false} SplitLinesHaveNoBreaks(s: string)
    ensures forall k :: 0 <= k < |SplitLines(s)| ==> NoBreaks(SplitLines(s)[k])
    decreases |s|
  {
    if s != [] {
      var i := FirstBreak(s);
      if i < |s| {
        var width := if s[i] == '\r' && i + 1 < |s| && s[i + 1] == '\n' then 2 else 1;
        SplitLinesHaveNoBreaks(s[i + width..]);
      }
    }
  }

  lemma {:induction false} SplitLinesNonEmpty(s: string)
    ensures s != [] <==> SplitLines(s) != []
  {
  }

  /**
   * Joining the lines of a text that only uses '\n' gives the text back,
   * except for one trailing '\n', which is dropped.
   */
  lemma {:induction false} JoinSplitLines(s: string)
    requires NewlinesOnly(s)
    ensures JoinLines(SplitLines(s)) == DropTrailingNewline(s)
    decreases |s|
  {
    if s != [] {
      var i := FirstBreak(s);
      if i < |s| {
        var head, rest := s[..i], s[i + 1..];
        assert s[i] == '\n';
        assert s == head + "\n" + rest;
        assert NewlinesOnly(rest) by {
          forall k | 0 <= k < |rest| ensures IsLineBreak(rest[k]) ==> rest[k] == '\n' {
            assert rest[k] == s[i + 1 + k];
          }
        }
        assert SplitLines(s) == [head] + SplitLines(rest);
        if rest != [] {
          JoinSplitLines(rest);
          SplitLinesNonEmpty(rest);
          JoinCons(head, SplitLines(rest));
          DropTrailingNewlineCons(head + "\n", rest);
        }
      }
    }
  }

  lemma JoinCons(head: string, lines: seq<string>)
    requires lines != []
    ensures JoinLines([head] + lines) == head + "\n" + JoinLines(lines)
  {
    assert ([head] + lines)[1..] == lines;
  }

  lemma DropTrailingNewlineCons(a: string, rest: string)
    requires rest != []
    ensures DropTrailingNewline(a + rest) == a + DropTrailingNewline(rest)
  {
    if rest[|rest| - 1] == '\n' {
      assert (a + rest)[..|a + rest| - 1] == a + rest[..|rest| - 1];
    }
  }

  lemma {:induction false} FirstIndexOfConcat(a: string, c: char, b: string)
    requires c !in a
    ensures FirstIndexOf(a + [c] + b, c) == |a|
  {
    if a != [] {
      assert (a + [c] + b)[1..] == a[1..] + [c] + b;
      FirstIndexOfConcat(a[1..], c, b);
    }
  }

  /** Splitting a join of '\n'-free lines on '\n' gives the same lines back. */
  lemma {:induction false} SplitJoinLines(lines: seq<string>)
    requires |lines| > 0
    requires forall k :: 0 <= k < |lines| ==> '\n' !in lines[k]
    ensures SplitNewline(JoinLines(lines)) == lines
  {
    if |lines| == 1 {
      assert FirstIndexOf(lines[0], '\n') == |lines[0]|;
    } else {
      var head, tail := lines[0], JoinLines(lines[1..]);
      var s := head + "\n" + tail;
      FirstIndexOfConcat(head, '\n', tail);
      assert s[..|head|] == head;
      assert s[|head| + 1..] == tail;
      SplitJoinLines(lines[1..]);
    }
  }

  /** Python's `s[:n]` for a non-negative `n`. */
  function Take(s: string, n: nat): (r: string)
    ensures |r| == if n <= |s| then n else |s|
    ensures r <= s
  {
    if n <= |s| then s[..n] else s
  }

  /** Python's `s[n:]` for a non-negative `n`. */
  function Drop(s: string, n: nat): (r: string)
    ensures |r| == if n <= |s| then |s| - n else 0
    ensures Take(s, n) + r == s
  {
    if n <= |s| then s[n..] else ""
  }

  /** `sub` occurs in `s` starting at index `i`. */
  predicate OccursAt(s: string, sub: string, i: nat)
  {
    i + |sub| <= |s| && s[i..i + |sub|] == sub
  }

  /** Python's `sub in s`. */
  function Contains(s: string, sub: string): (r: bool)
    ensures r <==> exists i: nat :: OccursAt(s, sub, i)
    decreases |s|
  {
    if sub <= s then
      assert OccursAt(s, sub, 0);
      true
    else if s == [] then false
    else
      var r := Contains(s[1..], sub);
      if r then
        var i: nat :| OccursAt(s[1..], sub, i);
        assert OccursAt(s, sub, i + 1);
        true
      else
        assert forall i: nat | OccursAt(s, sub, i) :: i == 0 by {
          forall i: nat | 0 < i && OccursAt(s, sub, i) ensures false {
            assert OccursAt(s[1..], sub, i - 1);
          }
        }
        false
  }

  predicate IsLowerHexDigit(c: char) { '0' <= c <= '9' || 'a' <= c <= 'f' }

  predicate IsHexDigit(c: char) { '0' <= c <= '9' || 'a' <= c <= 'f' || 'A' <= c <= 'F' }

  /** The regular expression `[0-9a-f]+$` matches `s` (the token text never holds a newline). */
  predicate IsLowerHex(s: string)
  {
    |s| > 0 && forall i :: 0 <= i < |s| ==> IsLowerHexDigit(s[i])
  }

  function HexDigit(d: nat): (c: char)
    requires d < 16
    ensures IsLowerHexDigit(c)
  {
    "0123456789abcdef"[d]
  }

  function HexValue(c: char): (d: nat)
    requires IsLowerHexDigit(c)
    ensures d < 16
  {
    if '0' <= c <= '9' then (c - '0') as nat else (c - 'a') as nat + 10
  }

  /** Lower-case hexadecimal digits of `n`, without leading zeros (Python's `format(n, 'x')`). */
  function Hex(n: nat): (s: string)
    ensures IsLowerHex(s)
  {
    if n < 16 then [HexDigit(n)] else Hex(n / 16) + [HexDigit(n % 16)]
  }

  predicate AllLowerHexDigits(s: string)
  {
    forall i :: 0 <= i < |s| ==> IsLowerHexDigit(s[i])
  }

  /** The number a string of lower-case hexadecimal digits denotes. */
  function ParseHex(s: string): nat
    requires AllLowerHexDigits(s)
  {
    if s == [] then 0 else 16 * ParseHex(s[..|s| - 1]) + HexValue(s[|s| - 1])
  }

  lemma {:induction false} ParseHexOfHex(n: nat)
    ensures ParseHex(Hex(n)) == n
  {
    if n >= 16 {
      ParseHexOfHex(n / 16);
      var s := Hex(n);
      assert s[..|s| - 1] == Hex(n / 16);
      HexValueOfDigit(n % 16);
      assert n == 16 * (n / 16) + n % 16;
    } else {
      HexValueOfDigit(n);
    }
  }

  lemma HexValueOfDigit(d: nat)
    requires d < 16
    ensures HexValue(HexDigit(d)) == d
  {
  }

  /** Python's `s.rjust(width, c)`. */
  function PadLeft(s: string, width: nat, c: char): (r: string)
    ensures |r| == if |s| < width then width else |s|
    ensures r[|r| - |s|..] == s
    ensures forall i :: 0 <= i < |r| - |s| ==> r[i] == c
  {
    if |s| < width then seq(width - |s|, _ => c) + s else s
  }

  lemma {:induction false} ParseHexLeadingZeros(z: nat, s: string)
    requires AllLowerHexDigits(s)
    ensures AllLowerHexDigits(seq(z, _ => '0') + s)
    ensures ParseHex(seq(z, _ => '0') + s) == ParseHex(s)
    decreases |s|
  {
    var t := seq(z, _ => '0') + s;
    if s == [] {
      ParseHexZeros(z);
      assert t == seq(z, _ => '0');
    } else {
      ParseHexLeadingZeros(z, s[..|s| - 1]);
      assert t[..|t| - 1] == seq(z, _ => '0') + s[..|s| - 1];
    }
  }

  /** Zero-padding hexadecimal digits keeps them digits and keeps the number they denote. */
  lemma PadLeftHex(s: string, width: nat)
    requires IsLowerHex(s)
    ensures AllLowerHexDigits(PadLeft(s, width, '0')) && IsLowerHexDigit(PadLeft(s, width, '0')[0])
    ensures ParseHex(PadLeft(s, width, '0')) == ParseHex(s)
  {
    var z := if |s| < width then width - |s| else 0;
    assert PadLeft(s, width, '0') == seq(z, _ => '0') + s;
    ParseHexLeadingZeros(z, s);
  }

  lemma {:induction false} ParseHexZeros(z: nat)
    ensures ParseHex(seq(z, _ => '0')) == 0
  {
    if z > 0 {
      ParseHexZeros(z - 1);
      assert seq(z, _ => '0')[..z - 1] == seq(z - 1, _ => '0');
    }
  }

  function DecimalDigit(d: nat): (c: char)
    requires d < 10
    ensures '0' <= c <= '9'
  {
    (48 + d) as char
  }

  /** Python's `str(n)` for a natural number. */
  function Decimal(n: nat): (s: string)
    ensures |s| > 0
    ensures forall i :: 0 <= i < |s| ==> '0' <= s[i] <= '9'
  {
    if n < 10 then [DecimalDigit(n)] else Decimal(n / 10) + [DecimalDigit(n % 10)]
  }

  /** Different numbers print differently. */
  lemma {:induction false} DecimalInjective(a: nat, b: nat)
    requires Decimal(a) == Decimal(b)
    ensures a == b
  {
    if a >= 10 && b >= 10 {
      var da, db := Decimal(a), Decimal(b);
      assert da[..|da| - 1] == Decimal(a / 10);
      assert db[..|db| - 1] == Decimal(b / 10);
      DecimalInjective(a / 10, b / 10);
      assert DecimalDigit(a % 10) == da[|da| - 1];
    }
  }
}
