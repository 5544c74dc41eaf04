/** Text helpers shared by the modelled components: decimal numerals, white space, Python
    slices, and splitting into lines. A string is a sequence of Unicode scalar values. */
module Text {

  /* ---------- decimal numerals ---------- */

  predicate IsDigit(c: char) {
    '0' <= c <= '9'
  }

  function Digit(d: nat): (c: char)
    requires d < 10
    ensures IsDigit(c) && c as int - '0' as int == d
  {
    ('0' as int + d) as char
  }

  function Decimal(n: nat): (s: string)
    ensures |s| > 0 && forall i :: 0 <= i < |s| ==> IsDigit(s[i])
  {
    if n < 10 then [Digit(n)] else Decimal(n / 10) + [Digit(n % 10)]
  }

  ghost function NumeralValue(s: string): int {
    if s == "" then 0 else 10 * NumeralValue(s[..|s| - 1]) + (s[|s| - 1] as int - '0' as int)
  }

  lemma {:induction false} DecimalValue(n: nat)
    ensures NumeralValue(Decimal(n)) == n
  {
    var s := Decimal(n);
    if n >= 10 {
      DecimalValue(n / 10);
      assert s[..|s| - 1] == Decimal(n / 10);
    } else {
      assert s[..0] == "";
    }
  }

  ghost predicate NoLeadingDigit(s: string) {
    s == "" || !IsDigit(s[0])
  }

  ghost function LeadingDigits(s: string): nat {
    if s == "" || !IsDigit(s[0]) then 0 else 1 + LeadingDigits(s[1..])
  }

  lemma {:induction false} LeadingDigitsOf(a: string, x: string)
    requires NoLeadingDigit(x) && forall i :: 0 <= i < |a| ==> IsDigit(a[i])
    ensures LeadingDigits(a + x) == |a|
  {
    if a == "" {
      assert a + x == x;
    } else {
      assert (a + x)[1..] == a[1..] + x;
      LeadingDigitsOf(a[1..], x);
    }
  }

  /** A numeral that is not followed by another digit can be read back in one way only. */
  lemma DecimalUnique(m: nat, n: nat, x: string, y: string)
    requires NoLeadingDigit(x) && NoLeadingDigit(y)
    requires Decimal(m) + x == Decimal(n) + y
    ensures m == n && x == y
  {
    var a, b := Decimal(m), Decimal(n);
    LeadingDigitsOf(a, x);
    LeadingDigitsOf(b, y);
    assert a == (a + x)[..|a|] && b == (b + y)[..|b|];
    assert x == (a + x)[|a|..] && y == (b + y)[|b|..];
    DecimalValue(m);
    DecimalValue(n);
  }

  /* ---------- white space ---------- */

  /** The characters that strip() and split() treat as white space. */
  predicate IsSpaceCode(n: int) {
    9 <= n <= 13 || 28 <= n <= 32 || n == 0x85 || n == 0xA0 || n == 0x1680 || 0x2000 <= n <= 0x200A
    || n == 0x2028 || n == 0x2029 || n == 0x202F || n == 0x205F || n == 0x3000
  }

  predicate IsSpace(c: char) {
    IsSpaceCode(c as int)
  }

  function TrimLeft<T>(space: T -> bool, s: seq<T>): seq<T> {
    if s != [] && space(s[0]) then TrimLeft(space, s[1..]) else s
  }

  function TrimRight<T>(space: T -> bool, s: seq<T>): seq<T> {
    if s != [] && space(s[|s| - 1]) then TrimRight(space, s[..|s| - 1]) else s
  }

  function Trim<T>(space: T -> bool, s: seq<T>): seq<T> {
    TrimRight(space, TrimLeft(space, s))
  }

  function Strip(s: string): string {
    Trim(IsSpace, s)
  }

  /* ---------- lines ---------- */

  predicate IsLineBreak(c: char) {
    var n := c as int;
    0x0A <= n <= 0x0D || 0x1C <= n <= 0x1E || n == 0x85 || n == 0x2028 || n == 0x2029
  }

  /** The length of the first line of `s`, including its line break; a carriage return and a line feed are one break. */
  function FirstLine(s: string): (k: nat)
    requires s != ""
    ensures 1 <= k <= |s|
  {
    if |s| == 1 then 1
    else if s[0] == '\r' && s[1] == '\n' then 2
    else if IsLineBreak(s[0]) then 1
    else 1 + FirstLine(s[1..])
  }

  /** splitlines(keepends=True) */
  function SplitLines(s: string): seq<string> {
    if s == "" then [] else [s[..FirstLine(s)]] + SplitLines(s[FirstLine(s)..])
  }

  function Join(lines: seq<string>): string {
    if lines == [] then "" else lines[0] + Join(lines[1..])
  }

  lemma {:induction false} JoinSplitLines(s: string)
    ensures Join(SplitLines(s)) == s && forall i :: 0 <= i < |SplitLines(s)| ==> SplitLines(s)[i] != ""
  {
    if s != "" {
      var k := FirstLine(s);
      JoinSplitLines(s[k..]);
      assert SplitLines(s)[1..] == SplitLines(s[k..]);
      assert s == s[..k] + s[k..];
    }
  }

  lemma {:induction false} JoinAppend(a: seq<string>, b: seq<string>)
    ensures Join(a + b) == Join(a) + Join(b)
  {
    if a == [] {
      assert a + b == b;
    } else {
      assert (a + b)[1..] == a[1..] + b;
      JoinAppend(a[1..], b);
    }
  }

  /** A text and what follows it: the text is the first line exactly if it is one line and the rest, if any,
      starts another. */
  predicate Seam(line: string, rest: string)
    requires line != ""
  {
    rest == "" || (IsLineBreak(line[|line| - 1]) && !(line[|line| - 1] == '\r' && rest[0] == '\n'))
  }

  lemma {:induction false} FirstLineIff(line: string, rest: string)
    requires line != ""
    ensures FirstLine(line + rest) == |line| <==> FirstLine(line) == |line| && Seam(line, rest)
  {
    var s := line + rest;
    assert s[0] == line[0];
    if |line| >= 2 {
      assert s[1] == line[1] && s[1..] == line[1..] + rest;
      if !(s[0] == '\r' && s[1] == '\n') && !IsLineBreak(s[0]) { FirstLineIff(line[1..], rest); }
    }
  }

  /** Each line is one line, and each but the last ends where the next one starts. */
  predicate WholeLines(lines: seq<string>) {
    lines == [] ||
    (&& lines[0] != "" && FirstLine(lines[0]) == |lines[0]|
     && (|lines| == 1 || Seam(lines[0], lines[1]))
     && WholeLines(lines[1..]))
  }

  /** Joining lines and splitting the text again gives the same lines if and only if they are whole. */
  lemma {:induction false} SplitJoinIff(lines: seq<string>)
    ensures SplitLines(Join(lines)) == lines <==> WholeLines(lines)
  {
    if lines != [] {
      var s, rest := Join(lines), lines[1..];
      SplitJoinIff(rest);
      JoinSplitLines(s);
      if lines[0] != "" {
        FirstLineIff(lines[0], Join(rest));
        SplitStep(lines[0], Join(rest));
        if WholeLines(rest) && rest != [] { assert Join(rest)[0] == rest[0][0]; }
        assert lines == [lines[0]] + rest;
      }
    }
  }

  lemma SplitStep(line: string, rest: string)
    requires line != ""
    ensures FirstLine(line + rest) == |line| ==> SplitLines(line + rest) == [line] + SplitLines(rest)
    ensures FirstLine(line + rest) != |line| ==> SplitLines(line + rest)[0] != line
  {
    assert (line + rest)[..|line|] == line && (line + rest)[|line|..] == rest;
  }

  /** The second stretch of lines starts where the first one ends. */
  predicate Joins(a: seq<string>, b: seq<string>) {
    a == [] || b == [] || (a[|a| - 1] != "" && Seam(a[|a| - 1], b[0]))
  }

  /** Two stretches of lines are whole together if and only if each is and the second starts where the first ends. */
  lemma {:induction false} WholeAppendIff(a: seq<string>, b: seq<string>)
    ensures WholeLines(a + b) <==>
            WholeLines(a) && WholeLines(b) && Joins(a, b)
  {
    if a == [] {
      assert a + b == b;
    } else {
      assert (a + b)[1..] == a[1..] + b && (a + b)[0] == a[0];
      WholeAppendIff(a[1..], b);
      if |a| > 1 { assert (a + b)[1] == a[1]; } else if b != [] { assert (a + b)[1] == b[0]; }
    }
  }

  /* ---------- reading and writing ---------- */

  /** What is read from a file with this text: a carriage return, with or without a line feed, is read as a
      line feed. */
  function Translated(s: string): string {
    if s == "" then ""
    else if s[0] == '\r' then "\n" + Translated(s[if |s| > 1 && s[1] == '\n' then 2 else 1..])
    else [s[0]] + Translated(s[1..])
  }

  lemma {:induction false} TranslatedHasNoReturn(s: string)
    ensures '\r' !in Translated(s)
  {
    if s != "" { TranslatedHasNoReturn(s[if s[0] == '\r' && |s| > 1 && s[1] == '\n' then 2 else 1..]); }
  }

  lemma {:induction false} TranslatedKeeps(s: string)
    requires '\r' !in s
    ensures Translated(s) == s
  {
    if s != "" { TranslatedKeeps(s[1..]); }
  }

  predicate NoReturns(lines: seq<string>) {
    forall i :: 0 <= i < |lines| ==> '\r' !in lines[i]
  }

  lemma {:induction false} JoinNoReturns(lines: seq<string>)
    ensures '\r' !in Join(lines) <==> NoReturns(lines)
  {
    if lines != [] {
      JoinNoReturns(lines[1..]);
      assert NoReturns(lines) <==> '\r' !in lines[0] && NoReturns(lines[1..]) by {
        assert lines == [lines[0]] + lines[1..];
      }
    }
  }

  /** Lines that are written are read back and split into the same lines if and only if they are whole and contain no
      carriage return. */
  lemma ReadBackIff(lines: seq<string>)
    ensures SplitLines(Translated(Join(lines))) == lines <==> WholeLines(lines) && NoReturns(lines)
  {
    var s := Join(lines);
    SplitJoinIff(lines);
    JoinSplitLines(Translated(s));
    TranslatedHasNoReturn(s);
    JoinNoReturns(lines);
    if '\r' !in s { TranslatedKeeps(s); }
  }

  /** Where the first carriage return of a text is read, the rest is read on its own, but for a line feed
      right after. */
  lemma {:induction false} FirstReturnIsRead(a: string, b: string)
    requires '\r' !in a
    ensures Translated(a + "\r\n" + b) == a + "\n" + Translated(b)
    ensures (b == "" || b[0] != '\n') ==> Translated(a + "\r" + b) == a + "\n" + Translated(b)
  {
    if a == "" {
      assert ("\r\n" + b)[2..] == b && ("\r" + b)[1..] == b;
      assert "" + "\r\n" + b == "\r\n" + b && "" + "\r" + b == "\r" + b;
    } else {
      FirstReturnIsRead(a[1..], b);
      assert (a + "\r\n" + b)[1..] == a[1..] + "\r\n" + b && (a + "\r" + b)[1..] == a[1..] + "\r" + b;
      assert [a[0]] + (a[1..] + "\n" + Translated(b)) == a + "\n" + Translated(b);
    }
  }

  /* ---------- slices ---------- */

  /** s[:k] */
  function Front<T>(s: seq<T>, k: int): seq<T> {
    if k >= |s| then s else if k >= 0 then s[..k] else if -k <= |s| then s[..|s| + k] else []
  }

  /** s[-k:] */
  function Back<T>(s: seq<T>, k: int): seq<T> {
    if k >= |s| then s else if k > 0 then s[|s| - k..] else if -k <= |s| then s[-k..] else []
  }

  function Clamped(n: int, max: nat): nat {
    if n < 0 then 0 else if n > max then max else n
  }

  /** A bound of a slice that is negative counts from the end, and each is moved into the sequence; -0 is 0. */
  lemma SliceBounds<T>(s: seq<T>, k: int)
    ensures Front(s, k) == s[..Clamped(if k < 0 then |s| + k else k, |s|)]
    ensures Back(s, k) == s[Clamped(if k > 0 then |s| - k else -k, |s|)..]
  {
  }
}
