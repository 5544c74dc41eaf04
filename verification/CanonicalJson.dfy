/** The JSON text that is hashed and signed: compact separators, every character outside printable ASCII escaped
    (section 7 of RFC 8259), and its unique readability. */
module CanonicalJson {
  import opened Text

  /** A string is a sequence of code points; the runtime also allows lone surrogates. */
  type CodePoint = n: int | 0 <= n <= 0x10FFFF
  type Unit = n: int | 0 <= n <= 0xFFFF
  type Str = seq<CodePoint>

  function FromAscii(s: string): Str {
    seq(|s|, i requires 0 <= i < |s| => s[i] as int)
  }

  /* ---------- UTF-16 code units ---------- */

  predicate High(c: int) { 0xD800 <= c <= 0xDBFF }

  predicate Low(c: int) { 0xDC00 <= c <= 0xDFFF }

  /** No high surrogate is directly followed by a low one; every sequence of Unicode scalar values qualifies. */
  predicate WellPaired(s: Str) {
    forall i :: 0 <= i < |s| - 1 ==> !(High(s[i]) && Low(s[i + 1]))
  }

  function UnitsOf(c: CodePoint): seq<Unit> {
    if c < 0x10000 then [c] else [0xD800 + (c - 0x10000) / 0x400, 0xDC00 + (c - 0x10000) % 0x400]
  }

  function Units(s: Str): seq<Unit> {
    if s == [] then [] else UnitsOf(s[0]) + Units(s[1..])
  }

  function FromUnits(u: seq<Unit>): Str {
    if u == [] then []
    else if |u| >= 2 && High(u[0]) && Low(u[1]) then
      [0x10000 + (u[0] - 0xD800) * 0x400 + (u[1] - 0xDC00)] + FromUnits(u[2..])
    else [u[0]] + FromUnits(u[1..])
  }

  lemma WellPairedTail(s: Str)
    requires WellPaired(s) && s != []
    ensures WellPaired(s[1..])
  {
    forall i | 0 <= i < |s[1..]| - 1 ensures !(High(s[1..][i]) && Low(s[1..][i + 1])) {
      assert s[1..][i] == s[i + 1] && s[1..][i + 1] == s[i + 2];
    }
  }

  lemma SingleUnitStep(c: Unit, rest: seq<Unit>)
    requires High(c) && rest != [] ==> !Low(rest[0])
    ensures FromUnits([c] + rest) == [c] + FromUnits(rest)
  {
    assert ([c] + rest)[1..] == rest;
  }

  lemma UnitPairStep(h: Unit, l: Unit, rest: seq<Unit>)
    requires High(h) && Low(l)
    ensures FromUnits([h, l] + rest) == [0x10000 + (h - 0xD800) * 0x400 + (l - 0xDC00)] + FromUnits(rest)
  {
    assert ([h, l] + rest)[2..] == rest;
  }

  lemma PairOf(c: CodePoint) returns (h: Unit, l: Unit)
    requires c >= 0x10000
    ensures High(h) && Low(l) && UnitsOf(c) == [h, l]
    ensures 0x10000 + (h - 0xD800) * 0x400 + (l - 0xDC00) == c
  {
    h, l := 0xD800 + (c - 0x10000) / 0x400, 0xDC00 + (c - 0x10000) % 0x400;
  }

  /** Decoding the units of one character, followed by units that do not complete a pair with it. */
  lemma FromUnitsStep(c: CodePoint, rest: seq<Unit>)
    requires High(c) && rest != [] ==> !Low(rest[0])
    ensures FromUnits(UnitsOf(c) + rest) == [c] + FromUnits(rest)
  {
    if c < 0x10000 {
      SingleUnitStep(c, rest);
    } else {
      var h, l := PairOf(c);
      UnitPairStep(h, l, rest);
    }
  }

  lemma {:induction false} UnitsRoundTrip(s: Str)
    requires WellPaired(s)
    ensures FromUnits(Units(s)) == s
  {
    if s != [] {
      WellPairedTail(s);
      UnitsRoundTrip(s[1..]);
      if |s| > 1 { assert Units(s[1..])[0] == UnitsOf(s[1])[0]; }
      FromUnitsStep(s[0], Units(s[1..]));
      assert s == [s[0]] + s[1..];
    }
  }

  /** Well-paired strings have the same code units only if they are equal. */
  lemma UnitsInjective(s: Str, t: Str)
    requires WellPaired(s) && WellPaired(t) && Units(s) == Units(t)
    ensures s == t
  {
    UnitsRoundTrip(s);
    UnitsRoundTrip(t);
  }

  /** Without the condition two different strings share their code units, and so their JSON text. */
  lemma SurrogatePairCollides()
    ensures Units([0xD800, 0xDC00]) == Units([0x10000]) && !WellPaired([0xD800, 0xDC00])
  {
    var s: Str := [0xD800, 0xDC00];
    assert s[1..] == [0xDC00];
    assert Units(s[1..]) == [0xDC00] + Units([]);
  }

  /* ---------- escaping ---------- */

  function HexDigit(d: nat): (c: char)
    requires d < 16
    ensures HexValue(c) == d
  {
    if d < 10 then ('0' as int + d) as char else ('a' as int + d - 10) as char
  }

  function HexValue(c: char): int {
    if '0' <= c <= '9' then c as int - '0' as int else c as int - 'a' as int + 10
  }

  function Hex4(u: Unit): (s: string)
    ensures |s| == 4
  {
    [HexDigit(u / 0x1000), HexDigit(u / 0x100 % 16), HexDigit(u / 16 % 16), HexDigit(u % 16)]
  }

  lemma Hex4Value(u: Unit)
    ensures var s := Hex4(u);
            u == 0x1000 * HexValue(s[0]) + 0x100 * HexValue(s[1]) + 16 * HexValue(s[2]) + HexValue(s[3])
  {
    assert u / 0x100 == 16 * (u / 0x1000) + u / 0x100 % 16;
    assert u / 16 == 16 * (u / 0x100) + u / 16 % 16;
  }

  function Escape(u: Unit): (s: string)
    ensures |s| > 0 && s[0] != '"'
  {
    if u == 0x22 then "\\\""
    else if u == 0x5C then "\\\\"
    else if u == 0x08 then "\\b"
    else if u == 0x09 then "\\t"
    else if u == 0x0A then "\\n"
    else if u == 0x0C then "\\f"
    else if u == 0x0D then "\\r"
    else if 0x20 <= u <= 0x7E then [u as char]
    else "\\u" + Hex4(u)
  }

  function EscapeAll(u: seq<Unit>): string {
    if u == [] then "" else Escape(u[0]) + EscapeAll(u[1..])
  }

  /** The second character of an escape tells its kind. */
  lemma EscapeLengths(u: Unit, v: Unit, x: string, y: string)
    requires Escape(u) + x == Escape(v) + y
    ensures |Escape(u)| == |Escape(v)|
  {
    var a, b := Escape(u) + x, Escape(v) + y;
    assert a[0] == Escape(u)[0] && b[0] == Escape(v)[0];
    assert |Escape(u)| > 1 ==> a[1] == Escape(u)[1];
    assert |Escape(v)| > 1 ==> b[1] == Escape(v)[1];
  }

  lemma EscapePrefixFree(u: Unit, v: Unit, x: string, y: string)
    requires Escape(u) + x == Escape(v) + y
    ensures u == v && x == y
  {
    EscapeLengths(u, v, x, y);
    var n := |Escape(u)|;
    assert x == (Escape(u) + x)[n..] && y == (Escape(v) + y)[n..];
    assert Escape(u) == (Escape(u) + x)[..n] == (Escape(v) + y)[..n] == Escape(v);
    if n == 6 {
      assert Hex4(u) == Escape(u)[2..] == Escape(v)[2..] == Hex4(v);
      Hex4Value(u);
      Hex4Value(v);
    }
  }

  lemma EscapeAllSplit(u: seq<Unit>, x: string)
    ensures var s := EscapeAll(u) + ("\"" + x);
            (s[0] == '"' <==> u == []) && (u != [] ==> s == Escape(u[0]) + (EscapeAll(u[1..]) + ("\"" + x)))
  {
    if u != [] { assert EscapeAll(u) + ("\"" + x) == Escape(u[0]) + (EscapeAll(u[1..]) + ("\"" + x)); }
  }

  lemma {:induction false} StringUnique(u: seq<Unit>, v: seq<Unit>, x: string, y: string)
    requires EscapeAll(u) + ("\"" + x) == EscapeAll(v) + ("\"" + y)
    ensures u == v && x == y
  {
    EscapeAllSplit(u, x);
    EscapeAllSplit(v, y);
    if u == [] {
      assert EscapeAll(u) + ("\"" + x) == "\"" + x && EscapeAll(v) + ("\"" + y) == "\"" + y;
      Cancel("\"", x, y);
    } else {
      EscapePrefixFree(u[0], v[0], EscapeAll(u[1..]) + ("\"" + x), EscapeAll(v[1..]) + ("\"" + y));
      StringUnique(u[1..], v[1..], x, y);
      assert u == [u[0]] + u[1..] && v == [v[0]] + v[1..];
    }
  }

  function Quoted(u: seq<Unit>): string {
    "\"" + EscapeAll(u) + "\""
  }

  lemma QuotedUnique(u: seq<Unit>, v: seq<Unit>, x: string, y: string)
    requires Quoted(u) + x == Quoted(v) + y
    ensures u == v && x == y
  {
    Inside("\"", EscapeAll(u), "\"", x, EscapeAll(v), y);
    StringUnique(u, v, x, y);
  }

  lemma Inside(p: string, s: string, q: string, x: string, t: string, y: string)
    requires p + s + q + x == p + t + q + y
    ensures s + (q + x) == t + (q + y)
  {
    assert p + s + q + x == p + (s + (q + x)) && p + t + q + y == p + (t + (q + y));
    Cancel(p, s + (q + x), t + (q + y));
  }

  lemma Cancel(p: string, x: string, y: string)
    requires p + x == p + y
    ensures x == y
  {
    assert x == (p + x)[|p|..] && y == (p + y)[|p|..];
  }

  /* ---------- numbers ---------- */

  function Abs(n: int): nat { if n < 0 then -n else n }

  function Signed(negative: bool, s: string): string {
    if negative then "-" + s else s
  }

  function Integer(n: int): string {
    Signed(n < 0, Decimal(Abs(n)))
  }

  /** The four decimal places of `f` ten-thousandths without trailing zeros, but at least one digit. */
  function Fraction(f: nat): (s: string)
    requires f < 10000
    ensures |s| > 0 && forall i :: 0 <= i < |s| ==> IsDigit(s[i])
  {
    var a, b, c, d := f / 1000, f / 100 % 10, f / 10 % 10, f % 10;
    if d != 0 then [Digit(a), Digit(b), Digit(c), Digit(d)]
    else if c != 0 then [Digit(a), Digit(b), Digit(c)]
    else if b != 0 then [Digit(a), Digit(b)]
    else [Digit(a)]
  }

  /** A time that was rounded to ten-thousandths of a second. */
  function Seconds(ticks: int): string {
    Signed(ticks < 0, Decimal(Abs(ticks) / 10000) + ("." + Fraction(Abs(ticks) % 10000)))
  }

  ghost predicate Ends(x: string) {
    x == "" || (!IsDigit(x[0]) && x[0] != '.')
  }

  lemma SignedSplit(p: bool, a: string, x: string)
    requires |a| > 0 && IsDigit(a[0])
    ensures var s := Signed(p, a) + x; s == (if p then "-" + (a + x) else a + x) && (s[0] == '-' <==> p)
  {
    if p { assert "-" + a + x == "-" + (a + x); }
  }

  lemma SignedUnique(p: bool, q: bool, a: string, b: string, x: string, y: string)
    requires |a| > 0 && |b| > 0 && IsDigit(a[0]) && IsDigit(b[0]) && Signed(p, a) + x == Signed(q, b) + y
    ensures p == q && a + x == b + y
  {
    SignedSplit(p, a, x);
    SignedSplit(q, b, y);
    if p { Cancel("-", a + x, b + y); }
  }

  lemma IntegerUnique(m: int, n: int, x: string, y: string)
    requires Ends(x) && Ends(y) && Integer(m) + x == Integer(n) + y
    ensures m == n && x == y
  {
    SignedUnique(m < 0, n < 0, Decimal(Abs(m)), Decimal(Abs(n)), x, y);
    DecimalUnique(Abs(m), Abs(n), x, y);
  }

  lemma SecondsUnique(m: int, n: int, x: string, y: string)
    requires Ends(x) && Ends(y) && Seconds(m) + x == Seconds(n) + y
    ensures m == n && x == y
  {
    var f, g := Fraction(Abs(m) % 10000), Fraction(Abs(n) % 10000);
    PointUnique(m < 0, n < 0, Abs(m) / 10000, Abs(n) / 10000, f, g, x, y);
    FractionUnique(Abs(m) % 10000, Abs(n) % 10000, x, y);
  }

  lemma PointSplit(a: string, f: string, x: string)
    ensures a + ("." + f) + x == a + ("." + (f + x))
  {
    assert "." + (f + x) == ("." + f) + x;
    assert a + ("." + f) + x == a + (("." + f) + x);
  }

  lemma PointUnique(p: bool, q: bool, m: nat, n: nat, f: string, g: string, x: string, y: string)
    requires Signed(p, Decimal(m) + ("." + f)) + x == Signed(q, Decimal(n) + ("." + g)) + y
    ensures p == q && m == n && f + x == g + y
  {
    var a, b := Decimal(m), Decimal(n);
    SignedUnique(p, q, a + ("." + f), b + ("." + g), x, y);
    PointSplit(a, f, x);
    PointSplit(b, g, y);
    DecimalUnique(m, n, "." + (f + x), "." + (g + y));
    Cancel(".", f + x, g + y);
  }

  lemma FractionUnique(f: nat, g: nat, x: string, y: string)
    requires f < 10000 && g < 10000 && NoLeadingDigit(x) && NoLeadingDigit(y)
    requires Fraction(f) + x == Fraction(g) + y
    ensures f == g && x == y
  {
    var s, t := Fraction(f), Fraction(g);
    LeadingDigitsOf(s, x);
    LeadingDigitsOf(t, y);
    assert s == (s + x)[..|s|] && t == (t + y)[..|t|];
    assert x == (s + x)[|s|..] && y == (t + y)[|t|..];
    FractionValue(f);
    FractionValue(g);
  }

  ghost function Place(s: string, i: nat): int {
    if i < |s| then s[i] as int - '0' as int else 0
  }

  lemma FractionValue(f: nat)
    requires f < 10000
    ensures var s := Fraction(f); f == 1000 * Place(s, 0) + 100 * Place(s, 1) + 10 * Place(s, 2) + Place(s, 3)
  {
    assert f / 10 == 10 * (f / 100) + f / 10 % 10;
    assert f / 100 == 10 * (f / 1000) + f / 100 % 10;
  }

  /* ---------- values ---------- */

  datatype Json =
    | Chars(units: seq<Unit>)
    | Whole(n: int)
    | Time(ticks: int)
    | List(items: seq<Json>)
    | Record(fields: seq<Field>)

  datatype Field = Field(key: seq<Unit>, value: Json)

  function Serialise(j: Json): string
    decreases j
  {
    match j
    case Chars(u) => Quoted(u)
    case Whole(n) => Integer(n)
    case Time(t) => Seconds(t)
    case List(items) => "[" + SerialiseItems(items) + "]"
    case Record(fields) => "{" + SerialiseFields(fields) + "}"
  }

  function SerialiseItems(s: seq<Json>): string
    decreases s
  {
    if s == [] then "" else Serialise(s[0]) + (if |s| == 1 then "" else "," + SerialiseItems(s[1..]))
  }

  function SerialiseField(f: Field): string
    decreases f
  {
    Quoted(f.key) + ":" + Serialise(f.value)
  }

  function SerialiseFields(s: seq<Field>): string
    decreases s
  {
    if s == [] then "" else SerialiseField(s[0]) + (if |s| == 1 then "" else "," + SerialiseFields(s[1..]))
  }

  /** The first character tells the kind of a value, up to the two kinds of number. */
  lemma FirstChar(j: Json)
    ensures |Serialise(j)| > 0
    ensures match j
            case Chars(_) => Serialise(j)[0] == '"'
            case Whole(_) => Serialise(j)[0] == '-' || IsDigit(Serialise(j)[0])
            case Time(_) => Serialise(j)[0] == '-' || IsDigit(Serialise(j)[0])
            case List(_) => Serialise(j)[0] == '['
            case Record(_) => Serialise(j)[0] == '{'
  {
  }

  lemma WholeIsNotTime(n: int, t: int, x: string, y: string)
    requires Ends(x)
    ensures Integer(n) + x != Seconds(t) + y
  {
    if Integer(n) + x == Seconds(t) + y {
      var b, f := Decimal(Abs(t) / 10000), Fraction(Abs(t) % 10000);
      SignedUnique(n < 0, t < 0, Decimal(Abs(n)), b + ("." + f), x, y);
      assert b + ("." + f) + y == b + ("." + (f + y));
      DecimalUnique(Abs(n), Abs(t) / 10000, x, "." + (f + y));
    }
  }

  lemma SameKind(a: Json, b: Json, x: string, y: string)
    requires Ends(x) && Ends(y) && Serialise(a) + x == Serialise(b) + y
    ensures (a.Chars? && b.Chars?) || (a.Whole? && b.Whole?) || (a.Time? && b.Time?) || (a.List? && b.List?)
            || (a.Record? && b.Record?)
  {
    FirstChar(a);
    FirstChar(b);
    assert (Serialise(a) + x)[0] == (Serialise(b) + y)[0];
    if a.Whole? && b.Time? { WholeIsNotTime(a.n, b.ticks, x, y); }
    if a.Time? && b.Whole? { WholeIsNotTime(b.n, a.ticks, y, x); }
  }

  /** Unique readability: the text of a value, followed by anything that cannot continue a number, determines
      the value. */
  lemma {:induction false} Unique(a: Json, b: Json, x: string, y: string)
    requires Ends(x) && Ends(y) && Serialise(a) + x == Serialise(b) + y
    ensures a == b && x == y
    decreases a
  {
    SameKind(a, b, x, y);
    match a
    case Chars(u) => QuotedUnique(u, b.units, x, y);
    case Whole(m) => IntegerUnique(m, b.n, x, y);
    case Time(m) => SecondsUnique(m, b.ticks, x, y);
    case List(s) =>
      Inside("[", SerialiseItems(s), "]", x, SerialiseItems(b.items), y);
      ItemsUnique(s, b.items, x, y);
    case Record(s) =>
      Inside("{", SerialiseFields(s), "}", x, SerialiseFields(b.fields), y);
      FieldsUnique(s, b.fields, x, y);
  }

  lemma Regroup(e: string, comma: string, rest: string, x: string)
    ensures e + (comma + rest) + x == e + (comma + (rest + x))
  {
    assert comma + rest + x == comma + (rest + x);
    assert e + (comma + rest) + x == e + ((comma + rest) + x);
  }

  lemma Regroup3(q: string, colon: string, v: string, x: string)
    ensures q + colon + v + x == q + (colon + (v + x))
  {
    assert q + colon + v + x == (q + colon) + (v + x);
    assert (q + colon) + (v + x) == q + (colon + (v + x));
  }

  function ItemsTail(s: seq<Json>, x: string): string
    requires s != []
  {
    if |s| == 1 then "]" + x else "," + (SerialiseItems(s[1..]) + ("]" + x))
  }

  lemma ItemsSplit(s: seq<Json>, x: string)
    ensures var a := SerialiseItems(s) + ("]" + x);
            (a[0] == ']' <==> s == []) && (s != [] ==> a == Serialise(s[0]) + ItemsTail(s, x))
  {
    if s != [] {
      FirstChar(s[0]);
      var e := Serialise(s[0]);
      if |s| == 1 {
        assert SerialiseItems(s) == e + "" == e;
      } else {
        Regroup(e, ",", SerialiseItems(s[1..]), "]" + x);
      }
    }
  }

  lemma {:induction false} ItemsUnique(s: seq<Json>, t: seq<Json>, x: string, y: string)
    requires SerialiseItems(s) + ("]" + x) == SerialiseItems(t) + ("]" + y)
    ensures s == t && x == y
    decreases s
  {
    ItemsSplit(s, x);
    ItemsSplit(t, y);
    if s == [] {
      assert SerialiseItems(s) + ("]" + x) == "]" + x && SerialiseItems(t) + ("]" + y) == "]" + y;
      Cancel("]", x, y);
    } else {
      Unique(s[0], t[0], ItemsTail(s, x), ItemsTail(t, y));
      assert ItemsTail(s, x)[0] == ItemsTail(t, y)[0];
      assert s == [s[0]] + s[1..] && t == [t[0]] + t[1..];
      if |s| == 1 {
        Cancel("]", x, y);
      } else {
        Cancel(",", SerialiseItems(s[1..]) + ("]" + x), SerialiseItems(t[1..]) + ("]" + y));
        ItemsUnique(s[1..], t[1..], x, y);
      }
    }
  }

  function FieldsTail(s: seq<Field>, x: string): string
    requires s != []
  {
    if |s| == 1 then "}" + x else "," + (SerialiseFields(s[1..]) + ("}" + x))
  }

  lemma FieldsSplit(s: seq<Field>, x: string)
    ensures var a := SerialiseFields(s) + ("}" + x);
            (a[0] == '}' <==> s == [])
              && (s != [] ==> a == Quoted(s[0].key) + (":" + (Serialise(s[0].value) + FieldsTail(s, x))))
  {
    if s != [] {
      var q, v := Quoted(s[0].key), Serialise(s[0].value);
      var e := SerialiseField(s[0]);
      assert e == q + ":" + v;
      if |s| == 1 {
        assert SerialiseFields(s) == e + "" == e;
      } else {
        Regroup(e, ",", SerialiseFields(s[1..]), "}" + x);
      }
      assert SerialiseFields(s) + ("}" + x) == e + FieldsTail(s, x);
      Regroup3(q, ":", v, FieldsTail(s, x));
      assert q[0] == '"';
    }
  }

  lemma {:induction false} FieldsUnique(s: seq<Field>, t: seq<Field>, x: string, y: string)
    requires SerialiseFields(s) + ("}" + x) == SerialiseFields(t) + ("}" + y)
    ensures s == t && x == y
    decreases s
  {
    FieldsSplit(s, x);
    FieldsSplit(t, y);
    if s == [] {
      assert SerialiseFields(s) + ("}" + x) == "}" + x && SerialiseFields(t) + ("}" + y) == "}" + y;
      Cancel("}", x, y);
    } else {
      var v, w := Serialise(s[0].value) + FieldsTail(s, x), Serialise(t[0].value) + FieldsTail(t, y);
      QuotedUnique(s[0].key, t[0].key, ":" + v, ":" + w);
      Cancel(":", v, w);
      Unique(s[0].value, t[0].value, FieldsTail(s, x), FieldsTail(t, y));
      assert FieldsTail(s, x)[0] == FieldsTail(t, y)[0];
      assert s == [s[0]] + s[1..] && t == [t[0]] + t[1..];
      if |s| == 1 {
        Cancel("}", x, y);
      } else {
        Cancel(",", SerialiseFields(s[1..]) + ("}" + x), SerialiseFields(t[1..]) + ("}" + y));
        FieldsUnique(s[1..], t[1..], x, y);
      }
    }
  }

  /** Two JSON values have the same text if and only if they are equal. */
  lemma SerialiseInjective(a: Json, b: Json)
    ensures Serialise(a) == Serialise(b) <==> a == b
  {
    if Serialise(a) == Serialise(b) {
      assert Serialise(a) + "" == Serialise(b) + "";
      Unique(a, b, "", "");
    }
  }
}
