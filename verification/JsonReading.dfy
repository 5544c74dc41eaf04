/** The canonical texts read back as JSON: strings by section 7 and numbers by section 6 of RFC 8259. */
module JsonReading {
  import opened Text
  import opened CanonicalJson

  /* ---------- strings ---------- */

  /** The value of a hexadecimal digit, in either case. */
  ghost function HexRead(c: char): int {
    if '0' <= c <= '9' then c as int - 48
    else if 'a' <= c <= 'f' then c as int - 87
    else if 'A' <= c <= 'F' then c as int - 55 else 0
  }

  /** The code unit that a two-character escape stands for. */
  ghost function Named(c: char): int {
    match c
    case 'b' => 8
    case 't' => 9
    case 'n' => 10
    case 'f' => 12
    case 'r' => 13
    case _ => c as int
  }

  /** The code units of the characters between the quotation marks. */
  ghost function Unescaped(s: string): seq<int> {
    if s == "" then []
    else if s[0] != '\\' || |s| == 1 then [s[0] as int] + Unescaped(s[1..])
    else if s[1] == 'u' && |s| >= 6 then
      [4096 * HexRead(s[2]) + 256 * HexRead(s[3]) + 16 * HexRead(s[4]) + HexRead(s[5])] + Unescaped(s[6..])
    else [Named(s[1])] + Unescaped(s[2..])
  }

  lemma HexDigitReads(d: nat)
    requires d < 16
    ensures HexRead(HexDigit(d)) == d
  {
  }

  lemma Hex4Reads(u: Unit)
    ensures var s := Hex4(u);
            4096 * HexRead(s[0]) + 256 * HexRead(s[1]) + 16 * HexRead(s[2]) + HexRead(s[3]) == u
  {
    HexDigitReads(u / 0x1000);
    HexDigitReads(u / 0x100 % 16);
    HexDigitReads(u / 16 % 16);
    HexDigitReads(u % 16);
    assert u / 0x100 == 16 * (u / 0x1000) + u / 0x100 % 16;
    assert u / 16 == 16 * (u / 0x100) + u / 16 % 16;
  }

  lemma EscapeReads(u: Unit, rest: string)
    ensures Unescaped(Escape(u) + rest) == [u] + Unescaped(rest)
  {
    var e := Escape(u);
    var s := e + rest;
    assert s[|e|..] == rest;
    if |e| == 6 {
      Hex4Reads(u);
      assert s[2] == Hex4(u)[0] && s[3] == Hex4(u)[1] && s[4] == Hex4(u)[2] && s[5] == Hex4(u)[3];
    }
  }

  /** A JSON reader gets back the code units of every string. */
  lemma {:induction false} StringReads(u: seq<Unit>)
    ensures Unescaped(EscapeAll(u)) == u
  {
    if u != [] {
      EscapeReads(u[0], EscapeAll(u[1..]));
      StringReads(u[1..]);
    }
  }

  /** Which escape is used: the short ones where section 7 has one, but for the solidus; none for other printable ASCII;
      and otherwise four lower-case hexadecimal digits. */
  lemma EscapeForm(u: Unit)
    ensures var e := Escape(u);
            && |e| == (if u in {8, 9, 10, 12, 13, 34, 92} then 2 else if 32 <= u <= 126 then 1 else 6)
            && (|e| == 6 ==> e[1] == 'u' && forall i :: 2 <= i < 6 ==> '0' <= e[i] <= '9' || 'a' <= e[i] <= 'f')
  {
    if |Escape(u)| == 6 { assert forall i :: 2 <= i < 6 ==> Escape(u)[i] == Hex4(u)[i - 2]; }
  }

  /* ---------- numbers ---------- */

  ghost predicate Numeral(s: string) {
    s != "" && forall i :: 0 <= i < |s| ==> IsDigit(s[i])
  }

  /** A whole number is its sign and its decimal digits. */
  lemma IntegerReads(n: int)
    ensures var digits := Integer(n)[if n < 0 then 1 else 0..];
            && (n < 0 ==> Integer(n)[0] == '-') && Numeral(digits)
            && n == (if n < 0 then -NumeralValue(digits) else NumeralValue(digits))
  {
    DecimalValue(Abs(n));
    assert Integer(n)[if n < 0 then 1 else 0..] == Decimal(Abs(n));
  }

  /** A time is its sign, whole seconds, a point and up to four decimal places, without zeros at the end but for a
      single one. */
  lemma SecondsReads(t: int) returns (whole: string, places: string)
    ensures Seconds(t) == (if t < 0 then "-" else "") + whole + "." + places
    ensures Numeral(whole) && Numeral(places) && |places| <= 4 && (|places| == 1 || places[|places| - 1] != '0')
    ensures var padded := places + seq(4 - |places|, _ => '0');
            var ticks := 10000 * NumeralValue(whole) + NumeralValue(padded);
            t == if t < 0 then -ticks else ticks
  {
    whole, places := Decimal(Abs(t) / 10000), Fraction(Abs(t) % 10000);
    DecimalValue(Abs(t) / 10000);
    FractionReads(Abs(t) % 10000);
    assert Seconds(t) == (if t < 0 then "-" else "") + whole + "." + places;
  }

  lemma OneMoreDigit(s: string, c: char)
    ensures NumeralValue(s + [c]) == 10 * NumeralValue(s) + (c as int - 48)
  {
    assert (s + [c])[..|s|] == s;
  }

  lemma FourDigits(a: char, b: char, c: char, d: char)
    ensures NumeralValue([a, b, c, d])
         == 1000 * (a as int - 48) + 100 * (b as int - 48) + 10 * (c as int - 48) + (d as int - 48)
  {
    OneMoreDigit("", a);
    OneMoreDigit([a], b);
    OneMoreDigit([a, b], c);
    OneMoreDigit([a, b, c], d);
    assert "" + [a] == [a] && [a] + [b] == [a, b] && [a, b] + [c] == [a, b, c] && [a, b, c] + [d] == [a, b, c, d];
  }

  lemma FractionReads(f: nat)
    requires f < 10000
    ensures |Fraction(f)| <= 4 && NumeralValue(Fraction(f) + seq(4 - |Fraction(f)|, _ => '0')) == f
  {
    var s := Fraction(f) + seq(4 - |Fraction(f)|, _ => '0');
    var a, b, c, d := f / 1000, f / 100 % 10, f / 10 % 10, f % 10;
    assert f / 10 == 10 * (f / 100) + c && f / 100 == 10 * a + b;
    assert s == [Digit(a), Digit(b), Digit(c), Digit(d)];
    FourDigits(Digit(a), Digit(b), Digit(c), Digit(d));
  }

  /* ---------- values ---------- */

  /** The texts of the parts with a comma between any two. */
  ghost function Listed(parts: seq<string>): string {
    if parts == [] then "" else if |parts| == 1 then parts[0] else parts[0] + "," + Listed(parts[1..])
  }

  ghost function ItemTexts(items: seq<Json>): seq<string> {
    seq(|items|, i requires 0 <= i < |items| => Serialise(items[i]))
  }

  lemma {:induction false} ItemsAreListed(items: seq<Json>)
    ensures SerialiseItems(items) == Listed(ItemTexts(items))
  {
    if items != [] {
      ItemsAreListed(items[1..]);
      assert ItemTexts(items)[1..] == ItemTexts(items[1..]);
    }
  }

  /** The keys in quotation marks, each with a colon and its value. */
  ghost function FieldTexts(fields: seq<Field>): seq<string> {
    seq(|fields|, i requires 0 <= i < |fields| =>
      "\"" + EscapeAll(fields[i].key) + "\":" + Serialise(fields[i].value))
  }

  lemma {:induction false} FieldsAreListed(fields: seq<Field>)
    ensures SerialiseFields(fields) == Listed(FieldTexts(fields))
  {
    if fields != [] {
      FieldsAreListed(fields[1..]);
      assert FieldTexts(fields)[1..] == FieldTexts(fields[1..]);
      assert SerialiseField(fields[0]) == FieldTexts(fields)[0];
    }
  }

  /** A list or record is its parts with commas between them, in brackets or braces. */
  lemma ValueReads(j: Json)
    ensures match j
            case List(items) => Serialise(j) == "[" + Listed(ItemTexts(items)) + "]"
            case Record(fields) => Serialise(j) == "{" + Listed(FieldTexts(fields)) + "}"
            case Chars(u) => Serialise(j) == "\"" + EscapeAll(u) + "\""
            case _ => true
  {
    match j
    case List(items) => ItemsAreListed(items);
    case Record(fields) => FieldsAreListed(fields);
    case _ =>
  }
}
