/** The process gate's output truncation: encode as UTF-8 (section 3 of RFC 3629), cut at a byte budget, and decode with
    errors ignored. */
module OutputBudget {

  type Byte = n: int | 0 <= n < 256

  const MAX_OUTPUT_BYTES: nat := 1024 * 1024

  const MARKER := "\n...[TRUNCATED BY PROCESS_GATE DUE TO SIZE BUDGET]..."

  function EncodeChar(c: char): (s: seq<Byte>)
    ensures 1 <= |s| <= 4
  {
    var n := c as int;
    if n < 0x80 then [n]
    else if n < 0x800 then [0xC0 + n / 64, 0x80 + n % 64]
    else if n < 0x10000 then [0xE0 + n / 4096, 0x80 + n / 64 % 64, 0x80 + n % 64]
    else [0xF0 + n / 262144, 0x80 + n / 4096 % 64, 0x80 + n / 64 % 64, 0x80 + n % 64]
  }

  function Encode(s: string): seq<Byte> {
    if s == "" then [] else EncodeChar(s[0]) + Encode(s[1..])
  }

  predicate Tail(b: Byte) {
    0x80 <= b <= 0xBF
  }

  /** The length of the well-formed sequence at the start of `b`, or 0. */
  function WellFormed(b: seq<Byte>): nat {
    if b == [] then 0
    else if b[0] < 0x80 then 1
    else if 0xC2 <= b[0] <= 0xDF then (if |b| >= 2 && Tail(b[1]) then 2 else 0)
    else if 0xE0 <= b[0] <= 0xEF then
      (if |b| >= 3 && Tail(b[1]) && Tail(b[2]) && (b[0] == 0xE0 ==> b[1] >= 0xA0)
        && (b[0] == 0xED ==> b[1] <= 0x9F) then 3 else 0)
    else if 0xF0 <= b[0] <= 0xF4 then
      (if |b| >= 4 && Tail(b[1]) && Tail(b[2]) && Tail(b[3]) && (b[0] == 0xF0 ==> b[1] >= 0x90)
        && (b[0] == 0xF4 ==> b[1] <= 0x8F) then 4 else 0)
    else 0
  }

  function Bits(b: int, base: int): int {
    b - base
  }

  /** The scalar value of a well-formed sequence. */
  function DecodeChar(b: seq<Byte>): char
    requires WellFormed(b) > 0
  {
    if WellFormed(b) == 1 then b[0] as char
    else if WellFormed(b) == 2 then (Bits(b[0], 0xC0) * 64 + Bits(b[1], 0x80)) as char
    else if WellFormed(b) == 3 then (Bits(b[0], 0xE0) * 4096 + Bits(b[1], 0x80) * 64 + Bits(b[2], 0x80)) as char
    else (Bits(b[0], 0xF0) * 262144 + Bits(b[1], 0x80) * 4096 + Bits(b[2], 0x80) * 64 + Bits(b[3], 0x80)) as char
  }

  /** Decoding that drops every byte at which no well-formed sequence starts. */
  function DecodeIgnore(b: seq<Byte>): string {
    if b == [] then ""
    else if WellFormed(b) == 0 then DecodeIgnore(b[1..])
    else [DecodeChar(b)] + DecodeIgnore(b[WellFormed(b)..])
  }

  function Truncate(output: string, marker: string, limit: nat): string {
    var encoded := Encode(output);
    if output == "" then ""
    else if |encoded| <= limit then output
    else
      var size := |Encode(marker)|;
      var budget := if limit <= size then 0 else limit - size;
      DecodeIgnore(encoded[..budget]) + marker
  }

  /** The output the gate returns. */
  function TruncateOutput(output: string): string {
    Truncate(output, MARKER, MAX_OUTPUT_BYTES)
  }

  /* ---------- one character ---------- */

  lemma EncodeCharShape(c: char)
    ensures var (s, n) := (EncodeChar(c), c as int);
            && (|s| == 2 ==> Bits(s[0], 0xC0) * 64 + Bits(s[1], 0x80) == n)
            && (|s| == 3 ==> Bits(s[0], 0xE0) * 4096 + Bits(s[1], 0x80) * 64 + Bits(s[2], 0x80) == n)
            && (|s| == 4 ==>
                 Bits(s[0], 0xF0) * 262144 + Bits(s[1], 0x80) * 4096 + Bits(s[2], 0x80) * 64 + Bits(s[3], 0x80) == n)
            && (forall i :: 1 <= i < |s| ==> Tail(s[i]))
  {
    var n := c as int;
    assert n / 64 == 64 * (n / 4096) + n / 64 % 64;
    assert n / 4096 == 64 * (n / 262144) + n / 4096 % 64;
  }

  lemma EncodeCharWellFormed(c: char, rest: seq<Byte>)
    ensures WellFormed(EncodeChar(c) + rest) == |EncodeChar(c)| && DecodeChar(EncodeChar(c) + rest) == c
  {
    EncodeCharShape(c);
    var b := EncodeChar(c) + rest;
    assert forall i :: 0 <= i < |EncodeChar(c)| ==> b[i] == EncodeChar(c)[i];
  }

  /** A proper prefix of an encoded character decodes to nothing. */
  lemma PartialCharIgnored(c: char, k: nat)
    requires k < |EncodeChar(c)|
    ensures DecodeIgnore(EncodeChar(c)[..k]) == ""
  {
    EncodeCharShape(c);
    var s := EncodeChar(c)[..k];
    if k > 0 {
      assert WellFormed(s) == 0;
      TailsIgnored(s[1..]);
    }
  }

  lemma {:induction false} TailsIgnored(s: seq<Byte>)
    requires forall i :: 0 <= i < |s| ==> Tail(s[i])
    ensures DecodeIgnore(s) == ""
  {
    if s != [] { TailsIgnored(s[1..]); }
  }

  lemma SixBits(x: int, y: int)
    requires 0 <= y < 64
    ensures (64 * x + y) / 64 == x && (64 * x + y) % 64 == y
  {
  }

  lemma ShiftTwice(n: int)
    ensures n / 64 / 64 == n / 4096 && n / 64 / 64 / 64 == n / 262144
  {
  }

  lemma TwoBytes(b: seq<Byte>)
    requires WellFormed(b) == 2
    ensures EncodeChar(DecodeChar(b)) == b[..2]
  {
    SixBits(b[0] - 0xC0, b[1] - 0x80);
  }

  lemma ThreeBytes(b: seq<Byte>)
    requires WellFormed(b) == 3
    ensures EncodeChar(DecodeChar(b)) == b[..3]
  {
    var m, n := 64 * Bits(b[0], 0xE0) + Bits(b[1], 0x80), DecodeChar(b) as int;
    assert n == 64 * m + Bits(b[2], 0x80);
    SixBits(m, b[2] - 0x80);
    SixBits(b[0] - 0xE0, b[1] - 0x80);
    ShiftTwice(n);
  }

  lemma FourBytes(b: seq<Byte>)
    requires WellFormed(b) == 4
    ensures EncodeChar(DecodeChar(b)) == b[..4]
  {
    var l := 64 * Bits(b[0], 0xF0) + Bits(b[1], 0x80);
    var m, n := 64 * l + Bits(b[2], 0x80), DecodeChar(b) as int;
    assert n == 64 * m + Bits(b[3], 0x80);
    SixBits(m, b[3] - 0x80);
    SixBits(l, b[2] - 0x80);
    SixBits(b[0] - 0xF0, b[1] - 0x80);
    ShiftTwice(n);
  }

  lemma DecodedIsEncoding(b: seq<Byte>)
    requires WellFormed(b) > 0
    ensures EncodeChar(DecodeChar(b)) == b[..WellFormed(b)]
  {
    if WellFormed(b) == 2 {
      TwoBytes(b);
    } else if WellFormed(b) == 3 {
      ThreeBytes(b);
    } else if WellFormed(b) == 4 {
      FourBytes(b);
    }
  }

  lemma EncodingIsWellFormed(b: seq<Byte>, c: char)
    requires EncodeChar(c) <= b
    ensures WellFormed(b) > 0
  {
    var rest := b[|EncodeChar(c)|..];
    EncodeCharWellFormed(c, rest);
    assert EncodeChar(c) + rest == b;
  }

  /** A sequence starts with a well-formed one exactly if it starts with the encoding of a character, which is then the
      decoded one. */
  lemma WellFormedIff(b: seq<Byte>)
    ensures WellFormed(b) > 0 <==> exists c :: EncodeChar(c) <= b
    ensures WellFormed(b) > 0 ==> EncodeChar(DecodeChar(b)) == b[..WellFormed(b)]
  {
    if WellFormed(b) > 0 { DecodedIsEncoding(b); }
    forall c | EncodeChar(c) <= b ensures WellFormed(b) > 0 { EncodingIsWellFormed(b, c); }
  }

  /* ---------- whole strings ---------- */

  lemma {:induction false} DecodeInvertsEncode(s: string)
    ensures DecodeIgnore(Encode(s)) == s
  {
    if s != "" {
      EncodeCharWellFormed(s[0], Encode(s[1..]));
      assert Encode(s)[|EncodeChar(s[0])|..] == Encode(s[1..]);
      DecodeInvertsEncode(s[1..]);
    }
  }

  lemma {:induction false} EncodeAppend(s: string, t: string)
    ensures Encode(s + t) == Encode(s) + Encode(t)
  {
    if s == "" {
      assert s + t == t;
    } else {
      assert (s + t)[1..] == s[1..] + t;
      EncodeAppend(s[1..], t);
      var c, r := EncodeChar(s[0]), Encode(s[1..]);
      assert Encode(s + t) == c + (r + Encode(t)) && Encode(s) == c + r;
      assert c + (r + Encode(t)) == c + r + Encode(t);
    }
  }

  /** `p` is the longest whole-character prefix of `s` whose encoding fits in `budget` bytes. */
  ghost predicate LongestFitting(s: string, p: string, budget: nat) {
    && p <= s && |Encode(p)| <= budget
    && forall q :: p < q <= s ==> |Encode(q)| > budget
  }

  /** Cutting the encoding at any budget and decoding with errors ignored gives exactly the longest prefix that fits. */
  lemma {:induction false} CutIsLongestPrefix(s: string, budget: nat)
    requires budget <= |Encode(s)|
    ensures LongestFitting(s, DecodeIgnore(Encode(s)[..budget]), budget)
  {
    if s != "" {
      var c, rest := s[0], s[1..];
      var size := |EncodeChar(c)|;
      if budget < size {
        assert Encode(s)[..budget] == EncodeChar(c)[..budget];
        PartialCharIgnored(c, budget);
        forall q | "" < q <= s ensures |Encode(q)| > budget { assert q[0] == c; }
      } else {
        var p := DecodeIgnore(Encode(rest)[..budget - size]);
        CutIsLongestPrefix(rest, budget - size);
        assert Encode(s)[..budget] == EncodeChar(c) + Encode(rest)[..budget - size];
        EncodeCharWellFormed(c, Encode(rest)[..budget - size]);
        assert (EncodeChar(c) + Encode(rest)[..budget - size])[size..] == Encode(rest)[..budget - size];
        assert DecodeIgnore(Encode(s)[..budget]) == [c] + p;
        assert ([c] + p)[1..] == p && s == [c] + rest;
        forall q | [c] + p < q <= s ensures |Encode(q)| > budget {
          assert q[0] == c && p < q[1..] <= rest;
        }
      }
    }
  }

  /** An output within the limit is returned unchanged; otherwise the result is the longest prefix that leaves room for
      the marker, and the marker; its encoding stays within the limit whenever the marker itself does. */
  lemma TruncateMeaning(output: string, marker: string, limit: nat)
    requires |Encode(marker)| <= limit
    ensures |Encode(output)| <= limit ==> Truncate(output, marker, limit) == output
    ensures |Encode(output)| > limit ==>
            exists p :: Truncate(output, marker, limit) == p + marker
              && LongestFitting(output, p, limit - |Encode(marker)|)
    ensures |Encode(Truncate(output, marker, limit))| <= limit
  {
    if |Encode(output)| > limit {
      var budget := limit - |Encode(marker)|;
      CutIsLongestPrefix(output, budget);
      var p := DecodeIgnore(Encode(output)[..budget]);
      EncodeAppend(p, marker);
      assert Truncate(output, marker, limit) == p + marker;
    }
  }

  lemma {:induction false} EncodedSize(s: string)
    ensures |s| <= |Encode(s)| <= 4 * |s|
  {
    if s != "" { EncodedSize(s[1..]); }
  }

  /** The gate never returns more than one megabyte of UTF-8, and returns an output of at most that size unchanged. */
  lemma OutputIsBounded(output: string)
    ensures |Encode(TruncateOutput(output))| <= 1048576
    ensures |Encode(output)| <= 1048576 ==> TruncateOutput(output) == output
  {
    BoundedWith(output, MARKER);
  }

  lemma BoundedWith(output: string, marker: string)
    requires 4 * |marker| <= MAX_OUTPUT_BYTES
    ensures |Encode(Truncate(output, marker, MAX_OUTPUT_BYTES))| <= MAX_OUTPUT_BYTES
    ensures |Encode(output)| <= MAX_OUTPUT_BYTES ==> Truncate(output, marker, MAX_OUTPUT_BYTES) == output
  {
    EncodedSize(marker);
    TruncateMeaning(output, marker, MAX_OUTPUT_BYTES);
  }
}
