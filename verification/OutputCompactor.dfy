/** Head and tail preserving compaction of tool output. */
module OutputCompactor {
  import opened Wrappers
  import opened Text

  /* ---------- banners ---------- */

  function ThreeDigits(n: nat): string
    requires n < 1000
  {
    [Digit(n / 100), Digit(n / 10 % 10), Digit(n % 10)]
  }

  /** A number with a comma between groups of three digits. */
  function Grouped(n: nat): string {
    if n < 1000 then Decimal(n) else Grouped(n / 1000) + "," + ThreeDigits(n % 1000)
  }

  function GroupedInt(n: int): string {
    if n < 0 then "-" + Grouped(-n) else Grouped(n)
  }

  function PlainInt(n: int): string {
    if n < 0 then "-" + Decimal(-n) else Decimal(n)
  }

  function SpoolHint(spooled: Option<string>): string {
    match spooled case None => "" case Some(l) => " (全量內容已安全落盤至: " + l + ")"
  }

  function CharBanner(omittedChars: int, spooled: Option<string>): string {
    "\n... [⚡ RUNTIME CONTROL: 單行/少行內容超限，已折疊 " + GroupedInt(omittedChars) + " 字元" + SpoolHint(spooled) + "] ...\n"
  }

  function LineBanner(omittedLines: int, omittedChars: int, spooled: Option<string>): string {
    "\n... [⚡ RUNTIME CONTROL: 已雙向保真折疊 " + PlainInt(omittedLines) + " 行 (" + GroupedInt(omittedChars)
      + " 字元) 以保護 KV Cache"
    + SpoolHint(spooled) + "] ...\n\n"
  }

  /* ---------- compaction ---------- */

  /** s[-k:] if k is positive, and otherwise nothing. */
  function Tail(s: string, k: nat): (t: string)
    ensures |t| == if k <= |s| then k else |s|
    ensures t == s[|s| - |t|..]
  {
    if k > 0 then Back(s, k) else ""
  }

  function Framed(head: string, banner: string, tail: string, max: nat): string {
    Front(head + banner + tail, max)
  }

  /** Few lines: a third of what the banner leaves goes to the head, the rest to the tail. */
  function FoldChars(content: string, max: nat, banner: string): string {
    if |banner| >= max then Front(content, max)
    else
      var rest := max - |banner|;
      var head := rest / 3;
      Framed(Front(content, head), banner, Tail(content, rest - head), max)
  }

  /** Many lines: the first and last lines, cut to 35% and 65% of the budget if they are too long. */
  function FoldLines(headText: string, tailText: string, max: nat, banner: string): string {
    var combined := headText + banner + tailText;
    if |combined| <= max then combined
    else if |banner| >= max then Front(combined, max)
    else
      var rest := max - |banner|;
      var head := rest * 35 / 100;
      Framed(Front(headText, head), banner, Tail(tailText, rest - head), max)
  }

  predicate FewLines(content: string, keepHead: int, keepTail: int) {
    |SplitLines(content)| <= keepHead + keepTail
  }

  function HeadText(content: string, keepHead: int): string {
    Join(Front(SplitLines(content), keepHead))
  }

  function TailText(content: string, keepTail: int): string {
    Join(Back(SplitLines(content), keepTail))
  }

  function OmittedLines(content: string, keepHead: int, keepTail: int): int {
    |SplitLines(content)| - (keepHead + keepTail)
  }

  function OmittedChars(content: string, keepHead: int, keepTail: int): int {
    |content| - (|HeadText(content, keepHead)| + |TailText(content, keepTail)|)
  }

  function Banner(content: string, max: nat, keepHead: int, keepTail: int, spooled: Option<string>): string {
    if FewLines(content, keepHead, keepTail) then CharBanner(|content| - max, spooled)
    else LineBanner(OmittedLines(content, keepHead, keepTail), OmittedChars(content, keepHead, keepTail), spooled)
  }

  /** The compacted text, and whether it was truncated. */
  function CompactWith(content: string, max: nat, keepHead: int, keepTail: int, banner: string): (string, bool) {
    if |content| <= max then (content, false)
    else if FewLines(content, keepHead, keepTail) then (FoldChars(content, max, banner), true)
    else (FoldLines(HeadText(content, keepHead), TailText(content, keepTail), max, banner), true)
  }

  /** Compaction with the banner of the case at hand. `spooled` names the spooled copy, if there is one. */
  function Compact(content: string, max: nat, keepHead: int, keepTail: int, spooled: Option<string>): (string, bool) {
    CompactWith(content, max, keepHead, keepTail, Banner(content, max, keepHead, keepTail, spooled))
  }

  /* ---------- properties ---------- */

  ghost predicate Suffix(q: string, s: string) {
    |q| <= |s| && q == s[|s| - |q|..]
  }

  /** A front piece and an end piece of `content` that do not overlap. */
  ghost predicate Pieces(content: string, p: string, q: string) {
    p <= content && Suffix(q, content) && |p| + |q| <= |content|
  }

  /** `text` is a piece of the front of `content`, the banner, and a piece of its end that does not overlap
      the first. */
  ghost predicate HeadAndTail(content: string, banner: string, text: string) {
    exists p, q :: Pieces(content, p, q) && text == p + banner + q
  }

  lemma FrontSize(s: string, k: nat)
    ensures |Front(s, k)| == (if k <= |s| then k else |s|) && Front(s, k) <= s
  {
  }

  lemma FramedFits(head: string, banner: string, tail: string, max: nat)
    requires |head| + |banner| + |tail| <= max
    ensures Framed(head, banner, tail, max) == head + banner + tail
  {
  }

  lemma SuffixOfSuffix(q: string, t: string, s: string)
    requires Suffix(q, t) && Suffix(t, s)
    ensures Suffix(q, s)
  {
  }

  lemma CutCharsShape(content: string, max: nat, banner: string, head: nat) returns (p: string, q: string)
    requires |content| > max && |banner| < max && head <= max - |banner|
    ensures |p| + |banner| + |q| == max && Pieces(content, p, q)
    ensures Framed(Front(content, head), banner, Tail(content, max - |banner| - head), max) == p + banner + q
  {
    p, q := Front(content, head), Tail(content, max - |banner| - head);
    FrontSize(content, head);
    FramedFits(p, banner, q, max);
  }

  lemma FoldCharsShape(content: string, max: nat, banner: string) returns (p: string, q: string)
    requires |content| > max > |banner|
    ensures |p| + |banner| + |q| == max && Pieces(content, p, q)
    ensures FoldChars(content, max, banner) == p + banner + q
  {
    p, q := CutCharsShape(content, max, banner, (max - |banner|) / 3);
  }

  lemma CutLinesShape(content: string, headText: string, tailText: string, max: nat, banner: string, head: nat)
      returns (p: string, q: string)
    requires |content| > max > |banner| && headText <= content && Suffix(tailText, content) && head <= max - |banner|
    ensures |p| + |banner| + |q| <= max && Pieces(content, p, q)
    ensures Framed(Front(headText, head), banner, Tail(tailText, max - |banner| - head), max) == p + banner + q
  {
    p, q := Front(headText, head), Tail(tailText, max - |banner| - head);
    FrontSize(headText, head);
    FramedFits(p, banner, q, max);
    SuffixOfSuffix(q, tailText, content);
  }

  lemma FoldLinesShape(content: string, headText: string, tailText: string, max: nat, banner: string)
      returns (p: string, q: string)
    requires |content| > max > |banner| && headText <= content && Suffix(tailText, content)
    ensures |p| + |banner| + |q| <= max && Pieces(content, p, q)
    ensures FoldLines(headText, tailText, max, banner) == p + banner + q
  {
    if |headText + banner + tailText| <= max {
      p, q := headText, tailText;
    } else {
      p, q := CutLinesShape(content, headText, tailText, max, banner, (max - |banner|) * 35 / 100);
    }
  }

  lemma WideBanner(content: string, headText: string, tailText: string, max: nat, banner: string)
    requires |banner| >= max && |content| >= max
    ensures |FoldChars(content, max, banner)| == max && |FoldLines(headText, tailText, max, banner)| <= max
  {
  }

  lemma FrontOfContent(content: string, keepHead: int)
    ensures HeadText(content, keepHead) <= content
  {
    var lines := SplitLines(content);
    var front := Front(lines, keepHead);
    JoinSplitLines(content);
    assert lines == front + lines[|front|..];
    JoinAppend(front, lines[|front|..]);
  }

  lemma BackOfContent(content: string, keepTail: int)
    ensures Suffix(TailText(content, keepTail), content)
  {
    var lines := SplitLines(content);
    var back := Back(lines, keepTail);
    JoinSplitLines(content);
    assert lines == lines[..|lines| - |back|] + back;
    JoinAppend(lines[..|lines| - |back|], back);
  }

  lemma CompactWithIsFaithful(content: string, max: nat, keepHead: int, keepTail: int, banner: string)
    ensures var (text, truncated) := CompactWith(content, max, keepHead, keepTail, banner);
            && |text| <= max
            && (truncated && FewLines(content, keepHead, keepTail) ==> |text| == max)
            && (truncated <==> |content| > max)
            && (!truncated ==> text == content)
            && (truncated && |banner| < max ==> HeadAndTail(content, banner, text))
  {
    if |content| > max > |banner| {
      if FewLines(content, keepHead, keepTail) {
        var p, q := FoldCharsShape(content, max, banner);
      } else {
        FrontOfContent(content, keepHead);
        BackOfContent(content, keepTail);
        var p, q := FoldLinesShape(content, HeadText(content, keepHead), TailText(content, keepTail), max, banner);
      }
    } else if |content| > max {
      WideBanner(content, HeadText(content, keepHead), TailText(content, keepTail), max, banner);
    }
  }

  /** For every content, budget and line counts the compacted text is at most `max` characters long, and exactly that
      long in the case of few lines; it is the content itself exactly if that fits; otherwise, when the banner fits, it
      is a front piece, the banner and an end piece, disjoint in the content. */
  lemma CompactIsFaithful(content: string, max: nat, keepHead: int, keepTail: int, spooled: Option<string>)
    ensures var (text, truncated) := Compact(content, max, keepHead, keepTail, spooled);
            var banner := Banner(content, max, keepHead, keepTail, spooled);
            && |text| <= max
            && (truncated && FewLines(content, keepHead, keepTail) ==> |text| == max)
            && (truncated <==> |content| > max)
            && (!truncated ==> text == content)
            && (truncated && |banner| < max ==> HeadAndTail(content, banner, text))
  {
    CompactWithIsFaithful(content, max, keepHead, keepTail, Banner(content, max, keepHead, keepTail, spooled));
  }

  lemma FoldLinesFits(headText: string, tailText: string, max: nat, banner: string)
    requires |headText| + |banner| + |tailText| <= max
    ensures FoldLines(headText, tailText, max, banner) == headText + banner + tailText
  {
  }

  lemma JoinThree(a: seq<string>, b: seq<string>, c: seq<string>)
    ensures Join(a + b + c) == Join(a) + Join(b) + Join(c)
  {
    JoinAppend(a + b, c);
    JoinAppend(a, b);
  }

  lemma CutInThree(s: seq<string>, i: nat, j: nat)
    requires i <= j <= |s|
    ensures s == s[..i] + s[i..j] + s[j..]
  {
  }

  /** The lines between the kept ones. */
  function Middle(content: string, keepHead: nat, keepTail: nat): seq<string>
    requires keepHead + keepTail <= |SplitLines(content)|
  {
    SplitLines(content)[keepHead..|SplitLines(content)| - keepTail]
  }

  /** The first `keepHead` lines, the lines between, and the last `keepTail` lines make up the content. */
  lemma ContentInThree(content: string, keepHead: nat, keepTail: nat)
    requires keepTail >= 1 && keepHead + keepTail <= |SplitLines(content)|
    ensures var lines := SplitLines(content);
            && HeadText(content, keepHead) == Join(lines[..keepHead])
            && TailText(content, keepTail) == Join(lines[|lines| - keepTail..])
            && content == HeadText(content, keepHead) + Join(Middle(content, keepHead, keepTail))
                 + TailText(content, keepTail)
  {
    var lines := SplitLines(content);
    JoinSplitLines(content);
    CutInThree(lines, keepHead, |lines| - keepTail);
    JoinThree(lines[..keepHead], lines[keepHead..|lines| - keepTail], lines[|lines| - keepTail..]);
    assert Front(lines, keepHead) == lines[..keepHead];
    assert Back(lines, keepTail) == lines[|lines| - keepTail..];
  }

  /** When the chosen lines and the banner fit, the text is exactly the kept lines around the banner. */
  lemma LinesAreExact(content: string, max: nat, keepHead: nat, keepTail: nat, banner: string)
    requires keepTail >= 1 && |content| > max && !FewLines(content, keepHead, keepTail)
    requires |HeadText(content, keepHead)| + |banner| + |TailText(content, keepTail)| <= max
    ensures var lines := SplitLines(content);
            CompactWith(content, max, keepHead, keepTail, banner).0
              == Join(lines[..keepHead]) + banner + Join(lines[|lines| - keepTail..])
  {
    ContentInThree(content, keepHead, keepTail);
    FoldLinesFits(HeadText(content, keepHead), TailText(content, keepTail), max, banner);
  }

  /** The numbers in the banner of the many-lines case are exactly those of the lines and characters between the
      kept lines. */
  lemma BannerReportsOmission(content: string, keepHead: nat, keepTail: nat)
    requires keepTail >= 1 && !FewLines(content, keepHead, keepTail)
    ensures var middle := Middle(content, keepHead, keepTail);
            OmittedLines(content, keepHead, keepTail) == |middle|
              && OmittedChars(content, keepHead, keepTail) == |Join(middle)|
  {
    ContentInThree(content, keepHead, keepTail);
  }

  /** What the pieces of a cut text are: `head` characters from the front and the others of `rest` from the end, or as
      many as there are. */
  ghost predicate Shares(front: string, back: string, p: string, q: string, head: int, rest: int) {
    && p <= front && |p| == (if head <= |front| then head else |front|)
    && Suffix(q, back) && |q| == (if rest - head <= |back| then rest - head else |back|)
  }

  lemma FoldCharsShares(content: string, max: nat, banner: string) returns (p: string, q: string, head: nat)
    requires |content| > max > |banner|
    ensures FoldChars(content, max, banner) == p + banner + q
    ensures 3 * head <= max - |banner| < 3 * head + 3 && Shares(content, content, p, q, head, max - |banner|)
  {
    head := (max - |banner|) / 3;
    p, q := Front(content, head), Tail(content, max - |banner| - head);
    FrontSize(content, head);
    FramedFits(p, banner, q, max);
  }

  lemma FoldLinesShares(headText: string, tailText: string, max: nat, banner: string)
    returns (p: string, q: string, head: nat)
    requires |headText| + |banner| + |tailText| > max > |banner|
    ensures FoldLines(headText, tailText, max, banner) == p + banner + q
    ensures 100 * head <= 35 * (max - |banner|) < 100 * head + 100
    ensures Shares(headText, tailText, p, q, head, max - |banner|)
  {
    head := (max - |banner|) * 35 / 100;
    p, q := Front(headText, head), Tail(tailText, max - |banner| - head);
    FrontSize(headText, head);
    FramedFits(p, banner, q, max);
  }

  /** Which characters are kept: of few lines, the front gets a third of what the banner leaves, rounded down, and the
      end the rest; of many lines that do not fit, the first lines get 35 in 100 and the last ones the rest. */
  lemma CutShares(content: string, max: nat, keepHead: int, keepTail: int, banner: string)
    returns (p: string, q: string, head: nat)
    requires |content| > max > |banner|
    requires |SplitLines(content)| > keepHead + keepTail ==>
               |HeadText(content, keepHead)| + |banner| + |TailText(content, keepTail)| > max
    ensures CompactWith(content, max, keepHead, keepTail, banner) == (p + banner + q, true)
    ensures var rest := max - |banner|;
            if |SplitLines(content)| <= keepHead + keepTail
              then 3 * head <= rest < 3 * head + 3 && Shares(content, content, p, q, head, rest)
            else
              && 100 * head <= 35 * rest < 100 * head + 100
              && Shares(HeadText(content, keepHead), TailText(content, keepTail), p, q, head, rest)
  {
    if FewLines(content, keepHead, keepTail) {
      p, q, head := FoldCharsShares(content, max, banner);
    } else {
      p, q, head := FoldLinesShares(HeadText(content, keepHead), TailText(content, keepTail), max, banner);
    }
  }

  /** When the banner alone takes the whole budget, it is not shown for few lines; of many lines the start of head,
      banner and tail is. */
  lemma NoRoomForBanner(content: string, max: nat, keepHead: int, keepTail: int, banner: string)
    requires |content| > max && |banner| >= max
    ensures var (text, truncated) := CompactWith(content, max, keepHead, keepTail, banner);
            && truncated
            && (|SplitLines(content)| <= keepHead + keepTail ==> text <= content && |text| == max)
            && (|SplitLines(content)| > keepHead + keepTail ==>
                 text <= HeadText(content, keepHead) + banner + TailText(content, keepTail) && |text| == max)
  {
  }

  /* ---------- what the banner says ---------- */

  /** The number that a numeral with commas stands for. */
  ghost function GroupedValue(s: string): int {
    if s == "" then 0
    else if s[|s| - 1] == ',' then GroupedValue(s[..|s| - 1])
    else 10 * GroupedValue(s[..|s| - 1]) + (s[|s| - 1] as int - '0' as int)
  }

  lemma {:induction false} WithoutCommas(s: string)
    requires forall i :: 0 <= i < |s| ==> IsDigit(s[i])
    ensures GroupedValue(s) == NumeralValue(s)
  {
    if s != "" { WithoutCommas(s[..|s| - 1]); }
  }

  lemma AppendDigit(s: string, d: nat)
    requires d < 10
    ensures GroupedValue(s + [Digit(d)]) == 10 * GroupedValue(s) + d
  {
    assert (s + [Digit(d)])[..|s|] == s;
  }

  lemma AppendGroup(s: string, n: nat)
    requires n < 1000
    ensures GroupedValue(s + "," + ThreeDigits(n)) == 1000 * GroupedValue(s) + n
  {
    var t := s + ",";
    assert t[..|s|] == s;
    AppendDigit(t, n / 100);
    AppendDigit(t + [Digit(n / 100)], n / 10 % 10);
    AppendDigit(t + [Digit(n / 100)] + [Digit(n / 10 % 10)], n % 10);
    assert t + ThreeDigits(n) == t + [Digit(n / 100)] + [Digit(n / 10 % 10)] + [Digit(n % 10)];
  }

  lemma ShortNumeral(n: nat)
    requires n < 1000
    ensures |Decimal(n)| <= 3 && GroupedValue(Decimal(n)) == n
  {
    DecimalValue(n);
    WithoutCommas(Decimal(n));
    assert n >= 10 ==> |Decimal(n)| == |Decimal(n / 10)| + 1;
    assert n >= 100 ==> |Decimal(n / 10)| == |Decimal(n / 100)| + 1;
  }

  /** A comma exactly at every fourth place from the end, and digits elsewhere. */
  ghost predicate CommasInPlace(s: string) {
    forall i :: 0 <= i < |s| ==> (s[i] == ',' <==> (|s| - i) % 4 == 0) && (s[i] != ',' ==> IsDigit(s[i]))
  }

  lemma AppendGroupInPlace(s: string, n: nat)
    requires n < 1000 && CommasInPlace(s)
    ensures CommasInPlace(s + "," + ThreeDigits(n))
  {
    var t := s + "," + ThreeDigits(n);
    forall i | 0 <= i < |t|
      ensures (t[i] == ',' <==> (|t| - i) % 4 == 0) && (t[i] != ',' ==> IsDigit(t[i]))
    {
      if i < |s| {
        assert t[i] == s[i] && (|t| - i) % 4 == (|s| - i) % 4;
      } else if i > |s| {
        assert t[i] == ThreeDigits(n)[i - |s| - 1];
      }
    }
  }

  /** The text of a number with commas is a numeral of that number, with its commas in place. */
  lemma {:induction false} GroupedReads(n: nat)
    ensures GroupedValue(Grouped(n)) == n && CommasInPlace(Grouped(n))
  {
    if n < 1000 {
      ShortNumeral(n);
    } else {
      GroupedReads(n / 1000);
      AppendGroup(Grouped(n / 1000), n % 1000);
      AppendGroupInPlace(Grouped(n / 1000), n % 1000);
    }
  }

  /** The banner of few lines names the characters above the budget; that of many lines names the lines and characters
      between the kept ones. */
  lemma BannerSays(content: string, max: nat, keepHead: nat, keepTail: nat, spooled: Option<string>)
    requires keepTail >= 1 && |content| > max
    ensures |SplitLines(content)| <= keepHead + keepTail ==>
              Banner(content, max, keepHead, keepTail, spooled)
              == "\n... [⚡ RUNTIME CONTROL: 單行/少行內容超限，已折疊 " + Grouped(|content| - max) + " 字元" + SpoolHint(spooled)
                + "] ...\n"
    ensures |SplitLines(content)| > keepHead + keepTail ==>
              var middle := Middle(content, keepHead, keepTail);
              Banner(content, max, keepHead, keepTail, spooled)
              == "\n... [⚡ RUNTIME CONTROL: 已雙向保真折疊 " + Decimal(|middle|) + " 行 (" + Grouped(|Join(middle)|)
                + " 字元) 以保護 KV Cache" + SpoolHint(spooled) + "] ...\n\n"
  {
    if |SplitLines(content)| > keepHead + keepTail { BannerReportsOmission(content, keepHead, keepTail); }
  }
}
