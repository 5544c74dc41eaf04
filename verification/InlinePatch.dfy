/** The inline patch engine: finding a block of lines, exactly or up to trailing white space, and replacing it. */
module InlinePatch {
  import opened Wrappers
  import opened Text

  type Lines = seq<string>

  /* ---------- searching ---------- */

  predicate MatchAt(content: Lines, target: Lines, i: int) {
    0 <= i <= |content| - |target| && content[i..i + |target|] == target
  }

  /** The matches that start before line `n`, in order. */
  function MatchesBefore(content: Lines, target: Lines, n: nat): seq<nat> {
    if n == 0 then []
    else MatchesBefore(content, target, n - 1) + if MatchAt(content, target, n - 1) then [n - 1] else []
  }

  function StartCount(content: Lines, target: Lines): nat {
    if |content| < |target| then 0 else |content| - |target| + 1
  }

  function ExactMatches(content: Lines, target: Lines): seq<nat> {
    if target == [] then [] else MatchesBefore(content, target, StartCount(content, target))
  }

  function RightStrip(l: string): string {
    TrimRight(IsSpace, l)
  }

  function Normalised(lines: Lines): (r: Lines)
    ensures |r| == |lines| && forall i :: 0 <= i < |lines| ==> r[i] == RightStrip(lines[i])
  {
    seq(|lines|, i requires 0 <= i < |lines| => RightStrip(lines[i]))
  }

  function NormalisedMatches(content: Lines, target: Lines): seq<nat> {
    MatchesBefore(Normalised(content), Normalised(target), StartCount(content, target))
  }

  /** The target agrees with the lines from line `i` on up to trailing white space. */
  ghost predicate AgreesAt(content: Lines, target: Lines, i: int) {
    0 <= i <= |content| - |target| && forall k :: 0 <= k < |target| ==>
      RightStrip(content[i + k]) == RightStrip(target[k])
  }

  ghost predicate Increasing(s: seq<nat>) {
    forall i, j :: 0 <= i < j < |s| ==> s[i] < s[j]
  }

  lemma IncreasingAppend(m: seq<nat>, n: nat)
    requires Increasing(m) && forall i: int :: i in m ==> i < n
    ensures Increasing(m + [n])
  {
    forall k | 0 <= k < |m| ensures m[k] < n { assert m[k] in m; }
  }

  lemma {:induction false} MatchesComplete(content: Lines, target: Lines, n: nat)
    ensures var m := MatchesBefore(content, target, n);
            Increasing(m) && forall i: int :: i in m <==> 0 <= i < n && MatchAt(content, target, i)
  {
    if n > 0 {
      MatchesComplete(content, target, n - 1);
      var m := MatchesBefore(content, target, n - 1);
      IncreasingAppend(m, n - 1);
      assert forall i: int :: i in m + [n - 1] <==> i in m || i == n - 1;
    }
  }

  /** The exact search finds, in increasing order, exactly the places where the lines equal a non-empty target; the
      fallback search finds exactly those where they agree up to trailing white space. Every exact match is one of the
      fallback's. */
  lemma SearchIsComplete(content: Lines, target: Lines)
    ensures Increasing(ExactMatches(content, target)) && Increasing(NormalisedMatches(content, target))
    ensures forall i: int :: i in ExactMatches(content, target) <==> target != [] && MatchAt(content, target, i)
    ensures forall i: int :: i in NormalisedMatches(content, target) <==> AgreesAt(content, target, i)
    ensures forall i :: i in ExactMatches(content, target) ==> i in NormalisedMatches(content, target)
  {
    var n := StartCount(content, target);
    MatchesComplete(content, target, n);
    MatchesComplete(Normalised(content), Normalised(target), n);
    forall i: int ensures MatchAt(Normalised(content), Normalised(target), i) <==> AgreesAt(content, target, i) {
      NormalisedMatchAt(content, target, i);
    }
    forall i: int | MatchAt(content, target, i) ensures MatchAt(Normalised(content), Normalised(target), i) {
      NormalisedMatchAt(content, target, i);
      forall k | 0 <= k < |target| ensures content[i + k] == target[k] {
        assert content[i..i + |target|][k] == target[k];
      }
    }
  }

  lemma NormalisedMatchAt(content: Lines, target: Lines, i: int)
    ensures MatchAt(Normalised(content), Normalised(target), i) <==> AgreesAt(content, target, i)
  {
    if 0 <= i <= |content| - |target| {
      var w := Normalised(content)[i..i + |target|];
      assert forall k :: 0 <= k < |target| ==> w[k] == RightStrip(content[i + k]);
    }
  }

  method FindBlockMatches(content: Lines, target: Lines) returns (matches: seq<nat>)
    ensures matches == ExactMatches(content, target)
  {
    if target == [] { return []; }
    matches := [];
    for i := 0 to StartCount(content, target)
      invariant matches == MatchesBefore(content, target, i)
    {
      if content[i..i + |target|] == target { matches := matches + [i]; }
    }
  }

  method FindNormalizedMatches(content: Lines, target: Lines) returns (matches: seq<nat>)
    ensures matches == NormalisedMatches(content, target)
  {
    var c, t := Normalised(content), Normalised(target);
    matches := [];
    for i := 0 to StartCount(content, target)
      invariant matches == MatchesBefore(c, t, i)
    {
      if c[i..i + |t|] == t { matches := matches + [i]; }
    }
  }

  /* ---------- rebuilding ---------- */

  /** s[i:j], which is empty when j is not beyond i. */
  function Slice<T>(s: seq<T>, i: nat, j: nat): seq<T>
    requires i <= |s| && j <= |s|
  {
    if i <= j then s[i..j] else []
  }

  ghost predicate InRange(original: Lines, matches: seq<nat>, size: nat) {
    forall i :: 0 <= i < |matches| ==> matches[i] + size <= |original|
  }

  function EndOf(matches: seq<nat>, size: nat, k: nat): nat
    requires k <= |matches|
  {
    if k == 0 then 0 else matches[k - 1] + size
  }

  /** The lines collected for the first `k` matches. */
  ghost function Collected(original: Lines, matches: seq<nat>, size: nat, replacement: Lines, k: nat): Lines
    requires k <= |matches| && InRange(original, matches, size)
  {
    if k == 0 then []
    else Collected(original, matches, size, replacement, k - 1)
         + Slice(original, EndOf(matches, size, k - 1), matches[k - 1]) + replacement
  }

  ghost function Rebuilt(original: Lines, matches: seq<nat>, size: nat, replacement: Lines): Lines
    requires InRange(original, matches, size)
  {
    Collected(original, matches, size, replacement, |matches|) + original[EndOf(matches, size, |matches|)..]
  }

  method Rebuild(original: Lines, matches: seq<nat>, size: nat, replacement: Lines) returns (newLines: Lines)
    requires InRange(original, matches, size)
    ensures newLines == Rebuilt(original, matches, size, replacement)
  {
    newLines := [];
    var lastEnd := 0;
    for k := 0 to |matches|
      invariant lastEnd == EndOf(matches, size, k) <= |original|
      invariant newLines == Collected(original, matches, size, replacement, k)
    {
      var start := matches[k];
      newLines := newLines + Slice(original, lastEnd, start);
      newLines := newLines + replacement;
      lastEnd := start + size;
    }
    newLines := newLines + original[lastEnd..];
  }

  /** The lines of `original` before line `e` with the first `k` blocks cut out and `blocks` put in their places. */
  ghost function Woven(original: Lines, matches: seq<nat>, size: nat, blocks: seq<Lines>, k: nat): Lines
    requires k <= |matches| && |blocks| == |matches| && InRange(original, matches, size)
  {
    if k == 0 then []
    else Woven(original, matches, size, blocks, k - 1) + Slice(original, EndOf(matches, size, k - 1), matches[k - 1])
         + blocks[k - 1]
  }

  /** The replacement, once for every match. */
  ghost function Copies(replacement: Lines, matches: seq<nat>): (c: seq<Lines>)
    ensures |c| == |matches| && forall block :: block in c ==> block == replacement
  {
    seq(|matches|, _ => replacement)
  }

  ghost predicate Apart(matches: seq<nat>, size: nat, k: nat)
    requires k <= |matches|
  {
    forall i {:trigger EndOf(matches, size, i)} :: 0 <= i < k ==> EndOf(matches, size, i) <= matches[i]
  }

  /** The blocks that the matches found. */
  ghost function Blocks(original: Lines, matches: seq<nat>, size: nat): (b: seq<Lines>)
    requires InRange(original, matches, size)
    ensures |b| == |matches| && forall i :: 0 <= i < |b| ==> b[i] == original[matches[i]..matches[i] + size]
  {
    seq(|matches|, i requires 0 <= i < |matches| => original[matches[i]..matches[i] + size])
  }

  lemma SlicesJoin(s: Lines, e: nat, m: nat, n: nat)
    requires e <= m <= n <= |s|
    ensures s[..e] + s[e..m] + s[m..n] == s[..n]
  {
  }

  ghost predicate WeavesBack(original: Lines, matches: seq<nat>, size: nat, k: nat)
    requires k <= |matches| && InRange(original, matches, size)
  {
    Woven(original, matches, size, Blocks(original, matches, size), k) == original[..EndOf(matches, size, k)]
  }

  lemma WeaveNone(original: Lines, matches: seq<nat>, size: nat)
    requires InRange(original, matches, size)
    ensures WeavesBack(original, matches, size, 0)
  {
    assert original[..0] == [];
  }

  lemma WeaveOne(original: Lines, matches: seq<nat>, size: nat, k: nat, e: nat, m: nat)
    requires 0 < k <= |matches| && InRange(original, matches, size) && WeavesBack(original, matches, size, k - 1)
    requires e == EndOf(matches, size, k - 1) && m == matches[k - 1] && e <= m
    ensures WeavesBack(original, matches, size, k)
  {
    var blocks := Blocks(original, matches, size);
    assert blocks[k - 1] == original[m..m + size];
    assert Woven(original, matches, size, blocks, k) == original[..e] + original[e..m] + original[m..m + size];
    SlicesJoin(original, e, m, m + size);
  }

  lemma {:induction false} WeavingOwnBlocks(original: Lines, matches: seq<nat>, size: nat, k: nat)
    requires k <= |matches| && InRange(original, matches, size) && Apart(matches, size, k)
    ensures WeavesBack(original, matches, size, k)
  {
    if k == 0 {
      WeaveNone(original, matches, size);
    } else {
      ApartStep(matches, size, k);
      WeavingOwnBlocks(original, matches, size, k - 1);
      WeaveOne(original, matches, size, k, EndOf(matches, size, k - 1), matches[k - 1]);
    }
  }

  lemma {:induction false} CollectedIsWoven(original: Lines, matches: seq<nat>, size: nat, replacement: Lines, k: nat)
    requires k <= |matches| && InRange(original, matches, size)
    ensures Collected(original, matches, size, replacement, k)
            == Woven(original, matches, size, Copies(replacement, matches), k)
  {
    if k > 0 { CollectedIsWoven(original, matches, size, replacement, k - 1); }
  }

  /** For matches at least one target length apart the loop replaces exactly the matched blocks: weaving the blocks
      themselves back between the kept lines gives the original, and weaving the replacement gives the result. */
  lemma RebuildReplacesBlocks(original: Lines, matches: seq<nat>, size: nat, replacement: Lines)
    requires InRange(original, matches, size) && Apart(matches, size, |matches|)
    ensures var rest := original[EndOf(matches, size, |matches|)..];
            && original == Woven(original, matches, size, Blocks(original, matches, size), |matches|) + rest
            && Rebuilt(original, matches, size, replacement)
               == Woven(original, matches, size, Copies(replacement, matches), |matches|) + rest
  {
    var n := |matches|;
    WeavingOwnBlocks(original, matches, size, n);
    CollectedIsWoven(original, matches, size, replacement, n);
    CutAt(original, EndOf(matches, size, n));
  }

  lemma CutAt(s: Lines, e: nat)
    requires e <= |s|
    ensures s == s[..e] + s[e..]
  {
  }

  lemma OneMore(k: nat, n: nat)
    requires k > 0
    ensures k * n == (k - 1) * n + n
  {
  }

  lemma ApartStep(matches: seq<nat>, size: nat, k: nat)
    requires 0 < k <= |matches|
    ensures Apart(matches, size, k) <==> Apart(matches, size, k - 1) && EndOf(matches, size, k - 1) <= matches[k - 1]
  {
  }

  lemma CollectedStep(original: Lines, matches: seq<nat>, size: nat, replacement: Lines, k: nat, e: nat, m: nat)
    requires 0 < k <= |matches| && InRange(original, matches, size) && e == EndOf(matches, size, k - 1)
             && m == matches[k - 1]
    ensures |Collected(original, matches, size, replacement, k)|
            == |Collected(original, matches, size, replacement, k - 1)| + (if e <= m then m - e else 0) + |replacement|
  {
  }

  /** How many lines too many the first `k` matches collect. */
  ghost function Surplus(original: Lines, matches: seq<nat>, size: nat, replacement: Lines, k: nat): int
    requires k <= |matches| && InRange(original, matches, size)
  {
    |Collected(original, matches, size, replacement, k)| + k * size - EndOf(matches, size, k) - k * |replacement|
  }

  lemma SurplusStep(original: Lines, matches: seq<nat>, size: nat, replacement: Lines, k: nat, e: nat, m: nat)
    requires 0 < k <= |matches| && InRange(original, matches, size) && e == EndOf(matches, size, k - 1)
             && m == matches[k - 1]
    ensures Surplus(original, matches, size, replacement, k)
            == Surplus(original, matches, size, replacement, k - 1) + if e <= m then 0 else e - m
  {
    OneMore(k, size);
    OneMore(k, |replacement|);
    CollectedStep(original, matches, size, replacement, k, e, m);
  }

  lemma {:induction false} SurplusIff(original: Lines, matches: seq<nat>, size: nat, replacement: Lines, k: nat)
    requires k <= |matches| && InRange(original, matches, size)
    ensures Surplus(original, matches, size, replacement, k) >= 0
    ensures Surplus(original, matches, size, replacement, k) == 0 <==> Apart(matches, size, k)
  {
    if k > 0 {
      SurplusIff(original, matches, size, replacement, k - 1);
      ApartStep(matches, size, k);
      SurplusStep(original, matches, size, replacement, k, EndOf(matches, size, k - 1), matches[k - 1]);
    }
  }

  /** The result has |original| + k (|replacement| - size) lines if and only if no two matches overlap. */
  lemma RebuildLengthIff(original: Lines, matches: seq<nat>, size: nat, replacement: Lines)
    requires InRange(original, matches, size)
    ensures |Rebuilt(original, matches, size, replacement)| == |original| + |matches| * |replacement| - |matches| * size
            <==> Apart(matches, size, |matches|)
  {
    SurplusIff(original, matches, size, replacement, |matches|);
  }

  /** Overlapping matches: two lines of three are replaced twice, and the result is a line too long. */
  lemma OverlapIsReplacedTwice()
    ensures var original := ["a\n", "a\n", "a\n"];
            ExactMatches(original, ["a\n", "a\n"]) == [0, 1] && Rebuilt(original, [0, 1], 2, ["b\n"]) == ["b\n", "b\n"]
  {
    var original := ["a\n", "a\n", "a\n"];
    var target := ["a\n", "a\n"];
    assert MatchAt(original, target, 0) && MatchAt(original, target, 1);
    assert MatchesBefore(original, target, 0) == [] && MatchesBefore(original, target, 1) == [0]
      && MatchesBefore(original, target, 2) == [0, 1];
    assert Collected(original, [0, 1], 2, ["b\n"], 1) == ["b\n"];
    assert Collected(original, [0, 1], 2, ["b\n"], 2) == ["b\n", "b\n"];
  }

  /* ---------- applying a patch ---------- */

  datatype PatchError = TargetNotFound | AmbiguousTarget(count: nat)

  datatype Patched = Patched(lines: Lines, matches: seq<nat>, fuzzy: bool)

  predicate EndsWithBreak(l: string) {
    l != "" && l[|l| - 1] in {'\n', '\r'}
  }

  predicate FirstEndsWithLineFeed(original: Lines) {
    original != [] && original[0] != "" && original[0][|original[0]| - 1] == '\n'
  }

  predicate LacksFinalBreak(block: Lines) {
    block != [] && !EndsWithBreak(block[|block| - 1])
  }

  /** The block's last line gets a line feed if it has no line break and the file's first line ends with a line feed. */
  function WithFinalBreak(block: Lines, original: Lines): Lines {
    if LacksFinalBreak(block) && FirstEndsWithLineFeed(original)
      then block[|block| - 1 := block[|block| - 1] + "\n"] else block
  }

  function Chosen(original: Lines, target: Lines): seq<nat> {
    if ExactMatches(original, target) != [] then ExactMatches(original, target) else NormalisedMatches(original, target)
  }

  lemma ChosenInRange(original: Lines, target: Lines)
    ensures InRange(original, Chosen(original, target), |target|)
  {
    SearchIsComplete(original, target);
    var m := Chosen(original, target);
    forall i | 0 <= i < |m| ensures m[i] + |target| <= |original| { assert m[i] in m; }
  }

  /** The patch of a file's text, without the syntax check, the diff and the write: both errors, or the new lines. */
  ghost function Patch(content: string, targetBlock: string, replacementBlock: string, allowMultiple: bool)
      : Result<Patched, PatchError> {
    var original := SplitLines(content);
    var target := WithFinalBreak(SplitLines(targetBlock), original);
    var replacement := WithFinalBreak(SplitLines(replacementBlock), original);
    PatchLines(original, target, replacement, allowMultiple)
  }

  ghost function PatchLines(original: Lines, target: Lines, replacement: Lines, allowMultiple: bool)
      : Result<Patched, PatchError> {
    var m := Chosen(original, target);
    ChosenInRange(original, target);
    if m == [] then Err(TargetNotFound)
    else if |m| > 1 && !allowMultiple then Err(AmbiguousTarget(|m|))
    else Ok(Patched(Rebuilt(original, m, |target|, replacement), m, ExactMatches(original, target) == []))
  }

  /** Reads the file with this text and patches it. */
  method ApplyInlinePatch(text: string, targetBlock: string, replacementBlock: string, allowMultiple: bool)
      returns (r: Result<Patched, PatchError>)
    ensures r == Patch(Translated(text), targetBlock, replacementBlock, allowMultiple)
  {
    var original := SplitLines(Translated(text));
    var target := WithFinalBreak(SplitLines(targetBlock), original);
    var replacement := WithFinalBreak(SplitLines(replacementBlock), original);
    ChosenInRange(original, target);
    var matches := FindBlockMatches(original, target);
    var fuzzy := false;
    if matches == [] {
      matches := FindNormalizedMatches(original, target);
      if matches != [] { fuzzy := true; }
    }
    if matches == [] { return Err(TargetNotFound); }
    if |matches| > 1 && !allowMultiple { return Err(AmbiguousTarget(|matches|)); }
    var newLines := Rebuild(original, matches, |target|, replacement);
    return Ok(Patched(newLines, matches, fuzzy));
  }

  /** A target is reported as not found exactly if no stretch of the file agrees with it up to trailing white space. */
  lemma NotFoundIff(original: Lines, target: Lines)
    ensures Chosen(original, target) == [] <==> forall i :: !AgreesAt(original, target, i)
  {
    SearchIsComplete(original, target);
    var m := Chosen(original, target);
    if m != [] { assert m[0] in m; }
  }

  /** An empty target is found before every line and at the end. */
  lemma EmptyTargetMatchesEverywhere(original: Lines)
    ensures forall i: int :: i in Chosen(original, []) <==> 0 <= i <= |original|
  {
    SearchIsComplete(original, []);
  }

  lemma LinesRestored(original: Lines, target: Lines, replacement: Lines, i: nat, j: nat)
    requires ExactMatches(original, target) == [i] && InRange(original, [i], |target|) && replacement != []
    requires var patched := Rebuilt(original, [i], |target|, replacement);
             ExactMatches(patched, replacement) == [j] && InRange(patched, [j], |replacement|)
    ensures Rebuilt(Rebuilt(original, [i], |target|, replacement), [j], |replacement|, target) == original
  {
    MatchedOnce(original, target, i);
    OneBlock(original, i, |target|, replacement);
    var patched := original[..i] + replacement + original[i + |target|..];
    MatchedOnce(patched, replacement, j);
    PartsOf(original[..i], replacement, original[i + |target|..]);
    assert MatchAt(patched, replacement, i);
    OneBlock(patched, i, |replacement|, target);
    SlicesJoin(original, i, i + |target|, |original|);
    assert original[..|original|] == original && original[i + |target|..|original|] == original[i + |target|..];
  }

  /** What a patch that is neither fuzzy nor ambiguous did. */
  lemma ExactPatch(content: string, targetBlock: string, replacementBlock: string)
    requires var r := Patch(content, targetBlock, replacementBlock, false); r.Ok? && !r.value.fuzzy
    ensures var p, original := Patch(content, targetBlock, replacementBlock, false).value, SplitLines(content);
            var target := WithFinalBreak(SplitLines(targetBlock), original);
            && |p.matches| == 1 && ExactMatches(original, target) == p.matches && InRange(original, p.matches, |target|)
            && p.lines == Rebuilt(original, p.matches, |target|, WithFinalBreak(SplitLines(replacementBlock), original))
  {
    ChosenInRange(SplitLines(content), WithFinalBreak(SplitLines(targetBlock), SplitLines(content)));
  }

  /** When one block of a file is replaced, the lines that are written are read back if and only if the replacement is
      made of whole lines without carriage returns, starts where the lines before it end, and ends where those after
      it start. */
  lemma ReplacedIsReadBackIff(text: string, i: nat, size: nat, replacement: Lines)
    requires i + size <= |SplitLines(Translated(text))| && replacement != []
    ensures InRange(SplitLines(Translated(text)), [i], size)
    ensures var original := SplitLines(Translated(text));
            var lines := Rebuilt(original, [i], size, replacement);
            SplitLines(Translated(Join(lines))) == lines <==>
            && WholeLines(replacement) && NoReturns(replacement)
            && Joins(original[..i], replacement) && Joins(replacement, original[i + size..])
  {
    var original := SplitLines(Translated(text));
    OneBlock(original, i, size, replacement);
    ReadBackIff(Rebuilt(original, [i], size, replacement));
    ReadLinesAreWhole(text);
    PartsAreWhole(original, i);
    PartsAreWhole(original, i + size);
    ThreeWhole(original[..i], replacement, original[i + size..]);
    ThreeWithoutReturns(original[..i], replacement, original[i + size..]);
  }

  lemma ReadLinesAreWhole(text: string)
    ensures WholeLines(SplitLines(Translated(text))) && NoReturns(SplitLines(Translated(text)))
  {
    var original := SplitLines(Translated(text));
    JoinSplitLines(Translated(text));
    SplitJoinIff(original);
    TranslatedHasNoReturn(text);
    JoinNoReturns(original);
  }

  lemma ThreeWithoutReturns(a: Lines, b: Lines, c: Lines)
    ensures NoReturns(a + b + c) <==> NoReturns(a) && NoReturns(b) && NoReturns(c)
  {
    assert a + b + c == a + (b + c);
    var s := a + b + c;
    if NoReturns(s) {
      forall i | 0 <= i < |a| ensures '\r' !in a[i] { assert s[i] == a[i]; }
      forall i | 0 <= i < |b| ensures '\r' !in b[i] { assert s[|a| + i] == b[i]; }
      forall i | 0 <= i < |c| ensures '\r' !in c[i] { assert s[|a| + |b| + i] == c[i]; }
    }
  }

  lemma PartsAreWhole(lines: Lines, i: nat)
    requires i <= |lines| && WholeLines(lines)
    ensures WholeLines(lines[..i]) && WholeLines(lines[i..])
  {
    CutAt(lines, i);
    WholeAppendIff(lines[..i], lines[i..]);
  }

  lemma ThreeWhole(a: Lines, b: Lines, c: Lines)
    requires WholeLines(a) && WholeLines(c) && b != []
    ensures WholeLines(a + b + c) <==> WholeLines(b) && Joins(a, b) && Joins(b, c)
  {
    WholeAppendIff(a + b, c);
    WholeAppendIff(a, b);
    assert (a + b)[|a + b| - 1] == b[|b| - 1];
  }

  /** The first lines of both texts end alike, or no block lacks a line break at its end. */
  predicate FilledAlike(original: Lines, patched: Lines, target: Lines, replacement: Lines) {
    || FirstEndsWithLineFeed(original) == FirstEndsWithLineFeed(patched)
    || (!LacksFinalBreak(target) && !LacksFinalBreak(replacement))
  }

  /** The patch finds its target at a single exact match. */
  ghost predicate PatchesExactly(content: string, targetBlock: string, replacementBlock: string) {
    var r := Patch(content, targetBlock, replacementBlock, false);
    r.Ok? && !r.value.fuzzy
  }

  /** Patching a file and patching the written result back with the two blocks exchanged, both times at a single exact
      match, restores what was read, provided the new lines are whole and contain no carriage return, and so are read
      back as they were written, and the blocks are completed alike. */
  lemma PatchBackRestores(text: string, targetBlock: string, replacementBlock: string)
    ensures var content := Translated(text);
            PatchesExactly(content, targetBlock, replacementBlock) ==>
              var lines := Patch(content, targetBlock, replacementBlock, false).value.lines;
              && WholeLines(lines) && NoReturns(lines)
              && FilledAlike(SplitLines(content), lines, SplitLines(targetBlock), SplitLines(replacementBlock))
              && PatchesExactly(Translated(Join(lines)), replacementBlock, targetBlock) ==>
                Join(Patch(Translated(Join(lines)), replacementBlock, targetBlock, false).value.lines) == content
  {
    var content := Translated(text);
    if PatchesExactly(content, targetBlock, replacementBlock) {
      var lines := Patch(content, targetBlock, replacementBlock, false).value.lines;
      if WholeLines(lines) && NoReturns(lines) && PatchesExactly(Translated(Join(lines)), replacementBlock, targetBlock)
        && FilledAlike(SplitLines(content), lines, SplitLines(targetBlock), SplitLines(replacementBlock))
      {
        BackToContent(content, targetBlock, replacementBlock, lines);
      }
    }
  }

  lemma BackToContent(content: string, targetBlock: string, replacementBlock: string, lines: Lines)
    requires PatchesExactly(content, targetBlock, replacementBlock)
    requires lines == Patch(content, targetBlock, replacementBlock, false).value.lines
    requires WholeLines(lines) && NoReturns(lines)
    requires PatchesExactly(Translated(Join(lines)), replacementBlock, targetBlock)
    requires FilledAlike(SplitLines(content), lines, SplitLines(targetBlock), SplitLines(replacementBlock))
    ensures Join(Patch(Translated(Join(lines)), replacementBlock, targetBlock, false).value.lines) == content
  {
    var original, read := SplitLines(content), Translated(Join(lines));
    var p := Patch(content, targetBlock, replacementBlock, false).value;
    var back := Patch(read, replacementBlock, targetBlock, false).value;
    ExactPatch(content, targetBlock, replacementBlock);
    ExactPatch(read, replacementBlock, targetBlock);
    ReadBackIff(lines);
    JoinSplitLines(content);
    var target := WithFinalBreak(SplitLines(targetBlock), original);
    var replacement := WithFinalBreak(SplitLines(replacementBlock), original);
    SameBlocks(original, lines, SplitLines(targetBlock), SplitLines(replacementBlock));
    SingleMatchesRestored(original, target, replacement, p.matches, back.matches);
  }

  lemma TwoLines(a: char, b: char)
    requires !IsLineBreak(a) && !IsLineBreak(b)
    ensures SplitLines([a, '\n', b, '\n']) == [[a, '\n'], [b, '\n']] && SplitLines([a, '\n']) == [[a, '\n']]
    ensures SplitLines([a, '\r', '\n']) == [[a, '\r', '\n']]
  {
    assert WholeLines([[b, '\n']])
      && WholeLines([[a, '\n'], [b, '\n']]) by { assert [[a, '\n'], [b, '\n']][1..] == [[b, '\n']]; }
    SplitJoinIff([[a, '\n'], [b, '\n']]);
    SplitJoinIff([[a, '\n']]);
    assert FirstLine([a, '\r', '\n']) == 3;
    SplitJoinIff([[a, '\r', '\n']]);
    assert Join([[a, '\n'], [b, '\n']]) == [a, '\n'] + Join([[b, '\n']]) == [a, '\n', b, '\n'];
    assert Join([[a, '\n']]) == [a, '\n'] && Join([[a, '\r', '\n']]) == [a, '\r', '\n'];
  }

  lemma MatchesInTwo(lines: Lines, block: Lines)
    requires |lines| == 2 && |block| == 1
    ensures MatchesBefore(lines, block, StartCount(lines, block))
            == (if lines[0] == block[0] then [0] else []) + (if lines[1] == block[0] then [1] else [])
  {
    assert lines[0..1] == [lines[0]] && lines[1..2] == [lines[1]] && block == [block[0]];
    assert MatchesBefore(lines, block, 0) == [];
    assert MatchesBefore(lines, block, 1) == if lines[0] == block[0] then [0] else [];
    assert StartCount(lines, block) == 2;
  }

  lemma PatchOfLines(content: string, targetBlock: string, replacementBlock: string, original: Lines, target: Lines,
      replacement: Lines)
    requires SplitLines(content) == original && SplitLines(targetBlock) == target
    requires SplitLines(replacementBlock) == replacement && !LacksFinalBreak(target) && !LacksFinalBreak(replacement)
    ensures Patch(content, targetBlock, replacementBlock, false) == PatchLines(original, target, replacement, false)
  {
  }

  /** The carriage return that a replacement brings in is gone when the file is read again: patching back fails as
      ambiguous. */
  lemma CarriageReturnIsNotRestored()
    ensures Patch(Translated("a\nb\n"), "a\n", "b\r\n", false) == Ok(Patched(["b\r\n", "b\n"], [0], false))
    ensures WholeLines(["b\r\n", "b\n"]) && Translated(Join(["b\r\n", "b\n"])) == "b\nb\n"
    ensures Patch("b\nb\n", "b\r\n", "a\n", false) == Err(AmbiguousTarget(2))
  {
    TwoLines('a', 'b');
    TwoLines('b', 'b');
    TranslatedKeeps("a\nb\n");
    PatchOfLines("a\nb\n", "a\n", "b\r\n", ["a\n", "b\n"], ["a\n"], ["b\r\n"]);
    FirstPatchOfExample();
    WrittenExample();
    PatchOfLines("b\nb\n", "b\r\n", "a\n", ["b\n", "b\n"], ["b\r\n"], ["a\n"]);
    SecondPatchOfExample();
  }

  lemma FirstPatchOfExample()
    ensures PatchLines(["a\n", "b\n"], ["a\n"], ["b\r\n"], false) == Ok(Patched(["b\r\n", "b\n"], [0], false))
  {
    var original, target := ["a\n", "b\n"], ["a\n"];
    MatchesInTwo(original, target);
    assert original[0] == target[0] && original[1] != target[0] by { assert "b\n"[0] != "a\n"[0]; }
    assert ExactMatches(original, target) == [0];
    OneBlock(original, 0, 1, ["b\r\n"]);
    assert original[..0] + ["b\r\n"] + original[1..] == ["b\r\n", "b\n"];
  }

  lemma WrittenExample()
    ensures WholeLines(["b\r\n", "b\n"]) && Translated(Join(["b\r\n", "b\n"])) == "b\nb\n"
  {
    assert ["b\r\n", "b\n"][1..] == ["b\n"] && WholeLines(["b\n"]);
    assert FirstLine("b\r\n") == 3 by { assert "b\r\n"[1..] == "\r\n"; }
    assert Join(["b\r\n", "b\n"]) == "b\r\n" + Join(["b\n"]) == "b\r\nb\n";
    assert "b\r\nb\n"[1..] == "\r\nb\n" && "\r\nb\n"[2..] == "b\n";
    TranslatedKeeps("b\n");
    assert Translated("\r\nb\n") == "\n" + "b\n";
  }

  lemma StrippedExample()
    ensures RightStrip("b\n") == "b" && RightStrip("b\r\n") == "b"
  {
    assert "b\n"[..1] == "b";
    assert "b\r\n"[..2] == "b\r" && "b\r"[..1] == "b";
    assert RightStrip("b\r\n") == RightStrip("b\r");
  }

  lemma ExampleHasNoExactMatch()
    ensures ExactMatches(["b\n", "b\n"], ["b\r\n"]) == []
  {
    var original, target := ["b\n", "b\n"], ["b\r\n"];
    MatchesInTwo(original, target);
    assert |original[0]| != |target[0]|;
  }

  lemma ExampleMatchesTwice()
    ensures NormalisedMatches(["b\n", "b\n"], ["b\r\n"]) == [0, 1]
  {
    var original, target := ["b\n", "b\n"], ["b\r\n"];
    StrippedExample();
    MatchesInTwo(Normalised(original), Normalised(target));
  }

  lemma SecondPatchOfExample()
    ensures PatchLines(["b\n", "b\n"], ["b\r\n"], ["a\n"], false) == Err(AmbiguousTarget(2))
  {
    ExampleHasNoExactMatch();
    ExampleMatchesTwice();
  }

  lemma SameBlocks(original: Lines, patched: Lines, target: Lines, replacement: Lines)
    requires FilledAlike(original, patched, target, replacement)
    ensures WithFinalBreak(target, patched) == WithFinalBreak(target, original)
    ensures WithFinalBreak(replacement, patched) == WithFinalBreak(replacement, original)
  {
  }

  lemma SingleMatchesRestored(original: Lines, target: Lines, replacement: Lines, m: seq<nat>, n: seq<nat>)
    requires |m| == |n| == 1 && ExactMatches(original, target) == m && InRange(original, m, |target|)
    requires var patched := Rebuilt(original, m, |target|, replacement);
             ExactMatches(patched, replacement) == n && InRange(patched, n, |replacement|)
    ensures Rebuilt(Rebuilt(original, m, |target|, replacement), n, |replacement|, target) == original
  {
    assert m == [m[0]] && n == [n[0]];
    MatchedOnce(Rebuilt(original, m, |target|, replacement), replacement, n[0]);
    LinesRestored(original, target, replacement, m[0], n[0]);
  }

  /** The only exact match of a block is where the block stands. */
  lemma MatchedOnce(content: Lines, target: Lines, i: nat)
    requires ExactMatches(content, target) == [i]
    ensures MatchAt(content, target, i) && target != []
    ensures forall m: int :: MatchAt(content, target, m) ==> m == i
  {
    SearchIsComplete(content, target);
    assert i in ExactMatches(content, target);
    forall m: int | MatchAt(content, target, m) ensures m == i { assert m in [i]; }
  }

  lemma PartsOf(a: Lines, b: Lines, c: Lines)
    ensures var s := a + b + c; s[..|a|] == a && s[|a|..|a| + |b|] == b && s[|a| + |b|..] == c
  {
  }

  lemma OneBlock(original: Lines, i: nat, size: nat, replacement: Lines)
    requires i + size <= |original|
    ensures InRange(original, [i], size)
    ensures Rebuilt(original, [i], size, replacement) == original[..i] + replacement + original[i + size..]
  {
    assert Collected(original, [i], size, replacement, 0) == [];
    assert Collected(original, [i], size, replacement, 1) == original[..i] + replacement;
  }
}
