/** When a patch succeeds, which error it gets otherwise, and what its blocks are compared as. */
module PatchOutcome {
  import opened Wrappers
  import opened Text
  import opened InlinePatch

  /* ---------- the final line break ---------- */

  /** The first line of the text ends with a line feed. */
  ghost predicate LineFeedFirst(s: string) {
    exists k :: 0 <= k < |s| && LineFeedAt(s, k)
  }

  /** A line feed with no line break before it, except a carriage return right before it. */
  ghost predicate LineFeedAt(s: string, k: nat)
    requires k < |s|
  {
    s[k] == '\n' && forall j :: 0 <= j < k && IsLineBreak(s[j]) ==> j == k - 1 && s[j] == '\r'
  }

  lemma {:induction false} FirstLineEnd(s: string)
    requires s != ""
    ensures var k := FirstLine(s);
            && (forall j :: 0 <= j < k - 1 && IsLineBreak(s[j]) ==> j == k - 2 && s[j] == '\r' && s[k - 1] == '\n')
            && (k < |s| ==> IsLineBreak(s[k - 1]) && !(s[k - 1] == '\r' && s[k] == '\n'))
  {
    if |s| > 1 && !(s[0] == '\r' && s[1] == '\n') && !IsLineBreak(s[0]) {
      FirstLineEnd(s[1..]);
      var k := FirstLine(s);
      forall j | 0 <= j < k - 1 && IsLineBreak(s[j])
        ensures j == k - 2 && s[j] == '\r' && s[k - 1] == '\n'
      {
        assert s[j] == s[1..][j - 1];
      }
    }
  }

  lemma FirstEndsIff(content: string)
    ensures FirstEndsWithLineFeed(SplitLines(content)) <==> LineFeedFirst(content)
  {
    if content != "" {
      FirstLineEnd(content);
      var k := FirstLine(content);
      assert SplitLines(content)[0] == content[..k];
      if content[k - 1] == '\n' { assert LineFeedAt(content, k - 1); }
    }
  }

  /** The text of a block as it is searched for or inserted: with a line feed at its end if it has no line break there
      and the first line of the file ends with one. */
  ghost function FilledText(block: string, content: string): string {
    if block != "" && block[|block| - 1] !in {'\n', '\r'} && LineFeedFirst(content) then block + "\n" else block
  }

  lemma LastOfText(block: string)
    requires block != ""
    ensures var lines := SplitLines(block);
            && lines != [] && lines[|lines| - 1] != ""
            && block == Join(lines[..|lines| - 1]) + lines[|lines| - 1]
  {
    var lines := SplitLines(block);
    JoinSplitLines(block);
    LastOfJoin(lines);
  }

  lemma LastOfJoin(lines: seq<string>)
    requires lines != []
    ensures Join(lines) == Join(lines[..|lines| - 1]) + lines[|lines| - 1]
  {
    var front, last := lines[..|lines| - 1], lines[|lines| - 1];
    assert lines == front + [last];
    JoinAppend(front, [last]);
    assert [last][1..] == [] && Join([last]) == last + "";
  }

  /** A line feed at the end of the last line is one at the end of the text. */
  lemma LineFeedAtEnd(lines: seq<string>)
    requires lines != []
    ensures var n := |lines| - 1; Join(lines[n := lines[n] + "\n"]) == Join(lines) + "\n"
  {
    var n := |lines| - 1;
    LastOfJoin(lines);
    LastOfJoin(lines[n := lines[n] + "\n"]);
    assert lines[n := lines[n] + "\n"][..n] == lines[..n];
    Regroup(Join(lines[..n]), lines[n], "\n");
  }

  lemma Regroup(a: string, b: string, c: string)
    ensures a + (b + c) == a + b + c
  {
  }

  lemma LacksIff(block: string)
    ensures LacksFinalBreak(SplitLines(block)) <==> block != "" && block[|block| - 1] !in {'\n', '\r'}
  {
    if block != "" { LastOfText(block); }
  }

  /** The lines that are searched for or inserted are those of the block, with the last one as the text says. */
  lemma FilledIs(block: string, content: string)
    ensures var lines := SplitLines(block);
            var filled := WithFinalBreak(lines, SplitLines(content));
            && |filled| == |lines| && Join(filled) == FilledText(block, content)
            && forall i :: 0 <= i < |lines| - 1 ==> filled[i] == lines[i]
  {
    FirstEndsIff(content);
    JoinSplitLines(block);
    LacksIff(block);
    if LacksFinalBreak(SplitLines(block)) { LineFeedAtEnd(SplitLines(block)); }
  }

  /* ---------- success and errors ---------- */

  ghost predicate StandsExactly(original: Lines, target: Lines) {
    target != [] && exists i :: MatchAt(original, target, i)
  }

  /** Where the block stands: exactly if it does so anywhere, and up to trailing white space otherwise. */
  ghost function Places(original: Lines, target: Lines): iset<int> {
    if StandsExactly(original, target) then iset i: int | MatchAt(original, target, i)
    else iset i: int | AgreesAt(original, target, i)
  }

  ghost predicate AtMostOne(places: iset<int>) {
    forall i, j :: i in places && j in places ==> i == j
  }

  lemma ChosenArePlaces(original: Lines, target: Lines)
    ensures ExactMatches(original, target) != [] <==> StandsExactly(original, target)
    ensures Increasing(Chosen(original, target))
    ensures forall i: int :: i in Chosen(original, target) <==> i in Places(original, target)
  {
    SearchIsComplete(original, target);
    var m := ExactMatches(original, target);
    if m != [] { assert m[0] in m && MatchAt(original, target, m[0]); }
  }

  lemma AtMostOneIff(m: seq<nat>, places: iset<int>)
    requires Increasing(m) && forall i: int :: i in m <==> i in places
    ensures AtMostOne(places) <==> |m| <= 1
    ensures places == iset{} <==> m == []
  {
    if |m| > 1 {
      var i: int, j: int := m[0], m[1];
      assert i in m && j in m && i < j;
      assert i in places && j in places;
    }
    if m == [] {
      forall i ensures i !in places { assert i in m <==> i in places; }
    } else {
      var i: int := m[0];
      assert i in m && i in places;
    }
    forall i, j | |m| <= 1 && i in places && j in places ensures i == j { assert i in m && j in m; }
  }

  /** A patch succeeds if and only if its block stands somewhere, and only once unless more are allowed. It is reported
      as not found exactly if it stands nowhere, and as ambiguous otherwise; a patch that succeeds replaces all places
      where it stands, and says whether it had to ignore white space. */
  lemma Outcome(original: Lines, target: Lines, replacement: Lines, allowMultiple: bool)
    ensures var r := PatchLines(original, target, replacement, allowMultiple);
            var places := Places(original, target);
            && (r == Err(TargetNotFound) <==> places == iset{})
            && (r.Ok? <==> places != iset{} && (allowMultiple || AtMostOne(places)))
            && (r.Ok? ==>
                 && r.value.fuzzy == !StandsExactly(original, target) && Increasing(r.value.matches)
                 && (forall i: int :: i in r.value.matches <==> i in places))
  {
    ChosenArePlaces(original, target);
    AtMostOneIff(Chosen(original, target), Places(original, target));
  }
}
