/** What the loop detector answers at every place of every run, read off the calls and answers before it. */
module DetectorTrace {
  import opened CallDetectors

  /* ---------- what the calls and answers so far say ---------- */

  /** An earlier call of the tool halted it. */
  ghost predicate Disabled(calls: seq<Call>, answers: seq<Verdict>, tool: string)
    requires |calls| == |answers|
  {
    exists j :: 0 <= j < |calls| && calls[j].tool == tool && answers[j] in {SearchHalted, Halted}
  }

  /** An earlier call like this one was refused as a repetition. */
  ghost predicate Warned(calls: seq<Call>, answers: seq<Verdict>, s: Signature)
    requires |calls| == |answers|
  {
    exists j :: 0 <= j < |calls| && (calls[j].tool, calls[j].args) == s && answers[j] in {Repeated, Halted}
  }

  /** The number of calls of the tool that were not answered as disabled. */
  function Attempts(calls: seq<Call>, answers: seq<Verdict>, tool: string): nat
    requires |calls| == |answers|
  {
    var n := |calls|;
    if n == 0 then 0
    else Attempts(calls[..n - 1], answers[..n - 1], tool)
         + if calls[n - 1].tool == tool && answers[n - 1] != Suppressed then 1 else 0
  }

  /** The part of the admitted calls that a call is compared with: the last w of them, never more than fifty; a window
      of no call or fewer drops the first -w of the last fifty. */
  function Window(admitted: seq<Signature>, w: int): seq<Signature> {
    if w > 50 then LastOf(admitted, 50)
    else if w > 0 then LastOf(admitted, w)
    else
      var last := LastOf(admitted, 50);
      if |last| <= -w then [] else last[-w..]
  }

  ghost predicate Looping(w: int, calls: seq<Call>, answers: seq<Verdict>, s: Signature)
    requires |calls| == |answers|
  {
    Occurrences(Window(AdmittedCalls(calls, answers), w), s) >= 2
  }

  ghost predicate SearchedEnough(calls: seq<Call>, answers: seq<Verdict>, tool: string)
    requires |calls| == |answers|
  {
    tool == "session_search" && Attempts(calls, answers, tool) >= 3
  }

  /** The answer to a call after these calls and answers. */
  ghost predicate Answers(w: int, calls: seq<Call>, answers: seq<Verdict>, c: Call, v: Verdict)
    requires |calls| == |answers|
  {
    var s := (c.tool, c.args);
    var disabled, searched := Disabled(calls, answers, c.tool), SearchedEnough(calls, answers, c.tool);
    var looping, warned := Looping(w, calls, answers, s), Warned(calls, answers, s);
    && (v == Suppressed <==> disabled)
    && (v == SearchHalted <==> !disabled && searched)
    && (v == BroadScan <==> !disabled && !searched && c.broad)
    && (v == Admitted <==> !disabled && !searched && !c.broad && !looping)
    && (v == Repeated <==> !disabled && !searched && !c.broad && looping && !warned)
    && (v == Halted <==> !disabled && !searched && !c.broad && looping && warned)
  }

  /* ---------- the detector remembers them ---------- */

  ghost predicate SameDisabled(suppressed: set<string>, calls: seq<Call>, answers: seq<Verdict>)
    requires |calls| == |answers|
  {
    forall t :: t in suppressed <==> Disabled(calls, answers, t)
  }

  ghost predicate SameWarned(blocked: map<Signature, nat>, calls: seq<Call>, answers: seq<Verdict>)
    requires |calls| == |answers|
  {
    forall s :: CountOf(blocked, s) >= 1 <==> Warned(calls, answers, s)
  }

  ghost predicate SameAttempts(counts: map<string, nat>, calls: seq<Call>, answers: seq<Verdict>)
    requires |calls| == |answers|
  {
    forall t :: CountOf(counts, t) == Attempts(calls, answers, t)
  }

  ghost predicate Remembers(d: Detector, calls: seq<Call>, answers: seq<Verdict>)
    requires |calls| == |answers|
  {
    && SameDisabled(d.suppressed, calls, answers)
    && SameWarned(d.blocked, calls, answers)
    && SameAttempts(d.counts, calls, answers)
    && d.history == LastOf(AdmittedCalls(calls, answers), 50)
  }

  lemma RecentIsWindow(admitted: seq<Signature>, w: int)
    ensures Recent(LastOf(admitted, 50), w) == Window(admitted, w)
  {
  }

  lemma AnswerIsGiven(d: Detector, w: int, calls: seq<Call>, answers: seq<Verdict>, c: Call)
    requires |calls| == |answers| && Remembers(d, calls, answers)
    ensures Answers(w, calls, answers, c, Inspect(d, w, true, c).1)
  {
    RecentIsWindow(AdmittedCalls(calls, answers), w);
  }

  lemma NextDisabled(calls: seq<Call>, answers: seq<Verdict>, c: Call, v: Verdict, t: string)
    requires |calls| == |answers|
    ensures Disabled(calls + [c], answers + [v], t)
            <==> Disabled(calls, answers, t) || (c.tool == t && v in {SearchHalted, Halted})
  {
    var n := |calls|;
    assert (calls + [c])[n] == c && (answers + [v])[n] == v;
    if j :| 0 <= j < n && calls[j].tool == t && answers[j] in {SearchHalted, Halted} {
      assert (calls + [c])[j] == calls[j] && (answers + [v])[j] == answers[j];
    }
  }

  lemma NextWarned(calls: seq<Call>, answers: seq<Verdict>, c: Call, v: Verdict, s: Signature)
    requires |calls| == |answers|
    ensures Warned(calls + [c], answers + [v], s)
            <==> Warned(calls, answers, s) || ((c.tool, c.args) == s && v in {Repeated, Halted})
  {
    var n := |calls|;
    assert (calls + [c])[n] == c && (answers + [v])[n] == v;
    if j :| 0 <= j < n && (calls[j].tool, calls[j].args) == s && answers[j] in {Repeated, Halted} {
      assert (calls + [c])[j] == calls[j] && (answers + [v])[j] == answers[j];
    }
  }

  lemma NextAttempts(calls: seq<Call>, answers: seq<Verdict>, c: Call, v: Verdict, t: string)
    requires |calls| == |answers|
    ensures Attempts(calls + [c], answers + [v], t)
            == Attempts(calls, answers, t) + if c.tool == t && v != Suppressed then 1 else 0
  {
    assert (calls + [c])[..|calls|] == calls && (answers + [v])[..|calls|] == answers;
  }

  lemma AppendParts<T>(s: seq<T>, x: T)
    ensures s != [] ==> (s + [x])[0] == s[0] && (s + [x])[1..] == s[1..] + [x]
    ensures s == [] ==> s + [x] == [x] && [x][1..] == s
  {
  }

  lemma Regroup<T>(a: seq<T>, b: seq<T>, c: seq<T>)
    ensures a + (b + c) == a + b + c
  {
  }

  lemma {:induction false} NextAdmitted(calls: seq<Call>, answers: seq<Verdict>, c: Call, v: Verdict)
    requires |calls| == |answers|
    ensures AdmittedCalls(calls + [c], answers + [v])
            == AdmittedCalls(calls, answers) + if v == Admitted then [(c.tool, c.args)] else []
  {
    AppendParts(calls, c);
    AppendParts(answers, v);
    if calls != [] {
      NextAdmitted(calls[1..], answers[1..], c, v);
      Regroup(if answers[0] == Admitted then [(calls[0].tool, calls[0].args)] else [],
              AdmittedCalls(calls[1..], answers[1..]), if v == Admitted then [(c.tool, c.args)] else []);
    }
  }

  /** What one call changes in the detector, by its answer. */
  lemma Effect(d: Detector, w: int, c: Call)
    ensures var (d1, v) := Inspect(d, w, true, c);
            var s := (c.tool, c.args);
            && d1.suppressed == (if v in {SearchHalted, Halted} then d.suppressed + {c.tool} else d.suppressed)
            && d1.blocked
               == (if v in {Repeated, Halted} then d.blocked[s := CountOf(d.blocked, s) + 1] else d.blocked)
            && d1.counts == (if v != Suppressed then d.counts[c.tool := CountOf(d.counts, c.tool) + 1] else d.counts)
            && d1.history == (if v == Admitted then LastOf(d.history + [s], 50) else d.history)
  {
  }

  lemma StillDisabled(known: set<string>, calls: seq<Call>, answers: seq<Verdict>, c: Call, v: Verdict)
    requires |calls| == |answers| && SameDisabled(known, calls, answers)
    ensures SameDisabled(
              if v in {SearchHalted, Halted} then known + {c.tool} else known, calls + [c], answers + [v])
  {
    forall t ensures Disabled(calls + [c], answers + [v], t)
      <==> Disabled(calls, answers, t) || (c.tool == t && v in {SearchHalted, Halted})
    {
      NextDisabled(calls, answers, c, v, t);
    }
  }

  lemma StillWarned(known: map<Signature, nat>, calls: seq<Call>, answers: seq<Verdict>, c: Call, v: Verdict)
    requires |calls| == |answers| && SameWarned(known, calls, answers)
    ensures var s := (c.tool, c.args);
            var next := if v in {Repeated, Halted} then known[s := CountOf(known, s) + 1] else known;
            SameWarned(next, calls + [c], answers + [v])
  {
    forall s ensures Warned(calls + [c], answers + [v], s)
      <==> Warned(calls, answers, s) || ((c.tool, c.args) == s && v in {Repeated, Halted})
    {
      NextWarned(calls, answers, c, v, s);
    }
  }

  lemma StillAttempts(known: map<string, nat>, calls: seq<Call>, answers: seq<Verdict>, c: Call, v: Verdict)
    requires |calls| == |answers| && SameAttempts(known, calls, answers)
    ensures var next := if v != Suppressed then known[c.tool := CountOf(known, c.tool) + 1] else known;
            SameAttempts(next, calls + [c], answers + [v])
  {
    forall t ensures Attempts(calls + [c], answers + [v], t)
      == Attempts(calls, answers, t) + if c.tool == t && v != Suppressed then 1 else 0
    {
      NextAttempts(calls, answers, c, v, t);
    }
  }

  lemma LastAfterOneMore<T>(h: seq<T>, x: T)
    ensures LastOf(LastOf(h, 50) + [x], 50) == LastOf(h + [x], 50)
  {
  }

  lemma StillKept(history: seq<Signature>, calls: seq<Call>, answers: seq<Verdict>, c: Call, v: Verdict)
    requires |calls| == |answers| && history == LastOf(AdmittedCalls(calls, answers), 50)
    ensures var next := if v == Admitted then LastOf(history + [(c.tool, c.args)], 50) else history;
            next == LastOf(AdmittedCalls(calls + [c], answers + [v]), 50)
  {
    NextAdmitted(calls, answers, c, v);
    var admitted := AdmittedCalls(calls, answers);
    if v == Admitted { LastAfterOneMore(admitted, (c.tool, c.args)); } else { assert admitted + [] == admitted; }
  }

  lemma NextIsRemembered(d: Detector, w: int, calls: seq<Call>, answers: seq<Verdict>, c: Call)
    requires |calls| == |answers| && Remembers(d, calls, answers)
    ensures var (d1, v) := Inspect(d, w, true, c); Remembers(d1, calls + [c], answers + [v])
  {
    var v := Inspect(d, w, true, c).1;
    Effect(d, w, c);
    StillDisabled(d.suppressed, calls, answers, c, v);
    StillWarned(d.blocked, calls, answers, c, v);
    StillAttempts(d.counts, calls, answers, c, v);
    StillKept(d.history, calls, answers, c, v);
  }

  /* ---------- every place of every run ---------- */

  /** The first call of a run after a remembered past. */
  lemma FirstAnswer(d: Detector, w: int, calls: seq<Call>, answers: seq<Verdict>, next: seq<Call>)
    returns (d1: Detector, v: Verdict)
    requires |calls| == |answers| && Remembers(d, calls, answers) && next != []
    ensures Inspections(d, w, true, next).1 == [v] + Inspections(d1, w, true, next[1..]).1
    ensures Answers(w, calls, answers, next[0], v) && Remembers(d1, calls + [next[0]], answers + [v])
  {
    AnswerIsGiven(d, w, calls, answers, next[0]);
    NextIsRemembered(d, w, calls, answers, next[0]);
    d1, v := Inspect(d, w, true, next[0]).0, Inspect(d, w, true, next[0]).1;
  }

  /** The calls and answers before the given place of a run that follows a past. */
  ghost predicate AnswersAt(
    w: int, calls: seq<Call>, answers: seq<Verdict>, next: seq<Call>, vs: seq<Verdict>, i: nat)
    requires |calls| == |answers| && |next| == |vs| && i < |next|
  {
    Answers(w, calls + next[..i], answers + vs[..i], next[i], vs[i])
  }

  lemma LaterPlace(w: int, calls: seq<Call>, answers: seq<Verdict>, next: seq<Call>, vs: seq<Verdict>, i: nat)
    requires |calls| == |answers| && |next| == |vs| && i + 1 < |next|
    ensures AnswersAt(w, calls, answers, next, vs, i + 1)
         == AnswersAt(w, calls + [next[0]], answers + [vs[0]], next[1..], vs[1..], i)
  {
    assert calls + [next[0]] + next[1..][..i] == calls + next[..i + 1];
    assert answers + [vs[0]] + vs[1..][..i] == answers + vs[..i + 1];
  }

  lemma FirstPlace(w: int, calls: seq<Call>, answers: seq<Verdict>, next: seq<Call>, vs: seq<Verdict>)
    requires |calls| == |answers| && |next| == |vs| && next != []
    ensures AnswersAt(w, calls, answers, next, vs, 0) == Answers(w, calls, answers, next[0], vs[0])
  {
    assert calls + next[..0] == calls && answers + vs[..0] == answers;
  }

  /** After a remembered past, each call of a run is answered as the past and the run up to it say. */
  lemma {:induction false} AnswersFrom(
    d: Detector, w: int, calls: seq<Call>, answers: seq<Verdict>, next: seq<Call>, i: nat)
    requires |calls| == |answers| && Remembers(d, calls, answers) && i < |next|
    ensures var vs := Inspections(d, w, true, next).1;
            |vs| == |next| && AnswersAt(w, calls, answers, next, vs, i)
    decreases |next|
  {
    var d1, v := FirstAnswer(d, w, calls, answers, next);
    var rest := Inspections(d1, w, true, next[1..]).1;
    AnswerLength(d1, w, next[1..]);
    assert ([v] + rest)[1..] == rest;
    if i == 0 {
      FirstPlace(w, calls, answers, next, [v] + rest);
    } else {
      AnswersFrom(d1, w, calls + [next[0]], answers + [v], next[1..], i - 1);
      LaterPlace(w, calls, answers, next, [v] + rest, i - 1);
    }
  }

  lemma {:induction false} AnswerLength(d: Detector, w: int, calls: seq<Call>)
    ensures |Inspections(d, w, true, calls).1| == |calls|
    decreases |calls|
  {
    if calls != [] { AnswerLength(Inspect(d, w, true, calls[0]).0, w, calls[1..]); }
  }

  /** In every run of a new detector, whatever its window: a call is admitted if and only if its tool was not halted by
      an earlier call, it is not a session search after three others, it is no broad scan, and fewer than two of the
      admitted calls in the window are like it. Otherwise the first of these that fails decides the answer; of the
      calls refused as like others, the first of its kind gets a warning and the next halts its tool. */
  lemma EveryAnswer(w: int, calls: seq<Call>, i: nat)
    requires i < |calls|
    ensures var answers := Inspections(NEW_DETECTOR, w, true, calls).1;
            |answers| == |calls| && Answers(w, calls[..i], answers[..i], calls[i], answers[i])
  {
    AnswersFrom(NEW_DETECTOR, w, [], [], calls, i);
    var answers := Inspections(NEW_DETECTOR, w, true, calls).1;
    assert [] + calls[..i] == calls[..i] && [] + answers[..i] == answers[..i];
  }
}
