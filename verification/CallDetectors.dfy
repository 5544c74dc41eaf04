/** The detectors of repeated tool calls: the loop detector with its bounded history, and the duplicate-call detector
    with its bounded deque. Arguments are represented by their canonical text; whether a command is a broad scan is
    part of the call. */
module CallDetectors {

  type Signature = (string, string)

  datatype Call = Call(tool: string, args: string, broad: bool)

  /* ---------- the loop detector ---------- */

  const HISTORY_LIMIT: nat := 50

  datatype Detector = Detector(
    history: seq<Signature>, blocked: map<Signature, nat>, suppressed: set<string>, tripped: bool,
    counts: map<string, nat>)

  datatype Verdict = Admitted | Suppressed | SearchHalted | BroadScan | Repeated | Halted

  const NEW_DETECTOR := Detector([], map[], {}, false, map[])

  /** The slice history[-w:]. */
  function Recent(h: seq<Signature>, w: int): seq<Signature> {
    if w > 0 then (if |h| <= w then h else h[|h| - w..])
    else if -w <= |h| then h[-w..] else []
  }

  function Occurrences(h: seq<Signature>, s: Signature): nat {
    if h == [] then 0 else Occurrences(h[..|h| - 1], s) + if h[|h| - 1] == s then 1 else 0
  }

  function CountOf<K>(counts: map<K, nat>, k: K): nat {
    if k in counts then counts[k] else 0
  }

  /** The last `limit` entries. */
  function LastOf<T>(h: seq<T>, limit: nat): seq<T> {
    if |h| <= limit then h else h[|h| - limit..]
  }

  function Suppress(d: Detector, tool: string): Detector {
    d.(suppressed := d.suppressed + {tool}, tripped := true)
  }

  /** One inspected call; with `bounded` the history keeps only the last entries. */
  function Inspect(d: Detector, w: int, bounded: bool, c: Call): (Detector, Verdict) {
    if c.tool in d.suppressed then (d, Suppressed)
    else
      var d1 := d.(counts := d.counts[c.tool := CountOf(d.counts, c.tool) + 1]);
      if c.tool == "session_search" && d1.counts[c.tool] > 3 then (Suppress(d1, c.tool), SearchHalted)
      else if c.broad then (d1, BroadScan)
      else
        var s := (c.tool, c.args);
        if Occurrences(Recent(d.history, w), s) >= 2 then
          var blocks := CountOf(d.blocked, s) + 1;
          var d2 := d1.(blocked := d1.blocked[s := blocks]);
          if blocks >= 2 then (Suppress(d2, c.tool), Halted) else (d2, Repeated)
        else
          var h := d.history + [s];
          (d1.(history := if bounded then LastOf(h, HISTORY_LIMIT) else h), Admitted)
  }

  function Inspections(d: Detector, w: int, bounded: bool, calls: seq<Call>): (Detector, seq<Verdict>)
    decreases |calls|
  {
    if calls == [] then (d, [])
    else
      var (d1, v) := Inspect(d, w, bounded, calls[0]);
      var (d2, vs) := Inspections(d1, w, bounded, calls[1..]);
      (d2, [v] + vs)
  }

  /** The bounded detector remembers what the unbounded one does, up to the older part of the history. */
  ghost predicate Abstracts(d: Detector, u: Detector) {
    d == u.(history := LastOf(u.history, HISTORY_LIMIT))
  }

  lemma RecentOfLast(h: seq<Signature>, w: int)
    requires 1 <= w <= HISTORY_LIMIT
    ensures Recent(LastOf(h, HISTORY_LIMIT), w) == Recent(h, w)
  {
  }

  /** For a history window of 1 to 50 calls the bounded history gives every call of every run the same verdict as an
      unbounded log would. */
  lemma {:induction false} BoundIsUnobservable(d: Detector, u: Detector, w: int, calls: seq<Call>)
    requires 1 <= w <= HISTORY_LIMIT && Abstracts(d, u)
    ensures Inspections(d, w, true, calls).1 == Inspections(u, w, false, calls).1
    ensures Abstracts(Inspections(d, w, true, calls).0, Inspections(u, w, false, calls).0)
    decreases |calls|
  {
    if calls != [] {
      RecentOfLast(u.history, w);
      var s := (calls[0].tool, calls[0].args);
      assert LastOf(LastOf(u.history, HISTORY_LIMIT) + [s], HISTORY_LIMIT) == LastOf(u.history + [s], HISTORY_LIMIT);
      BoundIsUnobservable(Inspect(d, w, true, calls[0]).0, Inspect(u, w, false, calls[0]).0, w, calls[1..]);
    }
  }

  /** No stretch of at most w + 1 admitted calls holds a signature more than twice. */
  ghost predicate Spread(h: seq<Signature>, w: int) {
    forall i, j, s :: 0 <= i <= j <= |h| && j - i <= w + 1 ==> Occurrences(h[i..j], s) <= 2
  }

  lemma {:induction false} OccurrencesAppend(a: seq<Signature>, b: seq<Signature>, s: Signature)
    ensures Occurrences(a + b, s) == Occurrences(a, s) + Occurrences(b, s)
  {
    if b == [] {
      assert a + b == a;
    } else {
      assert (a + b)[..|a + b| - 1] == a + b[..|b| - 1];
      OccurrencesAppend(a, b[..|b| - 1], s);
    }
  }

  lemma TailWindow(h: seq<Signature>, w: int, s: Signature, i: nat, t: Signature)
    requires w >= 1 && Spread(h, w) && Occurrences(Recent(h, w), s) <= 1 && i <= |h| <= i + w
    ensures Occurrences(h[i..] + [s], t) <= 2
  {
    assert h[i..] == h[i..|h|];
    OccurrencesAppend(h[i..], [s], t);
    assert [s][..0] == [];
    assert Occurrences([s], t) == if s == t then 1 else 0;
    var r := Recent(h, w);
    var k := |r| - |h[i..]|;
    assert r == r[..k] + h[i..];
    OccurrencesAppend(r[..k], h[i..], s);
  }

  lemma AdmissionKeepsSpread(h: seq<Signature>, w: int, s: Signature)
    requires w >= 1 && Spread(h, w) && Occurrences(Recent(h, w), s) <= 1
    ensures Spread(h + [s], w)
  {
    var h' := h + [s];
    forall i, j, t | 0 <= i <= j <= |h'| && j - i <= w + 1 ensures Occurrences(h'[i..j], t) <= 2 {
      if j <= |h| {
        assert h'[i..j] == h[i..j];
      } else if i <= |h| {
        assert h'[i..j] == h[i..] + [s];
        TailWindow(h, w, s, i, t);
      } else {
        assert h'[i..j] == [];
      }
    }
  }

  lemma InspectKeepsSpread(u: Detector, w: int, c: Call)
    requires w >= 1 && Spread(u.history, w)
    ensures Spread(Inspect(u, w, false, c).0.history, w)
  {
    var s := (c.tool, c.args);
    if Occurrences(Recent(u.history, w), s) <= 1 { AdmissionKeepsSpread(u.history, w, s); }
  }

  /** In every run, any w + 1 consecutive admitted calls hold each signature at most twice. The unbounded log is the
      list of all admitted calls. */
  lemma {:induction false} AdmittedAreSpread(u: Detector, w: int, calls: seq<Call>)
    requires w >= 1 && Spread(u.history, w)
    ensures Spread(Inspections(u, w, false, calls).0.history, w)
    decreases |calls|
  {
    if calls != [] {
      InspectKeepsSpread(u, w, calls[0]);
      AdmittedAreSpread(Inspect(u, w, false, calls[0]).0, w, calls[1..]);
    }
  }

  /** The admitted calls, in order. */
  function AdmittedCalls(calls: seq<Call>, vs: seq<Verdict>): seq<Signature>
    requires |calls| == |vs|
  {
    if calls == [] then []
    else (if vs[0] == Admitted then [(calls[0].tool, calls[0].args)] else []) + AdmittedCalls(calls[1..], vs[1..])
  }

  lemma {:induction false} LogIsAdmittedCalls(u: Detector, w: int, calls: seq<Call>)
    ensures var (u1, vs) := Inspections(u, w, false, calls);
            |vs| == |calls| && u1.history == u.history + AdmittedCalls(calls, vs)
    decreases |calls|
  {
    if calls != [] {
      var (u1, v) := Inspect(u, w, false, calls[0]);
      LogIsAdmittedCalls(u1, w, calls[1..]);
      var rest := Inspections(u1, w, false, calls[1..]).1;
      assert ([v] + rest)[1..] == rest;
    }
  }

  /** For the detector as it is, with its bounded history: in every run from a new detector, any w + 1 consecutive
      admitted calls hold each signature at most twice. */
  lemma AdmittedCallsAreSpread(w: int, calls: seq<Call>)
    requires 1 <= w <= HISTORY_LIMIT
    ensures var vs := Inspections(NEW_DETECTOR, w, true, calls).1;
            |vs| == |calls| && Spread(AdmittedCalls(calls, vs), w)
  {
    BoundIsUnobservable(NEW_DETECTOR, NEW_DETECTOR, w, calls);
    LogIsAdmittedCalls(NEW_DETECTOR, w, calls);
    AdmittedAreSpread(NEW_DETECTOR, w, calls);
    var u := Inspections(NEW_DETECTOR, w, false, calls).0;
    assert u.history == AdmittedCalls(calls, Inspections(NEW_DETECTOR, w, false, calls).1);
  }

  /** A suppressed tool stays suppressed: none of its later calls is admitted. */
  lemma {:induction false} SuppressionIsFinal(d: Detector, w: int, calls: seq<Call>, tool: string, i: nat)
    requires tool in d.suppressed && i < |calls| && calls[i].tool == tool
    ensures var vs := Inspections(d, w, true, calls).1; i < |vs| && vs[i] == Suppressed
    decreases |calls|
  {
    if i > 0 { SuppressionIsFinal(Inspect(d, w, true, calls[0]).0, w, calls[1..], tool, i - 1); }
  }

  /** The breaker is tripped exactly when some tool is suppressed; the search tool is admitted at most three times; a
      blocked signature whose tool is not suppressed was blocked once. */
  ghost predicate DetectorSound(d: Detector) {
    && (d.tripped <==> d.suppressed != {})
    && ("session_search" !in d.suppressed ==> CountOf(d.counts, "session_search") <= 3)
    && (forall s :: s in d.blocked && s.0 !in d.suppressed ==> d.blocked[s] == 1)
  }

  lemma {:induction false} RunsStaySound(d: Detector, w: int, calls: seq<Call>)
    requires DetectorSound(d)
    ensures DetectorSound(Inspections(d, w, true, calls).0)
    decreases |calls|
  {
    if calls != [] {
      var d1 := Inspect(d, w, true, calls[0]).0;
      assert calls[0].tool !in d.suppressed && d1.suppressed != d.suppressed ==> calls[0].tool in d1.suppressed;
      RunsStaySound(d1, w, calls[1..]);
    }
  }

  class ToolLoopDetector {
    const historyWindow: int
    var callHistory: seq<Signature>
    var blockedCounts: map<Signature, nat>
    var suppressedTools: set<string>
    var hardTripped: bool
    var toolCallCounts: map<string, nat>

    constructor (historyWindow: int)
      ensures this.historyWindow == historyWindow && View() == NEW_DETECTOR
    {
      this.historyWindow := historyWindow;
      callHistory, blockedCounts, suppressedTools, hardTripped, toolCallCounts := [], map[], {}, false, map[];
    }

    function View(): Detector
      reads this
    {
      Detector(callHistory, blockedCounts, suppressedTools, hardTripped, toolCallCounts)
    }

    method InspectToolCall(c: Call) returns (v: Verdict)
      modifies this
      ensures (View(), v) == Inspect(old(View()), historyWindow, true, c)
    {
      if c.tool in suppressedTools { return Suppressed; }
      toolCallCounts := toolCallCounts[c.tool := CountOf(toolCallCounts, c.tool) + 1];
      if c.tool == "session_search" && toolCallCounts[c.tool] > 3 {
        suppressedTools := suppressedTools + {c.tool};
        hardTripped := true;
        return SearchHalted;
      }
      if c.broad { return BroadScan; }
      var signature := (c.tool, c.args);
      var recent := Recent(callHistory, historyWindow);
      var matches := 0;
      for i := 0 to |recent|
        invariant matches == Occurrences(recent[..i], signature)
      {
        assert recent[..i + 1][..i] == recent[..i];
        if recent[i] == signature { matches := matches + 1; }
      }
      assert recent[..|recent|] == recent;
      if matches >= 2 {
        blockedCounts := blockedCounts[signature := CountOf(blockedCounts, signature) + 1];
        if blockedCounts[signature] >= 2 {
          suppressedTools := suppressedTools + {c.tool};
          hardTripped := true;
          return Halted;
        }
        return Repeated;
      }
      callHistory := callHistory + [signature];
      if |callHistory| > HISTORY_LIMIT { callHistory := LastOf(callHistory, HISTORY_LIMIT); }
      return Admitted;
    }
  }

  /* ---------- the duplicate-call detector ---------- */

  datatype Group = Group(key: Signature, count: nat)

  /** One recorded call: the new deque, and whether the breaker trips. */
  function RecordCall(deque: seq<Group>, maxlen: nat, limit: int, key: Signature): (seq<Group>, bool) {
    if deque != [] && deque[|deque| - 1].key == key then
      var count := deque[|deque| - 1].count + 1;
      (deque[|deque| - 1 := Group(key, count)], count >= limit)
    else (LastOf(deque + [Group(key, 1)], maxlen), false)
  }

  /** The deque after a whole trace of calls, and whether the last call tripped the breaker. */
  function RecordAll(trace: seq<Signature>, maxlen: nat, limit: int): (seq<Group>, bool) {
    if trace == [] then ([], false)
    else RecordCall(RecordAll(trace[..|trace| - 1], maxlen, limit).0, maxlen, limit, trace[|trace| - 1])
  }

  /** The calls of a group. */
  function Repeat(key: Signature, n: nat): (r: seq<Signature>)
    ensures |r| == n && forall i :: 0 <= i < n ==> r[i] == key
  {
    seq(n, _ => key)
  }

  function Expand(g: seq<Group>): seq<Signature> {
    if g == [] then [] else Expand(g[..|g| - 1]) + Repeat(g[|g| - 1].key, g[|g| - 1].count)
  }

  /** A run-length encoding with non-empty groups and no two equal neighbours. */
  ghost predicate Canonical(g: seq<Group>) {
    && (forall i :: 0 <= i < |g| ==> g[i].count > 0)
    && (forall i, j :: 0 <= i && j == i + 1 && j < |g| ==> g[i].key != g[j].key)
  }

  /** How often the last call was made in a row. */
  function CurrentRun(trace: seq<Signature>): nat {
    if trace == [] then 0
    else if |trace| > 1 && trace[|trace| - 2] == trace[|trace| - 1] then 1 + CurrentRun(trace[..|trace| - 1])
    else 1
  }

  /** `g` is the canonical run-length encoding of the whole trace. */
  ghost predicate Encodes(g: seq<Group>, trace: seq<Signature>) {
    && Canonical(g) && Expand(g) == trace
    && (trace != [] ==> g != [] && g[|g| - 1] == Group(trace[|trace| - 1], CurrentRun(trace)))
  }

  lemma ExpandAppend(g: seq<Group>, x: Group)
    ensures Expand(g + [x]) == Expand(g) + Repeat(x.key, x.count)
  {
    assert (g + [x])[..|g|] == g;
  }

  /** The encoding of a trace after one more call. */
  function Extended(g: seq<Group>, key: Signature): seq<Group> {
    if g != [] && g[|g| - 1].key == key then g[..|g| - 1] + [Group(key, g[|g| - 1].count + 1)] else g + [Group(key, 1)]
  }

  lemma ExtendedIsCanonical(g: seq<Group>, key: Signature)
    requires Canonical(g)
    ensures Canonical(Extended(g, key))
  {
  }

  lemma ExpandExtended(g: seq<Group>, key: Signature)
    ensures Expand(Extended(g, key)) == Expand(g) + [key]
  {
    if g != [] && g[|g| - 1].key == key {
      var front, n := g[..|g| - 1], g[|g| - 1].count;
      ExpandAppend(front, Group(key, n + 1));
      OneMoreCopy(Expand(front), key, n);
    } else {
      ExpandAppend(g, Group(key, 1));
      assert Repeat(key, 1) == [key];
    }
  }

  /** How often the last call was made in a row after one more call. */
  lemma NextRun(before: seq<Signature>, key: Signature)
    ensures CurrentRun(before + [key])
            == if before != [] && before[|before| - 1] == key then 1 + CurrentRun(before) else 1
  {
    assert (before + [key])[..|before|] == before;
  }

  lemma EmptyEncoding(g: seq<Group>)
    requires Canonical(g)
    ensures g == [] <==> Expand(g) == []
  {
    assert g != [] ==> |Expand(g)| >= g[|g| - 1].count > 0;
  }

  lemma EncodesNext(g: seq<Group>, before: seq<Signature>, key: Signature)
    requires Encodes(g, before)
    ensures Encodes(Extended(g, key), before + [key])
    ensures g != [] <==> before != []
  {
    EmptyEncoding(g);
    ExtendedIsCanonical(g, key);
    ExpandExtended(g, key);
    NextRun(before, key);
  }

  lemma OneMoreCopy(s: seq<Signature>, key: Signature, n: nat)
    ensures s + Repeat(key, n + 1) == s + Repeat(key, n) + [key]
  {
  }

  function Encoding(trace: seq<Signature>): seq<Group> {
    if trace == [] then [] else Extended(Encoding(trace[..|trace| - 1]), trace[|trace| - 1])
  }

  lemma {:induction false} EncodingEncodes(trace: seq<Signature>)
    ensures Encodes(Encoding(trace), trace)
  {
    if trace == [] {
      assert Encoding(trace) == [] && Expand([]) == [];
    } else {
      var before, key := trace[..|trace| - 1], trace[|trace| - 1];
      EncodingEncodes(before);
      EncodesNext(Encoding(before), before, key);
      assert trace == before + [key];
    }
  }

  lemma RecordIsExtension(g: seq<Group>, maxlen: nat, limit: int, key: Signature)
    requires maxlen >= 1
    ensures RecordCall(LastOf(g, maxlen), maxlen, limit, key).0 == LastOf(Extended(g, key), maxlen)
    ensures RecordCall(LastOf(g, maxlen), maxlen, limit, key).1 <==>
            g != [] && g[|g| - 1].key == key && g[|g| - 1].count + 1 >= limit
  {
    var d := LastOf(g, maxlen);
    assert g != [] ==> d[|d| - 1] == g[|g| - 1];
  }

  lemma TripsWithRun(g: seq<Group>, before: seq<Signature>, key: Signature, limit: int)
    requires Encodes(g, before)
    ensures g != [] && g[|g| - 1].key == key && g[|g| - 1].count + 1 >= limit <==>
            CurrentRun(before + [key]) >= 2 && CurrentRun(before + [key]) >= limit
  {
    EmptyEncoding(g);
    NextRun(before, key);
  }

  lemma OneMoreRecord(before: seq<Signature>, key: Signature, maxlen: nat, limit: int)
    ensures RecordAll(before + [key], maxlen, limit)
            == RecordCall(RecordAll(before, maxlen, limit).0, maxlen, limit, key)
    ensures Encoding(before + [key]) == Extended(Encoding(before), key)
  {
    assert (before + [key])[..|before|] == before;
  }

  lemma {:induction false} DequeIsLastGroups(trace: seq<Signature>, maxlen: nat, limit: int)
    requires maxlen >= 1
    ensures RecordAll(trace, maxlen, limit).0 == LastOf(Encoding(trace), maxlen)
    decreases |trace|
  {
    if trace != [] {
      var before, key := trace[..|trace| - 1], trace[|trace| - 1];
      DequeIsLastGroups(before, maxlen, limit);
      RecordIsExtension(Encoding(before), maxlen, limit, key);
      assert trace == before + [key];
      OneMoreRecord(before, key, maxlen, limit);
    }
  }

  /** After every trace the deque holds the last `maxlen` groups of the trace's canonical run-length encoding, and the
      last call trips the breaker if and only if the current run is at least two calls and reaches the limit. */
  lemma DequeIsEncoding(trace: seq<Signature>, maxlen: nat, limit: int)
    requires maxlen >= 1
    ensures Encodes(Encoding(trace), trace) && RecordAll(trace, maxlen, limit).0 == LastOf(Encoding(trace), maxlen)
    ensures RecordAll(trace, maxlen, limit).1 <==> CurrentRun(trace) >= 2 && CurrentRun(trace) >= limit
  {
    EncodingEncodes(trace);
    DequeIsLastGroups(trace, maxlen, limit);
    if trace != [] {
      LastCallTrips(trace[..|trace| - 1], trace[|trace| - 1], maxlen, limit);
      assert trace == trace[..|trace| - 1] + [trace[|trace| - 1]];
    }
  }

  lemma LastCallTrips(before: seq<Signature>, key: Signature, maxlen: nat, limit: int)
    requires maxlen >= 1
    ensures RecordAll(before + [key], maxlen, limit).1 <==>
            CurrentRun(before + [key]) >= 2 && CurrentRun(before + [key]) >= limit
  {
    var g := Encoding(before);
    EncodingEncodes(before);
    DequeIsLastGroups(before, maxlen, limit);
    OneMoreRecord(before, key, maxlen, limit);
    RecordIsExtension(g, maxlen, limit, key);
    TripsWithRun(g, before, key, limit);
  }

  /** A detector without room for a group never trips. */
  lemma {:induction false} NoRoomNeverTrips(trace: seq<Signature>, limit: int)
    ensures RecordAll(trace, 0, limit) == ([], false)
    decreases |trace|
  {
    if trace != [] { NoRoomNeverTrips(trace[..|trace| - 1], limit); }
  }

  class ToolDuplicateCallDetector {
    const maxDuplicates: int
    const maxlen: nat
    var callHistory: seq<Group>

    constructor (maxDuplicates: int, maxlen: nat)
      ensures this.maxDuplicates == maxDuplicates && this.maxlen == maxlen && callHistory == []
    {
      this.maxDuplicates, this.maxlen, callHistory := maxDuplicates, maxlen, [];
    }

    /** `trace` are the calls recorded so far. */
    method RecordAndCheck(tool: string, params: string, ghost trace: seq<Signature>) returns (tripped: bool)
      requires callHistory == RecordAll(trace, maxlen, maxDuplicates).0
      modifies this
      ensures (callHistory, tripped) == RecordAll(trace + [(tool, params)], maxlen, maxDuplicates)
    {
      ghost var t := trace + [(tool, params)];
      assert t[..|t| - 1] == trace;
      if callHistory != [] && callHistory[|callHistory| - 1].key == (tool, params) {
        var count := callHistory[|callHistory| - 1].count + 1;
        callHistory := callHistory[|callHistory| - 1 := Group((tool, params), count)];
        if count >= maxDuplicates { return true; }
      } else {
        callHistory := LastOf(callHistory + [Group((tool, params), 1)], maxlen);
      }
      return false;
    }
  }
}
