/** The loop detector's history window: for which windows the bounded history cannot be told from an unbounded log. */
module DetectorWindow {
  import opened CallDetectors

  /** An ordinary call with these arguments. */
  function Plain(args: string): Call {
    Call("t", args, false)
  }

  function SignatureOf(c: Call): Signature {
    (c.tool, c.args)
  }

  function Signatures(calls: seq<Call>): (s: seq<Signature>)
    ensures |s| == |calls| && forall i :: 0 <= i < |s| ==> s[i] == SignatureOf(calls[i])
  {
    seq(|calls|, i requires 0 <= i < |calls| => SignatureOf(calls[i]))
  }

  /** Calls that no two of which are alike. */
  function Filler(k: nat): Call {
    Plain(seq(k + 2, _ => 'a'))
  }

  function Fillers(from: nat, n: nat): (calls: seq<Call>)
    ensures |calls| == n && forall i :: 0 <= i < n ==> calls[i] == Filler(from + i)
  {
    seq(n, i requires 0 <= i < n => Filler(from + i))
  }

  lemma FillersDiffer(j: nat, k: nat)
    ensures SignatureOf(Filler(j)) == SignatureOf(Filler(k)) <==> j == k
    ensures SignatureOf(Filler(k)) != SignatureOf(Plain("x"))
  {
    assert |Filler(j).args| == j + 2 && |Filler(k).args| == k + 2 && |"x"| == 1;
  }

  /** `v` fillers, two equal calls, and 49 more fillers. */
  function Probe(v: nat): seq<Call> {
    Fillers(0, v) + [Plain("x"), Plain("x")] + Fillers(v, 49)
  }

  /* ---------- counting ---------- */

  lemma {:induction false} NoneOf(h: seq<Signature>, s: Signature)
    requires forall i :: 0 <= i < |h| ==> h[i] != s
    ensures Occurrences(h, s) == 0
  {
    if h != [] { NoneOf(h[..|h| - 1], s); }
  }

  lemma PartHasFewer(a: seq<Signature>, b: seq<Signature>, c: seq<Signature>, s: Signature)
    ensures Occurrences(b, s) <= Occurrences(a + b + c, s)
  {
    OccurrencesAppend(a + b, c, s);
    OccurrencesAppend(a, b, s);
  }

  lemma RecentHasFewer(h: seq<Signature>, w: int, s: Signature)
    ensures Occurrences(Recent(h, w), s) <= Occurrences(h, s)
  {
    var r := Recent(h, w);
    if r == [] {
    } else {
      var front := h[..|h| - |r|];
      assert h == front + r + [];
      PartHasFewer(front, r, [], s);
    }
  }

  lemma LastHasFewer(h: seq<Signature>, limit: nat, s: Signature)
    ensures Occurrences(LastOf(h, limit), s) <= Occurrences(h, s)
  {
    var r := LastOf(h, limit);
    assert h == h[..|h| - |r|] + r + [];
    PartHasFewer(h[..|h| - |r|], r, [], s);
  }

  /* ---------- the probe is admitted ---------- */

  /** The history that a detector keeps of these calls. */
  function Kept(h: seq<Signature>, bounded: bool): seq<Signature> {
    if bounded then LastOf(h, HISTORY_LIMIT) else h
  }

  ghost predicate Fresh(d: Detector, h: seq<Signature>, bounded: bool) {
    d.suppressed == {} && d.history == Kept(h, bounded)
  }

  lemma OneAdmitted(d: Detector, w: int, bounded: bool, h: seq<Signature>, c: Call)
    requires Fresh(d, h, bounded) && c.tool == "t" && !c.broad && Occurrences(h, SignatureOf(c)) <= 1
    ensures var (d1, v) := Inspect(d, w, bounded, c);
            v == Admitted && Fresh(d1, h + [SignatureOf(c)], bounded)
  {
    var s := SignatureOf(c);
    RecentHasFewer(d.history, w, s);
    if bounded {
      LastHasFewer(h, HISTORY_LIMIT, s);
      assert LastOf(LastOf(h, HISTORY_LIMIT) + [s], HISTORY_LIMIT) == LastOf(h + [s], HISTORY_LIMIT);
    }
  }

  /** Ordinary calls, each of which was made at most once before. */
  predicate Sparse(h: seq<Signature>, calls: seq<Call>)
    decreases |calls|
  {
    calls == [] ||
    (&& calls[0].tool == "t" && !calls[0].broad && Occurrences(h, SignatureOf(calls[0])) <= 1
     && Sparse(h + [SignatureOf(calls[0])], calls[1..]))
  }

  /** They are all admitted. */
  lemma {:induction false} AllAdmitted(d: Detector, w: int, bounded: bool, h: seq<Signature>, calls: seq<Call>)
    requires Fresh(d, h, bounded) && Sparse(h, calls)
    ensures var (d1, vs) := Inspections(d, w, bounded, calls);
            && |vs| == |calls| && (forall i :: 0 <= i < |vs| ==> vs[i] == Admitted)
            && Fresh(d1, h + Signatures(calls), bounded)
    decreases |calls|
  {
    if calls == [] {
      assert h + [] == h;
    } else {
      var s, rest := SignatureOf(calls[0]), calls[1..];
      OneAdmitted(d, w, bounded, h, calls[0]);
      AllAdmitted(Inspect(d, w, bounded, calls[0]).0, w, bounded, h + [s], rest);
      SignaturesOfRest(h, calls);
    }
  }

  lemma SignaturesOfRest(h: seq<Signature>, calls: seq<Call>)
    requires calls != []
    ensures h + [SignatureOf(calls[0])] + Signatures(calls[1..]) == h + Signatures(calls)
  {
    assert Signatures(calls) == [SignatureOf(calls[0])] + Signatures(calls[1..]);
  }

  /** The call at this place was made at most once before. */
  predicate SparseAt(h: seq<Signature>, calls: seq<Call>, i: nat)
    requires i < |calls|
  {
    calls[i].tool == "t" && !calls[i].broad && Occurrences(h + Signatures(calls)[..i], SignatureOf(calls[i])) <= 1
  }

  lemma SparseAtRest(h: seq<Signature>, calls: seq<Call>, i: nat)
    requires i + 1 < |calls| && SparseAt(h, calls, i + 1)
    ensures SparseAt(h + [SignatureOf(calls[0])], calls[1..], i)
  {
    var s, rest := SignatureOf(calls[0]), calls[1..];
    assert h + [s] + Signatures(rest)[..i] == h + Signatures(calls)[..i + 1];
  }

  lemma {:induction false} SparseIfEach(h: seq<Signature>, calls: seq<Call>)
    requires forall i :: 0 <= i < |calls| ==> SparseAt(h, calls, i)
    ensures Sparse(h, calls)
    decreases |calls|
  {
    if calls != [] {
      assert SparseAt(h, calls, 0) && h + Signatures(calls)[..0] == h;
      forall i | 0 <= i < |calls[1..]| ensures SparseAt(h + [SignatureOf(calls[0])], calls[1..], i) {
        SparseAtRest(h, calls, i);
      }
      SparseIfEach(h + [SignatureOf(calls[0])], calls[1..]);
    }
  }

  lemma {:induction false} OneMoreCall(d: Detector, w: int, bounded: bool, calls: seq<Call>, c: Call)
    ensures var (d1, vs) := Inspections(d, w, bounded, calls);
            |vs| == |calls| && Inspections(d, w, bounded, calls + [c]).1 == vs + [Inspect(d1, w, bounded, c).1]
    decreases |calls|
  {
    if calls == [] {
      assert calls + [c] == [c] && [c][1..] == [];
    } else {
      assert (calls + [c])[1..] == calls[1..] + [c];
      OneMoreCall(Inspect(d, w, bounded, calls[0]).0, w, bounded, calls[1..], c);
    }
  }

  lemma ProbeBefore(v: nat, i: nat)
    requires i < |Probe(v)|
    ensures Occurrences(Signatures(Probe(v))[..i], SignatureOf(Probe(v)[i])) <= 1
  {
    var t, x := Signatures(Probe(v)), SignatureOf(Plain("x"));
    if i == v + 1 {
      assert t[..i] == t[..v] + [x];
      OccurrencesAppend(t[..v], [x], x);
      assert [x][..0] == [];
      forall j | 0 <= j < v ensures t[..v][j] != x { FillersDiffer(j, j); }
      NoneOf(t[..v], x);
    } else {
      forall j | 0 <= j < i ensures t[..i][j] != t[i] {
        FillersDiffer(Number(v, j), Number(v, i));
        assert t[j] == if v <= j < v + 2 then x else SignatureOf(Filler(Number(v, j)));
        assert t[i] == if v <= i < v + 2 then x else SignatureOf(Filler(Number(v, i)));
      }
      NoneOf(t[..i], t[i]);
    }
  }

  /** The number of the filler at this place. */
  function Number(v: nat, i: nat): nat {
    if i < v + 2 then i else i - 2
  }

  lemma ProbePlace(v: nat, i: nat)
    requires i < |Probe(v)|
    ensures SparseAt([], Probe(v), i)
  {
    ProbeBefore(v, i);
    assert [] + Signatures(Probe(v))[..i] == Signatures(Probe(v))[..i];
    assert Probe(v)[i] == if v <= i < v + 2 then Plain("x") else Filler(Number(v, i));
  }

  lemma ProbeIsSparse(v: nat)
    ensures Sparse([], Probe(v))
  {
    forall i | 0 <= i < |Probe(v)| ensures SparseAt([], Probe(v), i) { ProbePlace(v, i); }
    SparseIfEach([], Probe(v));
  }

  lemma ProbeIsAdmitted(v: nat, w: int, bounded: bool)
    ensures var (d, vs) := Inspections(NEW_DETECTOR, w, bounded, Probe(v));
            |vs| == |Probe(v)| && Fresh(d, Signatures(Probe(v)), bounded)
  {
    ProbeIsSparse(v);
    AllAdmitted(NEW_DETECTOR, w, bounded, [], Probe(v));
    assert [] + Signatures(Probe(v)) == Signatures(Probe(v));
  }

  /* ---------- the call that tells the two apart ---------- */

  lemma OccursOnce(x: Signature)
    ensures Occurrences([x], x) == 1
  {
    assert [x][..0] == [];
  }

  lemma TailOfProbe(v: nat)
    ensures var (t, x) := (Signatures(Probe(v)), SignatureOf(Plain("x")));
            && |t| == v + 51 && Occurrences(t[v..], x) == 2 && Occurrences(t[v + 1..], x) == 1
  {
    var t, x := Signatures(Probe(v)), SignatureOf(Plain("x"));
    var rest := t[v + 2..];
    forall j | 0 <= j < |rest| ensures rest[j] != x { FillersDiffer(v + j, v + j); }
    NoneOf(rest, x);
    assert t[v + 1..] == [x] + rest && t[v..] == [x] + t[v + 1..];
    OccursOnce(x);
    OccurrencesAppend([x], rest, x);
    OccurrencesAppend([x], t[v + 1..], x);
  }

  /** With a window of no call or fewer, or of more than fifty, one more equal call is admitted by the detector as it
      is, and not by one with an unbounded log. */
  lemma LastCallDiffers(w: int, v: nat, d: Detector, u: Detector)
    requires (w > HISTORY_LIMIT && v == 0) || (w <= 0 && v == -w)
    requires Fresh(d, Signatures(Probe(v)), true) && Fresh(u, Signatures(Probe(v)), false)
    ensures Inspect(d, w, true, Plain("x")).1 == Admitted && Inspect(u, w, false, Plain("x")).1 != Admitted
  {
    var t, x := Signatures(Probe(v)), SignatureOf(Plain("x"));
    TailOfProbe(v);
    assert LastOf(t, HISTORY_LIMIT) == t[v + 1..];
    RecentHasFewer(d.history, w, x);
    assert Recent(t, w) == t[v..];
  }

  /** A run that tells the two apart. */
  lemma OutsideDiffers(w: int) returns (calls: seq<Call>)
    requires w <= 0 || w > HISTORY_LIMIT
    ensures Inspections(NEW_DETECTOR, w, true, calls).1 != Inspections(NEW_DETECTOR, w, false, calls).1
  {
    var v := if w > 0 then 0 else -w;
    var c := Plain("x");
    ProbeIsAdmitted(v, w, true);
    ProbeIsAdmitted(v, w, false);
    var (d, ds) := Inspections(NEW_DETECTOR, w, true, Probe(v));
    var (u, us) := Inspections(NEW_DETECTOR, w, false, Probe(v));
    LastCallDiffers(w, v, d, u);
    OneMoreCall(NEW_DETECTOR, w, true, Probe(v), c);
    OneMoreCall(NEW_DETECTOR, w, false, Probe(v), c);
    calls := Probe(v) + [c];
    LastVerdictsDiffer(ds, us, Inspect(d, w, true, c).1, Inspect(u, w, false, c).1);
  }

  lemma LastVerdictsDiffer(ds: seq<Verdict>, us: seq<Verdict>, a: Verdict, b: Verdict)
    requires |ds| == |us| && a != b
    ensures ds + [a] != us + [b]
  {
    assert (ds + [a])[|ds|] == a && (us + [b])[|ds|] == b;
  }

  predicate SameVerdicts(w: int, calls: seq<Call>) {
    Inspections(NEW_DETECTOR, w, true, calls).1 == Inspections(NEW_DETECTOR, w, false, calls).1
  }

  /** The bounded history gives every call of every run the verdict that an unbounded log would if and only if the
      window is between 1 and 50 calls. */
  lemma WindowIff(w: int)
    ensures (forall calls :: SameVerdicts(w, calls)) <==> 1 <= w <= HISTORY_LIMIT
  {
    if 1 <= w <= HISTORY_LIMIT {
      forall calls ensures SameVerdicts(w, calls) { BoundIsUnobservable(NEW_DETECTOR, NEW_DETECTOR, w, calls); }
    } else {
      var calls := OutsideDiffers(w);
      assert !SameVerdicts(w, calls);
    }
  }
}
