/** How often one signed approval is worth a grant: the signature does not cover blanks around the nonce, the ledger
    does, and an expired nonce may have been forgotten. */
module ApprovalReplay {
  import opened Wrappers
  import opened Text
  import opened CanonicalJson
  import opened AuthorityModels
  import opened AuthorityBroker
  import opened BrokerRuns

  /* ---------- one signature, one grant ---------- */

  /** The earliest end of validity that rounds to the signed one. */
  function SignedEnd(p: Approval): real {
    (Ticks(p.validUntil) as real - 0.5) / 10000.0
  }

  lemma SignedEndIsEarly(p: Approval)
    ensures SignedEnd(p) <= p.validUntil
  {
  }

  /** Every approval-backed grant consumed its approval before the end that was signed. */
  ghost predicate BeforeSignedEnd(s: System) {
    forall i :: 0 <= i < |s.issued| ==> EarlyEnough(s, s.issued[i].job)
  }

  ghost predicate EarlyEnough(s: System, j: Job) {
    j.entry.Some? && j.adm.approval.Some? && j.entry.value < |s.log| ==>
      s.log[j.entry.value].at < SignedEnd(j.adm.approval.value)
  }

  /** Two accepted approvals with one signature agree in the nonce up to blanks and in the rounded end. */
  lemma SameSignature(c: Crypto, p: Approval, q: Approval)
    requires Ideal(c) && ApprovalPaired(p) && ApprovalPaired(q) && p.signature == q.signature
    requires p.signature == SignApproval(c, p) && q.signature == SignApproval(c, q)
    ensures Stripped(p.nonce) == Stripped(q.nonce) && SignedEnd(p) == SignedEnd(q)
  {
    ApprovalTextIff(p, q);
  }

  ghost predicate RestsOn(s: System, i: nat, p: Approval) {
    i < |s.issued| && s.issued[i].job.adm.approval == Some(p)
  }

  lemma IssuedIsSigned(b: Setting, clock: real, steps: seq<Step>, i: nat, p: Approval)
    requires RestsOn(Run(b, Initial(clock), steps), i, p)
    ensures p.signature == SignApproval(b.cfg.crypto, p)
  {
    EveryGrantIsJustified(b, clock, steps, i);
  }

  /** Two grants of a run that rest on approvals with the same nonce and signed end did not both consume them
      before it. */
  lemma SameNonceSameGrant(b: Setting, clock: real, steps: seq<Step>, i: nat, j: nat, p: Approval, q: Approval)
    requires var s := Run(b, Initial(clock), steps);
             BeforeSignedEnd(s) && RestsOn(s, i, p) && RestsOn(s, j, q)
    requires p.nonce == q.nonce && SignedEnd(p) == SignedEnd(q)
    ensures i == j
  {
    SignedEndIsEarly(p);
    SignedEndIsEarly(q);
    var s := Run(b, Initial(clock), steps);
    assert EarlyEnough(s, s.issued[i].job) && EarlyEnough(s, s.issued[j].job);
    if i < j {
      SameNonceIsLate(b, clock, steps, i, j);
    } else if j < i {
      SameNonceIsLate(b, clock, steps, j, i);
    }
  }

  /** If every approval that arrives has a nonce without blanks around it, one signature yields at most one grant in
      every run in which each grant consumed its approval before the signed end. */
  lemma OneGrantPerSignature(b: Setting, clock: real, steps: seq<Step>, i: nat, j: nat, p: Approval, q: Approval)
    requires Ideal(b.cfg.crypto) && ApprovalPaired(p) && ApprovalPaired(q) && p.signature == q.signature
    requires forall k :: 0 <= k < |steps| && steps[k].Arrive? && steps[k].req.approval.Some? ==>
                           var n := steps[k].req.approval.value.nonce; Stripped(n) == n
    requires var s := Run(b, Initial(clock), steps);
             BeforeSignedEnd(s) && RestsOn(s, i, p) && RestsOn(s, j, q)
    ensures i == j
  {
    IssuedIsSigned(b, clock, steps, i, p);
    IssuedIsSigned(b, clock, steps, j, q);
    SameSignature(b.cfg.crypto, p, q);
    ArrivedNonces(b, clock, steps);
    var s := Run(b, Initial(clock), steps);
    assert PlainNonce(s.issued[i].job) && PlainNonce(s.issued[j].job);
    SameNonceSameGrant(b, clock, steps, i, j, p, q);
  }

  predicate PlainNonce(j: Job) {
    j.adm.approval.Some? ==> Stripped(j.adm.approval.value.nonce) == j.adm.approval.value.nonce
  }

  lemma ArrivedNonces(b: Setting, clock: real, steps: seq<Step>)
    requires forall k :: 0 <= k < |steps| && steps[k].Arrive? && steps[k].req.approval.Some? ==>
                           var n := steps[k].req.approval.value.nonce; Stripped(n) == n
    ensures AllJobs(PlainNonce, Run(b, Initial(clock), steps))
  {
    forall j: Job | Arrived(b, j) ensures j.adm.approval.Some? ==> j.adm.approval == j.req.approval {
      AdmitIff(b.cfg, b.manifests, j.req, j.entropy.now, j.adm);
    }
    RunKeepsJobs(b, Initial(clock), steps, PlainNonce);
  }

  /* ---------- runs, step by step ---------- */

  ghost predicate Reaches(b: Setting, s: System, s': System) {
    exists steps :: Run(b, s, steps) == s'
  }

  lemma {:induction false} RunAppend(b: Setting, s: System, xs: seq<Step>, ys: seq<Step>)
    ensures Run(b, s, xs + ys) == Run(b, Run(b, s, xs), ys)
    decreases |xs|
  {
    if xs == [] {
      assert xs + ys == ys;
    } else {
      assert (xs + ys)[1..] == xs[1..] + ys;
      RunAppend(b, Next(b, s, xs[0]), xs[1..], ys);
    }
  }

  lemma ReachesOn(b: Setting, s: System, t: System, u: System)
    requires Reaches(b, s, t) && Reaches(b, t, u)
    ensures Reaches(b, s, u)
  {
    var xs :| Run(b, s, xs) == t;
    var ys :| Run(b, t, ys) == u;
    RunAppend(b, s, xs, ys);
  }

  lemma ReachesNext(b: Setting, s: System, step: Step)
    ensures Reaches(b, s, Next(b, s, step))
  {
    assert [step][1..] == [];
    assert Run(b, Next(b, s, step), []) == Next(b, s, step);
    assert Run(b, s, [step]) == Next(b, s, step);
  }

  /** An unstored nonce is accepted as long as the ledger has room. */
  lemma FreshIsAccepted(ledger: Ledger, cap: nat, nonce: Str, expiry: real, now: real)
    requires nonce !in ledger && Stripped(nonce) != [] && |ledger| < cap
    ensures var (l, refused) := Consume(ledger, cap, nonce, Some(expiry), now);
            && refused.None? && |l| <= |ledger| + 1 && l.Keys <= ledger.Keys + {nonce}
            && nonce in l && l[nonce] == expiry
            && (forall n :: n in ledger && ledger[n] <= now ==> n !in l)
  {
    var live := map n | n in ledger && now < ledger[n] :: ledger[n];
    assert live.Keys <= ledger.Keys;
    SubsetSize(live.Keys, ledger.Keys);
  }

  /** The ledger grew by at most this nonce and lost what has expired. */
  ghost predicate LedgerAfter(s: System, s': System, nonce: Str) {
    && |s'.ledger| <= |s.ledger| + 1 && s'.ledger.Keys <= s.ledger.Keys + {nonce}
    && (forall n :: n in s.ledger && s.ledger[n] <= s.clock ==> n !in s'.ledger)
  }

  /** A waiting request has consumed its approval. */
  ghost predicate HasConsumed(s: System, s': System, tid: nat)
    requires tid in s.jobs && WaitsForApproval(s.jobs[tid])
  {
    var p := s.jobs[tid].adm.approval.value;
    && s'.clock == s.clock && s'.issued == s.issued && LedgerAfter(s, s', p.nonce)
    && s'.jobs == s.jobs[tid := s.jobs[tid].(reading := None, entry := Some(|s.log|))]
    && s'.log == s.log + [Consumption(p.nonce, p.validUntil, s.clock)]
    && p.nonce in s'.ledger && s'.ledger[p.nonce] == p.validUntil
  }

  function GrantConsumption(s: System, j: Job): Consumption {
    Consumption(j.entropy.grantNonce, j.entropy.now + DEFAULT_GRANT_TTL, s.clock)
  }

  /** A request has been granted. */
  ghost predicate HasGrant(s: System, s': System, tid: nat, g: Grant)
    requires tid in s.jobs
  {
    var j := s.jobs[tid].(reading := Some(s.clock));
    && s'.clock == s.clock && s'.jobs == s.jobs - {tid} && LedgerAfter(s, s', j.entropy.grantNonce)
    && s'.log == s.log + [GrantConsumption(s, j)] && s'.issued == s.issued + [Issued(g, j)]
  }

  function WithReading(s: System, tid: nat): System
    requires tid in s.jobs
  {
    s.(jobs := s.jobs[tid := s.jobs[tid].(reading := Some(s.clock))])
  }

  /** A request reads the clock and goes through its critical section at once. */
  lemma ReachesSection(b: Setting, s: System, tid: nat)
    requires tid in s.jobs
    ensures var s1 := WithReading(s, tid);
            Reaches(b, s, if WaitsForApproval(s1.jobs[tid]) then ApprovalSection(b, s1, tid)
              else GrantSection(b, s1, tid))
  {
    var s1 := WithReading(s, tid);
    ReachesNext(b, s, Read(tid));
    ReachesNext(b, s1, Critical(tid));
    ReachesOn(b, s, s1, Next(b, s1, Critical(tid)));
  }

  /** A waiting request reads the clock and consumes its approval. */
  lemma ConsumesApproval(b: Setting, s: System, tid: nat) returns (s': System)
    requires tid in s.jobs && WaitsForApproval(s.jobs[tid]) && |s.ledger| < b.cap
    requires var n := s.jobs[tid].adm.approval.value.nonce; n !in s.ledger && Stripped(n) != []
    ensures Reaches(b, s, s') && HasConsumed(s, s', tid)
  {
    var p := s.jobs[tid].adm.approval.value;
    FreshIsAccepted(s.ledger, b.cap, p.nonce, p.validUntil, s.clock);
    ReachesSection(b, s, tid);
    s' := ApprovalSection(b, WithReading(s, tid), tid);
  }

  lemma SectionIs(b: Setting, s: System, tid: nat, l: Ledger, g: Grant)
    requires tid in s.jobs && s.jobs[tid].reading.Some? && g.expiresAt == s.jobs[tid].entropy.now + DEFAULT_GRANT_TTL
    requires var j := s.jobs[tid];
             Finish(b.cfg.crypto, s.ledger, b.cap, j.req, j.adm, j.uid, j.entropy.(grantReading := j.reading.value))
               == (l, Ok(g))
    ensures var (s', j) := (GrantSection(b, s, tid), s.jobs[tid]);
            && s'.ledger == l && s'.clock == s.clock && s'.jobs == s.jobs - {tid}
            && s'.log == s.log + [GrantConsumption(s, j)] && s'.issued == s.issued + [Issued(g, j)]
  {
  }

  lemma FinishFresh(b: Setting, s: System, j: Job, reading: real) returns (l: Ledger, g: Grant)
    requires |s.ledger| < b.cap && j.entropy.grantNonce !in s.ledger && Stripped(j.entropy.grantNonce) != []
    ensures Finish(b.cfg.crypto, s.ledger, b.cap, j.req, j.adm, j.uid, j.entropy.(grantReading := reading))
            == (l, Ok(g))
    ensures g.expiresAt == j.entropy.now + DEFAULT_GRANT_TTL
    ensures |l| <= |s.ledger| + 1 && l.Keys <= s.ledger.Keys + {j.entropy.grantNonce}
    ensures forall n :: n in s.ledger && s.ledger[n] <= reading ==> n !in l
  {
    FreshIsAccepted(s.ledger, b.cap, j.entropy.grantNonce, j.entropy.now + DEFAULT_GRANT_TTL, reading);
    var e := j.entropy.(grantReading := reading);
    FinishConsumes(b.cfg.crypto, s.ledger, b.cap, j.req, j.adm, j.uid, e);
    var (l0, r) := Finish(b.cfg.crypto, s.ledger, b.cap, j.req, j.adm, j.uid, e);
    l, g := l0, r.value;
  }

  /** What a critical section that grants leaves of the system. */
  ghost predicate GrantedBy(s: System, s': System, tid: nat, g: Grant)
    requires tid in s.jobs
  {
    var j := s.jobs[tid];
    && s'.clock == s.clock && s'.jobs == s.jobs - {tid} && LedgerAfter(s, s', j.entropy.grantNonce)
    && s'.log == s.log + [GrantConsumption(s, j)] && s'.issued == s.issued + [Issued(g, j)]
  }

  lemma SectionGrants(b: Setting, s: System, tid: nat) returns (g: Grant)
    requires tid in s.jobs && s.jobs[tid].reading == Some(s.clock) && |s.ledger| < b.cap
    requires var n := s.jobs[tid].entropy.grantNonce; n !in s.ledger && Stripped(n) != []
    ensures GrantedBy(s, GrantSection(b, s, tid), tid, g)
  {
    var l, g0 := FinishFresh(b, s, s.jobs[tid], s.clock);
    SectionIs(b, s, tid, l, g0);
    g := g0;
  }

  lemma GrantShape(s: System, s': System, tid: nat, g: Grant)
    requires tid in s.jobs && GrantedBy(WithReading(s, tid), s', tid, g)
    ensures HasGrant(s, s', tid, g)
  {
    assert WithReading(s, tid).jobs - {tid} == s.jobs - {tid};
  }

  /** A request that waits for no approval reads the clock, consumes its grant's nonce and is granted. */
  lemma IsGranted(b: Setting, s: System, tid: nat) returns (s': System, g: Grant)
    requires tid in s.jobs && !WaitsForApproval(s.jobs[tid]) && |s.ledger| < b.cap
    requires var n := s.jobs[tid].entropy.grantNonce; n !in s.ledger && Stripped(n) != []
    ensures Reaches(b, s, s') && HasGrant(s, s', tid, g)
  {
    ReachesSection(b, s, tid);
    s' := GrantSection(b, WithReading(s, tid), tid);
    g := SectionGrants(b, WithReading(s, tid), tid);
    GrantShape(s, s', tid, g);
  }

  /* ---------- one request from arrival to grant ---------- */

  /** A request as it arrives. */
  datatype Arrival = Arrival(req: Request, uid: int, grantId: Str, grantNonce: Str)

  function ArriveAs(tid: nat, a: Arrival): Step {
    Arrive(tid, a.req, a.uid, a.grantId, a.grantNonce)
  }

  predicate AdmittedOn(b: Setting, req: Request, clock: real, p: Approval) {
    var r := Admit(b.cfg, b.manifests, req, clock);
    r.Ok? && r.value.approval == Some(p)
  }

  /** A request has been admitted on this approval. */
  ghost predicate HasArrived(s: System, s': System, tid: nat, a: Arrival, p: Approval) {
    && tid !in s.jobs && s' == s.(jobs := s'.jobs) && tid in s'.jobs && s'.jobs - {tid} == s.jobs
    && s'.jobs[tid].adm.approval == Some(p) && s'.jobs[tid].entry.None?
    && s'.jobs[tid].entropy.grantNonce == a.grantNonce && s'.jobs[tid].entropy.now == s.clock
  }

  lemma Arrives(b: Setting, s: System, tid: nat, a: Arrival, p: Approval) returns (s': System)
    requires AdmittedOn(b, a.req, s.clock, p) && tid !in s.jobs
    ensures Reaches(b, s, s') && HasArrived(s, s', tid, a, p)
  {
    ReachesNext(b, s, ArriveAs(tid, a));
    s' := Next(b, s, ArriveAs(tid, a));
    assert s'.jobs - {tid} == s.jobs;
  }

  /** The nonces of a request and its approval are neither blank, nor equal, nor stored. */
  predicate Fresh(ledger: Ledger, a: Arrival, p: Approval) {
    && p.nonce !in ledger && Stripped(p.nonce) != [] && a.grantNonce !in ledger && Stripped(a.grantNonce) != []
    && p.nonce != a.grantNonce
  }

  /** What serving one request at one clock adds. */
  ghost predicate Served(s: System, s': System, a: Arrival, p: Approval, issued: Issued) {
    && s'.clock == s.clock && s'.jobs == s.jobs && s'.issued == s.issued + [issued]
    && issued.job.adm.approval == Some(p) && issued.job.entry == Some(|s.log|)
    && s'.log == s.log + [Consumption(p.nonce, p.validUntil, s.clock)] + [GrantConsumption(s, issued.job)]
    && |s'.ledger| <= |s.ledger| + 2 && s'.ledger.Keys <= s.ledger.Keys + {p.nonce, a.grantNonce}
  }

  lemma ServedParts(s: System, s1: System, s2: System, s3: System, tid: nat, a: Arrival, p: Approval, g: Grant)
    requires HasArrived(s, s1, tid, a, p) && HasConsumed(s1, s2, tid) && tid in s2.jobs && HasGrant(s2, s3, tid, g)
    ensures Served(s, s3, a, p, Issued(g, s2.jobs[tid].(reading := Some(s.clock))))
  {
    assert s2.jobs - {tid} == s1.jobs - {tid};
  }

  /** An admitted request goes through both its critical sections. */
  lemma IsServed(b: Setting, s: System, s1: System, tid: nat, a: Arrival, p: Approval)
      returns (s': System, issued: Issued)
    requires HasArrived(s, s1, tid, a, p) && Fresh(s.ledger, a, p) && |s.ledger| + 2 <= b.cap
    ensures Reaches(b, s1, s') && Served(s, s', a, p, issued)
  {
    var s2 := ConsumesApproval(b, s1, tid);
    var g;
    s', g := IsGranted(b, s2, tid);
    ReachesOn(b, s1, s2, s');
    ServedParts(s, s1, s2, s', tid, a, p, g);
    issued := Issued(g, s2.jobs[tid].(reading := Some(s.clock)));
  }

  lemma FreshAfter(s: System, s': System, a: Arrival, p: Approval, issued: Issued, a2: Arrival, q: Approval)
    requires Served(s, s', a, p, issued) && Fresh(s.ledger, a2, q)
             && {p.nonce, a.grantNonce} !! {q.nonce, a2.grantNonce}
    ensures Fresh(s'.ledger, a2, q)
  {
  }

  /** Two grants, whose approvals were consumed at this clock. */
  ghost predicate BothAt(s: System, clock: real, p: Approval, q: Approval) {
    && |s.issued| == 2 && RestsOn(s, 0, p) && RestsOn(s, 1, q) && |s.log| == 4
    && s.issued[0].job.entry == Some(0) && s.issued[1].job.entry == Some(2)
    && s.log[0] == Consumption(p.nonce, p.validUntil, clock) && s.log[2] == Consumption(q.nonce, q.validUntil, clock)
  }

  lemma BothIssued(s: System, s': System, clock: real, a1: Arrival, p: Approval, i1: Issued, a2: Arrival, q: Approval,
      i2: Issued)
    requires Served(Initial(clock), s, a1, p, i1) && Served(s, s', a2, q, i2)
    ensures BothAt(s', clock, p, q)
  {
    assert s'.issued == [i1, i2];
  }

  /** Two requests whose approvals have different nonces are both granted at their arrival. */
  lemma TwoAreServed(b: Setting, clock: real, a1: Arrival, p: Approval, a2: Arrival, q: Approval)
    requires Fresh(map[], a1, p) && Fresh(map[], a2, q) && b.cap >= 4
    requires {p.nonce, a1.grantNonce} !! {q.nonce, a2.grantNonce}
    ensures AdmittedOn(b, a1.req, clock, p) && AdmittedOn(b, a2.req, clock, q) ==> BothCanBeGranted(b, clock, p, q)
  {
    if AdmittedOn(b, a1.req, clock, p) && AdmittedOn(b, a2.req, clock, q) {
      var s0 := Initial(clock);
      var s1 := Arrives(b, s0, 0, a1, p);
      var s2, i1 := IsServed(b, s0, s1, 0, a1, p);
      ReachesOn(b, s0, s1, s2);
      FreshAfter(s0, s2, a1, p, i1, a2, q);
      var s3 := Arrives(b, s2, 1, a2, q);
      ReachesOn(b, s0, s2, s3);
      var s, i2 := IsServed(b, s2, s3, 1, a2, q);
      ReachesOn(b, s0, s3, s);
      BothIssued(s2, s, clock, a1, p, i1, a2, q, i2);
    }
  }

  /** Some run at one clock grants two requests on these approvals. */
  ghost predicate BothCanBeGranted(b: Setting, clock: real, p: Approval, q: Approval) {
    exists s :: Reaches(b, Initial(clock), s) && BothAt(s, clock, p, q)
  }

  /* ---------- when one signature is worth two grants ---------- */

  /** A nonce of `n` letters. */
  function Letters(n: nat): Str {
    seq(n, _ => 65)
  }

  lemma LettersAreNotBlank(n: nat)
    requires n > 0
    ensures Stripped(Letters(n)) == Letters(n) != []
  {
    assert !IsSpacePoint(65);
  }

  /** Two different grants of some run rest on these approvals, both consumed before the signed end. */
  ghost predicate TwoGrants(b: Setting, clock: real, p: Approval, q: Approval) {
    exists s, i, j :: Reaches(b, Initial(clock), s) && BeforeSignedEnd(s) && i != j && RestsOn(s, i, p)
      && RestsOn(s, j, q)
  }

  lemma AdmittedIsSigned(b: Setting, req: Request, clock: real, p: Approval)
    requires AdmittedOn(b, req, clock, p)
    ensures p.signature == SignApproval(b.cfg.crypto, p) && clock <= p.validUntil
  {
    AdmitIff(b.cfg, b.manifests, req, clock, Admit(b.cfg, b.manifests, req, clock).value);
  }

  /** A granted approval has a nonce that is not blank. */
  lemma GrantedNonceIsNotBlank(b: Setting, clock: real, s: System, i: nat, p: Approval)
    requires Reaches(b, Initial(clock), s) && RestsOn(s, i, p)
    ensures Stripped(p.nonce) != []
  {
    var steps :| Run(b, Initial(clock), steps) == s;
    RunAdmitsAll(b, clock, steps);
    RunKeepsSound(b, Initial(clock), steps);
    assert EntryOf(s, s.issued[i].job.adm.approval, s.issued[i].job.entry);
    assert s.log[s.issued[i].job.entry.value].nonce == p.nonce;
  }

  lemma EarlyPair(s: System, clock: real, p: Approval, q: Approval)
    requires BothAt(s, clock, p, q) && clock < SignedEnd(p) && clock < SignedEnd(q)
    ensures BeforeSignedEnd(s)
  {
    forall i | 0 <= i < |s.issued| ensures EarlyEnough(s, s.issued[i].job) { }
  }

  /** Nonces for the two grants that meet no other nonce. */
  lemma FreshNonces(p: Approval, q: Approval) returns (m: Str, n: Str)
    ensures Stripped(m) != [] && Stripped(n) != [] && m != n && m !in {p.nonce, q.nonce} && n !in {p.nonce, q.nonce}
  {
    var k := |p.nonce| + |q.nonce| + 1;
    LettersAreNotBlank(k);
    LettersAreNotBlank(k + 1);
    m, n := Letters(k), Letters(k + 1);
    assert |m| == k && |n| == k + 1;
  }

  lemma BothFresh(a1: Arrival, p: Approval, a2: Arrival, q: Approval)
    requires Stripped(p.nonce) != [] && Stripped(q.nonce) != [] && p.nonce != q.nonce
    requires var (m, n) := (a1.grantNonce, a2.grantNonce);
             Stripped(m) != [] && Stripped(n) != [] && m != n && m !in {p.nonce, q.nonce} && n !in {p.nonce, q.nonce}
    ensures Fresh(map[], a1, p) && Fresh(map[], a2, q) && {p.nonce, a1.grantNonce} !! {q.nonce, a2.grantNonce}
  {
  }

  lemma TwoGrantsRun(b: Setting, clock: real, r1: Request, p: Approval, r2: Request, q: Approval)
    requires b.cap >= 4 && p.nonce != q.nonce && Stripped(p.nonce) != [] && Stripped(q.nonce) != []
    ensures AdmittedOn(b, r1, clock, p) && AdmittedOn(b, r2, clock, q) ==> BothCanBeGranted(b, clock, p, q)
  {
    var m, n := FreshNonces(p, q);
    var a1, a2 := Arrival(r1, 0, [], m), Arrival(r2, 0, [], n);
    BothFresh(a1, p, a2, q);
    TwoAreServed(b, clock, a1, p, a2, q);
  }

  /** Two requests admitted on approvals with one signature are both granted before the signed end in some run only if
      the two presented nonces differ and are not blank, and if so and the ledger holds four entries, in some run they
      are. */
  lemma TwoGrantsIff(b: Setting, clock: real, r1: Request, p: Approval, r2: Request, q: Approval)
    requires Ideal(b.cfg.crypto) && ApprovalPaired(p) && ApprovalPaired(q) && p.signature == q.signature
    requires AdmittedOn(b, r1, clock, p) && AdmittedOn(b, r2, clock, q) && clock < SignedEnd(p)
    ensures TwoGrants(b, clock, p, q) ==> p.nonce != q.nonce && Stripped(p.nonce) != []
    ensures b.cap >= 4 ==> (TwoGrants(b, clock, p, q) <==> p.nonce != q.nonce && Stripped(p.nonce) != [])
  {
    AdmittedIsSigned(b, r1, clock, p);
    AdmittedIsSigned(b, r2, clock, q);
    SameSignature(b.cfg.crypto, p, q);
    if TwoGrants(b, clock, p, q) { NoncesOfTwoGrants(b, clock, p, q); }
    if b.cap >= 4 && p.nonce != q.nonce && Stripped(p.nonce) != [] {
      TwoGrantsRun(b, clock, r1, p, r2, q);
      var s :| Reaches(b, Initial(clock), s) && BothAt(s, clock, p, q);
      EarlyPair(s, clock, p, q);
      assert RestsOn(s, 0, p) && RestsOn(s, 1, q);
    }
  }

  lemma NoncesOfTwoGrants(b: Setting, clock: real, p: Approval, q: Approval)
    requires TwoGrants(b, clock, p, q) && SignedEnd(p) == SignedEnd(q)
    ensures p.nonce != q.nonce && Stripped(p.nonce) != []
  {
    var s, i, j :| Reaches(b, Initial(clock), s) && BeforeSignedEnd(s) && i != j && RestsOn(s, i, p)
      && RestsOn(s, j, q);
    GrantedNonceIsNotBlank(b, clock, s, i, p);
    var steps :| Run(b, Initial(clock), steps) == s;
    if p.nonce == q.nonce { SameNonceSameGrant(b, clock, steps, i, j, p, q); }
  }

  /* ---------- a run with one signature and two grants ---------- */

  /** A broker with one task that permits one primitive, and an untrusted request for it with some approval. */
  function ExampleSetting(c: Crypto): Setting {
    Setting(Config(c, None, true), map[[84] := Manifest([84], [[80]], [])], 4)
  }

  function ExampleSemantics(): Semantics {
    Semantics([], [], [], [], [], [], [], [], [])
  }

  function ExampleRequest(p: Approval): Request {
    Request([], [84], [80], Provenance([], [], Untrusted(), []), ExampleSemantics(), Some(p))
  }

  /** An approval issued for a minute, and the same one with a blank before the nonce. */
  function ExampleApproval(c: Crypto): Approval {
    IssueApproval(c, [65], ExecutionHash(c, ExampleSemantics()), 60.0, 0.0, [66], [67])
  }

  function Padded(p: Approval): Approval {
    p.(nonce := [32] + p.nonce)
  }

  lemma PaddedKeepsSignature(c: Crypto, p: Approval)
    ensures Stripped(Padded(p).nonce) == Stripped(p.nonce) && SignApproval(c, Padded(p)) == SignApproval(c, p)
  {
    assert ([32] + p.nonce)[1..] == p.nonce;
    assert ApprovalValues(Padded(p)) == ApprovalValues(p);
  }

  lemma ExampleIsAdmitted(c: Crypto, p: Approval)
    ensures VerifyApproval(c, p, Some(ExecutionHash(c, ExampleSemantics())), 0.0) ==>
            AdmittedOn(ExampleSetting(c), ExampleRequest(p), 0.0, p)
  {
  }

  lemma PaddedIsVerified(c: Crypto, p: Approval, h: Str, now: real)
    requires VerifyApproval(c, p, Some(h), now)
    ensures VerifyApproval(c, Padded(p), Some(h), now)
  {
    PaddedKeepsSignature(c, p);
  }

  lemma ExampleEnds(c: Crypto)
    ensures SignedEnd(ExampleApproval(c)) > 0.0 && ExampleApproval(c).nonce == [67]
    ensures Stripped([67]) == [67]
  {
    assert Ticks(60.0) == 600000;
    assert !IsSpacePoint(67);
  }

  /** A run in which one signed approval, presented once as issued and once with a blank before its nonce, yields two
      grants, both of which consumed it before its end. */
  lemma OneSignatureTwoGrants(c: Crypto) returns (b: Setting, steps: seq<Step>, p: Approval, q: Approval)
    requires Ideal(c)
    ensures b.cfg.crypto == c && p.signature == q.signature && q.nonce == [32] + p.nonce
    ensures var s := Run(b, Initial(0.0), steps);
            |s.issued| == 2 && RestsOn(s, 0, p) && RestsOn(s, 1, q) && BeforeSignedEnd(s)
  {
    b, p, q := ExampleSetting(c), ExampleApproval(c), Padded(ExampleApproval(c));
    var h := ExecutionHash(c, ExampleSemantics());
    ApprovalWindow(c, [65], h, 60.0, 0.0, [66], [67], h, 0.0);
    PaddedIsVerified(c, p, h, 0.0);
    ExampleIsAdmitted(c, p);
    ExampleIsAdmitted(c, q);
    ExampleEnds(c);
    PaddedKeepsSignature(c, p);
    TwoGrantsRun(b, 0.0, ExampleRequest(p), p, ExampleRequest(q), q);
    var s :| Reaches(b, Initial(0.0), s) && BothAt(s, 0.0, p, q);
    EarlyPair(s, 0.0, p, q);
    steps :| Run(b, Initial(0.0), steps) == s;
  }

  /* ---------- a run with a late consumption ---------- */

  lemma ConsumedStays(s: System, s': System, tid: nat, other: nat)
    requires tid in s.jobs && WaitsForApproval(s.jobs[tid]) && HasConsumed(s, s', tid) && other in s.jobs
             && other != tid
    ensures other in s'.jobs && s'.jobs[other] == s.jobs[other]
    ensures tid in s'.jobs && !WaitsForApproval(s'.jobs[tid]) && s'.jobs[tid].adm == s.jobs[tid].adm
            && s'.jobs[tid].entropy == s.jobs[tid].entropy && s'.jobs[tid].entry == Some(|s.log|)
  {
  }

  /** Time passes up to the end of an approval. */
  lemma Waits(b: Setting, s: System, until: real) returns (s': System)
    requires s.clock <= until
    ensures Reaches(b, s, s') && s' == s.(clock := until)
  {
    ReachesNext(b, s, Tick(until - s.clock));
    s' := Next(b, s, Tick(until - s.clock));
  }

  /** Two waiting requests with one approval: the first consumes it, its grant is issued at the end of the approval and
      makes the ledger forget the nonce, and the second consumes it again. */
  lemma SecondConsumes(b: Setting, s: System, p: Approval) returns (s': System)
    requires s.jobs.Keys == {0, 1} && s.ledger == map[] && s.log == [] && s.issued == [] && b.cap >= 4
             && s.clock <= p.validUntil
    requires forall t :: t in s.jobs ==> s.jobs[t].adm.approval == Some(p) && s.jobs[t].entry.None?
    requires var (m, n) := (s.jobs[0].entropy.grantNonce, s.jobs[1].entropy.grantNonce);
             && Stripped(p.nonce) != [] && Stripped(m) != [] && Stripped(n) != [] && m != n && m != p.nonce
             && n != p.nonce
    ensures Reaches(b, s, s') && |s'.issued| == 2 && RestsOn(s', 0, p) && RestsOn(s', 1, p)
    ensures s'.issued[0].job.entropy == s.jobs[0].entropy && s'.issued[1].job.entropy == s.jobs[1].entropy
    ensures s'.issued[1].job.entry.Some? && s'.issued[1].job.entry.value < |s'.log|
    ensures s'.log[s'.issued[1].job.entry.value] == Consumption(p.nonce, p.validUntil, p.validUntil)
  {
    var s1 := ConsumesApproval(b, s, 0);
    ConsumedStays(s, s1, 0, 1);
    var s2 := Waits(b, s1, p.validUntil);
    ReachesOn(b, s, s1, s2);
    var s3, g := IsGranted(b, s2, 0);
    ReachesOn(b, s, s2, s3);
    var s4, h := SecondIsGranted(b, s3, p);
    ReachesOn(b, s, s3, s4);
    s' := s4;
    assert s'.issued[0] == s3.issued[0];
  }

  lemma SecondIsGranted(b: Setting, s: System, p: Approval) returns (s': System, g: Grant)
    requires 1 in s.jobs && s.jobs[1].adm.approval == Some(p) && s.jobs[1].entry.None? && s.clock == p.validUntil
    requires |s.ledger| + 2 <= b.cap && |s.issued| == 1
    requires var n := s.jobs[1].entropy.grantNonce;
             && Stripped(p.nonce) != [] && Stripped(n) != [] && n != p.nonce && p.nonce !in s.ledger && n !in s.ledger
    ensures Reaches(b, s, s') && |s'.issued| == 2 && s'.issued[0] == s.issued[0] && RestsOn(s', 1, p)
    ensures s'.issued[1].job.entropy == s.jobs[1].entropy && s'.issued[1].job.entry == Some(|s.log|)
            && |s.log| < |s'.log|
    ensures s'.log[|s.log|] == Consumption(p.nonce, p.validUntil, p.validUntil)
  {
    var s1 := ConsumesApproval(b, s, 1);
    s', g := IsGranted(b, s1, 1);
    ReachesOn(b, s, s1, s');
  }

  /** Two requests with this approval are in flight, and nothing else has happened. */
  ghost predicate TwoInFlight(s: System, clock: real, p: Approval, m: Str, n: Str) {
    && s == Initial(clock).(jobs := s.jobs) && s.jobs.Keys == {0, 1}
    && (forall t :: t in s.jobs ==>
          s.jobs[t].adm.approval == Some(p) && s.jobs[t].entry.None? && s.jobs[t].entropy.now == clock)
    && s.jobs[0].entropy.grantNonce == m && s.jobs[1].entropy.grantNonce == n
  }

  lemma ArrivedTwo(s1: System, s: System, clock: real, a1: Arrival, a2: Arrival, p: Approval)
    requires HasArrived(Initial(clock), s1, 0, a1, p) && HasArrived(s1, s, 1, a2, p)
    ensures TwoInFlight(s, clock, p, a1.grantNonce, a2.grantNonce)
  {
    assert s1.jobs.Keys == (s1.jobs - {0}).Keys + {0} && s.jobs.Keys == (s.jobs - {1}).Keys + {1};
    assert s.jobs[0] == (s.jobs - {1})[0] == s1.jobs[0];
  }

  lemma OnlyFirst(s: System, clock: real, a: Arrival, p: Approval)
    requires HasArrived(Initial(clock), s, 0, a, p)
    ensures 1 !in s.jobs && s.clock == clock
  {
    assert s.jobs.Keys == (s.jobs - {0}).Keys + {0};
  }

  lemma TwoArrive(b: Setting, clock: real, a1: Arrival, a2: Arrival, p: Approval) returns (s: System)
    requires AdmittedOn(b, a1.req, clock, p) && AdmittedOn(b, a2.req, clock, p)
    ensures Reaches(b, Initial(clock), s) && TwoInFlight(s, clock, p, a1.grantNonce, a2.grantNonce)
  {
    var s1 := Arrives(b, Initial(clock), 0, a1, p);
    OnlyFirst(s1, clock, a1, p);
    s := Arrives(b, s1, 1, a2, p);
    ReachesOn(b, Initial(clock), s1, s);
    ArrivedTwo(s1, s, clock, a1, a2, p);
  }

  /** Every request admitted on an approval, presented twice in time, can be granted twice: a run in which both arrive
      at one clock within the approval's validity, and the second consumes it when it ends, after the first grant made
      the ledger forget the nonce. */
  lemma LateConsumptionGrantsTwice(b: Setting, clock: real, req: Request, p: Approval) returns (s: System)
    requires AdmittedOn(b, req, clock, p) && Stripped(p.nonce) != [] && b.cap >= 4
    ensures Reaches(b, Initial(clock), s) && |s.issued| == 2 && RestsOn(s, 0, p) && RestsOn(s, 1, p)
    ensures s.issued[0].job.entropy.now == clock && s.issued[1].job.entropy.now == clock && clock <= p.validUntil
    ensures s.issued[1].job.entry.Some? && s.issued[1].job.entry.value < |s.log|
    ensures s.log[s.issued[1].job.entry.value] == Consumption(p.nonce, p.validUntil, p.validUntil)
  {
    var m, n := FreshNonces(p, p);
    AdmittedIsSigned(b, req, clock, p);
    var s1 := TwoArrive(b, clock, Arrival(req, 0, [], m), Arrival(req, 0, [], n), p);
    s := SecondConsumes(b, s1, p);
    ReachesOn(b, Initial(clock), s1, s);
  }

  /* ---------- when a stored nonce is accepted again ---------- */

  /** One call of the section that consumes a nonce. */
  datatype Call = Call(nonce: Str, expiry: real, reading: real)

  function AfterCall(ledger: Ledger, cap: nat, c: Call): Ledger {
    Consume(ledger, cap, c.nonce, Some(c.expiry), c.reading).0
  }

  function AfterCalls(ledger: Ledger, cap: nat, cs: seq<Call>): Ledger
    decreases |cs|
  {
    if cs == [] then ledger else AfterCalls(AfterCall(ledger, cap, cs[0]), cap, cs[1..])
  }

  /** The call gets as far as collecting, and collects an entry with this expiry. */
  predicate Collects(ledger: Ledger, c: Call, expiry: real) {
    Stripped(c.nonce) != [] && c.nonce !in ledger && expiry <= c.reading
  }

  predicate SomeCollects(ledger: Ledger, cap: nat, cs: seq<Call>, expiry: real)
    decreases |cs|
  {
    cs != [] && (Collects(ledger, cs[0], expiry) || SomeCollects(AfterCall(ledger, cap, cs[0]), cap, cs[1..], expiry))
  }

  /** None of the calls is for this nonce and accepted. */
  predicate NotAccepted(ledger: Ledger, cap: nat, cs: seq<Call>, nonce: Str)
    decreases |cs|
  {
    cs == [] ||
    (&& (cs[0].nonce == nonce ==> Consume(ledger, cap, cs[0].nonce, Some(cs[0].expiry), cs[0].reading).1.Some?)
     && NotAccepted(AfterCall(ledger, cap, cs[0]), cap, cs[1..], nonce))
  }

  lemma OneCall(ledger: Ledger, cap: nat, c: Call, nonce: Str)
    requires c.nonce == nonce ==> Consume(ledger, cap, c.nonce, Some(c.expiry), c.reading).1.Some?
    ensures var l := AfterCall(ledger, cap, c);
            && (nonce !in ledger ==> nonce !in l)
            && (nonce in ledger && !Collects(ledger, c, ledger[nonce]) ==> nonce in l && l[nonce] == ledger[nonce])
            && (nonce in ledger && Collects(ledger, c, ledger[nonce]) ==> nonce !in l)
  {
  }

  lemma {:induction false} StaysOut(ledger: Ledger, cap: nat, cs: seq<Call>, nonce: Str)
    requires nonce !in ledger && NotAccepted(ledger, cap, cs, nonce)
    ensures nonce !in AfterCalls(ledger, cap, cs)
    decreases |cs|
  {
    if cs != [] {
      OneCall(ledger, cap, cs[0], nonce);
      StaysOut(AfterCall(ledger, cap, cs[0]), cap, cs[1..], nonce);
    }
  }

  lemma {:induction false} StoredUnlessCollected(ledger: Ledger, cap: nat, cs: seq<Call>, nonce: Str)
    requires nonce in ledger && NotAccepted(ledger, cap, cs, nonce)
    ensures nonce in AfterCalls(ledger, cap, cs) <==> !SomeCollects(ledger, cap, cs, ledger[nonce])
    decreases |cs|
  {
    if cs != [] {
      OneCall(ledger, cap, cs[0], nonce);
      var l := AfterCall(ledger, cap, cs[0]);
      if nonce in l { StoredUnlessCollected(l, cap, cs[1..], nonce); } else { StaysOut(l, cap, cs[1..], nonce); }
    }
  }

  /** A stored nonce that is not blank is accepted again, the first time after any calls, if and only if one of these
      calls was for an unstored nonce that is not blank, with a reading at or past the stored expiry, and the ledger
      has room. */
  lemma AcceptedAgainIff(ledger: Ledger, cap: nat, cs: seq<Call>, c: Call)
    requires c.nonce in ledger && Stripped(c.nonce) != [] && NotAccepted(ledger, cap, cs, c.nonce)
    ensures var l := AfterCalls(ledger, cap, cs);
            && (Consume(l, cap, c.nonce, Some(c.expiry), c.reading).1 != Some(ReplayAttack)
                <==> SomeCollects(ledger, cap, cs, ledger[c.nonce]))
            && (Consume(l, cap, c.nonce, Some(c.expiry), c.reading).1.None?
                <==> SomeCollects(ledger, cap, cs, ledger[c.nonce]) && |Live(l, c.reading)| < cap)
  {
    StoredUnlessCollected(ledger, cap, cs, c.nonce);
    assert Live(AfterCalls(ledger, cap, cs), c.reading)
        == map n | n in AfterCalls(ledger, cap, cs)
          && c.reading < AfterCalls(ledger, cap, cs)[n] :: AfterCalls(ledger, cap, cs)[n];
  }

  /** The entries that a collection keeps. */
  function Live(ledger: Ledger, now: real): Ledger {
    map n | n in ledger && now < ledger[n] :: ledger[n]
  }

  /** The call that a step of the broker makes, if any. */
  function CallsOf(s: System, step: Step): seq<Call> {
    if !step.Critical? || step.tid !in s.jobs || s.jobs[step.tid].reading.None? then []
    else
      var j := s.jobs[step.tid];
      if WaitsForApproval(j) then [Call(j.adm.approval.value.nonce, j.adm.approval.value.validUntil, j.reading.value)]
      else [Call(j.entropy.grantNonce, j.entropy.now + DEFAULT_GRANT_TTL, j.reading.value)]
  }

  lemma OneCallOf(ledger: Ledger, cap: nat, c: Call)
    ensures AfterCalls(ledger, cap, [c]) == AfterCall(ledger, cap, c)
  {
    assert [c][1..] == [];
    assert AfterCalls(AfterCall(ledger, cap, c), cap, []) == AfterCall(ledger, cap, c);
  }

  lemma GrantSectionIsCall(b: Setting, s: System, tid: nat)
    requires tid in s.jobs && s.jobs[tid].reading.Some?
    ensures var j := s.jobs[tid];
            GrantSection(b, s, tid).ledger
            == Consume(s.ledger, b.cap, j.entropy.grantNonce, Some(j.entropy.now + DEFAULT_GRANT_TTL),
              j.reading.value).0
  {
    var j := s.jobs[tid];
    FinishConsumes(b.cfg.crypto, s.ledger, b.cap, j.req, j.adm, j.uid, j.entropy.(grantReading := j.reading.value));
  }

  lemma ApprovalStepIsCall(b: Setting, s: System, tid: nat)
    requires tid in s.jobs && s.jobs[tid].reading.Some? && WaitsForApproval(s.jobs[tid])
    ensures Next(b, s, Critical(tid)).ledger == AfterCall(s.ledger, b.cap, CallsOf(s, Critical(tid))[0])
  {
  }

  lemma NextIsGrant(b: Setting, s: System, tid: nat)
    requires tid in s.jobs && s.jobs[tid].reading.Some? && !WaitsForApproval(s.jobs[tid])
    ensures Next(b, s, Critical(tid)) == GrantSection(b, s, tid)
  {
  }

  lemma GrantStepIsCall(b: Setting, s: System, tid: nat)
    requires tid in s.jobs && s.jobs[tid].reading.Some? && !WaitsForApproval(s.jobs[tid])
    ensures Next(b, s, Critical(tid)).ledger == AfterCall(s.ledger, b.cap, CallsOf(s, Critical(tid))[0])
  {
    GrantSectionIsCall(b, s, tid);
    NextIsGrant(b, s, tid);
  }

  lemma OtherStepsCallNothing(b: Setting, s: System, step: Step)
    requires !step.Critical? || step.tid !in s.jobs || s.jobs[step.tid].reading.None?
    ensures Next(b, s, step).ledger == s.ledger && CallsOf(s, step) == []
  {
  }

  /** Every step of the broker leaves the ledger that its call leaves. */
  lemma StepIsCalls(b: Setting, s: System, step: Step)
    ensures Next(b, s, step).ledger == AfterCalls(s.ledger, b.cap, CallsOf(s, step))
  {
    if step.Critical? && step.tid in s.jobs && s.jobs[step.tid].reading.Some? {
      OneCallOf(s.ledger, b.cap, CallsOf(s, step)[0]);
      if WaitsForApproval(s.jobs[step.tid]) {
        ApprovalStepIsCall(b, s, step.tid);
      } else {
        GrantStepIsCall(b, s, step.tid);
      }
    } else {
      OtherStepsCallNothing(b, s, step);
    }
  }

  lemma {:induction false} CallsAppend(ledger: Ledger, cap: nat, xs: seq<Call>, ys: seq<Call>)
    ensures AfterCalls(ledger, cap, xs + ys) == AfterCalls(AfterCalls(ledger, cap, xs), cap, ys)
    decreases |xs|
  {
    if xs == [] {
      assert xs + ys == ys;
    } else {
      assert (xs + ys)[1..] == xs[1..] + ys;
      CallsAppend(AfterCall(ledger, cap, xs[0]), cap, xs[1..], ys);
    }
  }

  function CallsOfRun(b: Setting, s: System, steps: seq<Step>): seq<Call>
    decreases |steps|
  {
    if steps == [] then [] else CallsOf(s, steps[0]) + CallsOfRun(b, Next(b, s, steps[0]), steps[1..])
  }

  /** The ledger of every run is what the calls of its critical sections make of it, so the condition above is
      about runs. */
  lemma {:induction false} RunIsCalls(b: Setting, s: System, steps: seq<Step>)
    ensures Run(b, s, steps).ledger == AfterCalls(s.ledger, b.cap, CallsOfRun(b, s, steps))
    decreases |steps|
  {
    if steps != [] {
      StepIsCalls(b, s, steps[0]);
      RunIsCalls(b, Next(b, s, steps[0]), steps[1..]);
      CallsAppend(s.ledger, b.cap, CallsOf(s, steps[0]), CallsOfRun(b, Next(b, s, steps[0]), steps[1..]));
    }
  }
}
