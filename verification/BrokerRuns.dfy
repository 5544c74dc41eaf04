/** Concurrent requests to the broker as interleaved steps. A thread reads the clock before it takes the lock, so the
    reading it acts on may be older than the clock at its critical section. */
module BrokerRuns {
  import opened Wrappers
  import opened CanonicalJson
  import opened AuthorityModels
  import opened AuthorityBroker

  /** A nonce that was consumed: with which expiry, and the clock at that critical section. */
  datatype Consumption = Consumption(nonce: Str, expiry: real, at: real)

  /** A request in flight. `entry` is the position in the log of its approval's consumption, once that happened. */
  datatype Job = Job(req: Request, adm: Admission, uid: int, entropy: Entropy, reading: Option<real>,
      entry: Option<nat>)

  /** A grant and the request it was issued for. */
  datatype Issued = Issued(grant: Grant, job: Job)

  datatype System = System(clock: real, ledger: Ledger, jobs: map<nat, Job>, log: seq<Consumption>, issued: seq<Issued>)

  datatype Step =
    | Tick(delta: real)                                    // time passes
    | Arrive(tid: nat, req: Request, uid: int, grantId: Str, grantNonce: Str)  // read the clock, pass the checks
    | Read(tid: nat)                                       // read the clock before a nonce is consumed
    | Critical(tid: nat)                                   // the section inside the lock, and what follows it

  datatype Setting = Setting(cfg: Config, manifests: map<Str, Manifest>, cap: nat)

  predicate WaitsForApproval(j: Job) {
    j.adm.approval.Some? && j.entry.None?
  }

  function Next(b: Setting, s: System, step: Step): System {
    match step
    case Tick(d) => if d >= 0.0 then s.(clock := s.clock + d) else s
    case Arrive(tid, req, uid, grantId, grantNonce) =>
      (match Admit(b.cfg, b.manifests, req, s.clock)
       case Err(_) => s
       case Ok(adm) =>
         if tid in s.jobs then s
         else s.(jobs :=
              s.jobs[tid := Job(req, adm, uid, Entropy(s.clock, s.clock, s.clock, grantId, grantNonce), None, None)]))
    case Read(tid) =>
      if tid in s.jobs then s.(jobs := s.jobs[tid := s.jobs[tid].(reading := Some(s.clock))]) else s
    case Critical(tid) =>
      if tid !in s.jobs || s.jobs[tid].reading.None? then s
      else if WaitsForApproval(s.jobs[tid]) then ApprovalSection(b, s, tid)
      else GrantSection(b, s, tid)
  }

  function ApprovalSection(b: Setting, s: System, tid: nat): System
    requires tid in s.jobs && s.jobs[tid].reading.Some? && WaitsForApproval(s.jobs[tid])
  {
    var j := s.jobs[tid];
    var p := j.adm.approval.value;
    var (l, refused) := Consume(s.ledger, b.cap, p.nonce, Some(p.validUntil), j.reading.value);
    if refused.Some? then s.(ledger := l, jobs := s.jobs - {tid})
    else s.(ledger := l, jobs := s.jobs[tid := j.(reading := None, entry := Some(|s.log|))],
            log := s.log + [Consumption(p.nonce, p.validUntil, s.clock)])
  }

  function GrantSection(b: Setting, s: System, tid: nat): System
    requires tid in s.jobs && s.jobs[tid].reading.Some?
  {
    var j := s.jobs[tid];
    var (l, r) :=
      Finish(b.cfg.crypto, s.ledger, b.cap, j.req, j.adm, j.uid, j.entropy.(grantReading := j.reading.value));
    if r.Err? then s.(ledger := l, jobs := s.jobs - {tid})
    else s.(ledger := l, jobs := s.jobs - {tid},
            log := s.log + [Consumption(j.entropy.grantNonce, r.value.expiresAt, s.clock)],
            issued := s.issued + [Issued(r.value, j)])
  }

  function Run(b: Setting, s: System, steps: seq<Step>): System
    decreases |steps|
  {
    if steps == [] then s else Run(b, Next(b, s, steps[0]), steps[1..])
  }

  function Initial(clock: real): System {
    System(clock, map[], map[], [], [])
  }

  /** A critical section either moves its request from the approval to the grant, or answers it and drops the thread:
      with a grant, which is logged, or refused, with nothing logged. No other request changes. */
  lemma CriticalAnswers(b: Setting, s: System, tid: nat)
    requires tid in s.jobs && s.jobs[tid].reading.Some?
    ensures var t := Next(b, s, Critical(tid));
            && t.jobs - {tid} == s.jobs - {tid} && t.clock == s.clock
            && (tid in t.jobs <==> WaitsForApproval(s.jobs[tid]) && t.log != s.log)
            && (tid in t.jobs ==> t.jobs[tid].reading.None? && !WaitsForApproval(t.jobs[tid]) && t.issued == s.issued)
            && (t.issued != s.issued <==> !WaitsForApproval(s.jobs[tid]) && t.log != s.log)
  {
  }

  /* ---------- the invariant ---------- */

  /** The ledger respects its cap and remembers every consumption that has not expired. */
  ghost predicate LedgerSound(b: Setting, s: System) {
    && |s.ledger| <= b.cap
    && (forall i :: 0 <= i < |s.log| ==> s.log[i].at <= s.clock)
    && (forall i :: 0 <= i < |s.log| ==>
          s.log[i].expiry <= s.clock || (s.log[i].nonce in s.ledger && s.ledger[s.log[i].nonce] == s.log[i].expiry))
    && (forall t :: t in s.jobs && s.jobs[t].reading.Some? ==> s.jobs[t].reading.value <= s.clock)
  }

  /** A nonce is consumed again only once the clock has reached the expiry of its earlier consumption. */
  ghost predicate NoEarlyReuse(s: System) {
    forall i, j :: 0 <= i < j < |s.log| && s.log[i].nonce == s.log[j].nonce ==> s.log[i].expiry <= s.log[j].at
  }

  ghost predicate EntryOf(s: System, a: Option<Approval>, entry: Option<nat>) {
    entry.Some? ==>
      && a.Some? && entry.value < |s.log|
      && s.log[entry.value].nonce == a.value.nonce && s.log[entry.value].expiry == a.value.validUntil
  }

  /** Every grant that needed an approval has a consumption of that approval to itself. */
  ghost predicate EntriesSound(s: System) {
    && (forall t :: t in s.jobs ==> EntryOf(s, s.jobs[t].adm.approval, s.jobs[t].entry))
    && (forall i :: 0 <= i < |s.issued| ==> EntryOf(s, s.issued[i].job.adm.approval, s.issued[i].job.entry))
    && (forall i :: 0 <= i < |s.issued| ==> (s.issued[i].job.adm.approval.Some? <==> s.issued[i].job.entry.Some?))
    && (forall t, u :: t in s.jobs && u in s.jobs && t != u && s.jobs[t].entry.Some? ==>
         s.jobs[t].entry != s.jobs[u].entry)
    && (forall i, j :: 0 <= i < j < |s.issued| && s.issued[i].job.entry.Some? ==>
         s.issued[i].job.entry != s.issued[j].job.entry)
    && (forall t, i :: t in s.jobs && 0 <= i < |s.issued| && s.jobs[t].entry.Some? ==>
         s.jobs[t].entry != s.issued[i].job.entry)
  }

  ghost predicate SystemSound(b: Setting, s: System) {
    LedgerSound(b, s) && NoEarlyReuse(s) && EntriesSound(s)
  }

  /** One critical section: what a successful consumption means for the ledger. */
  lemma ConsumeKeepsLive(ledger: Ledger, cap: nat, nonce: Str, expiry: real, reading: real)
    requires |ledger| <= cap
    ensures var (l, refused) := Consume(ledger, cap, nonce, Some(expiry), reading);
            && |l| <= cap
            && (forall n :: n in ledger && reading < ledger[n] ==> n in l && l[n] == ledger[n])
            && (refused.None? ==> nonce !in ledger && nonce in l && l[nonce] == expiry)
  {
    var live := map n | n in ledger && reading < ledger[n] :: ledger[n];
    assert live.Keys <= ledger.Keys;
    SubsetSize(live.Keys, ledger.Keys);
  }

  lemma {:induction false} SubsetSize<T>(a: set<T>, b: set<T>)
    requires a <= b
    ensures |a| <= |b|
    decreases |a|
  {
    if x :| x in a { SubsetSize(a - {x}, b - {x}); }
  }

  lemma ConsumptionKeepsSound(b: Setting, s: System, l: Ledger, nonce: Str, expiry: real, reading: real, s': System)
    requires LedgerSound(b, s) && NoEarlyReuse(s) && reading <= s.clock
    requires Consume(s.ledger, b.cap, nonce, Some(expiry), reading) == (l, None)
    requires s'.clock == s.clock && s'.ledger == l && s'.log == s.log + [Consumption(nonce, expiry, s.clock)]
    requires forall t :: t in s'.jobs && s'.jobs[t].reading.Some? ==> s'.jobs[t].reading.value <= s.clock
    ensures LedgerSound(b, s') && NoEarlyReuse(s')
  {
    ConsumeKeepsLive(s.ledger, b.cap, nonce, expiry, reading);
  }

  lemma RefusalKeepsSound(b: Setting, s: System, l: Ledger, nonce: Str, expiry: real, reading: real, s': System)
    requires LedgerSound(b, s) && NoEarlyReuse(s) && reading <= s.clock
    requires Consume(s.ledger, b.cap, nonce, Some(expiry), reading).0 == l
    requires s'.clock == s.clock && s'.ledger == l && s'.log == s.log
    requires forall t :: t in s'.jobs && s'.jobs[t].reading.Some? ==> s'.jobs[t].reading.value <= s.clock
    ensures Consume(s.ledger, b.cap, nonce, Some(expiry), reading).1.Some? ==> LedgerSound(b, s') && NoEarlyReuse(s')
  {
    ConsumeKeepsLive(s.ledger, b.cap, nonce, expiry, reading);
  }

  lemma ApprovalKeepsSound(b: Setting, s: System, tid: nat)
    requires SystemSound(b, s) && tid in s.jobs && s.jobs[tid].reading.Some? && WaitsForApproval(s.jobs[tid])
    ensures SystemSound(b, ApprovalSection(b, s, tid))
  {
    var s' := ApprovalSection(b, s, tid);
    var j := s.jobs[tid];
    var p := j.adm.approval.value;
    var (l, refused) := Consume(s.ledger, b.cap, p.nonce, Some(p.validUntil), j.reading.value);
    if refused.None? {
      ConsumptionKeepsSound(b, s, l, p.nonce, p.validUntil, j.reading.value, s');
    } else {
      RefusalKeepsSound(b, s, l, p.nonce, p.validUntil, j.reading.value, s');
    }
  }

  lemma FinishConsumes(c: Crypto, ledger: Ledger, cap: nat, req: Request, adm: Admission, uid: int, e: Entropy)
    ensures var (l, r) := Finish(c, ledger, cap, req, adm, uid, e);
            && (l, if r.Ok? then None else Some(r.error))
                 == Consume(ledger, cap, e.grantNonce, Some(e.now + DEFAULT_GRANT_TTL), e.grantReading)
            && (r.Ok? ==> r.value.expiresAt == e.now + DEFAULT_GRANT_TTL && r.value.nonce == e.grantNonce)
  {
  }

  lemma GrantKeepsEntries(s: System, tid: nat, c: Consumption, g: Grant, s': System)
    requires EntriesSound(s) && tid in s.jobs && !WaitsForApproval(s.jobs[tid])
    requires s'.jobs == s.jobs - {tid} && s'.log == s.log + [c]
    requires s'.issued == s.issued + [Issued(g, s.jobs[tid])]
    ensures EntriesSound(s')
  {
    forall i | 0 <= i < |s'.issued|
      ensures EntryOf(s', s'.issued[i].job.adm.approval, s'.issued[i].job.entry)
              && (s'.issued[i].job.adm.approval.Some? <==> s'.issued[i].job.entry.Some?)
    {
      if i < |s.issued| {
        assert s'.issued[i] == s.issued[i];
      } else {
        assert EntryOf(s, s.jobs[tid].adm.approval, s.jobs[tid].entry);
      }
    }
  }

  lemma DropKeepsEntries(s: System, tid: nat, s': System)
    requires EntriesSound(s) && s'.jobs == s.jobs - {tid} && s'.log == s.log && s'.issued == s.issued
    ensures EntriesSound(s')
  {
    forall t | t in s'.jobs ensures EntryOf(s', s'.jobs[t].adm.approval, s'.jobs[t].entry) {
      assert EntryOf(s, s.jobs[t].adm.approval, s.jobs[t].entry);
    }
    forall i | 0 <= i < |s'.issued| ensures EntryOf(s', s'.issued[i].job.adm.approval, s'.issued[i].job.entry) {
      assert EntryOf(s, s.issued[i].job.adm.approval, s.issued[i].job.entry);
    }
  }

  lemma GrantKeepsSound(b: Setting, s: System, tid: nat)
    requires SystemSound(b, s) && tid in s.jobs && s.jobs[tid].reading.Some? && !WaitsForApproval(s.jobs[tid])
    ensures SystemSound(b, GrantSection(b, s, tid))
  {
    var s' := GrantSection(b, s, tid);
    var j := s.jobs[tid];
    var e := j.entropy.(grantReading := j.reading.value);
    var (l, r) := Finish(b.cfg.crypto, s.ledger, b.cap, j.req, j.adm, j.uid, e);
    FinishConsumes(b.cfg.crypto, s.ledger, b.cap, j.req, j.adm, j.uid, e);
    if r.Ok? {
      ConsumptionKeepsSound(b, s, l, e.grantNonce, e.now + DEFAULT_GRANT_TTL, j.reading.value, s');
      GrantKeepsEntries(s, tid, s'.log[|s.log|], r.value, s');
    } else {
      RefusalKeepsSound(b, s, l, e.grantNonce, e.now + DEFAULT_GRANT_TTL, j.reading.value, s');
      DropKeepsEntries(s, tid, s');
    }
  }

  /** Storing a job that has not consumed more than before, with a reading not ahead of the clock. */
  lemma JobKeepsSound(b: Setting, s: System, tid: nat, j: Job)
    requires SystemSound(b, s) && (j.reading.Some? ==> j.reading.value <= s.clock)
    requires j.entry.None? || (tid in s.jobs && j.entry == s.jobs[tid].entry && j.adm == s.jobs[tid].adm)
    ensures SystemSound(b, s.(jobs := s.jobs[tid := j]))
  {
    JobKeepsEntries(s, tid, j);
  }

  lemma JobKeepsEntries(s: System, tid: nat, j: Job)
    requires EntriesSound(s)
    requires j.entry.None? || (tid in s.jobs && j.entry == s.jobs[tid].entry && j.adm == s.jobs[tid].adm)
    ensures EntriesSound(s.(jobs := s.jobs[tid := j]))
  {
    var s' := s.(jobs := s.jobs[tid := j]);
    forall t | t in s'.jobs ensures EntryOf(s', s'.jobs[t].adm.approval, s'.jobs[t].entry) {
      assert t in s.jobs ==> EntryOf(s, s.jobs[t].adm.approval, s.jobs[t].entry);
    }
    forall i | 0 <= i < |s'.issued| ensures EntryOf(s', s'.issued[i].job.adm.approval, s'.issued[i].job.entry) {
      assert EntryOf(s, s.issued[i].job.adm.approval, s.issued[i].job.entry);
    }
  }

  lemma TickKeepsSound(b: Setting, s: System, d: real)
    requires SystemSound(b, s) && d >= 0.0
    ensures SystemSound(b, s.(clock := s.clock + d))
  {
    var s' := s.(clock := s.clock + d);
    forall t | t in s'.jobs ensures EntryOf(s', s'.jobs[t].adm.approval, s'.jobs[t].entry) {
      assert EntryOf(s, s.jobs[t].adm.approval, s.jobs[t].entry);
    }
    forall i | 0 <= i < |s'.issued| ensures EntryOf(s', s'.issued[i].job.adm.approval, s'.issued[i].job.entry) {
      assert EntryOf(s, s.issued[i].job.adm.approval, s.issued[i].job.entry);
    }
  }

  lemma ArrivalKeepsSound(b: Setting, s: System, tid: nat, req: Request, uid: int, grantId: Str, grantNonce: Str)
    requires SystemSound(b, s)
    ensures SystemSound(b, Next(b, s, Arrive(tid, req, uid, grantId, grantNonce)))
  {
    var r := Admit(b.cfg, b.manifests, req, s.clock);
    if r.Ok? && tid !in s.jobs {
      var e := Entropy(s.clock, s.clock, s.clock, grantId, grantNonce);
      JobKeepsSound(b, s, tid, Job(req, r.value, uid, e, None, None));
    }
  }

  lemma NextKeepsSound(b: Setting, s: System, step: Step)
    requires SystemSound(b, s)
    ensures SystemSound(b, Next(b, s, step))
  {
    match step
    case Tick(d) => if d >= 0.0 { TickKeepsSound(b, s, d); }
    case Arrive(tid, req, uid, grantId, grantNonce) => ArrivalKeepsSound(b, s, tid, req, uid, grantId, grantNonce);
    case Read(tid) =>
      if tid in s.jobs { JobKeepsSound(b, s, tid, s.jobs[tid].(reading := Some(s.clock))); }
    case Critical(tid) =>
      if tid in s.jobs && s.jobs[tid].reading.Some? {
        if WaitsForApproval(s.jobs[tid]) { ApprovalKeepsSound(b, s, tid); } else { GrantKeepsSound(b, s, tid); }
      }
  }

  /** In every interleaving the ledger stays within its cap, and a nonce consumed with some expiry is consumed again
      only at a clock that has reached that expiry. */
  lemma {:induction false} RunKeepsSound(b: Setting, s: System, steps: seq<Step>)
    requires SystemSound(b, s)
    ensures SystemSound(b, Run(b, s, steps))
    decreases |steps|
  {
    if steps != [] {
      NextKeepsSound(b, s, steps[0]);
      RunKeepsSound(b, Next(b, s, steps[0]), steps[1..]);
    }
  }

  /** The same for the runs of a new broker, spelt out. */
  lemma NonceReuseIsLate(b: Setting, clock: real, steps: seq<Step>)
    ensures var s := Run(b, Initial(clock), steps);
            && |s.ledger| <= b.cap
            && forall i, j :: 0 <= i < j < |s.log| && s.log[i].nonce == s.log[j].nonce ==>
                 s.log[i].expiry <= s.log[j].at
  {
    RunKeepsSound(b, Initial(clock), steps);
  }

  /** Every approval-backed grant of a run consumed its approval before that approval's end. */
  ghost predicate InTime(s: System) {
    forall i :: 0 <= i < |s.issued| && s.issued[i].job.entry.Some? && s.issued[i].job.entry.value < |s.log| ==>
      s.log[s.issued[i].job.entry.value].at < s.log[s.issued[i].job.entry.value].expiry
  }

  /** Two grants of a run that rest on approvals with the same nonce: one of them consumed its approval at a clock that
      had reached the end of the other's. */
  lemma SameNonceIsLate(b: Setting, clock: real, steps: seq<Step>, i: nat, j: nat)
    requires var s := Run(b, Initial(clock), steps);
             && i < j < |s.issued| && s.issued[i].job.adm.approval.Some? && s.issued[j].job.adm.approval.Some?
             && s.issued[i].job.adm.approval.value.nonce == s.issued[j].job.adm.approval.value.nonce
    ensures var s := Run(b, Initial(clock), steps);
            var (p, q) := (s.issued[i].job.adm.approval.value, s.issued[j].job.adm.approval.value);
            exists m, n :: s.issued[i].job.entry == Some(m) && s.issued[j].job.entry == Some(n) && m < |s.log|
              && n < |s.log|
              && (p.validUntil <= s.log[n].at || q.validUntil <= s.log[m].at)
  {
    RunKeepsSound(b, Initial(clock), steps);
    var s := Run(b, Initial(clock), steps);
    assert EntryOf(s, s.issued[i].job.adm.approval, s.issued[i].job.entry)
      && EntryOf(s, s.issued[j].job.adm.approval, s.issued[j].job.entry);
    var m, n := s.issued[i].job.entry.value, s.issued[j].job.entry.value;
    assert s.issued[i].job.entry != s.issued[j].job.entry;
    assert m < n ==> s.log[m].expiry <= s.log[n].at;
    assert n < m ==> s.log[n].expiry <= s.log[m].at;
  }

  /** If both consumptions came before the end of the approval, two grants of a run do not rest on the same nonce with
      the same end of validity. */
  lemma OneGrantPerNonce(b: Setting, clock: real, steps: seq<Step>, i: nat, j: nat)
    requires var s := Run(b, Initial(clock), steps);
             && InTime(s) && i <= j < |s.issued|
             && s.issued[i].job.adm.approval.Some? && s.issued[j].job.adm.approval.Some?
             && s.issued[i].job.adm.approval.value.nonce == s.issued[j].job.adm.approval.value.nonce
             && s.issued[i].job.adm.approval.value.validUntil == s.issued[j].job.adm.approval.value.validUntil
    ensures i == j
  {
    if i < j {
      RunKeepsSound(b, Initial(clock), steps);
      SameNonceIsLate(b, clock, steps, i, j);
    }
  }

  /* ---------- what every grant of a run rests on ---------- */

  /** The request passed the admission checks at its arrival. */
  ghost predicate JobAdmitted(b: Setting, j: Job) {
    Admissible(b.cfg, b.manifests, j.req, j.entropy.now, j.adm)
  }

  function GrantFor(b: Setting, j: Job): Grant {
    IssueGrant(b.cfg.crypto, j.req, j.adm, j.uid, j.entropy.now, j.entropy.now + DEFAULT_GRANT_TTL,
               j.entropy.grantId, j.entropy.grantNonce)
  }

  /** The outcome of the admission checks at the arrival of the request. */
  predicate Arrived(b: Setting, j: Job) {
    Admit(b.cfg, b.manifests, j.req, j.entropy.now) == Ok(j.adm)
  }

  predicate SameRequest(j: Job, k: Job) {
    j.req == k.req && j.adm == k.adm && j.entropy == k.entropy
  }

  /** A property of a request, which its reading and its entry do not change. */
  ghost predicate OfRequest(ok: Job -> bool) {
    forall j, k :: SameRequest(j, k) && ok(j) ==> ok(k)
  }

  /** All requests of the system, in flight or granted, have the property. */
  ghost predicate AllJobs(ok: Job -> bool, s: System) {
    && (forall t :: t in s.jobs ==> ok(s.jobs[t]))
    && (forall i :: 0 <= i < |s.issued| ==> ok(s.issued[i].job))
  }

  /** Grants are what was to be issued for their requests, and no blank nonce is consumed. */
  ghost predicate Genuine(b: Setting, s: System) {
    && (forall i :: 0 <= i < |s.issued| ==> s.issued[i].grant == GrantFor(b, s.issued[i].job))
    && (forall i :: 0 <= i < |s.log| ==> Stripped(s.log[i].nonce) != [])
  }

  lemma FinishIssues(b: Setting, s: System, j: Job, reading: real)
    ensures var (l, r) :=
            Finish(b.cfg.crypto, s.ledger, b.cap, j.req, j.adm, j.uid, j.entropy.(grantReading := reading));
            r.Ok? ==> r.value == GrantFor(b, j) && Stripped(j.entropy.grantNonce) != []
  {
  }

  /** A step leaves the requests it does not bring in as they are, and grants at most one of them. */
  ghost predicate JobsGoOn(b: Setting, s: System, s': System, step: Step) {
    && (forall t :: t in s'.jobs ==>
          || (t in s.jobs && SameRequest(s'.jobs[t], s.jobs[t]))
          || (step.Arrive? && Arrived(b, s'.jobs[t]) && s'.jobs[t].req == step.req))
    && (s'.issued == s.issued
        || exists t :: t in s.jobs && s'.issued == s.issued + [Issued(GrantFor(b, s.jobs[t]), s.jobs[t])])
    && (s'.log == s.log || exists c: Consumption :: s'.log == s.log + [c] && Stripped(c.nonce) != [])
  }

  lemma ApprovalGoesOn(b: Setting, s: System, tid: nat)
    requires tid in s.jobs && s.jobs[tid].reading.Some? && WaitsForApproval(s.jobs[tid])
    ensures JobsGoOn(b, s, ApprovalSection(b, s, tid), Critical(tid))
  {
    var p := s.jobs[tid].adm.approval.value;
    var c := Consumption(p.nonce, p.validUntil, s.clock);
    assert Stripped(p.nonce) == [] ==> ApprovalSection(b, s, tid).log == s.log;
    assert Stripped(p.nonce) != [] ==> Stripped(c.nonce) != [];
  }

  lemma GrantGoesOn(b: Setting, s: System, tid: nat)
    requires tid in s.jobs && s.jobs[tid].reading.Some?
    ensures JobsGoOn(b, s, GrantSection(b, s, tid), Critical(tid))
  {
    var j := s.jobs[tid];
    FinishIssues(b, s, j, j.reading.value);
    var s' := GrantSection(b, s, tid);
    if s'.log != s.log {
      var c := s'.log[|s.log|];
      assert s'.log == s.log + [c] && c.nonce == j.entropy.grantNonce;
    }
  }

  lemma StepGoesOn(b: Setting, s: System, step: Step)
    ensures JobsGoOn(b, s, Next(b, s, step), step)
  {
    if step.Critical? && step.tid in s.jobs && s.jobs[step.tid].reading.Some? {
      if WaitsForApproval(s.jobs[step.tid]) { ApprovalGoesOn(b, s, step.tid); } else { GrantGoesOn(b, s, step.tid); }
    }
  }

  lemma JobsInFlightAreKept(b: Setting, s: System, s': System, step: Step, ok: Job -> bool)
    requires JobsGoOn(b, s, s', step) && AllJobs(ok, s) && OfRequest(ok)
    requires step.Arrive? ==> forall j: Job :: Arrived(b, j) && j.req == step.req ==> ok(j)
    ensures forall t :: t in s'.jobs ==> ok(s'.jobs[t])
  {
  }

  lemma GrantedJobsAreKept(s: System, i: Issued, ok: Job -> bool)
    requires AllJobs(ok, s) && ok(i.job)
    ensures forall k :: 0 <= k < |s.issued + [i]| ==> ok((s.issued + [i])[k].job)
  {
  }

  lemma JobsAreKept(b: Setting, s: System, s': System, step: Step, ok: Job -> bool)
    requires JobsGoOn(b, s, s', step) && AllJobs(ok, s) && OfRequest(ok)
    requires step.Arrive? ==> forall j: Job :: Arrived(b, j) && j.req == step.req ==> ok(j)
    ensures AllJobs(ok, s')
  {
    JobsInFlightAreKept(b, s, s', step, ok);
    if s'.issued != s.issued {
      var t :| t in s.jobs && s'.issued == s.issued + [Issued(GrantFor(b, s.jobs[t]), s.jobs[t])];
      GrantedJobsAreKept(s, Issued(GrantFor(b, s.jobs[t]), s.jobs[t]), ok);
    }
  }

  lemma GenuineIsKept(b: Setting, s: System, s': System, step: Step)
    requires JobsGoOn(b, s, s', step) && Genuine(b, s)
    ensures Genuine(b, s')
  {
  }

  /** Every request that arrives in these steps and is admitted has the property. */
  ghost predicate ArriveWith(b: Setting, steps: seq<Step>, ok: Job -> bool) {
    forall j: Job, k :: 0 <= k < |steps| && steps[k].Arrive? && j.req == steps[k].req && Arrived(b, j) ==> ok(j)
  }

  /** A property that every request has when it arrives holds of all requests of the run. */
  lemma {:induction false} RunKeepsJobs(b: Setting, s: System, steps: seq<Step>, ok: Job -> bool)
    requires AllJobs(ok, s) && OfRequest(ok) && Genuine(b, s)
    requires ArriveWith(b, steps, ok)
    ensures AllJobs(ok, Run(b, s, steps)) && Genuine(b, Run(b, s, steps))
    decreases |steps|
  {
    if steps != [] {
      StepGoesOn(b, s, steps[0]);
      JobsAreKept(b, s, Next(b, s, steps[0]), steps[0], ok);
      GenuineIsKept(b, s, Next(b, s, steps[0]), steps[0]);
      forall k | 0 <= k < |steps[1..]| ensures steps[1..][k] == steps[k + 1] { }
      RunKeepsJobs(b, Next(b, s, steps[0]), steps[1..], ok);
    }
  }

  lemma RunAdmitsAll(b: Setting, clock: real, steps: seq<Step>)
    ensures AllJobs(j => JobAdmitted(b, j), Run(b, Initial(clock), steps)) && Genuine(b, Run(b, Initial(clock), steps))
  {
    forall j: Job | Arrived(b, j) ensures JobAdmitted(b, j) {
      AdmitIff(b.cfg, b.manifests, j.req, j.entropy.now, j.adm);
    }
    RunKeepsJobs(b, Initial(clock), steps, j => JobAdmitted(b, j));
  }

  /** In every interleaving a grant was issued without an approval exactly if its request need not be approved, and
      otherwise on the request's own approval of exactly this execution, valid at the time of issue. */
  lemma EveryGrantIsWarranted(b: Setting, clock: real, steps: seq<Step>, i: nat)
    requires i < |Run(b, Initial(clock), steps).issued|
    ensures var (g, j) := (Run(b, Initial(clock), steps).issued[i].grant, Run(b, Initial(clock), steps).issued[i].job);
            && Permitted(b.manifests, j.req) && !ForgedIngress(b.cfg, j.req.provenance)
            && (j.adm.approval.Some? <==> MustBeApproved(j.req))
            && (MustBeApproved(j.req) ==>
                 j.adm.approval == j.req.approval && ApprovedNow(b.cfg.crypto, j.req, g.issuedAt))
  {
    EveryGrantIsJustified(b, clock, steps, i);
    var s := Run(b, Initial(clock), steps);
    var j := s.issued[i].job;
    AdmissibleIsWarranted(b.cfg, b.manifests, j.req, s.issued[i].grant.issuedAt, j.adm);
  }

  /** In every interleaving each issued grant names a primitive its manifest permits, carries the manifest's resources
      and the hash of the requested execution, was admitted at its time of issue (with a valid approval if one was
      needed, whose nonce it consumed), is signed by the broker, and is accepted by it exactly during the 30 seconds
      from its issue. */
  lemma EveryGrantIsJustified(b: Setting, clock: real, steps: seq<Step>, i: nat)
    requires i < |Run(b, Initial(clock), steps).issued|
    ensures var s := Run(b, Initial(clock), steps);
            var (g, j) := (s.issued[i].grant, s.issued[i].job);
            && Admissible(b.cfg, b.manifests, j.req, g.issuedAt, j.adm)
            && g.primitive == j.req.primitive && g.primitive in j.adm.manifest.allowedPrimitives
            && g.resources == j.adm.manifest.allowedResources && g.taskId == j.req.taskId && g.subjectUid == j.uid
            && (j.adm.approval.Some? ==>
                 j.entry.Some? && j.entry.value < |s.log| && s.log[j.entry.value].nonce == j.adm.approval.value.nonce)
            && g.signature == SignGrant(b.cfg.crypto, g)
            && forall t: real, u: int, h: Str ::
                 VerifyGrant(b.cfg.crypto, g, u, h, t) <==>
                 g.issuedAt <= t < g.issuedAt + 30.0 && u == j.uid && h == ExecutionHash(b.cfg.crypto, j.req.semantics)
  {
    RunAdmitsAll(b, clock, steps);
    RunKeepsSound(b, Initial(clock), steps);
    var s := Run(b, Initial(clock), steps);
    var j := s.issued[i].job;
    assert JobAdmitted(b, j) && s.issued[i].grant == GrantFor(b, j);
    assert EntryOf(s, j.adm.approval, j.entry);
    IssueGrantIsSigned(b.cfg.crypto, j.req, j.adm, j.uid, j.entropy.now, j.entropy.now + DEFAULT_GRANT_TTL,
                       j.entropy.grantId, j.entropy.grantNonce);
  }
}
