/** The authority broker's request pipeline, the approval service, the grant checks of broker and process gate, and the
    nonce ledger. Clock readings and random identifiers are parameters. */
module AuthorityBroker {
  import opened Wrappers
  import opened Text
  import opened CanonicalJson
  import opened AuthorityModels

  const MAX_GRANT_TTL: real := 60.0
  const DEFAULT_GRANT_TTL: real := 30.0
  const MAX_APPROVAL_TTL: real := 120.0
  const NONCE_RETENTION: real := 120.0

  datatype FailureCode =
    | SignatureTampered | ClockUnreliable | TtlExpired | ReplayAttack | SemanticsDrift
    | UnauthorizedGrant | InvalidManifest | PolicyViolation | NonceStoreSaturated

  /** The hash and the two signing functions. A signature is accepted exactly when it is the signing
      function's value. */
  datatype Crypto = Crypto(sha: string -> Str, brokerSign: string -> Str, approvalSign: Str -> Str)

  ghost predicate Ideal(c: Crypto) {
    && (forall x, y :: c.sha(x) == c.sha(y) ==> x == y)
    && (forall x, y :: c.brokerSign(x) == c.brokerSign(y) ==> x == y)
    && (forall x, y :: c.approvalSign(x) == c.approvalSign(y) ==> x == y)
    && (forall x :: c.brokerSign(x) != [])
    && (forall x :: c.approvalSign(x) != [])
  }

  /** Ideal functions exist, so nothing below is stated about no functions at all. */
  lemma IdealCryptoExists()
    ensures exists c :: Ideal(c)
  {
    var c := Crypto(FromAscii, x => [0] + FromAscii(x), x => [0] + x);
    forall x, y | FromAscii(x) == FromAscii(y) ensures x == y {
      assert |x| == |FromAscii(x)| == |FromAscii(y)| == |y|;
      forall i | 0 <= i < |x| ensures x[i] == y[i] {
        assert FromAscii(x)[i] == x[i] as int && FromAscii(y)[i] == y[i] as int;
      }
    }
    forall x, y | c.brokerSign(x) == c.brokerSign(y) ensures x == y {
      assert c.brokerSign(x)[1..] == FromAscii(x) && c.brokerSign(y)[1..] == FromAscii(y);
    }
    forall x, y | c.approvalSign(x) == c.approvalSign(y) ensures x == y {
      assert c.approvalSign(x)[1..] == x && c.approvalSign(y)[1..] == y;
    }
    assert Ideal(c);
  }

  function ExecutionHash(c: Crypto, s: Semantics): Str {
    c.sha(Preimage(s))
  }

  /* ---------- human approvals ---------- */

  function SignApproval(c: Crypto, p: Approval): Str {
    c.approvalSign(c.sha(ApprovalText(p)))
  }

  function ClampTtl(ttl: real): real {
    var t := if ttl < 1.0 then 1.0 else ttl;
    if t > MAX_APPROVAL_TTL then MAX_APPROVAL_TTL else t
  }

  function IssueApproval(c: Crypto, approverId: Str, executionHash: Str, ttl: real, now: real, tokenId: Str, nonce: Str)
      : Approval {
    var p := Approval(tokenId, approverId, [], now, now + ClampTtl(ttl), nonce, executionHash);
    p.(signature := SignApproval(c, p))
  }

  predicate VerifyApproval(c: Crypto, p: Approval, expectedHash: Option<Str>, now: real) {
    if now > p.validUntil then false
    else if p.issuedAt > now + 1.0 then false
    else if p.validUntil - p.issuedAt > MAX_APPROVAL_TTL then false
    else if expectedHash.Some? && p.executionHash != expectedHash.value then false
    else if p.signature == [] then false
    else p.signature == SignApproval(c, p)
  }

  /** An issued approval is accepted for its own execution hash exactly from one second before its issue until the end
      of its time to live, which is the requested one, but at least 1 and at most 120 seconds. */
  lemma ApprovalWindow(c: Crypto, approverId: Str, h: Str, ttl: real, now: real, tokenId: Str, nonce: Str,
      expected: Str, t: real)
    requires Ideal(c)
    ensures var p := IssueApproval(c, approverId, h, ttl, now, tokenId, nonce);
            && p.validUntil == now + (if ttl <= 1.0 then 1.0 else if ttl >= 120.0 then 120.0 else ttl)
            && (VerifyApproval(c, p, Some(expected), t) <==> expected == h && now - 1.0 <= t <= p.validUntil)
  {
    var p := IssueApproval(c, approverId, h, ttl, now, tokenId, nonce);
    assert ApprovalValues(p) == ApprovalValues(p.(signature := []));
  }

  /** An approval that carries the signature of an issued one is accepted only if both agree in all signed fields. */
  lemma ApprovalTamperEvident(c: Crypto, p: Approval, q: Approval, expected: Option<Str>, now: real)
    requires Ideal(c) && ApprovalPaired(p) && ApprovalPaired(q)
    requires p.signature == SignApproval(c, p) && q.signature == p.signature && VerifyApproval(c, q, expected, now)
    ensures Stripped(p.nonce) == Stripped(q.nonce) && Stripped(p.executionHash) == Stripped(q.executionHash)
    ensures Ticks(p.validUntil) == Ticks(q.validUntil) && Ticks(p.issuedAt) == Ticks(q.issuedAt)
    ensures Stripped(p.tokenId) == Stripped(q.tokenId) && Stripped(p.approverId) == Stripped(q.approverId)
  {
    ApprovalTextIff(p, q);
  }

  /* ---------- the nonce ledger ---------- */

  type Ledger = map<Str, real>

  /** Checking and consuming a nonce inside the lock: the new ledger, and the reason if the nonce was refused. Expired
      entries are removed once the nonce itself is known not to be stored, even if the call is then refused. */
  function Consume(ledger: Ledger, cap: nat, nonce: Str, expiresAt: Option<real>, now: real)
      : (r: (Ledger, Option<FailureCode>)) {
    if Stripped(nonce) == [] then (ledger, Some(ReplayAttack))
    else if nonce in ledger then (ledger, Some(ReplayAttack))
    else
      var live := map n | n in ledger && now < ledger[n] :: ledger[n];
      if |live| >= cap then (live, Some(NonceStoreSaturated))
      else (live[nonce := if expiresAt.Some? then expiresAt.value else now + NONCE_RETENTION], None)
  }

  /** A nonce is refused as a replay exactly if it is blank or stored, and then nothing changes. Otherwise exactly the
      expired entries are forgotten, and the nonce is stored with its expiry, by default two minutes ahead, unless as
      many entries as the cap allows are left. */
  lemma ConsumeOutcome(ledger: Ledger, cap: nat, nonce: Str, expiresAt: Option<real>, now: real)
    ensures var (l, refused) := Consume(ledger, cap, nonce, expiresAt, now);
            var live := set n | n in ledger && now < ledger[n];
            && (refused == Some(ReplayAttack) <==> Stripped(nonce) == [] || nonce in ledger)
            && (refused == Some(ReplayAttack) ==> l == ledger)
            && (refused == Some(NonceStoreSaturated) <==>
                Stripped(nonce) != [] && nonce !in ledger && |live| >= cap)
            && (refused == Some(NonceStoreSaturated) ==> nonce !in l)
            && (refused.None? <==> Stripped(nonce) != [] && nonce !in ledger && |live| < cap)
            && (refused.None? ==> nonce in l && l[nonce] == if expiresAt.Some? then expiresAt.value else now + 120.0)
            && (refused != Some(ReplayAttack) ==>
                  forall n :: n != nonce ==>
                    (n in l <==> n in live) && (n in l ==> n in ledger && l[n] == ledger[n]))
  {
    var live := map n | n in ledger && now < ledger[n] :: ledger[n];
    assert live.Keys == set n | n in ledger && now < ledger[n];
    assert |live| == |live.Keys|;
  }

  /* ---------- requests ---------- */

  datatype Manifest = Manifest(manifestId: Str, allowedPrimitives: seq<Str>, allowedResources: seq<Str>)

  datatype Provenance = Provenance(callerId: Str, originSource: Str, taintTag: Str, ingressSignature: Str)

  datatype Request = Request(requestId: Str, taskId: Str, primitive: Str, provenance: Provenance, semantics: Semantics,
      approval: Option<Approval>)

  datatype Config = Config(crypto: Crypto, provenanceVerifier: Option<Provenance -> bool>, approvalVerifier: bool)

  function HighRiskPrimitives(): set<Str> {
    {FromAscii("process_execution"), FromAscii("destructive_storage"), FromAscii("arbitrary_network"),
      FromAscii("agent_spawn")}
  }

  function Untrusted(): Str { FromAscii("EXTERNAL_UNTRUSTED") }

  function TrustedTaints(): set<Str> { {FromAscii("HUMAN_CONFIRMED"), FromAscii("SYSTEM_INTERNAL")} }

  /** A claim of trust without an ingress signature is downgraded; with a verifier, a signature must be valid. */
  function EffectiveTaint(cfg: Config, p: Provenance): Result<Str, FailureCode> {
    if cfg.provenanceVerifier.Some? then
      if p.ingressSignature != [] then
        if cfg.provenanceVerifier.value(p) then Ok(p.taintTag) else Err(SignatureTampered)
      else if p.taintTag in TrustedTaints() then Ok(Untrusted())
      else Ok(p.taintTag)
    else if p.taintTag in TrustedTaints() then
      if p.ingressSignature == [] then Ok(Untrusted()) else Ok(p.taintTag)
    else Ok(p.taintTag)
  }

  predicate NeedsApproval(primitive: Str, taint: Str) {
    primitive in HighRiskPrimitives() || taint == Untrusted()
  }

  /** What the checks before the first nonce is consumed establish. */
  datatype Admission = Admission(manifest: Manifest, executionHash: Str, approval: Option<Approval>)

  function Admit(cfg: Config, manifests: map<Str, Manifest>, req: Request, now: real): Result<Admission, FailureCode> {
    if req.taskId !in manifests then Err(InvalidManifest)
    else if req.primitive !in manifests[req.taskId].allowedPrimitives then Err(PolicyViolation)
    else match EffectiveTaint(cfg, req.provenance)
      case Err(e) => Err(e)
      case Ok(taint) =>
        var h := ExecutionHash(cfg.crypto, req.semantics);
        if !NeedsApproval(req.primitive, taint) then Ok(Admission(manifests[req.taskId], h, None))
        else if req.approval.None? then Err(UnauthorizedGrant)
        else if !cfg.approvalVerifier then Err(UnauthorizedGrant)
        else
          var p := req.approval.value;
          if VerifyApproval(cfg.crypto, p, Some(h), now) then Ok(Admission(manifests[req.taskId], h, Some(p)))
          else if p.validUntil < now then Err(TtlExpired)
          else if p.executionHash != h then Err(SemanticsDrift)
          else Err(SignatureTampered)
  }

  /** The time checks on a grant about to be issued. */
  function CheckGrantTimes(issuedAt: real, expiresAt: real, now: real): Option<FailureCode> {
    if expiresAt - issuedAt > MAX_GRANT_TTL then Some(TtlExpired)
    else if issuedAt > expiresAt || issuedAt < now - 1.0 then Some(ClockUnreliable)
    else None
  }

  function SignGrant(c: Crypto, g: Grant): Str {
    c.brokerSign(GrantPayload(g))
  }

  function IssueGrant(c: Crypto, req: Request, adm: Admission, uid: int, issuedAt: real, expiresAt: real, grantId: Str,
      nonce: Str): Grant {
    var g := Grant(grantId, issuedAt, expiresAt, nonce, uid, req.primitive, adm.executionHash, [req.primitive], [],
      req.taskId, adm.manifest.allowedResources);
    g.(signature := SignGrant(c, g))
  }

  /** The clock readings of one request: at its start, and before each of the two nonces is consumed; and the random
      identifiers. */
  datatype Entropy = Entropy(now: real, approvalReading: real, grantReading: real, grantId: Str, grantNonce: Str)

  function ConsumeApproval(ledger: Ledger, cap: nat, adm: Admission, reading: real): (Ledger, Option<FailureCode>) {
    if adm.approval.None? then (ledger, None)
    else Consume(ledger, cap, adm.approval.value.nonce, Some(adm.approval.value.validUntil), reading)
  }

  /** From the end of the admission checks to the signed grant. */
  function Finish(c: Crypto, ledger: Ledger, cap: nat, req: Request, adm: Admission, uid: int, e: Entropy)
      : (Ledger, Result<Grant, FailureCode>) {
    var expiresAt := e.now + DEFAULT_GRANT_TTL;
    var bad := CheckGrantTimes(e.now, expiresAt, e.now);
    if bad.Some? then (ledger, Err(bad.value))
    else
      var (l, refused) := Consume(ledger, cap, e.grantNonce, Some(expiresAt), e.grantReading);
      if refused.Some? then (l, Err(refused.value))
      else (l, Ok(IssueGrant(c, req, adm, uid, e.now, expiresAt, e.grantId, e.grantNonce)))
  }

  /** One request that no other thread interrupts. */
  function Evaluate(cfg: Config, manifests: map<Str, Manifest>, ledger: Ledger, cap: nat, req: Request, uid: int,
      e: Entropy): (Ledger, Result<Grant, FailureCode>) {
    match Admit(cfg, manifests, req, e.now)
    case Err(c) => (ledger, Err(c))
    case Ok(adm) =>
      var (l, refused) := ConsumeApproval(ledger, cap, adm, e.approvalReading);
      if refused.Some? then (l, Err(refused.value)) else Finish(cfg.crypto, l, cap, req, adm, uid, e)
  }

  /* ---------- verification of grants ---------- */

  predicate VerifyGrant(c: Crypto, g: Grant, expectedUid: int, expectedHash: Str, now: real) {
    if !(g.issuedAt <= now < g.expiresAt) then false
    else if g.expiresAt - g.issuedAt > MAX_GRANT_TTL then false
    else if g.subjectUid != expectedUid then false
    else if g.executionHash != expectedHash then false
    else g.signature == SignGrant(c, g)
  }

  function ProcessPrimitives(): set<Str> {
    {FromAscii("PROCESS_EXECUTE"), FromAscii("SYSTEM_EXECUTE")}
  }

  /** The check of the process gate: no reason to refuse means the grant is accepted. */
  function GateRefusal(c: Crypto, g: Grant, s: Semantics, now: real): Option<FailureCode> {
    if g.primitive !in ProcessPrimitives() then Some(UnauthorizedGrant)
    else if now >= g.expiresAt then Some(TtlExpired)
    else if g.issuedAt > now + 1.0 then Some(ClockUnreliable)
    else if g.expiresAt - g.issuedAt > MAX_GRANT_TTL then Some(TtlExpired)
    else if g.signature == [] then Some(SignatureTampered)
    else if g.signature != SignGrant(c, g) then Some(SignatureTampered)
    else if ExecutionHash(c, s) != g.executionHash then Some(SemanticsDrift)
    else None
  }

  /** What the admission checks guarantee. */
  ghost predicate Admissible(cfg: Config, manifests: map<Str, Manifest>, req: Request, now: real, adm: Admission) {
    && req.taskId in manifests && adm.manifest == manifests[req.taskId]
    && req.primitive in adm.manifest.allowedPrimitives
    && adm.executionHash == ExecutionHash(cfg.crypto, req.semantics)
    && EffectiveTaint(cfg, req.provenance).Ok?
    && (adm.approval.Some? <==> NeedsApproval(req.primitive, EffectiveTaint(cfg, req.provenance).value))
    && (adm.approval.Some? ==>
         adm.approval == req.approval && VerifyApproval(cfg.crypto, adm.approval.value, Some(adm.executionHash), now))
  }

  /** The admission checks pass with exactly the outcomes that satisfy these conditions. */
  lemma AdmitIff(cfg: Config, manifests: map<Str, Manifest>, req: Request, now: real, adm: Admission)
    ensures Admit(cfg, manifests, req, now) == Ok(adm) <==>
            Admissible(cfg, manifests, req, now, adm) && (adm.approval.Some? ==> cfg.approvalVerifier)
  {
  }

  /* ---------- admission in terms of the request ---------- */

  /** The request claims a taint that stands for trust. */
  predicate ClaimsTrust(p: Provenance) {
    p.taintTag == FromAscii("HUMAN_CONFIRMED") || p.taintTag == FromAscii("SYSTEM_INTERNAL")
  }

  /** An ingress signature that a configured verifier does not accept. */
  predicate ForgedIngress(cfg: Config, p: Provenance) {
    cfg.provenanceVerifier.Some? && p.ingressSignature != [] && !cfg.provenanceVerifier.value(p)
  }

  /** Such a request is admitted only on an approval: a primitive of the four dangerous ones, an untrusted origin, or a
      claim of trust without a signature. */
  predicate MustBeApproved(req: Request) {
    || req.primitive == FromAscii("process_execution") || req.primitive == FromAscii("destructive_storage")
    || req.primitive == FromAscii("arbitrary_network") || req.primitive == FromAscii("agent_spawn")
    || req.provenance.taintTag == FromAscii("EXTERNAL_UNTRUSTED")
    || (ClaimsTrust(req.provenance) && req.provenance.ingressSignature == [])
  }

  predicate Permitted(manifests: map<Str, Manifest>, req: Request) {
    req.taskId in manifests && req.primitive in manifests[req.taskId].allowedPrimitives
  }

  /** An approval of exactly this execution, genuine, issued at most a second ahead, for at most two minutes, and
      not over. */
  predicate ApprovedNow(c: Crypto, req: Request, now: real) {
    && req.approval.Some?
    && var p := req.approval.value;
       && p.executionHash == c.sha(Preimage(req.semantics)) && p.signature == SignApproval(c, p) && p.signature != []
       && p.issuedAt - 1.0 <= now <= p.validUntil <= p.issuedAt + 120.0
  }

  lemma TaintParts(cfg: Config, req: Request)
    ensures EffectiveTaint(cfg, req.provenance).Ok? <==> !ForgedIngress(cfg, req.provenance)
    ensures var r := EffectiveTaint(cfg, req.provenance);
            r.Ok? ==> (MustBeApproved(req) <==> NeedsApproval(req.primitive, r.value))
  {
    assert FromAscii("HUMAN_CONFIRMED")[0] == 'H' as int && FromAscii("SYSTEM_INTERNAL")[0] == 'S' as int;
    assert FromAscii("EXTERNAL_UNTRUSTED")[0] == 'E' as int;
  }

  /** A permitted request is admitted without an approval if and only if its ingress signature is not forged and it
      need not be approved, and on its approval if and only if it must be approved, and is, by a broker that can verify
      approvals. */
  lemma AdmittedIff(cfg: Config, manifests: map<Str, Manifest>, req: Request, now: real)
    ensures var r := Admit(cfg, manifests, req, now);
            && (r.Ok? && r.value.approval.None? <==>
                Permitted(manifests, req) && !ForgedIngress(cfg, req.provenance) && !MustBeApproved(req))
            && (r.Ok? && r.value.approval.Some? <==>
                && Permitted(manifests, req) && !ForgedIngress(cfg, req.provenance) && MustBeApproved(req)
                && cfg.approvalVerifier && ApprovedNow(cfg.crypto, req, now))
            && (r.Ok? && r.value.approval.Some? ==> r.value.approval == req.approval)
            && (r.Ok? ==>
                 r.value.manifest == manifests[req.taskId]
                   && r.value.executionHash == cfg.crypto.sha(Preimage(req.semantics)))
  {
    TaintParts(cfg, req);
  }

  /** The same for whatever was admitted. */
  lemma AdmissibleIsWarranted(cfg: Config, manifests: map<Str, Manifest>, req: Request, now: real, adm: Admission)
    requires Admissible(cfg, manifests, req, now, adm)
    ensures Permitted(manifests, req) && !ForgedIngress(cfg, req.provenance)
    ensures adm.approval.Some? <==> MustBeApproved(req)
    ensures adm.approval.Some? ==> adm.approval == req.approval && ApprovedNow(cfg.crypto, req, now)
  {
    TaintParts(cfg, req);
  }

  /** Every refusal has its reason, in this order. */
  lemma RefusalReasons(cfg: Config, manifests: map<Str, Manifest>, req: Request, now: real)
    ensures var r := Admit(cfg, manifests, req, now);
            && (r == Err(InvalidManifest) <==> req.taskId !in manifests)
            && (r == Err(PolicyViolation) <==>
                req.taskId in manifests && req.primitive !in manifests[req.taskId].allowedPrimitives)
            && (Permitted(manifests, req) && ForgedIngress(cfg, req.provenance) ==> r == Err(SignatureTampered))
            && (Permitted(manifests, req) && !ForgedIngress(cfg, req.provenance) && MustBeApproved(req) ==>
                  && (r == Err(UnauthorizedGrant) <==> req.approval.None? || !cfg.approvalVerifier)
                  && (req.approval.Some? && cfg.approvalVerifier && !ApprovedNow(cfg.crypto, req, now) ==>
                      var p := req.approval.value;
                      r == Err(if p.validUntil < now then TtlExpired
                               else if p.executionHash != cfg.crypto.sha(Preimage(req.semantics)) then SemanticsDrift
                               else SignatureTampered)))
  {
    TaintParts(cfg, req);
  }

  /** What an issued grant rests on: `adm` is the outcome of the admission checks. */
  ghost predicate Justified(before: Ledger, after: Ledger, req: Request, adm: Admission, uid: int, e: Entropy,
      g: Grant) {
    && g.primitive == req.primitive && g.resources == adm.manifest.allowedResources && g.taskId == req.taskId
    && g.capabilities == [req.primitive] && g.subjectUid == uid && g.executionHash == adm.executionHash
    && g.nonce in after && after[g.nonce] == g.expiresAt
    && (g.nonce in before ==> before[g.nonce] <= e.approvalReading)
    && (adm.approval.Some? ==>
          var p := adm.approval.value;
          && p.nonce !in before
          && (e.grantReading < p.validUntil ==> p.nonce in after && after[p.nonce] == p.validUntil))
  }

  lemma IssueGrantIsSigned(c: Crypto, req: Request, adm: Admission, uid: int, issuedAt: real, expiresAt: real,
      grantId: Str, nonce: Str)
    ensures var g := IssueGrant(c, req, adm, uid, issuedAt, expiresAt, grantId, nonce);
            g.signature == SignGrant(c, g)
  {
    var g := IssueGrant(c, req, adm, uid, issuedAt, expiresAt, grantId, nonce);
    assert GrantValues(g) == GrantValues(g.(signature := []));
  }

  /** Every issued grant names a primitive its manifest permits and carries the manifest's resources; if the
      primitive is high-risk or the request effectively untrusted it rests on a valid approval of the same execution
      hash whose nonce was unused and is now consumed; and it is accepted by the broker exactly during the 30 seconds
      from its issue. */
  lemma IssuedGrantIsJustified(cfg: Config, manifests: map<Str, Manifest>, ledger: Ledger, cap: nat, req: Request,
      uid: int, e: Entropy)
    ensures var (after, r) := Evaluate(cfg, manifests, ledger, cap, req, uid, e);
            var admitted := Admit(cfg, manifests, req, e.now);
            r.Ok? ==>
              && admitted.Ok? && Admissible(cfg, manifests, req, e.now, admitted.value)
              && Justified(ledger, after, req, admitted.value, uid, e, r.value)
              && r.value.signature == SignGrant(cfg.crypto, r.value)
              && forall t: real, u: int, h: Str ::
                   VerifyGrant(cfg.crypto, r.value, u, h, t) <==>
                   e.now <= t < e.now + 30.0 && u == uid && h == admitted.value.executionHash
  {
    var admitted := Admit(cfg, manifests, req, e.now);
    if admitted.Ok? {
      var adm := admitted.value;
      AdmitIff(cfg, manifests, req, e.now, adm);
      IssueGrantIsSigned(cfg.crypto, req, adm, uid, e.now, e.now + DEFAULT_GRANT_TTL, e.grantId, e.grantNonce);
      FinishJustified(cfg.crypto, ledger, cap, req, adm, uid, e);
    }
  }

  lemma FinishJustified(c: Crypto, ledger: Ledger, cap: nat, req: Request, adm: Admission, uid: int, e: Entropy)
    ensures var (l, refused) := ConsumeApproval(ledger, cap, adm, e.approvalReading);
            var (after, r) := Finish(c, l, cap, req, adm, uid, e);
            refused.None? && r.Ok? ==> Justified(ledger, after, req, adm, uid, e, r.value)
  {
  }

  /** The process gate accepts an issued grant for a process primitive exactly from one second before its issue until it
      expires, and only for execution semantics of the same hash. */
  lemma GateWindow(cfg: Config, manifests: map<Str, Manifest>, ledger: Ledger, cap: nat, req: Request, uid: int,
      e: Entropy, s: Semantics, t: real)
    requires Ideal(cfg.crypto)
    ensures var r := Evaluate(cfg, manifests, ledger, cap, req, uid, e).1;
            r.Ok? ==>
              (GateRefusal(cfg.crypto, r.value, s, t).None? <==>
               && (req.primitive == FromAscii("PROCESS_EXECUTE") || req.primitive == FromAscii("SYSTEM_EXECUTE"))
               && e.now - 1.0 <= t < e.now + 30.0
               && Preimage(s) == Preimage(req.semantics))
  {
    var r := Evaluate(cfg, manifests, ledger, cap, req, uid, e).1;
    if r.Ok? {
      IssuedGrantIsJustified(cfg, manifests, ledger, cap, req, uid, e);
      IssuedTimes(cfg, manifests, ledger, cap, req, uid, e);
      GateOfSigned(cfg.crypto, r.value, s, t);
    }
  }

  lemma IssuedTimes(cfg: Config, manifests: map<Str, Manifest>, ledger: Ledger, cap: nat, req: Request, uid: int,
      e: Entropy)
    ensures var r := Evaluate(cfg, manifests, ledger, cap, req, uid, e).1;
            r.Ok? ==> r.value.issuedAt == e.now && r.value.expiresAt == e.now + 30.0
  {
  }

  lemma GateOfSigned(c: Crypto, g: Grant, s: Semantics, t: real)
    requires Ideal(c) && g.signature == SignGrant(c, g) && g.expiresAt == g.issuedAt + 30.0
    ensures GateRefusal(c, g, s, t).None? <==>
            g.primitive in ProcessPrimitives() && g.issuedAt - 1.0 <= t < g.issuedAt + 30.0
              && ExecutionHash(c, s) == g.executionHash
  {
  }

  /** Whatever grant is presented, the broker accepts it exactly within its own time, which is at most a minute, for its
      own user and execution, and with the broker's signature of its fields. */
  lemma BrokerAcceptsIff(c: Crypto, g: Grant, uid: int, h: Str, t: real)
    ensures VerifyGrant(c, g, uid, h, t) <==>
            && g.issuedAt <= t < g.expiresAt && g.expiresAt - g.issuedAt <= 60.0
            && g.subjectUid == uid && g.executionHash == h && g.signature == c.brokerSign(GrantPayload(g))
  {
  }

  /** For any grant for a process primitive the gate adds only one second of clock skew to the broker's own check. */
  lemma GateIsBrokerWithSkew(c: Crypto, g: Grant, s: Semantics, t: real)
    requires Ideal(c) && g.primitive in ProcessPrimitives()
    ensures VerifyGrant(c, g, g.subjectUid, ExecutionHash(c, s), t) ==> GateRefusal(c, g, s, t).None?
    ensures g.issuedAt < g.expiresAt ==>
              (GateRefusal(c, g, s, t).None? <==>
               && g.issuedAt - 1.0 <= t < g.expiresAt
               && VerifyGrant(c, g, g.subjectUid, ExecutionHash(c, s), if t < g.issuedAt then g.issuedAt else t))
    ensures g.issuedAt >= g.expiresAt ==> forall u: int, h: Str, now: real :: !VerifyGrant(c, g, u, h, now)
  {
  }

  lemma ProcessIsNotHighRisk()
    ensures ProcessPrimitives() !! HighRiskPrimitives()
  {
    forall x | x in ProcessPrimitives() ensures x[0] == 'P' as int || x[0] == 'S' as int { }
    forall x | x in HighRiskPrimitives() ensures x[0] == 'p' as int || x[0] == 'd' as int || x[0] == 'a' as int { }
  }

  /** The primitives the process gate serves are not among the high-risk ones, so an issued grant that the gate accepts
      rests on a human approval exactly if its request was effectively untrusted. */
  lemma GateAcceptsUnapprovedIff(cfg: Config, manifests: map<Str, Manifest>, ledger: Ledger, cap: nat, req: Request,
      uid: int, e: Entropy, s: Semantics, t: real)
    ensures var r := Evaluate(cfg, manifests, ledger, cap, req, uid, e).1;
            var admitted := Admit(cfg, manifests, req, e.now);
            r.Ok? && GateRefusal(cfg.crypto, r.value, s, t).None? ==>
              && admitted.Ok?
              && (admitted.value.approval.Some? <==> EffectiveTaint(cfg, req.provenance) == Ok(Untrusted()))
  {
    ProcessIsNotHighRisk();
    IssuedGrantIsJustified(cfg, manifests, ledger, cap, req, uid, e);
  }

  /** A grant that carries the signature of another one is accepted by the broker or the gate only if all signed
      fields agree. */
  lemma GrantTamperEvident(c: Crypto, g: Grant, h: Grant, uid: int, hash: Str, s: Semantics, now: real)
    requires Ideal(c) && GrantPaired(g) && GrantPaired(h)
    ensures g.signature == SignGrant(c, g) && h.signature == g.signature
              && (VerifyGrant(c, h, uid, hash, now) || GateRefusal(c, h, s, now).None?) ==>
            SameGrant(g, h)
  {
    if SignGrant(c, g) == SignGrant(c, h) { SignatureDeterminesGrant(c, g, h); }
  }

  lemma SignatureDeterminesGrant(c: Crypto, g: Grant, h: Grant)
    requires Ideal(c) && GrantPaired(g) && GrantPaired(h) && SignGrant(c, g) == SignGrant(c, h)
    ensures SameGrant(g, h)
  {
    GrantPayloadIff(g, h);
  }

  /* ---------- the broker object ---------- */

  class Broker {
    const config: Config
    const maxEntries: nat
    var manifestStore: map<Str, Manifest>
    var nonceLedger: Ledger

    constructor (config: Config, manifests: map<Str, Manifest>, maxEntries: int)
      ensures this.config == config && manifestStore == manifests && nonceLedger == map[]
      ensures this.maxEntries == if maxEntries < 1 then 1 else maxEntries
    {
      this.config, this.manifestStore, this.nonceLedger := config, manifests, map[];
      this.maxEntries := if maxEntries < 1 then 1 else maxEntries;
    }

    method RegisterManifest(m: Manifest)
      modifies this`manifestStore
      ensures manifestStore == old(manifestStore)[m.manifestId := m]
    {
      manifestStore := manifestStore[m.manifestId := m];
    }

    method AtomicConsumeNonce(nonce: Str, expiresAt: Option<real>, now: real) returns (refused: Option<FailureCode>)
      modifies this`nonceLedger
      ensures (nonceLedger, refused) == Consume(old(nonceLedger), maxEntries, nonce, expiresAt, now)
    {
      if Stripped(nonce) == [] { return Some(ReplayAttack); }
      var expiry := if expiresAt.Some? then expiresAt.value else now + NONCE_RETENTION;
      if nonce in nonceLedger { return Some(ReplayAttack); }
      var expired := set n | n in nonceLedger && now >= nonceLedger[n];
      ghost var live := map n | n in nonceLedger && now < nonceLedger[n] :: nonceLedger[n];
      var todo := expired;
      while todo != {}
        invariant todo <= expired
        invariant nonceLedger == map n | n in old(nonceLedger) && (n !in expired || n in todo) :: old(nonceLedger)[n]
      {
        var n :| n in todo;
        nonceLedger := nonceLedger - {n};
        todo := todo - {n};
      }
      assert nonceLedger == live;
      if |nonceLedger| >= maxEntries { return Some(NonceStoreSaturated); }
      nonceLedger := nonceLedger[nonce := expiry];
      return None;
    }

    method ConsumeApprovalNonce(adm: Admission, reading: real) returns (refused: Option<FailureCode>)
      modifies this`nonceLedger
      ensures (nonceLedger, refused) == ConsumeApproval(old(nonceLedger), maxEntries, adm, reading)
    {
      if adm.approval.None? { return None; }
      refused := AtomicConsumeNonce(adm.approval.value.nonce, Some(adm.approval.value.validUntil), reading);
    }

    method FinishRequest(req: Request, adm: Admission, uid: int, e: Entropy) returns (r: Result<Grant, FailureCode>)
      modifies this`nonceLedger
      ensures (nonceLedger, r) == Finish(config.crypto, old(nonceLedger), maxEntries, req, adm, uid, e)
    {
      var issuedAt, expiresAt := e.now, e.now + DEFAULT_GRANT_TTL;
      match CheckGrantTimes(issuedAt, expiresAt, e.now)
      case Some(code) => return Err(code);
      case None =>
      var refused := AtomicConsumeNonce(e.grantNonce, Some(expiresAt), e.grantReading);
      if refused.Some? { return Err(refused.value); }
      return Ok(IssueGrant(config.crypto, req, adm, uid, issuedAt, expiresAt, e.grantId, e.grantNonce));
    }

    method EvaluateRequest(req: Request, uid: int, e: Entropy) returns (r: Result<Grant, FailureCode>)
      modifies this`nonceLedger
      ensures (nonceLedger, r) == Evaluate(config, manifestStore, old(nonceLedger), maxEntries, req, uid, e)
    {
      var admitted := Admit(config, manifestStore, req, e.now);
      if admitted.Err? { return Err(admitted.error); }
      var refused := ConsumeApprovalNonce(admitted.value, e.approvalReading);
      if refused.Some? { return Err(refused.value); }
      r := FinishRequest(req, admitted.value, uid, e);
    }
  }
}
