/** The records of the authority domain and the canonical texts that are hashed and signed. Times are real numbers of
    seconds; hashes and signatures are ideal, that is, injective functions. */
module AuthorityModels {
  import opened Text
  import opened Sorting
  import opened CanonicalJson

  datatype EnvEntry = EnvEntry(key: Str, value: Str)

  datatype Semantics = Semantics(
    interpreterPath: Str, interpreterHash: Str, scriptPath: Str, scriptHash: Str, argv: seq<Str>, cwd: Str,
    envAllowlist: seq<EnvEntry>, sandboxProfile: Str, networkPolicy: Str)

  datatype Approval = Approval(
    tokenId: Str, approverId: Str, signature: Str, issuedAt: real, validUntil: real, nonce: Str, executionHash: Str)

  datatype Grant = Grant(
    grantId: Str, issuedAt: real, expiresAt: real, nonce: Str, subjectUid: int, primitive: Str, executionHash: Str,
    capabilities: seq<Str>, signature: Str, taskId: Str, resources: seq<Str>)

  /* ---------- JSON pieces ---------- */

  function KeyedRecord(keys: seq<string>, values: seq<Json>): Json
    requires |keys| == |values|
  {
    Record(seq(|keys|, i requires 0 <= i < |keys| => Field(Units(FromAscii(keys[i])), values[i])))
  }

  lemma KeyedRecordIff(keys: seq<string>, a: seq<Json>, b: seq<Json>)
    requires |keys| == |a| == |b|
    ensures Serialise(KeyedRecord(keys, a)) == Serialise(KeyedRecord(keys, b)) <==> a == b
  {
    var r, t := KeyedRecord(keys, a), KeyedRecord(keys, b);
    SerialiseInjective(r, t);
    if r == t {
      forall i | 0 <= i < |a| ensures a[i] == b[i] { assert r.fields[i].value == t.fields[i].value; }
    }
  }

  function StrJson(s: Str): Json {
    Chars(Units(s))
  }

  function StrsJson(ss: seq<Str>): (j: Json)
    ensures j.List? && |j.items| == |ss| && forall i :: 0 <= i < |ss| ==> j.items[i] == StrJson(ss[i])
  {
    List(seq(|ss|, i requires 0 <= i < |ss| => StrJson(ss[i])))
  }

  function EntryJson(e: EnvEntry): Json {
    List([StrJson(e.key), StrJson(e.value)])
  }

  function EntriesJson(es: seq<EnvEntry>): (j: Json)
    ensures j.List? && |j.items| == |es| && forall i :: 0 <= i < |es| ==> j.items[i] == EntryJson(es[i])
  {
    List(seq(|es|, i requires 0 <= i < |es| => EntryJson(es[i])))
  }

  predicate StrLe(a: Str, b: Str) {
    LexLe(a, b)
  }

  predicate EntryLe(a: EnvEntry, b: EnvEntry) {
    if a.key == b.key then LexLe(a.value, b.value) else LexLe(a.key, b.key)
  }

  lemma OrdersAreTotal()
    ensures TotalOrder(StrLe) && TotalOrder(EntryLe)
  {
    LexIsTotalOrder();
    forall a: Str, b: Str ensures StrLe(a, b) || StrLe(b, a) { LexTotal(a, b); }
    forall a: Str, b: Str | StrLe(a, b) && StrLe(b, a) ensures a == b { LexAntisymmetric(a, b); }
    forall a: Str, b: Str, c: Str | StrLe(a, b) && StrLe(b, c) ensures StrLe(a, c) { LexTransitive(a, b, c); }
    forall a: EnvEntry, b: EnvEntry ensures EntryLe(a, b) || EntryLe(b, a) {
      LexTotal(a.key, b.key);
      LexTotal(a.value, b.value);
    }
    forall a: EnvEntry, b: EnvEntry | EntryLe(a, b) && EntryLe(b, a) ensures a == b {
      if a.key == b.key { LexAntisymmetric(a.value, b.value); } else { LexAntisymmetric(a.key, b.key); }
    }
    forall a: EnvEntry, b: EnvEntry, c: EnvEntry | EntryLe(a, b) && EntryLe(b, c) ensures EntryLe(a, c) {
      EntryTransitive(a, b, c);
    }
  }

  lemma EntryTransitive(a: EnvEntry, b: EnvEntry, c: EnvEntry)
    requires EntryLe(a, b) && EntryLe(b, c)
    ensures EntryLe(a, c)
  {
    if a.key == b.key == c.key {
      LexTransitive(a.value, b.value, c.value);
    } else if a.key == c.key {
      LexAntisymmetric(a.key, b.key);
    } else if a.key != b.key && b.key != c.key {
      LexTransitive(a.key, b.key, c.key);
    }
  }

  ghost predicate AllPaired(ss: seq<Str>) {
    forall s :: s in ss ==> WellPaired(s)
  }

  ghost predicate EntriesPaired(es: seq<EnvEntry>) {
    forall e :: e in es ==> WellPaired(e.key) && WellPaired(e.value)
  }

  lemma SortedStrsIff(a: seq<Str>, b: seq<Str>)
    requires AllPaired(a) && AllPaired(b)
    ensures StrsJson(Sort(StrLe, a)) == StrsJson(Sort(StrLe, b)) <==> multiset(a) == multiset(b)
  {
    OrdersAreTotal();
    SortEqualIff(StrLe, a, b);
    SortKeeps(StrLe, a);
    SortKeeps(StrLe, b);
    if StrsJson(Sort(StrLe, a)) == StrsJson(Sort(StrLe, b)) { StrsInjective(Sort(StrLe, a), Sort(StrLe, b)); }
  }

  lemma SortKeeps<T(!new)>(le: (T, T) -> bool, s: seq<T>)
    requires TotalOrder(le)
    ensures forall x :: x in Sort(le, s) <==> x in s
  {
    SortSorts(le, s);
    forall x ensures x in Sort(le, s) <==> x in s {
      assert x in Sort(le, s) <==> x in multiset(Sort(le, s));
      assert x in s <==> x in multiset(s);
    }
  }

  lemma StrsInjective(a: seq<Str>, b: seq<Str>)
    requires AllPaired(a) && AllPaired(b) && StrsJson(a) == StrsJson(b)
    ensures a == b
  {
    var j, k := StrsJson(a), StrsJson(b);
    assert |a| == |j.items| == |k.items| == |b|;
    forall i | 0 <= i < |a| ensures a[i] == b[i] {
      assert j.items[i] == StrJson(a[i]) && k.items[i] == StrJson(b[i]);
      UnitsInjective(a[i], b[i]);
    }
  }

  lemma SortedEntriesIff(a: seq<EnvEntry>, b: seq<EnvEntry>)
    requires EntriesPaired(a) && EntriesPaired(b)
    ensures EntriesJson(Sort(EntryLe, a)) == EntriesJson(Sort(EntryLe, b)) <==> multiset(a) == multiset(b)
  {
    OrdersAreTotal();
    SortEqualIff(EntryLe, a, b);
    SortKeeps(EntryLe, a);
    SortKeeps(EntryLe, b);
    var s, t := Sort(EntryLe, a), Sort(EntryLe, b);
    var j, k := EntriesJson(s), EntriesJson(t);
    if j == k {
      assert |s| == |j.items| == |k.items| == |t|;
      forall i | 0 <= i < |s| ensures s[i] == t[i] {
        assert j.items[i] == EntryJson(s[i]) && k.items[i] == EntryJson(t[i]);
        assert EntryJson(s[i]).items[0] == EntryJson(t[i]).items[0]
          && EntryJson(s[i]).items[1] == EntryJson(t[i]).items[1];
        UnitsInjective(s[i].key, t[i].key);
        UnitsInjective(s[i].value, t[i].value);
      }
    }
  }

  /* ---------- execution semantics ---------- */

  /** The canonical record; its keys are in alphabetical order, as sort_keys puts them. */
  function SemanticsKeys(): (k: seq<string>)
    ensures |k| == 9
  {
    ["argv", "cwd", "env_allowlist", "interpreter_hash", "interpreter_path", "network_policy", "sandbox_profile",
      "script_hash", "script_path"]
  }

  function SemanticsValues(s: Semantics): (v: seq<Json>)
    ensures |v| == 9
  {
    [
      StrsJson(s.argv),
      StrJson(s.cwd),
      EntriesJson(Sort(EntryLe, s.envAllowlist)),
      StrJson(s.interpreterHash),
      StrJson(s.interpreterPath),
      StrJson(s.networkPolicy),
      StrJson(s.sandboxProfile),
      StrJson(s.scriptHash),
      StrJson(s.scriptPath)]
  }

  function CanonicalRecord(s: Semantics): Json {
    KeyedRecord(SemanticsKeys(), SemanticsValues(s))
  }

  function Preimage(s: Semantics): string {
    Serialise(CanonicalRecord(s))
  }

  ghost predicate SemanticsPaired(s: Semantics) {
    && WellPaired(s.interpreterPath) && WellPaired(s.interpreterHash) && WellPaired(s.scriptPath)
    && WellPaired(s.scriptHash)
    && AllPaired(s.argv) && WellPaired(s.cwd) && EntriesPaired(s.envAllowlist)
    && WellPaired(s.sandboxProfile) && WellPaired(s.networkPolicy)
  }

  lemma StrJsonIff(a: Str, b: Str)
    requires WellPaired(a) && WellPaired(b)
    ensures StrJson(a) == StrJson(b) <==> a == b
  {
    if StrJson(a) == StrJson(b) { UnitsInjective(a, b); }
  }

  lemma StrsJsonIff(a: seq<Str>, b: seq<Str>)
    requires AllPaired(a) && AllPaired(b)
    ensures StrsJson(a) == StrsJson(b) <==> a == b
  {
    if StrsJson(a) == StrsJson(b) { StrsInjective(a, b); }
  }

  /** Two execution semantics have the same text, and so the same hash, if and only if eight fields agree and the
      environment lists have the same entries in any order. */
  lemma PreimageIff(s: Semantics, t: Semantics)
    requires SemanticsPaired(s) && SemanticsPaired(t)
    ensures Preimage(s) == Preimage(t) <==>
            s.(envAllowlist := []) == t.(envAllowlist := []) && multiset(s.envAllowlist) == multiset(t.envAllowlist)
  {
    KeyedRecordIff(SemanticsKeys(), SemanticsValues(s), SemanticsValues(t));
    StrsJsonIff(s.argv, t.argv);
    StrJsonIff(s.cwd, t.cwd);
    SortedEntriesIff(s.envAllowlist, t.envAllowlist);
    StrJsonIff(s.interpreterHash, t.interpreterHash);
    StrJsonIff(s.interpreterPath, t.interpreterPath);
    StrJsonIff(s.networkPolicy, t.networkPolicy);
    StrJsonIff(s.sandboxProfile, t.sandboxProfile);
    StrJsonIff(s.scriptHash, t.scriptHash);
    StrJsonIff(s.scriptPath, t.scriptPath);
  }

  /* ---------- rounding ---------- */

  /** Round to ten-thousandths, half to even. */
  function Ticks(t: real): int {
    var x := t * 10000.0;
    var f := x.Floor;
    var d := x - f as real;
    if d < 0.5 || (d == 0.5 && f % 2 == 0) then f else f + 1
  }

  /** The result is a nearest integer to the number of ten-thousandths, and the even one of two that are
      equally near. */
  lemma TicksAreNearest(t: real)
    ensures var n := Ticks(t);
            && -0.5 <= t * 10000.0 - n as real <= 0.5
            && (t * 10000.0 - n as real in {-0.5, 0.5} ==> n % 2 == 0)
  {
  }

  /* ---------- grants ---------- */

  function GrantKeys(): (k: seq<string>)
    ensures |k| == 10
  {
    ["attenuated_capabilities", "exact_execution_hash", "expires_at", "grant_id", "issued_at", "resource_binding",
      "single_use_nonce", "subject_uid", "target_primitive", "task_id"]
  }

  function GrantValues(g: Grant): (v: seq<Json>)
    ensures |v| == 10
  {
    [
      StrsJson(Sort(StrLe, g.capabilities)),
      StrJson(g.executionHash),
      Time(Ticks(g.expiresAt)),
      StrJson(g.grantId),
      Time(Ticks(g.issuedAt)),
      StrsJson(Sort(StrLe, g.resources)),
      StrJson(g.nonce),
      Whole(g.subjectUid),
      StrJson(g.primitive),
      StrJson(g.taskId)]
  }

  function GrantRecord(g: Grant): Json {
    KeyedRecord(GrantKeys(), GrantValues(g))
  }

  function GrantPayload(g: Grant): string {
    Serialise(GrantRecord(g))
  }

  ghost predicate GrantPaired(g: Grant) {
    && WellPaired(g.grantId) && WellPaired(g.nonce) && WellPaired(g.primitive) && WellPaired(g.executionHash)
    && WellPaired(g.taskId) && AllPaired(g.capabilities) && AllPaired(g.resources)
  }

  /** The signed fields of two grants agree: lists as multisets, times as rounded. */
  ghost predicate SameGrant(g: Grant, h: Grant) {
    && g.grantId == h.grantId && Ticks(g.issuedAt) == Ticks(h.issuedAt) && Ticks(g.expiresAt) == Ticks(h.expiresAt)
    && g.nonce == h.nonce && g.subjectUid == h.subjectUid && g.primitive == h.primitive
    && g.executionHash == h.executionHash
    && multiset(g.capabilities) == multiset(h.capabilities) && g.taskId == h.taskId
    && multiset(g.resources) == multiset(h.resources)
  }

  /** Two grants have the same signature payload if and only if all their signed fields agree. */
  lemma GrantPayloadIff(g: Grant, h: Grant)
    requires GrantPaired(g) && GrantPaired(h)
    ensures GrantPayload(g) == GrantPayload(h) <==> SameGrant(g, h)
  {
    KeyedRecordIff(GrantKeys(), GrantValues(g), GrantValues(h));
    SortedStrsIff(g.capabilities, h.capabilities);
    StrJsonIff(g.executionHash, h.executionHash);
    StrJsonIff(g.grantId, h.grantId);
    SortedStrsIff(g.resources, h.resources);
    StrJsonIff(g.nonce, h.nonce);
    StrJsonIff(g.primitive, h.primitive);
    StrJsonIff(g.taskId, h.taskId);
  }

  /* ---------- approvals ---------- */

  predicate IsSpacePoint(c: CodePoint) {
    IsSpaceCode(c)
  }

  function Stripped(s: Str): Str {
    Trim(IsSpacePoint, s)
  }

  function ApprovalKeys(): (k: seq<string>)
    ensures |k| == 6
  {
    ["approver_id", "exact_execution_hash", "issued_at", "token_id", "token_nonce", "valid_until"]
  }

  function ApprovalValues(p: Approval): (v: seq<Json>)
    ensures |v| == 6
  {
    [
      StrJson(Stripped(p.approverId)),
      StrJson(Stripped(p.executionHash)),
      Time(Ticks(p.issuedAt)),
      StrJson(Stripped(p.tokenId)),
      StrJson(Stripped(p.nonce)),
      Time(Ticks(p.validUntil))]
  }

  function ApprovalRecord(p: Approval): Json {
    KeyedRecord(ApprovalKeys(), ApprovalValues(p))
  }

  function ApprovalText(p: Approval): string {
    Serialise(ApprovalRecord(p))
  }

  ghost predicate ApprovalPaired(p: Approval) {
    && WellPaired(Stripped(p.approverId)) && WellPaired(Stripped(p.executionHash))
    && WellPaired(Stripped(p.tokenId)) && WellPaired(Stripped(p.nonce))
  }

  /** Two approvals share their digest text if and only if their fields agree without surrounding white space and with
      rounded times; in particular a nonce and the same nonce padded with blanks are covered by one signature. */
  lemma ApprovalTextIff(p: Approval, q: Approval)
    requires ApprovalPaired(p) && ApprovalPaired(q)
    ensures ApprovalText(p) == ApprovalText(q) <==>
            && Stripped(p.tokenId) == Stripped(q.tokenId) && Stripped(p.approverId) == Stripped(q.approverId)
            && Ticks(p.issuedAt) == Ticks(q.issuedAt) && Ticks(p.validUntil) == Ticks(q.validUntil)
            && Stripped(p.nonce) == Stripped(q.nonce) && Stripped(p.executionHash) == Stripped(q.executionHash)
  {
    KeyedRecordIff(ApprovalKeys(), ApprovalValues(p), ApprovalValues(q));
    StrJsonIff(Stripped(p.approverId), Stripped(q.approverId));
    StrJsonIff(Stripped(p.executionHash), Stripped(q.executionHash));
    StrJsonIff(Stripped(p.tokenId), Stripped(q.tokenId));
    StrJsonIff(Stripped(p.nonce), Stripped(q.nonce));
  }
}
