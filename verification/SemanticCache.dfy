/** The semantic cache: keys, the table of rows with expiry times, and its refinement of a timed map. SHA-256 is ideal;
    redaction, lower-casing and the keyword table for categories are parameters. */
module SemanticCache {
  import opened Wrappers
  import opened Text
  import opened QueryNormaliser

  const TRUSTED_CALLERS: set<string> := {"agent", "system", "user", "hermes_core", "cron", "test", "internal_service"}
  const BYPASS_WORDS: seq<string> := ["刷新", "重新查詢", "強制", "--no-cache", "-f"]
  const MAX_QUERY_LENGTH: nat := 4096
  const MAX_RESPONSE_LENGTH: nat := 16384
  const MAX_TTL: int := 86400

  datatype Key = Digest(preimage: string)

  datatype Row = Row(
    scope: string, caller: string, query: string, category: string, response: string, createdAt: real, expireAt: real,
      hits: nat)

  type Table = map<Key, Row>

  datatype Tools = Tools(lower: string -> string, redact: string -> string, infer: string -> string)

  /** Whom an entry belongs to, and for which normalised query. */
  datatype Owner = Owner(scope: string, caller: string, norm: string)

  /* ---------- keys ---------- */

  function Or(s: string, default: string): string {
    if s == "" then default else s
  }

  /** Trimmed or defaulted, first by the caller and then again where the key is computed. */
  function Effective(s: string, default: string): string {
    Strip(Or(Strip(Or(s, default)), default))
  }

  function Preimage(o: Owner): string {
    o.scope + ":" + o.caller + ":" + o.norm
  }

  function KeyOf(o: Owner): Key {
    Digest(Preimage(o))
  }

  /** The length of the part after the last colon. */
  ghost function AfterColon(s: string): nat {
    if s == "" || s[|s| - 1] == ':' then 0 else 1 + AfterColon(s[..|s| - 1])
  }

  lemma {:induction false} AfterColonOf(a: string, x: string)
    requires ':' !in x
    ensures AfterColon(a + ":" + x) == |x|
  {
    var s := a + ":" + x;
    if x != "" {
      assert s[|s| - 1] == x[|x| - 1] && s[..|s| - 1] == a + ":" + x[..|x| - 1];
      AfterColonOf(a, x[..|x| - 1]);
    }
  }

  lemma SplitAtColon(a: string, x: string, b: string, y: string)
    requires ':' !in x && ':' !in y && a + ":" + x == b + ":" + y
    ensures a == b && x == y
  {
    AfterColonOf(a, x);
    AfterColonOf(b, y);
    var s := a + ":" + x;
    assert a == s[..|a|] && b == s[..|b|] && x == s[|a| + 1..] && y == s[|b| + 1..];
  }

  /** For callers and normalised queries without a colon the text that is hashed can be decoded in one way only. */
  lemma KeysAreUnique(o: Owner, p: Owner)
    requires ':' !in o.caller && ':' !in p.caller && ':' !in o.norm && ':' !in p.norm
    ensures KeyOf(o) == KeyOf(p) <==> o == p
  {
    if Preimage(o) == Preimage(p) {
      SplitAtColon(o.scope + ":" + o.caller, o.norm, p.scope + ":" + p.caller, p.norm);
      SplitAtColon(o.scope, o.caller, p.scope, p.caller);
    }
  }

  lemma {:induction false} LastColon(s: string) returns (a: string, x: string)
    requires ':' in s
    ensures s == a + ":" + x && ':' !in x
  {
    var n := |s| - 1;
    if s[n] == ':' {
      a, x := s[..n], "";
    } else {
      assert s == s[..n] + [s[n]];
      a, x := LastColon(s[..n]);
      x := x + [s[n]];
      assert s == a + ":" + x;
    }
  }

  lemma TrustedCallersHaveNoColon(caller: string)
    requires caller in TRUSTED_CALLERS
    ensures ':' !in caller && Effective(caller, "agent") == caller
  {
    assert !IsSpace(caller[0]) && !IsSpace(caller[|caller| - 1]);
    assert Strip(caller) == caller;
  }

  /* ---------- operations on the table ---------- */

  predicate StandsAt(s: string, w: string, i: nat) {
    i + |w| <= |s| && s[i..i + |w|] == w
  }

  predicate Contains(s: string, w: string) {
    exists i :: 0 <= i <= |s| && StandsAt(s, w, i)
  }

  predicate Bypasses(t: Tools, query: string) {
    exists k :: 0 <= k < |BYPASS_WORDS| && Contains(t.lower(query), BYPASS_WORDS[k])
  }

  function DefaultTtl(category: string): int {
    if category == "stock" then 60
    else if category == "price" then 300
    else if category == "health" then 180
    else if category == "archive" then 600
    else 300
  }

  function ClampTtl(ttl: int): (r: int)
    ensures 1 <= r <= MAX_TTL
  {
    if ttl < 1 then 1 else if ttl > MAX_TTL then MAX_TTL else ttl
  }

  datatype Hit = Hit(response: string, category: string, remaining: int, hits: nat)

  datatype SetArgs = SetArgs(query: string, response: string, ttl: Option<int>, category: string, caller: string,
      scope: string)

  ghost function OwnerOf(t: Tools, scope: string, caller: string, query: string): Owner {
    Owner(Effective(scope, "default"), Effective(caller, "agent"), Normalise(t.lower, t.redact, query))
  }

  /** The checks before a response is stored. An empty caller name is refused. */
  ghost predicate Storable(t: Tools, a: SetArgs) {
    var norm := Normalise(t.lower, t.redact, a.query);
    && a.caller in TRUSTED_CALLERS
    && |a.query| <= MAX_QUERY_LENGTH && |a.response| <= MAX_RESPONSE_LENGTH
    && norm != "" && '\0' !in norm && Strip(a.response) != ""
  }

  function Lifetime(t: Tools, a: SetArgs): int {
    ClampTtl(if a.ttl.Some? then a.ttl.value else DefaultTtl(Or(a.category, t.infer(a.query))))
  }

  function Stored(t: Tools, table: Table, key: Key, a: SetArgs, now: real): Table {
    var response := t.redact(Strip(a.response));
    var expireAt := now + Lifetime(t, a) as real;
    var query := t.redact(Strip(a.query));
    var row := if key in table
      then table[key].(response := response, query := query, createdAt := now, expireAt := expireAt)
               else Row(Strip(Or(a.scope, "default")), Strip(Or(a.caller, "agent")), query,
                    Or(a.category, t.infer(a.query)), response, now, expireAt, 1);
    table[key := row]
  }

  ghost function SetResponse(t: Tools, table: Table, a: SetArgs, now: real): (Table, bool) {
    if Storable(t, a)
      then (Stored(t, table, KeyOf(OwnerOf(t, a.scope, a.caller, a.query)), a, now), true) else (table, false)
  }

  function Lookup(table: Table, key: Key, now: real): (Table, Option<Hit>) {
    if key in table && table[key].expireAt > now then
      var row := table[key];
      (table[key := row.(hits := row.hits + 1)],
        Some(Hit(row.response, row.category, (row.expireAt - now).Floor, row.hits + 1)))
    else (table, None)
  }

  ghost function GetResponse(t: Tools, table: Table, query: string, scope: string, caller: string, now: real)
      : (Table, Option<Hit>) {
    var o := OwnerOf(t, scope, caller, query);
    if Bypasses(t, query) || o.norm == "" then (table, None) else Lookup(table, KeyOf(o), now)
  }

  function Prune(table: Table, now: real): Table {
    map k | k in table && table[k].expireAt > now :: table[k]
  }

  /* ---------- isolation of readers ---------- */

  lemma OwnersArePlain(t: Tools, a: SetArgs)
    requires Storable(t, a)
    ensures var o := OwnerOf(t, a.scope, a.caller, a.query);
            o.caller == a.caller && ':' !in o.caller && ':' !in o.norm
  {
    TrustedCallersHaveNoColon(a.caller);
    NormalisedHasNoSeparator(t.lower, t.redact, a.query, ':');
  }

  /** Some query with this normalised form can be stored. */
  ghost predicate Writable(t: Tools, norm: string) {
    norm != "" && '\0' !in norm
    && exists q :: |q| <= MAX_QUERY_LENGTH && Normalise(t.lower, t.redact, q) == norm
  }

  /** The caller name ends with a colon and the name of a trusted caller, and there is no white space before
      that colon. */
  predicate Impersonates(caller: string) {
    exists c :: c in TRUSTED_CALLERS && EndsAs(caller, c)
  }

  predicate EndsAs(caller: string, c: string) {
    var n := |caller| - |c| - 1;
    n >= 0 && caller[n..] == ":" + c && (n == 0 || !IsSpace(caller[n - 1]))
  }

  /** Trimming and defaulting keep exactly the non-empty names without white space at either end. */
  lemma EffectiveIff(s: string, default: string)
    requires default != "" && Strip(default) == default
    ensures (exists raw :: Effective(raw, default) == s) <==> s != "" && !IsSpace(s[0]) && !IsSpace(s[|s| - 1])
  {
    if raw :| Effective(raw, default) == s {
      var once := Strip(Or(raw, default));
      StripEnds(Or(once, default));
      StripEnds(Or(raw, default));
      StripEnds(default);
      if once != "" { StripKeeps(once); }
    }
    if s != "" && !IsSpace(s[0]) && !IsSpace(s[|s| - 1]) {
      StripKeeps(s);
      assert Effective(s, default) == s;
    }
  }

  lemma StripKeeps(s: string)
    requires s != "" && !IsSpace(s[0]) && !IsSpace(s[|s| - 1])
    ensures Strip(s) == s
  {
  }

  lemma {:induction false} TrimRightEnds(s: string)
    ensures var r := TrimRight(IsSpace, s);
            r <= s && (r != "" ==> !IsSpace(r[|r| - 1]))
  {
    if s != "" && IsSpace(s[|s| - 1]) { TrimRightEnds(s[..|s| - 1]); }
  }

  lemma {:induction false} TrimLeftEnds(s: string)
    ensures var r := TrimLeft(IsSpace, s); r != "" ==> !IsSpace(r[0])
  {
    if s != "" && IsSpace(s[0]) { TrimLeftEnds(s[1..]); }
  }

  lemma StripEnds(s: string)
    ensures var r := Strip(s); r != "" ==> !IsSpace(r[0]) && !IsSpace(r[|r| - 1])
  {
    TrimLeftEnds(s);
    TrimRightEnds(TrimLeft(IsSpace, s));
  }

  /** Two names of which the first has no colon in its caller are joined to the same text only if they are equal or the
      first takes the reader's scope and the start of its caller for its own scope. */
  lemma NamesShared(scope: string, caller: string, readerScope: string, reader: string)
    requires ':' !in caller && scope + ":" + caller == readerScope + ":" + reader
    requires scope != readerScope || caller != reader
    ensures var n := |reader| - |caller| - 1;
            n >= 0 && reader[n..] == ":" + caller && scope == readerScope + ":" + reader[..n]
  {
    if ':' !in reader {
      SplitAtColon(scope, caller, readerScope, reader);
    } else {
      var x, y := LastColon(reader);
      assert readerScope + ":" + reader == (readerScope + ":" + x) + ":" + y;
      SplitAtColon(scope, caller, readerScope + ":" + x, y);
      assert reader[|x|..] == ":" + y && reader[..|x|] == x;
    }
  }

  lemma NamesJoin(readerScope: string, reader: string, caller: string)
    requires var n := |reader| - |caller| - 1; n >= 0 && reader[n..] == ":" + caller
    ensures var n := |reader| - |caller| - 1;
            (readerScope + ":" + reader[..n]) + ":" + caller == readerScope + ":" + reader
  {
    var n := |reader| - |caller| - 1;
    assert reader == reader[..n] + reader[n..];
  }

  lemma SameKey(w: Owner, r: Owner)
    requires ':' !in w.norm && ':' !in r.norm
    ensures KeyOf(w) == KeyOf(r) <==> w.norm == r.norm && w.scope + ":" + w.caller == r.scope + ":" + r.caller
  {
    if Preimage(w) == Preimage(r) { SplitAtColon(w.scope + ":" + w.caller, w.norm, r.scope + ":" + r.caller, r.norm); }
  }

  /** The keys that a trusted writer `w` shares with another reader `r`. */
  lemma SharedKeyIff(w: Owner, r: Owner)
    requires ':' !in w.caller && ':' !in w.norm && ':' !in r.norm
    ensures KeyOf(w) == KeyOf(r) && w != r <==>
            var n := |r.caller| - |w.caller| - 1;
            w.norm == r.norm && n >= 0 && r.caller[n..] == ":" + w.caller && w.scope == r.scope + ":" + r.caller[..n]
  {
    SameKey(w, r);
    if KeyOf(w) == KeyOf(r) && w != r {
      NamesShared(w.scope, w.caller, r.scope, r.caller);
    }
    var n := |r.caller| - |w.caller| - 1;
    if n >= 0 && r.caller[n..] == ":" + w.caller && w.scope == r.scope + ":" + r.caller[..n] {
      NamesJoin(r.scope, r.caller, w.caller);
      assert |w.scope| > |r.scope|;
    }
  }

  /** A store under another scope or caller whose key this reader shares. */
  ghost predicate LeaksTo(t: Tools, a: SetArgs, reader: Owner) {
    var w := OwnerOf(t, a.scope, a.caller, a.query);
    Storable(t, a) && KeyOf(w) == KeyOf(reader) && w != reader
  }

  lemma EffectiveEnds(s: string, default: string)
    requires default != "" && Strip(default) == default
    ensures var e := Effective(s, default); e != "" && !IsSpace(e[0]) && !IsSpace(e[|e| - 1])
  {
    EffectiveIff(Effective(s, default), default);
  }

  lemma SharedKeyEnds(w: Owner, r: Owner)
    requires ':' !in w.caller && ':' !in w.norm && ':' !in r.norm && KeyOf(w) == KeyOf(r) && w != r
    requires w.scope != "" && !IsSpace(w.scope[|w.scope| - 1])
    ensures w.norm == r.norm && EndsAs(r.caller, w.caller)
  {
    SharedKeyIff(w, r);
    SeamIsScopeEnd(w.scope, r.scope, r.caller, |r.caller| - |w.caller| - 1);
  }

  lemma StorableIsWritable(t: Tools, a: SetArgs, norm: string)
    requires norm == Normalise(t.lower, t.redact, a.query)
    ensures Storable(t, a) ==> Writable(t, norm)
  {
  }

  /** The owner of what is stored. */
  lemma OwnerParts(t: Tools, a: SetArgs) returns (w: Owner)
    requires Storable(t, a)
    ensures w == OwnerOf(t, a.scope, a.caller, a.query) && w.norm == Normalise(t.lower, t.redact, a.query)
    ensures w.caller == a.caller && ':' !in w.caller && ':' !in w.norm
  {
    w := OwnerOf(t, a.scope, a.caller, a.query);
    OwnersArePlain(t, a);
  }

  lemma OwnerScopeEnds(t: Tools, scope: string, caller: string, query: string)
    ensures var w := OwnerOf(t, scope, caller, query); w.scope != "" && !IsSpace(w.scope[|w.scope| - 1])
  {
    StripKeeps("default");
    EffectiveEnds(scope, "default");
  }

  lemma LeakEnds(t: Tools, a: SetArgs, w: Owner, reader: Owner)
    requires w == OwnerOf(t, a.scope, a.caller, a.query) && ':' !in w.caller && ':' !in w.norm && ':' !in reader.norm
    requires KeyOf(w) == KeyOf(reader) && w != reader
    ensures w.norm == reader.norm && EndsAs(reader.caller, w.caller)
  {
    OwnerScopeEnds(t, a.scope, a.caller, a.query);
    SharedKeyEnds(w, reader);
  }

  lemma LeakImpersonates(t: Tools, a: SetArgs, reader: Owner)
    requires ':' !in reader.norm
    ensures LeaksTo(t, a, reader) ==> Writable(t, reader.norm) && EndsAs(reader.caller, a.caller)
  {
    if LeaksTo(t, a, reader) {
      var w := OwnerParts(t, a);
      LeakEnds(t, a, w, reader);
      StorableIsWritable(t, a, reader.norm);
    }
  }

  lemma SeamIsScopeEnd(scope: string, readerScope: string, reader: string, n: nat)
    requires n <= |reader| && scope == readerScope + ":" + reader[..n] && !IsSpace(scope[|scope| - 1])
    ensures n == 0 || !IsSpace(reader[n - 1])
  {
  }

  lemma VictimScope(readerScope: string, reader: string, n: nat)
    requires n <= |reader| && readerScope != "" && !IsSpace(readerScope[0]) && (n == 0 || !IsSpace(reader[n - 1]))
    ensures var s := readerScope + ":" + reader[..n]; Effective(s, "default") == s
  {
    StripKeeps(readerScope + ":" + reader[..n]);
  }

  lemma VictimIsStorable(t: Tools, query: string, c: string, scope: string)
    ensures c in TRUSTED_CALLERS && |query| <= MAX_QUERY_LENGTH && Writable(t, Normalise(t.lower, t.redact, query)) ==>
            Storable(t, SetArgs(query, "x", None, "", c, scope))
  {
    StripKeeps("x");
  }

  lemma OwnerIs(t: Tools, scope: string, c: string, query: string)
    requires Effective(scope, "default") == scope && Effective(c, "agent") == c
    ensures OwnerOf(t, scope, c, query) == Owner(scope, c, Normalise(t.lower, t.redact, query))
  {
  }

  lemma LeakByKey(t: Tools, a: SetArgs, w: Owner, reader: Owner)
    requires Storable(t, a) && OwnerOf(t, a.scope, a.caller, a.query) == w && KeyOf(w) == KeyOf(reader) && w != reader
    ensures LeaksTo(t, a, reader)
  {
  }

  function VictimOf(reader: Owner, c: string): Owner
    requires EndsAs(reader.caller, c)
  {
    Owner(reader.scope + ":" + reader.caller[..|reader.caller| - |c| - 1], c, reader.norm)
  }

  lemma VictimScopeIs(reader: Owner, c: string)
    requires reader.scope != "" && !IsSpace(reader.scope[0]) && EndsAs(reader.caller, c)
    ensures Effective(VictimOf(reader, c).scope, "default") == VictimOf(reader, c).scope
  {
    VictimScope(reader.scope, reader.caller, |reader.caller| - |c| - 1);
  }

  lemma VictimSharesKey(reader: Owner, c: string)
    requires ':' !in reader.norm && ':' !in c && EndsAs(reader.caller, c)
    ensures KeyOf(VictimOf(reader, c)) == KeyOf(reader) && VictimOf(reader, c) != reader
  {
    SharedKeyIff(VictimOf(reader, c), reader);
  }

  /** A store on behalf of this owner. */
  function VictimArgs(w: Owner, query: string): SetArgs {
    SetArgs(query, "x", None, "", w.caller, w.scope)
  }

  lemma VictimStores(t: Tools, w: Owner, query: string)
    requires w.caller in TRUSTED_CALLERS && Effective(w.scope, "default") == w.scope
    requires w.norm == Normalise(t.lower, t.redact, query)
    ensures |query| <= MAX_QUERY_LENGTH && Writable(t, w.norm) ==>
            Storable(t, VictimArgs(w, query)) && OwnerOf(t, w.scope, w.caller, query) == w
  {
    VictimIsStorable(t, query, w.caller, w.scope);
    TrustedCallersHaveNoColon(w.caller);
    OwnerIs(t, w.scope, w.caller, query);
  }

  lemma VictimLeaks(t: Tools, w: Owner, reader: Owner, query: string)
    requires KeyOf(w) == KeyOf(reader) && w != reader && Effective(w.scope, "default") == w.scope
    requires w.caller in TRUSTED_CALLERS && w.norm == Normalise(t.lower, t.redact, query)
    ensures |query| <= MAX_QUERY_LENGTH && Writable(t, w.norm) ==> exists a :: LeaksTo(t, a, reader)
  {
    if |query| <= MAX_QUERY_LENGTH && Writable(t, w.norm) {
      VictimStores(t, w, query);
      LeakByKey(t, VictimArgs(w, query), w, reader);
    }
  }

  lemma ReaderParts(t: Tools, scope: string, caller: string, query: string)
    ensures var r := OwnerOf(t, scope, caller, query);
            r.scope != "" && !IsSpace(r.scope[0]) && ':' !in r.norm
  {
    NormalisedHasNoSeparator(t.lower, t.redact, query, ':');
    StripKeeps("default");
    EffectiveEnds(scope, "default");
  }

  lemma OwnerLeaksIff(t: Tools, r: Owner)
    requires r.scope != "" && !IsSpace(r.scope[0]) && ':' !in r.norm
    ensures (exists a :: LeaksTo(t, a, r)) <==> Writable(t, r.norm) && Impersonates(r.caller)
  {
    if a :| LeaksTo(t, a, r) {
      LeakImpersonates(t, a, r);
      assert a.caller in TRUSTED_CALLERS;
    }
    if Writable(t, r.norm) && Impersonates(r.caller) {
      var c :| c in TRUSTED_CALLERS && EndsAs(r.caller, c);
      var q :| |q| <= MAX_QUERY_LENGTH && Normalise(t.lower, t.redact, q) == r.norm;
      TrustedCallersHaveNoColon(c);
      VictimSharesKey(r, c);
      VictimScopeIs(r, c);
      VictimLeaks(t, VictimOf(r, c), r, q);
    }
  }

  lemma SharesKeyIff(t: Tools, scope: string, caller: string, query: string)
    ensures var reader := OwnerOf(t, scope, caller, query);
            (exists a :: LeaksTo(t, a, reader)) <==> Writable(t, reader.norm) && Impersonates(reader.caller)
  {
    ReaderParts(t, scope, caller, query);
    OwnerLeaksIff(t, OwnerOf(t, scope, caller, query));
  }

  /** A store for somebody else whose entry this read returns. */
  ghost predicate GivenTo(t: Tools, a: SetArgs, query: string, scope: string, caller: string, now: real) {
    && Storable(t, a) && OwnerOf(t, a.scope, a.caller, a.query) != OwnerOf(t, scope, caller, query)
    && GetResponse(t, SetResponse(t, map[], a, now).0, query, scope, caller, now).1.Some?
  }

  /** What is stored under one key is found under another one only if they are equal. */
  lemma StoreThenFind(t: Tools, w: Key, r: Key, a: SetArgs, now: real)
    ensures Lookup(Stored(t, map[], w, a, now), r, now).1.Some? <==> w == r
  {
  }

  lemma StoreThenRead(t: Tools, a: SetArgs, w: Key, r: Owner, query: string, scope: string, caller: string, now: real)
    ensures Storable(t, a) && KeyOf(OwnerOf(t, a.scope, a.caller, a.query)) == w
            && OwnerOf(t, scope, caller, query) == r
            ==> (GetResponse(t, SetResponse(t, map[], a, now).0, query, scope, caller, now).1.Some? <==>
                 !Bypasses(t, query) && r.norm != "" && w == KeyOf(r))
  {
    StoreThenFind(t, w, KeyOf(r), a, now);
  }

  lemma GivenIffShared(t: Tools, a: SetArgs, query: string, scope: string, caller: string, now: real)
    ensures GivenTo(t, a, query, scope, caller, now) <==>
            !Bypasses(t, query) && LeaksTo(t, a, OwnerOf(t, scope, caller, query))
  {
    var r := OwnerOf(t, scope, caller, query);
    StoreThenRead(t, a, KeyOf(OwnerOf(t, a.scope, a.caller, a.query)), r, query, scope, caller, now);
    ReaderParts(t, scope, caller, query);
    LeakImpersonates(t, a, r);
  }

  /** A read is given what somebody else stored if and only if it does not ask to bypass the cache, its normalised
      query can be stored, and its caller name is some text without white space at its end, a colon, and the name of a
      trusted caller. */
  lemma ReaderIsIsolatedIff(t: Tools, query: string, scope: string, caller: string, now: real)
    ensures var reader := OwnerOf(t, scope, caller, query);
            (exists a :: GivenTo(t, a, query, scope, caller, now)) <==>
            !Bypasses(t, query) && Writable(t, reader.norm) && Impersonates(reader.caller)
  {
    var reader := OwnerOf(t, scope, caller, query);
    SharesKeyIff(t, scope, caller, query);
    if a :| GivenTo(t, a, query, scope, caller, now) {
      GivenIffShared(t, a, query, scope, caller, now);
    }
    if !Bypasses(t, query) && Writable(t, reader.norm) && Impersonates(reader.caller) {
      var a :| LeaksTo(t, a, reader);
      GivenIffShared(t, a, query, scope, caller, now);
    }
  }

  lemma StoreThenLookup(t: Tools, key: Key, a: SetArgs, now: real)
    ensures var hit := Lookup(Stored(t, map[], key, a, now), key, now).1;
            hit.Some? && hit.value.response == t.redact(Strip(a.response))
  {
  }

  lemma LookupIsRead(t: Tools, a: SetArgs, w: Owner, r: Owner, scope: string, caller: string, now: real)
    requires KeyOf(w) == KeyOf(r)
    ensures Storable(t, a) && !Bypasses(t, a.query)
              && OwnerOf(t, a.scope, a.caller, a.query) == w && OwnerOf(t, scope, caller, a.query) == r ==>
            GetResponse(t, SetResponse(t, map[], a, now).0, a.query, scope, caller, now)
            == Lookup(Stored(t, map[], KeyOf(w), a, now), KeyOf(w), now)
  {
  }

  lemma SplitOwnersShareKey(norm: string)
    ensures KeyOf(Owner("default:x", "agent", norm)) == KeyOf(Owner("default", "x:agent", norm))
  {
    assert "default:x" + ":" + "agent" + ":" == "default" + ":" + "x:agent" + ":";
  }

  lemma PlainNames()
    ensures Effective("default:x", "default") == "default:x" && Effective("default", "default") == "default"
    ensures Effective("agent", "agent") == "agent" && Effective("x:agent", "agent") == "x:agent"
  {
    StripKeeps("default:x");
    StripKeeps("default");
    StripKeeps("agent");
    StripKeeps("x:agent");
  }

  /** What the caller "agent" stores under the scope "default:x" is read under the scope "default" by "x:agent". */
  lemma LeakIsRead(t: Tools, a: SetArgs, now: real)
    requires a.caller == "agent" && a.scope == "default:x" && Storable(t, a) && !Bypasses(t, a.query)
    ensures var hit := GetResponse(t, SetResponse(t, map[], a, now).0, a.query, "default", "x:agent", now).1;
            hit.Some? && hit.value.response == t.redact(Strip(a.response))
  {
    PlainNames();
    var norm := Normalise(t.lower, t.redact, a.query);
    var w, r := Owner("default:x", "agent", norm), Owner("default", "x:agent", norm);
    OwnerIs(t, "default:x", "agent", a.query);
    OwnerIs(t, "default", "x:agent", a.query);
    SplitOwnersShareKey(norm);
    LookupIsRead(t, a, w, r, "default", "x:agent", now);
    StoreThenLookup(t, KeyOf(w), a, now);
  }

  /* ---------- the cache object ---------- */

  class Cache {
    const tools: Tools
    var table: Table

    constructor (tools: Tools)
      ensures this.tools == tools && table == map[]
    {
      this.tools, table := tools, map[];
    }

    method ReadRow(key: Key, now: real) returns (hit: Option<Hit>)
      modifies this
      ensures (table, hit) == Lookup(old(table), key, now)
    {
      if key !in table || table[key].expireAt <= now { return None; }
      var row := table[key];
      table := table[key := row.(hits := row.hits + 1)];
      return Some(Hit(row.response, row.category, (row.expireAt - now).Floor, row.hits + 1));
    }

    method GetCachedResponse(query: string, scope: string, caller: string, now: real) returns (hit: Option<Hit>)
      modifies this
      ensures (table, hit) == GetResponse(tools, old(table), query, scope, caller, now)
    {
      if Bypasses(tools, query) { return None; }
      var norm := NormalizeQuery(tools.lower, tools.redact, query);
      if norm == "" { return None; }
      hit := ReadRow(KeyOf(Owner(Effective(scope, "default"), Effective(caller, "agent"), norm)), now);
    }

    method SetCachedResponse(a: SetArgs, now: real) returns (stored: bool)
      modifies this
      ensures (table, stored) == SetResponse(tools, old(table), a, now)
    {
      if a.caller !in TRUSTED_CALLERS { return false; }
      if |a.query| > MAX_QUERY_LENGTH || |a.response| > MAX_RESPONSE_LENGTH { return false; }
      var norm := NormalizeQuery(tools.lower, tools.redact, a.query);
      if norm == "" || '\0' in norm || Strip(a.response) == "" { return false; }
      var key := KeyOf(Owner(Effective(a.scope, "default"), Effective(a.caller, "agent"), norm));
      table := Stored(tools, table, key, a, now);
      return true;
    }

    method PruneExpiredCache(now: real) returns (removed: nat)
      modifies this
      ensures table == Prune(old(table), now) && removed + |table| == |old(table)|
    {
      var dead := set k | k in table && table[k].expireAt <= now;
      removed := |dead|;
      table := table - dead;
      assert old(table).Keys == table.Keys + dead && table.Keys !! dead;
    }
  }
}
