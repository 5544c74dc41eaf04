/** Runs of the cache: what a read returns after any sequence of stores, reads and prunings, and what the prunings
    change about it. */
module CacheRuns {
  import opened Wrappers
  import opened Text
  import opened QueryNormaliser
  import opened SemanticCache
  import opened RowLife

  datatype Op =
    | SetOp(args: SetArgs)
    | GetOp(query: string, scope: string, caller: string)
    | PruneOp

  /** A run of calls, the latest one last, each with the clock. */
  datatype Calls = NoCalls | Calls(past: Calls, op: Op, now: real)

  ghost function Step(t: Tools, table: Table, op: Op, now: real): Table {
    match op
    case SetOp(a) => SetResponse(t, table, a, now).0
    case GetOp(q, scope, caller) => GetResponse(t, table, q, scope, caller, now).0
    case PruneOp => Prune(table, now)
  }

  /** The table after a run that starts with an empty one. */
  ghost function Run(t: Tools, calls: Calls): Table {
    match calls
    case NoCalls => map[]
    case Calls(past, op, now) => Step(t, Run(t, past), op, now)
  }

  /** The clock never goes back, and is not later than `now` at the end. */
  predicate InOrder(calls: Calls, now: real) {
    calls.Calls? ==> calls.now <= now && InOrder(calls.past, calls.now)
  }

  /* ---------- one key ---------- */

  function StoreOf(t: Tools, a: SetArgs, now: real): Store {
    Store(t.redact(Strip(a.response)), Or(a.category, t.infer(a.query)), now + Lifetime(t, a) as real)
  }

  /** What a call means for the row of a key. */
  ghost function EventOf(t: Tools, op: Op, now: real, key: Key): Event {
    match op
    case SetOp(a) =>
      if Storable(t, a) && KeyOf(OwnerOf(t, a.scope, a.caller, a.query)) == key
        then Stores(StoreOf(t, a, now)) else Passes
    case GetOp(q, scope, caller) =>
      var o := OwnerOf(t, scope, caller, q);
      if !Bypasses(t, q) && o.norm != "" && KeyOf(o) == key then Reads else Passes
    case PruneOp => Prunes
  }

  ghost function TraceOf(t: Tools, calls: Calls, key: Key): Trace {
    match calls
    case NoCalls => Start
    case Calls(past, op, now) => Then(TraceOf(t, past, key), EventOf(t, op, now, key), now)
  }

  function CellOf(table: Table, key: Key): Option<Cell> {
    if key in table
      then Some(Cell(table[key].response, table[key].category, table[key].expireAt, table[key].hits)) else None
  }

  lemma StoredIsNext(t: Tools, table: Table, a: SetArgs, now: real, stored: Key, key: Key)
    ensures CellOf(Stored(t, table, stored, a, now), key)
            == Next(CellOf(table, key), if stored == key then Stores(StoreOf(t, a, now)) else Passes, now)
  {
  }

  lemma LookupIsNext(table: Table, read: Key, key: Key, now: real)
    ensures CellOf(Lookup(table, read, now).0, key)
            == Next(CellOf(table, key), if read == key then Reads else Passes, now)
  {
  }

  lemma PruneIsNext(table: Table, key: Key, now: real)
    ensures CellOf(Prune(table, now), key) == Next(CellOf(table, key), Prunes, now)
  {
  }

  lemma StepIsNext(t: Tools, table: Table, op: Op, now: real, key: Key)
    ensures CellOf(Step(t, table, op, now), key) == Next(CellOf(table, key), EventOf(t, op, now, key), now)
  {
    match op
    case SetOp(a) => StoredIsNext(t, table, a, now, KeyOf(OwnerOf(t, a.scope, a.caller, a.query)), key);
    case GetOp(q, scope, caller) => LookupIsNext(table, KeyOf(OwnerOf(t, scope, caller, q)), key, now);
    case PruneOp => PruneIsNext(table, key, now);
  }

  /** The table holds for every key exactly the row that the events of that key make. */
  lemma {:induction false} TableHoldsRows(t: Tools, calls: Calls, key: Key, now: real)
    requires InOrder(calls, now)
    ensures CellOf(Run(t, calls), key) == RowAfter(TraceOf(t, calls, key)) && Until(TraceOf(t, calls, key), now)
  {
    if calls.Calls? {
      TableHoldsRows(t, calls.past, key, calls.now);
      StepIsNext(t, Run(t, calls.past), calls.op, calls.now, key);
    }
  }

  /* ---------- what a read returns ---------- */

  function HitOf(found: Option<Cell>, now: real): Option<Hit> {
    match found
    case None => None
    case Some(c) => Some(Hit(c.response, c.category, (c.expireAt - now).Floor, c.hits + 1))
  }

  lemma LookupFinds(table: Table, key: Key, now: real)
    ensures Lookup(table, key, now).1 == HitOf(Find(CellOf(table, key), now), now)
  {
  }

  lemma ReadFinds(t: Tools, table: Table, query: string, scope: string, caller: string, now: real)
    ensures var o := OwnerOf(t, scope, caller, query);
            GetResponse(t, table, query, scope, caller, now).1
            == if Bypasses(t, query) || o.norm == "" then None else HitOf(Find(CellOf(table, KeyOf(o)), now), now)
  {
    LookupFinds(table, KeyOf(OwnerOf(t, scope, caller, query)), now);
  }

  /** After every run of stores, reads and prunings with a monotone clock, a read that is neither bypassed nor empty
      finds something exactly while the latest store under its key has not expired: that store's redacted response and
      remaining time, the category of the first store since the row came into being, and two more than the earlier hits
      since then. */
  lemma ReadIsLatestStore(t: Tools, calls: Calls, query: string, scope: string, caller: string, now: real)
    requires InOrder(calls, now)
    ensures var o := OwnerOf(t, scope, caller, query);
            var r := TraceOf(t, calls, KeyOf(o));
            GetResponse(t, Run(t, calls), query, scope, caller, now).1
            == if Bypasses(t, query) || o.norm == "" || !Alive(LastStore(r), now) then None
               else HitOf(RowWith(FirstStore(Life(r)), LastStore(r), Hits(Life(r))), now)
    ensures var r := TraceOf(t, calls, KeyOf(OwnerOf(t, scope, caller, query)));
            Alive(LastStore(r), now) ==> FirstStore(Life(r)).Some?
  {
    var key := KeyOf(OwnerOf(t, scope, caller, query));
    TableHoldsRows(t, calls, key, now);
    FindsLatest(TraceOf(t, calls, key), now);
    ReadFinds(t, Run(t, calls), query, scope, caller, now);
  }

  /** Unless a read's normalised query can be stored and its caller name ends like that of an impostor, the stores under
      its key are exactly those for its own scope, caller and normalised query, in every run. */
  lemma StoresOfOwner(t: Tools, query: string, scope: string, caller: string, a: SetArgs, now: real)
    requires !Writable(t, OwnerOf(t, scope, caller, query).norm) || !Impersonates(Effective(caller, "agent"))
    ensures var o := OwnerOf(t, scope, caller, query);
            EventOf(t, SetOp(a), now, KeyOf(o)).Stores? <==>
            Storable(t, a) && OwnerOf(t, a.scope, a.caller, a.query) == o
  {
    SharesKeyIff(t, scope, caller, query);
    assert !LeaksTo(t, a, OwnerOf(t, scope, caller, query));
  }

  /* ---------- leaving out the prunings ---------- */

  function WithoutPruning(calls: Calls): Calls {
    match calls
    case NoCalls => NoCalls
    case Calls(past, op, now) => if op.PruneOp? then WithoutPruning(past) else Calls(WithoutPruning(past), op, now)
  }

  lemma {:induction false} TraceWithoutPruning(t: Tools, calls: Calls, key: Key)
    ensures TraceOf(t, WithoutPruning(calls), key) == Unpruned(TraceOf(t, calls, key))
  {
    if calls.Calls? { TraceWithoutPruning(t, calls.past, key); }
  }

  lemma {:induction false} WithoutPruningInOrder(calls: Calls, now: real, later: real)
    requires InOrder(calls, now) && now <= later
    ensures InOrder(WithoutPruning(calls), later)
  {
    if calls.Calls? { WithoutPruningInOrder(calls.past, calls.now, if calls.op.PruneOp? then later else calls.now); }
  }

  lemma SameHit(a: Option<Cell>, b: Option<Cell>, now: real)
    requires (a.Some? <==> b.Some?)
             && (a.Some? ==> a.value.response == b.value.response && a.value.expireAt == b.value.expireAt)
    ensures HitOf(a, now) == HitOf(b, now) <==> a == b
  {
  }

  /** What the prunings of a run change about a read: never whether it is a hit, its response or its remaining time.
      The whole hit, category and hit count included, is the same as without the prunings if and only if there is no
      hit, or no pruning removed a row of this key, or the removed rows' first store had the same category and was
      never hit. */
  lemma PruningIsObservedIff(t: Tools, calls: Calls, query: string, scope: string, caller: string, now: real)
    requires InOrder(calls, now)
    ensures var a := GetResponse(t, Run(t, calls), query, scope, caller, now).1;
            var b := GetResponse(t, Run(t, WithoutPruning(calls)), query, scope, caller, now).1;
            var removed := Forgotten(TraceOf(t, calls, KeyOf(OwnerOf(t, scope, caller, query))));
            && (a.Some? <==> b.Some?)
            && (a.Some? ==> a.value.response == b.value.response && a.value.remaining == b.value.remaining)
            && (a == b <==>
                  || a.None? || FirstStore(removed).None?
                  || (FirstStore(removed).value.category == a.value.category && Hits(removed) == 0))
  {
    var key := KeyOf(OwnerOf(t, scope, caller, query));
    WithoutPruningInOrder(calls, now, now);
    TableHoldsRows(t, calls, key, now);
    TableHoldsRows(t, WithoutPruning(calls), key, now);
    TraceWithoutPruning(t, calls, key);
    RowLife.PruningIsObservedIff(TraceOf(t, calls, key), now);
    ReadFinds(t, Run(t, calls), query, scope, caller, now);
    ReadFinds(t, Run(t, WithoutPruning(calls)), query, scope, caller, now);
    var r := TraceOf(t, calls, key);
    SameHit(Find(RowAfter(r), now), Find(RowAfter(Unpruned(r)), now), now);
  }

  /** A store, a pruning after its expiry, and a second store. */
  function Recreated(first: SetArgs, second: SetArgs): Calls {
    Calls(Calls(Calls(NoCalls, SetOp(first), 0.0), PruneOp, 10.0), SetOp(second), 10.0)
  }

  lemma RecreatedInOrder(first: SetArgs, second: SetArgs)
    ensures InOrder(Recreated(first, second), 10.0)
  {
    var calls := Recreated(first, second);
    assert InOrder(calls.past.past, 10.0) && InOrder(calls.past, 10.0);
  }

  lemma RecreatedRow(s1: Store, s2: Store)
    requires s1.expireAt <= 10.0 < s2.expireAt
    ensures var r := Then(Then(Then(Start, Stores(s1), 0.0), Prunes, 10.0), Stores(s2), 10.0);
            && Until(r, 10.0)
            && Find(RowAfter(r), 10.0) == Some(Cell(s2.response, s2.category, s2.expireAt, 1))
            && Find(RowAfter(Unpruned(r)), 10.0) == Some(Cell(s2.response, s1.category, s2.expireAt, 1))
  {
    var r1 := Then(Start, Stores(s1), 0.0);
    var r2 := Then(r1, Prunes, 10.0);
    assert RowAfter(r1) == Some(Cell(s1.response, s1.category, s1.expireAt, 1)) && RowAfter(r2) == None;
    assert Until(r1, 10.0) && Until(r2, 10.0);
    assert Unpruned(r1) == r1 && Unpruned(r2) == r1;
  }

  lemma RecreatedTrace(t: Tools, first: SetArgs, second: SetArgs, key: Key)
    ensures EventOf(t, SetOp(first), 0.0, key) == Stores(StoreOf(t, first, 0.0))
              && EventOf(t, SetOp(second), 10.0, key) == Stores(StoreOf(t, second, 10.0)) ==>
            TraceOf(t, Recreated(first, second), key)
            == Then(Then(Then(Start, Stores(StoreOf(t, first, 0.0)), 0.0), Prunes, 10.0),
              Stores(StoreOf(t, second, 10.0)), 10.0)
  {
    assert TraceOf(t, NoCalls, key) == Start;
    assert TraceOf(t, Calls(NoCalls, SetOp(first), 0.0), key) == Then(Start, EventOf(t, SetOp(first), 0.0, key), 0.0);
  }

  lemma CellsAfter(t: Tools, calls: Calls, key: Key)
    requires InOrder(calls, 10.0)
    ensures CellOf(Run(t, calls), key) == RowAfter(TraceOf(t, calls, key))
    ensures CellOf(Run(t, WithoutPruning(calls)), key) == RowAfter(Unpruned(TraceOf(t, calls, key)))
  {
    TableHoldsRows(t, calls, key, 10.0);
    WithoutPruningInOrder(calls, 10.0, 10.0);
    TableHoldsRows(t, WithoutPruning(calls), key, 10.0);
    TraceWithoutPruning(t, calls, key);
  }

  /** A pruning between two stores of different categories is seen by the next read: it returns the second category, and
      the first one if the pruning is left out. */
  lemma PruningChangesCategory(t: Tools, a: SetArgs)
    requires Storable(t, a) && !Bypasses(t, a.query) && a.ttl == Some(1) && a.category == "x"
    ensures var calls := Recreated(a, a.(category := "y", ttl := Some(60)));
            var pruned := GetResponse(t, Run(t, calls), a.query, a.scope, a.caller, 10.0).1;
            var unpruned := GetResponse(t, Run(t, WithoutPruning(calls)), a.query, a.scope, a.caller, 10.0).1;
            pruned.Some? && pruned.value.category == "y" && unpruned.Some? && unpruned.value.category == "x"
  {
    var b := a.(category := "y", ttl := Some(60));
    var key := KeyOf(OwnerOf(t, a.scope, a.caller, a.query));
    var calls := Recreated(a, b);
    RecreatedInOrder(a, b);
    RecreatedTrace(t, a, b, key);
    CellsAfter(t, calls, key);
    RecreatedRow(StoreOf(t, a, 0.0), StoreOf(t, b, 10.0));
    ReadFinds(t, Run(t, calls), a.query, a.scope, a.caller, 10.0);
    ReadFinds(t, Run(t, WithoutPruning(calls)), a.query, a.scope, a.caller, 10.0);
  }

  /* ---------- how long a store lives, and who bypasses it ---------- */

  /** The text contains the word. */
  ghost predicate HasPart(s: string, w: string) {
    exists a, b :: s == a + w + b
  }

  ghost predicate AsksAnew(s: string) {
    HasPart(s, "刷新") || HasPart(s, "重新查詢") || HasPart(s, "強制") || HasPart(s, "--no-cache") || HasPart(s, "-f")
  }

  lemma ContainsIff(s: string, w: string)
    ensures Contains(s, w) <==> HasPart(s, w)
  {
    if i :| 0 <= i <= |s| && StandsAt(s, w, i) { assert s == s[..i] + w + s[i + |w|..]; }
    if a, b :| s == a + w + b { assert StandsAt(s, w, |a|); }
  }

  lemma BypassesIff(t: Tools, query: string)
    ensures Bypasses(t, query) <==> AsksAnew(t.lower(query))
  {
    var s := t.lower(query);
    ContainsIff(s, "刷新");
    ContainsIff(s, "重新查詢");
    ContainsIff(s, "強制");
    ContainsIff(s, "--no-cache");
    ContainsIff(s, "-f");
    assert BYPASS_WORDS[0] == "刷新" && BYPASS_WORDS[1] == "重新查詢" && BYPASS_WORDS[2] == "強制";
    assert BYPASS_WORDS[3] == "--no-cache" && BYPASS_WORDS[4] == "-f";
  }

  /** The seconds that a store is kept: those that it names, but at least one and at most a day, or else those of its
      category. */
  ghost predicate KeptFor(ttl: Option<int>, category: string, seconds: int) {
    match ttl
    case Some(n) =>
      && 1 <= seconds <= 86400 && (n <= 1 ==> seconds == 1) && (n >= 86400 ==> seconds == 86400)
      && (1 <= n <= 86400 ==> seconds == n)
    case None =>
      && (category == "stock" ==> seconds == 60)
      && (category == "health" ==> seconds == 180)
      && (category == "archive" ==> seconds == 600)
      && (category !in {"stock", "health", "archive"} ==> seconds == 300)
  }

  lemma LifetimeIs(t: Tools, a: SetArgs)
    ensures KeptFor(a.ttl, Or(a.category, t.infer(a.query)), Lifetime(t, a))
  {
  }

  lemma StoreIsLatest(t: Tools, calls: Calls, a: SetArgs, now: real, key: Key)
    requires EventOf(t, SetOp(a), now, key) == Stores(StoreOf(t, a, now))
    ensures LastStore(TraceOf(t, Calls(calls, SetOp(a), now), key)) == Some(StoreOf(t, a, now))
  {
  }

  ghost predicate IsHit(hit: Option<Hit>, response: string, remaining: int) {
    hit.Some? && hit.value.response == response && hit.value.remaining == remaining
  }

  lemma StoreEvent(t: Tools, a: SetArgs, now: real) returns (key: Key)
    requires SetResponse(t, map[], a, now).1
    ensures key == KeyOf(OwnerOf(t, a.scope, a.caller, a.query)) && OwnerOf(t, a.scope, a.caller, a.query).norm != ""
    ensures EventOf(t, SetOp(a), now, key) == Stores(StoreOf(t, a, now))
  {
    key := KeyOf(OwnerOf(t, a.scope, a.caller, a.query));
  }

  /** After every run, what was just stored is found by its owner unless the query asks for a new answer, and for
      exactly as many seconds as its arguments say. */
  lemma StoreIsRead(t: Tools, calls: Calls, a: SetArgs, now: real, later: real) returns (seconds: int)
    requires InOrder(calls, now) && now <= later && SetResponse(t, map[], a, now).1
    ensures KeptFor(a.ttl, Or(a.category, t.infer(a.query)), seconds)
    ensures var hit := GetResponse(t, Run(t, Calls(calls, SetOp(a), now)), a.query, a.scope, a.caller, later).1;
            if later < now + seconds as real && !AsksAnew(t.lower(a.query))
            then IsHit(hit, t.redact(Strip(a.response)), (now + seconds as real - later).Floor) else hit == None
  {
    var key := StoreEvent(t, a, now);
    seconds := Lifetime(t, a);
    LifetimeIs(t, a);
    BypassesIff(t, a.query);
    StoreIsLatest(t, calls, a, now, key);
    ReadIsLatestStore(t, Calls(calls, SetOp(a), now), a.query, a.scope, a.caller, later);
  }

  /* ---------- what is stored, and what is refused ---------- */

  predicate Blank(s: string) {
    forall i :: 0 <= i < |s| ==> IsSpace(s[i])
  }

  lemma {:induction false} TrimRightBlank(s: string)
    ensures TrimRight(IsSpace, s) == "" <==> Blank(s)
  {
    if s != "" && IsSpace(s[|s| - 1]) { TrimRightBlank(s[..|s| - 1]); }
  }

  lemma {:induction false} TrimLeftBlank(s: string)
    ensures TrimLeft(IsSpace, s) == "" <==> Blank(s)
  {
    if s != "" && IsSpace(s[0]) {
      TrimLeftBlank(s[1..]);
      assert forall i :: 0 < i < |s| ==> s[i] == s[1..][i - 1];
    }
  }

  lemma StripBlank(s: string)
    ensures Strip(s) == "" <==> Blank(s)
  {
    TrimLeftBlank(s);
    TrimLeftEnds(s);
    TrimRightBlank(TrimLeft(IsSpace, s));
  }

  lemma StorableIff(t: Tools, a: SetArgs, norm: string)
    requires norm == Normalise(t.lower, t.redact, a.query)
    ensures Storable(t, a) <==> Acceptable(a, norm)
  {
    StripBlank(a.response);
  }

  ghost predicate Acceptable(a: SetArgs, norm: string) {
    && a.caller in TRUSTED_CALLERS && |a.query| <= 4096 && |a.response| <= 16384 && !Blank(a.response) && norm != ""
    && '\0' !in norm
  }

  /** A response is stored if and only if its caller is a trusted one, query and response are not too long, and neither
      is empty; otherwise the table stays as it is. */
  lemma StoredIff(t: Tools, table: Table, a: SetArgs, now: real)
    ensures var (after, stored) := SetResponse(t, table, a, now);
            && (stored <==> Acceptable(a, Normalise(t.lower, t.redact, a.query)))
            && (!stored ==> after == table)
  {
    StorableIff(t, a, Normalise(t.lower, t.redact, a.query));
  }

  /** A store changes no row but its own, and in that only what it stores: the category, the hits and the names of an
      existing row stay. */
  lemma StoreKeepsOthers(t: Tools, table: Table, a: SetArgs, now: real)
    requires SetResponse(t, table, a, now).1
    ensures var after := SetResponse(t, table, a, now).0;
            var key := KeyOf(OwnerOf(t, a.scope, a.caller, a.query));
            && after.Keys == table.Keys + {key} && (forall k :: k in table && k != key ==> after[k] == table[k])
            && after[key].createdAt == now && after[key].query == t.redact(Strip(a.query))
            && (key in table ==>
                 && after[key].hits == table[key].hits && after[key].category == table[key].category
                 && after[key].caller == table[key].caller && after[key].scope == table[key].scope)
  {
  }
}
