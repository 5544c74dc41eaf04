/** One row of the cache as a timed machine: what a run of stores, reads and prunings makes of it, and what the prunings
    change. */
module RowLife {
  import opened Wrappers

  /** A store, as far as reads can see it. */
  datatype Store = Store(response: string, category: string, expireAt: real)

  /** What an operation means for the row: a store or a read under its key, a pruning of the table, or nothing. */
  datatype Event = Stores(store: Store) | Reads | Prunes | Passes

  /** A run of events, the latest one last, each with the clock. */
  datatype Trace = Start | Then(past: Trace, event: Event, at: real)

  datatype Cell = Cell(response: string, category: string, expireAt: real, hits: nat)

  function Next(row: Option<Cell>, e: Event, at: real): Option<Cell> {
    match e
    case Stores(s) =>
      if row.None? then Some(Cell(s.response, s.category, s.expireAt, 1))
      else Some(row.value.(response := s.response, expireAt := s.expireAt))
    case Reads =>
      if row.Some? && at < row.value.expireAt then Some(row.value.(hits := row.value.hits + 1)) else row
    case Prunes => if row.Some? && row.value.expireAt <= at then None else row
    case Passes => row
  }

  function RowAfter(r: Trace): Option<Cell> {
    match r
    case Start => None
    case Then(past, e, at) => Next(RowAfter(past), e, at)
  }

  /** The clock never goes back, and is not later than `now` at the end. */
  predicate Until(r: Trace, now: real) {
    r.Then? ==> r.at <= now && Until(r.past, r.at)
  }

  /* ---------- what the events say ---------- */

  function LastStore(r: Trace): Option<Store> {
    match r
    case Start => None
    case Then(past, e, _) => if e.Stores? then Some(e.store) else LastStore(past)
  }

  function FirstStore(r: Trace): Option<Store> {
    match r
    case Start => None
    case Then(past, e, _) =>
      if FirstStore(past).Some? then FirstStore(past) else if e.Stores? then Some(e.store) else None
  }

  predicate Expired(s: Option<Store>, now: real) {
    s.Some? && s.value.expireAt <= now
  }

  predicate Alive(s: Option<Store>, now: real) {
    s.Some? && now < s.value.expireAt
  }

  /** The reads that find the latest store unexpired. */
  function Hits(r: Trace): nat {
    match r
    case Start => 0
    case Then(past, e, at) => Hits(past) + if e.Reads? && Alive(LastStore(past), at) then 1 else 0
  }

  /** The last event is a pruning that finds the latest store expired. */
  predicate Removes(r: Trace) {
    r.Then? && r.event.Prunes? && Expired(LastStore(r.past), r.at)
  }

  /** The events since the last such pruning: the life of the present row. */
  function Life(r: Trace): Trace {
    if r.Start? || Removes(r) then Start else r.(past := Life(r.past))
  }

  /** The events up to that pruning. */
  function Forgotten(r: Trace): Trace {
    if r.Start? || Removes(r) then r else Forgotten(r.past)
  }

  function Append(a: Trace, b: Trace): Trace {
    match b
    case Start => a
    case Then(past, e, at) => Then(Append(a, past), e, at)
  }

  lemma {:induction false} ForgottenThenLife(r: Trace)
    ensures Append(Forgotten(r), Life(r)) == r
  {
    if r.Then? && !Removes(r) { ForgottenThenLife(r.past); }
  }

  lemma {:induction false} FirstOfParts(a: Trace, b: Trace)
    ensures FirstStore(Append(a, b)) == if FirstStore(a).Some? then FirstStore(a) else FirstStore(b)
  {
    if b.Then? { FirstOfParts(a, b.past); }
  }

  lemma {:induction false} NoStoreNoHit(r: Trace)
    ensures FirstStore(r).Some? <==> LastStore(r).Some?
    ensures FirstStore(r).None? ==> Hits(r) == 0
  {
    if r.Then? { NoStoreNoHit(r.past); }
  }

  /** The latest store of all events is that of the present life, or has expired. */
  lemma {:induction false} LifeHasLatest(r: Trace, now: real)
    requires Until(r, now)
    ensures LastStore(r) == LastStore(Life(r)) || (LastStore(Life(r)).None? && Expired(LastStore(r), now))
  {
    if r.Then? && !Removes(r) { LifeHasLatest(r.past, r.at); }
  }

  /* ---------- the row ---------- */

  /** A row with a first store's category, a latest store's response and expiry time, and some hits. */
  function RowWith(first: Option<Store>, last: Option<Store>, hits: nat): Option<Cell> {
    if first.None? || last.None? then None
    else Some(Cell(last.value.response, first.value.category, last.value.expireAt, 1 + hits))
  }

  /** The row that a life makes. */
  function RowOf(life: Trace): Option<Cell> {
    RowWith(FirstStore(life), LastStore(life), Hits(life))
  }

  lemma RowStep(life: Trace, e: Event, at: real)
    requires !Removes(Then(life, e, at))
    ensures RowOf(Then(life, e, at)) == Next(RowOf(life), e, at)
  {
    NoStoreNoHit(life);
  }

  /** After every run of events the row is what its life makes it. */
  lemma {:induction false} RowIsItsLife(r: Trace, now: real)
    requires Until(r, now)
    ensures RowAfter(r) == RowOf(Life(r))
  {
    if r.Then? {
      RowIsItsLife(r.past, r.at);
      LifeHasLatest(r.past, r.at);
      NoStoreNoHit(Life(r.past));
      if !Removes(r) { RowStep(Life(r.past), r.event, r.at); }
    }
  }

  /** What a read at time `now` finds. */
  function Find(row: Option<Cell>, now: real): Option<Cell> {
    if row.Some? && now < row.value.expireAt then row else None
  }

  /** A read finds a row exactly while the latest store is unexpired: that store's response, the category of the first
      store of the row's life, and the hits of that life. */
  lemma FindsLatest(r: Trace, now: real)
    requires Until(r, now)
    ensures Find(RowAfter(r), now) ==
            if Alive(LastStore(r), now) then RowWith(FirstStore(Life(r)), LastStore(r), Hits(Life(r))) else None
    ensures Alive(LastStore(r), now) ==> FirstStore(Life(r)).Some?
  {
    RowIsItsLife(r, now);
    LifeHasLatest(r, now);
    NoStoreNoHit(Life(r));
  }

  /* ---------- leaving out the prunings ---------- */

  function Unpruned(r: Trace): Trace {
    match r
    case Start => Start
    case Then(past, e, at) => if e.Prunes? then Unpruned(past) else Then(Unpruned(past), e, at)
  }

  /** Prunings are neither stores nor reads, and without them a row lives from its first store on. */
  lemma {:induction false} UnprunedSame(r: Trace)
    ensures var u := Unpruned(r);
            LastStore(u) == LastStore(r) && FirstStore(u) == FirstStore(r) && Hits(u) == Hits(r) && Life(u) == u
  {
    if r.Then? { UnprunedSame(r.past); }
  }

  lemma {:induction false} UnprunedUntil(r: Trace, now: real, later: real)
    requires Until(r, now) && now <= later
    ensures Until(Unpruned(r), later)
  {
    if r.Then? { UnprunedUntil(r.past, r.at, if r.event.Prunes? then later else r.at); }
  }

  /** The hits of a run are those of the present life and those before it. */
  lemma {:induction false} HitsOfParts(r: Trace, now: real)
    requires Until(r, now)
    ensures Hits(r) == Hits(Forgotten(r)) + Hits(Life(r))
  {
    if r.Then? && !Removes(r) {
      HitsOfParts(r.past, r.at);
      LifeHasLatest(r.past, r.at);
    }
  }

  /** Without its prunings a run is one life. */
  lemma UnprunedFinds(r: Trace, now: real)
    requires Until(r, now)
    ensures Find(RowAfter(Unpruned(r)), now)
            == if Alive(LastStore(r), now) then RowWith(FirstStore(r), LastStore(r), Hits(r)) else None
  {
    UnprunedUntil(r, now, now);
    FindsLatest(Unpruned(r), now);
    UnprunedSame(r);
  }

  /** Two reads at the same time whose rows differ in the first store and the number of hits. */
  lemma CompareFinds(a: Option<Cell>, b: Option<Cell>, early: Option<Store>, first: Option<Store>, last: Option<Store>,
                     before: nat, hits: nat, alive: bool)
    requires alive ==> first.Some? && last.Some?
    requires a == (if alive then RowWith(first, last, hits) else None) && (early.None? ==> before == 0)
    requires b == if alive then RowWith(if early.Some? then early else first, last, before + hits) else None
    ensures (a.Some? <==> b.Some?)
    ensures a.Some? ==> a.value.response == b.value.response && a.value.expireAt == b.value.expireAt
    ensures a == b <==> a.None? || early.None? || (early.value.category == a.value.category && before == 0)
  {
  }

  /** Without the prunings a read finds a row exactly when it does with them, with the same response and expiry time.
      What it finds is the same altogether if and only if it finds nothing, or nothing was stored before the pruning
      that last removed the row, or what was stored first then had the same category and was never hit. */
  lemma PruningIsObservedIff(r: Trace, now: real)
    requires Until(r, now)
    ensures var a, b := Find(RowAfter(r), now), Find(RowAfter(Unpruned(r)), now);
            var early := FirstStore(Forgotten(r));
            && (a.Some? <==> b.Some?)
            && (a.Some? ==> a.value.response == b.value.response && a.value.expireAt == b.value.expireAt)
            && (a == b <==>
                  a.None? || early.None? || (early.value.category == a.value.category && Hits(Forgotten(r)) == 0))
  {
    var a, b := Find(RowAfter(r), now), Find(RowAfter(Unpruned(r)), now);
    FindsLatest(r, now);
    UnprunedFinds(r, now);
    ForgottenThenLife(r);
    FirstOfParts(Forgotten(r), Life(r));
    HitsOfParts(r, now);
    NoStoreNoHit(Forgotten(r));
    CompareFinds(a, b, FirstStore(Forgotten(r)), FirstStore(Life(r)), LastStore(r),
                 Hits(Forgotten(r)), Hits(Life(r)), Alive(LastStore(r), now));
  }
}
