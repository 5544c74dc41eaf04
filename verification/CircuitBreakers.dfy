/** The task circuit breaker and the cron circuit breaker: two machines that agree, and what an outage can cost. */
module CircuitBreakers {
  import opened Wrappers

  const FAILURE_THRESHOLD: nat := 3
  const PROBE_INTERVAL: real := 300.0

  datatype BreakerState = Healthy | Quarantined | Probing

  /** The outcome of a task if it is run: no error, or its message. */
  type Outcome = Option<string>

  datatype Entry = Entry(failures: nat, state: BreakerState, lastError: string, lastFailure: real, lastProbe: real)

  datatype JobEntry = JobEntry(
    jobName: string, failures: nat, state: BreakerState, lastError: string, lastFailure: real,
    quarantineTime: real, lastProbe: real, probeInterval: int, alertSent: bool)

  const NEW_ENTRY := Entry(0, Healthy, "", 0.0, 0.0)

  function NewJob(jobName: string): JobEntry {
    JobEntry(jobName, 0, Healthy, "", 0.0, 0.0, 0.0, 300, false)
  }

  /* ---------- the task breaker ---------- */

  function AfterTask(e: Entry, now: real, outcome: Outcome): Entry {
    match outcome
    case None => e.(failures := 0, state := Healthy, lastError := "")
    case Some(msg) =>
      var f := e.(failures := e.failures + 1, lastError := msg, lastFailure := now);
      if f.failures >= FAILURE_THRESHOLD then f.(state := Quarantined, lastProbe := now) else f
  }

  /** One protected call with one clock reading: the new entry, and whether the task was run. */
  function Protect(e: Entry, now: real, outcome: Outcome): (Entry, bool) {
    if e.state == Quarantined then
      if now - e.lastProbe >= PROBE_INTERVAL
        then (AfterTask(e.(state := Probing, lastProbe := now), now, outcome), true)
      else (e, false)
    else (AfterTask(e, now, outcome), true)
  }

  /* ---------- the cron breaker ---------- */

  function Allow(e: JobEntry, now: real): (JobEntry, bool) {
    if e.state == Quarantined then
      if now - e.lastProbe >= e.probeInterval as real
        then (e.(state := Probing, lastProbe := now), true) else (e, false)
    else (e, true)
  }

  /** Recording a result: the new entry, and whether an alert is raised. */
  function Record(e: JobEntry, now: real, outcome: Outcome): (JobEntry, bool) {
    match outcome
    case None => (e.(failures := 0, state := Healthy, lastError := "", alertSent := false), false)
    case Some(msg) =>
      var f := e.(failures := e.failures + 1, lastError := msg, lastFailure := now);
      if f.failures < FAILURE_THRESHOLD then (f, false)
      else if f.state != Quarantined then
        (f.(state := Quarantined, quarantineTime := now, lastProbe := now, alertSent := true), !f.alertSent)
      else (f.(lastProbe := now), false)
  }

  function ResetJob(e: JobEntry): JobEntry {
    e.(failures := 0, state := Healthy, alertSent := false)
  }

  /** Allow, then run and record if allowed, all at one clock reading: the new entry, whether the job ran, and whether
      an alert was raised. */
  function CronCall(e: JobEntry, now: real, outcome: Outcome): (JobEntry, bool, bool) {
    var (e1, allowed) := Allow(e, now);
    if !allowed then (e1, false, false)
    else
      var (e2, alert) := Record(e1, now, outcome);
      (e2, true, alert)
  }

  /* ---------- the two machines agree ---------- */

  ghost predicate Agree(e: Entry, c: JobEntry) {
    && e.failures == c.failures && e.state == c.state && e.lastError == c.lastError
    && e.lastFailure == c.lastFailure && e.lastProbe == c.lastProbe && c.probeInterval == 300
  }

  datatype Call = Call(now: real, outcome: Outcome)

  function ProtectRun(e: Entry, calls: seq<Call>): (Entry, seq<bool>)
    decreases |calls|
  {
    if calls == [] then (e, [])
    else
      var (e1, ran) := Protect(e, calls[0].now, calls[0].outcome);
      var (e2, rest) := ProtectRun(e1, calls[1..]);
      (e2, [ran] + rest)
  }

  function CronRun(c: JobEntry, calls: seq<Call>): (JobEntry, seq<bool>, nat)
    decreases |calls|
  {
    if calls == [] then (c, [], 0)
    else
      var (c1, ran, alert) := CronCall(c, calls[0].now, calls[0].outcome);
      var (c2, rest, alerts) := CronRun(c1, calls[1..]);
      (c2, [ran] + rest, alerts + if alert then 1 else 0)
  }

  /** Over every sequence of calls, successful or not, both machines run the task in the same calls and end with the
      same state, failure count, error, failure time and probe time. */
  lemma {:induction false} MachinesAgree(e: Entry, c: JobEntry, calls: seq<Call>)
    requires Agree(e, c)
    ensures ProtectRun(e, calls).1 == CronRun(c, calls).1 && Agree(ProtectRun(e, calls).0, CronRun(c, calls).0)
    decreases |calls|
  {
    if calls != [] {
      var e1 := Protect(e, calls[0].now, calls[0].outcome).0;
      var c1 := CronCall(c, calls[0].now, calls[0].outcome).0;
      assert Agree(e1, c1);
      MachinesAgree(e1, c1, calls[1..]);
    }
  }

  /** The entries either machine reaches from a new one between calls. */
  ghost predicate Settled(e: Entry) {
    (e.state == Healthy && e.failures < FAILURE_THRESHOLD)
      || (e.state == Quarantined && e.failures >= FAILURE_THRESHOLD)
  }

  lemma {:induction false} RunsStaySettled(e: Entry, calls: seq<Call>)
    requires Settled(e)
    ensures Settled(ProtectRun(e, calls).0)
    decreases |calls|
  {
    if calls != [] { RunsStaySettled(Protect(e, calls[0].now, calls[0].outcome).0, calls[1..]); }
  }

  /* ---------- outages ---------- */

  /** Calls in time order, all of which would fail. */
  ghost predicate Outage(calls: seq<Call>) {
    && (forall i :: 0 <= i < |calls| ==> calls[i].outcome.Some?)
    && (forall i, j :: 0 <= i < j < |calls| ==> calls[i].now <= calls[j].now)
  }

  function Count(ran: seq<bool>): nat {
    if ran == [] then 0 else (if ran[0] then 1 else 0) + Count(ran[1..])
  }

  ghost function Intervals(t: real): int {
    (t / PROBE_INTERVAL).Floor
  }

  lemma IntervalsAdd(s: real, t: real)
    requires s + PROBE_INTERVAL <= t
    ensures Intervals(s) + 1 <= Intervals(t)
  {
    assert s / PROBE_INTERVAL + 1.0 == (s + PROBE_INTERVAL) / PROBE_INTERVAL <= t / PROBE_INTERVAL;
  }

  lemma IntervalsMonotone(s: real, t: real)
    requires s <= t
    ensures Intervals(s) <= Intervals(t)
  {
  }

  lemma OutageTail(calls: seq<Call>)
    requires Outage(calls) && calls != []
    ensures Outage(calls[1..])
  {
  }

  lemma CountSplit(x: bool, rest: seq<bool>)
    ensures Count([x] + rest) == (if x then 1 else 0) + Count(rest)
  {
    assert ([x] + rest)[1..] == rest;
  }

  /** While quarantined, at most one probe per interval since the last one. */
  lemma {:induction false} QuarantineProbes(e: Entry, calls: seq<Call>, last: real)
    requires Settled(e) && e.state == Quarantined && Outage(calls)
    requires e.lastProbe <= last && forall i :: 0 <= i < |calls| ==> e.lastProbe <= calls[i].now <= last
    ensures Count(ProtectRun(e, calls).1) <= Intervals(last - e.lastProbe)
    decreases |calls|
  {
    if calls != [] {
      var (e1, ran) := Protect(e, calls[0].now, calls[0].outcome);
      OutageTail(calls);
      QuarantineProbes(e1, calls[1..], last);
      CountSplit(ran, ProtectRun(e1, calls[1..]).1);
      if ran { IntervalsAdd(last - calls[0].now, last - e.lastProbe); }
    } else {
      IntervalsMonotone(0.0, last - e.lastProbe);
    }
  }

  /** An outage that a healthy entry with `k` failures meets costs at most 3 - k executions, and one more for every full
      probe interval it lasts. */
  lemma {:induction false} OutageCost(e: Entry, calls: seq<Call>)
    requires Settled(e) && e.state == Healthy && Outage(calls) && calls != []
    ensures Count(ProtectRun(e, calls).1) <= 3 - e.failures + Intervals(calls[|calls| - 1].now - calls[0].now)
    decreases |calls|
  {
    var (e1, ran) := Protect(e, calls[0].now, calls[0].outcome);
    var last := calls[|calls| - 1].now;
    OutageTail(calls);
    CountSplit(ran, ProtectRun(e1, calls[1..]).1);
    if e1.state == Quarantined {
      QuarantineProbes(e1, calls[1..], last);
    } else if |calls| > 1 {
      OutageCost(e1, calls[1..]);
      IntervalsMonotone(last - calls[1].now, last - calls[0].now);
    }
  }

  /** The same bound for the cron engine with its default probe interval: an outage of length T that meets a new or
      healthy job costs at most 3 + floor(T / 300) executions. */
  lemma CronOutageCost(c: JobEntry, calls: seq<Call>)
    requires c.state == Healthy && c.failures < FAILURE_THRESHOLD && c.probeInterval == 300 && Outage(calls)
             && calls != []
    ensures Count(CronRun(c, calls).1) <= 3 + Intervals(calls[|calls| - 1].now - calls[0].now)
  {
    var e := Entry(c.failures, c.state, c.lastError, c.lastFailure, c.lastProbe);
    MachinesAgree(e, c, calls);
    OutageCost(e, calls);
  }

  /* ---------- alerts ---------- */

  /** The job entries reached between calls: the alert is marked as sent exactly while the job is quarantined. */
  ghost predicate JobSettled(c: JobEntry) {
    || (c.state == Healthy && c.failures < FAILURE_THRESHOLD && !c.alertSent)
    || (c.state == Quarantined && c.failures >= FAILURE_THRESHOLD && c.alertSent)
  }

  /** A call raises an alert exactly when it moves the job from healthy into quarantine; a reset makes the next outage
      alert again. */
  lemma AlertIffTrips(c: JobEntry, call: Call)
    requires JobSettled(c)
    ensures var (c1, _, alert) := CronCall(c, call.now, call.outcome);
            JobSettled(c1) && (alert <==> c.state == Healthy && c1.state == Quarantined)
    ensures JobSettled(ResetJob(c)) && ResetJob(c).state == Healthy
  {
  }

  /** During one outage, however long, a healthy job raises exactly one alert, and raises it if and only if the job runs
      into quarantine. */
  lemma {:induction false} OneAlertPerOutage(c: JobEntry, calls: seq<Call>)
    requires JobSettled(c) && forall i :: 0 <= i < |calls| ==> calls[i].outcome.Some?
    ensures var (c1, _, alerts) := CronRun(c, calls);
            && JobSettled(c1)
            && alerts == (if c.state == Healthy && c1.state == Quarantined then 1 else 0)
            && (c.state == Healthy ==> (c1.state == Quarantined <==> c.failures + |calls| >= FAILURE_THRESHOLD))
            && (c.state == Quarantined ==> c1.state == Quarantined)
    decreases |calls|
  {
    if calls != [] {
      AlertIffTrips(c, calls[0]);
      OneAlertPerOutage(CronCall(c, calls[0].now, calls[0].outcome).0, calls[1..]);
    }
  }

  /* ---------- when a call runs ---------- */

  /** The failures since the last success, among the calls that ran. */
  function FailuresInRow(calls: seq<Call>, ran: seq<bool>): nat
    requires |calls| == |ran|
  {
    var n := |calls|;
    if n == 0 then 0
    else
      var before := FailuresInRow(calls[..n - 1], ran[..n - 1]);
      if !ran[n - 1] then before else if calls[n - 1].outcome.None? then 0 else before + 1
  }

  /** When the last of the calls that ran did so. */
  function LastRun(calls: seq<Call>, ran: seq<bool>): Option<real>
    requires |calls| == |ran|
  {
    var n := |calls|;
    if n == 0 then None else if ran[n - 1] then Some(calls[n - 1].now) else LastRun(calls[..n - 1], ran[..n - 1])
  }

  /** Whether a call at this time runs after these calls. */
  predicate RunsAfter(calls: seq<Call>, ran: seq<bool>, now: real)
    requires |calls| == |ran|
  {
    FailuresInRow(calls, ran) < 3 || match LastRun(calls, ran) case Some(t) => now - t >= 300.0 case None => true
  }

  ghost predicate Knows(e: Entry, calls: seq<Call>, ran: seq<bool>)
    requires |calls| == |ran|
  {
    && e.failures == FailuresInRow(calls, ran)
    && e.state == (if e.failures < 3 then Healthy else Quarantined)
    && (e.failures > 0 ==> LastRun(calls, ran).Some?)
    && (e.failures >= 3 ==> LastRun(calls, ran) == Some(e.lastProbe))
  }

  lemma KnowsNext(e: Entry, calls: seq<Call>, ran: seq<bool>, c: Call)
    requires |calls| == |ran| && Knows(e, calls, ran)
    ensures var (e1, runs) := Protect(e, c.now, c.outcome);
            (runs <==> RunsAfter(calls, ran, c.now)) && Knows(e1, calls + [c], ran + [runs])
  {
    var runs := Protect(e, c.now, c.outcome).1;
    assert (calls + [c])[..|calls|] == calls && (ran + [runs])[..|calls|] == ran;
  }

  ghost predicate RunsAt(calls: seq<Call>, ran: seq<bool>, next: seq<Call>, runs: seq<bool>, i: nat)
    requires |calls| == |ran| && |next| == |runs| && i < |next|
  {
    runs[i] <==> RunsAfter(calls + next[..i], ran + runs[..i], next[i].now)
  }

  lemma LaterCall(calls: seq<Call>, ran: seq<bool>, next: seq<Call>, runs: seq<bool>, i: nat)
    requires |calls| == |ran| && |next| == |runs| && i + 1 < |next|
    ensures RunsAt(calls, ran, next, runs, i + 1) == RunsAt(calls + [next[0]], ran + [runs[0]], next[1..], runs[1..], i)
  {
    assert calls + [next[0]] + next[1..][..i] == calls + next[..i + 1];
    assert ran + [runs[0]] + runs[1..][..i] == ran + runs[..i + 1];
  }

  lemma {:induction false} RunsFrom(e: Entry, calls: seq<Call>, ran: seq<bool>, next: seq<Call>)
    requires |calls| == |ran| && Knows(e, calls, ran)
    ensures var runs := ProtectRun(e, next).1;
            |runs| == |next| && forall i :: 0 <= i < |next| ==> RunsAt(calls, ran, next, runs, i)
    decreases |next|
  {
    if next != [] {
      var (e1, r) := Protect(e, next[0].now, next[0].outcome);
      var rest := ProtectRun(e1, next[1..]).1;
      KnowsNext(e, calls, ran, next[0]);
      RunsFrom(e1, calls + [next[0]], ran + [r], next[1..]);
      assert ([r] + rest)[1..] == rest && calls + next[..0] == calls && ran + ([r] + rest)[..0] == ran;
      forall i | 0 <= i < |next| ensures RunsAt(calls, ran, next, [r] + rest, i) {
        if i > 0 { LaterCall(calls, ran, next, [r] + rest, i - 1); }
      }
    }
  }

  lemma NewJobAgrees(jobName: string)
    ensures Agree(NEW_ENTRY, NewJob(jobName)) && JobSettled(NewJob(jobName))
  {
  }

  /** Over every sequence of calls to a new task or job, successful or not and at whatever times: a call runs if and
      only if fewer than three runs failed since the last success, or the last run is at least 300 seconds ago. */
  lemma RunsIff(jobName: string, calls: seq<Call>, i: nat)
    requires i < |calls|
    ensures var runs := ProtectRun(NEW_ENTRY, calls).1;
            && |runs| == |calls| && runs == CronRun(NewJob(jobName), calls).1
            && (runs[i] <==> RunsAfter(calls[..i], runs[..i], calls[i].now))
  {
    NewJobAgrees(jobName);
    MachinesAgree(NEW_ENTRY, NewJob(jobName), calls);
    RunsFrom(NEW_ENTRY, [], [], calls);
    var runs := ProtectRun(NEW_ENTRY, calls).1;
    assert RunsAt([], [], calls, runs, i) && [] + calls[..i] == calls[..i] && [] + runs[..i] == runs[..i];
  }

  /** What decides over later calls and alerts. */
  ghost predicate SameMode(c: JobEntry, d: JobEntry) {
    && c.failures == d.failures && c.state == d.state && c.alertSent == d.alertSent
    && c.probeInterval == d.probeInterval && (c.state == Quarantined ==> c.lastProbe == d.lastProbe)
  }

  lemma {:induction false} SameModeRuns(c: JobEntry, d: JobEntry, calls: seq<Call>)
    requires SameMode(c, d) && c.state == (if c.failures < 3 then Healthy else Quarantined)
    ensures CronRun(c, calls).1 == CronRun(d, calls).1 && CronRun(c, calls).2 == CronRun(d, calls).2
    decreases |calls|
  {
    if calls != [] {
      var c1 := CronCall(c, calls[0].now, calls[0].outcome).0;
      var d1 := CronCall(d, calls[0].now, calls[0].outcome).0;
      assert SameMode(c1, d1) && c1.state == (if c1.failures < 3 then Healthy else Quarantined);
      SameModeRuns(c1, d1, calls[1..]);
    }
  }

  /** After a reset every sequence of calls runs and alerts as for a new job. */
  lemma ResetIsNew(c: JobEntry, jobName: string, calls: seq<Call>)
    requires c.probeInterval == 300
    ensures CronRun(ResetJob(c), calls).1 == CronRun(NewJob(jobName), calls).1
    ensures CronRun(ResetJob(c), calls).2 == CronRun(NewJob(jobName), calls).2
  {
    SameModeRuns(ResetJob(c), NewJob(jobName), calls);
  }

  /* ---------- allowances and results in any order ---------- */

  /** What a job's entry sees: a question whether it may run, or a result. They need not alternate. */
  datatype Event = Asked(at: real) | Recorded(at: real, outcome: Outcome)

  function AfterEvent(c: JobEntry, e: Event): (JobEntry, bool) {
    match e
    case Asked(at) => (Allow(c, at).0, false)
    case Recorded(at, outcome) => Record(c, at, outcome)
  }

  function AfterEvents(c: JobEntry, events: seq<Event>): (JobEntry, bool) {
    if events == [] then (c, false) else AfterEvent(AfterEvents(c, events[..|events| - 1]).0, events[|events| - 1])
  }

  /** The failures recorded since the last recorded success. */
  function RecordedInRow(events: seq<Event>): nat {
    if events == [] then 0
    else
      var before, e := RecordedInRow(events[..|events| - 1]), events[|events| - 1];
      if e.Asked? then before else if e.outcome.None? then 0 else before + 1
  }

  /** In whatever order a new job's questions and results come, exactly the third failure in a row raises an alert. The
      job is healthy before it and not from then on until a success; its quarantine is dated by the latest result that
      found it healthy or on probation. */
  lemma {:induction false} ThirdFailureAlerts(jobName: string, events: seq<Event>)
    ensures var (c, alert) := AfterEvents(NewJob(jobName), events);
            var n := RecordedInRow(events);
            && (alert <==>
                 events != [] && events[|events| - 1].Recorded? && events[|events| - 1].outcome.Some? && n == 3)
            && c.failures == n && c.alertSent == (n >= 3) && (c.state == Healthy <==> n < 3)
    ensures events != [] ==>
              var was := AfterEvents(NewJob(jobName), events[..|events| - 1]).0;
              var (c, e) := (AfterEvents(NewJob(jobName), events).0, events[|events| - 1]);
              c.quarantineTime == if was.state != Quarantined
                && c.state == Quarantined then e.at else was.quarantineTime
  {
    if events != [] { ThirdFailureAlerts(jobName, events[..|events| - 1]); }
  }
}
