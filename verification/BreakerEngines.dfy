/** The two circuit breakers over the state they update: the persisted entries of the task breaker, and the job entries
    of the cron engine. */
module BreakerEngines {
  import opened Wrappers
  import opened CircuitBreakers

  class TaskBreakers {
    var breakers: map<string, Entry>

    function EntryOf(taskId: string): Entry
      reads this
    {
      if taskId in breakers then breakers[taskId] else NEW_ENTRY
    }

    constructor ()
      ensures breakers == map[]
    {
      breakers := map[];
    }

    /** `outcome` is what the task yields if it is run. */
    method CheckAndExecuteTask(taskId: string, now: real, outcome: Outcome) returns (executed: bool, success: bool)
      modifies this
      ensures (EntryOf(taskId), executed) == Protect(old(EntryOf(taskId)), now, outcome)
      ensures success == (executed && outcome.None?)
      ensures forall id :: id != taskId ==> EntryOf(id) == old(EntryOf(id))
    {
      var entry := EntryOf(taskId);
      if entry.state == Quarantined {
        if now - entry.lastProbe >= PROBE_INTERVAL {
          entry := entry.(state := Probing, lastProbe := now);
          breakers := breakers[taskId := entry];
        } else {
          return false, false;
        }
      }
      match outcome
      case None =>
        entry := entry.(failures := 0, state := Healthy, lastError := "");
        breakers := breakers[taskId := entry];
        return true, true;
      case Some(msg) =>
        entry := entry.(failures := entry.failures + 1, lastError := msg, lastFailure := now);
        if entry.failures >= FAILURE_THRESHOLD { entry := entry.(state := Quarantined, lastProbe := now); }
        breakers := breakers[taskId := entry];
        return true, false;
    }
  }

  class JobBreakerEntry {
    const jobId: string
    var jobName: string
    var failures: nat
    var state: BreakerState
    var lastError: string
    var lastFailure: real
    var quarantineTime: real
    var lastProbe: real
    var probeInterval: int
    var alertSent: bool

    constructor (jobId: string, jobName: string)
      ensures this.jobId == jobId && View() == NewJob(jobName)
    {
      this.jobId, this.jobName, failures, state, lastError := jobId, jobName, 0, Healthy, "";
      lastFailure, quarantineTime, lastProbe, probeInterval, alertSent := 0.0, 0.0, 0.0, 300, false;
    }

    function View(): JobEntry
      reads this
    {
      JobEntry(jobName, failures, state, lastError, lastFailure, quarantineTime, lastProbe, probeInterval, alertSent)
    }

    method RecordOutcome(now: real, outcome: Outcome) returns (alert: bool)
      modifies this
      ensures (View(), alert) == Record(old(View()), now, outcome)
    {
      alert := false;
      match outcome {
        case None =>
          failures := 0;
          state := Healthy;
          lastError := "";
          alertSent := false;
        case Some(msg) =>
          failures := failures + 1;
          lastError := msg;
          lastFailure := now;
          if failures >= FAILURE_THRESHOLD {
            if state != Quarantined {
              state := Quarantined;
              quarantineTime := now;
              lastProbe := now;
              if !alertSent {
                alert := true;
                alertSent := true;
              }
            } else {
              lastProbe := now;
            }
          }
      }
    }
  }

  function Named(jobs: map<string, JobEntry>, jobId: string, jobName: string): JobEntry {
    var was := if jobId in jobs then jobs[jobId] else NewJob(jobName);
    if jobName != "" then was.(jobName := jobName) else was
  }

  class CronCircuitBreakerEngine {
    var breakers: map<string, JobBreakerEntry>

    ghost predicate Valid()
      reads this
    {
      forall id :: id in breakers ==> breakers[id].jobId == id
    }

    ghost function View(): map<string, JobEntry>
      reads this, breakers.Values
    {
      map id | id in breakers :: breakers[id].View()
    }

    constructor ()
      ensures Valid() && View() == map[]
    {
      breakers := map[];
    }

    method ShouldAllowExecution(jobId: string, now: real) returns (allowed: bool)
      requires Valid()
      modifies breakers.Values
      ensures Valid()
      ensures if jobId in old(View())
              then (View(), allowed)
                == (old(View())[jobId := Allow(old(View())[jobId], now).0], Allow(old(View())[jobId], now).1)
              else View() == old(View()) && allowed
    {
      if jobId !in breakers { return true; }
      var entry := breakers[jobId];
      allowed := true;
      if entry.state == Quarantined {
        if now - entry.lastProbe >= entry.probeInterval as real {
          entry.state := Probing;
          entry.lastProbe := now;
        } else {
          allowed := false;
        }
      }
      assert View() == old(View())[jobId := Allow(old(View())[jobId], now).0];
    }

    method Enter(jobId: string, jobName: string)
      requires Valid() && jobId !in breakers
      modifies this
      ensures Valid() && fresh(breakers.Values - old(breakers.Values))
      ensures jobId in breakers && View() == old(View())[jobId := NewJob(jobName)]
    {
      var entry := new JobBreakerEntry(jobId, jobName);
      breakers := breakers[jobId := entry];
    }

    method Rename(jobId: string, jobName: string)
      requires Valid() && jobId in breakers
      modifies breakers.Values
      ensures Valid()
      ensures View() == old(View())[jobId := Named(old(View()), jobId, jobName)]
    {
      var entry := breakers[jobId];
      if jobName != "" { entry.jobName := jobName; }
      assert entry.View() == Named(old(View()), jobId, jobName);
    }

    /** The entry of a job, created if it does not exist, under its latest name. */
    method EntryFor(jobId: string, jobName: string) returns (entry: JobBreakerEntry)
      requires Valid()
      modifies this, breakers.Values
      ensures Valid() && fresh(breakers.Values - old(breakers.Values))
      ensures jobId in breakers && entry == breakers[jobId]
      ensures View() == old(View())[jobId := Named(old(View()), jobId, jobName)]
    {
      if jobId !in breakers { Enter(jobId, jobName); }
      Rename(jobId, jobName);
      entry := breakers[jobId];
    }

    method RecordInto(jobId: string, outcome: Outcome, now: real) returns (alert: bool)
      requires Valid() && jobId in breakers
      modifies breakers.Values
      ensures Valid()
      ensures var r := Record(old(View())[jobId], now, outcome);
              View() == old(View())[jobId := r.0] && alert == r.1
    {
      var entry := breakers[jobId];
      assert forall id :: id in breakers && id != jobId ==> breakers[id] != entry;
      alert := entry.RecordOutcome(now, outcome);
    }

    method RecordResult(jobId: string, outcome: Outcome, jobName: string, now: real) returns (alert: bool)
      requires Valid()
      modifies this, breakers.Values
      ensures Valid() && fresh(breakers.Values - old(breakers.Values))
      ensures var r := Record(Named(old(View()), jobId, jobName), now, outcome);
              View() == old(View())[jobId := r.0] && alert == r.1
    {
      var _ := EntryFor(jobId, jobName);
      alert := RecordInto(jobId, outcome, now);
    }

    method ResetBreaker(jobId: string) returns (found: bool)
      requires Valid()
      modifies breakers.Values
      ensures Valid() && found == (jobId in old(View()))
      ensures View() == if found then old(View())[jobId := ResetJob(old(View())[jobId])] else old(View())
    {
      if jobId !in breakers { return false; }
      var entry := breakers[jobId];
      entry.failures := 0;
      entry.state := Healthy;
      entry.alertSent := false;
      assert View() == old(View())[jobId := ResetJob(old(View())[jobId])];
      return true;
    }
  }
}
