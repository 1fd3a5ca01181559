// The Cloud Batch job drivers: image URI, job creation and the bounded
// status polling (batch/cpp_application/main.cc and
// batch/cpp_application/driver.cc, which differ only in whether CANCELLED
// ends the polling).
module BatchJob {
  import opened Wrappers

  /** The two copies of the program. */
  datatype Variant = MainProgram | DriverProgram

  /** google::cloud::StatusCode values the programs test. */
  const StatusOk := 0
  const ResourceExhausted := 8

  /** JobStatus::State values the programs test. */
  const Succeeded := 4
  const Failed := 5
  const Cancelled := 8

  /** Polling constants, in milliseconds. */
  const MinPollingInterval := 120000
  const MaxPollingInterval := 240000
  const MaxPollingTime := 600000

  /** The job file: it cannot be opened, its JSON does not parse, it parses
      into a job without a first task group or without a first runnable in
      it, or it parses into a job with both. */
  datatype JobFile = Unopenable | Malformed | ParsedWithoutRunnable | Parsed

  /** How main ends. */
  datatype Outcome =
    | Usage
    | NoJobFile
    | BadJobJson
    | Aborted
    | JobExists
    | CreateFailed(code: int)
    | GetJobFailed(code: int)
    | JobSucceeded
    | JobFailed
    | JobCancelled
    | PollingTimedOut

  /** The process exit status: 1 for usage errors and thrown statuses, 0 for
      the other returns, and none when the protobuf `at(0)` fails its bounds
      check and the process aborts. */
  function ExitCode(o: Outcome): (code: Option<int>)
    ensures code.None? <==> o.Aborted?
    ensures code == Some(1) <==> o.Usage? || o.BadJobJson? || o.CreateFailed? || o.GetJobFailed?
    ensures code.Some? ==> code.value == 0 || code.value == 1
  {
    match o
    case Aborted => None
    case Usage => Some(1)
    case BadJobJson => Some(1)
    case CreateFailed(_) => Some(1)
    case GetJobFailed(_) => Some(1)
    case _ => Some(0)
  }

  /** The container image the job runs. */
  function ImageUri(locationId: string, projectId: string, repository: string): string
  {
    locationId + "-docker.pkg.dev/" + projectId + "/" + repository + "/application-image:latest"
  }

  /** Two repositories in the same project and region name different images. */
  lemma ImageUriDistinguishesRepositories(locationId: string, projectId: string, r1: string, r2: string)
    requires ImageUri(locationId, projectId, r1) == ImageUri(locationId, projectId, r2)
    ensures r1 == r2
  {
    var prefix := locationId + "-docker.pkg.dev/" + projectId + "/";
    var suffix := "/application-image:latest";
    var u1 := ImageUri(locationId, projectId, r1);
    assert u1 == prefix + r1 + suffix;
    assert ImageUri(locationId, projectId, r2) == prefix + r2 + suffix;
    assert |r1| == |r2|;
    assert r1 == u1[|prefix|..|prefix| + |r1|];
  }

  /** Whether a job state ends the polling. */
  predicate IsFinal(variant: Variant, state: int)
  {
    state == Succeeded || state == Failed || (variant == MainProgram && state == Cancelled)
  }

  /** The sleep after poll k: 2 min, then doubled and capped at 4 min. */
  function Delay(k: nat): nat
  {
    if k == 0 then MinPollingInterval
    else if 2 * Delay(k - 1) < MaxPollingInterval then 2 * Delay(k - 1)
    else MaxPollingInterval
  }

  /** The delays are 2 min once, then 4 min for good. */
  lemma {:induction false} DelaySchedule(k: nat)
    ensures Delay(k) == if k == 0 then MinPollingInterval else MaxPollingInterval
  {
    if k > 0 {
      DelaySchedule(k - 1);
    }
  }

  /** The clock reading before poll k, relative to the start; `overhead(k)`
      is the time beyond the requested sleep that passes after poll k. */
  function PollTime(overhead: nat -> nat, k: nat): nat
  {
    if k == 0 then 0 else PollTime(overhead, k - 1) + Delay(k - 1) + overhead(k - 1)
  }

  lemma {:induction false} PollTimeAtLeast(overhead: nat -> nat, k: nat)
    requires k >= 1
    ensures PollTime(overhead, k) >= MaxPollingInterval * k - MinPollingInterval
  {
    DelaySchedule(k - 1);
    if k > 1 {
      PollTimeAtLeast(overhead, k - 1);
    }
  }

  /** No more than four polls fit in the ten-minute window. */
  lemma WindowHoldsFourPolls(overhead: nat -> nat, k: nat)
    requires PollTime(overhead, k) <= MaxPollingTime
    ensures k <= 3
  {
    if k >= 4 {
      PollTimeAtLeast(overhead, k);
    }
  }

  /** With no overhead the polls are at 0, 2, 6 and 10 minutes, all inside the window. */
  lemma FourPollsWithoutOverhead(overhead: nat -> nat)
    requires forall k :: overhead(k) == 0
    ensures PollTime(overhead, 3) == MaxPollingTime
  {
    DelaySchedule(1);
    DelaySchedule(2);
    assert PollTime(overhead, 1) == MinPollingInterval;
    assert PollTime(overhead, 2) == MinPollingInterval + MaxPollingInterval;
  }

  /** The first k polls answered with a state that does not end the polling. */
  predicate RunningThrough(variant: Variant, getJob: nat -> Result<int, int>, k: nat)
  {
    forall j :: 0 <= j < k ==> getJob(j).Ok? && !IsFinal(variant, getJob(j).value)
  }

  predicate DelayedAsScheduled(delays: seq<nat>)
  {
    forall j :: 0 <= j < |delays| ==> delays[j] == Delay(j)
  }

  lemma DelayedSnoc(delays: seq<nat>, d: nat)
    requires DelayedAsScheduled(delays) && d == Delay(|delays|)
    ensures DelayedAsScheduled(delays + [d])
  {
  }

  lemma RunningSnoc(variant: Variant, getJob: nat -> Result<int, int>, k: nat)
    requires RunningThrough(variant, getJob, k)
    requires getJob(k).Ok? && !IsFinal(variant, getJob(k).value)
    ensures RunningThrough(variant, getJob, k + 1)
  {
  }

  /** The outcome a final state reports. */
  function FinalOutcome(state: int): Outcome
  {
    if state == Succeeded then JobSucceeded
    else if state == Failed then JobFailed
    else JobCancelled
  }

  /** How polling ended after `polls` GetJob calls: with the window closed
      and the job still running, or with the last reply, an error or a final
      state, deciding the outcome. */
  predicate PollingEnded(variant: Variant, getJob: nat -> Result<int, int>, overhead: nat -> nat,
                         outcome: Outcome, polls: nat)
  {
    1 <= polls
    && (outcome == PollingTimedOut ==>
          RunningThrough(variant, getJob, polls) && PollTime(overhead, polls - 1) <= MaxPollingTime < PollTime(overhead, polls))
    && (outcome != PollingTimedOut ==>
          RunningThrough(variant, getJob, polls - 1) && PollTime(overhead, polls - 1) <= MaxPollingTime
          && (getJob(polls - 1).Err? ==> outcome == GetJobFailed(getJob(polls - 1).error))
          && (getJob(polls - 1).Ok? ==>
                IsFinal(variant, getJob(polls - 1).value) && outcome == FinalOutcome(getJob(polls - 1).value)))
  }

  /** The polling loop. `getJob(k)` is the reply to poll k: a state or an
      error code; `delays` are the sleeps; `polls` counts the GetJob calls. */
  method PollJob(variant: Variant, getJob: nat -> Result<int, int>, overhead: nat -> nat)
    returns (outcome: Outcome, polls: nat, delays: seq<nat>)
    ensures 1 <= polls <= 4 && DelayedAsScheduled(delays)
    ensures outcome == PollingTimedOut ==>
      |delays| == polls && RunningThrough(variant, getJob, polls)
      && PollTime(overhead, polls - 1) <= MaxPollingTime < PollTime(overhead, polls)
    ensures outcome != PollingTimedOut ==>
      |delays| == polls - 1 && RunningThrough(variant, getJob, polls - 1)
      && PollTime(overhead, polls - 1) <= MaxPollingTime
      && (getJob(polls - 1).Err? ==> outcome == GetJobFailed(getJob(polls - 1).error))
      && (getJob(polls - 1).Ok? ==>
            IsFinal(variant, getJob(polls - 1).value) && outcome == FinalOutcome(getJob(polls - 1).value))
  {
    var delay := MinPollingInterval;
    var currentTime := 0;
    var k := 0;
    delays := [];
    while currentTime <= MaxPollingTime
      invariant currentTime == PollTime(overhead, k) && delay == Delay(k)
      invariant |delays| == k && DelayedAsScheduled(delays)
      invariant RunningThrough(variant, getJob, k)
      invariant k >= 1 ==> PollTime(overhead, k - 1) <= MaxPollingTime
      decreases MaxPollingTime - currentTime
    {
      WindowHoldsFourPolls(overhead, k);
      var reply := getJob(k);
      if reply.Err? {
        return GetJobFailed(reply.error), k + 1, delays;
      }
      var state := reply.value;
      if state == Succeeded {
        return JobSucceeded, k + 1, delays;
      } else if state == Failed {
        return JobFailed, k + 1, delays;
      } else if variant == MainProgram && state == Cancelled {
        return JobCancelled, k + 1, delays;
      }
      RunningSnoc(variant, getJob, k);
      DelayedSnoc(delays, delay);
      delays := delays + [delay];
      DelaySchedule(k);
      currentTime := currentTime + delay + overhead(k);
      delay := if 2 * delay < MaxPollingInterval then 2 * delay else MaxPollingInterval;
      k := k + 1;
    }
    assert k != 0;
    WindowHoldsFourPolls(overhead, k - 1);
    outcome, polls := PollingTimedOut, k;
  }

  /** main. `args` is argv; `create` is the status code of CreateJob. */
  method Run(variant: Variant, args: seq<string>, jobFile: JobFile, create: int,
             getJob: nat -> Result<int, int>, overhead: nat -> nat)
    returns (outcome: Outcome, imageUri: Option<string>, polls: nat)
    ensures |args| != 6 ==> outcome == Usage && imageUri.None? && polls == 0
    ensures |args| == 6 && jobFile == Unopenable ==> outcome == NoJobFile && polls == 0
    ensures |args| == 6 && jobFile == Malformed ==> outcome == BadJobJson && polls == 0
    ensures |args| == 6 && jobFile == ParsedWithoutRunnable ==> outcome == Aborted && polls == 0
    ensures imageUri.Some? <==> |args| == 6 && jobFile == Parsed
    ensures imageUri.Some? ==> imageUri.value == ImageUri(args[2], args[1], args[5])
    ensures imageUri.Some? && create == ResourceExhausted ==> outcome == JobExists && polls == 0
    ensures imageUri.Some? && create != StatusOk && create != ResourceExhausted ==>
      outcome == CreateFailed(create) && polls == 0
    ensures polls <= 4
    ensures imageUri.Some? && create == StatusOk ==> PollingEnded(variant, getJob, overhead, outcome, polls)
    ensures outcome == JobCancelled ==> variant == MainProgram
  {
    polls := 0;
    imageUri := None;
    if |args| != 6 {
      return Usage, imageUri, polls;
    }
    var projectId, locationId, repository := args[1], args[2], args[5];
    if jobFile == Unopenable {
      return NoJobFile, imageUri, polls;
    }
    if jobFile == Malformed {
      return BadJobJson, imageUri, polls;
    }
    if jobFile == ParsedWithoutRunnable {
      return Aborted, imageUri, polls;
    }
    imageUri := Some(ImageUri(locationId, projectId, repository));
    if create != StatusOk {
      if create == ResourceExhausted {
        return JobExists, imageUri, polls;
      }
      return CreateFailed(create), imageUri, polls;
    }
    var delays;
    outcome, polls, delays := PollJob(variant, getJob, overhead);
    assert PollingEnded(variant, getJob, overhead, outcome, polls);
    if outcome == JobCancelled {
      assert getJob(polls - 1).Ok? && IsFinal(variant, getJob(polls - 1).value);
    }
  }

  /** The driver keeps polling a cancelled job until the window closes: if
      every reply is CANCELLED, the driver times out while main reports it. */
  lemma CancelledOnlyEndsMain(getJob: nat -> Result<int, int>)
    requires forall k :: getJob(k) == Ok(Cancelled)
    ensures IsFinal(MainProgram, getJob(0).value)
    ensures forall k :: !IsFinal(DriverProgram, getJob(k).value)
  {
  }
}
