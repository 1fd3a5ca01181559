// The Bigtable CreateInstance sample: the request it builds, the bounded
// polling of the long-running operation and the classification of its end
// (bigtable/api/create_instance.cc).
module CreateInstance {
  import opened Wrappers

  /** A gRPC or operation status: a code and a message. */
  datatype Status = Status(code: int, message: string)

  /** What a finished operation carries: an error, a packed response that does
      or does not unpack to an Instance, or neither. */
  datatype OperationResult = NoResult | OperationError(error: Status) | Response(unpacksToInstance: bool)

  /** google.longrunning.Operation. */
  datatype Operation = Operation(name: string, done: bool, result: OperationResult)

  datatype InstanceType = DEVELOPMENT

  datatype Instance = Instance(displayName: string, instanceType: InstanceType)

  datatype Cluster = Cluster(location: string)

  /** admin::CreateInstanceRequest. */
  datatype CreateInstanceRequest = CreateInstanceRequest(
    parent: string, instanceId: string, instance: Instance, clusters: map<string, Cluster>)

  /** The request for `create_instance <project_id> <instance_id> <cluster_id> <zone>`;
      None when the argument count is not five (the usage message, exit 1). */
  function MakeRequest(args: seq<string>): (r: Option<CreateInstanceRequest>)
    ensures r.Some? <==> |args| == 5
    ensures r.Some? ==>
      r.value.parent == "projects/" + args[1]
      && r.value.instanceId == args[2]
      && r.value.instance == Instance(args[2], DEVELOPMENT)
      && r.value.clusters.Keys == {args[3]}
      && r.value.clusters[args[3]].location == "projects/" + args[1] + "/locations/" + args[4]
  {
    if |args| != 5 then None
    else
      var projectId, instanceId, clusterId, zone := args[1], args[2], args[3], args[4];
      Some(CreateInstanceRequest(
        "projects/" + projectId,
        instanceId,
        Instance(instanceId, DEVELOPMENT),
        map[clusterId := Cluster("projects/" + projectId + "/locations/" + zone)]))
  }

  /** Polling limits, in milliseconds. */
  const InitialWaitMillis := 100
  const MaximumWaitMillis := 180000
  const MaximumIterations := 100

  /** The sleep before poll k (counting from 0): doubled after every poll, capped at 3 min. */
  function Wait(k: nat): nat
  {
    if k == 0 then InitialWaitMillis
    else if 2 * Wait(k - 1) > MaximumWaitMillis then MaximumWaitMillis
    else 2 * Wait(k - 1)
  }

  function Pow2(k: nat): nat
  {
    if k == 0 then 1 else 2 * Pow2(k - 1)
  }

  /** The wait doubles from 100 ms until it reaches the 3 min cap at poll 11. */
  lemma {:induction false} WaitSchedule(k: nat)
    ensures k <= 10 ==> Wait(k) == InitialWaitMillis * Pow2(k)
    ensures k >= 11 ==> Wait(k) == MaximumWaitMillis
    ensures InitialWaitMillis <= Wait(k) <= MaximumWaitMillis
  {
    if k > 0 {
      WaitSchedule(k - 1);
      if k <= 10 {
        assert Pow2(k - 1) <= 512 by { Pow2Bound(k - 1); }
      }
      if k == 11 {
        assert Pow2(10) == 1024;
      }
    }
  }

  lemma {:induction false} Pow2Bound(k: nat)
    requires k <= 9
    ensures Pow2(k) <= 512
  {
    Pow2Monotone(k, 9);
    assert Pow2(9) == 512;
  }

  lemma {:induction false} Pow2Monotone(j: nat, k: nat)
    requires j <= k
    ensures Pow2(j) <= Pow2(k)
    decreases k
  {
    if j < k {
      Pow2Monotone(j, k - 1);
    }
  }

  /** The first k polls all failed or returned an operation still running. */
  predicate PendingThrough(poll: nat -> Result<Operation, Status>, k: nat)
  {
    forall j :: 0 <= j < k ==> !(poll(j).Ok? && poll(j).value.done)
  }

  predicate WaitedAsScheduled(waits: seq<nat>)
  {
    forall j :: 0 <= j < |waits| ==> waits[j] == Wait(j)
  }

  lemma WaitedSnoc(waits: seq<nat>, w: nat)
    requires WaitedAsScheduled(waits) && w == Wait(|waits|)
    ensures WaitedAsScheduled(waits + [w])
  {
  }

  /** The polling loop. `poll(k)` is the k-th GetOperation reply; `waits`
      are the sleeps, one before each poll. */
  method PollOperation(initial: Operation, poll: nat -> Result<Operation, Status>)
    returns (operation: Operation, waits: seq<nat>)
    ensures WaitedAsScheduled(waits)
    ensures |waits| <= MaximumIterations
    ensures initial.done ==> waits == [] && operation == initial
    ensures !initial.done ==> |waits| >= 1 && PendingThrough(poll, |waits| - 1)
    ensures !initial.done && operation.done ==>
      |waits| >= 1 && poll(|waits| - 1).Ok? && operation == poll(|waits| - 1).value
    ensures !operation.done ==>
      operation == initial && |waits| == MaximumIterations && PendingThrough(poll, MaximumIterations)
  {
    operation := initial;
    waits := [];
    var wait := InitialWaitMillis;
    var done := operation.done;
    var i := 0;
    while i != MaximumIterations && !done
      invariant 0 <= i <= MaximumIterations && |waits| == i
      invariant done == operation.done
      invariant !done ==> operation == initial && PendingThrough(poll, i)
      invariant done ==> initial.done && i == 0 && operation == initial
      invariant wait == Wait(i) && WaitedAsScheduled(waits)
      decreases MaximumIterations - i
    {
      WaitedSnoc(waits, wait);
      waits := waits + [wait];
      var status := poll(i);
      if status.Err? {
        // logged; the loop tries again
      } else if status.value.done {
        done := true;
        operation := status.value;
        return;
      }
      wait := wait * 2;
      if wait > MaximumWaitMillis {
        wait := MaximumWaitMillis;
      }
      i := i + 1;
    }
  }

  /** How main ends. */
  datatype Outcome = Usage | CreateFailed(status: Status) | Timeout | Failed(error: Status)
    | MissingResponse | UnexpectedResponse | Created

  /** The exit status main returns for each outcome. */
  function ExitCode(o: Outcome): (code: int)
    ensures code == 0 <==> o == Created
    ensures code == 0 || code == 1
  {
    if o == Created then 0 else 1
  }

  /** The classification after polling, in the order the sample checks. */
  function Classify(operation: Operation): (o: Outcome)
    ensures o == Created <==> operation.done && operation.result == Response(true)
    ensures o == Timeout <==> !operation.done
    ensures operation.done && operation.result.OperationError? ==> o == Failed(operation.result.error)
  {
    if !operation.done then Timeout
    else match operation.result
      case OperationError(error) => Failed(error)
      case NoResult => MissingResponse
      case Response(unpacks) => if unpacks then Created else UnexpectedResponse
  }

  /** main: build the request, create, poll, classify. `create` is the reply
      to CreateInstance. */
  method Run(args: seq<string>, create: Result<Operation, Status>, poll: nat -> Result<Operation, Status>)
    returns (outcome: Outcome, request: Option<CreateInstanceRequest>, waits: seq<nat>)
    ensures request == MakeRequest(args)
    ensures request.None? ==> outcome == Usage && waits == []
    ensures request.Some? && create.Err? ==> outcome == CreateFailed(create.error) && waits == []
    ensures |waits| <= MaximumIterations && WaitedAsScheduled(waits)
    ensures outcome == Created ==>
      (request.Some? && create.Ok?
       && (create.value.done || (exists k :: 0 <= k < MaximumIterations && poll(k).Ok? && poll(k).value.done
                                                    && poll(k).value.result == Response(true))))
    ensures request.Some? && create.Ok? && create.value.done ==> outcome == Classify(create.value) && waits == []
    ensures request.Some? && create.Ok? && PendingThrough(poll, MaximumIterations) && !create.value.done ==>
      outcome == Timeout && |waits| == MaximumIterations
    ensures request.Some? && create.Ok? && !create.value.done ==>
      |waits| >= 1 && PendingThrough(poll, |waits| - 1)
      && (poll(|waits| - 1).Ok? && poll(|waits| - 1).value.done ==> outcome == Classify(poll(|waits| - 1).value))
      && (!(poll(|waits| - 1).Ok? && poll(|waits| - 1).value.done) ==>
            outcome == Timeout && |waits| == MaximumIterations)
  {
    request := MakeRequest(args);
    waits := [];
    if request.None? {
      return Usage, request, waits;
    }
    if create.Err? {
      return CreateFailed(create.error), request, waits;
    }
    var operation;
    operation, waits := PollOperation(create.value, poll);
    outcome := Classify(operation);
    if outcome == Created && !create.value.done {
      assert poll(|waits| - 1).Ok? && poll(|waits| - 1).value.done;
    }
  }
}
