// The command-line option scanner, the JWT time claims, the algorithm lookup
// and the connect-retry loop of the Cloud IoT Core MQTT client
// (iot/mqtt-ciotc/mqtt_ciotc.c).
module Mqtt {
  import opened Wrappers
  import opened Text

  /** The global `opts` structure. */
  datatype Options = Options(
    address: string,
    clientId: string,
    deviceId: string,
    keyPath: string,
    projectId: string,
    region: string,
    registryId: string,
    rootPath: string,
    topic: string,
    payload: string,
    algorithm: string)

  /** The static initial value of `opts`. */
  const Defaults := Options(
    "ssl://mqtt.googleapis.com:8883",
    "projects/{your-project-id}/locations/{your-region-id}/registries/{your-registry-id}/devices/{your-device-id}",
    "{your-device-id}",
    "ec_private.pem",
    "{your-project-id}",
    "{your-region-id}",
    "{your-registry-id}",
    "roots.pem",
    "/devices/{your-device-id}/events",
    "Hello world!",
    "ES256")

  /** kClientidMaxlen and kTopicMaxlen: the longest names the buffers hold. */
  const ClientIdMaxLen := 256
  const TopicMaxLen := 256

  /** The four flags that make GetOpts compute a client id and a topic. */
  predicate IsIdentityFlag(a: string)
  {
    a == "--deviceid" || a == "--region" || a == "--registryid" || a == "--projectid"
  }

  /** Every flag GetOpts recognises; each one takes the next argument as its value. */
  predicate IsFlag(a: string)
  {
    IsIdentityFlag(a) || a == "--keypath" || a == "--rootpath" || a == "--algorithm"
  }

  /** The field of `opts` a flag writes. */
  function Field(o: Options, flag: string): string
    requires IsFlag(flag)
  {
    match flag
    case "--deviceid" => o.deviceId
    case "--region" => o.region
    case "--registryid" => o.registryId
    case "--projectid" => o.projectId
    case "--keypath" => o.keyPath
    case "--rootpath" => o.rootPath
    case _ => o.algorithm
  }

  /** Stores the value of one flag, overwriting an earlier one. */
  function SetFlag(o: Options, flag: string, value: string): (r: Options)
    requires IsFlag(flag)
    ensures Field(r, flag) == value
    ensures forall g :: IsFlag(g) && g != flag ==> Field(r, g) == Field(o, g)
    ensures r.payload == o.payload && r.address == o.address
  {
    match flag
    case "--deviceid" => o.(deviceId := value)
    case "--region" => o.(region := value)
    case "--registryid" => o.(registryId := value)
    case "--projectid" => o.(projectId := value)
    case "--keypath" => o.(keyPath := value)
    case "--rootpath" => o.(rootPath := value)
    case _ => o.(algorithm := value)
  }

  /** The outcome of the scan over argv: None when a flag has no value,
      otherwise the options and whether an identity flag was seen. */
  function Scan(args: seq<string>, pos: nat, o: Options, seen: bool): Option<(Options, bool)>
    decreases |args| - pos
  {
    if pos >= |args| then Some((o, seen))
    else if IsFlag(args[pos]) then
      if pos + 1 < |args| then
        Scan(args, pos + 2, SetFlag(o, args[pos], args[pos + 1]), seen || IsIdentityFlag(args[pos]))
      else None
    else Scan(args, pos + 1, o, seen)
  }

  /** The client id GetOpts formats from the options. */
  function ClientId(o: Options): string
  {
    "projects/" + o.projectId + "/locations/" + o.region + "/registries/" + o.registryId
      + "/devices/" + o.deviceId
  }

  /** The telemetry topic GetOpts formats from the device id. */
  function Topic(o: Options): string
  {
    "/devices/" + o.deviceId + "/events"
  }

  /** GetOpts: the options it leaves in `opts` when it returns true, None
      when it returns false. */
  function ParseOpts(args: seq<string>): Option<Options>
  {
    if |args| < 2 then None
    else match Scan(args, 1, Defaults.(payload := args[1]), false)
      case None => None
      case Some((o, seen)) =>
        if !seen then None
        else if |ClientId(o)| > ClientIdMaxLen then None
        else if |Topic(o)| > TopicMaxLen then None
        else Some(o.(clientId := ClientId(o), topic := Topic(o)))
  }

  /** GetOpts, scanning argv in place. */
  method GetOpts(args: seq<string>) returns (r: Option<Options>)
    ensures r == ParseOpts(args)
  {
    if |args| < 2 {
      return None;
    }
    var o := Defaults.(payload := args[1]);
    var pos := 1;
    var seen := false;
    while pos < |args|
      invariant 1 <= pos <= |args|
      invariant Scan(args, pos, o, seen) == Scan(args, 1, Defaults.(payload := args[1]), false)
      decreases |args| - pos
    {
      if IsFlag(args[pos]) {
        pos := pos + 1;
        if pos < |args| {
          o := SetFlag(o, args[pos - 1], args[pos]);
          seen := seen || IsIdentityFlag(args[pos - 1]);
        } else {
          return None;
        }
      }
      pos := pos + 1;
    }
    if seen {
      var clientId := ClientId(o);
      if |clientId| > ClientIdMaxLen {
        return None;
      }
      var topic := Topic(o);
      if |topic| > TopicMaxLen {
        return None;
      }
      return Some(o.(clientId := clientId, topic := topic));
    }
    return None;
  }

  /** The scan never changes the payload or the broker address. */
  lemma {:induction false} ScanKeeps(args: seq<string>, pos: nat, o: Options, seen: bool)
    requires Scan(args, pos, o, seen).Some?
    ensures Scan(args, pos, o, seen).value.0.payload == o.payload
    ensures Scan(args, pos, o, seen).value.0.address == o.address
    decreases |args| - pos
  {
    if pos < |args| {
      if IsFlag(args[pos]) {
        ScanKeeps(args, pos + 2, SetFlag(o, args[pos], args[pos + 1]), seen || IsIdentityFlag(args[pos]));
      } else {
        ScanKeeps(args, pos + 1, o, seen);
      }
    }
  }

  /** A successful GetOpts keeps argv[1] as the payload and stores a client id
      and a topic built from the scanned fields, each within its buffer. */
  lemma ParsedOptions(args: seq<string>)
    requires ParseOpts(args).Some?
    ensures var o := ParseOpts(args).value;
      |args| >= 2 && o.payload == args[1] && o.address == Defaults.address
      && o.clientId == "projects/" + o.projectId + "/locations/" + o.region + "/registries/"
        + o.registryId + "/devices/" + o.deviceId
      && |o.clientId| <= ClientIdMaxLen
      && o.topic == "/devices/" + o.deviceId + "/events"
      && |o.topic| <= TopicMaxLen
  {
    ScanKeeps(args, 1, Defaults.(payload := args[1]), false);
  }

  /** Whether some position the scan reaches holds an identity flag that has a value. */
  lemma {:induction false} ScanNeedsIdentity(args: seq<string>, pos: nat, o: Options, seen: bool)
    requires !seen
    requires forall i :: pos <= i < |args| ==> !IsIdentityFlag(args[i])
    requires Scan(args, pos, o, seen).Some?
    ensures !Scan(args, pos, o, seen).value.1
    decreases |args| - pos
  {
    if pos < |args| {
      if IsFlag(args[pos]) {
        ScanNeedsIdentity(args, pos + 2, SetFlag(o, args[pos], args[pos + 1]), false);
      } else {
        ScanNeedsIdentity(args, pos + 1, o, false);
      }
    }
  }

  /** Without --deviceid, --region, --registryid or --projectid anywhere in argv
      GetOpts returns false, whatever paths or algorithm are given. */
  lemma NoIdentityFlagFails(args: seq<string>)
    requires forall i :: 1 <= i < |args| ==> !IsIdentityFlag(args[i])
    ensures ParseOpts(args) == None
  {
    if |args| >= 2 && Scan(args, 1, Defaults.(payload := args[1]), false).Some? {
      ScanNeedsIdentity(args, 1, Defaults.(payload := args[1]), false);
    }
  }

  /** argv laid out as flag/value pairs. */
  function Flatten(pairs: seq<(string, string)>): seq<string>
    ensures |Flatten(pairs)| == 2 * |pairs|
  {
    if pairs == [] then [] else [pairs[0].0, pairs[0].1] + Flatten(pairs[1..])
  }

  /** The options after storing every pair in order. */
  function Apply(o: Options, pairs: seq<(string, string)>): Options
    requires forall k :: 0 <= k < |pairs| ==> IsFlag(pairs[k].0)
  {
    if pairs == [] then o
    else SetFlag(Apply(o, pairs[..|pairs| - 1]), pairs[|pairs| - 1].0, pairs[|pairs| - 1].1)
  }

  predicate AllFlags(pairs: seq<(string, string)>)
  {
    forall k :: 0 <= k < |pairs| ==> IsFlag(pairs[k].0)
  }

  predicate NamesIdentity(pairs: seq<(string, string)>)
  {
    exists k :: 0 <= k < |pairs| && IsIdentityFlag(pairs[k].0)
  }

  lemma {:induction false} ApplyFirst(o: Options, pairs: seq<(string, string)>)
    requires |pairs| >= 1 && AllFlags(pairs)
    ensures Apply(o, pairs) == Apply(SetFlag(o, pairs[0].0, pairs[0].1), pairs[1..])
    decreases |pairs|
  {
    if |pairs| > 1 {
      var n := |pairs|;
      assert pairs[..n - 1][1..] == pairs[1..][..n - 2];
      ApplyFirst(o, pairs[..n - 1]);
    }
  }

  lemma NamesIdentityFirst(pairs: seq<(string, string)>)
    requires |pairs| >= 1
    ensures NamesIdentity(pairs) <==> IsIdentityFlag(pairs[0].0) || NamesIdentity(pairs[1..])
  {
    var rest := pairs[1..];
    if NamesIdentity(rest) {
      var k :| 0 <= k < |rest| && IsIdentityFlag(rest[k].0);
      assert pairs[k + 1] == rest[k];
    }
    if NamesIdentity(pairs) {
      var k :| 0 <= k < |pairs| && IsIdentityFlag(pairs[k].0);
      if k > 0 {
        assert rest[k - 1] == pairs[k];
      }
    }
  }

  /** argv holds the pairs, flag then value, from position `pos` on. */
  predicate PairsAt(args: seq<string>, pos: nat, pairs: seq<(string, string)>)
  {
    pos + 2 * |pairs| <= |args|
    && forall k :: 0 <= k < |pairs| ==> args[pos + 2 * k] == pairs[k].0 && args[pos + 2 * k + 1] == pairs[k].1
  }

  lemma PairsAtRest(args: seq<string>, pos: nat, pairs: seq<(string, string)>)
    requires |pairs| >= 1 && PairsAt(args, pos, pairs)
    ensures args[pos] == pairs[0].0 && args[pos + 1] == pairs[0].1
    ensures PairsAt(args, pos + 2, pairs[1..])
  {
    forall k | 0 <= k < |pairs| - 1
      ensures args[pos + 2 + 2 * k] == pairs[1..][k].0 && args[pos + 2 + 2 * k + 1] == pairs[1..][k].1
    {
      assert pos + 2 + 2 * k == pos + 2 * (k + 1);
    }
  }

  lemma {:induction false} FlattenAt(pairs: seq<(string, string)>, k: nat)
    requires k < |pairs|
    ensures Flatten(pairs)[2 * k] == pairs[k].0 && Flatten(pairs)[2 * k + 1] == pairs[k].1
    decreases k
  {
    if k > 0 {
      FlattenAt(pairs[1..], k - 1);
    }
  }

  /** The pairs laid out after `prefix` sit at position |prefix|. */
  lemma PairsAtFlatten(prefix: seq<string>, pairs: seq<(string, string)>, suffix: seq<string>)
    ensures PairsAt(prefix + Flatten(pairs) + suffix, |prefix|, pairs)
  {
    var args := prefix + Flatten(pairs) + suffix;
    forall k | 0 <= k < |pairs|
      ensures args[|prefix| + 2 * k] == pairs[k].0 && args[|prefix| + 2 * k + 1] == pairs[k].1
    {
      FlattenAt(pairs, k);
    }
  }

  /** Scanning a run of flag/value pairs stores each pair in turn and
      continues right after the run. */
  lemma {:induction false} ScanPairs(args: seq<string>, pos: nat, o: Options, seen: bool,
                                     pairs: seq<(string, string)>)
    requires AllFlags(pairs) && PairsAt(args, pos, pairs)
    ensures Scan(args, pos, o, seen)
      == Scan(args, pos + 2 * |pairs|, Apply(o, pairs), seen || NamesIdentity(pairs))
    decreases |pairs|
  {
    if pairs != [] {
      PairsAtRest(args, pos, pairs);
      var o' := SetFlag(o, pairs[0].0, pairs[0].1);
      ScanPairs(args, pos + 2, o', seen || IsIdentityFlag(pairs[0].0), pairs[1..]);
      ApplyFirst(o, pairs);
      NamesIdentityFirst(pairs);
    }
  }

  /** GetOpts on `prog message flag value ... flag value`: it succeeds exactly
      when an identity flag is among the pairs and both names fit, and then
      holds the pairs' values stored in order. */
  lemma PairsParse(prog: string, message: string, pairs: seq<(string, string)>)
    requires !IsFlag(message) && AllFlags(pairs)
    ensures var e := Apply(Defaults.(payload := message), pairs);
      var r := ParseOpts([prog, message] + Flatten(pairs));
      (r.Some? <==> NamesIdentity(pairs) && |ClientId(e)| <= ClientIdMaxLen && |Topic(e)| <= TopicMaxLen)
      && (r.Some? ==> r.value == e.(clientId := ClientId(e), topic := Topic(e)))
  {
    var args := [prog, message] + Flatten(pairs);
    var o := Defaults.(payload := message);
    PairsAtFlatten([prog, message], pairs, []);
    assert [prog, message] + Flatten(pairs) + [] == args;
    ScanPairs(args, 2, o, false, pairs);
  }

  /** A flag left without a value makes GetOpts return false. */
  lemma FlagWithoutValueFails(prog: string, message: string, pairs: seq<(string, string)>, flag: string)
    requires !IsFlag(message) && AllFlags(pairs) && IsFlag(flag)
    ensures ParseOpts([prog, message] + Flatten(pairs) + [flag]) == None
  {
    var args := [prog, message] + Flatten(pairs) + [flag];
    var o := Defaults.(payload := message);
    PairsAtFlatten([prog, message], pairs, [flag]);
    ScanPairs(args, 2, o, false, pairs);
  }

  /** An argument that is not a flag is skipped. */
  lemma UnknownArgumentSkipped(prog: string, message: string, pairs: seq<(string, string)>, other: string)
    requires !IsFlag(message) && AllFlags(pairs) && !IsFlag(other)
    ensures ParseOpts([prog, message] + Flatten(pairs) + [other])
      == ParseOpts([prog, message] + Flatten(pairs))
  {
    var args := [prog, message] + Flatten(pairs);
    var o := Defaults.(payload := message);
    PairsAtFlatten([prog, message], pairs, []);
    assert [prog, message] + Flatten(pairs) + [] == args;
    ScanPairs(args, 2, o, false, pairs);
    PairsAtFlatten([prog, message], pairs, [other]);
    ScanPairs(args + [other], 2, o, false, pairs);
  }

  /** The last value given for a flag is the one kept. */
  lemma {:induction false} LastValueWins(o: Options, pairs: seq<(string, string)>, k: nat)
    requires AllFlags(pairs) && k < |pairs|
    requires forall j :: k < j < |pairs| ==> pairs[j].0 != pairs[k].0
    ensures Field(Apply(o, pairs), pairs[k].0) == pairs[k].1
    decreases |pairs|
  {
    var n := |pairs|;
    if k < n - 1 {
      LastValueWins(o, pairs[..n - 1], k);
    }
  }

  /** A flag that is never given keeps its default. */
  lemma {:induction false} AbsentFlagKeepsDefault(o: Options, pairs: seq<(string, string)>, flag: string)
    requires AllFlags(pairs) && IsFlag(flag)
    requires forall j :: 0 <= j < |pairs| ==> pairs[j].0 != flag
    ensures Field(Apply(o, pairs), flag) == Field(o, flag)
    decreases |pairs|
  {
    if pairs != [] {
      AbsentFlagKeepsDefault(o, pairs[..|pairs| - 1], flag);
    }
  }

  /** The JWT signing algorithms the client names. */
  datatype JwtAlgorithm = RS256 | ES256

  function AlgorithmName(a: JwtAlgorithm): string
  {
    match a
    case RS256 => "RS256"
    case ES256 => "ES256"
  }

  /** GetAlgorithmFromString: None stands for the -1 returned for any other name. */
  function GetAlgorithmFromString(s: string): (r: Option<JwtAlgorithm>)
    ensures r.Some? <==> s == "RS256" || s == "ES256"
    ensures r.Some? ==> AlgorithmName(r.value) == s
  {
    if s == "RS256" then Some(RS256)
    else if s == "ES256" then Some(ES256)
    else None
  }

  /** Every algorithm is found again from its name, and the default is ES256. */
  lemma AlgorithmRoundTrip(a: JwtAlgorithm)
    ensures GetAlgorithmFromString(AlgorithmName(a)) == Some(a)
    ensures GetAlgorithmFromString(Defaults.algorithm) == Some(ES256)
  {
  }

  /** A JWT lifetime of one hour. */
  const TokenLifetimeSeconds := 3600

  /** GetIatExp: the `iat` and `exp` claims, as decimal Unix timestamps, for
      the current time `now` in seconds. */
  function IatExp(now: nat): (string, string)
  {
    (IntToDecimal(now), IntToDecimal(now + TokenLifetimeSeconds))
  }

  /** The token expires exactly one hour after it is issued. */
  lemma ExpiresAfterOneHour(now: nat)
    ensures ParseLeadingInteger(IatExp(now).0) == Some(now)
    ensures ParseLeadingInteger(IatExp(now).1) == Some(now + 3600)
  {
    IntDecimalRoundTrip(now);
    IntDecimalRoundTrip(now + TokenLifetimeSeconds);
  }

  /** Connect-retry constants, in milliseconds. */
  const InitialConnectIntervalMillis := 500
  const MaxConnectIntervalMillis := 6000
  const MaxConnectRetryTimeElapsedMillis := 900000

  /** MQTTCLIENT_SUCCESS, and the "server unavailable" refusal that is retried. */
  const ConnectSuccess := 0
  const ServerUnavailable := 3

  /** `retry_interval_ms *= 1.5f` followed by the cap: for intervals up to
      6000 the float product is exact and the conversion truncates. */
  function NextInterval(interval: nat): nat
  {
    if interval * 3 / 2 > MaxConnectIntervalMillis then MaxConnectIntervalMillis else interval * 3 / 2
  }

  /** The sleep before retry k (counting from 0). */
  function Interval(k: nat): nat
  {
    if k == 0 then InitialConnectIntervalMillis else NextInterval(Interval(k - 1))
  }

  /** The time slept by the first k retries. */
  function TotalSleep(k: nat): nat
  {
    if k == 0 then 0 else TotalSleep(k - 1) + Interval(k - 1)
  }

  /** Every interval lies between 500 and 6000 ms, never shrinks, and is at
      the cap from the eighth retry on. */
  lemma {:induction false} IntervalBounds(k: nat)
    ensures InitialConnectIntervalMillis <= Interval(k) <= MaxConnectIntervalMillis
    ensures Interval(k) <= Interval(k + 1)
    ensures k >= 7 ==> Interval(k) == MaxConnectIntervalMillis
  {
    if k > 0 {
      IntervalBounds(k - 1);
    }
    if k == 7 {
      assert Interval(1) == 750;
      assert Interval(2) == 1125;
      assert Interval(3) == 1687;
      assert Interval(4) == 2530;
      assert Interval(5) == 3795;
      assert Interval(6) == 5692;
    }
  }

  /** Once capped, each retry adds 6000 ms to the 16079 ms slept by the first seven. */
  lemma {:induction false} TotalSleepCapped(k: nat)
    requires k >= 7
    ensures TotalSleep(k) == 16079 + MaxConnectIntervalMillis * (k - 7)
  {
    if k == 7 {
      assert Interval(1) == 750;
      assert Interval(2) == 1125;
      assert Interval(3) == 1687;
      assert Interval(4) == 2530;
      assert Interval(5) == 3795;
      assert Interval(6) == 5692;
      assert TotalSleep(7) == 500 + 750 + 1125 + 1687 + 2530 + 3795 + 5692;
    } else {
      TotalSleepCapped(k - 1);
      IntervalBounds(k - 1);
    }
  }

  lemma {:induction false} TotalSleepMonotone(j: nat, k: nat)
    requires j <= k
    ensures TotalSleep(j) <= TotalSleep(k)
    decreases k
  {
    if j < k {
      TotalSleepMonotone(j, k - 1);
    }
  }

  /** The retry budget runs out on exactly the 155th refusal, after 904079 ms. */
  const RetriesBeforeGivingUp := 155

  lemma RetryBudget(k: nat)
    ensures TotalSleep(k) < MaxConnectRetryTimeElapsedMillis <==> k < RetriesBeforeGivingUp
  {
    TotalSleepCapped(RetriesBeforeGivingUp - 1);
    TotalSleepCapped(RetriesBeforeGivingUp);
    if k < RetriesBeforeGivingUp {
      TotalSleepMonotone(k, RetriesBeforeGivingUp - 1);
    } else {
      TotalSleepMonotone(RetriesBeforeGivingUp, k);
    }
  }

  /** The first |sleeps| connect calls were refused as "server unavailable",
      and each was followed by the scheduled sleep. */
  predicate RetriedAsScheduled(connect: nat -> int, sleeps: seq<nat>)
  {
    forall k :: 0 <= k < |sleeps| ==> connect(k) == ServerUnavailable && sleeps[k] == Interval(k)
  }

  lemma RetriedSnoc(connect: nat -> int, sleeps: seq<nat>, interval: nat)
    requires RetriedAsScheduled(connect, sleeps)
    requires connect(|sleeps|) == ServerUnavailable && interval == Interval(|sleeps|)
    ensures RetriedAsScheduled(connect, sleeps + [interval])
  {
  }

  /** Giving up happens after 904079 ms of sleep in all. */
  lemma GiveUpTime()
    ensures TotalSleep(RetriesBeforeGivingUp) == 904079
  {
    TotalSleepCapped(RetriesBeforeGivingUp);
  }

  /** How the connect loop of Publish ends: connected, or the process exits. */
  datatype ConnectOutcome = Connected | Refused(rc: int) | RetryTimeExceeded

  /** The connect loop of Publish. `connect(k)` is the return code of the k-th
      MQTTClient_connect call; `sleeps` are the usleep durations in ms. */
  method ConnectWithRetry(connect: nat -> int) returns (outcome: ConnectOutcome, sleeps: seq<nat>)
    ensures RetriedAsScheduled(connect, sleeps)
    ensures outcome == Connected ==> connect(|sleeps|) == ConnectSuccess
    ensures outcome.Refused? ==>
      outcome.rc == connect(|sleeps|) && outcome.rc != ConnectSuccess && outcome.rc != ServerUnavailable
    ensures outcome == RetryTimeExceeded <==> |sleeps| == RetriesBeforeGivingUp
    ensures |sleeps| <= RetriesBeforeGivingUp
  {
    var retryInterval := InitialConnectIntervalMillis;
    var totalRetryTime := 0;
    sleeps := [];
    var rc := connect(0);
    while rc != ConnectSuccess
      invariant RetriedAsScheduled(connect, sleeps)
      invariant rc == connect(|sleeps|)
      invariant retryInterval == Interval(|sleeps|)
      invariant totalRetryTime == TotalSleep(|sleeps|) < MaxConnectRetryTimeElapsedMillis
      invariant |sleeps| < RetriesBeforeGivingUp
      decreases MaxConnectRetryTimeElapsedMillis - totalRetryTime
    {
      if rc == ServerUnavailable {
        IntervalBounds(|sleeps|);
        RetriedSnoc(connect, sleeps, retryInterval);
        sleeps := sleeps + [retryInterval];
        totalRetryTime := totalRetryTime + retryInterval;
        RetryBudget(|sleeps|);
        if totalRetryTime >= MaxConnectRetryTimeElapsedMillis {
          return RetryTimeExceeded, sleeps;
        }
        retryInterval := retryInterval * 3 / 2;
        if retryInterval > MaxConnectIntervalMillis {
          retryInterval := MaxConnectIntervalMillis;
        }
      } else {
        return Refused(rc), sleeps;
      }
      rc := connect(|sleeps|);
    }
    return Connected, sleeps;
  }
}
