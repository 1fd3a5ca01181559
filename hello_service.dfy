// The Cloud Run "Hello World" service (cloud-run-hello-world/cloud_run_hello.cc):
// the listening port taken from PORT, the start-up decision of main, the
// greeting every request receives and the per-connection session loop.
module HelloService {
  import opened Wrappers
  import opened Text

  /** A std::uint16_t port number. */
  type Port = n: int | 0 <= n < 0x1_0000

  const DefaultPort: Port := 8080
  const DefaultAddress := "0.0.0.0"

  /** Why the server does not start: std::stoi rejects PORT, PORT is outside
      the uint16 range (the invalid_argument message), or the address does not
      parse. Each is caught in main and gives exit status 1. */
  datatype StartupError =
    | PortConversion(error: ConversionError)
    | PortOutOfRange(message: string)
    | BadAddress(address: string)

  function OutOfRangeMessage(value: int): string
  {
    "The PORT environment variable value (" + IntToDecimal(value) + ") is out of range."
  }

  /** The default of the --port option, from the PORT environment variable
      (None when it is unset). */
  function PortFromEnvironment(env: Option<string>): (r: Result<Port, StartupError>)
    ensures env.None? ==> r == Ok(DefaultPort)
    ensures env.Some? ==>
      match StringToInteger(env.value, INT32_MIN, INT32_MAX)
      case Err(e) => r == Err(PortConversion(e))
      case Ok(v) => if 0 <= v < 0x1_0000 then r == Ok(v) else r == Err(PortOutOfRange(OutOfRangeMessage(v)))
  {
    if env.None? then Ok(DefaultPort)
    else
      match StringToInteger(env.value, INT32_MIN, INT32_MAX)
      case Err(e) => Err(PortConversion(e))
      case Ok(value) =>
        if value < 0 || value > 0xffff then Err(PortOutOfRange(OutOfRangeMessage(value)))
        else Ok(value)
  }

  /** Every port number written in decimal is accepted unchanged. */
  lemma PortRoundTrip(p: Port)
    ensures PortFromEnvironment(Some(IntToDecimal(p))) == Ok(p)
  {
    IntDecimalRoundTrip(p);
  }

  /** A decimal value outside [0, 65535] that still fits an int is refused
      with a message naming it. */
  lemma PortOutOfRangeNamed(value: int)
    requires INT32_MIN <= value <= INT32_MAX && (value < 0 || value > 0xffff)
    ensures PortFromEnvironment(Some(IntToDecimal(value)))
            == Err(PortOutOfRange("The PORT environment variable value (" + IntToDecimal(value) + ") is out of range."))
  {
    IntDecimalRoundTrip(value);
  }

  /** The options after command-line tokenising; None when not given. */
  datatype CommandLine = CommandLine(help: bool, address: Option<string>, port: Option<Port>)

  /** What main does once the options are known. */
  datatype Startup = ShowHelp | Listen(address: string, port: Port)

  /** main up to the acceptor: the PORT default is computed before the
      options are looked at; `addressParses` says whether make_address accepts
      a text. */
  function Start(env: Option<string>, cl: CommandLine, addressParses: string -> bool): (r: Result<Startup, StartupError>)
    ensures r.Ok? <==> (PortFromEnvironment(env).Ok?
                        && (cl.help || addressParses(if cl.address.Some? then cl.address.value else DefaultAddress)))
    ensures r == Ok(ShowHelp) <==> PortFromEnvironment(env).Ok? && cl.help
    ensures PortFromEnvironment(env).Err? ==> r == Err(PortFromEnvironment(env).error)
    ensures r.Ok? && r.value.Listen? ==>
      r.value.address == (if cl.address.Some? then cl.address.value else DefaultAddress)
      && r.value.port == (if cl.port.Some? then cl.port.value else PortFromEnvironment(env).value)
  {
    match PortFromEnvironment(env)
    case Err(e) => Err(e)
    case Ok(defaultPort) =>
      if cl.help then Ok(ShowHelp)
      else
        var address := if cl.address.Some? then cl.address.value else DefaultAddress;
        var port := if cl.port.Some? then cl.port.value else defaultPort;
        if !addressParses(address) then Err(BadAddress(address))
        else Ok(Listen(address, port))
  }

  /** The process exit status for a start-up that ends main. */
  function StartupExitCode(r: Result<Startup, StartupError>): (code: int)
    requires r.Err? || r.value.ShowHelp?
    ensures code == 0 <==> r.Ok?
  {
    if r.Ok? then 0 else 1
  }

  /** A bad PORT stops the server even when --help is asked for or --port is
      given, since its value is read first. */
  lemma BadPortAlwaysFails(env: Option<string>, cl: CommandLine, addressParses: string -> bool)
    requires env.Some? && StringToInteger(env.value, INT32_MIN, INT32_MAX).Ok?
    requires StringToInteger(env.value, INT32_MIN, INT32_MAX).value > 0xffff
    ensures Start(env, cl, addressParses).Err?
    ensures StartupExitCode(Start(env, cl, addressParses)) == 1
  {
  }

  /** --port overrides PORT; without it PORT (or 8080) is used. */
  lemma PortOptionWins(env: Option<string>, address: Option<string>, p: Port, addressParses: string -> bool)
    requires PortFromEnvironment(env).Ok?
    requires addressParses(if address.Some? then address.value else DefaultAddress)
    ensures Start(env, CommandLine(false, address, Some(p)), addressParses).value.port == p
    ensures Start(env, CommandLine(false, address, None), addressParses).value.port
            == (if env.None? then 8080 else PortFromEnvironment(env).value)
  {
  }

  /** An HTTP request as far as the response depends on it. */
  datatype Request = Request(version: nat, keepAlive: bool)

  /** The response every request receives. */
  datatype Response = Response(
    status: nat, version: nat, server: string, contentType: string,
    keepAlive: bool, body: string, contentLength: nat)

  const StatusOk := 200

  /** "Hello " and the TARGET environment variable, or World, and a newline. */
  function Greeting(target: Option<string>): string
  {
    "Hello " + (if target.Some? then target.value else "World") + "\n"
  }

  /** The greeting frames the target: it can be read back from the body. */
  lemma GreetingNamesTarget(target: Option<string>)
    ensures var g := Greeting(target);
      |g| >= 7 && g[..6] == "Hello " && g[|g| - 1] == '\n'
      && g[6..|g| - 1] == (if target.Some? then target.value else "World")
  {
  }

  /** Different targets give different greetings, and an unset TARGET reads as World. */
  lemma GreetingInjective(t1: string, t2: string)
    requires Greeting(Some(t1)) == Greeting(Some(t2))
    ensures t1 == t2
    ensures Greeting(None) == Greeting(Some("World"))
  {
    GreetingNamesTarget(Some(t1));
    GreetingNamesTarget(Some(t2));
  }

  /** The response built for one request; `server` is the Beast version string. */
  function Respond(request: Request, target: Option<string>, server: string): (r: Response)
    ensures r.status == StatusOk && r.contentType == "text/plain"
    ensures r.version == request.version && r.keepAlive == request.keepAlive
    ensures r.body == Greeting(target) && r.contentLength == |r.body|
  {
    var body := Greeting(target);
    Response(StatusOk, request.version, server, "text/plain", request.keepAlive, body, |body|)
  }

  /** What the k-th read of a connection yields. */
  datatype ReadEvent = Received(request: Request) | EndOfStream | ReadFailed(error: string)

  /** How a session ends: the socket is shut down for sending after
      end_of_stream, or the session returns after reporting a read or write
      error. */
  datatype SessionEnd = Shutdown | ReadReported(error: string) | WriteReported(error: string)

  /** What a connection delivers: `events`, then end_of_stream once the peer closes. */
  function ReadAt(events: seq<ReadEvent>, k: nat): ReadEvent
  {
    if k < |events| then events[k] else EndOfStream
  }

  /** The first k reads all delivered a request, and the replies to them were
      written without error. */
  predicate ServedThrough(events: seq<ReadEvent>, writeErrors: nat -> Option<string>, k: nat)
  {
    forall j :: 0 <= j < k ==> ReadAt(events, j).Received? && writeErrors(j).None?
  }

  predicate AnsweredAsBuilt(events: seq<ReadEvent>, target: Option<string>, server: string, sent: seq<Response>)
  {
    forall j :: 0 <= j < |sent| ==>
      ReadAt(events, j).Received? && sent[j] == Respond(ReadAt(events, j).request, target, server)
  }

  lemma AnsweredSnoc(events: seq<ReadEvent>, target: Option<string>, server: string, sent: seq<Response>)
    requires AnsweredAsBuilt(events, target, server, sent)
    requires ReadAt(events, |sent|).Received?
    ensures AnsweredAsBuilt(events, target, server, sent + [Respond(ReadAt(events, |sent|).request, target, server)])
  {
  }

  /** handle_session: read a request, answer it, repeat. `writeErrors(k)` is
      the error of the k-th write, if any; `sent` are the responses written. */
  method Session(events: seq<ReadEvent>, writeErrors: nat -> Option<string>, target: Option<string>, server: string)
    returns (sent: seq<Response>, end: SessionEnd)
    ensures |sent| <= |events|
    ensures AnsweredAsBuilt(events, target, server, sent)
    ensures end == Shutdown <==> ServedThrough(events, writeErrors, |sent|) && ReadAt(events, |sent|) == EndOfStream
    ensures end.ReadReported? ==>
      ServedThrough(events, writeErrors, |sent|) && ReadAt(events, |sent|) == ReadFailed(end.error)
    ensures end.WriteReported? ==>
      |sent| >= 1 && ServedThrough(events, writeErrors, |sent| - 1) && writeErrors(|sent| - 1) == Some(end.error)
  {
    sent := [];
    var k := 0;
    while true
      invariant k == |sent| <= |events|
      invariant AnsweredAsBuilt(events, target, server, sent)
      invariant ServedThrough(events, writeErrors, k)
      decreases |events| - k
    {
      var event := ReadAt(events, k);
      if event == EndOfStream {
        break;
      }
      if event.ReadFailed? {
        return sent, ReadReported(event.error);
      }
      var response := Respond(event.request, target, server);
      AnsweredSnoc(events, target, server, sent);
      sent := sent + [response];
      var ec := writeErrors(k);
      if ec.Some? {
        return sent, WriteReported(ec.value);
      }
      k := k + 1;
    }
    end := Shutdown;
  }
}
