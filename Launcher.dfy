/**
 * Argument validation and dispatch of the launcher (main.go): the four
 * command-line values are checked in a fixed order, and valid ones select
 * exactly one of the four tunnel entry points.
 */
module Launcher {
  import opened Wrappers

  /** Why validateArgs refused the arguments; the invalid ones carry the offending value. */
  datatype ArgError =
    | MissingMode
    | MissingProtocol
    | MissingLocal
    | MissingRemote
    | InvalidMode(mode: string)
    | InvalidProtocol(protocol: string)

  const ValidModes: set<string> := {"client", "server"}
  const ValidProtocols: set<string> := {"udp", "tcp"}

  /** The arguments a tunnel can start with. */
  predicate ArgsValid(mode: string, protocol: string, localAddr: string, remoteAddr: string)
  {
    localAddr != "" && remoteAddr != "" && mode in ValidModes && protocol in ValidProtocols
  }

  /** Position of each check in validateArgs' chain. */
  function Rank(e: ArgError): nat
  {
    match e
    case MissingMode => 0
    case MissingProtocol => 1
    case MissingLocal => 2
    case MissingRemote => 3
    case InvalidMode(_) => 4
    case InvalidProtocol(_) => 5
  }

  /** Every check of validateArgs that the arguments fail, each with the error it reports. */
  function Failing(mode: string, protocol: string, localAddr: string, remoteAddr: string): set<ArgError>
  {
    (if mode == "" then {MissingMode} else {})
    + (if protocol == "" then {MissingProtocol} else {})
    + (if localAddr == "" then {MissingLocal} else {})
    + (if remoteAddr == "" then {MissingRemote} else {})
    + (if mode !in ValidModes then {InvalidMode(mode)} else {})
    + (if protocol !in ValidProtocols then {InvalidProtocol(protocol)} else {})
  }

  /**
   * validateArgs: no error exactly when the arguments are valid; otherwise
   * the error of the earliest check that fails.
   */
  function ValidateArgs(mode: string, protocol: string, localAddr: string, remoteAddr: string): (r: Option<ArgError>)
    ensures r == None <==> ArgsValid(mode, protocol, localAddr, remoteAddr)
    ensures r == None <==> Failing(mode, protocol, localAddr, remoteAddr) == {}
    ensures r.Some? ==> r.value in Failing(mode, protocol, localAddr, remoteAddr)
    ensures r.Some? ==> forall e :: e in Failing(mode, protocol, localAddr, remoteAddr) ==> Rank(r.value) <= Rank(e)
  {
    if mode == "" then Some(MissingMode)
    else if protocol == "" then Some(MissingProtocol)
    else if localAddr == "" then Some(MissingLocal)
    else if remoteAddr == "" then Some(MissingRemote)
    else if mode != "client" && mode != "server" then Some(InvalidMode(mode))
    else if protocol != "udp" && protocol != "tcp" then Some(InvalidProtocol(protocol))
    else None
  }

  /** When both the mode and the protocol are unknown, the mode is reported. */
  lemma InvalidModeFirst(mode: string, protocol: string, localAddr: string, remoteAddr: string)
    requires mode !in ValidModes && protocol !in ValidProtocols
    requires localAddr != "" && remoteAddr != ""
    ensures ValidateArgs(mode, protocol, localAddr, remoteAddr) ==
      (if mode == "" then Some(MissingMode) else if protocol == "" then Some(MissingProtocol) else Some(InvalidMode(mode)))
  {
  }

  /** The four tunnel entry points. */
  datatype EntryPoint = RunClient | RunServer | RunTcpClient | RunTcpServer
  {
    predicate Udp() { this == RunClient || this == RunServer }
    predicate Client() { this == RunClient || this == RunTcpClient }
  }

  /** The switch on protocol, then mode; any other pair selects nothing. */
  function Dispatch(protocol: string, mode: string): (r: Option<EntryPoint>)
    ensures r.Some? <==> protocol in ValidProtocols && mode in ValidModes
    ensures r.Some? ==> (r.value.Udp() <==> protocol == "udp") && (r.value.Client() <==> mode == "client")
  {
    match protocol
    case "udp" => (match mode case "client" => Some(RunClient) case "server" => Some(RunServer) case _ => None)
    case "tcp" => (match mode case "client" => Some(RunTcpClient) case "server" => Some(RunTcpServer) case _ => None)
    case _ => None
  }

  /** Different (protocol, mode) pairs select different entry points, and every entry point is selected by some pair. */
  lemma DispatchInjective(p1: string, m1: string, p2: string, m2: string)
    requires Dispatch(p1, m1).Some? && Dispatch(p1, m1) == Dispatch(p2, m2)
    ensures p1 == p2 && m1 == m2
  {
    var e := Dispatch(p1, m1).value;
    assert p1 == (if e.Udp() then "udp" else "tcp");
    assert m1 == (if e.Client() then "client" else "server");
  }

  lemma DispatchOnto(e: EntryPoint)
    ensures Dispatch(if e.Udp() then "udp" else "tcp", if e.Client() then "client" else "server") == Some(e)
  {
  }

  /** What the launcher starts: one entry point with the local and remote addresses. */
  datatype Launched = Launched(entry: EntryPoint, localAddr: string, remoteAddr: string)

  /**
   * main after flag parsing: validate, then dispatch. Valid arguments start exactly one entry point, the one the (protocol,
   * mode) pair selects, with the addresses unchanged; invalid ones start
   * nothing and report validateArgs' error.
   */
  function Launch(mode: string, protocol: string, localAddr: string, remoteAddr: string): (r: Result<Launched, ArgError>)
    ensures r.Success? <==> ArgsValid(mode, protocol, localAddr, remoteAddr)
    ensures r.Success? ==> Some(r.value.entry) == Dispatch(protocol, mode)
    ensures r.Success? ==> r.value.localAddr == localAddr && r.value.remoteAddr == remoteAddr
    ensures r.Failure? ==> Some(r.error) == ValidateArgs(mode, protocol, localAddr, remoteAddr)
  {
    var v := ValidateArgs(mode, protocol, localAddr, remoteAddr);
    if v.Some? then Failure(v.value)
    else Success(Launched(Dispatch(protocol, mode).value, localAddr, remoteAddr))
  }

  /**
   * What is started follows the two flags: a udp entry point exactly for
   * protocol udp, a client one exactly for mode client.
   */
  lemma LaunchSelectsOne(mode: string, protocol: string, localAddr: string, remoteAddr: string)
    requires ArgsValid(mode, protocol, localAddr, remoteAddr)
    ensures Launch(mode, protocol, localAddr, remoteAddr).Success?
    ensures var e := Launch(mode, protocol, localAddr, remoteAddr).value.entry;
      (e.Udp() <==> protocol == "udp") && (e.Client() <==> mode == "client")
  {
  }
}
