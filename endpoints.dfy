/** The two routes, `index` (GET /) and `health` (GET /health), and the
    system facts they report (app_python/app.py, lines 53-75 and 106-144).
    Host queries, the clock and the request are parameters. */
module Endpoints {
  import opened Wrappers
  import opened Text
  import Uptime
  import Timestamp

  /** What the operating system and interpreter report, each query's result
      taken as given: `socket.gethostname()`, `platform.system()`, the
      PRETTY_NAME of `platform.freedesktop_os_release()` (`None` when that call
      is missing, fails or lacks the key), `platform.platform()`,
      `platform.machine()`, `os.cpu_count()` and `platform.python_version()`. */
  datatype HostFacts = HostFacts(
    hostname: string,
    system: string,
    prettyName: Option<string>,
    platformString: string,
    machine: string,
    cpuCount: Option<nat>,
    pythonVersion: string)

  /** The fields of the inbound request the index echoes. */
  datatype Request = Request(
    clientHost: Option<string>,
    userAgent: Option<string>,
    verb: string,
    path: string)

  /** The clock reads one response needs. `get_uptime` and `iso_utc_now` each
      call `datetime.now` on their own, so they are two separate readings. */
  datatype Clock = Clock(startMicros: int, uptimeNowMicros: int, stampNow: Timestamp.DateTime)

  predicate ValidClock(c: Clock) {
    Timestamp.ValidDateTime(c.stampNow)
  }

  datatype ServiceInfo = ServiceInfo(name: string, version: string, description: string, framework: string)

  datatype SystemInfo = SystemInfo(
    hostname: string,
    platform: string,
    platformVersion: string,
    architecture: string,
    cpuCount: nat,
    pythonVersion: string)

  datatype RuntimeInfo = RuntimeInfo(uptimeSeconds: int, uptimeHuman: string, currentTime: string, timezone: string)

  datatype RequestInfo = RequestInfo(clientIp: Option<string>, userAgent: Option<string>, verb: string, path: string)

  datatype EndpointInfo = EndpointInfo(path: string, verb: string, description: string)

  datatype IndexResponse = IndexResponse(
    service: ServiceInfo,
    system: SystemInfo,
    runtime: RuntimeInfo,
    request: RequestInfo,
    endpoints: seq<EndpointInfo>)

  datatype HealthResponse = HealthResponse(status: string, timestamp: string, uptimeSeconds: int)

  const SERVICE := ServiceInfo("devops-info-service", "1.0.0", "DevOps course info service", "FastAPI")

  const ENDPOINTS := [
    EndpointInfo("/", "GET", "Service information"),
    EndpointInfo("/health", "GET", "Health check")
  ]

  /** `get_platform_version`: PRETTY_NAME when it is present and non-empty,
      otherwise the generic platform string. */
  function PlatformVersion(prettyName: Option<string>, platformString: string): (v: string)
    ensures prettyName.Some? && prettyName.value != "" ==> v == prettyName.value
    ensures prettyName.None? || prettyName.value == "" ==> v == platformString
  {
    if prettyName.Some? && |prettyName.value| > 0 then prettyName.value else platformString
  }

  /** `os.cpu_count() or 1`: both `None` and 0 are falsy and give 1. */
  function CpuCount(reported: Option<nat>): (n: nat)
    ensures n >= 1
    ensures reported.Some? && reported.value >= 1 ==> n == reported.value
  {
    if reported.Some? && reported.value != 0 then reported.value else 1
  }

  /** `get_system_info`. */
  function GetSystemInfo(facts: HostFacts): (info: SystemInfo)
    ensures info.cpuCount == CpuCount(facts.cpuCount) && info.cpuCount >= 1
    ensures info.hostname == facts.hostname && info.platform == facts.system
    ensures info.architecture == facts.machine && info.pythonVersion == facts.pythonVersion
    ensures info.platformVersion == PlatformVersion(facts.prettyName, facts.platformString)
  {
    SystemInfo(
      facts.hostname,
      facts.system,
      PlatformVersion(facts.prettyName, facts.platformString),
      facts.machine,
      CpuCount(facts.cpuCount),
      facts.pythonVersion)
  }

  /** `index`: GET /. */
  function Index(facts: HostFacts, clock: Clock, req: Request): (r: IndexResponse)
    requires ValidClock(clock)
    ensures r.service == SERVICE
    ensures r.runtime.timezone == "UTC"
    ensures r.endpoints == ENDPOINTS
    ensures r.system == GetSystemInfo(facts) && r.system.cpuCount >= 1
    ensures r.runtime.uptimeSeconds == Uptime.ElapsedSeconds(clock.startMicros, clock.uptimeNowMicros)
    ensures r.runtime.uptimeHuman == Uptime.GetUptime(clock.startMicros, clock.uptimeNowMicros).human
    ensures r.runtime.currentTime == Timestamp.IsoUtc(clock.stampNow)
    ensures r.request == RequestInfo(req.clientHost, req.userAgent, req.verb, req.path)
  {
    var uptime := Uptime.GetUptime(clock.startMicros, clock.uptimeNowMicros);
    IndexResponse(
      SERVICE,
      GetSystemInfo(facts),
      RuntimeInfo(uptime.seconds, uptime.human, Timestamp.IsoUtc(clock.stampNow), "UTC"),
      RequestInfo(req.clientHost, req.userAgent, req.verb, req.path),
      ENDPOINTS)
  }

  /** `health`: GET /health. */
  function Health(clock: Clock): (r: HealthResponse)
    requires ValidClock(clock)
    ensures r.status == "healthy"
    ensures r.timestamp == Timestamp.IsoUtc(clock.stampNow)
    ensures r.uptimeSeconds == Uptime.GetUptime(clock.startMicros, clock.uptimeNowMicros).seconds
  {
    var uptime := Uptime.GetUptime(clock.startMicros, clock.uptimeNowMicros);
    HealthResponse("healthy", Timestamp.IsoUtc(clock.stampNow), uptime.seconds)
  }

  /** The paths the index advertises are exactly "/" and "/health", both GET. */
  lemma EndpointsListed()
    ensures |ENDPOINTS| == 2
    ensures (set e | e in ENDPOINTS :: e.path) == {"/", "/health"}
    ensures forall e | e in ENDPOINTS :: e.verb == "GET"
  {
    assert ENDPOINTS[0].path == "/" && ENDPOINTS[1].path == "/health";
    assert forall e | e in ENDPOINTS :: e == ENDPOINTS[0] || e == ENDPOINTS[1];
  }

  /** The index's human-readable uptime reads back as the hours and minutes
      of its uptime in seconds, and its current time is a well-formed
      timestamp of the clock reading. */
  lemma IndexRuntimeConsistent(facts: HostFacts, clock: Clock, req: Request)
    requires ValidClock(clock)
    ensures
      var rt := Index(facts, clock, req).runtime;
      && Uptime.ParseHuman(rt.uptimeHuman) == Some(Uptime.HoursMinutes(rt.uptimeSeconds))
      && Timestamp.ParseTimestamp(rt.currentTime) == Some(Timestamp.ToStamp(clock.stampNow))
      && !Contains(rt.currentTime, "+00:00")
  {
    Timestamp.IsoUtcWellFormed(clock.stampNow);
  }

  /** The health timestamp is a well-formed timestamp of the clock reading. */
  lemma HealthTimestampWellFormed(clock: Clock)
    requires ValidClock(clock)
    ensures Timestamp.IsTimestamp(Health(clock).timestamp)
    ensures Timestamp.ParseTimestamp(Health(clock).timestamp) == Some(Timestamp.ToStamp(clock.stampNow))
  {
    Timestamp.IsoUtcWellFormed(clock.stampNow);
  }

  /** Two health checks with a clock that does not go backwards report a
      non-negative uptime that does not decrease. */
  lemma HealthUptimeNonDecreasing(c1: Clock, c2: Clock)
    requires ValidClock(c1) && ValidClock(c2)
    requires c1.startMicros == c2.startMicros
    requires c1.startMicros <= c1.uptimeNowMicros <= c2.uptimeNowMicros
    ensures 0 <= Health(c1).uptimeSeconds <= Health(c2).uptimeSeconds
  {
    Uptime.ElapsedMonotone(c1.startMicros, c1.uptimeNowMicros, c2.uptimeNowMicros);
  }

  /** A reported CPU count is kept; a missing or zero one becomes 1. */
  lemma CpuCountFallback(reported: Option<nat>)
    ensures CpuCount(reported) >= 1
    ensures CpuCount(reported) == 1 <==> reported in {None, Some(0), Some(1)}
  {
  }

  /** The request scenario of the test suite: GET / with a User-Agent of
      "pytest" echoes the agent, the method and the path. */
  lemma IndexEchoesRequest(facts: HostFacts, clock: Clock, client: Option<string>)
    requires ValidClock(clock)
    ensures
      var r := Index(facts, clock, Request(client, Some("pytest"), "GET", "/")).request;
      r.userAgent == Some("pytest") && r.verb == "GET" && r.path == "/"
  {
  }
}
