/**
 The host-port registry (server/services/tcpIngress.js), the ingress half of
 `PUT /api/apps/:slug` (server/routes/apps.js) and the part of a container start
 that publishes and releases ports (server/services/docker.js), as functions on
 one platform state.

 A publish is a `docker run` flag, so the app row (intent) and what a running
 container binds are two different facts; both are kept here.
 */
module Ingress {
  import opened Wrappers

  type AppId = nat

  datatype Env = Production | Sandbox
  datatype IngressType = Http | Tcp | Dual
  datatype PortState = Pinned | Draining

  /** One row of app_host_ports; the host port is the map key. */
  datatype Reservation = Reservation(app: AppId, env: Env, state: PortState)

  datatype AppRow = AppRow(
    ingressType: IngressType,
    publicPort: Option<int>,
    sandboxPublicPort: Option<int>,
    dataPlanePort: Option<int>)

  /** The ingress facts every read surface and every audit entry reports. */
  datatype View = View(
    ingressType: IngressType,
    publicPort: Option<int>,
    sandboxPublicPort: Option<int>,
    dataPlanePort: Option<int>,
    pendingPortRelease: Option<int>)

  /** An 'app-ingress-change' audit row. */
  datatype Entry = Entry(app: AppId, before: View, after: View)

  /**
   `bound` is what running containers bind on 0.0.0.0. `starting` holds the
   publish a container start has read from the row but whose `docker run` has not
   returned yet. `live` is the set of (app, env) with a deployment in status
   'live'.
   */
  datatype Platform = Platform(
    nextId: AppId,
    apps: map<AppId, AppRow>,
    ports: map<int, Reservation>,
    live: set<(AppId, Env)>,
    bound: map<(AppId, Env), int>,
    starting: map<(AppId, Env), Option<int>>,
    log: seq<Entry>)

  datatype IngressError = Forbidden | Validation | PortReserved | PortTaken | NoPublicPort | RegistryConflict

  const AUTO_PORT_MIN := 31000
  const AUTO_PORT_MAX := 31999
  const PUBLIC_PORT_MIN := 1024
  const PUBLIC_PORT_MAX := 65535
  const CONTROL_PLANE_PORT := 3000

  const EMPTY := Platform(0, map[], map[], {}, map[], map[], [])
  const NEW_ROW := AppRow(Http, None, None, None)

  // ---- reading a row -------------------------------------------------------

  function Column(row: AppRow, e: Env): Option<int> {
    if e == Production then row.publicPort else row.sandboxPublicPort
  }

  function WithColumn(row: AppRow, e: Env, port: Option<int>): AppRow {
    if e == Production then row.(publicPort := port) else row.(sandboxPublicPort := port)
  }

  function EffectiveDataPlanePort(row: AppRow): Option<int> {
    if row.ingressType == Dual then row.dataPlanePort else None
  }

  /** Both ends of the raw publish, (host port, container port). */
  function PublishTargets(row: AppRow, e: Env): Option<(int, int)> {
    if row.ingressType == Http then None
    else if Column(row, e) == None then None
    else if row.ingressType == Tcp then Some((Column(row, e).value, CONTROL_PLANE_PORT))
    else
      match EffectiveDataPlanePort(row)
      case None => None
      case Some(container) =>
        if container == CONTROL_PLANE_PORT then None else Some((Column(row, e).value, container))
  }

  function PublicPort(row: AppRow, e: Env): Option<int> {
    match PublishTargets(row, e)
    case None => None
    case Some(targets) => Some(targets.0)
  }

  function PendingPortRelease(row: AppRow): Option<int> {
    if row.ingressType != Http then None else row.publicPort
  }

  function ViewOf(row: AppRow): View {
    View(row.ingressType, PublicPort(row, Production), PublicPort(row, Sandbox),
         EffectiveDataPlanePort(row), PendingPortRelease(row))
  }

  predicate ValidDataPlanePort(port: int) {
    PUBLIC_PORT_MIN <= port <= PUBLIC_PORT_MAX && port != CONTROL_PLANE_PORT
  }

  // ---- the registry --------------------------------------------------------

  /**
   `blocked` is what the platform refuses to everyone at this moment: the
   blocked-ports list, its own listening port, Caddy's admin port and every
   slot-derived port.
   */
  function CheckAssignable(p: Platform, blocked: set<int>, port: int, a: AppId, e: Env): Result<int, IngressError> {
    if port < PUBLIC_PORT_MIN || port > PUBLIC_PORT_MAX then Failure(Validation)
    else if port in blocked then Failure(PortReserved)
    else if port in p.ports && !(p.ports[port].app == a && p.ports[port].env == e) then Failure(PortTaken)
    else Success(port)
  }

  function LowestFree(p: Platform, blocked: set<int>, a: AppId, e: Env, from: int): Option<int>
    decreases AUTO_PORT_MAX + 1 - from
  {
    if from > AUTO_PORT_MAX then None
    else if CheckAssignable(p, blocked, from, a, e).Success? then Some(from)
    else LowestFree(p, blocked, a, e, from + 1)
  }

  /** Replace the pinned row and write the column; the primary key refuses a number that is still a row. */
  function Claim(p: Platform, a: AppId, e: Env, port: int): (r: Result<Platform, IngressError>)
    requires a in p.apps
    ensures r.Success? ==> r.value.apps.Keys == p.apps.Keys
  {
    var others := map q | q in p.ports && p.ports[q] != Reservation(a, e, Pinned) :: p.ports[q];
    if port in others then Failure(RegistryConflict)
    else Success(p.(ports := others[port := Reservation(a, e, Pinned)],
                    apps := p.apps[a := WithColumn(p.apps[a], e, Some(port))]))
  }

  predicate HasPinned(p: Platform, a: AppId, e: Env) {
    exists q | q in p.ports :: p.ports[q] == Reservation(a, e, Pinned)
  }

  /**
   Keep the old number owned while a container may still answer on it. A column
   whose number the registry never recorded is reserved rather than forgotten.
   */
  function Drain(p: Platform, a: AppId, e: Env, held: int): Platform {
    if HasPinned(p, a, e) then
      p.(ports := map q | q in p.ports ::
        if p.ports[q] == Reservation(a, e, Pinned) then Reservation(a, e, Draining) else p.ports[q])
    else if held in p.ports then p
    else p.(ports := p.ports[held := Reservation(a, e, Draining)])
  }

  /** A port field of a JSON request body. */
  datatype PortField = Absent | Null | Number(n: int) | NotAnInteger

  function Assign(
      p: Platform, blocked: set<int>, a: AppId, e: Env, requested: PortField): (r: Result<Platform, IngressError>)
    requires a in p.apps
    ensures r.Success? ==> r.value.apps.Keys == p.apps.Keys
  {
    var held := Column(p.apps[a], e);
    match requested
    case Absent | Null =>
      if held != None then Success(p)
      else
        (match LowestFree(p, blocked, a, e, AUTO_PORT_MIN)
         case None => Failure(NoPublicPort)
         case Some(port) => Claim(p, a, e, port))
    case NotAnInteger => Failure(Validation)
    case Number(n) =>
      var published := held != None && p.apps[a].ingressType != Http && (a, e) in p.live;
      var q := if published && held.value != n then Drain(p, a, e, held.value) else p;
      (match CheckAssignable(q, blocked, n, a, e)
       case Failure(error) => Failure(error)
       case Success(_) => Claim(q, a, e, n))
  }

  function ReleasePort(p: Platform, a: AppId, e: Env): Platform
    requires a in p.apps
  {
    p.(ports := map q | q in p.ports && !(p.ports[q].app == a && p.ports[q].env == e) :: p.ports[q],
       apps := p.apps[a := WithColumn(p.apps[a], e, None)])
  }

  /** releasePendingPortAfterRecreate: draining rows first, then a flipped-away production number. */
  function ReleaseAfterRecreate(p: Platform, a: AppId, e: Env): Platform {
    if a !in p.apps then p
    else
      var q := p.(ports := map n | n in p.ports && p.ports[n] != Reservation(a, e, Draining) :: p.ports[n]);
      if e == Production && PendingPortRelease(p.apps[a]) != None then ReleasePort(q, a, Production) else q
  }

  // ---- PUT /api/apps/:slug -------------------------------------------------

  datatype TypeField = NoType | Known(t: IngressType) | Unknown

  datatype Request = Request(
    ingressType: TypeField,
    publicPort: PortField,
    sandboxPublicPort: PortField,
    dataPlanePort: PortField)

  /** A field is a change when it is present and differs from the reported value. */
  predicate Differs(field: PortField, current: Option<int>) {
    match field
    case Absent => false
    case Null => current != None
    case Number(n) => current != Some(n)
    case NotAnInteger => true
  }

  predicate EngagesIngress(row: AppRow, r: Request) {
    || (r.ingressType != NoType && r.ingressType != Known(row.ingressType))
    || Differs(r.publicPort, PublicPort(row, Production))
    || Differs(r.dataPlanePort, EffectiveDataPlanePort(row))
    || Differs(r.sandboxPublicPort, PublicPort(row, Sandbox))
    || (r.ingressType == Known(row.ingressType) && row.ingressType != Http && PublicPort(row, Production) == None)
  }

  function NextType(row: AppRow, r: Request): IngressType {
    if r.ingressType.Known? then r.ingressType.t else row.ingressType
  }

  /** The row after the generic UPDATE, or the refusal that happens before any write. */
  function CheckedUpdate(row: AppRow, r: Request): Result<AppRow, IngressError> {
    var next := NextType(row, r);
    if r.ingressType == Unknown then Failure(Validation)
    else if r.sandboxPublicPort != Absent && r.sandboxPublicPort != Null && next == Http then Failure(Validation)
    else if r.publicPort != Absent && (next == Http || r.publicPort == Null) then Failure(Validation)
    else if r.dataPlanePort == Null && next == Dual then Failure(Validation)
    else if (r.dataPlanePort.Number? || r.dataPlanePort.NotAnInteger?) && next != Dual then Failure(Validation)
    else if r.dataPlanePort.NotAnInteger? then Failure(Validation)
    else if r.dataPlanePort.Number? && !ValidDataPlanePort(r.dataPlanePort.n) then Failure(Validation)
    else
      var dataPlane :=
        match r.dataPlanePort
        case Null => None
        case Number(n) => Some(n)
        case _ => row.dataPlanePort;
      if next == Tcp && dataPlane != None then Failure(Validation)
      else if next == Dual && (dataPlane == None || !ValidDataPlanePort(dataPlane.value)) then Failure(Validation)
      else Success(row.(ingressType := next, dataPlanePort := dataPlane))
  }

  /** The sandbox half: explicit null drops the rows, a number is assigned, absent leaves it alone. */
  function SandboxWork(
      p: Platform, blocked: set<int>, a: AppId, requested: PortField): (r: Result<Platform, IngressError>)
    requires a in p.apps
    ensures r.Success? ==> r.value.apps.Keys == p.apps.Keys
  {
    match requested
    case Absent => Success(p)
    case Null => Success(ReleasePort(p, a, Sandbox))
    case _ => Assign(p, blocked, a, Sandbox, requested)
  }

  /** The port work of the transaction: production always, sandbox only when named. */
  function AssignPorts(p: Platform, blocked: set<int>, a: AppId, r: Request): (done: Result<Platform, IngressError>)
    requires a in p.apps
    ensures done.Success? ==> done.value.apps.Keys == p.apps.Keys
  {
    match Assign(p, blocked, a, Production, r.publicPort)
    case Failure(error) => Failure(error)
    case Success(q) => SandboxWork(q, blocked, a, r.sandboxPublicPort)
  }

  /** The transaction: column write, port work, and one audit entry from the row as read to the row as written. */
  function ApplyWrites(
      p: Platform, blocked: set<int>, a: AppId, updated: AppRow, r: Request): (done: Result<Platform, IngressError>)
    requires a in p.apps
    ensures done.Success? ==> done.value.apps.Keys == p.apps.Keys
  {
    var written := p.(apps := p.apps[a := updated]);
    match if updated.ingressType == Http then Success(written) else AssignPorts(written, blocked, a, r)
    case Failure(error) => Failure(error)
    case Success(q) => Success(q.(log := p.log + [Entry(a, ViewOf(p.apps[a]), ViewOf(q.apps[a]))]))
  }

  /** The whole handler: unchanged, refused, or changed with exactly one audit entry. */
  function Put(
      p: Platform, blocked: set<int>, a: AppId, platformAdmin: bool, r: Request): (done: Result<Platform, IngressError>)
    requires a in p.apps
    ensures done.Success? ==> done.value.apps.Keys == p.apps.Keys
  {
    if !EngagesIngress(p.apps[a], r) then Success(p)
    else if !platformAdmin then Failure(Forbidden)
    else
      match CheckedUpdate(p.apps[a], r)
      case Failure(error) => Failure(error)
      case Success(updated) => ApplyWrites(p, blocked, a, updated, r)
  }

  // ---- the MCP tool appcrane_set_app_ingress ---------------------------------

  /** The tool's own checks, in its order; the type is required and a null public port is let through. */
  function ToolUpdate(row: AppRow, r: Request): Result<AppRow, IngressError> {
    if !r.ingressType.Known? then Failure(Validation)
    else
      var next := r.ingressType.t;
      var chosen := match r.dataPlanePort case Absent => row.dataPlanePort case Number(n) => Some(n) case _ => None;
      if r.publicPort != Absent && next == Http then Failure(Validation)
      else if r.sandboxPublicPort != Absent && r.sandboxPublicPort != Null && next == Http then Failure(Validation)
      else if r.dataPlanePort != Absent && r.dataPlanePort != Null && next != Dual then Failure(Validation)
      else if r.dataPlanePort == Null && next == Dual then Failure(Validation)
      else if next == Dual && (chosen == None || !ValidDataPlanePort(chosen.value)) then Failure(Validation)
      else if next == Tcp && chosen != None then Failure(Validation)
      else Success(row.(ingressType := next, dataPlanePort := chosen))
  }

  /** Its transaction: unlike PUT, a null sandbox port is released on `http` too. */
  function ToolWrites(p: Platform, blocked: set<int>, a: AppId, updated: AppRow, r: Request)
    : (done: Result<Platform, IngressError>)
    requires a in p.apps
    ensures done.Success? ==> done.value.apps.Keys == p.apps.Keys
  {
    var written := p.(apps := p.apps[a := updated]);
    match if updated.ingressType != Http then AssignPorts(written, blocked, a, r)
          else if r.sandboxPublicPort == Null then Success(ReleasePort(written, a, Sandbox))
          else Success(written)
    case Failure(error) => Failure(error)
    case Success(q) => Success(q.(log := p.log + [Entry(a, ViewOf(p.apps[a]), ViewOf(q.apps[a]))]))
  }

  /** The whole tool call: refused, or written with exactly one audit entry, changed or not. */
  function SetAppIngress(p: Platform, blocked: set<int>, a: AppId, platformAdmin: bool, r: Request)
    : (done: Result<Platform, IngressError>)
    requires a in p.apps
    ensures done.Success? ==> done.value.apps.Keys == p.apps.Keys
  {
    if !platformAdmin then Failure(Forbidden)
    else
      match ToolUpdate(p.apps[a], r)
      case Failure(error) => Failure(error)
      case Success(updated) => ToolWrites(p, blocked, a, updated, r)
  }
}
