/**
 The host-port ingress protocol as a transition system over any number of apps:
 edits, the two halves of a container start, stops, deployment status changes,
 app creation and deletion. What holds after every run, what holds only under a
 condition the caller can check, and the runs that show the condition is needed.
 */
module IngressProtocol {
  import opened Wrappers
  import opened Ingress

  /**
   `Begin` stops the old container and reads the publish from the row; `Finish`
   is `docker run` returning and the release that follows it. Other requests can
   run in between because `docker run` is awaited. `Delete` says whether the
   containers were really removed: stopApp swallows docker errors.
   */
  datatype Step =
    | Edit(app: AppId, admin: bool, request: Request, blocked: set<int>)
    | ToolEdit(app: AppId, admin: bool, request: Request, blocked: set<int>)
    | Begin(app: AppId, env: Env)
    | Finish(app: AppId, env: Env)
    | Stop(app: AppId, env: Env)
    | MarkLive(app: AppId, env: Env)
    | UnmarkLive(app: AppId, env: Env)
    | Create
    | Delete(app: AppId, removed: bool)

  function BeginStart(p: Platform, a: AppId, e: Env): Platform
    requires a in p.apps
  {
    p.(bound := p.bound - {(a, e)}, starting := p.starting[(a, e) := PublicPort(p.apps[a], e)])
  }

  /** `docker run` returned: the container now binds `published`, and nothing is released yet. */
  function Started(p: Platform, x: (AppId, Env), published: Option<int>): Platform {
    p.(starting := p.starting - {x},
       bound := if published.None? then p.bound - {x} else p.bound[x := published.value])
  }

  /** `docker run` refuses a host port another container binds; then nothing is released. */
  function FinishStart(p: Platform, a: AppId, e: Env): Platform
    requires (a, e) in p.starting
  {
    var published := p.starting[(a, e)];
    if published.Some? && published.value in p.bound.Values then p.(starting := p.starting - {(a, e)})
    else ReleaseAfterRecreate(Started(p, (a, e), published), a, e)
  }

  function DeleteApp(p: Platform, a: AppId, removed: bool): Platform {
    p.(apps := p.apps - {a},
       ports := (map q | q in p.ports && p.ports[q].app != a :: p.ports[q]),
       live := (set x | x in p.live && x.0 != a),
       bound := if removed then p.bound - {(a, Production), (a, Sandbox)} else p.bound,
       log := WithoutApp(p.log, a))
  }

  function WithoutApp(log: seq<Entry>, a: AppId): seq<Entry> {
    if log == [] then []
    else
      var kept := WithoutApp(log[..|log| - 1], a);
      if log[|log| - 1].app == a then kept else kept + [log[|log| - 1]]
  }

  function Next(p: Platform, step: Step): Platform {
    match step
    case Edit(a, admin, r, blocked) =>
      if a !in p.apps then p
      else
        (match Put(p, blocked, a, admin, r)
         case Success(q) => q
         case Failure(_) => p)
    case ToolEdit(a, admin, r, blocked) =>
      if a !in p.apps then p
      else
        (match SetAppIngress(p, blocked, a, admin, r)
         case Success(q) => q
         case Failure(_) => p)
    case Begin(a, e) => if a in p.apps then BeginStart(p, a, e) else p
    case Finish(a, e) => if (a, e) in p.starting then FinishStart(p, a, e) else p
    case Stop(a, e) => p.(bound := p.bound - {(a, e)})
    case MarkLive(a, e) => p.(live := p.live + {(a, e)})
    case UnmarkLive(a, e) => p.(live := p.live - {(a, e)})
    case Create => p.(nextId := p.nextId + 1, apps := p.apps[p.nextId := NEW_ROW])
    case Delete(a, removed) => DeleteApp(p, a, removed)
  }

  function Run(p: Platform, steps: seq<Step>): Platform
    decreases |steps|
  {
    if steps == [] then p else Run(Next(p, steps[0]), steps[1..])
  }

  // ---- what every reachable state keeps --------------------------------------

  /** Registry and columns agree, and every held row belongs to an app that has a column for it. */
  ghost predicate RegistryAgrees(p: Platform) {
    && (forall a, e, n :: a in p.apps && Column(p.apps[a], e) == Some(n) ==>
      n in p.ports && p.ports[n] == Reservation(a, e, Pinned))
    && (forall n :: n in p.ports ==>
          var r := p.ports[n];
          r.app in p.apps && Column(p.apps[r.app], r.env).Some? &&
            (r.state == Pinned ==> Column(p.apps[r.app], r.env) == Some(n)))
  }

  ghost predicate RowOk(row: AppRow) {
    && (row.ingressType == Tcp ==> row.dataPlanePort == None)
    && (row.ingressType == Dual ==> row.dataPlanePort.Some?)
    && (row.dataPlanePort.Some? ==> ValidDataPlanePort(row.dataPlanePort.value))
    && (row.ingressType != Http ==> row.publicPort.Some?)
  }

  ghost predicate Inv(p: Platform) {
    && RegistryAgrees(p)
    && (forall a :: a in p.apps ==> RowOk(p.apps[a]) && a < p.nextId)
    && (forall x :: x in p.starting ==> x !in p.bound)
  }

  // ---- safety ----------------------------------------------------------------

  /** Every host port a running container binds is reserved to exactly that app and environment. */
  ghost predicate Safe(p: Platform) {
    forall x :: x in p.bound ==>
      p.bound[x] in p.ports && p.ports[p.bound[x]].app == x.0 && p.ports[p.bound[x]].env == x.1
  }

  /** A named number that replaces a bound one without a live deployment to say so. */
  ghost predicate ForgetsBound(p: Platform, a: AppId, e: Env, requested: PortField) {
    && a in p.apps
    && requested.Number?
    && Column(p.apps[a], e).Some? && Column(p.apps[a], e).value != requested.n
    && (a, e) !in p.live
    && (a, e) in p.bound && p.bound[(a, e)] == Column(p.apps[a], e).value
  }

  /** What a caller has to check before a step. */
  ghost predicate Guard(p: Platform, step: Step) {
    match step
    case Edit(a, admin, r, blocked) =>
      a in p.apps && EngagesIngress(p.apps[a], r) && NextType(p.apps[a], r) != Http
      && Put(p, blocked, a, admin, r).Success? ==>
        && !ForgetsBound(p, a, Production, r.publicPort)
        && !ForgetsBound(p, a, Sandbox, r.sandboxPublicPort)
        && (r.sandboxPublicPort == Null ==> (a, Sandbox) !in p.bound)
    case ToolEdit(a, admin, r, blocked) =>
      a in p.apps && SetAppIngress(p, blocked, a, admin, r).Success? ==>
        && (NextType(p.apps[a], r) != Http ==>
              !ForgetsBound(p, a, Production, r.publicPort) && !ForgetsBound(p, a, Sandbox, r.sandboxPublicPort))
        && (r.sandboxPublicPort == Null ==> (a, Sandbox) !in p.bound)
    case Finish(a, e) =>
      (a, e) in p.starting && p.starting[(a, e)].Some? && p.starting[(a, e)].value !in p.bound.Values ==>
        a in p.apps && Column(p.apps[a], e) == p.starting[(a, e)] && !(e == Production && p.apps[a].ingressType == Http)
    case Delete(a, removed) =>
      removed || ((a, Production) !in p.bound && (a, Sandbox) !in p.bound)
    case _ => true
  }

  // ---- one assignment ----------------------------------------------------------

  /** The held number is dropped from the registry by this assignment. */
  ghost predicate Forgets(p: Platform, a: AppId, e: Env, requested: PortField)
    requires a in p.apps
  {
    && requested.Number?
    && Column(p.apps[a], e).Some? && Column(p.apps[a], e).value != requested.n
    && (a, e) !in p.live
  }

  lemma ClaimKeeps(p: Platform, a: AppId, e: Env, n: int, q: Platform)
    requires a in p.apps && Claim(p, a, e, n) == Success(q)
    requires forall b, f, m :: b in p.apps && Column(p.apps[b], f) == Some(m) && (b, f) != (a, e) ==>
      m in p.ports && p.ports[m] == Reservation(b, f, Pinned)
    requires forall m :: m in p.ports ==>
               var r := p.ports[m];
               r.app in p.apps && Column(p.apps[r.app], r.env).Some? &&
               (r.state == Pinned && (r.app, r.env) != (a, e) ==> Column(p.apps[r.app], r.env) == Some(m))
    ensures RegistryAgrees(q)
    ensures q == p.(apps := q.apps, ports := q.ports)
    ensures q.apps == p.apps[a := WithColumn(p.apps[a], e, Some(n))]
    ensures forall m :: m in q.ports <==> m == n || (m in p.ports && p.ports[m] != Reservation(a, e, Pinned))
    ensures forall m :: m in q.ports ==> q.ports[m] == if m == n then Reservation(a, e, Pinned) else p.ports[m]
  {
    forall b, f, m | b in q.apps && Column(q.apps[b], f) == Some(m)
      ensures m in q.ports && q.ports[m] == Reservation(b, f, Pinned)
    {
      if (b, f) != (a, e) { assert Column(p.apps[b], f) == Some(m); }
    }
  }

  /** Keeps, for every number of `p` that is not `lost`, its owner. */
  ghost predicate KeepsOwners(p: Platform, q: Platform, lost: Option<int>) {
    forall m :: m in p.ports && lost != Some(m) ==>
      m in q.ports && q.ports[m].app == p.ports[m].app && q.ports[m].env == p.ports[m].env
  }

  /** The held number this assignment drops from the registry, if any. */
  ghost function Lost(p: Platform, a: AppId, e: Env, requested: PortField): Option<int>
    requires a in p.apps
  {
    if Forgets(p, a, e, requested) then Column(p.apps[a], e) else None
  }

  lemma DrainEffect(p: Platform, a: AppId, e: Env, h: int)
    requires h in p.ports && p.ports[h] == Reservation(a, e, Pinned)
    requires forall m :: m in p.ports && p.ports[m] == Reservation(a, e, Pinned) ==> m == h
    ensures Drain(p, a, e, h) == p.(ports := p.ports[h := Reservation(a, e, Draining)])
  {
    assert HasPinned(p, a, e);
    var drained := Drain(p, a, e, h).ports;
    assert forall m :: m in drained <==> m in p.ports[h := Reservation(a, e, Draining)];
    assert forall m :: m in p.ports ==> drained[m] == p.ports[h := Reservation(a, e, Draining)][m];
    assert drained == p.ports[h := Reservation(a, e, Draining)];
  }

  /**
   Without the invariant, in a restored backup say: a re-pin of a live app leaves the
   column's number unreserved exactly when no row holds it and another row is pinned.
   */
  lemma UnrecordedIsReserved(p: Platform, blocked: set<int>, a: AppId, e: Env, h: int, n: int, q: Platform)
    requires a in p.apps && p.apps[a].ingressType != Http && (a, e) in p.live
    requires Column(p.apps[a], e) == Some(h) && n != h && Assign(p, blocked, a, e, Number(n)) == Success(q)
    ensures h in q.ports <==> h in p.ports || !HasPinned(p, a, e)
    ensures h in q.ports && h !in p.ports ==> q.ports[h] == Reservation(a, e, Draining)
    ensures h in p.ports && p.ports[h] != Reservation(a, e, Pinned) ==> q.ports[h] == p.ports[h]
  {
    assert Claim(Drain(p, a, e, h), a, e, n) == Success(q);
  }

  // ---- which numbers are given ---------------------------------------------------

  /**
   A named number is given exactly when it is a legal one, nobody is refused it, and
   it is free or what this row pins already; otherwise the reason is the one reported.
   */
  lemma AssignableExactly(p: Platform, blocked: set<int>, a: AppId, e: Env, n: int)
    requires RegistryAgrees(p) && a in p.apps
    ensures var done := Assign(p, blocked, a, e, Number(n));
      && (done.Success? <==>
            1024 <= n <= 65535 && n !in blocked && (n in p.ports ==> p.ports[n] == Reservation(a, e, Pinned)))
      && (done == Failure(Validation) <==> n < 1024 || 65535 < n)
      && (done == Failure(PortReserved) <==> 1024 <= n <= 65535 && n in blocked)
      && (done == Failure(PortTaken) ==> n in p.ports && (p.ports[n].app, p.ports[n].env) != (a, e))
      && (done == Failure(RegistryConflict) ==> n in p.ports && p.ports[n] == Reservation(a, e, Draining))
      && (done.Failure? ==> done.error != Forbidden && done.error != NoPublicPort)
  {
    var held := Column(p.apps[a], e);
    if held.Some? {
      assert Column(p.apps[a], e) == Some(held.value);
      if held.value != n { DrainEffect(p, a, e, held.value); }
    }
  }

  /** This app and environment cannot be given the number: it is refused to everyone, or somebody else's row. */
  predicate Refused(p: Platform, blocked: set<int>, a: AppId, e: Env, n: int) {
    n in blocked || (n in p.ports && (p.ports[n].app, p.ports[n].env) != (a, e))
  }

  /** The scan skips exactly the numbers that are refused. */
  lemma {:induction false} LowestFreeIsLeast(p: Platform, blocked: set<int>, a: AppId, e: Env, from: int)
    requires 1024 <= from
    ensures match LowestFree(p, blocked, a, e, from)
      case Some(n) =>
        && from <= n <= 31999 && !Refused(p, blocked, a, e, n)
        && forall m :: from <= m < n ==> Refused(p, blocked, a, e, m)
      case None => forall m :: from <= m <= 31999 ==> Refused(p, blocked, a, e, m)
    decreases AUTO_PORT_MAX + 1 - from
  {
    if from <= AUTO_PORT_MAX && Refused(p, blocked, a, e, from) {
      LowestFreeIsLeast(p, blocked, a, e, from + 1);
    }
  }

  /**
   A number nobody named is the lowest of 31000 to 31999 that is neither refused to
   everyone nor reserved; there is none exactly when all of them are.
   */
  lemma AllocatedExactly(p: Platform, blocked: set<int>, a: AppId, e: Env, requested: PortField)
    requires RegistryAgrees(p) && a in p.apps && Column(p.apps[a], e) == None
    requires requested == Absent || requested == Null
    ensures match Assign(p, blocked, a, e, requested)
      case Failure(error) => error == NoPublicPort && forall m :: 31000 <= m <= 31999 ==> m in blocked || m in p.ports
      case Success(q) =>
        && a in q.apps && Column(q.apps[a], e).Some?
        && var n := Column(q.apps[a], e).value;
           && 31000 <= n <= 31999 && n !in blocked && n !in p.ports
           && forall m :: 31000 <= m < n ==> m in blocked || m in p.ports
  {
    LowestFreeIsLeast(p, blocked, a, e, 31000);
    assert forall m :: Refused(p, blocked, a, e, m) <==> m in blocked || m in p.ports;
  }

  lemma DrainKeeps(p: Platform, d: Platform, a: AppId, e: Env, h: int, n: int, q: Platform)
    requires a in p.apps && RegistryAgrees(p) && Column(p.apps[a], e) == Some(h) && h != n
    requires d == p.(ports := p.ports[h := Reservation(a, e, Draining)])
    requires Claim(d, a, e, n) == Success(q)
    ensures RegistryAgrees(q) && KeepsOwners(p, q, None)
    ensures q == p.(apps := q.apps, ports := q.ports)
    ensures q.apps == p.apps[a := WithColumn(p.apps[a], e, Some(n))]
  {
    ClaimKeeps(d, a, e, n, q);
  }

  /** A named number with nothing to drain: none held, the same one, or no live deployment. */
  lemma PinKeeps(p: Platform, a: AppId, e: Env, n: int, q: Platform)
    requires a in p.apps && RegistryAgrees(p) && Claim(p, a, e, n) == Success(q)
    requires Forgets(p, a, e, Number(n)) || Column(p.apps[a], e) == None || Column(p.apps[a], e) == Some(n)
    ensures RegistryAgrees(q) && KeepsOwners(p, q, Lost(p, a, e, Number(n)))
    ensures q == p.(apps := q.apps, ports := q.ports)
    ensures q.apps == p.apps[a := WithColumn(p.apps[a], e, Some(n))]
    ensures Forgets(p, a, e, Number(n)) ==> Column(p.apps[a], e).value !in q.ports
  {
    ClaimKeeps(p, a, e, n, q);
  }

  lemma RenameKeeps(p: Platform, blocked: set<int>, a: AppId, e: Env, n: int, q: Platform)
    requires a in p.apps && p.apps[a].ingressType != Http && RegistryAgrees(p)
    requires Assign(p, blocked, a, e, Number(n)) == Success(q)
    ensures RegistryAgrees(q) && KeepsOwners(p, q, Lost(p, a, e, Number(n)))
    ensures q == p.(apps := q.apps, ports := q.ports)
    ensures q.apps == p.apps[a := WithColumn(p.apps[a], e, Some(n))]
    ensures Forgets(p, a, e, Number(n)) ==> Column(p.apps[a], e).value !in q.ports
  {
    var held := Column(p.apps[a], e);
    if held != None && (a, e) in p.live && held.value != n {
      DrainEffect(p, a, e, held.value);
      DrainKeeps(p, Drain(p, a, e, held.value), a, e, held.value, n, q);
    } else {
      PinKeeps(p, a, e, n, q);
    }
  }

  lemma AllocateKeeps(p: Platform, blocked: set<int>, a: AppId, e: Env, q: Platform)
    requires a in p.apps && RegistryAgrees(p) && Column(p.apps[a], e) == None
    requires Assign(p, blocked, a, e, Absent) == Success(q)
    ensures RegistryAgrees(q) && KeepsOwners(p, q, None)
    ensures q == p.(apps := q.apps, ports := q.ports) && a in q.apps
    ensures Column(q.apps[a], e).Some? && q.apps == p.apps[a := WithColumn(p.apps[a], e, Column(q.apps[a], e))]
  {
    ClaimKeeps(p, a, e, LowestFree(p, blocked, a, e, AUTO_PORT_MIN).value, q);
  }

  lemma AssignKeeps(p: Platform, blocked: set<int>, a: AppId, e: Env, requested: PortField, q: Platform)
    requires a in p.apps && p.apps[a].ingressType != Http && RegistryAgrees(p)
    requires Assign(p, blocked, a, e, requested) == Success(q)
    ensures RegistryAgrees(q) && KeepsOwners(p, q, Lost(p, a, e, requested))
    ensures q == p.(apps := q.apps, ports := q.ports)
    ensures Column(q.apps[a], e).Some? && q.apps == p.apps[a := WithColumn(p.apps[a], e, Column(q.apps[a], e))]
    ensures requested.Number? ==> Column(q.apps[a], e) == Some(requested.n)
    ensures !requested.Number? && Column(p.apps[a], e).Some? ==> q == p
    ensures Forgets(p, a, e, requested) ==> Column(p.apps[a], e).value !in q.ports
  {
    var held := Column(p.apps[a], e);
    if requested.Number? {
      RenameKeeps(p, blocked, a, e, requested.n, q);
    } else if held == None {
      AllocateKeeps(p, blocked, a, e, q);
    } else {
      assert q.apps == p.apps[a := WithColumn(p.apps[a], e, held)];
    }
  }

  lemma ReleaseKeeps(p: Platform, a: AppId, e: Env)
    requires a in p.apps && RegistryAgrees(p)
    ensures RegistryAgrees(ReleasePort(p, a, e))
  {
    var q := ReleasePort(p, a, e);
    forall b, f, m | b in q.apps && Column(q.apps[b], f) == Some(m)
      ensures m in q.ports && q.ports[m] == Reservation(b, f, Pinned)
    {
      assert Column(p.apps[b], f) == Some(m);
    }
  }

  // ---- an accepted edit ----------------------------------------------------------

  /** What a stored port is once a field of an accepted request has been written. */
  function Asked(field: PortField, stored: Option<int>): Option<int> {
    match field case Number(n) => Some(n) case Null => None case _ => stored
  }

  ghost predicate SandboxGuard(p: Platform, a: AppId, requested: PortField) {
    && !ForgetsBound(p, a, Sandbox, requested)
    && (requested == Null ==> (a, Sandbox) !in p.bound)
  }

  lemma SandboxKeeps(p: Platform, blocked: set<int>, a: AppId, requested: PortField, q: Platform)
    requires a in p.apps && p.apps[a].ingressType != Http && RegistryAgrees(p)
    requires SandboxWork(p, blocked, a, requested) == Success(q)
    ensures RegistryAgrees(q)
    ensures q == p.(apps := q.apps, ports := q.ports) && a in q.apps
    ensures q.apps == p.apps[a := p.apps[a].(sandboxPublicPort := Asked(requested, p.apps[a].sandboxPublicPort))]
    ensures forall x :: x in p.bound && x != (a, Sandbox) && BoundSafely(p, x) ==> BoundSafely(q, x)
    ensures forall x :: x in p.bound && x != (a, Sandbox) && p.bound[x] !in p.ports ==> !BoundSafely(q, x)
    ensures (a, Sandbox) in p.bound && BoundSafely(p, (a, Sandbox)) ==>
      (BoundSafely(q, (a, Sandbox)) <==> SandboxGuard(p, a, requested))
  {
    match requested
    case Absent =>
      assert q.apps == p.apps[a := p.apps[a].(sandboxPublicPort := p.apps[a].sandboxPublicPort)];
    case Null =>
      ReleaseKeeps(p, a, Sandbox);
    case NotAnInteger =>
    case Number(n) =>
      AssignKeeps(p, blocked, a, Sandbox, requested, q);
      NewOwner(p, blocked, a, Sandbox, requested, q);
      if (a, Sandbox) in p.bound && BoundSafely(p, (a, Sandbox)) {
        if ForgetsBound(p, a, Sandbox, requested) {
          assert Forgets(p, a, Sandbox, requested);
        } else {
          var m := p.bound[(a, Sandbox)];
          assert m in p.ports && Lost(p, a, Sandbox, requested) != Some(m);
          assert m in q.ports;
        }
      }
  }

  ghost predicate BoundSafely(p: Platform, x: (AppId, Env))
    requires x in p.bound
  {
    p.bound[x] in p.ports && p.ports[p.bound[x]].app == x.0 && p.ports[p.bound[x]].env == x.1
  }

  /** A number that was free and is a row afterwards belongs to the (app, env) that asked. */
  lemma NewOwner(p: Platform, blocked: set<int>, a: AppId, e: Env, requested: PortField, q: Platform)
    requires a in p.apps && p.apps[a].ingressType != Http && RegistryAgrees(p)
    requires Assign(p, blocked, a, e, requested) == Success(q)
    ensures forall m :: m in q.ports && m !in p.ports ==> q.ports[m].app == a && q.ports[m].env == e
  {
    var held := Column(p.apps[a], e);
    if requested.Number? && held != None && (a, e) in p.live && held.value != requested.n {
      DrainEffect(p, a, e, held.value);
    }
  }

  /** The written row: the sandbox port as asked, whatever production port was assigned. */
  function PortsAsked(row: AppRow, r: Request, after: AppRow): AppRow {
    row.(publicPort := after.publicPort, sandboxPublicPort := Asked(r.sandboxPublicPort, row.sandboxPublicPort))
  }

  /** Named ports are integers, and the app has a production port afterwards: the one named, or else the one it had. */
  predicate PublicPortAsked(row: AppRow, r: Request, after: AppRow) {
    && after.publicPort.Some? && NotAnInteger !in {r.publicPort, r.sandboxPublicPort}
    && (r.publicPort.Number? ==> after.publicPort == Some(r.publicPort.n))
    && (!r.publicPort.Number? && row.publicPort.Some? ==> after.publicPort == row.publicPort)
  }

  ghost predicate PortsGuard(p: Platform, a: AppId, r: Request) {
    !ForgetsBound(p, a, Production, r.publicPort) && SandboxGuard(p, a, r.sandboxPublicPort)
  }

  lemma AssignPortsRow(p: Platform, blocked: set<int>, a: AppId, r: Request, q: Platform)
    requires a in p.apps && p.apps[a].ingressType != Http && RegistryAgrees(p)
    requires AssignPorts(p, blocked, a, r) == Success(q)
    ensures RegistryAgrees(q)
    ensures q == p.(apps := q.apps, ports := q.ports) && a in q.apps
    ensures q.apps == p.apps[a := PortsAsked(p.apps[a], r, q.apps[a])]
    ensures PublicPortAsked(p.apps[a], r, q.apps[a])
  {
    var m := Assign(p, blocked, a, Production, r.publicPort).value;
    AssignKeeps(p, blocked, a, Production, r.publicPort, m);
    SandboxKeeps(m, blocked, a, r.sandboxPublicPort, q);
  }

  lemma AssignPortsKeeps(p: Platform, blocked: set<int>, a: AppId, r: Request, q: Platform)
    requires a in p.apps && p.apps[a].ingressType != Http && RegistryAgrees(p)
    requires AssignPorts(p, blocked, a, r) == Success(q)
    ensures RegistryAgrees(q)
    ensures q == p.(apps := q.apps, ports := q.ports) && a in q.apps
    ensures q.apps == p.apps[a := PortsAsked(p.apps[a], r, q.apps[a])]
    ensures PublicPortAsked(p.apps[a], r, q.apps[a])
    ensures Safe(p) ==> (Safe(q) <==> PortsGuard(p, a, r))
  {
    AssignPortsRow(p, blocked, a, r, q);
    if Safe(p) {
      PortsSafeExactly(p, blocked, a, r, Assign(p, blocked, a, Production, r.publicPort).value, q);
    }
  }

  /** The production half leaves every other binding reserved, and its own exactly when it is not forgotten. */
  lemma ProductionKeeps(p: Platform, blocked: set<int>, a: AppId, r: Request, m: Platform)
    requires a in p.apps && p.apps[a].ingressType != Http && RegistryAgrees(p) && Safe(p)
    requires Assign(p, blocked, a, Production, r.publicPort) == Success(m)
    ensures RegistryAgrees(m) && m == p.(apps := m.apps, ports := m.ports) && a in m.apps
    ensures m.apps[a] == p.apps[a].(publicPort := m.apps[a].publicPort)
    ensures forall x :: x in p.bound && x != (a, Production) ==> BoundSafely(m, x)
    ensures (a, Production) in p.bound ==>
      if ForgetsBound(p, a, Production, r.publicPort) then p.bound[(a, Production)] !in m.ports
      else BoundSafely(m, (a, Production))
  {
    AssignKeeps(p, blocked, a, Production, r.publicPort, m);
    forall x | x in p.bound && x != (a, Production) ensures BoundSafely(m, x) {
      assert BoundSafely(p, x);
      assert Lost(p, a, Production, r.publicPort) != Some(p.bound[x]);
      assert p.bound[x] in m.ports;
    }
    if (a, Production) in p.bound {
      var n := p.bound[(a, Production)];
      assert BoundSafely(p, (a, Production));
      if ForgetsBound(p, a, Production, r.publicPort) {
        assert Forgets(p, a, Production, r.publicPort);
      } else {
        assert Lost(p, a, Production, r.publicPort) != Some(n);
        assert n in m.ports;
      }
    }
  }

  lemma PortsSafeExactly(p: Platform, blocked: set<int>, a: AppId, r: Request, m: Platform, q: Platform)
    requires a in p.apps && p.apps[a].ingressType != Http && RegistryAgrees(p) && Safe(p)
    requires Assign(p, blocked, a, Production, r.publicPort) == Success(m)
    requires SandboxWork(m, blocked, a, r.sandboxPublicPort) == Success(q)
    ensures Safe(q) <==> PortsGuard(p, a, r)
  {
    ProductionKeeps(p, blocked, a, r, m);
    SandboxKeeps(m, blocked, a, r.sandboxPublicPort, q);
    assert Safe(q) <==> forall x :: x in q.bound ==> BoundSafely(q, x);
    assert SandboxGuard(p, a, r.sandboxPublicPort) <==> SandboxGuard(m, a, r.sandboxPublicPort);
  }

  lemma CheckedUpdateRow(row: AppRow, r: Request, updated: AppRow)
    requires RowOk(row) && CheckedUpdate(row, r) == Success(updated)
    ensures updated.publicPort == row.publicPort && updated.sandboxPublicPort == row.sandboxPublicPort
    ensures updated.ingressType == NextType(row, r)
    ensures RowOk(updated.(publicPort := Some(0)))
    ensures updated.dataPlanePort == Asked(r.dataPlanePort, row.dataPlanePort)
  {
  }

  /** What a row of each type lets a request ask of it. */
  predicate Acceptable(row: AppRow, r: Request) {
    r.ingressType != Unknown &&
    match if r.ingressType.Known? then r.ingressType.t else row.ingressType
    case Http =>
      && r.publicPort == Absent && r.sandboxPublicPort in {Absent, Null} && r.dataPlanePort in {Absent, Null}
    case Tcp =>
      && r.publicPort != Null
      && (r.dataPlanePort == Null || (r.dataPlanePort == Absent && row.dataPlanePort == None))
    case Dual =>
      && r.publicPort != Null && (r.dataPlanePort.Number? || r.dataPlanePort == Absent)
      && match Asked(r.dataPlanePort, row.dataPlanePort)
         case None => false
         case Some(n) => 1024 <= n <= 65535 && n != 3000
  }

  /** The checks let exactly these requests through, and what they write is what was asked. */
  lemma AcceptedExactly(row: AppRow, r: Request)
    ensures CheckedUpdate(row, r) ==
      if !Acceptable(row, r) then Failure(Validation)
      else Success(AppRow(if r.ingressType.Known? then r.ingressType.t else row.ingressType,
                          row.publicPort, row.sandboxPublicPort, Asked(r.dataPlanePort, row.dataPlanePort)))
  {
  }

  lemma WrittenRow(p: Platform, a: AppId, r: Request, updated: AppRow, w: Platform)
    requires Inv(p) && a in p.apps && CheckedUpdate(p.apps[a], r) == Success(updated)
    requires w == p.(apps := p.apps[a := updated])
    ensures RegistryAgrees(w)
    ensures Safe(w) <==> Safe(p)
    ensures PortsGuard(w, a, r) <==> PortsGuard(p, a, r)
  {
    CheckedUpdateRow(p.apps[a], r, updated);
    forall b, e | b in w.apps ensures b in p.apps && Column(w.apps[b], e) == Column(p.apps[b], e) {}
  }

  lemma LogOnly(p: Platform, log: seq<Entry>)
    ensures RegistryAgrees(p.(log := log)) <==> RegistryAgrees(p)
    ensures Safe(p.(log := log)) <==> Safe(p)
  {
  }

  lemma RowChanged(p: Platform, a: AppId, q: Platform)
    requires Inv(p) && a in p.apps && a in q.apps && q.apps == p.apps[a := q.apps[a]]
    requires RegistryAgrees(q) && RowOk(q.apps[a])
    requires q.nextId == p.nextId && q.starting == p.starting && q.bound == p.bound
    ensures Inv(q)
  {
  }

  /** The port work on the platform whose row is already written, seen from before that write. */
  lemma PublishingPorts(p: Platform, blocked: set<int>, a: AppId, r: Request, updated: AppRow, d: Platform)
    requires Inv(p) && a in p.apps && CheckedUpdate(p.apps[a], r) == Success(updated) && updated.ingressType != Http
    requires AssignPorts(p.(apps := p.apps[a := updated]), blocked, a, r) == Success(d)
    ensures RegistryAgrees(d) && a in d.apps
    ensures d.apps == p.apps[a := PortsAsked(updated, r, d.apps[a])]
    ensures PublicPortAsked(p.apps[a], r, d.apps[a])
    ensures d == p.(apps := d.apps, ports := d.ports)
    ensures Safe(p) ==> (Safe(d) <==> PortsGuard(p, a, r))
  {
    CheckedUpdateRow(p.apps[a], r, updated);
    var w := p.(apps := p.apps[a := updated]);
    WrittenRow(p, a, r, updated, w);
    AssignPortsKeeps(w, blocked, a, r, d);
  }

  lemma PublishingEdit(p: Platform, blocked: set<int>, a: AppId, r: Request, updated: AppRow, q: Platform)
    requires Inv(p) && a in p.apps && CheckedUpdate(p.apps[a], r) == Success(updated) && updated.ingressType != Http
    requires ApplyWrites(p, blocked, a, updated, r) == Success(q)
    ensures RegistryAgrees(q) && a in q.apps
    ensures q.apps == p.apps[a := PortsAsked(updated, r, q.apps[a])]
    ensures PublicPortAsked(p.apps[a], r, q.apps[a])
    ensures q == p.(apps := q.apps, ports := q.ports, log := q.log)
    ensures Safe(p) ==> (Safe(q) <==> PortsGuard(p, a, r))
  {
    var d := AssignPorts(p.(apps := p.apps[a := updated]), blocked, a, r).value;
    PublishingPorts(p, blocked, a, r, updated, d);
    LogOnly(d, q.log);
  }

  /** What an accepted change does to the state, whatever its guard says. */
  lemma EditEffect(p: Platform, blocked: set<int>, a: AppId, updated: AppRow, r: Request, q: Platform)
    requires Inv(p) && a in p.apps && CheckedUpdate(p.apps[a], r) == Success(updated)
    requires ApplyWrites(p, blocked, a, updated, r) == Success(q)
    ensures Inv(q) && a in q.apps && q.apps == p.apps[a := q.apps[a]]
    ensures q == p.(apps := q.apps, ports := q.ports, log := p.log + [Entry(a, ViewOf(p.apps[a]), ViewOf(q.apps[a]))])
    ensures q.apps[a].ingressType == NextType(p.apps[a], r)
    ensures q.apps[a].dataPlanePort == Asked(r.dataPlanePort, p.apps[a].dataPlanePort)
    ensures updated.ingressType != Http ==>
      && PublicPortAsked(p.apps[a], r, q.apps[a])
      && q.apps[a].sandboxPublicPort == Asked(r.sandboxPublicPort, p.apps[a].sandboxPublicPort)
    ensures updated.ingressType == Http ==> q.ports == p.ports && q.apps[a] == updated
    ensures Safe(p) ==> (Safe(q) <==> (NextType(p.apps[a], r) == Http || PortsGuard(p, a, r)))
  {
    CheckedUpdateRow(p.apps[a], r, updated);
    if updated.ingressType != Http {
      PublishingEdit(p, blocked, a, r, updated, q);
    } else {
      var w := p.(apps := p.apps[a := updated]);
      WrittenRow(p, a, r, updated, w);
      LogOnly(w, q.log);
    }
    RowChanged(p, a, q);
  }

  lemma EditKeeps(p: Platform, step: Step)
    requires step.Edit? && Inv(p)
    ensures Inv(Next(p, step))
    ensures Safe(p) ==> (Safe(Next(p, step)) <==> Guard(p, step))
  {
    var a, r := step.app, step.request;
    if a in p.apps && EngagesIngress(p.apps[a], r) && Put(p, step.blocked, a, step.admin, r).Success? {
      EditEffect(p, step.blocked, a, CheckedUpdate(p.apps[a], r).value, r, Next(p, step));
    }
  }

  // ---- an accepted tool call -------------------------------------------------------

  /** The request PUT would be given: the tool reads a null public port as an absent one. */
  function AsPut(r: Request): Request {
    if r.publicPort == Null then r.(publicPort := Absent) else r
  }

  /** The tool needs a type, and refuses any public port on `http`; otherwise it checks what PUT checks. */
  lemma ToolUpdateIsChecked(row: AppRow, r: Request)
    ensures ToolUpdate(row, r) ==
      if r.ingressType.Known? && !(r.publicPort == Null && r.ingressType.t == Http) then CheckedUpdate(row, AsPut(r))
      else Failure(Validation)
  {
  }

  /** Short of a sandbox port dropped on `http`, the tool writes what PUT writes. */
  lemma ToolWritesAsPut(p: Platform, blocked: set<int>, a: AppId, updated: AppRow, r: Request)
    requires a in p.apps && (updated.ingressType != Http || r.sandboxPublicPort != Null)
    ensures ToolWrites(p, blocked, a, updated, r) == ApplyWrites(p, blocked, a, updated, AsPut(r))
  {
  }

  lemma SandboxReleaseSafeExactly(p: Platform, a: AppId)
    requires a in p.apps && RegistryAgrees(p)
    ensures RegistryAgrees(ReleasePort(p, a, Sandbox))
    ensures Safe(p) ==> (Safe(ReleasePort(p, a, Sandbox)) <==> (a, Sandbox) !in p.bound)
  {
    var q := ReleasePort(p, a, Sandbox);
    ReleaseKeeps(p, a, Sandbox);
    if Safe(p) && (a, Sandbox) in p.bound {
      assert BoundSafely(p, (a, Sandbox)) && p.bound[(a, Sandbox)] !in q.ports;
    }
    if Safe(p) && (a, Sandbox) !in p.bound {
      forall x | x in q.bound ensures BoundSafely(q, x) { assert BoundSafely(p, x); }
    }
  }

  lemma ToolDropsSandbox(p: Platform, blocked: set<int>, a: AppId, updated: AppRow, r: Request, q: Platform)
    requires Inv(p) && a in p.apps && CheckedUpdate(p.apps[a], AsPut(r)) == Success(updated)
    requires updated.ingressType == Http && r.sandboxPublicPort == Null
    requires ToolWrites(p, blocked, a, updated, r) == Success(q)
    ensures Inv(q) && a in q.apps && q.apps == p.apps[a := updated.(sandboxPublicPort := None)]
    ensures q == p.(apps := q.apps, ports := q.ports, log := p.log + [Entry(a, ViewOf(p.apps[a]), ViewOf(q.apps[a]))])
    ensures Safe(p) ==> (Safe(q) <==> (a, Sandbox) !in p.bound)
  {
    CheckedUpdateRow(p.apps[a], AsPut(r), updated);
    var w := p.(apps := p.apps[a := updated]);
    WrittenRow(p, a, AsPut(r), updated, w);
    SandboxReleaseSafeExactly(w, a);
    LogOnly(ReleasePort(w, a, Sandbox), q.log);
    RowChanged(p, a, q);
  }

  /** What an accepted tool call does to the state, whatever its guard says. */
  lemma ToolEffect(p: Platform, blocked: set<int>, a: AppId, r: Request, q: Platform)
    requires Inv(p) && a in p.apps && SetAppIngress(p, blocked, a, true, r) == Success(q)
    ensures Inv(q) && a in q.apps && q.apps == p.apps[a := q.apps[a]]
    ensures q == p.(apps := q.apps, ports := q.ports, log := p.log + [Entry(a, ViewOf(p.apps[a]), ViewOf(q.apps[a]))])
    ensures q.apps[a].ingressType == NextType(p.apps[a], r)
    ensures q.apps[a].dataPlanePort == Asked(r.dataPlanePort, p.apps[a].dataPlanePort)
    ensures q.apps[a].sandboxPublicPort == Asked(r.sandboxPublicPort, p.apps[a].sandboxPublicPort)
    ensures q.apps[a].ingressType != Http ==> PublicPortAsked(p.apps[a], r, q.apps[a])
    ensures Safe(p) ==>
      (Safe(q) <==> if NextType(p.apps[a], r) == Http then r.sandboxPublicPort == Null ==> (a, Sandbox) !in p.bound
                    else PortsGuard(p, a, r))
  {
    var updated := ToolUpdate(p.apps[a], r).value;
    ToolUpdateIsChecked(p.apps[a], r);
    CheckedUpdateRow(p.apps[a], AsPut(r), updated);
    if updated.ingressType == Http && r.sandboxPublicPort == Null {
      ToolDropsSandbox(p, blocked, a, updated, r, q);
    } else {
      ToolWritesAsPut(p, blocked, a, updated, r);
      EditEffect(p, blocked, a, updated, AsPut(r), q);
    }
  }

  lemma ToolEditKeeps(p: Platform, step: Step)
    requires step.ToolEdit? && Inv(p)
    ensures Inv(Next(p, step))
    ensures Safe(p) ==> (Safe(Next(p, step)) <==> Guard(p, step))
  {
    var a, r := step.app, step.request;
    if a in p.apps && SetAppIngress(p, step.blocked, a, step.admin, r).Success? {
      ToolEffect(p, step.blocked, a, r, Next(p, step));
    }
  }

  // ---- containers and apps --------------------------------------------------------

  lemma DropDrainingKeeps(p: Platform, a: AppId, e: Env, q: Platform)
    requires Inv(p) && q == p.(ports := map n | n in p.ports && p.ports[n] != Reservation(a, e, Draining) :: p.ports[n])
    ensures Inv(q)
  {
    assert RegistryAgrees(q);
  }

  lemma ReleaseAfterRecreateKeeps(p: Platform, a: AppId, e: Env)
    requires Inv(p)
    ensures Inv(ReleaseAfterRecreate(p, a, e))
    ensures forall n :: n in p.ports ==>
      (n in ReleaseAfterRecreate(p, a, e).ports <==>
        !(p.ports[n].app == a && p.ports[n].env == e &&
          (p.ports[n].state == Draining || (e == Production && p.apps[a].ingressType == Http))))
    ensures forall n :: n in ReleaseAfterRecreate(p, a, e).ports ==>
      n in p.ports && ReleaseAfterRecreate(p, a, e).ports[n] == p.ports[n]
  {
    if a in p.apps {
      var q := p.(ports := map n | n in p.ports && p.ports[n] != Reservation(a, e, Draining) :: p.ports[n]);
      DropDrainingKeeps(p, a, e, q);
      if e == Production && PendingPortRelease(p.apps[a]) != None { ReleaseKeeps(q, a, Production); }
    }
  }

  lemma StartedKeeps(p: Platform, x: (AppId, Env), published: Option<int>)
    requires Inv(p)
    ensures Inv(Started(p, x, published))
  {
    var q := Started(p, x, published);
    assert RegistryAgrees(q);
  }

  /** After the release, a number is still reserved to (a, e) exactly when the row still pins it. */
  lemma StillReserved(p: Platform, a: AppId, e: Env, n: int)
    requires Inv(p)
    ensures var q := ReleaseAfterRecreate(p, a, e);
      (n in q.ports && q.ports[n].app == a && q.ports[n].env == e) <==>
      (a in p.apps && Column(p.apps[a], e) == Some(n) && !(e == Production && p.apps[a].ingressType == Http))
  {
    ReleaseAfterRecreateKeeps(p, a, e);
    if a in p.apps && Column(p.apps[a], e) == Some(n) { assert p.ports[n] == Reservation(a, e, Pinned); }
  }

  lemma OthersStaySafe(p: Platform, a: AppId, e: Env)
    requires Inv(p)
    requires forall x :: x in p.bound && x != (a, e) ==> BoundSafely(p, x)
    ensures var q := ReleaseAfterRecreate(p, a, e);
      q.bound == p.bound && forall x :: x in p.bound && x != (a, e) ==> BoundSafely(q, x)
  {
    ReleaseAfterRecreateKeeps(p, a, e);
    forall x | x in p.bound && x != (a, e) ensures BoundSafely(ReleaseAfterRecreate(p, a, e), x) {
      assert BoundSafely(p, x);
    }
  }

  lemma FinishSafeExactly(p: Platform, a: AppId, e: Env, published: Option<int>)
    requires Inv(p) && Safe(p) && (a, e) !in p.bound
    ensures Safe(ReleaseAfterRecreate(Started(p, (a, e), published), a, e)) <==>
      (published.Some? ==>
        a in p.apps && Column(p.apps[a], e) == published && !(e == Production && p.apps[a].ingressType == Http))
  {
    var ran := Started(p, (a, e), published);
    StartedKeeps(p, (a, e), published);
    forall x | x in ran.bound && x != (a, e) ensures BoundSafely(ran, x) { assert BoundSafely(p, x); }
    OthersStaySafe(ran, a, e);
    if published.Some? {
      StillReserved(ran, a, e, published.value);
      assert ran.bound[(a, e)] == published.value;
    }
  }

  lemma FinishKeeps(p: Platform, a: AppId, e: Env)
    requires Inv(p) && (a, e) in p.starting
    ensures Inv(FinishStart(p, a, e))
    ensures Safe(p) ==> (Safe(FinishStart(p, a, e)) <==> Guard(p, Finish(a, e)))
  {
    var published := p.starting[(a, e)];
    if published.Some? && published.value in p.bound.Values {
      var idle := p.(starting := p.starting - {(a, e)});
      assert RegistryAgrees(idle) && (Safe(idle) <==> Safe(p));
    } else {
      StartedKeeps(p, (a, e), published);
      ReleaseAfterRecreateKeeps(Started(p, (a, e), published), a, e);
      if Safe(p) { FinishSafeExactly(p, a, e, published); }
    }
  }

  lemma DeleteKeepsInv(p: Platform, a: AppId, removed: bool)
    requires Inv(p)
    ensures Inv(DeleteApp(p, a, removed))
  {
    var q := DeleteApp(p, a, removed);
    forall b, e, n | b in q.apps && Column(q.apps[b], e) == Some(n)
      ensures n in q.ports && q.ports[n] == Reservation(b, e, Pinned)
    {
      assert b in p.apps && Column(p.apps[b], e) == Some(n);
    }
    assert RegistryAgrees(q);
  }

  lemma DeleteSafeExactly(p: Platform, a: AppId, removed: bool)
    requires Inv(p) && Safe(p)
    ensures Safe(DeleteApp(p, a, removed)) <==> Guard(p, Delete(a, removed))
  {
    var q := DeleteApp(p, a, removed);
    if e: Env :| !removed && (a, e) in p.bound {
      assert BoundSafely(p, (a, e)) && (a, e) in q.bound && !BoundSafely(q, (a, e));
    } else {
      forall x | x in q.bound ensures BoundSafely(q, x) {
        assert BoundSafely(p, x);
        assert x == (x.0, Production) || x == (x.0, Sandbox);
      }
    }
  }

  lemma DeleteKeeps(p: Platform, a: AppId, removed: bool)
    requires Inv(p)
    ensures Inv(DeleteApp(p, a, removed))
    ensures Safe(p) ==> (Safe(DeleteApp(p, a, removed)) <==> Guard(p, Delete(a, removed)))
  {
    DeleteKeepsInv(p, a, removed);
    if Safe(p) { DeleteSafeExactly(p, a, removed); }
  }

  /** One step: the invariant always survives, and safety survives exactly when the guard holds. */
  lemma StepKeeps(p: Platform, step: Step)
    requires Inv(p)
    ensures Inv(Next(p, step))
    ensures Safe(p) ==> (Safe(Next(p, step)) <==> Guard(p, step))
  {
    match step
    case Edit(_, _, _, _) => EditKeeps(p, step);
    case ToolEdit(_, _, _, _) => ToolEditKeeps(p, step);
    case Finish(a, e) => if (a, e) in p.starting { FinishKeeps(p, a, e); }
    case Delete(a, removed) => DeleteKeeps(p, a, removed);
    case Create => CreateKeeps(p);
    case _ =>
  }

  lemma CreateKeeps(p: Platform)
    requires Inv(p)
    ensures Inv(Next(p, Create)) && (Safe(p) <==> Safe(Next(p, Create)))
  {
    var q := Next(p, Create);
    forall b, e, n | b in q.apps && Column(q.apps[b], e) == Some(n)
      ensures n in q.ports && q.ports[n] == Reservation(b, e, Pinned)
    {
      assert b in p.apps && Column(p.apps[b], e) == Some(n);
    }
  }

  // ---- whole runs -----------------------------------------------------------------

  /** Every step's guard holds in the state it is taken in. */
  ghost predicate Guarded(p: Platform, steps: seq<Step>)
    decreases |steps|
  {
    steps == [] || (Guard(p, steps[0]) && Guarded(Next(p, steps[0]), steps[1..]))
  }

  ghost predicate SafeThroughout(p: Platform, steps: seq<Step>)
    decreases |steps|
  {
    Safe(p) && (steps == [] || SafeThroughout(Next(p, steps[0]), steps[1..]))
  }

  lemma {:induction false} RunKeepsInv(p: Platform, steps: seq<Step>)
    requires Inv(p)
    ensures Inv(Run(p, steps))
    decreases |steps|
  {
    if steps != [] {
      StepKeeps(p, steps[0]);
      RunKeepsInv(Next(p, steps[0]), steps[1..]);
    }
  }

  /** Over every run from a safe state: never an unreserved binding if and only if every guard was met. */
  lemma {:induction false} SafeExactlyWhenGuarded(p: Platform, steps: seq<Step>)
    requires Inv(p) && Safe(p)
    ensures SafeThroughout(p, steps) <==> Guarded(p, steps)
    ensures Guarded(p, steps) ==> Safe(Run(p, steps))
    decreases |steps|
  {
    if steps != [] {
      StepKeeps(p, steps[0]);
      if Guard(p, steps[0]) { SafeExactlyWhenGuarded(Next(p, steps[0]), steps[1..]); }
    }
  }

  /** No two containers bind one host port, and a bound number is pinned by nobody else. */
  lemma SafeIsExclusive(p: Platform)
    requires Inv(p) && Safe(p)
    ensures forall x, y :: x in p.bound && y in p.bound && p.bound[x] == p.bound[y] ==> x == y
    ensures forall x, b, e :: x in p.bound && b in p.apps && Column(p.apps[b], e) == Some(p.bound[x]) ==> x == (b, e)
  {
    forall x, y | x in p.bound && y in p.bound && p.bound[x] == p.bound[y] ensures x == y {
      assert BoundSafely(p, x) && BoundSafely(p, y);
    }
    forall x, b, e | x in p.bound && b in p.apps && Column(p.apps[b], e) == Some(p.bound[x]) ensures x == (b, e) {
      assert BoundSafely(p, x) && p.ports[p.bound[x]] == Reservation(b, e, Pinned);
    }
  }

  /** A start whose row still says what it read never dies with "port is already allocated". */
  lemma StartNeverCollides(p: Platform, a: AppId, e: Env)
    requires Inv(p) && Safe(p) && a in p.apps && (a, e) in p.starting
    requires p.starting[(a, e)].Some? && Column(p.apps[a], e) == p.starting[(a, e)]
    ensures p.starting[(a, e)].value !in p.bound.Values
  {
    var port := p.starting[(a, e)].value;
    if port in p.bound.Values {
      var x :| x in p.bound && p.bound[x] == port;
      SafeIsExclusive(p);
    }
  }

  lemma ReleaseLeavesNoneDraining(p: Platform, a: AppId, e: Env)
    requires Inv(p)
    ensures var q := ReleaseAfterRecreate(p, a, e);
      Inv(q) && q.bound == p.bound && forall n :: n in q.ports ==> q.ports[n] != Reservation(a, e, Draining)
  {
    ReleaseAfterRecreateKeeps(p, a, e);
    assert ReleaseAfterRecreate(p, a, e).bound == p.bound;
  }

  lemma FinishesAsRead(p: Platform, a: AppId, e: Env)
    requires Inv(p) && Safe(p) && a in p.apps && (a, e) in p.starting
    requires p.starting[(a, e)] == PublicPort(p.apps[a], e)
    ensures var q := FinishStart(p, a, e);
      && Inv(q) && Safe(q) && (forall n :: n in q.ports ==> q.ports[n] != Reservation(a, e, Draining))
      && q.bound == Started(p, (a, e), PublicPort(p.apps[a], e)).bound
  {
    var ran := Started(p, (a, e), p.starting[(a, e)]);
    if p.starting[(a, e)].Some? { StartNeverCollides(p, a, e); }
    FinishSafeExactly(p, a, e, p.starting[(a, e)]);
    StartedKeeps(p, (a, e), p.starting[(a, e)]);
    ReleaseLeavesNoneDraining(ran, a, e);
  }

  /**
   A start that nothing interrupts binds exactly the publish of its row, meets no
   allocated port, leaves nothing of its environment draining and keeps safety.
   */
  lemma UninterruptedStart(p: Platform, a: AppId, e: Env)
    requires Inv(p) && Safe(p) && a in p.apps
    ensures var q := Next(Next(p, Begin(a, e)), Finish(a, e));
      && Inv(q) && Safe(q) && (forall n :: n in q.ports ==> q.ports[n] != Reservation(a, e, Draining))
      && match PublicPort(p.apps[a], e)
         case None => q.bound == p.bound - {(a, e)}
         case Some(n) => q.bound == p.bound[(a, e) := n]
  {
    var begun := BeginStart(p, a, e);
    StepKeeps(p, Begin(a, e));
    FinishesAsRead(begun, a, e);
    assert begun.bound == p.bound - {(a, e)};
  }

  /** An app whose containers were stopped first can be deleted safely, whatever became of their removal. */
  lemma StopThenDelete(p: Platform, a: AppId, removed: bool)
    requires Inv(p) && Safe(p)
    ensures var q := Next(Next(Next(p, Stop(a, Production)), Stop(a, Sandbox)), Delete(a, removed));
      Safe(q) && forall x :: x in q.bound <==> x in p.bound && x.0 != a
  {
    var p1 := Next(p, Stop(a, Production));
    var p2 := Next(p1, Stop(a, Sandbox));
    StepKeeps(p, Stop(a, Production));
    StepKeeps(p1, Stop(a, Sandbox));
    StepKeeps(p2, Delete(a, removed));
    forall x: (AppId, Env) | x.0 == a ensures x == (a, Production) || x == (a, Sandbox) {
      match x.1 case Production => case Sandbox =>
    }
  }

  lemma {:induction false} WithoutAppMembers(log: seq<Entry>, a: AppId)
    ensures forall x :: x in WithoutApp(log, a) <==> x in log && x.app != a
  {
    if log != [] {
      WithoutAppMembers(log[..|log| - 1], a);
      assert log == log[..|log| - 1] + [log[|log| - 1]];
    }
  }

  /** A delete takes every row, reservation, live mark and audit entry of its app, and nobody else's. */
  lemma DeletedLeavesNothing(p: Platform, a: AppId, removed: bool)
    ensures var q := DeleteApp(p, a, removed);
      && q.apps.Keys == p.apps.Keys - {a} && (forall b :: b in q.apps ==> q.apps[b] == p.apps[b])
      && (forall n :: n in q.ports <==> n in p.ports && p.ports[n].app != a)
      && (forall n :: n in q.ports ==> q.ports[n] == p.ports[n])
      && (forall x :: x in q.live <==> x in p.live && x.0 != a)
      && (forall x :: x in q.log <==> x in p.log && x.app != a)
  {
    WithoutAppMembers(p.log, a);
  }
}
