/**
 The ingress tables as the server changes them: rows and reservations are
 overwritten statement by statement, and a statement that throws rolls its
 transaction back. Every method is proved equal to its function in Ingress.
 */
module IngressStore {
  import opened Wrappers
  import opened Ingress

  class Store {
    var nextId: AppId
    var apps: map<AppId, AppRow>
    var ports: map<int, Reservation>
    var live: set<(AppId, Env)>
    var bound: map<(AppId, Env), int>
    var starting: map<(AppId, Env), Option<int>>
    var log: seq<Entry>

    function State(): Platform
      reads this
    {
      Platform(nextId, apps, ports, live, bound, starting, log)
    }

    method AllocatePublicPort(blocked: set<int>, a: AppId, e: Env) returns (found: Option<int>)
      ensures found == LowestFree(State(), blocked, a, e, AUTO_PORT_MIN)
    {
      var port := AUTO_PORT_MIN;
      while port <= AUTO_PORT_MAX
        invariant AUTO_PORT_MIN <= port <= AUTO_PORT_MAX + 1
        invariant LowestFree(State(), blocked, a, e, AUTO_PORT_MIN) == LowestFree(State(), blocked, a, e, port)
      {
        if CheckAssignable(State(), blocked, port, a, e).Success? { return Some(port); }
        port := port + 1;
      }
      return None;
    }

    /** DELETE the pinned row, INSERT the new one (which may hit the primary key), UPDATE the column. */
    method Claim(a: AppId, e: Env, port: int) returns (ok: bool)
      requires a in apps
      modifies this`ports, this`apps
      ensures ok == Ingress.Claim(old(State()), a, e, port).Success?
      ensures ok ==> State() == Ingress.Claim(old(State()), a, e, port).value
      ensures apps.Keys == old(apps.Keys)
    {
      ports := map q | q in ports && ports[q] != Reservation(a, e, Pinned) :: ports[q];
      if port in ports { return false; }
      ports := ports[port := Reservation(a, e, Pinned)];
      apps := apps[a := WithColumn(apps[a], e, Some(port))];
      return true;
    }

    method AssignPublicPort(blocked: set<int>, a: AppId, e: Env, requested: PortField)
      returns (error: Option<IngressError>)
      requires a in apps
      modifies this`ports, this`apps
      ensures error ==
        match Assign(old(State()), blocked, a, e, requested) case Success(_) => None case Failure(x) => Some(x)
      ensures State() ==
        match Assign(old(State()), blocked, a, e, requested) case Success(q) => q case Failure(_) => old(State())
    {
      var savedPorts, savedApps := ports, apps;
      var held := Column(apps[a], e);
      if requested == Absent || requested == Null {
        if held != None { return None; }
        var found := AllocatePublicPort(blocked, a, e);
        if found == None { return Some(NoPublicPort); }
        var ok := Claim(a, e, found.value);
        if !ok {
          ports, apps := savedPorts, savedApps;
          return Some(RegistryConflict);
        }
        return None;
      }
      var published := held != None && apps[a].ingressType != Http && (a, e) in live;
      if published && requested != Number(held.value) {
        ports := Drain(State(), a, e, held.value).ports;
      }
      if requested == NotAnInteger {
        ports := savedPorts;
        return Some(Validation);
      }
      var check := CheckAssignable(State(), blocked, requested.n, a, e);
      if check.Failure? {
        ports := savedPorts;
        return Some(check.error);
      }
      var ok := Claim(a, e, requested.n);
      if !ok {
        ports, apps := savedPorts, savedApps;
        return Some(RegistryConflict);
      }
      return None;
    }

    method ReleasePublicPort(a: AppId, e: Env)
      requires a in apps
      modifies this`ports, this`apps
      ensures State() == ReleasePort(old(State()), a, e)
    {
      ports := map q | q in ports && !(ports[q].app == a && ports[q].env == e) :: ports[q];
      apps := apps[a := WithColumn(apps[a], e, None)];
    }

    method ReleasePendingPortAfterRecreate(a: AppId, e: Env)
      modifies this`ports, this`apps
      ensures State() == ReleaseAfterRecreate(old(State()), a, e)
    {
      if a !in apps { return; }
      ports := map n | n in ports && ports[n] != Reservation(a, e, Draining) :: ports[n];
      if e == Production {
        var pending := PendingPortRelease(apps[a]);
        if pending != None { ReleasePublicPort(a, Production); }
      }
    }

    /** The ingress part of PUT: checks, then one transaction that also writes the audit entry. */
    method PutIngress(blocked: set<int>, a: AppId, platformAdmin: bool, r: Request)
      returns (error: Option<IngressError>)
      requires a in apps
      modifies this`ports, this`apps, this`log
      ensures error ==
        match Put(old(State()), blocked, a, platformAdmin, r) case Success(_) => None case Failure(x) => Some(x)
      ensures State() ==
        match Put(old(State()), blocked, a, platformAdmin, r) case Success(q) => q case Failure(_) => old(State())
    {
      var app := apps[a];
      if !EngagesIngress(app, r) { return None; }
      if !platformAdmin { return Some(Forbidden); }
      var checked := CheckedUpdate(app, r);
      if checked.Failure? { return Some(checked.error); }

      var savedPorts, savedApps := ports, apps;
      var before := ViewOf(app);
      apps := apps[a := checked.value];
      if checked.value.ingressType != Http {
        error := AssignPublicPort(blocked, a, Production, r.publicPort);
        if error != None {
          ports, apps := savedPorts, savedApps;
          return error;
        }
        if r.sandboxPublicPort == Null {
          ReleasePublicPort(a, Sandbox);
        } else if r.sandboxPublicPort != Absent {
          error := AssignPublicPort(blocked, a, Sandbox, r.sandboxPublicPort);
          if error != None {
            ports, apps := savedPorts, savedApps;
            return error;
          }
        }
      }
      log := log + [Entry(a, before, ViewOf(apps[a]))];
      return None;
    }

    /** The MCP tool: its checks, then the same kind of transaction. */
    method SetAppIngress(blocked: set<int>, a: AppId, platformAdmin: bool, r: Request)
      returns (error: Option<IngressError>)
      requires a in apps
      modifies this`ports, this`apps, this`log
      ensures error ==
        match Ingress.SetAppIngress(old(State()), blocked, a, platformAdmin, r)
        case Success(_) => None case Failure(x) => Some(x)
      ensures State() ==
        match Ingress.SetAppIngress(old(State()), blocked, a, platformAdmin, r)
        case Success(q) => q case Failure(_) => old(State())
    {
      if !platformAdmin { return Some(Forbidden); }
      var app := apps[a];
      var checked := ToolUpdate(app, r);
      if checked.Failure? { return Some(checked.error); }
      var savedPorts, savedApps := ports, apps;
      var before := ViewOf(app);
      apps := apps[a := checked.value];
      if checked.value.ingressType != Http {
        error := AssignPublicPort(blocked, a, Production, r.publicPort);
        if error != None {
          ports, apps := savedPorts, savedApps;
          return error;
        }
      }
      if r.sandboxPublicPort == Null {
        ReleasePublicPort(a, Sandbox);
      } else if r.sandboxPublicPort != Absent {
        error := AssignPublicPort(blocked, a, Sandbox, r.sandboxPublicPort);
        if error != None {
          ports, apps := savedPorts, savedApps;
          return error;
        }
      }
      log := log + [Entry(a, before, ViewOf(apps[a]))];
      return None;
    }
  }

  /** A row of the `state = 'draining' ORDER BY host_port` query. */
  datatype DrainingRow = DrainingRow(app: AppId, hostPort: int, env: Env)

  function OfApp(rows: seq<DrainingRow>, a: AppId): seq<(int, Env)> {
    if rows == [] then []
    else
      var rest := OfApp(rows[..|rows| - 1], a);
      if rows[|rows| - 1].app == a then rest + [(rows[|rows| - 1].hostPort, rows[|rows| - 1].env)] else rest
  }

  lemma {:induction false} OfAppKeepsQueryOrder(rows: seq<DrainingRow>, a: AppId)
    requires forall i, j :: 0 <= i < j < |rows| ==> rows[i].hostPort < rows[j].hostPort
    ensures forall i, j :: 0 <= i < j < |OfApp(rows, a)| ==> OfApp(rows, a)[i].0 < OfApp(rows, a)[j].0
    ensures forall n, e :: (n, e) in OfApp(rows, a) <==> DrainingRow(a, n, e) in rows
  {
    if rows != [] {
      var init, last := rows[..|rows| - 1], rows[|rows| - 1];
      OfAppKeepsQueryOrder(init, a);
      assert rows == init + [last];
      forall i | 0 <= i < |OfApp(init, a)| ensures OfApp(init, a)[i].0 < last.hostPort {
        var x := OfApp(init, a)[i];
        assert (x.0, x.1) in OfApp(init, a);
        assert DrainingRow(a, x.0, x.1) in init;
      }
    }
  }

  /** One query for the catalogue, grouped by app: no empty groups, each group in query order. */
  method DrainingByApp(rows: seq<DrainingRow>) returns (out: map<AppId, seq<(int, Env)>>)
    ensures forall a :: a in out <==> OfApp(rows, a) != []
    ensures forall a :: a in out ==> out[a] == OfApp(rows, a)
  {
    out := map[];
    for i := 0 to |rows|
      invariant forall a :: a in out <==> OfApp(rows[..i], a) != []
      invariant forall a :: a in out ==> out[a] == OfApp(rows[..i], a)
    {
      var r := rows[i];
      assert rows[..i + 1][..i] == rows[..i];
      if r.app !in out { out := out[r.app := []]; }
      out := out[r.app := out[r.app] + [(r.hostPort, r.env)]];
    }
    assert rows[..|rows|] == rows;
  }
}
