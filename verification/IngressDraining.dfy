/**
 What happens to a number an app was re-pinned away from: how long its draining row
 stays, which requests can get the number back meanwhile, and which cannot.
 */
module IngressDraining {
  import opened Wrappers
  import opened Ingress
  import opened IngressProtocol
  import opened IngressReports
  import opened IngressGaps

  ghost predicate Drains(p: Platform, a: AppId, e: Env, n: int) {
    n in p.ports && p.ports[n] == Reservation(a, e, Draining)
  }

  // ---- asking for the number back -------------------------------------------------------------

  /** No assignment gives an app its own draining number: the primary key still holds it. */
  lemma RepinToDrainingIsRefused(p: Platform, blocked: set<int>, a: AppId, e: Env, n: int)
    requires RegistryAgrees(p) && a in p.apps && Drains(p, a, e, n)
    ensures Assign(p, blocked, a, e, Number(n)).Failure?
  {
    var held := Column(p.apps[a], e);
    if held != None && p.apps[a].ingressType != Http && (a, e) in p.live && held.value != n {
      assert p.ports[held.value] == Reservation(a, e, Pinned);
      DrainEffect(p, a, e, held.value);
    }
  }

  /** An assignment leaves every draining row as it is. */
  lemma AssignKeepsDraining(p: Platform, blocked: set<int>, b: AppId, f: Env, requested: PortField, q: Platform)
    requires b in p.apps && RegistryAgrees(p) && Assign(p, blocked, b, f, requested) == Success(q)
    ensures forall a, e, n :: Drains(p, a, e, n) ==> Drains(q, a, e, n)
  {
    if requested.Number? {
      var held := Column(p.apps[b], f);
      if held != None && p.apps[b].ingressType != Http && (b, f) in p.live && held.value != requested.n {
        DrainEffect(p, b, f, held.value);
      }
    }
  }

  predicate Names(r: Request, e: Env, n: int) {
    (if e == Production then r.publicPort else r.sandboxPublicPort) == Number(n)
  }

  lemma PortsRefused(w: Platform, blocked: set<int>, a: AppId, r: Request, e: Env, n: int)
    requires a in w.apps && w.apps[a].ingressType != Http && RegistryAgrees(w) && Drains(w, a, e, n) && Names(r, e, n)
    ensures AssignPorts(w, blocked, a, r).Failure?
  {
    var first := Assign(w, blocked, a, Production, r.publicPort);
    if e == Production {
      RepinToDrainingIsRefused(w, blocked, a, e, n);
    } else if first.Success? {
      AssignKeeps(w, blocked, a, Production, r.publicPort, first.value);
      AssignKeepsDraining(w, blocked, a, Production, r.publicPort, first.value);
      RepinToDrainingIsRefused(first.value, blocked, a, e, n);
    }
  }

  /** No single request, by either door, gets an app its own draining number back. */
  lemma OneRequestIsRefused(p: Platform, blocked: set<int>, a: AppId, admin: bool, r: Request, e: Env, n: int)
    requires Inv(p) && a in p.apps && Drains(p, a, e, n) && Names(r, e, n)
    ensures Put(p, blocked, a, admin, r).Failure? && SetAppIngress(p, blocked, a, admin, r).Failure?
  {
    assert Column(p.apps[a], e) != Some(n);
    var row := p.apps[a];
    if CheckedUpdate(row, r).Success? {
      var updated := CheckedUpdate(row, r).value;
      WrittenRow(p, a, r, updated, p.(apps := p.apps[a := updated]));
      PortsRefused(p.(apps := p.apps[a := updated]), blocked, a, r, e, n);
    }
    if ToolUpdate(row, r).Success? {
      var updated := ToolUpdate(row, r).value;
      ToolUpdateIsChecked(row, r);
      WrittenRow(p, a, AsPut(r), updated, p.(apps := p.apps[a := updated]));
      PortsRefused(p.(apps := p.apps[a := updated]), blocked, a, r, e, n);
    }
  }

  // ---- how long the row stays -------------------------------------------------------------------

  /** What a step must be, in the state it meets, to free the draining rows of an app and environment. */
  ghost predicate Frees(p: Platform, step: Step, a: AppId, e: Env) {
    match step
    case Edit(b, admin, r, blocked) =>
      && b == a && a in p.apps && e == Sandbox && r.sandboxPublicPort == Null
      && EngagesIngress(p.apps[a], r) && NextType(p.apps[a], r) != Http && Put(p, blocked, a, admin, r).Success?
    case ToolEdit(b, admin, r, blocked) =>
      && b == a && a in p.apps && e == Sandbox && r.sandboxPublicPort == Null
      && SetAppIngress(p, blocked, a, admin, r).Success?
    case Finish(b, f) =>
      && (b, f) == (a, e) && (a, e) in p.starting && a in p.apps
      && !(p.starting[(a, e)].Some? && p.starting[(a, e)].value in p.bound.Values)
    case Delete(b, _) => b == a
    case _ => false
  }

  lemma PortsKeepDraining(w: Platform, blocked: set<int>, b: AppId, r: Request, q: Platform, a: AppId, e: Env, n: int)
    requires b in w.apps && w.apps[b].ingressType != Http && RegistryAgrees(w) && Drains(w, a, e, n)
    requires AssignPorts(w, blocked, b, r) == Success(q)
    ensures Drains(q, a, e, n) <==> !(b == a && e == Sandbox && r.sandboxPublicPort == Null)
  {
    var m := Assign(w, blocked, b, Production, r.publicPort).value;
    AssignKeeps(w, blocked, b, Production, r.publicPort, m);
    AssignKeepsDraining(w, blocked, b, Production, r.publicPort, m);
    if r.sandboxPublicPort != Absent && r.sandboxPublicPort != Null {
      AssignKeepsDraining(m, blocked, b, Sandbox, r.sandboxPublicPort, q);
    }
  }

  lemma EditFreesExactly(p: Platform, step: Step, a: AppId, e: Env, n: int)
    requires Inv(p) && step.Edit? && Drains(p, a, e, n)
    ensures Drains(Next(p, step), a, e, n) <==> !Frees(p, step, a, e)
  {
    var b, r := step.app, step.request;
    if b in p.apps && EngagesIngress(p.apps[b], r) && Put(p, step.blocked, b, step.admin, r).Success? {
      var updated := CheckedUpdate(p.apps[b], r).value;
      var w := p.(apps := p.apps[b := updated]);
      WrittenRow(p, b, r, updated, w);
      CheckedUpdateRow(p.apps[b], r, updated);
      if updated.ingressType != Http {
        PortsKeepDraining(w, step.blocked, b, r, AssignPorts(w, step.blocked, b, r).value, a, e, n);
      }
    }
  }

  lemma ToolFreesExactly(p: Platform, step: Step, a: AppId, e: Env, n: int)
    requires Inv(p) && step.ToolEdit? && Drains(p, a, e, n)
    ensures Drains(Next(p, step), a, e, n) <==> !Frees(p, step, a, e)
  {
    var b, r := step.app, step.request;
    if b in p.apps && SetAppIngress(p, step.blocked, b, step.admin, r).Success? {
      var updated := ToolUpdate(p.apps[b], r).value;
      var w := p.(apps := p.apps[b := updated]);
      ToolUpdateIsChecked(p.apps[b], r);
      WrittenRow(p, b, AsPut(r), updated, w);
      if updated.ingressType != Http {
        PortsKeepDraining(w, step.blocked, b, r, AssignPorts(w, step.blocked, b, r).value, a, e, n);
      }
    }
  }

  lemma FinishFreesExactly(p: Platform, b: AppId, f: Env, a: AppId, e: Env, n: int)
    requires Inv(p) && (b, f) in p.starting && Drains(p, a, e, n)
    ensures Drains(FinishStart(p, b, f), a, e, n) <==> !Frees(p, Finish(b, f), a, e)
  {
    var published := p.starting[(b, f)];
    if !(published.Some? && published.value in p.bound.Values) {
      var ran := Started(p, (b, f), published);
      StartedKeeps(p, (b, f), published);
      ReleaseAfterRecreateKeeps(ran, b, f);
    }
  }

  lemma DrainingStaysExactly(p: Platform, step: Step, a: AppId, e: Env, n: int)
    requires Inv(p) && Drains(p, a, e, n)
    ensures Drains(Next(p, step), a, e, n) <==> !Frees(p, step, a, e)
  {
    match step
    case Edit(_, _, _, _) => EditFreesExactly(p, step, a, e, n);
    case ToolEdit(_, _, _, _) => ToolFreesExactly(p, step, a, e, n);
    case Finish(b, f) => if (b, f) in p.starting { FinishFreesExactly(p, b, f, a, e, n); }
    case _ =>
  }

  ghost predicate NeverFrees(p: Platform, steps: seq<Step>, a: AppId, e: Env)
    decreases |steps|
  {
    steps == [] || (!Frees(p, steps[0], a, e) && NeverFrees(Next(p, steps[0]), steps[1..], a, e))
  }

  ghost predicate DrainsThroughout(p: Platform, steps: seq<Step>, a: AppId, e: Env, n: int)
    decreases |steps|
  {
    Drains(p, a, e, n) && (steps == [] || DrainsThroughout(Next(p, steps[0]), steps[1..], a, e, n))
  }

  /**
   Over every run: the number stays draining, and so out of every single request's
   reach, exactly until a recreate, a delete, or a dropped sandbox port frees it.
   */
  lemma {:induction false} HeldUntilFreedExactly(p: Platform, steps: seq<Step>, a: AppId, e: Env, n: int)
    requires Inv(p) && Drains(p, a, e, n)
    ensures DrainsThroughout(p, steps, a, e, n) <==> NeverFrees(p, steps, a, e)
    decreases |steps|
  {
    if steps != [] {
      var next := Next(p, steps[0]);
      StepKeeps(p, steps[0]);
      DrainingStaysExactly(p, steps[0], a, e, n);
      if Drains(next, a, e, n) { HeldUntilFreedExactly(next, steps[1..], a, e, n); }
    }
  }

  // ---- two requests ---------------------------------------------------------------------------

  function SandboxPort(a: AppId, field: PortField): Step {
    Edit(a, true, UNNAMED.(sandboxPublicPort := field), {})
  }

  lemma SameRow(p: Platform, a: AppId, field: PortField)
    requires Inv(p) && a in p.apps && p.apps[a].ingressType != Http
    ensures CheckedUpdate(p.apps[a], UNNAMED.(sandboxPublicPort := field)) == Success(p.apps[a])
    ensures p.(apps := p.apps[a := p.apps[a]]) == p
    ensures Assign(p, {}, a, Production, Absent) == Success(p)
  {
    assert RowOk(p.apps[a]);
  }

  lemma DropsSandbox(p: Platform, a: AppId)
    requires Inv(p) && a in p.apps && p.apps[a].ingressType != Http && p.apps[a].sandboxPublicPort.Some?
    ensures var q := Next(p, SandboxPort(a, Null));
      q == ReleasePort(p, a, Sandbox).(log := q.log)
  {
    SameRow(p, a, Null);
    assert RowOk(p.apps[a]);
  }

  lemma NamesFree(p: Platform, a: AppId, n: int)
    requires Inv(p) && a in p.apps && p.apps[a].ingressType != Http && p.apps[a].sandboxPublicPort == None
    requires n !in p.ports && PUBLIC_PORT_MIN <= n <= PUBLIC_PORT_MAX
    ensures var q := Next(p, SandboxPort(a, Number(n)));
      q.bound == p.bound && n in q.ports && q.ports[n] == Reservation(a, Sandbox, Pinned)
  {
    SameRow(p, a, Number(n));
    assert Assign(p, {}, a, Sandbox, Number(n)) == Claim(p, a, Sandbox, n);
  }

  /** Dropping a sandbox port and naming the draining number again gets it back, whatever container still binds it. */
  lemma TwoRequestsReclaim(p: Platform, a: AppId, n: int)
    requires Inv(p) && Drains(p, a, Sandbox, n) && p.apps[a].ingressType != Http
    requires PUBLIC_PORT_MIN <= n <= PUBLIC_PORT_MAX
    ensures var q := Run(p, [SandboxPort(a, Null), SandboxPort(a, Number(n))]);
      q.bound == p.bound && n in q.ports && q.ports[n] == Reservation(a, Sandbox, Pinned)
  {
    assert Column(p.apps[a], Sandbox).Some?;
    DropsSandbox(p, a);
    StepKeeps(p, SandboxPort(a, Null));
    NamesFree(Next(p, SandboxPort(a, Null)), a, n);
    RunTwo(p, SandboxPort(a, Null), SandboxPort(a, Number(n)));
  }

  lemma RenameDrains(p: Platform, a: AppId, n: int, m: int)
    requires Inv(p) && a in p.apps && p.apps[a].ingressType != Http && (a, Sandbox) in p.live
    requires p.apps[a].sandboxPublicPort == Some(n) && m !in p.ports && PUBLIC_PORT_MIN <= m <= PUBLIC_PORT_MAX
    ensures var q := Next(p, SandboxPort(a, Number(m)));
      q.bound == p.bound && a in q.apps && q.apps[a].ingressType == p.apps[a].ingressType && Drains(q, a, Sandbox, n)
  {
    assert RowOk(p.apps[a]) && Column(p.apps[a], Sandbox) == Some(n);
    SameRow(p, a, Number(m));
    DrainEffect(p, a, Sandbox, n);
    var d := p.(ports := p.ports[n := Reservation(a, Sandbox, Draining)]);
    assert Assign(p, {}, a, Sandbox, Number(m)) == Claim(d, a, Sandbox, m);
  }

  const LIVE := RUNNING.(live := {(0, Sandbox)})

  /** Such a state is reached by ordinary requests, with the old number bound all along. */
  lemma ReclaimIsReachable()
    ensures var p := Run(EMPTY, SETUP + [MarkLive(0, Sandbox), SandboxPort(0, Number(8081))]);
      && Inv(p) && p.bound == map[(0, Sandbox) := 8080]
      && Drains(p, 0, Sandbox, 8080) && p.apps[0].ingressType == Tcp
  {
    var steps := [MarkLive(0, Sandbox), SandboxPort(0, Number(8081))];
    SetupRuns();
    RunAppend(EMPTY, SETUP, steps);
    RunTwo(RUNNING, MarkLive(0, Sandbox), SandboxPort(0, Number(8081)));
    EmptyPlatformIsGood();
    RunKeepsInv(EMPTY, SETUP + steps);
    RunKeepsInv(EMPTY, SETUP);
    StepKeeps(RUNNING, MarkLive(0, Sandbox));
    assert Next(RUNNING, MarkLive(0, Sandbox)) == LIVE;
    RenameDrains(LIVE, 0, 8080, 8081);
  }
}
