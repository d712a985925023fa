/**
 Concrete runs from the empty platform in which one guard of IngressProtocol is
 not met, and what goes wrong. Each starts with ordinary requests.
 */
module IngressGaps {
  import opened Wrappers
  import opened Ingress
  import opened IngressProtocol
  import opened IngressReports

  function Publish(port: int): Request {
    UNNAMED.(ingressType := Known(Tcp), publicPort := Number(port))
  }

  const TO_HTTP := UNNAMED.(ingressType := Known(Http))

  const ROW_BOTH := AppRow(Tcp, Some(9000), Some(8080), None)
  const PINNED := Reservation(0, Production, Pinned)
  const PINNED_SANDBOX := Reservation(0, Sandbox, Pinned)

  const PUBLISH_BOTH := Publish(9000).(sandboxPublicPort := Number(8080))

  /** App 0 publishes 9000 in production and 8080 in sandbox, and its sandbox container is running. */
  const SETUP := [Create, Edit(0, true, PUBLISH_BOTH, {}), Begin(0, Sandbox), Finish(0, Sandbox)]
  const RUNNING := Platform(1, map[0 := ROW_BOTH], map[9000 := PINNED, 8080 := PINNED_SANDBOX], {},
                            map[(0, Sandbox) := 8080], map[], [Entry(0, ViewOf(NEW_ROW), ViewOf(ROW_BOTH))])

  /** An admin's flip to http rewrites the type, logs one entry and touches nothing else. */
  lemma FlipToHttp(p: Platform, a: AppId, blocked: set<int>)
    requires a in p.apps && p.apps[a].ingressType != Http
    ensures var row := p.apps[a].(ingressType := Http);
      Next(p, Edit(a, true, TO_HTTP, blocked)) ==
      p.(apps := p.apps[a := row], log := p.log + [Entry(a, ViewOf(p.apps[a]), ViewOf(row))])
  {
    assert CheckedUpdate(p.apps[a], TO_HTTP) == Success(p.apps[a].(ingressType := Http));
  }

  lemma RunTwo(p: Platform, s: Step, t: Step)
    ensures Run(p, [s, t]) == Next(Next(p, s), t)
  {
    assert [s, t][1..] == [t] && [t][1..] == [];
    assert Run(Next(p, s), [t]) == Run(Next(Next(p, s), t), []);
  }

  const CREATED := Platform(1, map[0 := NEW_ROW], map[], {}, map[], map[], [])

  lemma CreatedPublishes()
    ensures Next(CREATED, Edit(0, true, PUBLISH_BOTH, {})) == RUNNING.(bound := map[])
  {
    assert CheckedUpdate(NEW_ROW, PUBLISH_BOTH) == Success(NEW_ROW.(ingressType := Tcp));
  }

  lemma SetupPublishes()
    ensures Next(Next(EMPTY, Create), Edit(0, true, PUBLISH_BOTH, {})) == RUNNING.(bound := map[])
  {
    assert Next(EMPTY, Create) == CREATED;
    CreatedPublishes();
  }

  lemma SetupBinds()
    ensures Next(Next(RUNNING.(bound := map[]), Begin(0, Sandbox)), Finish(0, Sandbox)) == RUNNING
  {
    var idle := RUNNING.(bound := map[]);
    assert Next(idle, Begin(0, Sandbox)) == idle.(starting := map[(0, Sandbox) := Some(8080)]);
  }

  lemma SetupRuns()
    ensures Run(EMPTY, SETUP) == RUNNING
  {
    SetupPublishes();
    SetupBinds();
    assert SETUP == [Create, SETUP[1]] + [Begin(0, Sandbox), Finish(0, Sandbox)];
    RunAppend(EMPTY, [Create, SETUP[1]], [Begin(0, Sandbox), Finish(0, Sandbox)]);
    RunTwo(EMPTY, Create, SETUP[1]);
    RunTwo(RUNNING.(bound := map[]), Begin(0, Sandbox), Finish(0, Sandbox));
  }

  lemma FreshPin(p: Platform, a: AppId, n: int)
    requires Inv(p) && a in p.apps && p.apps[a] == NEW_ROW
    requires n !in p.ports && PUBLIC_PORT_MIN <= n <= PUBLIC_PORT_MAX
    ensures var q := Next(p, Edit(a, true, Publish(n), {}));
      q.bound == p.bound && n in q.ports && q.ports[n] == Reservation(a, Production, Pinned)
  {
    assert CheckedUpdate(NEW_ROW, Publish(n)) == Success(NEW_ROW.(ingressType := Tcp));
    var w := p.(apps := p.apps[a := NEW_ROW.(ingressType := Tcp)]);
    assert Assign(w, {}, a, Production, Number(n)) == Claim(w, a, Production, n);
  }

  /** Whatever the registry has forgotten, the next app to name it gets. */
  lemma ForgottenNumberIsReissued(p: Platform, n: int)
    requires Inv(p) && n !in p.ports && PUBLIC_PORT_MIN <= n <= PUBLIC_PORT_MAX
    ensures var q := Run(p, [Create, Edit(p.nextId, true, Publish(n), {})]);
      q.bound == p.bound && n in q.ports && q.ports[n] == Reservation(p.nextId, Production, Pinned)
  {
    CreateKeeps(p);
    FreshPin(Next(p, Create), p.nextId, n);
    RunTwo(p, Create, Edit(p.nextId, true, Publish(n), {}));
  }

  lemma Reissued(first: Step)
    requires Next(RUNNING, first).bound == RUNNING.bound && 8080 !in Next(RUNNING, first).ports &&
      Next(RUNNING, first).nextId == 1
    ensures var p := Run(EMPTY, SETUP + [first, Create, Edit(1, true, Publish(8080), {})]);
      p.bound == map[(0, Sandbox) := 8080] && 8080 in p.ports && p.ports[8080].app == 1
  {
    SetupRuns();
    EmptyPlatformIsGood();
    RunKeepsInv(EMPTY, SETUP);
    StepKeeps(RUNNING, first);
    var rest := [Create, Edit(1, true, Publish(8080), {})];
    ForgottenNumberIsReissued(Next(RUNNING, first), 8080);
    RunAppend(EMPTY, SETUP, [first, Create, Edit(1, true, Publish(8080), {})]);
    assert [first, Create, Edit(1, true, Publish(8080), {})][1..] == rest;
  }

  /**
   `sandbox_public_port: null` frees the number at once, although the sandbox
   container still binds it: the next app can be given it.
   */
  lemma DroppingSandboxGivesAwayBoundPort()
    ensures var p := Run(EMPTY, SETUP + [
        Edit(0, true, UNNAMED.(sandboxPublicPort := Null), {}), Create, Edit(1, true, Publish(8080), {})]);
      p.bound == map[(0, Sandbox) := 8080] && 8080 in p.ports && p.ports[8080].app == 1
  {
    Reissued(Edit(0, true, UNNAMED.(sandboxPublicPort := Null), {}));
  }

  /** A delete whose container removal failed does the same: stopApp swallows docker errors. */
  lemma FailedDeleteGivesAwayBoundPort()
    ensures var p := Run(EMPTY, SETUP + [Delete(0, false), Create, Edit(1, true, Publish(8080), {})]);
      p.bound == map[(0, Sandbox) := 8080] && 8080 in p.ports && p.ports[8080].app == 1
  {
    Reissued(Delete(0, false));
  }

  /** And once the number is forgotten no surface names it for the app whose container binds it. */
  lemma DroppedSandboxIsUnreported()
    ensures var p := Next(RUNNING, Edit(0, true, UNNAMED.(sandboxPublicPort := Null), {}));
      && Run(EMPTY, SETUP) == RUNNING
      && p.bound == map[(0, Sandbox) := 8080] && 0 in p.apps && p.apps[0].ingressType == Tcp
      && forall s, readable :: 8080 !in Named(p, 0, s, readable)
  {
    SetupRuns();
    var p := Next(RUNNING, Edit(0, true, UNNAMED.(sandboxPublicPort := Null), {}));
    EmptyPlatformIsGood();
    RunKeepsInv(EMPTY, SETUP);
    StepKeeps(RUNNING, Edit(0, true, UNNAMED.(sandboxPublicPort := Null), {}));
    assert 8080 !in p.ports && p.bound == RUNNING.bound;
    forall s, readable ensures 8080 !in Named(p, 0, s, readable) { SurfacesExactly(p, 0, s, readable, 8080); }
  }

  /**
   A container binds its port before its deployment is 'live' (and after a failed
   one); a re-pin in that time forgets the old number instead of draining it.
   */
  lemma RepinBeforeLiveForgetsBoundPort()
    ensures var p := Run(EMPTY, SETUP + [
        Edit(0, true, UNNAMED.(sandboxPublicPort := Number(8081)), {}), Create, Edit(1, true, Publish(8080), {})]);
      p.bound == map[(0, Sandbox) := 8080] && 8080 in p.ports && p.ports[8080].app == 1
  {
    Reissued(Edit(0, true, UNNAMED.(sandboxPublicPort := Number(8081)), {}));
  }

  /** So does a re-pin after a redeploy that went live and then failed: its old container still binds the number. */
  lemma RepinAfterFailureForgetsBoundPort()
    ensures var p := Run(EMPTY, SETUP + [MarkLive(0, Sandbox), UnmarkLive(0, Sandbox)] + [
        Edit(0, true, UNNAMED.(sandboxPublicPort := Number(8081)), {}), Create, Edit(1, true, Publish(8080), {})]);
      p.bound == map[(0, Sandbox) := 8080] && 8080 in p.ports && p.ports[8080].app == 1
  {
    var marks := [MarkLive(0, Sandbox), UnmarkLive(0, Sandbox)];
    var repin := Edit(0, true, UNNAMED.(sandboxPublicPort := Number(8081)), {});
    var rest := [repin, Create, Edit(1, true, Publish(8080), {})];
    SetupRuns();
    RunAppend(EMPTY, SETUP, marks);
    RunTwo(RUNNING, marks[0], marks[1]);
    assert Next(Next(RUNNING, marks[0]), marks[1]) == RUNNING;
    RunAppend(EMPTY, SETUP + marks, rest);
    RunAppend(EMPTY, SETUP, rest);
    RepinBeforeLiveForgetsBoundPort();
  }

  /** A flip to http while `docker run` is in flight: the release that follows frees the port just bound. */
  lemma FlipDuringStartFreesBoundPort()
    ensures var p := Run(EMPTY, SETUP + [Begin(0, Production), Edit(0, true, TO_HTTP, {}), Finish(0, Production)]);
      (0, Production) in p.bound && p.bound[(0, Production)] == 9000 && 9000 !in p.ports
  {
    SetupRuns();
    var flip := Edit(0, true, TO_HTTP, {});
    var p1 := Next(RUNNING, Begin(0, Production));
    assert p1 == RUNNING.(starting := map[(0, Production) := Some(9000)]);
    FlipToHttp(p1, 0, {});
    RunAppend(EMPTY, SETUP, [Begin(0, Production), flip, Finish(0, Production)]);
    assert [Begin(0, Production), flip, Finish(0, Production)][1..] == [flip, Finish(0, Production)];
    RunTwo(p1, flip, Finish(0, Production));
  }

  /**
   A flip to http meets every guard, yet the still-bound sandbox port disappears
   from every reported field; and recreating the sandbox container never gives
   that number back, because the release looks at the production column only.
   */
  lemma HttpFlipHidesSandboxPort()
    ensures var p := Run(EMPTY, SETUP + [Edit(0, true, TO_HTTP, {})]);
      && Guarded(RUNNING, [Edit(0, true, TO_HTTP, {})])
      && p.bound == map[(0, Sandbox) := 8080] && 0 in p.apps
      && (forall s, readable :: 8080 !in Named(p, 0, s, readable))
      && var q := Run(p, [Begin(0, Sandbox), Finish(0, Sandbox)]); q.bound == map[] && 8080 in q.ports
  {
    SetupRuns();
    var flip := Edit(0, true, TO_HTTP, {});
    var p := Next(RUNNING, flip);
    FlipToHttp(RUNNING, 0, {});
    RunAppend(EMPTY, SETUP, [flip]);
    assert [flip][1..] == [] && Run(p, []) == p && Guarded(p, []);
    SandboxRecreated(p);
  }

  lemma SandboxRecreated(p: Platform)
    requires 0 in p.apps && p.apps[0].ingressType == Http && p.starting == map[] && p.bound == map[(0, Sandbox) := 8080]
    requires 8080 in p.ports && p.ports[8080] == PINNED_SANDBOX
    ensures var q := Run(p, [Begin(0, Sandbox), Finish(0, Sandbox)]); q.bound == map[] && 8080 in q.ports
  {
    RunTwo(p, Begin(0, Sandbox), Finish(0, Sandbox));
    assert Next(p, Begin(0, Sandbox)).starting == map[(0, Sandbox) := None];
  }

  lemma {:induction false} RunAppend(p: Platform, s: seq<Step>, t: seq<Step>)
    ensures Run(p, s + t) == Run(Run(p, s), t)
    decreases |s|
  {
    if s == [] {
      assert s + t == t;
    } else {
      assert (s + t)[0] == s[0] && (s + t)[1..] == s[1..] + t;
      RunAppend(Next(p, s[0]), s[1..], t);
    }
  }
}
