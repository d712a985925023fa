/**
 What the read surfaces, the audit log and a read-modify-write client can rely
 on, in every state a run can reach, and runs that show where they cannot.
 */
module IngressReports {
  import opened Wrappers
  import opened Ingress
  import opened IngressProtocol

  // ---- no surface calls a port closed while it answers ---------------------------

  function AsSet(port: Option<int>): set<int> {
    if port.Some? then {port.value} else {}
  }

  /**
   The kinds of answer that name an app's ports: GET detail and catalogue, the
   answers to POST and PUT, the MCP ingress tool, and the MCP app reads.
   */
  datatype Surface = Detail | Answer | McpIngress | McpApp

  predicate ShowsSandbox(s: Surface) {
    s == Detail || s == Answer
  }

  /** Also lists draining rows, and what `docker ps` shows of the production container. */
  predicate LooksFurther(s: Surface) {
    s == Detail || s == McpIngress
  }

  function DrainingOf(p: Platform, a: AppId): set<int> {
    set n | n in p.ports && p.ports[n].app == a && p.ports[n].state == Draining
  }

  /** publish_drift: the production binding, when it is not the publish the row asks for. */
  function Drift(p: Platform, a: AppId): set<int>
    requires a in p.apps
  {
    if (a, Production) in p.bound && PublicPort(p.apps[a], Production) != Some(p.bound[(a, Production)])
    then {p.bound[(a, Production)]} else {}
  }

  /** Every number a surface names for an app; `readable` says whether docker could be read. */
  function Named(p: Platform, a: AppId, s: Surface, readable: bool): set<int>
    requires a in p.apps
  {
    var v := ViewOf(p.apps[a]);
    AsSet(v.publicPort) + AsSet(v.pendingPortRelease) +
    (if ShowsSandbox(s) then AsSet(v.sandboxPublicPort) else {}) +
    (if LooksFurther(s) then DrainingOf(p, a) + (if readable then Drift(p, a) else {}) else {})
  }

  /** A surface shows this row of an app of this type. */
  predicate Shows(s: Surface, r: Reservation, t: IngressType) {
    match s
    case Detail => r.state == Draining || r.env == Production || t != Http
    case Answer => r.state == Pinned && (r.env == Production || t != Http)
    case McpIngress => r.state == Draining || r.env == Production
    case McpApp => r.state == Pinned && r.env == Production
  }

  /** In every reachable state, guarded or not: exactly which numbers each surface names. */
  lemma SurfacesExactly(p: Platform, a: AppId, s: Surface, readable: bool, n: int)
    requires Inv(p) && a in p.apps
    ensures n in Named(p, a, s, readable) <==>
      || (n in p.ports && p.ports[n].app == a && Shows(s, p.ports[n], p.apps[a].ingressType))
      || (s in {Detail, McpIngress} && readable && (a, Production) in p.bound && p.bound[(a, Production)] == n)
  {
    var row := p.apps[a];
    assert RowOk(row);
    if row.publicPort == Some(n) { assert Column(row, Production) == Some(n); }
    if row.sandboxPublicPort == Some(n) { assert Column(row, Sandbox) == Some(n); }
    if n in p.ports && p.ports[n] == Reservation(a, Production, Pinned) { assert row.publicPort == Some(n); }
    if n in p.ports && p.ports[n] == Reservation(a, Sandbox, Pinned) { assert row.sandboxPublicPort == Some(n); }
  }

  /**
   What the detail surface says without docker: a number goes unreported exactly when
   it is not reserved to the app, or is the pinned sandbox port of an `http` app.
   */
  lemma ReportedExactly(p: Platform, a: AppId, n: int)
    requires Inv(p) && a in p.apps
    ensures n in Named(p, a, Detail, false) <==>
      n in p.ports && p.ports[n].app == a &&
      !(p.ports[n] == Reservation(a, Sandbox, Pinned) && p.apps[a].ingressType == Http)
  {
    SurfacesExactly(p, a, Detail, false, n);
  }

  ghost predicate NamedEverywhere(p: Platform, a: AppId)
    requires a in p.apps
  {
    forall s, readable, e :: (a, e) in p.bound ==> p.bound[(a, e)] in Named(p, a, s, readable)
  }

  /** No surface at all hides a bound port of an app exactly when each is pinned as its production port. */
  lemma NamedEverywhereExactly(p: Platform, a: AppId)
    requires Inv(p) && a in p.apps
    ensures NamedEverywhere(p, a) <==>
      forall e :: (a, e) in p.bound ==>
        p.bound[(a, e)] in p.ports && p.ports[p.bound[(a, e)]] == Reservation(a, Production, Pinned)
  {
    forall s, readable, e: Env | (a, e) in p.bound
      ensures p.bound[(a, e)] in Named(p, a, s, readable) <==>
        || (p.bound[(a, e)] in p.ports && p.ports[p.bound[(a, e)]].app == a &&
            Shows(s, p.ports[p.bound[(a, e)]], p.apps[a].ingressType))
        || (LooksFurther(s) && readable && (a, Production) in p.bound && p.bound[(a, Production)] == p.bound[(a, e)])
    {
      SurfacesExactly(p, a, s, readable, p.bound[(a, e)]);
    }
    if NamedEverywhere(p, a) {
      forall e: Env | (a, e) in p.bound
        ensures p.bound[(a, e)] in p.ports && p.ports[p.bound[(a, e)]] == Reservation(a, Production, Pinned)
      {
        assert p.bound[(a, e)] in Named(p, a, McpApp, false);
      }
    }
  }

  // ---- which container port a raw publish reaches ----------------------------------

  /** A data plane is reported exactly for `dual`, whatever an `http` row still stores. */
  lemma DataPlaneIsReported(p: Platform, a: AppId)
    requires Inv(p) && a in p.apps
    ensures ViewOf(p.apps[a]).dataPlanePort == if p.apps[a].ingressType == Dual then p.apps[a].dataPlanePort else None
    ensures ViewOf(p.apps[a]).dataPlanePort.Some? <==> p.apps[a].ingressType == Dual
  {
    assert RowOk(p.apps[a]);
  }

  lemma ControlPlaneOnlyForTcp(p: Platform, a: AppId, e: Env)
    requires Inv(p) && a in p.apps && PublishTargets(p.apps[a], e).Some?
    ensures PublishTargets(p.apps[a], e).value.1 == CONTROL_PLANE_PORT <==> p.apps[a].ingressType == Tcp
    ensures p.apps[a].ingressType == Tcp ==> p.apps[a].dataPlanePort == None
    ensures p.apps[a].ingressType == Dual ==>
      p.apps[a].dataPlanePort.Some? && PublishTargets(p.apps[a], e).value.1 == p.apps[a].dataPlanePort.value
  {
    assert RowOk(p.apps[a]);
  }

  /** No step of the run deletes the app or asks for `data_plane_port: null` on it. */
  predicate NeverDropsDataPlane(steps: seq<Step>, a: AppId) {
    forall s :: s in steps ==>
      && (s.Delete? ==> s.app != a)
      && ((s.Edit? || s.ToolEdit?) && s.app == a ==> s.request.dataPlanePort != Null)
  }

  lemma StepKeepsDataPlane(p: Platform, step: Step, a: AppId)
    requires Inv(p) && a in p.apps && p.apps[a].dataPlanePort.Some? && NeverDropsDataPlane([step], a)
    ensures a in Next(p, step).apps && Next(p, step).apps[a].dataPlanePort.Some?
  {
    assert step in [step];
    if step.Edit? && step.app in p.apps {
      var b, r := step.app, step.request;
      if EngagesIngress(p.apps[b], r) && Put(p, step.blocked, b, step.admin, r).Success? {
        EditEffect(p, step.blocked, b, CheckedUpdate(p.apps[b], r).value, r, Next(p, step));
      }
    }
    if step.ToolEdit? && step.app in p.apps && Next(p, step) != p {
      ToolEffect(p, step.blocked, step.app, step.request, Next(p, step));
    }
  }

  /** A stored data plane survives every other run, so the app's pinned port never moves to 3000. */
  lemma {:induction false} DataPlaneSurvives(p: Platform, steps: seq<Step>, a: AppId)
    requires Inv(p) && a in p.apps && p.apps[a].dataPlanePort.Some? && NeverDropsDataPlane(steps, a)
    ensures a in Run(p, steps).apps && Run(p, steps).apps[a].dataPlanePort.Some?
    ensures forall e :: PublishTargets(Run(p, steps).apps[a], e).Some? ==>
      PublishTargets(Run(p, steps).apps[a], e).value.1 != CONTROL_PLANE_PORT
    decreases |steps|
  {
    if steps == [] {
      assert RowOk(p.apps[a]);
    } else {
      StepKeeps(p, steps[0]);
      StepKeepsDataPlane(p, steps[0], a);
      DataPlaneSurvives(Next(p, steps[0]), steps[1..], a);
    }
  }

  // ---- read-modify-write -------------------------------------------------------------

  /** The field is left out or sends back what a GET reported. */
  predicate Echoes(field: PortField, reported: Option<int>) {
    field == Absent || field == if reported.Some? then Number(reported.value) else Null
  }

  /** The ingress branch engages exactly when some field asks for something else than was reported. */
  lemma EngagesExactly(p: Platform, a: AppId, r: Request)
    requires Inv(p) && a in p.apps
    ensures var v := ViewOf(p.apps[a]);
      !EngagesIngress(p.apps[a], r) <==>
        && (r.ingressType == NoType || r.ingressType == Known(v.ingressType))
        && Echoes(r.publicPort, v.publicPort)
        && Echoes(r.sandboxPublicPort, v.sandboxPublicPort)
        && Echoes(r.dataPlanePort, v.dataPlanePort)
  {
    assert RowOk(p.apps[a]);
  }

  lemma StoredIsReported(row: AppRow, r: Request, after: AppRow)
    requires RowOk(after) && CheckedUpdate(row, r).Success?
    requires after.ingressType == NextType(row, r) && after.dataPlanePort == Asked(r.dataPlanePort, row.dataPlanePort)
    requires after.ingressType != Http ==>
      PublicPortAsked(row, r, after) && after.sandboxPublicPort == Asked(r.sandboxPublicPort, row.sandboxPublicPort)
    ensures !EngagesIngress(after, r)
  {
  }

  /** A GET after an accepted request, by either door, reports every field as it was asked. */
  lemma AcceptedIsReported(p: Platform, blocked: set<int>, a: AppId, admin: bool, r: Request)
    requires Inv(p) && a in p.apps
    ensures var done := Put(p, blocked, a, admin, r); done.Success? ==> !EngagesIngress(done.value.apps[a], r)
    ensures var done := SetAppIngress(p, blocked, a, admin, r);
      done.Success? ==> !EngagesIngress(done.value.apps[a], AsPut(r))
  {
    var put, tool := Put(p, blocked, a, admin, r), SetAppIngress(p, blocked, a, admin, r);
    if put.Success? && EngagesIngress(p.apps[a], r) {
      EditEffect(p, blocked, a, CheckedUpdate(p.apps[a], r).value, r, put.value);
      StoredIsReported(p.apps[a], r, put.value.apps[a]);
    }
    if tool.Success? {
      ToolEffect(p, blocked, a, r, tool.value);
      ToolUpdateIsChecked(p.apps[a], r);
      StoredIsReported(p.apps[a], AsPut(r), tool.value.apps[a]);
    }
  }

  /** So the same request, sent again by anybody, changes nothing and writes no second entry. */
  lemma PutIsIdempotent(p: Platform, step: Step, again: Step)
    requires Inv(p) && step.Edit? && again.Edit? && (again.app, again.request) == (step.app, step.request)
    ensures step.app in p.apps && Put(p, step.blocked, step.app, step.admin, step.request).Success? ==>
      Next(Next(p, step), again) == Next(p, step)
  {
    if step.app in p.apps { AcceptedIsReported(p, step.blocked, step.app, step.admin, step.request); }
  }

  /** Repeating the type of a row that publishes but lost its number is a change: an admin gets one assigned. */
  lemma PortlessRowIsRepaired(p: Platform, blocked: set<int>, a: AppId, r: Request)
    requires RegistryAgrees(p) && a in p.apps && p.apps[a].ingressType != Http && p.apps[a].publicPort == None
    requires r == UNNAMED.(ingressType := Known(p.apps[a].ingressType))
    ensures EngagesIngress(p.apps[a], r) && Put(p, blocked, a, false, r) == Failure(Forbidden)
    ensures var done := Put(p, blocked, a, true, r); done.Success? ==> done.value.apps[a].publicPort.Some?
  {
    var done := Put(p, blocked, a, true, r);
    if done.Success? {
      var updated := CheckedUpdate(p.apps[a], r).value;
      assert updated == p.apps[a] && p.(apps := p.apps[a := updated]) == p;
      AssignPortsRow(p, blocked, a, r, AssignPorts(p, blocked, a, r).value);
    }
  }

  /** An accepted change writes one entry from the old view to the new one; a refusal writes nothing at all. */
  lemma OneEntryPerChange(p: Platform, step: Step)
    requires Inv(p) && step.Edit? && step.app in p.apps
    ensures var a, q := step.app, Next(p, step);
      if EngagesIngress(p.apps[a], step.request) && Put(p, step.blocked, a, step.admin, step.request).Success?
      then a in q.apps && q.log == p.log + [Entry(a, ViewOf(p.apps[a]), ViewOf(q.apps[a]))]
      else q == p
  {
    var a, r := step.app, step.request;
    if EngagesIngress(p.apps[a], r) && Put(p, step.blocked, a, step.admin, r).Success? {
      EditEffect(p, step.blocked, a, CheckedUpdate(p.apps[a], r).value, r, Next(p, step));
    }
  }

  /** The tool writes an entry for every accepted call, even one that asks for what is there already. */
  lemma OneEntryPerToolCall(p: Platform, step: Step)
    requires Inv(p) && step.ToolEdit? && step.app in p.apps
    ensures var a, q := step.app, Next(p, step);
      if SetAppIngress(p, step.blocked, a, step.admin, step.request).Success?
      then a in q.apps && q.log == p.log + [Entry(a, ViewOf(p.apps[a]), ViewOf(q.apps[a]))]
      else q == p
  {
    if SetAppIngress(p, step.blocked, step.app, step.admin, step.request).Success? {
      ToolEffect(p, step.blocked, step.app, step.request, Next(p, step));
    }
  }

  // ---- the audit entries form a chain -------------------------------------------------

  /** Type, ports and data plane: everything an entry reports except the number a recreate gives back. */
  function Core(v: View): View {
    v.(pendingPortRelease := None)
  }

  function LatestView(log: seq<Entry>, a: AppId): View {
    if log == [] then ViewOf(NEW_ROW)
    else if log[|log| - 1].app == a then log[|log| - 1].after
    else LatestView(log[..|log| - 1], a)
  }

  /** Each entry of an app starts where that app's previous entry ended. */
  ghost predicate GapFree(log: seq<Entry>) {
    log != [] ==>
      var last := log[|log| - 1];
      GapFree(log[..|log| - 1]) && Core(last.before) == Core(LatestView(log[..|log| - 1], last.app))
  }

  ghost predicate LogInv(p: Platform) {
    && GapFree(p.log)
    && (forall a :: a in p.apps ==> Core(LatestView(p.log, a)) == Core(ViewOf(p.apps[a])))
    && (forall i :: 0 <= i < |p.log| ==> p.log[i].app < p.nextId)
  }

  lemma {:induction false} NoEntriesYet(log: seq<Entry>, a: AppId)
    requires forall i :: 0 <= i < |log| ==> log[i].app != a
    ensures LatestView(log, a) == ViewOf(NEW_ROW)
  {
    if log != [] { NoEntriesYet(log[..|log| - 1], a); }
  }

  lemma {:induction false} WithoutAppKeeps(log: seq<Entry>, a: AppId, bound: AppId)
    requires GapFree(log) && forall i :: 0 <= i < |log| ==> log[i].app < bound
    ensures GapFree(WithoutApp(log, a))
    ensures forall b :: b != a ==> LatestView(WithoutApp(log, a), b) == LatestView(log, b)
    ensures forall i :: 0 <= i < |WithoutApp(log, a)| ==> WithoutApp(log, a)[i].app < bound
  {
    if log != [] {
      var init, last := log[..|log| - 1], log[|log| - 1];
      WithoutAppKeeps(init, a, bound);
      if last.app != a { assert WithoutApp(log, a)[..|WithoutApp(log, a)| - 1] == WithoutApp(init, a); }
    }
  }

  lemma LogAppended(log: seq<Entry>, e: Entry)
    requires GapFree(log) && Core(e.before) == Core(LatestView(log, e.app))
    ensures GapFree(log + [e])
    ensures forall b :: LatestView(log + [e], b) == if b == e.app then e.after else LatestView(log, b)
  {
    assert (log + [e])[..|log|] == log && (log + [e])[|log|] == e;
  }

  lemma AppendKeepsLog(p: Platform, a: AppId, q: Platform)
    requires LogInv(p) && a in p.apps && a in q.apps && q.apps == p.apps[a := q.apps[a]]
    requires a < p.nextId && q.nextId == p.nextId
    requires q.log == p.log + [Entry(a, ViewOf(p.apps[a]), ViewOf(q.apps[a]))]
    ensures LogInv(q)
  {
    var log, e := p.log, Entry(a, ViewOf(p.apps[a]), ViewOf(q.apps[a]));
    LogAppended(log, e);
    forall b | b in q.apps ensures Core(LatestView(q.log, b)) == Core(ViewOf(q.apps[b])) {
      if b != a { assert q.apps[b] == p.apps[b]; }
    }
  }

  lemma EditKeepsLog(p: Platform, step: Step)
    requires Inv(p) && LogInv(p) && step.Edit?
    ensures LogInv(Next(p, step))
  {
    if step.app in p.apps {
      OneEntryPerChange(p, step);
      var a, r, q := step.app, step.request, Next(p, step);
      if EngagesIngress(p.apps[a], r) && Put(p, step.blocked, a, step.admin, r).Success? {
        EditEffect(p, step.blocked, a, CheckedUpdate(p.apps[a], r).value, r, q);
        AppendKeepsLog(p, a, q);
      }
    }
  }

  lemma ToolEditKeepsLog(p: Platform, step: Step)
    requires Inv(p) && LogInv(p) && step.ToolEdit?
    ensures LogInv(Next(p, step))
  {
    var a, q := step.app, Next(p, step);
    if a in p.apps && SetAppIngress(p, step.blocked, a, step.admin, step.request).Success? {
      ToolEffect(p, step.blocked, a, step.request, q);
      AppendKeepsLog(p, a, q);
    }
  }

  /** A step that writes no entry and moves no reported field except the pending release. */
  lemma SameCoresKeepLog(p: Platform, q: Platform)
    requires LogInv(p) && q.log == p.log && q.nextId == p.nextId
    requires forall a :: a in q.apps ==> a in p.apps && Core(ViewOf(q.apps[a])) == Core(ViewOf(p.apps[a]))
    ensures LogInv(q)
  {
  }

  /** The release clears at most the column of an `http` row, which reports no port anyway. */
  lemma ReleaseKeepsCores(p: Platform, a: AppId, e: Env)
    ensures var q := ReleaseAfterRecreate(p, a, e);
      && q.log == p.log && q.nextId == p.nextId
      && forall b :: b in q.apps ==> b in p.apps && Core(ViewOf(q.apps[b])) == Core(ViewOf(p.apps[b]))
  {
    if a in p.apps {
      var cleared := p.apps[a].(publicPort := None);
      if p.apps[a].ingressType == Http { assert Core(ViewOf(cleared)) == Core(ViewOf(p.apps[a])); }
    }
  }

  lemma FinishKeepsLog(p: Platform, a: AppId, e: Env)
    requires LogInv(p) && (a, e) in p.starting
    ensures LogInv(FinishStart(p, a, e))
  {
    var ran := Started(p, (a, e), p.starting[(a, e)]);
    ReleaseKeepsCores(ran, a, e);
    assert ran.apps == p.apps;
    SameCoresKeepLog(p, FinishStart(p, a, e));
  }

  lemma CreateKeepsLog(p: Platform)
    requires LogInv(p)
    ensures LogInv(Next(p, Create))
  {
    NoEntriesYet(p.log, p.nextId);
  }

  lemma DeleteKeepsLog(p: Platform, a: AppId, removed: bool)
    requires LogInv(p)
    ensures LogInv(DeleteApp(p, a, removed))
  {
    WithoutAppKeeps(p.log, a, p.nextId);
  }

  lemma StepKeepsLog(p: Platform, step: Step)
    requires Inv(p) && LogInv(p)
    ensures LogInv(Next(p, step))
  {
    match step
    case Edit(_, _, _, _) => EditKeepsLog(p, step);
    case ToolEdit(_, _, _, _) => ToolEditKeepsLog(p, step);
    case Finish(a, e) => if (a, e) in p.starting { FinishKeepsLog(p, a, e); }
    case Create => CreateKeepsLog(p);
    case Delete(a, removed) => DeleteKeepsLog(p, a, removed);
    case _ => SameCoresKeepLog(p, Next(p, step));
  }

  /** In every reachable state the entries are a gap-free chain that ends at what a GET reports now. */
  lemma {:induction false} LogIsGapFree(p: Platform, steps: seq<Step>)
    requires Inv(p) && LogInv(p)
    ensures LogInv(Run(p, steps))
    decreases |steps|
  {
    if steps != [] {
      StepKeeps(p, steps[0]);
      StepKeepsLog(p, steps[0]);
      LogIsGapFree(Next(p, steps[0]), steps[1..]);
    }
  }

  lemma EmptyPlatformIsGood()
    ensures Inv(EMPTY) && Safe(EMPTY) && LogInv(EMPTY)
  {
  }

  // ---- flipping to http and back --------------------------------------------------------

  const UNNAMED := Request(NoType, Absent, Absent, Absent)

  /** No platform admin changes the app's ingress, nobody deletes it, and production is not recreated. */
  predicate LeavesAppAlone(steps: seq<Step>, a: AppId) {
    forall s :: s in steps ==>
      && !((s.Edit? || s.ToolEdit?) && s.app == a && s.admin)
      && !(s.Delete? && s.app == a)
      && s != Finish(a, Production)
  }

  lemma OtherStepsKeepRow(p: Platform, step: Step, a: AppId)
    requires Inv(p) && a in p.apps && LeavesAppAlone([step], a)
    ensures a in Next(p, step).apps && Next(p, step).apps[a] == p.apps[a]
  {
    assert step in [step];
    if (step.Edit? || step.ToolEdit?) && step.app in p.apps && Next(p, step) != p {
      var b, r := step.app, step.request;
      if step.Edit? {
        EditEffect(p, step.blocked, b, CheckedUpdate(p.apps[b], r).value, r, Next(p, step));
      } else {
        ToolEffect(p, step.blocked, b, r, Next(p, step));
      }
    }
  }

  /** Over every run: nothing but a platform admin's request, a production recreate or a delete changes an app's row. */
  lemma {:induction false} RowStays(p: Platform, steps: seq<Step>, a: AppId)
    requires Inv(p) && a in p.apps && LeavesAppAlone(steps, a)
    ensures a in Run(p, steps).apps && Run(p, steps).apps[a] == p.apps[a]
    decreases |steps|
  {
    if steps != [] {
      var step := steps[0];
      var q := Next(p, step);
      StepKeeps(p, step);
      OtherStepsKeepRow(p, step, a);
      RowStays(q, steps[1..], a);
    }
  }

  /** A publishing app flipped to http and back before a production recreate gets its whole row back. */
  lemma FlipAndBack(p: Platform, a: AppId, between: seq<Step>, blocked: set<int>)
    requires Inv(p) && a in p.apps && p.apps[a].ingressType != Http && LeavesAppAlone(between, a)
    ensures var flipped := Next(p, Edit(a, true, UNNAMED.(ingressType := Known(Http)), blocked));
      var back :=
        Next(Run(flipped, between), Edit(a, true, UNNAMED.(ingressType := Known(p.apps[a].ingressType)), blocked));
      && a in flipped.apps && PublicPort(flipped.apps[a], Production) == None
      && a in back.apps && back.apps[a] == p.apps[a]
  {
    var row := p.apps[a];
    assert RowOk(row);
    var toHttp := UNNAMED.(ingressType := Known(Http));
    var flipped := Next(p, Edit(a, true, toHttp, blocked));
    assert CheckedUpdate(row, toHttp) == Success(row.(ingressType := Http));
    EditEffect(p, blocked, a, row.(ingressType := Http), toHttp, flipped);
    RowStays(flipped, between, a);
    RunKeepsInv(flipped, between);
    var later := Run(flipped, between);
    var back := UNNAMED.(ingressType := Known(row.ingressType));
    assert CheckedUpdate(later.apps[a], back) == Success(row);
    var written := later.(apps := later.apps[a := row]);
    assert Assign(written, blocked, a, Production, Absent) == Success(written);
    assert AssignPorts(written, blocked, a, back) == Success(written);
  }
}
