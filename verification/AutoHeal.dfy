/**
 Deployments across boots (server/index.js): orphan marking, the bulk-redeploy
 sentinel and auto-heal, next to whatever the deployer does to a row.
 */
module AutoHeal {
  import opened Wrappers

  datatype Env = Production | Sandbox

  /** An app id and an environment. */
  type Pair = (nat, Env)

  datatype Status = Queued | Building | Deploying | Live | Failed | RolledBack | Deleted

  /** A deployments row; its id is its position. `at` is COALESCE(finished_at, started_at) in seconds. */
  datatype Row = Row(pair: Pair, status: Status, at: int)

  type Rows = seq<Row>

  const QUIET := 300

  /** MAX(id) of the pair. */
  function Newest(rows: Rows, p: Pair): Option<nat> {
    if rows == [] then None
    else if rows[|rows| - 1].pair == p && rows[|rows| - 1].status != Deleted then Some(|rows| - 1)
    else Newest(rows[..|rows| - 1], p)
  }

  /** Latest deployment live, finished more than five minutes ago, and no container with its name. */
  predicate Eligible(rows: Rows, p: Pair, running: set<Pair>, now: int) {
    var id := Newest(rows, p);
    id.Some? && id.value < |rows| && rows[id.value].status == Live && now - rows[id.value].at > QUIET && p !in running
  }

  /** Some row of the pair has been live for more than five minutes, and every later one of it is deleted. */
  ghost predicate LongLive(rows: Rows, p: Pair, now: int) {
    exists i :: 0 <= i < |rows| && rows[i].pair == p && rows[i].status == Live && now - rows[i].at > 300 &&
      forall j :: i < j < |rows| && rows[j].pair == p ==> rows[j].status == Deleted
  }

  predicate InFlight(s: Status) {
    s == Queued || s == Building || s == Deploying
  }

  function MarkOrphans(rows: Rows, now: int): Rows {
    seq(|rows|, i requires 0 <= i < |rows| =>
      if InFlight(rows[i].status) then rows[i].(status := Failed, at := now) else rows[i])
  }

  function QueueAll(rows: Rows, pairs: seq<Pair>, now: int): Rows
    decreases |pairs|
  {
    if pairs == [] then rows else QueueAll(rows + [Row(pairs[0], Queued, now)], pairs[1..], now)
  }

  function ProductionPairs(apps: seq<nat>): seq<Pair> {
    seq(|apps|, i requires 0 <= i < |apps| => (apps[i], Production))
  }

  ghost predicate Distinct<T(!new)>(s: seq<T>) {
    forall i, j :: 0 <= i < j < |s| ==> s[i] != s[j]
  }

  /**
   Orphans and Sentinel and Heal are boot effects (a crash in a loop queues a prefix
   of its list); Queue is any other deploy request; Change is the deployer, or a
   rollback, on one row; Delete removes an app's rows.
   */
  datatype Step =
    | Orphans(now: int)
    | Sentinel(apps: seq<nat>, now: int)
    | Heal(pairs: seq<Pair>, running: set<Pair>, now: int)
    | Queue(pair: Pair, now: int)
    | Change(id: nat, status: Status, now: int)
    | Delete(app: nat)

  /** Heal queues what one query returned: each pair once, all eligible. */
  ghost predicate Enabled(rows: Rows, step: Step) {
    match step
    case Heal(pairs, running, now) => Distinct(pairs) && forall p :: p in pairs ==> Eligible(rows, p, running, now)
    case Change(id, status, _) => id < |rows| && status != Deleted && rows[id].status != Deleted
    case _ => true
  }

  function Next(rows: Rows, step: Step): Rows {
    match step
    case Orphans(now) => MarkOrphans(rows, now)
    case Sentinel(apps, now) => QueueAll(rows, ProductionPairs(apps), now)
    case Heal(pairs, _, now) => QueueAll(rows, pairs, now)
    case Queue(p, now) => rows + [Row(p, Queued, now)]
    case Change(id, status, now) => if id < |rows| then rows[id := rows[id].(status := status, at := now)] else rows
    case Delete(app) =>
      seq(|rows|, i requires 0 <= i < |rows| => if rows[i].pair.0 == app then rows[i].(status := Deleted) else rows[i])
  }

  function Run(rows: Rows, steps: seq<Step>): Rows
    decreases |steps|
  {
    if steps == [] then rows else Run(Next(rows, steps[0]), steps[1..])
  }

  class Deployments {
    var rows: Rows

    /** The sentinel loop; `done` of the apps are reached before the process dies, if it does. */
    method BulkRedeploy(apps: seq<nat>, done: nat, now: int)
      requires done <= |apps|
      modifies this
      ensures rows == Next(old(rows), Sentinel(apps[..done], now))
    {
      ghost var pairs := ProductionPairs(apps[..done]);
      for i := 0 to done
        invariant QueueAll(old(rows), pairs, now) == QueueAll(rows, pairs[i..], now)
      {
        assert pairs[i..][0] == (apps[i], Production) && pairs[i..][1..] == pairs[i + 1..];
        rows := rows + [Row((apps[i], Production), Queued, now)];
      }
    }

    /** The query over all rows that are the newest of their pair, the filter on running containers, and the inserts. */
    method AutoHeal(running: set<Pair>, now: int) returns (missing: seq<Pair>)
      modifies this
      ensures Distinct(missing) && forall p :: p in missing <==> p !in running && LongLive(old(rows), p, now)
      ensures rows == Next(old(rows), Heal(missing, running, now))
    {
      missing := [];
      for i := 0 to |rows|
        invariant rows == old(rows) && Distinct(missing)
        invariant forall p :: p in missing <==> Eligible(rows, p, running, now) && Newest(rows, p).value < i
      {
        var p := rows[i].pair;
        if Newest(rows, p) == Some(i) && Eligible(rows, p, running, now) { missing := missing + [p]; }
        forall q | Newest(rows, q) == Some(i) ensures q == p { NewestFacts(rows, q); }
      }
      forall p | Eligible(rows, p, running, now) ensures Newest(rows, p).value < |rows| { NewestFacts(rows, p); }
      forall p ensures Eligible(rows, p, running, now) <==> p !in running && LongLive(rows, p, now) {
        EligibleExactly(rows, p, running, now);
      }
      for i := 0 to |missing|
        invariant QueueAll(old(rows), missing, now) == QueueAll(rows, missing[i..], now)
      {
        assert missing[i..][1..] == missing[i + 1..];
        rows := rows + [Row(missing[i], Queued, now)];
      }
    }
  }

  // ---- what a queued row does to later boots ----------------------------------------------------

  /**
   Row `h` of the pair and everything after it has not gone live, or only at or
   after `since`; and nothing older of the pair can be its newest row.
   */
  ghost predicate QuietFrom(rows: Rows, p: Pair, h: nat, since: Option<int>) {
    && h < |rows| && rows[h].pair == p
    && (forall i :: h <= i < |rows| && rows[i].pair == p && rows[i].status == Live ==>
      since.Some? && rows[i].at >= since.value)
    && (rows[h].status == Deleted ==> forall i :: 0 <= i < h && rows[i].pair == p ==> rows[i].status == Deleted)
  }

  lemma {:induction false} NewestFacts(rows: Rows, p: Pair)
    ensures var id := Newest(rows, p);
      if id.Some?
      then id.value < |rows| && rows[id.value].pair == p && rows[id.value].status != Deleted &&
           forall i :: id.value < i < |rows| && rows[i].pair == p ==> rows[i].status == Deleted
      else forall i :: 0 <= i < |rows| && rows[i].pair == p ==> rows[i].status == Deleted
  {
    if rows != [] { NewestFacts(rows[..|rows| - 1], p); }
  }

  /** A pair is healed exactly when it has no container and its newest remaining row is long live. */
  lemma EligibleExactly(rows: Rows, p: Pair, running: set<Pair>, now: int)
    ensures Eligible(rows, p, running, now) <==> p !in running && LongLive(rows, p, now)
  {
    NewestFacts(rows, p);
    if LongLive(rows, p, now) {
      var i :| 0 <= i < |rows| && rows[i].pair == p && rows[i].status == Live && now - rows[i].at > 300 &&
        forall j :: i < j < |rows| && rows[j].pair == p ==> rows[j].status == Deleted;
      assert Newest(rows, p) == Some(i);
    }
  }

  lemma QuietIsNotEligible(rows: Rows, p: Pair, h: nat, since: Option<int>, running: set<Pair>, now: int)
    requires QuietFrom(rows, p, h, since) && (since.Some? ==> now - since.value <= QUIET)
    ensures !Eligible(rows, p, running, now)
  {
    NewestFacts(rows, p);
  }

  /** A deployment of the pair goes live in this step (before `since`, when that is given). */
  predicate GoesLive(rows: Rows, step: Step, p: Pair, since: Option<int>) {
    step.Change? && step.id < |rows| && rows[step.id].pair == p && step.status == Live &&
      (since.Some? ==> step.now < since.value)
  }

  lemma {:induction false} QueueAllKeeps(rows: Rows, pairs: seq<Pair>, now: int)
    ensures |QueueAll(rows, pairs, now)| == |rows| + |pairs| && QueueAll(rows, pairs, now)[..|rows|] == rows
    ensures forall i :: 0 <= i < |pairs| ==> QueueAll(rows, pairs, now)[|rows| + i] == Row(pairs[i], Queued, now)
    decreases |pairs|
  {
    if pairs != [] {
      var one := rows + [Row(pairs[0], Queued, now)];
      QueueAllKeeps(one, pairs[1..], now);
      var all := QueueAll(one, pairs[1..], now);
      assert all[..|rows|] == all[..|one|][..|rows|] && all[|rows|] == all[..|one|][|rows|];
      forall i | 0 < i < |pairs| ensures all[|rows| + i] == Row(pairs[i], Queued, now) {
        assert all[|one| + (i - 1)] == Row(pairs[1..][i - 1], Queued, now);
      }
    }
  }

  lemma StepKeepsQuiet(rows: Rows, step: Step, p: Pair, h: nat, since: Option<int>)
    requires QuietFrom(rows, p, h, since) && Enabled(rows, step) && !GoesLive(rows, step, p, since)
    ensures QuietFrom(Next(rows, step), p, h, since)
  {
    match step
    case Sentinel(apps, now) => AppendKeepsQuiet(rows, ProductionPairs(apps), now, p, h, since);
    case Heal(pairs, _, now) => AppendKeepsQuiet(rows, pairs, now, p, h, since);
    case _ =>
  }

  lemma AppendKeepsQuiet(rows: Rows, pairs: seq<Pair>, now: int, p: Pair, h: nat, since: Option<int>)
    requires QuietFrom(rows, p, h, since)
    ensures QuietFrom(QueueAll(rows, pairs, now), p, h, since)
  {
    QueueAllKeeps(rows, pairs, now);
    var all := QueueAll(rows, pairs, now);
    forall i | 0 <= i < |all| ensures all[i] == if i < |rows| then rows[i] else Row(pairs[i - |rows|], Queued, now) {
      if i < |rows| {
        assert all[i] == all[..|rows|][i];
      } else {
        assert all[|rows| + (i - |rows|)] == Row(pairs[i - |rows|], Queued, now);
      }
    }
  }

  /** Every step is possible and no deployment of the pair goes live on the way. */
  ghost predicate NeverLive(rows: Rows, steps: seq<Step>, p: Pair, since: Option<int>)
    decreases |steps|
  {
    steps == [] ||
    (&& Enabled(rows, steps[0]) && !GoesLive(rows, steps[0], p, since)
     && NeverLive(Next(rows, steps[0]), steps[1..], p, since))
  }

  lemma {:induction false} RunKeepsQuiet(rows: Rows, steps: seq<Step>, p: Pair, h: nat, since: Option<int>)
    requires QuietFrom(rows, p, h, since) && NeverLive(rows, steps, p, since)
    ensures QuietFrom(Run(rows, steps), p, h, since)
    decreases |steps|
  {
    if steps != [] {
      StepKeepsQuiet(rows, steps[0], p, h, since);
      RunKeepsQuiet(Next(rows, steps[0]), steps[1..], p, h, since);
    }
  }

  lemma QueuedIsQuiet(rows: Rows, pairs: seq<Pair>, now: int, p: Pair) returns (h: nat)
    requires Distinct(pairs) && p in pairs
    ensures QuietFrom(QueueAll(rows, pairs, now), p, h, None)
  {
    QueueAllKeeps(rows, pairs, now);
    var k :| 0 <= k < |pairs| && pairs[k] == p;
    h := |rows| + k;
    var all := QueueAll(rows, pairs, now);
    forall i | h <= i < |all| ensures all[i] == Row(pairs[i - |rows|], Queued, now) {
      assert all[|rows| + (i - |rows|)] == Row(pairs[i - |rows|], Queued, now);
    }
  }

  /**
   After an auto-heal of a pair, and for as long as none of its deployments goes
   live, no boot heals that pair again, whatever is queued, fails, is rolled back or
   deleted in between.
   */
  lemma HealsAreSeparatedByALiveDeploy(
      rows: Rows, heal: Step, between: seq<Step>, p: Pair, running: set<Pair>, now: int)
    requires heal.Heal? && Enabled(rows, heal) && p in heal.pairs
    requires NeverLive(Next(rows, heal), between, p, None)
    ensures !Eligible(Run(Next(rows, heal), between), p, running, now)
  {
    var h := QueuedIsQuiet(rows, heal.pairs, heal.now, p);
    RunKeepsQuiet(Next(rows, heal), between, p, h, None);
    QuietIsNotEligible(Run(Next(rows, heal), between), p, h, None, running, now);
  }

  lemma ProductionPairsDistinct(apps: seq<nat>)
    requires Distinct(apps)
    ensures Distinct(ProductionPairs(apps))
  {
  }

  /**
   Within one boot: a pair the sentinel queued at `t` is not healed at `now`, if the
   heal query runs within five minutes and the deployer finishes nothing before `t`.
   */
  lemma OneQueuePerBoot(rows: Rows, apps: seq<nat>, t: int, between: seq<Step>, p: Pair, running: set<Pair>, now: int)
    requires Distinct(apps) && p in ProductionPairs(apps)
    requires NeverLive(Next(rows, Sentinel(apps, t)), between, p, Some(t)) && now - t <= QUIET
    ensures !Eligible(Run(Next(rows, Sentinel(apps, t)), between), p, running, now)
  {
    ProductionPairsDistinct(apps);
    var h := QueuedIsQuiet(rows, ProductionPairs(apps), t, p);
    var queued := Next(rows, Sentinel(apps, t));
    assert QuietFrom(queued, p, h, Some(t));
    RunKeepsQuiet(queued, between, p, h, Some(t));
    QuietIsNotEligible(Run(queued, between), p, h, Some(t), running, now);
  }

  /** A deployment that is live as soon as it was queued can be healed by any query more than five minutes later. */
  lemma SlowBootQueuesTwice(app: nat, t: int, now: int)
    ensures var rows := Run(Next([], Sentinel([app], t)), [Change(0, Live, t)]);
      Eligible(rows, (app, Production), {}, now) <==> now - t > QUIET
    ensures NeverLive(Next([], Sentinel([app], t)), [Change(0, Live, t)], (app, Production), Some(t))
    ensures (app, Production) in ProductionPairs([app])
  {
    var p: Pair := (app, Production);
    assert ProductionPairs([app]) == [p] && [p][1..] == [];
    var one := [Row(p, Queued, t)];
    assert QueueAll([], [p], t) == QueueAll(one, [], t) by { assert [] + one == one; }
    var two := [Row(p, Live, t)];
    assert Next(one, Change(0, Live, t)) == two;
    assert [Change(0, Live, t)][1..] == [] && Run(two, []) == two && NeverLive(two, [], p, Some(t));
  }

  /** Whatever happens after the sentinel queued a pair at `t`, a query at `now` does not heal it. */
  ghost predicate NeverQueuedTwice(t: int, now: int) {
    forall rows, apps: seq<nat>, between, p, running ::
      Distinct(apps) && p in ProductionPairs(apps) &&
        NeverLive(Next(rows, Sentinel(apps, t)), between, p, Some(t)) ==>
        !Eligible(Run(Next(rows, Sentinel(apps, t)), between), p, running, now)
  }

  /** Sentinel and auto-heal queue one deployment per pair exactly when the heal query comes within five minutes. */
  lemma OneQueuePerBootExactly(t: int, now: int)
    ensures NeverQueuedTwice(t, now) <==> now - t <= 300
  {
    if now - t <= QUIET {
      forall rows, apps: seq<nat>, between, p, running |
        Distinct(apps) && p in ProductionPairs(apps) &&
          NeverLive(Next(rows, Sentinel(apps, t)), between, p, Some(t))
        ensures !Eligible(Run(Next(rows, Sentinel(apps, t)), between), p, running, now)
      {
        OneQueuePerBoot(rows, apps, t, between, p, running, now);
      }
    } else {
      SlowBootQueuesTwice(7, t, now);
      assert Distinct([7]);
    }
  }

  /** A pair is not healed right after any deploy request for it, nor right after its app was deleted. */
  lemma NotHealedAfter(rows: Rows, p: Pair, t: int, running: set<Pair>, now: int)
    ensures !Eligible(Next(rows, Queue(p, t)), p, running, now)
    ensures !Eligible(Next(rows, Delete(p.0)), p, running, now)
  {
    NewestFacts(Next(rows, Delete(p.0)), p);
  }

  /** Boot-time orphan marking fails what was queued, building or deploying and touches nothing else. */
  lemma OrphansAreSettled(rows: Rows, now: int)
    ensures |MarkOrphans(rows, now)| == |rows|
    ensures forall i :: 0 <= i < |rows| ==>
      MarkOrphans(rows, now)[i] ==
      if rows[i].status in {Live, Failed, RolledBack, Deleted} then rows[i] else Row(rows[i].pair, Failed, now)
    ensures forall p, running, t :: Eligible(MarkOrphans(rows, now), p, running, t) <==> Eligible(rows, p, running, t)
  {
    forall p, running, t ensures Eligible(MarkOrphans(rows, now), p, running, t) <==> Eligible(rows, p, running, t) {
      OrphansKeepNewest(rows, now, p);
    }
  }

  lemma {:induction false} OrphansKeepNewest(rows: Rows, now: int, p: Pair)
    ensures Newest(MarkOrphans(rows, now), p) == Newest(rows, p)
    ensures Newest(rows, p).Some? ==> Newest(rows, p).value < |rows|
  {
    if rows != [] {
      OrphansKeepNewest(rows[..|rows| - 1], now, p);
      assert MarkOrphans(rows, now)[..|rows| - 1] == MarkOrphans(rows[..|rows| - 1], now);
    }
  }
}
