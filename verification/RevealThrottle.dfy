/**
 The plaintext-reveal throttle and the coalesced owner notice of
 `GET /api/apps/:slug/env/:env` (server/routes/envVars.js). Both are read from
 the append-only audit log, whose stamps are whole seconds. The MCP tool writes
 to the same log without asking the throttle.
 */
module RevealThrottle {
  import opened Wrappers

  const WINDOW := 600
  const MAX_PER_WINDOW: nat := 30
  const NOTICE_COOLDOWN := 1800

  datatype Door = Http | Mcp

  /** Who reveals which app: the budget is per pair, across environments. */
  type Pair = (nat, nat)

  /**
   An 'env-reveal' or 'secret-reveal' row. `asked` is when the cooldown was queried,
   `noticed` whether a mail went out.
   */
  datatype Row = Row(who: Pair, door: Door, asked: int, at: int, noticed: bool)

  type Log = seq<Row>

  /** The COUNT(*) query: rows of the pair stamped at or after `since`. */
  function CountSince(log: Log, who: Pair, since: int): nat {
    if log == [] then 0
    else
      var r := log[|log| - 1];
      CountSince(log[..|log| - 1], who, since) + (if r.who == who && r.at >= since then 1 else 0)
  }

  /** One reveal: throttle query at `checked`, cooldown query at `asked`, log row at `at`. */
  datatype Event = Reveal(who: Pair, checked: int, asked: int, at: int) | McpReveal(who: Pair, at: int)

  predicate Throttled(log: Log, e: Event) {
    e.Reveal? && CountSince(log, e.who, e.checked - WINDOW) >= MAX_PER_WINDOW
  }

  function Apply(log: Log, e: Event): Log {
    match e
    case Reveal(who, _, asked, at) =>
      if Throttled(log, e) then log
      else log + [Row(who, Http, asked, at, CountSince(log, who, asked - NOTICE_COOLDOWN) == 0)]
    case McpReveal(who, at) => log + [Row(who, Mcp, at, at, false)]
  }

  function Run(log: Log, events: seq<Event>): Log
    decreases |events|
  {
    if events == [] then log else Run(Apply(log, events[0]), events[1..])
  }

  /** Positions of the pair's rows stamped at or after `since`, through either door. */
  ghost function RowsSince(log: Log, who: Pair, since: int): set<int> {
    set i | 0 <= i < |log| && log[i].who == who && since <= log[i].at
  }

  lemma {:induction false} CountIsRows(log: Log, who: Pair, since: int)
    ensures CountSince(log, who, since) == |RowsSince(log, who, since)|
  {
    if log == [] {
      assert RowsSince(log, who, since) == {};
    } else {
      var init, r := log[..|log| - 1], log[|log| - 1];
      CountIsRows(init, who, since);
      assert RowsSince(log, who, since) ==
        RowsSince(init, who, since) + if r.who == who && since <= r.at then {|log| - 1} else {};
    }
  }

  /**
   A reveal is refused exactly when the pair has thirty rows of the last 600 seconds,
   and one that is let through mails the owner exactly when it has none of the last 1800.
   */
  lemma RevealExactly(log: Log, who: Pair, checked: int, asked: int, at: int)
    ensures var e := Reveal(who, checked, asked, at);
      && (Throttled(log, e) <==> |RowsSince(log, who, checked - 600)| >= 30)
      && Apply(log, e) ==
         if |RowsSince(log, who, checked - 600)| >= 30 then log
         else log + [Row(who, Http, asked, at, RowsSince(log, who, asked - 1800) == {})]
  {
    CountIsRows(log, who, checked - 600);
    CountIsRows(log, who, asked - 1800);
  }

  class Audit {
    var log: Log
    var mails: seq<Pair>

    method GetEnvRevealed(who: Pair, checked: int, asked: int, at: int) returns (refused: bool)
      modifies this
      ensures refused <==> |RowsSince(old(log), who, checked - 600)| >= 30
      ensures log == Apply(old(log), Reveal(who, checked, asked, at))
      ensures mails == old(mails) + if !refused && RowsSince(old(log), who, asked - 1800) == {} then [who] else []
    {
      RevealExactly(log, who, checked, asked, at);
      CountIsRows(log, who, asked - NOTICE_COOLDOWN);
      if CountSince(log, who, checked - WINDOW) >= MAX_PER_WINDOW {
        return true;
      }
      var alreadyNotified := CountSince(log, who, asked - NOTICE_COOLDOWN) > 0;
      log := log + [Row(who, Http, asked, at, !alreadyNotified)];
      if !alreadyNotified { mails := mails + [who]; }
      return false;
    }
  }

  // ---- histories ----------------------------------------------------------------------

  predicate InOrder(e: Event, from: int) {
    match e
    case Reveal(_, checked, asked, at) => from <= checked <= asked <= at
    case McpReveal(_, at) => from <= at
  }

  predicate Monotone(events: seq<Event>, from: int) {
    events == [] || (InOrder(events[0], from) && Monotone(events[1..], events[0].at))
  }

  ghost predicate NotAfter(log: Log, now: int) {
    forall i :: 0 <= i < |log| ==> log[i].at <= now
  }

  /** Rows of the pair, through one of `doors`, with a stamp in the closed interval. */
  function CountIn(log: Log, who: Pair, doors: set<Door>, lo: int, hi: int): nat {
    if log == [] then 0
    else
      var r := log[|log| - 1];
      CountIn(log[..|log| - 1], who, doors, lo, hi) +
        (if r.who == who && r.door in doors && lo <= r.at <= hi then 1 else 0)
  }

  lemma {:induction false} CountInAtMostSince(log: Log, who: Pair, doors: set<Door>, lo: int, hi: int, since: int)
    requires since <= lo
    ensures CountIn(log, who, doors, lo, hi) <= CountSince(log, who, since)
  {
    if log != [] { CountInAtMostSince(log[..|log| - 1], who, doors, lo, hi, since); }
  }

  lemma {:induction false} CountInIsSince(log: Log, who: Pair, lo: int, hi: int)
    requires NotAfter(log, hi)
    ensures CountIn(log, who, {Http, Mcp}, lo, hi) == CountSince(log, who, lo)
  {
    if log != [] {
      CountInIsSince(log[..|log| - 1], who, lo, hi);
      match log[|log| - 1].door case Http => case Mcp =>
    }
  }

  function InWindow(log: Log, who: Pair, doors: set<Door>, lo: int): nat {
    CountIn(log, who, doors, lo, lo + WINDOW)
  }

  /** At most 30 rows of every pair, through the given doors, in every closed 10-minute interval. */
  ghost predicate Bounded(log: Log, doors: set<Door>) {
    forall who, lo :: InWindow(log, who, doors, lo) <= MAX_PER_WINDOW
  }

  lemma AppendedRow(log: Log, r: Row, who: Pair, doors: set<Door>, lo: int, hi: int)
    ensures CountIn(log + [r], who, doors, lo, hi) ==
            CountIn(log, who, doors, lo, hi) + if r.who == who && r.door in doors && lo <= r.at <= hi then 1 else 0
  {
    assert (log + [r])[..|log|] == log;
  }

  lemma AppendKeepsBound(log: Log, r: Row, doors: set<Door>, since: int)
    requires Bounded(log, doors) && since <= r.at - WINDOW
    requires r.door in doors ==> CountSince(log, r.who, since) < MAX_PER_WINDOW
    ensures Bounded(log + [r], doors)
  {
    forall who, lo ensures InWindow(log + [r], who, doors, lo) <= MAX_PER_WINDOW {
      AppendedRow(log, r, who, doors, lo, lo + WINDOW);
      assert InWindow(log, who, doors, lo) <= MAX_PER_WINDOW;
      if r.who == who && r.door in doors && lo <= r.at <= lo + WINDOW {
        CountInAtMostSince(log, who, doors, lo, lo + WINDOW, since);
      }
    }
  }

  /** Through this handler, no 10-minute interval of any history ever holds more than 30, whatever the MCP tool logs. */
  lemma {:induction false} HandlerRevealsAreBounded(log: Log, events: seq<Event>, now: int)
    requires Monotone(events, now) && Bounded(log, {Http})
    ensures Bounded(Run(log, events), {Http})
    decreases |events|
  {
    if events != [] {
      var e := events[0];
      if e.McpReveal? {
        AppendKeepsBound(log, Row(e.who, Mcp, e.at, e.at, false), {Http}, e.at - WINDOW);
      } else if !Throttled(log, e) {
        AppendKeepsBound(log, Apply(log, e)[|log|], {Http}, e.checked - WINDOW);
      }
      HandlerRevealsAreBounded(Apply(log, e), events[1..], e.at);
    }
  }

  /** Every MCP reveal happens while the pair still has budget. */
  ghost predicate McpInBudget(log: Log, events: seq<Event>)
    decreases |events|
  {
    events == [] ||
    (&& (events[0].McpReveal? ==> CountSince(log, events[0].who, events[0].at - WINDOW) < MAX_PER_WINDOW)
     && McpInBudget(Apply(log, events[0]), events[1..]))
  }

  ghost predicate BoundedThroughout(log: Log, events: seq<Event>)
    decreases |events|
  {
    Bounded(log, {Http, Mcp}) && (events == [] || BoundedThroughout(Apply(log, events[0]), events[1..]))
  }

  /**
   Counting both doors, the bound holds all along exactly when the MCP tool never
   reveals past the budget it does not check.
   */
  lemma {:induction false} BothDoorsBoundedExactly(log: Log, events: seq<Event>, now: int)
    requires Monotone(events, now) && NotAfter(log, now) && Bounded(log, {Http, Mcp})
    ensures BoundedThroughout(log, events) <==> McpInBudget(log, events)
    decreases |events|
  {
    if events != [] {
      var e := events[0];
      if e.McpReveal? && CountSince(log, e.who, e.at - WINDOW) >= MAX_PER_WINDOW {
        var r := Row(e.who, Mcp, e.at, e.at, false);
        CountInIsSince(log, e.who, e.at - WINDOW, e.at);
        AppendedRow(log, r, e.who, {Http, Mcp}, e.at - WINDOW, e.at);
        assert InWindow(Apply(log, e), e.who, {Http, Mcp}, e.at - WINDOW) > MAX_PER_WINDOW;
      } else {
        if e.McpReveal? {
          AppendKeepsBound(log, Row(e.who, Mcp, e.at, e.at, false), {Http, Mcp}, e.at - WINDOW);
        } else if !Throttled(log, e) {
          AppendKeepsBound(log, Apply(log, e)[|log|], {Http, Mcp}, e.checked - WINDOW);
        }
        BothDoorsBoundedExactly(Apply(log, e), events[1..], e.at);
      }
    }
  }

  // ---- notices --------------------------------------------------------------------------

  /** The stamp of the pair's last row. */
  function LastAt(log: Log, who: Pair): Option<int> {
    if log == [] then None
    else if log[|log| - 1].who == who then Some(log[|log| - 1].at)
    else LastAt(log[..|log| - 1], who)
  }

  ghost predicate Sorted(log: Log) {
    forall i, j :: 0 <= i < j < |log| ==> log[i].at <= log[j].at
  }

  lemma {:induction false} NoneSince(log: Log, who: Pair, since: int)
    requires Sorted(log)
    ensures CountSince(log, who, since) == 0 <==> LastAt(log, who).None? || LastAt(log, who).value < since
  {
    if log != [] {
      var init, last := log[..|log| - 1], log[|log| - 1];
      NoneSince(init, who, since);
      if last.who == who && last.at < since { AllBefore(init, who, since); }
    }
  }

  lemma {:induction false} AllBefore(log: Log, who: Pair, since: int)
    requires forall i :: 0 <= i < |log| ==> log[i].at < since
    ensures CountSince(log, who, since) == 0
  {
    if log != [] { AllBefore(log[..|log| - 1], who, since); }
  }

  /**
   A handler row carries a notice exactly when it starts a chain: it is the pair's
   first row, or more than 30 minutes after the one before it.
   */
  ghost predicate NoticesStartChains(log: Log) {
    forall i :: 0 <= i < |log| && log[i].door == Http ==>
      var before := LastAt(log[..i], log[i].who);
      (log[i].noticed <==> before.None? || log[i].asked - before.value > NOTICE_COOLDOWN)
  }

  ghost predicate RowsOk(log: Log) {
    Sorted(log) && NoticesStartChains(log) && forall i :: 0 <= i < |log| ==>
      log[i].asked <= log[i].at && (log[i].noticed ==> log[i].door == Http)
  }

  lemma ApplyKeepsRows(log: Log, e: Event, now: int)
    requires RowsOk(log) && NotAfter(log, now) && InOrder(e, now)
    ensures RowsOk(Apply(log, e)) && NotAfter(Apply(log, e), e.at)
  {
    var next := Apply(log, e);
    if next != log {
      assert next[..|log|] == log;
      forall i | 0 <= i < |log| ensures next[..i] == log[..i] {}
      if e.Reveal? { NoneSince(log, e.who, e.asked - NOTICE_COOLDOWN); }
    }
  }

  lemma {:induction false} EveryChainIsNoticedAtItsStart(log: Log, events: seq<Event>, now: int)
    requires RowsOk(log) && NotAfter(log, now) && Monotone(events, now)
    ensures RowsOk(Run(log, events))
    decreases |events|
  {
    if events != [] {
      ApplyKeepsRows(log, events[0], now);
      EveryChainIsNoticedAtItsStart(Apply(log, events[0]), events[1..], events[0].at);
    }
  }

  lemma {:induction false} LastAtIsLatest(log: Log, i: nat)
    requires Sorted(log) && i < |log|
    ensures LastAt(log, log[i].who).Some? && LastAt(log, log[i].who).value >= log[i].at
  {
    if log[|log| - 1].who != log[i].who { LastAtIsLatest(log[..|log| - 1], i); }
  }

  /** Two notices of one pair are always more than 30 minutes apart, MCP reveals or not. */
  lemma NoticesAreApart(log: Log, i: nat, j: nat)
    requires RowsOk(log) && i < j < |log| && log[i].who == log[j].who && log[i].noticed && log[j].noticed
    ensures log[j].at - log[i].at > NOTICE_COOLDOWN
  {
    LastAtIsLatest(log[..j], i);
  }

  /** A chain that an MCP reveal starts gets no notice at all. */
  lemma McpSilencesNotice(who: Pair)
    ensures var log := Run([], [McpReveal(who, 0), Reveal(who, 10, 10, 10)]);
      |log| == 2 && log[1].door == Http && !log[0].noticed && !log[1].noticed
  {
    var e0, e1 := McpReveal(who, 0), Reveal(who, 10, 10, 10);
    var r := Row(who, Mcp, 0, 0, false);
    assert Apply([], e0) == [r];
    assert [r][..0] == [] && CountSince([], who, 10 - WINDOW) == 0;
    assert CountSince([r], who, 10 - WINDOW) == 1 && CountSince([r], who, 10 - NOTICE_COOLDOWN) == 1;
    assert Apply([r], e1) == [r, Row(who, Http, 10, 10, false)];
    assert Run([r, Row(who, Http, 10, 10, false)], []) == [r, Row(who, Http, 10, 10, false)];
    assert [e0, e1][1..] == [e1] && [e1][1..] == [];
  }

  /** The MCP tool, `n` times in one second. */
  function McpBurst(who: Pair, n: nat): seq<Event> {
    if n == 0 then [] else [McpReveal(who, 0)] + McpBurst(who, n - 1)
  }

  /** Every one of them is logged, so 31 already break the bound that counts both doors. */
  lemma {:induction false} McpBurstIsUnbounded(log: Log, who: Pair, n: nat)
    ensures InWindow(Run(log, McpBurst(who, n)), who, {Http, Mcp}, 0) == InWindow(log, who, {Http, Mcp}, 0) + n
    decreases n
  {
    if n > 0 {
      var r := Row(who, Mcp, 0, 0, false);
      assert McpBurst(who, n)[1..] == McpBurst(who, n - 1);
      AppendedRow(log, r, who, {Http, Mcp}, 0, WINDOW);
      McpBurstIsUnbounded(log + [r], who, n - 1);
    }
  }

  lemma ThirtyOneMcpReveals(who: Pair)
    ensures !Bounded(Run([], McpBurst(who, MAX_PER_WINDOW + 1)), {Http, Mcp})
  {
    McpBurstIsUnbounded([], who, MAX_PER_WINDOW + 1);
    assert InWindow(Run([], McpBurst(who, MAX_PER_WINDOW + 1)), who, {Http, Mcp}, 0) > MAX_PER_WINDOW;
  }
}
