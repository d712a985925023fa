/**
 Which failed boots reset the tree, how often, where to, and what the reconcile
 then reports: every run of the hosts of SelfUpdate, for every pair of data
 directories.
 */
module Rollback {
  import opened Wrappers
  import opened SelfUpdate

  // ---- the in-process rollback is never entered ----------------------------------------------

  /** A process that has reached app.listen holds a database handle. */
  ghost predicate HandleWhenListening(h: Host) {
    h.process.Up? && h.process.stage != Loading ==> h.process.handle
  }

  lemma StepKeepsHandle(l: Layout, h: Host, step: Step, version: Sha -> string)
    requires HandleWhenListening(h)
    ensures HandleWhenListening(Next(l, h, step, version)) && Next(l, h, step, version).entered == h.entered
  {
  }

  /** Over every run, however boots fail, maybeAutoRollback is never called. */
  lemma {:induction false} InProcessRollbackIsDead(l: Layout, h: Host, steps: seq<Step>, version: Sha -> string)
    requires HandleWhenListening(h)
    ensures HandleWhenListening(Run(l, h, steps, version)) && Run(l, h, steps, version).entered == h.entered
    decreases |steps|
  {
    if steps != [] {
      StepKeepsHandle(l, h, steps[0], version);
      InProcessRollbackIsDead(l, Next(l, h, steps[0], version), steps[1..], version);
    }
  }

  // ---- what resets the tree --------------------------------------------------------------------

  /** The death a step brings about in this state, if any. */
  function DeathOf(h: Host, step: Step): Option<Death> {
    match step
    case Load(db, rest, death) => if At(h, Loading) && !(db == Opened && rest) then Some(death) else None
    case Update(_, ResetOnly(death)) => if At(h, Serving) then death else None
    case Update(_, TornRecord(death)) => if At(h, Serving) then death else None
    case Update(_, Recorded(exit)) => if At(h, Serving) then Some(exit) else None
    case Stop(death) => if h.process.Up? then Some(death) else None
    case _ => None
  }

  /** The wrapper gets as far as its reset. */
  predicate AsksForReset(h: Host, step: Step) {
    var d := DeathOf(h, step);
    d.Some? && d.value.Early? && d.value.wrapper.resets
  }

  /** What a step has done by the time its process dies, if it does. */
  function BeforeDeath(l: Layout, h: Host, step: Step, version: Sha -> string): Host {
    if !step.Update? || !At(h, Serving) then h
    else
      var moved := h.(tree := step.origin);
      match step.stop
      case Refused => h
      case ResetOnly(_) => moved
      case TornRecord(_) => moved.(files := h.files[NodeFile(l) := Unreadable])
      case Recorded(_) => Record(l, moved, h.tree, version(step.origin))
  }

  /** The wrapper gets to its reset, and its own path holds a readable, uncompleted record with budget left. */
  predicate RollsBack(l: Layout, h: Host, step: Step, version: Sha -> string) {
    AsksForReset(h, step) && MayRollBack(FileAt(BeforeDeath(l, h, step, version), WrapperFile(l)))
  }

  lemma DeathResets(l: Layout, h: Host, d: Death)
    ensures var next, file := Dies(l, h, d), FileAt(h, WrapperFile(l));
      if d.Early? && d.wrapper.resets && MayRollBack(file)
      then
        && next.tree == file.pending.previousSha.value
        && ResetsAt(next, WrapperFile(l)) == ResetsAt(h, WrapperFile(l)) + 1
      else next.tree == h.tree && next.resets == h.resets
  {
  }

  /** Every step, update or boot: these and no others move the tree away from where the step itself left it. */
  lemma ResetsExactly(l: Layout, h: Host, step: Step, version: Sha -> string)
    requires HandleWhenListening(h)
    ensures var next, before := Next(l, h, step, version), BeforeDeath(l, h, step, version);
      if RollsBack(l, h, step, version)
      then
        && next.tree == FileAt(before, WrapperFile(l)).pending.previousSha.value
        && ResetsAt(next, WrapperFile(l)) == ResetsAt(before, WrapperFile(l)) + 1
      else next.tree == before.tree && next.resets == before.resets
  {
    match step
    case Load(db, rest, death) =>
      if At(h, Loading) && !(db == Opened && rest) {
        DeathResets(l, h.(process := h.process.(handle := h.process.handle || db != OpenFails)), death);
      }
    case Update(origin, stop) =>
      if At(h, Serving) && DeathOf(h, step).Some? {
        DeathResets(l, BeforeDeath(l, h, step, version), DeathOf(h, step).value);
      }
    case Stop(death) => if h.process.Up? { DeathResets(l, h, death); }
    case _ =>
  }

  /** No step of the run rolls the tree back. */
  predicate NeverRolls(l: Layout, h: Host, steps: seq<Step>, version: Sha -> string)
    decreases |steps|
  {
    steps == [] ||
    (!RollsBack(l, h, steps[0], version) && NeverRolls(l, Next(l, h, steps[0], version), steps[1..], version))
  }

  // ---- the two data directories ------------------------------------------------------------------

  predicate OneRecord(l: Layout) {
    NodeFile(l) == WrapperFile(l)
  }

  /** The process writes where the wrapper reads exactly when its DATA_DIR is the wrapper's `.self-update` directory. */
  lemma OneRecordExactly(l: Layout)
    ensures OneRecord(l) <==> l.nodeDir == l.wrapperDir + [".self-update"]
    ensures l.nodeDir == l.wrapperDir ==> !OneRecord(l)
  {
    var n, w := NodeFile(l), WrapperFile(l);
    assert w == (l.wrapperDir + [".self-update"]) + [RECORD];
    assert n[..|l.nodeDir|] == l.nodeDir && w[..|l.wrapperDir| + 1] == l.wrapperDir + [".self-update"];
    assert |n| == |l.nodeDir| + 1 && |w| == |l.wrapperDir| + 2;
  }

  lemma StepKeepsWrapperFile(l: Layout, h: Host, step: Step, version: Sha -> string)
    requires HandleWhenListening(h) && !OneRecord(l) && !MayRollBack(FileAt(h, WrapperFile(l)))
    ensures FileAt(Next(l, h, step, version), WrapperFile(l)) == FileAt(h, WrapperFile(l))
    ensures FileAt(BeforeDeath(l, h, step, version), WrapperFile(l)) == FileAt(h, WrapperFile(l))
  {
  }

  /** With two records, and none to roll back to where the wrapper looks, no step of any run rolls anything back. */
  lemma {:induction false} TwoRecordsNeverRoll(l: Layout, h: Host, steps: seq<Step>, version: Sha -> string)
    requires HandleWhenListening(h) && !OneRecord(l) && !MayRollBack(FileAt(h, WrapperFile(l)))
    ensures NeverRolls(l, h, steps, version)
    ensures FileAt(Run(l, h, steps, version), WrapperFile(l)) == FileAt(h, WrapperFile(l))
    ensures KeepsTree(steps) ==> Run(l, h, steps, version).tree == h.tree
    decreases |steps|
  {
    if steps != [] {
      StepKeepsHandle(l, h, steps[0], version);
      StepKeepsWrapperFile(l, h, steps[0], version);
      ResetsExactly(l, h, steps[0], version);
      assert steps[0] in steps && forall s :: s in steps[1..] ==> s in steps;
      TwoRecordsNeverRoll(l, Next(l, h, steps[0], version), steps[1..], version);
    }
  }

  const FRESH := Host(0, Down, map[], {}, 0, map[])
  const FULL := Outcome(Counted, true)

  /** A healthy first boot, an update, and a release whose migrations throw. */
  const BAD_RELEASE := [
    Spawn, Load(Opened, true, Late), Listen(Written, FULL, Late), Update(1, Recorded(Clean)),
    Spawn, Load(MigrateFails, true, Early(FULL))]

  lemma OneRecordRolls(l: Layout, version: Sha -> string)
    requires OneRecord(l)
    ensures Run(l, FRESH, BAD_RELEASE, version).tree == 0 &&
      ResetsAt(Run(l, FRESH, BAD_RELEASE, version), WrapperFile(l)) == 1
  {
    var s := BAD_RELEASE;
    var h1 := Next(l, FRESH, s[0], version);
    var h2 := Next(l, h1, s[1], version);
    var h3 := Next(l, h2, s[2], version);
    assert At(h3, Serving) && h3.tree == 0 && h3.resets == map[];
    var h4 := Next(l, h3, s[3], version);
    assert FileAt(h4, NodeFile(l)) == Holds(Pending(Some(0), version(1), 0, None)) && h4.process == Down;
    var h5 := Next(l, h4, s[4], version);
    var h6 := Next(l, h5, s[5], version);
    assert h6.tree == 0 && ResetsAt(h6, WrapperFile(l)) == 1;
    RunSix(l, FRESH, s, version);
  }

  lemma RunSix(l: Layout, h: Host, s: seq<Step>, version: Sha -> string)
    requires |s| == 6
    ensures var mid := Next(l, Next(l, Next(l, h, s[0], version), s[1], version), s[2], version);
      Run(l, h, s, version) == Next(l, Next(l, Next(l, mid, s[3], version), s[4], version), s[5], version)
  {
    RunSplit(l, h, s, 3, version);
    RunThree(l, h, s[..3], version);
    RunThree(l, Run(l, h, s[..3], version), s[3..], version);
  }

  lemma RunThree(l: Layout, h: Host, s: seq<Step>, version: Sha -> string)
    requires |s| == 3
    ensures Run(l, h, s, version) == Next(l, Next(l, Next(l, h, s[0], version), s[1], version), s[2], version)
  {
    assert s[1..][0] == s[1] && s[1..][1..][0] == s[2] && s[1..][1..][1..] == [];
    var h1 := Next(l, h, s[0], version);
    var h2 := Next(l, h1, s[1], version);
    assert Run(l, h2, s[1..][1..], version) == Run(l, Next(l, h2, s[2], version), [], version);
    assert Run(l, h1, s[1..], version) == Run(l, h2, s[1..][1..], version);
  }

  lemma {:induction false} RunSplit(l: Layout, h: Host, s: seq<Step>, n: nat, version: Sha -> string)
    requires n <= |s|
    ensures Run(l, h, s, version) == Run(l, Run(l, h, s[..n], version), s[n..], version)
    decreases |s|
  {
    if n == 0 {
      assert s[..0] == [] && s[0..] == s;
    } else {
      RunSplit(l, Next(l, h, s[0], version), s[1..], n - 1, version);
      assert s[1..][..n - 1] == s[..n][1..] && s[1..][n - 1..] == s[n..];
    }
  }

  /** A run without a rollback leaves the record's reset count at what its updates made it. */
  lemma {:induction false} NeverRollsMeansNoResets(l: Layout, h: Host, steps: seq<Step>, version: Sha -> string)
    requires HandleWhenListening(h) && NeverRolls(l, h, steps, version)
    ensures ResetsAt(Run(l, h, steps, version), WrapperFile(l)) <= ResetsAt(h, WrapperFile(l))
    decreases |steps|
  {
    if steps != [] {
      StepKeepsHandle(l, h, steps[0], version);
      ResetsExactly(l, h, steps[0], version);
      NeverRollsMeansNoResets(l, Next(l, h, steps[0], version), steps[1..], version);
    }
  }

  /** From an installed host, no step of any run rolls back if and only if the two programs name different files. */
  lemma RollbackIsDeadExactly(l: Layout, version: Sha -> string)
    ensures (forall steps :: NeverRolls(l, FRESH, steps, version)) <==> !OneRecord(l)
  {
    if OneRecord(l) {
      OneRecordRolls(l, version);
      if NeverRolls(l, FRESH, BAD_RELEASE, version) { NeverRollsMeansNoResets(l, FRESH, BAD_RELEASE, version); }
      assert !NeverRolls(l, FRESH, BAD_RELEASE, version);
    } else {
      forall steps ensures NeverRolls(l, FRESH, steps, version) { TwoRecordsNeverRoll(l, FRESH, steps, version); }
    }
  }

  // ---- the budget -----------------------------------------------------------------------

  /** The wrapper's outcome of the death this step asks for, wherever it is taken. */
  function WrapperOutcome(step: Step): Option<Outcome> {
    var d := match step
      case Load(_, _, death) => Some(death)
      case Listen(_, _, exit) => Some(exit)
      case Update(_, ResetOnly(death)) => death
      case Update(_, TornRecord(death)) => death
      case Update(_, Recorded(exit)) => Some(exit)
      case Stop(death) => Some(death)
      case _ => None;
    if d.Some? && d.value.Early? then Some(d.value.wrapper) else None
  }

  /** Every rollback the wrapper attempts on the way ends in one of these ways. */
  predicate Within(steps: seq<Step>, allowed: set<Outcome>) {
    forall s :: s in steps && WrapperOutcome(s).Some? ==> WrapperOutcome(s).value in allowed
  }

  const UNCOUNTED := Outcome(Kept, true)

  /** The record never counts fewer attempts than there were resets. */
  ghost predicate BudgetAt(h: Host, path: Path) {
    && ResetsAt(h, path) <= BUDGET
    && (FileAt(h, path).Holds? ==> ResetsAt(h, path) <= FileAt(h, path).pending.attempts <= BUDGET)
  }

  lemma DeathKeepsBudget(l: Layout, h: Host, d: Death, path: Path)
    requires BudgetAt(h, path) && d != Early(UNCOUNTED)
    ensures BudgetAt(Dies(l, h, d), path)
  {
  }

  lemma UpdateKeepsBudget(l: Layout, h: Host, step: Step, version: Sha -> string, path: Path)
    requires step.Update? && BudgetAt(h, path) && WrapperOutcome(step) != Some(UNCOUNTED)
    ensures BudgetAt(UpdateTo(l, h, step.origin, version, step.stop), path)
  {
    var moved := h.(tree := step.origin);
    match step.stop
    case Refused =>
    case ResetOnly(death) =>
      if death != None { DeathKeepsBudget(l, moved, death.value, path); }
    case TornRecord(death) =>
      if death != None { DeathKeepsBudget(l, moved.(files := h.files[NodeFile(l) := Unreadable]), death.value, path); }
    case Recorded(exit) =>
      DeathKeepsBudget(l, Record(l, moved, h.tree, version(step.origin)), exit, path);
  }

  lemma ListenKeepsBudget(l: Layout, h: Host, step: Step, version: Sha -> string, path: Path)
    requires step.Listen? && h.process.Up? && BudgetAt(h, path) && WrapperOutcome(step) != Some(UNCOUNTED)
    ensures BudgetAt(OnListen(l, h, version, step.reconcile, step.inner, step.exit), path)
  {
    if !h.process.handle {
      var back := RollBackInProcess(h, l, step.inner);
      assert BudgetAt(back, path);
      DeathKeepsBudget(l, back, if back.resets != h.resets then Clean else step.exit, path);
    }
  }

  lemma StepKeepsBudget(l: Layout, h: Host, step: Step, version: Sha -> string, path: Path)
    requires BudgetAt(h, path) && WrapperOutcome(step) != Some(UNCOUNTED)
    ensures BudgetAt(Next(l, h, step, version), path)
  {
    match step
    case Load(db, rest, death) =>
      if At(h, Loading) && !(db == Opened && rest) {
        var loaded := h.(process := h.process.(handle := h.process.handle || db != OpenFails));
        DeathKeepsBudget(l, loaded, death, path);
      }
    case Listen(_, _, _) => if At(h, Ready) { ListenKeepsBudget(l, h, step, version, path); }
    case Update(_, _) => if At(h, Serving) { UpdateKeepsBudget(l, h, step, version, path); }
    case Stop(death) => if h.process.Up? { DeathKeepsBudget(l, h, death, path); }
    case Spawn =>
  }

  /** While every reset is preceded by a counted or torn write, a record causes at most 3 of them. */
  lemma {:induction false} BudgetHolds(
    l: Layout, h: Host, steps: seq<Step>, version: Sha -> string, path: Path, allowed: set<Outcome>)
    requires BudgetAt(h, path) && Within(steps, allowed) && UNCOUNTED !in allowed
    ensures BudgetAt(Run(l, h, steps, version), path)
    decreases |steps|
  {
    if steps != [] {
      assert steps[0] in steps;
      assert forall s :: s in steps[1..] ==> s in steps;
      StepKeepsBudget(l, h, steps[0], version, path);
      BudgetHolds(l, Next(l, h, steps[0], version), steps[1..], version, path, allowed);
    }
  }

  /** A release that fails its migrations, boot after boot, each rollback ending in the same way. */
  function CrashLoop(n: nat, o: Outcome): seq<Step> {
    if n == 0 then [] else [Spawn, Load(MigrateFails, true, Early(o))] + CrashLoop(n - 1, o)
  }

  lemma CrashResets(l: Layout, h: Host, version: Sha -> string)
    requires h.process == Down && MayRollBack(FileAt(h, WrapperFile(l)))
    ensures var next := Next(l, Next(l, h, Spawn, version), Load(MigrateFails, true, Early(UNCOUNTED)), version);
      && next.process == Down && MayRollBack(FileAt(next, WrapperFile(l)))
      && ResetsAt(next, WrapperFile(l)) == ResetsAt(h, WrapperFile(l)) + 1
  {
  }

  /** Then every boot resets the tree again, any number of times. */
  lemma {:induction false} CrashLoopNeverStops(l: Layout, h: Host, n: nat, version: Sha -> string)
    requires h.process == Down && MayRollBack(FileAt(h, WrapperFile(l)))
    ensures ResetsAt(Run(l, h, CrashLoop(n, UNCOUNTED), version), WrapperFile(l)) == ResetsAt(h, WrapperFile(l)) + n
    ensures Within(CrashLoop(n, UNCOUNTED), {UNCOUNTED})
    decreases n
  {
    if n > 0 {
      var rest := CrashLoop(n - 1, UNCOUNTED);
      CrashResets(l, h, version);
      RunTwoMore(l, h, Spawn, Load(MigrateFails, true, Early(UNCOUNTED)), rest, version);
      CrashLoopNeverStops(
        l, Next(l, Next(l, h, Spawn, version), Load(MigrateFails, true, Early(UNCOUNTED)), version), n - 1, version);
    }
  }

  lemma RunTwoMore(l: Layout, h: Host, s: Step, t: Step, rest: seq<Step>, version: Sha -> string)
    ensures Run(l, h, [s, t] + rest, version) == Run(l, Next(l, Next(l, h, s, version), t, version), rest, version)
  {
    assert ([s, t] + rest)[1..] == [t] + rest && ([t] + rest)[1..] == rest;
    assert Run(l, Next(l, h, s, version), [t] + rest, version) ==
      Run(l, Next(l, Next(l, h, s, version), t, version), rest, version);
  }

  lemma CountedCrash(l: Layout, h: Host, version: Sha -> string)
    requires h.process == Down && FileAt(h, WrapperFile(l)).Holds?
    ensures var path := WrapperFile(l);
      var next := Next(l, Next(l, h, Spawn, version), Load(MigrateFails, true, Early(FULL)), version);
      var file := FileAt(h, path).pending;
      if file.completed == None && file.previousSha.Some? && file.attempts < 3 then
        && next.process == Down && next.tree == file.previousSha.value
        && ResetsAt(next, path) == ResetsAt(h, path) + 1
        && FileAt(next, path) == Holds(file.(attempts := file.attempts + 1))
      else next == h
  {
  }

  /**
   A counter that can be written stops the loop: however many boots fail, a record
   that has used up `attempts` of its budget resets the tree for each of the first
   3 - attempts of them, and then never again.
   */
  lemma {:induction false} CountedLoopStops(l: Layout, h: Host, n: nat, version: Sha -> string)
    requires h.process == Down && FileAt(h, WrapperFile(l)).Holds?
    requires var file := FileAt(h, WrapperFile(l)).pending;
      file.completed == None && file.previousSha.Some? && file.attempts <= 3
    ensures var file := FileAt(h, WrapperFile(l)).pending;
      var end, left := Run(l, h, CrashLoop(n, FULL), version), 3 - file.attempts;
      && ResetsAt(end, WrapperFile(l)) == ResetsAt(h, WrapperFile(l)) + (if n < left then n else left)
      && end.tree == if n > 0 && left > 0 then file.previousSha.value else h.tree
    decreases n
  {
    if n > 0 {
      var next := Next(l, Next(l, h, Spawn, version), Load(MigrateFails, true, Early(FULL)), version);
      CountedCrash(l, h, version);
      RunTwoMore(l, h, Spawn, Load(MigrateFails, true, Early(FULL)), CrashLoop(n - 1, FULL), version);
      CountedLoopStops(l, next, n - 1, version);
    }
  }

  /**
   The 3-reset bound of a live record holds over every run exactly when no rollback
   on the way resets the tree with its counter left as it was.
   */
  lemma BudgetHoldsExactly(l: Layout, h: Host, version: Sha -> string, allowed: set<Outcome>)
    requires h.process == Down && MayRollBack(FileAt(h, WrapperFile(l))) && BudgetAt(h, WrapperFile(l))
    ensures UNCOUNTED !in allowed <==>
      forall steps :: Within(steps, allowed) ==> ResetsAt(Run(l, h, steps, version), WrapperFile(l)) <= BUDGET
  {
    if UNCOUNTED in allowed {
      CrashLoopNeverStops(l, h, BUDGET + 1, version);
      assert Within(CrashLoop(BUDGET + 1, UNCOUNTED), allowed);
    } else {
      forall steps | Within(steps, allowed) ensures ResetsAt(Run(l, h, steps, version), WrapperFile(l)) <= BUDGET {
        BudgetHolds(l, h, steps, version, WrapperFile(l), allowed);
      }
    }
  }

  // ---- one record from its write to its end -------------------------------------------------------

  ghost predicate Completed(h: Host, path: Path) {
    FileAt(h, path).Holds? && FileAt(h, path).pending.completed.Some?
  }

  /** Only a listen callback that found its handle completes a record, and it says whether its version is the target. */
  lemma SuccessIsTheBootedVersion(l: Layout, h: Host, step: Step, version: Sha -> string)
    requires HandleWhenListening(h) && !Completed(h, NodeFile(l)) && Completed(Next(l, h, step, version), NodeFile(l))
    ensures var next := Next(l, h, step, version);
      && step.Listen? && At(h, Ready) && At(next, Serving) && h.process.sha in next.booted
      && FileAt(h, NodeFile(l)).Holds?
      && FileAt(next, NodeFile(l)).pending.completed ==
         Some(FileAt(h, NodeFile(l)).pending.targetVersion == version(h.process.sha))
  {
  }

  /** No update gets as far as another record; it may be refused, or fail after its reset. */
  predicate NoFurtherRecord(steps: seq<Step>) {
    forall s :: s in steps && s.Update? ==> !s.stop.Recorded?
  }

  /** Every update on the way is refused. */
  predicate KeepsTree(steps: seq<Step>) {
    forall s :: s in steps && s.Update? ==> s.stop.Refused?
  }

  /** What a step without a further record can do to the record at a path. */
  lemma StepOnRecord(l: Layout, h: Host, step: Step, version: Sha -> string)
    requires HandleWhenListening(h) && NoFurtherRecord([step])
    ensures var file, next := FileAt(h, NodeFile(l)), FileAt(Next(l, h, step, version), NodeFile(l));
      && (next.Holds? ==> file.Holds? && next.pending.targetVersion == file.pending.targetVersion)
      && (next.Holds? && Completed(h, NodeFile(l)) ==> next == file)
  {
    assert step in [step];
  }

  /** A record that is completed now and still there at the end is the same one. */
  lemma {:induction false} CompletedStays(l: Layout, h: Host, steps: seq<Step>, version: Sha -> string)
    requires HandleWhenListening(h) && NoFurtherRecord(steps) && FileAt(Run(l, h, steps, version), NodeFile(l)).Holds?
    ensures FileAt(h, NodeFile(l)).Holds?
    ensures Completed(h, NodeFile(l)) ==> FileAt(Run(l, h, steps, version), NodeFile(l)) == FileAt(h, NodeFile(l))
    decreases |steps|
  {
    if steps != [] {
      assert steps[0] in steps && forall s :: s in steps[1..] ==> s in steps;
      StepKeepsHandle(l, h, steps[0], version);
      StepOnRecord(l, h, steps[0], version);
      CompletedStays(l, Next(l, h, steps[0], version), steps[1..], version);
    }
  }

  /** A reconcile whose write tears the record loses its verdict for good: only another update writes a record again. */
  lemma TornReconcileIsLost(
    l: Layout, h: Host, inner: Outcome, exit: Death, steps: seq<Step>, version: Sha -> string)
    requires HandleWhenListening(h) && At(h, Ready) && NoFurtherRecord(steps)
    requires FileAt(h, NodeFile(l)).Holds? && !Completed(h, NodeFile(l))
    ensures var torn := Next(l, h, Listen(TornWrite, inner, exit), version);
      !FileAt(Run(l, torn, steps, version), NodeFile(l)).Holds?
  {
    var torn := Next(l, h, Listen(TornWrite, inner, exit), version);
    StepKeepsHandle(l, h, Listen(TornWrite, inner, exit), version);
    if FileAt(Run(l, torn, steps, version), NodeFile(l)).Holds? { CompletedStays(l, torn, steps, version); }
  }

  /** The n-th step of the run is the reconcile that completed the record now at the end. */
  ghost predicate CompletedBy(l: Layout, h: Host, steps: seq<Step>, n: nat, version: Sha -> string) {
    && n < |steps| && steps[n].Listen?
    && var before := Run(l, h, steps[..n], version);
       && At(before, Ready) && !Completed(before, NodeFile(l))
       && Completed(Run(l, h, steps[..n + 1], version), NodeFile(l))
  }

  lemma {:induction false} FindCompletion(
    l: Layout, h: Host, steps: seq<Step>, target: string, version: Sha -> string) returns (n: nat)
    requires HandleWhenListening(h) && NoFurtherRecord(steps) && !Completed(h, NodeFile(l))
    requires FileAt(h, NodeFile(l)).Holds? ==> FileAt(h, NodeFile(l)).pending.targetVersion == target
    requires Completed(Run(l, h, steps, version), NodeFile(l))
    ensures CompletedBy(l, h, steps, n, version)
    ensures FileAt(Run(l, h, steps, version), NodeFile(l)).pending.completed ==
      Some(target == version(Run(l, h, steps[..n], version).process.sha))
    decreases |steps|
  {
    var next := Next(l, h, steps[0], version);
    assert steps[0] in steps && forall s :: s in steps[1..] ==> s in steps;
    StepKeepsHandle(l, h, steps[0], version);
    StepOnRecord(l, h, steps[0], version);
    if Completed(next, NodeFile(l)) {
      n := 0;
      SuccessIsTheBootedVersion(l, h, steps[0], version);
      CompletedStays(l, next, steps[1..], version);
      assert steps[..0] == [] && steps[..1][1..] == [];
      assert Run(l, h, steps[..1], version) == Run(l, next, [], version);
    } else {
      var m := FindCompletion(l, next, steps[1..], target, version);
      n := m + 1;
      assert steps[..n][1..] == steps[1..][..m] && steps[..n + 1][1..] == steps[1..][..m + 1];
    }
  }

  /** Only one step can be it, so the step found is the one that decided what is recorded. */
  lemma CompletedOnce(l: Layout, h: Host, steps: seq<Step>, i: nat, j: nat, version: Sha -> string)
    requires HandleWhenListening(h) && NoFurtherRecord(steps) && Completed(Run(l, h, steps, version), NodeFile(l))
    requires CompletedBy(l, h, steps, i, version) && CompletedBy(l, h, steps, j, version)
    ensures i == j
  {
    if i < j { CompletedBefore(l, h, steps, i, j, version); }
    if j < i { CompletedBefore(l, h, steps, j, i, version); }
  }

  /** After its completion the record is completed at every later point of the run. */
  lemma CompletedBefore(l: Layout, h: Host, steps: seq<Step>, i: nat, j: nat, version: Sha -> string)
    requires HandleWhenListening(h) && NoFurtherRecord(steps) && Completed(Run(l, h, steps, version), NodeFile(l))
    requires i < j <= |steps| && Completed(Run(l, h, steps[..i + 1], version), NodeFile(l))
    ensures Completed(Run(l, h, steps[..j], version), NodeFile(l))
  {
    var mid := Run(l, h, steps[..i + 1], version);
    InProcessRollbackIsDead(l, h, steps[..i + 1], version);
    RunSplit(l, h, steps[..j], i + 1, version);
    assert steps[..j][..i + 1] == steps[..i + 1];
    var late := Run(l, h, steps[..j], version);
    InProcessRollbackIsDead(l, h, steps[..j], version);
    RunSplit(l, h, steps, j, version);
    assert forall s :: s in steps[j..] || s in steps[..j][i + 1..] ==> s in steps;
    CompletedStays(l, late, steps[j..], version);
    CompletedStays(l, mid, steps[..j][i + 1..], version);
  }

  /**
   Over every run after an update's record in which no other record is written, failed
   updates included: a completed record was completed by one reconcile of the run, and
   says `success` exactly when the process of that boot ran the target version.
   */
  lemma SuccessExactly(l: Layout, h: Host, origin: Sha, exit: Death, steps: seq<Step>, version: Sha -> string)
    returns (n: nat)
    requires At(h, Serving) && HandleWhenListening(h) && NoFurtherRecord(steps)
    requires Completed(Run(l, Next(l, h, Update(origin, Recorded(exit)), version), steps, version), NodeFile(l))
    ensures var start := Next(l, h, Update(origin, Recorded(exit)), version);
      && CompletedBy(l, start, steps, n, version)
      && var booted := Run(l, start, steps[..n], version).process.sha;
         var file := FileAt(Run(l, start, steps, version), NodeFile(l));
         file.pending.completed.value <==> version(origin) == version(booted)
  {
    var start := Next(l, h, Update(origin, Recorded(exit)), version);
    n := FindCompletion(l, start, steps, version(origin), version);
  }

  /** Nothing but the process's own record could be rolled back to. */
  ghost predicate OnlyRecord(l: Layout, h: Host) {
    OneRecord(l) || !MayRollBack(FileAt(h, WrapperFile(l)))
  }

  /** What ties the tree, the live process and the record of an update from `prev` to `origin` together. */
  ghost predicate FollowsUpdate(l: Layout, h: Host, prev: Sha, origin: Sha, version: Sha -> string) {
    var path := NodeFile(l);
    var file := FileAt(h, path);
    && HandleWhenListening(h) && OnlyRecord(l, h)
    && h.tree == (if ResetsAt(h, path) == 0 then origin else prev)
    && (h.process.Up? ==> h.process.sha == h.tree)
    && (file.Holds? ==>
          && file.pending.previousSha == Some(prev) && file.pending.targetVersion == version(origin)
          && (file.pending.completed.Some? ==>
                file.pending.completed.value == (version(h.tree) == version(origin))))
  }

  lemma DeathFollowsUpdate(l: Layout, h: Host, d: Death, prev: Sha, origin: Sha, version: Sha -> string)
    requires FollowsUpdate(l, h, prev, origin, version)
    ensures FollowsUpdate(l, Dies(l, h, d), prev, origin, version)
  {
  }

  lemma StepFollowsUpdate(l: Layout, h: Host, step: Step, prev: Sha, origin: Sha, version: Sha -> string)
    requires FollowsUpdate(l, h, prev, origin, version) && KeepsTree([step])
    ensures FollowsUpdate(l, Next(l, h, step, version), prev, origin, version)
  {
    match step
    case Load(db, rest, death) =>
      if At(h, Loading) && !(db == Opened && rest) {
        var loaded := h.(process := h.process.(handle := h.process.handle || db != OpenFails));
        DeathFollowsUpdate(l, loaded, death, prev, origin, version);
      }
    case Stop(death) => if h.process.Up? { DeathFollowsUpdate(l, h, death, prev, origin, version); }
    case Update(_, _) => assert step in [step];
    case _ =>
  }

  lemma {:induction false} RunFollowsUpdate(
    l: Layout, h: Host, steps: seq<Step>, prev: Sha, origin: Sha, version: Sha -> string)
    requires FollowsUpdate(l, h, prev, origin, version) && KeepsTree(steps)
    ensures FollowsUpdate(l, Run(l, h, steps, version), prev, origin, version)
    decreases |steps|
  {
    if steps != [] {
      assert steps[0] in steps;
      StepFollowsUpdate(l, h, steps[0], prev, origin, version);
      RunFollowsUpdate(l, Next(l, h, steps[0], version), steps[1..], prev, origin, version);
    }
  }

  /**
   If the record is completed before any other update moves the tree, then it says
   `success` exactly when the tree was never rolled back, or went back to an equal
   version; where process and wrapper have a record each, it always says so.
   */
  lemma SuccessByResets(
    l: Layout, h: Host, origin: Sha, exit: Death, before: seq<Step>, after: seq<Step>, version: Sha -> string)
    requires At(h, Serving) && HandleWhenListening(h) && OnlyRecord(l, h)
    requires KeepsTree(before) && NoFurtherRecord(after)
    requires Completed(Run(l, Next(l, h, Update(origin, Recorded(exit)), version), before, version), NodeFile(l))
    ensures var end := Run(l, Next(l, h, Update(origin, Recorded(exit)), version), before + after, version);
      Completed(end, NodeFile(l)) ==>
        var success := FileAt(end, NodeFile(l)).pending.completed.value;
        && (success <==> ResetsAt(end, NodeFile(l)) == 0 || version(h.tree) == version(origin))
        && (!OneRecord(l) ==> success)
  {
    var moved := Record(l, h.(tree := origin), h.tree, version(origin));
    var next := Next(l, h, Update(origin, Recorded(exit)), version);
    assert FollowsUpdate(l, moved.(process := Down), h.tree, origin, version);
    assert next == Dies(l, moved, exit);
    assert FollowsUpdate(l, next, h.tree, origin, version);
    RunFollowsUpdate(l, next, before, h.tree, origin, version);
    var mid := Run(l, next, before, version);
    RunAppend(l, next, before, after, version);
    if Completed(Run(l, mid, after, version), NodeFile(l)) {
      CompletedStays(l, mid, after, version);
      CompletedCausesNoReset(l, mid, after, version);
      if !OneRecord(l) { OwnRecordCausesNoReset(l, next, before, version); }
    }
  }

  lemma RunAppend(l: Layout, h: Host, s: seq<Step>, t: seq<Step>, version: Sha -> string)
    ensures Run(l, h, s + t, version) == Run(l, Run(l, h, s, version), t, version)
  {
    RunSplit(l, h, s + t, |s|, version);
    assert (s + t)[..|s|] == s && (s + t)[|s|..] == t;
  }

  lemma {:induction false} CompletedCausesNoReset(l: Layout, h: Host, steps: seq<Step>, version: Sha -> string)
    requires HandleWhenListening(h) && NoFurtherRecord(steps) && Completed(h, NodeFile(l))
    requires FileAt(Run(l, h, steps, version), NodeFile(l)).Holds?
    ensures ResetsAt(Run(l, h, steps, version), NodeFile(l)) == ResetsAt(h, NodeFile(l))
    decreases |steps|
  {
    if steps != [] {
      var next := Next(l, h, steps[0], version);
      assert steps[0] in steps && forall s :: s in steps[1..] ==> s in steps;
      StepKeepsHandle(l, h, steps[0], version);
      StepOnRecord(l, h, steps[0], version);
      CompletedStays(l, next, steps[1..], version);
      StepResetsOther(l, h, steps[0], version);
      CompletedCausesNoReset(l, next, steps[1..], version);
    }
  }

  lemma StepResetsOther(l: Layout, h: Host, step: Step, version: Sha -> string)
    requires HandleWhenListening(h) && NoFurtherRecord([step])
    requires !MayRollBack(FileAt(h, NodeFile(l))) || !OneRecord(l)
    ensures ResetsAt(Next(l, h, step, version), NodeFile(l)) == ResetsAt(h, NodeFile(l))
  {
    assert step in [step];
  }

  lemma {:induction false} OwnRecordCausesNoReset(l: Layout, h: Host, steps: seq<Step>, version: Sha -> string)
    requires !OneRecord(l) && HandleWhenListening(h) && NoFurtherRecord(steps)
    ensures ResetsAt(Run(l, h, steps, version), NodeFile(l)) == ResetsAt(h, NodeFile(l))
    decreases |steps|
  {
    if steps != [] {
      assert steps[0] in steps && forall s :: s in steps[1..] ==> s in steps;
      StepKeepsHandle(l, h, steps[0], version);
      StepResetsOther(l, h, steps[0], version);
      OwnRecordCausesNoReset(l, Next(l, h, steps[0], version), steps[1..], version);
    }
  }

  /**
   A reconcile whose write fails, an update that fails after its reset, a restart: the
   release that booted first is then reconciled against a commit it never asked for.
   */
  const LATE_RECONCILE := [
    Update(1, Recorded(Clean)), Spawn, Load(Opened, true, Late), Listen(NotWritten, FULL, Late),
    Update(2, ResetOnly(None)), Stop(Clean), Spawn, Load(Opened, true, Late), Listen(Written, FULL, Late)]

  /** So `success: false` is recorded although nothing was rolled back. */
  lemma FailureWithoutRollback(l: Layout, version: Sha -> string)
    requires version(1) != version(2)
    ensures var h := Run(l, RUNNING, LATE_RECONCILE, version);
      && ResetsAt(h, NodeFile(l)) == 0 && 1 in h.booted
      && Completed(h, NodeFile(l)) && !FileAt(h, NodeFile(l)).pending.completed.value
  {
    var s := LATE_RECONCILE;
    var record := Holds(Pending(Some(0), version(1), 0, None));
    RunSplit(l, RUNNING, s, 3, version);
    RunThree(l, RUNNING, s[..3], version);
    var h3 := Run(l, RUNNING, s[..3], version);
    assert h3 == Host(1, Up(1, Ready, true), map[NodeFile(l) := record], {0}, 0, map[NodeFile(l) := 0]);
    RunSplit(l, h3, s[3..], 3, version);
    RunThree(l, h3, s[3..][..3], version);
    var h6 := Run(l, h3, s[3..][..3], version);
    assert h6 == Host(2, Down, map[NodeFile(l) := record], {0, 1}, 0, map[NodeFile(l) := 0]);
    RunThree(l, h6, s[3..][3..], version);
  }

  /** Once a record is completed it never changes, and no failed boot moves the tree. */
  lemma {:induction false} CompletedIsFinal(l: Layout, h: Host, steps: seq<Step>, version: Sha -> string)
    requires HandleWhenListening(h) && OnlyRecord(l, h) && KeepsTree(steps)
    requires Completed(h, NodeFile(l))
    ensures var end := Run(l, h, steps, version);
      FileAt(end, NodeFile(l)) == FileAt(h, NodeFile(l)) && end.tree == h.tree && end.resets == h.resets
    decreases |steps|
  {
    if steps != [] {
      assert steps[0] in steps;
      StepKeepsHandle(l, h, steps[0], version);
      CompletedIsFinal(l, Next(l, h, steps[0], version), steps[1..], version);
    }
  }

  /** A boot that fails while its module loads, spawn included. */
  predicate FailingBoot(s: Step) {
    s.Spawn? || (s.Load? && !(s.db == Opened && s.rest))
  }

  /** With no record to roll back to, any number of failed boots changes nothing but the process. */
  lemma {:induction false} NothingLeftToTry(l: Layout, h: Host, boots: seq<Step>, version: Sha -> string)
    requires !MayRollBack(FileAt(h, WrapperFile(l))) && forall s :: s in boots ==> FailingBoot(s)
    ensures Run(l, h, boots, version) == h.(process := Run(l, h, boots, version).process)
    decreases |boots|
  {
    if boots != [] {
      assert boots[0] in boots;
      NothingLeftToTry(l, Next(l, h, boots[0], version), boots[1..], version);
    }
  }

  // ---- which commit a record names --------------------------------------------------------------

  /** The commit the process's record names as the one to go back to has finished a boot. */
  ghost predicate TargetBooted(l: Layout, h: Host) {
    var file := FileAt(h, NodeFile(l));
    file.Holds? && file.pending.previousSha.Some? ==> file.pending.previousSha.value in h.booted
  }

  /** HEAD has finished a boot when an update that gets as far as its record starts. */
  ghost predicate UpdatesFromBooted(l: Layout, h: Host, steps: seq<Step>, version: Sha -> string)
    decreases |steps|
  {
    steps == [] ||
    (&& (At(h, Serving) && steps[0].Update? && steps[0].stop.Recorded? && !AliasedTear(l, h, steps[0]) ==>
           h.tree in h.booted)
     && UpdatesFromBooted(l, Next(l, h, steps[0], version), steps[1..], version))
  }

  /** The wrapper tears the very record this update has just written. */
  predicate AliasedTear(l: Layout, h: Host, step: Step)
    requires step.Update? && step.stop.Recorded?
  {
    OneRecord(l) && step.stop.exit.Early? && step.stop.exit.wrapper.persist == Torn
  }

  ghost predicate TargetBootedThroughout(l: Layout, h: Host, steps: seq<Step>, version: Sha -> string)
    decreases |steps|
  {
    TargetBooted(l, h) && (steps == [] || TargetBootedThroughout(l, Next(l, h, steps[0], version), steps[1..], version))
  }

  lemma DeathKeepsTarget(l: Layout, h: Host, d: Death)
    ensures TargetBooted(l, Dies(l, h, d)) <==>
      || TargetBooted(l, h)
      || (OneRecord(l) && d.Early? && d.wrapper.persist == Torn && MayRollBack(FileAt(h, NodeFile(l))))
  {
  }

  lemma StepTargetExactly(l: Layout, h: Host, step: Step, version: Sha -> string)
    requires TargetBooted(l, h)
    ensures TargetBooted(l, Next(l, h, step, version)) <==>
      (At(h, Serving) && step.Update? && step.stop.Recorded? && !AliasedTear(l, h, step) ==> h.tree in h.booted)
  {
    match step
    case Load(db, rest, death) =>
      if At(h, Loading) && !(db == Opened && rest) {
        DeathKeepsTarget(l, h.(process := h.process.(handle := h.process.handle || db != OpenFails)), death);
      }
    case Update(origin, stop) =>
      if At(h, Serving) && stop.Recorded? {
        DeathKeepsTarget(l, Record(l, h.(tree := origin), h.tree, version(origin)), stop.exit);
      }
    case Stop(death) => if h.process.Up? { DeathKeepsTarget(l, h, death); }
    case _ =>
  }

  /** Every record names a commit that has run if and only if every recorded update started from a HEAD that has. */
  lemma {:induction false} RollbackTargetsExactly(l: Layout, h: Host, steps: seq<Step>, version: Sha -> string)
    requires TargetBooted(l, h)
    ensures TargetBootedThroughout(l, h, steps, version) <==> UpdatesFromBooted(l, h, steps, version)
    decreases |steps|
  {
    if steps != [] {
      var next := Next(l, h, steps[0], version);
      StepTargetExactly(l, h, steps[0], version);
      if TargetBooted(l, next) { RollbackTargetsExactly(l, next, steps[1..], version); }
    }
  }

  const RUNNING := Host(0, Up(0, Serving, true), map[], {0}, 0, map[])

  /** An update whose `npm install` fails after the reset, then one that goes through. */
  const SECOND_TRY := [Update(1, ResetOnly(None)), Update(2, Recorded(Clean))]

  function SecondRecord(version: Sha -> string): File {
    Holds(Pending(Some(1), version(2), 0, None))
  }

  /** The second record names the commit of the first, which never ran. */
  lemma RecordNamesNeverBooted(l: Layout, version: Sha -> string)
    ensures var h := Run(l, RUNNING, SECOND_TRY, version);
      && h == Host(2, Down, map[NodeFile(l) := SecondRecord(version)], {0}, 0, map[NodeFile(l) := 0])
      && !TargetBooted(l, h)
  {
    var h1 := Next(l, RUNNING, SECOND_TRY[0], version);
    var h2 := Next(l, h1, SECOND_TRY[1], version);
    assert SECOND_TRY[1..][0] == SECOND_TRY[1] && SECOND_TRY[1..][1..] == [];
    assert Run(l, h2, [], version) == h2;
    assert Run(l, h1, SECOND_TRY[1..], version) == h2;
  }

  /** Where the wrapper can read that record, the rollback of a bad release lands on a commit that never ran. */
  lemma RollbackToNeverBooted(l: Layout, version: Sha -> string)
    requires OneRecord(l)
    ensures var h := Run(l, RUNNING, SECOND_TRY + [Spawn, Load(MigrateFails, true, Early(FULL))], version);
      h.tree == 1 && 1 !in h.booted
  {
    var crash := [Spawn, Load(MigrateFails, true, Early(FULL))];
    RecordNamesNeverBooted(l, version);
    var h := Run(l, RUNNING, SECOND_TRY, version);
    var h1 := Next(l, h, crash[0], version);
    var h2 := Next(l, h1, crash[1], version);
    assert crash[1..][0] == crash[1] && crash[1..][1..] == [];
    assert Run(l, h2, [], version) == h2;
    assert Run(l, h1, crash[1..], version) == h2;
    RunSplit(l, RUNNING, SECOND_TRY + crash, 2, version);
    assert (SECOND_TRY + crash)[..2] == SECOND_TRY && (SECOND_TRY + crash)[2..] == crash;
  }

  /** And there a rolled-back release that kept its version number is reconciled as a success. */
  lemma RolledBackReportedAsSuccess(l: Layout, version: Sha -> string)
    requires OneRecord(l) && version(0) == version(1)
    ensures var h :=
      Run(l, FRESH, BAD_RELEASE + [Spawn, Load(Opened, true, Late), Listen(Written, FULL, Late)], version);
      && h.tree == 0 && ResetsAt(h, NodeFile(l)) == 1
      && FileAt(h, NodeFile(l)).Holds? && FileAt(h, NodeFile(l)).pending.completed == Some(true)
  {
    var boot := [Spawn, Load(Opened, true, Late), Listen(Written, FULL, Late)];
    BadReleaseRecord(l, version);
    var h := Run(l, FRESH, BAD_RELEASE, version);
    RunThree(l, h, boot, version);
    RunSplit(l, FRESH, BAD_RELEASE + boot, 6, version);
    assert (BAD_RELEASE + boot)[..6] == BAD_RELEASE && (BAD_RELEASE + boot)[6..] == boot;
  }

  lemma BadReleaseRecord(l: Layout, version: Sha -> string)
    requires OneRecord(l)
    ensures var h := Run(l, FRESH, BAD_RELEASE, version);
      && h.tree == 0 && h.process == Down && ResetsAt(h, NodeFile(l)) == 1
      && FileAt(h, NodeFile(l)) == Holds(Pending(Some(0), version(1), 1, None))
  {
    OneRecordRolls(l, version);
    RunSix(l, FRESH, BAD_RELEASE, version);
  }
}
