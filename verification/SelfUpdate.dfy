/**
 Self-update, boot and rollback of one host: server/index.js and server/db.js for
 the process, scripts/safe-boot.sh for the wrapper that spawns it. Every step says
 how far it got: the process may die, or a command may fail, between any two
 effects.
 */
module SelfUpdate {
  import opened Wrappers

  type Sha = nat

  /** A file by its path segments. */
  type Path = seq<string>

  const BUDGET := 3

  /** self-update-pending.json */
  datatype Pending = Pending(
    previousSha: Option<Sha>,
    targetVersion: string,
    attempts: nat,
    completed: Option<bool>)

  /** A write that fails in the middle leaves a file JSON.parse and jq reject. */
  datatype File = Missing | Unreadable | Holds(pending: Pending)

  /** DATA_DIR as the process resolves it, and as its wrapper does. */
  datatype Layout = Layout(nodeDir: Path, wrapperDir: Path)

  const RECORD := "self-update-pending.json"

  /** pendingUpdateFile() of server/index.js. */
  function NodeFile(l: Layout): Path {
    l.nodeDir + [RECORD]
  }

  /** PENDING_FILE of scripts/safe-boot.sh. */
  function WrapperFile(l: Layout): Path {
    l.wrapperDir + [".self-update", RECORD]
  }

  /** A live process: module evaluation, listening, or past the listen callback. `handle` is whether db.js holds one. */
  datatype Stage = Loading | Ready | Serving

  datatype Process = Down | Up(sha: Sha, stage: Stage, handle: bool)

  /**
   `tree` is HEAD of the working tree. The last three fields are history: which
   commits finished booting, how often maybeAutoRollback was entered, and how many
   rollback resets the record now at each path has caused.
   */
  datatype Host = Host(
    tree: Sha,
    process: Process,
    files: map<Path, File>,
    booted: set<Sha>,
    entered: nat,
    resets: map<Path, nat>)

  function FileAt(h: Host, path: Path): File {
    if path in h.files then h.files[path] else Missing
  }

  function ResetsAt(h: Host, path: Path): nat {
    if path in h.resets then h.resets[path] else 0
  }

  // ---- rolling back ---------------------------------------------------------------------

  /** How the attempt counter's write ends. */
  datatype Persist = Kept | Torn | Counted

  /** How far a rollback gets: the write, and whether `git reset --hard` is reached and succeeds. */
  datatype Outcome = Outcome(persist: Persist, resets: bool)

  /** The guards of both rollbacks: a readable, uncompleted record with a commit and budget left. */
  predicate MayRollBack(file: File) {
    && file.Holds?
    && file.pending.completed == None
    && file.pending.previousSha.Some?
    && file.pending.attempts < BUDGET
  }

  function Persisted(file: File, persist: Persist): File
    requires file.Holds?
  {
    match persist
    case Kept => file
    case Torn => Unreadable
    case Counted => Holds(file.pending.(attempts := file.pending.attempts + 1))
  }

  /** attempt_rollback: the write is not checked, so the reset follows it whatever became of it. */
  function RollBack(h: Host, path: Path, o: Outcome): Host {
    var file := FileAt(h, path);
    if !MayRollBack(file) then h
    else
      var written := h.(files := h.files[path := Persisted(file, o.persist)]);
      if !o.resets then written
      else written.(tree := file.pending.previousSha.value, resets := h.resets[path := ResetsAt(h, path) + 1])
  }

  /** maybeAutoRollback: a failed write throws, so only a counted attempt is followed by the reset. */
  function RollBackInProcess(h: Host, l: Layout, o: Outcome): Host {
    RollBack(h.(entered := h.entered + 1), NodeFile(l), o.(resets := o.resets && o.persist == Counted))
  }

  /**
   How a process ends: exit 0 or a forwarded signal; a failure the wrapper takes for
   a runtime crash (or no wrapper at all); a failure within its boot grace period.
   */
  datatype Death = Clean | Late | Early(wrapper: Outcome)

  function Dies(l: Layout, h: Host, d: Death): Host {
    var down := h.(process := Down);
    if d.Early? then RollBack(down, WrapperFile(l), d.wrapper) else down
  }

  // ---- booting and updating -----------------------------------------------------------

  /** How initDb ends: `new Database` throws, something after it throws, or it returns. */
  datatype DbOutcome = OpenFails | MigrateFails | Opened

  datatype WriteStop = NotWritten | TornWrite | Written

  /** Where a self-update ends; `None` is a process that lives on after answering 500. */
  datatype UpdateStop =
    | Refused
    | ResetOnly(death: Option<Death>)
    | TornRecord(death: Option<Death>)
    | Recorded(exit: Death)

  datatype Step =
    | Spawn
    | Load(db: DbOutcome, rest: bool, death: Death)
    | Listen(reconcile: WriteStop, inner: Outcome, exit: Death)
    | Update(origin: Sha, stop: UpdateStop)
    | Stop(death: Death)

  /** Module evaluation: initDb at its top, then everything else, then `app.listen`. */
  function LoadModule(l: Layout, h: Host, db: DbOutcome, rest: bool, death: Death): Host
    requires h.process.Up?
  {
    var loaded := h.(process := h.process.(handle := h.process.handle || db != OpenFails));
    if db == Opened && rest then loaded.(process := loaded.process.(stage := Ready)) else Dies(l, loaded, death)
  }

  /** Only an uncompleted, readable record is touched. */
  function Reconcile(h: Host, path: Path, version: string, write: WriteStop): Host {
    var file := FileAt(h, path);
    if !(file.Holds? && file.pending.completed == None) then h
    else
      match write
      case NotWritten => h
      case TornWrite => h.(files := h.files[path := Unreadable])
      case Written =>
        h.(files := h.files[path := Holds(file.pending.(completed := Some(file.pending.targetVersion == version)))])
  }

  /** The listen callback: getDb() throws exactly when db.js holds no handle. */
  function OnListen(
    l: Layout, h: Host, version: Sha -> string, write: WriteStop, inner: Outcome, exit: Death): Host
    requires h.process.Up?
  {
    if h.process.handle then
      var sha := h.process.sha;
      var up := h.(process := h.process.(stage := Serving), booted := h.booted + {sha});
      Reconcile(up, NodeFile(l), version(sha), write)
    else
      var back := RollBackInProcess(h, l, inner);
      Dies(l, back, if back.resets != h.resets then Clean else exit)
  }

  /** `previous_sha` is `git rev-parse HEAD`; a new record starts with a fresh budget. */
  function UpdateTo(l: Layout, h: Host, origin: Sha, version: Sha -> string, stop: UpdateStop): Host {
    var moved := h.(tree := origin);
    match stop
    case Refused => h
    case ResetOnly(death) => if death == None then moved else Dies(l, moved, death.value)
    case TornRecord(death) =>
      var torn := moved.(files := h.files[NodeFile(l) := Unreadable]);
      if death == None then torn else Dies(l, torn, death.value)
    case Recorded(exit) => Dies(l, Record(l, moved, h.tree, version(origin)), exit)
  }

  function Record(l: Layout, h: Host, previous: Sha, target: string): Host {
    h.(files := h.files[NodeFile(l) := Holds(Pending(Some(previous), target, 0, None))],
       resets := h.resets[NodeFile(l) := 0])
  }

  predicate At(h: Host, stage: Stage) {
    h.process.Up? && h.process.stage == stage
  }

  /** A step that does not fit the process state changes nothing. */
  function Next(l: Layout, h: Host, step: Step, version: Sha -> string): Host {
    match step
    case Spawn => if h.process.Down? then h.(process := Up(h.tree, Loading, false)) else h
    case Load(db, rest, death) => if At(h, Loading) then LoadModule(l, h, db, rest, death) else h
    case Listen(write, inner, exit) => if At(h, Ready) then OnListen(l, h, version, write, inner, exit) else h
    case Update(origin, stop) => if At(h, Serving) then UpdateTo(l, h, origin, version, stop) else h
    case Stop(death) => if h.process.Up? then Dies(l, h, death) else h
  }

  function Run(l: Layout, h: Host, steps: seq<Step>, version: Sha -> string): Host
    decreases |steps|
  {
    if steps == [] then h else Run(l, Next(l, h, steps[0], version), steps[1..], version)
  }

  // ---- the code -----------------------------------------------------------------------

  class Server {
    const layout: Layout
    var host: Host

    constructor (l: Layout, h: Host)
      ensures layout == l && host == h
    {
      layout, host := l, h;
    }

    /** The guards one by one, then persist inside the try, then the destructive part. */
    method MaybeAutoRollback(o: Outcome)
      modifies this`host
      ensures host == RollBackInProcess(old(host), layout, o)
    {
      host := host.(entered := host.entered + 1);
      var path := NodeFile(layout);
      var file := FileAt(host, path);
      if file == Missing { return; }
      if file == Unreadable { return; }
      var pending := file.pending;
      if pending.completed != None { return; }
      if pending.previousSha == None { return; }
      var attempts := pending.attempts;
      if attempts >= BUDGET { return; }
      if o.persist != Counted {
        host := host.(files := host.files[path := if o.persist == Torn then Unreadable else file]);
        return;
      }
      host := host.(files := host.files[path := Holds(pending.(attempts := attempts + 1))]);
      if !o.resets { return; }
      host := host.(tree := pending.previousSha.value, resets := host.resets[path := ResetsAt(host, path) + 1]);
    }

    /** The wrapper's rollback: `jq ... > tmp && mv` without a check, then `git reset` anyway. */
    method AttemptRollback(o: Outcome)
      modifies this`host
      ensures host == RollBack(old(host), WrapperFile(layout), o)
    {
      var path := WrapperFile(layout);
      var file := FileAt(host, path);
      if !file.Holds? { return; }
      var pending := file.pending;
      if pending.completed != None { return; }
      if pending.previousSha == None { return; }
      if pending.attempts >= BUDGET { return; }
      host := host.(files := host.files[path := Persisted(file, o.persist)]);
      if !o.resets { return; }
      host := host.(tree := pending.previousSha.value, resets := host.resets[path := ResetsAt(host, path) + 1]);
    }

    /** The wrapper after `wait`: exit 0 and late failures end it, an early one asks for a rollback. */
    method AfterExit(d: Death)
      requires host.process.Up?
      modifies this`host
      ensures host == Dies(layout, old(host), d)
    {
      host := host.(process := Down);
      if d == Clean { return; }
      if d == Late { return; }
      AttemptRollback(d.wrapper);
    }

    /** initDb publishes its handle before it migrates; a throw anywhere ends module evaluation. */
    method LoadIndex(db: DbOutcome, rest: bool, death: Death)
      requires host.process.Up?
      modifies this`host
      ensures host == LoadModule(layout, old(host), db, rest, death)
    {
      if db == OpenFails {
        AfterExit(death);
        return;
      }
      host := host.(process := host.process.(handle := true));
      if db == MigrateFails || !rest {
        AfterExit(death);
        return;
      }
      host := host.(process := host.process.(stage := Ready));
    }

    /** From the listen callback's getDb() to the reconcile. */
    method ListenCallback(version: Sha -> string, write: WriteStop, inner: Outcome, exit: Death)
      requires host.process.Up?
      modifies this`host
      ensures host == OnListen(layout, old(host), version, write, inner, exit)
    {
      if !host.process.handle {
        var before := host.resets;
        MaybeAutoRollback(inner);
        AfterExit(if host.resets != before then Clean else exit);
        return;
      }
      var sha := host.process.sha;
      host := host.(process := host.process.(stage := Serving), booted := host.booted + {sha});
      var path := NodeFile(layout);
      var info := FileAt(host, path);
      if !info.Holds? || info.pending.completed != None { return; }
      if write == TornWrite { host := host.(files := host.files[path := Unreadable]); }
      if write == Written {
        var success := info.pending.targetVersion == version(sha);
        host := host.(files := host.files[path := Holds(info.pending.(completed := Some(success)))]);
      }
    }

    /** From `rev-parse HEAD` to the exit for the supervisor. */
    method RunSelfUpdate(origin: Sha, version: Sha -> string, stop: UpdateStop)
      requires host.process.Up?
      modifies this`host
      ensures host == UpdateTo(layout, old(host), origin, version, stop)
    {
      var previousSha := host.tree;
      if stop == Refused { return; }
      host := host.(tree := origin);
      if stop.ResetOnly? {
        if stop.death != None { AfterExit(stop.death.value); }
        return;
      }
      if stop.TornRecord? {
        host := host.(files := host.files[NodeFile(layout) := Unreadable]);
        if stop.death != None { AfterExit(stop.death.value); }
        return;
      }
      host := Record(layout, host, previousSha, version(origin));
      AfterExit(stop.exit);
    }
  }
}
