/**
 Boot-time migrations (server/db.js) with a crash possible between any two
 effects, a failing file, and a set of files that grows from boot to boot.
 */
module Migrations {
  /** A file of the migrations directory; `noTransaction` is its declaration. */
  datatype Migration = Migration(name: string, noTransaction: bool)

  /**
   `marked` is the _migrations table. `effects` counts how often each file's SQL
   took effect, `order` lists those effects, `crashes` counts how often a boot ended
   between the SQL of a no-transaction file and its mark; none of them is a table.
   */
  datatype Database = Database(
    marked: set<string>,
    effects: map<string, nat>,
    order: seq<string>,
    crashes: map<string, nat>)

  const EMPTY := Database({}, map[], [], map[])

  function Count(m: map<string, nat>, name: string): nat {
    if name in m then m[name] else 0
  }

  function Bump(m: map<string, nat>, name: string): map<string, nat> {
    m[name := Count(m, name) + 1]
  }

  /** The SQL of a file takes effect. */
  function Execute(db: Database, name: string): Database {
    db.(effects := Bump(db.effects, name), order := db.order + [name])
  }

  /** How one file ends: applied, stopped before anything, or stopped between SQL and mark. */
  datatype Outcome = Applied | StoppedBefore | StoppedBetween

  /** A transaction is one step, so stopping inside it leaves nothing behind. */
  function ApplyOne(db: Database, m: Migration, o: Outcome): Database {
    match o
    case Applied => Execute(db, m.name).(marked := db.marked + {m.name})
    case StoppedBefore => db
    case StoppedBetween =>
      if m.noTransaction then Execute(db, m.name).(crashes := Bump(db.crashes, m.name)) else db
  }

  function Pending(files: seq<Migration>, marked: set<string>): seq<Migration> {
    if files == [] then []
    else (if files[0].name in marked then [] else [files[0]]) + Pending(files[1..], marked)
  }

  /** One boot's loop over what is pending: everything applied, or stopped at position `stop`. */
  function ApplyPending(db: Database, pending: seq<Migration>, stop: nat, last: Outcome): Database
    decreases |pending|
  {
    if pending == [] then db
    else if stop == 0 then ApplyOne(db, pending[0], last)
    else ApplyPending(ApplyOne(db, pending[0], Applied), pending[1..], stop - 1, last)
  }

  function RunBoot(db: Database, files: seq<Migration>, stop: nat, last: Outcome): Database {
    ApplyPending(db, Pending(files, db.marked), stop, last)
  }

  lemma PendingStep(files: seq<Migration>, i: nat, marked: set<string>, before: seq<Migration>)
    requires i < |files|
    ensures before + Pending(files[i..], marked) ==
      (if files[i].name in marked then before else before + [files[i]]) + Pending(files[i + 1..], marked)
  {
    assert files[i..][1..] == files[i + 1..];
  }

  ghost predicate Distinct(files: seq<Migration>) {
    forall i, j :: 0 <= i < j < |files| ==> files[i].name != files[j].name
  }

  /** The boot sequence over one database. `stop` and `last` are where this process dies, if it does. */
  class Runner {
    var db: Database
    var snapshots: seq<seq<Migration>>

    /** Names in `files` that are not in _migrations, in directory order. */
    method PendingMigrations(files: seq<Migration>) returns (pending: seq<Migration>)
      ensures pending == Pending(files, db.marked)
    {
      pending := [];
      for i := 0 to |files|
        invariant Pending(files, db.marked) == pending + Pending(files[i..], db.marked)
      {
        PendingStep(files, i, db.marked, pending);
        if files[i].name !in db.marked { pending := pending + [files[i]]; }
      }
    }

    method SnapshotBeforeMigrations(files: seq<Migration>)
      modifies this`snapshots
      ensures snapshots == old(snapshots) + if Pending(files, db.marked) == [] then [] else [Pending(files, db.marked)]
    {
      var pending := PendingMigrations(files);
      if pending != [] { snapshots := snapshots + [pending]; }
    }

    /** The loop re-checks each file against the set read before it started. */
    method RunMigrations(files: seq<Migration>, stop: nat, last: Outcome)
      requires Distinct(files)
      modifies this`db
      ensures db == RunBoot(old(db), files, stop, last)
    {
      var applied := db.marked;
      var left := stop;
      for i := 0 to |files|
        invariant ApplyPending(old(db), Pending(files, applied), stop, last) ==
          ApplyPending(db, Pending(files[i..], applied), left, last)
      {
        assert files[i..][1..] == files[i + 1..];
        if files[i].name in applied {
          assert [] + Pending(files[i + 1..], applied) == Pending(files[i + 1..], applied);
          continue;
        }
        assert Pending(files[i..], applied)[1..] == Pending(files[i + 1..], applied);
        if left == 0 {
          db := ApplyOne(db, files[i], last);
          return;
        }
        if files[i].noTransaction {
          db := Execute(db, files[i].name);
          db := db.(marked := db.marked + {files[i].name});
        } else {
          db := ApplyOne(db, files[i], Applied);
        }
        left := left - 1;
      }
    }
  }

  // ---- every sequence of boots ------------------------------------------------------------

  /** One boot: the files present then, and where it stopped. */
  datatype Boot = Boot(files: seq<Migration>, stop: nat, last: Outcome)

  function RunBoots(db: Database, boots: seq<Boot>): Database
    decreases |boots|
  {
    if boots == [] then db else RunBoots(RunBoot(db, boots[0].files, boots[0].stop, boots[0].last), boots[1..])
  }

  /** A file keeps its declaration from boot to boot. */
  ghost predicate Declared(files: seq<Migration>, kind: string -> bool) {
    Distinct(files) && forall i :: 0 <= i < |files| ==> files[i].noTransaction == kind(files[i].name)
  }

  /**
   Effects are exactly accounted for: one when marked, and one more for every time
   a no-transaction file was cut off between its SQL and its mark.
   */
  ghost predicate Accounted(db: Database, kind: string -> bool) {
    forall n :: && Count(db.effects, n) == Count(db.crashes, n) + (if n in db.marked then 1 else 0)
                && (!kind(n) ==> Count(db.crashes, n) == 0)
  }

  lemma {:induction false} PendingFacts(files: seq<Migration>, marked: set<string>)
    requires Distinct(files)
    ensures Distinct(Pending(files, marked))
    ensures forall m :: m in Pending(files, marked) <==> m in files && m.name !in marked
  {
    if files != [] {
      var rest := files[1..];
      assert files == [files[0]] + rest;
      PendingFacts(rest, marked);
      var p := Pending(rest, marked);
      forall i | 0 <= i < |p| ensures p[i].name != files[0].name {
        assert p[i] in rest;
        var j :| 0 <= j < |rest| && rest[j] == p[i];
        assert files[j + 1] == p[i];
      }
    }
  }

  /** What is pending keeps the order of the directory: by any ranking in which the listing ascends. */
  lemma {:induction false} PendingKeepsOrder(files: seq<Migration>, marked: set<string>, rank: string -> int)
    requires forall i, j :: 0 <= i < j < |files| ==> rank(files[i].name) < rank(files[j].name)
    ensures var pending := Pending(files, marked);
      && (forall m :: m in pending ==> m in files)
      && forall i, j :: 0 <= i < j < |pending| ==> rank(pending[i].name) < rank(pending[j].name)
  {
    if files != [] {
      var rest := files[1..];
      PendingKeepsOrder(rest, marked, rank);
      assert files == [files[0]] + rest;
      forall m | m in rest ensures rank(files[0].name) < rank(m.name) {
        var j :| 0 <= j < |rest| && rest[j] == m;
        assert files[j + 1] == m;
      }
    }
  }

  lemma OneKeepsAccount(db: Database, m: Migration, o: Outcome, kind: string -> bool)
    requires Accounted(db, kind) && m.noTransaction == kind(m.name) && m.name !in db.marked
    ensures Accounted(ApplyOne(db, m, o), kind)
  {
  }

  lemma RestUnmarked(db: Database, pending: seq<Migration>)
    requires pending != [] && Distinct(pending) && forall m :: m in pending ==> m.name !in db.marked
    ensures forall m :: m in pending[1..] ==>
      m.name != pending[0].name && m.name !in ApplyOne(db, pending[0], Applied).marked
  {
    forall m | m in pending[1..] ensures m.name != pending[0].name && m in pending {
      var i :| 0 <= i < |pending[1..]| && pending[1..][i] == m;
      assert pending[i + 1] == m;
    }
  }

  lemma {:induction false} LoopKeepsAccount(
      db: Database, pending: seq<Migration>, stop: nat, last: Outcome, kind: string -> bool)
    requires Accounted(db, kind) && Declared(pending, kind)
    requires forall m :: m in pending ==> m.name !in db.marked
    ensures Accounted(ApplyPending(db, pending, stop, last), kind)
    ensures db.marked <= ApplyPending(db, pending, stop, last).marked
    decreases |pending|
  {
    if pending != [] {
      assert pending[0] in pending;
      OneKeepsAccount(db, pending[0], if stop == 0 then last else Applied, kind);
      if stop > 0 {
        RestUnmarked(db, pending);
        assert Declared(pending[1..], kind);
        LoopKeepsAccount(ApplyOne(db, pending[0], Applied), pending[1..], stop - 1, last, kind);
      }
    }
  }

  lemma {:induction false} LoopMarksAll(db: Database, pending: seq<Migration>, stop: nat, last: Outcome)
    requires stop >= |pending|
    ensures db.marked <= ApplyPending(db, pending, stop, last).marked
    ensures forall m :: m in pending ==> m.name in ApplyPending(db, pending, stop, last).marked
    decreases |pending|
  {
    if pending != [] {
      assert pending == [pending[0]] + pending[1..];
      LoopMarksAll(ApplyOne(db, pending[0], Applied), pending[1..], stop - 1, last);
    }
  }

  /**
   Over every sequence of boots that stop anywhere: a transactional file takes
   effect at most once, a no-transaction one repeats exactly once per crash between
   its SQL and its mark, and nothing that was marked is ever forgotten.
   */
  lemma {:induction false} EffectsAreAccounted(db: Database, boots: seq<Boot>, kind: string -> bool)
    requires Accounted(db, kind) && forall b :: b in boots ==> Declared(b.files, kind)
    ensures Accounted(RunBoots(db, boots), kind) && db.marked <= RunBoots(db, boots).marked
    decreases |boots|
  {
    if boots != [] {
      var b := boots[0];
      assert b in boots;
      PendingFacts(b.files, db.marked);
      PendingDeclared(b.files, db.marked, kind);
      LoopKeepsAccount(db, Pending(b.files, db.marked), b.stop, b.last, kind);
      EffectsAreAccounted(RunBoot(db, b.files, b.stop, b.last), boots[1..], kind);
    }
  }

  lemma PendingDeclared(files: seq<Migration>, marked: set<string>, kind: string -> bool)
    requires Declared(files, kind)
    ensures Declared(Pending(files, marked), kind)
  {
    PendingFacts(files, marked);
    forall i | 0 <= i < |Pending(files, marked)|
      ensures Pending(files, marked)[i].noTransaction == kind(Pending(files, marked)[i].name)
    {
      assert Pending(files, marked)[i] in files;
    }
  }

  lemma {:induction false} NothingPending(files: seq<Migration>, marked: set<string>)
    requires forall m :: m in files ==> m.name in marked
    ensures Pending(files, marked) == []
  {
    if files != [] { NothingPending(files[1..], marked); }
  }

  /**
   After a boot that got through, every file of that boot has taken effect, exactly
   once if it is transactional; a rerun applies nothing and would snapshot nothing.
   */
  lemma CompletedBoot(db: Database, files: seq<Migration>, stop: nat, last: Outcome, kind: string -> bool)
    requires Accounted(db, kind) && Declared(files, kind) && stop >= |Pending(files, db.marked)|
    ensures var done := RunBoot(db, files, stop, last);
      && (forall m :: m in files ==> Count(done.effects, m.name) == 1 + Count(done.crashes, m.name))
      && (forall m :: m in files && !m.noTransaction ==> Count(done.effects, m.name) == 1)
      && Pending(files, done.marked) == []
      && forall s, o :: RunBoot(done, files, s, o) == done
  {
    PendingFacts(files, db.marked);
    PendingDeclared(files, db.marked, kind);
    LoopKeepsAccount(db, Pending(files, db.marked), stop, last, kind);
    LoopMarksAll(db, Pending(files, db.marked), stop, last);
    var done := RunBoot(db, files, stop, last);
    forall m | m in files ensures m.name in done.marked && m.noTransaction == kind(m.name) {
      if m.name !in db.marked { assert m in Pending(files, db.marked); }
    }
    NothingPending(files, done.marked);
  }

  function Names(files: seq<Migration>): seq<string> {
    seq(|files|, i requires 0 <= i < |files| => files[i].name)
  }

  /** How many of the pending files take effect in a boot that ends like this. */
  function Reached(pending: seq<Migration>, stop: nat, last: Outcome): nat {
    if stop >= |pending| then |pending|
    else if last == Applied || (last == StoppedBetween && pending[stop].noTransaction) then stop + 1
    else stop
  }

  lemma {:induction false} LoopOrder(db: Database, pending: seq<Migration>, stop: nat, last: Outcome)
    ensures ApplyPending(db, pending, stop, last).order == db.order + Names(pending)[..Reached(pending, stop, last)]
    decreases |pending|
  {
    if pending != [] && stop > 0 {
      var rest := pending[1..];
      var k := Reached(rest, stop - 1, last);
      LoopOrder(ApplyOne(db, pending[0], Applied), rest, stop - 1, last);
      assert Names(pending)[..k + 1] == [pending[0].name] + Names(rest)[..k];
      assert Reached(pending, stop, last) == k + 1;
      assert db.order + [pending[0].name] + Names(rest)[..k] == db.order + ([pending[0].name] + Names(rest)[..k]);
    } else {
      FirstOrder(db, pending, stop, last);
    }
  }

  lemma FirstOrder(db: Database, pending: seq<Migration>, stop: nat, last: Outcome)
    requires pending == [] || stop == 0
    ensures ApplyPending(db, pending, stop, last).order == db.order + Names(pending)[..Reached(pending, stop, last)]
  {
    if Reached(pending, stop, last) == 0 {
      assert Names(pending)[..0] == [] && db.order + [] == db.order;
    } else {
      assert Names(pending)[..1] == [pending[0].name];
    }
  }

  /**
   The list handed to the snapshot is what that boot applies: wherever it stops, the
   files that took effect are a prefix of the list, in its order, and all of it when
   nothing stops the boot.
   */
  lemma SnapshotIsWhatRuns(db: Database, files: seq<Migration>, stop: nat, last: Outcome)
    ensures var listed, k := Pending(files, db.marked), Reached(Pending(files, db.marked), stop, last);
      && k <= |listed| && (stop >= |listed| ==> k == |listed|)
      && RunBoot(db, files, stop, last).order == db.order + Names(listed)[..k]
  {
    LoopOrder(db, Pending(files, db.marked), stop, last);
  }

  ghost predicate Listed(files: seq<Migration>, n: string) {
    exists m :: m in files && m.name == n
  }

  lemma StepCounts(db: Database, pending: seq<Migration>, n: string)
    requires pending != [] && Distinct(pending)
    ensures Count(ApplyOne(db, pending[0], Applied).effects, n) + (if Listed(pending[1..], n) then 1 else 0) ==
            Count(db.effects, n) + (if Listed(pending, n) then 1 else 0)
  {
    var rest := pending[1..];
    assert pending == [pending[0]] + rest;
    if Listed(rest, n) {
      var m :| m in rest && m.name == n;
      var i :| 0 <= i < |rest| && rest[i] == m;
      assert pending[i + 1] == m;
    }
  }

  /** And each of them takes effect once more than before, when nothing stops the boot. */
  lemma {:induction false} EachListedRunsOnce(db: Database, pending: seq<Migration>, stop: nat, last: Outcome)
    requires stop >= |pending| && Distinct(pending)
    ensures var after := ApplyPending(db, pending, stop, last);
      forall n :: Count(after.effects, n) == Count(db.effects, n) + (if Listed(pending, n) then 1 else 0)
    decreases |pending|
  {
    if pending != [] {
      EachListedRunsOnce(ApplyOne(db, pending[0], Applied), pending[1..], stop - 1, last);
      forall n ensures
        Count(ApplyPending(db, pending, stop, last).effects, n) ==
        Count(db.effects, n) + (if Listed(pending, n) then 1 else 0)
      {
        StepCounts(db, pending, n);
      }
    }
  }
}
