/**
 Who is in an app and at which tier: the tables app_users, app_user_roles and
 app_role_grants with every statement that writes them, and resolveAppRole, which
 reads them on each verify (server/routes/apps.js, server/routes/users.js,
 server/routes/identity.js, server/services/ownerBackfill.js,
 server/services/scimGroupAccess.js).
 */
module Membership {
  import opened Wrappers

  datatype Role = Nobody | Viewer | User | Admin | Owner

  /** A stored tier; the two other roles are never written to a row. */
  type Tier = r: Role | r.User? || r.Admin? || r.Owner? witness User

  datatype Person = Person(active: bool, globalAdmin: bool)

  datatype App = App(creator: Option<nat>, isPublic: bool)

  /** The primary key of all four tables below. */
  datatype Seat = Seat(app: nat, user: nat)

  /** A role the app defined for itself, held on one seat. */
  datatype Grant = Grant(seat: Seat, key: string)

  /** What the group sweep says it created for a seat. */
  datatype Entry = Entry(tier: Tier, createdMember: bool, createdTier: bool)

  datatype Tables = Tables(
    users: map<nat, Person>,
    apps: map<nat, App>,
    members: set<Seat>,
    tiers: map<Seat, Tier>,
    grants: set<Grant>,
    ledger: map<Seat, Entry>
  )

  /** The role the verify endpoint acts on: an explicit row, then a global admin, then a public app. */
  function Resolve(s: Tables, x: Seat): Role
    requires x.app in s.apps && x.user in s.users
  {
    if x in s.tiers then s.tiers[x]
    else if s.users[x.user].globalAdmin then Admin
    else if s.apps[x.app].isPublic then Viewer
    else Nobody
  }

  function StoredKeys(s: Tables, x: Seat): set<string> {
    set g | g in s.grants && g.seat == x :: g.key
  }

  /** The app-defined keys sent on the wire: a grant counts only while its holder is a member. */
  function LiveKeys(s: Tables, x: Seat): set<string> {
    if x in s.members then StoredKeys(s, x) else {}
  }

  predicate Known(s: Tables, x: Seat) {
    x.app in s.apps && x.user in s.users
  }

  // ---- the statements ---------------------------------------------------------------------

  /** Replace the whole user list; an unknown id fails its foreign key and rolls everything back. */
  function Replace(s: Tables, app: nat, ids: seq<nat>): Tables {
    if app !in s.apps || exists id :: id in ids && id !in s.users then s
    else
      var members := (set x | x in s.members && x.app != app) + (set id | id in ids :: Seat(app, id));
      s.(members := members,
         tiers := (map x | x in s.tiers && (x.app == app ==> x in members) :: s.tiers[x]),
         grants := (set g | g in s.grants && (g.seat.app == app ==> g.seat in members)))
  }

  function WithTier(s: Tables, x: Seat, t: Tier): Tables {
    s.(tiers := s.tiers[x := t], members := s.members + {x})
  }

  function WithoutSeats(s: Tables, gone: Seat -> bool): Tables {
    s.(members := (set x | x in s.members && !gone(x)),
       tiers := (map x | x in s.tiers && !gone(x) :: s.tiers[x]),
       grants := (set g | g in s.grants && !gone(g.seat)))
  }

  ghost predicate LastOwner(s: Tables, x: Seat) {
    x in s.tiers && s.tiers[x].Owner? && forall y :: y in s.tiers && y.app == x.app && s.tiers[y].Owner? ==> y == x
  }

  /** Set one tier, None removing the seat; the last owner cannot be demoted or removed. */
  ghost function SetTier(s: Tables, x: Seat, t: Option<Tier>): Tables {
    if x.app !in s.apps || (t != Some(Owner) && LastOwner(s, x)) then s
    else match t
      case None => WithoutSeats(s, (y: Seat) => y == x)
      case Some(tier) => if x.user in s.users then WithTier(s, x, tier) else s
  }

  function DeleteUser(s: Tables, u: nat): Tables {
    WithoutSeats(s, (y: Seat) => y.user == u).(
    users := s.users - {u},
    apps := (map a | a in s.apps :: if s.apps[a].creator == Some(u) then s.apps[a].(creator := None) else s.apps[a]),
    ledger := map y | y in s.ledger && y.user != u :: s.ledger[y])
  }

  function DeleteApp(s: Tables, a: nat): Tables {
    WithoutSeats(s, (y: Seat) => y.app == a).(
    apps := s.apps - {a},
    ledger := map y | y in s.ledger && y.app != a :: s.ledger[y])
  }

  function CreateApp(s: Tables, a: nat, u: nat): Tables {
    if a in s.apps || u !in s.users then s
    else WithTier(s.(apps := s.apps[a := App(Some(u), false)]), Seat(a, u), Owner)
  }

  predicate HasOwner(s: Tables, a: nat) {
    exists y :: y in s.tiers && y.app == a && s.tiers[y].Owner?
  }

  /** The seats the boot-time owner backfill selects: active creators of apps without an owner row. */
  function Orphaned(s: Tables): set<Seat> {
    set a | a in s.apps && s.apps[a].creator.Some? && s.apps[a].creator.value in s.users &&
            s.users[s.apps[a].creator.value].active && !HasOwner(s, a) :: Seat(a, s.apps[a].creator.value)
  }

  /** INSERT OR IGNORE: a seat that has a row keeps it. */
  function Backfill(s: Tables): Tables {
    s.(tiers := map x | x in s.tiers.Keys + Orphaned(s) :: if x in s.tiers then s.tiers[x] else Owner)
  }

  /** What the groups ask for now, joined with the users and apps that exist. */
  function Wanted(s: Tables, desired: map<Seat, Tier>): map<Seat, Tier> {
    map x | x in desired && Known(s, x) :: desired[x]
  }

  function SweptEntry(s: Tables, want: map<Seat, Tier>, x: Seat): Entry
    requires x in want
  {
    if x in s.ledger then s.ledger[x].(tier := want[x]) else Entry(want[x], x !in s.members, x !in s.tiers)
  }

  predicate Revoked(s: Tables, want: map<Seat, Tier>, x: Seat) {
    x in s.ledger && x !in want
  }

  predicate Opened(s: Tables, want: map<Seat, Tier>, x: Seat) {
    x in want && x !in s.ledger
  }

  /** A tier the sweep holds open is rewritten when the groups now ask for another one. */
  predicate Retiered(s: Tables, want: map<Seat, Tier>, x: Seat) {
    x in s.ledger && x in want && s.ledger[x].tier != want[x] && s.ledger[x].createdTier
  }

  /** One group sweep: revoke what it created for seats no group wants any more, then open the wanted ones. */
  function Sweep(s: Tables, desired: map<Seat, Tier>): Tables {
    var want := Wanted(s, desired);
    s.(members := (set x | x in s.members + want.Keys &&
                          if Revoked(s, want, x) then x in s.members && !s.ledger[x].createdMember
                          else x in s.members || Opened(s, want, x)),
       tiers := (map x | x in s.tiers.Keys + want.Keys &&
                        (if Revoked(s, want, x) then x in s.tiers && !s.ledger[x].createdTier
                         else x in s.tiers || Opened(s, want, x)) ::
                  if x !in s.tiers || Retiered(s, want, x) then want[x] else s.tiers[x]),
       ledger := map x | x in want :: SweptEntry(s, want, x))
  }

  function SetKeys(s: Tables, x: Seat, keys: set<string>): Tables {
    if x !in s.members then s
    else s.(grants := (set g | g in s.grants && g.seat != x) + (set k | k in keys :: Grant(x, k)))
  }

  datatype Step =
    | PutUsers(app: nat, ids: seq<nat>)
    | PutTier(seat: Seat, tier: Option<Tier>)
    | GrantAccess(seat: Seat, granted: Tier)
    | PutKeys(seat: Seat, keys: set<string>)
    | RemoveUser(user: nat)
    | RemoveApp(app: nat)
    | NewApp(app: nat, creator: nat)
    | BootBackfill
    | GroupSweep(desired: map<Seat, Tier>)
    | PutVisibility(app: nat, isPublic: bool)
    | PutPerson(user: nat, person: Person)

  ghost function Next(s: Tables, step: Step): Tables {
    match step
    case PutUsers(a, ids) => Replace(s, a, ids)
    case PutTier(x, t) => SetTier(s, x, t)
    case GrantAccess(x, t) => if Known(s, x) && s.users[x.user].active then WithTier(s, x, t) else s
    case PutKeys(x, keys) => SetKeys(s, x, keys)
    case RemoveUser(u) => DeleteUser(s, u)
    case RemoveApp(a) => DeleteApp(s, a)
    case NewApp(a, u) => CreateApp(s, a, u)
    case BootBackfill => Backfill(s)
    case GroupSweep(desired) => Sweep(s, desired)
    case PutVisibility(a, p) => if a in s.apps then s.(apps := s.apps[a := s.apps[a].(isPublic := p)]) else s
    case PutPerson(u, p) => s.(users := s.users[u := p])
  }

  ghost function Run(s: Tables, steps: seq<Step>): Tables {
    if steps == [] then s else Next(Run(s, steps[..|steps| - 1]), steps[|steps| - 1])
  }

  // ---- replacing a user list ----------------------------------------------------------------

  class Store {
    var tables: Tables

    /** The PUT handler: a transaction whose insert loop stops at the first foreign-key failure. */
    method PutUsersList(app: nat, ids: seq<nat>) returns (ok: bool)
      requires app in tables.apps
      modifies this
      ensures ok <==> forall id :: id in ids ==> id in tables.users
      ensures tables == Replace(old(tables), app, ids)
    {
      var kept := set x | x in tables.members && x.app != app;
      var members := kept;
      for i := 0 to |ids|
        invariant members == kept + set id | id in ids[..i] :: Seat(app, id)
        invariant forall id :: id in ids[..i] ==> id in tables.users
        invariant tables == old(tables)
      {
        if ids[i] !in tables.users {
          assert ids[i] in ids;
          return false;
        }
        members := members + {Seat(app, ids[i])};
        assert ids[..i + 1] == ids[..i] + [ids[i]];
      }
      assert ids[..|ids|] == ids;
      var tiers := map x | x in tables.tiers && (x.app != app || x in members) :: tables.tiers[x];
      var grants := set g | g in tables.grants && (g.seat.app != app || g.seat in members);
      tables := tables.(members := members, tiers := tiers, grants := grants);
      ok := true;
    }
  }

  /** An accepted replacement, seat by seat: who is in, whose tier and keys survive, and that nothing else moves. */
  lemma ReplaceExact(s: Tables, app: nat, ids: seq<nat>, x: Seat)
    requires app in s.apps && forall id :: id in ids ==> id in s.users
    ensures var t := Replace(s, app, ids);
            && (x in t.members <==> if x.app == app then x.user in ids else x in s.members)
            && (x in t.tiers <==> x in s.tiers && (x.app == app ==> x in t.members))
            && (x in t.tiers ==> t.tiers[x] == s.tiers[x])
            && StoredKeys(t, x) == (if x.app == app && x !in t.members then {} else StoredKeys(s, x))
            && (t.users, t.apps, t.ledger) == (s.users, s.apps, s.ledger)
  {
    var t := Replace(s, app, ids);
    assert forall y: Seat :: y.app == app ==> (y in t.members <==> y.user in ids) by {
      forall y: Seat | y.app == app && y.user in ids ensures y in t.members { assert y == Seat(app, y.user); }
    }
    if x.app != app || x in t.members {
      assert forall g :: g in s.grants && g.seat == x ==> g in t.grants;
    }
  }

  // ---- when a tier appears --------------------------------------------------------------------

  /** What a step must be, given the tables before it, to write a row for a seat that has none. */
  ghost predicate WritesTier(s: Tables, step: Step, x: Seat) {
    match step
    case PutTier(y, t) => y == x && t.Some? && Known(s, x)
    case GrantAccess(y, _) => y == x && Known(s, x) && s.users[x.user].active
    case NewApp(a, u) => x == Seat(a, u) && a !in s.apps && u in s.users
    case BootBackfill => x in Orphaned(s)
    case GroupSweep(desired) => x in desired && Known(s, x) && x !in s.ledger
    case _ => false
  }

  lemma TierAppearsExactly(s: Tables, step: Step, x: Seat)
    requires x !in s.tiers
    ensures x in Next(s, step).tiers <==> WritesTier(s, step, x)
  {
  }

  /** No step of a run, taken in the tables it meets, writes a row for the seat. */
  ghost predicate NeverWrites(s: Tables, steps: seq<Step>, x: Seat) {
    forall i :: 0 <= i < |steps| ==> !WritesTier(Run(s, steps[..i]), steps[i], x)
  }

  lemma {:induction false} TierStaysAway(s: Tables, steps: seq<Step>, x: Seat)
    requires x !in s.tiers && NeverWrites(s, steps, x)
    ensures x !in Run(s, steps).tiers
  {
    if steps != [] {
      var k := |steps| - 1;
      assert forall i :: 0 <= i <= k ==> steps[..k][..i] == steps[..i];
      TierStaysAway(s, steps[..k], x);
      TierAppearsExactly(Run(s, steps[..k]), steps[k], x);
    }
  }

  lemma RunExtends(s: Tables, steps: seq<Step>, i: nat)
    requires i < |steps|
    ensures Run(s, steps[..i + 1]) == Next(Run(s, steps[..i]), steps[i])
  {
    assert steps[..i + 1][..i] == steps[..i];
  }

  lemma TierStaysAwayExactly(s: Tables, steps: seq<Step>, x: Seat)
    requires x !in s.tiers
    ensures NeverWrites(s, steps, x) <==> forall n :: 0 <= n <= |steps| ==> x !in Run(s, steps[..n]).tiers
  {
    if NeverWrites(s, steps, x) {
      forall n | 0 <= n <= |steps| ensures x !in Run(s, steps[..n]).tiers {
        assert forall i :: 0 <= i < n ==> steps[..n][..i] == steps[..i];
        TierStaysAway(s, steps[..n], x);
      }
    } else {
      var i :| 0 <= i < |steps| && WritesTier(Run(s, steps[..i]), steps[i], x);
      RunExtends(s, steps, i);
      if x !in Run(s, steps[..i]).tiers { TierAppearsExactly(Run(s, steps[..i]), steps[i], x); }
      assert x in Run(s, steps[..i]).tiers || x in Run(s, steps[..i + 1]).tiers;
    }
  }

  /**
   Dropped from the list, a user is at every later verify of a run that writes no row
   for the seat an admin exactly as a global admin, else a viewer exactly of a public
   app, else nobody.
   */
  lemma DroppedStaysOut(s: Tables, app: nat, ids: seq<nat>, u: nat, steps: seq<Step>, n: nat)
    requires app in s.apps && u !in ids && forall id :: id in ids ==> id in s.users
    requires n <= |steps| && NeverWrites(Replace(s, app, ids), steps, Seat(app, u))
    requires Known(Run(Replace(s, app, ids), steps[..n]), Seat(app, u))
    ensures var t := Run(Replace(s, app, ids), steps[..n]);
            var role := Resolve(t, Seat(app, u));
            && (role == Admin <==> t.users[u].globalAdmin)
            && (role == Viewer <==> !t.users[u].globalAdmin && t.apps[app].isPublic)
            && (role == Nobody <==> !t.users[u].globalAdmin && !t.apps[app].isPublic)
  {
    ReplaceExact(s, app, ids, Seat(app, u));
    TierStaysAwayExactly(Replace(s, app, ids), steps, Seat(app, u));
  }

  /** Adding the person back to the list restores the membership and neither the tier nor an app-defined key. */
  lemma ReaddedHoldsNothing(s: Tables, app: nat, ids: seq<nat>, more: seq<nat>, u: nat)
    requires app in s.apps && forall id :: id in ids + more ==> id in s.users
    requires u !in ids && u in more
    ensures var t := Replace(Replace(s, app, ids), app, more);
            Seat(app, u) in t.members && Seat(app, u) !in t.tiers && LiveKeys(t, Seat(app, u)) == {}
  {
    var x := Seat(app, u);
    assert forall id :: id in ids ==> id in ids + more;
    assert forall id :: id in more ==> id in ids + more;
    ReplaceExact(s, app, ids, x);
    ReplaceExact(Replace(s, app, ids), app, more, x);
  }

  // ---- what a change does to a role --------------------------------------------------------------

  /** Publishing an app makes viewers of strangers, withdrawing it takes that back; no other role moves. */
  lemma VisibilityExactly(s: Tables, x: Seat, a: nat, isPublic: bool)
    requires Known(s, x)
    ensures var before, after := Resolve(s, x), Resolve(Next(s, PutVisibility(a, isPublic)), x);
            after == if a == x.app && isPublic && before == Nobody then Viewer
                     else if a == x.app && !isPublic && before == Viewer then Nobody
                     else before
  {
  }

  /** A seat with a row keeps its tier whatever becomes of the person; one without follows the two flags. */
  lemma GlobalAdminExactly(s: Tables, x: Seat, u: nat, person: Person)
    requires Known(s, x)
    ensures var before, after := Resolve(s, x), Resolve(Next(s, PutPerson(u, person)), x);
            if u != x.user || x in s.tiers then after == before
            else && (after == Admin <==> person.globalAdmin)
                 && (after == Viewer <==> !person.globalAdmin && s.apps[x.app].isPublic)
                 && (after == Nobody <==> !person.globalAdmin && !s.apps[x.app].isPublic)
  {
  }

  /** The seat is owner and no other seat of the app is. */
  ghost predicate OnlyOwner(s: Tables, x: Seat) {
    x in s.tiers && s.tiers[x] == Owner && forall y :: y in s.tiers && y.app == x.app && y != x ==> s.tiers[y] != Owner
  }

  /**
   A tier that is set is the role, whatever the two flags say, and membership comes
   with it; the guarded route refuses exactly to demote or remove the only owner, and
   the MCP grant exactly to seat somebody inactive.
   */
  lemma TierIsTheRole(s: Tables, x: Seat, t: Tier)
    requires Known(s, x)
    ensures var put := Next(s, PutTier(x, Some(t)));
            if OnlyOwner(s, x) && t != Owner then put == s
            else Known(put, x) && Resolve(put, x) == t && x in put.members
    ensures var gone := Next(s, PutTier(x, None));
            if OnlyOwner(s, x) then gone == s else x !in gone.tiers && x !in gone.members && StoredKeys(gone, x) == {}
    ensures var granted := Next(s, GrantAccess(x, t));
            if !s.users[x.user].active then granted == s
            else Known(granted, x) && Resolve(granted, x) == t && x in granted.members
  {
  }

  /** A new app is private: its creator owns it, and everybody else is admin as a global admin or nobody. */
  lemma NewAppIsPrivate(s: Tables, a: nat, creator: nat, u: nat)
    requires a !in s.apps && creator in s.users && u in s.users && Seat(a, u) !in s.tiers
    ensures var t := Next(s, NewApp(a, creator));
            && Known(t, Seat(a, u)) && t.apps[a].creator == Some(creator)
            && Resolve(t, Seat(a, u)) ==
               if u == creator then Owner else if s.users[u].globalAdmin then Admin else Nobody
  {
  }

  /** Deleting a user takes exactly what was theirs in every table, and their name off the apps they created. */
  lemma DeletedUserLeavesNothing(s: Tables, u: nat)
    ensures var t := Next(s, RemoveUser(u));
            && t.users == s.users - {u} && t.apps.Keys == s.apps.Keys
            && (forall a :: a in t.apps ==>
                  var was := s.apps[a];
                  t.apps[a] == App(if was.creator == Some(u) then None else was.creator, was.isPublic))
            && (forall x :: x in t.members <==> x in s.members && x.user != u)
            && (forall x :: x in t.tiers <==> x in s.tiers && x.user != u)
            && (forall x :: x in t.tiers ==> t.tiers[x] == s.tiers[x])
            && (forall g :: g in t.grants <==> g in s.grants && g.seat.user != u)
            && (forall x :: x in t.ledger <==> x in s.ledger && x.user != u)
            && (forall x :: x in t.ledger ==> t.ledger[x] == s.ledger[x])
  {
  }

  lemma DeletedAppLeavesNothing(s: Tables, a: nat)
    ensures var t := Next(s, RemoveApp(a));
            && t.users == s.users && t.apps == s.apps - {a}
            && (forall x :: x in t.members <==> x in s.members && x.app != a)
            && (forall x :: x in t.tiers <==> x in s.tiers && x.app != a)
            && (forall x :: x in t.tiers ==> t.tiers[x] == s.tiers[x])
            && (forall g :: g in t.grants <==> g in s.grants && g.seat.app != a)
            && (forall x :: x in t.ledger <==> x in s.ledger && x.app != a)
            && (forall x :: x in t.ledger ==> t.ledger[x] == s.ledger[x])
  {
  }

  /** The keys set on a member are the ones sent; nobody else has live keys, and no other seat's keys move. */
  lemma LiveKeysExactly(s: Tables, x: Seat, keys: set<string>, y: Seat)
    ensures var t := Next(s, PutKeys(x, keys));
            && LiveKeys(t, x) == (if x in s.members then keys else {})
            && (x !in s.members ==> t == s)
            && (y != x ==> StoredKeys(t, y) == StoredKeys(s, y) && LiveKeys(t, y) == LiveKeys(s, y))
  {
    var t := Next(s, PutKeys(x, keys));
    if x in s.members { assert forall k :: k in keys ==> Grant(x, k) in t.grants; }
    if y != x { assert forall g: Grant :: g.seat == y ==> (g in t.grants <==> g in s.grants); }
  }

  // ---- tiers are held by members ----------------------------------------------------------------

  ghost predicate Held(s: Tables) {
    forall x :: x in s.tiers ==> x in s.members
  }

  /** A sweep that had to create the membership found no tier either. */
  ghost predicate LedgerSound(s: Tables) {
    forall x :: x in s.ledger && s.ledger[x].createdMember ==> s.ledger[x].createdTier
  }

  ghost predicate SeatsAnOutsider(s: Tables, step: Step) {
    step.BootBackfill? && exists x :: x in Orphaned(s) && x !in s.tiers && x !in s.members
  }

  /** The backfill is the only writer that can leave a tier with someone who is not a member. */
  lemma StepKeepsHeld(s: Tables, step: Step)
    requires Held(s) && LedgerSound(s)
    ensures LedgerSound(Next(s, step))
    ensures Held(Next(s, step)) <==> !SeatsAnOutsider(s, step)
  {
    if SeatsAnOutsider(s, step) {
      var x :| x in Orphaned(s) && x !in s.tiers && x !in s.members;
      assert x in Next(s, step).tiers;
    }
  }

  lemma {:induction false} RunKeepsHeld(s: Tables, steps: seq<Step>)
    requires Held(s) && LedgerSound(s)
    requires forall i :: 0 <= i < |steps| ==> !SeatsAnOutsider(Run(s, steps[..i]), steps[i])
    ensures Held(Run(s, steps)) && LedgerSound(Run(s, steps))
  {
    if steps != [] {
      var k := |steps| - 1;
      assert forall i :: 0 <= i <= k ==> steps[..k][..i] == steps[..i];
      RunKeepsHeld(s, steps[..k]);
      StepKeepsHeld(Run(s, steps[..k]), steps[k]);
    }
  }

  // ---- what the other writers do to a dropped user --------------------------------------------------

  /** At the next boot a dropped creator is owner again exactly when active and no owner was kept. */
  lemma BackfillReseatsExactly(s: Tables, app: nat, ids: seq<nat>, creator: nat)
    requires app in s.apps && s.apps[app].creator == Some(creator) && creator in s.users
    requires forall id :: id in ids ==> id in s.users
    requires creator !in ids
    ensures var x, t := Seat(app, creator), Backfill(Replace(s, app, ids));
            && x !in t.members
            && (Resolve(t, x) == Owner <==>
                s.users[creator].active && forall id :: id in ids && Seat(app, id) in s.tiers ==>
                  !s.tiers[Seat(app, id)].Owner?)
  {
    var r, x := Replace(s, app, ids), Seat(app, creator);
    ReplaceExact(s, app, ids, x);
    if HasOwner(r, app) {
      var y :| y in r.tiers && y.app == app && r.tiers[y].Owner?;
      ReplaceExact(s, app, ids, y);
      assert y == Seat(app, y.user);
    } else {
      forall id | id in ids && Seat(app, id) in s.tiers ensures !s.tiers[Seat(app, id)].Owner? {
        ReplaceExact(s, app, ids, Seat(app, id));
        assert Seat(app, id) in r.tiers;
      }
    }
    assert x in Backfill(r).tiers <==> x in Orphaned(r);
  }

  /** A backfill keeps every row; an app is owned afterwards exactly when it was, or its active creator has no row. */
  lemma OwnedAfterBackfillExactly(s: Tables, a: nat)
    requires a in s.apps
    ensures var t, c := Backfill(s), s.apps[a].creator;
            && (forall x :: x in s.tiers ==> x in t.tiers && t.tiers[x] == s.tiers[x])
            && (HasOwner(t, a) <==>
                  || HasOwner(s, a)
                  || (c.Some? && c.value in s.users && s.users[c.value].active && Seat(a, c.value) !in s.tiers))
  {
    var t, c := Backfill(s), s.apps[a].creator;
    if HasOwner(s, a) {
      var y :| y in s.tiers && y.app == a && s.tiers[y].Owner?;
      assert y in t.tiers;
    } else if c.Some? && c.value in s.users && s.users[c.value].active {
      assert Seat(a, c.value) in Orphaned(s) && Seat(a, c.value) in t.tiers;
    }
  }

  /** So an active creator who holds a lower tier never gets the app back this way. */
  lemma BackfillLeavesOwnerless(a: nat, u: nat)
    ensures var s := Tables(map[u := Person(true, false)], map[a := App(Some(u), false)],
                            {Seat(a, u)}, map[Seat(a, u) := User], {}, map[]);
            Orphaned(s) == {Seat(a, u)} && Backfill(s) == s && !HasOwner(Backfill(s), a)
  {
    var s := Tables(map[u := Person(true, false)], map[a := App(Some(u), false)],
                    {Seat(a, u)}, map[Seat(a, u) := User], {}, map[]);
    assert a in s.apps && !HasOwner(s, a);
    assert Seat(a, u) in Orphaned(s);
    assert Backfill(s).tiers == s.tiers;
  }

  /** Setting or removing a tier over the guarded route leaves every owned app an owner. */
  lemma SetTierKeepsAnOwner(s: Tables, x: Seat, t: Option<Tier>, app: nat)
    requires HasOwner(s, app)
    ensures HasOwner(SetTier(s, x, t), app)
  {
    var y :| y in s.tiers && y.app == app && s.tiers[y].Owner?;
    if y == x && t != Some(Owner) && !LastOwner(s, x) {
      var z :| z in s.tiers && z.app == x.app && s.tiers[z].Owner? && z != x;
      assert z in SetTier(s, x, t).tiers;
    } else {
      assert y in SetTier(s, x, t).tiers;
    }
  }

  /** The seat is an owner after this sweep. */
  predicate OwnerAfterSweep(s: Tables, want: map<Seat, Tier>, x: Seat) {
    if x !in s.tiers then Opened(s, want, x) && want[x].Owner?
    else if Revoked(s, want, x) then !s.ledger[x].createdTier && s.tiers[x].Owner?
    else if Retiered(s, want, x) then want[x].Owner?
    else s.tiers[x].Owner?
  }

  /** What a step must be to leave an owned app without an owner. */
  ghost predicate StripsOwners(s: Tables, step: Step, a: nat) {
    match step
    case PutUsers(b, ids) =>
      && b == a && a in s.apps && (forall id :: id in ids ==> id in s.users)
      && forall id :: id in ids && Seat(a, id) in s.tiers ==> !s.tiers[Seat(a, id)].Owner?
    case GrantAccess(x, t) => x.app == a && Known(s, x) && s.users[x.user].active && !t.Owner? && LastOwner(s, x)
    case RemoveUser(u) => LastOwner(s, Seat(a, u))
    case RemoveApp(b) => b == a
    case GroupSweep(desired) =>
      var want := Wanted(s, desired);
      forall x :: x in s.tiers.Keys + want.Keys && x.app == a ==> !OwnerAfterSweep(s, want, x)
    case _ => false
  }

  /** The guarded route never takes the last owner away; these steps do, and no others. */
  lemma OwnersLostExactly(s: Tables, step: Step, a: nat)
    requires HasOwner(s, a)
    ensures !HasOwner(Next(s, step), a) <==> StripsOwners(s, step, a)
  {
    if step.PutUsers? && StripsOwners(s, step, a) {
      forall z | z in Next(s, step).tiers && z.app == a ensures z == Seat(a, z.user) && z.user in step.ids {
        ReplaceExact(s, a, step.ids, z);
      }
    }
  }

  /** A sweep leaves a stored tier alone unless its ledger says it created that row and the groups now ask otherwise. */
  lemma SweepTouchesExactly(s: Tables, desired: map<Seat, Tier>, x: Seat)
    requires x in s.tiers
    ensures var t, want := Sweep(s, desired), Wanted(s, desired);
            x in t.tiers && t.tiers[x] == s.tiers[x] <==>
            x !in s.ledger || !s.ledger[x].createdTier ||
            (x in want && (want[x] == s.ledger[x].tier || want[x] == s.tiers[x]))
  {
  }

  /** A seat the groups open, or hold open at another tier, resolves to what they now ask for. */
  lemma SweepGrants(s: Tables, desired: map<Seat, Tier>, x: Seat)
    requires Known(s, x) && x in desired
    requires if x !in s.ledger then x !in s.tiers
             else x in s.tiers && s.ledger[x].createdTier && s.ledger[x].tier != desired[x]
    ensures var t := Sweep(s, desired); Known(t, x) && Resolve(t, x) == desired[x]
    ensures x !in s.ledger ==> x in Sweep(s, desired).members
  {
  }

  /** The two tables hold the same membership and tier for this seat. */
  predicate SameSeat(s: Tables, t: Tables, x: Seat) {
    && (x in s.members <==> x in t.members)
    && (x in s.tiers <==> x in t.tiers)
    && (x in s.tiers ==> s.tiers[x] == t.tiers[x])
  }

  lemma SameSeats(s: Tables, t: Tables)
    requires forall x :: SameSeat(s, t, x)
    ensures s.members == t.members && s.tiers == t.tiers
  {
    forall x ensures x in s.members <==> x in t.members { assert SameSeat(s, t, x); }
    forall x ensures (x in s.tiers <==> x in t.tiers) && (x in s.tiers ==> s.tiers[x] == t.tiers[x]) {
      assert SameSeat(s, t, x);
    }
  }

  /** Sweeping twice for the same groups is sweeping once. */
  lemma SweepTwice(s: Tables, desired: map<Seat, Tier>)
    ensures Sweep(Sweep(s, desired), desired) == Sweep(s, desired)
  {
    var t := Sweep(s, desired);
    assert Wanted(t, desired) == Wanted(s, desired);
    forall x ensures SameSeat(Sweep(t, desired), t, x) {}
    SameSeats(Sweep(t, desired), t);
    assert Sweep(t, desired).ledger == t.ledger;
  }

  /** A first sweep is undone, seat by seat, when its groups are gone. */
  lemma SweepUndone(s: Tables, desired: map<Seat, Tier>)
    requires s.ledger == map[]
    ensures Sweep(Sweep(s, desired), map[]) == s
  {
    var t := Sweep(s, desired);
    assert Wanted(t, map[]) == map[];
    forall x ensures SameSeat(Sweep(t, map[]), s, x) {}
    SameSeats(Sweep(t, map[]), s);
  }

  /** So a tier an admin set by hand over a swept one is taken away with the group, membership included. */
  lemma SweepRevokesHandSetTier(s: Tables, x: Seat, t: Tier, hand: Tier)
    requires Known(s, x) && x !in s.tiers && x !in s.members && x !in s.ledger
    ensures var swept := Sweep(s, map[x := t]);
            var byHand := SetTier(swept, x, Some(hand));
            var revoked := Sweep(byHand, map[]);
            !LastOwner(swept, x) ==>
            byHand.tiers[x] == hand && x !in revoked.tiers && x !in revoked.members
  {
    var swept := Sweep(s, map[x := t]);
    assert Wanted(s, map[x := t]) == map[x := t];
    assert x in swept.tiers && x in swept.members && swept.ledger[x] == Entry(t, true, true);
    assert Wanted(SetTier(swept, x, Some(hand)), map[]) == map[];
  }

  /** A seat that is given up loses its app-defined keys too, except when a sweep is what takes it. */
  lemma LeavingClearsKeysExactly(s: Tables, step: Step, x: Seat)
    requires x in s.members && x !in Next(s, step).members
    ensures StoredKeys(Next(s, step), x) == (if step.GroupSweep? then StoredKeys(s, x) else {})
  {
  }

  /** The keys a sweep leaves behind are live again as soon as the person is back on the list. */
  lemma SweptKeysComeBack(s: Tables, desired: map<Seat, Tier>, app: nat, ids: seq<nat>, u: nat)
    requires app in s.apps && u in ids && forall id :: id in ids ==> id in s.users
    requires Seat(app, u) in s.members && Seat(app, u) !in Sweep(s, desired).members
    ensures LiveKeys(Sweep(s, desired), Seat(app, u)) == {}
    ensures LiveKeys(Replace(Sweep(s, desired), app, ids), Seat(app, u)) == LiveKeys(s, Seat(app, u))
  {
    var swept := Sweep(s, desired);
    assert (swept.apps, swept.users) == (s.apps, s.users);
    assert StoredKeys(swept, Seat(app, u)) == StoredKeys(s, Seat(app, u));
    ReplaceExact(swept, app, ids, Seat(app, u));
  }
}
