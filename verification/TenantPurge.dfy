/**
 Removing a tenant when access is revoked (server/services/tenants.js): the server
 derives the directory on its own, from the email and id it has on record, and
 must arrive at the one the app-side package uses below the same mount.
 */
module TenantPurge {
  import opened Strings
  import opened TenantPath
  import opened TenantUsage
  import opened Wrappers

  const TENANT_ROOT := "tenants"

  /** orgSlug: sanitise once more, whatever the caller passes. */
  function OrgSlug(org: string, lower: string -> string): string {
    var slug := Keep(lower(org), OrgChar);
    if slug == "" || slug == "." || slug == ".." then "unknown" else slug
  }

  function Digits(userId: string): string {
    Keep(userId, c => '0' <= c <= '9')
  }

  /** tenantDirRel of the org of an email. */
  function TenantDirRel(email: string, userId: string, lower: string -> string): string {
    JoinPath([TENANT_ROOT, OrgSlug(OrgFromEmail(email, lower), lower), "u" + Digits(userId)])
  }

  /** path.resolve of an absolute path. */
  function Resolve(path: string): string {
    "/" + JoinWith(Segments(path), '/')
  }

  function Target(base: string, email: string, userId: string, lower: string -> string): string {
    Resolve(JoinPath([base, TenantDirRel(email, userId, lower)]))
  }

  /** The traversal guard: the base itself, or strictly inside it. */
  predicate Passes(base: string, target: string) {
    target == base || base + "/" <= target
  }

  /** A resolved directory other than the root: an app's data directory of one environment. */
  predicate IsBase(base: string) {
    IsAbsolute(base) && base == Resolve(base) && Segments(base) != []
  }

  /** toLowerCase leaves the characters of a slug alone. */
  ghost predicate KeepsSlugs(lower: string -> string) {
    forall s :: (forall c :: c in s ==> OrgChar(c)) ==> lower(s) == s
  }

  /** rmSync, recursive: the path itself and everything below it. */
  function Without(files: Files, d: Path): Files {
    map p | p in files && !(d <= p) :: files[p]
  }

  function Purged(files: Files, bases: seq<string>, email: string, userId: string, lower: string -> string): Files {
    if bases == [] then files
    else
      var before := Purged(files, bases[..|bases| - 1], email, userId, lower);
      var base := bases[|bases| - 1];
      var target := Target(base, email, userId, lower);
      if Passes(base, target) then Without(before, Segments(target)) else before
  }

  class Disk {
    var files: Files

    /** One environment after the other; a target outside its base is skipped. */
    method PurgeTenant(bases: seq<string>, email: string, userId: string, lower: string -> string)
      modifies this
      ensures files == Purged(old(files), bases, email, userId, lower)
    {
      for i := 0 to |bases|
        invariant files == Purged(old(files), bases[..i], email, userId, lower)
      {
        assert bases[..i + 1][..i] == bases[..i];
        var target := Target(bases[i], email, userId, lower);
        if !Passes(bases[i], target) { continue; }
        files := Without(files, Segments(target));
      }
      assert bases[..|bases|] == bases;
    }
  }

  // ---- paths of ordinary names ---------------------------------------------------------------

  predicate AllOrdinary(segs: seq<string>) {
    forall s :: s in segs ==> Ordinary(s)
  }

  lemma {:induction false} PushAllOrdinary(done: seq<string>, segs: seq<string>, absolute: bool)
    requires AllOrdinary(segs)
    ensures PushAll(done, segs, absolute) == done + segs
    decreases |segs|
  {
    if segs == [] {
      assert done + segs == done;
    } else {
      assert segs[0] in segs;
      PushAllOrdinary(done + [segs[0]], segs[1..], absolute);
      assert done + [segs[0]] + segs[1..] == done + segs;
    }
  }

  lemma {:induction false} JoinEnds(segs: seq<string>)
    requires AllOrdinary(segs) && segs != []
    ensures var body := JoinWith(segs, '/'); body != "" && body[0] != '/' && body[|body| - 1] != '/'
  {
    assert segs[0] in segs;
    if |segs| > 1 { JoinEnds(segs[1..]); }
  }

  lemma {:induction false} JoinAppend(a: seq<string>, b: seq<string>)
    requires a != [] && b != []
    ensures JoinWith(a + b, '/') == JoinWith(a, '/') + "/" + JoinWith(b, '/')
  {
    assert (a + b)[0] == a[0] && (a + b)[1..] == a[1..] + b;
    if |a| > 1 {
      JoinAppend(a[1..], b);
    } else {
      assert a[1..] + b == b;
    }
  }

  /** A relative path of ordinary names is what path.join gives for them. */
  lemma RelativeIsPlain(segs: seq<string>)
    requires AllOrdinary(segs) && segs != []
    ensures JoinPath(segs) == JoinWith(segs, '/')
  {
    NothingEmpty(segs);
    JoinEnds(segs);
    SplitJoin(segs, '/');
    PushAllOrdinary([], segs, false);
    assert [] + segs == segs;
  }

  lemma JoinedAll(dir: string, segs: seq<string>)
    requires dir != "" && AllOrdinary(segs) && segs != []
    ensures var path := JoinPath([dir, JoinWith(segs, '/')]);
      path != "" && IsAbsolute(path) == IsAbsolute(dir) && Segments(path) == Segments(dir) + segs
  {
    var rel := JoinWith(segs, '/');
    var joined := dir + ['/'] + rel;
    JoinEnds(segs);
    NothingEmpty([dir, rel]);
    assert [dir, rel][1..] == [rel] && JoinWith([dir, rel], '/') == joined;
    SplitConcat(dir, rel, '/');
    SplitJoin(segs, '/');
    PushConcat([], SplitOn(dir, '/'), segs, IsAbsolute(dir));
    PushAllOrdinary(Segments(dir), segs, IsAbsolute(dir));
    NormalizeKeepsSegments(joined);
  }

  /** path.join of several names is path.join of their joined path. */
  lemma JoinFlat(dir: string, segs: seq<string>)
    requires dir != "" && AllOrdinary(segs) && segs != []
    ensures JoinPath([dir] + segs) == JoinPath([dir, JoinWith(segs, '/')])
  {
    var rel := JoinWith(segs, '/');
    JoinEnds(segs);
    NothingEmpty([dir, rel]);
    NothingEmpty([dir] + segs);
    assert ([dir] + segs)[1..] == segs && [dir, rel][1..] == [rel];
    assert JoinWith([dir] + segs, '/') == dir + ['/'] + rel == JoinWith([dir, rel], '/');
  }

  lemma ResolveKeepsSegments(path: string)
    requires IsAbsolute(path) && Segments(path) != []
    ensures IsAbsolute(Resolve(path)) && Segments(Resolve(path)) == Segments(path)
  {
    SplitHasNoSeparator(path, '/');
    PushAllIsNormal([], SplitOn(path, '/'), true);
    RebuiltSegments(Segments(path), true);
  }

  lemma ResolvedSplits(path: string)
    requires IsAbsolute(path) && path == Resolve(path) && Segments(path) != []
    ensures SplitOn(path, '/') == [""] + Segments(path)
  {
    var segs := Segments(path);
    SplitHasNoSeparator(path, '/');
    PushAllIsNormal([], SplitOn(path, '/'), true);
    SplitJoin(segs, '/');
    SplitConcat("", JoinWith(segs, '/'), '/');
    assert "" + ['/'] + JoinWith(segs, '/') == path;
  }

  lemma StartsWithBase(base: string, rest: string, target: string)
    requires IsBase(base) && target == base + ['/'] + rest == Resolve(target) && Segments(target) != []
    ensures Segments(base) <= Segments(target)
  {
    var b, t := Segments(base), Segments(target);
    SplitConcat(base, rest, '/');
    ResolvedSplits(base);
    ResolvedSplits(target);
    AfterFirst("", b, t, SplitOn(rest, '/'));
  }

  lemma AfterFirst(x: string, b: seq<string>, t: seq<string>, more: seq<string>)
    requires [x] + t == [x] + b + more
    ensures t == b + more
  {
    assert t == ([x] + t)[1..] && b + more == ([x] + b + more)[1..];
  }

  lemma LiesBelow(base: string, more: seq<string>)
    requires IsBase(base) && more != []
    ensures base + "/" <= "/" + JoinWith(Segments(base) + more, '/')
  {
    JoinAppend(Segments(base), more);
    assert "/" + JoinWith(Segments(base) + more, '/') == base + "/" + JoinWith(more, '/');
  }

  /** On resolved paths the traversal guard is containment: a sibling whose name starts alike does not pass. */
  lemma GuardIsContainment(base: string, target: string)
    requires IsBase(base) && IsAbsolute(target) && target == Resolve(target)
    ensures Passes(base, target) <==> Segments(base) <= Segments(target)
  {
    var b, t := Segments(base), Segments(target);
    if base + "/" <= target {
      assert target == base + ['/'] + target[|base| + 1..];
      assert t != [];
      StartsWithBase(base, target[|base| + 1..], target);
    } else if b == t {
      assert target == base;
    } else if b < t {
      assert t == b + t[|b|..];
      LiesBelow(base, t[|b|..]);
    }
  }

  // ---- the two derivations agree ---------------------------------------------------------------

  lemma OrgIsOrdinary(email: string, lower: string -> string)
    ensures var org := OrgFromEmail(email, lower); Ordinary(org) && forall c :: c in org ==> OrgChar(c)
  {
    var parts := SplitOn(lower(email), '@');
    KeepOnly(if |parts| > 1 then parts[|parts| - 1] else "", OrgChar);
  }

  /** Sanitising the org a second time changes nothing. */
  lemma OrgSlugIsStable(email: string, lower: string -> string)
    requires KeepsSlugs(lower)
    ensures OrgSlug(OrgFromEmail(email, lower), lower) == OrgFromEmail(email, lower)
  {
    OrgIsOrdinary(email, lower);
    KeepAll(OrgFromEmail(email, lower), OrgChar);
  }

  /** The names below the base, for every email and id. */
  function PurgeSegments(email: string, userId: string, lower: string -> string): seq<string> {
    [TENANT_ROOT, OrgFromEmail(email, lower), "u" + Digits(userId)]
  }

  lemma PurgeSegmentsOrdinary(email: string, userId: string, lower: string -> string)
    ensures AllOrdinary(PurgeSegments(email, userId, lower))
  {
    OrgIsOrdinary(email, lower);
    KeepOnly(userId, c => '0' <= c <= '9');
    assert ("u" + Digits(userId))[0] == 'u' && '/' !in Digits(userId);
  }

  /** The target is always three names below the base, so the traversal guard never skips an environment. */
  lemma TargetSegments(base: string, email: string, userId: string, lower: string -> string)
    requires IsBase(base) && KeepsSlugs(lower)
    ensures var target := Target(base, email, userId, lower);
      Segments(target) == Segments(base) + PurgeSegments(email, userId, lower) && Passes(base, target)
  {
    var names := PurgeSegments(email, userId, lower);
    OrgSlugIsStable(email, lower);
    PurgeSegmentsOrdinary(email, userId, lower);
    RelativeIsPlain(names);
    JoinedAll(base, names);
    ResolveKeepsSegments(JoinPath([base, JoinWith(names, '/')]));
    JoinAppend(Segments(base), names);
  }

  /** Where a path of the container lies on the host: /data is the app's data directory. */
  function OnHost(base: string, inside: Path): Path
    requires inside != [] && inside[0] == "data"
  {
    Segments(base) + inside[1..]
  }

  /**
   For every email and id with a tenant, the server removes the directory the package
   uses exactly when the package's root is /data/tenants, which the deployer injects.
   */
  lemma SameTenantDirExactly(base: string, root: string, email: string, userId: string, lower: string -> string)
    requires IsBase(base) && KeepsSlugs(lower) && TenantKey(email, userId, lower).Some?
    requires IsAbsolute(root) && Segments(root) != [] && Segments(root)[0] == "data"
    ensures var key := TenantKey(email, userId, lower).value;
      var dir := Segments(TenantDir(root, key));
      && dir != [] && dir[0] == "data"
      && (Segments(Target(base, email, userId, lower)) == OnHost(base, dir) <==> Segments(root) == ["data", "tenants"])
  {
    var key := TenantKey(email, userId, lower).value;
    var below, mine := Segments(root)[1..], [key.0, "u" + key.1];
    TargetSegments(base, email, userId, lower);
    assert PurgeSegments(email, userId, lower) == [TENANT_ROOT] + mine;
    KeySegmentsAreOrdinary(email, userId, lower);
    DirInside(root, key);
    SameMiddle(Segments(base), [TENANT_ROOT], below, mine);
    assert below == ["tenants"] <==> Segments(root) == ["data", "tenants"];
  }

  lemma DirInside(root: string, key: (string, string))
    requires Ordinary(key.0) && Ordinary("u" + key.1)
    requires root != "" && Segments(root) != []
    ensures var dir := Segments(TenantDir(root, key));
      dir != [] && dir[0] == Segments(root)[0] && dir[1..] == Segments(root)[1..] + [key.0, "u" + key.1]
  {
    TenantDirIsTwoBelowRoot(root, key);
  }

  lemma SameMiddle(front: Path, x: Path, y: Path, back: Path)
    ensures front + (x + back) == front + (y + back) <==> x == y
  {
    var s, t := front + (x + back), front + (y + back);
    if s == t {
      assert |x| == |y|;
      assert s[|front|..|front| + |x|] == x && t[|front|..|front| + |x|] == y;
    }
  }

  // ---- what a purge removes ----------------------------------------------------------------------

  function HostDir(base: string, key: (string, string)): Path {
    Segments(base) + [TENANT_ROOT, key.0, "u" + key.1]
  }

  ghost function UsageAt(files: Files, d: Path): nat {
    Sum(files, Below(files, d))
  }

  /** Neither directory is the other or an ancestor of it. */
  predicate Apart(a: string, b: string) {
    !(Segments(a) <= Segments(b)) && !(Segments(b) <= Segments(a))
  }

  /** A path lies in the directory that is purged below one of the bases. */
  predicate InTarget(bases: seq<string>, names: seq<string>, p: Path) {
    exists b | b in bases :: Segments(b) + names <= p
  }

  /** The files left after the loop, one by one. */
  lemma {:induction false} PurgedExactly(
    files: Files, bases: seq<string>, email: string, userId: string, lower: string -> string, p: Path)
    requires (forall b :: b in bases ==> IsBase(b)) && KeepsSlugs(lower)
    ensures var after, names := Purged(files, bases, email, userId, lower), PurgeSegments(email, userId, lower);
      && (p in after <==> p in files && !InTarget(bases, names, p))
      && (p in after ==> after[p] == files[p])
  {
    if bases != [] {
      var init, last := bases[..|bases| - 1], bases[|bases| - 1];
      assert last in bases && forall b :: b in bases <==> b in init || b == last;
      PurgedExactly(files, init, email, userId, lower, p);
      TargetSegments(last, email, userId, lower);
    }
  }

  /** Below a tenant's directory, a purge reaches a file exactly when the base and the tenant are the purged ones. */
  lemma ReachesOwnExactly(bases: seq<string>, base: string, names: seq<string>, key: (string, string), p: Path)
    requires |names| == 3 && HostDir(base, key) < p
    requires forall b :: b in bases ==> b == base || Apart(b, base)
    ensures InTarget(bases, names, p) <==> base in bases && HostDir(base, key) == Segments(base) + names
  {
    var d := HostDir(base, key);
    if b :| b in bases && Segments(b) + names <= p {
      assert Segments(b) <= p && Segments(base) <= p by {
        assert p[..|Segments(b)|] == (Segments(b) + names)[..|Segments(b)|] == Segments(b);
        assert p[..|Segments(base)|] == d[..|Segments(base)|] == Segments(base);
      }
      PrefixesCompare(Segments(b), Segments(base), p);
      assert b == base;
      SameLength(d, Segments(base) + names, p);
    }
  }

  lemma PrefixesCompare(a: Path, b: Path, p: Path)
    requires a <= p && b <= p
    ensures a <= b || b <= a
  {
    if |a| <= |b| { assert b[..|a|] == p[..|a|] == a; } else { assert a[..|b|] == p[..|b|] == b; }
  }

  lemma SameLength(d: Path, t: Path, p: Path)
    requires |d| == |t| && d < p && t <= p
    ensures d == t
  {
    assert p[..|d|] == d && p[..|t|] == t;
  }

  /** The revoked tenant's directory of one of the listed bases. */
  predicate IsGone(
    bases: seq<string>, email: string, userId: string, lower: string -> string, base: string, key: (string, string))
  {
    base in bases && TenantKey(email, userId, lower) == Some(key)
  }

  lemma FileIsGoneExactly(
    files: Files, bases: seq<string>, email: string, userId: string, lower: string -> string,
    base: string, key: (string, string), p: Path)
    requires (forall b :: b in bases ==> IsBase(b)) && KeepsSlugs(lower) && key.1 != ""
    requires forall b :: b in bases ==> b == base || Apart(b, base)
    ensures var after := Purged(files, bases, email, userId, lower);
      && (p in after ==> p in files && after[p] == files[p])
      && (HostDir(base, key) < p ==> (p in after <==> p in files && !IsGone(bases, email, userId, lower, base, key)))
  {
    PurgedExactly(files, bases, email, userId, lower, p);
    SameDirExactly(base, email, userId, lower, key);
    if HostDir(base, key) < p {
      ReachesOwnExactly(bases, base, PurgeSegments(email, userId, lower), key, p);
    }
  }

  /**
   Purging over any list of bases: below every base, listed or not, the revoked tenant
   loses all of its bytes if the base is listed, and everybody else keeps all of theirs.
   */
  lemma PurgeIsExact(
    files: Files, bases: seq<string>, email: string, userId: string, lower: string -> string,
    base: string, key: (string, string))
    requires (forall b :: b in bases ==> IsBase(b)) && KeepsSlugs(lower) && key.1 != ""
    requires forall b :: b in bases ==> b == base || Apart(b, base)
    ensures UsageAt(Purged(files, bases, email, userId, lower), HostDir(base, key)) ==
      if base in bases && TenantKey(email, userId, lower) == Some(key) then 0 else UsageAt(files, HostDir(base, key))
  {
    var after, d := Purged(files, bases, email, userId, lower), HostDir(base, key);
    var gone := IsGone(bases, email, userId, lower, base, key);
    forall p
      ensures p in after ==> p in files && after[p] == files[p]
      ensures d < p ==> (p in after <==> p in files && !gone)
    {
      FileIsGoneExactly(files, bases, email, userId, lower, base, key, p);
    }
    UsageLeft(files, after, d, gone);
  }

  lemma UsageLeft(files: Files, after: Files, d: Path, gone: bool)
    requires forall p :: p in after ==> p in files && after[p] == files[p]
    requires forall p :: d < p ==> (p in after <==> p in files && !gone)
    ensures UsageAt(after, d) == if gone then 0 else UsageAt(files, d)
  {
    if gone {
      assert Below(after, d) == {};
    } else {
      assert Below(after, d) == Below(files, d);
      SumSame(files, after, Below(files, d));
    }
  }

  // ---- the two environments of an app --------------------------------------------------------------

  const PRODUCTION := "production"
  const SANDBOX := "sandbox"

  function BaseNames(slug: string, env: string): seq<string> {
    ["apps", slug, env, "shared", "data"]
  }

  /** The host directory mounted at /data in one environment of an app. */
  function BaseOf(dataDir: string, slug: string, env: string): string {
    Resolve(JoinPath([dataDir] + BaseNames(slug, env)))
  }

  function Bases(dataDir: string, slug: string): seq<string> {
    [BaseOf(dataDir, slug, PRODUCTION), BaseOf(dataDir, slug, SANDBOX)]
  }

  lemma BaseSegments(dataDir: string, slug: string, env: string)
    requires IsAbsolute(dataDir) && Ordinary(slug) && Ordinary(env)
    ensures IsBase(BaseOf(dataDir, slug, env))
    ensures Segments(BaseOf(dataDir, slug, env)) == Segments(dataDir) + BaseNames(slug, env)
  {
    JoinFlat(dataDir, BaseNames(slug, env));
    JoinedAll(dataDir, BaseNames(slug, env));
    ResolveKeepsSegments(JoinPath([dataDir] + BaseNames(slug, env)));
  }

  /** The base is the same one, or the two are apart. */
  predicate SameOrApart(same: bool, a: string, b: string) {
    if same then a == b else a != b && Apart(a, b)
  }

  lemma BasesApart(dataDir: string, slug: string, env: string, slug2: string, env2: string)
    requires IsAbsolute(dataDir) && Ordinary(slug) && Ordinary(env) && Ordinary(slug2) && Ordinary(env2)
    ensures SameOrApart(slug == slug2 && env == env2, BaseOf(dataDir, slug, env), BaseOf(dataDir, slug2, env2))
  {
    BaseSegments(dataDir, slug, env);
    BaseSegments(dataDir, slug2, env2);
    var n := |Segments(dataDir)|;
    var a, b := Segments(dataDir) + BaseNames(slug, env), Segments(dataDir) + BaseNames(slug2, env2);
    assert a[n + 1] == slug && b[n + 1] == slug2 && a[n + 2] == env && b[n + 2] == env2;
  }

  lemma OneOfTwo(p: string, s: string, base: string, isP: bool, isS: bool)
    requires SameOrApart(isP, p, base) && SameOrApart(isS, s, base)
    ensures base in [p, s] <==> isP || isS
    ensures forall b :: b in [p, s] ==> b == base || Apart(b, base)
  {
  }

  lemma BasesOfApp(dataDir: string, slug: string, app: string, env: string)
    requires IsAbsolute(dataDir) && Ordinary(slug) && Ordinary(app) && (env == PRODUCTION || env == SANDBOX)
    ensures BaseOf(dataDir, app, env) in Bases(dataDir, slug) <==> app == slug
    ensures forall b :: b in Bases(dataDir, slug) ==>
      b == BaseOf(dataDir, app, env) || Apart(b, BaseOf(dataDir, app, env))
  {
    BasesApart(dataDir, slug, PRODUCTION, app, env);
    BasesApart(dataDir, slug, SANDBOX, app, env);
    OneOfTwo(
      BaseOf(dataDir, slug, PRODUCTION), BaseOf(dataDir, slug, SANDBOX), BaseOf(dataDir, app, env),
      slug == app && PRODUCTION == env, slug == app && SANDBOX == env);
  }

  lemma BasesAreBases(dataDir: string, slug: string)
    requires IsAbsolute(dataDir) && Ordinary(slug)
    ensures forall b :: b in Bases(dataDir, slug) ==> IsBase(b)
  {
    BaseSegments(dataDir, slug, PRODUCTION);
    BaseSegments(dataDir, slug, SANDBOX);
  }

  /** One revocation over the whole platform: every app, both environments, every tenant. */
  lemma RevocationIsExact(
    files: Files, dataDir: string, slug: string, email: string, userId: string, lower: string -> string,
    app: string, env: string, key: (string, string))
    requires IsAbsolute(dataDir) && Ordinary(slug) && Ordinary(app) && (env == PRODUCTION || env == SANDBOX)
    requires KeepsSlugs(lower) && key.1 != ""
    ensures var d := HostDir(BaseOf(dataDir, app, env), key);
      UsageAt(Purged(files, Bases(dataDir, slug), email, userId, lower), d) ==
      if app == slug && TenantKey(email, userId, lower) == Some(key) then 0 else UsageAt(files, d)
  {
    BasesOfApp(dataDir, slug, app, env);
    BasesAreBases(dataDir, slug);
    PurgeIsExact(files, Bases(dataDir, slug), email, userId, lower, BaseOf(dataDir, app, env), key);
  }

  lemma SameDirExactly(base: string, email: string, userId: string, lower: string -> string, key: (string, string))
    requires key.1 != ""
    ensures HostDir(base, key) == Segments(base) + PurgeSegments(email, userId, lower) <==>
            TenantKey(email, userId, lower) == Some(key)
  {
    var d, t := HostDir(base, key), Segments(base) + PurgeSegments(email, userId, lower);
    var n := |Segments(base)|;
    assert d[n + 1] == key.0 && t[n + 1] == OrgFromEmail(email, lower);
    assert d[n + 2] == "u" + key.1 && t[n + 2] == "u" + Digits(userId);
    assert ("u" + key.1)[1..] == key.1 && ("u" + Digits(userId))[1..] == Digits(userId);
  }
}
