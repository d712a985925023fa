/**
 Tenant directories and files (packages/tenant/index.js): header values are
 sanitised into path segments and joined under Node's POSIX `path` rules.
 */
module TenantPath {
  import opened Strings
  import opened Wrappers

  // ---- POSIX paths ---------------------------------------------------------

  /** One segment of `normalizeString`: '' and '.' vanish, '..' pops or, above a relative start, stays. */
  function PushSegment(done: seq<string>, seg: string, absolute: bool): seq<string> {
    if seg == "" || seg == "." then done
    else if seg == ".." then
      if done != [] && done[|done| - 1] != ".." then done[..|done| - 1]
      else if absolute then done
      else done + [".."]
    else done + [seg]
  }

  function PushAll(done: seq<string>, segs: seq<string>, absolute: bool): seq<string>
    decreases |segs|
  {
    if segs == [] then done else PushAll(PushSegment(done, segs[0], absolute), segs[1..], absolute)
  }

  predicate IsAbsolute(path: string) {
    path != "" && path[0] == '/'
  }

  /** The directory names a path walks through, after normalisation. */
  function Segments(path: string): seq<string> {
    PushAll([], SplitOn(path, '/'), IsAbsolute(path))
  }

  function Normalize(path: string): string {
    if path == "" then "."
    else
      var body := JoinWith(Segments(path), '/');
      var trailing := path[|path| - 1] == '/';
      if body == "" then (if IsAbsolute(path) then "/" else if trailing then "./" else ".")
      else (if IsAbsolute(path) then "/" else "") + body + (if trailing then "/" else "")
  }

  /** path.join: empty arguments are skipped. */
  function JoinPath(args: seq<string>): string {
    var joined := JoinWith(NonEmpty(args), '/');
    if joined == "" then "." else Normalize(joined)
  }

  function NonEmpty(args: seq<string>): seq<string> {
    if args == [] then [] else (if args[0] == "" then [] else [args[0]]) + NonEmpty(args[1..])
  }

  function StripSlashes(s: string): string {
    if s != "" && s[|s| - 1] == '/' then StripSlashes(s[..|s| - 1]) else s
  }

  /** path.basename */
  function BaseName(s: string): string {
    var parts := SplitOn(StripSlashes(s), '/');
    parts[|parts| - 1]
  }

  // ---- the package ----------------------------------------------------------------------

  predicate OrgChar(c: char) {
    'a' <= c <= 'z' || '0' <= c <= '9' || c == '.' || c == '-'
  }

  function Keep(s: string, p: char -> bool): string {
    if s == "" then "" else (if p(s[0]) then [s[0]] else "") + Keep(s[1..], p)
  }

  /** `lower` stands for String.prototype.toLowerCase; nothing below depends on what it does. */
  function OrgFromEmail(email: string, lower: string -> string): string {
    var parts := SplitOn(lower(email), '@');
    var domain := if |parts| > 1 then parts[|parts| - 1] else "";
    var slug := Keep(domain, OrgChar);
    if slug == "" || slug == "." || slug == ".." then "unknown" else slug
  }

  /** (org, userId), or nothing when the request carries no identity. */
  function TenantKey(email: string, userId: string, lower: string -> string): Option<(string, string)> {
    var digits := Keep(userId, c => '0' <= c <= '9');
    if digits == "" then None else Some((OrgFromEmail(email, lower), digits))
  }

  function TenantDir(root: string, key: (string, string)): string {
    JoinPath([root, key.0, "u" + key.1])
  }

  function StorageDir(root: string, key: (string, string)): string {
    JoinPath([TenantDir(root, key), "storage"])
  }

  function TenantFile(root: string, key: (string, string), name: string): Option<string> {
    var safe := BaseName(name);
    if safe == "" || safe == "." || safe == ".." || '\0' in safe then None
    else Some(JoinPath([StorageDir(root, key), safe]))
  }

  // ---- segments of joined paths ----------------------------------------------------------

  /** An ordinary directory name. */
  predicate Ordinary(seg: string) {
    seg != "" && seg != "." && seg != ".." && '/' !in seg
  }

  lemma {:induction false} PushConcat(done: seq<string>, s: seq<string>, t: seq<string>, absolute: bool)
    ensures PushAll(done, s + t, absolute) == PushAll(PushAll(done, s, absolute), t, absolute)
    decreases |s|
  {
    if s == [] {
      assert s + t == t;
    } else {
      assert (s + t)[0] == s[0] && (s + t)[1..] == s[1..] + t;
      PushConcat(PushSegment(done, s[0], absolute), s[1..], t, absolute);
    }
  }

  /** What normalisation leaves: no '' or '.', and '..' only in front of a relative path. */
  predicate Normal(segs: seq<string>, absolute: bool) {
    forall i :: 0 <= i < |segs| ==>
      && '/' !in segs[i] && segs[i] != "" && segs[i] != "."
      && (segs[i] == ".." ==> !absolute && (i == 0 || segs[i - 1] == ".."))
  }

  lemma {:induction false} PushAllIsNormal(done: seq<string>, segs: seq<string>, absolute: bool)
    requires Normal(done, absolute) && forall s :: s in segs ==> '/' !in s
    ensures Normal(PushAll(done, segs, absolute), absolute)
    decreases |segs|
  {
    if segs != [] { PushAllIsNormal(PushSegment(done, segs[0], absolute), segs[1..], absolute); }
  }

  lemma {:induction false} NormalIsFixed(done: seq<string>, segs: seq<string>, absolute: bool)
    requires Normal(done + segs, absolute)
    ensures PushAll(done, segs, absolute) == done + segs
    decreases |segs|
  {
    if segs == [] {
      assert done + segs == done;
    } else {
      assert (done + segs)[|done|] == segs[0];
      if segs[0] == ".." && done != [] { assert (done + segs)[|done| - 1] == done[|done| - 1]; }
      assert done + [segs[0]] + segs[1..] == done + segs;
      NormalIsFixed(done + [segs[0]], segs[1..], absolute);
    }
  }

  /** A rooted or relative path built from segments walks through exactly those segments. */
  lemma RebuiltSegments(segs: seq<string>, absolute: bool)
    requires segs != [] && Normal(segs, absolute)
    ensures var full := (if absolute then "/" else "") + JoinWith(segs, '/');
      full != "" && IsAbsolute(full) == absolute && PushAll([], SplitOn(full, '/'), absolute) == segs
  {
    var body := JoinWith(segs, '/');
    SplitJoin(segs, '/');
    BodyStart(segs);
    assert [] + segs == segs;
    NormalIsFixed([], segs, absolute);
    if absolute { LeadingSlash(body); } else { assert "" + body == body; }
  }

  lemma LeadingSlash(body: string)
    ensures PushAll([], SplitOn("/" + body, '/'), true) == PushAll([], SplitOn(body, '/'), true)
  {
    SplitConcat("", body, '/');
    assert "" + ['/'] + body == "/" + body;
    PushConcat([], [""], SplitOn(body, '/'), true);
    assert PushAll([], [""], true) == [] by { assert [""][1..] == []; }
  }

  lemma TrailingSlash(full: string, absolute: bool)
    ensures PushAll([], SplitOn(full + "/", '/'), absolute) == PushAll([], SplitOn(full, '/'), absolute)
  {
    SplitConcat(full, "", '/');
    assert full + ['/'] + "" == full + "/";
    PushConcat([], SplitOn(full, '/'), [""], absolute);
    assert [""][1..] == [];
  }

  /** Normalising a path changes neither where it is rooted nor the names it walks through. */
  lemma NormalizeKeepsSegments(path: string)
    requires path != ""
    ensures Normalize(path) != "" && IsAbsolute(Normalize(path)) == IsAbsolute(path)
    ensures Segments(Normalize(path)) == Segments(path)
  {
    var absolute := IsAbsolute(path);
    var segs := Segments(path);
    SplitHasNoSeparator(path, '/');
    PushAllIsNormal([], SplitOn(path, '/'), absolute);
    if segs == [] {
      EmptyPaths();
    } else {
      BodyStart(segs);
      RebuiltSegments(segs, absolute);
      var full := (if absolute then "/" else "") + JoinWith(segs, '/');
      TrailingSlash(full, absolute);
      assert full + "" == full;
    }
  }

  lemma EmptyPaths()
    ensures Segments("/") == [] && Segments("./") == [] && Segments(".") == []
  {
    assert SplitOn("/", '/') == ["", ""] by { assert "/"[1..] == ""; }
    SplitSingle(".", '/');
    assert SplitOn("./", '/') == [".", ""] by { assert "./"[1..] == "/"; assert "/"[1..] == ""; }
    assert ["", ""][1..] == [""] && [""][1..] == [] && [".", ""][1..] == [""] && ["."][1..] == [];
  }

  lemma BodyStart(segs: seq<string>)
    requires segs != [] && segs[0] != "" && '/' !in segs[0]
    ensures JoinWith(segs, '/') != "" && JoinWith(segs, '/')[0] != '/'
  {
    assert JoinWith(segs, '/')[0] == segs[0][0];
  }

  lemma PushOrdinary(done: seq<string>, seg: string, absolute: bool)
    requires Ordinary(seg)
    ensures PushAll(done, [seg], absolute) == done + [seg]
  {
    assert [seg][1..] == [];
  }

  /** Joining one ordinary name below a directory adds exactly that segment. */
  lemma JoinedBelow(dir: string, seg: string)
    requires dir != "" && Ordinary(seg)
    ensures var path := JoinPath([dir, seg]);
      path != "" && IsAbsolute(path) == IsAbsolute(dir) && Segments(path) == Segments(dir) + [seg]
  {
    NothingEmpty([dir, seg]);
    assert [dir, seg][1..] == [seg];
    var joined := dir + ['/'] + seg;
    assert JoinWith([dir, seg], '/') == joined;
    JoinedSegments(dir, seg);
    NormalizeKeepsSegments(joined);
  }

  lemma JoinedSegments(dir: string, seg: string)
    requires dir != "" && Ordinary(seg)
    ensures var joined := dir + ['/'] + seg;
      IsAbsolute(joined) == IsAbsolute(dir) && Segments(joined) == Segments(dir) + [seg]
  {
    SplitConcat(dir, seg, '/');
    SplitSingle(seg, '/');
    PushConcat([], SplitOn(dir, '/'), [seg], IsAbsolute(dir));
    PushOrdinary(Segments(dir), seg, IsAbsolute(dir));
  }

  lemma EmptyArguments(args: seq<string>)
    ensures JoinPath([""] + args) == JoinPath(args)
  {
    assert ([""] + args)[1..] == args && [] + NonEmpty(args) == NonEmpty(args);
  }

  /** A trailing '.' stays; '..' goes up one name, stops at the root, and piles up above a relative start. */
  lemma DotSegments(dir: string)
    requires dir != ""
    ensures Segments(dir + ['/'] + ".") == Segments(dir)
    ensures var names := Segments(dir);
      Segments(dir + ['/'] + "..") ==
      if names != [] && names[|names| - 1] != ".." then names[..|names| - 1]
      else if dir[0] == '/' then names
      else names + [".."]
  {
    SplitConcat(dir, ".", '/');
    SplitConcat(dir, "..", '/');
    SplitSingle(".", '/');
    SplitSingle("..", '/');
    PushConcat([], SplitOn(dir, '/'), ["."], IsAbsolute(dir));
    PushConcat([], SplitOn(dir, '/'), [".."], IsAbsolute(dir));
    assert ["."][1..] == [] && [".."][1..] == [];
  }

  // ---- what the package promises -----------------------------------------------------------

  lemma {:induction false} KeepAppend(s: string, t: string, p: char -> bool)
    ensures Keep(s + t, p) == Keep(s, p) + Keep(t, p)
  {
    if s == "" {
      assert s + t == t;
    } else {
      var first := if p(s[0]) then [s[0]] else "";
      KeepAppend(s[1..], t, p);
      assert (s + t)[0] == s[0] && (s + t)[1..] == s[1..] + t;
      assert first + (Keep(s[1..], p) + Keep(t, p)) == first + Keep(s[1..], p) + Keep(t, p);
    }
  }

  lemma {:induction false} KeepAll(s: string, p: char -> bool)
    requires forall c :: c in s ==> p(c)
    ensures Keep(s, p) == s
  {
    if s != "" { KeepAll(s[1..], p); }
  }

  lemma {:induction false} KeepNone(s: string, p: char -> bool)
    requires forall c :: c in s ==> !p(c)
    ensures Keep(s, p) == ""
  {
    if s != "" { KeepNone(s[1..], p); }
  }

  /** Lower-case letters, digits, hyphen and full stop, by code. */
  predicate DomainCode(c: char) {
    97 <= c as int <= 122 || 48 <= c as int <= 57 || c as int == 45 || c as int == 46
  }

  predicate DigitCode(c: char) {
    48 <= c as int <= 57
  }

  /** The org is what follows the last '@': an address without one, or with nothing left after it, has none. */
  lemma OrgIsAfterLastAt(email: string, lower: string -> string, local: string, domain: string)
    requires '@' !in domain
    ensures '@' !in lower(email) ==> OrgFromEmail(email, lower) == "unknown"
    ensures lower(email) == local + ['@'] + domain && (forall c :: c in domain ==> DomainCode(c)) ==>
      OrgFromEmail(email, lower) == if domain in {"", ".", ".."} then "unknown" else domain
    ensures lower(email) == local + ['@'] + domain && (forall c :: c in domain ==> !DomainCode(c)) ==>
      OrgFromEmail(email, lower) == "unknown"
  {
    assert forall c :: OrgChar(c) <==> DomainCode(c);
    if '@' !in lower(email) { SplitSingle(lower(email), '@'); }
    SplitConcat(local, domain, '@');
    SplitSingle(domain, '@');
    if forall c :: c in domain ==> DomainCode(c) { KeepAll(domain, OrgChar); }
    if forall c :: c in domain ==> !DomainCode(c) { KeepNone(domain, OrgChar); }
  }

  /** An ordinary identity is its own tenant key, so two of them never share a tenant; one without a digit has none. */
  lemma PlainIdentity(email: string, userId: string, lower: string -> string, local: string, domain: string)
    requires lower(email) == local + ['@'] + domain && '@' !in domain && domain !in {"", ".", ".."}
    requires forall c :: c in domain ==> DomainCode(c)
    ensures userId != "" && (forall c :: c in userId ==> DigitCode(c)) ==>
      TenantKey(email, userId, lower) == Some((domain, userId))
    ensures (forall c :: c in userId ==> !DigitCode(c)) ==> TenantKey(email, userId, lower) == None
  {
    OrgIsAfterLastAt(email, lower, local, domain);
    assert forall c: char :: '0' <= c <= '9' <==> DigitCode(c);
    if forall c :: c in userId ==> DigitCode(c) { KeepAll(userId, c => '0' <= c <= '9'); }
    if forall c :: c in userId ==> !DigitCode(c) { KeepNone(userId, c => '0' <= c <= '9'); }
  }

  lemma {:induction false} KeepOnly(s: string, p: char -> bool)
    ensures forall c :: c in Keep(s, p) ==> p(c)
  {
    if s != "" { KeepOnly(s[1..], p); }
  }

  /** Whatever the headers hold, both segments are ordinary names. */
  lemma KeySegmentsAreOrdinary(email: string, userId: string, lower: string -> string)
    requires TenantKey(email, userId, lower).Some?
    ensures var key := TenantKey(email, userId, lower).value; Ordinary(key.0) && Ordinary("u" + key.1)
  {
    var parts := SplitOn(lower(email), '@');
    KeepOnly(if |parts| > 1 then parts[|parts| - 1] else "", OrgChar);
    KeepOnly(userId, c => '0' <= c <= '9');
    var key := TenantKey(email, userId, lower).value;
    assert ("u" + key.1)[0] == 'u';
  }

  lemma {:induction false} NothingEmpty(args: seq<string>)
    requires "" !in args
    ensures NonEmpty(args) == args
  {
    if args != [] {
      NothingEmpty(args[1..]);
      assert [args[0]] + args[1..] == args;
    }
  }

  lemma JoinThree(a: string, b: string, c: string)
    ensures JoinWith([a, b, c], '/') == a + ['/'] + b + ['/'] + c
  {
    assert [a, b, c][1..] == [b, c] && [b, c][1..] == [c] && [c][1..] == [];
    assert JoinWith([b, c], '/') == b + ['/'] + c;
  }

  /** A tenant directory is the root and exactly two ordinary segments below it. */
  lemma TenantDirIsTwoBelowRoot(root: string, key: (string, string))
    requires root != "" && Ordinary(key.0) && Ordinary("u" + key.1)
    ensures var dir := TenantDir(root, key);
      dir != "" && IsAbsolute(dir) == IsAbsolute(root) && Segments(dir) == Segments(root) + [key.0, "u" + key.1]
  {
    var org, user := key.0, "u" + key.1;
    NothingEmpty([root, org, user]);
    JoinThree(root, org, user);
    var orgDir := root + ['/'] + org;
    var joined := orgDir + ['/'] + user;
    JoinedSegments(root, org);
    JoinedSegments(orgDir, user);
    NormalizeKeepsSegments(joined);
    assert Segments(root) + [org] + [user] == Segments(root) + [org, user];
  }

  /** Neither directory of two different tenants is the other or an ancestor of it. */
  lemma TenantsAreDisjoint(root: string, k1: (string, string), k2: (string, string))
    requires root != "" && k1 != k2
    requires Ordinary(k1.0) && Ordinary("u" + k1.1) && Ordinary(k2.0) && Ordinary("u" + k2.1)
    ensures !(Segments(TenantDir(root, k1)) <= Segments(TenantDir(root, k2)))
  {
    TenantDirIsTwoBelowRoot(root, k1);
    TenantDirIsTwoBelowRoot(root, k2);
    var n := |Segments(root)|;
    var s1, s2 := Segments(TenantDir(root, k1)), Segments(TenantDir(root, k2));
    assert s1[n] == k1.0 && s2[n] == k2.0 && s1[n + 1] == "u" + k1.1 && s2[n + 1] == "u" + k2.1;
    assert k1.1 == ("u" + k1.1)[1..] && k2.1 == ("u" + k2.1)[1..];
  }

  lemma BaseNameHasNoSlash(name: string)
    ensures '/' !in BaseName(name)
  {
    SplitHasNoSeparator(StripSlashes(name), '/');
  }

  /** An accepted file name, whatever it was, lies directly in the tenant's storage directory. */
  lemma TenantFileIsInStorage(root: string, key: (string, string), name: string)
    requires root != "" && Ordinary(key.0) && Ordinary("u" + key.1) && TenantFile(root, key, name).Some?
    ensures var file := TenantFile(root, key, name).value;
      Segments(file) == Segments(root) + [key.0, "u" + key.1, "storage", BaseName(name)] && Ordinary(BaseName(name))
  {
    BaseNameHasNoSlash(name);
    StorageDirSegments(root, key);
    JoinedBelow(StorageDir(root, key), BaseName(name));
    assert Segments(root) + [key.0, "u" + key.1, "storage"] + [BaseName(name)] ==
           Segments(root) + [key.0, "u" + key.1, "storage", BaseName(name)];
  }

  /** The last name of a path, with or without slashes behind it. */
  lemma BaseNameOf(dir: string, leaf: string)
    requires '/' !in leaf && leaf != ""
    ensures BaseName(leaf) == leaf && BaseName(dir + ['/'] + leaf) == leaf
    ensures BaseName(dir + ['/'] + leaf + "/") == leaf
  {
    var name := dir + ['/'] + leaf;
    assert name[|name| - 1] == leaf[|leaf| - 1] && leaf[|leaf| - 1] in leaf;
    assert (name + "/")[..|name|] == name;
    SplitSingle(leaf, '/');
    SplitConcat(dir, leaf, '/');
  }

  /** A name is refused exactly when its last part is '.' or '..' or holds a NUL; else that part is the file's name. */
  lemma TenantFileExactly(root: string, key: (string, string), dir: string, leaf: string)
    requires root != "" && Ordinary(key.0) && Ordinary("u" + key.1) && '/' !in leaf && leaf != ""
    ensures var file := TenantFile(root, key, dir + ['/'] + leaf);
      && file == TenantFile(root, key, leaf)
      && (file.Some? <==> leaf != "." && leaf != ".." && '\0' !in leaf)
      && (file.Some? ==> Segments(file.value) == Segments(root) + [key.0, "u" + key.1, "storage", leaf])
  {
    BaseNameOf(dir, leaf);
    if TenantFile(root, key, leaf).Some? { TenantFileIsInStorage(root, key, leaf); }
  }

  lemma StorageDirSegments(root: string, key: (string, string))
    requires root != "" && Ordinary(key.0) && Ordinary("u" + key.1)
    ensures StorageDir(root, key) != "" &&
      Segments(StorageDir(root, key)) == Segments(root) + [key.0, "u" + key.1, "storage"]
  {
    TenantDirIsTwoBelowRoot(root, key);
    JoinedBelow(TenantDir(root, key), "storage");
    assert Segments(root) + [key.0, "u" + key.1] + ["storage"] == Segments(root) + [key.0, "u" + key.1, "storage"];
  }
}
