/**
 Per-tenant usage (packages/tenant/index.js, `tenantUsage` and `dirSize`) over a
 file system given as the size of every file by its path segments.
 */
module TenantUsage {
  import opened TenantPath

  type Path = seq<string>

  /** File sizes by absolute path; a directory is any proper prefix of a file's path. */
  type Files = map<Path, nat>

  /** No path is a file and a directory at once. */
  ghost predicate IsTree(files: Files) {
    forall p, q :: p in files && q in files ==> !(p < q)
  }

  predicate IsDirectory(files: Files, d: Path) {
    exists p | p in files :: d < p
  }

  function Below(files: Files, d: Path): set<Path> {
    set p | p in files && d < p
  }

  /** Names returned by readdirSync; none for a directory that does not exist. */
  function Entries(files: Files, d: Path): set<string> {
    set p | p in files && d < p :: p[|d|]
  }

  ghost function Sum(files: Files, s: set<Path>): nat
    requires s <= files.Keys
  {
    if s == {} then 0
    else
      var p :| p in s;
      files[p] + Sum(files, s - {p})
  }

  lemma {:induction false} SumRemove(files: Files, s: set<Path>, q: Path)
    requires s <= files.Keys && q in s
    ensures Sum(files, s) == files[q] + Sum(files, s - {q})
    decreases |s|
  {
    var p :| p in s && Sum(files, s) == files[p] + Sum(files, s - {p});
    if p != q {
      SumRemove(files, s - {p}, q);
      SumRemove(files, s - {q}, p);
      assert s - {p} - {q} == s - {q} - {p};
    }
  }

  lemma {:induction false} SumUnion(files: Files, s: set<Path>, t: set<Path>)
    requires s <= files.Keys && t <= files.Keys && s !! t
    ensures Sum(files, s + t) == Sum(files, s) + Sum(files, t)
    decreases |s|
  {
    if s == {} {
      assert s + t == t;
    } else {
      var p :| p in s;
      SumRemove(files, s, p);
      SumRemove(files, s + t, p);
      assert s + t - {p} == (s - {p}) + t;
      SumUnion(files, s - {p}, t);
    }
  }

  /** Files below `d` whose next segment is one of `names`. */
  ghost function Through(files: Files, d: Path, names: set<string>): set<Path> {
    set p | p in files && d < p && p[|d|] in names
  }

  /** Adding one entry adds exactly the file of that name, or everything below that directory. */
  lemma ThroughOne(files: Files, d: Path, names: set<string>, n: string)
    requires IsTree(files) && n in Entries(files, d) && n !in names
    ensures Through(files, d, names) !! Through(files, d, {n})
    ensures Through(files, d, names + {n}) == Through(files, d, names) + Through(files, d, {n})
    ensures Through(files, d, {n}) == if IsDirectory(files, d + [n]) then Below(files, d + [n]) else {d + [n]}
    ensures !IsDirectory(files, d + [n]) ==> d + [n] in files
  {
    var e := d + [n];
    assert |e| == |d| + 1 && e[|d|] == n && d < e;
    forall p | p in files && d < p && p[|d|] == n ensures e <= p && (p == e || e < p) {
      assert p[..|d| + 1] == p[..|d|] + [p[|d|]];
    }
    forall p | p in files && e < p ensures d < p && p[|d|] == n {
      assert p[..|e|] == e && p[..|d|] == d;
    }
    var q :| q in files && d < q && q[|d|] == n;
    assert q == e || e < q;
    if IsDirectory(files, e) {
      var r :| r in files && e < r;
      assert e !in files;
      assert Through(files, d, {n}) == Below(files, e);
    } else {
      assert q == e;
      assert Through(files, d, {n}) == {e};
    }
  }

  /** dirSize: walk the entries, recurse into directories, add the size of everything else. */
  method DirSize(files: Files, d: Path, ghost depth: nat) returns (total: nat)
    requires IsTree(files) && forall p :: p in files ==> |p| <= |d| + depth
    ensures total == Sum(files, Below(files, d))
    decreases depth
  {
    total := 0;
    var entries := Entries(files, d);
    ghost var done: set<string> := {};
    while entries != {}
      invariant entries !! done && entries + done == Entries(files, d)
      invariant Through(files, d, done) <= files.Keys && total == Sum(files, Through(files, d, done))
      decreases entries
    {
      var n :| n in entries;
      var p := d + [n];
      ThroughOne(files, d, done, n);
      SumUnion(files, Through(files, d, done), Through(files, d, {n}));
      if IsDirectory(files, p) {
        assert depth > 0;
        var size := DirSize(files, p, depth - 1);
        total := total + size;
      } else {
        SumRemove(files, {p}, p);
        assert {p} - {p} == {};
        total := total + files[p];
      }
      done := done + {n};
      entries := entries - {n};
    }
    assert Through(files, d, done) == Below(files, d);
  }

  // ---- one tenant's usage and everybody else's files ----------------------------------------

  ghost function Usage(files: Files, root: string, key: (string, string)): nat {
    Sum(files, Below(files, Segments(TenantDir(root, key))))
  }

  lemma {:induction false} SumSame(files: Files, other: Files, s: set<Path>)
    requires s <= files.Keys && s <= other.Keys && forall p :: p in s ==> files[p] == other[p]
    ensures Sum(files, s) == Sum(other, s)
    decreases |s|
  {
    if s != {} {
      var p :| p in s;
      SumRemove(files, s, p);
      SumRemove(other, s, p);
      SumSame(files, other, s - {p});
    }
  }

  /** The two file systems differ at most below this directory. */
  ghost predicate DiffersOnlyBelow(files: Files, other: Files, d: Path) {
    forall p :: !(d < p) ==> (p in files <==> p in other) && (p in files ==> files[p] == other[p])
  }

  /** Adding, growing or purging anything of another tenant leaves a tenant's usage unchanged. */
  lemma UsageIgnoresOtherTenants(
      files: Files, other: Files, root: string, mine: (string, string), theirs: (string, string))
    requires root != "" && mine != theirs
    requires Ordinary(mine.0) && Ordinary("u" + mine.1) && Ordinary(theirs.0) && Ordinary("u" + theirs.1)
    requires DiffersOnlyBelow(files, other, Segments(TenantDir(root, theirs)))
    ensures Usage(files, root, mine) == Usage(other, root, mine)
  {
    var d, t := Segments(TenantDir(root, mine)), Segments(TenantDir(root, theirs));
    TenantsAreDisjoint(root, mine, theirs);
    TenantsAreDisjoint(root, theirs, mine);
    TenantDirIsTwoBelowRoot(root, mine);
    TenantDirIsTwoBelowRoot(root, theirs);
    forall p | (p in files || p in other) && d < p ensures !(t < p) {
      assert p[..|d|] == d && |t| == |d|;
    }
    assert Below(files, d) == Below(other, d);
    SumSame(files, other, Below(files, d));
  }

  /** Writing a file below a tenant's directory changes its usage by exactly what the file grows by. */
  lemma WriteChangesUsage(files: Files, root: string, key: (string, string), p: Path, size: nat)
    requires Segments(TenantDir(root, key)) < p
    ensures Usage(files[p := size], root, key) ==
            Usage(files, root, key) - (if p in files then files[p] else 0) + size
  {
    var d, after := Segments(TenantDir(root, key)), files[p := size];
    var others := Below(files, d) - {p};
    assert Below(after, d) == others + {p} && Below(after, d) - {p} == others;
    SumRemove(after, Below(after, d), p);
    SumSame(files, after, others);
    if p in files {
      SumRemove(files, Below(files, d), p);
    } else {
      assert others == Below(files, d);
    }
  }

  /** Recursively removing a tenant's directory removes all of that tenant's bytes and nobody else's. */
  lemma PurgeIsExact(files: Files, root: string, purged: (string, string), key: (string, string))
    requires root != "" && Ordinary(purged.0) && Ordinary("u" + purged.1) && Ordinary(key.0) && Ordinary("u" + key.1)
    ensures var after := map p | p in files && !(Segments(TenantDir(root, purged)) < p) :: files[p];
      Usage(after, root, key) == if key == purged then 0 else Usage(files, root, key)
  {
    var after := map p | p in files && !(Segments(TenantDir(root, purged)) < p) :: files[p];
    if key == purged {
      assert Below(after, Segments(TenantDir(root, key))) == {};
    } else {
      UsageIgnoresOtherTenants(files, after, root, key, purged);
    }
  }
}
