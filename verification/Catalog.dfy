/**
 The catalogue's "already installed" lookup (server/routes/catalog.js): two hash
 indexes over the apps a caller may see, against a direct scan of the app list.
 */
module Catalog {
  import opened Wrappers

  datatype App = App(slug: string, name: string, githubUrl: string, imageRef: string, hidden: bool)

  /** The keys an entry is looked up by; an empty or missing repo or image gives none. */
  datatype Entry = Entry(repoKey: Option<string>, imageKey: Option<string>)

  datatype MatchedOn = Repo | Image

  datatype Hit = Hit(slug: string, name: string, matchedOn: MatchedOn)

  /** normalizeGithubUrl or normalizeImageRef of an app's column. */
  type KeyOf = App -> Option<string>

  function Visible(apps: seq<App>, admin: bool): seq<App> {
    if apps == [] then []
    else
      var rest := Visible(apps[..|apps| - 1], admin);
      if admin || !apps[|apps| - 1].hidden then rest + [apps[|apps| - 1]] else rest
  }

  predicate Matches(a: App, key: Option<string>, keyOf: KeyOf) {
    key.Some? && keyOf(a) == key
  }

  function Matching(apps: seq<App>, key: Option<string>, keyOf: KeyOf): seq<App> {
    if apps == [] then []
    else
      var a := apps[|apps| - 1];
      Matching(apps[..|apps| - 1], key, keyOf) + if Matches(a, key, keyOf) then [a] else []
  }

  // ---- the reference: a direct scan of the list ---------------------------------------------

  function ScanRepo(apps: seq<App>, e: Entry, repoOf: KeyOf): seq<Hit> {
    if apps == [] then []
    else
      var a := apps[|apps| - 1];
      ScanRepo(apps[..|apps| - 1], e, repoOf) + if Matches(a, e.repoKey, repoOf) then [HitOf(a, Repo)] else []
  }

  function ScanImageOnly(apps: seq<App>, e: Entry, repoOf: KeyOf, imageOf: KeyOf): seq<Hit> {
    if apps == [] then []
    else
      var a := apps[|apps| - 1];
      ScanImageOnly(apps[..|apps| - 1], e, repoOf, imageOf) +
      if Matches(a, e.imageKey, imageOf) && !Matches(a, e.repoKey, repoOf) then [HitOf(a, Image)] else []
  }

  /** Repo matches in list order, then image-only matches in list order. */
  function Scan(apps: seq<App>, e: Entry, repoOf: KeyOf, imageOf: KeyOf): seq<Hit> {
    ScanRepo(apps, e, repoOf) + ScanImageOnly(apps, e, repoOf, imageOf)
  }

  ghost predicate UniqueSlugs(apps: seq<App>) {
    forall i, j :: 0 <= i < j < |apps| ==> apps[i].slug != apps[j].slug
  }

  // ---- the index -------------------------------------------------------------------------

  type Index = map<string, seq<App>>

  /** Exactly the apps with each key, in list order, and no empty lists. */
  ghost predicate Indexes(index: Index, apps: seq<App>, keyOf: KeyOf) {
    (forall k :: Lookup(index, Some(k)) == Matching(apps, Some(k), keyOf)) && [] !in index.Values
  }

  /** Append to the list of an app's key, which is created first where there is none. */
  method Push(before: Index, key: Option<string>, a: App, ghost apps: seq<App>, ghost keyOf: KeyOf)
    returns (index: Index)
    requires Indexes(before, apps, keyOf) && key == keyOf(a)
    ensures Indexes(index, apps + [a], keyOf)
  {
    assert (apps + [a])[..|apps|] == apps;
    index := before;
    if key != None {
      if key.value !in index { index := index[key.value := []]; }
      index := index[key.value := index[key.value] + [a]];
    }
  }

  method InstalledIndex(apps: seq<App>, repoOf: KeyOf, imageOf: KeyOf) returns (byRepo: Index, byImage: Index)
    ensures Indexes(byRepo, apps, repoOf) && Indexes(byImage, apps, imageOf)
  {
    byRepo, byImage := map[], map[];
    ghost var done: seq<App> := [];
    for i := 0 to |apps|
      invariant |done| == i && forall j :: 0 <= j < i ==> done[j] == apps[j]
      invariant Indexes(byRepo, done, repoOf) && Indexes(byImage, done, imageOf)
    {
      byRepo := Push(byRepo, repoOf(apps[i]), apps[i], done, repoOf);
      byImage := Push(byImage, imageOf(apps[i]), apps[i], done, imageOf);
      done := done + [apps[i]];
    }
    assert done == apps;
  }

  function Lookup(index: Index, key: Option<string>): seq<App> {
    if key.Some? && key.value in index then index[key.value] else []
  }

  /** The position of a slug in a JavaScript Map kept in insertion order, or its size. */
  function Position(seen: seq<Hit>, slug: string): (i: nat)
    ensures i <= |seen| && (i < |seen| ==> seen[i].slug == slug)
    ensures i == |seen| <==> forall j :: 0 <= j < |seen| ==> seen[j].slug != slug
  {
    if seen == [] || seen[0].slug == slug then 0 else 1 + Position(seen[1..], slug)
  }

  function Hits(apps: seq<App>, on: MatchedOn): seq<Hit> {
    if apps == [] then [] else Hits(apps[..|apps| - 1], on) + [HitOf(apps[|apps| - 1], on)]
  }

  function Except(images: seq<App>, repos: seq<App>): seq<App> {
    if images == [] then []
    else Except(images[..|images| - 1], repos) + if images[|images| - 1] in repos then [] else [images[|images| - 1]]
  }

  /** Setting a key that is there keeps its place; a new one goes last. */
  function SetHit(seen: seq<Hit>, hit: Hit): seq<Hit> {
    var at := Position(seen, hit.slug);
    if at < |seen| then seen[at := hit] else seen + [hit]
  }

  function HitOf(a: App, on: MatchedOn): Hit {
    Hit(a.slug, a.name, on)
  }

  ghost predicate SlugIsIdentity(repos: seq<App>, images: seq<App>) {
    forall a, b :: a in repos && b in images && a.slug == b.slug ==> a == b
  }

  /** The first loop: every repo match is set. */
  method SetRepoHits(repos: seq<App>) returns (seen: seq<Hit>)
    requires UniqueSlugs(repos)
    ensures seen == Hits(repos, Repo)
  {
    seen := [];
    for i := 0 to |repos|
      invariant seen == Hits(repos[..i], Repo)
    {
      RepoStep(repos, i);
      seen := SetHit(seen, HitOf(repos[i], Repo));
    }
    assert repos[..|repos|] == repos;
  }

  /** The second loop: an image match is set unless its slug is there already. */
  method SetImageHits(before: seq<Hit>, images: seq<App>, ghost repos: seq<App>) returns (seen: seq<Hit>)
    requires UniqueSlugs(images) && SlugIsIdentity(repos, images)
    requires before == Hits(repos, Repo)
    ensures seen == before + Hits(Except(images, repos), Image)
  {
    seen := before;
    assert images[..0] == [] && before == before + [];
    for i := 0 to |images|
      invariant seen == Hits(repos, Repo) + Hits(Except(images[..i], repos), Image)
    {
      ImageStep(repos, images, i);
      if Position(seen, images[i].slug) == |seen| {
        seen := SetHit(seen, HitOf(images[i], Image));
      }
    }
    assert images[..|images|] == images;
  }

  method InstalledFor(
      e: Entry, byRepo: Index, byImage: Index, ghost apps: seq<App>, ghost repoOf: KeyOf, ghost imageOf: KeyOf)
    returns (seen: seq<Hit>)
    requires UniqueSlugs(apps) && Indexes(byRepo, apps, repoOf) && Indexes(byImage, apps, imageOf)
    ensures seen == Scan(apps, e, repoOf, imageOf)
  {
    var repos := Lookup(byRepo, e.repoKey);
    var images := Lookup(byImage, e.imageKey);
    assert UniqueSlugs(repos) && UniqueSlugs(images) && SlugIsIdentity(repos, images) by {
      LookupsAgree(apps, e, byRepo, byImage, repoOf, imageOf);
    }
    seen := SetRepoHits(repos);
    seen := SetImageHits(seen, images, repos);
    assert seen == Scan(apps, e, repoOf, imageOf) by {
      LookupsAreScanned(apps, e, byRepo, byImage, repoOf, imageOf);
    }
  }

  // ---- why the two agree -----------------------------------------------------------------

  lemma {:induction false} HitSlugs(apps: seq<App>, on: MatchedOn)
    ensures |Hits(apps, on)| == |apps| && forall i :: 0 <= i < |apps| ==> Hits(apps, on)[i].slug == apps[i].slug
  {
    if apps != [] { HitSlugs(apps[..|apps| - 1], on); }
  }

  lemma {:induction false} ExceptMembers(images: seq<App>, repos: seq<App>)
    ensures forall a :: a in Except(images, repos) <==> a in images && a !in repos
  {
    if images != [] {
      ExceptMembers(images[..|images| - 1], repos);
      assert images == images[..|images| - 1] + [images[|images| - 1]];
    }
  }

  lemma SameSlugSameApp(apps: seq<App>)
    requires UniqueSlugs(apps)
    ensures forall a, b :: a in apps && b in apps && a.slug == b.slug ==> a == b
  {
    forall a, b | a in apps && b in apps && a.slug == b.slug ensures a == b {
      var i :| 0 <= i < |apps| && apps[i] == a;
      var j :| 0 <= j < |apps| && apps[j] == b;
    }
  }

  lemma {:induction false} MatchingMembers(apps: seq<App>, key: Option<string>, keyOf: KeyOf)
    ensures forall a :: a in Matching(apps, key, keyOf) <==> a in apps && Matches(a, key, keyOf)
  {
    if apps != [] {
      MatchingMembers(apps[..|apps| - 1], key, keyOf);
      assert forall a :: a in apps <==> a in apps[..|apps| - 1] || a == apps[|apps| - 1];
    }
  }

  lemma {:induction false} MatchingUnique(apps: seq<App>, key: Option<string>, keyOf: KeyOf)
    requires UniqueSlugs(apps)
    ensures UniqueSlugs(Matching(apps, key, keyOf))
  {
    if apps != [] {
      var init, last := apps[..|apps| - 1], apps[|apps| - 1];
      MatchingUnique(init, key, keyOf);
      MatchingMembers(init, key, keyOf);
      var rest := Matching(init, key, keyOf);
      forall i | 0 <= i < |rest| ensures rest[i].slug != last.slug {
        assert rest[i] in init;
        var j :| 0 <= j < |init| && init[j] == rest[i];
        assert apps[j] == rest[i];
      }
    }
  }

  lemma LookupIsMatching(apps: seq<App>, key: Option<string>, index: Index, keyOf: KeyOf)
    requires UniqueSlugs(apps) && Indexes(index, apps, keyOf)
    ensures Lookup(index, key) == Matching(apps, key, keyOf) && UniqueSlugs(Lookup(index, key))
    ensures forall a :: a in Lookup(index, key) <==> a in apps && Matches(a, key, keyOf)
  {
    MatchingMembers(apps, key, keyOf);
    MatchingUnique(apps, key, keyOf);
    if key == None { NoKeyNoMatch(apps, keyOf); }
  }

  lemma {:induction false} NoKeyNoMatch(apps: seq<App>, keyOf: KeyOf)
    ensures Matching(apps, None, keyOf) == []
  {
    if apps != [] { NoKeyNoMatch(apps[..|apps| - 1], keyOf); }
  }

  lemma SlugsOfHits(seen: seq<Hit>, repos: seq<App>, extra: seq<App>)
    requires seen == Hits(repos, Repo) + Hits(extra, Image)
    ensures |seen| == |repos| + |extra|
    ensures forall j :: 0 <= j < |seen| ==> seen[j].slug == (if j < |repos| then repos[j] else extra[j - |repos|]).slug
  {
    HitSlugs(repos, Repo);
    HitSlugs(extra, Image);
  }

  lemma NewApp(repos: seq<App>, extra: seq<App>, images: seq<App>, i: nat, b: App)
    requires i < |images| && UniqueSlugs(images) && SlugIsIdentity(repos, images)
    requires forall a :: a in extra ==> a in images[..i]
    requires images[i] !in repos && (b in repos || b in extra)
    ensures b.slug != images[i].slug
  {
    assert images[i] in images;
    if b !in repos {
      var k :| 0 <= k < |images[..i]| && images[..i][k] == b;
      assert images[k] == b;
    }
  }

  /** An image match is already in the result exactly when it is one of the repo matches. */
  lemma SlugIsNew(seen: seq<Hit>, repos: seq<App>, extra: seq<App>, images: seq<App>, i: nat)
    requires i < |images| && UniqueSlugs(images)
    requires seen == Hits(repos, Repo) + Hits(extra, Image)
    requires SlugIsIdentity(repos, images)
    requires forall a :: a in extra ==> a in images[..i]
    ensures Position(seen, images[i].slug) == |seen| <==> images[i] !in repos
  {
    SlugsOfHits(seen, repos, extra);
    if images[i] in repos {
      var j :| 0 <= j < |repos| && repos[j] == images[i];
      assert seen[j].slug == images[i].slug;
    } else {
      forall j | 0 <= j < |seen| ensures seen[j].slug != images[i].slug {
        NewApp(repos, extra, images, i, if j < |repos| then repos[j] else extra[j - |repos|]);
      }
    }
  }

  lemma RepoStep(repos: seq<App>, i: nat)
    requires i < |repos| && UniqueSlugs(repos)
    ensures SetHit(Hits(repos[..i], Repo), HitOf(repos[i], Repo)) == Hits(repos[..i + 1], Repo)
  {
    assert repos[..i + 1][..i] == repos[..i];
    HitSlugs(repos[..i], Repo);
  }

  lemma ExceptStep(repos: seq<App>, images: seq<App>, i: nat)
    requires i < |images|
    ensures Hits(Except(images[..i + 1], repos), Image) ==
            Hits(Except(images[..i], repos), Image) + if images[i] in repos then [] else [HitOf(images[i], Image)]
  {
    var before := Except(images[..i], repos);
    assert images[..i + 1][..i] == images[..i];
    if images[i] in repos {
      assert before + [] == before;
    } else {
      assert (before + [images[i]])[..|before|] == before;
    }
  }

  lemma SetNew(front: seq<Hit>, back: seq<Hit>, hit: Hit)
    ensures Position(front + back, hit.slug) == |front + back| ==> SetHit(front + back, hit) == front + (back + [hit])
  {
  }

  lemma ImageStep(repos: seq<App>, images: seq<App>, i: nat)
    requires i < |images| && UniqueSlugs(images) && SlugIsIdentity(repos, images)
    ensures var seen := Hits(repos, Repo) + Hits(Except(images[..i], repos), Image);
            var next := Hits(repos, Repo) + Hits(Except(images[..i + 1], repos), Image);
            next == if Position(seen, images[i].slug) == |seen| then SetHit(seen, HitOf(images[i], Image)) else seen
  {
    var before := Except(images[..i], repos);
    var front, back := Hits(repos, Repo), Hits(before, Image);
    assert forall a :: a in before ==> a in images[..i] by { ExceptMembers(images[..i], repos); }
    SlugIsNew(front + back, repos, before, images, i);
    ExceptStep(repos, images, i);
    SetNew(front, back, HitOf(images[i], Image));
    assert back + [] == back;
  }

  lemma {:induction false} RepoHits(apps: seq<App>, e: Entry, repoOf: KeyOf)
    ensures Hits(Matching(apps, e.repoKey, repoOf), Repo) == ScanRepo(apps, e, repoOf)
  {
    if apps != [] {
      var init, a := apps[..|apps| - 1], apps[|apps| - 1];
      RepoHits(init, e, repoOf);
      var rest := Matching(init, e.repoKey, repoOf);
      assert (rest + [a])[..|rest|] == rest && rest + [] == rest;
    }
  }

  lemma {:induction false} ImageHits(apps: seq<App>, e: Entry, repos: seq<App>, repoOf: KeyOf, imageOf: KeyOf)
    requires forall a :: a in apps ==> (a in repos <==> Matches(a, e.repoKey, repoOf))
    ensures Hits(Except(Matching(apps, e.imageKey, imageOf), repos), Image) == ScanImageOnly(apps, e, repoOf, imageOf)
  {
    if apps != [] {
      var init, a := apps[..|apps| - 1], apps[|apps| - 1];
      ImageHits(init, e, repos, repoOf, imageOf);
      assert a in apps;
      var before := Matching(init, e.imageKey, imageOf);
      if Matches(a, e.imageKey, imageOf) {
        var rest := Except(before, repos);
        assert (before + [a])[..|before|] == before;
        assert Except(before + [a], repos) == rest + if a in repos then [] else [a];
        assert (rest + [a])[..|rest|] == rest && rest + [] == rest;
      } else {
        assert before + [] == before;
      }
    }
  }

  lemma LookupsAgree(apps: seq<App>, e: Entry, byRepo: Index, byImage: Index, repoOf: KeyOf, imageOf: KeyOf)
    requires UniqueSlugs(apps) && Indexes(byRepo, apps, repoOf) && Indexes(byImage, apps, imageOf)
    ensures UniqueSlugs(Lookup(byRepo, e.repoKey)) && UniqueSlugs(Lookup(byImage, e.imageKey))
    ensures SlugIsIdentity(Lookup(byRepo, e.repoKey), Lookup(byImage, e.imageKey))
  {
    LookupIsMatching(apps, e.repoKey, byRepo, repoOf);
    LookupIsMatching(apps, e.imageKey, byImage, imageOf);
    SameSlugSameApp(apps);
  }

  lemma LookupsAreScanned(apps: seq<App>, e: Entry, byRepo: Index, byImage: Index, repoOf: KeyOf, imageOf: KeyOf)
    requires UniqueSlugs(apps) && Indexes(byRepo, apps, repoOf) && Indexes(byImage, apps, imageOf)
    ensures var repos := Lookup(byRepo, e.repoKey);
            Hits(repos, Repo) + Hits(Except(Lookup(byImage, e.imageKey), repos), Image) ==
              Scan(apps, e, repoOf, imageOf)
  {
    LookupIsMatching(apps, e.repoKey, byRepo, repoOf);
    LookupIsMatching(apps, e.imageKey, byImage, imageOf);
    RepoHits(apps, e, repoOf);
    ImageHits(apps, e, Lookup(byRepo, e.repoKey), repoOf, imageOf);
  }

  /** What a caller may see: everything for an admin, everything that is not hidden for anybody else. */
  lemma {:induction false} VisibleApps(apps: seq<App>, admin: bool)
    ensures forall a :: a in Visible(apps, admin) <==> a in apps && (admin || !a.hidden)
  {
    if apps != [] {
      VisibleApps(apps[..|apps| - 1], admin);
      assert apps == apps[..|apps| - 1] + [apps[|apps| - 1]];
    }
  }

  // ---- what the scan lists, app by app ----------------------------------------------------------

  /** The entry an app gives: on its repo if that matches, else on its image if that does. */
  predicate Lists(a: App, h: Hit, e: Entry, repoOf: KeyOf, imageOf: KeyOf) {
    if e.repoKey.Some? && repoOf(a) == e.repoKey then h == Hit(a.slug, a.name, Repo)
    else e.imageKey.Some? && imageOf(a) == e.imageKey && h == Hit(a.slug, a.name, Image)
  }

  lemma {:induction false} ScanExactly(apps: seq<App>, e: Entry, repoOf: KeyOf, imageOf: KeyOf, h: Hit)
    ensures h in Scan(apps, e, repoOf, imageOf) <==> exists a :: a in apps && Lists(a, h, e, repoOf, imageOf)
  {
    if apps != [] {
      var init, last := apps[..|apps| - 1], apps[|apps| - 1];
      ScanExactly(init, e, repoOf, imageOf, h);
      assert forall a :: a in apps <==> a in init || a == last;
      assert h in Scan(apps, e, repoOf, imageOf) <==>
        h in Scan(init, e, repoOf, imageOf) || Lists(last, h, e, repoOf, imageOf);
    }
  }

  /** The list ascends by this ranking, and stays below `top`. */
  ghost predicate Ascends(apps: seq<App>, rank: string -> int, top: int) {
    && (forall i, j :: 0 <= i < j < |apps| ==> rank(apps[i].slug) < rank(apps[j].slug))
    && (forall i :: 0 <= i < |apps| ==> rank(apps[i].slug) < top)
  }

  ghost predicate HitsAscend(hits: seq<Hit>, on: MatchedOn, rank: string -> int, top: int) {
    && (forall i, j :: 0 <= i < j < |hits| ==> rank(hits[i].slug) < rank(hits[j].slug))
    && (forall i :: 0 <= i < |hits| ==> rank(hits[i].slug) < top && hits[i].matchedOn == on)
  }

  /** What a caller may see is in the order of the whole list. */
  lemma {:induction false} VisibleOrder(apps: seq<App>, admin: bool, rank: string -> int, top: int)
    requires Ascends(apps, rank, top)
    ensures Ascends(Visible(apps, admin), rank, top)
  {
    if apps != [] { VisibleOrder(apps[..|apps| - 1], admin, rank, rank(apps[|apps| - 1].slug)); }
  }

  lemma AppendHit(hits: seq<Hit>, on: MatchedOn, rank: string -> int, h: Hit, top: int)
    requires HitsAscend(hits, on, rank, rank(h.slug)) && h.matchedOn == on && rank(h.slug) < top
    ensures HitsAscend(hits, on, rank, top) && HitsAscend(hits + [h], on, rank, top)
  {
  }

  lemma {:induction false} ScansAscend(
      apps: seq<App>, e: Entry, repoOf: KeyOf, imageOf: KeyOf, rank: string -> int, top: int)
    requires Ascends(apps, rank, top)
    ensures HitsAscend(ScanRepo(apps, e, repoOf), Repo, rank, top)
    ensures HitsAscend(ScanImageOnly(apps, e, repoOf, imageOf), Image, rank, top)
  {
    if apps != [] {
      var init, a := apps[..|apps| - 1], apps[|apps| - 1];
      ScansAscend(init, e, repoOf, imageOf, rank, rank(a.slug));
      var repos, images := ScanRepo(init, e, repoOf), ScanImageOnly(init, e, repoOf, imageOf);
      AppendHit(repos, Repo, rank, HitOf(a, Repo), top);
      AppendHit(images, Image, rank, HitOf(a, Image), top);
      assert repos + [] == repos && images + [] == images;
    }
  }

  /** Repo matches come first, and either kind in the order of the list, by any ranking in which the list ascends. */
  lemma ScanOrder(apps: seq<App>, e: Entry, repoOf: KeyOf, imageOf: KeyOf, rank: string -> int, top: int)
    requires Ascends(apps, rank, top)
    ensures var hits := Scan(apps, e, repoOf, imageOf);
      forall i, j :: 0 <= i < j < |hits| ==>
        || (hits[i].matchedOn == Repo && hits[j].matchedOn == Image)
        || (hits[i].matchedOn == hits[j].matchedOn && rank(hits[i].slug) < rank(hits[j].slug))
  {
    ScansAscend(apps, e, repoOf, imageOf, rank, top);
  }

  /** The badge never names an app that the app list withholds from the same caller. */
  lemma HiddenAppsNeverAppear(apps: seq<App>, e: Entry, repoOf: KeyOf, imageOf: KeyOf)
    requires UniqueSlugs(apps)
    ensures forall h, a :: h in Scan(Visible(apps, false), e, repoOf, imageOf) && a in apps && a.slug == h.slug ==>
      !a.hidden
  {
    VisibleApps(apps, false);
    SameSlugSameApp(apps);
    forall h, a | h in Scan(Visible(apps, false), e, repoOf, imageOf) && a in apps && a.slug == h.slug
      ensures !a.hidden
    {
      ScanExactly(Visible(apps, false), e, repoOf, imageOf, h);
      var b :| b in Visible(apps, false) && Lists(b, h, e, repoOf, imageOf);
      assert b in apps;
    }
  }
}
