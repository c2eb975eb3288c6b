/**
 * The product synchroniser (alws/dramatiq/products.py): when a build is added
 * to or removed from a product, the build's binary packages are added to or
 * removed from the product's Pulp repositories of matching architecture, debug
 * flag and platform, and the product's list of builds is updated.
 */
module Products {
  import opened Wrappers
  import opened Text
  import opened Dicts
  import opened Models

  /** The fields of a Pulp package listing entry the synchroniser reads. */
  datatype PulpPackage = PulpPackage(pulpHref: string, locationHref: string, arch: string)

  // ---------------------------------------------------------------------------
  // filter_by_arch
  // ---------------------------------------------------------------------------

  /**
   * A package of architecture `pkgArch` belongs in a repository of
   * architecture `repoArch`: noarch goes everywhere but `src`, i686 also goes
   * to x86_64 (multilib), anything else only to its own architecture.
   */
  predicate ArchCompatible(pkgArch: string, repoArch: string) {
    || (pkgArch == "noarch" && repoArch != "src")
    || (pkgArch == "i686" && (repoArch == "i686" || repoArch == "x86_64"))
    || pkgArch == repoArch
  }

  /** The packages of `pkgs` that belong in a `repoArch` repository, in their order. */
  function Compatible(pkgs: seq<PulpPackage>, repoArch: string): (r: seq<PulpPackage>)
    ensures |r| <= |pkgs|
    ensures forall p :: p in r <==> p in pkgs && ArchCompatible(p.arch, repoArch)
    decreases |pkgs|
  {
    if pkgs == [] then []
    else
      var init := pkgs[..|pkgs| - 1];
      var last := pkgs[|pkgs| - 1];
      assert pkgs == init + [last];
      if ArchCompatible(last.arch, repoArch) then Compatible(init, repoArch) + [last]
      else Compatible(init, repoArch)
  }

  /** filter_by_arch. */
  method FilterByArch(pkgs: seq<PulpPackage>, repoArch: string) returns (filtered: seq<PulpPackage>)
    ensures filtered == Compatible(pkgs, repoArch)
  {
    filtered := [];
    for i := 0 to |pkgs|
      invariant filtered == Compatible(pkgs[..i], repoArch)
    {
      assert pkgs[..i + 1][..i] == pkgs[..i];
      var pkg := pkgs[i];
      if pkg.arch == "noarch" && repoArch != "src" {
        filtered := filtered + [pkg];
      } else if pkg.arch == "i686" && (repoArch == "i686" || repoArch == "x86_64") {
        filtered := filtered + [pkg];
      } else if pkg.arch == repoArch {
        filtered := filtered + [pkg];
      }
    }
    assert pkgs[..|pkgs|] == pkgs;
  }

  /** A src repository never receives noarch or binary packages of another architecture. */
  lemma SrcTakesOnlySrc(pkgs: seq<PulpPackage>)
    ensures forall p :: p in Compatible(pkgs, "src") ==> p.arch == "src"
  {
  }

  // ---------------------------------------------------------------------------
  // The "add" side: deduplication by file name
  // ---------------------------------------------------------------------------

  /**
   * `dedup_mapping`, filled package by package: a package claims its
   * location_href unless the name is already claimed or its href is
   * blacklisted.
   */
  function Dedup(pkgs: seq<PulpPackage>, blacklist: seq<string>): (r: Dict<string, string>)
    ensures KeysUnique(r)
    decreases |pkgs|
  {
    if pkgs == [] then []
    else
      var d := Dedup(pkgs[..|pkgs| - 1], blacklist);
      var p := pkgs[|pkgs| - 1];
      if HasKey(d, p.locationHref) || p.pulpHref in blacklist then d
      else Put(d, p.locationHref, p.pulpHref)
  }

  /** Index of the first package named `loc` whose href is not blacklisted. */
  function FirstAllowed(pkgs: seq<PulpPackage>, blacklist: seq<string>, loc: string): (r: Option<nat>)
    ensures r.Some? ==> r.value < |pkgs| && pkgs[r.value].locationHref == loc && pkgs[r.value].pulpHref !in blacklist
    ensures r.Some? ==> forall j :: 0 <= j < r.value && pkgs[j].locationHref == loc ==> pkgs[j].pulpHref in blacklist
    ensures r.None? ==> forall j :: 0 <= j < |pkgs| && pkgs[j].locationHref == loc ==> pkgs[j].pulpHref in blacklist
    decreases |pkgs|
  {
    if pkgs == [] then None
    else if pkgs[0].locationHref == loc && pkgs[0].pulpHref !in blacklist then Some(0)
    else
      var rest := FirstAllowed(pkgs[1..], blacklist, loc);
      assert forall j :: 1 <= j < |pkgs| ==> pkgs[j] == pkgs[1..][j - 1];
      if rest.None? then None else Some(rest.value + 1)
  }

  /** The facts FirstAllowed promises determine it. */
  lemma {:induction false} FirstAllowedIs(pkgs: seq<PulpPackage>, blacklist: seq<string>, loc: string, i: nat)
    requires i < |pkgs| && pkgs[i].locationHref == loc && pkgs[i].pulpHref !in blacklist
    requires forall j :: 0 <= j < i && pkgs[j].locationHref == loc ==> pkgs[j].pulpHref in blacklist
    ensures FirstAllowed(pkgs, blacklist, loc) == Some(i)
  {
    var r := FirstAllowed(pkgs, blacklist, loc);
    assert r.Some?;
    assert !(r.value < i);
  }

  /** One more package: the first allowed index stays, or is the new one. */
  lemma {:induction false} FirstAllowedSnoc(pkgs: seq<PulpPackage>, blacklist: seq<string>, loc: string)
    requires |pkgs| > 0
    ensures var init := pkgs[..|pkgs| - 1];
      var last := pkgs[|pkgs| - 1];
      FirstAllowed(pkgs, blacklist, loc) ==
        if FirstAllowed(init, blacklist, loc).Some? then FirstAllowed(init, blacklist, loc)
        else if last.locationHref == loc && last.pulpHref !in blacklist then Some(|pkgs| - 1)
        else None
  {
    var init := pkgs[..|pkgs| - 1];
    var fa := FirstAllowed(init, blacklist, loc);
    assert forall j :: 0 <= j < |init| ==> init[j] == pkgs[j];
    if fa.Some? {
      FirstAllowedIs(pkgs, blacklist, loc, fa.value);
    } else if pkgs[|pkgs| - 1].locationHref == loc && pkgs[|pkgs| - 1].pulpHref !in blacklist {
      FirstAllowedIs(pkgs, blacklist, loc, |pkgs| - 1);
    }
  }

  /**
   * The first non-blacklisted package of each file name wins, and a name
   * whose every package is blacklisted gets no entry: a blacklisted href does
   * not claim its name.
   */
  lemma {:induction false} DedupFirstWins(pkgs: seq<PulpPackage>, blacklist: seq<string>, loc: string)
    ensures Get(Dedup(pkgs, blacklist), loc) ==
      match FirstAllowed(pkgs, blacklist, loc)
      case None => None
      case Some(i) => Some(pkgs[i].pulpHref)
    decreases |pkgs|
  {
    if pkgs != [] {
      var init := pkgs[..|pkgs| - 1];
      DedupFirstWins(init, blacklist, loc);
      FirstAllowedSnoc(pkgs, blacklist, loc);
      assert forall j :: 0 <= j < |init| ==> init[j] == pkgs[j];
      var last := pkgs[|pkgs| - 1];
      DedupFirstWins(init, blacklist, last.locationHref);
    }
  }

  /** Package `i` is the one that claims its file name. */
  predicate WinsName(pkgs: seq<PulpPackage>, blacklist: seq<string>, i: nat)
    requires i < |pkgs|
  {
    FirstAllowed(pkgs, blacklist, pkgs[i].locationHref) == Some(i)
  }

  /** `pulp_href` identifies a package, so it determines the file name. */
  ghost predicate HrefDeterminesName(pkgs: seq<PulpPackage>) {
    forall i, j :: 0 <= i < |pkgs| && 0 <= j < |pkgs| && pkgs[i].pulpHref == pkgs[j].pulpHref ==>
      pkgs[i].locationHref == pkgs[j].locationHref
  }

  predicate Distinct(s: seq<string>) {
    forall i, j :: 0 <= i < j < |s| ==> s[i] != s[j]
  }

  /** Every entry of the mapping is the first allowed package of its name. */
  lemma {:induction false} DedupEntry(pkgs: seq<PulpPackage>, blacklist: seq<string>, k: nat) returns (i: nat)
    requires k < |Dedup(pkgs, blacklist)|
    ensures var e := Dedup(pkgs, blacklist)[k];
      FirstAllowed(pkgs, blacklist, e.0) == Some(i) && pkgs[i].locationHref == e.0 && pkgs[i].pulpHref == e.1
  {
    var d := Dedup(pkgs, blacklist);
    GetAt(d, k);
    DedupFirstWins(pkgs, blacklist, d[k].0);
    i := FirstAllowed(pkgs, blacklist, d[k].0).value;
  }

  /** When an href names one file, the mapping's values are pairwise distinct. */
  lemma {:induction false} DedupValuesDistinct(pkgs: seq<PulpPackage>, blacklist: seq<string>)
    requires HrefDeterminesName(pkgs)
    ensures Distinct(Values(Dedup(pkgs, blacklist)))
  {
    var d := Dedup(pkgs, blacklist);
    forall a, b | 0 <= a < b < |d| ensures d[a].1 != d[b].1 {
      var i := DedupEntry(pkgs, blacklist, a);
      var j := DedupEntry(pkgs, blacklist, b);
    }
  }

  /** `[href for href in hrefs if href not in seen]`. */
  function Unseen(hrefs: seq<string>, seen: set<string>): (r: seq<string>)
    ensures forall h :: h in r <==> h in hrefs && h !in seen
    ensures Distinct(hrefs) ==> Distinct(r)
    decreases |hrefs|
  {
    if hrefs == [] then []
    else
      var init := hrefs[..|hrefs| - 1];
      var last := hrefs[|hrefs| - 1];
      assert hrefs == init + [last];
      if last in seen then Unseen(init, seen) else Unseen(init, seen) + [last]
  }

  // ---------------------------------------------------------------------------
  // The "remove" side and get_packages
  // ---------------------------------------------------------------------------

  /** `[pkg.pulp_href for pkg in pkgs if pkg.pulp_href in present]`. */
  function Present(pkgs: seq<PulpPackage>, present: set<string>): (r: seq<string>)
    ensures |r| <= |pkgs|
    ensures forall h :: h in r <==> h in present && exists p :: p in pkgs && p.pulpHref == h
    decreases |pkgs|
  {
    if pkgs == [] then []
    else
      var init := pkgs[..|pkgs| - 1];
      var last := pkgs[|pkgs| - 1];
      assert pkgs == init + [last];
      if last.pulpHref in present then Present(init, present) + [last.pulpHref] else Present(init, present)
  }

  /** `search_by_href`: the hrefs already in the product repository. */
  function HrefSet(pkgs: seq<PulpPackage>): set<string> {
    set p | p in pkgs :: p.pulpHref
  }

  /**
   * What get_packages returns as the package list for one build repository
   * and its product counterpart of architecture `distArch`. Any modification
   * other than "add" takes the remove branch.
   */
  function PackagesToModify(buildPkgs: seq<PulpPackage>, distPkgs: seq<PulpPackage>, distArch: string,
                            modification: string, blacklist: seq<string>): seq<string>
  {
    var filtered := Compatible(buildPkgs, distArch);
    if modification == "add" then Unseen(Values(Dedup(filtered, blacklist)), HrefSet(distPkgs))
    else Present(filtered, HrefSet(distPkgs))
  }

  /** The loop filling `dedup_mapping`. */
  method DedupMapping(pkgs: seq<PulpPackage>, blacklist: seq<string>) returns (mapping: Dict<string, string>)
    ensures mapping == Dedup(pkgs, blacklist)
  {
    mapping := [];
    for i := 0 to |pkgs|
      invariant mapping == Dedup(pkgs[..i], blacklist)
    {
      assert pkgs[..i + 1][..i] == pkgs[..i];
      var pkg := pkgs[i];
      if HasKey(mapping, pkg.locationHref) || pkg.pulpHref in blacklist {
        continue;
      }
      mapping := Put(mapping, pkg.locationHref, pkg.pulpHref);
    }
    assert pkgs[..|pkgs|] == pkgs;
  }

  /**
   * get_packages, with the two Pulp listings given: the product repository's
   * href and the hrefs to add to it or remove from it.
   */
  method GetPackages(buildPkgs: seq<PulpPackage>, distPkgs: seq<PulpPackage>, distRepo: Repository,
                     modification: string, blacklist: seq<string>)
    returns (repoHref: string, finalPackages: seq<string>)
    ensures repoHref == distRepo.pulpHref
    ensures finalPackages == PackagesToModify(buildPkgs, distPkgs, distRepo.arch, modification, blacklist)
  {
    var searchByHref := HrefSet(distPkgs);
    var filtered := FilterByArch(buildPkgs, distRepo.arch);
    if modification == "add" {
      var dedupMapping := DedupMapping(filtered, blacklist);
      finalPackages := Unseen(Values(dedupMapping), searchByHref);
    } else {
      finalPackages := Present(filtered, searchByHref);
    }
    repoHref := distRepo.pulpHref;
  }

  /**
   * Everything on the "add" list is the href of an arch-compatible build
   * package that claims its file name, is not blacklisted and is not already
   * in the product repository.
   */
  lemma {:induction false} AddSideSound(buildPkgs: seq<PulpPackage>, distPkgs: seq<PulpPackage>, distArch: string,
                     blacklist: seq<string>, h: string) returns (i: nat)
    requires h in PackagesToModify(buildPkgs, distPkgs, distArch, "add", blacklist)
    ensures var filtered := Compatible(buildPkgs, distArch);
      && i < |filtered| && filtered[i].pulpHref == h && WinsName(filtered, blacklist, i)
      && filtered[i] in buildPkgs && ArchCompatible(filtered[i].arch, distArch)
      && h !in blacklist && h !in HrefSet(distPkgs)
  {
    var filtered := Compatible(buildPkgs, distArch);
    var vs := Values(Dedup(filtered, blacklist));
    var k :| 0 <= k < |vs| && vs[k] == h;
    i := DedupEntry(filtered, blacklist, k);
    assert filtered[i] in filtered;
  }

  /** Every package that claims its file name and is not yet in the product repository is added. */
  lemma {:induction false} AddSideComplete(buildPkgs: seq<PulpPackage>, distPkgs: seq<PulpPackage>, distArch: string,
                        blacklist: seq<string>, i: nat)
    requires var filtered := Compatible(buildPkgs, distArch);
      i < |filtered| && WinsName(filtered, blacklist, i) && filtered[i].pulpHref !in HrefSet(distPkgs)
    ensures Compatible(buildPkgs, distArch)[i].pulpHref in PackagesToModify(buildPkgs, distPkgs, distArch, "add", blacklist)
  {
    var filtered := Compatible(buildPkgs, distArch);
    var d := Dedup(filtered, blacklist);
    var loc := filtered[i].locationHref;
    DedupFirstWins(filtered, blacklist, loc);
    var k := IndexOf(d, loc).value;
    assert Values(d)[k] == filtered[i].pulpHref;
  }

  /** No href is added twice, since an href names one file. */
  lemma {:induction false} AddSideDistinct(buildPkgs: seq<PulpPackage>, distPkgs: seq<PulpPackage>, distArch: string, blacklist: seq<string>)
    requires HrefDeterminesName(Compatible(buildPkgs, distArch))
    ensures Distinct(PackagesToModify(buildPkgs, distPkgs, distArch, "add", blacklist))
  {
    DedupValuesDistinct(Compatible(buildPkgs, distArch), blacklist);
  }

  /**
   * The "remove" list: exactly the hrefs of arch-compatible build packages
   * that the product repository already holds.
   */
  lemma {:induction false} RemoveSideSpec(buildPkgs: seq<PulpPackage>, distPkgs: seq<PulpPackage>, distArch: string,
                       modification: string, blacklist: seq<string>, h: string)
    requires modification != "add"
    ensures h in PackagesToModify(buildPkgs, distPkgs, distArch, modification, blacklist) <==>
      (exists p :: p in buildPkgs && ArchCompatible(p.arch, distArch) && p.pulpHref == h)
      && (exists q :: q in distPkgs && q.pulpHref == h)
  {
    var filtered := Compatible(buildPkgs, distArch);
    if exists p :: p in buildPkgs && ArchCompatible(p.arch, distArch) && p.pulpHref == h {
      var p :| p in buildPkgs && ArchCompatible(p.arch, distArch) && p.pulpHref == h;
      assert p in filtered;
    }
  }

  // ---------------------------------------------------------------------------
  // prepare_repo_modify_dict
  // ---------------------------------------------------------------------------

  /** A build task as the synchroniser reads it; `rpmModule` is the module's Pulp href. */
  datatype BuildTaskRow = BuildTaskRow(id: nat, refId: nat, status: TaskStatus, arch: string,
                                       platform: Platform, rpmModule: Option<string>)

  /** A build: its repositories (whose platform links may be backfilled) and its tasks. */
  class Build {
    const id: nat
    const repos: seq<Repository>
    const tasks: seq<BuildTaskRow>

    constructor (id: nat, repos: seq<Repository>, tasks: seq<BuildTaskRow>)
      ensures this.id == id && this.repos == repos && this.tasks == tasks
    {
      this.id := id;
      this.repos := repos;
      this.tasks := tasks;
    }
  }

  /** A product: its owner, name, repositories, platforms and the ids of the builds it includes. */
  class Product {
    const ownerName: string
    const name: string
    const repositories: seq<Repository>
    const platforms: seq<Platform>
    var builds: seq<nat>

    constructor (ownerName: string, name: string, repositories: seq<Repository>, platforms: seq<Platform>, builds: seq<nat>)
      ensures this.ownerName == ownerName && this.name == name && this.repositories == repositories
      ensures this.platforms == platforms && this.builds == builds
    {
      this.ownerName := ownerName;
      this.name := name;
      this.repositories := repositories;
      this.platforms := platforms;
      this.builds := builds;
    }
  }

  /** (arch, debug, platform name): how build and product repositories are matched. */
  type RepoKey = (string, bool, string)

  function KeyOf(r: Repository): RepoKey
    requires r.platform.Some?
    reads r
  {
    (r.arch, r.debug, r.platform.value.name)
  }

  predicate AllHavePlatforms(repos: seq<Repository>)
    reads repos
  {
    forall i :: 0 <= i < |repos| ==> repos[i].platform.Some?
  }

  predicate RpmHavePlatforms(repos: seq<Repository>)
    reads repos
  {
    forall i :: 0 <= i < |repos| && repos[i].repoType == "rpm" ==> repos[i].platform.Some?
  }

  /** Repository `i` has key `k` and no later repository does. */
  predicate LastWithKey(repos: seq<Repository>, k: RepoKey, i: int)
    reads repos
  {
    && 0 <= i < |repos| && repos[i].platform.Some? && KeyOf(repos[i]) == k
    && forall j :: i < j < |repos| && repos[j].platform.Some? ==> KeyOf(repos[j]) != k
  }

  /** `product_repo_mapping`: each product repository under its key, a later one replacing an earlier. */
  function RepoMapping(repos: seq<Repository>): (m: map<RepoKey, Repository>)
    requires AllHavePlatforms(repos)
    reads repos
    ensures forall k :: k in m ==> m[k] in repos
    ensures forall k :: k in m ==> m[k].platform.Some? && KeyOf(m[k]) == k
    ensures forall i :: 0 <= i < |repos| ==> KeyOf(repos[i]) in m
    ensures forall k, i :: LastWithKey(repos, k, i) ==> m[k] == repos[i]
    decreases |repos|
  {
    if repos == [] then map[]
    else
      var init := repos[..|repos| - 1];
      var last := repos[|repos| - 1];
      assert forall i :: 0 <= i < |init| ==> init[i] == repos[i];
      var m := RepoMapping(init)[KeyOf(last) := last];
      assert forall k, i :: LastWithKey(repos, k, i) ==> m[k] == repos[i] by {
        forall k, i | LastWithKey(repos, k, i) ensures m[k] == repos[i] {
          if i < |init| {
            assert LastWithKey(init, k, i);
          }
        }
      }
      m
  }

  /** Build repository `repo` feeds the product repository whose href is `href`. */
  predicate Feeds(repo: Repository, mapping: map<RepoKey, Repository>, href: string)
    reads repo
  {
    repo.repoType == "rpm" && repo.platform.Some? && KeyOf(repo) in mapping && mapping[KeyOf(repo)].pulpHref == href
  }

  /**
   * `modify` after the package lists are in: for each rpm build repository
   * with a product counterpart, that counterpart's href maps to what
   * get_packages returns for the pair; a later pair replaces an earlier one.
   */
  function PackageEntries(buildRepos: seq<Repository>, mapping: map<RepoKey, Repository>,
                          listing: string -> seq<PulpPackage>, modification: string, blacklist: seq<string>)
    : (r: Dict<string, seq<string>>)
    requires RpmHavePlatforms(buildRepos)
    reads buildRepos
    ensures KeysUnique(r)
    decreases |buildRepos|
  {
    if buildRepos == [] then []
    else
      var init := buildRepos[..|buildRepos| - 1];
      var repo := buildRepos[|buildRepos| - 1];
      assert forall i :: 0 <= i < |init| ==> init[i] == buildRepos[i];
      var d := PackageEntries(init, mapping, listing, modification, blacklist);
      if repo.repoType != "rpm" || KeyOf(repo) !in mapping then d
      else
        var dist := mapping[KeyOf(repo)];
        Put(d, dist.pulpHref, PackagesToModify(listing(repo.pulpHref), listing(dist.pulpHref), dist.arch, modification, blacklist))
  }

  /** Index of the last build repository feeding `href`. */
  function LastFeeding(buildRepos: seq<Repository>, mapping: map<RepoKey, Repository>, href: string): (r: Option<nat>)
    reads buildRepos
    ensures r.Some? ==> r.value < |buildRepos| && Feeds(buildRepos[r.value], mapping, href)
    ensures r.Some? ==> forall j :: r.value < j < |buildRepos| ==> !Feeds(buildRepos[j], mapping, href)
    ensures r.None? ==> forall j :: 0 <= j < |buildRepos| ==> !Feeds(buildRepos[j], mapping, href)
    decreases |buildRepos|
  {
    if buildRepos == [] then None
    else if Feeds(buildRepos[|buildRepos| - 1], mapping, href) then Some(|buildRepos| - 1)
    else
      var init := buildRepos[..|buildRepos| - 1];
      assert forall j :: 0 <= j < |init| ==> init[j] == buildRepos[j];
      LastFeeding(init, mapping, href)
  }

  /**
   * A product repository gets a package list exactly when some rpm build
   * repository feeds it, and the list is the one computed for the last such
   * build repository.
   */
  lemma {:induction false} PackageEntriesSpec(buildRepos: seq<Repository>, mapping: map<RepoKey, Repository>,
                                               listing: string -> seq<PulpPackage>, modification: string,
                                               blacklist: seq<string>, href: string)
    requires RpmHavePlatforms(buildRepos)
    ensures Get(PackageEntries(buildRepos, mapping, listing, modification, blacklist), href) ==
      match LastFeeding(buildRepos, mapping, href)
      case None => None
      case Some(i) =>
        var dist := mapping[KeyOf(buildRepos[i])];
        Some(PackagesToModify(listing(buildRepos[i].pulpHref), listing(dist.pulpHref), dist.arch, modification, blacklist))
    decreases |buildRepos|
  {
    if buildRepos != [] {
      var init := buildRepos[..|buildRepos| - 1];
      var repo := buildRepos[|buildRepos| - 1];
      assert forall i :: 0 <= i < |init| ==> init[i] == buildRepos[i];
      PackageEntriesSpec(init, mapping, listing, modification, blacklist, href);
      if !Feeds(repo, mapping, href) {
        assert LastFeeding(buildRepos, mapping, href) == LastFeeding(init, mapping, href);
      }
    }
  }

  /** The product repository the module of task `t` is appended to, if any. */
  function ModuleTarget(t: BuildTaskRow, mapping: map<RepoKey, Repository>): Option<string> {
    if t.status != Completed || t.rpmModule.None? || (t.arch, false, t.platform.name) !in mapping then None
    else Some(mapping[(t.arch, false, t.platform.name)].pulpHref)
  }

  /** `d[k].append(x)` on a defaultdict(list). */
  function AppendTo<K(==, !new), V>(d: Dict<K, seq<V>>, k: K, x: V): (r: Dict<K, seq<V>>)
    ensures Get(r, k) == Some(Get(d, k).GetOr([]) + [x])
    ensures forall k' :: k' != k ==> Get(r, k') == Get(d, k')
    ensures KeysUnique(d) ==> KeysUnique(r)
  {
    Put(d, k, Get(d, k).GetOr([]) + [x])
  }

  /** The loop over the build's tasks appending module hrefs. */
  function ModuleEntries(d: Dict<string, seq<string>>, tasks: seq<BuildTaskRow>, mapping: map<RepoKey, Repository>)
    : (r: Dict<string, seq<string>>)
    ensures KeysUnique(d) ==> KeysUnique(r)
    decreases |tasks|
  {
    if tasks == [] then d
    else
      var prev := ModuleEntries(d, tasks[..|tasks| - 1], mapping);
      var t := tasks[|tasks| - 1];
      match ModuleTarget(t, mapping)
      case None => prev
      case Some(href) => AppendTo(prev, href, t.rpmModule.value)
  }

  /** The module hrefs bound for product repository `href`, in task order. */
  function ModulesFor(tasks: seq<BuildTaskRow>, mapping: map<RepoKey, Repository>, href: string): (r: seq<string>)
    ensures forall x :: x in r <==> exists t :: t in tasks && ModuleTarget(t, mapping) == Some(href) && t.rpmModule == Some(x)
    decreases |tasks|
  {
    if tasks == [] then []
    else
      var init := tasks[..|tasks| - 1];
      var t := tasks[|tasks| - 1];
      assert tasks == init + [t];
      if ModuleTarget(t, mapping) == Some(href) then ModulesFor(init, mapping, href) + [t.rpmModule.value]
      else ModulesFor(init, mapping, href)
  }

  /** Module hrefs are appended after whatever package list the repository has, in task order. */
  lemma {:induction false} ModuleEntriesSpec(d: Dict<string, seq<string>>, tasks: seq<BuildTaskRow>,
                                              mapping: map<RepoKey, Repository>, href: string)
    ensures Get(ModuleEntries(d, tasks, mapping), href) ==
      if ModulesFor(tasks, mapping, href) == [] then Get(d, href)
      else Some(Get(d, href).GetOr([]) + ModulesFor(tasks, mapping, href))
    decreases |tasks|
  {
    if tasks != [] {
      var init := tasks[..|tasks| - 1];
      ModuleEntriesSpec(d, init, mapping, href);
      var t := tasks[|tasks| - 1];
      if ModuleTarget(t, mapping) == Some(href) {
        var prev := ModuleEntries(d, init, mapping);
        var x := t.rpmModule.value;
        assert ModulesFor(tasks, mapping, href) == ModulesFor(init, mapping, href) + [x];
        assert Get(prev, href).GetOr([]) == Get(d, href).GetOr([]) + ModulesFor(init, mapping, href);
        assert Get(d, href).GetOr([]) + ModulesFor(init, mapping, href) + [x]
          == Get(d, href).GetOr([]) + (ModulesFor(init, mapping, href) + [x]);
      }
    }
  }

  /** What prepare_repo_modify_dict returns. */
  function ModifyDict(buildRepos: seq<Repository>, productRepos: seq<Repository>, tasks: seq<BuildTaskRow>,
                      listing: string -> seq<PulpPackage>, modification: string, blacklist: seq<string>)
    : (r: Dict<string, seq<string>>)
    requires RpmHavePlatforms(buildRepos) && AllHavePlatforms(productRepos)
    reads buildRepos, productRepos
    ensures KeysUnique(r)
  {
    var mapping := RepoMapping(productRepos);
    ModuleEntries(PackageEntries(buildRepos, mapping, listing, modification, blacklist), tasks, mapping)
  }

  /**
   * The modify dict is keyed by product repository hrefs only; a key is
   * present exactly when an rpm build repository feeds it or a completed task
   * with a module targets it (for "add" and for "remove" alike); and its list
   * is the last feeding build repository's packages followed by the modules.
   */
  lemma {:induction false} ModifyDictSpec(buildRepos: seq<Repository>, productRepos: seq<Repository>, tasks: seq<BuildTaskRow>,
                       listing: string -> seq<PulpPackage>, modification: string, blacklist: seq<string>, href: string)
    requires RpmHavePlatforms(buildRepos) && AllHavePlatforms(productRepos)
    ensures var mapping := RepoMapping(productRepos);
      var pkgs := Get(PackageEntries(buildRepos, mapping, listing, modification, blacklist), href);
      var mods := ModulesFor(tasks, mapping, href);
      Get(ModifyDict(buildRepos, productRepos, tasks, listing, modification, blacklist), href) ==
        if mods == [] then pkgs else Some(pkgs.GetOr([]) + mods)
    ensures HasKey(ModifyDict(buildRepos, productRepos, tasks, listing, modification, blacklist), href) ==>
      exists r :: r in productRepos && r.pulpHref == href
    ensures var mapping := RepoMapping(productRepos);
      HasKey(ModifyDict(buildRepos, productRepos, tasks, listing, modification, blacklist), href) <==>
        LastFeeding(buildRepos, mapping, href).Some? || exists t :: t in tasks && ModuleTarget(t, mapping) == Some(href)
  {
    var mapping := RepoMapping(productRepos);
    var pe := PackageEntries(buildRepos, mapping, listing, modification, blacklist);
    ModuleEntriesSpec(pe, tasks, mapping, href);
    PackageEntriesSpec(buildRepos, mapping, listing, modification, blacklist, href);
    var mods := ModulesFor(tasks, mapping, href);
    if mods != [] {
      assert mods[0] in mods;
    }
  }

  /** The loop over the build repositories, each paired with its product counterpart. */
  method CollectPackageEntries(buildRepos: seq<Repository>, mapping: map<RepoKey, Repository>,
                               listing: string -> seq<PulpPackage>, modification: string, blacklist: seq<string>)
    returns (changes: Dict<string, seq<string>>)
    requires RpmHavePlatforms(buildRepos)
    ensures changes == PackageEntries(buildRepos, mapping, listing, modification, blacklist)
  {
    changes := [];
    for i := 0 to |buildRepos|
      invariant changes == PackageEntries(buildRepos[..i], mapping, listing, modification, blacklist)
    {
      assert buildRepos[..i + 1][..i] == buildRepos[..i];
      var repo := buildRepos[i];
      if repo.repoType != "rpm" {
        continue;
      }
      var key := (repo.arch, repo.debug, repo.platform.value.name);
      if key !in mapping {
        continue;
      }
      var distRepo := mapping[key];
      var repoHref, finalPackages := GetPackages(listing(repo.pulpHref), listing(distRepo.pulpHref), distRepo,
                                                 modification, blacklist);
      changes := Put(changes, repoHref, finalPackages);
    }
    assert buildRepos[..|buildRepos|] == buildRepos;
  }

  /** The loop over the build's tasks. */
  method AppendModules(changes: Dict<string, seq<string>>, tasks: seq<BuildTaskRow>, mapping: map<RepoKey, Repository>)
    returns (changes': Dict<string, seq<string>>)
    ensures changes' == ModuleEntries(changes, tasks, mapping)
  {
    changes' := changes;
    for i := 0 to |tasks|
      invariant changes' == ModuleEntries(changes, tasks[..i], mapping)
    {
      assert tasks[..i + 1][..i] == tasks[..i];
      var task := tasks[i];
      if task.status != Completed {
        continue;
      }
      if task.rpmModule.Some? {
        var key := (task.arch, false, task.platform.name);
        if key !in mapping {
          continue;
        }
        var productRepo := mapping[key];
        changes' := AppendTo(changes', productRepo.pulpHref, task.rpmModule.value);
      }
    }
    assert tasks[..|tasks|] == tasks;
  }

  /**
   * prepare_repo_modify_dict, with the Pulp listing of each repository given
   * by `listing` (keyed by repository href).
   */
  method PrepareRepoModifyDict(build: Build, product: Product, listing: string -> seq<PulpPackage>,
                               modification: string, blacklist: seq<string>)
    returns (changes: Dict<string, seq<string>>)
    requires RpmHavePlatforms(build.repos) && AllHavePlatforms(product.repositories)
    ensures changes == ModifyDict(build.repos, product.repositories, build.tasks, listing, modification, blacklist)
  {
    var productRepoMapping := RepoMapping(product.repositories);
    changes := CollectPackageEntries(build.repos, productRepoMapping, listing, modification, blacklist);
    changes := AppendModules(changes, build.tasks, productRepoMapping);
  }

  // ---------------------------------------------------------------------------
  // set_platform_for_products_repos and set_platform_for_build_repos
  // ---------------------------------------------------------------------------

  /** The naming convention of product repositories, e.g. `owner-product-almalinux-8-x86_64-debug-dr`. */
  function ProductRepoName(owner: string, product: string, p: Platform, arch: string, debug: bool): string {
    owner + "-" + product + "-" + ToLower(p.name) + "-" + arch + "-" + (if debug then "debug-dr" else "dr")
  }

  /** The naming convention of build repositories, e.g. `AlmaLinux-8-x86_64-42-br`. */
  function BuildRepoName(p: Platform, arch: string, buildId: nat, debug: bool): string {
    p.name + "-" + arch + "-" + NatToString(buildId) + "-" + (if debug then "debug-br" else "br")
  }

  function ProductNamer(owner: string, product: string): (Platform, string, bool) -> string {
    (p: Platform, arch: string, debug: bool) => ProductRepoName(owner, product, p, arch, debug)
  }

  function BuildNamer(buildId: nat): (Platform, string, bool) -> string {
    (p: Platform, arch: string, debug: bool) => BuildRepoName(p, arch, buildId, debug)
  }

  /** Some repository of `repos` with platform `p` would be called `name`. */
  predicate NamedBy(repos: seq<Repository>, nameOf: (Platform, string, bool) -> string, name: string, p: Platform) {
    exists i :: 0 <= i < |repos| && nameOf(p, repos[i].arch, repos[i].debug) == name
  }

  /** Platform `j` gives the name `k` to a repository of `arch`/`debug`, and no later platform does. */
  predicate LastGiving(platforms: seq<Platform>, arch: string, debug: bool, nameOf: (Platform, string, bool) -> string,
                       k: string, j: int) {
    && 0 <= j < |platforms| && nameOf(platforms[j], arch, debug) == k
    && forall j' :: j < j' < |platforms| ==> nameOf(platforms[j'], arch, debug) != k
  }

  /** The inner loop of the `repos_per_platform` comprehension, for one repository. */
  function RowIndex(m: map<string, Platform>, arch: string, debug: bool, platforms: seq<Platform>,
                    nameOf: (Platform, string, bool) -> string): map<string, Platform>
    decreases |platforms|
  {
    if platforms == [] then m
    else
      var p := platforms[|platforms| - 1];
      RowIndex(m, arch, debug, platforms[..|platforms| - 1], nameOf)[nameOf(p, arch, debug) := p]
  }

  /**
   * One repository's row: the old entries plus one name per platform; a name
   * maps to the last platform giving it, and an old entry survives only when
   * no platform gives its name.
   */
  lemma {:induction false} RowIndexEntries(m: map<string, Platform>, arch: string, debug: bool, platforms: seq<Platform>,
                                           nameOf: (Platform, string, bool) -> string)
    ensures forall k :: k in RowIndex(m, arch, debug, platforms, nameOf) <==>
      k in m || exists j :: 0 <= j < |platforms| && nameOf(platforms[j], arch, debug) == k
    ensures forall k :: k in RowIndex(m, arch, debug, platforms, nameOf) ==>
      var v := RowIndex(m, arch, debug, platforms, nameOf)[k];
      (k in m && v == m[k]) || (v in platforms && nameOf(v, arch, debug) == k)
    ensures forall k, j :: LastGiving(platforms, arch, debug, nameOf, k, j) ==>
      k in RowIndex(m, arch, debug, platforms, nameOf) && RowIndex(m, arch, debug, platforms, nameOf)[k] == platforms[j]
    ensures forall k :: k in m && (forall j :: 0 <= j < |platforms| ==> nameOf(platforms[j], arch, debug) != k) ==>
      k in RowIndex(m, arch, debug, platforms, nameOf) && RowIndex(m, arch, debug, platforms, nameOf)[k] == m[k]
    decreases |platforms|
  {
    if platforms != [] {
      var init := platforms[..|platforms| - 1];
      var p := platforms[|platforms| - 1];
      RowIndexEntries(m, arch, debug, init, nameOf);
      assert forall j :: 0 <= j < |init| ==> init[j] == platforms[j];
      var r := RowIndex(m, arch, debug, platforms, nameOf);
      forall k, j | LastGiving(platforms, arch, debug, nameOf, k, j) ensures k in r && r[k] == platforms[j] {
        if j < |init| {
          assert LastGiving(init, arch, debug, nameOf, k, j);
        }
      }
    }
  }

  /**
   * The comprehension's last writer of `k`: repository `i` on platform `j`
   * gives the name `k`, no later platform gives it to repository `i` and no
   * later repository gets it on any platform.
   */
  predicate LastNaming(repos: seq<Repository>, platforms: seq<Platform>, nameOf: (Platform, string, bool) -> string,
                       k: string, i: int, j: int) {
    && 0 <= i < |repos| && LastGiving(platforms, repos[i].arch, repos[i].debug, nameOf, k, j)
    && forall i' :: i < i' < |repos| ==> NotGiven(platforms, repos[i'], nameOf, k)
  }

  /** No platform gives the name `k` to `repo`. */
  predicate NotGiven(platforms: seq<Platform>, repo: Repository, nameOf: (Platform, string, bool) -> string, k: string) {
    forall j :: 0 <= j < |platforms| ==> nameOf(platforms[j], repo.arch, repo.debug) != k
  }

  /**
   * `repos_per_platform`: the `{name: platform for repo in repos for platform
   * in platforms}` comprehension, one RowIndex per repository in order.
   */
  function NameIndex(repos: seq<Repository>, platforms: seq<Platform>, nameOf: (Platform, string, bool) -> string)
    : map<string, Platform>
    decreases |repos|
  {
    if repos == [] then map[]
    else
      var last := repos[|repos| - 1];
      RowIndex(NameIndex(repos[..|repos| - 1], platforms, nameOf), last.arch, last.debug, platforms, nameOf)
  }

  /**
   * A name is indexed exactly when the convention gives it to some repository
   * of `repos` on some platform of `platforms`, and it maps to such a platform.
   */
  lemma {:induction false} NameIndexDomain(repos: seq<Repository>, platforms: seq<Platform>,
                                           nameOf: (Platform, string, bool) -> string)
    ensures forall k :: k in NameIndex(repos, platforms, nameOf) <==>
      exists j :: 0 <= j < |platforms| && NamedBy(repos, nameOf, k, platforms[j])
    ensures forall k :: k in NameIndex(repos, platforms, nameOf) ==>
      NameIndex(repos, platforms, nameOf)[k] in platforms && NamedBy(repos, nameOf, k, NameIndex(repos, platforms, nameOf)[k])
    decreases |repos|
  {
    if repos != [] {
      var init := repos[..|repos| - 1];
      var last := repos[|repos| - 1];
      NameIndexDomain(init, platforms, nameOf);
      RowIndexEntries(NameIndex(init, platforms, nameOf), last.arch, last.debug, platforms, nameOf);
      assert forall k, p :: NamedBy(repos, nameOf, k, p) <==>
          NamedBy(init, nameOf, k, p) || nameOf(p, last.arch, last.debug) == k by {
        forall k, p ensures NamedBy(repos, nameOf, k, p) <==>
            NamedBy(init, nameOf, k, p) || nameOf(p, last.arch, last.debug) == k {
          if NamedBy(repos, nameOf, k, p) {
            var i :| 0 <= i < |repos| && nameOf(p, repos[i].arch, repos[i].debug) == k;
            if i < |init| {
              assert init[i] == repos[i];
            }
          }
          if NamedBy(init, nameOf, k, p) {
            var i :| 0 <= i < |init| && nameOf(p, init[i].arch, init[i].debug) == k;
            assert init[i] == repos[i];
          }
          assert repos[|repos| - 1] == last;
        }
      }
    }
  }

  /** A later name overrides an earlier one: each name maps to the platform of its last writer. */
  lemma {:induction false} NameIndexLastWriter(repos: seq<Repository>, platforms: seq<Platform>,
                                               nameOf: (Platform, string, bool) -> string, k: string, i: int, j: int)
    requires LastNaming(repos, platforms, nameOf, k, i, j)
    ensures k in NameIndex(repos, platforms, nameOf) && NameIndex(repos, platforms, nameOf)[k] == platforms[j]
    decreases |repos|
  {
    var init := repos[..|repos| - 1];
    var last := repos[|repos| - 1];
    var prev := NameIndex(init, platforms, nameOf);
    assert NameIndex(repos, platforms, nameOf) == RowIndex(prev, last.arch, last.debug, platforms, nameOf);
    RowIndexEntries(prev, last.arch, last.debug, platforms, nameOf);
    if i == |repos| - 1 {
      assert LastGiving(platforms, last.arch, last.debug, nameOf, k, j);
    } else {
      assert init[i] == repos[i];
      assert forall i' :: i < i' < |init| ==> init[i'] == repos[i'];
      assert LastNaming(init, platforms, nameOf, k, i, j);
      NameIndexLastWriter(init, platforms, nameOf, k, i, j);
      assert NotGiven(platforms, last, nameOf, k);
    }
  }

  /** The backfill writes this repository (the build variant skips non-rpm ones). */
  predicate Assigned(repo: Repository, rpmOnly: bool) {
    !rpmOnly || repo.repoType == "rpm"
  }

  /** Index of the first repository the backfill would look up in vain, `|repos|` when there is none. */
  function FirstMissing(repos: seq<Repository>, index: map<string, Platform>, rpmOnly: bool): (r: nat)
    ensures r <= |repos|
    ensures forall j :: 0 <= j < r && Assigned(repos[j], rpmOnly) ==> repos[j].name in index
    ensures r < |repos| ==> Assigned(repos[r], rpmOnly) && repos[r].name !in index
    decreases |repos|
  {
    if repos == [] then 0
    else if Assigned(repos[0], rpmOnly) && repos[0].name !in index then 0
    else
      var r := FirstMissing(repos[1..], index, rpmOnly);
      assert forall j :: 1 <= j < |repos| ==> repos[j] == repos[1..][j - 1];
      r + 1
  }

  /**
   * The effect of the backfill loop: repositories are assigned their
   * platform in order until the first name missing from the index, which
   * raises a KeyError carrying that name; the rest keep their platform.
   */
  predicate Backfilled(repos: seq<Repository>, index: map<string, Platform>, rpmOnly: bool,
                       before: seq<Option<Platform>>, after: seq<Option<Platform>>, r: Result<(), string>)
  {
    var stop := FirstMissing(repos, index, rpmOnly);
    && |before| == |repos| && |after| == |repos|
    && (r.Success? <==> stop == |repos|)
    && (r.Failure? ==> stop < |repos| && r.error == repos[stop].name)
    && forall i :: 0 <= i < |repos| ==>
         after[i] == if i < stop && Assigned(repos[i], rpmOnly) then Some(index[repos[i].name]) else before[i]
  }

  /** The platform of each repository, in order. */
  function Platforms(repos: seq<Repository>): (r: seq<Option<Platform>>)
    reads repos
    ensures |r| == |repos| && forall i :: 0 <= i < |repos| ==> r[i] == repos[i].platform
  {
    seq(|repos|, i requires 0 <= i < |repos| reads repos => repos[i].platform)
  }

  predicate AllSome(platforms: seq<Option<Platform>>) {
    forall i :: 0 <= i < |platforms| ==> platforms[i].Some?
  }

  /**
   * A backfill step of one repository list: no change when every repository
   * already has a platform, otherwise the loop's effect with outcome `r`.
   */
  predicate Stepped(repos: seq<Repository>, index: map<string, Platform>, rpmOnly: bool,
                    before: seq<Option<Platform>>, after: seq<Option<Platform>>, r: Result<(), string>)
  {
    if AllSome(before) then r.Success? && after == before
    else Backfilled(repos, index, rpmOnly, before, after, r)
  }

  /** The loop `for repo in repos: repo.platform = repos_per_platform[repo.name]`. */
  method AssignPlatforms(repos: seq<Repository>, index: map<string, Platform>, rpmOnly: bool) returns (r: Result<(), string>)
    requires forall i, j :: 0 <= i < j < |repos| ==> repos[i] != repos[j]
    modifies set x | x in repos
    ensures Backfilled(repos, index, rpmOnly, old(Platforms(repos)), Platforms(repos), r)
    ensures forall x :: x in repos && old(x.platform).Some? ==> x.platform.Some?
  {
    var stop := FirstMissing(repos, index, rpmOnly);
    for i := 0 to |repos|
      invariant i <= stop
      invariant forall j :: 0 <= j < |repos| ==>
        repos[j].platform == if j < i && Assigned(repos[j], rpmOnly) then Some(index[repos[j].name]) else old(repos[j].platform)
    {
      var repo := repos[i];
      if rpmOnly && repo.repoType != "rpm" {
        continue;
      }
      if repo.name !in index {
        return Failure(repo.name);
      }
      repo.platform := Some(index[repo.name]);
    }
    return Success(());
  }

  /** The `repos_per_platform` of a product. */
  function ProductIndex(product: Product): map<string, Platform> {
    NameIndex(product.repositories, product.platforms, ProductNamer(product.ownerName, product.name))
  }

  /** The `repos_per_platform` of a build: the platforms come from its tasks. */
  function BuildIndex(build: Build): map<string, Platform> {
    NameIndex(build.repos, TaskPlatforms(build.tasks), BuildNamer(build.id))
  }

  function TaskPlatforms(tasks: seq<BuildTaskRow>): (r: seq<Platform>)
    ensures |r| == |tasks| && forall i :: 0 <= i < |tasks| ==> r[i] == tasks[i].platform
  {
    seq(|tasks|, i requires 0 <= i < |tasks| => tasks[i].platform)
  }

  /**
   * set_platform_for_products_repos: nothing changes when every product
   * repository has a platform; otherwise every one is looked up by name.
   */
  method SetPlatformForProductsRepos(product: Product, ghost others: seq<Repository>) returns (r: Result<(), string>)
    requires forall i, j :: 0 <= i < j < |product.repositories| ==> product.repositories[i] != product.repositories[j]
    requires forall x :: x in others ==> x !in product.repositories
    modifies set x | x in product.repositories
    ensures Stepped(product.repositories, ProductIndex(product), false,
                    old(Platforms(product.repositories)), Platforms(product.repositories), r)
    ensures r.Success? ==> AllHavePlatforms(product.repositories)
    ensures forall x :: x in others ==> x.platform == old(x.platform)
  {
    if forall i :: 0 <= i < |product.repositories| ==> product.repositories[i].platform.Some? {
      return Success(());
    }
    var reposPerPlatform := NameIndex(product.repositories, product.platforms, ProductNamer(product.ownerName, product.name));
    r := AssignPlatforms(product.repositories, reposPerPlatform, false);
    ghost var repos := product.repositories;
    assert forall i :: 0 <= i < |repos| ==> Assigned(repos[i], false);
    if r.Success? {
      ghost var after := Platforms(repos);
      assert FirstMissing(repos, reposPerPlatform, false) == |repos|;
      forall i | 0 <= i < |repos| ensures repos[i].platform.Some? {
        assert after[i] == Some(reposPerPlatform[repos[i].name]);
      }
    }
  }

  /**
   * set_platform_for_build_repos: nothing changes when every build
   * repository has a platform; otherwise every rpm one is looked up by name.
   */
  method SetPlatformForBuildRepos(build: Build, ghost others: seq<Repository>) returns (r: Result<(), string>)
    requires forall i, j :: 0 <= i < j < |build.repos| ==> build.repos[i] != build.repos[j]
    requires forall x :: x in others ==> x !in build.repos
    modifies set x | x in build.repos
    ensures Stepped(build.repos, BuildIndex(build), true, old(Platforms(build.repos)), Platforms(build.repos), r)
    ensures r.Success? ==> RpmHavePlatforms(build.repos)
    ensures forall x :: x in build.repos && old(x.platform).Some? ==> x.platform.Some?
    ensures forall x :: x in others ==> x.platform == old(x.platform)
  {
    if forall i :: 0 <= i < |build.repos| ==> build.repos[i].platform.Some? {
      return Success(());
    }
    var reposPerPlatform := NameIndex(build.repos, TaskPlatforms(build.tasks), BuildNamer(build.id));
    r := AssignPlatforms(build.repos, reposPerPlatform, true);
  }

  // ---------------------------------------------------------------------------
  // group_tasks_by_ref_id and get_packages_to_blacklist
  // ---------------------------------------------------------------------------

  /** (task id, completed) pairs, one per task of a ref group. */
  type Group = seq<(nat, bool)>

  function Pair(t: BuildTaskRow): (nat, bool) {
    (t.id, t.status == Completed)
  }

  /** `tasks_by_ref`, filled task by task. */
  function Grouped(tasks: seq<BuildTaskRow>): (r: Dict<nat, Group>)
    ensures KeysUnique(r)
    decreases |tasks|
  {
    if tasks == [] then []
    else
      var t := tasks[|tasks| - 1];
      AppendTo(Grouped(tasks[..|tasks| - 1]), t.refId, Pair(t))
  }

  /** The pairs of the tasks with ref `ref`, in task order. */
  function PairsOf(tasks: seq<BuildTaskRow>, ref: nat): (r: Group)
    ensures forall x :: x in r <==> exists t :: t in tasks && t.refId == ref && Pair(t) == x
    ensures (forall j :: 0 <= j < |tasks| ==> tasks[j].refId != ref) ==> r == []
    decreases |tasks|
  {
    if tasks == [] then []
    else
      var init := tasks[..|tasks| - 1];
      var t := tasks[|tasks| - 1];
      assert tasks == init + [t];
      if t.refId == ref then PairsOf(init, ref) + [Pair(t)] else PairsOf(init, ref)
  }

  /** Each ref of the tasks maps to the pairs of its tasks, in task order, and no other key is present. */
  lemma {:induction false} GroupedSpec(tasks: seq<BuildTaskRow>, ref: nat)
    ensures Get(Grouped(tasks), ref) == if PairsOf(tasks, ref) == [] then None else Some(PairsOf(tasks, ref))
    decreases |tasks|
  {
    if tasks != [] {
      GroupedSpec(tasks[..|tasks| - 1], ref);
    }
  }

  /** group_tasks_by_ref_id. */
  method GroupTasksByRefId(buildTasks: seq<BuildTaskRow>) returns (tasksByRef: Dict<nat, Group>)
    ensures tasksByRef == Grouped(buildTasks)
  {
    tasksByRef := [];
    for i := 0 to |buildTasks|
      invariant tasksByRef == Grouped(buildTasks[..i])
    {
      assert buildTasks[..i + 1][..i] == buildTasks[..i];
      var task := buildTasks[i];
      tasksByRef := AppendTo(tasksByRef, task.refId, (task.id, task.status == Completed));
    }
    assert buildTasks[..|buildTasks|] == buildTasks;
  }

  predicate AnyCompleted(g: Group) {
    exists k :: 0 <= k < |g| && g[k].1
  }

  /** `failed_build_tasks`: the first task id of every group none of whose tasks completed. */
  function FailedHeads(groups: Dict<nat, Group>): (r: seq<nat>)
    requires forall k :: 0 <= k < |groups| ==> |groups[k].1| > 0
    ensures forall x :: x in r <==> exists k :: 0 <= k < |groups| && !AnyCompleted(groups[k].1) && groups[k].1[0].0 == x
    decreases |groups|
  {
    if groups == [] then []
    else
      var init := groups[..|groups| - 1];
      var g := groups[|groups| - 1].1;
      assert forall k :: 0 <= k < |init| ==> init[k] == groups[k];
      if AnyCompleted(g) then FailedHeads(init) else FailedHeads(init) + [g[0].0]
  }

  /** The groups of Grouped are never empty. */
  lemma {:induction false} GroupsNonEmpty(tasks: seq<BuildTaskRow>)
    ensures GroupsNonEmptyOf(Grouped(tasks))
  {
    var d := Grouped(tasks);
    forall k | 0 <= k < |d| ensures |d[k].1| > 0 {
      GetAt(d, k);
      GroupedSpec(tasks, d[k].0);
    }
  }

  /** Task `i` is the first of its ref group. */
  predicate FirstOfRef(tasks: seq<BuildTaskRow>, i: nat)
    requires i < |tasks|
  {
    forall j :: 0 <= j < i ==> tasks[j].refId != tasks[i].refId
  }

  /** No task of ref group `ref` completed. */
  predicate RefFailed(tasks: seq<BuildTaskRow>, ref: nat) {
    forall j :: 0 <= j < |tasks| && tasks[j].refId == ref ==> tasks[j].status != Completed
  }

  /** The first pair of a group is that of the group's first task. */
  lemma {:induction false} PairsOfHead(tasks: seq<BuildTaskRow>, i: nat)
    requires i < |tasks| && FirstOfRef(tasks, i)
    ensures var g := PairsOf(tasks, tasks[i].refId); |g| > 0 && g[0] == Pair(tasks[i])
    decreases |tasks|
  {
    var init := tasks[..|tasks| - 1];
    if i < |init| {
      assert forall j :: 0 <= j <= i ==> init[j] == tasks[j];
      PairsOfHead(init, i);
    } else {
      assert forall j :: 0 <= j < |init| ==> init[j] == tasks[j];
    }
  }

  /** Index of the first task with ref `ref`. */
  function FirstWithRef(tasks: seq<BuildTaskRow>, ref: nat): (r: nat)
    requires exists t :: t in tasks && t.refId == ref
    ensures r < |tasks| && tasks[r].refId == ref && FirstOfRef(tasks, r)
    decreases |tasks|
  {
    if tasks[0].refId == ref then 0
    else
      assert exists t :: t in tasks[1..] && t.refId == ref by {
        var t :| t in tasks && t.refId == ref;
        var j :| 0 <= j < |tasks| && tasks[j] == t;
        assert tasks[1..][j - 1] == t;
      }
      var r := FirstWithRef(tasks[1..], ref);
      assert forall j :: 1 <= j <= r + 1 ==> tasks[j] == tasks[1..][j - 1];
      r + 1
  }

  /** Some task of a ref group completed exactly when its pairs say so. */
  lemma {:induction false} AnyCompletedPairs(tasks: seq<BuildTaskRow>, ref: nat)
    ensures AnyCompleted(PairsOf(tasks, ref)) <==> !RefFailed(tasks, ref)
  {
    var g := PairsOf(tasks, ref);
    if AnyCompleted(g) {
      var k :| 0 <= k < |g| && g[k].1;
      assert g[k] in g;
      var t :| t in tasks && t.refId == ref && Pair(t) == g[k];
      var j :| 0 <= j < |tasks| && tasks[j] == t;
    }
    if !RefFailed(tasks, ref) {
      var j :| 0 <= j < |tasks| && tasks[j].refId == ref && tasks[j].status == Completed;
      assert Pair(tasks[j]) in g;
      var k :| 0 <= k < |g| && g[k] == Pair(tasks[j]);
    }
  }

  /** A head of a failed group is the first task of a ref whose tasks all failed to complete. */
  lemma {:induction false} FailedHeadIsFirstOfFailedRef(tasks: seq<BuildTaskRow>, x: nat) returns (i: nat)
    requires GroupsNonEmptyOf(Grouped(tasks)) && x in FailedHeads(Grouped(tasks))
    ensures i < |tasks| && tasks[i].id == x && FirstOfRef(tasks, i) && RefFailed(tasks, tasks[i].refId)
  {
    var d := Grouped(tasks);
    var k :| 0 <= k < |d| && !AnyCompleted(d[k].1) && d[k].1[0].0 == x;
    var ref := d[k].0;
    GetAt(d, k);
    GroupedSpec(tasks, ref);
    var g := PairsOf(tasks, ref);
    assert g[0] in g;
    i := FirstWithRef(tasks, ref);
    PairsOfHead(tasks, i);
    AnyCompletedPairs(tasks, ref);
  }

  /** The first task of a ref whose tasks all failed to complete heads a failed group. */
  lemma {:induction false} FirstOfFailedRefIsHead(tasks: seq<BuildTaskRow>, i: nat)
    requires GroupsNonEmptyOf(Grouped(tasks))
    requires i < |tasks| && FirstOfRef(tasks, i) && RefFailed(tasks, tasks[i].refId)
    ensures tasks[i].id in FailedHeads(Grouped(tasks))
  {
    var d := Grouped(tasks);
    var ref := tasks[i].refId;
    GroupedSpec(tasks, ref);
    PairsOfHead(tasks, i);
    AnyCompletedPairs(tasks, ref);
    var k := IndexOf(d, ref).value;
    assert d[k].1 == PairsOf(tasks, ref);
  }

  predicate GroupsNonEmptyOf(groups: Dict<nat, Group>) {
    forall k :: 0 <= k < |groups| ==> |groups[k].1| > 0
  }

  /** A build_task_artifacts row, as the blacklist query reads it. */
  datatype ArtifactRow = ArtifactRow(buildTaskId: nat, name: string, kind: string, href: string)

  /** The query's filter: an rpm whose name matches `%src.rpm`, of one of the given tasks. */
  predicate BlacklistedRow(a: ArtifactRow, taskIds: seq<nat>) {
    a.kind == "rpm" && EndsWith(a.name, "src.rpm") && a.buildTaskId in taskIds
  }

  function BlacklistOf(rows: seq<ArtifactRow>, taskIds: seq<nat>): (r: seq<string>)
    ensures forall h :: h in r <==> exists a :: a in rows && BlacklistedRow(a, taskIds) && a.href == h
    decreases |rows|
  {
    if rows == [] then []
    else
      var init := rows[..|rows| - 1];
      var a := rows[|rows| - 1];
      assert rows == init + [a];
      if BlacklistedRow(a, taskIds) then BlacklistOf(init, taskIds) + [a.href] else BlacklistOf(init, taskIds)
  }

  /** What get_packages_to_blacklist returns for the build's tasks and the artifact table `rows`. */
  function Blacklist(tasks: seq<BuildTaskRow>, rows: seq<ArtifactRow>): seq<string> {
    GroupsNonEmpty(tasks);
    BlacklistOf(rows, FailedHeads(Grouped(tasks)))
  }

  /** get_packages_to_blacklist. */
  method GetPackagesToBlacklist(buildTasks: seq<BuildTaskRow>, rows: seq<ArtifactRow>) returns (pkgsBlacklist: seq<string>)
    ensures pkgsBlacklist == Blacklist(buildTasks, rows)
  {
    var tasksByRef := GroupTasksByRefId(buildTasks);
    GroupsNonEmpty(buildTasks);
    var failedBuildTasks := FailedHeads(tasksByRef);
    pkgsBlacklist := BlacklistOf(rows, failedBuildTasks);
  }

  /**
   * The blacklist holds exactly the hrefs of the src.rpm artifacts of the
   * first task of each ref group none of whose tasks completed; src.rpms of
   * the group's other tasks are not on it.
   */
  lemma {:induction false} BlacklistSpec(tasks: seq<BuildTaskRow>, rows: seq<ArtifactRow>, h: string)
    ensures h in Blacklist(tasks, rows) <==>
      exists a, i :: a in rows && a.href == h && a.kind == "rpm" && EndsWith(a.name, "src.rpm")
        && 0 <= i < |tasks| && a.buildTaskId == tasks[i].id && FirstOfRef(tasks, i) && RefFailed(tasks, tasks[i].refId)
  {
    GroupsNonEmpty(tasks);
    var heads := FailedHeads(Grouped(tasks));
    if h in Blacklist(tasks, rows) {
      var a :| a in rows && BlacklistedRow(a, heads) && a.href == h;
      var i := FailedHeadIsFirstOfFailedRef(tasks, a.buildTaskId);
    }
    if exists a, i :: a in rows && a.href == h && a.kind == "rpm" && EndsWith(a.name, "src.rpm")
        && 0 <= i < |tasks| && a.buildTaskId == tasks[i].id && FirstOfRef(tasks, i) && RefFailed(tasks, tasks[i].refId) {
      var a, i :| a in rows && a.href == h && a.kind == "rpm" && EndsWith(a.name, "src.rpm")
        && 0 <= i < |tasks| && a.buildTaskId == tasks[i].id && FirstOfRef(tasks, i) && RefFailed(tasks, tasks[i].refId);
      FirstOfFailedRefIsHead(tasks, i);
      assert BlacklistedRow(a, heads);
    }
  }

  // ---------------------------------------------------------------------------
  // _perform_product_modification
  // ---------------------------------------------------------------------------

  /** The Pulp calls the synchroniser makes, in order. An omitted `add` or `remove` is written `[]`. */
  datatype PulpCall =
    | ModifyRepository(repoTo: string, add: seq<string>, remove: seq<string>)
    | CreateRpmPublication(repoHref: string)

  /** How the modification ends. */
  datatype Completion =
    | MissingPlatform(repoName: string)   // a backfill lookup raised KeyError
    | NotInProduct                        // `product.builds.remove` raised ValueError
    | Committed
    | RolledBack                          // the commit failed and the session was rolled back

  /** One modify_repository call per entry, add side or remove side. */
  function ModifyCalls(changes: Dict<string, seq<string>>, modification: string): (r: seq<PulpCall>)
    ensures |r| == |changes|
    ensures forall i :: 0 <= i < |changes| ==> r[i].ModifyRepository? && r[i].repoTo == changes[i].0
    ensures forall i :: 0 <= i < |changes| ==>
      if modification == "add" then r[i].add == changes[i].1 && r[i].remove == []
      else r[i].add == [] && r[i].remove == changes[i].1
  {
    seq(|changes|, i requires 0 <= i < |changes| =>
      if modification == "add" then ModifyRepository(changes[i].0, changes[i].1, [])
      else ModifyRepository(changes[i].0, [], changes[i].1))
  }

  /** One create_rpm_publication call per entry. */
  function PublishCalls(changes: Dict<string, seq<string>>): (r: seq<PulpCall>)
    ensures |r| == |changes|
    ensures forall i :: 0 <= i < |changes| ==> r[i] == CreateRpmPublication(changes[i].0)
  {
    seq(|changes|, i requires 0 <= i < |changes| => CreateRpmPublication(changes[i].0))
  }

  /** The loop over `modify.items()` collecting the two batches. */
  method CollectPulpCalls(changes: Dict<string, seq<string>>, modification: string)
    returns (tasks: seq<PulpCall>, publishTasks: seq<PulpCall>)
    ensures tasks == ModifyCalls(changes, modification) && publishTasks == PublishCalls(changes)
  {
    tasks, publishTasks := [], [];
    for i := 0 to |changes|
      invariant tasks == ModifyCalls(changes[..i], modification) && publishTasks == PublishCalls(changes[..i])
    {
      var (key, value) := changes[i];
      if modification == "add" {
        tasks := tasks + [ModifyRepository(key, value, [])];
      } else {
        tasks := tasks + [ModifyRepository(key, [], value)];
      }
      publishTasks := publishTasks + [CreateRpmPublication(key)];
    }
  }

  /**
   * The calls made, batch after batch: every repository is modified before
   * any is published, each key of the modify dict is modified and published
   * exactly once, and nothing else is touched.
   */
  lemma {:induction false} PulpCallOrder(changes: Dict<string, seq<string>>, modification: string)
    requires KeysUnique(changes)
    ensures var calls := ModifyCalls(changes, modification) + PublishCalls(changes);
      && (forall i, j :: 0 <= i < j < |calls| && calls[i].CreateRpmPublication? ==> calls[j].CreateRpmPublication?)
      && (forall k :: HasKey(changes, k) <==> ModifyTarget(calls, k))
      && (forall k :: HasKey(changes, k) <==> PublishTarget(calls, k))
      && (forall i, j :: 0 <= i < j < |calls| && calls[i].ModifyRepository? && calls[j].ModifyRepository? ==>
            calls[i].repoTo != calls[j].repoTo)
      && (forall i, j :: 0 <= i < j < |calls| && calls[i].CreateRpmPublication? && calls[j].CreateRpmPublication? ==>
            calls[i].repoHref != calls[j].repoHref)
  {
    var mods := ModifyCalls(changes, modification);
    var pubs := PublishCalls(changes);
    var calls := mods + pubs;
    assert forall i :: 0 <= i < |calls| ==> calls[i] == if i < |mods| then mods[i] else pubs[i - |mods|];
    forall k ensures HasKey(changes, k) <==> ModifyTarget(calls, k) {
      if HasKey(changes, k) {
        var i := IndexOf(changes, k).value;
        assert calls[i].ModifyRepository? && calls[i].repoTo == k;
      }
    }
    forall k ensures HasKey(changes, k) <==> PublishTarget(calls, k) {
      if HasKey(changes, k) {
        var i := IndexOf(changes, k).value;
        assert calls[|mods| + i] == CreateRpmPublication(k);
      }
      if PublishTarget(calls, k) {
        var i :| 0 <= i < |calls| && calls[i] == CreateRpmPublication(k);
        assert changes[i - |mods|].0 == k;
      }
    }
  }

  predicate ModifyTarget(calls: seq<PulpCall>, k: string) {
    exists i :: 0 <= i < |calls| && calls[i].ModifyRepository? && calls[i].repoTo == k
  }

  predicate PublishTarget(calls: seq<PulpCall>, k: string) {
    exists i :: 0 <= i < |calls| && calls[i] == CreateRpmPublication(k)
  }

  /** Index of the first occurrence of `x` in `s`. */
  function FirstIndex(s: seq<nat>, x: nat): (i: nat)
    requires x in s
    ensures i < |s| && s[i] == x && x !in s[..i]
  {
    if s[0] == x then 0
    else
      var j := FirstIndex(s[1..], x);
      assert s[..j + 1] == [s[0]] + s[1..][..j];
      j + 1
  }

  /** Python `list.remove(x)`: the first occurrence goes and the rest keep their order. */
  function RemoveFirst(s: seq<nat>, x: nat): (r: seq<nat>)
    requires x in s
    ensures |r| == |s| - 1
    ensures multiset(r) == multiset(s) - multiset{x}
    ensures var i := FirstIndex(s, x); r[..i] == s[..i] && r[i..] == s[i + 1..]
  {
    var i := FirstIndex(s, x);
    assert s == s[..i] + [x] + s[i + 1..];
    s[..i] + s[i + 1..]
  }

  /**
   * The two backfills, product first: a lookup failure in either ends the
   * run; on success every product repository and every rpm build repository
   * has a platform.
   */
  method BackfillPlatforms(product: Product, build: Build) returns (r: Result<(), string>)
    requires forall i, j :: 0 <= i < j < |product.repositories| ==> product.repositories[i] != product.repositories[j]
    requires forall i, j :: 0 <= i < j < |build.repos| ==> build.repos[i] != build.repos[j]
    requires forall x :: x in product.repositories ==> x !in build.repos
    modifies set x | x in product.repositories, set x | x in build.repos
    ensures PlatformsBackfilled(product, build, old(Platforms(product.repositories)), Platforms(product.repositories),
                                old(Platforms(build.repos)), Platforms(build.repos), r)
    ensures r.Success? ==> RpmHavePlatforms(build.repos) && AllHavePlatforms(product.repositories)
  {
    ghost var P, B := product.repositories, build.repos;
    ghost var pBefore, bBefore := Platforms(P), Platforms(B);
    r := SetPlatformForProductsRepos(product, B);
    ghost var pMid, rProduct := Platforms(P), r;
    assert Platforms(B) == bBefore;
    if r.Success? {
      assert AllSome(pMid);
      r := SetPlatformForBuildRepos(build, P);
      assert Platforms(P) == pMid;
    }
    ComposeSteps(product, build, pBefore, pMid, bBefore, Platforms(B), rProduct, r);
  }

  /** The product step followed, when it succeeds, by the build step. */
  lemma ComposeSteps(product: Product, build: Build, pBefore: seq<Option<Platform>>, pAfter: seq<Option<Platform>>,
                     bBefore: seq<Option<Platform>>, bAfter: seq<Option<Platform>>, rProduct: Result<(), string>, r: Result<(), string>)
    requires Stepped(product.repositories, ProductIndex(product), false, pBefore, pAfter, rProduct)
    requires rProduct.Failure? ==> r == rProduct && bAfter == bBefore
    requires rProduct.Success? ==> Stepped(build.repos, BuildIndex(build), true, bBefore, bAfter, r)
    ensures PlatformsBackfilled(product, build, pBefore, pAfter, bBefore, bAfter, r)
  {
    ProductStepOutcome(product, pBefore, pAfter, rProduct);
  }

  /** The product step fails exactly when ProductBackfillFails says so. */
  lemma ProductStepOutcome(product: Product, before: seq<Option<Platform>>, after: seq<Option<Platform>>, r: Result<(), string>)
    requires Stepped(product.repositories, ProductIndex(product), false, before, after, r)
    ensures r.Failure? <==> ProductBackfillFails(product, before)
  {
  }

  /** The product step's lookup raises: some repository needs a platform and one name is missing. */
  predicate ProductBackfillFails(product: Product, before: seq<Option<Platform>>) {
    !AllSome(before) && FirstMissing(product.repositories, ProductIndex(product), false) < |product.repositories|
  }

  /**
   * The product step and then the build step of the platform backfill, from
   * the platforms `pBefore`/`bBefore` to `pAfter`/`bAfter`. When the product
   * step raises, its error is the outcome and the build repositories are
   * untouched; otherwise the build step decides the outcome.
   */
  predicate PlatformsBackfilled(product: Product, build: Build, pBefore: seq<Option<Platform>>, pAfter: seq<Option<Platform>>,
                                bBefore: seq<Option<Platform>>, bAfter: seq<Option<Platform>>, r: Result<(), string>)
  {
    if ProductBackfillFails(product, pBefore) then
      Stepped(product.repositories, ProductIndex(product), false, pBefore, pAfter, r) && bAfter == bBefore
    else
      && Stepped(product.repositories, ProductIndex(product), false, pBefore, pAfter, Success(()))
      && Stepped(build.repos, BuildIndex(build), true, bBefore, bAfter, r)
  }

  /**
   * Recording the build in `product.builds` (or removing it) and committing:
   * the list the product ends with. A failed commit rolls the session back
   * to the list it started with.
   */
  method UpdateBuilds(builds: seq<nat>, buildId: nat, modification: string, commitOk: bool)
    returns (newBuilds: seq<nat>, outcome: Completion)
    ensures outcome == NotInProduct <==> modification != "add" && buildId !in builds
    ensures outcome == RolledBack <==> !commitOk && outcome != NotInProduct
    ensures outcome == NotInProduct || outcome == Committed || outcome == RolledBack
    ensures outcome != Committed ==> newBuilds == builds
    ensures outcome == Committed ==>
      newBuilds == if modification == "add" then builds + [buildId] else RemoveFirst(builds, buildId)
  {
    newBuilds := builds;
    if modification == "add" {
      newBuilds := newBuilds + [buildId];
    } else {
      if buildId !in newBuilds {
        return builds, NotInProduct;
      }
      newBuilds := RemoveFirst(newBuilds, buildId);
    }
    if commitOk {
      outcome := Committed;
    } else {
      newBuilds := builds;
      outcome := RolledBack;
    }
  }

  /**
   * _perform_product_modification for build `build` and product `product`.
   * `listing` gives each Pulp repository's packages, `rows` the artifact table
   * the blacklist query reads, and `commitOk` whether the final commit
   * succeeds. Returns the Pulp calls made, in order, and how the run ended.
   * The new `product.builds` is written before the Pulp calls are listed:
   * neither reads what the other writes, so the calls and the final state
   * are those of the source's order.
   */
  method PerformProductModification(product: Product, build: Build, modification: string,
                                    listing: string -> seq<PulpPackage>, rows: seq<ArtifactRow>, commitOk: bool)
    returns (calls: seq<PulpCall>, outcome: Completion)
    requires forall i, j :: 0 <= i < j < |product.repositories| ==> product.repositories[i] != product.repositories[j]
    requires forall i, j :: 0 <= i < j < |build.repos| ==> build.repos[i] != build.repos[j]
    requires forall x :: x in product.repositories ==> x !in build.repos
    modifies product, set x | x in product.repositories, set x | x in build.repos
    ensures PlatformsBackfilled(product, build, old(Platforms(product.repositories)), Platforms(product.repositories),
                                old(Platforms(build.repos)), Platforms(build.repos),
                                if outcome.MissingPlatform? then Failure(outcome.repoName) else Success(()))
    ensures outcome.MissingPlatform? ==> calls == [] && product.builds == old(product.builds)
    ensures !outcome.MissingPlatform? ==> RpmHavePlatforms(build.repos) && AllHavePlatforms(product.repositories)
    ensures !outcome.MissingPlatform? ==>
      calls == PlannedCalls(build, product, listing, modification, if modification == "add" then Blacklist(build.tasks, rows) else [])
    ensures outcome == NotInProduct <==> !outcome.MissingPlatform? && modification != "add" && build.id !in old(product.builds)
    ensures outcome == RolledBack <==> !outcome.MissingPlatform? && !commitOk && outcome != NotInProduct
    ensures outcome != Committed ==> product.builds == old(product.builds)
    ensures outcome == Committed ==>
      product.builds == if modification == "add" then old(product.builds) + [build.id] else RemoveFirst(old(product.builds), build.id)
  {
    var pkgsBlacklist := [];
    if modification == "add" {
      pkgsBlacklist := GetPackagesToBlacklist(build.tasks, rows);
    }
    var backfill := BackfillPlatforms(product, build);
    if backfill.Failure? {
      return [], MissingPlatform(backfill.error);
    }
    calls, outcome := ModifyAndRecord(product, build, modification, listing, pkgsBlacklist, commitOk);
  }

  /** The part after the backfill: the build recorded in the product, and the Pulp calls. */
  method ModifyAndRecord(product: Product, build: Build, modification: string, listing: string -> seq<PulpPackage>,
                         blacklist: seq<string>, commitOk: bool)
    returns (calls: seq<PulpCall>, outcome: Completion)
    requires RpmHavePlatforms(build.repos) && AllHavePlatforms(product.repositories)
    modifies product
    ensures RpmHavePlatforms(build.repos) && AllHavePlatforms(product.repositories)
    ensures Platforms(build.repos) == old(Platforms(build.repos))
    ensures Platforms(product.repositories) == old(Platforms(product.repositories))
    ensures calls == PlannedCalls(build, product, listing, modification, blacklist)
    ensures outcome == NotInProduct <==> modification != "add" && build.id !in old(product.builds)
    ensures outcome == RolledBack <==> !commitOk && outcome != NotInProduct
    ensures outcome == NotInProduct || outcome == Committed || outcome == RolledBack
    ensures outcome != Committed ==> product.builds == old(product.builds)
    ensures outcome == Committed ==>
      product.builds == if modification == "add" then old(product.builds) + [build.id] else RemoveFirst(old(product.builds), build.id)
  {
    var builds;
    builds, outcome := UpdateBuilds(product.builds, build.id, modification, commitOk);
    RecordBuilds(product, build, builds);
    calls := IssuePulpCalls(build, product, listing, modification, blacklist);
  }

  /** `product.builds` takes its new value; no repository changes. */
  method RecordBuilds(product: Product, build: Build, builds: seq<nat>)
    requires RpmHavePlatforms(build.repos) && AllHavePlatforms(product.repositories)
    modifies product
    ensures product.builds == builds
    ensures RpmHavePlatforms(build.repos) && AllHavePlatforms(product.repositories)
    ensures Platforms(build.repos) == old(Platforms(build.repos))
    ensures Platforms(product.repositories) == old(Platforms(product.repositories))
  {
    product.builds := builds;
  }

  /** The modify dict, then one modify call per entry and one publication per entry. */
  method IssuePulpCalls(build: Build, product: Product, listing: string -> seq<PulpPackage>,
                        modification: string, blacklist: seq<string>) returns (calls: seq<PulpCall>)
    requires RpmHavePlatforms(build.repos) && AllHavePlatforms(product.repositories)
    ensures calls == PlannedCalls(build, product, listing, modification, blacklist)
  {
    var changes := PrepareRepoModifyDict(build, product, listing, modification, blacklist);
    var tasks, publishTasks := CollectPulpCalls(changes, modification);
    calls := tasks + publishTasks;
  }

  /** The modify calls, then the publications, for the modify dict of the current state. */
  function PlannedCalls(build: Build, product: Product, listing: string -> seq<PulpPackage>,
                        modification: string, blacklist: seq<string>): (r: seq<PulpCall>)
    requires RpmHavePlatforms(build.repos) && AllHavePlatforms(product.repositories)
    reads build.repos, product.repositories
  {
    var changes := ModifyDict(build.repos, product.repositories, build.tasks, listing, modification, blacklist);
    ModifyCalls(changes, modification) + PublishCalls(changes)
  }
}
