/**
 * Module build requests (alws/schemas/build_schema.py): the helpers of
 * BuildTaskRef and BuildTaskModuleRef, and the choice of a git branch, an
 * `exist`/`enabled` verdict and the reused upstream packages for every
 * component of a module.
 */
module BuildSchema {
  import opened Wrappers
  import opened Text
  import opened Seqs

  // ---------------------------------------------------------------------------
  // BuildTaskRef helpers
  // ---------------------------------------------------------------------------

  /** Index of the first character of `s` in `cs`, or |s| when there is none. */
  function IndexOfAny(s: string, cs: set<char>): (r: nat)
    ensures r <= |s|
    ensures forall j :: 0 <= j < r ==> s[j] !in cs
    ensures r < |s| ==> s[r] in cs
  {
    if s == [] || s[0] in cs then 0
    else
      var r := IndexOfAny(s[1..], cs);
      assert forall j :: 1 <= j < r + 1 ==> s[j] == s[1..][j - 1];
      r + 1
  }

  predicate NoneOf(s: string, cs: set<char>) {
    forall k :: 0 <= k < |s| ==> s[k] !in cs
  }

  /**
   * The path of an absolute `scheme://netloc/path?query#fragment` URL, as
   * `urllib.parse.urlparse` splits it.
   */
  function UrlPath(url: string): (r: string)
    ensures forall k :: 0 <= k < |r| ==> r[k] != '?' && r[k] != '#'
  {
    var rest := match FindFirst(url, "://") case Some(i) => url[i + 3..] case None => url;
    var tail := rest[IndexOfAny(rest, {'/', '?', '#'})..];
    tail[..IndexOfAny(tail, {'?', '#'})]
  }

  /** The last `/`-separated segment of the URL path, without `;params`. */
  function LastSegment(url: string): (r: string)
    ensures NoneOf(r, {'/', '?', '#', ';'})
  {
    var path := UrlPath(url);
    var s := LastPiece(path, "/");
    LastPieceChars(path);
    s[..IndexOfAny(s, {';'})]
  }

  /** The last piece of a `?`- and `#`-free path holds none of `/`, `?`, `#`. */
  lemma LastPieceChars(path: string)
    requires forall k :: 0 <= k < |path| ==> path[k] != '?' && path[k] != '#'
    ensures NoneOf(LastPiece(path, "/"), {'/', '?', '#'})
  {
    var s := LastPiece(path, "/");
    assert EndsWith(path, s) && forall j: nat :: !OccursAt(s, "/", j) by { LastPieceSpec(path, "/"); }
    var start := |path| - |s|;
    assert s == path[start..];
    forall k | 0 <= k < |s| ensures s[k] != '/' && s[k] != '?' && s[k] != '#' {
      OccursAtChar(s, '/', k);
      assert s[k] == path[start + k];
    }
  }

  /** BuildTaskRef.git_repo_name: the last path segment with every `.git` removed. */
  function GitRepoName(url: string): (r: string)
    ensures NoneOf(r, {'/', '?', '#', ';'})
    ensures (forall j: nat :: !OccursAt(LastSegment(url), ".git", j)) ==> r == LastSegment(url)
  {
    var seg := LastSegment(url);
    var r := RemoveAll(seg, ".git");
    assert forall k :: 0 <= k < |r| ==> r[k] in seg by {
      forall k | 0 <= k < |r| ensures r[k] in seg {
        assert r[k] in r;
      }
    }
    r
  }

  /**
   * Removing every `.git` from `name + ".git"` gives back `name` when `.git`
   * does not occur in `name`: `.git` has no proper prefix that is also a
   * suffix, so no occurrence can straddle the join.
   */
  lemma RemoveGitSuffix(name: string)
    requires forall j: nat :: !OccursAt(name, ".git", j)
    ensures RemoveAll(name + ".git", ".git") == name
  {
    var s := name + ".git";
    assert OccursAt(s, ".git", |name|) by {
      assert s[|name|..] == ".git";
      assert s[|name|..|name| + 4] == s[|name|..][..4];
    }
    forall j | 0 <= j < |name| ensures !OccursAt(s, ".git", j) {
      if j + 4 <= |name| {
        assert s[j..j + 4] == name[j..j + 4];
        assert !OccursAt(name, ".git", j);
      } else {
        assert s[|name|] == '.';
        assert s[j..j + 4][|name| - j] == s[|name|];
      }
    }
    FindFirstIs(s, ".git", |name|);
    RemoveAllAtFirst(s, ".git");
    assert s[..|name|] == name;
    assert s[|name| + 4..] == [];
  }

  lemma FindSchemeSeparator(scheme: string, rest: string)
    requires NoneOf(scheme, {':'})
    ensures FindFirst(scheme + "://" + rest, "://") == Some(|scheme|)
  {
    var url := scheme + "://" + rest;
    assert url[|scheme|..|scheme| + 3] == "://";
    forall j | 0 <= j < |scheme| ensures !OccursAt(url, "://", j) {
      assert url[j] == scheme[j];
      if j + 3 <= |url| {
        assert url[j..j + 3][0] == url[j];
      }
    }
    FindFirstIs(url, "://", |scheme|);
  }

  lemma LastPieceAfterSlash(dir: string, name: string)
    requires NoneOf(name, {'/'})
    ensures LastPiece(dir + "/" + name, "/") == name
  {
    var s := dir + "/" + name;
    OccursAtChar(s, '/', |dir|);
    var r := LastPiece(s, "/");
    LastPieceSpec(s, "/");
    var p := |s| - |r| - 1;
    OccursAtChar(s, '/', p);
    assert s[|dir| + 1..] == name;
    forall k | |dir| < k < |s| ensures s[k] != '/' {
      assert s[k] == name[k - |dir| - 1];
    }
    assert s[p + 1..] == r;
    forall k | p < k < |s| ensures s[k] != '/' {
      assert s[k] == r[k - p - 1];
      OccursAtChar(r, '/', k - p - 1);
    }
    assert p == |dir|;
  }

  lemma IndexOfAnyIs(s: string, cs: set<char>, i: nat)
    requires i <= |s| && (i == |s| || s[i] in cs)
    requires forall j :: 0 <= j < i ==> s[j] !in cs
    ensures IndexOfAny(s, cs) == i
  {
  }

  /** The path of `scheme://host<path>` is `<path>` when it opens with `/` and queries nothing. */
  lemma UrlPathOfAbsolute(scheme: string, host: string, path: string)
    requires NoneOf(scheme, {':'}) && NoneOf(host, {'/', '?', '#'})
    requires path == [] || path[0] == '/'
    requires NoneOf(path, {'?', '#'})
    ensures UrlPath(scheme + "://" + host + path) == path
  {
    var after := host + path;
    var url := scheme + "://" + after;
    assert scheme + "://" + host + path == url;
    FindSchemeSeparator(scheme, after);
    assert url[|scheme| + 3..] == after;
    assert after[|host|..] == path;
    forall j | 0 <= j < |host| ensures after[j] !in {'/', '?', '#'} {
      assert after[j] == host[j];
    }
    IndexOfAnyIs(after, {'/', '?', '#'}, |host|);
    IndexOfAnyIs(path, {'?', '#'}, |path|);
    assert path[..|path|] == path;
  }

  /**
   * For a repository URL `scheme://host<dir>/<name>.git` (a name in which
   * `.git` does not occur, with no query or fragment), git_repo_name is `<name>`.
   */
  lemma GitRepoNameOfRepoUrl(scheme: string, host: string, dir: string, name: string)
    requires NoneOf(scheme, {':'}) && NoneOf(host, {'/', '?', '#'})
    requires dir == [] || dir[0] == '/'
    requires NoneOf(dir, {'?', '#'})
    requires NoneOf(name, {'/', '?', '#', ';'}) && forall j: nat :: !OccursAt(name, ".git", j)
    ensures GitRepoName(scheme + "://" + host + dir + "/" + name + ".git") == name
  {
    var file := name + ".git";
    var path := dir + "/" + file;
    assert scheme + "://" + host + dir + "/" + name + ".git" == scheme + "://" + host + path;
    assert NoneOf(file, {'/', '?', '#', ';'}) by {
      forall k | 0 <= k < |file| ensures file[k] !in {'/', '?', '#', ';'} {
        if k < |name| { assert file[k] == name[k]; }
      }
    }
    assert NoneOf(path, {'?', '#'}) by {
      forall k | 0 <= k < |path| ensures path[k] !in {'?', '#'} {
        if k < |dir| { assert path[k] == dir[k]; }
        else if k > |dir| { assert path[k] == file[k - |dir| - 1]; }
      }
    }
    UrlPathOfAbsolute(scheme, host, path);
    LastPieceAfterSlash(dir, file);
    IndexOfAnyIs(file, {';'}, |file|);
    assert file[..|file|] == file;
    RemoveGitSuffix(name);
  }

  /** BuildTaskRef.module_stream_from_ref. */
  function ModuleStreamFromRef(gitRef: string): (r: string)
    ensures !Contains(gitRef, "stream-") ==> r == gitRef
    ensures Contains(gitRef, "stream-") ==>
      |r| + 7 <= |gitRef| && gitRef[|gitRef| - |r| - 7..] == "stream-" + r
    ensures forall j: nat :: !OccursAt(r, "stream-", j)
  {
    if Contains(gitRef, "stream-") then
      var r := LastPiece(gitRef, "stream-");
      LastPieceSpec(gitRef, "stream-");
      assert gitRef[|gitRef| - |r| - 7..] == gitRef[|gitRef| - |r| - 7..|gitRef| - |r|] + gitRef[|gitRef| - |r|..];
      r
    else gitRef
  }

  /** Two occurrences of `stream-` never overlap: its `s` appears nowhere else in it. */
  lemma StreamOccurrencesApart(s: string, q: nat, p: nat)
    requires OccursAt(s, "stream-", q) && OccursAt(s, "stream-", p)
    ensures p <= q || p >= q + 7
  {
    OccursAtChars(s, "stream-", q);
    OccursAtChars(s, "stream-", p);
    var d := if q < p < q + 7 then p - q else 0;
    assert s[q + d] == "stream-"[d];
    assert s[p + 0] == "stream-"[0];
  }

  /**
   * When the ref contains `stream-`, the stream is what follows its last
   * occurrence: no occurrence starts after the one it cut at.
   */
  lemma StreamFollowsLastOccurrence(gitRef: string)
    requires Contains(gitRef, "stream-")
    ensures var r := ModuleStreamFromRef(gitRef);
      forall p: nat :: OccursAt(gitRef, "stream-", p) ==> p <= |gitRef| - |r| - 7
  {
    var r := ModuleStreamFromRef(gitRef);
    var q := |gitRef| - |r| - 7;
    assert OccursAt(gitRef, "stream-", q);
    assert r == gitRef[q + 7..];
    forall p: nat | OccursAt(gitRef, "stream-", p)
      ensures p <= q
    {
      StreamOccurrencesApart(gitRef, q, p);
      OccursAtDrop(gitRef, "stream-", q + 7, if p >= q + 7 then p - (q + 7) else 0);
    }
  }

  /** The fields of a submitted ref the validator and the component refs read. */
  datatype BuildTaskRef = BuildTaskRef(url: string, gitRef: string, exist: bool, enabled: bool)

  const EmptyBuildMessage := "refs are empty or doesn`t contain any enabled ref"

  /** BuildTaskModuleRef.refs_validator: EmptyBuildError, or the refs unchanged. */
  function RefsValidator(refs: seq<BuildTaskRef>): (r: Result<seq<BuildTaskRef>, string>)
    ensures r.Failure? <==> (|refs| == 0 || forall i :: 0 <= i < |refs| ==> !refs[i].enabled)
    ensures r.Failure? ==> r.error == EmptyBuildMessage
    ensures r.Success? ==> r.value == refs
  {
    if |refs| == 0 || forall i :: 0 <= i < |refs| ==> !refs[i].enabled then Failure(EmptyBuildMessage)
    else Success(refs)
  }

  /** The "empty_refs" and "only_disabled_refs" payloads are both rejected. */
  lemma FixturePayloadsRejected()
    ensures RefsValidator([]).Failure?
    ensures RefsValidator([
      BuildTaskRef("https://git.almalinux.org/rpms/go-toolset.git", "c8-stream-rhel8", true, false),
      BuildTaskRef("https://git.almalinux.org/rpms/golang.git", "c8-stream-rhel8", true, false),
      BuildTaskRef("https://git.almalinux.org/rpms/delve.git", "c8-stream-rhel8", true, false)]).Failure?
  {
  }

  // ---------------------------------------------------------------------------
  // Upstream (beholder) module data
  // ---------------------------------------------------------------------------

  /** A source rpm record of an upstream artifact; a field is None when its key is missing. */
  datatype Srpm = Srpm(name: Option<string>, version: Option<string>, release: Option<string>)

  /** A package record of an upstream module artifact. */
  datatype Package = Package(name: string, epoch: string, version: string, release: string, arch: string)

  /** An upstream artifact; `packages` is None when the key is missing. */
  datatype BeholderArtifact = BeholderArtifact(sourcerpm: Option<Srpm>, packages: Option<seq<Package>>)

  /** A beholder response body; `artifacts` is None when the key is missing. */
  datatype BeholderResponse = BeholderResponse(artifacts: Option<seq<BeholderArtifact>>)

  /** What get_module_data_from_beholder returns: `{}` or devel, arch and artifacts. */
  datatype ModuleData = NoData | ModuleData(devel: bool, arch: string, artifacts: seq<BeholderArtifact>) {
    function Artifacts(): seq<BeholderArtifact> {
      if NoData? then [] else artifacts
    }
    function Devel(): bool {
      if NoData? then false else devel
    }
  }

  /**
   * get_module_data_from_beholder. `response` is None when the beholder call
   * raised; `beholderEnabled` is the package_beholder_enabled setting.
   */
  function GetModuleDataFromBeholder(beholderEnabled: bool, response: Option<BeholderResponse>, arch: string, devel: bool): (r: ModuleData)
    ensures r.NoData? <==> !beholderEnabled || response.None?
    ensures r.ModuleData? ==> r.devel == devel && r.arch == arch && r.artifacts == response.value.artifacts.GetOr([])
  {
    if !beholderEnabled then NoData
    else match response
      case None => NoData
      case Some(body) => ModuleData(devel, arch, body.artifacts.GetOr([]))
  }

  /** A package to reuse, tagged with the devel flag of the entry it came from. */
  datatype Reused = Reused(pkg: Package, devel: bool)

  /** The artifact's sourcerpm is present and its `name`, `''` when missing, is `component`. */
  predicate SrpmNamed(a: BeholderArtifact, component: string) {
    a.sourcerpm.Some? && a.sourcerpm.value.name.GetOr("") == component
  }

  /** Index of the first artifact built from the source rpm `component`. */
  function MatchingArtifact(arts: seq<BeholderArtifact>, component: string): (r: Option<nat>)
    ensures r.Some? ==> r.value < |arts| && SrpmNamed(arts[r.value], component)
    ensures r.Some? ==> forall j :: 0 <= j < r.value ==> !SrpmNamed(arts[j], component)
    ensures r.None? ==> forall j :: 0 <= j < |arts| ==> !SrpmNamed(arts[j], component)
  {
    if |arts| == 0 then None
    else if SrpmNamed(arts[0], component) then Some(0)
    else
      var r := MatchingArtifact(arts[1..], component);
      assert forall j :: 1 <= j < |arts| ==> arts[j] == arts[1..][j - 1];
      if r.None? then None else Some(r.value + 1)
  }

  /** The `name-version-release` tag of a source rpm; None when a key is missing (a KeyError). */
  function TagOf(s: Srpm): Option<string> {
    if s.name.Some? && s.version.Some? && s.release.Some? then
      Some(s.name.value + "-" + s.version.value + "-" + s.release.value)
    else None
  }

  function Tagged(pkgs: seq<Package>, devel: bool): (r: seq<Reused>)
    ensures |r| == |pkgs| && forall k :: 0 <= k < |r| ==> r[k] == Reused(pkgs[k], devel)
  {
    seq(|pkgs|, k requires 0 <= k < |pkgs| => Reused(pkgs[k], devel))
  }

  /**
   * What one beholder entry contributes; None when its matching artifact
   * lacks a sourcerpm key or, with an agreeing tag, its `packages`.
   */
  function FromEntry(component: string, d: ModuleData, tagName: string, cleanRelease: string -> string): (r: Option<seq<Reused>>)
    ensures var m := MatchingArtifact(d.Artifacts(), component);
      r.None? <==> m.Some? && (var a := d.Artifacts()[m.value];
        TagOf(a.sourcerpm.value).None? || (cleanRelease(TagOf(a.sourcerpm.value).value) == tagName && a.packages.None?))
    ensures var m := MatchingArtifact(d.Artifacts(), component);
      r.Some? && |r.value| > 0 ==> m.Some? && (var a := d.Artifacts()[m.value];
        TagOf(a.sourcerpm.value).Some? && cleanRelease(TagOf(a.sourcerpm.value).value) == tagName)
    ensures r.Some? ==> forall x :: x in r.value ==> x.devel == d.Devel()
  {
    match MatchingArtifact(d.Artifacts(), component)
    case None => Some([])
    case Some(i) =>
      var a := d.Artifacts()[i];
      match TagOf(a.sourcerpm.value)
      case None => None
      case Some(tag) =>
        if cleanRelease(tag) != tagName then Some([])
        else match a.packages
          case None => None
          case Some(pkgs) => Some(Tagged(pkgs, d.Devel()))
  }

  /** The packages compare_module_data collects, entry by entry; None when it raises. */
  function ReusePackages(component: string, data: seq<ModuleData>, tagName: string, cleanRelease: string -> string): Option<seq<Reused>>
  {
    if |data| == 0 then Some([])
    else match ReusePackages(component, data[..|data| - 1], tagName, cleanRelease)
      case None => None
      case Some(acc) =>
        match FromEntry(component, data[|data| - 1], tagName, cleanRelease)
        case None => None
        case Some(pkgs) => Some(acc + pkgs)
  }

  /** compare_module_data raises exactly when some entry does. */
  lemma {:induction false} ReusePackagesRaises(component: string, data: seq<ModuleData>, tagName: string, cleanRelease: string -> string)
    ensures ReusePackages(component, data, tagName, cleanRelease).None? <==>
      exists i :: 0 <= i < |data| && FromEntry(component, data[i], tagName, cleanRelease).None?
    decreases |data|
  {
    if |data| > 0 {
      var init := data[..|data| - 1];
      ReusePackagesRaises(component, init, tagName, cleanRelease);
      assert forall i :: 0 <= i < |init| ==> init[i] == data[i];
    }
  }

  /**
   * When compare_module_data does not raise, a package is reused exactly when
   * some entry's first artifact with the component's source rpm has a tag
   * that cleans to `tagName` and lists it, and it carries that entry's devel
   * flag.
   */
  lemma {:induction false} ReusePackagesSpec(component: string, data: seq<ModuleData>, tagName: string, cleanRelease: string -> string, x: Reused)
    ensures var r := ReusePackages(component, data, tagName, cleanRelease);
      r.Some? ==> (x in r.value <==>
        exists i :: 0 <= i < |data| && FromEntry(component, data[i], tagName, cleanRelease).Some?
                    && x in FromEntry(component, data[i], tagName, cleanRelease).value)
  {
    var r := ReusePackages(component, data, tagName, cleanRelease);
    if r.Some? && x in r.value {
      var i := ReusedEntry(component, data, tagName, cleanRelease, x);
    }
    if r.Some? && exists i :: 0 <= i < |data| && FromEntry(component, data[i], tagName, cleanRelease).Some?
                    && x in FromEntry(component, data[i], tagName, cleanRelease).value {
      var i :| 0 <= i < |data| && FromEntry(component, data[i], tagName, cleanRelease).Some?
               && x in FromEntry(component, data[i], tagName, cleanRelease).value;
      EntryReused(component, data, tagName, cleanRelease, i, x);
    }
  }

  /** The entry a reused package comes from. */
  lemma {:induction false} ReusedEntry(component: string, data: seq<ModuleData>, tagName: string, cleanRelease: string -> string, x: Reused)
    returns (i: nat)
    requires ReusePackages(component, data, tagName, cleanRelease).Some?
    requires x in ReusePackages(component, data, tagName, cleanRelease).value
    ensures i < |data| && FromEntry(component, data[i], tagName, cleanRelease).Some?
    ensures x in FromEntry(component, data[i], tagName, cleanRelease).value
    decreases |data|
  {
    var init := data[..|data| - 1];
    var acc := ReusePackages(component, init, tagName, cleanRelease);
    if x in acc.value {
      i := ReusedEntry(component, init, tagName, cleanRelease, x);
      assert init[i] == data[i];
    } else {
      i := |data| - 1;
    }
  }

  /** Every package an entry contributes is reused, when compare_module_data does not raise. */
  lemma {:induction false} EntryReused(component: string, data: seq<ModuleData>, tagName: string, cleanRelease: string -> string, i: nat, x: Reused)
    requires ReusePackages(component, data, tagName, cleanRelease).Some?
    requires i < |data| && FromEntry(component, data[i], tagName, cleanRelease).Some?
    requires x in FromEntry(component, data[i], tagName, cleanRelease).value
    ensures x in ReusePackages(component, data, tagName, cleanRelease).value
    decreases |data|
  {
    var init := data[..|data| - 1];
    if i < |init| {
      assert init[i] == data[i];
      EntryReused(component, init, tagName, cleanRelease, i, x);
    }
  }

  /**
   * A matching artifact whose tag agrees contributes its package list, in
   * order, or raises when it has none.
   */
  lemma FromEntryOfMatch(component: string, d: ModuleData, tagName: string, cleanRelease: string -> string)
    requires MatchingArtifact(d.Artifacts(), component).Some?
    requires var a := d.Artifacts()[MatchingArtifact(d.Artifacts(), component).value];
      TagOf(a.sourcerpm.value).Some? && cleanRelease(TagOf(a.sourcerpm.value).value) == tagName
    ensures var a := d.Artifacts()[MatchingArtifact(d.Artifacts(), component).value];
      FromEntry(component, d, tagName, cleanRelease)
        == if a.packages.None? then None else Some(Tagged(a.packages.value, d.Devel()))
  {
  }

  /** The inner loop of compare_module_data: the first artifact built from `component`. */
  method FindMatchingArtifact(arts: seq<BeholderArtifact>, component: string) returns (found: Option<nat>)
    ensures found == MatchingArtifact(arts, component)
  {
    found := None;
    var j := 0;
    while j < |arts|
      invariant 0 <= j <= |arts| && found.None?
      invariant forall k :: 0 <= k < j ==> !SrpmNamed(arts[k], component)
    {
      var srpm := arts[j].sourcerpm;
      if srpm.Some? && srpm.value.name.GetOr("") == component {
        found := Some(j);
        break;
      }
      j := j + 1;
    }
  }

  /** The loop setting each package's devel flag and appending it. */
  method AppendTagged(acc: seq<Reused>, pkgs: seq<Package>, devel: bool) returns (acc': seq<Reused>)
    ensures acc' == acc + Tagged(pkgs, devel)
  {
    acc' := acc;
    for k := 0 to |pkgs|
      invariant acc' == acc + Tagged(pkgs[..k], devel)
    {
      acc' := acc' + [Reused(pkgs[k], devel)];
    }
    assert pkgs[..|pkgs|] == pkgs;
  }

  /**
   * compare_module_data: scan each entry for the first matching artifact,
   * then copy its packages; None for the KeyError of a missing sourcerpm key
   * or `packages`.
   */
  method CompareModuleData(componentName: string, beholderData: seq<ModuleData>, tagName: string, cleanRelease: string -> string)
    returns (pkgsToAdd: Option<seq<Reused>>)
    ensures pkgsToAdd == ReusePackages(componentName, beholderData, tagName, cleanRelease)
  {
    var acc: seq<Reused> := [];
    for i := 0 to |beholderData|
      invariant ReusePackages(componentName, beholderData[..i], tagName, cleanRelease) == Some(acc)
    {
      assert beholderData[..i + 1][..i] == beholderData[..i];
      var entry := beholderData[i];
      var found := FindMatchingArtifact(entry.Artifacts(), componentName);
      if found.None? {
        assert acc + [] == acc;
        continue;
      }
      var artifact := entry.Artifacts()[found.value];
      var srpm := artifact.sourcerpm.value;
      if srpm.name.None? || srpm.version.None? || srpm.release.None? {
        ReusePackagesRaises(componentName, beholderData, tagName, cleanRelease);
        return None;
      }
      var beholderTagName := cleanRelease(srpm.name.value + "-" + srpm.version.value + "-" + srpm.release.value);
      if beholderTagName != tagName {
        assert acc + [] == acc;
        continue;
      }
      if artifact.packages.None? {
        ReusePackagesRaises(componentName, beholderData, tagName, cleanRelease);
        return None;
      }
      acc := AppendTagged(acc, artifact.packages.value, entry.Devel());
    }
    assert beholderData[..|beholderData|] == beholderData;
    pkgsToAdd := Some(acc);
  }

  // ---------------------------------------------------------------------------
  // Component refs
  // ---------------------------------------------------------------------------

  /** platform.modularity['git_tag_prefix']: the branch prefixes. */
  datatype PrefixList = PrefixList(modified: string, nonModified: string)

  /** Outcome of Gitea's get_branch. */
  datatype BranchLookup =
    | Branch(commitId: string)
    | ResponseError(status: int)   // a ClientResponseError with this HTTP status
    | OtherError                   // any other exception, which propagates

  datatype Tag = Tag(name: string, id: string)

  /** The fields of a ModuleRef the decision logic fills in. */
  datatype ModuleRef = ModuleRef(url: string, gitRef: string, exist: bool, addedArtifacts: seq<Package>, enabled: bool)

  function RefPrefix(component: string, modifiedList: seq<string>, prefixes: PrefixList): (r: string)
    ensures r == (if component in modifiedList then prefixes.modified else prefixes.nonModified)
  {
    if component in modifiedList then prefixes.modified else prefixes.nonModified
  }

  function BranchName(component: string, modifiedList: seq<string>, prefixes: PrefixList, stream: string): string {
    RefPrefix(component, modifiedList, prefixes) + "-stream-" + stream
  }

  /** Gitea repository names cannot hold `+`. */
  function GiteaName(component: string): (r: string)
    ensures |r| == |component| && '+' !in r
  {
    ReplaceChar(component, '+', '-')
  }

  /** Tag `i` is on `commitId` and no earlier tag is. */
  predicate FirstTagAt(tags: seq<Tag>, commitId: string, i: int) {
    0 <= i < |tags| && tags[i].id == commitId && forall j :: 0 <= j < i ==> tags[j].id != commitId
  }

  /** The name of the first tag on `commitId` (Python `next(..., None)`). */
  function TagOnCommit(tags: seq<Tag>, commitId: string): (r: Option<string>)
    ensures r.Some? ==> exists i :: FirstTagAt(tags, commitId, i) && tags[i].name == r.value
    ensures r.None? ==> forall i :: 0 <= i < |tags| ==> tags[i].id != commitId
  {
    if |tags| == 0 then None
    else if tags[0].id == commitId then
      assert FirstTagAt(tags, commitId, 0);
      Some(tags[0].name)
    else
      var r := TagOnCommit(tags[1..], commitId);
      assert forall i :: 1 <= i < |tags| ==> tags[i] == tags[1..][i - 1];
      assert r.Some? ==> exists i :: FirstTagAt(tags, commitId, i) && tags[i].name == r.value by {
        if r.Some? {
          var i :| FirstTagAt(tags[1..], commitId, i) && tags[1..][i].name == r.value;
          assert FirstTagAt(tags, commitId, i + 1);
        }
      }
      r
  }

  /** What _get_module_ref decides for one component, before touching the module descriptors. */
  datatype Decision = Decision(exist: bool, commitId: string, enabled: bool, reuse: seq<Reused>)

  /** The head commit a branch lookup yields, `''` when it yields none. */
  function CommitOf(lookup: BranchLookup): string {
    if lookup.Branch? then lookup.commitId else ""
  }

  /**
   * The decision for a branch lookup and a tag lookup (None when list_tags
   * raised); None when _get_module_ref raises before touching a descriptor.
   */
  function Decide(component: string, lookup: BranchLookup, tags: Option<seq<Tag>>, beholderData: seq<ModuleData>,
                  cleanRelease: string -> string): Option<Decision>
  {
    var exist := !(lookup.ResponseError? && lookup.status == 404);
    var commitId := CommitOf(lookup);
    if lookup.OtherError? then None
    else if commitId == "" then Some(Decision(exist, commitId, true, []))
    else match tags
      case None => None
      case Some(ts) =>
        match TagOnCommit(ts, commitId)
        case None => Some(Decision(exist, commitId, true, []))
        case Some(rawTag) =>
          match ReusePackages(component, beholderData, cleanRelease(LastPiece(rawTag, "/")), cleanRelease)
          case None => None
          case Some(reuse) => Some(Decision(exist, commitId, |reuse| == 0, reuse))
  }

  /**
   * The component raises exactly when get_branch raises something other than
   * a ClientResponseError, when list_tags raises after a head commit was
   * found, or when compare_module_data raises for the tag on that commit.
   * Otherwise `exist` is false only for a 404; any response error leaves an
   * empty commit, enabled and no reuse; `enabled` is false exactly when a tag
   * on the head commit was found and packages can be reused.
   */
  lemma DecideSpec(component: string, lookup: BranchLookup, tags: Option<seq<Tag>>, beholderData: seq<ModuleData>,
                   cleanRelease: string -> string)
    ensures var d := Decide(component, lookup, tags, beholderData, cleanRelease);
      var c := CommitOf(lookup);
      d.None? <==>
        || lookup.OtherError?
        || (c != "" && tags.None?)
        || (c != "" && tags.Some? && TagOnCommit(tags.value, c).Some?
            && ReusePackages(component, beholderData, cleanRelease(LastPiece(TagOnCommit(tags.value, c).value, "/")),
                             cleanRelease).None?)
    ensures var d := Decide(component, lookup, tags, beholderData, cleanRelease);
      d.Some? ==>
        && d.value.commitId == CommitOf(lookup)
        && (!d.value.exist <==> lookup == ResponseError(404))
        && (lookup.ResponseError? ==> d.value.commitId == "" && d.value.enabled && d.value.reuse == [])
        && (!d.value.enabled <==> d.value.commitId != "" && tags.Some? && TagOnCommit(tags.value, d.value.commitId).Some?
                                  && d.value.reuse != [])
        && (d.value.enabled ==> d.value.reuse == [])
        && (d.value.reuse != [] ==>
              && tags.Some? && TagOnCommit(tags.value, d.value.commitId).Some?
              && ReusePackages(component, beholderData,
                   cleanRelease(LastPiece(TagOnCommit(tags.value, d.value.commitId).value, "/")), cleanRelease)
                 == Some(d.value.reuse))
  {
  }

  /** The reused packages of one devel flag, in order. */
  function PackagesOf(reuse: seq<Reused>, devel: bool): (r: seq<Package>)
    ensures forall p :: p in r <==> Reused(p, devel) in reuse
  {
    if |reuse| == 0 then []
    else
      var init := PackagesOf(reuse[..|reuse| - 1], devel);
      var last := reuse[|reuse| - 1];
      assert reuse == reuse[..|reuse| - 1] + [last];
      if last.devel == devel then init + [last.pkg] else init
  }

  /** Splitting by the devel flag loses and duplicates nothing. */
  lemma {:induction false} SplitIsPartition(reuse: seq<Reused>)
    ensures multiset(PackagesOf(reuse, false)) + multiset(PackagesOf(reuse, true))
      == multiset(seq(|reuse|, k requires 0 <= k < |reuse| => reuse[k].pkg))
    decreases |reuse|
  {
    if reuse != [] {
      var init := reuse[..|reuse| - 1];
      SplitIsPartition(init);
      var all := seq(|reuse|, k requires 0 <= k < |reuse| => reuse[k].pkg);
      var allInit := seq(|init|, k requires 0 <= k < |init| => init[k].pkg);
      assert all == allInit + [reuse[|reuse| - 1].pkg];
    }
  }

  /** The ModuleRef built for a component that did not raise. */
  function RefFor(component: string, modifiedList: seq<string>, prefixes: PrefixList, stream: string,
                  d: Decision, develPresent: bool, packagesGit: string): ModuleRef
  {
    ModuleRef(
      packagesGit + GiteaName(component) + ".git",
      BranchName(component, modifiedList, prefixes, stream),
      d.exist,
      PackagesOf(d.reuse, false) + (if develPresent then PackagesOf(d.reuse, true) else []),
      d.enabled)
  }

  /**
   * A module being assembled (ModuleWrapper), observed through the calls made
   * on it: add_rpm_artifact with its devel flag, and set_component_ref.
   */
  class ModuleDescriptor {
    const name: string
    const stream: string
    const isDevel: bool
    var rpmArtifacts: seq<(Package, bool)>
    var componentRefs: seq<(string, string)>

    constructor (name: string, stream: string, isDevel: bool)
      ensures this.name == name && this.stream == stream && this.isDevel == isDevel
      ensures rpmArtifacts == [] && componentRefs == []
    {
      this.name := name;
      this.stream := stream;
      this.isDevel := isDevel;
      rpmArtifacts := [];
      componentRefs := [];
    }

    method AddRpmArtifact(pkg: Package, devel: bool)
      modifies this
      ensures rpmArtifacts == old(rpmArtifacts) + [(pkg, devel)]
      ensures componentRefs == old(componentRefs)
    {
      rpmArtifacts := rpmArtifacts + [(pkg, devel)];
    }

    method SetComponentRef(component: string, ref: string)
      modifies this
      ensures componentRefs == old(componentRefs) + [(component, ref)]
      ensures rpmArtifacts == old(rpmArtifacts)
    {
      componentRefs := componentRefs + [(component, ref)];
    }
  }

  function Flagged(pkgs: seq<Package>, devel: bool): (r: seq<(Package, bool)>)
    ensures |r| == |pkgs| && forall k :: 0 <= k < |r| ==> r[k] == (pkgs[k], devel)
  {
    seq(|pkgs|, k requires 0 <= k < |pkgs| => (pkgs[k], devel))
  }

  /**
   * The loop adding one devel flag's reused packages to a module. Each added
   * package is also recorded in `added`.
   */
  method AddReused(m: ModuleDescriptor, pkgsToAdd: seq<Reused>, devel: bool)
    returns (added: seq<Package>)
    modifies m
    ensures m.rpmArtifacts == old(m.rpmArtifacts) + Flagged(PackagesOf(pkgsToAdd, devel), devel)
    ensures m.componentRefs == old(m.componentRefs)
    ensures added == PackagesOf(pkgsToAdd, devel)
  {
    added := [];
    for i := 0 to |pkgsToAdd|
      invariant m.rpmArtifacts == old(m.rpmArtifacts) + Flagged(PackagesOf(pkgsToAdd[..i], devel), devel)
      invariant m.componentRefs == old(m.componentRefs)
      invariant added == PackagesOf(pkgsToAdd[..i], devel)
    {
      assert pkgsToAdd[..i + 1][..i] == pkgsToAdd[..i];
      var pkg := pkgsToAdd[i];
      if pkg.devel != devel {
        continue;
      }
      m.AddRpmArtifact(pkg.pkg, devel);
      added := added + [pkg.pkg];
      assert Flagged(PackagesOf(pkgsToAdd[..i + 1], devel), devel)
        == Flagged(PackagesOf(pkgsToAdd[..i], devel), devel) + [(pkg.pkg, devel)];
    }
    assert pkgsToAdd[..|pkgsToAdd|] == pkgsToAdd;
  }

  /**
   * The branch lookup and tag comparison of _get_module_ref: None when it
   * raises before a module descriptor is touched.
   */
  method ResolveComponent(componentName: string, repo: string, gitRef: string,
                          getBranch: (string, string) -> BranchLookup, listTags: string -> Option<seq<Tag>>,
                          beholderData: seq<ModuleData>, cleanRelease: string -> string)
    returns (d: Option<Decision>)
    ensures d == Decide(componentName, getBranch(repo, gitRef), listTags(repo), beholderData, cleanRelease)
  {
    var exist := true;
    var commitId := "";
    var enabled := true;
    var pkgsToAdd: seq<Reused> := [];
    var response := getBranch(repo, gitRef);
    match response {
      case Branch(id) => commitId := id;
      case ResponseError(status) =>
        if status == 404 {
          exist := false;
        }
      case OtherError =>
        return None;
    }
    if commitId != "" {
      var tags := listTags(repo);
      if tags.None? {
        return None;
      }
      var rawTagName := TagOnCommit(tags.value, commitId);
      if rawTagName.Some? {
        var tagName := LastPiece(rawTagName.value, "/");
        var cleanTagName := cleanRelease(tagName);
        var compared := CompareModuleData(componentName, beholderData, cleanTagName, cleanRelease);
        if compared.None? {
          return None;
        }
        pkgsToAdd := compared.value;
        enabled := |pkgsToAdd| == 0;
      }
    }
    d := Some(Decision(exist, commitId, enabled, pkgsToAdd));
  }

  /**
   * _get_module_ref. `getBranch` and `listTags` stand for the Gitea client
   * (`listTags` is None when list_tags raised), `cleanRelease` for
   * clean_release; `develModule` is null when the module has no devel
   * counterpart.
   */
  method GetModuleRef(componentName: string, modifiedList: seq<string>, prefixes: PrefixList,
                      mainModule: ModuleDescriptor, getBranch: (string, string) -> BranchLookup,
                      listTags: string -> Option<seq<Tag>>, develModule: ModuleDescriptor?,
                      packagesGit: string, beholderData: seq<ModuleData>, cleanRelease: string -> string)
    returns (r: Result<ModuleRef, string>)
    requires mainModule != develModule
    modifies mainModule, develModule
    ensures r.Success? ==> r.value.gitRef == BranchName(componentName, modifiedList, prefixes, mainModule.stream)
    ensures r.Success? ==> r.value.url == packagesGit + GiteaName(componentName) + ".git"
    ensures var repo := "rpms/" + GiteaName(componentName);
      var lookup := getBranch(repo, BranchName(componentName, modifiedList, prefixes, mainModule.stream));
      var d := Decide(componentName, lookup, listTags(repo), beholderData, cleanRelease);
      if d.None? then
        r.Failure? && unchanged(mainModule) && (develModule != null ==> unchanged(develModule))
      else
        && r == Success(RefFor(componentName, modifiedList, prefixes, mainModule.stream, d.value, develModule != null, packagesGit))
        && mainModule.rpmArtifacts == old(mainModule.rpmArtifacts) + Flagged(PackagesOf(d.value.reuse, false), false)
        && mainModule.componentRefs == old(mainModule.componentRefs) + [(componentName, d.value.commitId)]
        && (develModule != null ==>
              && develModule.rpmArtifacts == old(develModule.rpmArtifacts) + Flagged(PackagesOf(d.value.reuse, true), true)
              && develModule.componentRefs == old(develModule.componentRefs) + [(componentName, d.value.commitId)])
  {
    var refPrefix := prefixes.nonModified;
    if componentName in modifiedList {
      refPrefix := prefixes.modified;
    }
    var giteaComponentName := ReplaceChar(componentName, '+', '-');
    assert giteaComponentName == GiteaName(componentName);
    var gitRef := refPrefix + "-stream-" + mainModule.stream;
    assert gitRef == BranchName(componentName, modifiedList, prefixes, mainModule.stream);
    var decision := ResolveComponent(componentName, "rpms/" + giteaComponentName, gitRef, getBranch, listTags,
                                     beholderData, cleanRelease);
    if decision.None? {
      return Failure("_get_module_ref raised");
    }
    var d := decision.value;
    var addedPackages := AddReused(mainModule, d.reuse, false);
    mainModule.SetComponentRef(componentName, d.commitId);
    var develPackages: seq<Package> := [];
    if develModule != null {
      develModule.SetComponentRef(componentName, d.commitId);
      develPackages := AddReused(develModule, d.reuse, true);
    }
    r := Success(ModuleRef(packagesGit + giteaComponentName + ".git", gitRef, d.exist, addedPackages + develPackages, d.enabled));
  }

  // ---------------------------------------------------------------------------
  // get_module_refs
  // ---------------------------------------------------------------------------

  /** The modularity settings of a platform flavour; None stands for a missing or empty git_tag_prefix. */
  datatype Modularity = Modularity(gitTagPrefix: Option<PrefixList>)

  datatype Flavour = Flavour(name: string, modularity: Option<Modularity>)

  /** `re.search(r'(-beta)$', name, re.IGNORECASE)`: `$` also matches before a final newline. */
  predicate IsBetaName(name: string) {
    EndsWith(ToLower(name), "-beta") || EndsWith(ToLower(name), "-beta\n")
  }

  method HasBetaFlavour(flavours: seq<Flavour>) returns (found: bool)
    ensures found <==> exists i :: 0 <= i < |flavours| && IsBetaName(flavours[i].name)
  {
    found := false;
    var i := 0;
    while i < |flavours|
      invariant 0 <= i <= |flavours| && !found
      invariant forall j :: 0 <= j < i ==> !IsBetaName(flavours[j].name)
    {
      if IsBetaName(flavours[i].name) {
        found := true;
        break;
      }
      i := i + 1;
    }
  }

  predicate HasPrefix(f: Flavour) {
    f.modularity.Some? && f.modularity.value.gitTagPrefix.Some?
  }

  /** The prefix of the last flavour that has one. */
  function FlavourPrefix(flavours: seq<Flavour>): (r: Option<PrefixList>)
    ensures r.Some? ==>
      exists i :: (0 <= i < |flavours| && HasPrefix(flavours[i]) && flavours[i].modularity.value.gitTagPrefix == r
                   && forall j :: i < j < |flavours| ==> !HasPrefix(flavours[j]))
    ensures r.None? ==> forall i :: 0 <= i < |flavours| ==> !HasPrefix(flavours[i])
  {
    if flavours == [] then None
    else
      var last := flavours[|flavours| - 1];
      if HasPrefix(last) then last.modularity.value.gitTagPrefix
      else
        var r := FlavourPrefix(flavours[..|flavours| - 1]);
        assert forall j :: 0 <= j < |flavours| - 1 ==> flavours[..|flavours| - 1][j] == flavours[j];
        r
  }

  /** The loop choosing the branch prefixes: the last flavour with a prefix overrides the platform's. */
  method ChoosePrefixes(platformPrefixes: PrefixList, flavours: seq<Flavour>) returns (prefixes: PrefixList)
    ensures prefixes == FlavourPrefix(flavours).GetOr(platformPrefixes)
  {
    prefixes := platformPrefixes;
    for i := 0 to |flavours|
      invariant prefixes == FlavourPrefix(flavours[..i]).GetOr(platformPrefixes)
    {
      assert flavours[..i + 1][..i] == flavours[..i];
      var flavour := flavours[i];
      if flavour.modularity.Some? && flavour.modularity.value.gitTagPrefix.Some? {
        prefixes := flavour.modularity.value.gitTagPrefix.value;
      }
    }
    assert flavours[..|flavours|] == flavours;
  }

  function RequestArch(arch: string): string {
    if arch == "i686" then "x86_64" else arch
  }

  /** A beholder query: the endpoint asked, the arch recorded and the devel flag given. */
  datatype Query = Query(endpoint: string, arch: string, devel: bool)

  function ModuleEndpoint(distName: string, distVersion: string, name: string, stream: string, arch: string): string {
    "/api/v1/distros/" + distName + "/" + distVersion + "/module/" + name + "/" + stream + "/" + arch + "/"
  }

  /** The module to query: its name and stream, and the devel flag its queries carry. */
  datatype Target = Target(name: string, stream: string, devel: bool)

  function TargetQueries(t: Target, arch: string, distName: string, distVersion: string, beta: bool): (r: seq<Query>)
    ensures |r| == (if beta then 2 else 1)
    ensures forall q :: q in r ==> q.arch == arch && q.devel == t.devel
  {
    var q := Query(ModuleEndpoint(distName, distVersion, t.name, t.stream, RequestArch(arch)), arch, t.devel);
    if beta then [q, Query(ModuleEndpoint(distName + "-beta", distVersion, t.name, t.stream, RequestArch(arch)), arch, t.devel)]
    else [q]
  }

  function ArchQueries(targets: seq<Target>, arch: string, distName: string, distVersion: string, beta: bool): (r: seq<Query>)
    ensures |r| == |targets| * (if beta then 2 else 1)
    ensures forall q :: q in r ==> q.arch == arch
  {
    if targets == [] then []
    else
      var r := ArchQueries(targets[..|targets| - 1], arch, distName, distVersion, beta)
        + TargetQueries(targets[|targets| - 1], arch, distName, distVersion, beta);
      assert |targets| * (if beta then 2 else 1) == (|targets| - 1) * (if beta then 2 else 1) + (if beta then 2 else 1);
      r
  }

  /** The checking tasks, arch-major. */
  function Queries(arches: seq<string>, targets: seq<Target>, distName: string, distVersion: string, beta: bool): (r: seq<Query>)
    ensures |r| == |arches| * |targets| * (if beta then 2 else 1)
    ensures forall q :: q in r ==> q.arch in arches
  {
    if arches == [] then []
    else
      var init := Queries(arches[..|arches| - 1], targets, distName, distVersion, beta);
      var r := init + ArchQueries(targets, arches[|arches| - 1], distName, distVersion, beta);
      assert |arches| * |targets| * (if beta then 2 else 1)
        == (|arches| - 1) * |targets| * (if beta then 2 else 1) + |targets| * (if beta then 2 else 1);
      r
  }

  /** i686 is asked for as x86_64, but the query keeps i686 as its arch. */
  lemma I686QueriedAsX8664(t: Target, distName: string, distVersion: string, beta: bool)
    ensures forall q :: q in TargetQueries(t, "i686", distName, distVersion, beta) ==>
      q.arch == "i686" && q.endpoint[|q.endpoint| - 8..] == "/x86_64/"
  {
  }

  /** Every query of a beta platform has a twin on the `-beta` distro. */
  lemma BetaAddsTwin(t: Target, arch: string, distName: string, distVersion: string)
    ensures var r := TargetQueries(t, arch, distName, distVersion, true);
      r[0].endpoint == ModuleEndpoint(distName, distVersion, t.name, t.stream, RequestArch(arch))
      && r[1].endpoint == ModuleEndpoint(distName + "-beta", distVersion, t.name, t.stream, RequestArch(arch))
  {
  }

  /** The inner loop over the modules, for one arch. */
  method AppendArchQueries(queries: seq<Query>, targets: seq<Target>, arch: string, requestArch: string,
                           distName: string, distVersion: string, beta: bool)
    returns (queries': seq<Query>)
    requires requestArch == RequestArch(arch)
    ensures queries' == queries + ArchQueries(targets, arch, distName, distVersion, beta)
  {
    queries' := queries;
    for j := 0 to |targets|
      invariant queries' == queries + ArchQueries(targets[..j], arch, distName, distVersion, beta)
    {
      assert targets[..j + 1][..j] == targets[..j];
      var t := targets[j];
      ghost var expected := TargetQueries(t, arch, distName, distVersion, beta);
      queries' := queries' + [Query(ModuleEndpoint(distName, distVersion, t.name, t.stream, requestArch), arch, t.devel)];
      if beta {
        queries' := queries' + [Query(ModuleEndpoint(distName + "-beta", distVersion, t.name, t.stream, requestArch), arch, t.devel)];
      }
      assert queries' == queries + ArchQueries(targets[..j], arch, distName, distVersion, beta) + expected;
    }
    assert targets[..|targets|] == targets;
  }

  /** The loops appending the checking tasks. */
  method CheckingQueries(arches: seq<string>, targets: seq<Target>, distName: string, distVersion: string, beta: bool)
    returns (queries: seq<Query>)
    ensures queries == Queries(arches, targets, distName, distVersion, beta)
  {
    queries := [];
    for i := 0 to |arches|
      invariant queries == Queries(arches[..i], targets, distName, distVersion, beta)
    {
      assert arches[..i + 1][..i] == arches[..i];
      var arch := arches[i];
      var requestArch := arch;
      if arch == "i686" {
        requestArch := "x86_64";
      }
      queries := AppendArchQueries(queries, targets, arch, requestArch, distName, distVersion, beta);
    }
    assert arches[..|arches|] == arches;
  }

  /** The targets queried: the main module, then the devel module when there is one. */
  function Targets(name: string, stream: string, isDevel: string -> bool): (r: seq<Target>)
    ensures |r| == (if isDevel(name) then 1 else 2)
  {
    var develPresent := !isDevel(name);
    var main := Target(name, stream, isDevel(name) && develPresent);
    if develPresent then [main, Target(name + "-devel", stream, isDevel(name + "-devel"))] else [main]
  }

  /** The module data gathered for every query. */
  function Gathered(queries: seq<Query>, beholderEnabled: bool, fetch: string -> Option<BeholderResponse>): (r: seq<ModuleData>)
    ensures |r| == |queries|
    ensures forall i :: 0 <= i < |r| ==>
      r[i] == GetModuleDataFromBeholder(beholderEnabled, fetch(queries[i].endpoint), queries[i].arch, queries[i].devel)
  {
    seq(|queries|, i requires 0 <= i < |queries| =>
      GetModuleDataFromBeholder(beholderEnabled, fetch(queries[i].endpoint), queries[i].arch, queries[i].devel))
  }

  /** The decision logic of get_module_refs, for the platform data it is given. */
  datatype PlatformInfo = PlatformInfo(cleanDistName: string, distVersion: string, prefixes: PrefixList,
                                       packagesGit: string, modifiedList: seq<string>)

  /**
   * What every _get_module_ref call of one module shares: the modified list,
   * the prefixes, the module stream, the packages git URL, the beholder data
   * and the clients.
   */
  datatype RefEnv = RefEnv(modifiedList: seq<string>, prefixes: PrefixList, stream: string, packagesGit: string,
                           beholderData: seq<ModuleData>, getBranch: (string, string) -> BranchLookup,
                           listTags: string -> Option<seq<Tag>>, cleanRelease: string -> string)

  /** get_branch for a component of the module. */
  function LookupOf(component: string, env: RefEnv): BranchLookup {
    env.getBranch("rpms/" + GiteaName(component), BranchName(component, env.modifiedList, env.prefixes, env.stream))
  }

  /** What _get_module_ref decides for a component; None when it raises. */
  function DecisionOf(component: string, env: RefEnv): Option<Decision> {
    Decide(component, LookupOf(component, env), env.listTags("rpms/" + GiteaName(component)), env.beholderData, env.cleanRelease)
  }

  /** The decision of a component that does not raise. */
  function DecidedOf(component: string, env: RefEnv): Decision {
    DecisionOf(component, env).GetOr(Decision(true, "", true, []))
  }

  /** The ref _get_module_ref returns for a component that does not raise. */
  function RefOf(component: string, env: RefEnv, develPresent: bool): ModuleRef {
    RefFor(component, env.modifiedList, env.prefixes, env.stream, DecidedOf(component, env), develPresent, env.packagesGit)
  }

  /** The rpm artifacts it adds to the module descriptor of devel flag `devel`. */
  function ArtifactsOf(component: string, env: RefEnv, devel: bool): seq<(Package, bool)> {
    Flagged(PackagesOf(DecidedOf(component, env).reuse, devel), devel)
  }

  /** The component ref it sets on the module descriptors. */
  function RefEntryOf(component: string, env: RefEnv): (string, string) {
    (component, DecidedOf(component, env).commitId)
  }

  /** Index of the first component whose _get_module_ref raises, `|components|` when none does. */
  function FirstRaising(components: seq<string>, env: RefEnv): (r: nat)
    ensures r <= |components|
  {
    if |components| == 0 then 0
    else if DecisionOf(components[0], env).None? then 0
    else FirstRaising(components[1..], env) + 1
  }

  /** Every component before FirstRaising does not raise, and the one at it does. */
  lemma {:induction false} FirstRaisingIsFirst(components: seq<string>, env: RefEnv)
    ensures var r := FirstRaising(components, env);
      && (forall j :: 0 <= j < r ==> DecisionOf(components[j], env).Some?)
      && (r < |components| ==> DecisionOf(components[r], env).None?)
    decreases |components|
  {
    if |components| > 0 && DecisionOf(components[0], env).Some? {
      FirstRaisingIsFirst(components[1..], env);
      assert forall j :: 1 <= j < |components| ==> components[j] == components[1..][j - 1];
    }
  }

  /** Past a component that does not raise, the first raising one is further on. */
  lemma FirstRaisingStep(components: seq<string>, i: nat, env: RefEnv)
    requires i < |components| && i <= FirstRaising(components, env)
    ensures DecisionOf(components[i], env).None? ==> FirstRaising(components, env) == i
    ensures DecisionOf(components[i], env).Some? ==> i + 1 <= FirstRaising(components, env)
  {
    FirstRaisingIsFirst(components, env);
  }

  function RefFn(env: RefEnv, develPresent: bool): string -> ModuleRef {
    c => RefOf(c, env, develPresent)
  }

  function ArtifactsFn(env: RefEnv, devel: bool): string -> seq<(Package, bool)> {
    c => ArtifactsOf(c, env, devel)
  }

  function RefEntryFn(env: RefEnv): string -> (string, string) {
    c => RefEntryOf(c, env)
  }

  /** The refs of the components, in order. */
  function RefsOf(components: seq<string>, env: RefEnv, develPresent: bool): seq<ModuleRef> {
    Map(components, RefFn(env, develPresent))
  }

  /** The rpm artifacts the components add to a module of one devel flag, in component order. */
  function ArtifactLog(components: seq<string>, env: RefEnv, devel: bool): seq<(Package, bool)> {
    FlatMap(components, ArtifactsFn(env, devel))
  }

  /** The component refs the components set on a module, in component order. */
  function RefLog(components: seq<string>, env: RefEnv): seq<(string, string)> {
    Map(components, RefEntryFn(env))
  }

  /**
   * Every ref carries its component's branch name and repository URL, and
   * every logged component ref the component's head commit.
   */
  lemma RefsOfNames(components: seq<string>, env: RefEnv, develPresent: bool)
    ensures forall i :: 0 <= i < |components| ==>
      RefsOf(components, env, develPresent)[i].gitRef == BranchName(components[i], env.modifiedList, env.prefixes, env.stream)
      && RefsOf(components, env, develPresent)[i].url == env.packagesGit + GiteaName(components[i]) + ".git"
      && RefLog(components, env)[i] == (components[i], DecidedOf(components[i], env).commitId)
  {
    forall i | 0 <= i < |components|
      ensures RefsOf(components, env, develPresent)[i] == RefOf(components[i], env, develPresent)
      ensures RefLog(components, env)[i] == RefEntryOf(components[i], env)
    {
      MapAt(components, RefFn(env, develPresent), i);
      MapAt(components, RefEntryFn(env), i);
    }
  }

  /** _get_module_ref for one component, stated over what the module's calls share. */
  method ComponentStep(component: string, env: RefEnv, mainModule: ModuleDescriptor, develModule: ModuleDescriptor?)
    returns (r: Result<ModuleRef, string>)
    requires mainModule != develModule && mainModule.stream == env.stream
    modifies mainModule, develModule
    ensures r.Failure? <==> DecisionOf(component, env).None?
    ensures r.Failure? ==> unchanged(mainModule) && (develModule != null ==> unchanged(develModule))
    ensures r.Success? ==> r.value == RefOf(component, env, develModule != null)
    ensures r.Success? ==> mainModule.rpmArtifacts == old(mainModule.rpmArtifacts) + ArtifactsOf(component, env, false)
    ensures r.Success? ==> mainModule.componentRefs == old(mainModule.componentRefs) + [RefEntryOf(component, env)]
    ensures r.Success? && develModule != null ==>
      develModule.rpmArtifacts == old(develModule.rpmArtifacts) + ArtifactsOf(component, env, true)
    ensures r.Success? && develModule != null ==>
      develModule.componentRefs == old(develModule.componentRefs) + [RefEntryOf(component, env)]
  {
    r := GetModuleRef(component, env.modifiedList, env.prefixes, mainModule, env.getBranch, env.listTags,
                      develModule, env.packagesGit, env.beholderData, env.cleanRelease);
  }

  /**
   * The loop over the module's components, in component order. The first
   * component whose branch lookup raises stops it with the module
   * descriptors holding what the earlier components added; otherwise every
   * component has its ref.
   */
  method CollectRefs(components: seq<string>, env: RefEnv, mainModule: ModuleDescriptor, develModule: ModuleDescriptor?)
    returns (r: Result<seq<ModuleRef>, string>)
    requires mainModule != develModule && mainModule.stream == env.stream
    modifies mainModule, develModule
    ensures var done := components[..FirstRaising(components, env)];
      && (r.Success? <==> FirstRaising(components, env) == |components|)
      && (r.Success? ==> r.value == RefsOf(components, env, develModule != null))
      && mainModule.rpmArtifacts == old(mainModule.rpmArtifacts) + ArtifactLog(done, env, false)
      && mainModule.componentRefs == old(mainModule.componentRefs) + RefLog(done, env)
      && (develModule != null ==>
            && develModule.rpmArtifacts == old(develModule.rpmArtifacts) + ArtifactLog(done, env, true)
            && develModule.componentRefs == old(develModule.componentRefs) + RefLog(done, env))
  {
    ghost var devel := develModule != null;
    var refs: seq<ModuleRef> := [];
    for i := 0 to |components|
      invariant i <= FirstRaising(components, env)
      invariant refs == RefsOf(components[..i], env, devel)
      invariant mainModule.rpmArtifacts == old(mainModule.rpmArtifacts) + ArtifactLog(components[..i], env, false)
      invariant mainModule.componentRefs == old(mainModule.componentRefs) + RefLog(components[..i], env)
      invariant develModule != null ==> develModule.rpmArtifacts == old(develModule.rpmArtifacts) + ArtifactLog(components[..i], env, true)
      invariant develModule != null ==> develModule.componentRefs == old(develModule.componentRefs) + RefLog(components[..i], env)
    {
      FirstRaisingStep(components, i, env);
      MapStep(components, RefFn(env, devel), i);
      FlatMapStep(components, ArtifactsFn(env, false), i);
      FlatMapStep(components, ArtifactsFn(env, true), i);
      MapStep(components, RefEntryFn(env), i);
      var ref := ComponentStep(components[i], env, mainModule, develModule);
      if ref.Failure? {
        return Failure(ref.error);
      }
      AppendAssoc(old(mainModule.rpmArtifacts), ArtifactLog(components[..i], env, false), ArtifactsOf(components[i], env, false));
      AppendAssoc(old(mainModule.componentRefs), RefLog(components[..i], env), [RefEntryOf(components[i], env)]);
      if develModule != null {
        AppendAssoc(old(develModule.rpmArtifacts), ArtifactLog(components[..i], env, true), ArtifactsOf(components[i], env, true));
        AppendAssoc(old(develModule.componentRefs), RefLog(components[..i], env), [RefEntryOf(components[i], env)]);
      }
      refs := refs + [ref.value];
    }
    assert components[..|components|] == components;
    r := Success(refs);
  }

  /** The module of the ref and, unless it is itself a devel module, its devel counterpart. */
  method NewModules(name: string, stream: string, isDevel: string -> bool)
    returns (mainModule: ModuleDescriptor, develModule: ModuleDescriptor?)
    ensures fresh(mainModule) && (develModule != null ==> fresh(develModule)) && mainModule != develModule
    ensures mainModule.name == name && mainModule.stream == stream && mainModule.isDevel == isDevel(name)
    ensures develModule == null <==> isDevel(name)
    ensures mainModule.rpmArtifacts == [] && mainModule.componentRefs == []
    ensures develModule != null ==> develModule.rpmArtifacts == [] && develModule.componentRefs == []
    ensures develModule != null ==>
      develModule.name == name + "-devel" && develModule.stream == stream && develModule.isDevel == isDevel(name + "-devel")
  {
    mainModule := new ModuleDescriptor(name, stream, isDevel(name));
    develModule := null;
    if !mainModule.isDevel {
      develModule := new ModuleDescriptor(name + "-devel", stream, isDevel(name + "-devel"));
    }
  }

  /** Some flavour of the platform is a beta flavour. */
  predicate AnyBeta(flavours: seq<Flavour>) {
    exists i :: 0 <= i < |flavours| && IsBetaName(flavours[i].name)
  }

  /** The checking tasks built and gathered: one module datum per query, in query order. */
  method GatherModuleData(targets: seq<Target>, flavours: seq<Flavour>, arches: seq<string>, platform: PlatformInfo,
                          beholderEnabled: bool, fetch: string -> Option<BeholderResponse>)
    returns (data: seq<ModuleData>)
    ensures data == Gathered(Queries(arches, targets, platform.cleanDistName, platform.distVersion, AnyBeta(flavours)),
                             beholderEnabled, fetch)
  {
    var hasBeta := HasBetaFlavour(flavours);
    var queries := CheckingQueries(arches, targets, platform.cleanDistName, platform.distVersion, hasBeta);
    data := Gathered(queries, beholderEnabled, fetch);
  }

  /** What the module's _get_module_ref calls share, as get_module_refs sets it up. */
  function ModuleEnv(task: BuildTaskRef, platform: PlatformInfo, flavours: seq<Flavour>,
                     platformArches: Option<seq<string>>, isDevel: string -> bool, beholderEnabled: bool,
                     fetch: string -> Option<BeholderResponse>, getBranch: (string, string) -> BranchLookup,
                     listTags: string -> Option<seq<Tag>>, cleanRelease: string -> string): RefEnv
  {
    var name := GitRepoName(task.url);
    var stream := ModuleStreamFromRef(task.gitRef);
    var data := Gathered(Queries(platformArches.GetOr([]), Targets(name, stream, isDevel), platform.cleanDistName,
                                 platform.distVersion, AnyBeta(flavours)), beholderEnabled, fetch);
    RefEnv(platform.modifiedList, FlavourPrefix(flavours).GetOr(platform.prefixes), stream, platform.packagesGit,
           data, getBranch, listTags, cleanRelease)
  }

  /** The module descriptors and the shared data get_module_refs sets up before the components. */
  method PrepareModules(task: BuildTaskRef, platform: PlatformInfo, flavours: seq<Flavour>,
                        platformArches: Option<seq<string>>, isDevel: string -> bool, beholderEnabled: bool,
                        fetch: string -> Option<BeholderResponse>, getBranch: (string, string) -> BranchLookup,
                        listTags: string -> Option<seq<Tag>>, cleanRelease: string -> string)
    returns (mainModule: ModuleDescriptor, develModule: ModuleDescriptor?, env: RefEnv)
    ensures env == ModuleEnv(task, platform, flavours, platformArches, isDevel, beholderEnabled, fetch,
                             getBranch, listTags, cleanRelease)
    ensures fresh(mainModule) && (develModule != null ==> fresh(develModule)) && mainModule != develModule
    ensures mainModule.name == GitRepoName(task.url) && mainModule.stream == env.stream
    ensures develModule == null <==> isDevel(GitRepoName(task.url))
    ensures develModule != null ==>
      develModule.name == GitRepoName(task.url) + "-devel" && develModule.stream == env.stream
    ensures mainModule.rpmArtifacts == [] && mainModule.componentRefs == []
    ensures develModule != null ==> develModule.rpmArtifacts == [] && develModule.componentRefs == []
  {
    var name := GitRepoName(task.url);
    var stream := ModuleStreamFromRef(task.gitRef);
    mainModule, develModule := NewModules(name, stream, isDevel);
    var beholderResults := GatherModuleData(Targets(name, stream, isDevel), flavours, platformArches.GetOr([]),
                                            platform, beholderEnabled, fetch);
    var prefixes := ChoosePrefixes(platform.prefixes, flavours);
    env := RefEnv(platform.modifiedList, prefixes, stream, platform.packagesGit, beholderResults,
                  getBranch, listTags, cleanRelease);
  }

  /**
   * get_module_refs. `components` is what module.iter_components yields,
   * `isDevel` is ModuleWrapper.is_devel for the template under a given name,
   * `fetch` the beholder GET and `platformArches` None when not given.
   */
  method GetModuleRefs(task: BuildTaskRef, platform: PlatformInfo, flavours: seq<Flavour>,
                       platformArches: Option<seq<string>>, components: seq<string>,
                       isDevel: string -> bool, beholderEnabled: bool, fetch: string -> Option<BeholderResponse>,
                       getBranch: (string, string) -> BranchLookup, listTags: string -> Option<seq<Tag>>,
                       cleanRelease: string -> string)
    returns (r: Result<seq<ModuleRef>, string>, modules: seq<ModuleDescriptor>)
    ensures var name := GitRepoName(task.url);
      && |modules| == (if isDevel(name) then 1 else 2)
      && modules[0].name == name && modules[0].stream == ModuleStreamFromRef(task.gitRef)
      && (|modules| == 2 ==> modules[1].name == name + "-devel" && modules[1].stream == ModuleStreamFromRef(task.gitRef))
    ensures forall m :: m in modules ==> fresh(m)
    ensures var env := ModuleEnv(task, platform, flavours, platformArches, isDevel, beholderEnabled, fetch,
                                 getBranch, listTags, cleanRelease);
      var done := components[..FirstRaising(components, env)];
      && (r.Success? <==> FirstRaising(components, env) == |components|)
      && (r.Success? ==> r.value == RefsOf(components, env, |modules| == 2))
      && modules[0].rpmArtifacts == ArtifactLog(done, env, false)
      && modules[0].componentRefs == RefLog(done, env)
      && (|modules| == 2 ==> modules[1].rpmArtifacts == ArtifactLog(done, env, true))
      && (|modules| == 2 ==> modules[1].componentRefs == RefLog(done, env))
  {
    var mainModule, develModule, env := PrepareModules(task, platform, flavours, platformArches, isDevel,
                                                       beholderEnabled, fetch, getBranch, listTags, cleanRelease);
    r := CollectRefs(components, env, mainModule, develModule);
    ghost var done := components[..FirstRaising(components, env)];
    EmptyAppend(ArtifactLog(done, env, false));
    EmptyAppend(RefLog(done, env));
    if develModule != null {
      EmptyAppend(ArtifactLog(done, env, true));
      modules := [mainModule, develModule];
    } else {
      modules := [mainModule];
    }
  }
}
