# albs-web-server decision logic in Dafny

This project models the decision code of the AlmaLinux Build System web
server. That code sits between the database, the Pulp content server, the
Gitea git server and the "beholder" upstream-package service. There are four
parts:

- **Module component refs** (`alws/schemas/build_schema.py`):
  - the `BuildTaskRef` helpers `git_repo_name` and `module_stream_from_ref`;
  - the `refs_validator` of modular build requests;
  - `get_module_data_from_beholder` and `compare_module_data`;
  - `_get_module_ref`, which picks the branch, decides `exist`/`enabled` and
    splits reused upstream packages between the main and the `-devel`
    module descriptors;
  - the query, flavour and prefix rules of `get_module_refs`.
- **Noarch reconciliation** (`alws/utils/noarch.py`). Once every sibling task
  of a build is finished, one href is kept per noarch package name. It is
  split into a debug and a regular bucket. Sibling artifacts are rewritten
  in place, missing rows and `BinaryRpm`s are created, and per-repository
  add/remove lists are computed.
- **Product repository synchronisation** (`alws/dramatiq/products.py`):
  - arch filtering;
  - the add side (dedup by file name, blacklist, minus hrefs already
    present) and the remove side (intersection);
  - the modify dict keyed by product repository, with module hrefs;
  - the name-convention platform backfill;
  - the failed-ref-group blacklist;
  - the ordering of `_perform_product_modification`.
- **Beholder client** (`alws/utils/beholder_client.py`):
  - the authorization header rule;
  - endpoint generation;
  - the request loop that skips failed endpoints;
  - priority assignment with a stable descending sort;
  - the module artifact shaping with its appended `src` entry.

Layout:

- `wrappers.dfy`: Option and Result.
- `text.dfy`: the Python `str` operations used, over `seq<char>`.
- `seqs.dfy`: the list comprehensions `Map` and `FlatMap`, with their index
  and one-more-element lemmas.
- `dicts.dfy`: an insertion-ordered Python `dict` as a sequence of pairs,
  where assignment overwrites in place and a new key goes to the end.
- `models.dfy`: task status and the `Repository` record, a class because
  its `platform` field is assigned in place.
- `build_schema.dfy`, `noarch.dfy`, `products.dfy` and `beholder_client.dfy`:
  one module per source file.

External services are parameters, not calls to code that cannot be seen:

- Gitea `get_branch`/`list_tags`, beholder `get`/`post` and the Pulp package
  listing are functions passed in. A call that raises is an outcome of its
  own: a `BranchLookup` error for `get_branch`, and None for `list_tags`.
- Database query results are sequences of records passed in.
- The Pulp mutations (`modify_repository`, `create_rpm_publication`) and the
  persisted rows are returned as an ordered log of effects.
- `clean_release`, `get_clean_distr_name` and `ModuleWrapper.is_devel` are
  uninterpreted function parameters.

Imperative source keeps its form. Each loop is a method with invariants,
proved equal to a specification function, and each in-place field update is
a class field under `modifies`. The properties the source promises are
proved as lemmas about those functions.

## Model

| member | source | states |
|---|---|---|
| BuildSchema.GitRepoName | alws/schemas/build_schema.py:40-44 | the name is the part of the URL path after the last `/` with `.git` removed; it holds no `/`, `?`, `#` or `;`; nothing changes when that segment has no `.git` |
| BuildSchema.LastSegment | alws/schemas/build_schema.py:42-43 | the last `/`-separated piece of the URL's path, which cannot hold `/`, `?`, `#` or `;` |
| BuildSchema.UrlPath | alws/schemas/build_schema.py:42 | the path `urlparse` yields never holds a query or fragment separator |
| BuildSchema.GitRepoNameOfRepoUrl | alws/schemas/build_schema.py:40-44 | for every URL `scheme://host/dir/name.git` whose name has no separator and no `.git` in it, the repository name is exactly `name` |
| BuildSchema.RemoveGitSuffix | alws/schemas/build_schema.py:44 | removing every `.git` from `name + ".git"` gives back `name` whenever `.git` does not occur in `name` |
| Text.RemoveAllAtFirst | alws/schemas/build_schema.py:44 | `str.replace(pat, '')` keeps what precedes the left-most occurrence, drops it and continues after it; with no occurrence the string is unchanged |
| Text.LastPieceSpec | alws/schemas/build_schema.py:48 | `s.split(sep)[-1]` is the suffix after the last separator, or all of `s` when it holds none, and holds no separator |
| BuildSchema.ModuleStreamFromRef | alws/schemas/build_schema.py:46-49 | without `stream-` the ref comes back unchanged; otherwise the result is what follows a `stream-` at the end of the ref, and it contains no `stream-` itself |
| BuildSchema.StreamFollowsLastOccurrence | alws/schemas/build_schema.py:47-48 | the stream is taken after the last occurrence of `stream-` in the ref |
| BuildSchema.RefsValidator | alws/schemas/build_schema.py:81-87 | EmptyBuildError with its message exactly when refs is empty or no ref is enabled; otherwise the refs come back unchanged |
| BuildSchema.FixturePayloadsRejected | tests/fixtures/builds.py:13-68 | the "empty_refs" and "only_disabled_refs" payloads are both rejected |
| BuildSchema.GetModuleDataFromBeholder | alws/schemas/build_schema.py:281-299 | no data exactly when beholder is disabled or the call raised; otherwise the devel flag, the arch and the artifacts, with `[]` for missing artifacts |
| BuildSchema.MatchingArtifact | alws/schemas/build_schema.py:309-316 | the first artifact whose sourcerpm is named after the component, or None when no artifact is |
| BuildSchema.FromEntry | alws/schemas/build_schema.py:309-328 | raises (None) exactly when the matching artifact's sourcerpm lacks `name`, `version` or `release`, or, when its tag agrees, the artifact lacks `packages`; it contributes only when it has a matching artifact whose cleaned `name-version-release` equals the tag; every package contributed carries the entry's devel flag |
| BuildSchema.FromEntryOfMatch | alws/schemas/build_schema.py:317-328 | a matching artifact whose tag agrees contributes all its packages, in order, tagged with the entry's devel flag, and raises when it has no `packages` key |
| BuildSchema.ReusePackagesRaises | alws/schemas/build_schema.py:302-329 | compare_module_data raises exactly when some beholder entry raises |
| BuildSchema.ReusePackagesSpec | alws/schemas/build_schema.py:307-329 | when compare_module_data does not raise, a package is reused exactly when some beholder entry contributes it |
| BuildSchema.ReusedEntry | alws/schemas/build_schema.py:307-329 | every reused package names the entry it came from, which does not raise |
| BuildSchema.EntryReused | alws/schemas/build_schema.py:307-329 | when compare_module_data does not raise, every package an entry contributes is in the reuse list |
| BuildSchema.FindMatchingArtifact | alws/schemas/build_schema.py:309-316 | the inner search loop finds the MatchingArtifact index |
| BuildSchema.AppendTagged | alws/schemas/build_schema.py:326-328 | the package loop appends the entry's packages tagged with its devel flag |
| BuildSchema.CompareModuleData | alws/schemas/build_schema.py:302-329 | the loop computes ReusePackages, returning None at the KeyError of a missing sourcerpm key or `packages` |
| BuildSchema.RefPrefix | alws/schemas/build_schema.py:342-344 | the `modified` prefix exactly when the component is in the modified list, otherwise `non_modified` |
| BuildSchema.GiteaName | alws/schemas/build_schema.py:345-346 | the name keeps its length and no longer holds a `+` |
| BuildSchema.TagOnCommit | alws/schemas/build_schema.py:363-367 | the name of the first tag on the head commit, or None when no tag is on it |
| BuildSchema.DecideSpec | alws/schemas/build_schema.py:348-378 | the component raises exactly when get_branch raises something other than a ClientResponseError, when list_tags raises after a head commit was found, or when compare_module_data raises for the tag on that commit; otherwise the commit is the branch's head, `exist` is false only for a 404, any response error leaves an empty commit, enabled and no reuse, `enabled` is false exactly when a tag on the commit was found and packages can be reused, and the reuse list is then compare_module_data of the cleaned last tag segment |
| BuildSchema.PackagesOf | alws/schemas/build_schema.py:379-395 | the reused packages of one devel flag, exactly those and no others |
| BuildSchema.SplitIsPartition | alws/schemas/build_schema.py:379-395 | splitting the reuse list by the devel flag loses and duplicates nothing |
| BuildSchema.ModuleDescriptor.constructor | alws/schemas/build_schema.py:437-447 | a descriptor with its name, stream and devel flag, and no artifacts or component refs yet |
| BuildSchema.ModuleDescriptor.AddRpmArtifact | alws/schemas/build_schema.py:382 | appends one artifact with its devel flag and leaves the component refs alone |
| BuildSchema.ModuleDescriptor.SetComponentRef | alws/schemas/build_schema.py:386 | appends one component ref and leaves the artifacts alone |
| BuildSchema.AddReused | alws/schemas/build_schema.py:379-385 | the descriptor receives exactly the packages of one devel flag, in order, and reports them as added |
| BuildSchema.ResolveComponent | alws/schemas/build_schema.py:348-378 | the branch lookup, tag lookup and comparison compute Decide, including its three ways of raising |
| BuildSchema.GetModuleRef | alws/schemas/build_schema.py:332-406 | branch `{prefix}-stream-{stream}` and URL `{packages_git}{name with + as -}.git`; when the component raises (DecideSpec) it fails and changes neither module, since every raise comes before the first module call; otherwise non-devel reuse goes to the main module and devel reuse to the devel module only when it exists, and both get the component ref |
| BuildSchema.HasBetaFlavour | alws/schemas/build_schema.py:449-453 | true exactly when some flavour name ends in `-beta`, ignoring case |
| BuildSchema.FlavourPrefix | alws/schemas/build_schema.py:497-500 | the prefix list of the last flavour that has one, or None when none does |
| BuildSchema.ChoosePrefixes | alws/schemas/build_schema.py:497-500 | the last flavour prefix overrides the platform's, which is kept otherwise |
| BuildSchema.TargetQueries | alws/schemas/build_schema.py:462-494 | one query per module, two with a beta flavour, each recording the original arch and the module's devel flag |
| BuildSchema.I686QueriedAsX8664 | alws/schemas/build_schema.py:459-461 | an `i686` query asks beholder for `x86_64` but records `i686` |
| BuildSchema.BetaAddsTwin | alws/schemas/build_schema.py:482-494 | with a beta flavour the second query is the same endpoint on the `-beta` distribution |
| BuildSchema.ArchQueries | alws/schemas/build_schema.py:462-494 | the queries of one arch: one or two per module, all for that arch |
| BuildSchema.Queries | alws/schemas/build_schema.py:455-494 | arches × modules × (1 or 2) queries, every one for a requested arch |
| BuildSchema.AppendArchQueries | alws/schemas/build_schema.py:459-494 | the inner loop appends ArchQueries |
| BuildSchema.CheckingQueries | alws/schemas/build_schema.py:455-494 | the arch loop builds Queries, a missing arch list counting as empty |
| BuildSchema.Targets | alws/schemas/build_schema.py:436-468 | one module when the main module is devel, otherwise a main and a devel module |
| BuildSchema.Gathered | alws/schemas/build_schema.py:495 | one result per query, in order, each get_module_data_from_beholder of its endpoint |
| BuildSchema.GatherModuleData | alws/schemas/build_schema.py:449-495 | the beholder results are Gathered of Queries, with the beta rule decided by the flavours |
| BuildSchema.ComponentStep | alws/schemas/build_schema.py:332-406 | one `_get_module_ref` call fails exactly when the component raises (get_branch, list_tags or compare_module_data, as DecideSpec states), leaving both descriptors as they were; otherwise it returns the component's ref and appends its artifacts and component ref to each descriptor present |
| BuildSchema.FirstRaisingIsFirst | alws/schemas/build_schema.py:502-516 | FirstRaising is the first component whose `_get_module_ref` raises: every earlier one does not raise, and the one at it does unless it is the component count |
| BuildSchema.RefsOfNames | alws/schemas/build_schema.py:342-406 | every component's ref carries its branch `{prefix}-stream-{stream}` and its URL `{packages_git}{gitea name}.git`, and every logged component ref its head commit |
| BuildSchema.CollectRefs | alws/schemas/build_schema.py:502-516 | succeeds exactly when no component raises, and then returns every component's ref in component order; each descriptor present ends with the artifacts and component refs of the components before the first raising one appended, in component order |
| BuildSchema.NewModules | alws/schemas/build_schema.py:436-447 | a devel module named `{name}-devel` exists exactly when the main module is not devel |
| BuildSchema.PrepareModules | alws/schemas/build_schema.py:409-501 | fresh main and, unless the main one is devel, `-devel` descriptors named after the repository with the ref's stream; the shared data is the gathered beholder results of the checking queries, the last flavour prefix or the platform's, and the platform's modified list and packages git |
| BuildSchema.GetModuleRefs | alws/schemas/build_schema.py:409-521 | 1 or 2 rendered modules with the repo name and stream from the ref; succeeds exactly when no component raises, with the refs of every component for that shared data; each module's artifacts and component refs are those of the components before the first raising one |
| Noarch.BuildTask.constructor | alws/utils/noarch.py:51-59 | a sibling task with its id, status, arch and artifact rows |
| Noarch.Views | alws/utils/noarch.py:58-59 | a snapshot of the siblings, one per task, in order |
| Noarch.NoarchRows | alws/utils/noarch.py:26-32 | the rows the query returns are exactly the `rpm` artifacts whose name contains `.noarch.` |
| Noarch.Buckets | alws/utils/noarch.py:33-42 | both buckets are dictionaries with unique keys |
| Noarch.LastNamed | alws/utils/noarch.py:35-40 | present exactly when some row has the name, and then the href and hash of the row with that name that no later row shares |
| Noarch.BucketsAreLastWriterWins | alws/utils/noarch.py:35-42 | names with `-debuginfo-` or `-debugsource-` go only to the debug bucket, others only to the regular one, and each holds the (href, cas_hash) of the last row of that name |
| Noarch.BucketsDisjoint | alws/utils/noarch.py:35-42 | no name is in both buckets |
| Noarch.BucketKeysAreNoarch | alws/utils/noarch.py:26-42 | every bucket key is the name of an `rpm` candidate containing `.noarch.` |
| Noarch.GetNoarchPackages | alws/utils/noarch.py:22-42 | the loop builds exactly the two buckets |
| Noarch.Rewrite | alws/utils/noarch.py:82-99 | the rewrite keeps the artifact count, and the leftover dictionaries keep unique keys |
| Noarch.RewriteSpec | alws/utils/noarch.py:82-101 | each artifact becomes its expected rewrite; a name some artifact carries leaves the leftovers; the removed hrefs are those of the first artifact of each retained name, per bucket |
| Noarch.RewriteLeft | alws/utils/noarch.py:90-99 | what `pop` leaves: a retained name survives exactly when no artifact carries it |
| Noarch.RewriteArtifacts | alws/utils/noarch.py:89-99 | the first artifact of a retained name takes the retained href and cas_hash, and every other artifact is untouched |
| Noarch.RewriteRemoved | alws/utils/noarch.py:90-97 | the old href of the first artifact of each retained name is recorded for removal in its bucket's list |
| Noarch.RowsFor | alws/utils/noarch.py:101-111 | one new `rpm` row per leftover name, for that task, carrying the retained href and cas_hash |
| Noarch.BinaryRpmsFor | alws/utils/noarch.py:112-116 | no BinaryRpm for the originating task, and otherwise one per new row, linking it to the build |
| Noarch.Hrefs | alws/utils/noarch.py:75-76 | the hrefs of a bucket, in order |
| Noarch.RepoUpdates | alws/utils/noarch.py:118-131 | the repo update map keeps unique keys |
| Noarch.LastEligible | alws/utils/noarch.py:118-128 | the last eligible repository with a given href, or None when there is none |
| Noarch.RepoUpdatesSpec | alws/utils/noarch.py:118-131 | a repository href maps to the lists of the last eligible repo with that href: the debug lists for a debug repo, the regular ones otherwise |
| Noarch.RepoUpdatesKeys | alws/utils/noarch.py:118-131 | a href has an entry exactly when it had one or some `rpm`, non-`src` repo of the task's arch has it |
| Noarch.Reconcile | alws/utils/noarch.py:78-131 | the sibling loop's repo update map keeps unique keys |
| Noarch.ReconcileSnoc | alws/utils/noarch.py:78-131 | the loop over siblings is the fold of the per-task step |
| Noarch.ModifyCalls | alws/utils/noarch.py:136-141 | one modify_repository call per entry of the update map, in order, with its add and remove lists |
| Noarch.ModifyCallsDistinct | alws/utils/noarch.py:136-141 | exactly one modify call per repository href |
| Noarch.RetargetArtifact | alws/utils/noarch.py:90-99 | the body of the artifact loop performs one step of Rewrite |
| Noarch.RewriteAt | alws/utils/noarch.py:89-99 | rewriting artifact `i` in place extends the rewrite by one artifact |
| Noarch.RewriteTaskArtifacts | alws/utils/noarch.py:82-99 | the task's artifacts become the Rewrite of the old ones, with the removed hrefs and leftovers it yields |
| Noarch.CreateRows | alws/utils/noarch.py:101-116 | the new rows and BinaryRpms are RowsFor and BinaryRpmsFor |
| Noarch.CollectRepoUpdates | alws/utils/noarch.py:118-131 | the repository loop computes RepoUpdates |
| Noarch.ReconcileTask | alws/utils/noarch.py:79-131 | one sibling: skipped when FAILED or EXCLUDED, otherwise rewritten, its rows created and its repos updated |
| Noarch.ReconcileSiblings | alws/utils/noarch.py:78-131 | the sibling loop computes Reconcile, and every sibling ends with its final artifacts |
| Noarch.SaveNoarchPackages | alws/utils/noarch.py:45-144 | nothing changes and nothing is returned unless every sibling is finished and a bucket is non-empty; otherwise the BinaryRpms of Reconcile are returned, the rows are persisted before the modify calls, and every sibling holds its final artifacts |
| Noarch.AllArtifactsOf | alws/utils/noarch.py:66-68 | the candidate rows are all sibling artifacts, task by task |
| Noarch.Retained | alws/utils/noarch.py:101 | the retained content of a name, present exactly when either bucket has it |
| Noarch.TaskRowsSpec | alws/utils/noarch.py:101-111 | the new rows of a task carry its id, kind `rpm` and the retained content of names the task did not carry; each such name gets a row; no name gets two rows |
| Noarch.TaskCarriesRetained | alws/utils/noarch.py:89-111 | after reconciliation a non-skipped sibling holds every retained name with the retained href, on an existing artifact or a new row |
| Noarch.OthersUntouched | alws/utils/noarch.py:79-99 | artifacts of skipped tasks, later duplicates and non-retained names are not changed |
| Noarch.ReconcileCollectsRows | alws/utils/noarch.py:78-111 | every new row of every non-skipped sibling is created |
| Noarch.ReconcileRowsFromActiveTasks | alws/utils/noarch.py:78-111 | every created row belongs to a non-skipped sibling |
| Noarch.ReconcileBinaryRpms | alws/utils/noarch.py:101-116 | a BinaryRpm exists for a new row exactly when the row's task is not the originating task, always linked to the build |
| Noarch.ReconcileUpdateKeys | alws/utils/noarch.py:78-131 | a repository is updated exactly when some non-skipped sibling has an eligible repository with its href |
| Noarch.UpdateKeysStep | alws/utils/noarch.py:118-131 | one sibling adds exactly the hrefs of its eligible repositories |
| Products.Compatible | alws/dramatiq/products.py:42-51 | keeps exactly the compatible packages: noarch for any non-`src` repo, `i686` for `i686` and `x86_64` repos, otherwise an exact arch match |
| Products.FilterByArch | alws/dramatiq/products.py:42-51 | the loop computes Compatible |
| Products.SrcTakesOnlySrc | alws/dramatiq/products.py:45-50 | a `src` repository only receives `src` packages |
| Products.Dedup | alws/dramatiq/products.py:65-70 | the dedup mapping has unique keys |
| Products.FirstAllowed | alws/dramatiq/products.py:66-70 | the first package with a location that is not blacklisted, or None |
| Products.DedupFirstWins | alws/dramatiq/products.py:65-70 | a location maps to the href of its first non-blacklisted package; a blacklisted href does not claim the name |
| Products.DedupEntry | alws/dramatiq/products.py:65-70 | every mapping entry comes from a winning package |
| Products.DedupValuesDistinct | alws/dramatiq/products.py:65-76 | when an href determines its location, the mapping's values are distinct |
| Products.Unseen | alws/dramatiq/products.py:73-76 | exactly the hrefs not already in the product repository, duplicate-free when the input is |
| Products.Present | alws/dramatiq/products.py:78-81 | exactly the filtered build hrefs also present in the product repository |
| Products.DedupMapping | alws/dramatiq/products.py:65-70 | the loop computes Dedup |
| Products.GetPackages | alws/dramatiq/products.py:34-84 | keyed by the product repository's href, with the add-side or remove-side package list |
| Products.AddSideSound | alws/dramatiq/products.py:64-76 | every href added wins its name among compatible build packages, is not blacklisted and is not in the product repository |
| Products.AddSideComplete | alws/dramatiq/products.py:64-76 | every winning compatible build href missing from the product repository is added |
| Products.AddSideDistinct | alws/dramatiq/products.py:64-76 | the add list is duplicate-free when each href has one location |
| Products.RemoveSideSpec | alws/dramatiq/products.py:77-81 | an href is removed exactly when it is a compatible build package's and present in the product repository |
| Products.Build.constructor | alws/dramatiq/products.py:250-265 | a build with its id, repositories and tasks |
| Products.Product.constructor | alws/dramatiq/products.py:237-248 | a product with its owner, name, repositories, platforms and builds |
| Products.RepoMapping | alws/dramatiq/products.py:95-96 | every product repository's (arch, debug, platform name) key is mapped, to a product repository with that key, and that repository is the last one carrying the key |
| Products.PackageEntries | alws/dramatiq/products.py:98-111 | the package entries have unique keys |
| Products.LastFeeding | alws/dramatiq/products.py:98-111 | the last `rpm` build repository feeding a product repository href, or None |
| Products.PackageEntriesSpec | alws/dramatiq/products.py:98-111 | a product repository href is given the package list of the last build repository of its key |
| Products.AppendTo | alws/dramatiq/products.py:122 | `defaultdict(list)` append: the key's list grows by one and no other key changes |
| Products.ModuleEntries | alws/dramatiq/products.py:113-122 | appending module hrefs keeps unique keys |
| Products.ModulesFor | alws/dramatiq/products.py:113-122 | the module hrefs of COMPLETED tasks whose non-debug product repository has a given href |
| Products.ModuleEntriesSpec | alws/dramatiq/products.py:113-122 | a product repository's list gains its module hrefs after the package hrefs, for both add and remove |
| Products.ModifyDict | alws/dramatiq/products.py:87-124 | the modify dict has unique keys |
| Products.ModifyDictSpec | alws/dramatiq/products.py:87-124 | each entry is the package list followed by the module hrefs; every key is a product repository href, and a key is present exactly when an `rpm` build repository feeds it or a module task targets it |
| Products.CollectPackageEntries | alws/dramatiq/products.py:100-111 | the build repository loop computes PackageEntries |
| Products.AppendModules | alws/dramatiq/products.py:113-122 | the task loop computes ModuleEntries |
| Products.PrepareRepoModifyDict | alws/dramatiq/products.py:87-124 | computes ModifyDict of the build and the product |
| Products.RowIndexEntries | alws/dramatiq/products.py:137-141 | one repository's row of the name index: the old entries plus one name per platform; a name maps to the last platform giving it, and an old entry survives only when no platform gives its name |
| Products.NameIndexDomain | alws/dramatiq/products.py:137-163 | a name is indexed exactly when some repository/platform pair produces it, and it maps to such a platform |
| Products.NameIndexLastWriter | alws/dramatiq/products.py:137-141 | a later name overrides an earlier one: a name maps to the platform of the last (repository, platform) pair in comprehension order that produces it |
| Products.FirstMissing | alws/dramatiq/products.py:145-170 | the first repository whose name has no platform, all earlier assigned ones having one |
| Products.AssignPlatforms | alws/dramatiq/products.py:145-170 | platforms are assigned in order; the first unknown name stops the loop with a key error naming it |
| Products.TaskPlatforms | alws/dramatiq/products.py:159-163 | the platforms of the build's tasks, in order |
| Products.SetPlatformForProductsRepos | alws/dramatiq/products.py:127-146 | nothing changes when every repository has a platform; otherwise names `{owner}-{product}-{platform lower}-{arch}-{dr or debug-dr}` are looked up, and success leaves every repository with a platform |
| Products.SetPlatformForBuildRepos | alws/dramatiq/products.py:149-170 | nothing changes when every repository has a platform; otherwise names `{platform}-{arch}-{build id}-{br or debug-br}` are looked up for `rpm` repositories only, and success leaves every `rpm` repository with a platform |
| Products.Grouped | alws/dramatiq/products.py:173-197 | the groups have unique ref ids |
| Products.PairsOf | alws/dramatiq/products.py:176-196 | a ref's group holds exactly the (id, is-completed) pairs of its tasks, and it is empty for a ref no task has |
| Products.GroupedSpec | alws/dramatiq/products.py:173-197 | a ref has a group exactly when some task has that ref, and the group keeps task order |
| Products.GroupTasksByRefId | alws/dramatiq/products.py:173-197 | the loop computes Grouped |
| Products.FailedHeads | alws/dramatiq/products.py:210-214 | exactly the first task id of each group with no completed task |
| Products.GroupsNonEmpty | alws/dramatiq/products.py:176-196 | no group is empty |
| Products.PairsOfHead | alws/dramatiq/products.py:176-196 | a group starts with its ref's first task |
| Products.FirstWithRef | alws/dramatiq/products.py:176-196 | the first task of a ref |
| Products.AnyCompletedPairs | alws/dramatiq/products.py:192-213 | a group has a completed task exactly when its ref did not fail |
| Products.FailedHeadIsFirstOfFailedRef | alws/dramatiq/products.py:206-214 | each failed head is the first task of a failed ref |
| Products.FirstOfFailedRefIsHead | alws/dramatiq/products.py:206-214 | the first task of every failed ref is a failed head |
| Products.BlacklistOf | alws/dramatiq/products.py:216-222 | exactly the hrefs of `rpm` artifacts named `*src.rpm` of the given task ids |
| Products.GetPackagesToBlacklist | alws/dramatiq/products.py:200-224 | computes the blacklist of the build's tasks |
| Products.BlacklistSpec | alws/dramatiq/products.py:200-224 | an href is blacklisted exactly when it is an `rpm` `*src.rpm` artifact of the first task of a ref with no completed task |
| Products.ModifyCalls | alws/dramatiq/products.py:284-289 | one modify_repository per modify entry, in order, adding or removing its list |
| Products.PublishCalls | alws/dramatiq/products.py:293 | one create_rpm_publication per modify entry, in order |
| Products.CollectPulpCalls | alws/dramatiq/products.py:282-293 | the loop computes ModifyCalls and PublishCalls |
| Products.PulpCallOrder | alws/dramatiq/products.py:282-295 | every publication follows every modification; each modify key gets exactly one modification and one publication |
| Products.FirstIndex | alws/dramatiq/products.py:300 | the first position of a build in the product's builds |
| Products.RemoveFirst | alws/dramatiq/products.py:300 | `list.remove`: the first occurrence goes, the rest keep their order, the multiset loses one copy |
| Products.BackfillPlatforms | alws/dramatiq/products.py:272-273 | the product step and then the build step, each a no-op when every repository has a platform and otherwise the lookup loop up to the first missing name; a failing product step is the outcome, with the build repositories untouched; success leaves every product repository and every `rpm` build repository with a platform |
| Products.ProductStepOutcome | alws/dramatiq/products.py:127-146 | the product step raises exactly when some repository lacks a platform and a name is missing from the index |
| Products.UpdateBuilds | alws/dramatiq/products.py:297-308 | "add" appends the build; any other modification removes its first occurrence and raises when it is absent; a failed commit rolls back to the old builds |
| Products.PerformProductModification | alws/dramatiq/products.py:227-308 | the repositories' platforms end as the two backfill steps leave them, and MissingPlatform carries the name whose lookup raised; a missing platform stops the modification with no Pulp call and the builds unchanged; otherwise the blacklist applies to "add" only, the Pulp calls are those of the modify dict, and the builds are updated as UpdateBuilds says |
| Products.ModifyAndRecord | alws/dramatiq/products.py:275-308 | after the backfill: the Pulp calls are those planned from the modify dict, the builds change as UpdateBuilds says, and no repository's platform changes |
| Products.IssuePulpCalls | alws/dramatiq/products.py:275-295 | the calls issued are those planned from the modify dict |
| Beholder.BeholderClient.constructor | alws/utils/beholder_client.py:15-28 | an `Authorization: Bearer <token>` header exactly when the token is non-empty, and no other header |
| Beholder.ModuleEndpoints | alws/utils/beholder_client.py:43-49 | one module endpoint per (platform, arch) |
| Beholder.CreateEndpoints | alws/utils/beholder_client.py:30-50 | one `projects/` endpoint per platform in order, unless name, stream and a non-empty arch list are given, when there is one module endpoint per (platform, arch) |
| Beholder.ModuleEndpointAt | alws/utils/beholder_client.py:42-49 | module endpoints are platform-major: entry `i·|archs|+j` is platform `i` with arch `j` |
| Beholder.ModuleRowAt | alws/utils/beholder_client.py:43-49 | the same position rule for the module generator itself |
| Beholder.FirstServing | alws/utils/beholder_client.py:88-93 | the first platform whose name starts with the response's distribution name and whose version equals the response's, or None |
| Beholder.Effective | alws/utils/beholder_client.py:95 | a missing or zero priority becomes the lowest priority |
| Beholder.RankOf | alws/utils/beholder_client.py:86-95 | a response is ranked exactly when it names a distribution and some platform serves it, with the effective priority of the first such platform |
| Beholder.FirstUnranked | alws/utils/beholder_client.py:85-96 | the first response that cannot be ranked: every earlier one can, or None when all can |
| Beholder.Prioritised | alws/utils/beholder_client.py:84-96 | fails exactly when some response cannot be ranked, with KeyError when the first such response lacks its distribution and RuntimeError (a StopIteration raised inside the coroutine) when no platform serves it; otherwise every response with its priority, in order |
| Beholder.PrioritisedFailsAt | alws/utils/beholder_client.py:84-96 | once every earlier response is ranked, an unranked response decides the failure whatever follows it |
| Beholder.Insert | alws/utils/beholder_client.py:97 | inserting one response into the sorted list adds one entry |
| Beholder.InsertDescending | alws/utils/beholder_client.py:97 | insertion keeps the list in descending order |
| Beholder.InsertPermutes | alws/utils/beholder_client.py:97 | insertion loses and duplicates nothing |
| Beholder.InsertGroups | alws/utils/beholder_client.py:97 | insertion places the new entry ahead of the entries of equal priority and leaves every other priority's entries as they were |
| Beholder.SortDescending | alws/utils/beholder_client.py:97 | the sort keeps the length |
| Beholder.SortSorts | alws/utils/beholder_client.py:97 | `sorted(..., reverse=True)` yields a descending permutation |
| Beholder.SortGroups | alws/utils/beholder_client.py:97 | the sort is stable: entries of one priority keep their order |
| Beholder.ShapeComponent | alws/utils/beholder_client.py:121-133 | skipped exactly when packages or the sourcerpm are missing; a first package with no `epoch` key breaks the response, while a null epoch is copied; otherwise the packages plus the srpm with the first package's epoch and arch `src`, keyed by the srpm name |
| Beholder.Artifacts | alws/utils/beholder_client.py:120-133 | the component loop fails exactly when some component is broken, and yields unique keys |
| Beholder.LastEntry | alws/utils/beholder_client.py:133 | the last component whose srpm has a given name, or None |
| Beholder.ArtifactsSpec | alws/utils/beholder_client.py:120-133 | each srpm name maps to the packages of the last component carrying it |
| Beholder.QueryArtifacts | alws/utils/beholder_client.py:118-137 | a module gets artifacts exactly when its answer came, holds `artifacts` and has no broken component |
| Beholder.EndpointRequest | alws/utils/beholder_client.py:58-61 | POST with the data exactly when data is non-empty, otherwise GET; with the client's headers and no params |
| Beholder.EndpointRequests | alws/utils/beholder_client.py:57-61 | one request per endpoint, in order |
| Beholder.Answered | alws/utils/beholder_client.py:57-67 | no more answers than requests |
| Beholder.AnsweredFrom | alws/utils/beholder_client.py:57-67 | every answer is the reply to some request |
| Beholder.AnsweredAll | alws/utils/beholder_client.py:57-67 | when no request fails, there is one answer per request, in order |
| Beholder.AnsweredOne | alws/utils/beholder_client.py:57-67 | one request yields its answer, or nothing when it fails |
| Beholder.AnsweredAppend | alws/utils/beholder_client.py:57-67 | the answers of two runs of requests are those of the first followed by those of the second, so a failing request neither hides nor reorders the others' answers |
| Beholder.NoneAnswered | alws/utils/beholder_client.py:57-67 | no answer exactly when every request fails |
| Beholder.Retrieved | alws/utils/beholder_client.py:69-97 | reference platforms are queried before the platform; the result fails exactly when prioritising fails, with its error, and otherwise is a descending, stable permutation of the prioritised answers |
| Beholder.Collected | alws/utils/beholder_client.py:110-137 | unique module keys, each one of the names queried |
| Beholder.CollectedSpec | alws/utils/beholder_client.py:112-137 | each queried module name holds the shaped artifacts of its own answer, and is absent when the query failed |
| Beholder.ModuleNames | alws/utils/beholder_client.py:112 | the module and its `-devel` twin, which differ |
| Beholder.ModuleArtifacts | alws/utils/beholder_client.py:102-138 | only the module and its `-devel` twin can be keys, and each holds the shaped artifacts of its GET with `match=closest`, or is absent |
| Beholder.BeholderClient.IterEndpoints | alws/utils/beholder_client.py:52-67 | the requests sent, in order, and the answers of those that did not fail |
| Beholder.BeholderClient.PrioritiseResponses | alws/utils/beholder_client.py:84-96 | the priority loop computes Prioritised |
| Beholder.BeholderClient.RetrieveResponses | alws/utils/beholder_client.py:69-97 | computes Retrieved with the client's headers |
| Beholder.BeholderClient.ShapeArtifacts | alws/utils/beholder_client.py:120-133 | the component loop computes Artifacts |
| Beholder.BeholderClient.GetModuleArtifacts | alws/utils/beholder_client.py:102-138 | the loop over the two module names computes ModuleArtifacts with the client's headers |

## Left out

- Real I/O is not modelled. This covers HTTP sessions, `_get_url`/urljoin, timeouts, JSON decoding, the Gitea, Pulp and beholder clients, and the SQLAlchemy sessions, queries, flush, commit and rollback. Their results are parameters, and their effects are returned as ordered logs.
- Apart from the component batch of the next line, the `asyncio.gather` batches are modelled as sequential loops in list order, because each of their tasks works on its own key: the beholder checks (build_schema.py:495), the Pulp package listings (products.py:110), the Pulp modifications and publications (products.py:294-295) and the noarch repository modifications (noarch.py:136). The dramatiq actor and its event loop are not part of this model.
- BuildSchema.CollectRefs: the source gathers the `_get_module_ref` tasks of all components (build_schema.py:502-516). They share and mutate the two module descriptors, so their effects land in the order the tasks complete, and when one raises the others keep running. The model runs the components one after another in component order and stops at the first that raises. Its descriptor contents are therefore one possible interleaving, and on that error path it does not record the effects of later components.
- Pulp calls are modelled as always succeeding; a failing `modify_repository` or publication is not modelled.
- Some collaborators are uninterpreted parameters: `clean_release`, `get_clean_distr_name`, `get_modified_refs_list`, `ModuleWrapper.is_devel` and the beholder/Gitea responses.
- `ModuleWrapper` is not part of this model beyond the two calls `add_rpm_artifact` and `set_component_ref`, seen through the descriptor's log. Its `render`, `iter_components`, `iter_mock_definitions`, `get_all_build_deps`, `RpmArtifact.from_pulp_model` and `download_modules_yaml` are left out.
- `LOWEST_PRIORITY` and `BuildTaskStatus` are not part of this model.
  - `LOWEST_PRIORITY` is a parameter.
  - `is_finished` is taken to be COMPLETED, FAILED or EXCLUDED.
- Pydantic validation, `settings` (`package_beholder_enabled` is a parameter), logging and pprint are left out.
- Products.PerformProductModification: the rollback restores only `product.builds`; Pulp changes already made are not undone, as in the source.
- Products.PerformProductModification: the model writes `product.builds` before it lists the Pulp calls, while the source does so after they complete. The reorder is safe because the calls read only repositories and tasks, and the builds write reads neither.
- Products.PerformProductModification, Products.BackfillPlatforms, Products.AssignPlatforms: these require the repositories of a product, and of a build, to be distinct objects, as database rows are. The first two also require that no repository belongs to both the product and the build; product repositories (`…-dr`) and build repositories (`…-br`) are different rows.
- Products.AddSideDistinct: its duplicate-freedom assumes each Pulp href has one `location_href`, as Pulp content units do.
- Products.PerformProductModification: any modification other than "add" takes the remove side, as the source's `else` branches do.
- Products.UpdateBuilds: removing a build that is not in the product raises ValueError in the source. The model reports this as NotInProduct with the builds unchanged; the Pulp calls have already been made.
- Beholder.Answered: the source's generator is lazy, so a KeyError or RuntimeError in the priority lookup stops sending further requests. The model lists every request, but the result for that case is the same failure.
- BuildSchema.UrlPath: models `urlparse` for absolute `scheme://netloc...` URLs only, which is what the `url: AnyHttpUrl` field (build_schema.py:29) admits. A relative URL such as `foo.git`, which validation rejects, is not given its Python path. The `;params` cut is that of `http` and `https`, the schemes `AnyHttpUrl` allows.
- BuildSchema.LastSegment: inherits the absolute-URL restriction of BuildSchema.UrlPath.
- BuildSchema.GitRepoName: inherits the absolute-URL restriction of BuildSchema.UrlPath.
- Beholder.CreateEndpoints: a missing arch list or data is modelled as an empty list, which Python treats the same way.
- Beholder.ShapeComponent: an srpm is assumed to have a `name`, and a missing `packages` key is treated as an empty list.
- Beholder.SortDescending: its own contract states only the length; order, permutation and stability are in SortSorts and SortGroups.
- Text.ToLower: `str.lower()` is modelled for ASCII letters only; there is no Unicode case folding.
- The order of SQL query results is taken to be the order of the sequences passed in (siblings, artifacts, tasks).
- Noarch.SaveNoarchPackages: a second run, when every sibling already carries the retained hrefs, still issues a modify call per eligible repository, as the source does.
- Products.BlacklistSpec: only the first task of each failed ref group feeds the blacklist, as the code does; other tasks of the group are not consulted.
