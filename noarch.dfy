/**
 * The noarch reconciler (alws/utils/noarch.py): once every sibling task of a
 * build index has finished, one copy of each architecture-independent package
 * is chosen per file name and every non-failed sibling is made to point at it.
 */
module Noarch {
  import opened Wrappers
  import opened Text
  import opened Dicts
  import opened Models

  /** A build_task_artifacts row as it is read from the database. */
  datatype Artifact = Artifact(name: string, kind: string, href: string, casHash: Option<string>)

  /** The (href, cas_hash) pair kept per noarch file name. */
  type Content = (string, Option<string>)

  /** A build task as the reconciler reads it. */
  datatype TaskView = TaskView(id: nat, status: TaskStatus, arch: string, artifacts: seq<Artifact>)

  /** A build task whose artifact rows are rewritten in place. */
  class BuildTask {
    const id: nat
    const status: TaskStatus
    const arch: string
    var artifacts: seq<Artifact>

    constructor (id: nat, status: TaskStatus, arch: string, artifacts: seq<Artifact>)
      ensures View() == TaskView(id, status, arch, artifacts)
    {
      this.id := id;
      this.status := status;
      this.arch := arch;
      this.artifacts := artifacts;
    }

    function View(): TaskView
      reads this
    {
      TaskView(id, status, arch, artifacts)
    }
  }

  function Views(ts: seq<BuildTask>): (r: seq<TaskView>)
    reads set t | t in ts
    ensures |r| == |ts|
    ensures forall i :: 0 <= i < |ts| ==> r[i] == ts[i].View()
  {
    if ts == [] then [] else Views(ts[..|ts| - 1]) + [ts[|ts| - 1].View()]
  }

  /** A new build_task_artifacts row. */
  datatype NewArtifact = NewArtifact(taskId: nat, name: string, kind: string, href: string, casHash: Option<string>)

  /** A new binary_rpms row, linking a new artifact to the build. */
  datatype BinaryRpm = BinaryRpm(artifact: NewArtifact, buildId: nat)

  /** What one repository is to receive and lose. */
  datatype RepoUpdate = RepoUpdate(add: seq<string>, remove: seq<string>)

  /** What the reconciler does to the outside world, in order. */
  datatype Effect =
    | PersistRows(rows: seq<NewArtifact>)
    | ModifyRepository(repoHref: string, add: seq<string>, remove: seq<string>)

  /** The SQL filter of get_noarch_packages: `type == 'rpm'` and `name LIKE '%.noarch.%'`. */
  predicate IsNoarchRpm(a: Artifact) {
    a.kind == "rpm" && Contains(a.name, ".noarch.")
  }

  predicate IsDebugName(name: string) {
    Contains(name, "-debuginfo-") || Contains(name, "-debugsource-")
  }

  predicate Skipped(t: TaskView) {
    t.status == Failed || t.status == Excluded
  }

  /** The artifact rows of the given tasks, task by task. */
  function AllArtifacts(ts: seq<TaskView>): seq<Artifact> {
    if ts == [] then [] else AllArtifacts(ts[..|ts| - 1]) + ts[|ts| - 1].artifacts
  }

  /** The rows the database returns for the noarch query, in the order scanned. */
  function NoarchRows(rows: seq<Artifact>): (r: seq<Artifact>)
    ensures forall a :: a in r <==> a in rows && IsNoarchRpm(a)
  {
    if rows == [] then []
    else
      var init := NoarchRows(rows[..|rows| - 1]);
      var last := rows[|rows| - 1];
      assert rows == rows[..|rows| - 1] + [last];
      if IsNoarchRpm(last) then init + [last] else init
  }

  /**
   * The two buckets of get_noarch_packages, filled row by row: debug names
   * (`-debuginfo-`, `-debugsource-`) in the second, the rest in the first.
   */
  function Buckets(rows: seq<Artifact>): (r: (Dict<string, Content>, Dict<string, Content>))
    ensures KeysUnique(r.0) && KeysUnique(r.1)
    decreases |rows|
  {
    if rows == [] then ([], [])
    else
      var b := Buckets(rows[..|rows| - 1]);
      var a := rows[|rows| - 1];
      if IsDebugName(a.name) then (b.0, Put(b.1, a.name, (a.href, a.casHash)))
      else (Put(b.0, a.name, (a.href, a.casHash)), b.1)
  }

  /** Row `k` carries `name` and no later row does. */
  predicate LastNamedAt(rows: seq<Artifact>, name: string, k: int) {
    0 <= k < |rows| && rows[k].name == name && forall j :: k < j < |rows| ==> rows[j].name != name
  }

  /** The content of the last row named `name`. */
  function LastNamed(rows: seq<Artifact>, name: string): (r: Option<Content>)
    ensures r.Some? <==> exists k :: 0 <= k < |rows| && rows[k].name == name
    ensures r.Some? ==> exists k :: LastNamedAt(rows, name, k) && r.value == (rows[k].href, rows[k].casHash)
  {
    if rows == [] then None
    else
      var a := rows[|rows| - 1];
      if a.name == name then
        assert LastNamedAt(rows, name, |rows| - 1);
        Some((a.href, a.casHash))
      else
        var init := rows[..|rows| - 1];
        var r := LastNamed(init, name);
        assert forall k :: 0 <= k < |rows| - 1 ==> init[k] == rows[k];
        assert r.Some? ==> exists k :: LastNamedAt(rows, name, k) && r.value == (rows[k].href, rows[k].casHash) by {
          if r.Some? {
            var k :| LastNamedAt(init, name, k) && r.value == (init[k].href, init[k].casHash);
            assert LastNamedAt(rows, name, k);
          }
        }
        r
  }

  /**
   * Later rows overwrite earlier ones: each bucket maps a name to the content
   * of the last row carrying it, and a name lands in exactly one bucket.
   */
  lemma {:induction false} BucketsAreLastWriterWins(rows: seq<Artifact>, name: string)
    ensures Get(Buckets(rows).0, name) == (if IsDebugName(name) then None else LastNamed(rows, name))
    ensures Get(Buckets(rows).1, name) == (if IsDebugName(name) then LastNamed(rows, name) else None)
    decreases |rows|
  {
    if rows != [] {
      BucketsAreLastWriterWins(rows[..|rows| - 1], name);
    }
  }

  ghost predicate Disjoint(a: Dict<string, Content>, b: Dict<string, Content>) {
    forall n :: !(HasKey(a, n) && HasKey(b, n))
  }

  /** No name is in both buckets. */
  lemma BucketsDisjoint(rows: seq<Artifact>)
    ensures Disjoint(Buckets(rows).0, Buckets(rows).1)
  {
    forall n ensures !(HasKey(Buckets(rows).0, n) && HasKey(Buckets(rows).1, n)) {
      BucketsAreLastWriterWins(rows, n);
    }
  }

  /** Every retained name came from a noarch rpm row of the query. */
  lemma BucketKeysAreNoarch(candidates: seq<Artifact>, name: string)
    requires HasKey(Buckets(NoarchRows(candidates)).0, name) || HasKey(Buckets(NoarchRows(candidates)).1, name)
    ensures Contains(name, ".noarch.")
    ensures exists a :: a in candidates && a.kind == "rpm" && a.name == name
  {
    var rows := NoarchRows(candidates);
    BucketsAreLastWriterWins(rows, name);
    var k :| 0 <= k < |rows| && rows[k].name == name;
    assert rows[k] in rows;
  }

  /** get_noarch_packages: the query, then the bucket-filling loop. */
  method GetNoarchPackages(candidates: seq<Artifact>)
    returns (noarch: Dict<string, Content>, debugNoarch: Dict<string, Content>)
    ensures (noarch, debugNoarch) == Buckets(NoarchRows(candidates))
  {
    var rows := NoarchRows(candidates);
    noarch, debugNoarch := [], [];
    for i := 0 to |rows|
      invariant (noarch, debugNoarch) == Buckets(rows[..i])
    {
      var artifact := rows[i];
      assert rows[..i + 1][..i] == rows[..i];
      if IsDebugName(artifact.name) {
        debugNoarch := Put(debugNoarch, artifact.name, (artifact.href, artifact.casHash));
        continue;
      }
      noarch := Put(noarch, artifact.name, (artifact.href, artifact.casHash));
    }
    assert rows[..|rows|] == rows;
  }

  // ---------------------------------------------------------------------------
  // Rewriting one task's artifacts
  // ---------------------------------------------------------------------------

  /** The state of the per-task loop over `task.artifacts`. */
  datatype Rewriting = Rewriting(
    artifacts: seq<Artifact>,
    removed: seq<string>,
    debugRemoved: seq<string>,
    left: Dict<string, Content>,
    debugLeft: Dict<string, Content>)

  function Retarget(a: Artifact, c: Content): Artifact {
    a.(href := c.0, casHash := c.1)
  }

  /** One iteration: the artifact takes the retained content and its old href is recorded. */
  function RewriteOne(st: Rewriting, a: Artifact): Rewriting
    requires KeysUnique(st.left) && KeysUnique(st.debugLeft)
  {
    var inRegular := HasKey(st.left, a.name);
    var a1 := if inRegular then Retarget(a, Get(st.left, a.name).value) else a;
    var removed := if inRegular then st.removed + [a.href] else st.removed;
    var left := if inRegular then Remove(st.left, a.name) else st.left;
    var inDebug := HasKey(st.debugLeft, a1.name);
    var a2 := if inDebug then Retarget(a1, Get(st.debugLeft, a1.name).value) else a1;
    var debugRemoved := if inDebug then st.debugRemoved + [a1.href] else st.debugRemoved;
    var debugLeft := if inDebug then Remove(st.debugLeft, a1.name) else st.debugLeft;
    Rewriting(st.artifacts + [a2], removed, debugRemoved, left, debugLeft)
  }

  /** The loop over a task's artifacts, on per-task copies of the two buckets. */
  function Rewrite(arts: seq<Artifact>, noarch: Dict<string, Content>, debug: Dict<string, Content>): (r: Rewriting)
    requires KeysUnique(noarch) && KeysUnique(debug)
    ensures KeysUnique(r.left) && KeysUnique(r.debugLeft)
    ensures |r.artifacts| == |arts|
    decreases |arts|
  {
    if arts == [] then Rewriting([], [], [], noarch, debug)
    else RewriteOne(Rewrite(arts[..|arts| - 1], noarch, debug), arts[|arts| - 1])
  }

  /** No earlier artifact of the task has the name of the `k`-th. */
  predicate FirstAt(arts: seq<Artifact>, k: nat)
    requires k < |arts|
  {
    forall j :: 0 <= j < k ==> arts[j].name != arts[k].name
  }

  predicate NamedIn(arts: seq<Artifact>, name: string) {
    exists k :: 0 <= k < |arts| && arts[k].name == name
  }

  /** What the `k`-th artifact should become. */
  function Expected(arts: seq<Artifact>, k: nat, noarch: Dict<string, Content>, debug: Dict<string, Content>): Artifact
    requires k < |arts|
  {
    var a := arts[k];
    if FirstAt(arts, k) && HasKey(noarch, a.name) then Retarget(a, Get(noarch, a.name).value)
    else if FirstAt(arts, k) && HasKey(debug, a.name) then Retarget(a, Get(debug, a.name).value)
    else a
  }

  /** The old hrefs of the first artifacts named after a key of `d`, in artifact order. */
  function FirstHrefs(arts: seq<Artifact>, d: Dict<string, Content>): seq<string> {
    if arts == [] then []
    else
      var k := |arts| - 1;
      FirstHrefs(arts[..k], d) + (if FirstAt(arts, k) && HasKey(d, arts[k].name) then [arts[k].href] else [])
  }

  lemma FirstAtPrefix(arts: seq<Artifact>, k: nat, m: nat)
    requires k < m <= |arts|
    ensures FirstAt(arts[..m], k) == FirstAt(arts, k)
  {
  }

  lemma NamedInSnoc(arts: seq<Artifact>, name: string)
    requires |arts| > 0
    ensures NamedIn(arts, name) <==> NamedIn(arts[..|arts| - 1], name) || arts[|arts| - 1].name == name
  {
    if NamedIn(arts, name) {
      var k :| 0 <= k < |arts| && arts[k].name == name;
      if k < |arts| - 1 { assert arts[..|arts| - 1][k] == arts[k]; }
    }
    if NamedIn(arts[..|arts| - 1], name) {
      var k :| 0 <= k < |arts| - 1 && arts[..|arts| - 1][k].name == name;
      assert arts[k].name == name;
    }
  }

  lemma FirstAtLast(arts: seq<Artifact>)
    requires |arts| > 0
    ensures FirstAt(arts, |arts| - 1) <==> !NamedIn(arts[..|arts| - 1], arts[|arts| - 1].name)
  {
    var k := |arts| - 1;
    if !FirstAt(arts, k) {
      var j :| 0 <= j < k && arts[j].name == arts[k].name;
      assert arts[..k][j] == arts[j];
    }
    if NamedIn(arts[..k], arts[k].name) {
      var j :| 0 <= j < k && arts[..k][j].name == arts[k].name;
      assert arts[j] == arts[..k][j];
    }
  }

  /**
   * The per-task rewrite does what the loop promises: the first artifact with a
   * retained name takes the retained (href, cas_hash), every other artifact is
   * left alone, the old hrefs of the rewritten ones are recorded in the matching
   * bucket's list, and what is left of each bucket is exactly the retained names
   * the task does not carry.
   */
  lemma RewriteSpec(arts: seq<Artifact>, noarch: Dict<string, Content>, debug: Dict<string, Content>)
    requires KeysUnique(noarch) && KeysUnique(debug) && Disjoint(noarch, debug)
    ensures forall k :: 0 <= k < |arts| ==> Rewrite(arts, noarch, debug).artifacts[k] == Expected(arts, k, noarch, debug)
    ensures forall n :: Get(Rewrite(arts, noarch, debug).left, n) == (if NamedIn(arts, n) then None else Get(noarch, n))
    ensures forall n :: Get(Rewrite(arts, noarch, debug).debugLeft, n) == (if NamedIn(arts, n) then None else Get(debug, n))
    ensures Rewrite(arts, noarch, debug).removed == FirstHrefs(arts, noarch)
    ensures Rewrite(arts, noarch, debug).debugRemoved == FirstHrefs(arts, debug)
  {
    RewriteLeft(arts, noarch, debug);
    RewriteArtifacts(arts, noarch, debug);
    RewriteRemoved(arts, noarch, debug);
  }

  /** What is left of each bucket is the retained names the artifacts do not carry. */
  lemma {:induction false} RewriteLeft(arts: seq<Artifact>, noarch: Dict<string, Content>, debug: Dict<string, Content>)
    requires KeysUnique(noarch) && KeysUnique(debug)
    ensures forall n :: Get(Rewrite(arts, noarch, debug).left, n) == (if NamedIn(arts, n) then None else Get(noarch, n))
    ensures forall n :: Get(Rewrite(arts, noarch, debug).debugLeft, n) == (if NamedIn(arts, n) then None else Get(debug, n))
    decreases |arts|
  {
    if arts != [] {
      var k := |arts| - 1;
      RewriteLeft(arts[..k], noarch, debug);
      assert Rewrite(arts, noarch, debug) == RewriteOne(Rewrite(arts[..k], noarch, debug), arts[k]);
      forall n ensures NamedIn(arts, n) <==> NamedIn(arts[..k], n) || arts[k].name == n {
        NamedInSnoc(arts, n);
      }
    }
  }

  /** The first artifact with a retained name takes the retained content; every other is left alone. */
  lemma {:induction false} RewriteArtifacts(arts: seq<Artifact>, noarch: Dict<string, Content>, debug: Dict<string, Content>)
    requires KeysUnique(noarch) && KeysUnique(debug) && Disjoint(noarch, debug)
    ensures forall k :: 0 <= k < |arts| ==> Rewrite(arts, noarch, debug).artifacts[k] == Expected(arts, k, noarch, debug)
    decreases |arts|
  {
    if arts != [] {
      var k := |arts| - 1;
      RewriteArtifacts(arts[..k], noarch, debug);
      RewriteLeft(arts[..k], noarch, debug);
      var st := Rewrite(arts[..k], noarch, debug);
      var a := arts[k];
      assert Rewrite(arts, noarch, debug) == RewriteOne(st, a);
      FirstAtLast(arts);
      assert Get(st.left, a.name) == (if NamedIn(arts[..k], a.name) then None else Get(noarch, a.name));
      assert Get(st.debugLeft, a.name) == (if NamedIn(arts[..k], a.name) then None else Get(debug, a.name));
      forall j | 0 <= j < k ensures Expected(arts, j, noarch, debug) == Expected(arts[..k], j, noarch, debug) {
        FirstAtPrefix(arts, j, k);
      }
    }
  }

  /** The old hrefs of the rewritten artifacts, in order, per bucket. */
  lemma {:induction false} RewriteRemoved(arts: seq<Artifact>, noarch: Dict<string, Content>, debug: Dict<string, Content>)
    requires KeysUnique(noarch) && KeysUnique(debug) && Disjoint(noarch, debug)
    ensures Rewrite(arts, noarch, debug).removed == FirstHrefs(arts, noarch)
    ensures Rewrite(arts, noarch, debug).debugRemoved == FirstHrefs(arts, debug)
    decreases |arts|
  {
    if arts != [] {
      var k := |arts| - 1;
      RewriteRemoved(arts[..k], noarch, debug);
      RewriteLeft(arts[..k], noarch, debug);
      var st := Rewrite(arts[..k], noarch, debug);
      var a := arts[k];
      assert Rewrite(arts, noarch, debug) == RewriteOne(st, a);
      FirstAtLast(arts);
      assert Get(st.left, a.name) == (if NamedIn(arts[..k], a.name) then None else Get(noarch, a.name));
      assert Get(st.debugLeft, a.name) == (if NamedIn(arts[..k], a.name) then None else Get(debug, a.name));
    }
  }

  // ---------------------------------------------------------------------------
  // Rows to create and repositories to update
  // ---------------------------------------------------------------------------

  /** One new rpm artifact row per entry of `toCreate`, in order. */
  function RowsFor(taskId: nat, toCreate: Dict<string, Content>): (r: seq<NewArtifact>)
    ensures |r| == |toCreate|
    ensures forall i :: 0 <= i < |r| ==>
      r[i] == NewArtifact(taskId, toCreate[i].0, "rpm", toCreate[i].1.0, toCreate[i].1.1)
  {
    seq(|toCreate|, i requires 0 <= i < |toCreate| =>
      NewArtifact(taskId, toCreate[i].0, "rpm", toCreate[i].1.0, toCreate[i].1.1))
  }

  /** A BinaryRpm per new row, unless the task is the one the reconciler was called for. */
  function BinaryRpmsFor(rows: seq<NewArtifact>, taskId: nat, buildTaskId: nat, buildId: nat): (r: seq<BinaryRpm>)
    ensures taskId == buildTaskId ==> r == []
    ensures taskId != buildTaskId ==> |r| == |rows| && forall i :: 0 <= i < |r| ==> r[i] == BinaryRpm(rows[i], buildId)
  {
    if taskId == buildTaskId then []
    else seq(|rows|, i requires 0 <= i < |rows| => BinaryRpm(rows[i], buildId))
  }

  function Hrefs(d: Dict<string, Content>): (r: seq<string>)
    ensures |r| == |d| && forall i :: 0 <= i < |d| ==> r[i] == d[i].1.0
  {
    seq(|d|, i requires 0 <= i < |d| => d[i].1.0)
  }

  /** The build repositories the reconciler touches for a task of architecture `arch`. */
  predicate Eligible(repo: Repository, arch: string) {
    repo.arch != "src" && repo.repoType == "rpm" && repo.arch == arch
  }

  /** The repository loop of one task: one entry per eligible repository, overwriting. */
  function RepoUpdates(repos: seq<Repository>, arch: string, add: seq<string>, remove: seq<string>,
                       debugAdd: seq<string>, debugRemove: seq<string>,
                       acc: Dict<string, RepoUpdate>): (r: Dict<string, RepoUpdate>)
    ensures KeysUnique(acc) ==> KeysUnique(r)
    decreases |repos|
  {
    if repos == [] then acc
    else
      var r := RepoUpdates(repos[..|repos| - 1], arch, add, remove, debugAdd, debugRemove, acc);
      var repo := repos[|repos| - 1];
      if !Eligible(repo, arch) then r
      else if repo.debug then Put(r, repo.pulpHref, RepoUpdate(debugAdd, debugRemove))
      else Put(r, repo.pulpHref, RepoUpdate(add, remove))
  }

  /** Accumulated results of the loop over sibling tasks. */
  datatype Outcome = Outcome(newRows: seq<NewArtifact>, binaryRpms: seq<BinaryRpm>, updates: Dict<string, RepoUpdate>)

  /** Per-task results of one non-skipped sibling. */
  function TaskRows(t: TaskView, noarch: Dict<string, Content>, debug: Dict<string, Content>): seq<NewArtifact>
    requires KeysUnique(noarch) && KeysUnique(debug)
  {
    var rw := Rewrite(t.artifacts, noarch, debug);
    RowsFor(t.id, Merge(rw.left, rw.debugLeft))
  }

  /** One iteration of the loop over siblings: a skipped task contributes nothing. */
  function ReconcileOne(acc: Outcome, t: TaskView, noarch: Dict<string, Content>, debug: Dict<string, Content>,
                        buildTaskId: nat, buildId: nat, repos: seq<Repository>): Outcome
    requires KeysUnique(noarch) && KeysUnique(debug)
  {
    if Skipped(t) then acc
    else
      var rw := Rewrite(t.artifacts, noarch, debug);
      var rows := TaskRows(t, noarch, debug);
      Outcome(
        acc.newRows + rows,
        acc.binaryRpms + BinaryRpmsFor(rows, t.id, buildTaskId, buildId),
        RepoUpdates(repos, t.arch, Hrefs(noarch), rw.removed, Hrefs(debug), rw.debugRemoved, acc.updates))
  }

  function Reconcile(ts: seq<TaskView>, noarch: Dict<string, Content>, debug: Dict<string, Content>,
                     buildTaskId: nat, buildId: nat, repos: seq<Repository>): (r: Outcome)
    requires KeysUnique(noarch) && KeysUnique(debug)
    ensures KeysUnique(r.updates)
    decreases |ts|
  {
    if ts == [] then Outcome([], [], [])
    else ReconcileOne(Reconcile(ts[..|ts| - 1], noarch, debug, buildTaskId, buildId, repos), ts[|ts| - 1],
                      noarch, debug, buildTaskId, buildId, repos)
  }

  lemma ReconcileSnoc(ts: seq<TaskView>, i: nat, noarch: Dict<string, Content>, debug: Dict<string, Content>,
                      buildTaskId: nat, buildId: nat, repos: seq<Repository>)
    requires i < |ts| && KeysUnique(noarch) && KeysUnique(debug)
    ensures Reconcile(ts[..i + 1], noarch, debug, buildTaskId, buildId, repos)
      == ReconcileOne(Reconcile(ts[..i], noarch, debug, buildTaskId, buildId, repos), ts[i],
                      noarch, debug, buildTaskId, buildId, repos)
  {
    assert ts[..i + 1][..i] == ts[..i];
  }

  function ModifyCalls(updates: Dict<string, RepoUpdate>): (r: seq<Effect>)
    ensures |r| == |updates|
    ensures forall i :: 0 <= i < |r| ==> r[i] == ModifyRepository(updates[i].0, updates[i].1.add, updates[i].1.remove)
  {
    seq(|updates|, i requires 0 <= i < |updates| =>
      ModifyRepository(updates[i].0, updates[i].1.add, updates[i].1.remove))
  }

  predicate AllFinished(ts: seq<TaskView>) {
    forall i :: 0 <= i < |ts| ==> ts[i].status.IsFinished()
  }

  /** What the artifacts of a sibling become. */
  function FinalArtifacts(t: TaskView, noarch: Dict<string, Content>, debug: Dict<string, Content>): seq<Artifact>
    requires KeysUnique(noarch) && KeysUnique(debug)
  {
    if Skipped(t) then t.artifacts else Rewrite(t.artifacts, noarch, debug).artifacts
  }

  // ---------------------------------------------------------------------------
  // The imperative reconciler
  // ---------------------------------------------------------------------------

  /** The body of the loop over a task's artifacts, for one artifact. */
  method RetargetArtifact(artifact: Artifact, hrefsToDelete: seq<string>, debugHrefsToDelete: seq<string>,
                          left: Dict<string, Content>, debugLeft: Dict<string, Content>)
    returns (a: Artifact, hrefsToDelete': seq<string>, debugHrefsToDelete': seq<string>,
             left': Dict<string, Content>, debugLeft': Dict<string, Content>)
    requires KeysUnique(left) && KeysUnique(debugLeft)
    ensures RewriteOne(Rewriting([], hrefsToDelete, debugHrefsToDelete, left, debugLeft), artifact)
      == Rewriting([a], hrefsToDelete', debugHrefsToDelete', left', debugLeft')
  {
    a, hrefsToDelete', debugHrefsToDelete', left', debugLeft' := artifact, hrefsToDelete, debugHrefsToDelete, left, debugLeft;
    if HasKey(left', a.name) {
      hrefsToDelete' := hrefsToDelete' + [a.href];
      var content := Get(left', a.name).value;
      left' := Remove(left', a.name);
      a := Retarget(a, content);
    }
    if HasKey(debugLeft', a.name) {
      debugHrefsToDelete' := debugHrefsToDelete' + [a.href];
      var content := Get(debugLeft', a.name).value;
      debugLeft' := Remove(debugLeft', a.name);
      a := Retarget(a, content);
    }
  }

  /** One more artifact through the per-artifact step extends the rewrite by one. */
  lemma RewriteSnoc(arts: seq<Artifact>, i: nat, noarch: Dict<string, Content>, debug: Dict<string, Content>,
                    a: Artifact, removed: seq<string>, debugRemoved: seq<string>,
                    left: Dict<string, Content>, debugLeft: Dict<string, Content>)
    requires i < |arts| && KeysUnique(noarch) && KeysUnique(debug)
    requires var st := Rewrite(arts[..i], noarch, debug);
      RewriteOne(Rewriting([], st.removed, st.debugRemoved, st.left, st.debugLeft), arts[i])
        == Rewriting([a], removed, debugRemoved, left, debugLeft)
    ensures Rewrite(arts[..i + 1], noarch, debug)
      == Rewriting(Rewrite(arts[..i], noarch, debug).artifacts + [a], removed, debugRemoved, left, debugLeft)
  {
    assert arts[..i + 1][..i] == arts[..i];
  }

  lemma SetAtBoundary(done: seq<Artifact>, arts: seq<Artifact>, i: nat)
    requires i < |arts| && |done| == i + 1
    ensures (done[..i] + arts[i..])[i := done[i]] == done + arts[i + 1..]
  {
  }

  /** One iteration of the loop below: artifact `i` rewritten in place. */
  method RewriteAt(task: BuildTask, orig: seq<Artifact>, i: nat, noarch: Dict<string, Content>,
                   debugNoarch: Dict<string, Content>, ghost st: Rewriting,
                   hrefsToDelete: seq<string>, debugHrefsToDelete: seq<string>,
                   left: Dict<string, Content>, debugLeft: Dict<string, Content>)
    returns (ghost st': Rewriting, hrefsToDelete': seq<string>, debugHrefsToDelete': seq<string>,
             left': Dict<string, Content>, debugLeft': Dict<string, Content>)
    requires i < |orig| && KeysUnique(noarch) && KeysUnique(debugNoarch)
    requires st == Rewrite(orig[..i], noarch, debugNoarch) && task.artifacts == st.artifacts + orig[i..]
    requires hrefsToDelete == st.removed && debugHrefsToDelete == st.debugRemoved
    requires left == st.left && debugLeft == st.debugLeft
    modifies task
    ensures st' == Rewrite(orig[..i + 1], noarch, debugNoarch) && task.artifacts == st'.artifacts + orig[i + 1..]
    ensures hrefsToDelete' == st'.removed && debugHrefsToDelete' == st'.debugRemoved
    ensures left' == st'.left && debugLeft' == st'.debugLeft
  {
    var artifact := task.artifacts[i];
    assert artifact == orig[i];
    artifact, hrefsToDelete', debugHrefsToDelete', left', debugLeft' :=
      RetargetArtifact(artifact, hrefsToDelete, debugHrefsToDelete, left, debugLeft);
    RewriteSnoc(orig, i, noarch, debugNoarch, artifact, hrefsToDelete', debugHrefsToDelete', left', debugLeft');
    st' := Rewriting(st.artifacts + [artifact], hrefsToDelete', debugHrefsToDelete', left', debugLeft');
    SetAtBoundary(st'.artifacts, orig, i);
    task.artifacts := task.artifacts[i := artifact];
  }

  /** The loop over one task's artifacts, rewriting href and cas_hash in place. */
  method RewriteTaskArtifacts(task: BuildTask, noarch: Dict<string, Content>, debugNoarch: Dict<string, Content>)
    returns (hrefsToDelete: seq<string>, debugHrefsToDelete: seq<string>,
             left: Dict<string, Content>, debugLeft: Dict<string, Content>)
    requires KeysUnique(noarch) && KeysUnique(debugNoarch)
    modifies task
    ensures var rw := Rewrite(old(task.artifacts), noarch, debugNoarch);
      task.artifacts == rw.artifacts && hrefsToDelete == rw.removed && debugHrefsToDelete == rw.debugRemoved
      && left == rw.left && debugLeft == rw.debugLeft
  {
    var orig := task.artifacts;
    left, debugLeft := noarch, debugNoarch;
    hrefsToDelete, debugHrefsToDelete := [], [];
    ghost var st := Rewriting([], [], [], noarch, debugNoarch);
    assert orig[..0] == [] && orig[0..] == orig;
    for i := 0 to |orig|
      invariant st == Rewrite(orig[..i], noarch, debugNoarch)
      invariant task.artifacts == st.artifacts + orig[i..]
      invariant hrefsToDelete == st.removed && debugHrefsToDelete == st.debugRemoved
      invariant left == st.left && debugLeft == st.debugLeft
    {
      st, hrefsToDelete, debugHrefsToDelete, left, debugLeft :=
        RewriteAt(task, orig, i, noarch, debugNoarch, st, hrefsToDelete, debugHrefsToDelete, left, debugLeft);
    }
    assert orig[..|orig|] == orig;
  }

  /** The loop creating new artifact rows (and BinaryRpms) for one task. */
  method CreateRows(taskId: nat, toCreate: Dict<string, Content>, buildTaskId: nat, buildId: nat)
    returns (rows: seq<NewArtifact>, binaryRpms: seq<BinaryRpm>)
    ensures rows == RowsFor(taskId, toCreate)
    ensures binaryRpms == BinaryRpmsFor(rows, taskId, buildTaskId, buildId)
  {
    rows, binaryRpms := [], [];
    for i := 0 to |toCreate|
      invariant rows == RowsFor(taskId, toCreate[..i])
      invariant binaryRpms == BinaryRpmsFor(rows, taskId, buildTaskId, buildId)
    {
      var (name, content) := toCreate[i];
      var artifact := NewArtifact(taskId, name, "rpm", content.0, content.1);
      rows := rows + [artifact];
      if taskId != buildTaskId {
        binaryRpms := binaryRpms + [BinaryRpm(artifact, buildId)];
      }
    }
    assert toCreate[..|toCreate|] == toCreate;
  }

  /** The loop over the build's repositories for one task. */
  method CollectRepoUpdates(repos: seq<Repository>, arch: string, add: seq<string>, remove: seq<string>,
                            debugAdd: seq<string>, debugRemove: seq<string>, acc: Dict<string, RepoUpdate>)
    returns (updates: Dict<string, RepoUpdate>)
    ensures updates == RepoUpdates(repos, arch, add, remove, debugAdd, debugRemove, acc)
  {
    updates := acc;
    for i := 0 to |repos|
      invariant updates == RepoUpdates(repos[..i], arch, add, remove, debugAdd, debugRemove, acc)
    {
      assert repos[..i + 1][..i] == repos[..i];
      var repo := repos[i];
      if repo.arch == "src" || repo.repoType != "rpm" || repo.arch != arch {
        continue;
      }
      var addContent, removeContent := add, remove;
      if repo.debug {
        addContent, removeContent := debugAdd, debugRemove;
      }
      updates := Put(updates, repo.pulpHref, RepoUpdate(addContent, removeContent));
    }
    assert repos[..|repos|] == repos;
  }

  /** The body of the loop over the siblings, for one task. */
  method ReconcileTask(task: BuildTask, noarch: Dict<string, Content>, debugNoarch: Dict<string, Content>,
                       hrefsToAdd: seq<string>, debugHrefsToAdd: seq<string>,
                       buildTaskId: nat, buildId: nat, buildRepos: seq<Repository>,
                       newRows: seq<NewArtifact>, binaryRpms: seq<BinaryRpm>, updates: Dict<string, RepoUpdate>)
    returns (newRows': seq<NewArtifact>, binaryRpms': seq<BinaryRpm>, updates': Dict<string, RepoUpdate>)
    requires KeysUnique(noarch) && KeysUnique(debugNoarch)
    requires hrefsToAdd == Hrefs(noarch) && debugHrefsToAdd == Hrefs(debugNoarch)
    modifies task
    ensures Outcome(newRows', binaryRpms', updates')
      == ReconcileOne(Outcome(newRows, binaryRpms, updates), old(task.View()), noarch, debugNoarch,
                      buildTaskId, buildId, buildRepos)
    ensures task.artifacts == FinalArtifacts(old(task.View()), noarch, debugNoarch)
  {
    newRows', binaryRpms', updates' := newRows, binaryRpms, updates;
    if task.status == Failed || task.status == Excluded {
      return;
    }
    var hrefsToDelete, debugHrefsToDelete, left, debugLeft := RewriteTaskArtifacts(task, noarch, debugNoarch);
    var artifactsToCreate := Merge(left, debugLeft);
    var rows, taskBinaryRpms := CreateRows(task.id, artifactsToCreate, buildTaskId, buildId);
    newRows' := newRows' + rows;
    binaryRpms' := binaryRpms' + taskBinaryRpms;
    updates' := CollectRepoUpdates(buildRepos, task.arch, hrefsToAdd, hrefsToDelete,
                                   debugHrefsToAdd, debugHrefsToDelete, updates');
  }

  /** The loop over the siblings, once both buckets are known. */
  method ReconcileSiblings(siblings: seq<BuildTask>, noarch: Dict<string, Content>, debugNoarch: Dict<string, Content>,
                           buildTaskId: nat, buildId: nat, buildRepos: seq<Repository>)
    returns (newRows: seq<NewArtifact>, binaryRpms: seq<BinaryRpm>, updates: Dict<string, RepoUpdate>)
    requires forall i, j :: 0 <= i < j < |siblings| ==> siblings[i] != siblings[j]
    requires KeysUnique(noarch) && KeysUnique(debugNoarch)
    modifies set t | t in siblings
    ensures Outcome(newRows, binaryRpms, updates)
      == Reconcile(old(Views(siblings)), noarch, debugNoarch, buildTaskId, buildId, buildRepos)
    ensures forall i :: 0 <= i < |siblings| ==>
      siblings[i].artifacts == FinalArtifacts(old(Views(siblings))[i], noarch, debugNoarch)
  {
    ghost var views := Views(siblings);
    updates, newRows, binaryRpms := [], [], [];
    var hrefsToAdd := Hrefs(noarch);
    var debugHrefsToAdd := Hrefs(debugNoarch);
    for ti := 0 to |siblings|
      invariant forall j :: 0 <= j < ti ==> siblings[j].artifacts == FinalArtifacts(views[j], noarch, debugNoarch)
      invariant forall j :: ti <= j < |siblings| ==> siblings[j].View() == views[j]
      invariant Outcome(newRows, binaryRpms, updates)
        == Reconcile(views[..ti], noarch, debugNoarch, buildTaskId, buildId, buildRepos)
    {
      ReconcileSnoc(views, ti, noarch, debugNoarch, buildTaskId, buildId, buildRepos);
      var task := siblings[ti];
      assert task.View() == views[ti];
      newRows, binaryRpms, updates := ReconcileTask(task, noarch, debugNoarch, hrefsToAdd, debugHrefsToAdd,
                                                    buildTaskId, buildId, buildRepos, newRows, binaryRpms, updates);
    }
    assert views[..|siblings|] == views;
  }

  /**
   * save_noarch_packages. `siblings` are the tasks of the build sharing the
   * index of the task it was called for (whose id is `buildTaskId`), and
   * `buildRepos` the build's repositories.
   */
  method SaveNoarchPackages(siblings: seq<BuildTask>, buildTaskId: nat, buildId: nat, buildRepos: seq<Repository>)
    returns (newBinaryRpms: seq<BinaryRpm>, effects: seq<Effect>)
    requires forall i, j :: 0 <= i < j < |siblings| ==> siblings[i] != siblings[j]
    modifies set t | t in siblings
    ensures var views := old(Views(siblings));
      var buckets := Buckets(NoarchRows(AllArtifacts(views)));
      if !AllFinished(views) || (buckets.0 == [] && buckets.1 == []) then
        newBinaryRpms == [] && effects == [] && Views(siblings) == views
      else
        var out := Reconcile(views, buckets.0, buckets.1, buildTaskId, buildId, buildRepos);
        && newBinaryRpms == out.binaryRpms
        && effects == [PersistRows(out.newRows)] + ModifyCalls(out.updates)
        && forall i :: 0 <= i < |siblings| ==>
             siblings[i].artifacts == FinalArtifacts(views[i], buckets.0, buckets.1)
  {
    newBinaryRpms, effects := [], [];
    if exists i :: 0 <= i < |siblings| && !siblings[i].status.IsFinished() {
      return;
    }
    var candidates := AllArtifactsOf(siblings);
    var noarch, debugNoarch := GetNoarchPackages(candidates);
    if noarch == [] && debugNoarch == [] {
      return;
    }
    var newNoarchArtifacts, reposToUpdate;
    newNoarchArtifacts, newBinaryRpms, reposToUpdate :=
      ReconcileSiblings(siblings, noarch, debugNoarch, buildTaskId, buildId, buildRepos);
    effects := [PersistRows(newNoarchArtifacts)] + ModifyCalls(reposToUpdate);
  }

  /** The artifact rows of all siblings, as the noarch query scans them. */
  method AllArtifactsOf(ts: seq<BuildTask>) returns (rows: seq<Artifact>)
    ensures rows == AllArtifacts(Views(ts))
  {
    rows := [];
    for i := 0 to |ts|
      invariant rows == AllArtifacts(Views(ts)[..i])
    {
      assert Views(ts)[..i + 1][..i] == Views(ts)[..i];
      rows := rows + ts[i].artifacts;
    }
    assert Views(ts)[..|ts|] == Views(ts);
  }

  // ---------------------------------------------------------------------------
  // What the reconciliation achieves
  // ---------------------------------------------------------------------------

  /** The content retained for `name`, from whichever bucket holds it. */
  function Retained(noarch: Dict<string, Content>, debug: Dict<string, Content>, name: string): (r: Option<Content>)
    ensures r.Some? <==> HasKey(noarch, name) || HasKey(debug, name)
  {
    if HasKey(noarch, name) then Get(noarch, name) else Get(debug, name)
  }

  /** Index of the first artifact named `name`. */
  function FirstIndex(arts: seq<Artifact>, name: string): (k: nat)
    requires NamedIn(arts, name)
    ensures k < |arts| && arts[k].name == name && FirstAt(arts, k)
    decreases |arts|
  {
    if arts[0].name == name then 0
    else
      assert NamedIn(arts[1..], name) by {
        var k :| 0 <= k < |arts| && arts[k].name == name;
        assert arts[1..][k - 1] == arts[k];
      }
      var k := FirstIndex(arts[1..], name);
      assert forall j :: 1 <= j <= k ==> arts[j] == arts[1..][j - 1];
      k + 1
  }

  /**
   * The rows created for one task: one `rpm` row per retained name the task
   * does not already carry, with the retained content, and no name twice.
   */
  lemma TaskRowsSpec(t: TaskView, noarch: Dict<string, Content>, debug: Dict<string, Content>)
    requires KeysUnique(noarch) && KeysUnique(debug) && Disjoint(noarch, debug)
    ensures forall r :: r in TaskRows(t, noarch, debug) ==>
      r.taskId == t.id && r.kind == "rpm" && !NamedIn(t.artifacts, r.name)
      && Retained(noarch, debug, r.name) == Some((r.href, r.casHash))
    ensures forall n :: Retained(noarch, debug, n).Some? && !NamedIn(t.artifacts, n) ==>
      exists r :: r in TaskRows(t, noarch, debug) && r.name == n
    ensures var rows := TaskRows(t, noarch, debug);
      forall i, j :: 0 <= i < j < |rows| ==> rows[i].name != rows[j].name
  {
    var rw := Rewrite(t.artifacts, noarch, debug);
    RewriteSpec(t.artifacts, noarch, debug);
    var m := Merge(rw.left, rw.debugLeft);
    var rows := TaskRows(t, noarch, debug);
    assert rows == RowsFor(t.id, m);
    forall n ensures Get(m, n) == (if NamedIn(t.artifacts, n) then None else Retained(noarch, debug, n)) {
    }
    forall r | r in rows
      ensures r.taskId == t.id && r.kind == "rpm" && !NamedIn(t.artifacts, r.name)
        && Retained(noarch, debug, r.name) == Some((r.href, r.casHash))
    {
      var i :| 0 <= i < |rows| && rows[i] == r;
      GetAt(m, i);
    }
    forall n | Retained(noarch, debug, n).Some? && !NamedIn(t.artifacts, n)
      ensures exists r :: r in rows && r.name == n
    {
      var i := IndexOf(m, n).value;
      assert rows[i] in rows;
    }
  }

  /**
   * One href per name: after the rewrite, every non-skipped sibling carries
   * each retained name with the retained (href, cas_hash), either on its first
   * artifact of that name or on the row created for it, so all siblings agree.
   */
  lemma TaskCarriesRetained(t: TaskView, noarch: Dict<string, Content>, debug: Dict<string, Content>, name: string)
    requires KeysUnique(noarch) && KeysUnique(debug) && Disjoint(noarch, debug)
    requires !Skipped(t) && Retained(noarch, debug, name).Some?
    ensures var c := Retained(noarch, debug, name).value;
      var arts := FinalArtifacts(t, noarch, debug);
      || (exists k :: 0 <= k < |arts| && FirstAt(t.artifacts, k) && arts[k].name == name
            && (arts[k].href, arts[k].casHash) == c)
      || (exists r :: r in TaskRows(t, noarch, debug) && r.name == name && (r.href, r.casHash) == c)
  {
    TaskRowsSpec(t, noarch, debug);
    RewriteSpec(t.artifacts, noarch, debug);
    if NamedIn(t.artifacts, name) {
      var k := FirstIndex(t.artifacts, name);
      assert FinalArtifacts(t, noarch, debug)[k] == Expected(t.artifacts, k, noarch, debug);
    }
  }

  /** Artifacts that are not the first of a retained name keep their href and cas_hash. */
  lemma OthersUntouched(t: TaskView, noarch: Dict<string, Content>, debug: Dict<string, Content>, k: nat)
    requires KeysUnique(noarch) && KeysUnique(debug) && Disjoint(noarch, debug)
    requires k < |t.artifacts|
    requires Skipped(t) || !FirstAt(t.artifacts, k) || Retained(noarch, debug, t.artifacts[k].name).None?
    ensures FinalArtifacts(t, noarch, debug)[k] == t.artifacts[k]
  {
    RewriteSpec(t.artifacts, noarch, debug);
  }

  /** Every row a non-skipped sibling yields is among the rows persisted. */
  lemma {:induction false} ReconcileCollectsRows(ts: seq<TaskView>, noarch: Dict<string, Content>, debug: Dict<string, Content>,
                                                  buildTaskId: nat, buildId: nat, repos: seq<Repository>)
    requires KeysUnique(noarch) && KeysUnique(debug)
    ensures forall i, r :: 0 <= i < |ts| && !Skipped(ts[i]) && r in TaskRows(ts[i], noarch, debug) ==>
      r in Reconcile(ts, noarch, debug, buildTaskId, buildId, repos).newRows
    decreases |ts|
  {
    if ts != [] {
      var init := ts[..|ts| - 1];
      ReconcileCollectsRows(init, noarch, debug, buildTaskId, buildId, repos);
      assert forall i :: 0 <= i < |init| ==> init[i] == ts[i];
    }
  }

  /** Every persisted row comes from a non-skipped sibling: skipped ones get no rows. */
  lemma {:induction false} ReconcileRowsFromActiveTasks(ts: seq<TaskView>, noarch: Dict<string, Content>, debug: Dict<string, Content>,
                                                         buildTaskId: nat, buildId: nat, repos: seq<Repository>)
    requires KeysUnique(noarch) && KeysUnique(debug)
    ensures forall r :: r in Reconcile(ts, noarch, debug, buildTaskId, buildId, repos).newRows ==>
      exists i :: 0 <= i < |ts| && !Skipped(ts[i]) && r in TaskRows(ts[i], noarch, debug)
    decreases |ts|
  {
    if ts != [] {
      var init := ts[..|ts| - 1];
      ReconcileRowsFromActiveTasks(init, noarch, debug, buildTaskId, buildId, repos);
      forall r | r in Reconcile(ts, noarch, debug, buildTaskId, buildId, repos).newRows
        ensures exists i :: 0 <= i < |ts| && !Skipped(ts[i]) && r in TaskRows(ts[i], noarch, debug)
      {
        if r in Reconcile(init, noarch, debug, buildTaskId, buildId, repos).newRows {
          var i :| 0 <= i < |init| && !Skipped(init[i]) && r in TaskRows(init[i], noarch, debug);
          assert init[i] == ts[i];
        } else {
          assert r in TaskRows(ts[|ts| - 1], noarch, debug);
        }
      }
    }
  }

  /**
   * The BinaryRpms are exactly the new rows of tasks other than the one the
   * reconciler was called for, each linked to the build.
   */
  lemma {:induction false} ReconcileBinaryRpms(ts: seq<TaskView>, noarch: Dict<string, Content>, debug: Dict<string, Content>,
                                                buildTaskId: nat, buildId: nat, repos: seq<Repository>)
    requires KeysUnique(noarch) && KeysUnique(debug)
    ensures var out := Reconcile(ts, noarch, debug, buildTaskId, buildId, repos);
      forall b :: b in out.binaryRpms ==>
        b.buildId == buildId && b.artifact in out.newRows && b.artifact.taskId != buildTaskId
    ensures var out := Reconcile(ts, noarch, debug, buildTaskId, buildId, repos);
      forall r :: r in out.newRows && r.taskId != buildTaskId ==> BinaryRpm(r, buildId) in out.binaryRpms
    decreases |ts|
  {
    if ts != [] {
      var init := ts[..|ts| - 1];
      var t := ts[|ts| - 1];
      ReconcileBinaryRpms(init, noarch, debug, buildTaskId, buildId, repos);
      if !Skipped(t) {
        var rows := TaskRows(t, noarch, debug);
        var rw := Rewrite(t.artifacts, noarch, debug);
        assert forall r :: r in rows ==> r.taskId == t.id;
        var bs := BinaryRpmsFor(rows, t.id, buildTaskId, buildId);
        forall r | r in rows && r.taskId != buildTaskId ensures BinaryRpm(r, buildId) in bs {
          var i :| 0 <= i < |rows| && rows[i] == r;
          assert bs[i] == BinaryRpm(r, buildId);
        }
      }
    }
  }

  /** Index of the last repository eligible for `arch` whose href is `href`. */
  function LastEligible(repos: seq<Repository>, arch: string, href: string): (r: Option<nat>)
    ensures r.Some? ==> r.value < |repos| && Eligible(repos[r.value], arch) && repos[r.value].pulpHref == href
    ensures r.Some? ==> forall j :: r.value < j < |repos| ==> !(Eligible(repos[j], arch) && repos[j].pulpHref == href)
    ensures r.None? ==> forall j :: 0 <= j < |repos| ==> !(Eligible(repos[j], arch) && repos[j].pulpHref == href)
    decreases |repos|
  {
    if repos == [] then None
    else
      var last := repos[|repos| - 1];
      if Eligible(last, arch) && last.pulpHref == href then Some(|repos| - 1)
      else
        var r := LastEligible(repos[..|repos| - 1], arch, href);
        assert forall j :: 0 <= j < |repos| - 1 ==> repos[..|repos| - 1][j] == repos[j];
        r
  }

  /**
   * What a task's repository loop leaves for `href`: the bucket of the last
   * eligible repository with that href, or what was there before.
   */
  lemma {:induction false} RepoUpdatesSpec(repos: seq<Repository>, arch: string, add: seq<string>, remove: seq<string>,
                                            debugAdd: seq<string>, debugRemove: seq<string>,
                                            acc: Dict<string, RepoUpdate>, href: string)
    ensures Get(RepoUpdates(repos, arch, add, remove, debugAdd, debugRemove, acc), href) ==
      match LastEligible(repos, arch, href)
      case None => Get(acc, href)
      case Some(j) => Some(if repos[j].debug then RepoUpdate(debugAdd, debugRemove) else RepoUpdate(add, remove))
    decreases |repos|
  {
    if repos != [] {
      RepoUpdatesSpec(repos[..|repos| - 1], arch, add, remove, debugAdd, debugRemove, acc, href);
    }
  }

  /** A repository href is written by a task exactly when it has an eligible repository there. */
  lemma RepoUpdatesKeys(repos: seq<Repository>, arch: string, add: seq<string>, remove: seq<string>,
                        debugAdd: seq<string>, debugRemove: seq<string>,
                        acc: Dict<string, RepoUpdate>, href: string)
    ensures HasKey(RepoUpdates(repos, arch, add, remove, debugAdd, debugRemove, acc), href)
      <==> HasKey(acc, href) || exists j :: 0 <= j < |repos| && Eligible(repos[j], arch) && repos[j].pulpHref == href
  {
    RepoUpdatesSpec(repos, arch, add, remove, debugAdd, debugRemove, acc, href);
  }

  /**
   * The update map is keyed by exactly the hrefs of the eligible build
   * repositories of the non-skipped siblings' architectures.
   */
  lemma {:induction false} ReconcileUpdateKeys(ts: seq<TaskView>, noarch: Dict<string, Content>, debug: Dict<string, Content>,
                                                buildTaskId: nat, buildId: nat, repos: seq<Repository>, href: string)
    requires KeysUnique(noarch) && KeysUnique(debug)
    ensures HasKey(Reconcile(ts, noarch, debug, buildTaskId, buildId, repos).updates, href)
      <==> exists i :: 0 <= i < |ts| && UpdatedBy(ts[i], repos, href)
    decreases |ts|
  {
    if ts != [] {
      var init := ts[..|ts| - 1];
      var t := ts[|ts| - 1];
      ReconcileUpdateKeys(init, noarch, debug, buildTaskId, buildId, repos, href);
      var acc := Reconcile(init, noarch, debug, buildTaskId, buildId, repos);
      assert Reconcile(ts, noarch, debug, buildTaskId, buildId, repos)
        == ReconcileOne(acc, t, noarch, debug, buildTaskId, buildId, repos);
      UpdateKeysStep(acc, t, noarch, debug, buildTaskId, buildId, repos, href);
      if exists i :: 0 <= i < |init| && UpdatedBy(init[i], repos, href) {
        var i :| 0 <= i < |init| && UpdatedBy(init[i], repos, href);
        assert ts[i] == init[i];
      }
      if exists i :: 0 <= i < |ts| && UpdatedBy(ts[i], repos, href) {
        var i :| 0 <= i < |ts| && UpdatedBy(ts[i], repos, href);
        if i < |init| {
          assert init[i] == ts[i];
        }
      }
    }
  }

  /** One task's step adds exactly the hrefs of the repositories that task updates. */
  lemma UpdateKeysStep(acc: Outcome, t: TaskView, noarch: Dict<string, Content>, debug: Dict<string, Content>,
                       buildTaskId: nat, buildId: nat, repos: seq<Repository>, href: string)
    requires KeysUnique(noarch) && KeysUnique(debug)
    ensures HasKey(ReconcileOne(acc, t, noarch, debug, buildTaskId, buildId, repos).updates, href)
      <==> HasKey(acc.updates, href) || UpdatedBy(t, repos, href)
  {
    if !Skipped(t) {
      var rw := Rewrite(t.artifacts, noarch, debug);
      RepoUpdatesKeys(repos, t.arch, Hrefs(noarch), rw.removed, Hrefs(debug), rw.debugRemoved, acc.updates, href);
    }
  }

  /** Task `t` takes part and some repository it updates has pulp href `href`. */
  predicate UpdatedBy(t: TaskView, repos: seq<Repository>, href: string) {
    !Skipped(t) && exists j :: 0 <= j < |repos| && Eligible(repos[j], t.arch) && repos[j].pulpHref == href
  }

  lemma ModifyCallsDistinct(updates: Dict<string, RepoUpdate>)
    requires KeysUnique(updates)
    ensures var calls := ModifyCalls(updates);
      forall i, j :: 0 <= i < j < |calls| ==> calls[i].repoHref != calls[j].repoHref
  {
  }
}
