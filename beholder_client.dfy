/**
 * The response shaping of the client for Beholder, the service that answers
 * which packages and modules an upstream distribution ships. The HTTP
 * exchange itself is a parameter `send`: it answers a request with a decoded
 * body, or None when the request raises.
 */
module Beholder {
  import opened Wrappers
  import opened Text
  import opened Dicts

  datatype Verb = GET | POST

  /**
   * One HTTP request as the client issues it. `body` is the JSON payload of a
   * POST, a dict or list written as its items; an absent payload is `[]`.
   */
  datatype Request = Request(verb: Verb, endpoint: string, headers: Dict<string, string>,
                             params: Dict<string, string>, body: seq<string>)

  /** A platform row with the fields the endpoints and priorities use. */
  datatype DbPlatform = DbPlatform(name: string, distrVersion: string, priority: Option<int>,
                                   referencePlatforms: seq<DbPlatform>)

  /** The `distribution` object of an answer: its `name` and `version`. */
  datatype Distribution = Distribution(name: string, version: string)

  /**
   * A Beholder answer: the distribution it describes (None when `distribution`,
   * its `name` or its `version` is missing) and the rest of the document.
   */
  datatype BeholderResponse = BeholderResponse(distribution: Option<Distribution>, content: string)

  /** A response with its `priority` key set. */
  datatype Ranked = Ranked(response: BeholderResponse, priority: int)

  // ---------------------------------------------------------------------------
  // create_endpoints
  // ---------------------------------------------------------------------------

  /** `/api/v1/distros/<clean name>/<version>/projects/`; `clean` is get_clean_distr_name. */
  function ProjectsEndpoint(clean: string -> string, p: DbPlatform): string {
    "/api/v1/distros/" + clean(p.name) + "/" + p.distrVersion + "/projects/"
  }

  /** `/api/v1/distros/<clean name>/<version>/module/<name>/<stream>/<arch>/`. */
  function ModuleEndpoint(clean: string -> string, p: DbPlatform, name: string, stream: string, arch: string): string {
    "/api/v1/distros/" + clean(p.name) + "/" + p.distrVersion + "/module/" + name + "/" + stream + "/" + arch + "/"
  }

  /** The nested generator: every arch for the first platform, then every arch for the next. */
  function ModuleEndpoints(platforms: seq<DbPlatform>, clean: string -> string, name: string, stream: string,
                           archs: seq<string>): (r: seq<string>)
    ensures |r| == |platforms| * |archs|
    decreases |platforms|
  {
    if platforms == [] then []
    else
      var n := |platforms| - 1;
      var init := ModuleEndpoints(platforms[..n], clean, name, stream, archs);
      var row := seq(|archs|, j requires 0 <= j < |archs| => ModuleEndpoint(clean, platforms[n], name, stream, archs[j]));
      assert |init + row| == n * |archs| + |archs| == (n + 1) * |archs|;
      init + row
  }

  /** A module query is made when the name, the stream and a non-empty arch list are all given. */
  predicate ModuleQuery(moduleName: string, moduleStream: string, archs: seq<string>) {
    moduleName != "" && moduleStream != "" && |archs| > 0
  }

  /**
   * create_endpoints: one projects endpoint per platform, or, for a module
   * query, one module endpoint per (platform, arch). A missing arch list is `[]`.
   */
  function CreateEndpoints(platforms: seq<DbPlatform>, clean: string -> string, moduleName: string,
                           moduleStream: string, archs: seq<string>): (r: seq<string>)
    ensures !ModuleQuery(moduleName, moduleStream, archs) ==>
      |r| == |platforms| && forall i :: 0 <= i < |platforms| ==> r[i] == ProjectsEndpoint(clean, platforms[i])
    ensures ModuleQuery(moduleName, moduleStream, archs) ==> |r| == |platforms| * |archs|
  {
    if ModuleQuery(moduleName, moduleStream, archs) then ModuleEndpoints(platforms, clean, moduleName, moduleStream, archs)
    else seq(|platforms|, i requires 0 <= i < |platforms| => ProjectsEndpoint(clean, platforms[i]))
  }

  lemma RowBound(i: nat, j: nat, n: nat, m: nat)
    requires i < n && j < m
    ensures i * m + j < n * m
  {
    assert i * m + j < i * m + m == (i + 1) * m;
    assert (i + 1) * m <= n * m;
  }

  /**
   * Platform-major order: the module endpoint for platform `i` and arch `j`
   * sits at position `i * |archs| + j`.
   */
  lemma {:induction false} ModuleEndpointAt(platforms: seq<DbPlatform>, clean: string -> string, moduleName: string,
                                            moduleStream: string, archs: seq<string>, i: nat, j: nat)
    requires ModuleQuery(moduleName, moduleStream, archs)
    requires i < |platforms| && j < |archs|
    ensures var r := CreateEndpoints(platforms, clean, moduleName, moduleStream, archs);
      i * |archs| + j < |r| && r[i * |archs| + j] == ModuleEndpoint(clean, platforms[i], moduleName, moduleStream, archs[j])
  {
    RowBound(i, j, |platforms|, |archs|);
    ModuleRowAt(platforms, clean, moduleName, moduleStream, archs, i, j);
  }

  lemma {:induction false} ModuleRowAt(platforms: seq<DbPlatform>, clean: string -> string, name: string, stream: string,
                                       archs: seq<string>, i: nat, j: nat)
    requires i < |platforms| && j < |archs|
    ensures var r := ModuleEndpoints(platforms, clean, name, stream, archs);
      i * |archs| + j < |r| && r[i * |archs| + j] == ModuleEndpoint(clean, platforms[i], name, stream, archs[j])
    decreases |platforms|
  {
    var n := |platforms| - 1;
    var init := ModuleEndpoints(platforms[..n], clean, name, stream, archs);
    RowBound(i, j, |platforms|, |archs|);
    if i < n {
      ModuleRowAt(platforms[..n], clean, name, stream, archs, i, j);
      RowBound(i, j, n, |archs|);
    } else {
      assert |init| == i * |archs|;
    }
  }

  // ---------------------------------------------------------------------------
  // retrieve_responses: priorities and the stable descending sort
  // ---------------------------------------------------------------------------

  /** A platform serves a distribution when its name starts with the distribution name and the versions agree. */
  predicate Serves(p: DbPlatform, resp: Distribution) {
    StartsWith(p.name, resp.name) && p.distrVersion == resp.version
  }

  /** The first platform serving `resp`, as `next(...)` finds it. */
  function FirstServing(platforms: seq<DbPlatform>, resp: Distribution): (r: Option<nat>)
    ensures r.Some? ==> r.value < |platforms| && Serves(platforms[r.value], resp)
    ensures r.Some? ==> forall j :: 0 <= j < r.value ==> !Serves(platforms[j], resp)
    ensures r.None? ==> forall j :: 0 <= j < |platforms| ==> !Serves(platforms[j], resp)
  {
    if platforms == [] then None
    else if Serves(platforms[0], resp) then Some(0)
    else
      var rest := FirstServing(platforms[1..], resp);
      if rest.None? then None else Some(rest.value + 1)
  }

  /** `priority or LOWEST_PRIORITY`: None and 0 are falsy. */
  function Effective(priority: Option<int>, lowest: int): (r: int)
    ensures priority.Some? && priority.value != 0 ==> r == priority.value
    ensures priority.None? || priority.value == 0 ==> r == lowest
  {
    if priority.None? || priority.value == 0 then lowest else priority.value
  }

  /**
   * One response with the priority of the first platform serving it; None
   * when the response names no distribution or `next` finds no platform.
   */
  function RankOf(platforms: seq<DbPlatform>, resp: BeholderResponse, lowest: int): (r: Option<Ranked>)
    ensures r.Some? <==> resp.distribution.Some? && FirstServing(platforms, resp.distribution.value).Some?
    ensures r.Some? ==> r.value.response == resp
    ensures r.Some? ==>
      r.value.priority == Effective(platforms[FirstServing(platforms, resp.distribution.value).value].priority, lowest)
  {
    if resp.distribution.None? then None
    else
      var m := FirstServing(platforms, resp.distribution.value);
      if m.None? then None else Some(Ranked(resp, Effective(platforms[m.value].priority, lowest)))
  }

  /**
   * What escapes retrieve_responses for a response it cannot rank: a KeyError
   * from reading its distribution, or the StopIteration of `next`, which a
   * coroutine turns into a RuntimeError.
   */
  function LookupError(resp: BeholderResponse): string {
    if resp.distribution.None? then "KeyError" else "RuntimeError"
  }

  /** The first response that cannot be ranked. */
  function FirstUnranked(resps: seq<BeholderResponse>, platforms: seq<DbPlatform>, lowest: int): (r: Option<nat>)
    ensures r.Some? ==> r.value < |resps| && RankOf(platforms, resps[r.value], lowest).None?
    ensures r.Some? ==> forall j :: 0 <= j < r.value ==> RankOf(platforms, resps[j], lowest).Some?
    ensures r.None? ==> forall j :: 0 <= j < |resps| ==> RankOf(platforms, resps[j], lowest).Some?
  {
    if resps == [] then None
    else if RankOf(platforms, resps[0], lowest).None? then Some(0)
    else
      var rest := FirstUnranked(resps[1..], platforms, lowest);
      if rest.None? then None else Some(rest.value + 1)
  }

  /**
   * Every response in order with its priority; the first response that
   * cannot be ranked raises out of the loop.
   */
  function Prioritised(resps: seq<BeholderResponse>, platforms: seq<DbPlatform>, lowest: int): (r: Result<seq<Ranked>, string>)
    ensures r.Success? <==> forall k :: 0 <= k < |resps| ==> RankOf(platforms, resps[k], lowest).Some?
    ensures r.Failure? ==>
      FirstUnranked(resps, platforms, lowest).Some? &&
      r.error == LookupError(resps[FirstUnranked(resps, platforms, lowest).value])
    ensures r.Success? ==> |r.value| == |resps| && forall k :: 0 <= k < |resps| ==> Some(r.value[k]) == RankOf(platforms, resps[k], lowest)
  {
    if resps == [] then Success([])
    else
      var n := |resps| - 1;
      var init := Prioritised(resps[..n], platforms, lowest);
      assert forall k :: 0 <= k < n ==> resps[..n][k] == resps[k];
      var last := RankOf(platforms, resps[n], lowest);
      if init.Failure? then
        FirstUnrankedPrefix(resps, platforms, lowest, n);
        init
      else if last.None? then
        FirstUnrankedIs(resps, platforms, lowest, n);
        Failure(LookupError(resps[n]))
      else Success(init.value + [last.value])
  }

  /** FirstUnranked is determined by the facts it promises. */
  lemma {:induction false} FirstUnrankedIs(resps: seq<BeholderResponse>, platforms: seq<DbPlatform>, lowest: int, k: nat)
    requires k < |resps| && RankOf(platforms, resps[k], lowest).None?
    requires forall j :: 0 <= j < k ==> RankOf(platforms, resps[j], lowest).Some?
    ensures FirstUnranked(resps, platforms, lowest) == Some(k)
    decreases k
  {
    if k > 0 {
      assert forall j :: 0 <= j < k - 1 ==> resps[1..][j] == resps[j + 1];
      FirstUnrankedIs(resps[1..], platforms, lowest, k - 1);
    }
  }

  /** The lookup fails at the first unranked response, whatever follows it. */
  lemma PrioritisedFailsAt(resps: seq<BeholderResponse>, platforms: seq<DbPlatform>, lowest: int, k: nat)
    requires k < |resps| && Prioritised(resps[..k], platforms, lowest).Success?
    requires RankOf(platforms, resps[k], lowest).None?
    ensures Prioritised(resps, platforms, lowest) == Failure(LookupError(resps[k]))
  {
    assert forall j :: 0 <= j < k ==> resps[..k][j] == resps[j];
    FirstUnrankedIs(resps, platforms, lowest, k);
  }

  /** An unranked response in a prefix is the first unranked one of the whole. */
  lemma FirstUnrankedPrefix(resps: seq<BeholderResponse>, platforms: seq<DbPlatform>, lowest: int, n: nat)
    requires n <= |resps| && FirstUnranked(resps[..n], platforms, lowest).Some?
    ensures FirstUnranked(resps, platforms, lowest) == FirstUnranked(resps[..n], platforms, lowest)
  {
    var k := FirstUnranked(resps[..n], platforms, lowest).value;
    assert resps[..n][k] == resps[k];
    assert forall j :: 0 <= j < k ==> resps[..n][j] == resps[j];
    FirstUnrankedIs(resps, platforms, lowest, k);
  }

  predicate Descending(s: seq<Ranked>) {
    forall i, j :: 0 <= i < j < |s| ==> s[i].priority >= s[j].priority
  }

  /** The entries of priority `p`, in order. */
  function WithPriority(s: seq<Ranked>, p: int): seq<Ranked>
  {
    if s == [] then []
    else (if s[0].priority == p then [s[0]] else []) + WithPriority(s[1..], p)
  }

  /** Places `x` before the first entry of priority not above its own. */
  function Insert(x: Ranked, s: seq<Ranked>): (r: seq<Ranked>)
    ensures |r| == |s| + 1
  {
    if s == [] then [x]
    else if s[0].priority <= x.priority then [x] + s
    else [s[0]] + Insert(x, s[1..])
  }

  /** Inserting into a descending list keeps it descending. */
  lemma {:induction false} InsertDescending(x: Ranked, s: seq<Ranked>)
    requires Descending(s)
    ensures Descending(Insert(x, s))
    ensures Insert(x, s)[0] == x || (s != [] && Insert(x, s)[0] == s[0])
  {
    if s != [] && s[0].priority > x.priority {
      var rest := Insert(x, s[1..]);
      InsertDescending(x, s[1..]);
      var r := [s[0]] + rest;
      assert Insert(x, s) == r;
      forall i, j | 0 <= i < j < |r| ensures r[i].priority >= r[j].priority {
        assert r[j] == rest[j - 1];
        if i > 0 {
          assert r[i] == rest[i - 1];
        } else if j > 1 {
          assert rest[0].priority >= rest[j - 1].priority;
        }
      }
    }
  }

  /** Inserting adds exactly `x`. */
  lemma {:induction false} InsertPermutes(x: Ranked, s: seq<Ranked>)
    ensures multiset(Insert(x, s)) == multiset(s) + multiset{x}
  {
    if s != [] && s[0].priority > x.priority {
      InsertPermutes(x, s[1..]);
      assert s == [s[0]] + s[1..];
    }
  }

  /** Inserting `x` puts it ahead of every entry of its own priority and leaves the other priorities alone. */
  lemma {:induction false} InsertGroups(x: Ranked, s: seq<Ranked>, p: int)
    ensures WithPriority(Insert(x, s), p) == (if x.priority == p then [x] else []) + WithPriority(s, p)
  {
    if s == [] {
      assert WithPriority([x], p) == (if x.priority == p then [x] else []) + WithPriority([], p);
    } else if s[0].priority <= x.priority {
      assert Insert(x, s) == [x] + s;
      assert ([x] + s)[1..] == s;
    } else {
      var rest := Insert(x, s[1..]);
      assert Insert(x, s) == [s[0]] + rest;
      InsertGroups(x, s[1..], p);
      assert ([s[0]] + rest)[1..] == rest;
      var head := if s[0].priority == p then [s[0]] else [];
      assert WithPriority([s[0]] + rest, p) == head + WithPriority(rest, p);
      assert WithPriority(s, p) == head + WithPriority(s[1..], p);
      if x.priority == p {
        assert head == [];
      } else {
        assert WithPriority(rest, p) == WithPriority(s[1..], p);
      }
    }
  }

  /** `sorted(responses, key=priority, reverse=True)`, as an insertion sort. */
  function SortDescending(s: seq<Ranked>): (r: seq<Ranked>)
    ensures |r| == |s|
  {
    if s == [] then [] else Insert(s[0], SortDescending(s[1..]))
  }

  /** The sort puts the highest priority first and is a permutation of its input. */
  lemma {:induction false} SortSorts(s: seq<Ranked>)
    ensures Descending(SortDescending(s))
    ensures multiset(SortDescending(s)) == multiset(s)
  {
    if s != [] {
      SortSorts(s[1..]);
      InsertDescending(s[0], SortDescending(s[1..]));
      InsertPermutes(s[0], SortDescending(s[1..]));
      assert s == [s[0]] + s[1..];
    }
  }

  /** Python's sort is stable: the entries of each priority keep their order. */
  lemma {:induction false} SortGroups(s: seq<Ranked>, p: int)
    ensures WithPriority(SortDescending(s), p) == WithPriority(s, p)
  {
    if s != [] {
      SortGroups(s[1..], p);
      InsertGroups(s[0], SortDescending(s[1..]), p);
    }
  }

  // ---------------------------------------------------------------------------
  // get_module_artifacts: shaping
  // ---------------------------------------------------------------------------

  /** The `epoch` entry of a package dict: no such key, a JSON null, or a number. */
  datatype Epoch = Missing | Null | Value(n: int)

  /** A package dict of a Beholder component. */
  datatype Package = Package(name: string, epoch: Epoch, version: string, release: string, arch: string)

  /** A component: its `packages` (missing is `[]`) and its `sourcerpm` (missing or empty is None). */
  datatype Component = Component(packages: seq<Package>, sourceRpm: Option<Package>)

  /** A module document; a missing `artifacts` key is None. */
  datatype ModuleResponse = ModuleResponse(artifacts: Option<seq<Component>>)

  /** What one component contributes: nothing, an exception, or a keyed package list. */
  datatype Shaped = Skip | Broken | Entry(srpmName: string, packages: seq<Package>)

  /** The source package entry: the component's srpm with the first package's epoch and arch `src`. */
  function SourceEntry(c: Component): Package
    requires c.packages != [] && c.sourceRpm.Some?
  {
    c.sourceRpm.value.(epoch := c.packages[0].epoch, arch := "src")
  }

  /**
   * One component: skipped without packages or srpm; a first package without
   * `epoch` raises; otherwise its packages followed by the source entry,
   * under the srpm's name.
   */
  function ShapeComponent(c: Component): (r: Shaped)
    ensures r.Skip? <==> c.packages == [] || c.sourceRpm.None?
    ensures r.Broken? <==> c.packages != [] && c.sourceRpm.Some? && c.packages[0].epoch.Missing?
    ensures r.Entry? ==> r.srpmName == c.sourceRpm.value.name && r.packages == c.packages + [SourceEntry(c)]
    ensures r.Entry? ==> r.packages[|r.packages| - 1].arch == "src" && r.packages[..|c.packages|] == c.packages
  {
    if c.packages == [] || c.sourceRpm.None? then Skip
    else if c.packages[0].epoch.Missing? then Broken
    else Entry(c.sourceRpm.value.name, c.packages + [SourceEntry(c)])
  }

  /** The `artifacts` dict of one response, None when shaping raised. */
  function Artifacts(components: seq<Component>): (r: Option<Dict<string, seq<Package>>>)
    ensures r.None? <==> exists i :: 0 <= i < |components| && ShapeComponent(components[i]).Broken?
    ensures r.Some? ==> KeysUnique(r.value)
  {
    if |components| == 0 then Some([])
    else
      var n := |components| - 1;
      var init := Artifacts(components[..n]);
      BrokenSplit(components);
      var s := ShapeComponent(components[n]);
      if init.None? || s.Broken? then None
      else if s.Skip? then init
      else Some(Put(init.value, s.srpmName, s.packages))
  }

  /** Some component raises exactly when one before the last does or the last does. */
  lemma BrokenSplit(components: seq<Component>)
    requires |components| > 0
    ensures var n := |components| - 1;
      (exists i :: 0 <= i < |components| && ShapeComponent(components[i]).Broken?) <==>
      (exists i :: 0 <= i < n && ShapeComponent(components[..n][i]).Broken?) || ShapeComponent(components[n]).Broken?
  {
    var n := |components| - 1;
    assert forall i :: 0 <= i < n ==> components[..n][i] == components[i];
  }

  /** Component `c` contributes an entry named `k`. */
  predicate EntryNamed(c: Component, k: string) {
    ShapeComponent(c).Entry? && ShapeComponent(c).srpmName == k
  }

  /** The last component shaping to an entry named `k`: a later one replaces an earlier. */
  function LastEntry(components: seq<Component>, k: string): (r: Option<nat>)
    ensures r.Some? ==> r.value < |components| && EntryNamed(components[r.value], k)
    ensures r.Some? ==> forall j :: r.value < j < |components| ==> !EntryNamed(components[j], k)
    ensures r.None? ==> forall j :: 0 <= j < |components| ==> !EntryNamed(components[j], k)
  {
    if components == [] then None
    else
      var n := |components| - 1;
      if EntryNamed(components[n], k) then Some(n)
      else
        var init := LastEntry(components[..n], k);
        assert forall j :: 0 <= j < n ==> components[..n][j] == components[j];
        init
  }

  /** Each srpm name maps to the package list of the last component carrying it. */
  lemma {:induction false} ArtifactsSpec(components: seq<Component>, k: string)
    requires Artifacts(components).Some?
    ensures Get(Artifacts(components).value, k) ==
      match LastEntry(components, k)
      case None => None
      case Some(i) => Some(ShapeComponent(components[i]).packages)
  {
    if components != [] {
      var n := |components| - 1;
      assert forall j :: 0 <= j < n ==> components[..n][j] == components[j];
      ArtifactsSpec(components[..n], k);
    }
  }

  /** The query parameters of a module artifact lookup. */
  const ClosestMatch: Dict<string, string> := [("match", "closest")]

  /** The module endpoint for one of the two module names. */
  function ArtifactsEndpoint(platformName: string, platformVersion: string, mName: string, stream: string, arch: string): string {
    "/api/v1/distros/" + platformName + "/" + platformVersion + "/module/" + mName + "/" + stream + "/" + arch + "/"
  }

  /** The shaped answer for one module name, None when the query or the shaping raised. */
  function QueryArtifacts(answer: Option<ModuleResponse>): (r: Option<Dict<string, seq<Package>>>)
    ensures r.Some? <==> answer.Some? && answer.value.artifacts.Some? && Artifacts(answer.value.artifacts.value).Some?
  {
    if answer.None? || answer.value.artifacts.None? then None else Artifacts(answer.value.artifacts.value)
  }

  // ---------------------------------------------------------------------------
  // Requests and the iteration over endpoints
  // ---------------------------------------------------------------------------

  /** iter_endpoints' choice of verb: POST with the payload when it is truthy, GET otherwise. */
  function EndpointRequest(endpoint: string, headers: Dict<string, string>, data: seq<string>): (r: Request)
    ensures r.endpoint == endpoint && r.headers == headers && r.params == []
    ensures r.verb == POST <==> data != []
    ensures r.verb == POST ==> r.body == data
    ensures r.verb == GET ==> r.body == []
  {
    if data != [] then Request(POST, endpoint, headers, [], data) else Request(GET, endpoint, headers, [], [])
  }

  function EndpointRequests(endpoints: seq<string>, headers: Dict<string, string>, data: seq<string>): (r: seq<Request>)
    ensures |r| == |endpoints|
    ensures forall i :: 0 <= i < |endpoints| ==> r[i] == EndpointRequest(endpoints[i], headers, data)
  {
    seq(|endpoints|, i requires 0 <= i < |endpoints| => EndpointRequest(endpoints[i], headers, data))
  }

  /** The answers to `requests`, in order, with every request that raised skipped. */
  function Answered<T>(requests: seq<Request>, send: Request -> Option<T>): (r: seq<T>)
    ensures |r| <= |requests|
  {
    if requests == [] then []
    else
      var n := |requests| - 1;
      var init := Answered(requests[..n], send);
      match send(requests[n])
      case None => init
      case Some(x) => init + [x]
  }

  /** Every answer is the answer to one of the requests. */
  lemma {:induction false} AnsweredFrom<T>(requests: seq<Request>, send: Request -> Option<T>, x: T)
    requires x in Answered(requests, send)
    ensures exists i :: 0 <= i < |requests| && send(requests[i]) == Some(x)
  {
    var n := |requests| - 1;
    if x !in Answered(requests[..n], send) {
      assert send(requests[n]) == Some(x);
    } else {
      AnsweredFrom(requests[..n], send, x);
      var i :| 0 <= i < n && send(requests[..n][i]) == Some(x);
      assert requests[..n][i] == requests[i];
    }
  }

  /** One request: its answer, or nothing when it raised. */
  lemma AnsweredOne<T>(q: Request, send: Request -> Option<T>)
    ensures Answered([q], send) == match send(q) case None => [] case Some(x) => [x]
  {
    assert [q][..0] == [];
  }

  /**
   * The answers to two runs of requests are the answers to the first run
   * followed by those to the second: a request that raises never hides or
   * reorders the answers of the others.
   */
  lemma {:induction false} AnsweredAppend<T>(a: seq<Request>, b: seq<Request>, send: Request -> Option<T>)
    ensures Answered(a + b, send) == Answered(a, send) + Answered(b, send)
    decreases |b|
  {
    if b == [] {
      assert a + b == a;
    } else {
      var n := |b| - 1;
      assert (a + b)[..|a + b| - 1] == a + b[..n];
      assert (a + b)[|a + b| - 1] == b[n];
      AnsweredAppend(a, b[..n], send);
    }
  }

  /** When no request raises, every request has its answer, in order. */
  lemma {:induction false} AnsweredAll<T>(requests: seq<Request>, send: Request -> Option<T>)
    requires forall i :: 0 <= i < |requests| ==> send(requests[i]).Some?
    ensures |Answered(requests, send)| == |requests|
    ensures forall i :: 0 <= i < |requests| ==> Answered(requests, send)[i] == send(requests[i]).value
  {
    if requests != [] {
      var n := |requests| - 1;
      assert forall i :: 0 <= i < n ==> requests[..n][i] == requests[i];
      AnsweredAll(requests[..n], send);
    }
  }

  /** Every request raised exactly when nothing was answered. */
  lemma {:induction false} NoneAnswered<T>(requests: seq<Request>, send: Request -> Option<T>)
    ensures Answered(requests, send) == [] <==> forall i :: 0 <= i < |requests| ==> send(requests[i]).None?
  {
    if requests != [] {
      var n := |requests| - 1;
      assert forall i :: 0 <= i < n ==> requests[..n][i] == requests[i];
      NoneAnswered(requests[..n], send);
    }
  }

  /**
   * The responses retrieve_responses returns: reference platforms first, then
   * the platform itself; `send` answers each request.
   */
  function Retrieved(platform: DbPlatform, clean: string -> string, moduleName: string, moduleStream: string,
                     archs: seq<string>, data: seq<string>, headers: Dict<string, string>,
                     send: Request -> Option<BeholderResponse>, lowest: int): (r: Result<seq<Ranked>, string>)
    ensures var platforms := platform.referencePlatforms + [platform];
      var resps := Answered(EndpointRequests(CreateEndpoints(platforms, clean, moduleName, moduleStream, archs), headers, data), send);
      && (r.Success? <==> Prioritised(resps, platforms, lowest).Success?)
      && (r.Failure? ==> r.error == Prioritised(resps, platforms, lowest).error)
      && (r.Success? ==>
            && Descending(r.value)
            && multiset(r.value) == multiset(Prioritised(resps, platforms, lowest).value)
            && forall p :: WithPriority(r.value, p) == WithPriority(Prioritised(resps, platforms, lowest).value, p))
  {
    forall ranked, p ensures WithPriority(SortDescending(ranked), p) == WithPriority(ranked, p) {
      SortGroups(ranked, p);
    }
    forall ranked ensures Descending(SortDescending(ranked)) && multiset(SortDescending(ranked)) == multiset(ranked) {
      SortSorts(ranked);
    }
    var platforms := platform.referencePlatforms + [platform];
    var resps := Answered(EndpointRequests(CreateEndpoints(platforms, clean, moduleName, moduleStream, archs), headers, data), send);
    match Prioritised(resps, platforms, lowest)
    case Failure(e) => Failure(e)
    case Success(ranked) => Success(SortDescending(ranked))
  }

  /** The answer of Beholder to the module query for one module name. */
  function ModuleAnswer(platformName: string, platformVersion: string, mName: string, stream: string, arch: string,
                        headers: Dict<string, string>, send: Request -> Option<ModuleResponse>): Option<ModuleResponse>
  {
    send(Request(GET, ArtifactsEndpoint(platformName, platformVersion, mName, stream, arch), headers, ClosestMatch, []))
  }

  /** The shaped answers for `names`, each under its name when it succeeded. */
  function Collected(names: seq<string>, platformName: string, platformVersion: string, stream: string, arch: string,
                     headers: Dict<string, string>, send: Request -> Option<ModuleResponse>)
    : (r: Dict<string, Dict<string, seq<Package>>>)
    ensures KeysUnique(r)
    ensures forall m :: HasKey(r, m) ==> m in names
  {
    if names == [] then []
    else
      var n := |names| - 1;
      var init := Collected(names[..n], platformName, platformVersion, stream, arch, headers, send);
      var shaped := QueryArtifacts(ModuleAnswer(platformName, platformVersion, names[n], stream, arch, headers, send));
      assert forall m :: m in names[..n] ==> m in names;
      if shaped.Some? then Put(init, names[n], shaped.value) else init
  }

  /** For distinct names, each one's entry is its own shaped answer. */
  lemma {:induction false} CollectedSpec(names: seq<string>, platformName: string, platformVersion: string, stream: string,
                                         arch: string, headers: Dict<string, string>,
                                         send: Request -> Option<ModuleResponse>, m: string)
    requires m in names
    requires forall i, j :: 0 <= i < j < |names| ==> names[i] != names[j]
    ensures Get(Collected(names, platformName, platformVersion, stream, arch, headers, send), m) ==
      QueryArtifacts(ModuleAnswer(platformName, platformVersion, m, stream, arch, headers, send))
  {
    var n := |names| - 1;
    var init := Collected(names[..n], platformName, platformVersion, stream, arch, headers, send);
    if names[n] != m {
      assert m in names[..n];
      CollectedSpec(names[..n], platformName, platformVersion, stream, arch, headers, send, m);
    } else {
      assert !HasKey(init, m) by {
        assert forall k :: k in names[..n] ==> k != m;
      }
    }
  }

  /** The module itself, then its `-devel` module. */
  function ModuleNames(moduleName: string): (r: seq<string>)
    ensures |r| == 2 && r[0] == moduleName && r[1] == moduleName + "-devel" && r[0] != r[1]
  {
    var devel := moduleName + "-devel";
    assert |devel| > |moduleName|;
    [moduleName, devel]
  }

  /**
   * get_module_artifacts: the module and its `-devel` module, each under its
   * own name, each present exactly when its query and its shaping succeeded.
   */
  function ModuleArtifacts(platformName: string, platformVersion: string, moduleName: string, stream: string, arch: string,
                           headers: Dict<string, string>, send: Request -> Option<ModuleResponse>)
    : (r: Dict<string, Dict<string, seq<Package>>>)
    ensures KeysUnique(r)
    ensures forall m :: HasKey(r, m) ==> m == moduleName || m == moduleName + "-devel"
    ensures forall m :: m == moduleName || m == moduleName + "-devel" ==>
      Get(r, m) == QueryArtifacts(ModuleAnswer(platformName, platformVersion, m, stream, arch, headers, send))
  {
    var names := ModuleNames(moduleName);
    var r := Collected(names, platformName, platformVersion, stream, arch, headers, send);
    forall m | m == moduleName || m == moduleName + "-devel"
      ensures Get(r, m) == QueryArtifacts(ModuleAnswer(platformName, platformVersion, m, stream, arch, headers, send))
    {
      CollectedSpec(names, platformName, platformVersion, stream, arch, headers, send, m);
    }
    r
  }

  // ---------------------------------------------------------------------------
  // The client
  // ---------------------------------------------------------------------------

  /** BeholderClient: a host and the headers sent with every request. */
  class BeholderClient {
    const host: string
    var headers: Dict<string, string>

    /** The only header is `Authorization: Bearer <token>`, and only for a non-empty token. */
    constructor (host: string, token: string)
      ensures this.host == host
      ensures KeysUnique(headers)
      ensures HasKey(headers, "Authorization") <==> token != ""
      ensures token != "" ==> headers == [("Authorization", "Bearer " + token)]
      ensures token == "" ==> headers == []
    {
      var h: Dict<string, string> := [];
      if token != "" {
        h := Put(h, "Authorization", "Bearer " + token);
      }
      this.host := host;
      headers := h;
    }

    /** iter_endpoints: each endpoint requested in order; those that raise are skipped. */
    method IterEndpoints<T>(endpoints: seq<string>, data: seq<string>, send: Request -> Option<T>)
      returns (responses: seq<T>, requests: seq<Request>)
      ensures requests == EndpointRequests(endpoints, headers, data)
      ensures responses == Answered(requests, send)
    {
      responses, requests := [], [];
      for i := 0 to |endpoints|
        invariant |requests| == i
        invariant forall j :: 0 <= j < i ==> requests[j] == EndpointRequest(endpoints[j], headers, data)
        invariant responses == Answered(requests, send)
      {
        var request := Request(GET, endpoints[i], headers, [], []);
        if data != [] {
          request := Request(POST, endpoints[i], headers, [], data);
        }
        var answer := send(request);
        var requests' := requests + [request];
        assert requests'[..i] == requests && requests'[i] == request;
        requests := requests';
        if answer.Some? {
          responses := responses + [answer.value];
        }
      }
    }

    /** The loop of retrieve_responses: each answer gets the priority of the first platform serving it. */
    method PrioritiseResponses(answered: seq<BeholderResponse>, platformsList: seq<DbPlatform>, lowest: int)
      returns (r: Result<seq<Ranked>, string>)
      ensures r == Prioritised(answered, platformsList, lowest)
    {
      var responses := [];
      for k := 0 to |answered|
        invariant Prioritised(answered[..k], platformsList, lowest) == Success(responses)
      {
        assert answered[..k + 1][..k] == answered[..k];
        var response := answered[k];
        if response.distribution.None? {
          PrioritisedFailsAt(answered, platformsList, lowest, k);
          return Failure("KeyError");
        }
        var m := FirstServing(platformsList, response.distribution.value);
        if m.None? {
          PrioritisedFailsAt(answered, platformsList, lowest, k);
          return Failure("RuntimeError");
        }
        responses := responses + [Ranked(response, Effective(platformsList[m.value].priority, lowest))];
      }
      assert answered[..|answered|] == answered;
      return Success(responses);
    }

    /** retrieve_responses: reference platforms first, then the platform; prioritise every answer, then sort. */
    method RetrieveResponses(platform: DbPlatform, clean: string -> string, moduleName: string, moduleStream: string,
                             archs: seq<string>, data: seq<string>, send: Request -> Option<BeholderResponse>, lowest: int)
      returns (r: Result<seq<Ranked>, string>)
      ensures r == Retrieved(platform, clean, moduleName, moduleStream, archs, data, headers, send, lowest)
    {
      var platformsList := platform.referencePlatforms + [platform];
      var endpoints := CreateEndpoints(platformsList, clean, moduleName, moduleStream, archs);
      var answered, _ := IterEndpoints(endpoints, data, send);
      r := PrioritiseResponses(answered, platformsList, lowest);
      if r.Success? {
        r := Success(SortDescending(r.value));
      }
    }

    /** The `artifacts` loop over the components of one response. */
    method ShapeArtifacts(components: seq<Component>) returns (artifacts: Option<Dict<string, seq<Package>>>)
      ensures artifacts == Artifacts(components)
    {
      var acc: Dict<string, seq<Package>> := [];
      for i := 0 to |components|
        invariant Artifacts(components[..i]) == Some(acc)
      {
        assert components[..i + 1][..i] == components[..i];
        var c := components[i];
        if c.packages == [] || c.sourceRpm.None? {
          continue;
        }
        if c.packages[0].epoch.Missing? {
          assert ShapeComponent(components[..i + 1][i]).Broken?;
          assert ShapeComponent(components[i]).Broken?;
          return None;
        }
        var packages := c.packages + [SourceEntry(c)];
        acc := Put(acc, c.sourceRpm.value.name, packages);
      }
      assert components[..|components|] == components;
      return Some(acc);
    }

    /** get_module_artifacts: the main module, then its `-devel` module. */
    method GetModuleArtifacts(platformName: string, platformVersion: string, moduleName: string, stream: string, arch: string,
                              send: Request -> Option<ModuleResponse>)
      returns (result: Dict<string, Dict<string, seq<Package>>>)
      ensures result == ModuleArtifacts(platformName, platformVersion, moduleName, stream, arch, headers, send)
    {
      result := [];
      var names := ModuleNames(moduleName);
      for n := 0 to |names|
        invariant result == Collected(names[..n], platformName, platformVersion, stream, arch, headers, send)
      {
        assert names[..n + 1][..n] == names[..n];
        var response := send(Request(GET, ArtifactsEndpoint(platformName, platformVersion, names[n], stream, arch), headers, ClosestMatch, []));
        if response.None? || response.value.artifacts.None? {
          continue;
        }
        var artifacts := ShapeArtifacts(response.value.artifacts.value);
        if artifacts.Some? {
          result := Put(result, names[n], artifacts.value);
        }
      }
      assert names[..|names|] == names;
    }
  }
}
