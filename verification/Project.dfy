/**
  Start order of a compose project (`crates/rustlet-compose/src/project.rs`):
  closure of the request, Kahn's algorithm with ties in file order, and the
  cycle that is reported when no order exists.
*/
module Project {
  import opened Common

  datatype Dependency = Dependency(service: string, required: bool)

  datatype Service = Service(name: string, dependsOn: seq<Dependency>)

  datatype OrderError =
    | NoSuchService(name: string)
    | MissingDependency(service: nat, dependency: Dependency)
    | DependencyCycle(services: seq<nat>)

  /** Services by position; `g[i]` are the positions `i` depends on. */
  type Graph = seq<seq<nat>>

  ghost predicate ValidGraph(g: Graph) {
    forall i, k :: 0 <= i < |g| && 0 <= k < |g[i]| ==> g[i][k] < |g|
  }

  predicate Edge(g: Graph, i: nat, j: nat) {
    i < |g| && j in g[i]
  }

  // ---------------------------------------------------------------- meaning

  /** A chain of dependencies, each on the next. */
  ghost predicate Chain(g: Graph, p: seq<nat>) {
    |p| > 0 && p[0] < |g| && forall k :: 0 <= k < |p| - 1 ==> Edge(g, p[k], p[k + 1])
  }

  ghost predicate ChainTo(g: Graph, roots: iset<nat>, p: seq<nat>, j: nat) {
    Chain(g, p) && p[0] in roots && p[|p| - 1] == j
  }

  /** The request reaches `j` by some chain of dependencies. */
  ghost predicate Needed(g: Graph, roots: iset<nat>, j: nat) {
    exists p :: ChainTo(g, roots, p, j)
  }

  /** A chain that comes round to where it began. */
  ghost predicate Cycle(g: Graph, c: seq<nat>) {
    |c| > 1 && Chain(g, c) && c[0] == c[|c| - 1]
  }

  ghost predicate Distinct(s: seq<nat>) {
    forall i, j :: 0 <= i < j < |s| ==> s[i] != s[j]
  }

  /** Every member once, each after everything it depends on. */
  ghost predicate Ordered(g: Graph, members: iset<nat>, order: seq<nat>) {
    && Distinct(order)
    && (forall i :: i in order <==> i in members)
    && forall k, d :: 0 <= k < |order| && Edge(g, order[k], d) ==> d in order[..k]
  }

  /** The same, or smaller at the first place they differ. */
  ghost predicate LexAtMost(a: seq<nat>, b: seq<nat>) {
    a == b || exists k :: 0 <= k < |a| && k < |b| && a[..k] == b[..k] && a[k] < b[k]
  }

  // ---------------------------------------------------------------- services

  /** The first service of a name. */
  function Index(services: seq<Service>, name: string, from: nat := 0): (r: Option<nat>)
    requires from <= |services|
    ensures r.Some? ==> from <= r.value < |services| && services[r.value].name == name
    ensures r.Some? ==> forall i :: from <= i < r.value ==> services[i].name != name
    ensures r.None? ==> forall i :: from <= i < |services| ==> services[i].name != name
    decreases |services| - from
  {
    if from == |services| then None
    else if services[from].name == name then Some(from)
    else Index(services, name, from + 1)
  }

  /** The positions of those dependencies that are in the project. */
  function Positions(services: seq<Service>, deps: seq<Dependency>): (r: seq<nat>)
    ensures forall j :: j in r <==> exists d :: d in deps && Index(services, d.service) == Some(j)
    ensures forall k :: 0 <= k < |r| ==> r[k] < |services|
  {
    if deps == [] then []
    else
      assert deps == [deps[0]] + deps[1..];
      (match Index(services, deps[0].service) case Some(j) => [j] case None => [])
      + Positions(services, deps[1..])
  }

  /** The service at `j` is the one of that name: no service before it has it. */
  predicate IsNamed(services: seq<Service>, j: nat, name: string) {
    j < |services| && services[j].name == name && forall k :: 0 <= k < j ==> services[k].name != name
  }

  /** Service `i` has a dependency, required or not, on the service at `j`. */
  ghost predicate DependsOn(services: seq<Service>, i: nat, j: nat) {
    i < |services| && exists d :: d in services[i].dependsOn && IsNamed(services, j, d.service)
  }

  function GraphOf(services: seq<Service>): (g: Graph)
    ensures ValidGraph(g) && |g| == |services|
  {
    seq(|services|, i requires 0 <= i < |services| => Positions(services, services[i].dependsOn))
  }

  lemma IndexIs(services: seq<Service>, name: string, j: nat)
    ensures Index(services, name) == Some(j) <==> IsNamed(services, j, name)
  {
  }

  /** The graph's edges are the dependencies, required or not, on services of the project. */
  lemma EdgeIsDependency(services: seq<Service>, i: nat, j: nat)
    ensures Edge(GraphOf(services), i, j) <==> DependsOn(services, i, j)
  {
    if i < |services| {
      forall d: Dependency | d in services[i].dependsOn
        ensures Index(services, d.service) == Some(j) <==> IsNamed(services, j, d.service)
      {
        IndexIs(services, d.service, j);
      }
    }
  }

  ghost predicate MissingAt(services: seq<Service>, strict: bool, i: nat, d: Dependency) {
    strict && i < |services| && d in services[i].dependsOn && d.required && Index(services, d.service).None?
  }

  /** `only` asks for the service: it names it, or it names none. */
  ghost predicate Asked(services: seq<Service>, only: seq<string>, i: nat) {
    i < |services| && (only == [] || exists name :: name in only && Index(services, name) == Some(i))
  }

  ghost function Requested(services: seq<Service>, only: seq<string>): iset<nat> {
    iset i: nat | Asked(services, only, i)
  }

  // ----------------------------------------------------------------- closure

  function AllBelow(n: nat): (s: set<nat>)
    ensures forall i: nat :: i in s <==> i < n
    ensures |s| == n
  {
    if n == 0 then {} else AllBelow(n - 1) + {n - 1}
  }

  lemma NeededStep(g: Graph, roots: iset<nat>, i: nat, j: nat)
    requires Needed(g, roots, i) && Edge(g, i, j)
    ensures Needed(g, roots, j)
  {
    var p :| ChainTo(g, roots, p, i);
    assert ChainTo(g, roots, p + [j], j);
  }

  lemma NeededRoot(g: Graph, roots: iset<nat>, i: nat)
    requires i in roots && i < |g|
    ensures Needed(g, roots, i)
  {
    assert ChainTo(g, roots, [i], i);
  }

  /** A set that holds the roots and is closed holds everything a chain reaches. */
  lemma {:induction false} ClosedHoldsChain(g: Graph, roots: iset<nat>, members: iset<nat>, p: seq<nat>, j: nat)
    requires roots <= members && forall i, d :: i in members && Edge(g, i, d) ==> d in members
    requires ChainTo(g, roots, p, j)
    ensures j in members
  {
    if |p| > 1 {
      var q := p[..|p| - 1];
      assert ChainTo(g, roots, q, p[|p| - 2]);
      ClosedHoldsChain(g, roots, members, q, p[|p| - 2]);
      assert Edge(g, p[|p| - 2], p[|p| - 1]);
    }
  }

  lemma ClosedHoldsNeeded(g: Graph, roots: iset<nat>, members: iset<nat>)
    requires roots <= members && forall i, d :: i in members && Edge(g, i, d) ==> d in members
    ensures forall j :: Needed(g, roots, j) ==> j in members
  {
    forall j | Needed(g, roots, j) ensures j in members {
      var p :| ChainTo(g, roots, p, j);
      ClosedHoldsChain(g, roots, members, p, j);
    }
  }

  /** A worklist's invariant: what is marked is needed, and what it needs is marked or on the stack. */
  ghost predicate Working(g: Graph, roots: iset<nat>, marked: iset<nat>, stack: seq<nat>) {
    && (forall i :: i in marked || i in stack ==> i < |g| && Needed(g, roots, i))
    && (forall i :: i in roots ==> i in marked || i in stack)
    && (forall i, j :: i in marked && Edge(g, i, j) ==> j in marked || j in stack)
  }

  /** One turn: `i` is marked, and what it needs is pushed unless it was marked before. */
  lemma WorkStep(g: Graph, roots: iset<nat>, marked: iset<nat>, stack: seq<nat>, i: nat, pushed: seq<nat>)
    requires Working(g, roots, marked, stack + [i]) && (forall j: nat :: Edge(g, i, j) ==> j < |g|)
    requires i in marked ==> pushed == stack
    requires i !in marked ==> forall j: nat :: j in pushed <==> j in stack || Edge(g, i, j)
    ensures Working(g, roots, marked + iset{i}, pushed)
  {
    assert forall j :: j in stack + [i] <==> j in stack || j == i;
    forall j | Edge(g, i, j) ensures Needed(g, roots, j) {
      NeededStep(g, roots, i, j);
    }
  }

  lemma WorkDone(g: Graph, roots: iset<nat>, marked: iset<nat>)
    requires Working(g, roots, marked, [])
    ensures forall j :: j in marked <==> Needed(g, roots, j)
  {
    ClosedHoldsNeeded(g, roots, marked);
  }

  /** What one service adds to the stack: its dependencies in the project, unless a required one is missing. */
  method PushDependencies(services: seq<Service>, i: nat, strict: bool, before: seq<nat>)
    returns (r: Result<seq<nat>, OrderError>)
    requires i < |services|
    ensures r.Ok? ==>
      && (forall j :: j in r.value <==> j in before || Edge(GraphOf(services), i, j))
      && forall d :: !MissingAt(services, strict, i, d)
    ensures r.Err? ==> exists d :: r.error == MissingDependency(i, d) && MissingAt(services, strict, i, d)
  {
    var deps := services[i].dependsOn;
    var stack := before;
    for k := 0 to |deps|
      invariant forall j :: j in stack <==> j in before || exists l :: 0 <= l < k && Index(services, deps[l].service) == Some(j)
      invariant forall l :: 0 <= l < k ==> !MissingAt(services, strict, i, deps[l])
    {
      match Index(services, deps[k].service)
      case Some(j) => stack := stack + [j];
      case None =>
        if deps[k].required && strict {
          assert MissingAt(services, strict, i, deps[k]);
          return Err(MissingDependency(i, deps[k]));
        }
    }
    assert GraphOf(services)[i] == Positions(services, deps);
    return Ok(stack);
  }

  /** The worklist: exactly what the roots need, or a required dependency that is missing among it. */
  method Close(services: seq<Service>, start: seq<nat>, strict: bool, ghost roots: iset<nat>)
    returns (r: Result<set<nat>, OrderError>)
    requires forall i :: i in start <==> i in roots
    requires forall i :: i in start ==> i < |services|
    ensures r.Ok? ==>
      && (forall j :: j in r.value <==> Needed(GraphOf(services), roots, j))
      && forall i, d :: i in r.value ==> !MissingAt(services, strict, i, d)
    ensures r.Err? ==> exists i, d ::
      r.error == MissingDependency(i, d) && Needed(GraphOf(services), roots, i) && MissingAt(services, strict, i, d)
  {
    ghost var g := GraphOf(services);
    ghost var all := AllBelow(|services|);
    var wanted: set<nat> := {};
    var stack: seq<nat> := start;
    forall i | i in start ensures Needed(g, roots, i) { NeededRoot(g, roots, i); }
    while stack != []
      invariant wanted <= all && Working(g, roots, Members(wanted), stack)
      invariant forall i, d :: i in wanted ==> !MissingAt(services, strict, i, d)
      decreases all - wanted, |stack|
    {
      var i, rest := stack[|stack| - 1], stack[..|stack| - 1];
      assert stack == rest + [i] && i in stack;
      if i in wanted {
        WorkStep(g, roots, Members(wanted), rest, i, rest);
        assert Members(wanted) + iset{i} == Members(wanted);
        stack := rest;
        continue;
      }
      var pushed := PushDependencies(services, i, strict, rest);
      if pushed.Err? { return Err(pushed.error); }
      WorkStep(g, roots, Members(wanted), rest, i, pushed.value);
      assert Members(wanted + {i}) == Members(wanted) + iset{i};
      wanted := wanted + {i};
      stack := pushed.value;
    }
    WorkDone(g, roots, Members(wanted));
    return Ok(wanted);
  }

  // ---------------------------------------------------------------- ordering

  /** `i` can go next, after what is placed. */
  predicate Ready(g: Graph, wanted: set<nat>, placed: seq<nat>, i: nat) {
    i in wanted && i < |g| && i !in placed && forall k :: 0 <= k < |g[i]| ==> g[i][k] in placed
  }

  /** A prefix of an order: each placed after its dependencies, and the first that could go each time. */
  ghost predicate Greedy(g: Graph, wanted: set<nat>, order: seq<nat>) {
    && Distinct(order)
    && (forall k :: 0 <= k < |order| ==> Ready(g, wanted, order[..k], order[k]))
    && (forall k, i :: 0 <= k < |order| && 0 <= i < order[k] ==> !Ready(g, wanted, order[..k], i))
  }

  lemma GreedyStep(g: Graph, wanted: set<nat>, order: seq<nat>, i: nat)
    requires Greedy(g, wanted, order) && Ready(g, wanted, order, i)
    requires forall l :: 0 <= l < i ==> !Ready(g, wanted, order, l)
    ensures Greedy(g, wanted, order + [i])
  {
    var longer := order + [i];
    assert longer[..|order|] == order;
    assert forall k :: 0 <= k < |order| ==> longer[..k] == order[..k];
  }

  /** `find`: the first position that is ready. */
  method FirstReady(g: Graph, wanted: set<nat>, placed: seq<nat>) returns (r: Option<nat>)
    ensures r.Some? ==> Ready(g, wanted, placed, r.value) && forall l :: 0 <= l < r.value ==> !Ready(g, wanted, placed, l)
    ensures r.None? ==> forall l :: 0 <= l < |g| ==> !Ready(g, wanted, placed, l)
  {
    for i := 0 to |g|
      invariant forall l :: 0 <= l < i ==> !Ready(g, wanted, placed, l)
    {
      if Ready(g, wanted, placed, i) { return Some(i); }
    }
    return None;
  }

  /** Kahn's algorithm: the greedy order, as far as it goes. */
  method Place(g: Graph, wanted: set<nat>) returns (order: seq<nat>)
    ensures Greedy(g, wanted, order)
    ensures forall l :: 0 <= l < |g| ==> !Ready(g, wanted, order, l)
  {
    order := [];
    ghost var left := wanted;
    while true
      invariant Greedy(g, wanted, order)
      invariant forall i :: i in left <==> i in wanted && i !in order
      decreases left
    {
      var next := FirstReady(g, wanted, order);
      if next.None? { return; }
      GreedyStep(g, wanted, order, next.value);
      assert next.value in left;
      order, left := order + [next.value], left - {next.value};
    }
  }

  ghost function Members(s: set<nat>): iset<nat> {
    iset i | i in s
  }

  lemma GreedyIsOrdered(g: Graph, wanted: set<nat>, order: seq<nat>)
    requires Greedy(g, wanted, order) && forall i :: i in wanted ==> i in order
    ensures Ordered(g, Members(wanted), order)
  {
    forall k, d | 0 <= k < |order| && Edge(g, order[k], d) ensures d in order[..k] {
      assert Ready(g, wanted, order[..k], order[k]);
    }
    forall i | i in order ensures i in wanted {
      var k :| 0 <= k < |order| && order[k] == i;
      assert Ready(g, wanted, order[..k], order[k]);
    }
  }

  /** A sequence without repetitions is as long as the set of what it holds. */
  lemma {:induction false} DistinctLength(s: seq<nat>, members: set<nat>)
    requires Distinct(s) && forall i :: i in s <==> i in members
    ensures |s| == |members|
  {
    if s != [] {
      var last := s[|s| - 1];
      var rest := s[..|s| - 1];
      assert s == rest + [last];
      assert last in s;
      DistinctLength(rest, members - {last});
      assert members == (members - {last}) + {last};
    } else {
      assert members == {};
    }
  }

  /** Among all orders the greedy one comes first, compared position by position. */
  lemma {:induction false} GreedyFrom(g: Graph, wanted: set<nat>, order: seq<nat>, other: seq<nat>, k: nat)
    requires Greedy(g, wanted, order) && Ordered(g, Members(wanted), order) && Ordered(g, Members(wanted), other)
    requires forall i :: i in wanted ==> i < |g|
    requires k <= |order| == |other| && order[..k] == other[..k]
    ensures LexAtMost(order, other)
    decreases |order| - k
  {
    if k == |order| {
      assert order == order[..k] && other == other[..k];
    } else {
      var i := other[k];
      assert i in other && i !in other[..k];
      forall l | 0 <= l < |g[i]| ensures g[i][l] in order[..k] {
        assert Edge(g, other[k], g[i][l]);
      }
      assert Ready(g, wanted, order[..k], i);
      if order[k] == i {
        assert order[..k + 1] == order[..k] + [i] == other[..k + 1];
        GreedyFrom(g, wanted, order, other, k + 1);
      }
    }
  }

  lemma GreedyIsLeast(g: Graph, wanted: set<nat>, order: seq<nat>, other: seq<nat>)
    requires Greedy(g, wanted, order) && Ordered(g, Members(wanted), order) && Ordered(g, Members(wanted), other)
    requires forall i :: i in wanted ==> i < |g|
    ensures LexAtMost(order, other)
  {
    DistinctLength(order, wanted);
    DistinctLength(other, wanted);
    GreedyFrom(g, wanted, order, other, 0);
  }

  // ------------------------------------------------------------------ cycles

  /** Along a chain an order only goes back. */
  lemma {:induction false} ChainGoesBack(g: Graph, members: iset<nat>, order: seq<nat>, p: seq<nat>, k: nat)
    requires Ordered(g, members, order) && Chain(g, p) && |p| > 1 && k < |order| && order[k] == p[0]
    ensures p[|p| - 1] in order[..k]
  {
    assert Edge(g, p[0], p[0 + 1]);
    if |p| > 2 {
      var l :| 0 <= l < k && order[..k][l] == p[1];
      var rest := p[1..];
      assert Edge(g, p[1], p[1 + 1]);
      assert Chain(g, rest) by {
        forall m | 0 <= m < |rest| - 1 ensures Edge(g, rest[m], rest[m + 1]) { assert Edge(g, p[m + 1], p[m + 2]); }
      }
      ChainGoesBack(g, members, order, rest, l);
      assert order[..l] == order[..k][..l];
    }
  }

  /** Where there is an order there is no cycle. */
  lemma OrderedHasNoCycle(g: Graph, members: iset<nat>, order: seq<nat>, c: seq<nat>)
    requires Ordered(g, members, order)
    ensures !(Cycle(g, c) && c[0] in members)
  {
    if Cycle(g, c) && c[0] in members {
      var k :| 0 <= k < |order| && order[k] == c[0];
      ChainGoesBack(g, members, order, c, k);
    }
  }

  function FirstUnplaced(deps: seq<nat>, placed: seq<nat>): (r: Option<nat>)
    ensures r.Some? ==> r.value in deps && r.value !in placed
    ensures r.None? ==> forall k :: 0 <= k < |deps| ==> deps[k] in placed
  {
    if deps == [] then None
    else if deps[0] !in placed then Some(deps[0])
    else FirstUnplaced(deps[1..], placed)
  }

  function Position(path: seq<nat>, i: nat): (r: Option<nat>)
    ensures r.Some? ==> r.value < |path| && path[r.value] == i
    ensures r.None? <==> i !in path
  {
    if path == [] then None
    else if path[0] == i then Some(0)
    else match Position(path[1..], i) case Some(p) => Some(p + 1) case None => None
  }

  /** The waits of what is left are followed until they come round; they always do. */
  method FollowWaits(g: Graph, wanted: set<nat>, placed: seq<nat>, start: nat) returns (cycle: seq<nat>)
    requires ValidGraph(g) && start in wanted && start !in placed
    requires forall i :: i in wanted ==> i < |g|
    requires forall i, d :: i in wanted && Edge(g, i, d) ==> d in wanted
    requires forall l :: 0 <= l < |g| ==> !Ready(g, wanted, placed, l)
    ensures Cycle(g, cycle) && forall i :: i in cycle ==> i in wanted
  {
    var path: seq<nat> := [start];
    ghost var unseen := AllBelow(|g|) - {start};
    while true
      invariant Chain(g, path) && forall i :: i in path ==> i in wanted && i !in placed
      invariant forall i: nat :: i in unseen <==> i < |g| && i !in path
      decreases unseen
    {
      var last := path[|path| - 1];
      assert last in path;
      var next := FirstUnplaced(g[last], placed);
      if next.None? {
        assert Ready(g, wanted, placed, last);
        assert false;
      }
      assert Edge(g, last, next.value);
      var p := Position(path, next.value);
      if p.Some? {
        cycle := path[p.value..] + [next.value];
        return;
      }
      path, unseen := path + [next.value], unseen - {next.value};
    }
  }

  // -------------------------------------------------------- dependency_order

  /** `only` names nothing unknown, and nothing it needs lacks a required dependency. */
  ghost predicate Resolvable(services: seq<Service>, only: seq<string>, strict: bool) {
    && (forall name :: name in only ==> Index(services, name).Some?)
    && forall i, d :: MissingAt(services, strict, i, d) ==> !Needed(GraphOf(services), Requested(services, only), i)
  }

  predicate Exists(services: seq<Service>, name: string) {
    exists k :: 0 <= k < |services| && services[k].name == name
  }

  predicate RequiredExist(services: seq<Service>, i: nat)
    requires i < |services|
  {
    forall k :: 0 <= k < |services[i].dependsOn| ==>
      services[i].dependsOn[k].required ==> Exists(services, services[i].dependsOn[k].service)
  }

  lemma IndexExists(services: seq<Service>, name: string)
    ensures Index(services, name).Some? <==> Exists(services, name)
  {
  }

  lemma MissingMeans(services: seq<Service>, i: nat)
    requires i < |services|
    ensures (exists d :: MissingAt(services, true, i, d)) <==> !RequiredExist(services, i)
  {
    var deps := services[i].dependsOn;
    forall k | 0 <= k < |deps|
      ensures MissingAt(services, true, i, deps[k]) <==> deps[k].required && !Exists(services, deps[k].service)
    {
      IndexExists(services, deps[k].service);
    }
  }

  /** In the file's own terms: the names asked for exist, and so do, if `strict`, the required dependencies of all that is needed. */
  lemma ResolvableMeans(services: seq<Service>, only: seq<string>, strict: bool)
    ensures Resolvable(services, only, strict) <==>
      && (forall name :: name in only ==> Exists(services, name))
      && (strict ==> forall i: nat :: i < |services| && i in NeededSet(services, only) ==> RequiredExist(services, i))
  {
    forall name | name in only ensures Index(services, name).Some? <==> Exists(services, name) {
      IndexExists(services, name);
    }
    ghost var needed := NeededSet(services, only);
    if strict && Resolvable(services, only, strict) {
      forall i: nat | i < |services| && i in needed ensures RequiredExist(services, i) {
        MissingMeans(services, i);
      }
    }
    if forall i: nat :: i < |services| && i in needed ==> RequiredExist(services, i) {
      forall i, d | MissingAt(services, strict, i, d) ensures i !in needed {
        MissingMeans(services, i);
      }
    }
  }

  /** What is asked for: everything, or the services named. */
  lemma RequestedMeans(services: seq<Service>, only: seq<string>, i: nat)
    ensures i in Requested(services, only) <==>
      i < |services| && (only == [] || exists name :: name in only && IsNamed(services, i, name))
  {
    forall name: string ensures Index(services, name) == Some(i) <==> IsNamed(services, i, name) {
      IndexIs(services, name, i);
    }
  }

  ghost predicate NeededCycle(services: seq<Service>, only: seq<string>, c: seq<nat>) {
    Cycle(GraphOf(services), c) && forall i :: i in c ==> Needed(GraphOf(services), Requested(services, only), i)
  }

  /** What an error says is so. */
  ghost predicate Justified(services: seq<Service>, only: seq<string>, strict: bool, error: OrderError) {
    match error
    case NoSuchService(name) => name in only && Index(services, name).None?
    case MissingDependency(i, d) =>
      Needed(GraphOf(services), Requested(services, only), i) && MissingAt(services, strict, i, d)
    case DependencyCycle(c) => Resolvable(services, only, strict) && NeededCycle(services, only, c)
  }

  ghost function NeededSet(services: seq<Service>, only: seq<string>): iset<nat> {
    iset i | Needed(GraphOf(services), Requested(services, only), i)
  }

  /** The positions `only` asks for, last name first, as they are put on the stack. */
  method Start(services: seq<Service>, only: seq<string>) returns (r: Result<seq<nat>, OrderError>)
    ensures r.Ok? ==> forall name :: name in only ==> Index(services, name).Some?
    ensures r.Ok? ==> forall i :: i in r.value <==> i in Requested(services, only)
    ensures r.Ok? ==> forall i :: i in r.value ==> i < |services|
    ensures r.Err? ==> exists name :: name in only && Index(services, name).None? && r.error == NoSuchService(name)
  {
    var stack: seq<nat> := [];
    if only == [] {
      for i := |services| downto 0
        invariant forall j: nat :: j in stack <==> i <= j < |services|
      {
        stack := stack + [i];
      }
      assert forall i: nat :: i in Requested(services, only) <==> Asked(services, only, i);
      return Ok(stack);
    }
    for k := |only| downto 0
      invariant forall l :: k <= l < |only| ==> Index(services, only[l]).Some?
      invariant forall j :: j in stack <==> exists l :: k <= l < |only| && Index(services, only[l]) == Some(j)
    {
      match Index(services, only[k])
      case None => return Err(NoSuchService(only[k]));
      case Some(i) => stack := stack + [i];
    }
    forall i ensures i in stack <==> i in Requested(services, only) {
      assert i in Requested(services, only) <==> Asked(services, only, i);
    }
    return Ok(stack);
  }

  /**
    `dependency_order`: an order when there is one, and then exactly what the
    request needs, each once, each after its dependencies, and of all such
    orders the first by file position; otherwise a reason that is real.
  */
  method DependencyOrder(services: seq<Service>, only: seq<string>, strict: bool) returns (r: Result<seq<nat>, OrderError>)
    ensures r.Ok? <==> Resolvable(services, only, strict) && !exists c :: NeededCycle(services, only, c)
    ensures r.Ok? ==> Ordered(GraphOf(services), NeededSet(services, only), r.value)
    ensures r.Ok? ==> forall other :: Ordered(GraphOf(services), NeededSet(services, only), other) ==> LexAtMost(r.value, other)
    ensures r.Err? ==> Justified(services, only, strict, r.error)
    ensures forall i, j :: Edge(GraphOf(services), i, j) <==> DependsOn(services, i, j)
  {
    forall i, j ensures Edge(GraphOf(services), i, j) <==> DependsOn(services, i, j) {
      EdgeIsDependency(services, i, j);
    }
    ghost var roots := Requested(services, only);
    var start := Start(services, only);
    if start.Err? { return Err(start.error); }
    var closed := Close(services, start.value, strict, roots);
    if closed.Err? { return Err(closed.error); }
    var g, wanted := GraphOf(services), closed.value;
    WantedIsClosed(g, roots, wanted);
    assert NeededSet(services, only) == Members(wanted);
    var order := Place(g, wanted);
    if i :| i in wanted && i !in order {
      var first := FirstLeft(wanted, order, |services|);
      var cycle := FollowWaits(g, wanted, order, first);
      assert NeededCycle(services, only, cycle);
      return Err(DependencyCycle(cycle));
    }
    GreedyIsOrdered(g, wanted, order);
    forall c ensures !NeededCycle(services, only, c) {
      OrderedHasNoCycle(g, Members(wanted), order, c);
    }
    forall other | Ordered(g, Members(wanted), other) ensures LexAtMost(order, other) {
      GreedyIsLeast(g, wanted, order, other);
    }
    return Ok(order);
  }

  lemma WantedIsClosed(g: Graph, roots: iset<nat>, wanted: set<nat>)
    requires ValidGraph(g) && forall j :: j in wanted <==> Needed(g, roots, j)
    ensures forall i :: i in wanted ==> i < |g|
    ensures forall i, d :: i in wanted && Edge(g, i, d) ==> d in wanted
  {
    forall i | i in wanted ensures i < |g| {
      var p :| ChainTo(g, roots, p, i);
      if |p| > 1 { assert Edge(g, p[|p| - 2], p[|p| - 2 + 1]); }
    }
    forall i, d | i in wanted && Edge(g, i, d) ensures d in wanted {
      NeededStep(g, roots, i, d);
    }
  }

  /** The first position that is wanted and not placed. */
  method FirstLeft(wanted: set<nat>, placed: seq<nat>, n: nat) returns (i: nat)
    requires exists j :: j in wanted && j !in placed
    requires forall j :: j in wanted ==> j < n
    ensures i in wanted && i !in placed && forall j: nat :: j < i ==> !(j in wanted && j !in placed)
  {
    i := 0;
    while !(i in wanted && i !in placed)
      invariant i <= n && forall j: nat :: j < i ==> !(j in wanted && j !in placed)
      decreases n - i
    {
      i := i + 1;
    }
  }
}
