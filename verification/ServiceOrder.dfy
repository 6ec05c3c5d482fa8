/**
 Stable dependency ordering of Compose services: Kahn's algorithm over a set of names
 with a name tie-break (src/wudup/compose.py).
 */
module ServiceOrder {
  import opened Ordering

  /** A decoded JSON value, as `docker compose config --format json` yields it. */
  datatype Json =
    | Null
    | Bool(value: bool)
    | Number(number: int)
    | Text(text: string)
    | Array(items: seq<Json>)
    | Object(fields: map<string, Json>)

  datatype OrderError = DependencyCycle

  type Dependencies = map<string, set<string>>

  function BeforeColon(s: string): string {
    if s == [] || s[0] == ':' then [] else [s[0]] + BeforeColon(s[1..])
  }

  predicate StartsWith(s: string, prefix: string) {
    prefix <= s
  }

  function Field(config: Json, key: string): Json {
    if config.Object? && key in config.fields then config.fields[key] else Null
  }

  function Texts(value: Json): set<string> {
    if value.Array? then set x: Json | x in value.items && x.Text? :: x.text else {}
  }

  function NamedService(value: Json): set<string> {
    if value.Text? && StartsWith(value.text, "service:") then {value.text[|"service:"|..]} else {}
  }

  /** Services this one must start after. A value that is not an object has none. */
  function ServiceDependencies(config: Json): set<string> {
    var dependsOn := Field(config, "depends_on");
    var listed := if dependsOn.Object? then dependsOn.fields.Keys else Texts(dependsOn);
    var links := set l | l in Texts(Field(config, "links")) :: BeforeColon(l);
    var volumes := set v | v in Texts(Field(config, "volumes_from")) && !StartsWith(v, "container:")
                     :: BeforeColon(v);
    listed + links + volumes
    + NamedService(Field(config, "network_mode"))
    + NamedService(Field(config, "ipc"))
    + NamedService(Field(config, "pid"))
  }

  /** The dependency relation restricted to `names`, with self-edges dropped. */
  function RestrictedDependencies(names: set<string>, configs: map<string, Json>): Dependencies {
    map s | s in names ::
      ServiceDependencies(if s in configs then configs[s] else Null) * (names - {s})
  }

  // ---------- What a service depends on ----------

  ghost predicate HasField(config: Json, key: string, value: Json) {
    config.Object? && key in config.fields && config.fields[key] == value
  }

  /** The text of `listed` before its first colon, or all of it. */
  ghost predicate NameBefore(listed: string, name: string) {
    ':' !in name && (listed == name || name + ":" <= listed)
  }

  ghost predicate ListsIn(value: Json, text: string) {
    value.Array? && Text(text) in value.items
  }

  ghost predicate NamedInDependsOn(config: Json, name: string) {
    exists value :: HasField(config, "depends_on", value)
                    && ((value.Object? && name in value.fields) || ListsIn(value, name))
  }

  ghost predicate LinksTo(config: Json, name: string) {
    exists value, link :: HasField(config, "links", value) && ListsIn(value, link) && NameBefore(link, name)
  }

  ghost predicate TakesVolumesFrom(config: Json, name: string) {
    exists value, from :: HasField(config, "volumes_from", value) && ListsIn(value, from)
                          && !("container:" <= from) && NameBefore(from, name)
  }

  /** What the Compose configuration says of one service, field by field. */
  ghost predicate DependsOn(config: Json, name: string) {
    || NamedInDependsOn(config, name)
    || LinksTo(config, name)
    || TakesVolumesFrom(config, name)
    || HasField(config, "network_mode", Text("service:" + name))
    || HasField(config, "ipc", Text("service:" + name))
    || HasField(config, "pid", Text("service:" + name))
  }

  lemma {:induction false} BeforeColonIff(listed: string, name: string)
    ensures NameBefore(listed, name) <==> name == BeforeColon(listed)
  {
    if listed != "" && listed[0] != ':' {
      if name != "" && name[0] == listed[0] {
        BeforeColonIff(listed[1..], name[1..]);
        assert listed == [listed[0]] + listed[1..] && name == [name[0]] + name[1..];
        assert name + ":" <= listed <==> name[1..] + ":" <= listed[1..] by {
          assert name + ":" == [name[0]] + (name[1..] + ":");
        }
      } else {
        assert name == "" ==> name + ":" == ":";
        assert name != "" ==> (name + ":")[0] == name[0];
      }
    }
  }

  lemma FieldIff(config: Json, key: string, value: Json)
    requires value != Null
    ensures HasField(config, key, value) <==> Field(config, key) == value
  {
  }

  lemma NamedServiceIff(config: Json, key: string, name: string)
    ensures name in NamedService(Field(config, key)) <==> HasField(config, key, Text("service:" + name))
  {
    var value := Field(config, key);
    FieldIff(config, key, Text("service:" + name));
    if value.Text? && StartsWith(value.text, "service:") {
      assert value.text == "service:" + value.text[|"service:"|..];
    }
    assert ("service:" + name)[|"service:"|..] == name;
  }

  lemma ListedIff(config: Json, key: string, text: string)
    ensures text in Texts(Field(config, key)) <==> exists value :: HasField(config, key, value) && ListsIn(value, text)
  {
    var value := Field(config, key);
    if text in Texts(value) {
      assert HasField(config, key, value) && ListsIn(value, text);
    }
  }

  lemma NamedIff(config: Json, name: string)
    ensures NamedInDependsOn(config, name) <==>
            var value := Field(config, "depends_on");
            name in if value.Object? then value.fields.Keys else Texts(value)
  {
    var value := Field(config, "depends_on");
    if value.Object? {
      FieldIff(config, "depends_on", value);
    } else {
      ListedIff(config, "depends_on", name);
    }
  }

  lemma LinksIff(config: Json, name: string)
    ensures LinksTo(config, name) <==>
            name in set link | link in Texts(Field(config, "links")) :: BeforeColon(link)
  {
    hide Texts, Field, BeforeColon, NameBefore, HasField, ListsIn;
    forall link
      ensures NameBefore(link, name) <==> name == BeforeColon(link)
      ensures link in Texts(Field(config, "links")) <==>
              exists value :: HasField(config, "links", value) && ListsIn(value, link)
    {
      BeforeColonIff(link, name);
      ListedIff(config, "links", link);
    }
  }

  lemma VolumesIff(config: Json, name: string)
    ensures TakesVolumesFrom(config, name) <==>
            name in set from | from in Texts(Field(config, "volumes_from")) && !StartsWith(from, "container:")
                      :: BeforeColon(from)
  {
    hide Texts, Field, BeforeColon, NameBefore, HasField, ListsIn;
    forall from
      ensures NameBefore(from, name) <==> name == BeforeColon(from)
      ensures from in Texts(Field(config, "volumes_from")) <==>
              exists value :: HasField(config, "volumes_from", value) && ListsIn(value, from)
    {
      BeforeColonIff(from, name);
      ListedIff(config, "volumes_from", from);
    }
  }

  /** The set the source collects is the dependency relation. */
  lemma ServiceDependenciesIff(config: Json, name: string)
    ensures name in ServiceDependencies(config) <==> DependsOn(config, name)
  {
    hide Texts, Field, HasField, NamedService, NamedInDependsOn, LinksTo, TakesVolumesFrom, BeforeColon, StartsWith;
    NamedIff(config, name);
    LinksIff(config, name);
    VolumesIff(config, name);
    NamedServiceIff(config, "network_mode", name);
    NamedServiceIff(config, "ipc", name);
    NamedServiceIff(config, "pid", name);
  }

  /** Edges run between the services themselves, never from one to itself. */
  ghost predicate Edges(deps: Dependencies, names: set<string>, configs: map<string, Json>) {
    && deps.Keys == names
    && forall s, name :: s in names ==>
         (name in deps[s] <==> name in names && name != s && s in configs && DependsOn(configs[s], name))
  }

  // ---------- What an ordering must satisfy ----------

  ghost predicate Distinct(order: seq<string>) {
    forall i, j :: 0 <= i < j < |order| ==> order[i] != order[j]
  }

  ghost predicate Permutation(order: seq<string>, names: set<string>) {
    Distinct(order) && Elements(order) == names
  }

  /** Every service comes after everything it depends on. */
  ghost predicate Respects(order: seq<string>, deps: Dependencies) {
    forall i :: 0 <= i < |order| ==> order[i] in deps && deps[order[i]] <= Elements(order[..i])
  }

  ghost predicate StartOrder(order: seq<string>, deps: Dependencies) {
    Permutation(order, deps.Keys) && Respects(order, deps)
  }

  /** Lexicographic comparison of two lists of names. */
  ghost predicate Before(a: seq<string>, b: seq<string>) {
    b != [] && (a == [] || Less(a[0], b[0]) || (a[0] == b[0] && Before(a[1..], b[1..])))
  }

  ghost predicate LeastStartOrder(order: seq<string>, deps: Dependencies) {
    && StartOrder(order, deps)
    && forall other :: StartOrder(other, deps) ==> other == order || Before(order, other)
  }

  /** A closed walk along dependency edges. */
  ghost predicate IsCycle(walk: seq<string>, deps: Dependencies) {
    && |walk| >= 2
    && walk[0] == walk[|walk| - 1]
    && IsWalk(walk, deps)
  }

  ghost predicate IsWalk(walk: seq<string>, deps: Dependencies) {
    forall i :: 0 <= i < |walk| - 1 ==> walk[i] in deps && walk[i + 1] in deps[walk[i]]
  }

  ghost predicate Cyclic(deps: Dependencies) {
    exists walk :: IsCycle(walk, deps)
  }

  ghost predicate Closed(deps: Dependencies) {
    forall s :: s in deps ==> deps[s] <= deps.Keys
  }

  // ---------- The greedy choice ----------

  /** Services not placed yet whose dependencies all are. */
  ghost function Ready(deps: Dependencies, placed: set<string>): set<string> {
    set s | s in deps && s !in placed && deps[s] <= placed
  }

  ghost predicate Greedy(order: seq<string>, deps: Dependencies) {
    forall i :: 0 <= i < |order| ==> IsLeast(order[i], Ready(deps, Elements(order[..i])))
  }

  lemma GreedyRespects(order: seq<string>, deps: Dependencies)
    requires Greedy(order, deps)
    ensures Respects(order, deps) && Distinct(order)
  {
    forall i | 0 <= i < |order|
      ensures order[i] in deps && deps[order[i]] <= Elements(order[..i])
    {
      assert IsLeast(order[i], Ready(deps, Elements(order[..i])));
    }
    forall i, j | 0 <= i < j < |order| ensures order[i] != order[j] {
      assert IsLeast(order[j], Ready(deps, Elements(order[..j])));
      assert order[..j][i] == order[i];
    }
  }

  /** Two equally long lists differ first at some position, which decides `Before`. */
  lemma {:induction false} BeforeAt(a: seq<string>, b: seq<string>, k: nat)
    requires k < |a| && k < |b| && a[..k] == b[..k] && Less(a[k], b[k])
    ensures Before(a, b)
  {
    if k > 0 {
      assert a[0] == a[..k][0] == b[..k][0] == b[0];
      assert a[1..][..k - 1] == a[..k][1..] == b[..k][1..] == b[1..][..k - 1];
      BeforeAt(a[1..], b[1..], k - 1);
    }
  }

  lemma {:induction false} FirstDifference(a: seq<string>, b: seq<string>) returns (k: nat)
    requires |a| == |b| && a != b
    ensures k < |a| && a[..k] == b[..k] && a[k] != b[k]
  {
    if a[0] != b[0] {
      k := 0;
    } else {
      assert a == [a[0]] + a[1..] && b == [b[0]] + b[1..];
      var n := FirstDifference(a[1..], b[1..]);
      k := n + 1;
      assert a[..k] == [a[0]] + a[1..][..n];
      assert b[..k] == [b[0]] + b[1..][..n];
    }
  }

  lemma {:induction false} PermutationLength(order: seq<string>, names: set<string>)
    requires Permutation(order, names)
    ensures |order| == |names|
  {
    if order == [] {
      EmptyElements(order);
    } else {
      var last := |order| - 1;
      assert order[last] in Elements(order);
      assert Elements(order[..last]) == names - {order[last]};
      PermutationLength(order[..last], names - {order[last]});
    }
  }

  /** Taking the least ready service each time gives the least order of all. */
  lemma GreedyIsLeast(order: seq<string>, deps: Dependencies)
    requires Greedy(order, deps) && Permutation(order, deps.Keys)
    ensures LeastStartOrder(order, deps)
  {
    GreedyRespects(order, deps);
    forall other | StartOrder(other, deps) && other != order
      ensures Before(order, other)
    {
      PermutationLength(order, deps.Keys);
      PermutationLength(other, deps.Keys);
      var k := FirstDifference(order, other);
      var x := other[k];
      assert x in Ready(deps, Elements(order[..k]));
      BeforeAt(order, other, k);
    }
  }

  lemma {:induction false} BeforeIrreflexive(a: seq<string>, b: seq<string>)
    ensures !(Before(a, b) && Before(b, a))
  {
    if a != [] && b != [] {
      LessTotal(a[0], b[0]);
      if a[0] == b[0] { BeforeIrreflexive(a[1..], b[1..]); }
    }
  }

  /** So the result does not depend on input order, duplicates or set iteration order. */
  lemma LeastStartOrderUnique(a: seq<string>, b: seq<string>, deps: Dependencies)
    requires LeastStartOrder(a, deps) && LeastStartOrder(b, deps)
    ensures a == b
  {
    BeforeIrreflexive(a, b);
  }

  // ---------- Cycles ----------

  /** An order that respects the dependencies rules out every cycle. */
  lemma OrderedImpliesAcyclic(order: seq<string>, deps: Dependencies)
    requires StartOrder(order, deps)
    ensures !Cyclic(deps)
  {
    forall walk | IsCycle(walk, deps) ensures false {
      var first := PositionOf(order, walk[0]);
      var n := |walk| - 1;
      var last := WalkDescends(order, deps, walk, n, first);
    }
  }

  lemma PositionOf(order: seq<string>, name: string) returns (i: nat)
    requires name in Elements(order)
    ensures i < |order| && order[i] == name
  {
    i :| 0 <= i < |order| && order[i] == name;
  }

  lemma {:induction false} WalkDescends(
    order: seq<string>, deps: Dependencies, walk: seq<string>, n: nat, first: nat) returns (at: nat)
    requires Distinct(order) && Elements(order) == deps.Keys && Respects(order, deps)
    requires IsWalk(walk, deps) && n < |walk|
    requires first < |order| && order[first] == walk[0]
    ensures at < |order| && order[at] == walk[n] && at + n <= first
  {
    if n == 0 {
      at := first;
    } else {
      var above := WalkDescends(order, deps, walk, n - 1, first);
      assert walk[n] in deps[walk[n - 1]];
      assert walk[n] in Elements(order[..above]);
      at := PositionOf(order[..above], walk[n]);
    }
  }

  ghost predicate AllWait(deps: Dependencies, stuck: set<string>) {
    stuck <= deps.Keys && forall s :: s in stuck ==> deps[s] * stuck != {}
  }

  /** If every member of `stuck` depends on another member, a walk inside it never ends. */
  lemma {:induction false} WalkForever(deps: Dependencies, stuck: set<string>, start: string, n: nat)
    returns (walk: seq<string>)
    requires start in stuck && AllWait(deps, stuck)
    ensures |walk| == n + 1 && IsWalk(walk, deps)
    ensures forall i :: 0 <= i < |walk| ==> walk[i] in stuck
  {
    if n == 0 {
      walk := [start];
    } else {
      var shorter := WalkForever(deps, stuck, start, n - 1);
      var d :| d in deps[shorter[n - 1]] * stuck;
      walk := shorter + [d];
      forall i | 0 <= i < n ensures walk[i] in deps && walk[i + 1] in deps[walk[i]] {
        assert walk[i] == shorter[i];
        if i < n - 1 { assert walk[i + 1] == shorter[i + 1]; }
      }
    }
  }

  lemma {:induction false} DistinctLength(walk: seq<string>, within: set<string>)
    requires Distinct(walk) && Elements(walk) <= within
    ensures |walk| <= |within|
  {
    PermutationLength(walk, Elements(walk));
    SubsetSize(Elements(walk), within);
  }

  lemma {:induction false} SubsetSize(a: set<string>, b: set<string>)
    requires a <= b
    ensures |a| <= |b|
  {
    if a != {} {
      var x :| x in a;
      SubsetSize(a - {x}, b - {x});
    }
  }

  lemma RepeatImpliesCyclic(deps: Dependencies, walk: seq<string>, i: nat, j: nat)
    requires IsWalk(walk, deps) && i < j < |walk| && walk[i] == walk[j]
    ensures Cyclic(deps)
  {
    var cycle := walk[i..j + 1];
    forall k | 0 <= k < |cycle| - 1 ensures cycle[k] in deps && cycle[k + 1] in deps[cycle[k]] {
      assert cycle[k] == walk[i + k] && cycle[k + 1] == walk[i + k + 1];
    }
    assert IsCycle(cycle, deps);
  }

  /** A set of services each waiting for another of them contains a cycle. */
  lemma StuckImpliesCyclic(deps: Dependencies, stuck: set<string>)
    requires stuck != {} && AllWait(deps, stuck)
    ensures Cyclic(deps)
  {
    var start :| start in stuck;
    var walk := WalkForever(deps, stuck, start, |stuck|);
    if i, j :| 0 <= i < j < |walk| && walk[i] == walk[j] {
      RepeatImpliesCyclic(deps, walk, i, j);
    } else {
      DistinctLength(walk, stuck);
    }
  }

  // ---------- The method ----------

  method SortNames(names: seq<string>) returns (sorted: seq<string>)
    requires Distinct(names)
    ensures Increasing(sorted) && Elements(sorted) == Elements(names)
  {
    sorted := SortedUnique(names);
  }

  lemma PlaceLeast(ordered: seq<string>, service: string, deps: Dependencies)
    requires Greedy(ordered, deps) && IsLeast(service, Ready(deps, Elements(ordered)))
    ensures Greedy(ordered + [service], deps)
    ensures Elements(ordered + [service]) == Elements(ordered) + {service}
    ensures Elements(ordered + [service]) <= deps.Keys
    ensures DownClosed(Elements(ordered), deps)
  {
    GreedyDownClosed(ordered, deps);
    var next := ordered + [service];
    forall i | 0 <= i < |next| ensures IsLeast(next[i], Ready(deps, Elements(next[..i]))) {
      assert next[..i] == ordered[..i];
      if i == |ordered| { assert ordered[..i] == ordered; }
    }
    GreedyRespects(next, deps);
  }

  lemma FirstIsLeast(s: seq<string>)
    requires s != [] && Increasing(s)
    ensures IsLeast(s[0], Elements(s))
  {
  }

  lemma NothingReady(deps: Dependencies, placed: set<string>)
    requires Closed(deps) && Ready(deps, placed) == {}
    requires placed <= deps.Keys && placed != deps.Keys
    ensures Cyclic(deps)
  {
    var stuck := deps.Keys - placed;
    forall s | s in stuck ensures deps[s] * stuck != {} {
      assert s !in Ready(deps, placed);
      var d :| d in deps[s] && d !in placed;
      assert d in deps[s] * stuck;
    }
    StuckImpliesCyclic(deps, stuck);
  }

  lemma FullLength(order: seq<string>, names: set<string>)
    requires Distinct(order) && Elements(order) <= names
    ensures |order| == |names| <==> Elements(order) == names
  {
    PermutationLength(order, Elements(order));
    if Elements(order) != names {
      var missing :| missing in names && missing !in Elements(order);
      SubsetSize(Elements(order), names - {missing});
    }
  }

  lemma IncreasingTail(s: seq<string>)
    requires s != [] && Increasing(s)
    ensures Increasing(s[1..]) && Elements(s[1..]) == Elements(s) - {s[0]}
  {
    TailElements(s);
  }

  lemma Shrinks(names: set<string>, placed: set<string>, service: string)
    requires service in names && service !in placed
    ensures |names - (placed + {service})| < |names - placed|
  {
    assert names - placed == names - (placed + {service}) + {service};
  }

  /** Once nothing is ready, the length of the greedy order tells whether there was a cycle. */
  lemma WhenNothingIsReady(ordered: seq<string>, deps: Dependencies)
    requires Greedy(ordered, deps) && Closed(deps) && Ready(deps, Elements(ordered)) == {}
    ensures |ordered| == |deps.Keys| ==> LeastStartOrder(ordered, deps) && !Cyclic(deps)
    ensures |ordered| != |deps.Keys| ==> Cyclic(deps)
  {
    GreedyRespects(ordered, deps);
    GreedyDownClosed(ordered, deps);
    FullLength(ordered, deps.Keys);
    if |ordered| != |deps.Keys| {
      NothingReady(deps, Elements(ordered));
    } else {
      GreedyIsLeast(ordered, deps);
      OrderedImpliesAcyclic(ordered, deps);
    }
  }

  lemma RestrictedClosed(names: set<string>, configs: map<string, Json>)
    ensures RestrictedDependencies(names, configs).Keys == names
    ensures Closed(RestrictedDependencies(names, configs))
  {
    hide ServiceDependencies;
  }

  lemma RestrictedEdges(names: set<string>, configs: map<string, Json>)
    ensures Edges(RestrictedDependencies(names, configs), names, configs)
  {
    hide ServiceDependencies, DependsOn;
    var deps := RestrictedDependencies(names, configs);
    forall s, name | s in names
      ensures name in deps[s] <==> name in names && name != s && s in configs && DependsOn(configs[s], name)
    {
      ServiceDependenciesIff(if s in configs then configs[s] else Null, name);
      NoDependencies(name);
    }
  }

  lemma NoDependencies(name: string)
    ensures !DependsOn(Null, name)
  {
  }

  /**
   * Order services dependencies-first, breaking ties by name. `names` is a set that is
   * walked in an arbitrary order, and `ready` is re-sorted after every placement.
   */
  method DependencyOrderedServices(services: seq<string>, configs: map<string, Json>)
    returns (result: Result<seq<string>, OrderError>)
    ensures var deps := RestrictedDependencies(Elements(services), configs);
            && Edges(deps, Elements(services), configs)
            && match result
            case Ok(order) => LeastStartOrder(order, deps) && !Cyclic(deps)
            case Raise(_) => Cyclic(deps)
  {
    hide *;
    var names := Elements(services);
    var deps := RestrictedDependencies(names, configs);
    RestrictedClosed(names, configs);
    RestrictedEdges(names, configs);
    var ordered := PlaceReady(deps);
    WhenNothingIsReady(ordered, deps);
    if |ordered| != |names| {
      return Raise(DependencyCycle);
    }
    return Ok(ordered);
  }

  /** The main loop: take the first ready service until none is left. */
  method PlaceReady(deps: Dependencies) returns (ordered: seq<string>)
    requires Closed(deps)
    ensures Greedy(ordered, deps) && Ready(deps, Elements(ordered)) == {}
  {
    var dependencies := deps;
    ordered := [];
    var ready := SortedReady(deps);
    EmptyElements(ordered);
    while ready != []
      invariant Greedy(ordered, deps) && DownClosed(Elements(ordered), deps)
      invariant WithoutPlaced(dependencies, deps, Elements(ordered))
      invariant Increasing(ready) && Elements(ready) == Ready(deps, Elements(ordered))
      decreases |deps.Keys - Elements(ordered)|
    {
      var service := ready[0];
      ghost var placed := Elements(ordered);
      FirstIsLeast(ready);
      PlaceLeast(ordered, service, deps);
      IncreasingTail(ready);
      ready := ready[1..];
      ordered := ordered + [service];
      ready, dependencies := Release(service, deps, dependencies, ready, placed);
      Shrinks(deps.Keys, placed, service);
    }
    EmptyElements(ready);
  }

  /** `sorted(service for service in names if not dependencies[service])` */
  method SortedReady(deps: Dependencies) returns (ready: seq<string>)
    ensures Increasing(ready) && Elements(ready) == Ready(deps, {})
  {
    var names := deps.Keys;
    ready := [];
    while names != {}
      invariant names <= deps.Keys
      invariant Distinct(ready)
      invariant Elements(ready) == Ready(deps, {}) - names
      decreases |names|
    {
      var s :| s in names;
      names := names - {s};
      if deps[s] == {} {
        AppendElements(ready, s);
        ready := ready + [s];
      }
    }
    ready := SortNames(ready);
  }

  lemma AppendElements(names: seq<string>, name: string)
    ensures Elements(names + [name]) == Elements(names) + {name}
    ensures Distinct(names) && name !in Elements(names) ==> Distinct(names + [name])
  {
  }

  lemma IncreasingDistinct(names: seq<string>)
    requires Increasing(names)
    ensures Distinct(names)
  {
    forall i, j | 0 <= i < j < |names| ensures names[i] != names[j] { LessTotal(names[i], names[j]); }
  }

  /** What `dependencies` holds once the services in `placed` have been discarded from it. */
  ghost predicate WithoutPlaced(dependencies: Dependencies, deps: Dependencies, placed: set<string>) {
    dependencies.Keys == deps.Keys && forall s :: s in deps ==> dependencies[s] == deps[s] - placed
  }

  ghost predicate DownClosed(placed: set<string>, deps: Dependencies) {
    forall s :: s in placed ==> s in deps && deps[s] <= placed
  }

  lemma GreedyDownClosed(order: seq<string>, deps: Dependencies)
    requires Greedy(order, deps)
    ensures DownClosed(Elements(order), deps)
  {
    GreedyRespects(order, deps);
    forall s | s in Elements(order) ensures s in deps && deps[s] <= Elements(order) {
      var i := PositionOf(order, s);
      assert Elements(order[..i]) <= Elements(order);
    }
  }

  /** Which services placing `service` frees: exactly those left waiting for it alone. */
  lemma FreedBy(deps: Dependencies, placed: set<string>, service: string, s: string)
    requires DownClosed(placed, deps) && service in Ready(deps, placed) && s in deps
    ensures s in Ready(deps, placed + {service}) <==>
            (s in Ready(deps, placed) && s != service)
            || (service in deps[s] && deps[s] - placed - {service} == {})
    ensures service in deps[s] ==> s !in Ready(deps, placed)
  {
    if deps[s] - placed - {service} == {} {
      assert deps[s] <= placed + {service};
    }
  }

  /**
   * The inner loop: discard the placed service from every dependency set, append the
   * services that become free, then sort `ready` again.
   */
  method Release(service: string, ghost deps: Dependencies, dependencies0: Dependencies,
                 ready0: seq<string>, ghost placed: set<string>)
    returns (ready: seq<string>, dependencies: Dependencies)
    requires WithoutPlaced(dependencies0, deps, placed) && DownClosed(placed, deps)
    requires service in Ready(deps, placed)
    requires Increasing(ready0) && Elements(ready0) == Ready(deps, placed) - {service}
    ensures WithoutPlaced(dependencies, deps, placed + {service})
    ensures Increasing(ready) && Elements(ready) == Ready(deps, placed + {service})
  {
    hide *;
    ready, dependencies := ready0, dependencies0;
    var todo := dependencies.Keys;
    ReleaseStarts(service, deps, dependencies, ready, placed);
    while todo != {}
      invariant todo <= deps.Keys && Discarded(dependencies, deps, placed, service, todo)
      invariant ReadyBut(ready, ready0, Ready(deps, placed + {service}), todo)
      decreases |todo|
    {
      var dependent :| dependent in todo;
      Released(service, deps, placed, dependencies, ready0, ready, todo, dependent);
      todo := todo - {dependent};
      if service in dependencies[dependent] {
        dependencies := dependencies[dependent := dependencies[dependent] - {service}];
        if dependencies[dependent] == {} {
          ready := ready + [dependent];
        }
      }
    }
    ReleaseEnds(service, deps, placed, dependencies, ready0, ready);
    ready := SortNames(ready);
  }

  /** The placed service is discarded everywhere but from the sets of the services in `todo`. */
  ghost predicate Discarded(dependencies: Dependencies, deps: Dependencies, placed: set<string>, service: string,
                            todo: set<string>)
  {
    && dependencies.Keys == deps.Keys
    && forall s :: s in deps ==> dependencies[s] == deps[s] - (if s in todo then placed else placed + {service})
  }

  /** The services that were ready and those outside `todo` that are ready `now`. */
  ghost predicate ReadyBut(ready: seq<string>, ready0: seq<string>, now: set<string>, todo: set<string>) {
    Distinct(ready) && forall s :: s in Elements(ready) <==> s in Elements(ready0) || (s in now && s !in todo)
  }

  lemma ReleaseStarts(service: string, deps: Dependencies, dependencies: Dependencies, ready: seq<string>,
                      placed: set<string>)
    requires WithoutPlaced(dependencies, deps, placed) && DownClosed(placed, deps) && service in Ready(deps, placed)
    requires Increasing(ready) && Elements(ready) == Ready(deps, placed) - {service}
    ensures dependencies.Keys == deps.Keys && Discarded(dependencies, deps, placed, service, deps.Keys)
    ensures ReadyBut(ready, ready, Ready(deps, placed + {service}), deps.Keys)
  {
    hide Increasing, Distinct, DownClosed, Elements;
    IncreasingDistinct(ready);
  }

  lemma Released(service: string, deps: Dependencies, placed: set<string>, dependencies: Dependencies,
                 ready0: seq<string>, ready: seq<string>, todo: set<string>, dependent: string)
    requires DownClosed(placed, deps) && service in Ready(deps, placed)
    requires Elements(ready0) == Ready(deps, placed) - {service}
    requires dependent in todo && todo <= deps.Keys && Discarded(dependencies, deps, placed, service, todo)
    requires ReadyBut(ready, ready0, Ready(deps, placed + {service}), todo)
    ensures dependent in dependencies
    ensures var had := service in dependencies[dependent];
            var left := dependencies[dependent] - {service};
            && Discarded(if had then dependencies[dependent := left] else dependencies, deps, placed, service,
                         todo - {dependent})
            && ReadyBut(if had && left == {} then ready + [dependent] else ready, ready0,
                        Ready(deps, placed + {service}), todo - {dependent})
  {
    hide Distinct, DownClosed, Elements;
    FreedBy(deps, placed, service, dependent);
    AppendElements(ready, dependent);
  }

  lemma ReleaseEnds(service: string, deps: Dependencies, placed: set<string>, dependencies: Dependencies,
                    ready0: seq<string>, ready: seq<string>)
    requires DownClosed(placed, deps) && service in Ready(deps, placed)
    requires Elements(ready0) == Ready(deps, placed) - {service}
    requires Discarded(dependencies, deps, placed, service, {})
    requires ReadyBut(ready, ready0, Ready(deps, placed + {service}), {})
    ensures WithoutPlaced(dependencies, deps, placed + {service})
    ensures Distinct(ready) && Elements(ready) == Ready(deps, placed + {service})
  {
    hide Distinct, DownClosed, Elements;
    forall s | s in Elements(ready0) ensures s in Ready(deps, placed + {service}) {
      FreedBy(deps, placed, service, s);
    }
  }
}
