/** Provider discovery and the choice of one provider for a stage. */
module Routing {
  import opened Prelude

  // ----- manifests and hub state -----

  datatype Provider = Provider(id: string, capabilities: seq<string>, actions: seq<string>, priority: int)

  datatype Manifest = Manifest(plugin: string, providers: seq<Provider>)

  /** What the hub remembers: the enabled flag of each installed plugin, the priority list, and the routing
      profiles with the default, per-project and per-workspace choice among them. */
  datatype State = State(
    installed: map<string, bool>,
    priority: seq<string>,
    profiles: map<string, map<string, seq<string>>>,
    defaultProfile: Option<string>,
    projectProfiles: map<string, string>,
    workspaceProfiles: map<string, string>)

  /** The state together with the plugins found through entry points. */
  datatype Hub = Hub(state: State, discovered: set<string>) {
    predicate Installed(plugin: string) { plugin in state.installed || plugin in discovered }

    predicate Enabled(plugin: string) {
      Installed(plugin) && (plugin in state.installed ==> state.installed[plugin])
    }
  }

  datatype Row = Row(plugin: string, enabled: bool, provider: Provider) {
    function Pair(): (string, string) { (provider.id, plugin) }
    function Selector(): string { provider.id + "@" + plugin }
  }

  /** What the caller asks for; an empty request, project or workspace counts as none. */
  datatype Query = Query(
    stage: string,
    capability: Option<string>,
    requested: Option<string>,
    project: Option<string>,
    workspace: Option<string>)

  /** A list of candidates in an error is sorted, so it is known by how often each selector is in it. */
  datatype Resolution =
    | Found(provider: Option<string>)
    | Disabled(selector: string)
    | NotEnabled(selector: string, candidates: multiset<string>)
    | Ambiguous(stage: string, candidates: multiset<string>)

  const STAGE_TO_ROUTE_KEY: map<string, string> := map[
    "features" := "features", "pairs" := "pairs", "matcher" := "matcher",
    "verify" := "verify", "mapping" := "mapping", "actions" := "actions"]

  // ----- comprehensions over lists -----

  function FlatMap<A, B>(f: A -> seq<B>, s: seq<A>): seq<B> {
    if s == [] then [] else FlatMap(f, s[..|s| - 1]) + f(s[|s| - 1])
  }

  lemma FlatMapSnoc<A, B>(f: A -> seq<B>, s: seq<A>, x: A)
    ensures FlatMap(f, s + [x]) == FlatMap(f, s) + f(x)
  {
    assert (s + [x])[..|s|] == s;
  }

  lemma {:induction false} FlatMapAppend<A, B>(f: A -> seq<B>, s: seq<A>, t: seq<A>)
    ensures FlatMap(f, s + t) == FlatMap(f, s) + FlatMap(f, t)
  {
    if t == [] {
      assert s + t == s;
    } else {
      var front, x := t[..|t| - 1], t[|t| - 1];
      FlatMapAppend(f, s, front);
      FlatMapSnoc(f, s + front, x);
      FlatMapSnoc(f, front, x);
      hide FlatMap;
      assert t == front + [x] && s + t == (s + front) + [x];
      assert FlatMap(f, s) + FlatMap(f, front) + f(x) == FlatMap(f, s) + (FlatMap(f, front) + f(x));
    }
  }

  lemma {:induction false} FlatMapElements<A, B>(f: A -> seq<B>, s: seq<A>, y: B)
    ensures y in FlatMap(f, s) <==> exists x :: x in s && y in f(x)
  {
    if s != [] {
      var front, x := s[..|s| - 1], s[|s| - 1];
      FlatMapElements(f, front, y);
      assert s == front + [x];
    }
  }

  lemma RemoveAt<A>(t: seq<A>, i: nat)
    requires i < |t|
    ensures t == (t[..i] + [t[i]]) + t[i + 1..]
    ensures multiset(t) == multiset(t[..i] + t[i + 1..]) + multiset{t[i]}
  {
    assert t == (t[..i] + [t[i]]) + t[i + 1..];
  }

  lemma CancelOne<A>(m: multiset<A>, n: multiset<A>, x: A)
    requires m + multiset{x} == n + multiset{x}
    ensures m == n
  {
    assert m == (m + multiset{x}) - multiset{x} && n == (n + multiset{x}) - multiset{x};
  }

  lemma FlatMapAround<A, B>(f: A -> seq<B>, a: seq<A>, x: A, b: seq<A>)
    ensures multiset(FlatMap(f, (a + [x]) + b)) == multiset(FlatMap(f, a + b)) + multiset(f(x))
  {
    FlatMapAppend(f, a + [x], b);
    FlatMapSnoc(f, a, x);
    FlatMapAppend(f, a, b);
  }

  /** A comprehension over a list in another order has the same elements equally often. */
  lemma {:induction false} FlatMapPermutes<A, B>(f: A -> seq<B>, s: seq<A>, t: seq<A>)
    requires multiset(s) == multiset(t)
    ensures multiset(FlatMap(f, s)) == multiset(FlatMap(f, t))
    decreases |s|
  {
    if s == [] {
      assert |multiset(t)| == 0;
    } else {
      var n := |s| - 1;
      RemoveAt(s, n);
      assert s[..n] + s[n + 1..] == s[..n];
      assert s[n] in multiset(t);
      var i :| 0 <= i < |t| && t[i] == s[n];
      RemoveAt(t, i);
      assert s == s[..n] + [s[n]];
      CancelOne(multiset(s[..n]), multiset(t[..i] + t[i + 1..]), s[n]);
      FlatMapPermutes(f, s[..n], t[..i] + t[i + 1..]);
      assert FlatMap(f, s) == FlatMap(f, s[..n]) + f(s[n]);
      FlatMapAround(f, t[..i], t[i], t[i + 1..]);
    }
  }

  // ----- provider records -----

  function OneRow(plugin: string, enabled: bool): Provider -> seq<Row> {
    (p: Provider) => [Row(plugin, enabled, p)]
  }

  function RowsOf(hub: Hub, enabledOnly: bool): Manifest -> seq<Row> {
    (m: Manifest) =>
      if !hub.Installed(m.plugin) || (enabledOnly && !hub.Enabled(m.plugin)) then []
      else FlatMap(OneRow(m.plugin, hub.Enabled(m.plugin)), m.providers)
  }

  /** By priority, then by provider id. */
  predicate NotAfter(a: Row, b: Row) {
    a.provider.priority < b.provider.priority
    || (a.provider.priority == b.provider.priority && !Less(b.provider.id, a.provider.id))
  }

  function Insert(rows: seq<Row>, row: Row): seq<Row> {
    if rows == [] || NotAfter(rows[|rows| - 1], row) then rows + [row]
    else Insert(rows[..|rows| - 1], row) + [rows[|rows| - 1]]
  }

  function Sorted(rows: seq<Row>): seq<Row> {
    if rows == [] then [] else Insert(Sorted(rows[..|rows| - 1]), rows[|rows| - 1])
  }

  lemma {:induction false} InsertKeeps(rows: seq<Row>, row: Row)
    ensures multiset(Insert(rows, row)) == multiset(rows) + multiset{row}
  {
    if rows != [] {
      InsertKeeps(rows[..|rows| - 1], row);
      assert rows == rows[..|rows| - 1] + [rows[|rows| - 1]];
    }
  }

  lemma {:induction false} SortedKeeps(rows: seq<Row>)
    ensures multiset(Sorted(rows)) == multiset(rows)
  {
    if rows != [] {
      SortedKeeps(rows[..|rows| - 1]);
      InsertKeeps(Sorted(rows[..|rows| - 1]), rows[|rows| - 1]);
      assert rows == rows[..|rows| - 1] + [rows[|rows| - 1]];
    }
  }

  lemma NotAfterTrans(a: Row, b: Row, c: Row)
    requires NotAfter(a, b) && NotAfter(b, c)
    ensures NotAfter(a, c)
  {
    var x, y, z := a.provider.id, b.provider.id, c.provider.id;
    LessTotal(x, y);
    LessTotal(y, z);
    if Less(z, x) && Less(x, y) {
      LessTrans(z, x, y);
    }
  }

  /** Lower priority hints come first, and among equal ones smaller provider ids do. */
  ghost predicate InOrder(rows: seq<Row>) {
    forall i, j :: 0 <= i < j < |rows| ==>
      && rows[i].provider.priority <= rows[j].provider.priority
      && (rows[i].provider.priority == rows[j].provider.priority ==>
            Less(rows[i].provider.id, rows[j].provider.id) || rows[i].provider.id == rows[j].provider.id)
  }

  lemma InOrderIsNotAfter(rows: seq<Row>)
    ensures InOrder(rows) <==> forall i, j :: 0 <= i < j < |rows| ==> NotAfter(rows[i], rows[j])
  {
    forall i, j | 0 <= i < j < |rows|
      ensures NotAfter(rows[i], rows[j]) <==>
              && rows[i].provider.priority <= rows[j].provider.priority
              && (rows[i].provider.priority == rows[j].provider.priority ==>
                    Less(rows[i].provider.id, rows[j].provider.id) || rows[i].provider.id == rows[j].provider.id)
    {
      LessTotal(rows[i].provider.id, rows[j].provider.id);
    }
  }

  ghost predicate Ascending(rows: seq<Row>) {
    forall i, j :: 0 <= i < j < |rows| ==> NotAfter(rows[i], rows[j])
  }

  lemma {:induction false} InsertInOrder(rows: seq<Row>, row: Row)
    requires Ascending(rows)
    ensures Ascending(Insert(rows, row))
  {
    if rows != [] {
      var front, last := rows[..|rows| - 1], rows[|rows| - 1];
      if NotAfter(last, row) {
        forall i | 0 <= i < |front| ensures NotAfter(rows[i], row) { NotAfterTrans(rows[i], last, row); }
      } else {
        LessTotal(last.provider.id, row.provider.id);
        InsertInOrder(front, row);
        InsertKeeps(front, row);
        var placed := Insert(front, row);
        forall i | 0 <= i < |placed| ensures NotAfter(placed[i], last) {
          assert placed[i] in multiset(placed);
          assert placed[i] == row || placed[i] in front;
        }
      }
    }
  }

  lemma {:induction false} SortedAscends(rows: seq<Row>)
    ensures Ascending(Sorted(rows))
  {
    if rows != [] {
      SortedAscends(rows[..|rows| - 1]);
      InsertInOrder(Sorted(rows[..|rows| - 1]), rows[|rows| - 1]);
    }
  }

  /** The records come by priority and then by id. */
  lemma SortedInOrder(rows: seq<Row>)
    ensures InOrder(Sorted(rows))
  {
    SortedAscends(rows);
    InOrderIsNotAfter(Sorted(rows));
  }

  function Records(hub: Hub, manifests: seq<Manifest>, enabledOnly: bool): seq<Row> {
    Sorted(FlatMap(RowsOf(hub, enabledOnly), manifests))
  }

  lemma RowsStep(hub: Hub, manifests: seq<Manifest>, enabledOnly: bool, k: nat)
    requires k < |manifests|
    ensures var f, m := RowsOf(hub, enabledOnly), manifests[k];
            FlatMap(f, manifests[..k + 1]) == FlatMap(f, manifests[..k]) +
              if !hub.Installed(m.plugin) || (enabledOnly && !hub.Enabled(m.plugin)) then []
              else FlatMap(OneRow(m.plugin, hub.Enabled(m.plugin)), m.providers)
  {
    assert manifests[..k + 1] == manifests[..k] + [manifests[k]];
    FlatMapSnoc(RowsOf(hub, enabledOnly), manifests[..k], manifests[k]);
  }

  lemma OneRowStep(plugin: string, enabled: bool, providers: seq<Provider>, j: nat)
    requires j < |providers|
    ensures var f := OneRow(plugin, enabled);
            FlatMap(f, providers[..j + 1]) == FlatMap(f, providers[..j]) + [Row(plugin, enabled, providers[j])]
  {
    assert providers[..j + 1] == providers[..j] + [providers[j]];
    FlatMapSnoc(OneRow(plugin, enabled), providers[..j], providers[j]);
  }

  method PluginRecords(m: Manifest, enabled: bool) returns (rows: seq<Row>)
    ensures rows == FlatMap(OneRow(m.plugin, enabled), m.providers)
  {
    rows := [];
    for j := 0 to |m.providers|
      invariant rows == FlatMap(OneRow(m.plugin, enabled), m.providers[..j])
    {
      OneRowStep(m.plugin, enabled, m.providers, j);
      rows := rows + [Row(m.plugin, enabled, m.providers[j])];
    }
    assert m.providers[..|m.providers|] == m.providers;
  }

  method ProviderRecords(hub: Hub, manifests: seq<Manifest>, enabledOnly: bool) returns (rows: seq<Row>)
    ensures rows == Records(hub, manifests, enabledOnly)
  {
    rows := [];
    for k := 0 to |manifests|
      invariant rows == FlatMap(RowsOf(hub, enabledOnly), manifests[..k])
    {
      var m := manifests[k];
      RowsStep(hub, manifests, enabledOnly, k);
      var installed := m.plugin in hub.state.installed || m.plugin in hub.discovered;
      var enabled := installed && (if m.plugin in hub.state.installed then hub.state.installed[m.plugin] else true);
      assert installed == hub.Installed(m.plugin) && enabled == hub.Enabled(m.plugin);
      if !installed || (enabledOnly && !enabled) {
        continue;
      }
      hide RowsOf, FlatMap;
      var own := PluginRecords(m, enabled);
      rows := rows + own;
    }
    assert manifests[..|manifests|] == manifests;
    rows := Sorted(rows);
  }

  function RouteKey(stage: string): string {
    if stage in STAGE_TO_ROUTE_KEY then STAGE_TO_ROUTE_KEY[stage] else stage
  }

  predicate Capable(p: Provider, stage: string, capability: Option<string>) {
    if capability.Some? then capability.value in p.capabilities
    else RouteKey(stage) in p.capabilities || RouteKey(stage) in p.actions
  }

  function IfCapable(stage: string, capability: Option<string>): Row -> seq<Row> {
    (row: Row) => if Capable(row.provider, stage, capability) then [row] else []
  }

  function Candidates(hub: Hub, manifests: seq<Manifest>, stage: string, capability: Option<string>): seq<Row> {
    FlatMap(IfCapable(stage, capability), Records(hub, manifests, true))
  }

  lemma CapableStep(stage: string, capability: Option<string>, rows: seq<Row>, k: nat)
    requires k < |rows|
    ensures var f := IfCapable(stage, capability);
            FlatMap(f, rows[..k + 1]) ==
            FlatMap(f, rows[..k]) + if Capable(rows[k].provider, stage, capability) then [rows[k]] else []
  {
    assert rows[..k + 1] == rows[..k] + [rows[k]];
    FlatMapSnoc(IfCapable(stage, capability), rows[..k], rows[k]);
  }

  method CandidateRecords(hub: Hub, manifests: seq<Manifest>, stage: string, capability: Option<string>)
    returns (candidates: seq<Row>)
    ensures candidates == Candidates(hub, manifests, stage, capability)
  {
    var rows := ProviderRecords(hub, manifests, true);
    var routeKey := RouteKey(stage);
    candidates := [];
    for k := 0 to |rows|
      invariant candidates == FlatMap(IfCapable(stage, capability), rows[..k])
    {
      CapableStep(stage, capability, rows, k);
      hide FlatMap, IfCapable, RouteKey;
      var p := rows[k].provider;
      if capability.Some? {
        if capability.value in p.capabilities {
          candidates := candidates + [rows[k]];
        }
        continue;
      }
      if routeKey in p.capabilities || routeKey in p.actions {
        candidates := candidates + [rows[k]];
      }
    }
    assert rows[..|rows|] == rows;
  }

  // ----- selectors -----

  /** The text before the first `@` and, when there is one, the text behind it. */
  function Partition(s: string): (r: (string, Option<string>))
    ensures '@' !in r.0
    ensures s == if r.1.None? then r.0 else r.0 + "@" + r.1.value
  {
    if s == "" then ("", None)
    else if s[0] == '@' then ("", Some(s[1..]))
    else var (head, tail) := Partition(s[1..]); ([s[0]] + head, tail)
  }

  function IfMatching(selector: string): Row -> seq<Row> {
    (row: Row) =>
      var (id, plugin) := Partition(selector);
      if plugin.Some? then (if row.provider.id == id && row.plugin == plugin.value then [row] else [])
      else if row.provider.id == selector then [row] else []
  }

  function Matches(rows: seq<Row>, selector: string): seq<Row> { FlatMap(IfMatching(selector), rows) }

  function Pairs(rows: seq<Row>): set<(string, string)> { set row | row in rows :: row.Pair() }

  function OneSelector(): Row -> seq<string> { (row: Row) => [row.Selector()] }

  function Display(rows: seq<Row>): multiset<string> { multiset(FlatMap(OneSelector(), rows)) }

  function Single(stage: string, rows: seq<Row>, qualified: bool): Resolution
    requires rows != []
  {
    if |Pairs(rows)| == 1 then Found(Some(if qualified then rows[0].Selector() else rows[0].provider.id))
    else Ambiguous(stage, Display(rows))
  }

  // ----- the order in which configured selectors are tried -----

  predicate Given(o: Option<string>) { o.Some? && o.value != "" }

  function ProfileNames(state: State, q: Query): seq<string> {
    (if Given(q.project) && q.project.value in state.projectProfiles then [state.projectProfiles[q.project.value]] else [])
    + (if Given(q.workspace) && q.workspace.value in state.workspaceProfiles
       then [state.workspaceProfiles[q.workspace.value]] else [])
    + (if Given(state.defaultProfile) then [state.defaultProfile.value] else [])
  }

  function RoutesOf(state: State, stage: string): string -> seq<string> {
    (name: string) =>
      if name in state.profiles && stage in state.profiles[name] then state.profiles[name][stage] else []
  }

  /** Project profile, workspace profile, default profile, then the priority list. */
  function TryOrder(state: State, q: Query): seq<string> {
    FlatMap(RoutesOf(state, q.stage), ProfileNames(state, q)) + state.priority
  }

  function FirstMatching(rows: seq<Row>, selectors: seq<string>): Option<string> {
    if selectors == [] then None
    else if Matches(rows, selectors[0]) != [] then Some(selectors[0])
    else FirstMatching(rows, selectors[1..])
  }

  lemma {:induction false} FirstMatchingAppend(rows: seq<Row>, a: seq<string>, b: seq<string>)
    ensures FirstMatching(rows, a + b) ==
            if FirstMatching(rows, a).Some? then FirstMatching(rows, a) else FirstMatching(rows, b)
  {
    if a == [] {
      assert a + b == b;
    } else {
      assert (a + b)[1..] == a[1..] + b;
      FirstMatchingAppend(rows, a[1..], b);
    }
  }

  lemma {:induction false} FirstMatchingMatches(rows: seq<Row>, selectors: seq<string>)
    ensures var sel := FirstMatching(rows, selectors); sel.Some? ==> Matches(rows, sel.value) != []
  {
    if selectors != [] { FirstMatchingMatches(rows, selectors[1..]); }
  }

  // ----- resolution -----

  function WithoutCandidates(known: seq<Row>, requested: Option<string>): Resolution {
    if !Given(requested) then Found(requested)
    else
      var matching := Matches(known, requested.value);
      if matching == [] then Found(requested)
      else if forall row :: row in matching ==> !row.enabled then Disabled(requested.value)
      else NotEnabled(requested.value, multiset{})
  }

  function Choose(candidates: seq<Row>, stage: string, selector: Option<string>): Resolution
    requires candidates != [] && (selector.Some? ==> Matches(candidates, selector.value) != [])
  {
    if selector.Some? then Single(stage, Matches(candidates, selector.value), '@' in selector.value)
    else Single(stage, candidates, false)
  }

  function WithCandidates(candidates: seq<Row>, order: seq<string>, q: Query): Resolution
    requires candidates != []
  {
    if Given(q.requested) then
      if Matches(candidates, q.requested.value) == [] then NotEnabled(q.requested.value, Display(candidates))
      else Choose(candidates, q.stage, q.requested)
    else
      FirstMatchingMatches(candidates, order);
      Choose(candidates, q.stage, FirstMatching(candidates, order))
  }

  function Resolve(hub: Hub, manifests: seq<Manifest>, q: Query): Resolution {
    var candidates := Candidates(hub, manifests, q.stage, q.capability);
    if candidates == [] then WithoutCandidates(Records(hub, manifests, false), q.requested)
    else WithCandidates(candidates, TryOrder(hub.state, q), q)
  }

  method ResolveProvider(hub: Hub, manifests: seq<Manifest>, q: Query) returns (r: Resolution)
    ensures r == Resolve(hub, manifests, q)
  {
    var candidates := CandidateRecords(hub, manifests, q.stage, q.capability);
    if candidates == [] {
      if Given(q.requested) {
        var records := ProviderRecords(hub, manifests, false);
        var known := Matches(records, q.requested.value);
        if known != [] {
          if !(exists row :: row in known && row.enabled) {
            return Disabled(q.requested.value);
          }
          return NotEnabled(q.requested.value, multiset{});
        }
      }
      return Found(q.requested);
    }
    if Given(q.requested) {
      var matching := Matches(candidates, q.requested.value);
      if matching == [] {
        return NotEnabled(q.requested.value, Display(candidates));
      }
      return Single(q.stage, matching, '@' in q.requested.value);
    }
    ghost var order := TryOrder(hub.state, q);
    var names := ProfileNames(hub.state, q);
    var sel := FirstInProfiles(hub.state, q.stage, names, candidates);
    FirstMatchingAppend(candidates, FlatMap(RoutesOf(hub.state, q.stage), names), hub.state.priority);
    if sel.None? {
      sel := FirstInList(hub.state.priority, candidates);
    }
    FirstMatchingMatches(candidates, order);
    if sel.Some? {
      return Single(q.stage, Matches(candidates, sel.value), '@' in sel.value);
    }
    if |Pairs(candidates)| == 1 {
      return Found(Some(candidates[0].provider.id));
    }
    return Ambiguous(q.stage, Display(candidates));
  }

  method FirstInList(selectors: seq<string>, candidates: seq<Row>) returns (sel: Option<string>)
    ensures sel == FirstMatching(candidates, selectors)
  {
    for k := 0 to |selectors|
      invariant FirstMatching(candidates, selectors) == FirstMatching(candidates, selectors[k..])
    {
      assert selectors[k..][0] == selectors[k] && selectors[k..][1..] == selectors[k + 1..];
      if Matches(candidates, selectors[k]) != [] {
        return Some(selectors[k]);
      }
    }
    return None;
  }

  method FirstInProfiles(state: State, stage: string, names: seq<string>, candidates: seq<Row>)
    returns (sel: Option<string>)
    ensures sel == FirstMatching(candidates, FlatMap(RoutesOf(state, stage), names))
  {
    ghost var routes := RoutesOf(state, stage);
    for k := 0 to |names|
      invariant FirstMatching(candidates, FlatMap(routes, names[..k])) == None
    {
      assert names == names[..k + 1] + names[k + 1..] && names[..k + 1] == names[..k] + [names[k]];
      FlatMapSnoc(routes, names[..k], names[k]);
      FlatMapAppend(routes, names[..k + 1], names[k + 1..]);
      FirstMatchingAppend(candidates, FlatMap(routes, names[..k]), routes(names[k]));
      FirstMatchingAppend(candidates, FlatMap(routes, names[..k + 1]), FlatMap(routes, names[k + 1..]));
      if names[k] !in state.profiles || stage !in state.profiles[names[k]] {
        continue;
      }
      sel := FirstInList(state.profiles[names[k]][stage], candidates);
      if sel.Some? {
        return;
      }
    }
    assert names[..|names|] == names;
    return None;
  }
}
