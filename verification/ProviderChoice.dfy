/** Provider resolution never chooses arbitrarily: what its outcome is, and what it cannot depend on. */
module ProviderChoice {
  import opened Prelude
  import opened Routing

  // ----- the order of the manifests does not matter -----

  lemma RecordsPermute(hub: Hub, ms: seq<Manifest>, ns: seq<Manifest>, enabledOnly: bool)
    requires multiset(ms) == multiset(ns)
    ensures multiset(Records(hub, ms, enabledOnly)) == multiset(Records(hub, ns, enabledOnly))
  {
    var f := RowsOf(hub, enabledOnly);
    FlatMapPermutes(f, ms, ns);
    SortedKeeps(FlatMap(f, ms));
    SortedKeeps(FlatMap(f, ns));
  }

  lemma SameMembers<A>(s: seq<A>, t: seq<A>)
    requires multiset(s) == multiset(t)
    ensures forall x :: x in s <==> x in t
    ensures s == [] <==> t == []
  {
    forall x ensures x in s <==> x in t {
      assert x in multiset(s) <==> x in multiset(t);
    }
    if s != [] { assert s[0] in t; }
    if t != [] { assert t[0] in s; }
  }

  lemma SinglePermutes(stage: string, rows: seq<Row>, others: seq<Row>, qualified: bool)
    requires multiset(rows) == multiset(others) && rows != [] && others != []
    ensures Single(stage, rows, qualified) == Single(stage, others, qualified)
  {
    SameMembers(rows, others);
    assert Pairs(rows) == Pairs(others);
    FlatMapPermutes(OneSelector(), rows, others);
    TwoOrMore(Pairs(rows));
    assert rows[0].Pair() in Pairs(rows) && others[0].Pair() in Pairs(rows);
  }

  lemma MatchesPermute(rows: seq<Row>, others: seq<Row>, selector: string)
    requires multiset(rows) == multiset(others)
    ensures multiset(Matches(rows, selector)) == multiset(Matches(others, selector))
    ensures Matches(rows, selector) == [] <==> Matches(others, selector) == []
  {
    FlatMapPermutes(IfMatching(selector), rows, others);
    SameMembers(Matches(rows, selector), Matches(others, selector));
  }

  lemma {:induction false} FirstMatchingPermutes(rows: seq<Row>, others: seq<Row>, selectors: seq<string>)
    requires multiset(rows) == multiset(others)
    ensures FirstMatching(rows, selectors) == FirstMatching(others, selectors)
  {
    if selectors != [] {
      MatchesPermute(rows, others, selectors[0]);
      FirstMatchingPermutes(rows, others, selectors[1..]);
    }
  }

  lemma WithCandidatesPermutes(rows: seq<Row>, others: seq<Row>, order: seq<string>, q: Query)
    requires multiset(rows) == multiset(others) && rows != [] && others != []
    ensures WithCandidates(rows, order, q) == WithCandidates(others, order, q)
  {
    FirstMatchingPermutes(rows, others, order);
    FirstMatchingMatches(rows, order);
    var sel := if Given(q.requested) then q.requested else FirstMatching(rows, order);
    FlatMapPermutes(OneSelector(), rows, others);
    hide FlatMap, Matches, Single;
    if sel.Some? {
      MatchesPermute(rows, others, sel.value);
      var mine, yours := Matches(rows, sel.value), Matches(others, sel.value);
      if mine != [] { SinglePermutes(q.stage, mine, yours, '@' in sel.value); }
    } else {
      SinglePermutes(q.stage, rows, others, false);
    }
  }

  /** Result or error is the same for the manifests in any other order. */
  lemma ManifestOrderIrrelevant(hub: Hub, ms: seq<Manifest>, ns: seq<Manifest>, q: Query)
    requires multiset(ms) == multiset(ns)
    ensures Resolve(hub, ms, q) == Resolve(hub, ns, q)
  {
    RecordsPermute(hub, ms, ns, true);
    RecordsPermute(hub, ms, ns, false);
    var rows, others := Candidates(hub, ms, q.stage, q.capability), Candidates(hub, ns, q.stage, q.capability);
    FlatMapPermutes(IfCapable(q.stage, q.capability), Records(hub, ms, true), Records(hub, ns, true));
    SameMembers(rows, others);
    hide Candidates, Records, FlatMap, WithCandidates;
    if rows == [] {
      if Given(q.requested) {
        MatchesPermute(Records(hub, ms, false), Records(hub, ns, false), q.requested.value);
        SameMembers(Matches(Records(hub, ms, false), q.requested.value), Matches(Records(hub, ns, false), q.requested.value));
      }
    } else {
      WithCandidatesPermutes(rows, others, TryOrder(hub.state, q), q);
    }
  }

  // ----- what is on offer, read off the manifests -----

  /** The plugin was installed by the hub or is found through an entry point. */
  ghost predicate Present(hub: Hub, plugin: string) {
    plugin in hub.discovered || plugin in hub.state.installed
  }

  /** What the hub remembers about a plugin decides whether it is on; one it does not know is on if it is found. */
  ghost predicate SwitchedOn(hub: Hub, plugin: string) {
    if plugin in hub.state.installed then hub.state.installed[plugin] else plugin in hub.discovered
  }

  /** The provider has the capability asked for; if none is, the stage is one of its capabilities or actions. */
  ghost predicate Serves(p: Provider, q: Query) {
    match q.capability
    case Some(capability) => capability in p.capabilities
    case None => q.stage in p.capabilities + p.actions
  }

  ghost predicate HasRow(hub: Hub, manifests: seq<Manifest>, enabledOnly: bool, row: Row) {
    exists m: Manifest :: m in manifests && row.plugin == m.plugin && row.provider in m.providers
      && Present(hub, m.plugin) && (enabledOnly ==> SwitchedOn(hub, m.plugin)) && row.enabled == SwitchedOn(hub, m.plugin)
  }

  /** Provider `o.0` of plugin `o.1` is switched on and serves the stage. */
  ghost predicate Offered(hub: Hub, manifests: seq<Manifest>, q: Query, o: (string, string)) {
    exists m: Manifest, p: Provider :: m in manifests && p in m.providers && m.plugin == o.1 && p.id == o.0
      && SwitchedOn(hub, m.plugin) && Serves(p, q)
  }

  lemma RowsOfChar(hub: Hub, enabledOnly: bool, m: Manifest, row: Row)
    ensures row in RowsOf(hub, enabledOnly)(m) <==>
            row.plugin == m.plugin && row.provider in m.providers && Present(hub, m.plugin)
            && (enabledOnly ==> SwitchedOn(hub, m.plugin)) && row.enabled == SwitchedOn(hub, m.plugin)
  {
    var each := OneRow(m.plugin, hub.Enabled(m.plugin));
    FlatMapElements(each, m.providers, row);
    if row.provider in m.providers && row.plugin == m.plugin && row.enabled == hub.Enabled(m.plugin) {
      assert row in each(row.provider);
    }
  }

  lemma RecordsChar(hub: Hub, manifests: seq<Manifest>, enabledOnly: bool, row: Row)
    ensures row in Records(hub, manifests, enabledOnly) <==> HasRow(hub, manifests, enabledOnly, row)
  {
    var f := RowsOf(hub, enabledOnly);
    var all := FlatMap(f, manifests);
    SortedKeeps(all);
    SameMembers(Sorted(all), all);
    FlatMapElements(f, manifests, row);
    forall m ensures row in f(m) <==>
                     row.plugin == m.plugin && row.provider in m.providers && Present(hub, m.plugin)
                     && (enabledOnly ==> SwitchedOn(hub, m.plugin)) && row.enabled == SwitchedOn(hub, m.plugin)
    {
      RowsOfChar(hub, enabledOnly, m, row);
    }
  }

  /** The table of route keys maps every stage to itself. */
  lemma CapableServes(p: Provider, q: Query)
    ensures Capable(p, q.stage, q.capability) <==> Serves(p, q)
  {
  }

  lemma CandidatesChar(hub: Hub, manifests: seq<Manifest>, q: Query, row: Row)
    ensures row in Candidates(hub, manifests, q.stage, q.capability) <==>
            HasRow(hub, manifests, true, row) && Serves(row.provider, q)
  {
    CapableServes(row.provider, q);
    var f, rows := IfCapable(q.stage, q.capability), Records(hub, manifests, true);
    FlatMapElements(f, rows, row);
    RecordsChar(hub, manifests, true, row);
    if HasRow(hub, manifests, true, row) && Serves(row.provider, q) {
      assert row in rows && row in f(row);
    }
  }

  lemma CandidatesAreOffers(hub: Hub, manifests: seq<Manifest>, q: Query, o: (string, string))
    ensures o in Pairs(Candidates(hub, manifests, q.stage, q.capability)) <==> Offered(hub, manifests, q, o)
  {
    forall row {
      CandidatesChar(hub, manifests, q, row);
    }
    hide Candidates, Serves;
    if Offered(hub, manifests, q, o) {
      var m: Manifest, p: Provider :| m in manifests && p in m.providers && m.plugin == o.1 && p.id == o.0
        && SwitchedOn(hub, m.plugin) && Serves(p, q);
      assert HasRow(hub, manifests, true, Row(m.plugin, true, p));
      assert Row(m.plugin, true, p).Pair() == o;
    }
  }

  // ----- what a selector names -----

  /** Provider ids are nonempty and hold no `@`, as manifests must. */
  predicate PlainId(id: string) { id != "" && '@' !in id }

  ghost predicate PlainIds(manifests: seq<Manifest>) {
    forall m: Manifest, p: Provider :: m in manifests && p in m.providers ==> PlainId(p.id)
  }

  /** A selector is a bare provider id or a provider id qualified by its plugin. */
  predicate Names(selector: string, o: (string, string)) {
    selector == o.0 || selector == o.0 + "@" + o.1
  }

  lemma {:induction false} PartitionQualified(id: string, plugin: string)
    requires '@' !in id
    ensures Partition(id + "@" + plugin) == (id, Some(plugin))
  {
    var s := id + "@" + plugin;
    if id == "" {
      assert s[1..] == plugin;
    } else {
      PartitionQualified(id[1..], plugin);
      assert s[1..] == id[1..] + "@" + plugin;
      assert [s[0]] + id[1..] == id;
    }
  }

  lemma MatchesAreNamed(rows: seq<Row>, selector: string, row: Row)
    requires PlainId(row.provider.id)
    ensures row in Matches(rows, selector) <==> row in rows && Names(selector, row.Pair())
  {
    var f := IfMatching(selector);
    FlatMapElements(f, rows, row);
    PartitionQualified(row.provider.id, row.plugin);
    var (id, plugin) := Partition(selector);
    assert plugin.Some? ==> selector[|id|] == '@';
    assert Names(selector, row.Pair()) <==> row in f(row);
  }

  ghost predicate PlainRows(rows: seq<Row>) { forall row :: row in rows ==> PlainId(row.provider.id) }

  /** The offers a selector names; without a selector, all of them. */
  ghost function Named(offers: set<(string, string)>, selector: Option<string>): set<(string, string)> {
    set o | o in offers && (selector.None? || Names(selector.value, o))
  }

  lemma MatchesNamed(rows: seq<Row>, selector: string)
    requires PlainRows(rows)
    ensures Pairs(Matches(rows, selector)) == Named(Pairs(rows), Some(selector))
    ensures Matches(rows, selector) == [] <==> Named(Pairs(rows), Some(selector)) == {}
  {
    var matching := Matches(rows, selector);
    forall row ensures row in matching <==> row in rows && Names(selector, row.Pair()) {
      if row in rows {
        MatchesAreNamed(rows, selector, row);
      } else {
        FlatMapElements(IfMatching(selector), rows, row);
      }
    }
    hide Matches, Names;
    assert Pairs(matching) == Named(Pairs(rows), Some(selector));
    if matching != [] { assert matching[0].Pair() in Pairs(matching); }
  }

  // ----- the selector that decides -----

  ghost predicate NamesNone(offers: set<(string, string)>, order: seq<string>, n: nat)
    requires n <= |order|
  {
    forall k :: 0 <= k < n ==> Named(offers, Some(order[k])) == {}
  }

  /** With the configured selectors in one list: a request decides, without one the first that names an offer, failing
      that none. */
  ghost predicate DecidesAlong(offers: set<(string, string)>, requested: Option<string>, order: seq<string>,
                          selector: Option<string>) {
    if Given(requested) then selector == requested
    else if selector.None? then NamesNone(offers, order, |order|)
    else exists k :: 0 <= k < |order| && order[k] == selector.value && NamesNone(offers, order, k)
                     && Named(offers, selector) != {}
  }

  lemma {:induction false} FirstMatchingDecides(rows: seq<Row>, order: seq<string>, n: nat)
    requires PlainRows(rows) && n <= |order| && NamesNone(Pairs(rows), order, n)
    requires n < |order| ==> Named(Pairs(rows), Some(order[n])) != {}
    ensures FirstMatching(rows, order) == if n < |order| then Some(order[n]) else None
  {
    if order != [] {
      MatchesNamed(rows, order[0]);
      hide Matches, Named;
      if n > 0 {
        forall k | 0 <= k < n - 1 ensures Named(Pairs(rows), Some(order[1..][k])) == {} {
          assert order[1..][k] == order[k + 1];
        }
        FirstMatchingDecides(rows, order[1..], n - 1);
      }
    }
  }

  lemma FirstNamed(offers: set<(string, string)>, order: seq<string>) returns (n: nat)
    ensures n <= |order| && NamesNone(offers, order, n)
    ensures n < |order| ==> Named(offers, Some(order[n])) != {}
  {
    n := 0;
    while n < |order| && Named(offers, Some(order[n])) == {}
      invariant n <= |order| && NamesNone(offers, order, n)
    {
      n := n + 1;
    }
  }

  lemma DecidingSelector(rows: seq<Row>, requested: Option<string>, order: seq<string>, selector: Option<string>)
    requires PlainRows(rows) && DecidesAlong(Pairs(rows), requested, order, selector)
    ensures selector == if Given(requested) then requested else FirstMatching(rows, order)
  {
    hide Named;
    if !Given(requested) {
      var n := |order|;
      if selector.Some? {
        n :| 0 <= n < |order| && order[n] == selector.value && NamesNone(Pairs(rows), order, n)
             && Named(Pairs(rows), selector) != {};
      }
      FirstMatchingDecides(rows, order, n);
    }
  }

  // ----- the outcome -----

  function NameOf(o: (string, string), selector: Option<string>): string {
    if selector.Some? && '@' in selector.value then Qualified(o) else o.0
  }

  function Qualified(o: (string, string)): string { o.0 + "@" + o.1 }

  ghost predicate Lists(candidates: multiset<string>, offers: set<(string, string)>) {
    forall s :: s in candidates <==> exists o :: o in offers && s == Qualified(o)
  }

  /** One choice gives the provider, several give the ambiguity error listing them, none the error that lists what
      is on offer. */
  ghost predicate Outcome(r: Resolution, stage: string, offers: set<(string, string)>, named: set<(string, string)>,
                          selector: Option<string>) {
    && (r.Found? <==> |named| == 1)
    && (r.Ambiguous? <==> |named| >= 2)
    && (r.NotEnabled? <==> named == {})
    && (r.Found? ==> forall o :: o in named ==> r.provider == Some(NameOf(o, selector)))
    && (r.Ambiguous? ==> r.stage == stage && Lists(r.candidates, named))
    && (r.NotEnabled? ==> selector == Some(r.selector) && Lists(r.candidates, offers))
  }

  lemma DisplayLists(rows: seq<Row>)
    ensures Lists(Display(rows), Pairs(rows))
  {
    forall s ensures s in Display(rows) <==> exists o :: o in Pairs(rows) && s == Qualified(o) {
      FlatMapElements(OneSelector(), rows, s);
      if row :| row in rows && s in OneSelector()(row) {
        assert row.Pair() in Pairs(rows) && s == Qualified(row.Pair());
      }
      if o :| o in Pairs(rows) && s == Qualified(o) {
        var row :| row in rows && row.Pair() == o;
        assert s in OneSelector()(row);
      }
    }
  }

  lemma SingleOutcome(stage: string, rows: seq<Row>, offers: set<(string, string)>, selector: Option<string>)
    requires rows != []
    ensures Outcome(Single(stage, rows, selector.Some? && '@' in selector.value), stage, offers, Pairs(rows), selector)
  {
    DisplayLists(rows);
    hide Display, Lists;
    TwoOrMore(Pairs(rows));
    assert rows[0].Pair() in Pairs(rows);
  }

  lemma WithCandidatesOutcome(rows: seq<Row>, order: seq<string>, q: Query, selector: Option<string>)
    requires rows != [] && PlainRows(rows) && DecidesAlong(Pairs(rows), q.requested, order, selector)
    ensures Outcome(WithCandidates(rows, order, q), q.stage, Pairs(rows), Named(Pairs(rows), selector), selector)
  {
    DecidingSelector(rows, q.requested, order, selector);
    FirstMatchingMatches(rows, order);
    hide DecidesAlong, Single, FirstMatching, Matches, Names, Outcome, Display, Lists;
    if selector.Some? {
      MatchesNamed(rows, selector.value);
      var matching := Matches(rows, selector.value);
      if matching == [] {
        DisplayLists(rows);
        NoneNamed(WithCandidates(rows, order, q), q.stage, Pairs(rows), selector);
      } else {
        SingleOutcome(q.stage, matching, Pairs(rows), selector);
      }
    } else {
      SingleOutcome(q.stage, rows, Pairs(rows), None);
      assert Named(Pairs(rows), None) == Pairs(rows);
    }
  }

  lemma NoneNamed(r: Resolution, stage: string, offers: set<(string, string)>, selector: Option<string>)
    requires r.NotEnabled? && selector == Some(r.selector) && Lists(r.candidates, offers)
    ensures Outcome(r, stage, offers, {}, selector)
  {
  }

  ghost predicate AllOffers(hub: Hub, manifests: seq<Manifest>, q: Query, offers: set<(string, string)>) {
    forall o :: o in offers <==> Offered(hub, manifests, q, o)
  }

  lemma CandidatesAreAll(hub: Hub, manifests: seq<Manifest>, q: Query)
    ensures var rows := Candidates(hub, manifests, q.stage, q.capability);
            AllOffers(hub, manifests, q, Pairs(rows)) && (PlainIds(manifests) ==> PlainRows(rows))
            && (rows == [] <==> Pairs(rows) == {})
  {
    var rows := Candidates(hub, manifests, q.stage, q.capability);
    forall o { CandidatesAreOffers(hub, manifests, q, o); }
    forall row | row in rows ensures PlainIds(manifests) ==> PlainId(row.provider.id) {
      CandidatesChar(hub, manifests, q, row);
    }
    if rows != [] { assert rows[0].Pair() in Pairs(rows); }
  }

  lemma OffersAreUnique(hub: Hub, manifests: seq<Manifest>, q: Query, a: set<(string, string)>, b: set<(string, string)>)
    requires AllOffers(hub, manifests, q, a) && AllOffers(hub, manifests, q, b)
    ensures a == b
  {
    hide Offered;
    forall o ensures o in a <==> o in b {}
  }

  /** The outcome along the list of configured selectors. */
  lemma ResolutionAlong(hub: Hub, manifests: seq<Manifest>, q: Query, offers: set<(string, string)>,
                        selector: Option<string>)
    requires PlainIds(manifests) && AllOffers(hub, manifests, q, offers) && offers != {}
    requires DecidesAlong(offers, q.requested, TryOrder(hub.state, q), selector)
    ensures Outcome(Resolve(hub, manifests, q), q.stage, offers, Named(offers, selector), selector)
  {
    CandidatesAreAll(hub, manifests, q);
    var rows := Candidates(hub, manifests, q.stage, q.capability);
    OffersAreUnique(hub, manifests, q, offers, Pairs(rows));
    hide Candidates, WithCandidates, DecidesAlong, Outcome;
    WithCandidatesOutcome(rows, TryOrder(hub.state, q), q, selector);
  }

  // ----- which selector that is -----

  /** The profile that a table of profiles names for a project or a workspace, unless there is none to speak of. */
  ghost function ProfileFor(table: map<string, string>, key: Option<string>): Option<string> {
    match key
    case None => None
    case Some(k) => if k != "" && k in table then Some(table[k]) else None
  }

  /** What a profile lists for the stage. */
  ghost function Route(state: State, profile: Option<string>, stage: string): seq<string> {
    match profile
    case None => []
    case Some(name) => if name in state.profiles && stage in state.profiles[name] then state.profiles[name][stage] else []
  }

  ghost function Standard(state: State): Option<string> {
    if state.defaultProfile == Some("") then None else state.defaultProfile
  }

  /** No selector of the list names an offer. */
  ghost predicate Silent(offers: set<(string, string)>, list: seq<string>) {
    forall k :: 0 <= k < |list| ==> Named(offers, Some(list[k])) == {}
  }

  /** `selector` is the first in the list that names an offer. */
  ghost predicate DecidesIn(offers: set<(string, string)>, list: seq<string>, selector: string) {
    exists k :: 0 <= k < |list| && list[k] == selector && Named(offers, Some(selector)) != {}
                && forall j :: 0 <= j < k ==> Named(offers, Some(list[j])) == {}
  }

  /** The request decides. Without one it is the first selector that names an offer in the route of the project's
      profile; if that is silent, in the route of the workspace's profile; then in that of the standard profile; then in
      the priority list. If all are silent, none decides. */
  ghost predicate Decides(state: State, q: Query, offers: set<(string, string)>, selector: Option<string>) {
    if q.requested != None && q.requested != Some("") then selector == q.requested
    else
      var project := Route(state, ProfileFor(state.projectProfiles, q.project), q.stage);
      var workspace := Route(state, ProfileFor(state.workspaceProfiles, q.workspace), q.stage);
      var standard := Route(state, Standard(state), q.stage);
      match selector
      case None => Silent(offers, project) && Silent(offers, workspace) && Silent(offers, standard) && Silent(offers, state.priority)
      case Some(sel) =>
        if !Silent(offers, project) then DecidesIn(offers, project, sel)
        else if !Silent(offers, workspace) then DecidesIn(offers, workspace, sel)
        else if !Silent(offers, standard) then DecidesIn(offers, standard, sel)
        else DecidesIn(offers, state.priority, sel)
  }

  lemma SilentAppend(offers: set<(string, string)>, a: seq<string>, b: seq<string>)
    ensures Silent(offers, a + b) <==> Silent(offers, a) && Silent(offers, b)
  {
    hide Named;
    var all := a + b;
    if Silent(offers, all) {
      forall k | 0 <= k < |a| ensures Named(offers, Some(a[k])) == {} { assert all[k] == a[k]; }
      forall k | 0 <= k < |b| ensures Named(offers, Some(b[k])) == {} { assert all[|a| + k] == b[k]; }
    }
  }

  lemma DecidesAppend(offers: set<(string, string)>, a: seq<string>, b: seq<string>, selector: string)
    ensures DecidesIn(offers, a + b, selector) <==>
            if Silent(offers, a) then DecidesIn(offers, b, selector) else DecidesIn(offers, a, selector)
  {
    hide Named;
    var all := a + b;
    if k :| 0 <= k < |all| && all[k] == selector && Named(offers, Some(selector)) != {}
            && forall j :: 0 <= j < k ==> Named(offers, Some(all[j])) == {} {
      if k < |a| {
        assert a[k] == selector && forall j :: 0 <= j < k ==> a[j] == all[j];
        assert DecidesIn(offers, a, selector);
      } else {
        forall j | 0 <= j < |a| ensures Named(offers, Some(a[j])) == {} { assert all[j] == a[j]; }
        assert b[k - |a|] == selector;
        forall j | 0 <= j < k - |a| ensures Named(offers, Some(b[j])) == {} { assert all[|a| + j] == b[j]; }
        assert DecidesIn(offers, b, selector);
      }
    }
    if !Silent(offers, a) && DecidesIn(offers, a, selector) {
      var k :| 0 <= k < |a| && a[k] == selector && Named(offers, Some(selector)) != {}
               && forall j :: 0 <= j < k ==> Named(offers, Some(a[j])) == {};
      assert all[k] == selector && forall j :: 0 <= j < k ==> all[j] == a[j];
    }
    if Silent(offers, a) && DecidesIn(offers, b, selector) {
      var k :| 0 <= k < |b| && b[k] == selector && Named(offers, Some(selector)) != {}
               && forall j :: 0 <= j < k ==> Named(offers, Some(b[j])) == {};
      assert all[|a| + k] == selector;
      forall j | 0 <= j < |a| + k ensures Named(offers, Some(all[j])) == {} {
        if j < |a| { assert all[j] == a[j]; } else { assert all[j] == b[j - |a|]; }
      }
    }
  }

  lemma FlatMapOne<A, B>(f: A -> seq<B>, x: A)
    ensures FlatMap(f, [x]) == f(x) && FlatMap(f, []) == []
  {
    assert [x][..0] == [] && [] + f(x) == f(x);
  }

  /** One by one: the project's route, the workspace's, the standard one, the priority list. */
  lemma OrderOfTrial(state: State, q: Query)
    ensures TryOrder(state, q)
         == Route(state, ProfileFor(state.projectProfiles, q.project), q.stage)
            + (Route(state, ProfileFor(state.workspaceProfiles, q.workspace), q.stage)
               + (Route(state, Standard(state), q.stage) + state.priority))
  {
    var f := RoutesOf(state, q.stage);
    var project, workspace, standard :=
      ProfileFor(state.projectProfiles, q.project), ProfileFor(state.workspaceProfiles, q.workspace), Standard(state);
    var a, b, c := ListOf(project), ListOf(workspace), ListOf(standard);
    assert ProfileNames(state, q) == a + b + c;
    RouteIsFlat(state, project, q.stage);
    RouteIsFlat(state, workspace, q.stage);
    RouteIsFlat(state, standard, q.stage);
    hide ProfileNames, RoutesOf, FlatMap, Route, ProfileFor, Standard;
    FlatMapAppend(f, a + b, c);
    FlatMapAppend(f, a, b);
    Associate(FlatMap(f, a), FlatMap(f, b), FlatMap(f, c), state.priority);
  }

  function ListOf(o: Option<string>): seq<string> { if o.Some? then [o.value] else [] }

  lemma RouteIsFlat(state: State, profile: Option<string>, stage: string)
    ensures FlatMap(RoutesOf(state, stage), ListOf(profile)) == Route(state, profile, stage)
  {
    if profile.Some? { FlatMapOne(RoutesOf(state, stage), profile.value); }
  }

  lemma Associate(a: seq<string>, b: seq<string>, c: seq<string>, d: seq<string>)
    ensures a + b + c + d == a + (b + (c + d))
  {
  }

  lemma DecidesIsAlong(state: State, q: Query, offers: set<(string, string)>, selector: Option<string>)
    ensures Decides(state, q, offers, selector) <==> DecidesAlong(offers, q.requested, TryOrder(state, q), selector)
  {
    var project := Route(state, ProfileFor(state.projectProfiles, q.project), q.stage);
    var workspace := Route(state, ProfileFor(state.workspaceProfiles, q.workspace), q.stage);
    var standard := Route(state, Standard(state), q.stage);
    OrderOfTrial(state, q);
    SilentAppend(offers, project, workspace + (standard + state.priority));
    SilentAppend(offers, workspace, standard + state.priority);
    SilentAppend(offers, standard, state.priority);
    AlongIsIn(offers, q.requested, TryOrder(state, q), selector);
    if selector.Some? {
      DecidesAppend(offers, project, workspace + (standard + state.priority), selector.value);
      DecidesAppend(offers, workspace, standard + state.priority, selector.value);
      DecidesAppend(offers, standard, state.priority, selector.value);
    }
    hide TryOrder, Route, ProfileFor, Standard, Silent, DecidesIn, DecidesAlong;
  }

  lemma AlongIsIn(offers: set<(string, string)>, requested: Option<string>, order: seq<string>, selector: Option<string>)
    ensures DecidesAlong(offers, requested, order, selector) <==>
            if requested != None && requested != Some("") then selector == requested
            else if selector.None? then Silent(offers, order) else DecidesIn(offers, order, selector.value)
  {
    hide Named;
  }

  /** The outcome in full when the stage has providers on offer: it follows from the set of offers and the deciding
      selector alone. */
  lemma ResolutionExact(hub: Hub, manifests: seq<Manifest>, q: Query, offers: set<(string, string)>,
                        selector: Option<string>)
    requires PlainIds(manifests) && AllOffers(hub, manifests, q, offers) && offers != {}
    requires Decides(hub.state, q, offers, selector)
    ensures Outcome(Resolve(hub, manifests, q), q.stage, offers, Named(offers, selector), selector)
  {
    hide Decides, DecidesAlong, Outcome, Resolve, AllOffers, TryOrder;
    DecidesIsAlong(hub.state, q, offers, selector);
    ResolutionAlong(hub, manifests, q, offers, selector);
  }

  /** There is always exactly one answer to what decides. */
  lemma OneDecides(hub: Hub, q: Query, offers: set<(string, string)>) returns (selector: Option<string>)
    ensures Decides(hub.state, q, offers, selector)
    ensures forall other :: Decides(hub.state, q, offers, other) ==> other == selector
  {
    var order := TryOrder(hub.state, q);
    var n := FirstNamed(offers, order);
    selector := if Given(q.requested) then q.requested else if n < |order| then Some(order[n]) else None;
    forall other ensures Decides(hub.state, q, offers, other) <==> DecidesAlong(offers, q.requested, order, other) {
      DecidesIsAlong(hub.state, q, offers, other);
    }
    hide Decides, TryOrder, Named;
    assert DecidesAlong(offers, q.requested, order, selector);
  }

  ghost predicate Known(hub: Hub, manifests: seq<Manifest>, selector: string, enabled: bool) {
    exists row :: HasRow(hub, manifests, false, row) && Names(selector, row.Pair()) && row.enabled == enabled
  }

  /** Without offers a request passes through unless it names an installed provider, which is then refused. */
  lemma NothingOffered(hub: Hub, manifests: seq<Manifest>, q: Query)
    requires PlainIds(manifests) && AllOffers(hub, manifests, q, {})
    ensures var r := Resolve(hub, manifests, q);
            var off := Given(q.requested) && Known(hub, manifests, q.requested.value, false);
            var on := Given(q.requested) && Known(hub, manifests, q.requested.value, true);
            && (r == Found(q.requested) <==> !off && !on)
            && (r.Disabled? <==> off && !on) && (r.Disabled? ==> Some(r.selector) == q.requested)
            && (r.NotEnabled? <==> on) && (r.NotEnabled? ==> Some(r.selector) == q.requested && r.candidates == multiset{})
  {
    CandidatesAreAll(hub, manifests, q);
    OffersAreUnique(hub, manifests, q, {}, Pairs(Candidates(hub, manifests, q.stage, q.capability)));
    hide Candidates, AllOffers, Offered;
    if Given(q.requested) {
      var known := Records(hub, manifests, false);
      var matching := Matches(known, q.requested.value);
      forall row
        ensures row in matching <==> HasRow(hub, manifests, false, row) && Names(q.requested.value, row.Pair())
      {
        RecordsChar(hub, manifests, false, row);
        if HasRow(hub, manifests, false, row) {
          MatchesAreNamed(known, q.requested.value, row);
        } else {
          FlatMapElements(IfMatching(q.requested.value), known, row);
        }
      }
      hide Records, Matches, HasRow, Names;
      if matching != [] { assert matching[0] in matching; }
    }
  }

  // ----- consequences -----

  lemma QualifiedNamesOne(o: (string, string), other: (string, string))
    requires PlainId(o.0) && PlainId(other.0)
    ensures Names(Qualified(o), other) <==> other == o
    ensures Names(o.0, other) <==> other.0 == o.0
  {
    PartitionQualified(o.0, o.1);
    PartitionQualified(other.0, other.1);
    assert (other.0 + "@" + other.1)[|other.0|] == '@';
    assert (o.0 + "@" + o.1)[|o.0|] == '@';
  }

  /** A name given to the only offer a selector names is a name of that offer alone. */
  lemma NameIsUnique(offers: set<(string, string)>, selector: Option<string>, o: (string, string))
    requires forall x :: x in offers ==> PlainId(x.0)
    requires Named(offers, selector) == {o}
    ensures Named(offers, Some(NameOf(o, selector))) == {o}
    ensures Given(Some(NameOf(o, selector))) && NameOf(o, Some(NameOf(o, selector))) == NameOf(o, selector)
  {
    var name := NameOf(o, selector);
    assert o in Named(offers, selector);
    forall x | x in offers ensures Names(name, x) <==> x == o {
      QualifiedNamesOne(o, x);
      if name == o.0 && x.0 == o.0 {
        assert x in Named(offers, selector);
      }
    }
    assert '@' in o.0 + "@" + o.1 by { assert (o.0 + "@" + o.1)[|o.0|] == '@'; }
  }

  lemma FoundOne(hub: Hub, manifests: seq<Manifest>, q: Query, offers: set<(string, string)>)
    returns (selector: Option<string>, o: (string, string))
    requires PlainIds(manifests) && AllOffers(hub, manifests, q, offers) && offers != {}
    requires Resolve(hub, manifests, q).Found?
    ensures Named(offers, selector) == {o} && Resolve(hub, manifests, q) == Found(Some(NameOf(o, selector)))
    ensures forall x :: x in offers ==> PlainId(x.0)
  {
    forall x | x in offers ensures PlainId(x.0) { assert Offered(hub, manifests, q, x); }
    var order := TryOrder(hub.state, q);
    var n := FirstNamed(offers, order);
    selector := if Given(q.requested) then q.requested else if n < |order| then Some(order[n]) else None;
    hide Resolve, TryOrder, AllOffers, Lists;
    assert DecidesAlong(offers, q.requested, order, selector);
    ResolutionAlong(hub, manifests, q, offers, selector);
    TwoOrMore(Named(offers, selector));
    o :| o in Named(offers, selector);
    assert Named(offers, selector) == {o};
  }

  /** A returned selector names exactly one enabled and capable provider. */
  lemma FoundDenotesOne(hub: Hub, manifests: seq<Manifest>, q: Query, offers: set<(string, string)>)
    requires PlainIds(manifests) && AllOffers(hub, manifests, q, offers) && offers != {}
    requires Resolve(hub, manifests, q).Found?
    ensures var found := Resolve(hub, manifests, q).provider;
            found.Some? && |Named(offers, found)| == 1
  {
    var selector, o := FoundOne(hub, manifests, q, offers);
    NameIsUnique(offers, selector, o);
  }

  /** Asking again for what was found finds it again. */
  lemma ResolveIdempotent(hub: Hub, manifests: seq<Manifest>, q: Query)
    requires PlainIds(manifests) && Resolve(hub, manifests, q).Found?
    ensures var r := Resolve(hub, manifests, q);
            Resolve(hub, manifests, q.(requested := r.provider)) == r
  {
    var offers := Pairs(Candidates(hub, manifests, q.stage, q.capability));
    CandidatesAreAll(hub, manifests, q);
    if offers != {} {
      var selector, o := FoundOne(hub, manifests, q, offers);
      NameIsUnique(offers, selector, o);
      var again := q.(requested := Some(NameOf(o, selector)));
      SameOffers(hub, manifests, q, again, offers);
      hide Resolve, AllOffers, Lists;
      assert DecidesAlong(offers, again.requested, TryOrder(hub.state, again), again.requested);
      ResolutionAlong(hub, manifests, again, offers, again.requested);
      assert o in {o};
    }
  }

  lemma SameOffers(hub: Hub, manifests: seq<Manifest>, q: Query, again: Query, offers: set<(string, string)>)
    requires q.stage == again.stage && q.capability == again.capability && AllOffers(hub, manifests, q, offers)
    ensures AllOffers(hub, manifests, again, offers)
  {
    forall o ensures Offered(hub, manifests, q, o) <==> Offered(hub, manifests, again, o) {}
  }
}
