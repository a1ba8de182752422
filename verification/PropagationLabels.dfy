/** Which status the sweep gives a doomed row. The set of changed rows never depends on the order of
    the pending rows; the labels `failed` and `cancelled` can, and here is exactly when they do not. */
module PropagationLabels {
  import opened Prelude
  import opened Readiness
  import opened Tasks
  import opened Propagation

  // ----- canonical labels -----

  /** A pending row as the final states of its dependencies determine it. */
  function Settle(task: Task, state: DependencyState): Task {
    if state == Ready || state == Blocked then task else Mark(task, state)
  }

  /** Every row that was pending is labelled by what became of its dependencies in the end. */
  ghost predicate Canonical(t: Table, t': Table) {
    && t'.Keys == t.Keys
    && (forall id :: id in t && t[id].status != Pending ==> t'[id] == t[id])
    && (forall id :: id in PendingIds(t) ==> t'[id] == Settle(t[id], StateIn(t', id)))
  }

  /** In the first `n` rows of `order`, each comes after the pending rows it depends on. */
  ghost predicate DependencyOrdered(order: seq<TaskId>, n: nat, t: Table)
    requires n <= |order|
  {
    && NoDup(order)
    && (forall i :: 0 <= i < n ==> order[i] in PendingIds(t))
    && (forall i, d :: 0 <= i < n && d in t[order[i]].deps && d in PendingIds(t) ==>
                         exists j :: 0 <= j < i && order[j] == d)
  }

  /** Marking `id` leaves the dependencies of a row that does not depend on `id` as they were. */
  lemma VisitElsewhere(t: Table, id: TaskId, x: TaskId)
    requires id in t && x in t && id !in t[x].deps
    ensures StateIn(Visit(t, id), x) == StateIn(t, x)
  {
    var t' := Visit(t, id);
    VisitMarks(t, id);
    assert t'[x].deps == t[x].deps;
    StateDependsOnDeps(t[x].deps, StatusesOf(t), StatusesOf(t'));
  }

  lemma VisitSettles(t: Table, id: TaskId)
    requires id in t && t[id].status == Pending
    ensures Visit(t, id) == t[id := Settle(t[id], StateIn(t, id))]
  {
    hide StateIn;
  }

  /** While rows come in dependency order, one pass labels them for good. */
  lemma {:induction false} PassCanonical(t: Table, order: seq<TaskId>, n: nat)
    requires n <= |order| && DependencyOrdered(order, n, t) && forall id :: id in order ==> id in t
    ensures var now := Pass(t, order, n);
            && (forall i :: 0 <= i < n ==> now[order[i]] == Settle(t[order[i]], StateIn(now, order[i])))
            && (forall id :: id in t && id !in order[..n] ==> now[id] == t[id])
  {
    hide StateIn, Visit, Settle, DependencyOrdered;
    if n > 0 {
      OrderedPrefix(order, n, t);
      PassCanonical(t, order, n - 1);
      PassMarks(t, order, n - 1);
      hide Pass, Marked;
      StepCanonical(t, order, n, Pass(t, order, n - 1));
      PassStep(t, order, n - 1);
    }
  }

  lemma PassStep(t: Table, order: seq<TaskId>, k: nat)
    requires k < |order| && forall x :: x in order ==> x in t
    ensures Pass(t, order, k + 1) == Visit(Pass(t, order, k), order[k])
  {
  }

  lemma StepCanonical(t: Table, order: seq<TaskId>, n: nat, before: Table)
    requires 0 < n <= |order| && DependencyOrdered(order, n, t) && Marked(t, before)
    requires forall i :: 0 <= i < n - 1 ==> order[i] in t && before[order[i]] == Settle(t[order[i]], StateIn(before, order[i]))
    requires forall id :: id in t && id !in order[..n - 1] ==> before[id] == t[id]
    ensures order[n - 1] in before
    ensures var now := Visit(before, order[n - 1]);
            && now.Keys == t.Keys
            && (forall i :: 0 <= i < n ==> order[i] in t && now[order[i]] == Settle(t[order[i]], StateIn(now, order[i])))
            && (forall id :: id in t && id !in order[..n] ==> now[id] == t[id])
  {
    hide StateIn, Visit, Settle, DependencyOrdered;
    OrderedPrefix(order, n, t);
    var id := order[n - 1];
    var now := Visit(before, id);
    assert order[..n] == order[..n - 1] + [id];
    assert before[id] == t[id];
    VisitSettles(before, id);
    forall i | 0 <= i < n ensures order[i] in t && now[order[i]] == Settle(t[order[i]], StateIn(now, order[i])) {
      LaterUndisturbing(t, order, n, before, i);
    }
  }

  lemma OrderedPrefix(order: seq<TaskId>, n: nat, t: Table)
    requires 0 < n <= |order| && DependencyOrdered(order, n, t)
    ensures DependencyOrdered(order, n - 1, t)
    ensures order[n - 1] in PendingIds(t) && order[n - 1] !in order[..n - 1]
    ensures forall i :: 0 <= i < n - 1 ==> order[i] in PendingIds(t) && order[i] != order[n - 1]
  {
  }

  /** Visiting row `n - 1` does not touch what the rows up to it depend on. */
  lemma LaterUndisturbing(t: Table, order: seq<TaskId>, n: nat, before: Table, i: nat)
    requires i < n <= |order| && DependencyOrdered(order, n, t) && Marked(t, before)
    ensures StateIn(Visit(before, order[n - 1]), order[i]) == StateIn(before, order[i])
  {
    hide StateIn, Visit;
    var id := order[n - 1];
    assert before[order[i]].deps == t[order[i]].deps;
    if id in t[order[i]].deps {
      assert false;
    }
    VisitElsewhere(before, id, order[i]);
  }

  lemma {:induction false} SettledPassIdles(t: Table, order: seq<TaskId>, k: nat)
    requires k <= |order| && Settled(t) && forall id :: id in order ==> id in t
    ensures Pass(t, order, k) == t
  {
    hide StateIn;
    if k > 0 {
      SettledPassIdles(t, order, k - 1);
    }
  }

  /** Rows in dependency order give canonical labels, in a single pass. */
  lemma SweepCanonical(t: Table, order: seq<TaskId>)
    requires ListsPending(order, t) && DependencyOrdered(order, |order|, t)
    ensures Canonical(t, Sweep(t, order))
  {
    hide StateIn, Pass;
    var t' := Pass(t, order, |order|);
    PassCanonical(t, order, |order|);
    assert order[..|order|] == order;
    forall id | id in PendingIds(t) ensures t'[id] == Settle(t[id], StateIn(t', id)) {
      assert id in order;
      var i :| 0 <= i < |order| && order[i] == id;
    }
    PassMarks(t, order, |order|);
    assert Settled(t');
    SettledPassIdles(t', order, |order|);
    PassProgress(t, order, |order|);
    assert Sweep(t, order) == t';
  }

  /** There is only one canonical labelling. */
  lemma {:induction false} CanonicalUniqueUpTo(t: Table, a: Table, b: Table, order: seq<TaskId>, n: nat)
    requires n <= |order| && DependencyOrdered(order, n, t)
    requires Canonical(t, a) && Canonical(t, b)
    ensures forall i :: 0 <= i < n ==> a[order[i]] == b[order[i]]
  {
    if n > 0 {
      CanonicalUniqueUpTo(t, a, b, order, n - 1);
      var id := order[n - 1];
      SettleKeepsDeps(t, a, id);
      SettleKeepsDeps(t, b, id);
      forall d | d in t[id].deps && d in t ensures a[d].status == b[d].status {
        if d in PendingIds(t) {
          var j :| 0 <= j < n - 1 && order[j] == d;
        }
      }
      StateDependsOnDeps(t[id].deps, StatusesOf(a), StatusesOf(b));
    }
  }

  lemma SettleKeepsDeps(t: Table, a: Table, id: TaskId)
    requires Canonical(t, a) && id in t
    ensures a[id].deps == t[id].deps
  {
  }

  lemma CanonicalUnique(t: Table, a: Table, b: Table, order: seq<TaskId>)
    requires ListsPending(order, t) && DependencyOrdered(order, |order|, t)
    requires Canonical(t, a) && Canonical(t, b)
    ensures a == b
  {
    hide StateIn, Settle;
    CanonicalUniqueUpTo(t, a, b, order, |order|);
    forall id | id in t ensures a[id] == b[id] {
      if id in PendingIds(t) {
        assert id in order;
        var i :| 0 <= i < |order| && order[i] == id;
      }
    }
  }

  // ----- when labels do not depend on the order -----

  ghost function EdgeIn(t: Table, d: TaskId): nat { EdgeRank(d, StatusesOf(t)) }

  /** Among the causes of each doomed row either the gravest is in plain sight from the start, on a row
      that was not pending, or all are equally grave. `c` is the canonically labelled table. */
  ghost predicate Unanimous(t: Table, c: Table)
    requires c.Keys == t.Keys
  {
    forall id :: id in PendingIds(t) ==> UnanimousAt(t, c, id)
  }

  ghost predicate UnanimousAt(t: Table, c: Table, id: TaskId)
    requires c.Keys == t.Keys && id in t
  {
    Terminal(StateIn(c, id)) ==>
      || (exists d :: d in t[id].deps && d !in PendingIds(t) && EdgeIn(c, d) == Rank(StateIn(c, id)))
      || (forall d :: d in t[id].deps && EdgeIn(c, d) >= 2 ==> EdgeIn(c, d) == Rank(StateIn(c, id)))
  }

  lemma EdgesOf(t: Table, id: TaskId)
    requires id in t
    ensures forall d :: d in t[id].deps ==> EdgeIn(t, d) <= Rank(StateIn(t, id))
    ensures Rank(StateIn(t, id)) == 0 || exists d :: d in t[id].deps && EdgeIn(t, d) == Rank(StateIn(t, id))
    ensures Terminal(StateIn(t, id)) <==> Rank(StateIn(t, id)) >= 2
  {
    GravestEdge(t[id].deps, StatusesOf(t));
  }

  /** A marked row is, to the rows that depend on it, as grave as what it was marked for. */
  lemma MarkedEdge(c: Table, id: TaskId, task: Task, state: DependencyState)
    requires id in c && Terminal(state) && c[id] == Mark(task, state)
    ensures EdgeIn(c, id) == Rank(state)
  {
  }

  /** On the way to `c`: each row is as at the start or as at the end. */
  ghost predicate Between(t: Table, now: Table, c: Table) {
    && now.Keys == t.Keys && c.Keys == t.Keys
    && forall id :: id in t ==> now[id] == t[id] || now[id] == c[id]
  }

  lemma VisitBetween(t: Table, now: Table, c: Table, id: TaskId)
    requires Canonical(t, c) && Unanimous(t, c) && Between(t, now, c) && id in t
    ensures Between(t, Visit(now, id), c)
  {
    hide StateIn, EdgeIn;
    if now[id].status == Pending && Terminal(StateIn(now, id)) {
      assert now[id] == t[id] by {
        if now[id] != t[id] { CanonicalPending(t, c, id); }
      }
      VisibleCauses(t, now, c, id);
      RankInjective(StateIn(now, id), StateIn(c, id));
    }
  }

  lemma CanonicalPending(t: Table, c: Table, id: TaskId)
    requires Canonical(t, c) && id in t && c[id].status == Pending
    ensures c[id] == t[id]
  {
  }

  lemma RankInjective(a: DependencyState, b: DependencyState)
    ensures Rank(a) == Rank(b) ==> a == b
  {
  }

  /** What can be seen on the way is as grave as what will be seen in the end. */
  lemma VisibleCauses(t: Table, now: Table, c: Table, id: TaskId)
    requires Canonical(t, c) && Unanimous(t, c) && Between(t, now, c)
    requires id in PendingIds(t) && now[id] == t[id] && Terminal(StateIn(now, id))
    ensures Rank(StateIn(now, id)) == Rank(StateIn(c, id))
  {
    hide StateIn, Settle, Canonical;
    EdgesOf(now, id);
    EdgesOf(c, id);
    assert c[id].deps == t[id].deps by { SettleKeepsDeps(t, c, id); }
    forall d | d in t[id].deps && EdgeIn(now, d) >= 2 ensures EdgeIn(c, d) == EdgeIn(now, d) {
      SeenEdge(t, now, c, d);
    }
    var d :| d in now[id].deps && EdgeIn(now, d) == Rank(StateIn(now, id));
    assert EdgeIn(c, d) >= 2;
    if e :| e in t[id].deps && e !in PendingIds(t) && EdgeIn(c, e) == Rank(StateIn(c, id)) {
      SettledEdge(t, now, c, e);
    }
  }

  lemma SeenEdge(t: Table, now: Table, c: Table, d: TaskId)
    requires Canonical(t, c) && Between(t, now, c) && EdgeIn(now, d) >= 2
    ensures EdgeIn(c, d) == EdgeIn(now, d)
  {
    hide StateIn, Settle;
    if d in t && now[d] == t[d] {
      assert t[d].status != Pending;
    }
  }

  lemma SettledEdge(t: Table, now: Table, c: Table, d: TaskId)
    requires Canonical(t, c) && Between(t, now, c) && d !in PendingIds(t)
    ensures EdgeIn(c, d) == EdgeIn(now, d)
  {
    hide StateIn, Settle;
  }

  lemma {:induction false} PassBetween(t: Table, now: Table, c: Table, order: seq<TaskId>, k: nat)
    requires Canonical(t, c) && Unanimous(t, c) && Between(t, now, c)
    requires k <= |order| && forall id :: id in order ==> id in t
    ensures Between(t, Pass(now, order, k), c)
  {
    hide Canonical, Unanimous, Visit;
    if k > 0 {
      PassBetween(t, now, c, order, k - 1);
      VisitBetween(t, Pass(now, order, k - 1), c, order[k - 1]);
    }
  }

  lemma {:induction false} SweepBetween(t: Table, now: Table, c: Table, order: seq<TaskId>)
    requires Canonical(t, c) && Unanimous(t, c) && Between(t, now, c)
    requires forall id :: id in order ==> id in t
    ensures Between(t, Sweep(now, order), c)
    decreases |PendingIds(now)|
  {
    hide Canonical, Unanimous, Pass;
    var now' := Pass(now, order, |order|);
    PassBetween(t, now, c, order, |order|);
    if now' != now {
      PassProgress(now, order, |order|);
      SweepBetween(t, now', c, order);
    }
  }

  lemma UnanimousSuffices(t: Table, order: seq<TaskId>, order': seq<TaskId>)
    requires ListsPending(order, t) && DependencyOrdered(order, |order|, t) && ListsPending(order', t)
    requires Unanimous(t, Sweep(t, order))
    ensures Sweep(t, order') == Sweep(t, order)
  {
    hide Sweep, Canonical, Unanimous, Marked, Settled, DependencyOrdered;
    var c, r := Sweep(t, order), Sweep(t, order');
    SweepCanonical(t, order);
    SweepBetween(t, t, c, order');
    SweepOrderIrrelevantForSet(t, order, order');
    forall id | id in t ensures r[id] == c[id] {
      assert id in Changed(t, c) <==> id in Changed(t, r);
    }
  }

  // ----- otherwise some order gives another table -----

  function Filter(order: seq<TaskId>, n: nat, keep: set<TaskId>): seq<TaskId>
    requires n <= |order|
  {
    if n == 0 then [] else Filter(order, n - 1, keep) + (if order[n - 1] in keep then [order[n - 1]] else [])
  }

  lemma OrderedSnoc(before: seq<TaskId>, x: TaskId, t: Table)
    requires DependencyOrdered(before, |before|, t) && x in PendingIds(t) && x !in before
    requires forall d :: d in t[x].deps && d in PendingIds(t) ==> d in before
    ensures DependencyOrdered(before + [x], |before + [x]|, t)
  {
    var f := before + [x];
    forall i, d | 0 <= i < |f| && d in t[f[i]].deps && d in PendingIds(t)
      ensures exists j :: 0 <= j < i && f[j] == d
    {
      var j :| 0 <= j < |before| && before[j] == d && j < i;
      assert f[j] == d;
    }
  }

  lemma {:induction false} FilterKeeps(order: seq<TaskId>, n: nat, keep: set<TaskId>, t: Table)
    requires n <= |order| && DependencyOrdered(order, n, t)
    requires forall x, d :: x in keep && x in PendingIds(t) && d in t[x].deps && d in PendingIds(t) ==> d in keep
    ensures forall x :: x in Filter(order, n, keep) <==> x in order[..n] && x in keep
    ensures DependencyOrdered(Filter(order, n, keep), |Filter(order, n, keep)|, t)
  {
    hide DependencyOrdered;
    if n > 0 {
      OrderedPrefix(order, n, t);
      FilterKeeps(order, n - 1, keep, t);
      var before, x := Filter(order, n - 1, keep), order[n - 1];
      assert order[..n] == order[..n - 1] + [x];
      if x in keep {
        forall d | d in t[x].deps && d in PendingIds(t) ensures d in before {
          DependencyIsEarlier(order, n, d, t);
        }
        OrderedSnoc(before, x, t);
        assert Filter(order, n, keep) == before + [x];
      } else {
        assert Filter(order, n, keep) == before;
      }
    } else {
      EmptyOrdered(order, t);
    }
  }

  lemma EmptyOrdered(order: seq<TaskId>, t: Table)
    ensures DependencyOrdered([], 0, t)
  {
  }

  lemma DependencyIsEarlier(order: seq<TaskId>, n: nat, d: TaskId, t: Table)
    requires 0 < n <= |order| && DependencyOrdered(order, n, t) && order[n - 1] in t
    requires d in t[order[n - 1]].deps && d in PendingIds(t)
    ensures d in order[..n - 1]
  {
    var j :| 0 <= j < n - 1 && order[j] == d;
    assert order[..n - 1][j] == d;
  }

  /** The rows whose canonical state is milder than `r`. */
  function Milder(t: Table, c: Table, r: nat): set<TaskId>
    requires c.Keys == t.Keys
  {
    set x | x in t && x in PendingIds(t) && MilderThan(c, x, r)
  }

  predicate MilderThan(c: Table, x: TaskId, r: nat)
    requires x in c
  {
    match StateIn(c, x)
    case UpstreamFailed => 4 < r
    case UpstreamCancelledDirty => 3 < r
    case UpstreamCancelled => 2 < r
    case Blocked => 1 < r
    case Ready => 0 < r
  }

  lemma MilderIsRank(c: Table, x: TaskId, r: nat)
    requires x in c
    ensures MilderThan(c, x, r) <==> Rank(StateIn(c, x)) < r
  {
    hide StateIn;
  }

  /** Milder rows only depend on milder pending rows. */
  lemma MilderClosed(t: Table, c: Table, r: nat)
    requires Canonical(t, c) && r >= 2
    ensures forall x, d :: x in Milder(t, c, r) && d in t[x].deps && d in PendingIds(t) ==> d in Milder(t, c, r)
  {
    hide StateIn, MilderThan;
    forall x, d | x in Milder(t, c, r) && d in t[x].deps && d in PendingIds(t) ensures d in Milder(t, c, r) {
      MilderIsRank(c, x, r);
      MilderIsRank(c, d, r);
      SettleKeepsDeps(t, c, x);
      EdgesOf(c, x);
      if Terminal(StateIn(c, d)) {
        MarkedEdge(c, d, t[d], StateIn(c, d));
      }
    }
  }

  /** A row that is not unanimous, seen after just the milder rows, gets a milder label. */
  lemma MilderView(t: Table, now: Table, c: Table, id: TaskId, w: TaskId)
    requires Canonical(t, c) && id in PendingIds(t) && now.Keys == t.Keys && now[id] == t[id]
    requires var r := Rank(StateIn(c, id));
             && r >= 2
             && (forall x :: x in t ==> now[x] == if x in Milder(t, c, r) then c[x] else t[x])
             && (forall d :: d in t[id].deps && d !in PendingIds(t) ==> EdgeIn(c, d) != r)
             && w in t[id].deps && 2 <= EdgeIn(c, w) < r
    ensures 2 <= Rank(StateIn(now, id)) < Rank(StateIn(c, id))
  {
    hide StateIn, MilderThan, Settle;
    var r := Rank(StateIn(c, id));
    EdgesOf(c, id);
    EdgesOf(now, id);
    SettleKeepsDeps(t, c, id);
    forall d | d in t[id].deps ensures EdgeIn(now, d) < r && (d == w ==> EdgeIn(now, d) == EdgeIn(c, d)) {
      MilderEdge(t, now, c, r, d);
    }
  }

  lemma MilderEdge(t: Table, now: Table, c: Table, r: nat, d: TaskId)
    requires Canonical(t, c) && now.Keys == t.Keys && r >= 2 && EdgeIn(c, d) <= r
    requires forall x :: x in t ==> now[x] == if x in Milder(t, c, r) then c[x] else t[x]
    ensures d in PendingIds(t) || EdgeIn(c, d) < r ==> EdgeIn(now, d) < r
    ensures 2 <= EdgeIn(c, d) < r ==> EdgeIn(now, d) == EdgeIn(c, d)
  {
    hide StateIn, MilderThan;
    if d in PendingIds(t) {
      MilderIsRank(c, d, r);
      if Terminal(StateIn(c, d)) {
        MarkedEdge(c, d, t[d], StateIn(c, d));
      }
    }
  }

  lemma NotUnanimous(t: Table, c: Table) returns (id: TaskId, w: TaskId)
    requires c.Keys == t.Keys && !Unanimous(t, c)
    ensures id in PendingIds(t) && Terminal(StateIn(c, id))
    ensures forall d :: d in t[id].deps && d !in PendingIds(t) ==> EdgeIn(c, d) != Rank(StateIn(c, id))
    ensures w in t[id].deps && EdgeIn(c, w) >= 2 && EdgeIn(c, w) != Rank(StateIn(c, id))
  {
    hide StateIn, EdgeIn;
    id :| id in PendingIds(t) && Terminal(StateIn(c, id))
          && (forall d :: d in t[id].deps && d !in PendingIds(t) ==> EdgeIn(c, d) != Rank(StateIn(c, id)))
          && (exists d :: d in t[id].deps && EdgeIn(c, d) >= 2 && EdgeIn(c, d) != Rank(StateIn(c, id)));
    w :| w in t[id].deps && EdgeIn(c, w) >= 2 && EdgeIn(c, w) != Rank(StateIn(c, id));
  }

  lemma UnanimousNecessary(t: Table, order: seq<TaskId>)
    requires ListsPending(order, t) && DependencyOrdered(order, |order|, t)
    requires !Unanimous(t, Sweep(t, order))
    ensures exists order' :: ListsPending(order', t) && Sweep(t, order') != Sweep(t, order)
  {
    hide Sweep, StateIn, EdgeIn, MilderThan, Milder, Canonical, DependencyOrdered, Unanimous, MilderFirst, Filter, Pass;
    var c := Sweep(t, order);
    SweepCanonical(t, order);
    var id, w := NotUnanimous(t, c);
    var r := Rank(StateIn(c, id));
    EdgesOf(c, id);
    SettleKeepsDeps(t, c, id);
    MilderFirstPass(t, c, order, id, r);
    var milder := Milder(t, c, r);
    var order', k := MilderFirst(order, id, milder), |Filter(order, |order|, milder)|;
    MilderView(t, Pass(t, order', k), c, id, w);
    LabelStays(t, order', k, c);
  }

  lemma CanonicalKeys(t: Table, c: Table)
    requires Canonical(t, c)
    ensures c.Keys == t.Keys
  {
  }

  /** The milder rows in dependency order, then `id`, then everything else. */
  function MilderFirst(order: seq<TaskId>, id: TaskId, milder: set<TaskId>): seq<TaskId> {
    Filter(order, |order|, milder) + [id] + Rest(order, |order|, milder + {id})
  }

  lemma MilderFirstLists(t: Table, order: seq<TaskId>, id: TaskId, milder: set<TaskId>)
    requires ListsPending(order, t) && id in PendingIds(t) && id !in milder
    requires NoDup(Filter(order, |order|, milder))
    requires forall x :: x in Filter(order, |order|, milder) <==> x in order && x in milder
    ensures ListsPending(MilderFirst(order, id, milder), t)
  {
    var first, rest := Filter(order, |order|, milder), Rest(order, |order|, milder + {id});
    RestKeeps(order, |order|, milder + {id});
    assert order[..|order|] == order;
    var order' := MilderFirst(order, id, milder);
    forall i, j | 0 <= i < j < |order'| ensures order'[i] != order'[j] {
      Disjointly(first, id, rest, i, j);
    }
    assert forall x :: x in order' <==> x in first || x == id || x in rest;
  }

  /** After the milder rows, exactly those carry their canonical labels. */
  lemma MilderFirstPass(t: Table, c: Table, order: seq<TaskId>, id: TaskId, r: nat)
    requires ListsPending(order, t) && DependencyOrdered(order, |order|, t) && Canonical(t, c)
    requires id in PendingIds(t) && r == Rank(StateIn(c, id)) && r >= 2
    ensures c.Keys == t.Keys
    ensures var milder := Milder(t, c, r);
            var order', k := MilderFirst(order, id, milder), |Filter(order, |order|, milder)|;
            && k < |order'| && ListsPending(order', t) && order'[k] == id && id !in milder
            && (forall x :: x in t ==> Pass(t, order', k)[x] == if x in milder then c[x] else t[x])
  {
    hide StateIn, MilderThan, Canonical, Pass, Rest;
    assert c.Keys == t.Keys by { CanonicalKeys(t, c); }
    var milder := Milder(t, c, r);
    MilderClosed(t, c, r);
    MilderIsRank(c, id, r);
    FilterKeeps(order, |order|, milder, t);
    assert order[..|order|] == order;
    MilderFirstLists(t, order, id, milder);
    var first, order' := Filter(order, |order|, milder), MilderFirst(order, id, milder);
    var k := |first|;
    assert order'[..k] == first;
    SamePrefixOrdered(t, first, order', k);
    MilderPrefix(t, c, order', k, milder);
  }

  lemma SamePrefixOrdered(t: Table, first: seq<TaskId>, order: seq<TaskId>, k: nat)
    requires k == |first| <= |order| && order[..k] == first && NoDup(order) && DependencyOrdered(first, k, t)
    ensures DependencyOrdered(order, k, t)
  {
    assert forall i :: 0 <= i < k ==> order[i] == first[i];
    forall i, d | 0 <= i < k && d in t[order[i]].deps && d in PendingIds(t)
      ensures exists j :: 0 <= j < i && order[j] == d
    {
      var j :| 0 <= j < i && first[j] == d;
      assert order[j] == d;
    }
  }

  lemma Disjointly(first: seq<TaskId>, id: TaskId, rest: seq<TaskId>, i: nat, j: nat)
    requires NoDup(first) && NoDup(rest) && id !in first && id !in rest
    requires forall x :: x in first ==> x !in rest
    requires i < j < |first + [id] + rest|
    ensures (first + [id] + rest)[i] != (first + [id] + rest)[j]
  {
    var s, k := first + [id] + rest, |first|;
    assert i < k ==> s[i] == first[i] && s[i] in first;
    assert i > k ==> s[i] == rest[i - k - 1] && s[i] in rest;
    assert j < k ==> s[j] == first[j];
    assert j > k ==> s[j] == rest[j - k - 1] && s[j] in rest;
  }

  function Rest(order: seq<TaskId>, n: nat, drop: set<TaskId>): seq<TaskId>
    requires n <= |order|
  {
    if n == 0 then [] else Rest(order, n - 1, drop) + (if order[n - 1] in drop then [] else [order[n - 1]])
  }

  lemma {:induction false} RestKeeps(order: seq<TaskId>, n: nat, drop: set<TaskId>)
    requires n <= |order| && NoDup(order)
    ensures NoDup(Rest(order, n, drop))
    ensures forall x :: x in Rest(order, n, drop) <==> x in order[..n] && x !in drop
  {
    if n > 0 {
      RestKeeps(order, n - 1, drop);
      assert order[..n] == order[..n - 1] + [order[n - 1]];
    }
  }

  /** Visiting the milder rows in dependency order gives them their canonical labels. */
  lemma MilderPrefix(t: Table, c: Table, order: seq<TaskId>, k: nat, milder: set<TaskId>)
    requires k <= |order| && DependencyOrdered(order, k, t) && Canonical(t, c) && forall x :: x in order ==> x in t
    requires forall x :: x in order[..k] <==> x in milder
    ensures c.Keys == t.Keys
    ensures forall x :: x in t ==> Pass(t, order, k)[x] == if x in milder then c[x] else t[x]
  {
    hide StateIn, Pass, Canonical;
    CanonicalKeys(t, c);
    PassCanonical(t, order, k);
    MilderAgree(t, c, Pass(t, order, k), order, k);
    forall x | x in milder ensures x in c && Pass(t, order, k)[x] == c[x] {
      assert x in order[..k];
      var i :| 0 <= i < k && order[..k][i] == x;
      assert order[i] == x;
    }
  }

  lemma {:induction false} MilderAgree(t: Table, c: Table, now: Table, order: seq<TaskId>, n: nat)
    requires n <= |order| && DependencyOrdered(order, n, t) && Canonical(t, c) && now.Keys == t.Keys
    requires forall i :: 0 <= i < n ==> now[order[i]] == Settle(t[order[i]], StateIn(now, order[i]))
    requires forall d :: d in t && d !in PendingIds(t) ==> now[d] == t[d]
    ensures forall i :: 0 <= i < n ==> now[order[i]] == c[order[i]]
  {
    if n > 0 {
      MilderAgree(t, c, now, order, n - 1);
      var id := order[n - 1];
      SettleKeepsDeps(t, c, id);
      assert now[id].deps == t[id].deps;
      forall d | d in t[id].deps && d in t ensures now[d].status == c[d].status {
        if d in PendingIds(t) {
          var j :| 0 <= j < n - 1 && order[j] == d;
        }
      }
      StateDependsOnDeps(t[id].deps, StatusesOf(now), StatusesOf(c));
    }
  }

  /** Once row `order[k]` is marked otherwise than in `c`, the sweep ends otherwise. */
  lemma LabelStays(t: Table, order: seq<TaskId>, k: nat, c: Table)
    requires ListsPending(order, t) && k < |order| && Canonical(t, c)
    requires var now := Pass(t, order, k);
             && now[order[k]] == t[order[k]]
             && 2 <= Rank(StateIn(now, order[k])) < Rank(StateIn(c, order[k]))
    ensures Sweep(t, order) != c
  {
    hide StateIn, Settle, Pass, Sweep;
    var id, now := order[k], Pass(t, order, k);
    FirstMarkStays(t, order, k, StateIn(now, id));
    CanonicalMarked(t, c, id);
    MarksDiffer(t[id], StateIn(now, id), StateIn(c, id));
  }

  lemma CanonicalMarked(t: Table, c: Table, id: TaskId)
    requires Canonical(t, c) && id in PendingIds(t) && Rank(StateIn(c, id)) >= 2
    ensures c[id] == Mark(t[id], StateIn(c, id))
  {
    hide StateIn;
  }

  lemma MarksDiffer(task: Task, a: DependencyState, b: DependencyState)
    requires 2 <= Rank(a) < Rank(b)
    ensures Mark(task, a) != Mark(task, b)
  {
  }

  lemma {:induction false} PassFrom(t: Table, order: seq<TaskId>, k: nat, n: nat)
    requires k <= n <= |order| && forall x :: x in order ==> x in t
    ensures Marked(Pass(t, order, k), Pass(t, order, n))
  {
    hide Marked, Visit;
    if k < n {
      PassFrom(t, order, k, n - 1);
      VisitMarks(Pass(t, order, n - 1), order[n - 1]);
      MarkedTrans(Pass(t, order, k), Pass(t, order, n - 1), Pass(t, order, n));
    } else {
      MarkedRefl(Pass(t, order, k));
    }
  }

  /** The labels are the same for every order of the pending rows exactly when the causes of each doomed
      row are unanimous, or the gravest of them was visible from the start. */
  lemma SameLabelsWhenUnanimous(t: Table, order: seq<TaskId>)
    requires ListsPending(order, t) && DependencyOrdered(order, |order|, t)
    ensures (forall order' :: ListsPending(order', t) ==> Sweep(t, order') == Sweep(t, order))
       <==> Unanimous(t, Sweep(t, order))
  {
    hide Sweep, DependencyOrdered, Unanimous;
    if Unanimous(t, Sweep(t, order)) {
      forall order' | ListsPending(order', t) ensures Sweep(t, order') == Sweep(t, order) {
        UnanimousSuffices(t, order, order');
      }
    } else {
      UnanimousNecessary(t, order);
    }
  }

  // ----- and an example where they do -----

  function Example(): Table {
    map["x" := Task("j", Cancelled, None, None, [], true, None),
        "f" := Task("j", Failed, None, None, [], true, None),
        "p" := Task("j", Pending, None, None, ["f"], true, None),
        "q" := Task("j", Pending, None, None, ["x", "p"], true, None)]
  }

  /** `q` depends on something cancelled and on `p`, which is about to fail: it fails if `p` is looked at
      first and is cancelled if it is looked at first itself. */
  lemma LabelsCanDiffer()
    ensures ListsPending(["p", "q"], Example()) && ListsPending(["q", "p"], Example())
    ensures Sweep(Example(), ["p", "q"])["q"].status == Failed
    ensures Sweep(Example(), ["q", "p"])["q"].status == Cancelled
  {
    hide Sweep, StateIn, Pass;
    FailureSeenFirst();
    CancellationSeenFirst();
    FirstMarkStays(Example(), ["p", "q"], 1, UpstreamFailed);
    FirstMarkStays(Example(), ["q", "p"], 0, UpstreamCancelled);
  }

  lemma FailedEdge(t: Table, id: TaskId, d: TaskId)
    requires id in t && d in t[id].deps && d in t && t[d].status == Failed
    ensures StateIn(t, id) == UpstreamFailed
  {
    assert StatusesOf(t)[d] == Failed;
  }

  lemma FailureSeenFirst()
    ensures Pass(Example(), ["p", "q"], 1)["q"] == Example()["q"]
    ensures StateIn(Pass(Example(), ["p", "q"], 1), "q") == UpstreamFailed
  {
    hide StateIn, Pass;
    var t, order := Example(), ["p", "q"];
    var t1 := Pass(t, order, 1);
    PassStep(t, order, 0);
    assert Pass(t, order, 0) == t by { PassNothing(t, order); }
    assert "f" in t["p"].deps;
    FailedEdge(t, "p", "f");
    assert t1 == t["p" := Mark(t["p"], UpstreamFailed)];
    assert t1["q"].deps == ["x", "p"] && "p" in t1["q"].deps;
    FailedEdge(t1, "q", "p");
  }

  lemma PassNothing(t: Table, order: seq<TaskId>)
    requires forall id :: id in order ==> id in t
    ensures Pass(t, order, 0) == t
  {
  }

  lemma CancellationSeenFirst()
    ensures Pass(Example(), ["q", "p"], 0)["q"] == Example()["q"]
    ensures StateIn(Pass(Example(), ["q", "p"], 0), "q") == UpstreamCancelled
  {
    var t := Example();
    PassNothing(t, ["q", "p"]);
    assert t["q"].deps == ["x", "p"] && "x" in t["q"].deps;
    assert StatusesOf(t)["x"] == Cancelled && StatusesOf(t)["p"] == Pending;
  }

  /** The state in which a pending row is first visited with doomed dependencies decides its label. */
  lemma FirstMarkStays(t: Table, order: seq<TaskId>, k: nat, state: DependencyState)
    requires k < |order| && (forall id :: id in order ==> id in t)
    requires Pass(t, order, k)[order[k]] == t[order[k]] && t[order[k]].status == Pending
    requires StateIn(Pass(t, order, k), order[k]) == state && Terminal(state)
    ensures Sweep(t, order)[order[k]] == Mark(t[order[k]], state)
  {
    hide StateIn, Marked, Pass;
    var id := order[k];
    PassStep(t, order, k);
    assert Pass(t, order, k + 1)[id] == Mark(t[id], state);
    PassFrom(t, order, k + 1, |order|);
    StaysMarked(Pass(t, order, k + 1), Pass(t, order, |order|), id);
    PassProgress(t, order, |order|);
    if Pass(t, order, |order|) != t {
      SweepMarks(Pass(t, order, |order|), order);
      StaysMarked(Pass(t, order, |order|), Sweep(Pass(t, order, |order|), order), id);
    }
  }
}
