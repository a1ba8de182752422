/** The labels of a sweep told from the table alone: a doomed row gets the gravest cause it can reach, and whether
    the order of the rows matters is a question about those causes. */
module RootCauses {
  import opened Prelude
  import opened Readiness
  import opened Tasks
  import opened Propagation
  import opened PropagationLabels

  /** Pending rows, each depending on the next. */
  ghost predicate Path(t: Table, p: seq<TaskId>) {
    && p != []
    && (forall i :: 0 <= i < |p| ==> p[i] in PendingIds(t))
    && (forall i :: 0 <= i < |p| - 1 ==> p[i + 1] in t[p[i]].deps)
  }

  /** The path ends at a row that depends on something at least as grave as `r`. */
  ghost predicate EndsAt(t: Table, p: seq<TaskId>, r: nat)
    requires Path(t, p)
  {
    exists d :: d in t[p[|p| - 1]].deps && d !in PendingIds(t) && EdgeIn(t, d) >= r
  }

  /** `id` is pending and reaches, through pending rows, a cause at least as grave as `r`. */
  ghost predicate Exposed(t: Table, id: TaskId, r: nat) {
    exists p :: Path(t, p) && p[0] == id && EndsAt(t, p, r)
  }

  lemma PathCons(t: Table, id: TaskId, p: seq<TaskId>, r: nat)
    requires id in PendingIds(t) && Path(t, p) && p[0] in t[id].deps && EndsAt(t, p, r)
    ensures Path(t, [id] + p) && EndsAt(t, [id] + p, r) && ([id] + p)[0] == id
  {
    var q := [id] + p;
    assert q[|q| - 1] == p[|p| - 1];
    forall i | 0 <= i < |q| - 1 ensures q[i + 1] in t[q[i]].deps {
      if i > 0 {
        assert p[(i - 1) + 1] in t[p[i - 1]].deps;
      }
    }
  }

  lemma PathTail(t: Table, p: seq<TaskId>, r: nat)
    requires Path(t, p) && EndsAt(t, p, r) && |p| > 1
    ensures Path(t, p[1..]) && EndsAt(t, p[1..], r) && p[1..][0] in t[p[0]].deps
  {
    var q := p[1..];
    assert q[|q| - 1] == p[|p| - 1];
    forall i | 0 <= i < |q| - 1 ensures q[i + 1] in t[q[i]].deps {
      assert p[(i + 1) + 1] in t[p[i + 1]].deps;
    }
    assert p[0 + 1] in t[p[0]].deps;
  }

  // ----- the canonical label is the gravest cause -----

  /** In a canonically labelled table a row that was pending is, to its dependents, what its own state says. */
  lemma LabelledEdge(t: Table, c: Table, id: TaskId)
    requires Canonical(t, c) && id in PendingIds(t)
    ensures id in c
    ensures if Rank(StateIn(c, id)) >= 2 then EdgeIn(c, id) == Rank(StateIn(c, id)) else EdgeIn(c, id) < 2
  {
    hide StateIn;
    if Rank(StateIn(c, id)) >= 2 {
      CanonicalMarked(t, c, id);
      MarkedEdge(c, id, t[id], StateIn(c, id));
    } else {
      CanonicalUnmarked(t, c, id);
    }
  }

  lemma CanonicalUnmarked(t: Table, c: Table, id: TaskId)
    requires Canonical(t, c) && id in PendingIds(t) && Rank(StateIn(c, id)) < 2
    ensures EdgeIn(c, id) < 2
  {
    hide StateIn;
    assert c[id] == t[id];
  }

  lemma {:induction false} ExposedIsLabelled(t: Table, c: Table, p: seq<TaskId>, r: nat)
    requires Canonical(t, c) && Path(t, p) && EndsAt(t, p, r) && r >= 2
    ensures p[0] in c && Rank(StateIn(c, p[0])) >= r
  {
    hide StateIn, EdgeIn, Rank;
    var id := p[0];
    SettleKeepsDeps(t, c, id);
    EdgesOf(c, id);
    if |p| == 1 {
      var d :| d in t[id].deps && d !in PendingIds(t) && EdgeIn(t, d) >= r;
      SettledEdge(t, t, c, d);
    } else {
      PathTail(t, p, r);
      ExposedIsLabelled(t, c, p[1..], r);
      LabelledEdge(t, c, p[1..][0]);
    }
  }

  lemma {:induction false} LabelledIsExposed(t: Table, c: Table, order: seq<TaskId>, i: nat, r: nat)
    requires DependencyOrdered(order, |order|, t) && Canonical(t, c) && i < |order| && r >= 2
    requires Rank(StateIn(c, order[i])) >= r
    ensures Exposed(t, order[i], r)
  {
    hide StateIn, EdgeIn, Rank;
    var id := order[i];
    SettleKeepsDeps(t, c, id);
    EdgesOf(c, id);
    var d :| d in t[id].deps && EdgeIn(c, d) >= r;
    if d in PendingIds(t) {
      var j :| 0 <= j < i && order[j] == d;
      LabelledEdge(t, c, d);
      LabelledIsExposed(t, c, order, j, r);
      var p :| Path(t, p) && p[0] == d && EndsAt(t, p, r);
      PathCons(t, id, p, r);
    } else {
      SettledEdge(t, t, c, d);
      assert Path(t, [id]) && EndsAt(t, [id], r);
    }
  }

  /** In dependency order the sweep labels a pending row at least as gravely as `r` exactly when it reaches a cause
      that is: its label is the gravest cause it reaches, and it stays pending if it reaches none. */
  lemma LabelIsGravestCause(t: Table, order: seq<TaskId>, id: TaskId, r: nat)
    requires ListsPending(order, t) && DependencyOrdered(order, |order|, t) && id in PendingIds(t) && r >= 2
    ensures var c := Sweep(t, order);
            && Rank(StateIn(c, id)) >= r <==> Exposed(t, id, r)
    ensures Sweep(t, order)[id] == Settle(t[id], StateIn(Sweep(t, order), id))
  {
    hide Sweep, StateIn, Rank, DependencyOrdered;
    SweepCanonical(t, order);
    CanonicalIsExposed(t, Sweep(t, order), order, id, r);
  }

  /** In the statuses themselves: failed if a missing or failed row is reached, otherwise dirtily cancelled if such a row
      is, otherwise cancelled if such a row is, and otherwise left pending. */
  lemma LabelExact(t: Table, order: seq<TaskId>, id: TaskId)
    requires ListsPending(order, t) && DependencyOrdered(order, |order|, t) && id in PendingIds(t)
    ensures Sweep(t, order)[id] ==
            if Exposed(t, id, 4) then t[id].(status := Failed, error := Some(DependencyFailed))
            else if Exposed(t, id, 3) then t[id].(status := CancelledDirty, error := Some(DependencyCancelled))
            else if Exposed(t, id, 2) then t[id].(status := Cancelled, error := Some(DependencyCancelled))
            else t[id]
  {
    LabelIsGravestCause(t, order, id, 2);
    LabelIsGravestCause(t, order, id, 3);
    LabelIsGravestCause(t, order, id, 4);
    hide Sweep, Exposed, DependencyOrdered, StateIn;
  }

  /** How grave a row is to those that depend on it. */
  lemma GravityExact(t: Table, d: TaskId)
    ensures EdgeIn(t, d) >= 4 <==> d !in t || t[d].status == Failed
    ensures EdgeIn(t, d) >= 3 <==> d !in t || t[d].status == Failed || t[d].status == CancelledDirty
    ensures EdgeIn(t, d) >= 2 <==>
              d !in t || t[d].status == Failed || t[d].status == CancelledDirty || t[d].status == Cancelled
  {
  }

  lemma CanonicalIsExposed(t: Table, c: Table, order: seq<TaskId>, id: TaskId, r: nat)
    requires ListsPending(order, t) && DependencyOrdered(order, |order|, t) && Canonical(t, c)
    requires id in PendingIds(t) && r >= 2
    ensures id in c && (Rank(StateIn(c, id)) >= r <==> Exposed(t, id, r))
  {
    hide StateIn, Rank, DependencyOrdered, Canonical, EndsAt;
    assert c.Keys == t.Keys by { CanonicalKeys(t, c); }
    assert id in order;
    var i :| 0 <= i < |order| && order[i] == id;
    if Rank(StateIn(c, id)) >= r {
      LabelledIsExposed(t, c, order, i, r);
    }
    if Exposed(t, id, r) {
      var p :| Path(t, p) && p[0] == id && EndsAt(t, p, r);
      ExposedIsLabelled(t, c, p, r);
    }
  }

  // ----- when the order of the rows does not matter -----

  /** What a row will find when it looks at `d` last: a cause at least as grave as `r`. */
  ghost predicate Doomed(t: Table, d: TaskId, r: nat) {
    if d in PendingIds(t) then Exposed(t, d, r) else EdgeIn(t, d) >= r
  }

  /** However grave a cause a pending row reaches, either one as grave lies right before it on a row that is not
      pending, or all its doomed dependencies lead to one as grave. */
  ghost predicate CausesAgree(t: Table) {
    forall id, r: nat :: r >= 2 && id in PendingIds(t) && Exposed(t, id, r) ==> AgreeOn(t, id, r)
  }

  ghost predicate AgreeOn(t: Table, id: TaskId, r: nat)
    requires id in t
  {
    || (exists d :: d in t[id].deps && d !in PendingIds(t) && EdgeIn(t, d) >= r)
    || (forall d :: d in t[id].deps && Doomed(t, d, 2) ==> Doomed(t, d, r))
  }

  lemma DoomedIsEdge(t: Table, c: Table, order: seq<TaskId>, d: TaskId, r: nat)
    requires ListsPending(order, t) && DependencyOrdered(order, |order|, t) && Canonical(t, c) && r >= 2
    ensures Doomed(t, d, r) <==> EdgeIn(c, d) >= r
  {
    hide StateIn, Rank, DependencyOrdered, EdgeIn, Exposed;
    if d in PendingIds(t) {
      CanonicalIsExposed(t, c, order, d, r);
      LabelledEdge(t, c, d);
    } else {
      CanonicalKeys(t, c);
      SettledEdge(t, t, c, d);
    }
  }

  lemma DoomedEverywhere(t: Table, c: Table, order: seq<TaskId>)
    requires ListsPending(order, t) && DependencyOrdered(order, |order|, t) && Canonical(t, c)
    ensures forall d, r: nat :: r >= 2 ==> (Doomed(t, d, r) <==> EdgeIn(c, d) >= r)
    ensures forall d :: d !in PendingIds(t) ==> EdgeIn(c, d) == EdgeIn(t, d)
  {
    hide Doomed, EdgeIn, DependencyOrdered, ListsPending;
    forall d, r: nat | r >= 2 ensures Doomed(t, d, r) <==> EdgeIn(c, d) >= r {
      DoomedIsEdge(t, c, order, d, r);
    }
    CanonicalKeys(t, c);
    forall d | d !in PendingIds(t) ensures EdgeIn(c, d) == EdgeIn(t, d) {
      SettledEdge(t, t, c, d);
    }
  }

  lemma UnanimousRow(t: Table, c: Table, order: seq<TaskId>, id: TaskId)
    requires ListsPending(order, t) && DependencyOrdered(order, |order|, t) && Canonical(t, c)
    requires id in PendingIds(t)
    ensures c.Keys == t.Keys
    ensures UnanimousAt(t, c, id) <==> forall r: nat :: r >= 2 && Exposed(t, id, r) ==> AgreeOn(t, id, r)
  {
    hide StateIn, Rank, DependencyOrdered, ListsPending, Canonical, EdgeIn, Exposed, Doomed;
    CanonicalKeys(t, c);
    EdgesOf(c, id);
    SettleKeepsDeps(t, c, id);
    DoomedEverywhere(t, c, order);
    var worst := Rank(StateIn(c, id));
    forall r: nat | r >= 2 ensures Exposed(t, id, r) <==> worst >= r {
      CanonicalIsExposed(t, c, order, id, r);
    }
    if UnanimousAt(t, c, id) {
      forall r: nat | r >= 2 && Exposed(t, id, r) ensures AgreeOn(t, id, r) {
        assert Terminal(StateIn(c, id));
      }
    } else {
      assert Exposed(t, id, worst);
      assert !AgreeOn(t, id, worst);
    }
  }

  /** The condition on the labelled table says this about the table itself. */
  lemma UnanimousOnInput(t: Table, c: Table, order: seq<TaskId>)
    requires ListsPending(order, t) && DependencyOrdered(order, |order|, t) && Canonical(t, c)
    ensures c.Keys == t.Keys && (Unanimous(t, c) <==> CausesAgree(t))
  {
    hide StateIn, Rank, DependencyOrdered, ListsPending, Canonical, EdgeIn, Exposed, Doomed, UnanimousAt, AgreeOn;
    CanonicalKeys(t, c);
    forall id | id in PendingIds(t)
      ensures UnanimousAt(t, c, id) <==> forall r: nat :: r >= 2 && Exposed(t, id, r) ==> AgreeOn(t, id, r)
    {
      UnanimousRow(t, c, order, id);
    }
  }

  /** In an acyclic table the labels are the same for every order of the pending rows exactly when the causes that
      the rows reach agree in this sense. */
  lemma LabelsOrderIndependent(t: Table, order: seq<TaskId>)
    requires ListsPending(order, t) && DependencyOrdered(order, |order|, t)
    ensures (forall order' :: ListsPending(order', t) ==> Sweep(t, order') == Sweep(t, order)) <==> CausesAgree(t)
  {
    hide Sweep, DependencyOrdered, Canonical, Unanimous, CausesAgree;
    SweepCanonical(t, order);
    UnanimousOnInput(t, Sweep(t, order), order);
    SameLabelsWhenUnanimous(t, order);
  }
}
