/** Keyset pagination over a table with distinct string keys, and what following the tokens yields. */
module Pagination {
  import opened Prelude

  type Key = string

  // ----- the order of keys -----

  /** `a` comes before `b` in the requested direction. */
  predicate Before(a: Key, b: Key, descending: bool) {
    if descending then Less(b, a) else Less(a, b)
  }

  /** The filtered rows in the order the query returns them. */
  ghost predicate Ordered(rows: seq<Key>, descending: bool) {
    forall i, j :: 0 <= i < j < |rows| ==> Before(rows[i], rows[j], descending)
  }

  // ----- one page -----

  datatype Page = Page(rows: seq<Key>, next: Option<Key>)

  /** The rows behind the token; an empty token counts as none. */
  function Rest(rows: seq<Key>, token: Option<Key>, descending: bool): seq<Key> {
    if token.None? || token.value == "" then rows
    else if rows == [] then []
    else (if Before(token.value, rows[0], descending) then [rows[0]] else []) + Rest(rows[1..], token, descending)
  }

  function Take(rows: seq<Key>, n: nat): seq<Key> { if n <= |rows| then rows[..n] else rows }

  /** A page of a list already filtered and ordered. */
  function Slice(rows: seq<Key>, size: nat): Page
    requires size >= 1
  {
    if |rows| > size then Page(rows[..size], Some(rows[size - 1])) else Page(rows, None)
  }

  /** One page fetches one row too many to learn whether there is a next one. */
  method PaginateSequence(rows: seq<Key>, size: nat) returns (page: seq<Key>, next: Option<Key>)
    requires size >= 1
    ensures Page(page, next) == Slice(rows, size)
  {
    page := Take(rows, size + 1);
    next := None;
    if |page| > size {
      next := Some(page[size - 1]);
      page := page[..size];
      assert page == rows[..size];
    }
  }

  method PaginateKeyset(rows: seq<Key>, size: nat, token: Option<Key>, descending: bool)
    returns (page: seq<Key>, next: Option<Key>)
    requires size >= 1
    ensures Page(page, next) == Slice(Rest(rows, token, descending), size)
  {
    var found := if token.None? || token.value == "" then rows else Rest(rows, token, descending);
    page := Take(found, size + 1);
    next := None;
    if |page| > size {
      next := Some(page[size - 1]);
      page := page[..size];
      assert page == found[..size];
    }
  }

  // ----- following the tokens over tables that may change -----

  /** Where the client is: before the first page, holding a token, or past the last page. */
  datatype Cursor = Start | At(token: Key) | Done

  function TokenOf(c: Cursor): Option<Key> { if c.At? then Some(c.token) else None }

  function After(page: Page): Cursor { if page.next.Some? then At(page.next.value) else Done }

  /** The rows received and the cursor after reading page `k` from `tables[k]`, for all of them. */
  function Walk(tables: seq<seq<Key>>, size: nat, descending: bool): (r: (seq<Key>, Cursor))
    requires size >= 1
    ensures tables == [] ==> r == ([], Start)
    ensures r.1.Start? ==> tables == []
  {
    if tables == [] then ([], Start)
    else
      var (rows, c) := Walk(tables[..|tables| - 1], size, descending);
      if c.Done? then (rows, c)
      else
        var page := Slice(Rest(tables[|tables| - 1], TokenOf(c), descending), size);
        (rows + page.rows, After(page))
  }

  lemma {:induction false} RestChar(rows: seq<Key>, token: Key, descending: bool)
    requires token != "" && Ordered(rows, descending)
    ensures var rest := Rest(rows, Some(token), descending);
            && Ordered(rest, descending)
            && (forall x :: x in rest <==> x in rows && Before(token, x, descending))
  {
    if rows != [] {
      var tail := rows[1..];
      forall i, j | 0 <= i < j < |tail| ensures Before(tail[i], tail[j], descending) {
        assert Before(rows[i + 1], rows[j + 1], descending);
      }
      RestChar(tail, token, descending);
      assert rows == [rows[0]] + tail;
      var rest, more := Rest(rows, Some(token), descending), Rest(tail, Some(token), descending);
      forall i, j | 0 <= i < j < |rest| ensures Before(rest[i], rest[j], descending) {
        HeadFirst(rows, more, rest, i, j, descending);
      }
    }
  }

  lemma HeadFirst(rows: seq<Key>, more: seq<Key>, rest: seq<Key>, i: nat, j: nat, descending: bool)
    requires rows != [] && Ordered(rows, descending) && Ordered(more, descending) && i < j < |rest|
    requires rest == more || rest == [rows[0]] + more
    requires forall x :: x in more ==> x in rows[1..]
    ensures Before(rest[i], rest[j], descending)
  {
    if rest != more {
      assert rest[j] == more[j - 1];
      if i == 0 {
        assert more[j - 1] in rows[1..];
        var k :| 0 <= k < |rows[1..]| && rows[1..][k] == more[j - 1];
        assert rows[k + 1] == rest[j];
      } else {
        assert rest[i] == more[i - 1];
      }
    }
  }

  /** The one kind of table on which the token of the first page loses its place: reading upwards one row at a
      time from a row whose key is empty, for that key as a token reads as no token. */
  predicate Restarts(t: seq<Key>, size: nat, descending: bool) {
    !descending && size == 1 && |t| >= 2 && t[0] == ""
  }

  lemma EmptyIsLeast(a: Key)
    ensures !Less(a, "")
  {
  }

  /** Only the first row upwards or the last one downwards can have the empty key. */
  lemma EmptyKeyPlace(t: seq<Key>, k: nat, descending: bool)
    requires Ordered(t, descending) && k < |t| && t[k] == ""
    ensures if descending then k == |t| - 1 else k == 0
  {
    EmptyIsLeast(t[0]);
    EmptyIsLeast(t[|t| - 1]);
  }

  /** So a page that is not the last never ends at the empty key. */
  lemma PageEndNotEmpty(t: seq<Key>, rest: seq<Key>, c: Cursor, size: nat, descending: bool)
    requires size >= 1 && |rest| > size && Ordered(rest, descending)
    requires c.Start? ==> rest == t && !Restarts(t, size, descending)
    requires c.At? ==> forall x :: x in rest ==> Before(c.token, x, descending)
    requires !c.Done?
    ensures rest[size - 1] != ""
  {
    if rest[size - 1] == "" {
      EmptyKeyPlace(rest, size - 1, descending);
      assert rest[0] in rest;
      if c.At? { EmptyIsLeast(c.token); }
    }
  }

  /** What is received so far is in order, lies up to the cursor, and misses nothing before it that was there
      all along. */
  ghost predicate Progress(tables: seq<seq<Key>>, rows: seq<Key>, c: Cursor, descending: bool) {
    && Ordered(rows, descending)
    && (c.Start? ==> rows == [])
    && (c.At? ==> rows != [] && rows[|rows| - 1] == c.token && c.token != "")
    && (forall x :: InAll(tables, x) && (c.Done? || (c.At? && !Before(c.token, x, descending))) ==> x in rows)
  }

  ghost predicate InAll(tables: seq<seq<Key>>, x: Key) {
    forall k :: 0 <= k < |tables| ==> x in tables[k]
  }

  ghost predicate InSome(tables: seq<seq<Key>>, x: Key) {
    exists k :: 0 <= k < |tables| && x in tables[k]
  }

  ghost predicate AllOrdered(tables: seq<seq<Key>>, descending: bool) {
    forall k :: 0 <= k < |tables| ==> Ordered(tables[k], descending)
  }

  lemma BeforeFacts(a: Key, b: Key, c: Key, descending: bool)
    ensures Before(a, b, descending) && Before(b, c, descending) ==> Before(a, c, descending)
    ensures Before(a, b, descending) || Before(b, a, descending) || a == b
    ensures !(Before(a, b, descending) && Before(b, a, descending)) && !Before(a, a, descending)
  {
    LessTotal(a, b);
    LessTotal(a, a);
    if Less(a, b) && Less(b, c) { LessTrans(a, b, c); }
    if Less(c, b) && Less(b, a) { LessTrans(c, b, a); }
  }

  lemma {:induction false} WalkProgress(tables: seq<seq<Key>>, size: nat, descending: bool)
    requires size >= 1 && AllOrdered(tables, descending) && (tables != [] ==> !Restarts(tables[0], size, descending))
    ensures var (rows, c) := Walk(tables, size, descending); Progress(tables, rows, c, descending)
    decreases |tables|
  {
    hide Progress, Ordered, Restarts, Rest;
    if tables == [] {
      NothingRead(descending);
    } else {
      var before, t := tables[..|tables| - 1], tables[|tables| - 1];
      forall k | 0 <= k < |before| ensures Ordered(before[k], descending) { assert before[k] == tables[k]; }
      assert Ordered(t, descending) && (before != [] ==> before[0] == tables[0]);
      WalkProgress(before, size, descending);
      var (rows, c) := Walk(before, size, descending);
      PageProgress(before, t, rows, c, size, descending);
      assert tables == before + [t];
    }
  }

  lemma NothingRead(descending: bool)
    ensures Progress([], [], Start, descending)
  {
  }

  lemma InAllSnoc(tables: seq<seq<Key>>, t: seq<Key>, x: Key)
    ensures InAll(tables + [t], x) <==> InAll(tables, x) && x in t
  {
    var all := tables + [t];
    if InAll(all, x) {
      assert all[|tables|] == t;
      forall k | 0 <= k < |tables| ensures x in tables[k] { assert all[k] == tables[k]; }
    }
  }

  lemma PageProgress(tables: seq<seq<Key>>, t: seq<Key>, rows: seq<Key>, c: Cursor, size: nat, descending: bool)
    requires size >= 1 && Ordered(t, descending) && Progress(tables, rows, c, descending)
    requires c.Start? ==> !Restarts(t, size, descending)
    ensures c.Done? ==> Progress(tables + [t], rows, c, descending)
    ensures !c.Done? ==> var page := Slice(Rest(t, TokenOf(c), descending), size);
                         Progress(tables + [t], rows + page.rows, After(page), descending)
  {
    hide Rest, Less, Ordered;
    if c.Done? {
      DoneProgress(tables, t, rows, descending);
    } else {
      var rest := Rest(t, TokenOf(c), descending);
      RestOf(t, c, rest, descending);
      var page := Slice(rest, size);
      hide Restarts;
      OrderedAppend(rows, page.rows, c, rest, size, descending);
      PageCovers(tables, t, rows, c, rest, size, descending);
      if page.next.Some? {
        PageEndNotEmpty(t, rest, c, size, descending);
        assert (rows + page.rows)[|rows + page.rows| - 1] == page.next.value;
      }
    }
  }

  lemma DoneProgress(tables: seq<seq<Key>>, t: seq<Key>, rows: seq<Key>, descending: bool)
    requires Progress(tables, rows, Done, descending)
    ensures Progress(tables + [t], rows, Done, descending)
  {
    hide Ordered;
    forall x | InAll(tables + [t], x) ensures x in rows {
      InAllSnoc(tables, t, x);
    }
  }

  lemma PageCovers(tables: seq<seq<Key>>, t: seq<Key>, rows: seq<Key>, c: Cursor, rest: seq<Key>, size: nat,
                   descending: bool)
    requires size >= 1 && !c.Done? && Ordered(rest, descending) && Progress(tables, rows, c, descending)
    requires forall x :: x in rest <==> x in t && (c.At? ==> Before(c.token, x, descending))
    ensures var page := Slice(rest, size);
            forall x :: InAll(tables + [t], x) && (page.next.None? || !Before(page.next.value, x, descending))
                        ==> x in rows + page.rows
  {
    hide Less;
    var page := Slice(rest, size);
    forall x | InAll(tables + [t], x) && (page.next.None? || !Before(page.next.value, x, descending))
      ensures x in rows + page.rows
    {
      InAllSnoc(tables, t, x);
      Received(tables, t, rows, c, rest, size, x, descending);
    }
  }

  lemma RestOf(t: seq<Key>, c: Cursor, rest: seq<Key>, descending: bool)
    requires Ordered(t, descending) && !c.Done? && (c.At? ==> c.token != "") && rest == Rest(t, TokenOf(c), descending)
    ensures Ordered(rest, descending) && (c.Start? ==> rest == t)
    ensures forall x :: x in rest <==> x in t && (c.At? ==> Before(c.token, x, descending))
  {
    if c.At? {
      RestChar(t, c.token, descending);
    }
  }

  lemma OrderedAppend(rows: seq<Key>, page: seq<Key>, c: Cursor, rest: seq<Key>, size: nat, descending: bool)
    requires Ordered(rows, descending) && Ordered(rest, descending) && (page == rest || (size <= |rest| && page == rest[..size]))
    requires c.Start? ==> rows == []
    requires c.At? ==> rows != [] && rows[|rows| - 1] == c.token && forall x :: x in rest ==> Before(c.token, x, descending)
    requires !c.Done?
    ensures Ordered(rows + page, descending)
  {
    var all := rows + page;
    forall i, j | 0 <= i < j < |all| ensures Before(all[i], all[j], descending) {
      if i < |rows| <= j {
        assert rest[j - |rows|] in rest && all[j] == rest[j - |rows|];
        if i < |rows| - 1 {
          BeforeFacts(rows[i], c.token, all[j], descending);
        }
      }
    }
  }

  lemma Received(tables: seq<seq<Key>>, t: seq<Key>, rows: seq<Key>, c: Cursor, rest: seq<Key>, size: nat, x: Key,
                 descending: bool)
    requires size >= 1 && !c.Done? && Ordered(rest, descending) && InAll(tables, x) && x in t
    requires c.At? && !Before(c.token, x, descending) ==> x in rows
    requires x in rest <==> x in t && (c.At? ==> Before(c.token, x, descending))
    requires var next := Slice(rest, size).next; next.None? || !Before(next.value, x, descending)
    ensures x in rows + Slice(rest, size).rows
  {
    if x in rest {
      var i :| 0 <= i < |rest| && rest[i] == x;
      if |rest| > size {
        assert i < size;
        assert rest[..size][i] == x;
      }
    }
  }

  /** Nothing is received that no table held. */
  lemma {:induction false} WalkHonest(tables: seq<seq<Key>>, size: nat, descending: bool)
    requires size >= 1
    ensures forall x :: x in Walk(tables, size, descending).0 ==> InSome(tables, x)
    decreases |tables|
  {
    if tables != [] {
      var before, t := tables[..|tables| - 1], tables[|tables| - 1];
      WalkHonest(before, size, descending);
      var (rows, c) := Walk(before, size, descending);
      forall x | x in Walk(tables, size, descending).0 ensures InSome(tables, x) {
        if x in rows {
          var k :| 0 <= k < |before| && x in before[k];
          assert x in tables[k];
        } else {
          RestWithin(t, TokenOf(c), descending);
          assert x in tables[|tables| - 1];
        }
      }
    }
  }

  lemma {:induction false} RestWithin(rows: seq<Key>, token: Option<Key>, descending: bool)
    ensures forall x :: x in Rest(rows, token, descending) ==> x in rows
  {
    if rows != [] { RestWithin(rows[1..], token, descending); }
  }

  /** With rows inserted and deleted between pages, nothing is received twice, everything comes in order, and a
      completed walk has received every row that was there throughout; only the first table matters for that. */
  lemma WalkUnderChange(tables: seq<seq<Key>>, size: nat, descending: bool)
    requires size >= 1 && AllOrdered(tables, descending) && (tables != [] ==> !Restarts(tables[0], size, descending))
    ensures var (rows, c) := Walk(tables, size, descending);
            && NoDup(rows) && Ordered(rows, descending) && (forall x :: x in rows ==> InSome(tables, x))
            && (c.Done? ==> forall x :: InAll(tables, x) ==> x in rows)
  {
    WalkProgress(tables, size, descending);
    WalkHonest(tables, size, descending);
    var (rows, c) := Walk(tables, size, descending);
    forall i, j | 0 <= i < j < |rows| ensures rows[i] != rows[j] {
      BeforeFacts(rows[i], rows[j], rows[j], descending);
    }
  }

  /** A walk that begins on `t` receives no row twice, whatever happens to the table between its pages, exactly when
      `t` is not a table on which it restarts. */
  lemma NoRepeatExact(t: seq<Key>, size: nat, descending: bool)
    requires size >= 1 && Ordered(t, descending)
    ensures (forall later :: AllOrdered(later, descending) ==> NoDup(Walk([t] + later, size, descending).0))
       <==> !Restarts(t, size, descending)
  {
    hide Walk, NoDup;
    if Restarts(t, size, descending) {
      RestartRepeats(t, size, descending);
      assert AllOrdered([t], descending);
    } else {
      hide Ordered;
      forall later | AllOrdered(later, descending) ensures NoDup(Walk([t] + later, size, descending).0) {
        WalkUnderChange([t] + later, size, descending);
      }
    }
  }

  /** Two pages of the same table then bring the same row twice. */
  lemma RestartRepeats(t: seq<Key>, size: nat, descending: bool)
    requires size >= 1 && Restarts(t, size, descending)
    ensures Walk([t] + [t], size, descending).0 == ["", ""] && !NoDup(["", ""])
  {
    assert t[..1] == [""] && [""] + [""] == ["", ""] && [] + [""] == [""];
    assert [] + [t] == [t];
    WalkStep([], t, size, descending);
    WalkStep([t], t, size, descending);
    assert ["", ""][0] == ["", ""][1];
  }

  lemma WalkStep(tables: seq<seq<Key>>, t: seq<Key>, size: nat, descending: bool)
    requires size >= 1
    ensures Walk(tables + [t], size, descending) == (
              var (rows, c) := Walk(tables, size, descending);
              if c.Done? then (rows, c)
              else (var page := Slice(Rest(t, TokenOf(c), descending), size); (rows + page.rows, After(page))))
  {
    assert (tables + [t])[..|tables|] == tables;
  }

  /** Such a table. */
  lemma RestartExample()
    ensures Ordered(["", "a"], false) && Restarts(["", "a"], 1, false)
  {
  }

  // ----- over a fixed table -----

  function Copies(t: seq<Key>, n: nat): (r: seq<seq<Key>>)
    ensures |r| == n && forall k :: 0 <= k < n ==> r[k] == t
  {
    seq(n, _ => t)
  }

  function Read(t: seq<Key>, n: nat, size: nat, descending: bool): (seq<Key>, Cursor)
    requires size >= 1
  {
    Walk(Copies(t, n), size, descending)
  }

  lemma ReadStep(t: seq<Key>, n: nat, size: nat, descending: bool)
    requires size >= 1 && n >= 1
    ensures Read(t, n, size, descending) == (
              var (rows, c) := Read(t, n - 1, size, descending);
              if c.Done? then (rows, c)
              else (var page := Slice(Rest(t, TokenOf(c), descending), size); (rows + page.rows, After(page))))
  {
    assert Copies(t, n)[..n - 1] == Copies(t, n - 1);
  }

  /** Behind the token of row `k` lie exactly the rows after it. */
  lemma {:induction false} RestIsSuffix(t: seq<Key>, k: nat, descending: bool)
    requires Ordered(t, descending) && k < |t| && t[k] != ""
    ensures Rest(t, Some(t[k]), descending) == t[k + 1..]
  {
    var tail := t[1..];
    assert Ordered(tail, descending) by {
      forall i, j | 0 <= i < j < |tail| ensures Before(tail[i], tail[j], descending) {
        assert Before(t[i + 1], t[j + 1], descending);
      }
    }
    if k == 0 {
      BeforeFacts(t[0], t[0], t[0], descending);
      forall i | 0 <= i < |tail| ensures Before(t[0], tail[i], descending) { assert tail[i] == t[i + 1]; }
      RestIsAll(tail, t[0], descending);
    } else {
      BeforeFacts(t[0], t[k], t[k], descending);
      RestIsSuffix(tail, k - 1, descending);
      assert tail[k - 1] == t[k] && tail[k..] == t[k + 1..];
    }
  }

  lemma {:induction false} RestIsAll(t: seq<Key>, token: Key, descending: bool)
    requires forall i :: 0 <= i < |t| ==> Before(token, t[i], descending)
    ensures Rest(t, Some(token), descending) == t
  {
    if t != [] && token != "" {
      RestIsAll(t[1..], token, descending);
      assert t == [t[0]] + t[1..];
    }
  }

  /** After `n` pages the first `n * size` rows are read, and the walk is over when that is all of them. */
  lemma {:induction false} ReadExact(t: seq<Key>, n: nat, size: nat, descending: bool)
    requires size >= 1 && Ordered(t, descending) && !Restarts(t, size, descending)
    ensures n == 0 ==> Read(t, n, size, descending) == ([], Start)
    ensures n > 0 ==> Read(t, n, size, descending) == Prefix(t, n * size)
  {
    hide Rest, Walk, Restarts, Ordered, Prefix;
    if n == 0 {
      assert Read(t, 0, size, descending) == ([], Start);
    } else {
      ReadExact(t, n - 1, size, descending);
      ReadStep(t, n, size, descending);
      hide Read;
      if n == 1 {
        RestFromStart(t, descending);
        FirstPage(t, size);
        assert n * size == size;
      } else {
        AtLeast(n - 1, size);
        var k := (n - 1) * size;
        assert n * size == k + size;
        NextPage(t, k, size, descending);
      }
    }
  }

  /** The first `k` rows read, with the cursor behind them. */
  function Prefix(t: seq<Key>, k: nat): (seq<Key>, Cursor)
    requires k >= 1
  {
    if k < |t| then (t[..k], At(t[k - 1])) else (t, Done)
  }

  lemma FirstPage(t: seq<Key>, size: nat)
    requires size >= 1
    ensures var page := Slice(t, size); ([] + page.rows, After(page)) == Prefix(t, size)
  {
    assert [] + Slice(t, size).rows == Slice(t, size).rows;
  }

  lemma NextPage(t: seq<Key>, k: nat, size: nat, descending: bool)
    requires size >= 1 && k >= size && Ordered(t, descending) && !Restarts(t, size, descending)
    ensures k >= |t| ==> Prefix(t, k) == Prefix(t, k + size) == (t, Done)
    ensures k < |t| ==> var page := Slice(Rest(t, Some(t[k - 1]), descending), size);
                        Prefix(t, k).1 == At(t[k - 1])
                        && (Prefix(t, k).0 + page.rows, After(page)) == Prefix(t, k + size)
  {
    if k < |t| {
      TokenNotEmpty(t, k, size, descending);
      RestIsSuffix(t, k - 1, descending);
      hide Rest, Ordered, Restarts;
      var rest := t[k..];
      if |rest| > size {
        assert t[..k] + rest[..size] == t[..k + size];
        assert rest[size - 1] == t[k + size - 1];
      } else {
        assert t[..k] + rest == t;
      }
    }
  }

  lemma RestFromStart(t: seq<Key>, descending: bool)
    ensures Rest(t, None, descending) == t
  {
  }

  lemma AtLeast(n: nat, size: nat)
    requires n >= 1 && size >= 1
    ensures n * size >= size
  {
  }

  lemma TokenNotEmpty(t: seq<Key>, k: nat, size: nat, descending: bool)
    requires Ordered(t, descending) && !Restarts(t, size, descending) && 1 <= size <= k < |t|
    ensures t[k - 1] != ""
  {
    if t[k - 1] == "" {
      EmptyKeyPlace(t, k - 1, descending);
    }
  }

  /** In that one case every page is the first page again. */
  lemma {:induction false} ReadRestarts(t: seq<Key>, n: nat, size: nat, descending: bool)
    requires size >= 1 && Restarts(t, size, descending)
    ensures n == 0 ==> Read(t, n, size, descending).1 == Start
    ensures n > 0 ==> Read(t, n, size, descending).1 == At("")
  {
    if n > 0 {
      ReadRestarts(t, n - 1, size, descending);
      ReadStep(t, n, size, descending);
    }
  }

  /** Following the tokens over a fixed table ends, with every row received once and in order, exactly when the
      table is not that one. */
  lemma PageWalkExact(t: seq<Key>, size: nat, descending: bool)
    requires size >= 1 && Ordered(t, descending)
    ensures (exists n: nat :: Read(t, n, size, descending) == (t, Done)) <==> !Restarts(t, size, descending)
  {
    hide Walk, Restarts;
    if Restarts(t, size, descending) {
      forall n: nat ensures Read(t, n, size, descending) != (t, Done) {
        ReadRestarts(t, n, size, descending);
      }
    } else {
      var n := |t| + 1;
      ReadExact(t, n, size, descending);
      assert n * size >= n by { Enough(n, size); }
    }
  }

  lemma Enough(n: nat, size: nat)
    requires size >= 1
    ensures n * size >= n
  {
  }
}
