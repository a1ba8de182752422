/** Optional values and the few facts about sequences every other module needs. */
module Prelude {

  datatype Option<+T> = None | Some(value: T)

  // ----- duplicate-free sequences -----

  ghost predicate NoDup<T>(s: seq<T>) {
    forall i, j :: 0 <= i < j < |s| ==> s[i] != s[j]
  }

  function Elements<T>(s: seq<T>): set<T> {
    set x | x in s
  }

  lemma ElementsSnoc<T>(s: seq<T>, x: T)
    ensures Elements(s + [x]) == Elements(s) + {x}
  {
  }

  /** A list has as many distinct elements as entries exactly when nothing in it repeats;
      this is how the validators test for repeated wires. */
  lemma {:induction false} DistinctCount<T>(s: seq<T>)
    ensures |Elements(s)| <= |s|
    ensures |Elements(s)| == |s| <==> NoDup(s)
  {
    if s != [] {
      var t, x := s[..|s| - 1], s[|s| - 1];
      DistinctCount(t);
      assert s == t + [x];
      ElementsSnoc(t, x);
      if x in t {
        assert Elements(s) == Elements(t);
        var j :| 0 <= j < |t| && t[j] == x;
        assert s[j] == s[|s| - 1];
      } else {
        assert |Elements(s)| == |Elements(t)| + 1;
        if NoDup(t) {
          assert NoDup(s);
        } else {
          var i, j :| 0 <= i < j < |t| && t[i] == t[j];
          assert s[i] == s[j];
        }
      }
    }
  }

  lemma SubsetByDifference<T>(a: set<T>, b: set<T>)
    ensures a <= b <==> a - b == {}
  {
    if a - b == {} {
      forall x | x in a
        ensures x in b
      {
        assert x !in a - b;
      }
    }
  }

  lemma TwoOrMore<T>(s: set<T>)
    ensures |s| >= 2 <==> exists a, b :: a in s && b in s && a != b
    ensures |s| >= 1 <==> exists a :: a in s
  {
    if s != {} {
      var a :| a in s;
      var rest := s - {a};
      assert |s| == |rest| + 1;
      if b :| b in rest {
        assert |rest| >= 1;
      } else {
        assert rest == {};
      }
    }
  }

  lemma {:induction false} NoDupCounts<T>(s: seq<T>)
    ensures NoDup(s) <==> forall x :: x in s ==> multiset(s)[x] == 1
  {
    if s != [] {
      var t, x := s[..|s| - 1], s[|s| - 1];
      assert s == t + [x];
      NoDupCounts(t);
      if x in t {
        var j :| 0 <= j < |t| && t[j] == x;
        assert s[j] == s[|s| - 1];
        assert multiset(s)[x] >= 2;
      } else {
        assert forall y :: y in t ==> multiset(s)[y] == multiset(t)[y];
        assert forall y :: y in t ==> y in s;
        if NoDup(t) {
          assert NoDup(s);
        } else {
          var i, j :| 0 <= i < j < |t| && t[i] == t[j];
          assert s[i] == s[j];
        }
      }
    }
  }

  /** Multiplicities as positions: one occurrence, and two occurrences at different places. */
  lemma {:induction false} CountOneTwo<T>(s: seq<T>, x: T)
    ensures multiset(s)[x] >= 1 <==> exists i :: 0 <= i < |s| && s[i] == x
    ensures multiset(s)[x] >= 2 <==> exists i, j :: 0 <= i < j < |s| && s[i] == x && s[j] == x
  {
    if s != [] {
      var n := |s| - 1;
      var t := s[..n];
      assert s == t + [s[n]];
      CountOneTwo(t, x);
      if multiset(t)[x] >= 1 {
        var i :| 0 <= i < |t| && t[i] == x;
        assert s[i] == x;
      }
      if i, j :| 0 <= i < j < |t| && t[i] == x && t[j] == x {
        assert s[i] == x && s[j] == x;
      }
      if i, j :| 0 <= i < j < |s| && s[i] == x && s[j] == x {
        assert t[i] == x;
        if j < n { assert t[j] == x; }
      }
    }
  }

  // ----- the order of strings -----

  predicate Less(a: string, b: string) {
    b != "" && (a == "" || a[0] < b[0] || (a[0] == b[0] && Less(a[1..], b[1..])))
  }

  lemma {:induction false} LessTotal(a: string, b: string)
    ensures Less(a, b) || Less(b, a) || a == b
    ensures !(Less(a, b) && Less(b, a)) && !(a == b && Less(a, b))
  {
    if a != "" && b != "" {
      LessTotal(a[1..], b[1..]);
      assert a == [a[0]] + a[1..] && b == [b[0]] + b[1..];
    }
  }

  lemma {:induction false} LessTrans(a: string, b: string, c: string)
    requires Less(a, b) && Less(b, c)
    ensures Less(a, c)
  {
    if a != "" && a[0] == b[0] && b[0] == c[0] {
      LessTrans(a[1..], b[1..], c[1..]);
    }
  }

  /** `a` comes first exactly when it is the shorter one of two strings that agree as far as both go, or has the
      smaller character where they first differ. */
  lemma {:induction false} LessAtFirstDifference(a: string, b: string)
    ensures Less(a, b) <==>
              exists k :: 0 <= k <= |a| && k < |b| && a[..k] == b[..k] && (k == |a| || (a[k] as int) < (b[k] as int))
  {
    if a == "" || b == "" || a[0] != b[0] {
      if Less(a, b) {
        assert a[..0] == b[..0];
      }
      forall k | 0 < k <= |a| && k < |b| ensures a[..k] != b[..k] { assert a[..k][0] == a[0] && b[..k][0] == b[0]; }
    } else {
      LessAtFirstDifference(a[1..], b[1..]);
      if k :| 0 <= k <= |a[1..]| && k < |b[1..]| && a[1..][..k] == b[1..][..k]
              && (k == |a[1..]| || (a[1..][k] as int) < (b[1..][k] as int)) {
        assert a[..k + 1] == [a[0]] + a[1..][..k] && b[..k + 1] == [b[0]] + b[1..][..k];
        assert k + 1 < |b| && (k + 1 == |a| || (a[k + 1] as int) < (b[k + 1] as int));
      }
      if k :| 0 <= k <= |a| && k < |b| && a[..k] == b[..k] && (k == |a| || (a[k] as int) < (b[k] as int)) {
        assert k > 0;
        assert a[1..][..k - 1] == a[..k][1..] && b[1..][..k - 1] == b[..k][1..];
      }
    }
  }
}
