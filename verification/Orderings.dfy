/** String order and the stable sorts of the model. */
module Orderings {

  /** Rust's order on strings: by code point, first difference first. */
  predicate StrLeq(a: string, b: string) {
    a == "" || (b != "" && (a[0] < b[0] || (a[0] == b[0] && StrLeq(a[1..], b[1..]))))
  }

  predicate StrLess(a: string, b: string) {
    a != b && StrLeq(a, b)
  }

  /** `a` and `b` agree before position `i`, and there `a` ends or has the smaller character. */
  ghost predicate DiffersAt(a: string, b: string, i: int) {
    0 <= i <= |a| && i < |b| && a[..i] == b[..i] && (i < |a| ==> a[i] < b[i])
  }

  /** One text is less than another exactly if it is where they first differ. */
  lemma {:induction false} StrLessExact(a: string, b: string)
    ensures StrLess(a, b) <==> exists i :: DiffersAt(a, b, i)
  {
    if a == "" {
      assert b != "" ==> DiffersAt(a, b, 0);
    } else if b != "" && a[0] == b[0] {
      StrLessExact(a[1..], b[1..]);
      assert a == [a[0]] + a[1..] && b == [b[0]] + b[1..];
      if i :| DiffersAt(a[1..], b[1..], i) {
        assert a[..i + 1] == [a[0]] + a[1..][..i] && b[..i + 1] == [b[0]] + b[1..][..i];
        assert DiffersAt(a, b, i + 1);
      }
      if i :| DiffersAt(a, b, i) {
        assert i > 0;
        assert a[1..][..i - 1] == a[..i][1..] && b[1..][..i - 1] == b[..i][1..];
        assert DiffersAt(a[1..], b[1..], i - 1);
      }
    } else if b != "" {
      assert a[0] < b[0] ==> DiffersAt(a, b, 0);
      if i :| DiffersAt(a, b, i) && i > 0 {
        FirstOfPrefix(a, b, i);
      }
    }
  }

  lemma FirstOfPrefix(a: string, b: string, i: nat)
    requires 0 < i <= |a| && i < |b| && a[..i] == b[..i]
    ensures a[0] == b[0]
  {
    assert a[..i][0] == a[0] && b[..i][0] == b[0];
  }

  lemma {:induction false} StrTotal(a: string, b: string)
    ensures StrLeq(a, b) || StrLeq(b, a)
    ensures StrLeq(a, b) && StrLeq(b, a) ==> a == b
  {
    if a != "" && b != "" && a[0] == b[0] {
      StrTotal(a[1..], b[1..]);
      assert a == [a[0]] + a[1..] && b == [b[0]] + b[1..];
    }
  }

  lemma {:induction false} StrTransitive(a: string, b: string, c: string)
    requires StrLeq(a, b) && StrLeq(b, c)
    ensures StrLeq(a, c)
  {
    if a != "" && a[0] == b[0] && b[0] == c[0] {
      StrTransitive(a[1..], b[1..], c[1..]);
    }
  }

  lemma {:induction false} StrReflexive(a: string)
    ensures StrLeq(a, a)
  {
    if a != "" {
      StrReflexive(a[1..]);
    }
  }

  // ----- Stable sorting -----

  /** A total order that may hold both ways between different elements. */
  ghost predicate TotalPreorder<T(!new)>(leq: (T, T) -> bool) {
    (forall x, y :: leq(x, y) || leq(y, x)) &&
    (forall x, y, z :: leq(x, y) && leq(y, z) ==> leq(x, z))
  }

  /** `x` goes before the first element it is no greater than. */
  function Insert<T>(x: T, s: seq<T>, leq: (T, T) -> bool): seq<T> {
    if s == [] || leq(x, s[0]) then [x] + s else [s[0]] + Insert(x, s[1..], leq)
  }

  /** What a stable `sort_by` makes of `s`. */
  function Sort<T>(s: seq<T>, leq: (T, T) -> bool): seq<T> {
    if s == [] then [] else Insert(s[0], Sort(s[1..], leq), leq)
  }

  ghost predicate Sorted<T>(s: seq<T>, leq: (T, T) -> bool) {
    forall i, j :: 0 <= i < j < |s| ==> leq(s[i], s[j])
  }

  lemma {:induction false} InsertKeeps<T>(x: T, s: seq<T>, leq: (T, T) -> bool)
    ensures multiset(Insert(x, s, leq)) == multiset(s) + multiset{x}
  {
    if s != [] && !leq(x, s[0]) {
      InsertKeeps(x, s[1..], leq);
      assert s == [s[0]] + s[1..];
    }
  }

  lemma ConsSorted<T>(x: T, s: seq<T>, leq: (T, T) -> bool)
    requires Sorted(s, leq) && forall y :: y in s ==> leq(x, y)
    ensures Sorted([x] + s, leq)
  {
    var r := [x] + s;
    forall i, j | 0 <= i < j < |r| ensures leq(r[i], r[j]) {
      assert r[j] == s[j - 1];
    }
  }

  lemma {:induction false} InsertSorted<T(!new)>(x: T, s: seq<T>, leq: (T, T) -> bool)
    requires TotalPreorder(leq) && Sorted(s, leq)
    ensures Sorted(Insert(x, s, leq), leq)
  {
    if s == [] || leq(x, s[0]) {
      assert forall y :: y in s ==> y == s[0] || leq(s[0], y);
      ConsSorted(x, s, leq);
    } else {
      var rest := Insert(x, s[1..], leq);
      InsertSorted(x, s[1..], leq);
      InsertKeeps(x, s[1..], leq);
      forall y | y in rest ensures leq(s[0], y) {
        assert y in multiset(rest);
        assert y == x || y in s[1..];
      }
      ConsSorted(s[0], rest, leq);
    }
  }

  /** Sorting permutes and orders. */
  lemma {:induction false} SortSorts<T(!new)>(s: seq<T>, leq: (T, T) -> bool)
    requires TotalPreorder(leq)
    ensures Sorted(Sort(s, leq), leq) && multiset(Sort(s, leq)) == multiset(s) && |Sort(s, leq)| == |s|
  {
    if s != [] {
      SortSorts(s[1..], leq);
      InsertSorted(s[0], Sort(s[1..], leq), leq);
      InsertKeeps(s[0], Sort(s[1..], leq), leq);
      assert s == [s[0]] + s[1..];
      assert |multiset(Sort(s, leq))| == |multiset(s)|;
    }
  }

  function Filter<T>(s: seq<T>, keep: T -> bool): seq<T> {
    if s == [] then [] else (if keep(s[0]) then [s[0]] else []) + Filter(s[1..], keep)
  }

  /** `r` holds the elements of `s` at the positions `at`, which ascend, and these are the ones to keep. */
  ghost predicate Picks<T>(s: seq<T>, keep: T -> bool, r: seq<T>, at: seq<int>) {
    |at| == |r| && (forall j, k :: 0 <= j < k < |at| ==> at[j] < at[k]) &&
    (forall j :: 0 <= j < |at| ==> 0 <= at[j] < |s| && r[j] == s[at[j]]) &&
    (forall i :: 0 <= i < |s| ==> (keep(s[i]) <==> i in at))
  }

  lemma {:induction false} FilterConcat<T>(a: seq<T>, b: seq<T>, keep: T -> bool)
    ensures Filter(a + b, keep) == Filter(a, keep) + Filter(b, keep)
  {
    if a == [] {
      assert a + b == b;
    } else {
      var head := if keep(a[0]) then [a[0]] else [];
      FilterConcat(a[1..], b, keep);
      assert (a + b)[0] == a[0] && (a + b)[1..] == a[1..] + b;
      assert head + (Filter(a[1..], keep) + Filter(b, keep)) == head + Filter(a[1..], keep) + Filter(b, keep);
    }
  }

  /** A filter keeps exactly the elements asked for, in their order. */
  lemma {:induction false} FilterExact<T>(s: seq<T>, keep: T -> bool) returns (at: seq<int>)
    ensures Picks(s, keep, Filter(s, keep), at)
    decreases |s|
  {
    if s == [] {
      at := [];
    } else {
      var init, x := s[..|s| - 1], s[|s| - 1];
      at := FilterExact(init, keep);
      assert s == init + [x];
      FilterConcat(init, [x], keep);
      PicksOneMore(init, keep, Filter(init, keep), at, x);
      at := if keep(x) then at + [|init|] else at;
    }
  }

  lemma PicksOneMore<T>(s: seq<T>, keep: T -> bool, r: seq<T>, at: seq<int>, x: T)
    requires Picks(s, keep, r, at)
    ensures if keep(x) then Picks(s + [x], keep, r + [x], at + [|s|]) else Picks(s + [x], keep, r, at)
  {
    if keep(x) {
      var at' := at + [|s|];
      assert at'[|at|] == |s| && forall i :: i in at' <==> i in at || i == |s|;
    }
  }

  /** Elements that are mutually no greater than each other. */
  ghost predicate Tied<T(!new)>(keep: T -> bool, leq: (T, T) -> bool) {
    forall x, y :: keep(x) && keep(y) ==> leq(x, y)
  }

  lemma {:induction false} InsertStable<T(!new)>(x: T, s: seq<T>, leq: (T, T) -> bool, keep: T -> bool)
    requires TotalPreorder(leq) && Sorted(s, leq) && Tied(keep, leq)
    ensures Filter(Insert(x, s, leq), keep) == Filter([x] + s, keep)
  {
    if s == [] || leq(x, s[0]) {
    } else {
      InsertStable(x, s[1..], leq, keep);
      var rest := Insert(x, s[1..], leq);
      assert ([s[0]] + rest)[1..] == rest;
      assert ([x] + s)[1..] == s && ([x] + s[1..])[1..] == s[1..];
    }
  }

  /** A stable sort keeps tied elements in the order in which it finds them. */
  lemma {:induction false} SortStable<T(!new)>(s: seq<T>, leq: (T, T) -> bool, keep: T -> bool)
    requires TotalPreorder(leq) && Tied(keep, leq)
    ensures Filter(Sort(s, leq), keep) == Filter(s, keep)
  {
    if s != [] {
      SortSorts(s[1..], leq);
      SortStable(s[1..], leq, keep);
      InsertStable(s[0], Sort(s[1..], leq), leq, keep);
      assert ([s[0]] + Sort(s[1..], leq))[1..] == Sort(s[1..], leq);
    }
  }

  // ----- Listings -----

  /** `r` holds exactly the given names, each once, in string order. */
  ghost predicate Lists(r: seq<string>, names: set<string>) {
    (forall i, j :: 0 <= i < j < |r| ==> StrLess(r[i], r[j])) && (forall n :: n in r <==> n in names)
  }

  /** There is one such listing. */
  lemma {:induction false} ListsUnique(a: seq<string>, b: seq<string>, names: set<string>)
    requires Lists(a, names) && Lists(b, names)
    ensures a == b
  {
    assert a != [] ==> a[0] in names;
    assert b != [] ==> b[0] in names;
    if a != [] && b != [] {
      HeadIsLeast(a, b[0]);
      HeadIsLeast(b, a[0]);
      StrTotal(a[0], b[0]);
      TailLists(a, names);
      TailLists(b, names);
      ListsUnique(a[1..], b[1..], names - {a[0]});
      assert a == [a[0]] + a[1..] && b == [b[0]] + b[1..];
    }
  }

  lemma HeadIsLeast(a: seq<string>, n: string)
    requires (forall i, j :: 0 <= i < j < |a| ==> StrLess(a[i], a[j])) && n in a
    ensures StrLeq(a[0], n)
  {
    StrReflexive(n);
    var i :| 0 <= i < |a| && a[i] == n;
    if i > 0 { assert StrLess(a[0], a[i]); }
  }

  lemma TailLists(a: seq<string>, names: set<string>)
    requires Lists(a, names) && a != []
    ensures Lists(a[1..], names - {a[0]})
  {
    var t := a[1..];
    forall n ensures n in t <==> n in names - {a[0]} {
      if n in t {
        var i :| 0 <= i < |t| && t[i] == n;
        assert StrLess(a[0], a[i + 1]);
        assert a[i + 1] in a;
      }
      if n in names - {a[0]} {
        assert n in a && a == [a[0]] + t;
      }
    }
    assert forall i, j :: 0 <= i < j < |t| ==> t[i] == a[i + 1] && t[j] == a[j + 1];
  }

  ghost predicate NoRepeats<T>(s: seq<T>) {
    forall i, j :: 0 <= i < j < |s| ==> s[i] != s[j]
  }

  /** A list drawn from a smaller set has an element twice. */
  lemma {:induction false} Pigeonhole<T(!new)>(s: seq<T>, elements: set<T>)
    requires |s| > |elements| && forall k :: 0 <= k < |s| ==> s[k] in elements
    ensures !NoRepeats(s)
  {
    var last := s[|s| - 1];
    if k :| 0 <= k < |s| - 1 && s[k] == last {
      assert s[k] == s[|s| - 1];
    } else {
      Pigeonhole(s[..|s| - 1], elements - {last});
      var i, j :| 0 <= i < j < |s| - 1 && s[..|s| - 1][i] == s[..|s| - 1][j];
      assert s[i] == s[j];
    }
  }

  lemma {:induction false} NoRepeatsCounts<T(!new)>(s: seq<T>)
    ensures NoRepeats(s) <==> forall x :: multiset(s)[x] <= 1
  {
    if s != [] {
      var t := s[1..];
      assert s == [s[0]] + t;
      NoRepeatsCounts(t);
      assert forall x :: multiset(s)[x] == multiset(t)[x] + if x == s[0] then 1 else 0;
      if NoRepeats(s) {
        assert NoRepeats(t) by { assert forall i :: 0 <= i < |t| ==> t[i] == s[i + 1]; }
        assert s[0] !in t;
      }
      if forall x :: multiset(s)[x] <= 1 {
        assert multiset(s)[s[0]] <= 1;
        assert s[0] !in multiset(t);
        assert forall i, j :: 0 <= i < j < |s| ==> s[j] == t[j - 1] && (i > 0 ==> s[i] == t[i - 1]);
        forall x ensures multiset(t)[x] <= 1 {
          assert multiset(s)[x] <= 1;
        }
      }
    }
  }

  lemma StrOrder()
    ensures TotalPreorder(StrLeq)
  {
    forall a: string, b: string ensures StrLeq(a, b) || StrLeq(b, a) {
      StrTotal(a, b);
    }
    forall a: string, b: string, c: string | StrLeq(a, b) && StrLeq(b, c) ensures StrLeq(a, c) {
      StrTransitive(a, b, c);
    }
  }

  /** Sorting orders the elements and keeps them, each as often as it was there. */
  lemma SortKeeps<T(!new)>(s: seq<T>, leq: (T, T) -> bool)
    requires TotalPreorder(leq)
    ensures Sorted(Sort(s, leq), leq)
    ensures forall x :: x in Sort(s, leq) <==> x in s
    ensures NoRepeats(Sort(s, leq)) <==> NoRepeats(s)
  {
    var r := Sort(s, leq);
    SortSorts(s, leq);
    NoRepeatsCounts(s);
    NoRepeatsCounts(r);
    forall x ensures x in r <==> x in s {
      assert x in multiset(r) <==> x in multiset(s);
    }
  }

  /** Names in order and without repetition are a listing. */
  lemma SortedListing(r: seq<string>, names: set<string>)
    requires Sorted(r, StrLeq) && NoRepeats(r) && forall n :: n in r <==> n in names
    ensures Lists(r, names)
  {
    assert forall i, j :: 0 <= i < j < |r| ==> StrLeq(r[i], r[j]) && r[i] != r[j];
  }

  lemma ConcatNoRepeats<T>(a: seq<T>, b: seq<T>)
    requires NoRepeats(a) && NoRepeats(b) && forall x :: x in b ==> x !in a
    ensures NoRepeats(a + b)
  {
    var s := a + b;
    forall i, j | 0 <= i < j < |s| ensures s[i] != s[j] {
      assert j >= |a| ==> s[j] == b[j - |a|] && s[j] in b;
      assert i < |a| ==> s[i] in a;
    }
  }

  lemma StrictlyFewer<T>(a: set<T>, b: set<T>)
    requires a < b
    ensures |a| < |b|
  {
    assert b == a + (b - a) && |b| == |a| + |b - a|;
  }

  /** Taking one more element off what is still to do adds it to what is done. */
  lemma OneMoreDone<T>(all: set<T>, todo: set<T>, x: T)
    requires x in todo && todo <= all
    ensures all - todo + {x} == all - (todo - {x}) && x !in all - todo
  {
  }
}
