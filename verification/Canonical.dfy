/** The canonical form of a value tree, from which credential keys are digested. */
module Canonical {
  import opened Events
  import opened Orderings

  type Entry = (string, Value)

  function KeyLeq(): (leq: (Entry, Entry) -> bool) {
    (a: Entry, b: Entry) => StrLeq(a.0, b.0)
  }

  /** `canonicalize`: drops null entries of maps and sorts the others by key, at every level. */
  function Canonicalize(v: Value): Value
    decreases v, 1
  {
    match v
    case Map(entries) => Map(Sort(KeptEntries(entries), KeyLeq()))
    case Seq(items) => Seq(CanonicalItems(items))
    case _ => v
  }

  function KeptEntries(entries: seq<Entry>): seq<Entry>
    decreases entries, 0
  {
    if entries == [] then []
    else
      var rest := KeptEntries(entries[1..]);
      assert entries[0].1 < entries[0];
      if entries[0].1 == Null then rest else [(entries[0].0, Canonicalize(entries[0].1))] + rest
  }

  function CanonicalItems(items: seq<Value>): seq<Value>
    decreases items, 0
  {
    if items == [] then [] else [Canonicalize(items[0])] + CanonicalItems(items[1..])
  }

  // ----- What the canonical form should forget -----

  /** The value under `key`; a key without an entry has the value null. */
  function Lookup(entries: seq<Entry>, key: string): Value {
    if entries == [] then Null
    else if entries[0].0 == key then entries[0].1
    else Lookup(entries[1..], key)
  }

  lemma {:induction false} LookupSmaller(entries: seq<Entry>, key: string)
    ensures Lookup(entries, key) == Null || exists i :: 0 <= i < |entries| && entries[i] == (key, Lookup(entries, key))
  {
    if entries != [] && entries[0].0 != key {
      LookupSmaller(entries[1..], key);
      if Lookup(entries, key) != Null {
        var i :| 0 <= i < |entries[1..]| && entries[1..][i] == (key, Lookup(entries, key));
        assert entries[i + 1] == (key, Lookup(entries, key));
      }
    }
  }

  /** Equal up to the order of map entries and up to null entries of maps, at every level. */
  ghost predicate Same(a: Value, b: Value)
    decreases a
  {
    match (a, b)
    case (Map(x), Map(y)) =>
      forall key :: SameUnder(a, b, key)
    case (Seq(x), Seq(y)) =>
      |x| == |y| && forall i :: 0 <= i < |x| ==> Same(x[i], y[i])
    case _ => a == b
  }

  ghost predicate SameUnder(a: Value, b: Value, key: string)
    requires a.Map? && b.Map?
    decreases a, 0
  {
    var v, w := Lookup(a.entries, key), Lookup(b.entries, key);
    LookupSmaller(a.entries, key);
    if v == Null || w == Null then v == w else Same(v, w)
  }

  /** No map of the tree, at any level, has two entries of one key. */
  ghost predicate UniqueKeys(v: Value) {
    match v
    case Map(entries) =>
      DistinctKeys(entries) && forall i :: 0 <= i < |entries| ==> UniqueKeys(entries[i].1)
    case Seq(items) => forall i :: 0 <= i < |items| ==> UniqueKeys(items[i])
    case _ => true
  }

  function KeySet(entries: seq<Entry>): set<string> {
    if entries == [] then {} else {entries[0].0} + KeySet(entries[1..])
  }

  predicate DistinctKeys(entries: seq<Entry>) {
    entries == [] || (entries[0].0 !in KeySet(entries[1..]) && DistinctKeys(entries[1..]))
  }

  /** Keys increase strictly and no value is null. */
  predicate InOrder(entries: seq<Entry>) {
    entries == [] ||
    (entries[0].1 != Null && (|entries| > 1 ==> StrLess(entries[0].0, entries[1].0)) && InOrder(entries[1..]))
  }

  /** At every level, map entries are in strict key order and none of them is null. */
  ghost predicate InForm(v: Value) {
    match v
    case Map(entries) => InOrder(entries) && forall i :: 0 <= i < |entries| ==> InForm(entries[i].1)
    case Seq(items) => forall i :: 0 <= i < |items| ==> InForm(items[i])
    case _ => true
  }

  // ----- Lookups survive dropping and sorting -----

  lemma {:induction false} LookupPresent(entries: seq<Entry>, key: string)
    ensures key !in KeySet(entries) ==> Lookup(entries, key) == Null
    ensures key in KeySet(entries) && (forall e :: e in entries ==> e.1 != Null) ==> Lookup(entries, key) != Null
  {
    if entries != [] {
      LookupPresent(entries[1..], key);
      assert entries[0] in entries;
    }
  }

  lemma {:induction false} KeptLookup(entries: seq<Entry>, key: string)
    requires DistinctKeys(entries)
    ensures Lookup(KeptEntries(entries), key) == Canonicalize(Lookup(entries, key))
    ensures DistinctKeys(KeptEntries(entries)) && KeySet(KeptEntries(entries)) <= KeySet(entries)
    ensures forall e :: e in KeptEntries(entries) ==> e.1 != Null
  {
    if entries != [] {
      KeptLookup(entries[1..], key);
      LookupPresent(entries[1..], key);
      var (k, v) := entries[0];
      if v != Null {
        var kept := [(k, Canonicalize(v))] + KeptEntries(entries[1..]);
        assert kept[1..] == KeptEntries(entries[1..]);
        assert Canonicalize(v) != Null;
      }
    }
  }

  lemma {:induction false} InsertLookup(x: Entry, s: seq<Entry>, key: string)
    requires DistinctKeys(s) && x.0 !in KeySet(s)
    ensures var r := Insert(x, s, KeyLeq());
            Lookup(r, key) == (if key == x.0 then x.1 else Lookup(s, key)) &&
            KeySet(r) == {x.0} + KeySet(s) && DistinctKeys(r)
  {
    if s == [] || KeyLeq()(x, s[0]) {
      assert ([x] + s)[1..] == s;
    } else {
      InsertLookup(x, s[1..], key);
      assert ([s[0]] + Insert(x, s[1..], KeyLeq()))[1..] == Insert(x, s[1..], KeyLeq());
    }
  }

  lemma {:induction false} SortLookup(s: seq<Entry>, key: string)
    requires DistinctKeys(s)
    ensures var r := Sort(s, KeyLeq());
            Lookup(r, key) == Lookup(s, key) && KeySet(r) == KeySet(s) && DistinctKeys(r)
  {
    if s != [] {
      SortLookup(s[1..], key);
      InsertLookup(s[0], Sort(s[1..], KeyLeq()), key);
    }
  }

  lemma KeyOrder()
    ensures TotalPreorder(KeyLeq())
  {
    var leq := KeyLeq();
    forall x, y ensures leq(x, y) || leq(y, x) {
      StrTotal(x.0, y.0);
    }
    forall x, y, z | leq(x, y) && leq(y, z) ensures leq(x, z) {
      StrTransitive(x.0, y.0, z.0);
    }
  }

  lemma {:induction false} OrderedIsInOrder(entries: seq<Entry>)
    requires Sorted(entries, KeyLeq()) && DistinctKeys(entries)
    requires forall e :: e in entries ==> e.1 != Null
    ensures InOrder(entries)
  {
    if entries != [] {
      assert entries[0] in entries;
      forall i, j | 0 <= i < j < |entries[1..]| ensures KeyLeq()(entries[1..][i], entries[1..][j]) {
        assert KeyLeq()(entries[i + 1], entries[j + 1]);
      }
      OrderedIsInOrder(entries[1..]);
      if |entries| > 1 {
        assert KeyLeq()(entries[0], entries[1]);
      }
    }
  }

  /** The canonical entries of a map: ordered, null-free, and with the canonical value under every key. */
  lemma CanonicalEntries(entries: seq<Entry>)
    requires DistinctKeys(entries)
    ensures InOrder(Canonicalize(Map(entries)).entries)
    ensures forall key :: Lookup(Canonicalize(Map(entries)).entries, key) == Canonicalize(Lookup(entries, key))
  {
    var kept := KeptEntries(entries);
    forall key ensures Lookup(Sort(kept, KeyLeq()), key) == Canonicalize(Lookup(entries, key)) {
      KeptLookup(entries, key);
      SortLookup(kept, key);
    }
    KeptLookup(entries, "");
    SortLookup(kept, "");
    KeyOrder();
    SortSorts(kept, KeyLeq());
    forall e | e in Sort(kept, KeyLeq()) ensures e.1 != Null {
      assert e in multiset(kept);
    }
    OrderedIsInOrder(Sort(kept, KeyLeq()));
  }

  // ----- Ordered lists are determined by their lookups -----

  lemma {:induction false} InOrderLookup(entries: seq<Entry>, key: string)
    requires InOrder(entries)
    ensures Lookup(entries, key) != Null ==> StrLeq(entries[0].0, key)
    ensures entries != [] && StrLess(key, entries[0].0) ==> Lookup(entries, key) == Null
  {
    if entries != [] {
      InOrderLookup(entries[1..], key);
      StrReflexive(key);
      StrTotal(key, entries[0].0);
      if |entries| > 1 && Lookup(entries[1..], key) != Null {
        StrTransitive(entries[0].0, entries[1].0, key);
      }
    }
  }

  lemma {:induction false} LookupsDecide(x: seq<Entry>, y: seq<Entry>)
    requires InOrder(x) && InOrder(y)
    requires forall key :: Lookup(x, key) == Lookup(y, key)
    ensures x == y
  {
    assert x != [] ==> Lookup(x, x[0].0) != Null;
    assert y != [] ==> Lookup(y, y[0].0) != Null;
    if x != [] && y != [] {
      InOrderLookup(x, y[0].0);
      InOrderLookup(y, x[0].0);
      assert Lookup(x, x[0].0) == Lookup(y, x[0].0) && Lookup(x, y[0].0) == Lookup(y, y[0].0);
      StrTotal(x[0].0, y[0].0);
      forall key ensures Lookup(x[1..], key) == Lookup(y[1..], key) {
        assert Lookup(x, key) == Lookup(y, key);
        HeadOnly(x);
        HeadOnly(y);
      }
      LookupsDecide(x[1..], y[1..]);
      assert x == [x[0]] + x[1..] && y == [y[0]] + y[1..];
    }
  }

  /** The first key of an ordered list is not a later one. */
  lemma HeadOnly(entries: seq<Entry>)
    requires InOrder(entries) && entries != []
    ensures Lookup(entries[1..], entries[0].0) == Null
  {
    if |entries| > 1 {
      InOrderLookup(entries[1..], entries[0].0);
    }
  }

  // ----- The main results -----

  lemma {:induction false} CanonicalItemAt(items: seq<Value>, i: nat)
    requires i < |items|
    ensures |CanonicalItems(items)| == |items| && CanonicalItems(items)[i] == Canonicalize(items[i])
  {
    if i > 0 {
      CanonicalItemAt(items[1..], i - 1);
    } else if |items| > 1 {
      CanonicalItemAt(items[1..], 0);
    }
  }

  lemma CanonicalKind(v: Value)
    ensures Canonicalize(v) == Null <==> v == Null
    ensures Canonicalize(v).Map? == v.Map? && Canonicalize(v).Seq? == v.Seq?
    ensures !v.Map? && !v.Seq? ==> Canonicalize(v) == v
  {
  }

  /**
   * Two trees have one canonical form exactly when they are equal up to the order of map entries and
   * up to null entries of maps; nulls in sequences count.
   */
  lemma {:induction false} CanonicalDecides(a: Value, b: Value)
    requires UniqueKeys(a) && UniqueKeys(b)
    ensures Canonicalize(a) == Canonicalize(b) <==> Same(a, b)
    decreases a
  {
    CanonicalKind(a);
    CanonicalKind(b);
    if a.Map? && b.Map? {
      var x, y := Canonicalize(a).entries, Canonicalize(b).entries;
      CanonicalEntries(a.entries);
      CanonicalEntries(b.entries);
      forall key ensures SameUnder(a, b, key) <==> Lookup(x, key) == Lookup(y, key) {
        UnderKey(a, b, key);
      }
      if Same(a, b) {
        assert forall key :: SameUnder(a, b, key);
        LookupsDecide(x, y);
      }
    } else if a.Seq? && b.Seq? {
      ItemsDecide(a, b);
    }
  }

  lemma UnderKey(a: Value, b: Value, key: string)
    requires UniqueKeys(a) && UniqueKeys(b) && a.Map? && b.Map?
    ensures SameUnder(a, b, key) <==>
            Canonicalize(Lookup(a.entries, key)) == Canonicalize(Lookup(b.entries, key))
    decreases a, 0
  {
    var v, w := Lookup(a.entries, key), Lookup(b.entries, key);
    CanonicalKind(v);
    CanonicalKind(w);
    if v != Null && w != Null {
      LookupSmaller(a.entries, key);
      LookupSmaller(b.entries, key);
      CanonicalDecides(v, w);
    }
  }

  lemma ItemsDecide(a: Value, b: Value)
    requires UniqueKeys(a) && UniqueKeys(b) && a.Seq? && b.Seq?
    ensures Canonicalize(a) == Canonicalize(b) <==> Same(a, b)
    decreases a, 0
  {
    var x, y := a.items, b.items;
    var cx, cy := CanonicalItems(x), CanonicalItems(y);
    if x != [] { CanonicalItemAt(x, 0); }
    if y != [] { CanonicalItemAt(y, 0); }
    if |x| == |y| {
      forall i | 0 <= i < |x| ensures cx[i] == cy[i] <==> Same(x[i], y[i]) {
        CanonicalItemAt(x, i);
        CanonicalItemAt(y, i);
        CanonicalDecides(x[i], y[i]);
      }
      assert cx == cy <==> forall i :: 0 <= i < |x| ==> cx[i] == cy[i];
    }
  }

  lemma {:induction false} KeptInForm(entries: seq<Entry>)
    requires forall i :: 0 <= i < |entries| ==> UniqueKeys(entries[i].1)
    ensures forall e :: e in KeptEntries(entries) ==> InForm(e.1)
    decreases entries, 0
  {
    if entries != [] {
      KeptInForm(entries[1..]);
      assert entries[0].1 < entries[0];
      ReachesForm(entries[0].1);
    }
  }

  /** Without repeated keys, the canonical form is in strict key order throughout. */
  lemma {:induction false} ReachesForm(v: Value)
    requires UniqueKeys(v)
    ensures InForm(Canonicalize(v))
    decreases v, 1
  {
    CanonicalKind(v);
    if v.Map? {
      CanonicalEntries(v.entries);
      KeptInForm(v.entries);
      var kept := KeptEntries(v.entries);
      KeyOrder();
      SortSorts(kept, KeyLeq());
      var sorted := Sort(kept, KeyLeq());
      forall i | 0 <= i < |sorted| ensures InForm(sorted[i].1) {
        assert sorted[i] in multiset(kept);
      }
    } else if v.Seq? {
      forall i | 0 <= i < |v.items| ensures |CanonicalItems(v.items)| == |v.items| && InForm(CanonicalItems(v.items)[i]) {
        CanonicalItemAt(v.items, i);
        ReachesForm(v.items[i]);
      }
      if v.items != [] { CanonicalItemAt(v.items, 0); }
    }
  }

  lemma {:induction false} InsertFront(x: Entry, s: seq<Entry>)
    requires Sorted([x] + s, KeyLeq())
    ensures Insert(x, s, KeyLeq()) == [x] + s
  {
    if s != [] {
      assert KeyLeq()(([x] + s)[0], ([x] + s)[1]);
    }
  }

  lemma {:induction false} SortKeepsSorted(s: seq<Entry>)
    requires Sorted(s, KeyLeq())
    ensures Sort(s, KeyLeq()) == s
  {
    if s != [] {
      assert s == [s[0]] + s[1..];
      forall i, j | 0 <= i < j < |s[1..]| ensures KeyLeq()(s[1..][i], s[1..][j]) {
        assert KeyLeq()(s[i + 1], s[j + 1]);
      }
      SortKeepsSorted(s[1..]);
      InsertFront(s[0], s[1..]);
    }
  }

  predicate Settled(e: Entry) {
    e.1 != Null && Canonicalize(e.1) == e.1
  }

  lemma {:induction false} SettledKept(entries: seq<Entry>)
    requires forall e :: e in entries ==> Settled(e)
    ensures KeptEntries(entries) == entries
  {
    if entries != [] {
      assert Settled(entries[0]);
      SettledKept(entries[1..]);
    }
  }

  lemma {:induction false} KeptSettled(entries: seq<Entry>)
    ensures forall e :: e in KeptEntries(entries) ==> Settled(e)
    decreases entries, 0
  {
    if entries != [] {
      KeptSettled(entries[1..]);
      if entries[0].1 != Null {
        assert entries[0].1 < entries[0];
        Idempotent(entries[0].1);
        CanonicalKind(entries[0].1);
      }
    }
  }

  lemma {:induction false} ItemsIdempotent(items: seq<Value>)
    ensures CanonicalItems(CanonicalItems(items)) == CanonicalItems(items)
    decreases items, 0
  {
    if items != [] {
      Idempotent(items[0]);
      ItemsIdempotent(items[1..]);
      assert CanonicalItems(items)[1..] == CanonicalItems(items[1..]);
    }
  }

  /** A canonical form is its own canonical form, repeated keys or not. */
  lemma {:induction false} Idempotent(v: Value)
    ensures Canonicalize(Canonicalize(v)) == Canonicalize(v)
    decreases v, 1
  {
    if v.Map? {
      KeptSettled(v.entries);
      var kept := KeptEntries(v.entries);
      var sorted := Sort(kept, KeyLeq());
      KeyOrder();
      SortSorts(kept, KeyLeq());
      forall e | e in sorted ensures Settled(e) {
        assert e in multiset(kept);
      }
      SettledKept(sorted);
      SortKeepsSorted(sorted);
    } else if v.Seq? {
      ItemsIdempotent(v.items);
    }
  }
}
