/** Sorting by a text key, where equal keys may come out in any order. */
module Sorting {
  import opened Text

  ghost predicate SortedBy<T>(s: seq<T>, key: T -> string) {
    forall i, j | 0 <= i < j < |s| :: AtMost(key(s[i]), key(s[j]))
  }

  /** `s` is a possible outcome of sorting `items`. */
  ghost predicate SortOf<T>(items: seq<T>, s: seq<T>, key: T -> string) {
    multiset(s) == multiset(items) && SortedBy(s, key)
  }

  ghost predicate TiesEqual<T>(items: seq<T>, key: T -> string) {
    forall x, y | x in items && y in items && key(x) == key(y) :: x == y
  }

  function Insert<T>(s: seq<T>, x: T, key: T -> string): seq<T> {
    if s == [] || AtMost(key(x), key(s[0])) then [x] + s else [s[0]] + Insert(s[1..], x, key)
  }

  function Sort<T>(items: seq<T>, key: T -> string): seq<T> {
    if items == [] then [] else Insert(Sort(items[1..], key), items[0], key)
  }

  lemma {:induction false} InsertPermutes<T>(s: seq<T>, x: T, key: T -> string)
    ensures multiset(Insert(s, x, key)) == multiset(s) + multiset{x}
  {
    if s != [] && !AtMost(key(x), key(s[0])) {
      assert s == [s[0]] + s[1..];
      InsertPermutes(s[1..], x, key);
    }
  }

  lemma {:induction false} InsertSorts<T>(s: seq<T>, x: T, key: T -> string)
    requires SortedBy(s, key)
    ensures SortedBy(Insert(s, x, key), key)
  {
    if s != [] {
      AtMostTotal(key(x), key(s[0]));
      if AtMost(key(x), key(s[0])) {
        forall y | y in s
          ensures AtMost(key(x), key(y))
        {
          AtMostTotal(key(s[0]), key(s[0]));
          AtMostTransitive(key(x), key(s[0]), key(y));
        }
      } else {
        InsertSorts(s[1..], x, key);
        InsertPermutes(s[1..], x, key);
        forall y | y in Insert(s[1..], x, key)
          ensures AtMost(key(s[0]), key(y))
        {
          assert y in multiset(Insert(s[1..], x, key));
          assert y == x || y in s[1..];
        }
      }
    }
  }

  lemma {:induction false} SortSorts<T>(items: seq<T>, key: T -> string)
    ensures SortOf(items, Sort(items, key), key)
  {
    if items != [] {
      assert items == [items[0]] + items[1..];
      SortSorts(items[1..], key);
      InsertSorts(Sort(items[1..], key), items[0], key);
      InsertPermutes(Sort(items[1..], key), items[0], key);
    }
  }

  lemma SortedHeadLeast<T>(s: seq<T>, key: T -> string, x: T)
    requires SortedBy(s, key) && x in s
    ensures AtMost(key(s[0]), key(x))
  {
    AtMostTotal(key(x), key(x));
  }

  lemma HeadAndTail<T>(s: seq<T>)
    requires s != []
    ensures multiset(s) == multiset{s[0]} + multiset(s[1..])
  {
    assert s == [s[0]] + s[1..];
  }

  lemma SameMembers<T>(a: seq<T>, b: seq<T>)
    requires multiset(a) == multiset(b)
    ensures |a| == |b| && forall x :: x in a <==> x in b
  {
    assert |multiset(a)| == |a| && |multiset(b)| == |b|;
    forall x
      ensures x in a <==> x in b
    {
      assert x in a <==> x in multiset(a);
      assert x in b <==> x in multiset(b);
    }
  }

  lemma Elsewhere<T>(a: seq<T>, b: seq<T>, i: nat) returns (j: nat)
    requires multiset(a) == multiset(b) && i < |a|
    ensures j < |b| && b[j] == a[i]
  {
    SameMembers(a, b);
    assert a[i] in a;
    j :| 0 <= j < |b| && b[j] == a[i];
  }

  lemma CancelOne<T>(x: T, m: multiset<T>, n: multiset<T>)
    requires multiset{x} + m == multiset{x} + n
    ensures m == n
  {
    forall y
      ensures m[y] == n[y]
    {
      assert (multiset{x} + m)[y] == (multiset{x} + n)[y];
    }
  }

  /** When equal keys mean equal elements, sorting has one outcome. */
  lemma {:induction false} SortedUnique<T>(a: seq<T>, b: seq<T>, key: T -> string)
    requires multiset(a) == multiset(b) && SortedBy(a, key) && SortedBy(b, key) && TiesEqual(a, key)
    ensures a == b
  {
    SameMembers(a, b);
    if a != [] {
      assert a[0] in a && b[0] in b;
      SortedHeadLeast(a, key, b[0]);
      SortedHeadLeast(b, key, a[0]);
      AtMostTotal(key(a[0]), key(b[0]));
      HeadAndTail(a);
      HeadAndTail(b);
      CancelOne(a[0], multiset(a[1..]), multiset(b[1..]));
      SortedUnique(a[1..], b[1..], key);
      assert a == [a[0]] + a[1..] && b == [b[0]] + b[1..];
    }
  }

  lemma SwapPermutes<T>(s: seq<T>, i: nat, j: nat)
    requires i < |s| && j < |s|
    ensures multiset(s[i := s[j]][j := s[i]]) == multiset(s)
  {
  }

  lemma TiesSplit<T>(items: seq<T>, key: T -> string, x: T, y: T)
    requires x in items && y in items && key(x) == key(y) && x != y
    ensures exists a, b :: SortOf(items, a, key) && SortOf(items, b, key) && a != b
  {
    hide AtMost;
    var s := Sort(items, key);
    SortSorts(items, key);
    SameMembers(s, items);
    var i :| 0 <= i < |s| && s[i] == x;
    var j :| 0 <= j < |s| && s[j] == y;
    var t := s[i := s[j]][j := s[i]];
    SwapPermutes(s, i, j);
    assert forall k | 0 <= k < |s| :: key(t[k]) == key(s[k]);
    assert SortOf(items, t, key) && t[i] != s[i];
  }

  /** Sorting has exactly one outcome if and only if equal keys mean equal elements. */
  lemma SortedUniqueOnlyWithoutTies<T>(items: seq<T>, key: T -> string)
    ensures (forall a, b | SortOf(items, a, key) && SortOf(items, b, key) :: a == b) <==> TiesEqual(items, key)
  {
    if TiesEqual(items, key) {
      forall a, b | SortOf(items, a, key) && SortOf(items, b, key)
        ensures a == b
      {
        SameMembers(a, items);
        SortedUnique(a, b, key);
      }
    } else {
      var x, y :| x in items && y in items && key(x) == key(y) && x != y;
      TiesSplit(items, key, x, y);
    }
  }

  // ---- mapping ----

  function Map<A, B>(f: A -> B, s: seq<A>): (r: seq<B>)
    ensures |r| == |s| && forall i | 0 <= i < |s| :: r[i] == f(s[i])
  {
    seq(|s|, i requires 0 <= i < |s| => f(s[i]))
  }

  lemma TakeOut<T>(s: seq<T>, k: nat)
    requires k < |s|
    ensures multiset(s) == multiset(s[..k] + s[k + 1..]) + multiset{s[k]}
  {
    assert s == s[..k] + [s[k]] + s[k + 1..];
  }

  /** The head of a list, found in a reordering of it; the rest is a reordering of the rest. */
  lemma MatchHead<T>(s: seq<T>, t: seq<T>) returns (k: nat)
    requires multiset(s) == multiset(t) && s != []
    ensures k < |t| && t[k] == s[0] && multiset(s[1..]) == multiset(t[..k] + t[k + 1..])
  {
    SameMembers(s, t);
    assert s[0] in s;
    k :| 0 <= k < |t| && t[k] == s[0];
    HeadAndTail(s);
    TakeOut(t, k);
    CancelOne(s[0], multiset(s[1..]), multiset(t[..k] + t[k + 1..]));
  }

  lemma {:induction false} MapPermutes<A, B>(f: A -> B, s: seq<A>, t: seq<A>)
    requires multiset(s) == multiset(t)
    ensures multiset(Map(f, s)) == multiset(Map(f, t))
  {
    if s == [] {
      SameMembers(s, t);
    } else {
      var k := MatchHead(s, t);
      var rest := t[..k] + t[k + 1..];
      MapPermutes(f, s[1..], rest);
      HeadAndTail(Map(f, s));
      TakeOut(Map(f, t), k);
      assert Map(f, s)[1..] == Map(f, s[1..]);
      assert Map(f, rest) == Map(f, t)[..k] + Map(f, t)[k + 1..];
    }
  }

  function Identity(s: string): string {
    s
  }

  function SortStrings(s: seq<string>): seq<string> {
    Sort(s, Identity)
  }

  /** Sorted texts depend on nothing but which texts there are. */
  lemma SortStringsPermutes(s: seq<string>, t: seq<string>)
    ensures SortStrings(s) == SortStrings(t) <==> multiset(s) == multiset(t)
    ensures multiset(SortStrings(s)) == multiset(s)
  {
    SortSorts(s, Identity);
    SortSorts(t, Identity);
    if multiset(s) == multiset(t) {
      SortedUnique(SortStrings(s), SortStrings(t), Identity);
    }
  }

  // ---- sorting as the library does it: the keys decide which place goes where ----

  /** Which places of a list of keys to take, in order. */
  type Sorter = seq<string> -> seq<nat>

  function Places(n: nat): seq<nat> {
    seq(n, i => i)
  }

  /** The places are all those of the list, each once, and their keys ascend. Equal keys may come in any
      order, but that order depends on the keys alone. */
  ghost predicate GoodSorter(sorter: Sorter) {
    forall keys :: Orders(keys, sorter(keys))
  }

  ghost predicate Orders(keys: seq<string>, places: seq<nat>) {
    && multiset(places) == multiset(Places(|keys|))
    && (forall i | 0 <= i < |places| :: places[i] < |keys|)
    && forall i, j | 0 <= i < j < |places| :: AtMost(keys[places[i]], keys[places[j]])
  }

  function Arrange<T>(items: seq<T>, places: seq<nat>): (r: seq<T>)
    requires forall i | 0 <= i < |places| :: places[i] < |items|
    ensures |r| == |places| && forall i | 0 <= i < |places| :: r[i] == items[places[i]]
  {
    seq(|places|, i requires 0 <= i < |places| => items[places[i]])
  }

  function SortWith<T>(sorter: Sorter, items: seq<T>, key: T -> string): seq<T>
    requires GoodSorter(sorter)
  {
    Arrange(items, sorter(Map(key, items)))
  }

  lemma SortWithSorts<T>(sorter: Sorter, items: seq<T>, key: T -> string)
    requires GoodSorter(sorter)
    ensures SortOf(items, SortWith(sorter, items, key), key)
  {
    var places := sorter(Map(key, items));
    assert Orders(Map(key, items), places);
    ArrangePermutes(items, places);
  }

  lemma ArrangePermutes<T>(items: seq<T>, places: seq<nat>)
    requires multiset(places) == multiset(Places(|items|)) && forall i | 0 <= i < |places| :: places[i] < |items|
    ensures multiset(Arrange(items, places)) == multiset(items)
  {
    SameMembers(places, Places(|items|));
    if items != [] {
      var at := (p: nat) => if p < |items| then items[p] else items[0];
      MapPermutes(at, places, Places(|items|));
      assert Map(at, Places(|items|)) == items;
      assert Map(at, places) == Arrange(items, places);
    }
  }

  lemma SortedPlacesOrder(keys: seq<string>, key: nat -> string)
    requires forall p: nat | p < |keys| :: key(p) == keys[p]
    ensures Orders(keys, Sort(Places(|keys|), key))
  {
    var places := Sort(Places(|keys|), key);
    SortSorts(Places(|keys|), key);
    SameMembers(places, Places(|keys|));
    forall i | 0 <= i < |places|
      ensures places[i] < |keys|
    {
      assert places[i] in places;
    }
  }

  /** There is such a sorter. */
  lemma SomeSorterIsGood() returns (sorter: Sorter)
    ensures GoodSorter(sorter)
  {
    sorter := keys => Sort(Places(|keys|), (p: nat) => if p < |keys| then keys[p] else "");
    forall keys
      ensures Orders(keys, sorter(keys))
    {
      SortedPlacesOrder(keys, (p: nat) => if p < |keys| then keys[p] else "");
    }
  }

  /** When two entries with one key differ, exchanging them changes the outcome. */
  lemma ExchangeShows<A, B>(sorter: Sorter, f: A -> B, list: seq<A>, key: B -> string) returns (other: seq<A>)
    requires GoodSorter(sorter) && !TiesEqual(Map(f, list), key)
    ensures multiset(other) == multiset(list)
    ensures SortWith(sorter, Map(f, other), key) != SortWith(sorter, Map(f, list), key)
  {
    var items := Map(f, list);
    var x, y :| x in items && y in items && key(x) == key(y) && x != y;
    var i :| 0 <= i < |items| && items[i] == x;
    var j :| 0 <= j < |items| && items[j] == y;
    other := list[i := list[j]][j := list[i]];
    SwapPermutes(list, i, j);
    assert Map(key, Map(f, other)) == Map(key, items);
    var places := sorter(Map(key, items));
    assert Orders(Map(key, items), places);
    var k := Elsewhere(Places(|items|), places, i);
    assert SortWith(sorter, items, key)[k] == x && SortWith(sorter, Map(f, other), key)[k] == y;
  }
}
