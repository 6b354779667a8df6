/** ORDER BY with a total key, and LIMIT: how a set of rows becomes one particular list. */
module Ordering {
  import opened Base

  /** The value of an ORDER BY clause of up to three columns, each ascending. */
  datatype Key = Key(major: int, middle: int, minor: int)

  predicate Less(a: Key, b: Key) {
    || a.major < b.major
    || (a.major == b.major && a.middle < b.middle)
    || (a.major == b.major && a.middle == b.middle && a.minor < b.minor)
  }

  predicate LessOrEqual(a: Key, b: Key) {
    a == b || Less(a, b)
  }

  ghost predicate InOrder<T(!new)>(key: T -> Key, s: seq<T>, i: nat, j: nat)
    requires i < j < |s|
  {
    Less(key(s[i]), key(s[j]))
  }

  ghost predicate Sorted<T(!new)>(key: T -> Key, s: seq<T>) {
    forall i: nat, j: nat {:trigger InOrder(key, s, i, j)} :: i < j < |s| ==> InOrder(key, s, i, j)
  }

  ghost predicate Distinguishes<T(!new)>(key: T -> Key, items: set<T>) {
    forall a, b {:trigger key(a), key(b)} :: a in items && b in items && key(a) == key(b) ==> a == b
  }

  ghost function Elements<T(!new)>(s: seq<T>): set<T> {
    set x | x in s
  }

  ghost predicate IsListing<T(!new)>(key: T -> Key, items: set<T>, s: seq<T>) {
    Sorted(key, s) && Elements(s) == items && |s| == |items|
  }

  /** `ORDER BY key`: the listing of a set, when its key distinguishes its items. */
  ghost function SortSet<T(!new)>(key: T -> Key, items: set<T>): seq<T> {
    if s :| IsListing(key, items, s) then s else []
  }

  /** The place of a new item in a sorted list. */
  lemma {:induction false} PlaceOf<T(!new)>(key: T -> Key, x: T, s: seq<T>) returns (n: nat)
    requires Sorted(key, s)
    requires forall y :: y in s ==> key(y) != key(x)
    ensures n <= |s|
    ensures forall i :: 0 <= i < n ==> Less(key(s[i]), key(x))
    ensures forall i :: n <= i < |s| ==> Less(key(x), key(s[i]))
  {
    n := 0;
    while n < |s| && Less(key(s[n]), key(x))
      invariant n <= |s|
      invariant forall i :: 0 <= i < n ==> Less(key(s[i]), key(x))
    {
      n := n + 1;
    }
    forall i | n <= i < |s| ensures Less(key(x), key(s[i])) {
      assert s[n] in s;
      assert n < i ==> InOrder(key, s, n, i);
    }
  }

  lemma InsertSorts<T(!new)>(key: T -> Key, x: T, s: seq<T>, n: nat)
    requires Sorted(key, s) && n <= |s|
    requires forall i :: 0 <= i < n ==> Less(key(s[i]), key(x))
    requires forall i :: n <= i < |s| ==> Less(key(x), key(s[i]))
    ensures Sorted(key, s[..n] + [x] + s[n..])
    ensures Elements(s[..n] + [x] + s[n..]) == Elements(s) + {x}
  {
    var r := s[..n] + [x] + s[n..];
    forall i: nat, j: nat | i < j < |r| ensures InOrder(key, r, i, j) {
      var i', j' := if i < n then i else i - 1, if j < n then j else j - 1;
      assert i != n && j != n ==> InOrder(key, s, i', j');
    }
    assert s == s[..n] + s[n..];
  }

  lemma {:induction false} ListingExists<T(!new)>(key: T -> Key, items: set<T>) returns (s: seq<T>)
    requires Distinguishes(key, items)
    ensures IsListing(key, items, s)
  {
    if items == {} {
      s := [];
    } else {
      var x :| x in items;
      var rest := ListingExists(key, items - {x});
      forall y | y in rest ensures key(y) != key(x) {
        assert y in Elements(rest);
      }
      var n := PlaceOf(key, x, rest);
      InsertSorts(key, x, rest, n);
      s := rest[..n] + [x] + rest[n..];
    }
  }

  lemma SortSetSorts<T(!new)>(key: T -> Key, items: set<T>)
    requires Distinguishes(key, items)
    ensures IsListing(key, items, SortSet(key, items))
    ensures forall x :: x in SortSet(key, items) <==> x in items
  {
    var s := ListingExists(key, items);
    assert forall x :: x in SortSet(key, items) <==> x in Elements(SortSet(key, items));
  }

  /** A set has one sorted listing. */
  lemma {:induction false} SortedListingIsUnique<T(!new)>(key: T -> Key, s: seq<T>, t: seq<T>)
    requires Sorted(key, s) && Sorted(key, t) && Elements(s) == Elements(t)
    ensures s == t
    decreases |s|
  {
    assert |s| > 0 ==> s[0] in Elements(s);
    assert |t| > 0 ==> t[0] in Elements(t);
    if |s| > 0 && |t| > 0 {
      HeadIsLeast(key, s);
      HeadIsLeast(key, t);
      assert s[0] == t[0];
      TailSorted(key, s);
      TailSorted(key, t);
      SortedListingIsUnique(key, s[1..], t[1..]);
      assert s == [s[0]] + s[1..] && t == [t[0]] + t[1..];
    }
  }

  lemma HeadIsLeast<T(!new)>(key: T -> Key, s: seq<T>)
    requires Sorted(key, s) && s != []
    ensures forall x :: x in Elements(s) ==> x == s[0] || Less(key(s[0]), key(x))
  {
    forall x | x in Elements(s) ensures x == s[0] || Less(key(s[0]), key(x)) {
      var i :| 0 <= i < |s| && s[i] == x;
      assert i > 0 ==> InOrder(key, s, 0, i);
    }
  }

  lemma TailSorted<T(!new)>(key: T -> Key, s: seq<T>)
    requires Sorted(key, s) && s != []
    ensures Sorted(key, s[1..]) && Elements(s[1..]) == Elements(s) - {s[0]}
  {
    forall i: nat, j: nat | i < j < |s[1..]| ensures InOrder(key, s[1..], i, j) {
      assert InOrder(key, s, i + 1, j + 1);
    }
    forall x | x in s[1..] ensures x != s[0] {
      var i :| 0 <= i < |s[1..]| && s[1..][i] == x;
      assert InOrder(key, s, 0, i + 1);
    }
    assert s == [s[0]] + s[1..];
  }

  /** A sorted list of exactly the items is their listing. */
  lemma SortSetIs<T(!new)>(key: T -> Key, items: set<T>, s: seq<T>)
    requires Distinguishes(key, items) && Sorted(key, s) && Elements(s) == items
    ensures SortSet(key, items) == s
  {
    SortSetSorts(key, items);
    SortedListingIsUnique(key, SortSet(key, items), s);
  }

  /** `LIMIT n` */
  function First<T>(n: nat, s: seq<T>): seq<T> {
    s[..if n < |s| then n else |s|]
  }

  /** The beginning of a listing: sorted, and before everything that was left out. */
  lemma FirstOfListing<T(!new)>(key: T -> Key, items: set<T>, all: seq<T>, limit: nat)
    requires IsListing(key, items, all)
    ensures var s := First(limit, all);
      && |s| == Min(limit, |items|) && Sorted(key, s) && Elements(s) <= items
      && (forall i, j :: 0 <= i < j < |s| ==> s[i] != s[j])
      && (forall x, y :: x in s && y in items && y !in s ==> Less(key(x), key(y)))
      && (forall y :: y in items && y !in s ==> |s| == limit)
  {
    var s := First(limit, all);
    forall y | y in items && y !in s ensures |s| == limit {
      assert y in Elements(all);
    }
    forall i: nat, j: nat | i < j < |s| ensures InOrder(key, s, i, j) && s[i] != s[j] {
      assert InOrder(key, all, i, j);
    }
    forall x | x in s ensures x in items {
      assert x in all && x in Elements(all);
    }
    forall x, y | x in s && y in items && y !in s ensures Less(key(x), key(y)) {
      assert y in Elements(all);
      var i :| 0 <= i < |s| && s[i] == x;
      var j :| 0 <= j < |all| && all[j] == y;
      assert j >= |s|;
      assert InOrder(key, all, i, j);
    }
  }

  // ---------------------------------------------------------------- producing the list

  method Least<T(==, !new)>(key: T -> Key, items: set<T>) returns (least: T)
    requires items != {} && Distinguishes(key, items)
    ensures least in items && forall other :: other in items && other != least ==> Less(key(least), key(other))
  {
    var first :| first in items;
    least := first;
    var todo := items - {first};
    while todo != {}
      invariant least in items && todo <= items && least !in todo
      invariant forall other :: other in items - todo && other != least ==> Less(key(least), key(other))
      decreases |todo|
    {
      var next :| next in todo;
      if Less(key(next), key(least)) {
        least := next;
      }
      todo := todo - {next};
    }
  }

  /** `s` lists in order what has left the pool, and everything left comes after it. */
  ghost predicate ChosenSoFar<T(!new)>(key: T -> Key, pool: set<T>, s: seq<T>, rest: set<T>) {
    && Sorted(key, s) && Elements(s) == pool - rest
    && forall id, other :: id in s && other in rest ==> Less(key(id), key(other))
  }

  lemma ChooseNext<T(!new)>(key: T -> Key, pool: set<T>, s: seq<T>, rest: set<T>, least: T)
    requires ChosenSoFar(key, pool, s, rest) && rest <= pool && least in rest
    requires forall other :: other in rest && other != least ==> Less(key(least), key(other))
    ensures ChosenSoFar(key, pool, s + [least], rest - {least})
  {
    var longer := s + [least];
    forall i: nat, j: nat | i < j < |longer| ensures InOrder(key, longer, i, j) {
      if j < |s| {
        assert InOrder(key, s, i, j);
      } else {
        assert s[i] in s;
      }
    }
    assert Elements(longer) == Elements(s) + {least};
    assert Elements(longer) == pool - (rest - {least});
  }

  lemma ChosenIsFirst<T(!new)>(key: T -> Key, pool: set<T>, s: seq<T>, rest: set<T>, limit: nat)
    requires Distinguishes(key, pool) && rest <= pool && ChosenSoFar(key, pool, s, rest)
    requires |s| == limit || (rest == {} && |s| <= limit)
    ensures s == First(limit, SortSet(key, pool))
  {
    var tail := SortSet(key, rest);
    SortSetSorts(key, rest);
    var all := s + tail;
    forall i: nat, j: nat | i < j < |all| ensures InOrder(key, all, i, j) {
      if j < |s| {
        assert InOrder(key, s, i, j);
      } else if i >= |s| {
        assert InOrder(key, tail, i - |s|, j - |s|);
      } else {
        assert s[i] in s && tail[j - |s|] in tail;
      }
    }
    assert Elements(all) == Elements(s) + Elements(tail);
    assert Elements(all) == pool;
    SortSetIs(key, pool, all);
    assert rest == {} ==> tail == [];
  }

  /** `ORDER BY key LIMIT limit`: takes the least remaining item until the limit. */
  method SelectFirst<T(==, !new)>(key: T -> Key, pool: set<T>, limit: nat) returns (s: seq<T>)
    requires Distinguishes(key, pool)
    ensures s == First(limit, SortSet(key, pool))
  {
    var rest := pool;
    s := [];
    while rest != {} && |s| < limit
      invariant rest <= pool && |s| <= limit
      invariant ChosenSoFar(key, pool, s, rest)
      decreases |rest|
    {
      var least := Least(key, rest);
      ChooseNext(key, pool, s, rest, least);
      s := s + [least];
      rest := rest - {least};
    }
    ChosenIsFirst(key, pool, s, rest, limit);
  }
}
