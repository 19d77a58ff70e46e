// The generic set of set/set.go: a map-backed set of comparable values that is
// changed in place by Insert, Delete and PopAny, and from which Difference,
// Union and Intersection build new sets.

module Sets {
  import Strings
  import opened Kube

  /** The members of a list of items, duplicates collapsed. */
  function Members<E(==)>(items: seq<E>): set<E>
  {
    set x | x in items
  }

  /** Collapsing duplicates never adds members, and loses none exactly when the items are distinct. */
  lemma {:induction false} MembersCount<E>(items: seq<E>)
    ensures |Members(items)| <= |items|
    ensures |Members(items)| == |items| <==> forall i, j :: 0 <= i < j < |items| ==> items[i] != items[j]
    decreases |items|
  {
    if |items| > 0 {
      var init := items[..|items| - 1];
      var last := items[|items| - 1];
      MembersCount(init);
      assert items == init + [last];
      assert Members(items) == Members(init) + {last};
      if last in init {
        var k :| 0 <= k < |init| && init[k] == last;
        assert items[k] == items[|items| - 1];
        assert Members(items) == Members(init);
      } else {
        assert |Members(items)| == |Members(init)| + 1;
        if |Members(items)| == |items| {
          forall i, j | 0 <= i < j < |items| ensures items[i] != items[j] {
            if j < |items| - 1 {
              assert items[i] == init[i] && items[j] == init[j];
            } else {
              assert items[i] == init[i];
            }
          }
        }
      }
    }
  }

  /** A map that stores no value under two keys has as many values as keys. */
  lemma {:induction false} InjectiveValues<K, V>(m: map<K, V>)
    requires forall a, b :: a in m && b in m && m[a] == m[b] ==> a == b
    ensures |m.Values| == |m|
    decreases |m|
  {
    if m != map[] {
      var k :| k in m;
      var rest := m - {k};
      InjectiveValues(rest);
      forall v | v in m.Values ensures v in rest.Values + {m[k]} {
        var j :| j in m && m[j] == v;
        if j != k {
          assert j in rest && rest[j] == v;
        }
      }
      assert m.Values == rest.Values + {m[k]};
      assert m[k] !in rest.Values;
      assert |m| == |rest| + 1;
    }
  }

  class Set<E(==)> {
    var elems: set<E>

    /** New(items...): exactly the given items, duplicates collapsed. */
    constructor New(items: seq<E>)
      ensures elems == Members(items)
    {
      elems := {};
      new;
      Insert(items);
    }

    predicate Has(item: E)
      reads this
    {
      item in elems
    }

    function Len(): (n: nat)
      reads this
      ensures n == 0 <==> elems == {}
    {
      |elems|
    }

    /** Insert(items...): the old members plus the items. */
    method Insert(items: seq<E>)
      modifies this
      ensures elems == old(elems) + Members(items)
    {
      var i := 0;
      while i < |items|
        invariant 0 <= i <= |items|
        invariant elems == old(elems) + Members(items[..i])
      {
        assert items[..i + 1] == items[..i] + [items[i]];
        elems := elems + {items[i]};
        i := i + 1;
      }
      assert items[..i] == items;
    }

    /** Delete(items...): the old members without the items. */
    method Delete(items: seq<E>)
      modifies this
      ensures elems == old(elems) - Members(items)
    {
      var i := 0;
      while i < |items|
        invariant 0 <= i <= |items|
        invariant elems == old(elems) - Members(items[..i])
      {
        assert items[..i + 1] == items[..i] + [items[i]];
        elems := elems - {items[i]};
        i := i + 1;
      }
      assert items[..i] == items;
    }

    /** HasAll(items...): every item is a member (true for no items). */
    method HasAll(items: seq<E>) returns (r: bool)
      ensures r <==> Members(items) <= elems
    {
      var i := 0;
      while i < |items|
        invariant 0 <= i <= |items|
        invariant forall j :: 0 <= j < i ==> items[j] in elems
      {
        if !Has(items[i]) {
          return false;
        }
        i := i + 1;
      }
      return true;
    }

    /** HasAny(items...): some item is a member (false for no items). */
    method HasAny(items: seq<E>) returns (r: bool)
      ensures r <==> exists j :: 0 <= j < |items| && items[j] in elems
    {
      var i := 0;
      while i < |items|
        invariant 0 <= i <= |items|
        invariant forall j :: 0 <= j < i ==> items[j] !in elems
      {
        if Has(items[i]) {
          return true;
        }
        i := i + 1;
      }
      return false;
    }

    /** Difference(other): a new set of the members of this set that are not in other. */
    method Difference(other: Set<E>) returns (result: Set<E>)
      ensures fresh(result)
      ensures result.elems == elems - other.elems
    {
      result := new Set<E>.New([]);
      var rest := elems;
      while rest != {}
        invariant rest <= elems
        invariant fresh(result)
        invariant result.elems == (elems - rest) - other.elems
        decreases |rest|
      {
        var key :| key in rest;
        if !other.Has(key) {
          result.Insert([key]);
        }
        rest := rest - {key};
      }
    }

    /** Union(other): a new set of the members of either set. */
    method Union(other: Set<E>) returns (result: Set<E>)
      ensures fresh(result)
      ensures result.elems == elems + other.elems
    {
      result := new Set<E>.New([]);
      result.InsertEach(elems);
      result.InsertEach(other.elems);
    }

    /** The loop `for key := range keys { s.Insert(key) }`. */
    method InsertEach(keys: set<E>)
      modifies this
      ensures elems == old(elems) + keys
    {
      var rest := keys;
      while rest != {}
        invariant rest <= keys
        invariant elems == old(elems) + (keys - rest)
        decreases |rest|
      {
        var key :| key in rest;
        Insert([key]);
        rest := rest - {key};
      }
    }

    /** Intersection(other): a new set of the members of both, walking whichever set is smaller. */
    method Intersection(other: Set<E>) returns (result: Set<E>)
      ensures fresh(result)
      ensures result.elems == elems * other.elems
    {
      var walk, compare;
      result := new Set<E>.New([]);
      if Len() < other.Len() {
        walk, compare := this, other;
      } else {
        walk, compare := other, this;
      }
      var rest := walk.elems;
      while rest != {}
        invariant rest <= walk.elems
        invariant fresh(result)
        invariant result.elems == (walk.elems - rest) * compare.elems
        decreases |rest|
      {
        var key :| key in rest;
        if compare.Has(key) {
          result.Insert([key]);
        }
        rest := rest - {key};
      }
    }

    /** IsSuperset(other): every member of other is a member of this set. */
    method IsSuperset(other: Set<E>) returns (r: bool)
      ensures r <==> other.elems <= elems
    {
      var rest := other.elems;
      while rest != {}
        invariant rest <= other.elems
        invariant other.elems - rest <= elems
        decreases |rest|
      {
        var item :| item in rest;
        if !Has(item) {
          return false;
        }
        rest := rest - {item};
      }
      return true;
    }

    /** Equal(other): the same members, decided by equal length and IsSuperset. */
    method Equal(other: Set<E>) returns (r: bool)
      ensures r <==> elems == other.elems
    {
      r := Len() == other.Len();
      if r {
        r := IsSuperset(other);
        if r {
          SameSizeSubsetEqual(other.elems, elems);
        }
      }
    }

    /** Slice(): every member exactly once, in no particular order. */
    method Slice() returns (res: seq<E>)
      ensures Members(res) == elems
      ensures |res| == |elems|
      ensures forall i, j :: 0 <= i < j < |res| ==> res[i] != res[j]
    {
      res := [];
      var rest := elems;
      while rest != {}
        invariant rest <= elems
        invariant Members(res) == elems - rest
        invariant |res| + |rest| == |elems|
        invariant forall i, j :: 0 <= i < j < |res| ==> res[i] != res[j]
        decreases |rest|
      {
        var key :| key in rest;
        assert Members(res + [key]) == Members(res) + {key};
        res := res + [key];
        rest := rest - {key};
      }
    }

    /**
     * PopAny(): on a non-empty set, removes one member and returns it (Go's
     * `(e, true)`); on an empty set returns None (Go's `(zero, false)`) and
     * changes nothing.
     */
    method PopAny() returns (r: Option<E>)
      modifies this
      ensures r.Some? <==> old(elems) != {}
      ensures r.Some? ==> r.value in old(elems) && elems == old(elems) - {r.value} && Len() == old(Len()) - 1
      ensures r.None? ==> elems == old(elems)
    {
      if elems == {} {
        r := None;
      } else {
        var key :| key in elems;
        Delete([key]);
        r := Some(key);
      }
    }
  }

  /** A subset as large as its superset is the whole superset. */
  lemma SameSizeSubsetEqual<E>(a: set<E>, b: set<E>)
    requires a <= b
    requires |a| == |b|
    ensures a == b
  {
    assert b == a + (b - a);
    assert |b - a| == 0;
  }

  /** SortedSlice(set): every member exactly once, in ascending order. */
  method SortedSlice(s: Set<string>) returns (res: seq<string>)
    ensures Strings.StrictlySorted(res)
    ensures Members(res) == s.elems
    ensures |res| == |s.elems|
  {
    res := Strings.SortStrings(s.elems);
  }

  /** Strictly ascending integers: sorted, and no value twice. */
  predicate Ascending(xs: seq<int>)
  {
    forall i, j :: 0 <= i < j < |xs| ==> xs[i] < xs[j]
  }

  /** Puts `x` in its place in an ascending sequence that does not hold it yet. */
  function {:induction false} InsertAscending(xs: seq<int>, x: int): (r: seq<int>)
    requires Ascending(xs)
    requires x !in xs
    ensures Ascending(r)
    ensures |r| == |xs| + 1
    ensures Members(r) == Members(xs) + {x}
    decreases |xs|
  {
    if |xs| == 0 || x < xs[0] then
      assert Members([x] + xs) == {x} + Members(xs);
      [x] + xs
    else
      var rest := InsertAscending(xs[1..], x);
      assert xs == [xs[0]] + xs[1..];
      assert Members(xs) == {xs[0]} + Members(xs[1..]);
      assert Members([xs[0]] + rest) == {xs[0]} + Members(rest);
      assert forall k :: 0 <= k < |rest| ==> xs[0] < rest[k] by {
        forall k | 0 <= k < |rest| ensures xs[0] < rest[k] {
          assert rest[k] in Members(rest);
        }
      }
      [xs[0]] + rest
  }

  /**
   * SortedSlice over a set of integers: the members are collected in the
   * map's order and then sorted, giving every member once, ascending.
   */
  method SortedIntSlice(s: Set<int>) returns (res: seq<int>)
    ensures Ascending(res)
    ensures Members(res) == s.elems
    ensures |res| == |s.elems|
  {
    var items := s.Slice();
    res := [];
    for i := 0 to |items|
      invariant Ascending(res)
      invariant Members(res) == Members(items[..i])
      invariant |res| == i
    {
      assert items[..i + 1] == items[..i] + [items[i]];
      assert Members(items[..i + 1]) == Members(items[..i]) + {items[i]};
      assert items[i] !in Members(items[..i]);
      res := InsertAscending(res, items[i]);
    }
    assert items[..|items|] == items;
  }
}
