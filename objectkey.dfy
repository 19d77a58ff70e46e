// ObjectKeySet of clientutils/objectkey.go: a map-backed set of object keys.
// Insert and Delete change the set in place; Has and Len also accept the nil
// set, which holds no keys.

module ObjectKeys {
  import opened Kube
  import Sets

  class ObjectKeySet {
    var keys: set<ObjectKey>

    /** NewObjectKeySet(items...): exactly the given keys. */
    constructor New(items: seq<ObjectKey>)
      ensures keys == Sets.Members(items)
    {
      keys := {};
      new;
      Insert(items);
    }

    /** Insert(items...): the old keys plus the items; inserting a present key changes nothing. */
    method Insert(items: seq<ObjectKey>)
      modifies this
      ensures keys == old(keys) + Sets.Members(items)
    {
      var i := 0;
      while i < |items|
        invariant 0 <= i <= |items|
        invariant keys == old(keys) + Sets.Members(items[..i])
      {
        assert items[..i + 1] == items[..i] + [items[i]];
        keys := keys + {items[i]};
        i := i + 1;
      }
      assert items[..i] == items;
    }

    /** Delete(items...): the old keys without the items; absent items are ignored. */
    method Delete(items: seq<ObjectKey>)
      modifies this
      ensures keys == old(keys) - Sets.Members(items)
    {
      var i := 0;
      while i < |items|
        invariant 0 <= i <= |items|
        invariant keys == old(keys) - Sets.Members(items[..i])
      {
        assert items[..i + 1] == items[..i] + [items[i]];
        keys := keys - {items[i]};
        i := i + 1;
      }
      assert items[..i] == items;
    }
  }

  /** Has: the key is in the set; the nil set has no keys. */
  predicate Has(s: ObjectKeySet?, item: ObjectKey)
    reads s
  {
    s != null && item in s.keys
  }

  /** Len: the number of distinct keys, 0 for the nil set. */
  function Len(s: ObjectKeySet?): (n: nat)
    reads s
    ensures n == 0 <==> forall k :: !Has(s, k)
  {
    if s == null then 0
    else
      assert s.keys != {} ==> exists k :: Has(s, k) by {
        if s.keys != {} {
          var k :| k in s.keys;
          assert Has(s, k);
        }
      }
      |s.keys|
  }

  /** A set built from n distinct keys has length n, and duplicates only shorten it. */
  method NewLen(items: seq<ObjectKey>) returns (s: ObjectKeySet, n: nat)
    ensures n == Len(s) && n <= |items|
    ensures n == |items| <==> forall i, j :: 0 <= i < j < |items| ==> items[i] != items[j]
    ensures forall k :: Has(s, k) <==> k in items
  {
    s := new ObjectKeySet.New(items);
    n := Len(s);
    Sets.MembersCount(items);
  }

  /** A key inserted and not deleted afterwards is present; a deleted one is not. */
  method InsertThenDelete(s: ObjectKeySet, inserted: seq<ObjectKey>, deleted: seq<ObjectKey>)
    modifies s
    ensures forall k :: Has(s, k) <==> (old(Has(s, k)) || k in inserted) && k !in deleted
  {
    s.Insert(inserted);
    s.Delete(deleted);
  }
}
