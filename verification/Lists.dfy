/** Lists whose items carry an id, read as tables by that id. */
module Lists {
  import opened Options

  function Lookup<K, V>(m: map<K, V>, k: K): Option<V> {
    if k in m then Some(m[k]) else None
  }

  /** The list without one item. */
  function Removed<T>(items: seq<T>, at: nat): (left: seq<T>)
    requires at < |items|
    ensures |left| == |items| - 1
  {
    items[..at] + items[at + 1..]
  }

  lemma RemovedItems<T>(items: seq<T>, at: nat)
    requires at < |items|
    ensures forall t <- Removed(items, at) :: t in items
    ensures forall t <- items :: t == items[at] || t in Removed(items, at)
  {
    var left := Removed(items, at);
    forall i | 0 <= i < |items| ensures items[i] == items[at] || items[i] in left {
      if i < at {
        assert left[i] == items[i];
      } else if i > at {
        assert left[i - 1] == items[i];
      }
    }
  }

  /** The items of one list are in another, in the same order. */
  ghost predicate InOrder<T>(few: seq<T>, items: seq<T>) {
    few == []
    || (items != [] && (InOrder(few, items[1..]) || (few[0] == items[0] && InOrder(few[1..], items[1..]))))
  }

  lemma {:induction false} AllInOrder<T>(items: seq<T>)
    ensures InOrder(items, items)
  {
    if items != [] {
      AllInOrder(items[1..]);
    }
  }

  lemma {:induction false} InOrderWithOneMore<T>(few: seq<T>, items: seq<T>, at: nat)
    requires at < |items| && InOrder(few, Removed(items, at))
    ensures InOrder(few, items)
  {
    if at > 0 && few != [] {
      var left := Removed(items, at);
      assert left[1..] == Removed(items[1..], at - 1);
      if InOrder(few, left[1..]) {
        InOrderWithOneMore(few, items[1..], at - 1);
      } else {
        InOrderWithOneMore(few[1..], items[1..], at - 1);
      }
    } else if few != [] {
      assert Removed(items, at) == items[1..];
    }
  }

  /** The first of the items whose value is least. */
  predicate IsFirstLeast<T>(items: seq<T>, value: T -> int, at: nat) {
    && at < |items|
    && (forall i :: 0 <= i < |items| ==> value(items[at]) <= value(items[i]))
    && forall i :: 0 <= i < at ==> value(items[at]) < value(items[i])
  }

  /** The first item with this id. */
  function Find<T>(items: seq<T>, id: T -> string, wanted: string): (found: Option<T>)
    ensures found.Some? ==> found.value in items && id(found.value) == wanted
    ensures found.None? ==> forall t <- items :: id(t) != wanted
  {
    if items == [] then None
    else if id(items[0]) == wanted then Some(items[0])
    else Find(items[1..], id, wanted)
  }

  predicate Has<T>(items: seq<T>, id: T -> string, wanted: string) {
    Find(items, id, wanted).Some?
  }

  lemma HasOneMore<T>(items: seq<T>, id: T -> string, i: nat)
    requires i < |items|
    ensures forall k :: Has(items[..i + 1], id, k) <==> Has(items[..i], id, k) || k == id(items[i])
  {
    var fewer, more := items[..i], items[..i + 1];
    assert more == fewer + [items[i]];
    forall k ensures Has(more, id, k) <==> Has(fewer, id, k) || k == id(items[i]) {
      assert items[i] in more;
      assert forall t <- fewer :: t in more;
      assert forall t <- more :: t in fewer || t == items[i];
    }
  }

  predicate Distinct<T>(items: seq<T>, id: T -> string) {
    forall i, j :: 0 <= i < j < |items| ==> id(items[i]) != id(items[j])
  }

  function Ids<T(==)>(items: seq<T>, id: T -> string): set<string> {
    set t | t in items :: id(t)
  }

  lemma DistinctOneMore<T>(items: seq<T>, id: T -> string, item: T)
    requires Distinct(items, id)
    ensures Distinct(items + [item], id) <==> id(item) !in Ids(items, id)
  {
    var more := items + [item];
    if id(item) in Ids(items, id) {
      var t :| t in items && id(t) == id(item);
      var i :| 0 <= i < |items| && items[i] == t;
      assert id(more[i]) == id(more[|items|]);
    } else {
      forall i, j | 0 <= i < j < |more| ensures id(more[i]) != id(more[j]) {
        assert id(items[i]) in Ids(items, id) by { assert items[i] in items; }
      }
    }
  }

  /** The items by their ids. */
  function Table<T(==)>(items: seq<T>, id: T -> string): (table: map<string, T>)
    ensures table.Keys == Ids(items, id)
    ensures forall k :: Lookup(table, k) == Find(items, id, k)
  {
    map k | k in Ids(items, id) :: Find(items, id, k).value
  }

  lemma FindAt<T>(items: seq<T>, id: T -> string, i: nat)
    requires Distinct(items, id) && i < |items|
    ensures Find(items, id, id(items[i])) == Some(items[i])
  {
    var found := Find(items, id, id(items[i]));
    assert found.Some? by {
      assert items[i] in items;
    }
    var j :| 0 <= j < |items| && items[j] == found.value;
    assert i == j;
  }

  lemma SameTable<K, V>(a: map<K, V>, b: map<K, V>)
    requires forall k :: Lookup(a, k) == Lookup(b, k)
    ensures a == b
  {
    forall k ensures k in a <==> k in b {
      assert Lookup(a, k) == Lookup(b, k);
    }
    forall k | k in a ensures a[k] == b[k] {
      assert Lookup(a, k) == Lookup(b, k);
    }
  }
}
