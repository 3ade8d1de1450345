/** Sorted runs of leaf items, and the finite map such a run denotes. */
module Items {
  import opened Bytes
  import opened Keys
  import Seqs

  type Value = seq<byte>

  datatype LeafItem = LeafItem(key: Key, value: Value)

  /** Every key of the run lies in [lo, hi). */
  ghost predicate Within(items: seq<LeafItem>, lo: Key, hi: nat) {
    forall i :: 0 <= i < |items| ==> lo <= items[i].key < hi
  }

  ghost predicate Below(items: seq<LeafItem>, k: Key) {
    forall i :: 0 <= i < |items| ==> items[i].key < k
  }

  ghost predicate Above(items: seq<LeafItem>, k: Key) {
    forall i :: 0 <= i < |items| ==> k < items[i].key
  }

  ghost predicate Sorted(items: seq<LeafItem>) {
    items == [] || (Above(items[1..], items[0].key) && Sorted(items[1..]))
  }

  /** Where a binary search for `k` ends: the number of leading items below `k`. */
  function Position(items: seq<LeafItem>, k: Key): (p: nat)
    ensures p <= |items|
  {
    if items == [] || k <= items[0].key then 0 else 1 + Position(items[1..], k)
  }

  predicate Has(items: seq<LeafItem>, k: Key) {
    items != [] && (items[0].key == k || (items[0].key < k && Has(items[1..], k)))
  }

  function Get(items: seq<LeafItem>, k: Key): Option<Value> {
    if items == [] || k < items[0].key then None
    else if k == items[0].key then Some(items[0].value)
    else Get(items[1..], k)
  }

  /** Replace the value under `k`, or insert it in key order. */
  function Put(items: seq<LeafItem>, k: Key, v: Value): (r: seq<LeafItem>)
    ensures r != []
  {
    if items == [] || k < items[0].key then [LeafItem(k, v)] + items
    else if k == items[0].key then [LeafItem(k, v)] + items[1..]
    else [items[0]] + Put(items[1..], k, v)
  }

  function Drop(items: seq<LeafItem>, k: Key): (r: seq<LeafItem>) {
    if items == [] || k < items[0].key then items
    else if k == items[0].key then items[1..]
    else [items[0]] + Drop(items[1..], k)
  }

  /** The items whose key lies in [min, max], in order. */
  function Filter(items: seq<LeafItem>, min: Key, max: Key): (r: seq<LeafItem>) {
    if items == [] then []
    else if min <= items[0].key <= max then [items[0]] + Filter(items[1..], min, max)
    else Filter(items[1..], min, max)
  }

  ghost function MapOf(items: seq<LeafItem>): map<Key, Value> {
    if items == [] then map[] else MapOf(items[1..])[items[0].key := items[0].value]
  }

  // ----- What a binary search by index does to the run

  lemma {:induction false} PositionFinds(items: seq<LeafItem>, k: Key)
    ensures var p := Position(items, k);
            && (Has(items, k) <==> p < |items| && items[p].key == k)
            && (Has(items, k) ==> Get(items, k) == Some(items[p].value))
            && (Get(items, k).Some? <==> Has(items, k))
  {
    if items != [] && items[0].key < k { PositionFinds(items[1..], k); }
  }

  lemma {:induction false} PutByIndex(items: seq<LeafItem>, k: Key, v: Value)
    ensures var p := Position(items, k);
            Put(items, k, v) == if p < |items| && items[p].key == k then items[..p] + [LeafItem(k, v)] + items[p + 1..]
                                else items[..p] + [LeafItem(k, v)] + items[p..]
  {
    if items != [] && items[0].key < k {
      var rest, p := items[1..], Position(items[1..], k);
      PutByIndex(rest, k, v);
      Seqs.EditBehindHead(items, LeafItem(k, v), p, if p < |rest| && rest[p].key == k then p + 1 else p);
    }
  }

  lemma {:induction false} DropByIndex(items: seq<LeafItem>, k: Key)
    ensures var p := Position(items, k);
            p < |items| && items[p].key == k ==> Drop(items, k) == items[..p] + items[p + 1..]
  {
    if items != [] && items[0].key < k {
      var rest, p := items[1..], Position(items[1..], k);
      DropByIndex(rest, k);
      assert [items[0]] + rest[..p] == items[..p + 1];
      assert p < |rest| ==> rest[p] == items[p + 1] && rest[p + 1..] == items[p + 2..];
    }
  }

  lemma {:induction false} DropAbsent(items: seq<LeafItem>, k: Key)
    requires !Has(items, k)
    ensures Drop(items, k) == items
  {
    if items != [] && items[0].key < k { DropAbsent(items[1..], k); }
  }

  // ----- Put, Drop and Get are the operations of a map

  lemma {:induction false} MapOfKeys(items: seq<LeafItem>, lo: Key, hi: nat)
    requires Within(items, lo, hi)
    ensures forall k :: k in MapOf(items) ==> lo <= k < hi
  {
    if items != [] { MapOfKeys(items[1..], lo, hi); }
  }

  lemma {:induction false} AboveMap(items: seq<LeafItem>, b: Key)
    requires Above(items, b)
    ensures forall k :: k in MapOf(items) ==> b < k
  {
    if items != [] { AboveMap(items[1..], b); }
  }

  lemma {:induction false} PutAbove(items: seq<LeafItem>, k: Key, v: Value, b: Key)
    requires Above(items, b) && b < k
    ensures Above(Put(items, k, v), b)
  {
    if items != [] && items[0].key < k { PutAbove(items[1..], k, v, b); }
  }

  lemma {:induction false} PutWithin(items: seq<LeafItem>, k: Key, v: Value, lo: Key, hi: nat)
    requires Within(items, lo, hi) && lo <= k < hi
    ensures Within(Put(items, k, v), lo, hi)
  {
    if items != [] && items[0].key < k { PutWithin(items[1..], k, v, lo, hi); }
  }

  lemma {:induction false} DropWithin(items: seq<LeafItem>, k: Key, lo: Key, hi: nat)
    requires Within(items, lo, hi)
    ensures Within(Drop(items, k), lo, hi)
  {
    if items != [] && items[0].key < k { DropWithin(items[1..], k, lo, hi); }
  }

  lemma {:induction false} DropAbove(items: seq<LeafItem>, k: Key, b: Key)
    requires Above(items, b)
    ensures Above(Drop(items, k), b)
  {
    if items != [] && items[0].key < k { DropAbove(items[1..], k, b); }
  }

  /** The run with `k` put in stays sorted and denotes the updated map. */
  lemma {:induction false} PutIsMapUpdate(items: seq<LeafItem>, k: Key, v: Value)
    requires Sorted(items)
    ensures Sorted(Put(items, k, v))
    ensures MapOf(Put(items, k, v)) == MapOf(items)[k := v]
  {
    var r := Put(items, k, v);
    if items != [] {
      AboveMap(items[1..], items[0].key);
    }
    if items == [] || k < items[0].key {
      assert r[1..] == items;
    } else if k == items[0].key {
      assert r[1..] == items[1..];
    } else {
      assert r[1..] == Put(items[1..], k, v);
      PutIsMapUpdate(items[1..], k, v);
      PutAbove(items[1..], k, v, items[0].key);
    }
  }

  /** The run with `k` dropped stays sorted and denotes the map without `k`. */
  lemma {:induction false} DropIsMapRemoval(items: seq<LeafItem>, k: Key)
    requires Sorted(items)
    ensures Sorted(Drop(items, k))
    ensures MapOf(Drop(items, k)) == MapOf(items) - {k}
  {
    if items != [] {
      AboveMap(items[1..], items[0].key);
      if items[0].key < k {
        var r := Drop(items, k);
        assert r[1..] == Drop(items[1..], k);
        DropIsMapRemoval(items[1..], k);
        DropAbove(items[1..], k, items[0].key);
      }
    }
  }

  lemma {:induction false} GetIsMapLookup(items: seq<LeafItem>, k: Key)
    requires Sorted(items)
    ensures k in MapOf(items) <==> Has(items, k)
    ensures Get(items, k) == if k in MapOf(items) then Some(MapOf(items)[k]) else None
  {
    if items != [] {
      AboveMap(items[1..], items[0].key);
      GetIsMapLookup(items[1..], k);
      PositionFinds(items, k);
    }
  }

  lemma {:induction false} NothingBelow(items: seq<LeafItem>, k: Key)
    requires Above(items, k)
    ensures Get(items, k) == None && !Has(items, k) && Drop(items, k) == items
  {
  }

  // ----- Runs side by side

  lemma {:induction false} SortedAppend(a: seq<LeafItem>, b: seq<LeafItem>, m: Key)
    requires Sorted(a) && Sorted(b) && Below(a, m) && forall i :: 0 <= i < |b| ==> m <= b[i].key
    ensures Sorted(a + b)
  {
    if a == [] {
      assert a + b == b;
    } else {
      SortedAppend(a[1..], b, m);
      assert (a + b)[1..] == a[1..] + b;
    }
  }

  lemma {:induction false} SortedSplit(items: seq<LeafItem>, m: nat)
    requires Sorted(items) && m < |items|
    ensures Sorted(items[..m]) && Sorted(items[m..])
    ensures Below(items[..m], items[m].key)
    ensures forall i :: m <= i < |items| ==> items[m].key <= items[i].key
  {
    if m > 0 {
      SortedSplit(items[1..], m - 1);
      assert items[..m][1..] == items[1..][..m - 1];
      assert items[m..] == items[1..][m - 1..];
      forall i | m <= i < |items| ensures items[m].key <= items[i].key {
        assert items[i] == items[1..][i - 1];
      }
      forall i | 0 <= i < m ensures items[i].key < items[m].key {
        assert items[m] == items[1..][m - 1];
        if i > 0 { assert items[i] == items[1..][..m - 1][i - 1]; }
      }
    } else {
      assert items[..0] == [] && items[0..] == items;
      forall i | 0 <= i < |items| ensures items[0].key <= items[i].key {
        if i > 0 { assert items[i] == items[1..][i - 1]; }
      }
    }
  }

  /** Items below `k` in front of a run do not affect an update of `k`. */
  lemma {:induction false} AfterPrefix(a: seq<LeafItem>, b: seq<LeafItem>, k: Key, v: Value)
    requires Below(a, k)
    ensures Put(a + b, k, v) == a + Put(b, k, v)
    ensures Drop(a + b, k) == a + Drop(b, k)
    ensures Get(a + b, k) == Get(b, k)
    ensures Has(a + b, k) == Has(b, k)
  {
    if a == [] {
      Seqs.EmptyLeft(b);
      Seqs.EmptyLeft(Put(b, k, v));
      Seqs.EmptyLeft(Drop(b, k));
    } else {
      AfterPrefix(a[1..], b, k, v);
      Seqs.TailOfAppend(a, b);
      Seqs.HeadTail(a);
      Seqs.Assoc([a[0]], a[1..], Put(b, k, v));
      Seqs.Assoc([a[0]], a[1..], Drop(b, k));
    }
  }

  /** Items above `k` behind a run do not affect an update of `k`. */
  lemma {:induction false} BeforeSuffix(b: seq<LeafItem>, c: seq<LeafItem>, k: Key, v: Value)
    requires Above(c, k)
    ensures Put(b + c, k, v) == Put(b, k, v) + c
    ensures Drop(b + c, k) == Drop(b, k) + c
    ensures Get(b + c, k) == Get(b, k)
    ensures Has(b + c, k) == Has(b, k)
  {
    if b == [] {
      Seqs.EmptyLeft(c);
      assert Put(b, k, v) == [LeafItem(k, v)];
    } else {
      Seqs.TailOfAppend(b, c);
      if b[0].key < k {
        BeforeSuffix(b[1..], c, k, v);
        Seqs.Assoc([b[0]], Put(b[1..], k, v), c);
        Seqs.Assoc([b[0]], Drop(b[1..], k), c);
      } else if k == b[0].key {
        Seqs.Assoc([LeafItem(k, v)], b[1..], c);
      } else {
        Seqs.Assoc([LeafItem(k, v)], b, c);
      }
    }
  }

  /** An update that belongs in the middle of three runs is an update of the middle run. */
  lemma MiddleOfThree(a: seq<LeafItem>, b: seq<LeafItem>, c: seq<LeafItem>, k: Key, v: Value)
    requires Below(a, k) && Above(c, k)
    ensures Put(a + b + c, k, v) == a + Put(b, k, v) + c
    ensures Drop(a + b + c, k) == a + Drop(b, k) + c
    ensures Get(a + b + c, k) == Get(b, k)
    ensures Has(a + b + c, k) == Has(b, k)
  {
    BeforeSuffix(a + b, c, k, v);
    AfterPrefix(a, b, k, v);
  }

  lemma {:induction false} FilterAppend(a: seq<LeafItem>, b: seq<LeafItem>, min: Key, max: Key)
    ensures Filter(a + b, min, max) == Filter(a, min, max) + Filter(b, min, max)
  {
    if a == [] {
      Seqs.EmptyLeft(b);
    } else {
      FilterAppend(a[1..], b, min, max);
      Seqs.TailOfAppend(a, b);
      Seqs.Assoc([a[0]], Filter(a[1..], min, max), Filter(b, min, max));
    }
  }

  lemma {:induction false} FilterNone(items: seq<LeafItem>, min: Key, max: Key)
    requires Below(items, min) || Above(items, max)
    ensures Filter(items, min, max) == []
  {
    if items != [] { FilterNone(items[1..], min, max); }
  }

  lemma {:induction false} FilterAbove(items: seq<LeafItem>, min: Key, max: Key, b: Key)
    requires Above(items, b)
    ensures Above(Filter(items, min, max), b)
  {
    if items != [] { FilterAbove(items[1..], min, max, b); }
  }

  /** A filtered run is the sorted run of exactly the in-range part of the map. */
  lemma {:induction false} FilterIsTheRange(items: seq<LeafItem>, min: Key, max: Key)
    requires Sorted(items)
    ensures Sorted(Filter(items, min, max))
    ensures MapOf(Filter(items, min, max)) == map k | k in MapOf(items) && min <= k <= max :: MapOf(items)[k]
  {
    if items != [] {
      var rest := items[1..];
      FilterIsTheRange(rest, min, max);
      FilterAbove(rest, min, max, items[0].key);
      AboveMap(rest, items[0].key);
      if min <= items[0].key <= max {
        assert Filter(items, min, max)[1..] == Filter(rest, min, max);
      }
    }
  }

  /** A one-key range is a lookup. */
  lemma {:induction false} OneKeyRange(items: seq<LeafItem>, k: Key)
    requires Sorted(items)
    ensures Filter(items, k, k) == match Get(items, k) case None => [] case Some(v) => [LeafItem(k, v)]
  {
    if items != [] {
      if items[0].key < k { OneKeyRange(items[1..], k); }
      else { FilterNone(items[1..], k, k); }
    }
  }

  /** An update inside a range updates what the range holds; one outside it does not. */
  lemma {:induction false} FilterPut(items: seq<LeafItem>, k: Key, v: Value, min: Key, max: Key)
    requires Sorted(items)
    ensures min <= k <= max ==> Filter(Put(items, k, v), min, max) == Put(Filter(items, min, max), k, v)
    ensures !(min <= k <= max) ==> Filter(Put(items, k, v), min, max) == Filter(items, min, max)
  {
    var r := Put(items, k, v);
    if items == [] {
      assert r == [LeafItem(k, v)];
    } else if k < items[0].key {
      assert r[1..] == items;
      PutFirst(items, k, v, min, max);
    } else if k == items[0].key {
      assert r[1..] == items[1..];
    } else {
      assert r[1..] == Put(items[1..], k, v);
      FilterPut(items[1..], k, v, min, max);
    }
  }

  /** A removal inside a range removes from what the range holds; one outside it does not. */
  lemma {:induction false} FilterDrop(items: seq<LeafItem>, k: Key, min: Key, max: Key)
    requires Sorted(items)
    ensures min <= k <= max ==> Filter(Drop(items, k), min, max) == Drop(Filter(items, min, max), k)
    ensures !(min <= k <= max) ==> Filter(Drop(items, k), min, max) == Filter(items, min, max)
  {
    if items != [] {
      var r, rest := Drop(items, k), items[1..];
      FilterAbove(rest, min, max, items[0].key);
      if items[0].key < k {
        assert r[1..] == Drop(rest, k);
        FilterDrop(rest, k, min, max);
      } else if k < items[0].key {
        FilterAbove(items, min, max, k);
        DropAbsent(Filter(items, min, max), k);
      }
    }
  }

  lemma {:induction false} PutFirst(items: seq<LeafItem>, k: Key, v: Value, min: Key, max: Key)
    requires Sorted(items) && items != [] && k < items[0].key
    ensures Put(Filter(items, min, max), k, v) == [LeafItem(k, v)] + Filter(items, min, max)
  {
    assert Above(items, k);
    FilterAbove(items, min, max, k);
  }

  lemma {:induction false} PutLast(items: seq<LeafItem>, k: Key, v: Value)
    requires Below(items, k)
    ensures Put(items, k, v) == items + [LeafItem(k, v)]
  {
    if items == [] {
      Seqs.EmptyLeft([LeafItem(k, v)]);
      Seqs.EmptyRight([LeafItem(k, v)]);
    } else {
      PutLast(items[1..], k, v);
      Seqs.HeadTail(items);
      Seqs.Assoc([items[0]], items[1..], [LeafItem(k, v)]);
    }
  }

  lemma {:induction false} ItemInMap(items: seq<LeafItem>, i: nat)
    requires Sorted(items) && i < |items|
    ensures items[i].key in MapOf(items) && MapOf(items)[items[i].key] == items[i].value
  {
    if i > 0 {
      assert items[i] == items[1..][i - 1];
      ItemInMap(items[1..], i - 1);
    }
  }
}
