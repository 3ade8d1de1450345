/** Where an overflowing leaf is cut in two. */
module LeafSplit {
  import opened Bytes
  import opened Keys
  import opened Items
  import opened Trees

  predicate Fits(items: seq<LeafItem>) {
    LeafSize(items) <= BLOCK_SIZE
  }

  /** Both halves are non-empty and fit in a block. */
  predicate GoodSplit(items: seq<LeafItem>, j: nat) {
    1 <= j < |items| && Fits(items[..j]) && Fits(items[j..])
  }

  /** Move the cut left while the left half does not fit. */
  function MovedLeft(items: seq<LeafItem>, i: nat): (j: nat)
    requires i <= |items|
    ensures j <= i && (i >= 1 ==> j >= 1)
  {
    if i > 1 && !Fits(items[..i]) then MovedLeft(items, i - 1) else i
  }

  /** Move the cut right while the right half does not fit. */
  function MovedRight(items: seq<LeafItem>, i: nat): (j: nat)
    requires i < |items|
    ensures i <= j < |items|
    decreases |items| - i
  {
    if i < |items| - 1 && !Fits(items[i..]) then MovedRight(items, i + 1) else i
  }

  function SplitIndex(items: seq<LeafItem>): (i: nat)
    requires items != []
    ensures i < |items|
    ensures |items| >= 2 ==> i >= 1
  {
    MovedRight(items, MovedLeft(items, |items| / 2))
  }

  lemma LeafSizeSplit(items: seq<LeafItem>, i: nat)
    requires i <= |items|
    ensures LeafSize(items) + 24 == LeafSize(items[..i]) + LeafSize(items[i..])
  {
    assert items == items[..i] + items[i..];
    ValueBytesAppend(items[..i], items[i..]);
  }

  lemma SizesGrow(items: seq<LeafItem>, i: nat, j: nat)
    requires i <= j <= |items|
    ensures LeafSize(items[..i]) <= LeafSize(items[..j])
    ensures LeafSize(items[j..]) <= LeafSize(items[i..])
  {
    LeafSizeSplit(items[..j], i);
    assert items[..j][..i] == items[..i];
    LeafSizeSplit(items[i..], j - i);
    assert items[i..][j - i..] == items[j..];
  }

  lemma {:induction false} MovedLeftPast(items: seq<LeafItem>, i: nat, g: nat)
    requires 1 <= g <= i <= |items| && Fits(items[..g])
    ensures g <= MovedLeft(items, i) && Fits(items[..MovedLeft(items, i)])
  {
    if i > 1 && !Fits(items[..i]) {
      assert g < i;
      MovedLeftPast(items, i - 1, g);
    } else if i == 1 {
      assert g == i;
    }
  }

  lemma {:induction false} MovedRightUpTo(items: seq<LeafItem>, i: nat, g: nat)
    requires i <= g < |items| && Fits(items[g..])
    ensures MovedRight(items, i) <= g && Fits(items[MovedRight(items, i)..])
    decreases |items| - i
  {
    if i < |items| - 1 && !Fits(items[i..]) {
      assert i != g;
      MovedRightUpTo(items, i + 1, g);
    } else if i == |items| - 1 {
      assert i == g;
    }
  }

  /** The two loops find a cut that leaves both halves fitting whenever there is one at all: the one nearest the middle. */
  lemma SplitIndexIsGoodIfAnyIs(items: seq<LeafItem>, g: nat)
    requires GoodSplit(items, g)
    ensures GoodSplit(items, SplitIndex(items))
    ensures if g <= |items| / 2 then g <= SplitIndex(items) <= |items| / 2 else |items| / 2 <= SplitIndex(items) <= g
  {
    var half := |items| / 2;
    var i := MovedLeft(items, half);
    if g <= half {
      MovedLeftPast(items, half, g);
      SizesGrow(items, g, i);
      assert MovedRight(items, i) == i;
    } else {
      SizesGrow(items, half, g);
      assert i == half;
      MovedRightUpTo(items, i, g);
      SizesGrow(items, MovedRight(items, i), g);
    }
  }

  /** If no item is over half the room, an overflow by one item can be cut at the last prefix that fits. */
  lemma {:induction false} LastFittingPrefix(items: seq<LeafItem>, j: nat) returns (g: nat)
    requires SmallItems(items) && !Fits(items) && LeafSize(items) <= BLOCK_SIZE + MAX_ITEM_SIZE
    requires 1 <= j < |items| && Fits(items[..j])
    ensures GoodSplit(items, g)
    decreases |items| - j
  {
    assert items[..j + 1] == items[..j] + [items[j]];
    ValueBytesAppend(items[..j], [items[j]]);
    assert ValueBytes([items[j]]) == |items[j].value|;
    assert j + 1 == |items| ==> items[..j + 1] == items;
    if Fits(items[..j + 1]) {
      g := LastFittingPrefix(items, j + 1);
    } else {
      g := j;
      LeafSizeSplit(items, j);
      assert SmallItem(items[j]);
    }
  }

  lemma SmallItemsCanBeSplit(items: seq<LeafItem>)
    requires SmallItems(items) && !Fits(items) && LeafSize(items) <= BLOCK_SIZE + MAX_ITEM_SIZE
    ensures |items| >= 2 && GoodSplit(items, SplitIndex(items))
  {
    assert items != [];
    assert SmallItem(items[0]);
    assert items[..1] == [items[0]];
    assert ValueBytes(items[..1]) == |items[0].value|;
    assert |items| == 1 ==> items[..1] == items;
    var g := LastFittingPrefix(items, 1);
    SplitIndexIsGoodIfAnyIs(items, g);
  }

  /**
    The search loop of a leaf split. It ends at an index whose halves both fit exactly when
    such an index exists, and one always exists when a leaf of small items overflows by one item.
   */
  method SplitPoint(items: seq<LeafItem>) returns (splitIndex: nat)
    requires items != []
    ensures splitIndex == SplitIndex(items)
    ensures GoodSplit(items, splitIndex) <==> exists g :: GoodSplit(items, g)
    ensures SmallItems(items) && !Fits(items) && LeafSize(items) <= BLOCK_SIZE + MAX_ITEM_SIZE
            ==> GoodSplit(items, splitIndex)
  {
    splitIndex := |items| / 2;
    while splitIndex > 1 && LeafSize(items[..splitIndex]) > BLOCK_SIZE
      invariant splitIndex <= |items| / 2
      invariant MovedLeft(items, splitIndex) == MovedLeft(items, |items| / 2)
    {
      splitIndex := splitIndex - 1;
    }
    while splitIndex < |items| - 1 && LeafSize(items[splitIndex..]) > BLOCK_SIZE
      invariant splitIndex < |items|
      invariant MovedRight(items, splitIndex) == SplitIndex(items)
    {
      splitIndex := splitIndex + 1;
    }
    forall g | GoodSplit(items, g)
      ensures GoodSplit(items, splitIndex)
    {
      SplitIndexIsGoodIfAnyIs(items, g);
    }
    if SmallItems(items) && !Fits(items) && LeafSize(items) <= BLOCK_SIZE + MAX_ITEM_SIZE {
      SmallItemsCanBeSplit(items);
    }
  }

  /** One item put into a fitting leaf of small items adds at most one item's worth of bytes. */
  lemma {:induction false} PutSize(items: seq<LeafItem>, k: Key, v: Value)
    ensures LeafSize(Put(items, k, v)) <= LeafSize(items) + 25 + |v|
  {
    var r := Put(items, k, v);
    if items == [] || k < items[0].key {
      assert r[1..] == items;
    } else if k == items[0].key {
      assert r[1..] == items[1..];
    } else {
      PutSize(items[1..], k, v);
      assert r[1..] == Put(items[1..], k, v);
    }
  }

  lemma {:induction false} PutSmall(items: seq<LeafItem>, k: Key, v: Value)
    requires SmallItems(items) && SmallItem(LeafItem(k, v))
    ensures SmallItems(Put(items, k, v))
  {
    if items != [] && items[0].key < k { PutSmall(items[1..], k, v); }
  }

  lemma {:induction false} DropSize(items: seq<LeafItem>, k: Key)
    ensures LeafSize(Drop(items, k)) <= LeafSize(items)
    ensures SmallItems(items) ==> SmallItems(Drop(items, k))
  {
    if items != [] && items[0].key < k {
      DropSize(items[1..], k);
      assert Drop(items, k)[1..] == Drop(items[1..], k);
    }
  }
}
