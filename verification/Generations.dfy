/** What copy-on-write stamps on the nodes it writes, and where it cuts those that overflow, in plain numbers. */
module Generations {
  import opened Bytes
  import opened Delete
  import opened Insert
  import opened Items
  import opened Keys
  import opened LeafSplit
  import opened Trees

  // ----- Fresh nodes carry the transaction's number

  /** Every node at or above `next` carries generation `gen`, and so does every entry that leads to one. */
  ghost predicate Stamped(t: Tree, next: Addr, gen: nat) {
    (next <= t.addr ==> t.generation == gen) && (t.Node? ==> StampedKids(t.kids, next, gen))
  }

  ghost predicate StampedKids(kids: seq<Kid>, next: Addr, gen: nat) {
    forall i :: 0 <= i < |kids| ==> assert kids decreases to kids[i]; StampedKid(kids[i], next, gen)
  }

  ghost predicate StampedKid(k: Kid, next: Addr, gen: nat) {
    (next <= k.tree.addr ==> k.childGeneration == gen) && Stamped(k.tree, next, gen)
  }

  lemma {:induction false} OldIsStamped(t: Tree, next: Addr, gen: nat)
    requires Shaped(t, next)
    ensures Stamped(t, next, gen)
    decreases t, 0
  {
    if t.Node? { OldKidsAreStamped(t.kids, t.level - 1, next, gen); }
  }

  lemma {:induction false} OldKidsAreStamped(kids: seq<Kid>, level: nat, next: Addr, gen: nat)
    requires ShapedKids(kids, level, next)
    ensures StampedKids(kids, next, gen)
    decreases kids
  {
    if kids != [] {
      assert kids decreases to kids[0];
      OldIsStamped(kids[0].tree, next, gen);
      OldKidsAreStamped(kids[1..], level, next, gen);
      assert forall i :: 0 < i < |kids| ==> kids[i] == kids[1..][i - 1];
    }
  }

  lemma ReplacedIsStamped(kids: seq<Kid>, c: nat, r: Grown, next: Addr, gen: nat)
    requires c < |kids| && StampedKids(kids, next, gen) && Stamped(r.tree, next, gen) && (r.split.Some? ==> StampedKid(r.split.value, next, gen))
    ensures StampedKids(Replaced(kids, c, r, gen), next, gen)
  {
    var kids' := Replaced(kids, c, r, gen);
    forall i | 0 <= i < |kids'|
      ensures StampedKid(kids'[i], next, gen)
    {
    }
  }

  lemma GrownNodeIsStamped(t: Tree, kids: seq<Kid>, gen: nat, next: Addr, at: Addr, freed: seq<Addr>)
    requires t.Node? && StampedKids(kids, next, gen)
    ensures var r := GrownNode(t, kids, gen, at, freed); Stamped(r.tree, next, gen) && (r.split.Some? ==> StampedKid(r.split.value, next, gen))
  {
    var m := |kids| / 2;
    assert StampedKids(kids[..m], next, gen) && StampedKids(kids[m..], next, gen);
  }

  lemma {:induction false} InsertRecStamps(t: Tree, k: Key, v: Value, gen: nat, next: Addr)
    requires Shaped(t, next)
    ensures var r := InsertRec(t, k, v, gen, next); Stamped(r.tree, next, gen) && (r.split.Some? ==> StampedKid(r.split.value, next, gen))
    decreases t
  {
    if t.Node? {
      var c := ChildIndex(t.kids, k);
      var r := InsertRec(t.kids[c].tree, k, v, gen, next);
      AroundShaped(t.kids, c, t.level - 1, next);
      InsertRecStamps(t.kids[c].tree, k, v, gen, next);
      OldKidsAreStamped(t.kids, t.level - 1, next, gen);
      ReplacedIsStamped(t.kids, c, r, next, gen);
      InsertRecAtNode(t, k, v, gen, next, r);
      GrownNodeIsStamped(t, Replaced(t.kids, c, r, gen), gen, next, r.next, r.freed);
    }
  }

  /** An insertion stamps every node it writes, and every entry that leads to one, with its generation. */
  lemma InsertStamps(t: Tree, k: Key, v: Value, gen: nat, next: Addr)
    requires Shaped(t, next)
    ensures Stamped(InsertTop(t, k, v, gen, next).tree, next, gen)
  {
    InsertRecStamps(t, k, v, gen, next);
    var r := InsertRec(t, k, v, gen, next);
    if r.split.Some? {
      var kids := Replacement(FirstKey(r.tree), r, gen);
      assert StampedKid(kids[0], next, gen) && StampedKid(kids[1], next, gen);
    }
  }

  /** So does a deletion. */
  lemma {:induction false} DeleteStamps(t: Tree, k: Key, gen: nat, next: Addr)
    requires Shaped(t, next)
    ensures var r := DeleteRec(t, k, gen, next); r.Some? ==> r.value.split.None? && Stamped(r.value.tree, next, gen)
    decreases t
  {
    if t.Node? {
      var c := ChildIndex(t.kids, k);
      AroundShaped(t.kids, c, t.level - 1, next);
      DeleteStamps(t.kids[c].tree, k, gen, next);
      DeleteRecAtNode(t, k, gen, next);
      var r := DeleteRec(t.kids[c].tree, k, gen, next);
      if r.Some? {
        OldKidsAreStamped(t.kids, t.level - 1, next, gen);
        ReplacedIsStamped(t.kids, c, r.value, next, gen);
      }
    }
  }

  // ----- Where a node is cut

  /**
    A leaf is cut exactly when its header, 25 bytes an item and the values pass 4096 bytes: the right part goes to the next
    block, the left part to the one after. Of all cuts that leave both parts fitting it is the one nearest the middle.
   */
  lemma LeafIsCut(t: Tree, items: seq<LeafItem>, gen: nat, next: Addr, g: nat)
    requires items != []
    ensures var r := GrownLeaf(t, items, gen, next);
            && (r.split.Some? <==> 24 + 25 * |items| + ValueBytes(items) > 4096)
            && r.tree.Leaf? && (r.split.None? ==> r.tree.addr == next && r.tree.items == items)
            && (r.split.Some? ==> r.split.value.tree.Leaf? && r.split.value.tree.addr == next && r.tree.addr == next + 1
                                  && r.tree.items + r.split.value.tree.items == items && r.split.value.sep == r.split.value.tree.items[0].key)
            && (r.split.Some? && GoodSplit(items, g) ==>
                  GoodSplit(items, |r.tree.items|) && if g <= |items| / 2 then g <= |r.tree.items| <= |items| / 2 else |items| / 2 <= |r.tree.items| <= g)
  {
    if !Fits(items) && GoodSplit(items, g) { SplitIndexIsGoodIfAnyIs(items, g); }
  }

  /** An internal node is cut exactly when it has more than 90 entries, and then in halves: 91 entries become 45 and 46. */
  lemma NodeIsCut(t: Tree, kids: seq<Kid>, gen: nat, next: Addr, freed: seq<Addr>)
    requires t.Node?
    ensures var r := GrownNode(t, kids, gen, next, freed);
            && (r.split.Some? <==> |kids| > 90)
            && r.tree.Node? && r.tree.level == t.level && (r.split.None? ==> r.tree.addr == next && r.tree.kids == kids)
            && (r.split.Some? ==> r.split.value.tree.Node? && r.split.value.tree.level == t.level
                                  && r.split.value.tree.addr == next && r.tree.addr == next + 1
                                  && r.tree.kids + r.split.value.tree.kids == kids && r.split.value.sep == r.split.value.tree.kids[0].sep)
            && (|kids| == 91 ==> |r.tree.kids| == 45 && |r.split.value.tree.kids| == 46)
  {
  }

  /** A root that was cut gets a root above it, one level up, with two entries. */
  lemma RootIsRaised(t: Tree, k: Key, v: Value, gen: nat, next: Addr)
    ensures var r, top := InsertRec(t, k, v, gen, next), InsertTop(t, k, v, gen, next).tree;
            if r.split.None? then top == r.tree
            else top.Node? && top.level == Level(r.tree) + 1 && |top.kids| == 2 && top.addr == r.next
                 && top.kids[0].tree == r.tree && top.kids[0].sep == FirstKey(r.tree) && top.kids[1] == r.split.value
  {
  }
}
