/** The three-part sort key of every B-tree, and the integer the trees order it by. */
module Keys {
  const U64: nat := 0x1_0000_0000_0000_0000
  const ITEM_TYPE_INODE: nat := 1
  const ITEM_TYPE_DIRECTORY_ENTRY: nat := 2
  const ITEM_TYPE_EXTENT_DATA: nat := 3
  const ITEM_TYPE_CHECKSUM_ENTRY: nat := 5
  const FREE_EXTENT_OBJECT_ID: nat := 0xFFFF_FFFF_FFFF_FFFE
  const CHECKSUM_OBJECT_ID: nat := 0xFFFF_FFFF_FFFF_FFFD

  /** A key as the trees see it: its rank in the order. One past MAX_KEY stands for "no upper bound". */
  type Key = nat
  const MAX_KEY: Key := U64 * 256 * U64 - 1
  const NO_BOUND: nat := MAX_KEY + 1

  datatype BafsKey = BafsKey(objectId: nat, itemType: nat, offset: nat) {
    predicate Valid() {
      objectId < U64 && itemType < 256 && offset < U64
    }

    /** The derived ordering: object id, then item type, then offset. */
    predicate Before(other: BafsKey) {
      || objectId < other.objectId
      || (objectId == other.objectId && itemType < other.itemType)
      || (objectId == other.objectId && itemType == other.itemType && offset < other.offset)
    }
  }

  function Rank(k: BafsKey): Key {
    (k.objectId * 256 + k.itemType) * 0x1_0000_0000_0000_0000 + k.offset
  }

  function Unrank(r: Key): BafsKey {
    BafsKey(r / 0x1_0000_0000_0000_0000 / 256, r / 0x1_0000_0000_0000_0000 % 256, r % 0x1_0000_0000_0000_0000)
  }

  /** Ranks are in bijection with valid keys, and integer order on ranks is the lexicographic order. */
  lemma RankIsTheKeyOrder(a: BafsKey, b: BafsKey)
    requires a.Valid() && b.Valid()
    ensures a.Before(b) <==> Rank(a) < Rank(b)
    ensures Rank(a) == Rank(b) ==> a == b
    ensures Rank(a) <= MAX_KEY
    ensures Unrank(Rank(a)) == a
  {
  }

  lemma UnrankIsValid(r: Key)
    requires r <= MAX_KEY
    ensures Unrank(r).Valid() && Rank(Unrank(r)) == r
  {
  }
}
