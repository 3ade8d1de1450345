/** Directories: entries kept in the inode tree under the hash of their name. */
module Directories {
  import opened Bytes
  import opened Items
  import opened Keys
  import opened Layout
  import opened Records
  import opened Trees
  import opened Cache
  import opened Insert
  import F = FreeTree

  type Name = seq<byte>

  /** The name hash is left open: any function into 64 bits. */
  type Hash = Name -> nat

  ghost predicate Bounded(hash: Hash) { forall name :: hash(name) < U64 }

  datatype DirEntry = DirEntry(child: nat, childType: byte, name: Name)

  datatype DirError = InvalidArgument | AlreadyExists | NotFound | CorruptedStructure
  datatype Result<+T> = Ok(value: T) | Err(error: DirError)

  // ----- Entries: a 12-byte header and the name

  function EntryHeader(e: DirEntry): (b: seq<byte>)
    ensures |b| == 12
  {
    ToLE(e.child, 8) + [e.childType] + [|e.name| % 256] + [0, 0]
  }

  function EncodeEntry(e: DirEntry): (v: Value)
    ensures |v| == 12 + |e.name|
  {
    EntryHeader(e) + e.name
  }

  /** A record shorter than its header, or than the name its header announces, is corrupt. */
  function DecodeEntry(v: Value): Option<DirEntry> {
    if |v| < 12 then None else
    var end: nat := 12 + (v[9] as int);
    if |v| < end then None else Some(DirEntry(FieldAt(v, 0, 8), v[8], v[12..end]))
  }

  lemma EntryRoundTrip(e: DirEntry)
    requires e.child < U64 && |e.name| <= 255
    ensures DecodeEntry(EncodeEntry(e)) == Some(e)
  {
    var v, child := EncodeEntry(e), ToLE(e.child, 8);
    FieldBounds();
    HoldsItself(v);
    HoldsParts(v, 0, EntryHeader(e), e.name);
    HoldsParts(v, 0, child + [e.childType] + [|e.name| % 256], [0, 0]);
    HoldsParts(v, 0, child + [e.childType], [|e.name| % 256]);
    HoldsParts(v, 0, child, [e.childType]);
    FieldRoundTrip(v, 0, e.child, 8);
    assert v[8] == v[8..9][0] && v[9] == v[9..10][0];
  }

  // ----- A directory as a map from names

  /** The entry a directory has under a name: the one stored under the name's hash, if it carries that name. */
  ghost function Found(m: map<Key, Value>, hash: Hash, dir: nat, name: Name): Option<DirEntry> {
    var k := EntryKey(dir, hash(name));
    if k in m && DecodeEntry(m[k]).Some? && DecodeEntry(m[k]).value.name == name then DecodeEntry(m[k]) else None
  }

  /** The record under a name's hash, if any, is not corrupt. */
  ghost predicate Readable(m: map<Key, Value>, hash: Hash, dir: nat, name: Name) {
    EntryKey(dir, hash(name)) in m ==> DecodeEntry(m[EntryKey(dir, hash(name))]).Some?
  }

  ghost predicate Names(m: map<Key, Value>, hash: Hash, dir: nat, name: Name) { Found(m, hash, dir, name).Some? }

  /** Some other name of the directory has this name's hash. */
  ghost predicate Collides(m: map<Key, Value>, hash: Hash, dir: nat, name: Name) {
    exists other :: other != name && hash(other) == hash(name) && Names(m, hash, dir, other)
  }

  /** Creating an entry makes exactly its own name lead to it. */
  lemma CreatedIsFound(m: map<Key, Value>, hash: Hash, dir: nat, e: DirEntry)
    requires e.child < U64 && |e.name| <= 255
    ensures Found(m[EntryKey(dir, hash(e.name)) := EncodeEntry(e)], hash, dir, e.name) == Some(e)
  {
    EntryRoundTrip(e);
  }

  /** Names with other hashes, and other directories, are untouched by an update under one hash. */
  lemma ElsewhereFound(m: map<Key, Value>, hash: Hash, dir: nat, name: Name, v: Value, dir': nat, other: Name)
    requires Bounded(hash) && dir < U64 && dir' < U64 && (dir' != dir || hash(other) != hash(name))
    ensures Found(m[EntryKey(dir, hash(name)) := v], hash, dir', other) == Found(m, hash, dir', other)
    ensures Found(m - {EntryKey(dir, hash(name))}, hash, dir', other) == Found(m, hash, dir', other)
  {
  }

  /**
    Directories refine maps. Creating `e` leaves every other name of the directory as it was if and only if
    no other name there has the same hash: an entry with an equal hash is replaced.
   */
  lemma CreateKeepsTheOthersIff(m: map<Key, Value>, hash: Hash, dir: nat, e: DirEntry)
    requires Bounded(hash) && dir < U64 && e.child < U64 && |e.name| <= 255
    ensures var m' := m[EntryKey(dir, hash(e.name)) := EncodeEntry(e)];
            (forall other :: other != e.name ==> Found(m', hash, dir, other) == Found(m, hash, dir, other))
            <==> !Collides(m, hash, dir, e.name)
  {
  }

  /** The documentation's promise that colliding names coexist fails: under a constant hash a second name replaces the first. */
  lemma CollidingNamesReplace(dir: nat)
    requires dir < U64
    ensures var hash: Hash := name => 0;
            var a, b := DirEntry(2, 8, [97]), DirEntry(3, 8, [98]);
            var m := map[EntryKey(dir, 0) := EncodeEntry(a)];
            && Found(m, hash, dir, a.name) == Some(a) && Collides(m, hash, dir, b.name)
            && Found(m[EntryKey(dir, 0) := EncodeEntry(b)], hash, dir, a.name) == None
  {
    var hash: Hash := name => 0;
    var a, b := DirEntry(2, 8, [97]), DirEntry(3, 8, [98]);
    var m := map[EntryKey(dir, 0) := EncodeEntry(a)];
    EntryRoundTrip(a);
    EntryRoundTrip(b);
    assert a.name[0] != b.name[0];
    assert Names(m, hash, dir, a.name);
  }

  /** An update under a directory entry's key touches no inode and no extent. */
  lemma OtherRecordsKept(m: map<Key, Value>, dir: nat, h: nat, v: Value, n: nat, x: nat)
    requires dir < U64 && h < U64 && n < U64 && x < U64
    ensures var m', k := m[EntryKey(dir, h) := v], InodeKey(n); (k in m' <==> k in m) && (k in m ==> m'[k] == m[k])
    ensures var m', k := m[EntryKey(dir, h) := v], ExtentKey(n, x); (k in m' <==> k in m) && (k in m ==> m'[k] == m[k])
    ensures var m', k := m - {EntryKey(dir, h)}, InodeKey(n); (k in m' <==> k in m) && (k in m ==> m'[k] == m[k])
    ensures var m', k := m - {EntryKey(dir, h)}, ExtentKey(n, x); (k in m' <==> k in m) && (k in m ==> m'[k] == m[k])
  {
    KindsApart(n, 0, dir, h);
    KindsApart(dir, h, n, x);
  }

  /** Removing a name that is there removes exactly that name, whatever the hash does. */
  lemma UnlinkRemovesOneName(m: map<Key, Value>, hash: Hash, dir: nat, name: Name)
    requires Bounded(hash) && dir < U64 && Names(m, hash, dir, name)
    ensures var m' := m - {EntryKey(dir, hash(name))};
            Found(m', hash, dir, name) == None
            && forall other :: other != name ==> Found(m', hash, dir, other) == Found(m, hash, dir, other)
  {
  }

  // ----- The operations

  /** Look a name up: a one-key range scan, then a comparison of names. */
  method LookupEntry(c: BlockCache, root: Addr, hash: Hash, dir: nat, name: Name, ghost t: Tree) returns (r: Result<Option<DirEntry>>)
    requires F.Sound(c, t) && t.addr == root && Bounded(hash) && dir < U64
    ensures OrderedRoot(t) ==>
              r == if Readable(MapOf(Contents(t)), hash, dir, name) then Ok(Found(MapOf(Contents(t)), hash, dir, name)) else Err(CorruptedStructure)
  {
    var k := EntryKey(dir, hash(name));
    KeysFit(dir, hash(name));
    var items := c.IterateTreeRange(root, k, k, t);
    if OrderedRoot(t) { OneKeyScan(t, k); }
    r := FirstNamed(items, name);
  }

  /** The scan under one key holds at most the one record stored there. */
  lemma OneKeyScan(t: Tree, k: Key)
    requires OrderedRoot(t) && k <= MAX_KEY
    ensures Filter(Contents(t), k, k) == if k in MapOf(Contents(t)) then [LeafItem(k, MapOf(Contents(t))[k])] else []
  {
    OrderedContents(t, Floor(t), NO_BOUND);
    OneKeyRange(Contents(t), k);
    GetIsMapLookup(Contents(t), k);
  }

  function Named(items: seq<LeafItem>, name: Name): Result<Option<DirEntry>> {
    if items == [] then Ok(None) else
    var e := DecodeEntry(items[0].value);
    if e.None? then Err(CorruptedStructure)
    else if e.value.name == name then Ok(e)
    else Named(items[1..], name)
  }

  method FirstNamed(items: seq<LeafItem>, name: Name) returns (r: Result<Option<DirEntry>>)
    ensures r == Named(items, name)
  {
    for i := 0 to |items|
      invariant Named(items[i..], name) == Named(items, name)
    {
      assert items[i..][1..] == items[i + 1..];
      var e := DecodeEntry(items[i].value);
      if e.None? { return Err(CorruptedStructure); }
      if e.value.name == name { return Ok(e); }
    }
    return Ok(None);
  }

  /** When a name is accepted, and how it is refused otherwise. */
  ghost predicate Answers(m: map<Key, Value>, hash: Hash, dir: nat, name: Name, r: Result<Addr>) {
    && (r == Err(InvalidArgument) <==> |name| == 0 || |name| > 255)
    && (r == Err(CorruptedStructure) <==> 0 < |name| <= 255 && !Readable(m, hash, dir, name))
    && (r == Err(AlreadyExists) <==> 0 < |name| <= 255 && Names(m, hash, dir, name))
    && (r.Ok? <==> 0 < |name| <= 255 && Readable(m, hash, dir, name) && !Names(m, hash, dir, name))
  }

  /**
    Add an entry. A name of the wrong length, a name already there and a corrupt record are refused with nothing
    changed. Otherwise the record goes under the hash of the name, and nothing else in the tree changes.
   */
  method CreateEntry(c: BlockCache, root: Addr, hash: Hash, dir: nat, e: DirEntry, gen: nat, freed: seq<Addr>, ghost t: Tree)
    returns (r: Result<Addr>, freed': seq<Addr>, ghost t': Tree)
    requires F.Sound(c, t) && t.addr == root && Bounded(hash) && dir < U64 && e.child < U64
    modifies c`dirty, c`next
    ensures F.Sound(c, t') && OnlyTouched(old(c.dirty), c.dirty, old(c.next), c.next) && old(c.next) <= c.next
    ensures r.Err? ==> t' == t && freed' == freed && c.dirty == old(c.dirty) && c.next == old(c.next)
    ensures r.Ok? ==> r.value == t'.addr && 0 < |e.name| <= 255
    ensures r.Ok? ==>
              var k, v := EntryKey(dir, hash(e.name)), EncodeEntry(e);
              InsertMeans(t, k, v, old(c.next), t', c.next) && freed' == freed + InsertTop(t, k, v, gen, old(c.next)).freed
    ensures r.Ok? && gen < U64 ==> Keeps(t, old(c.dirty), old(c.next), t', c.dirty, c.next)
    ensures OrderedRoot(t) && Floor(t) <= EntryKey(dir, hash(e.name)) ==>
              var m := MapOf(Contents(t));
              && Answers(m, hash, dir, e.name, r)
              && (r.Ok? ==> OrderedRoot(t') && MapOf(Contents(t')) == m[EntryKey(dir, hash(e.name)) := EncodeEntry(e)])
  {
    freed', t' := freed, t;
    if |e.name| == 0 || |e.name| > 255 { return Err(InvalidArgument), freed', t'; }
    var existing := LookupEntry(c, root, hash, dir, e.name, t);
    if existing.Err? { return Err(existing.error), freed', t'; }
    if existing.value.Some? { return Err(AlreadyExists), freed', t'; }
    KeysFit(dir, hash(e.name));
    var newRoot;
    newRoot, freed', t' := c.InsertIntoTree(root, EntryKey(dir, hash(e.name)), EncodeEntry(e), gen, freed, t);
    r := Ok(newRoot);
  }

  /** Remove an entry: a name that is not there is NotFound with nothing changed. */
  method UnlinkEntry(c: BlockCache, root: Addr, hash: Hash, dir: nat, name: Name, gen: nat, freed: seq<Addr>, ghost t: Tree)
    returns (r: Result<Addr>, freed': seq<Addr>, ghost t': Tree)
    requires F.Sound(c, t) && t.addr == root && Bounded(hash) && dir < U64
    modifies c`dirty, c`next
    ensures F.Sound(c, t') && OnlyTouched(old(c.dirty), c.dirty, old(c.next), c.next) && old(c.next) <= c.next
    ensures r.Err? ==> t' == t && freed' == freed && c.dirty == old(c.dirty) && c.next == old(c.next)
    ensures r.Ok? ==> r.value == t'.addr
    ensures r.Ok? ==> DeleteMeans(t, EntryKey(dir, hash(name)), old(c.next), t', c.next, true) && freed' == freed + PathUp(t, EntryKey(dir, hash(name)))
    ensures r.Ok? && gen < U64 ==> Keeps(t, old(c.dirty), old(c.next), t', c.dirty, c.next)
    ensures OrderedRoot(t) ==>
              var m := MapOf(Contents(t));
              && (r.Ok? <==> Names(m, hash, dir, name))
              && (r == Err(NotFound) <==> Readable(m, hash, dir, name) && !Names(m, hash, dir, name))
              && (r.Ok? ==> OrderedRoot(t') && MapOf(Contents(t')) == m - {EntryKey(dir, hash(name))})
  {
    freed', t' := freed, t;
    var existing := LookupEntry(c, root, hash, dir, name, t);
    if existing.Err? { return Err(existing.error), freed', t'; }
    if existing.value.None? { return Err(NotFound), freed', t'; }
    KeysFit(dir, hash(name));
    var newRoot;
    newRoot, freed', t' := c.DeleteFromTree(root, EntryKey(dir, hash(name)), gen, freed, t);
    r := if newRoot.None? then Err(NotFound) else Ok(newRoot.value);
  }
}
