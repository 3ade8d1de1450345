/** Pieces written into a fixed buffer, and a leaf's two regions growing towards each other. */
module Layout {
  import opened Bytes
  import opened Items
  import opened Keys
  import opened Trees
  import Seqs

  /** `b` holds `piece` at offset `at`. */
  predicate Holds(b: seq<byte>, at: nat, piece: seq<byte>) {
    at + |piece| <= |b| && b[at..at + |piece|] == piece
  }

  lemma HoldsParts(b: seq<byte>, at: nat, x: seq<byte>, y: seq<byte>)
    ensures Holds(b, at, x + y) <==> Holds(b, at, x) && Holds(b, at + |x|, y)
  {
    if Holds(b, at, x + y) {
      assert b[at..at + |x|] == b[at..at + |x + y|][..|x|];
      assert b[at + |x|..at + |x| + |y|] == b[at..at + |x + y|][|x|..];
    }
    if Holds(b, at, x) && Holds(b, at + |x|, y) {
      assert b[at..at + |x + y|] == b[at..at + |x|] + b[at + |x|..at + |x| + |y|];
    }
  }

  function Splice(b: seq<byte>, at: nat, piece: seq<byte>): (r: seq<byte>)
    requires at + |piece| <= |b|
    ensures |r| == |b|
  {
    b[..at] + piece + b[at + |piece|..]
  }

  lemma SpliceHolds(b: seq<byte>, at: nat, piece: seq<byte>)
    requires at + |piece| <= |b|
    ensures Holds(Splice(b, at, piece), at, piece)
  {
  }

  /** A write leaves alone whatever lies before it or after it. */
  lemma SpliceKeeps(b: seq<byte>, at: nat, piece: seq<byte>, x: nat, other: seq<byte>)
    requires at + |piece| <= |b| && Holds(b, x, other)
    requires x + |other| <= at || at + |piece| <= x
    ensures Holds(Splice(b, at, piece), x, other)
  {
  }

  lemma SpliceSame(b: seq<byte>, at: nat, n: nat)
    requires at + n <= |b|
    ensures Splice(b, at, b[at..at + n]) == b
  {
  }

  /** The part of a buffer from `lo` to `hi`, before and after a write inside it. */
  lemma SpliceInside(b: seq<byte>, at: nat, piece: seq<byte>, lo: nat, hi: nat)
    requires lo <= at && at + |piece| <= hi <= |b|
    ensures b[lo..hi] == b[lo..at] + b[at..at + |piece|] + b[at + |piece|..hi]
    ensures Splice(b, at, piece)[lo..hi] == b[lo..at] + piece + b[at + |piece|..hi]
  {
  }

  lemma HoldsItself(b: seq<byte>)
    ensures Holds(b, 0, b)
  {
  }

  lemma HoldsInFront(x: seq<byte>, y: seq<byte>, at: nat, piece: seq<byte>)
    requires Holds(x, at, piece)
    ensures Holds(x + y, at, piece)
  {
  }

  lemma HoldsBehind(x: seq<byte>, y: seq<byte>, at: nat, piece: seq<byte>)
    requires Holds(y, at, piece)
    ensures Holds(x + y, |x| + at, piece)
  {
  }

  function FieldAt(b: seq<byte>, at: nat, width: nat): nat
    requires at + width <= |b|
  {
    FromLE(b[at..at + width])
  }

  lemma FieldRoundTrip(b: seq<byte>, at: nat, value: nat, width: nat)
    requires Holds(b, at, ToLE(value, width)) && value < Pow256(width)
    ensures FieldAt(b, at, width) == value
  {
    LERoundTrip(value, width);
  }

  // ----- Leaves: headers grow up, values grow down

  /** How an item whose value lies at `offset` is described. */
  type Header = (LeafItem, nat) -> seq<byte>

  ghost predicate Fixed(h: Header) { forall item, offset :: |h(item, offset)| == 25 }

  /** One header per item when the values are packed downwards from `top`. */
  ghost function Headers(h: Header, items: seq<LeafItem>, top: nat): (b: seq<byte>)
    requires ValueBytes(items) <= top && Fixed(h)
    ensures |b| == 25 * |items|
    decreases |items|
  {
    if items == [] then [] else
    var offset := top - |items[0].value|;
    h(items[0], offset) + Headers(h, items[1..], offset)
  }

  /** The packed values: the first item's value is highest. */
  function Values(items: seq<LeafItem>): (b: seq<byte>)
    ensures |b| == ValueBytes(items)
  {
    if items == [] then [] else Values(items[1..]) + items[0].value
  }

  /** One item: its value at `offset`, its header at `at`. */
  ghost function WithItem(h: Header, b: seq<byte>, at: nat, offset: nat, item: LeafItem): (r: seq<byte>)
    requires at + 25 <= offset && offset + |item.value| <= |b| && Fixed(h)
    ensures |r| == |b|
  {
    Splice(Splice(b, offset, item.value), at, h(item, offset))
  }

  /** Item headers written upwards from `at`, each value written below the one before, downwards from `top`. */
  ghost function WithItems(h: Header, b: seq<byte>, at: nat, top: nat, items: seq<LeafItem>): (r: seq<byte>)
    requires at + 25 * |items| + ValueBytes(items) <= top <= |b| && Fixed(h)
    ensures |r| == |b|
    decreases |items|
  {
    if items == [] then b else
    var offset := top - |items[0].value|;
    WithItems(h, WithItem(h, b, at, offset, items[0]), at + 25, offset, items[1..])
  }

  lemma ItemKeeps(h: Header, b: seq<byte>, at: nat, offset: nat, item: LeafItem, x: nat, other: seq<byte>)
    requires at + 25 <= offset && offset + |item.value| <= |b| && Holds(b, x, other) && Fixed(h)
    requires x + |other| <= at || offset + |item.value| <= x
    ensures Holds(WithItem(h, b, at, offset, item), x, other)
  {
    SpliceKeeps(b, offset, item.value, x, other);
    SpliceKeeps(Splice(b, offset, item.value), at, h(item, offset), x, other);
  }

  lemma ItemHolds(h: Header, b: seq<byte>, at: nat, offset: nat, item: LeafItem)
    requires at + 25 <= offset && offset + |item.value| <= |b| && Fixed(h)
    ensures Holds(WithItem(h, b, at, offset, item), at, h(item, offset))
    ensures Holds(WithItem(h, b, at, offset, item), offset, item.value)
  {
    var b1 := Splice(b, offset, item.value);
    SpliceHolds(b, offset, item.value);
    SpliceHolds(b1, at, h(item, offset));
    SpliceKeeps(b1, at, h(item, offset), offset, item.value);
  }

  /** Writing items touches only the span between the first header and the top of the values. */
  lemma {:induction false} ItemsKeep(h: Header, b: seq<byte>, at: nat, top: nat, items: seq<LeafItem>,
                                     x: nat, other: seq<byte>)
    requires at + 25 * |items| + ValueBytes(items) <= top <= |b| && Fixed(h) && Holds(b, x, other)
    requires x + |other| <= at || top <= x
    ensures Holds(WithItems(h, b, at, top, items), x, other)
    decreases |items|
  {
    if items != [] {
      var offset := top - |items[0].value|;
      ItemKeeps(h, b, at, offset, items[0], x, other);
      ItemsKeep(h, WithItem(h, b, at, offset, items[0]), at + 25, offset, items[1..], x, other);
    }
  }

  lemma {:induction false} HeadersHold(h: Header, b: seq<byte>, at: nat, top: nat, items: seq<LeafItem>)
    requires at + 25 * |items| + ValueBytes(items) <= top <= |b| && Fixed(h)
    ensures Holds(WithItems(h, b, at, top, items), at, Headers(h, items, top))
    decreases |items|
  {
    if items != [] {
      var rest, offset := items[1..], top - |items[0].value|;
      var b', x, xs := WithItem(h, b, at, offset, items[0]), h(items[0], offset), Headers(h, rest, offset);
      var r := WithItems(h, b', at + 25, offset, rest);
      assert r == WithItems(h, b, at, top, items) && Headers(h, items, top) == x + xs;
      assert Holds(r, at, x) by {
        ItemHolds(h, b, at, offset, items[0]);
        ItemsKeep(h, b', at + 25, offset, rest, at, x);
      }
      HeadersHold(h, b', at + 25, offset, rest);
      HoldsJoined(r, at, x, at + 25, xs);
    }
  }

  lemma {:induction false} ValuesHold(h: Header, b: seq<byte>, at: nat, low: nat, top: nat, items: seq<LeafItem>)
    requires at + 25 * |items| <= low && low + ValueBytes(items) == top <= |b| && Fixed(h)
    ensures Holds(WithItems(h, b, at, top, items), low, Values(items))
    decreases |items|
  {
    if items != [] {
      var rest, offset := items[1..], top - |items[0].value|;
      var b', v, vs := WithItem(h, b, at, offset, items[0]), items[0].value, Values(rest);
      var r := WithItems(h, b', at + 25, offset, rest);
      assert r == WithItems(h, b, at, top, items) && Values(items) == vs + v;
      assert Holds(r, offset, v) by {
        ItemHolds(h, b, at, offset, items[0]);
        ItemsKeep(h, b', at + 25, offset, rest, offset, v);
      }
      ValuesHold(h, b', at + 25, low, offset, rest);
      HoldsJoined(r, low, vs, offset, v);
    }
  }

  lemma HoldsJoined(b: seq<byte>, at: nat, x: seq<byte>, next: nat, y: seq<byte>)
    requires Holds(b, at, x) && Holds(b, next, y) && next == at + |x|
    ensures Holds(b, at, x + y)
  {
  }

  /** The first of the remaining writes. */
  lemma WriteStep(h: Header, b: seq<byte>, at: nat, top: nat, items: seq<LeafItem>, i: nat)
    requires i < |items| && at + 25 * (|items| - i) + ValueBytes(items[i..]) <= top <= |b| && Fixed(h)
    ensures |items[i].value| <= top
    ensures var offset := top - |items[i].value|;
            && at + 25 <= offset && at + 25 + 25 * (|items| - i - 1) + ValueBytes(items[i + 1..]) <= offset
            && WithItems(h, b, at, top, items[i..])
               == WithItems(h, WithItem(h, b, at, offset, items[i]), at + 25, offset, items[i + 1..])
  {
  }

  method CopyInto(buffer: array<byte>, at: nat, piece: seq<byte>)
    requires at + |piece| <= buffer.Length
    modifies buffer
    ensures buffer[..] == Splice(old(buffer[..]), at, piece)
  {
    for i := 0 to |piece|
      invariant buffer[..at] == old(buffer[..at])
      invariant buffer[at..at + i] == piece[..i]
      invariant buffer[at + i..] == old(buffer[at + i..])
    {
      buffer[at + i] := piece[i];
    }
    assert buffer[..] == buffer[..at] + buffer[at..at + |piece|] + buffer[at + |piece|..];
  }

  method WriteItem(h: Header, buffer: array<byte>, at: nat, offset: nat, item: LeafItem)
    requires at + 25 <= offset && offset + |item.value| <= buffer.Length && Fixed(h)
    modifies buffer
    ensures buffer[..] == WithItem(h, old(buffer[..]), at, offset, item)
  {
    CopyInto(buffer, offset, item.value);
    CopyInto(buffer, at, h(item, offset));
  }

  method WriteItems(h: Header, buffer: array<byte>, items: seq<LeafItem>)
    requires buffer.Length == 4096 && LeafSize(items) <= 4096 && Fixed(h)
    modifies buffer
    ensures buffer[..] == WithItems(h, old(buffer[..]), 24, 4096, items)
  {
    var headerCursor: nat, valueCursor: nat := 24, 4096;
    for i := 0 to |items|
      invariant headerCursor + 25 * (|items| - i) + ValueBytes(items[i..]) <= valueCursor <= 4096
      invariant WithItems(h, buffer[..], headerCursor, valueCursor, items[i..]) == WithItems(h, old(buffer[..]), 24, 4096, items)
    {
      WriteStep(h, buffer[..], headerCursor, valueCursor, items, i);
      valueCursor := valueCursor - |items[i].value|;
      WriteItem(h, buffer, headerCursor, valueCursor, items[i]);
      headerCursor := headerCursor + 25;
    }
  }

  // ----- Reading a run of fields

  /** `count` fields of `width` bytes read upwards from `at`; one that cannot be read spoils them all. */
  function Gather<T>(read: (seq<byte>, nat) -> Option<T>, width: nat, b: seq<byte>, at: nat, count: nat): Option<seq<T>>
    decreases count, |b|
  {
    if count == 0 then Some([]) else
    match read(b, at)
    case None => None
    case Some(x) =>
      match Gather(read, width, b, at + width, count - 1)
      case None => None
      case Some(rest) => Some([x] + rest)
  }

  /** Fields already read in front of the fields still to come. */
  function Joined<T>(xs: seq<T>, rest: Option<seq<T>>): Option<seq<T>> {
    if rest.None? then None else Some(xs + rest.value)
  }

  lemma JoinedStep<T>(xs: seq<T>, x: T, rest: Option<seq<T>>)
    ensures Joined(xs, Joined([x], rest)) == Joined(xs + [x], rest)
  {
    if rest.Some? {
      Seqs.Assoc(xs, [x], rest.value);
    }
  }

  method ReadFields<T>(read: (seq<byte>, nat) -> Option<T>, width: nat, b: seq<byte>, at: nat, count: nat)
    returns (r: Option<seq<T>>)
    ensures r == Gather(read, width, b, at, count)
  {
    var xs: seq<T> := [];
    var cursor: nat := at;
    if Gather(read, width, b, at, count).Some? { Seqs.EmptyLeft(Gather(read, width, b, at, count).value); }
    for i := 0 to count
      invariant Joined(xs, Gather(read, width, b, cursor, count - i)) == Gather(read, width, b, at, count)
    {
      var field := read(b, cursor);
      if field.None? { return None; }
      JoinedStep(xs, field.value, Gather(read, width, b, cursor + width, count - i - 1));
      xs := xs + [field.value];
      cursor := cursor + width;
    }
    Seqs.EmptyRight(xs);
    return Some(xs);
  }

  // ----- Runs of 64-bit words

  function WordsBytes(words: seq<nat>): (b: seq<byte>)
    ensures |b| == 8 * |words|
  {
    if words == [] then [] else ToLE(words[0], 8) + WordsBytes(words[1..])
  }

  function WordAt(b: seq<byte>, at: nat): Option<nat> {
    if at + 8 > |b| then None else Some(FieldAt(b, at, 8))
  }

  lemma {:induction false} WordsAreThere(b: seq<byte>, at: nat, count: nat)
    requires at + 8 * count <= |b|
    ensures Gather(WordAt, 8, b, at, count).Some? && |Gather(WordAt, 8, b, at, count).value| == count
    decreases count
  {
    if count > 0 { WordsAreThere(b, at + 8, count - 1); }
  }

  lemma {:induction false} WordsFit(b: seq<byte>, at: nat, count: nat, words: seq<nat>)
    requires Gather(WordAt, 8, b, at, count) == Some(words)
    ensures forall i :: 0 <= i < |words| ==> words[i] < U64
    decreases count
  {
    if count > 0 {
      WordsFit(b, at + 8, count - 1, words[1..]);
      FieldBounds();
      FieldFits(b[at..at + 8]);
      assert words[0] < U64;
      assert forall i :: 0 < i < |words| ==> words[i] == words[1..][i - 1];
    }
  }

  lemma {:induction false} WordsRoundTrip(b: seq<byte>, at: nat, words: seq<nat>)
    requires Holds(b, at, WordsBytes(words)) && forall i :: 0 <= i < |words| ==> words[i] < U64
    ensures Gather(WordAt, 8, b, at, |words|) == Some(words)
    decreases |words|
  {
    if words != [] {
      HoldsParts(b, at, ToLE(words[0], 8), WordsBytes(words[1..]));
      FieldBounds();
      FieldRoundTrip(b, at, words[0], 8);
      WordsRoundTrip(b, at + 8, words[1..]);
      Seqs.HeadTail(words);
    }
  }
}
