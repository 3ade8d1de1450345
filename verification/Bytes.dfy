/** A way to keep the parts of a predicate out of proofs that only pass it on. */
module Seals {
  /**
    A broken seal. Predicates quantified over `Broken` are only looked into where it is asserted, so what merely passes
    them on is not burdened with their parts.
   */
  predicate Broken(k: nat) { true }
}

/** Sequence and set facts, each proved on its own so that larger proofs need not search for them. */
module Seqs {
  lemma Rejoin<T>(s: seq<T>, c: nat)
    requires c < |s|
    ensures s == s[..c] + [s[c]] + s[c + 1..]
  {
  }

  lemma Cut<T>(s: seq<T>, c: nat)
    requires c <= |s|
    ensures s == s[..c] + s[c..]
  {
  }

  lemma WholePrefix<T>(s: seq<T>)
    ensures s[..|s|] == s
  {
  }

  lemma TailOfAppend<T>(a: seq<T>, b: seq<T>)
    requires a != []
    ensures (a + b)[1..] == a[1..] + b
    ensures (a + b)[0] == a[0]
  {
  }

  lemma Assoc<T>(a: seq<T>, b: seq<T>, c: seq<T>)
    ensures (a + b) + c == a + (b + c)
  {
  }

  lemma SliceInFront<T>(a: seq<T>, b: seq<T>, lo: nat, hi: nat)
    requires lo <= hi <= |a|
    ensures (a + b)[lo..hi] == a[lo..hi]
  {
  }

  lemma SliceBehind<T>(a: seq<T>, b: seq<T>, lo: nat, hi: nat)
    requires |a| <= lo <= hi <= |a| + |b|
    ensures (a + b)[lo..hi] == b[lo - |a|..hi - |a|]
  {
  }

  lemma EmptyLeft<T>(b: seq<T>)
    ensures [] + b == b
  {
  }

  lemma EmptyRight<T>(b: seq<T>)
    ensures b + [] == b
  {
  }

  lemma {:induction false} SubsetSize<T>(a: set<T>, b: set<T>)
    requires a <= b
    ensures |a| <= |b|
    decreases |a|
  {
    if a != {} {
      var x :| x in a;
      SubsetSize(a - {x}, b - {x});
    }
  }

  lemma EditBehindHead<T>(s: seq<T>, y: T, p: nat, q: nat)
    requires s != [] && p < |s| && q < |s|
    ensures [s[0]] + (s[1..][..p] + [y] + s[1..][q..]) == s[..p + 1] + [y] + s[q + 1..]
  {
  }

  lemma MinusAway<T>(a: set<T>, b: set<T>, i: set<T>)
    requires a !! i
    ensures a + (b - i) == a + b - i
  {
  }

  lemma LargerProduct(a: nat, b: nat, c: nat)
    requires a <= b
    ensures a * c <= b * c
  {
  }

  lemma Snoc<T>(a: seq<T>, b: seq<T>)
    requires b != []
    ensures a + b == (a + b[..|b| - 1]) + [b[|b| - 1]]
  {
  }

  lemma HeadTail<T>(s: seq<T>)
    requires s != []
    ensures s == [s[0]] + s[1..]
  {
  }
}

/** Bytes, and the little-endian integer fields every on-disk structure is made of. */
module Bytes {
  type byte = x: int | 0 <= x < 256

  /** A block's number on the device. */
  type Addr = nat

  const BLOCK_SIZE: nat := 4096

  datatype Option<+T> = None | Some(value: T)

  function Pow256(n: nat): (p: nat)
    ensures p >= 1
  {
    if n == 0 then 1 else 256 * Pow256(n - 1)
  }

  /** The `width` little-endian bytes of `value` (Rust's `to_le_bytes`, which drops higher bits). */
  function ToLE(value: nat, width: nat): (bytes: seq<byte>)
    ensures |bytes| == width
    decreases width, value
  {
    if width == 0 then [] else [value % 256] + ToLE(value / 256, width - 1)
  }

  /** The integer a little-endian field holds (Rust's `from_le_bytes`). */
  function FromLE(bytes: seq<byte>): (value: nat)
  {
    if bytes == [] then 0 else bytes[0] + 256 * FromLE(bytes[1..])
  }

  lemma {:induction false} LERoundTrip(value: nat, width: nat)
    requires value < Pow256(width)
    ensures FromLE(ToLE(value, width)) == value
    decreases width
  {
    if width > 0 {
      assert value / 256 < Pow256(width - 1);
      LERoundTrip(value / 256, width - 1);
      assert ToLE(value, width)[1..] == ToLE(value / 256, width - 1);
    }
  }

  lemma {:induction false} FieldFits(bytes: seq<byte>)
    ensures FromLE(bytes) < Pow256(|bytes|)
  {
    if bytes != [] { FieldFits(bytes[1..]); }
  }

  lemma FieldBounds()
    ensures Pow256(1) == 0x100
    ensures Pow256(2) == 0x1_0000
    ensures Pow256(4) == 0x1_0000_0000
    ensures Pow256(8) == 0x1_0000_0000_0000_0000
  {
    assert Pow256(3) == 0x100_0000;
    assert Pow256(5) == 0x100_0000_0000;
    assert Pow256(6) == 0x1_0000_0000_0000;
    assert Pow256(7) == 0x100_0000_0000_0000;
  }

  function Zeros(n: nat): (z: seq<byte>)
    ensures |z| == n
    ensures forall i :: 0 <= i < n ==> z[i] == 0
  {
    seq(n, i => 0)
  }
}
