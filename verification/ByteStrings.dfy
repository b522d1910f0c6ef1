/** Byte strings, their concatenation, and the fixed-width little-endian numbers that frame them. */
module ByteStrings {
  import opened Basics

  newtype byte = x: int | 0 <= x < 256

  type Bytes = seq<byte>

  // The largest length an unsigned 64-bit field can carry, plus one.
  const TWO_64: nat := 0x1_0000_0000_0000_0000

  /** Where piece number i starts in the joined sequence. */
  function Start<T>(pieces: seq<seq<T>>, i: nat): nat
    requires i <= |pieces|
  {
    |Flatten(pieces[..i])|
  }

  /** Cutting the joined sequence between two starts is joining the pieces between them. */
  lemma {:induction false} FlattenSlice<T>(pieces: seq<seq<T>>, i: nat, j: nat)
    requires i <= j <= |pieces|
    ensures Start(pieces, i) <= Start(pieces, j) <= |Flatten(pieces)|
    ensures Flatten(pieces)[Start(pieces, i)..Start(pieces, j)] == Flatten(pieces[i..j])
  {
    var a, b, c := pieces[..i], pieces[i..j], pieces[j..];
    assert pieces == pieces[..j] + c && pieces[..j] == a + b;
    FlattenAppend(pieces[..j], c);
    FlattenAppend(a, b);
  }

  lemma FlattenPiece<T>(pieces: seq<seq<T>>, i: nat)
    requires i < |pieces|
    ensures Start(pieces, i) <= Start(pieces, i + 1) <= |Flatten(pieces)|
    ensures Flatten(pieces)[Start(pieces, i)..Start(pieces, i + 1)] == pieces[i]
  {
    FlattenSlice(pieces, i, i + 1);
    assert pieces[i..i + 1] == [pieces[i]];
    FlattenSingle(pieces[i]);
  }

  ghost predicate Uniform<T>(pieces: seq<seq<T>>, width: nat) {
    forall i :: 0 <= i < |pieces| ==> |pieces[i]| == width
  }

  lemma {:induction false} FlattenUniformLength<T>(pieces: seq<seq<T>>, width: nat)
    requires Uniform(pieces, width)
    ensures |Flatten(pieces)| == |pieces| * width
  {
    if pieces != [] {
      FlattenUniformLength(pieces[1..], width);
    }
  }

  lemma MulMono(a: nat, b: nat, w: nat)
    requires a <= b
    ensures a * w <= b * w
    ensures (b - a) * w == b * w - a * w
  {
  }

  /** Cutting the joined bytes at multiples of the width is cutting the list of pieces. */
  lemma {:induction false} FlattenUniformSlice<T>(pieces: seq<seq<T>>, width: nat, lo: nat, hi: nat)
    requires Uniform(pieces, width) && lo <= hi <= |pieces|
    ensures lo * width <= hi * width <= |Flatten(pieces)|
    ensures Flatten(pieces)[lo * width..hi * width] == Flatten(pieces[lo..hi])
  {
    var a, b, c := pieces[..lo], pieces[lo..hi], pieces[hi..];
    assert pieces == a + (b + c);
    FlattenAppend(a, b + c);
    FlattenAppend(b, c);
    FlattenUniformLength(a, width);
    FlattenUniformLength(b, width);
    FlattenUniformLength(pieces, width);
    MulMono(lo, hi, width);
    MulMono(hi, |pieces|, width);
  }

  /** Lists whose pieces have pairwise equal lengths are determined by what they join to. */
  lemma {:induction false} FlattenInjective<T>(xs: seq<seq<T>>, ys: seq<seq<T>>)
    requires |xs| == |ys|
    requires forall i :: 0 <= i < |xs| ==> |xs[i]| == |ys[i]|
    requires Flatten(xs) == Flatten(ys)
    ensures xs == ys
  {
    if xs != [] {
      StripPrefix(xs[0], Flatten(xs[1..]), ys[0], Flatten(ys[1..]));
      FlattenInjective(xs[1..], ys[1..]);
      assert xs == [xs[0]] + xs[1..] && ys == [ys[0]] + ys[1..];
    }
  }

  lemma StripPrefix<T>(p: seq<T>, s: seq<T>, q: seq<T>, t: seq<T>)
    requires |p| == |q| && p + s == q + t
    ensures p == q && s == t
  {
    assert p == (p + s)[..|p|] && s == (p + s)[|p|..];
    assert q == (q + t)[..|q|] && t == (q + t)[|q|..];
  }

  // ---------- little-endian numbers ----------

  function Pow256(k: nat): nat {
    if k == 0 then 1 else 256 * Pow256(k - 1)
  }

  /** The low k bytes of n, least significant first. */
  function LittleEndian(n: nat, k: nat): (r: Bytes)
    ensures |r| == k
  {
    if k == 0 then [] else [(n % 256) as byte] + LittleEndian(n / 256, k - 1)
  }

  function FromLittleEndian(b: Bytes): nat {
    if b == [] then 0 else b[0] as nat + 256 * FromLittleEndian(b[1..])
  }

  lemma {:induction false} LittleEndianRoundTrip(n: nat, k: nat)
    requires n < Pow256(k)
    ensures FromLittleEndian(LittleEndian(n, k)) == n
  {
    if k > 0 {
      LittleEndianRoundTrip(n / 256, k - 1);
      assert LittleEndian(n, k)[1..] == LittleEndian(n / 256, k - 1);
    }
  }

  lemma Pow256Eight()
    ensures Pow256(8) == TWO_64
  {
    assert Pow256(4) == 0x1_0000_0000;
    assert Pow256(8) == 0x1_0000_0000 * Pow256(4);
  }

  /** `struct.pack('<Q', n)`; the packing itself refuses larger numbers. */
  function U64(n: nat): (r: Bytes)
    requires n < TWO_64
    ensures |r| == 8
  {
    LittleEndian(n, 8)
  }

  /** Eight bytes, the first one the least significant. */
  lemma EightBytes(b: Bytes)
    requires |b| == 8
    ensures FromLittleEndian(b) == b[0] as nat + 0x100 * b[1] as nat + 0x1_0000 * b[2] as nat
      + 0x100_0000 * b[3] as nat + 0x1_0000_0000 * b[4] as nat + 0x100_0000_0000 * b[5] as nat
      + 0x1_0000_0000_0000 * b[6] as nat + 0x100_0000_0000_0000 * b[7] as nat
  {
    Tail(b, 8);
    Tail(b[1..], 7);
    Tail(b[2..], 6);
    Tail(b[3..], 5);
    Tail(b[4..], 4);
    Tail(b[5..], 3);
    Tail(b[6..], 2);
    Tail(b[7..], 1);
  }

  lemma Tail(b: Bytes, n: nat)
    requires |b| == n > 0
    ensures FromLittleEndian(b) == b[0] as nat + 256 * FromLittleEndian(b[1..])
    ensures forall k :: 0 <= k < n ==> b[1..][k..] == b[k + 1..]
    ensures n == 1 ==> FromLittleEndian(b[1..]) == 0
  {
  }

  lemma U64RoundTrip(n: nat)
    requires n < TWO_64
    ensures FromLittleEndian(U64(n)) == n
  {
    Pow256Eight();
    LittleEndianRoundTrip(n, 8);
  }

  lemma U64Injective(m: nat, n: nat)
    requires m < TWO_64 && n < TWO_64 && U64(m) == U64(n)
    ensures m == n
  {
    U64RoundTrip(m);
    U64RoundTrip(n);
  }
}
