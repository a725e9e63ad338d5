/**
 Machine words: 32-bit ids, the bytes of a word in memory, the arithmetic of entry tags.

 A map entry is one pointer-sized word. Bit 0 marks a free-list link, bit 1 is the flag of
 a live entry, and the remaining bits are a 4-aligned pointer. Words are kept in byte
 buffers, little-endian as on every architecture the library is built for.
 */
module Words {

  type byte = n: nat | n < 256

  type uint32 = n: nat | n < 0x1_0000_0000

  /** The size of a machine word in bytes. */
  type WordSize = n: nat | n == 4 || n == 8 witness 4

  function Pow2(k: nat): (r: nat)
    ensures r > 0
  {
    if k == 0 then 1 else 2 * Pow2(k - 1)
  }

  /** 2^(W-1), the largest power of two a word of `n` bytes can hold. */
  function Half(n: WordSize): nat {
    if n == 4 then 0x8000_0000 else 0x8000_0000_0000_0000
  }

  /** 2^W: arithmetic on a word of `n` bytes is modulo this. */
  function Modulus(n: WordSize): nat {
    2 * Half(n)
  }

  // ---------- words as bytes ----------

  function Bytes(w: nat, n: nat): (bs: seq<byte>)
    ensures |bs| == n
  {
    if n == 0 then [] else [w % 256] + Bytes(w / 256, n - 1)
  }

  function Word(bs: seq<byte>): nat {
    if bs == [] then 0 else bs[0] + 256 * Word(bs[1..])
  }

  /** One more than the largest number `n` bytes can hold. */
  function Range(n: nat): nat {
    if n == 0 then 1 else 256 * Range(n - 1)
  }

  lemma RangeIsModulus(n: WordSize)
    ensures Range(n) == Modulus(n)
  {
    assert Range(4) == 0x1_0000_0000;
    assert Range(8) == 0x1_0000_0000_0000_0000;
  }

  lemma {:induction false} RangeIsPow2(k: nat)
    ensures Range(k) == Pow2(8 * k)
  {
    if k > 0 {
      RangeIsPow2(k - 1);
      var j := 8 * (k - 1);
      assert Pow2(j + 2) == 4 * Pow2(j);
      assert Pow2(j + 4) == 4 * Pow2(j + 2);
      assert Pow2(j + 6) == 4 * Pow2(j + 4);
      assert Pow2(j + 8) == 4 * Pow2(j + 6);
    }
  }

  lemma HalfIsPow2(n: WordSize)
    ensures Half(n) == Pow2(8 * n - 1)
  {
    RangeIsModulus(n);
    RangeIsPow2(n);
    var k := 8 * n;
    assert Pow2(k) == 2 * Pow2(k - 1);
  }

  lemma {:induction false} WordOfBytes(w: nat, n: nat)
    requires w < Range(n)
    ensures Word(Bytes(w, n)) == w
  {
    if n > 0 {
      WordOfBytes(w / 256, n - 1);
      assert Bytes(w, n)[1..] == Bytes(w / 256, n - 1);
    }
  }

  lemma {:induction false} BytesOfWord(bs: seq<byte>)
    ensures Word(bs) < Range(|bs|) && Bytes(Word(bs), |bs|) == bs
  {
    if bs != [] {
      BytesOfWord(bs[1..]);
      assert Word(bs) % 256 == bs[0] && Word(bs) / 256 == Word(bs[1..]);
      assert bs == [bs[0]] + bs[1..];
    }
  }

  // ---------- a byte buffer read as an array of words ----------

  /** The byte offset of element `i`. */
  function Offset(i: nat, n: WordSize): nat {
    if n == 4 then 4 * i else 8 * i
  }

  /** How many whole elements `size` bytes hold. */
  function Count(size: nat, n: WordSize): nat {
    if n == 4 then size / 4 else size / 8
  }

  predicate Whole(size: nat, n: WordSize) {
    size == Offset(Count(size, n), n)
  }

  function Elements(bs: seq<byte>, n: WordSize): (es: seq<nat>)
    requires Whole(|bs|, n)
    ensures |es| == Count(|bs|, n)
    decreases |bs|
  {
    if bs == [] then [] else
      WholeTail(|bs|, n);
      [Word(bs[..n])] + Elements(bs[n..], n)
  }

  lemma WholeTail(size: nat, n: WordSize)
    requires Whole(size, n) && size > 0
    ensures size >= n && Whole(size - n, n) && Count(size, n) == Count(size - n, n) + 1
  {
  }

  /** The buffer with the bytes from `off` on overwritten by `e`. */
  function Overwrite(bs: seq<byte>, off: nat, e: seq<byte>): (r: seq<byte>)
    requires off + |e| <= |bs|
    ensures |r| == |bs|
  {
    bs[..off] + e + bs[off + |e|..]
  }

  lemma SliceOfTail(bs: seq<byte>, n: nat, o: nat, k: nat)
    requires n + o + k <= |bs|
    ensures bs[n..][o..o + k] == bs[n + o..n + o + k]
  {
  }

  lemma OverwriteTail(bs: seq<byte>, n: nat, o: nat, e: seq<byte>)
    requires n + o + |e| <= |bs|
    ensures Overwrite(bs, n + o, e)[..n] == bs[..n]
    ensures Overwrite(bs, n + o, e)[n..] == Overwrite(bs[n..], o, e)
  {
  }

  lemma OverwriteHead(bs: seq<byte>, e: seq<byte>)
    requires |e| <= |bs|
    ensures Overwrite(bs, 0, e)[..|e|] == e && Overwrite(bs, 0, e)[|e|..] == bs[|e|..]
  {
  }

  lemma {:induction false} ElementAt(bs: seq<byte>, n: WordSize, i: nat)
    requires Whole(|bs|, n) && i < Count(|bs|, n)
    ensures Offset(i, n) + n <= |bs|
    ensures Elements(bs, n)[i] == Word(bs[Offset(i, n)..Offset(i, n) + n])
    ensures Elements(bs, n)[i] < Modulus(n)
    decreases i
  {
    var o := Offset(i, n);
    if i == 0 {
      BytesOfWord(bs[..n]);
      RangeIsModulus(n);
    } else {
      ElementAt(bs[n..], n, i - 1);
      SliceOfTail(bs, n, o - n, n);
    }
  }

  lemma WholePlus(size: nat, n: WordSize)
    requires Whole(size, n)
    ensures Whole(size + n, n) && Count(size + n, n) == Count(size, n) + 1
  {
  }

  lemma ElementsOne(e: seq<byte>, n: WordSize)
    requires |e| == n
    ensures Whole(n, n) && Elements(e, n) == [Word(e)]
  {
    assert e[..n] == e && e[n..] == [];
    assert Elements(e, n) == [Word(e)] + Elements([], n);
  }

  lemma {:induction false} ElementsAppend(bs: seq<byte>, n: WordSize, e: seq<byte>)
    requires Whole(|bs|, n) && |e| == n
    ensures Whole(|bs + e|, n)
    ensures Elements(bs + e, n) == Elements(bs, n) + [Word(e)]
    decreases |bs|
  {
    WholePlus(|bs|, n);
    if bs == [] {
      assert bs + e == e;
      ElementsOne(e, n);
    } else {
      WholeTail(|bs|, n);
      ElementsAppend(bs[n..], n, e);
      assert (bs + e)[..n] == bs[..n] && (bs + e)[n..] == bs[n..] + e;
    }
  }

  lemma {:induction false} ElementsOverwrite(bs: seq<byte>, n: WordSize, i: nat, w: nat)
    requires Whole(|bs|, n) && i < Count(|bs|, n) && w < Modulus(n)
    ensures Offset(i, n) + n <= |bs|
    ensures Elements(Overwrite(bs, Offset(i, n), Bytes(w, n)), n) == Elements(bs, n)[i := w]
    decreases i
  {
    var e := Bytes(w, n);
    WholeTail(|bs|, n);
    if i == 0 {
      RangeIsModulus(n);
      WordOfBytes(w, n);
      OverwriteHead(bs, e);
    } else {
      ElementsOverwrite(bs[n..], n, i - 1, w);
      OverwriteTail(bs, n, Offset(i, n) - n, e);
    }
  }

  // ---------- entry tags ----------

  /** `entry.next & 1` */
  predicate TaggedFree(w: nat) {
    w % 2 == 1
  }

  /** `entry.next & ~3` */
  function PointerOf(w: nat): nat {
    w - w % 4
  }

  /** `(entry.next >> 1) & 1` */
  function FlagOf(w: nat): nat {
    w / 2 % 2
  }

  /** `entry.next | (flags & 1) << 1` */
  function OrFlag(w: nat, flags: nat): nat {
    if flags % 2 == 1 && FlagOf(w) == 0 then w + 2 else w
  }

  /** `(i << 1) | 1` in 32 bits */
  function LinkWord(i: uint32): uint32 {
    2 * i % 0x1_0000_0000 + 1
  }

  /** A data pointer: it fits in a word and its two low bits are clear. */
  predicate IsPointer(p: nat, n: WordSize) {
    p % 4 == 0 && p < Modulus(n)
  }

  /** Storing a pointer and a flag in one word loses neither; the flag never carries. */
  lemma TagRoundTrip(p: nat, flags: nat, n: WordSize)
    requires IsPointer(p, n)
    ensures var w := OrFlag(p, flags);
            w < Modulus(n) && !TaggedFree(w) && PointerOf(w) == p && FlagOf(w) == flags % 2
  {
    var q, f := p / 4, flags % 2;
    assert p == 4 * q && p / 2 == 2 * q;
    assert OrFlag(p, flags) == 4 * q + 2 * f;
    assert (4 * q + 2 * f) / 2 == 2 * q + f;
    assert Modulus(n) % 4 == 0;
  }

  /** A link decodes to its index if and only if the shift did not drop the top bit. */
  lemma LinkRoundTrip(i: uint32)
    ensures LinkWord(i) / 2 == i <==> i < 0x8000_0000
    ensures TaggedFree(LinkWord(i))
  {
  }
}
