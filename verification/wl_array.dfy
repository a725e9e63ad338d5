/**
 wl_array: a byte buffer that doubles when it is full.

 `data` is the block of memory behind the array; an empty block stands for the null
 pointer of an array that never allocated. malloc and realloc may fail at any call: what
 the allocator will answer if a call asks it for memory is the argument `granted`.
 */
module Arrays {
  import opened Words
  import opened Growth

  class WlArray {
    const n: WordSize
    var size: nat
    var alloc: nat
    var data: array<byte>
    /** The old capacities, added up over all reallocations. */
    ghost var copied: nat

    ghost function Grown(): Growing
      reads this
    {
      Growing(size, alloc, copied)
    }

    /** There is room for `request` more bytes in the block that is there. */
    ghost predicate Fits(request: nat)
      reads this
    {
      0 < alloc && size + request <= alloc
    }

    /** An addition of `request` bytes succeeds. */
    ghost predicate CanAdd(request: nat, granted: bool)
      reads this
    {
      granted || Fits(request)
    }

    ghost predicate Valid()
      reads this, data
    {
      data.Length == alloc && size <= alloc && ValidAlloc(alloc) && alloc <= Half(n)
    }

    ghost function Contents(): (bs: seq<byte>)
      requires Valid()
      reads this, data
    {
      data[..size]
    }

    constructor Init(n: WordSize)
      ensures Valid() && fresh(data) && this.n == n
      ensures Contents() == [] && Grown() == Growing(0, 0, 0)
    {
      this.n := n;
      size, alloc, copied := 0, 0, 0;
      data := new byte[0];
    }

    /** malloc or realloc to `bigger` bytes, if the allocator grants that. */
    method Reallocate(bigger: nat, granted: bool) returns (got: bool)
      requires Valid() && alloc < bigger <= Half(n) && IsBlock(bigger)
      modifies this
      ensures got == granted
      ensures !got ==> unchanged(this)
      ensures got ==> Valid() && fresh(data) && Contents() == old(Contents())
      ensures got ==> Grown() == Growing(old(size), bigger, old(copied + alloc))
    {
      got := granted;
      if got {
        var block := new byte[bigger];
        forall k | 0 <= k < alloc {
          block[k] := data[k];
        }
        copied := copied + alloc;
        data := block;
        alloc := bigger;
      }
    }

    /** Returns where the `request` new bytes start; their values are whatever was in memory. */
    method Add(request: nat, granted: bool) returns (ok: bool, off: nat)
      requires Valid() && size + request <= Half(n)
      modifies this
      ensures ok <==> old(CanAdd(request, granted))
      ensures Valid() && if ok && !old(Fits(request)) then fresh(data) else data == old(data)
      ensures ok ==> off == old(size) && Grown() == AddBytes(old(Grown()), request)
      ensures ok ==> Contents()[..off] == old(Contents())
      ensures !ok ==> unchanged(this)
    {
      var a := if alloc > 0 then alloc else 16;
      ghost var total := size + request;
      var need := (size + request) % Modulus(n);
      ModBelow(total, Modulus(n));
      NewAllocBound(alloc, total, n);
      NewAllocIsLeast(alloc, total);
      while a < need
        invariant unchanged(this) && need == total
        invariant 0 < a && Fit(a, need) == NewAlloc(alloc, total)
      {
        ModBelow(2 * a, Modulus(n));
        a := 2 * a % Modulus(n);
      }
      if alloc < a {
        var got := Reallocate(a, granted);
        if !got {
          return false, 0;
        }
      }
      off := size;
      size := size + request;
      ok := true;
      assert Contents()[..off] == data[..off];
    }

    /** memcpy(data, source.data, source.size) */
    method CopyBytes(source: WlArray)
      requires Valid() && source.Valid() && size == source.size
      requires this == source || data != source.data
      modifies data
      ensures Valid() && Contents() == old(source.Contents())
      ensures source.Contents() == old(source.Contents())
    {
      for k := 0 to source.size
        invariant forall j :: 0 <= j < k ==> data[j] == old(source.data[j])
        invariant source.Contents() == old(source.Contents())
      {
        data[k] := source.data[k];
      }
    }

    /** Memory is asked for only if the source is larger than the block that is there. */
    method Copy(source: WlArray, granted: bool) returns (ok: bool)
      requires Valid() && source.Valid() && n == source.n
      requires this == source || data != source.data
      modifies this, data
      ensures ok <==> granted || source.size <= old(alloc)
      ensures Valid() && source.Valid()
      ensures if ok && source.size > old(alloc) then fresh(data) else data == old(data)
      ensures ok ==> Grown() == CopyInto(old(Grown()), source.size)
      ensures source.Contents() == old(source.Contents())
      ensures ok ==> Contents() == old(source.Contents())
      ensures !ok ==> unchanged(this) && Contents() == old(Contents())
    {
      if size < source.size {
        var off;
        ok, off := Add(source.size - size, granted);
        if !ok {
          return;
        }
      } else {
        size := source.size;
      }
      if source.size > 0 {
        CopyBytes(source);
      }
      ok := true;
    }

    // ---------- the buffer as an array of words of `m` bytes ----------

    ghost function Elems(m: WordSize): (es: seq<nat>)
      requires Valid() && Whole(size, m)
      reads this, data
    {
      Elements(Contents(), m)
    }

    /** Reads the word at `start[i]`. */
    method Load(m: WordSize, i: nat) returns (w: nat)
      requires Valid() && Whole(size, m) && i < Count(size, m)
      ensures w == Elems(m)[i] && w < Modulus(m)
    {
      ElementAt(Contents(), m, i);
      var off := Offset(i, m);
      w := Word(data[off..off + m]);
      SliceOfTake(data[..], size, off, off + m);
    }

    /** Writes the word at `start[i]`. */
    method Store(m: WordSize, i: nat, w: nat)
      requires Valid() && Whole(size, m) && i < Count(size, m) && w < Modulus(m)
      modifies data
      ensures Valid() && Elems(m) == old(Elems(m))[i := w]
    {
      ElementsOverwrite(Contents(), m, i, w);
      var off := Offset(i, m);
      var e := Bytes(w, m);
      forall k | 0 <= k < m {
        data[off + k] := e[k];
      }
      assert Contents() == Overwrite(old(Contents()), off, e);
    }

    /** wl_array_add(entries, sizeof *entry): one more element, still uninitialised. */
    method AddElement(m: WordSize, granted: bool) returns (ok: bool)
      requires Valid() && Whole(size, m) && size + m <= Half(n)
      modifies this
      ensures ok <==> old(CanAdd(m, granted))
      ensures Valid() && Whole(size, m) && if ok && !old(Fits(m)) then fresh(data) else data == old(data)
      ensures ok ==> Grown() == AddBytes(old(Grown()), m) && Count(size, m) == old(Count(size, m)) + 1
      ensures ok ==> Elems(m)[..|Elems(m)| - 1] == old(Elems(m))
      ensures !ok ==> unchanged(this)
    {
      ghost var was := Contents();
      var off;
      ok, off := Add(m, granted);
      if ok {
        ElementsAppend(was, m, Contents()[off..]);
        assert Contents() == was + Contents()[off..];
      }
    }
  }

  lemma SliceOfTake<T>(s: seq<T>, size: nat, a: nat, b: nat)
    requires a <= b <= size <= |s|
    ensures s[..size][a..b] == s[a..b]
  {
  }
}
