/**
 The doubling loop of wl_array_add, apart from the memory it sizes.

 The loop runs on machine words: `alloc *= 2` and `size + request` drop what does not fit
 in W bits. `Wrapped` is that loop step by step, `Fit` the mathematical result.
 */
module Growth {
  import opened Words

  /** A power of two that is at least 16: every nonzero `alloc` is one. */
  predicate IsBlock(a: nat) {
    a == 16 || (a > 16 && a % 2 == 0 && IsBlock(a / 2))
  }

  lemma {:induction false} IsBlockMeansPow2(a: nat)
    ensures IsBlock(a) <==> exists k: nat :: a == 16 * Pow2(k)
    decreases a
  {
    if IsBlock(a) && a > 16 {
      IsBlockMeansPow2(a / 2);
      var k: nat :| a / 2 == 16 * Pow2(k);
      assert a == 16 * Pow2(k + 1);
    } else if a == 16 {
      assert a == 16 * Pow2(0);
    }
    forall k: nat | a == 16 * Pow2(k)
      ensures IsBlock(a)
    {
      if k > 0 {
        IsBlockMeansPow2(a / 2);
        assert a / 2 == 16 * Pow2(k - 1);
      }
    }
  }

  lemma HalfIsBlock(n: WordSize)
    ensures IsBlock(Half(n))
  {
    HalfIsPow2(n);
    ScaledBlock(8 * n - 5);
  }

  lemma {:induction false} ScaledBlock(k: nat)
    ensures Pow2(k + 4) == 16 * Pow2(k) && IsBlock(Pow2(k + 4))
  {
    if k > 0 {
      ScaledBlock(k - 1);
    } else {
      assert Pow2(2) == 4 * Pow2(0);
      assert Pow2(4) == 4 * Pow2(2);
    }
  }

  /** Blocks are spread out: the next one is at least twice as large. */
  lemma {:induction false} BlocksDouble(a: nat, b: nat)
    requires IsBlock(a) && IsBlock(b) && a < b
    ensures 2 * a <= b
    decreases a
  {
    if a > 16 {
      BlocksDouble(a / 2, b / 2);
    } else {
      assert b / 2 >= 16;
    }
  }

  /** Where doubling from `a` first reaches `need`. */
  function Fit(a: nat, need: nat): (r: nat)
    requires a > 0
    ensures r >= a && r >= need
    decreases need - a
  {
    if a >= need then a else Fit(2 * a, need)
  }

  function Start(alloc: nat): nat {
    if alloc > 0 then alloc else 16
  }

  /** The capacity wl_array_add settles on. */
  function NewAlloc(alloc: nat, need: nat): nat {
    Fit(Start(alloc), need)
  }

  predicate ValidAlloc(alloc: nat) {
    alloc == 0 || IsBlock(alloc)
  }

  lemma {:induction false} FitIsLeastBlock(a: nat, need: nat)
    requires IsBlock(a)
    ensures IsBlock(Fit(a, need))
    ensures forall b: nat :: IsBlock(b) && b >= a && b >= need ==> Fit(a, need) <= b
    decreases need - a
  {
    if a < need {
      FitIsLeastBlock(2 * a, need);
      forall b: nat | IsBlock(b) && b >= need
        ensures 2 * a <= b
      {
        BlocksDouble(a, b);
      }
    }
  }

  /** Tightness: the new capacity is the least block that holds the old one and the need. */
  lemma NewAllocIsLeast(alloc: nat, need: nat)
    requires ValidAlloc(alloc)
    ensures var r := NewAlloc(alloc, need);
            IsBlock(r) && r >= need && r >= alloc &&
            forall b: nat :: IsBlock(b) && b >= need && b >= alloc ==> r <= b
  {
    FitIsLeastBlock(Start(alloc), need);
    forall b: nat | IsBlock(b)
      ensures b >= 16
    {
    }
  }

  /** A request that fits in half the address space gets a capacity that does too. */
  lemma NewAllocBound(alloc: nat, need: nat, n: WordSize)
    requires ValidAlloc(alloc) && alloc <= Half(n) && need <= Half(n)
    ensures NewAlloc(alloc, need) <= Half(n)
  {
    NewAllocIsLeast(alloc, need);
    HalfIsBlock(n);
  }

  // ---------- the loop on machine words ----------

  /** `alloc` after `k` turns of `alloc *= 2` on words of `n` bytes. */
  function Wrapped(a: nat, k: nat, n: WordSize): nat {
    if k == 0 then a else 2 * Wrapped(a, k - 1, n) % Modulus(n)
  }

  /** The loop `while (alloc < need)` leaves after exactly `k` turns. */
  ghost predicate ExitsAfter(a: nat, need: nat, k: nat, n: WordSize) {
    Wrapped(a, k, n) >= need && forall j: nat :: j < k ==> Wrapped(a, j, n) < need
  }

  lemma ModBelow(x: nat, m: nat)
    requires m > 0 && x <= m
    ensures x % m == if x == m then 0 else x
  {
  }

  lemma DoubledBlock(x: nat, h: nat)
    requires ValidAlloc(x) && IsBlock(h) && x < h
    ensures ValidAlloc(2 * x) && 2 * x <= h
  {
    if x > 0 {
      BlocksDouble(x, h);
    }
  }

  lemma {:induction false} WrappedStaysLow(a: nat, k: nat, n: WordSize)
    requires IsBlock(a) && a <= Half(n)
    ensures var r := Wrapped(a, k, n); ValidAlloc(r) && r <= Half(n)
  {
    if k > 0 {
      WrappedStaysLow(a, k - 1, n);
      var x := Wrapped(a, k - 1, n);
      ModBelow(2 * x, Modulus(n));
      HalfIsBlock(n);
      if x < Half(n) {
        DoubledBlock(x, Half(n));
      }
    }
  }

  lemma {:induction false} WrappedShift(a: nat, k: nat, n: WordSize)
    requires 2 * a < Modulus(n)
    ensures Wrapped(a, k + 1, n) == Wrapped(2 * a, k, n)
  {
    if k > 0 {
      WrappedShift(a, k - 1, n);
    }
  }

  lemma {:induction false} LoopReachesFit(a: nat, need: nat, n: WordSize) returns (k: nat)
    requires 0 < a && need <= Half(n)
    ensures ExitsAfter(a, need, k, n) && Wrapped(a, k, n) == Fit(a, need)
    decreases need - a
  {
    if a >= need {
      k := 0;
    } else {
      var m := LoopReachesFit(2 * a, need, n);
      k := m + 1;
      WrappedShift(a, m, n);
      forall j: nat | j < k
        ensures Wrapped(a, j, n) < need
      {
        if j > 0 {
          WrappedShift(a, j - 1, n);
        }
      }
    }
  }

  /** The loop terminates if and only if the sum it compares against is at most 2^(W-1). */
  lemma LoopTerminatesIff(alloc: nat, need: nat, n: WordSize)
    requires ValidAlloc(alloc) && alloc <= Half(n)
    ensures (exists k: nat :: ExitsAfter(Start(alloc), need, k, n)) <==> need <= Half(n)
  {
    if need <= Half(n) {
      var k := LoopReachesFit(Start(alloc), need, n);
    } else {
      forall k: nat
        ensures !ExitsAfter(Start(alloc), need, k, n)
      {
        WrappedStaysLow(Start(alloc), k, n);
      }
    }
  }

  /** When it terminates it leaves with the capacity `NewAlloc` names. */
  lemma LoopResult(alloc: nat, need: nat, k: nat, n: WordSize)
    requires need <= Half(n) && ExitsAfter(Start(alloc), need, k, n)
    ensures Wrapped(Start(alloc), k, n) == NewAlloc(alloc, need)
  {
    var m := LoopReachesFit(Start(alloc), need, n);
    assert m == k;
  }

  /**
   The sum itself is computed modulo 2^W. So the loop leaves with room for the whole
   request if and only if the true total is at most 2^(W-1): above that it runs forever,
   or leaves too early because the sum wrapped.
   */
  lemma LoopMakesRoomIff(alloc: nat, size: nat, request: nat, n: WordSize)
    requires ValidAlloc(alloc) && alloc <= Half(n)
    ensures (exists k: nat ::
               ExitsAfter(Start(alloc), (size + request) % Modulus(n), k, n) &&
               Wrapped(Start(alloc), k, n) >= size + request)
            <==> size + request <= Half(n)
  {
    var a, total := Start(alloc), size + request;
    if total <= Half(n) {
      ModBelow(total, Modulus(n));
      var k := LoopReachesFit(a, total, n);
      assert ExitsAfter(a, total % Modulus(n), k, n) && Wrapped(a, k, n) >= total;
    } else {
      forall k: nat
        ensures Wrapped(a, k, n) < total
      {
        WrappedStaysLow(a, k, n);
      }
    }
  }

  // ---------- cost over any sequence of additions ----------

  /** `copied` adds up the old capacities at every reallocation. */
  datatype Growing = Growing(size: nat, alloc: nat, copied: nat)

  function AddBytes(g: Growing, request: nat): Growing {
    var r := NewAlloc(g.alloc, g.size + request);
    Growing(g.size + request, r, if g.alloc < r then g.copied + g.alloc else g.copied)
  }

  /** A copy makes room if the source is larger and else only changes the size. */
  function CopyInto(g: Growing, size: nat): Growing {
    if g.size < size then AddBytes(g, size - g.size) else g.(size := size)
  }

  datatype Change = Adds(request: nat) | Copies(size: nat)

  function After(g: Growing, change: Change): Growing {
    match change
    case Adds(request) => AddBytes(g, request)
    case Copies(size) => CopyInto(g, size)
  }

  function AfterAll(g: Growing, changes: seq<Change>): Growing
    decreases |changes|
  {
    if changes == [] then g else AfterAll(After(g, changes[0]), changes[1..])
  }

  /** The largest size on the way. */
  function Peak(g: Growing, changes: seq<Change>): nat
    decreases |changes|
  {
    if changes == [] then g.size else
      var later := Peak(After(g, changes[0]), changes[1..]);
      if later < g.size then g.size else later
  }

  /** `peak` is a size the array had, or more. */
  predicate Amortised(g: Growing, peak: nat) {
    ValidAlloc(g.alloc) && g.size <= g.alloc && g.size <= peak &&
    (if g.alloc == 0 then g.copied == 0 else g.copied <= g.alloc - 16) &&
    (g.alloc <= 16 || g.alloc < 2 * peak)
  }

  lemma AddBytesAmortised(g: Growing, request: nat, peak: nat)
    requires Amortised(g, peak) && g.size + request <= peak
    ensures Amortised(AddBytes(g, request), peak)
  {
    var need := g.size + request;
    var r := NewAlloc(g.alloc, need);
    NewAllocIsLeast(g.alloc, need);
    if g.alloc < r && g.alloc > 0 {
      BlocksDouble(g.alloc, r);
    }
    if g.alloc < r && r > 16 {
      // half of r is a block too, and not below the old capacity: it was too small
      assert IsBlock(r / 2);
    }
  }

  lemma AfterAmortised(g: Growing, change: Change, peak: nat)
    requires Amortised(g, peak) && After(g, change).size <= peak
    ensures Amortised(After(g, change), peak)
  {
    match change
    case Adds(request) => AddBytesAmortised(g, request, peak);
    case Copies(size) =>
      if g.size < size {
        AddBytesAmortised(g, size - g.size, peak);
      }
  }

  lemma {:induction false} PeakIsReached(g: Growing, changes: seq<Change>)
    ensures g.size <= Peak(g, changes) && AfterAll(g, changes).size <= Peak(g, changes)
    ensures changes != [] ==> Peak(After(g, changes[0]), changes[1..]) <= Peak(g, changes)
    decreases |changes|
  {
    if changes != [] {
      PeakIsReached(After(g, changes[0]), changes[1..]);
    }
  }

  lemma {:induction false} AfterAllAmortised(g: Growing, changes: seq<Change>, peak: nat)
    requires Amortised(g, peak) && Peak(g, changes) <= peak
    ensures Amortised(AfterAll(g, changes), peak)
    decreases |changes|
  {
    if changes != [] {
      PeakIsReached(g, changes);
      PeakIsReached(After(g, changes[0]), changes[1..]);
      AfterAmortised(g, changes[0], peak);
      AfterAllAmortised(After(g, changes[0]), changes[1..], peak);
    }
  }

  /**
   From an empty array, over any run of additions and copies, all reallocations together
   copy less than twice the bytes the array ever held at once.
   */
  lemma TotalCopyingIsLinear(changes: seq<Change>)
    ensures var g, peak := AfterAll(Growing(0, 0, 0), changes), Peak(Growing(0, 0, 0), changes);
            Amortised(g, peak) && (g.copied == 0 || g.copied < 2 * peak)
  {
    AfterAllAmortised(Growing(0, 0, 0), changes, Peak(Growing(0, 0, 0), changes));
  }
}
