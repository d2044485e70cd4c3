/**
  Periodic sequences: `k` back-to-back copies of a fixed block, and the notion of a
  window onto the infinite repetition of that block.
 */
module Repetition {

  /** `k` copies of `block`, one after another. */
  function Repeat<T>(block: seq<T>, k: nat): (r: seq<T>)
    requires |block| > 0
    ensures |r| == k * |block|
    ensures forall i :: 0 <= i < |r| ==> r[i] == block[i % |block|]
  {
    if k == 0 then []
    else
      var r := Repeat(block, k - 1) + block;
      forall i | (k - 1) * |block| <= i < |r|
        ensures r[i] == block[i % |block|]
      {
        ModInBlock(i, k - 1, |block|);
      }
      r
  }

  /** `s` is the stretch of the infinite repetition of `block` that starts at position `off`. */
  predicate WindowAt<T(==)>(block: seq<T>, s: seq<T>, off: int)
    requires |block| > 0
  {
    forall i :: 0 <= i < |s| ==> s[i] == block[(off + i) % |block|]
  }

  /** No entry of `block` occurs twice. */
  predicate Distinct<T(==)>(block: seq<T>)
  {
    forall i, j :: 0 <= i < j < |block| ==> block[i] != block[j]
  }

  /** Every element of `s` is an entry of `block`. */
  predicate DrawnFrom<T(==)>(block: seq<T>, s: seq<T>)
  {
    forall i :: 0 <= i < |s| ==> s[i] in block
  }

  // ---------------------------------------------------------------------------
  // Arithmetic on block positions

  lemma ModInBlock(i: int, q: nat, n: nat)
    requires n > 0 && q * n <= i < q * n + n
    ensures i % n == i - q * n
  {
    var r := i - q * n;
    assert i == q * n + r && 0 <= r < n;
    ModAddMultiple(r, q, n);
  }

  /** Adding whole blocks does not move a position within its block. */
  lemma ModAddMultiple(a: int, k: int, n: nat)
    requires n > 0
    ensures (a + k * n) % n == a % n
  {
    assert a == (a / n) * n + a % n;
    assert (a / n + k) * n == (a / n) * n + k * n;
    ModUnique(a + k * n, a / n + k, a % n, n);
  }

  /** Euclidean quotient and remainder are the only ones. */
  lemma ModUnique(x: int, q: int, r: int, n: nat)
    requires n > 0 && x == q * n + r && 0 <= r < n
    ensures x % n == r && x / n == q
  {
    var d := q - x / n;
    assert x == (x / n) * n + x % n;
    assert d * n == x % n - r;
    if d >= 1 {
      MulAtLeast(d, n);
    } else if d <= -1 {
      MulAtLeast(-d, n);
    }
  }

  lemma MulAtLeast(d: int, n: nat)
    requires d >= 1
    ensures d * n >= n
  {
  }

  /** A position that is a whole number of blocks away from `y` lies where `y` does. */
  lemma ModSumAligned(x: int, y: int, n: nat)
    requires n > 0 && x % n == 0
    ensures (x + y) % n == y % n
  {
    assert x == (x / n) * n;
    ModAddMultiple(y, x / n, n);
  }

  // ---------------------------------------------------------------------------
  // Windows

  /** A repetition that starts at the head of the block is the window at offset 0. */
  lemma RepeatIsWindow<T>(block: seq<T>, k: nat)
    requires |block| > 0
    ensures WindowAt(block, Repeat(block, k), 0)
    ensures DrawnFrom(block, Repeat(block, k))
  {
  }

  /** With distinct entries, a non-empty window determines its offset up to whole blocks. */
  lemma WindowOffsetUnique<T>(block: seq<T>, s: seq<T>, o1: int, o2: int)
    requires |block| > 0 && Distinct(block) && |s| > 0
    requires WindowAt(block, s, o1) && WindowAt(block, s, o2)
    ensures o1 % |block| == o2 % |block|
  {
    assert s[0] == block[(o1 + 0) % |block|] == block[(o2 + 0) % |block|];
  }

  /** A contiguous piece of a window is a window, shifted by where the piece starts. */
  lemma WindowSlice<T>(block: seq<T>, s: seq<T>, off: int, lo: nat, hi: nat)
    requires |block| > 0 && lo <= hi <= |s| && WindowAt(block, s, off)
    ensures WindowAt(block, s[lo..hi], off + lo)
  {
    forall i | 0 <= i < hi - lo
      ensures s[lo..hi][i] == block[(off + lo + i) % |block|]
    {
      assert s[lo..hi][i] == s[lo + i];
    }
  }

  /** Appending whole blocks to a window that ends on a block boundary keeps it a window. */
  lemma AppendKeepsWindow<T>(block: seq<T>, s: seq<T>, off: int, k: nat)
    requires |block| > 0 && WindowAt(block, s, off) && (off + |s|) % |block| == 0
    ensures WindowAt(block, s + Repeat(block, k), off)
  {
    var n := |block|;
    var r := s + Repeat(block, k);
    forall i | 0 <= i < |r|
      ensures r[i] == block[(off + i) % n]
    {
      if i >= |s| {
        ModSumAligned(off + |s|, i - |s|, n);
        assert off + i == (off + |s|) + (i - |s|);
      }
    }
  }

  /**
    Appending whole blocks to a window keeps it seamless exactly when the window ends
    on a block boundary; otherwise no offset at all makes the result a window.
   */
  lemma {:induction false} AppendWindow<T>(block: seq<T>, s: seq<T>, off: int, k: nat)
    requires |block| > 0 && Distinct(block) && k > 0 && |s| > 0
    requires WindowAt(block, s, off)
    ensures (off + |s|) % |block| == 0 ==> WindowAt(block, s + Repeat(block, k), off)
    ensures forall o :: WindowAt(block, s + Repeat(block, k), o) ==> (off + |s|) % |block| == 0
  {
    var n := |block|;
    var r := s + Repeat(block, k);
    assert |Repeat(block, k)| >= n by { assert k * n >= 1 * n; }
    if (off + |s|) % n == 0 {
      AppendKeepsWindow(block, s, off, k);
    }
    forall o | WindowAt(block, r, o)
      ensures (off + |s|) % n == 0
    {
      assert r[|s|] == block[(o + |s|) % n];
      assert r[|s|] == Repeat(block, k)[0] == block[0];
      assert WindowAt(block, s, o) by {
        forall i | 0 <= i < |s| ensures s[i] == block[(o + i) % n] {
          assert r[i] == s[i];
        }
      }
      WindowOffsetUnique(block, s, off, o);
      ModDifference(off, o, n);
      ModSumAligned(off - o, o + |s|, n);
      assert off + |s| == (off - o) + (o + |s|);
    }
  }

  /** Prepending whole blocks to a window that starts on a block boundary gives a window at 0. */
  lemma PrependKeepsWindow<T>(block: seq<T>, s: seq<T>, off: int, k: nat)
    requires |block| > 0 && WindowAt(block, s, off) && off % |block| == 0
    ensures WindowAt(block, Repeat(block, k) + s, 0)
  {
    var n := |block|;
    var p := Repeat(block, k);
    var r := p + s;
    assert |p| % n == 0 by { ModAddMultiple(0, k, n); }
    forall i | 0 <= i < |r|
      ensures r[i] == block[(0 + i) % n]
    {
      if i >= |p| {
        assert r[i] == s[i - |p|];
        ModSumAligned(off, i - |p|, n);
        ModSumAligned(|p|, i - |p|, n);
        assert |p| + (i - |p|) == i;
      }
    }
  }

  /**
    Prepending whole blocks to a non-empty window keeps it seamless exactly when the window
    starts on a block boundary; otherwise no offset at all makes the result a window.
   */
  lemma {:induction false} PrependWindow<T>(block: seq<T>, s: seq<T>, off: int, k: nat)
    requires |block| > 0 && Distinct(block) && k > 0 && |s| > 0
    requires WindowAt(block, s, off)
    ensures off % |block| == 0 ==> WindowAt(block, Repeat(block, k) + s, 0)
    ensures forall o :: WindowAt(block, Repeat(block, k) + s, o) ==> off % |block| == 0
  {
    var n := |block|;
    var p := Repeat(block, k);
    var r := p + s;
    assert |p| >= n by { assert k * n >= 1 * n; }
    assert |p| % n == 0 by { ModAddMultiple(0, k, n); }
    if off % n == 0 {
      PrependKeepsWindow(block, s, off, k);
    }
    forall o | WindowAt(block, r, o)
      ensures off % n == 0
    {
      assert r[0] == block[0] == block[(o + 0) % n];
      assert o % n == 0;
      assert r[|p|] == s[0] == block[(off + 0) % n];
      assert r[|p|] == block[(o + |p|) % n];
      ModSumAligned(|p|, o, n);
      assert o + |p| == |p| + o;
    }
  }

  /** Two positions that fall at the same place within a block differ by whole blocks. */
  lemma ModDifference(a: int, b: int, n: nat)
    requires n > 0 && a % n == b % n
    ensures (a - b) % n == 0
  {
    assert a == (a / n) * n + a % n;
    assert b == (b / n) * n + b % n;
    assert a - b == (a / n - b / n) * n;
    ModAddMultiple(0, a / n - b / n, n);
  }
}
