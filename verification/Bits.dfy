/**
 * Unsigned machine words as naturals, read bit by bit.  Right shift halves once per place and left
 * shift multiplies by a power of two, which is what the C operators mean on unsigned operands.
 */
module Bits {

  function Pow2(n: nat): (r: nat)
    ensures r > 0
  {
    if n == 0 then 1 else 2 * Pow2(n - 1)
  }

  /** Bit i of w, counting from the least significant. */
  predicate Bit(w: nat, i: nat) {
    if i == 0 then w % 2 == 1 else Bit(w / 2, i - 1)
  }

  /** `w >> k` */
  function ShiftRight(w: nat, k: nat): nat
    decreases k
  {
    if k == 0 then w else ShiftRight(w / 2, k - 1)
  }

  /** `w << k` in a word of `width` bits: the bits pushed off the top are lost. */
  function ShiftLeft(w: nat, k: nat, width: nat): nat {
    (w * Pow2(k)) % Pow2(width)
  }

  /** `w | (1 << i)` */
  function SetBit(w: nat, i: nat): nat {
    if Bit(w, i) then w else w + Pow2(i)
  }

  /** The population count instruction. */
  function PopCount(w: nat): nat {
    if w == 0 then 0 else w % 2 + PopCount(w / 2)
  }

  /** How many of the lowest n bits are set. */
  function CountLow(w: nat, n: nat): nat {
    if n == 0 then 0 else w % 2 + CountLow(w / 2, n - 1)
  }

  lemma MulAtLeast(d: nat, k: nat)
    requires k >= 1
    ensures d * k >= d
  {
    assert d * k == d + d * (k - 1);
  }

  lemma DivUnique(w: int, d: int, q: int, r: int)
    requires 0 <= r < d
    requires w == d * q + r
    ensures w / d == q && w % d == r
  {
    var q', r' := w / d, w % d;
    assert w == d * q' + r';
    if q > q' {
      MulAtLeast(d, q - q');
    } else if q < q' {
      MulAtLeast(d, q' - q);
    }
  }

  lemma ModTwice(w: nat, k: nat)
    ensures w % Pow2(k + 1) == w % 2 + 2 * ((w / 2) % Pow2(k))
  {
    var p := Pow2(k);
    var q := w / 2;
    var r := q / p;
    assert q == p * r + q % p;
    var rest := 2 * (q % p) + w % 2;
    assert w == (2 * p) * r + rest by {
      assert 2 * (p * r) == (2 * p) * r;
    }
    DivUnique(w, 2 * p, r, rest);
  }

  lemma {:induction false} ShiftedBit(w: nat, k: nat, i: nat)
    ensures Bit(ShiftRight(w, k), i) == Bit(w, i + k)
    decreases k
  {
    if k > 0 { ShiftedBit(w / 2, k - 1, i); }
  }

  lemma {:induction false} ShiftRightShrinks(w: nat, k: nat)
    ensures ShiftRight(w, k) <= w
    decreases k
  {
    if k > 0 { ShiftRightShrinks(w / 2, k - 1); }
  }

  lemma {:induction false} SetBitReads(w: nat, i: nat, j: nat)
    ensures Bit(SetBit(w, i), j) == (j == i || Bit(w, j))
    decreases i
  {
    if !Bit(w, i) {
      if i == 0 {
        assert (w + 1) / 2 == w / 2;
      } else {
        assert (w + Pow2(i)) / 2 == w / 2 + Pow2(i - 1);
        assert (w + Pow2(i)) % 2 == w % 2;
        if j > 0 { SetBitReads(w / 2, i - 1, j - 1); }
      }
    }
  }

  lemma {:induction false} SetBitBound(w: nat, i: nat, n: nat)
    requires i < n && w < Pow2(n)
    ensures SetBit(w, i) < Pow2(n)
    decreases i
  {
    if !Bit(w, i) {
      if i > 0 {
        assert w / 2 < Pow2(n - 1);
        SetBitBound(w / 2, i - 1, n - 1);
        assert w + Pow2(i) == 2 * (w / 2 + Pow2(i - 1)) + w % 2;
      }
    }
  }

  lemma {:induction false} HighBitsClear(w: nat, n: nat, i: nat)
    requires w < Pow2(n) && i >= n
    ensures !Bit(w, i)
    decreases i
  {
    if n > 0 {
      assert w / 2 < Pow2(n - 1);
      HighBitsClear(w / 2, n - 1, i - 1);
    } else if i > 0 {
      HighBitsClear(0, 0, i - 1);
    }
  }

  ghost predicate AllLowSet(w: nat, n: nat) {
    forall i: nat :: i < n ==> Bit(w, i)
  }

  lemma AllLowSetStep(w: nat, n: nat)
    requires n > 0
    ensures AllLowSet(w, n) <==> w % 2 == 1 && AllLowSet(w / 2, n - 1)
  {
    if AllLowSet(w, n) {
      assert Bit(w, 0);
      forall i: nat | i < n - 1 ensures Bit(w / 2, i) { assert Bit(w, i + 1); }
    } else {
      var i: nat :| i < n && !Bit(w, i);
      if i > 0 { assert !Bit(w / 2, i - 1); }
    }
  }

  /** `(w & ones) == ones` holds exactly when every low bit is set. */
  lemma {:induction false} LowOnes(w: nat, n: nat)
    ensures w % Pow2(n) == Pow2(n) - 1 <==> AllLowSet(w, n)
    decreases n
  {
    if n > 0 {
      ModTwice(w, n - 1);
      var half := (w / 2) % Pow2(n - 1);
      assert w % Pow2(n) == Pow2(n) - 1 <==> w % 2 == 1 && half == Pow2(n - 1) - 1;
      LowOnes(w / 2, n - 1);
      AllLowSetStep(w, n);
    }
  }

  lemma {:induction false} PopCountLow(w: nat, n: nat)
    ensures PopCount(w % Pow2(n)) == CountLow(w, n)
    decreases n
  {
    if n > 0 {
      PopCountLow(w / 2, n - 1);
      PopCountHalf(w, n - 1);
    }
  }

  lemma PopCountHalf(w: nat, k: nat)
    ensures PopCount(w % Pow2(k + 1)) == w % 2 + PopCount((w / 2) % Pow2(k))
  {
    ModTwice(w, k);
    PopCountStep(w % 2, (w / 2) % Pow2(k));
  }

  lemma PopCountStep(low: nat, rest: nat)
    requires low < 2
    ensures PopCount(low + 2 * rest) == low + PopCount(rest)
  {
    var m := low + 2 * rest;
    assert m % 2 == low && m / 2 == rest;
  }

  lemma {:induction false} PopCountShifted(w: nat, k: nat)
    ensures PopCount(w * Pow2(k)) == PopCount(w)
    decreases k
  {
    if k > 0 {
      var x := w * Pow2(k - 1);
      assert w * Pow2(k) == 2 * x;
      PopCountShifted(w, k - 1);
      assert (2 * x) / 2 == x && (2 * x) % 2 == 0;
    }
  }

  lemma {:induction false} Pow2Adds(a: nat, b: nat)
    ensures Pow2(a + b) == Pow2(a) * Pow2(b)
    decreases a
  {
    if a > 0 { Pow2Adds(a - 1, b); }
  }

  /** Pushing everything but the low s bits off the top leaves the count of those s bits. */
  lemma ShiftLeftCounts(w: nat, s: nat, width: nat)
    requires s <= width
    ensures PopCount(ShiftLeft(w, width - s, width)) == CountLow(w, s)
  {
    var k := width - s;
    var p, m := Pow2(k), Pow2(s);
    Pow2Adds(s, k);
    var q, r := DivMod(w, m);
    MulSplits(m, q, r, p);
    MulLess(r, m, p);
    DivUnique(w * p, Pow2(width), q, r * p);
    PopCountShifted(r, k);
    PopCountLow(w, s);
  }

  lemma DivMod(w: nat, m: nat) returns (q: nat, r: nat)
    requires m > 0
    ensures w == m * q + r && r < m && r == w % m
  {
    q, r := w / m, w % m;
  }

  lemma MulSplits(m: nat, q: nat, r: nat, p: nat)
    ensures (m * q + r) * p == (m * p) * q + r * p
  {
    assert (m * q) * p == (m * p) * q;
  }

  lemma MulLess(r: nat, m: nat, p: nat)
    requires r < m && p > 0
    ensures r * p < m * p
  {
    assert m * p == r * p + (m - r) * p;
    MulAtLeast(p, m - r);
  }

  lemma {:induction false} CountLowSplits(w: nat, a: nat, b: nat)
    ensures CountLow(w, a + b) == CountLow(w, a) + CountLow(ShiftRight(w, a), b)
    decreases a
  {
    if a > 0 { CountLowSplits(w / 2, a - 1, b); }
  }

  lemma {:induction false} PopCountIsCountLow(w: nat, n: nat)
    requires w < Pow2(n)
    ensures PopCount(w) == CountLow(w, n)
    decreases n
  {
    if n > 0 {
      assert w / 2 < Pow2(n - 1);
      PopCountIsCountLow(w / 2, n - 1);
    }
  }
}
