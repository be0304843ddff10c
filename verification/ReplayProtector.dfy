/**
 * The replay window of crypto/ReplayProtector.h: a 64-bit field that slides over the nonces.
 *
 * The reference it is compared with is the plain set of accepted nonces.
 */
module ReplayProtector {
  import opened Prelude
  import opened Bits

  const LOW_32: nat := 0xffff_ffff

  datatype Window = Window(
    bitfield: nat,
    baseOffset: nat,
    duplicates: nat,
    lostPackets: nat,
    receivedOutOfRange: nat)

  /** What the memset of a session reset leaves. */
  const EMPTY: Window := Window(0, 0, 0, 0, 0)

  /** Every field is in range for its C type. */
  ghost predicate Fits(w: Window) {
    && w.bitfield < Pow2(64)
    && w.baseOffset < TWO_32
    && w.duplicates < TWO_32
    && w.lostPackets < TWO_32
    && w.receivedOutOfRange < TWO_32
  }

  /**
   * `shiftAmount` is the unsigned value at the call.  From 2^31 up it turns negative as an int and
   * the C shift count leaves the range of the operator; `undefined` stands for whatever comes out.
   */
  function LostInShift(bitfield: nat, shiftAmount: nat, undefined: int): (lost: int)
    ensures bitfield < Pow2(64) && shiftAmount < 0x8000_0000 ==>
              lost == shiftAmount - CountLow(bitfield, shiftAmount)
  {
    if shiftAmount == 0 then
      0
    else if shiftAmount >= 0x8000_0000 then
      undefined
    else if shiftAmount > 63 then
      assert bitfield < Pow2(64) ==> PopCount(bitfield) == CountLow(bitfield, shiftAmount) by {
        if bitfield < Pow2(64) {
          Pow2Grows(64, shiftAmount);
          PopCountIsCountLow(bitfield, shiftAmount);
        }
      }
      shiftAmount - PopCount(bitfield)
    else
      assert PopCount(ShiftLeft(bitfield, 64 - shiftAmount, 64)) == CountLow(bitfield, shiftAmount) by {
        ShiftLeftCounts(bitfield, shiftAmount, 64);
      }
      shiftAmount - PopCount(ShiftLeft(bitfield, 64 - shiftAmount, 64))
  }

  lemma {:induction false} Pow2Grows(a: nat, b: nat)
    requires a <= b
    ensures Pow2(a) <= Pow2(b)
    decreases b
  {
    if a < b { Pow2Grows(a, b - 1); }
  }

  /** The window after the DO_SHIFT macro. */
  function Slide(w: Window, bits: nat): Window {
    w.(baseOffset := w.baseOffset + bits,
       bitfield := if bits > 63 then 0 else ShiftRight(w.bitfield, bits))
  }

  function CountLost(w: Window, bits: nat, undefined: int): Window {
    w.(lostPackets := (w.lostPackets + LostInShift(w.bitfield, bits, undefined)) % TWO_32)
  }

  /** The window after the sliding loop has brought `nonce` within 64 of the base. */
  function Advance(w: Window, nonce: nat, undefined: int): Window
    requires w.baseOffset <= nonce
    decreases nonce - w.baseOffset
  {
    var offset := nonce - w.baseOffset;
    if offset <= 63 then w
    else if w.bitfield % TWO_32 == LOW_32 then Advance(Slide(w, 32), nonce, undefined)
    else Slide(CountLost(w, offset - 47, undefined), offset - 47)
  }

  /** The whole check: the new window and whether the packet is accepted. */
  function Check(w: Window, nonce: nat, undefined: int): (Window, bool) {
    if nonce < w.baseOffset then
      (w.(receivedOutOfRange := (w.receivedOutOfRange + 1) % TWO_32), false)
    else
      var a := Advance(w, nonce, undefined);
      var offset := if a.baseOffset <= nonce then nonce - a.baseOffset else 0;
      if Bit(a.bitfield, offset) then
        (a.(duplicates := (a.duplicates + 1) % TWO_32), false)
      else
        (a.(bitfield := SetBit(a.bitfield, offset)), true)
  }

  // ---- The window against the set of accepted nonces ----

  /** The window started at base `start` and has accepted exactly the nonces in `seen` since. */
  ghost predicate Records(w: Window, start: nat, seen: set<nat>) {
    && Fits(w)
    && start <= w.baseOffset
    && (forall n :: n in seen ==> start <= n < w.baseOffset + 64)
    && (forall i: nat :: i < 64 ==> (Bit(w.bitfield, i) <==> w.baseOffset + i in seen))
  }

  /** The base only ever leaves its start once a nonce 32 or more above it has been accepted. */
  ghost predicate Spread(w: Window, start: nat, seen: set<nat>) {
    w.baseOffset == start || exists m :: m in seen && m >= w.baseOffset + 32
  }

  /** How many nonces in [lo, hi) were never accepted. */
  ghost function Missing(lo: nat, hi: nat, seen: set<nat>): nat {
    if hi <= lo then 0 else Missing(lo, hi - 1, seen) + (if hi - 1 in seen then 0 else 1)
  }

  /** The loss counter is `before` plus the gaps the base has passed, in 32-bit arithmetic. */
  ghost predicate CountsLoss(w: Window, start: nat, seen: set<nat>, before: nat) {
    w.lostPackets == (before + Missing(start, w.baseOffset, seen)) % TWO_32
  }

  lemma SlideRecords(w: Window, start: nat, seen: set<nat>, bits: nat)
    requires Records(w, start, seen) && w.baseOffset + bits < TWO_32
    ensures Records(Slide(w, bits), start, seen)
  {
    var s := Slide(w, bits);
    assert s.bitfield <= w.bitfield by {
      if bits <= 63 { ShiftRightShrinks(w.bitfield, bits); }
    }
    forall i: nat | i < 64 ensures Bit(s.bitfield, i) <==> s.baseOffset + i in seen {
      if bits > 63 {
        HighBitsClear(0, 0, i);
        assert s.baseOffset + i !in seen;
      } else {
        ShiftedBit(w.bitfield, bits, i);
        if i + bits >= 64 {
          HighBitsClear(w.bitfield, 64, i + bits);
        }
      }
    }
  }

  /** Moving the base over k more nonces passes exactly the clear bits among the lowest k. */
  lemma {:induction false} MissingInSlide(w: Window, start: nat, seen: set<nat>, k: nat)
    requires Records(w, start, seen)
    ensures Missing(start, w.baseOffset + k, seen)
         == Missing(start, w.baseOffset, seen) + k - CountLow(w.bitfield, k)
    decreases k
  {
    if k > 0 {
      MissingInSlide(w, start, seen, k - 1);
      CountLowSplits(w.bitfield, k - 1, 1);
      ShiftedBit(w.bitfield, k - 1, 0);
      var rest := ShiftRight(w.bitfield, k - 1);
      assert CountLow(rest, 1) == rest % 2 + CountLow(rest / 2, 0);
      assert Bit(rest, 0) <==> rest % 2 == 1;
      if k - 1 >= 64 {
        HighBitsClear(w.bitfield, 64, k - 1);
      }
      assert Bit(w.bitfield, k - 1) <==> w.baseOffset + (k - 1) in seen;
    }
  }

  lemma {:induction false} AllSetCounts(w: nat, n: nat)
    requires AllLowSet(w, n)
    ensures CountLow(w, n) == n
    decreases n
  {
    if n > 0 {
      AllLowSetStep(w, n);
      AllSetCounts(w / 2, n - 1);
    }
  }

  lemma {:induction false} AdvanceRecords(w: Window, start: nat, seen: set<nat>, nonce: nat, undefined: int)
    requires Records(w, start, seen) && w.baseOffset <= nonce < TWO_32
    ensures var a := Advance(w, nonce, undefined);
            && Records(a, start, seen)
            && a.baseOffset <= nonce < a.baseOffset + 64
            && w.baseOffset <= a.baseOffset
            && (a.baseOffset == w.baseOffset || (nonce >= a.baseOffset + 32 && nonce !in seen))
            && a.duplicates == w.duplicates && a.receivedOutOfRange == w.receivedOutOfRange
    decreases nonce - w.baseOffset
  {
    hide Bit, CountLow, ShiftRight;
    var offset := nonce - w.baseOffset;
    if offset > 63 {
      assert nonce !in seen;
      if w.bitfield % TWO_32 == LOW_32 {
        SlideRecords(w, start, seen, 32);
        AdvanceRecords(Slide(w, 32), start, seen, nonce, undefined);
      } else {
        SlideRecords(CountLost(w, offset - 47, undefined), start, seen, offset - 47);
      }
    }
  }

  /** The shift that gives packets up for lost, 0 when this nonce needs none. */
  function LosingShift(w: Window, nonce: nat): nat
    requires w.baseOffset <= nonce
    decreases nonce - w.baseOffset
  {
    var offset := nonce - w.baseOffset;
    if offset <= 63 then 0
    else if w.bitfield % TWO_32 == LOW_32 then LosingShift(Slide(w, 32), nonce)
    else offset - 47
  }

  /** With the low 32 bits all set, sliding over them passes no gap. */
  lemma HappyShiftLosesNothing(w: Window, start: nat, seen: set<nat>)
    requires Records(w, start, seen) && w.bitfield % TWO_32 == LOW_32
    ensures Missing(start, w.baseOffset + 32, seen) == Missing(start, w.baseOffset, seen)
  {
    Pow2Of32();
    LowOnes(w.bitfield, 32);
    AllSetCounts(w.bitfield, 32);
    MissingInSlide(w, start, seen, 32);
  }

  lemma Pow2Of32()
    ensures Pow2(32) == TWO_32
  {
    assert Pow2(10) == 1024;
    assert Pow2(20) == 1024 * 1024;
    assert Pow2(30) == 1024 * 1024 * 1024;
  }

  lemma LosingShiftCounts(w: Window, start: nat, seen: set<nat>, bits: nat, undefined: int, before: nat)
    requires Records(w, start, seen) && CountsLoss(w, start, seen, before)
    ensures bits < 0x8000_0000 ==> CountsLoss(Slide(CountLost(w, bits, undefined), bits), start, seen, before)
    ensures bits >= 0x8000_0000 ==>
              CountLost(w, bits, undefined).lostPackets ==
              (before + Missing(start, w.baseOffset, seen) + undefined) % TWO_32
  {
    MissingInSlide(w, start, seen, bits);
    ModAdds(before + Missing(start, w.baseOffset, seen), LostInShift(w.bitfield, bits, undefined), TWO_32);
  }

  lemma {:induction false} AdvanceCountsLoss(
    w: Window, start: nat, seen: set<nat>, nonce: nat, undefined: int, before: nat)
    requires Records(w, start, seen) && w.baseOffset <= nonce < TWO_32
    requires CountsLoss(w, start, seen, before)
    requires LosingShift(w, nonce) < 0x8000_0000
    ensures CountsLoss(Advance(w, nonce, undefined), start, seen, before)
    decreases nonce - w.baseOffset
  {
    var offset := nonce - w.baseOffset;
    if offset > 63 {
      if w.bitfield % TWO_32 == LOW_32 {
        SlideRecords(w, start, seen, 32);
        HappyShiftLosesNothing(w, start, seen);
        AdvanceCountsLoss(Slide(w, 32), start, seen, nonce, undefined, before);
      } else {
        LosingShiftCounts(w, start, seen, offset - 47, undefined, before);
      }
    }
  }

  /** Past that bound the counter follows the undefined value, so some outcome of it is wrong. */
  lemma {:induction false} AdvanceLosesCount(
    w: Window, start: nat, seen: set<nat>, nonce: nat, before: nat) returns (undefined: int)
    requires Records(w, start, seen) && w.baseOffset <= nonce < TWO_32
    requires CountsLoss(w, start, seen, before)
    requires LosingShift(w, nonce) >= 0x8000_0000
    ensures !CountsLoss(Advance(w, nonce, undefined), start, seen, before)
    decreases nonce - w.baseOffset
  {
    var offset := nonce - w.baseOffset;
    if w.bitfield % TWO_32 == LOW_32 {
      SlideRecords(w, start, seen, 32);
      HappyShiftLosesNothing(w, start, seen);
      undefined := AdvanceLosesCount(Slide(w, 32), start, seen, nonce, before);
    } else {
      var bits := offset - 47;
      var passed := Missing(start, w.baseOffset + bits, seen) - Missing(start, w.baseOffset, seen);
      undefined := passed + 1;
      LosingShiftCounts(w, start, seen, bits, undefined, before);
      NextDiffers(before + Missing(start, w.baseOffset + bits, seen));
    }
  }

  lemma NextDiffers(a: nat)
    ensures (a + 1) % TWO_32 != a % TWO_32
  {
  }

  lemma ModAdds(a: int, b: int, m: int)
    requires m > 0
    ensures (a % m + b) % m == (a + b) % m
  {
    var q, q2 := a / m, (a % m + b) / m;
    assert a + b == m * (q + q2) + (a % m + b) % m by {
      assert a == m * q + a % m;
      assert a % m + b == m * q2 + (a % m + b) % m;
      assert m * (q + q2) == m * q + m * q2;
    }
    DivUnique(a + b, m, q + q2, (a % m + b) % m);
  }

  lemma AcceptRecords(a: Window, start: nat, seen: set<nat>, nonce: nat)
    requires Records(a, start, seen) && a.baseOffset <= nonce < a.baseOffset + 64
    ensures Records(a.(bitfield := SetBit(a.bitfield, nonce - a.baseOffset)), start, seen + {nonce})
  {
    var offset := nonce - a.baseOffset;
    var w' := a.(bitfield := SetBit(a.bitfield, offset));
    SetBitBound(a.bitfield, offset, 64);
    forall i: nat | i < 64 ensures Bit(w'.bitfield, i) <==> w'.baseOffset + i in seen + {nonce} {
      SetBitReads(a.bitfield, offset, i);
      assert Bit(a.bitfield, i) <==> a.baseOffset + i in seen;
    }
  }

  lemma AcceptSpreads(w: Window, a: Window, start: nat, seen: set<nat>, nonce: nat)
    requires Spread(w, start, seen)
    requires a.baseOffset == w.baseOffset || nonce >= a.baseOffset + 32
    ensures Spread(a, start, seen + {nonce})
  {
    if a.baseOffset != w.baseOffset {
      assert nonce in seen + {nonce};
    } else if w.baseOffset != start {
      var m :| m in seen && m >= w.baseOffset + 32;
      assert m in seen + {nonce};
    }
  }

  /**
   * The window refines the set.  A nonce is accepted exactly when it is not below the base and was
   * never accepted; the new window records the set with the nonce added; and the base keeps its
   * distance from the highest accepted nonce.
   */
  lemma CheckRefinesSet(w: Window, start: nat, seen: set<nat>, nonce: nat, undefined: int)
    requires Records(w, start, seen) && Spread(w, start, seen) && nonce < TWO_32
    ensures var (w', ok) := Check(w, nonce, undefined);
            && (ok <==> nonce >= w.baseOffset && nonce !in seen)
            && Records(w', start, if ok then seen + {nonce} else seen)
            && Spread(w', start, if ok then seen + {nonce} else seen)
            && w'.baseOffset >= w.baseOffset
  {
    if nonce >= w.baseOffset {
      AdvanceRecords(w, start, seen, nonce, undefined);
      var a := Advance(w, nonce, undefined);
      var offset := nonce - a.baseOffset;
      assert Bit(a.bitfield, offset) <==> a.baseOffset + offset in seen;
      AcceptRecords(a, start, seen, nonce);
      AcceptSpreads(w, a, start, seen, nonce);
    }
  }

  // ---- Where the base goes ----

  ghost predicate AllSeen(lo: nat, hi: nat, seen: set<nat>) {
    forall n :: lo <= n < hi ==> n in seen
  }

  /**
   * Where nonce n takes the base, told from the accepted nonces alone.  While n is 64 or more above it,
   * the base moves up by 32 as long as that passes no gap; at the first gap it moves to 47 below n.
   */
  ghost function BaseFor(base: nat, seen: set<nat>, n: nat): nat
    decreases n - base
  {
    if n < base + 64 then base
    else if AllSeen(base, base + 32, seen) then BaseFor(base + 32, seen, n)
    else n - 47
  }

  lemma LowHalfSeen(w: Window, start: nat, seen: set<nat>)
    requires Records(w, start, seen)
    ensures w.bitfield % TWO_32 == LOW_32 <==> AllSeen(w.baseOffset, w.baseOffset + 32, seen)
  {
    Pow2Of32();
    LowOnes(w.bitfield, 32);
    if AllLowSet(w.bitfield, 32) {
      forall n | w.baseOffset <= n < w.baseOffset + 32 ensures n in seen {
        assert Bit(w.bitfield, n - w.baseOffset) <==> w.baseOffset + (n - w.baseOffset) in seen;
      }
    }
    if AllSeen(w.baseOffset, w.baseOffset + 32, seen) {
      forall i: nat | i < 32 ensures Bit(w.bitfield, i) { assert w.baseOffset + i in seen; }
    }
  }

  lemma {:induction false} AdvanceBase(w: Window, start: nat, seen: set<nat>, nonce: nat, undefined: int)
    requires Records(w, start, seen) && w.baseOffset <= nonce < TWO_32
    ensures Advance(w, nonce, undefined).baseOffset == BaseFor(w.baseOffset, seen, nonce)
    decreases nonce - w.baseOffset
  {
    if nonce - w.baseOffset > 63 {
      LowHalfSeen(w, start, seen);
      if w.bitfield % TWO_32 == LOW_32 {
        SlideRecords(w, start, seen, 32);
        AdvanceBase(Slide(w, 32), start, seen, nonce, undefined);
      }
    }
  }

  lemma CheckBase(w: Window, start: nat, seen: set<nat>, nonce: nat, undefined: int)
    requires Records(w, start, seen) && nonce < TWO_32
    ensures Check(w, nonce, undefined).0.baseOffset == BaseFor(w.baseOffset, seen, nonce)
  {
    if nonce >= w.baseOffset { AdvanceBase(w, start, seen, nonce, undefined); }
  }

  /** Over whole halves without a gap the base moves 32 at a time, for as long as n is out of range. */
  lemma {:induction false} SlidesOverHalves(base: nat, seen: set<nat>, n: nat, k: nat)
    requires AllSeen(base, base + 32 * k, seen) && n >= base + 32 * k + 32
    ensures BaseFor(base, seen, n) == BaseFor(base + 32 * k, seen, n)
    decreases k
  {
    if k > 0 {
      assert AllSeen(base, base + 32, seen);
      SlidesOverHalves(base + 32, seen, n, k - 1);
      assert base + 32 + 32 * (k - 1) == base + 32 * k;
    }
  }

  /**
   * A nonce far ahead of a window with a gap in its low half is accepted and leaves the base 47 below
   * it; an unseen nonce below it is accepted next exactly when it is at most 47 behind.
   */
  lemma LosingReach(w: Window, start: nat, seen: set<nat>, n: nat, m: nat, undefined: int, undefined': int)
    requires Records(w, start, seen) && Spread(w, start, seen) && w.baseOffset + 64 <= n < TWO_32
    requires !AllSeen(w.baseOffset, w.baseOffset + 32, seen) && m < n && m !in seen
    ensures var (w', ok) := Check(w, n, undefined);
            && ok && w'.baseOffset == n - 47
            && (Check(w', m, undefined').1 <==> m >= n - 47)
  {
    CheckRefinesSet(w, start, seen, n, undefined);
    CheckBase(w, start, seen, n, undefined);
    CheckRefinesSet(Check(w, n, undefined).0, start, seen + {n}, m, undefined');
  }

  /** With k halves and no gap in them, the same from the first half that has one, or n is in range. */
  lemma HappyReach(w: Window, start: nat, seen: set<nat>, n: nat, k: nat, undefined: int)
    requires Records(w, start, seen) && Spread(w, start, seen) && n < TWO_32 && n !in seen
    requires AllSeen(w.baseOffset, w.baseOffset + 32 * k, seen) && n >= w.baseOffset + 32 * k + 32
    ensures var (w', ok) := Check(w, n, undefined);
            var base := w.baseOffset + 32 * k;
            && ok
            && (n < base + 64 ==> w'.baseOffset == base)
            && (n >= base + 64 && !AllSeen(base, base + 32, seen) ==> w'.baseOffset == n - 47)
  {
    CheckRefinesSet(w, start, seen, n, undefined);
    CheckBase(w, start, seen, n, undefined);
    SlidesOverHalves(w.baseOffset, seen, n, k);
  }

  // ---- The counters of what is refused ----

  /** What is refused is counted once: below the base as out of range, seen before as a duplicate. */
  lemma CheckCounts(w: Window, start: nat, seen: set<nat>, nonce: nat, undefined: int)
    requires Records(w, start, seen) && Spread(w, start, seen) && nonce < TWO_32
    ensures var w' := Check(w, nonce, undefined).0;
            && w'.receivedOutOfRange ==
                 (w.receivedOutOfRange + if nonce < w.baseOffset then 1 else 0) % TWO_32
            && w'.duplicates ==
                 (w.duplicates + if nonce >= w.baseOffset && nonce in seen then 1 else 0) % TWO_32
  {
    if nonce >= w.baseOffset {
      AdvanceRecords(w, start, seen, nonce, undefined);
      var a := Advance(w, nonce, undefined);
      assert Bit(a.bitfield, nonce - a.baseOffset) <==> a.baseOffset + (nonce - a.baseOffset) in seen;
    }
  }

  /** The window will not accept n again: n is below the base or its bit is set. */
  ghost predicate Covered(w: Window, n: nat) {
    n < w.baseOffset || (n < w.baseOffset + 64 && Bit(w.bitfield, n - w.baseOffset))
  }

  ghost function InWindow(w: Window): set<nat> {
    set i: nat | i < 64 && Bit(w.bitfield, i) :: w.baseOffset + i
  }

  lemma RecordsItself(w: Window)
    requires Fits(w)
    ensures Records(w, w.baseOffset, InWindow(w)) && Spread(w, w.baseOffset, InWindow(w))
  {
    forall i: nat | i < 64 ensures Bit(w.bitfield, i) <==> w.baseOffset + i in InWindow(w) {
    }
  }

  lemma CoveredIff(w: Window, n: nat)
    requires Fits(w)
    ensures Covered(w, n) <==> n < w.baseOffset || n in InWindow(w)
  {
    RecordsItself(w);
    if w.baseOffset <= n < w.baseOffset + 64 {
      assert Bit(w.bitfield, n - w.baseOffset) <==> w.baseOffset + (n - w.baseOffset) in InWindow(w);
    }
  }

  /** Whatever a window refuses it refuses for good, and what it accepts was not covered before. */
  lemma CheckCovers(w: Window, nonce: nat, undefined: int)
    requires Fits(w) && nonce < TWO_32
    ensures var (w', ok) := Check(w, nonce, undefined);
            && Fits(w')
            && (ok <==> !Covered(w, nonce))
            && Covered(w', nonce)
            && (forall n: nat :: Covered(w, n) ==> Covered(w', n))
  {
    RecordsItself(w);
    var seen := InWindow(w);
    CheckRefinesSet(w, w.baseOffset, seen, nonce, undefined);
    var (w', ok) := Check(w, nonce, undefined);
    var seen' := if ok then seen + {nonce} else seen;
    CoveredIff(w, nonce);
    CoveredIfSeen(w', w.baseOffset, seen', nonce);
    forall n: nat | Covered(w, n) ensures Covered(w', n) {
      CoveredIff(w, n);
      CoveredIfSeen(w', w.baseOffset, seen', n);
    }
  }

  /** A nonce with nothing above it leaves nothing above it. */
  lemma CheckLeavesAhead(w: Window, nonce: nat, m: nat, undefined: int)
    requires Fits(w) && nonce < TWO_32 && nonce < m && !Covered(w, m) && w.baseOffset <= nonce
    ensures !Covered(Check(w, nonce, undefined).0, m)
  {
    hide Check, Records, Covered, Spread;
    RecordsItself(w);
    var seen := InWindow(w);
    CheckRefinesSet(w, w.baseOffset, seen, nonce, undefined);
    BaseStaysBelow(w, w.baseOffset, seen, nonce, undefined);
    CoveredIff(w, m);
    var (w', ok) := Check(w, nonce, undefined);
    CoveredExactly(w', w.baseOffset, if ok then seen + {nonce} else seen, m);
  }

  lemma BaseStaysBelow(w: Window, start: nat, seen: set<nat>, nonce: nat, undefined: int)
    requires Records(w, start, seen) && w.baseOffset <= nonce < TWO_32
    ensures Check(w, nonce, undefined).0.baseOffset <= nonce
  {
    AdvanceRecords(w, start, seen, nonce, undefined);
  }

  lemma CoveredExactly(w: Window, start: nat, seen: set<nat>, n: nat)
    requires Records(w, start, seen)
    ensures Covered(w, n) <==> n < w.baseOffset || n in seen
  {
    if w.baseOffset <= n < w.baseOffset + 64 {
      assert Bit(w.bitfield, n - w.baseOffset) <==> w.baseOffset + (n - w.baseOffset) in seen;
    }
  }

  lemma CoveredIfSeen(w: Window, start: nat, seen: set<nat>, n: nat)
    requires Records(w, start, seen)
    ensures n in seen || n < start ==> Covered(w, n)
  {
    if n in seen && n >= w.baseOffset {
      assert Bit(w.bitfield, n - w.baseOffset) <==> w.baseOffset + (n - w.baseOffset) in seen;
    }
  }

  /** So every unseen nonce from the start up that is within 32 of the highest one gets through. */
  lemma WithinReachAccepted(w: Window, start: nat, seen: set<nat>, nonce: nat, undefined: int)
    requires Records(w, start, seen) && Spread(w, start, seen)
    requires start <= nonce < TWO_32 && nonce !in seen
    requires forall m :: m in seen ==> m <= nonce + 32
    ensures Check(w, nonce, undefined).1
  {
    CheckRefinesSet(w, start, seen, nonce, undefined);
  }

  /**
   * The count of passed gaps stays exact modulo 2^32 exactly when the losing shift, if there is one,
   * stays below 2^31.
   */
  lemma CheckCountsLoss(w: Window, start: nat, seen: set<nat>, nonce: nat, before: nat)
    requires Records(w, start, seen) && nonce < TWO_32
    requires CountsLoss(w, start, seen, before)
    ensures nonce < w.baseOffset || LosingShift(w, nonce) < 0x8000_0000
       <==> forall undefined :: LossStillCounted(w, start, seen, nonce, undefined, before)
  {
    if nonce < w.baseOffset || LosingShift(w, nonce) < 0x8000_0000 {
      forall undefined
        ensures LossStillCounted(w, start, seen, nonce, undefined, before)
      {
        if nonce >= w.baseOffset {
          LossAfterCheck(w, start, seen, nonce, undefined, before);
          AdvanceCountsLoss(w, start, seen, nonce, undefined, before);
        }
      }
    } else {
      var undefined := AdvanceLosesCount(w, start, seen, nonce, before);
      LossAfterCheck(w, start, seen, nonce, undefined, before);
      assert !LossStillCounted(w, start, seen, nonce, undefined, before);
    }
  }

  ghost predicate LossStillCounted(
    w: Window, start: nat, seen: set<nat>, nonce: nat, undefined: int, before: nat)
  {
    var (w', ok) := Check(w, nonce, undefined);
    CountsLoss(w', start, if ok then seen + {nonce} else seen, before)
  }

  lemma LossAfterCheck(w: Window, start: nat, seen: set<nat>, nonce: nat, undefined: int, before: nat)
    requires Records(w, start, seen) && w.baseOffset <= nonce < TWO_32
    ensures LossStillCounted(w, start, seen, nonce, undefined, before) <==>
              CountsLoss(Advance(w, nonce, undefined), start, seen, before)
  {
    AdvanceRecords(w, start, seen, nonce, undefined);
    MissingIgnoresLater(start, Advance(w, nonce, undefined).baseOffset, seen, nonce);
  }

  lemma {:induction false} MissingIgnoresLater(lo: nat, hi: nat, seen: set<nat>, n: nat)
    requires n >= hi
    ensures Missing(lo, hi, seen + {n}) == Missing(lo, hi, seen)
    decreases hi
  {
    if hi > lo { MissingIgnoresLater(lo, hi - 1, seen, n); }
  }

  // ---- Whole runs ----

  datatype Arrival = Arrival(nonce: nat, undefined: int)

  ghost function Run(w: Window, arrivals: seq<Arrival>): (r: (Window, seq<bool>))
    ensures |r.1| == |arrivals|
  {
    if arrivals == [] then (w, [])
    else
      var last := arrivals[|arrivals| - 1];
      var (u, verdicts) := Run(w, arrivals[..|arrivals| - 1]);
      var (u', ok) := Check(u, last.nonce, last.undefined);
      (u', verdicts + [ok])
  }

  ghost function Accepted(arrivals: seq<Arrival>, verdicts: seq<bool>): set<nat>
    requires |verdicts| == |arrivals|
  {
    set i | 0 <= i < |verdicts| && verdicts[i] :: arrivals[i].nonce
  }

  lemma {:induction false} RunPrefix(w: Window, arrivals: seq<Arrival>, j: nat)
    requires j < |arrivals|
    ensures var (u, verdicts) := Run(w, arrivals[..j]);
            && verdicts == Run(w, arrivals).1[..j]
            && Run(w, arrivals).1[j] == Check(u, arrivals[j].nonce, arrivals[j].undefined).1
    decreases |arrivals|
  {
    var k := |arrivals| - 1;
    if j < k {
      RunPrefix(w, arrivals[..k], j);
      assert arrivals[..k][..j] == arrivals[..j];
    }
  }

  lemma {:induction false} RunRecords(w: Window, arrivals: seq<Arrival>)
    requires Fits(w) && w.bitfield == 0
    requires forall i :: 0 <= i < |arrivals| ==> arrivals[i].nonce < TWO_32
    ensures var (w', verdicts) := Run(w, arrivals);
            && Records(w', w.baseOffset, Accepted(arrivals, verdicts))
            && Spread(w', w.baseOffset, Accepted(arrivals, verdicts))
    decreases |arrivals|
  {
    if arrivals == [] {
      forall i: nat | i < 64 ensures !Bit(w.bitfield, i) { HighBitsClear(0, 0, i); }
    } else {
      var k := |arrivals| - 1;
      RunRecords(w, arrivals[..k]);
      var (u, verdicts) := Run(w, arrivals[..k]);
      CheckRefinesSet(u, w.baseOffset, Accepted(arrivals[..k], verdicts), arrivals[k].nonce, arrivals[k].undefined);
      AcceptedGrows(arrivals, Run(w, arrivals).1);
      assert Run(w, arrivals).1[..k] == verdicts;
      var seen := Accepted(arrivals[..k], verdicts);
      assert seen + {} == seen;
    }
  }

  /** The same run on a base and the set of accepted nonces, with neither bits nor shifts. */
  ghost function SetRun(base: nat, arrivals: seq<Arrival>): (r: (nat, set<nat>, seq<bool>))
    ensures |r.2| == |arrivals|
  {
    if arrivals == [] then (base, {}, [])
    else
      var n := arrivals[|arrivals| - 1].nonce;
      var (b, seen, verdicts) := SetRun(base, arrivals[..|arrivals| - 1]);
      var ok := n >= b && n !in seen;
      (BaseFor(b, seen, n), if ok then seen + {n} else seen, verdicts + [ok])
  }

  /** The verdicts and the base of every run are those of the set. */
  lemma {:induction false} RunIsSetRun(w: Window, arrivals: seq<Arrival>)
    requires Fits(w) && w.bitfield == 0
    requires forall i :: 0 <= i < |arrivals| ==> arrivals[i].nonce < TWO_32
    ensures var (base, seen, verdicts) := SetRun(w.baseOffset, arrivals);
            && Run(w, arrivals).1 == verdicts && Run(w, arrivals).0.baseOffset == base
            && Accepted(arrivals, verdicts) == seen
    decreases |arrivals|
  {
    if arrivals != [] {
      hide Records, Spread, Check, Accepted;
      var k := |arrivals| - 1;
      RunIsSetRun(w, arrivals[..k]);
      RunRecords(w, arrivals[..k]);
      var (u, verdicts) := Run(w, arrivals[..k]);
      var seen := Accepted(arrivals[..k], verdicts);
      CheckRefinesSet(u, w.baseOffset, seen, arrivals[k].nonce, arrivals[k].undefined);
      CheckBase(u, w.baseOffset, seen, arrivals[k].nonce, arrivals[k].undefined);
      AcceptedLast(arrivals, verdicts, Run(w, arrivals).1[k]);
    }
  }

  ghost function Trues(verdicts: seq<bool>): nat {
    if verdicts == [] then 0
    else Trues(verdicts[..|verdicts| - 1]) + if verdicts[|verdicts| - 1] then 1 else 0
  }

  lemma TruesGrow(verdicts: seq<bool>, ok: bool)
    ensures Trues(verdicts + [ok]) == Trues(verdicts) + if ok then 1 else 0
  {
    assert (verdicts + [ok])[..|verdicts|] == verdicts;
  }

  /** Accepted, duplicate and out of range together are `total`, in 32-bit arithmetic. */
  ghost predicate Tallies(w: Window, accepted: nat, total: nat) {
    (accepted + w.duplicates + w.receivedOutOfRange) % TWO_32 == total % TWO_32
  }

  lemma CheckTallies(u: Window, start: nat, seen: set<nat>, nonce: nat, undefined: int, accepted: nat, total: nat)
    requires Records(u, start, seen) && Spread(u, start, seen) && nonce < TWO_32 && Tallies(u, accepted, total)
    ensures var (u', ok) := Check(u, nonce, undefined); Tallies(u', accepted + if ok then 1 else 0, total + 1)
  {
    hide Records, Spread, Check;
    CheckRefinesSet(u, start, seen, nonce, undefined);
    CheckCounts(u, start, seen, nonce, undefined);
    var a := if nonce < u.baseOffset then 1 else 0;
    var b := if nonce >= u.baseOffset && nonce in seen then 1 else 0;
    SumWraps(accepted + (if Check(u, nonce, undefined).1 then 1 else 0), u.receivedOutOfRange + a, u.duplicates + b);
    NextAgrees(accepted + u.duplicates + u.receivedOutOfRange, total);
  }

  lemma SumWraps(x: nat, a: nat, b: nat)
    ensures (x + b % TWO_32 + a % TWO_32) % TWO_32 == (x + b + a) % TWO_32
  {
    ModAdds(b, x + a % TWO_32, TWO_32);
    ModAdds(a, x + b, TWO_32);
  }

  lemma NextAgrees(a: nat, b: nat)
    requires a % TWO_32 == b % TWO_32
    ensures (a + 1) % TWO_32 == (b + 1) % TWO_32
  {
    ModAdds(a, 1, TWO_32);
    ModAdds(b, 1, TWO_32);
  }

  /** Over any run every arrival is counted once: as accepted, as a duplicate or as out of range. */
  lemma {:induction false} RunCountsAll(w: Window, arrivals: seq<Arrival>)
    requires Fits(w) && w.bitfield == 0
    requires forall i :: 0 <= i < |arrivals| ==> arrivals[i].nonce < TWO_32
    ensures var (w', verdicts) := Run(w, arrivals);
            Tallies(w', Trues(verdicts), |arrivals| + w.duplicates + w.receivedOutOfRange)
    decreases |arrivals|
  {
    if arrivals == [] {
      assert Trues([]) == 0;
    } else {
      hide Tallies, Fits, Run;
      RunCountsAll(w, arrivals[..|arrivals| - 1]);
      LastTallies(w, arrivals, |arrivals| - 1, w.duplicates + w.receivedOutOfRange);
    }
  }

  lemma LastTallies(w: Window, arrivals: seq<Arrival>, k: nat, before: nat)
    requires Fits(w) && w.bitfield == 0 && |arrivals| == k + 1
    requires forall i :: 0 <= i < |arrivals| ==> arrivals[i].nonce < TWO_32
    requires var (u, verdicts) := Run(w, arrivals[..k]); Tallies(u, Trues(verdicts), k + before)
    ensures var (w', verdicts) := Run(w, arrivals); Tallies(w', Trues(verdicts), k + 1 + before)
  {
    hide Tallies, Records, Spread, Check, Fits, Accepted, Trues, Run;
    RunLast(w, arrivals);
    RunRecords(w, arrivals[..k]);
    var (u, verdicts) := Run(w, arrivals[..k]);
    var last := arrivals[k];
    CheckTallies(u, w.baseOffset, Accepted(arrivals[..k], verdicts), last.nonce, last.undefined, Trues(verdicts), k + before);
    TruesGrow(verdicts, Check(u, last.nonce, last.undefined).1);
  }

  /**
   * From a freshly cleared window: over any run no nonce is accepted twice, and every nonce that is
   * unseen, not below the start and within 32 of the highest accepted one is accepted.
   */
  lemma RunRefinesSet(w: Window, arrivals: seq<Arrival>)
    requires Fits(w) && w.bitfield == 0
    requires forall i :: 0 <= i < |arrivals| ==> arrivals[i].nonce < TWO_32
    ensures var verdicts := Run(w, arrivals).1;
            && (forall i, j :: 0 <= i < j < |arrivals| && verdicts[i] && verdicts[j] ==>
                  arrivals[i].nonce != arrivals[j].nonce)
            && (forall j :: 0 <= j < |arrivals| && WithinReach(w.baseOffset, arrivals, verdicts, j) ==>
                  verdicts[j])
  {
    var verdicts := Run(w, arrivals).1;
    forall i, j | 0 <= i < j < |arrivals| && verdicts[i] && verdicts[j]
      ensures arrivals[i].nonce != arrivals[j].nonce
    {
      ArrivalJudged(w, arrivals, j);
      assert verdicts[..j][i] && arrivals[..j][i] == arrivals[i];
      assert arrivals[i].nonce in Accepted(arrivals[..j], verdicts[..j]);
    }
    forall j | 0 <= j < |arrivals| && WithinReach(w.baseOffset, arrivals, verdicts, j)
      ensures verdicts[j]
    {
      ArrivalJudged(w, arrivals, j);
    }
  }

  /** Each arrival is judged against exactly the nonces accepted before it. */
  lemma ArrivalJudged(w: Window, arrivals: seq<Arrival>, j: nat)
    requires Fits(w) && w.bitfield == 0 && j < |arrivals|
    requires forall i :: 0 <= i < |arrivals| ==> arrivals[i].nonce < TWO_32
    ensures var verdicts := Run(w, arrivals).1;
            && (verdicts[j] ==> arrivals[j].nonce !in Accepted(arrivals[..j], verdicts[..j]))
            && (WithinReach(w.baseOffset, arrivals, verdicts, j) ==> verdicts[j])
  {
    var verdicts := Run(w, arrivals).1;
    RunPrefix(w, arrivals, j);
    RunRecords(w, arrivals[..j]);
    var u, seen := Run(w, arrivals[..j]).0, Accepted(arrivals[..j], verdicts[..j]);
    CheckRefinesSet(u, w.baseOffset, seen, arrivals[j].nonce, arrivals[j].undefined);
    if WithinReach(w.baseOffset, arrivals, verdicts, j) {
      WithinReachAccepted(u, w.baseOffset, seen, arrivals[j].nonce, arrivals[j].undefined);
    }
  }

  lemma ShiftsDefinedBefore(w: Window, arrivals: seq<Arrival>)
    requires ShiftsDefined(w, arrivals) && arrivals != []
    ensures ShiftsDefined(w, arrivals[..|arrivals| - 1])
  {
    var k := |arrivals| - 1;
    forall j | 0 <= j < k ensures arrivals[..k][..j] == arrivals[..j] { }
  }

  /** Every shift of the run that gives packets up stays below 2^31. */
  ghost predicate ShiftsDefined(w: Window, arrivals: seq<Arrival>) {
    forall j :: 0 <= j < |arrivals| ==>
      var u := Run(w, arrivals[..j]).0;
      arrivals[j].nonce < u.baseOffset || LosingShift(u, arrivals[j].nonce) < 0x8000_0000
  }

  /** Over such a run the loss counter has gone up by the number of gaps the base passed. */
  lemma {:induction false} RunCountsLoss(w: Window, arrivals: seq<Arrival>)
    requires Fits(w) && w.bitfield == 0
    requires forall i :: 0 <= i < |arrivals| ==> arrivals[i].nonce < TWO_32
    requires ShiftsDefined(w, arrivals)
    ensures LossCounted(Run(w, arrivals), arrivals, w.baseOffset, w.lostPackets)
    decreases |arrivals|
  {
    if arrivals != [] {
      var k := |arrivals| - 1;
      var (u, verdicts) := Run(w, arrivals[..k]);
      ShiftsDefinedBefore(w, arrivals);
      RunCountsLoss(w, arrivals[..k]);
      RunRecords(w, arrivals[..k]);
      var seen := Accepted(arrivals[..k], verdicts);
      CheckCountsLoss(u, w.baseOffset, seen, arrivals[k].nonce, w.lostPackets);
      LastArrivalCounts(u, arrivals, verdicts, w.baseOffset, w.lostPackets);
      RunLast(w, arrivals);
    }
  }

  ghost predicate LossCounted(r: (Window, seq<bool>), arrivals: seq<Arrival>, start: nat, before: nat) {
    |r.1| == |arrivals| && CountsLoss(r.0, start, Accepted(arrivals, r.1), before)
  }

  ghost function AfterLast(u: Window, arrivals: seq<Arrival>, verdicts: seq<bool>): (Window, seq<bool>)
    requires arrivals != []
  {
    var last := arrivals[|arrivals| - 1];
    var (w', ok) := Check(u, last.nonce, last.undefined);
    (w', verdicts + [ok])
  }

  lemma RunLast(w: Window, arrivals: seq<Arrival>)
    requires arrivals != []
    ensures var (u, verdicts) := Run(w, arrivals[..|arrivals| - 1]);
            Run(w, arrivals) == AfterLast(u, arrivals, verdicts)
  {
  }

  lemma LastArrivalCounts(u: Window, arrivals: seq<Arrival>, verdicts: seq<bool>, start: nat, before: nat)
    requires |arrivals| == |verdicts| + 1
    requires var k := |verdicts|;
             LossStillCounted(u, start, Accepted(arrivals[..k], verdicts),
                              arrivals[k].nonce, arrivals[k].undefined, before)
    ensures LossCounted(AfterLast(u, arrivals, verdicts), arrivals, start, before)
  {
    var ok := Check(u, arrivals[|verdicts|].nonce, arrivals[|verdicts|].undefined).1;
    AcceptedLast(arrivals, verdicts, ok);
  }

  lemma AcceptedLast(arrivals: seq<Arrival>, verdicts: seq<bool>, ok: bool)
    requires |arrivals| == |verdicts| + 1
    ensures var k := |verdicts|;
            var seen := Accepted(arrivals[..k], verdicts);
            Accepted(arrivals, verdicts + [ok]) == if ok then seen + {arrivals[k].nonce} else seen
  {
    AcceptedGrows(arrivals, verdicts + [ok]);
    assert (verdicts + [ok])[..|verdicts|] == verdicts;
  }

  /** Arrival j is from the start up, new, and at most 32 below every nonce accepted before it. */
  ghost predicate WithinReach(start: nat, arrivals: seq<Arrival>, verdicts: seq<bool>, j: nat)
    requires |verdicts| == |arrivals| && j < |arrivals|
  {
    && start <= arrivals[j].nonce
    && arrivals[j].nonce !in Accepted(arrivals[..j], verdicts[..j])
    && forall m :: m in Accepted(arrivals[..j], verdicts[..j]) ==> m <= arrivals[j].nonce + 32
  }

  lemma AcceptedGrows(arrivals: seq<Arrival>, verdicts: seq<bool>)
    requires |verdicts| == |arrivals| > 0
    ensures var k := |arrivals| - 1;
            Accepted(arrivals, verdicts) ==
              Accepted(arrivals[..k], verdicts[..k]) + (if verdicts[k] then {arrivals[k].nonce} else {})
  {
    var k := |arrivals| - 1;
    var all, some := Accepted(arrivals, verdicts), Accepted(arrivals[..k], verdicts[..k]);
    forall n | n in all ensures n in some + (if verdicts[k] then {arrivals[k].nonce} else {}) {
      var i :| 0 <= i < |verdicts| && verdicts[i] && arrivals[i].nonce == n;
      if i < k { assert verdicts[..k][i] && arrivals[..k][i].nonce == n; }
    }
    forall n | n in some ensures n in all {
      var i :| 0 <= i < k && verdicts[..k][i] && arrivals[..k][i].nonce == n;
      assert verdicts[i] && arrivals[i].nonce == n;
    }
  }

  /** The structure as the program keeps it, updated in place. */
  class ReplayProtector {
    var bitfield: nat
    var baseOffset: nat
    var duplicates: nat
    var lostPackets: nat
    var receivedOutOfRange: nat

    function View(): Window
      reads this
    {
      Window(bitfield, baseOffset, duplicates, lostPackets, receivedOutOfRange)
    }

    constructor ()
      ensures View() == EMPTY
    {
      bitfield, baseOffset, duplicates, lostPackets, receivedOutOfRange := 0, 0, 0, 0, 0;
    }

    method Clear()
      modifies this
      ensures View() == EMPTY
    {
      bitfield, baseOffset, duplicates, lostPackets, receivedOutOfRange := 0, 0, 0, 0, 0;
    }

    method DoShift(bits: nat)
      modifies this
      ensures View() == Slide(old(View()), bits)
    {
      baseOffset := baseOffset + bits;
      if bits > 63 {
        bitfield := 0;
      } else {
        bitfield := ShiftRight(bitfield, bits);
      }
    }

    /** File a nonce as seen; true when it provably is not a replay. */
    method CheckNonce(nonce: nat, undefined: int) returns (ok: bool)
      requires nonce < TWO_32
      modifies this
      ensures (View(), ok) == Check(old(View()), nonce, undefined)
    {
      if nonce < baseOffset {
        receivedOutOfRange := (receivedOutOfRange + 1) % TWO_32;
        return false;
      }
      var offset := nonce - baseOffset;
      while offset > 63
        invariant baseOffset <= nonce && offset == nonce - baseOffset
        invariant Advance(View(), nonce, undefined) == Advance(old(View()), nonce, undefined)
        decreases offset
      {
        if bitfield % TWO_32 == LOW_32 {
          DoShift(32);
          offset := offset - 32;
        } else {
          var bits := offset - 47;
          lostPackets := (lostPackets + LostInShift(bitfield, bits, undefined)) % TWO_32;
          DoShift(bits);
          offset := offset - bits;
        }
      }
      if Bit(bitfield, offset) {
        duplicates := (duplicates + 1) % TWO_32;
        return false;
      }
      bitfield := SetBit(bitfield, offset);
      return true;
    }
  }
}
