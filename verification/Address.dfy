/**
 * Which of two addresses is closer to a third: the four-word comparison of dht/Address.c against the
 * XOR distance of whole 128-bit addresses.
 */
module Address {
  import opened Prelude
  import opened Bits

  // ---- Exclusive or ----

  function XorLow(a: nat, b: nat): nat {
    if a % 2 == b % 2 then 0 else 1
  }

  function Xor(a: nat, b: nat): nat
    decreases a + b
  {
    if a == 0 && b == 0 then 0 else XorLow(a, b) + 2 * Xor(a / 2, b / 2)
  }

  lemma HalfOf(q: nat, r: nat)
    requires r < 2
    ensures (r + 2 * q) / 2 == q && (r + 2 * q) % 2 == r
  {
  }

  lemma XorUnfolds(a: nat, b: nat)
    ensures Xor(a, b) == XorLow(a, b) + 2 * Xor(a / 2, b / 2)
  {
    if a == 0 && b == 0 {
      assert Xor(0 / 2, 0 / 2) == 0;
    }
  }

  lemma XorStep(a: nat, b: nat)
    ensures Xor(a, b) == XorLow(a, b) + 2 * Xor(a / 2, b / 2)
    ensures Xor(a, b) % 2 == XorLow(a, b) && Xor(a, b) / 2 == Xor(a / 2, b / 2)
  {
    hide Xor;
    XorUnfolds(a, b);
    HalfOf(Xor(a / 2, b / 2), XorLow(a, b));
  }

  /** Bit by bit, two equal bits give 0 and two different ones 1. */
  lemma {:induction false} XorBit(a: nat, b: nat, i: nat)
    ensures Bit(Xor(a, b), i) <==> Bit(a, i) != Bit(b, i)
    decreases i
  {
    hide Xor;
    XorStep(a, b);
    if i > 0 { XorBit(a / 2, b / 2, i - 1); }
  }

  lemma HalvesName(a: nat, b: nat)
    requires a / 2 == b / 2 && a % 2 == b % 2
    ensures a == b
  {
  }

  lemma {:induction false} XorCancels(t: nat, a: nat, b: nat)
    requires Xor(t, a) == Xor(t, b)
    ensures a == b
    decreases t + a + b
  {
    hide Xor;
    if t + a + b > 0 {
      XorStep(t, a);
      XorStep(t, b);
      XorCancels(t / 2, a / 2, b / 2);
      HalvesName(a, b);
    }
  }

  lemma {:induction false} XorBound(a: nat, b: nat, k: nat)
    requires a < Pow2(k) && b < Pow2(k)
    ensures Xor(a, b) < Pow2(k)
    decreases k
  {
    if k > 0 {
      hide Xor;
      XorStep(a, b);
      XorBound(a / 2, b / 2, k - 1);
    }
  }

  lemma {:induction false} XorSymmetric(a: nat, b: nat)
    ensures Xor(a, b) == Xor(b, a)
    decreases a + b
  {
    hide Xor;
    if a + b > 0 {
      XorStep(a, b);
      XorStep(b, a);
      XorSymmetric(a / 2, b / 2);
    }
  }

  lemma TwiceMul(x: nat, k: nat)
    requires k > 0
    ensures x * Pow2(k) == 2 * (x * Pow2(k - 1))
  {
    assert x * (2 * Pow2(k - 1)) == 2 * (x * Pow2(k - 1));
  }

  lemma Halves(hi: nat, lo: nat, k: nat)
    requires k > 0 && lo < Pow2(k)
    ensures (hi * Pow2(k) + lo) / 2 == hi * Pow2(k - 1) + lo / 2
    ensures (hi * Pow2(k) + lo) % 2 == lo % 2 && lo / 2 < Pow2(k - 1)
  {
    TwiceMul(hi, k);
    HalfOf(hi * Pow2(k - 1) + lo / 2, lo % 2);
  }

  /** The distance of two numbers made of two parts is made of the distances of the parts. */
  lemma {:induction false} XorSplits(ah: nat, al: nat, bh: nat, bl: nat, k: nat)
    requires al < Pow2(k) && bl < Pow2(k)
    ensures Xor(ah * Pow2(k) + al, bh * Pow2(k) + bl) == Xor(ah, bh) * Pow2(k) + Xor(al, bl)
    decreases k
  {
    if k == 0 {
      hide Xor;
      XorNone();
    } else {
      hide Xor, Pow2;
      Halves(ah, al, k);
      Halves(bh, bl, k);
      XorSplits(ah, al / 2, bh, bl / 2, k - 1);
      XorStep(ah * Pow2(k) + al, bh * Pow2(k) + bl);
      XorStep(al, bl);
      TwiceMul(Xor(ah, bh), k);
    }
  }

  lemma XorNone()
    ensures Xor(0, 0) == 0
  {
  }

  // ---- Words ----

  const WORD: nat := 32

  /** A number read from words, most significant first. */
  function Value(ws: seq<nat>): nat {
    if ws == [] then 0 else ws[0] * Pow2(WORD * (|ws| - 1)) + Value(ws[1..])
  }

  ghost predicate AllWords(ws: seq<nat>) {
    forall i :: 0 <= i < |ws| ==> ws[i] < Pow2(WORD)
  }

  lemma {:induction false} ValueBound(ws: seq<nat>)
    requires AllWords(ws)
    ensures Value(ws) < Pow2(WORD * |ws|)
    decreases |ws|
  {
    if ws != [] {
      ValueBound(ws[1..]);
      var p := Pow2(WORD * (|ws| - 1));
      Pow2Adds(WORD, WORD * (|ws| - 1));
      assert WORD + WORD * (|ws| - 1) == WORD * |ws|;
      HighDecides(ws[0], Value(ws[1..]), Pow2(WORD), 0, p);
    }
  }

  /** What the comparisons of `Address_closest` come to, one word after the other. */
  function CompareWords(t: seq<nat>, a: seq<nat>, b: seq<nat>): int
    requires |t| == |a| == |b|
  {
    if t == [] then 0
    else if a[0] != b[0] then (if Xor(a[0], t[0]) < Xor(b[0], t[0]) then -1 else 1)
    else CompareWords(t[1..], a[1..], b[1..])
  }

  function Sign(x: int): int {
    if x < 0 then -1 else if x == 0 then 0 else 1
  }

  lemma HighDecides(ah: nat, al: nat, bh: nat, bl: nat, p: nat)
    requires al < p && bl < p
    ensures ah < bh ==> ah * p + al < bh * p + bl
  {
    if ah < bh {
      MulAtLeast(p, bh - ah);
      assert bh * p == ah * p + p * (bh - ah);
    }
  }

  lemma LargerDecides(ah: nat, al: nat, bh: nat, bl: nat, p: nat)
    requires al < p && bl < p
    ensures Sign((ah * p + al) - (bh * p + bl)) == if ah == bh then Sign(al - bl) else Sign(ah - bh)
  {
    HighDecides(ah, al, bh, bl, p);
    HighDecides(bh, bl, ah, al, p);
  }

  /** The distance of words, from the first word and the rest. */
  lemma DistanceSplits(t: seq<nat>, a: seq<nat>)
    requires |t| == |a| > 0 && AllWords(t) && AllWords(a)
    ensures var k, low := WORD * (|t| - 1), Xor(Value(t[1..]), Value(a[1..]));
            low < Pow2(k) && Xor(Value(t), Value(a)) == Xor(a[0], t[0]) * Pow2(k) + low
  {
    hide Xor, Pow2;
    var k := WORD * (|t| - 1);
    ValueBound(t[1..]);
    ValueBound(a[1..]);
    XorSplits(t[0], Value(t[1..]), a[0], Value(a[1..]), k);
    XorBound(Value(t[1..]), Value(a[1..]), k);
    XorSymmetric(t[0], a[0]);
  }

  /** Comparing word by word is comparing the distances of the whole numbers. */
  lemma {:induction false} CompareIsSign(t: seq<nat>, a: seq<nat>, b: seq<nat>)
    requires |t| == |a| == |b| && AllWords(t) && AllWords(a) && AllWords(b)
    ensures CompareWords(t, a, b) == Sign(Xor(Value(t), Value(a)) - Xor(Value(t), Value(b)))
    decreases |t|
  {
    if t != [] {
      hide Xor, Pow2, Value;
      DistanceSplits(t, a);
      DistanceSplits(t, b);
      var al, bl := Xor(Value(t[1..]), Value(a[1..])), Xor(Value(t[1..]), Value(b[1..]));
      LargerDecides(Xor(a[0], t[0]), al, Xor(b[0], t[0]), bl, Pow2(WORD * (|t| - 1)));
      CompareIsSign(t[1..], a[1..], b[1..]);
      if Xor(a[0], t[0]) == Xor(b[0], t[0]) {
        XorSymmetric(t[0], a[0]);
        XorSymmetric(t[0], b[0]);
        XorCancels(t[0], a[0], b[0]);
      }
    }
  }

  lemma {:induction false} ValueInjective(a: seq<nat>, b: seq<nat>)
    requires |a| == |b| && AllWords(a) && AllWords(b) && Value(a) == Value(b)
    ensures a == b
    decreases |a|
  {
    if a != [] {
      var p := Pow2(WORD * (|a| - 1));
      ValueBound(a[1..]);
      ValueBound(b[1..]);
      HighDecides(a[0], Value(a[1..]), b[0], Value(b[1..]), p);
      HighDecides(b[0], Value(b[1..]), a[0], Value(a[1..]), p);
      ValueInjective(a[1..], b[1..]);
    }
  }

  // ---- Addresses ----

  type Ip6 = s: seq<Byte> | |s| == 16 witness seq(16, _ => 0)

  /** Four bytes in network order as the host reads them. */
  function Word(ip: Ip6, i: nat): nat
    requires i + 4 <= 16
  {
    ip[i] as nat * 0x1_000_000 + ip[i + 1] as nat * 0x10_000 + ip[i + 2] as nat * 0x100 + ip[i + 3] as nat
  }

  /** The words one_be, two_be, three_be, four_be: the address rotated by 64 bits. */
  function Rotated(ip: Ip6): seq<nat> {
    [Word(ip, 8), Word(ip, 12), Word(ip, 0), Word(ip, 4)]
  }

  function Distance(a: Ip6, b: Ip6): nat {
    Xor(Value(Rotated(a)), Value(Rotated(b)))
  }

  lemma ByteRange()
    ensures Pow2(8) == 0x100
  {
    assert Pow2(4) == 16;
    Pow2Adds(4, 4);
  }

  lemma WordRange()
    ensures Pow2(WORD) == 0x1_0000_0000
  {
    hide Pow2;
    ByteRange();
    Pow2Adds(8, 8);
    Pow2Adds(16, 16);
    assert Pow2(16) == 0x10000;
  }

  lemma WordsFit(ip: Ip6)
    ensures AllWords(Rotated(ip))
  {
    hide Pow2;
    WordRange();
  }

  lemma WordInjective(a: Ip6, b: Ip6, i: nat)
    requires i + 4 <= 16 && Word(a, i) == Word(b, i)
    ensures a[i..i + 4] == b[i..i + 4]
  {
  }

  /** Only an address itself is at its distance. */
  lemma DistanceNamesAddress(t: Ip6, a: Ip6, b: Ip6)
    ensures Distance(t, a) == Distance(t, b) <==> a == b
  {
    if Distance(t, a) == Distance(t, b) {
      XorCancels(Value(Rotated(t)), Value(Rotated(a)), Value(Rotated(b)));
      WordsFit(a);
      WordsFit(b);
      ValueInjective(Rotated(a), Rotated(b));
      SameWords(a, b);
    }
  }

  lemma SameWords(a: Ip6, b: Ip6)
    requires Rotated(a) == Rotated(b)
    ensures a == b
  {
    var ra, rb := Rotated(a), Rotated(b);
    assert ra[0] == rb[0] && ra[1] == rb[1] && ra[2] == rb[2] && ra[3] == rb[3];
    WordInjective(a, b, 0);
    WordInjective(a, b, 4);
    WordInjective(a, b, 8);
    WordInjective(a, b, 12);
    assert a == a[0..4] + a[4..8] + a[8..12] + a[12..16];
    assert b == b[0..4] + b[4..8] + b[8..12] + b[12..16];
  }

  /** `Address_closest` on addresses that are filled in. */
  function Closest(t: Ip6, a: Ip6, b: Ip6): int {
    CompareWords(Rotated(t), Rotated(a), Rotated(b))
  }

  /** It is the sign of comparing the two distances. */
  lemma ClosestComparesDistances(t: Ip6, a: Ip6, b: Ip6)
    ensures Closest(t, a, b) == Sign(Distance(t, a) - Distance(t, b))
  {
    WordsFit(t);
    WordsFit(a);
    WordsFit(b);
    CompareIsSign(Rotated(t), Rotated(a), Rotated(b));
  }

  /** For a fixed target: antisymmetric, transitive, and zero only for equal addresses. */
  lemma ClosestOrders(t: Ip6, a: Ip6, b: Ip6, c: Ip6)
    ensures Closest(t, a, b) == -Closest(t, b, a)
    ensures Closest(t, a, b) <= 0 && Closest(t, b, c) <= 0 ==> Closest(t, a, c) <= 0
    ensures Closest(t, a, b) == 0 <==> a == b
  {
    ClosestComparesDistances(t, a, b);
    ClosestComparesDistances(t, b, a);
    ClosestComparesDistances(t, b, c);
    ClosestComparesDistances(t, a, c);
    DistanceNamesAddress(t, a, b);
  }

  // ---- Filling in and comparing ----

  /** `Address_xorcmp` on words in host order. */
  function XorCmp(target: nat, negativeIfCloser: nat, positiveIfCloser: nat): int {
    if negativeIfCloser == positiveIfCloser then 0
    else if Xor(negativeIfCloser, target) < Xor(positiveIfCloser, target) then -1
    else 1
  }

  /** An address that is all zero has not been filled in. */
  function Filled(ip: Ip6, derived: Ip6): Ip6 {
    if Rotated(ip) == [0, 0, 0, 0] then derived else ip
  }

  /** `derive` stands for the hash that gives a public key its address. */
  class NodeAddress {
    const key: seq<Byte>
    var ip6: Ip6

    constructor (key: seq<Byte>, ip6: Ip6)
      ensures this.key == key && this.ip6 == ip6
    {
      this.key := key;
      this.ip6 := ip6;
    }

    /** `Address_getPrefix` */
    method GetPrefix(derive: seq<Byte> -> Ip6) returns (prefix: nat)
      modifies this
      ensures ip6 == Filled(old(ip6), derive(key)) && prefix == Word(ip6, 8)
    {
      if Word(ip6, 8) == 0 && Word(ip6, 12) == 0 && Word(ip6, 0) == 0 && Word(ip6, 4) == 0 {
        ip6 := derive(key);
      }
      return Word(ip6, 8);
    }
  }

  /** `Address_closest`; the three may be one object. */
  method FindClosest(
    target: NodeAddress, negativeIfCloser: NodeAddress, positiveIfCloser: NodeAddress, derive: seq<Byte> -> Ip6)
    returns (ret: int)
    modifies target, negativeIfCloser, positiveIfCloser
    ensures target.ip6 == Filled(old(target.ip6), derive(target.key))
    ensures negativeIfCloser.ip6 == Filled(old(negativeIfCloser.ip6), derive(negativeIfCloser.key))
    ensures positiveIfCloser.ip6 == Filled(old(positiveIfCloser.ip6), derive(positiveIfCloser.key))
    ensures ret == Sign(Distance(target.ip6, negativeIfCloser.ip6) - Distance(target.ip6, positiveIfCloser.ip6))
  {
    var _ := target.GetPrefix(derive);
    var _ := negativeIfCloser.GetPrefix(derive);
    var _ := positiveIfCloser.GetPrefix(derive);
    var t, a, b := target.ip6, negativeIfCloser.ip6, positiveIfCloser.ip6;
    ClosestComparesDistances(t, a, b);
    FourWords(t, a, b);
    ret := XorCmp(Word(t, 8), Word(a, 8), Word(b, 8));
    if ret != 0 {
      return;
    }
    ret := XorCmp(Word(t, 12), Word(a, 12), Word(b, 12));
    if ret != 0 {
      return;
    }
    ret := XorCmp(Word(t, 0), Word(a, 0), Word(b, 0));
    if ret != 0 {
      return;
    }
    ret := XorCmp(Word(t, 4), Word(a, 4), Word(b, 4));
  }

  function FirstNonZero(a: int, b: int): int {
    if a != 0 then a else b
  }

  lemma WordThenRest(t: seq<nat>, a: seq<nat>, b: seq<nat>)
    requires |t| == |a| == |b| > 0
    ensures CompareWords(t, a, b) ==
            FirstNonZero(XorCmp(t[0], a[0], b[0]), CompareWords(t[1..], a[1..], b[1..]))
  {
  }

  lemma FourWords(t: Ip6, a: Ip6, b: Ip6)
    ensures Closest(t, a, b) ==
            FirstNonZero(XorCmp(Word(t, 8), Word(a, 8), Word(b, 8)),
            FirstNonZero(XorCmp(Word(t, 12), Word(a, 12), Word(b, 12)),
            FirstNonZero(XorCmp(Word(t, 0), Word(a, 0), Word(b, 0)),
                         XorCmp(Word(t, 4), Word(a, 4), Word(b, 4)))))
  {
    var rt, ra, rb := Rotated(t), Rotated(a), Rotated(b);
    WordThenRest(rt, ra, rb);
    WordThenRest(rt[1..], ra[1..], rb[1..]);
    WordThenRest(rt[2..], ra[2..], rb[2..]);
    WordThenRest(rt[3..], ra[3..], rb[3..]);
    assert rt[1..][1..] == rt[2..] && ra[1..][1..] == ra[2..] && rb[1..][1..] == rb[2..];
    assert rt[2..][1..] == rt[3..] && ra[2..][1..] == ra[3..] && rb[2..][1..] == rb[3..];
  }

  // ---- Bytes ----

  /** The bytes of an address in the order they count: the last eight, then the first eight. */
  function Place(j: nat): nat
    requires j < 16
  {
    if j < 8 then j + 8 else j - 8
  }

  function ByteDistance(a: Ip6, t: Ip6, k: nat): nat
    requires k < 16
  {
    Xor(a[k] as nat, t[k] as nat)
  }

  lemma ByteDistanceBound(a: Ip6, t: Ip6, k: nat)
    requires k < 16
    ensures ByteDistance(a, t, k) < 0x100
  {
    hide Xor, Pow2;
    ByteRange();
    XorBound(a[k] as nat, t[k] as nat, 8);
  }

  /** The distance of two words is that of their bytes, the first byte counting most. */
  lemma WordDistance(a: Ip6, t: Ip6, i: nat)
    requires i + 4 <= 16
    ensures Xor(Word(a, i), Word(t, i)) ==
            ByteDistance(a, t, i) * 0x1_000_000 + ByteDistance(a, t, i + 1) * 0x10_000 +
            ByteDistance(a, t, i + 2) * 0x100 + ByteDistance(a, t, i + 3)
    ensures ByteDistance(a, t, i) < 0x100 && ByteDistance(a, t, i + 1) < 0x100
    ensures ByteDistance(a, t, i + 2) < 0x100 && ByteDistance(a, t, i + 3) < 0x100
  {
    hide Xor, Pow2;
    ByteRange();
    Pow2Adds(8, 8);
    Pow2Adds(16, 8);
    ByteDistanceBound(a, t, i);
    ByteDistanceBound(a, t, i + 1);
    ByteDistanceBound(a, t, i + 2);
    ByteDistanceBound(a, t, i + 3);
    var a3, t3 := a[i + 3] as nat, t[i + 3] as nat;
    var a2, t2 := a[i + 2] as nat * 0x100 + a3, t[i + 2] as nat * 0x100 + t3;
    var a1, t1 := a[i + 1] as nat * 0x10_000 + a2, t[i + 1] as nat * 0x10_000 + t2;
    XorSplits(a[i + 2] as nat, a3, t[i + 2] as nat, t3, 8);
    XorSplits(a[i + 1] as nat, a2, t[i + 1] as nat, t2, 16);
    XorSplits(a[i] as nat, a1, t[i] as nat, t1, 24);
  }

  /** Which of two bytes is closer to a third. */
  function CloserByte(t: Byte, a: Byte, b: Byte): int {
    if Xor(a as nat, t as nat) < Xor(b as nat, t as nat) then -1 else 1
  }

  lemma BytesApart(t: Byte, a: Byte, b: Byte)
    ensures Xor(a as nat, t as nat) == Xor(b as nat, t as nat) <==> a == b
  {
    hide Xor;
    if Xor(a as nat, t as nat) == Xor(b as nat, t as nat) {
      XorSymmetric(a as nat, t as nat);
      XorSymmetric(b as nat, t as nat);
      XorCancels(t as nat, a as nat, b as nat);
    }
  }

  lemma WordByFirstByte(t: Ip6, a: Ip6, b: Ip6, i: nat, m: nat)
    requires i + 4 <= 16 && m < 4 && (forall k :: i <= k < i + m ==> a[k] == b[k]) && a[i + m] != b[i + m]
    ensures XorCmp(Word(t, i), Word(a, i), Word(b, i)) == CloserByte(t[i + m], a[i + m], b[i + m])
  {
    hide Xor;
    WordDistance(a, t, i);
    WordDistance(b, t, i);
    BytesApart(t[i + m], a[i + m], b[i + m]);
  }

  lemma EqualWords(t: Ip6, a: Ip6, b: Ip6, i: nat)
    requires i + 4 <= 16 && forall k :: i <= k < i + 4 ==> a[k] == b[k]
    ensures XorCmp(Word(t, i), Word(a, i), Word(b, i)) == 0
  {
  }

  /** The first byte in which two addresses differ, in the order the bytes count, decides which is closer. */
  lemma FirstByteDecides(t: Ip6, a: Ip6, b: Ip6, j: nat)
    requires j < 16 && a[Place(j)] != b[Place(j)] && forall i :: 0 <= i < j ==> a[Place(i)] == b[Place(i)]
    ensures Closest(t, a, b) == CloserByte(t[Place(j)], a[Place(j)], b[Place(j)])
  {
    hide Xor, Closest, Word;
    FourWords(t, a, b);
    var m := j % 4;
    var i := Place(j) - m;
    forall k | i <= k < i + m ensures a[k] == b[k] { assert Place(j - m + (k - i)) == k; }
    WordByFirstByte(t, a, b, i, m);
    EarlierWords(t, a, b, j);
  }

  lemma EarlierWords(t: Ip6, a: Ip6, b: Ip6, j: nat)
    requires j < 16 && forall i :: 0 <= i < j ==> a[Place(i)] == b[Place(i)]
    ensures j >= 4 ==> XorCmp(Word(t, 8), Word(a, 8), Word(b, 8)) == 0
    ensures j >= 8 ==> XorCmp(Word(t, 12), Word(a, 12), Word(b, 12)) == 0
    ensures j >= 12 ==> XorCmp(Word(t, 0), Word(a, 0), Word(b, 0)) == 0
  {
    hide Xor, Word, XorCmp;
    if j >= 4 {
      forall k | 8 <= k < 12 ensures a[k] == b[k] { assert Place(k - 8) == k; }
      EqualWords(t, a, b, 8);
    }
    if j >= 8 {
      forall k | 12 <= k < 16 ensures a[k] == b[k] { assert Place(k - 8) == k; }
      EqualWords(t, a, b, 12);
    }
    if j >= 12 {
      forall k | 0 <= k < 4 ensures a[k] == b[k] { assert Place(k + 8) == k; }
      EqualWords(t, a, b, 0);
    }
  }

  /** An address counts as filled in unless every byte of it is zero. */
  lemma FilledExactly(ip: Ip6, derived: Ip6)
    ensures Filled(ip, derived) == if forall i :: 0 <= i < 16 ==> ip[i] == 0 then derived else ip
  {
    var zero: Ip6 := seq(16, _ => 0);
    if Rotated(ip) == [0, 0, 0, 0] {
      assert Rotated(zero) == [0, 0, 0, 0];
      SameWords(ip, zero);
    }
    if forall i :: 0 <= i < 16 ==> ip[i] == 0 { assert Rotated(ip) == [0, 0, 0, 0]; }
  }
}
