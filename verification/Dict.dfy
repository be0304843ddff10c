/**
 * The dictionary of benc/Dict.c, a linked list of entries kept in key order, against a finite map; and
 * the string comparison of benc/String.c it is ordered by.
 */
module Dict {
  import opened Prelude

  // ---- Strings ----

  /** A `char` is signed here. */
  type Char = c: int | -128 <= c < 128
  type Key = seq<Char>

  /** A 64-bit difference returned as an `int`. */
  function Int32(x: int): int {
    (x + 0x8000_0000) % TWO_32 - 0x8000_0000
  }

  lemma OneMore(i: nat)
    ensures Int32(Int32(i) + 1) == Int32(i + 1)
  {
  }

  lemma CountFits(i: nat)
    ensures Int32(i) == i <==> i < 0x8000_0000
  {
  }

  /** `String_compare` on strings that are not null. */
  function Compare(a: Key, b: Key): int {
    if a == [] || b == [] then Int32(|a| - |b|)
    else if a[0] != b[0] then a[0] - b[0]
    else Compare(a[1..], b[1..])
  }

  /** Its loop. */
  method CompareStrings(a: Key, b: Key) returns (d: int)
    ensures d == Compare(a, b)
  {
    var i := 0;
    while i < if |a| < |b| then |a| else |b|
      invariant i <= |a| && i <= |b| && Compare(a[i..], b[i..]) == Compare(a, b)
    {
      d := a[i] as int - b[i] as int;
      if d != 0 {
        return;
      }
      assert a[i..][1..] == a[i + 1..] && b[i..][1..] == b[i + 1..];
      i := i + 1;
    }
    return Int32(|a| - |b|);
  }

  /** Lexicographic order. */
  predicate Less(a: Key, b: Key) {
    b != [] && (a == [] || a[0] < b[0] || (a[0] == b[0] && Less(a[1..], b[1..])))
  }

  lemma {:induction false} LessOrEqualOrMore(a: Key, b: Key)
    ensures Less(a, b) || a == b || Less(b, a)
    ensures !(Less(a, b) && Less(b, a)) && !(Less(a, b) && a == b)
    decreases |a|
  {
    if a != [] && b != [] {
      LessOrEqualOrMore(a[1..], b[1..]);
      assert a == [a[0]] + a[1..] && b == [b[0]] + b[1..];
    }
  }

  lemma {:induction false} LessTransitive(a: Key, b: Key, c: Key)
    requires Less(a, b) && Less(b, c)
    ensures Less(a, c)
    decreases |a|
  {
    if a != [] && a[0] == b[0] && b[0] == c[0] { LessTransitive(a[1..], b[1..], c[1..]); }
  }

  function Sign(x: int): int {
    if x < 0 then -1 else if x == 0 then 0 else 1
  }

  function Order(a: Key, b: Key): int {
    if Less(a, b) then -1 else if a == b then 0 else 1
  }

  /** The difference of two lengths keeps its sign as an `int`. */
  predicate LengthsTell(d: int) {
    || d == 0
    || (d > 0 && 0 < d % TWO_32 < 0x8000_0000)
    || (d < 0 && 0 < -d % TWO_32 <= 0x8000_0000)
  }

  lemma TruncatedSign(d: int)
    ensures Sign(Int32(d)) == Sign(d) <==> LengthsTell(d)
  {
    var q, r := d / TWO_32, d % TWO_32;
    assert d == TWO_32 * q + r;
    if r < 0x8000_0000 {
      assert (d + 0x8000_0000) % TWO_32 == r + 0x8000_0000;
    } else {
      assert (d + 0x8000_0000) % TWO_32 == r - 0x8000_0000;
    }
    assert r == 0 ==> -d % TWO_32 == 0;
    assert r > 0 ==> -d % TWO_32 == TWO_32 - r;
  }

  /**
   * The comparison has the sign of the order exactly when, for strings one of which starts with the
   * other, the difference of the lengths survives being cut to 32 bits.
   */
  lemma {:induction false} ComparesExactly(a: Key, b: Key)
    ensures Sign(Compare(a, b)) == Order(a, b) <==> Comparable(a, b)
    decreases |a|
  {
    if a == [] || b == [] {
      TruncatedSign(|a| - |b|);
    } else {
      assert a == [a[0]] + a[1..] && b == [b[0]] + b[1..];
      if a[0] == b[0] {
        ComparesExactly(a[1..], b[1..]);
        TailsPrefix(a, b);
        TailsPrefix(b, a);
      }
    }
  }

  lemma TailsPrefix(a: Key, b: Key)
    requires a != [] && b != [] && a[0] == b[0]
    ensures a <= b <==> a[1..] <= b[1..]
  {
    if a[1..] <= b[1..] {
      forall i | 0 <= i < |a| ensures a[i] == b[i] {
        if i > 0 { assert a[i] == a[1..][i - 1] && b[i] == b[1..][i - 1]; }
      }
    }
  }

  /** The lengths of a and b do not mislead the comparison. */
  predicate Comparable(a: Key, b: Key) {
    (a <= b || b <= a) ==> LengthsTell(|a| - |b|)
  }

  /** What the comparison says of two keys it can compare. */
  lemma ComparesRightly(a: Key, b: Key)
    requires Comparable(a, b)
    ensures Compare(a, b) < 0 <==> Less(a, b)
    ensures Compare(a, b) == 0 <==> a == b
    ensures Compare(a, b) > 0 <==> Less(b, a)
  {
    ComparesExactly(a, b);
    LessOrEqualOrMore(a, b);
  }

  // ---- Sorted lists ----

  datatype Pair<V> = Pair(key: Key, val: V)

  ghost predicate Sorted<V>(c: seq<Pair<V>>) {
    forall i, j :: 0 <= i < j < |c| ==> Less(c[i].key, c[j].key)
  }

  function PutIn<V>(c: seq<Pair<V>>, k: Key, v: V): seq<Pair<V>> {
    if c == [] then [Pair(k, v)]
    else if Less(k, c[0].key) then [Pair(k, v)] + c
    else if k == c[0].key then [Pair(k, v)] + c[1..]
    else [c[0]] + PutIn(c[1..], k, v)
  }

  function Drop<V>(c: seq<Pair<V>>, k: Key): seq<Pair<V>> {
    if c == [] then [] else if c[0].key == k then c[1..] else [c[0]] + Drop(c[1..], k)
  }

  function Find<V>(c: seq<Pair<V>>, k: Key): Option<V> {
    if c == [] then None else if c[0].key == k then Some(c[0].val) else Find(c[1..], k)
  }

  function AsMap<V>(c: seq<Pair<V>>): map<Key, V> {
    if c == [] then map[] else AsMap(c[1..])[c[0].key := c[0].val]
  }

  lemma {:induction false} MapKeys<V>(c: seq<Pair<V>>, k: Key)
    ensures k in AsMap(c) <==> exists i :: 0 <= i < |c| && c[i].key == k
    decreases |c|
  {
    if c != [] {
      MapKeys(c[1..], k);
      if i :| 0 <= i < |c| && c[i].key == k {
        if i > 0 { assert c[1..][i - 1].key == k; }
      }
      if k in AsMap(c[1..]) {
        var i :| 0 <= i < |c[1..]| && c[1..][i].key == k;
        assert c[i + 1].key == k;
      }
    }
  }

  /** The keys behind the first are larger. */
  lemma HeadIsNew<V>(c: seq<Pair<V>>, k: Key)
    requires Sorted(c) && c != [] && (k == c[0].key || Less(k, c[0].key))
    ensures Sorted(c[1..]) && k !in AsMap(c[1..])
  {
    MapKeys(c[1..], k);
    if i :| 0 <= i < |c[1..]| && c[1..][i].key == k {
      assert Less(c[0].key, c[i + 1].key);
      if k != c[0].key { LessTransitive(k, c[0].key, c[i + 1].key); }
      LessOrEqualOrMore(k, k);
    }
  }

  /** Putting keeps the order and is putting into the map. */
  lemma {:induction false} PutRefines<V>(c: seq<Pair<V>>, k: Key, v: V)
    requires Sorted(c)
    ensures Sorted(PutIn(c, k, v)) && AsMap(PutIn(c, k, v)) == AsMap(c)[k := v]
    ensures forall p :: p in PutIn(c, k, v) ==> p == Pair(k, v) || p in c
    decreases |c|
  {
    if c != [] {
      var d := PutIn(c, k, v);
      LessOrEqualOrMore(k, c[0].key);
      hide Less;
      if Less(k, c[0].key) {
        assert d[1..] == c;
        HeadIsNew(c, k);
        forall j | 0 <= j < |c| ensures Less(k, c[j].key) {
          if j > 0 { LessTransitive(k, c[0].key, c[j].key); }
        }
      } else if k == c[0].key {
        assert d[1..] == c[1..];
      } else {
        var rest := PutIn(c[1..], k, v);
        PutRefines(c[1..], k, v);
        forall j | 0 <= j < |rest| ensures Less(c[0].key, rest[j].key) { assert rest[j] in rest; }
        FrontOfSorted(c[0], rest);
        assert d[1..] == rest;
      }
    }
  }

  lemma {:induction false} DropRefines<V>(c: seq<Pair<V>>, k: Key)
    requires Sorted(c)
    ensures Sorted(Drop(c, k)) && AsMap(Drop(c, k)) == AsMap(c) - {k}
    ensures forall p :: p in Drop(c, k) ==> p in c
    decreases |c|
  {
    if c != [] {
      HeadIsNew(c, c[0].key);
      if c[0].key != k {
        hide Less, Sorted;
        DropRefines(c[1..], k);
        var d := Drop(c[1..], k);
        RestIsLarger(c, d);
        FrontOfSorted(c[0], d);
        assert ([c[0]] + d)[1..] == d;
        assert AsMap(c[1..])[c[0].key := c[0].val] - {k} == (AsMap(c[1..]) - {k})[c[0].key := c[0].val];
      }
    }
  }

  lemma RestIsLarger<V>(c: seq<Pair<V>>, d: seq<Pair<V>>)
    requires Sorted(c) && c != [] && forall p :: p in d ==> p in c[1..]
    ensures forall j :: 0 <= j < |d| ==> Less(c[0].key, d[j].key)
  {
    hide Less;
    forall j | 0 <= j < |d| ensures Less(c[0].key, d[j].key) {
      assert d[j] in c[1..];
      var i :| 0 <= i < |c[1..]| && c[1..][i] == d[j];
      assert c[i + 1] == d[j];
    }
  }

  lemma FrontOfSorted<V>(p: Pair<V>, d: seq<Pair<V>>)
    requires Sorted(d) && forall j :: 0 <= j < |d| ==> Less(p.key, d[j].key)
    ensures Sorted([p] + d)
  {
  }

  lemma {:induction false} FindRefines<V>(c: seq<Pair<V>>, k: Key)
    ensures Find(c, k) == if k in AsMap(c) then Some(AsMap(c)[k]) else None
    decreases |c|
  {
    if c != [] { FindRefines(c[1..], k); }
  }

  lemma {:induction false} SizeRefines<V>(c: seq<Pair<V>>)
    requires Sorted(c)
    ensures |AsMap(c)| == |c|
    decreases |c|
  {
    if c != [] {
      HeadIsNew(c, c[0].key);
      SizeRefines(c[1..]);
      assert AsMap(c).Keys == AsMap(c[1..]).Keys + {c[0].key};
    }
  }

  /** Two sorted lists with one map are one list. */
  lemma {:induction false} Canonical<V>(c: seq<Pair<V>>, d: seq<Pair<V>>)
    requires Sorted(c) && Sorted(d) && AsMap(c) == AsMap(d)
    ensures c == d
    decreases |c|
  {
    SizeRefines(c);
    SizeRefines(d);
    if c != [] {
      SmallestFirst(c, d);
      SmallestFirst(d, c);
      LessOrEqualOrMore(c[0].key, d[0].key);
      HeadIsNew(c, c[0].key);
      HeadIsNew(d, d[0].key);
      assert AsMap(c)[c[0].key] == c[0].val && AsMap(d)[d[0].key] == d[0].val;
      assert AsMap(c[1..]) == AsMap(c) - {c[0].key};
      assert AsMap(d[1..]) == AsMap(d) - {d[0].key};
      Canonical(c[1..], d[1..]);
      assert c == [c[0]] + c[1..] && d == [d[0]] + d[1..];
    }
  }

  lemma SmallestFirst<V>(c: seq<Pair<V>>, d: seq<Pair<V>>)
    requires Sorted(c) && c != [] && d != [] && AsMap(c).Keys == AsMap(d).Keys
    ensures !Less(d[0].key, c[0].key)
  {
    MapKeys(d, d[0].key);
    MapKeys(c, d[0].key);
    assert d[0].key in AsMap(d);
    var i :| 0 <= i < |c| && c[i].key == d[0].key;
    LessOrEqualOrMore(c[0].key, d[0].key);
  }

  // ---- Positions in the list ----

  /** Where a key that is not there belongs. */
  lemma {:induction false} PutAt<V>(c: seq<Pair<V>>, k: Key, v: V, i: nat)
    requires i <= |c| && (forall j :: 0 <= j < i ==> Less(c[j].key, k)) && (i < |c| ==> Less(k, c[i].key))
    requires Sorted(c)
    ensures PutIn(c, k, v) == c[..i] + [Pair(k, v)] + c[i..] && Find(c, k) == None
    decreases |c|
  {
    if i == 0 {
      if c != [] {
        HeadIsNew(c, k);
        FindRefines(c, k);
        LessOrEqualOrMore(k, c[0].key);
      }
    } else {
      LessOrEqualOrMore(c[0].key, k);
      forall j | 0 <= j < i - 1 ensures Less(c[1..][j].key, k) { assert c[1..][j] == c[j + 1]; }
      PutAt(c[1..], k, v, i - 1);
      assert c[..i] == [c[0]] + c[1..][..i - 1] && c[i..] == c[1..][i - 1..];
    }
  }

  lemma {:induction false} PutOver<V>(c: seq<Pair<V>>, k: Key, v: V, i: nat)
    requires i < |c| && c[i].key == k && Sorted(c)
    ensures PutIn(c, k, v) == c[i := Pair(k, v)] && Find(c, k) == Some(c[i].val)
    decreases |c|
  {
    LessOrEqualOrMore(c[0].key, k);
    if i == 0 {
      assert [Pair(k, v)] + c[1..] == c[0 := Pair(k, v)];
    } else {
      assert Less(c[0].key, c[i].key);
      PutOver(c[1..], k, v, i - 1);
      assert [c[0]] + c[1..][i - 1 := Pair(k, v)] == c[i := Pair(k, v)];
    }
  }

  lemma {:induction false} NotThere<V>(c: seq<Pair<V>>, k: Key)
    requires forall j :: 0 <= j < |c| ==> c[j].key != k
    ensures Find(c, k) == None && Drop(c, k) == c
    decreases |c|
  {
    if c != [] { NotThere(c[1..], k); }
  }

  lemma {:induction false} FoundAt<V>(c: seq<Pair<V>>, k: Key, i: nat)
    requires i < |c| && c[i].key == k && forall j :: 0 <= j < i ==> c[j].key != k
    ensures Find(c, k) == Some(c[i].val)
    decreases i
  {
    if i > 0 { FoundAt(c[1..], k, i - 1); }
  }

  // ---- Putting with the comparison of the program ----

  /** Where the walk of `putObject` stops. */
  function Stop<V>(c: seq<Pair<V>>, k: Key): (i: nat)
    ensures i <= |c| && (i < |c| ==> Compare(k, c[i].key) <= 0)
    ensures forall j :: 0 <= j < i ==> Compare(k, c[j].key) > 0
  {
    if c == [] || Compare(k, c[0].key) <= 0 then 0 else 1 + Stop(c[1..], k)
  }

  /** It takes the entry there for one with the key. */
  predicate Hits<V>(c: seq<Pair<V>>, k: Key) {
    Stop(c, k) < |c| && Compare(k, c[Stop(c, k)].key) == 0
  }

  /** `putObject`, which leaves the key of an entry it takes for k as it is. */
  function PutBy<V>(c: seq<Pair<V>>, k: Key, v: V): seq<Pair<V>> {
    var i := Stop(c, k);
    if Hits(c, k) then c[i := Pair(c[i].key, v)] else c[..i] + [Pair(k, v)] + c[i..]
  }

  function Displaced<V>(c: seq<Pair<V>>, k: Key): Option<V> {
    if Hits(c, k) then Some(c[Stop(c, k)].val) else None
  }

  /** Where k belongs: after the smaller keys, and over an entry with the very key. */
  ghost predicate Belongs<V>(c: seq<Pair<V>>, k: Key, i: nat, over: bool) {
    && i <= |c| && (forall j :: 0 <= j < i ==> Less(c[j].key, k))
    && if over then i < |c| && c[i].key == k else i < |c| ==> Less(k, c[i].key)
  }

  /** The walk meets no key, down to the first that is not smaller than k, whose length misleads it. */
  ghost predicate Told<V>(c: seq<Pair<V>>, k: Key) {
    forall j {:trigger c[j]} :: 0 <= j < |c| && (forall i :: 0 <= i < j ==> Less(c[i].key, k)) ==> Comparable(k, c[j].key)
  }

  lemma ToldBelongs<V>(c: seq<Pair<V>>, k: Key)
    requires Told(c, k)
    ensures Belongs(c, k, Stop(c, k), Hits(c, k))
  {
    var i := Stop(c, k);
    WalkIsTold(c, k, i);
    if i < |c| {
      assert Comparable(k, c[i].key);
      ComparesRightly(k, c[i].key);
    }
  }

  lemma {:induction false} WalkIsTold<V>(c: seq<Pair<V>>, k: Key, i: nat)
    requires Told(c, k) && i <= Stop(c, k)
    ensures forall j :: 0 <= j < i ==> Less(c[j].key, k)
    decreases i
  {
    if i > 0 {
      WalkIsTold(c, k, i - 1);
      assert Comparable(k, c[i - 1].key);
      ComparesRightly(k, c[i - 1].key);
    }
  }

  lemma BelongsTold<V>(c: seq<Pair<V>>, k: Key)
    requires Sorted(c) && Belongs(c, k, Stop(c, k), Hits(c, k))
    ensures Told(c, k)
  {
    var s := Stop(c, k);
    forall j {:trigger c[j]} | 0 <= j < |c| && (forall i :: 0 <= i < j ==> Less(c[i].key, k))
      ensures Comparable(k, c[j].key)
    {
      LessOrEqualOrMore(k, c[j].key);
      if j > s { LessOrEqualOrMore(k, c[s].key); }
      ComparesExactly(k, c[j].key);
    }
  }

  ghost predicate PutsWell<V>(c: seq<Pair<V>>, k: Key, v: V) {
    Sorted(PutBy(c, k, v)) && AsMap(PutBy(c, k, v)) == AsMap(c)[k := v]
  }

  /** Where k belongs is where the sorted put puts it. */
  lemma BelongingPutsIn<V>(c: seq<Pair<V>>, k: Key, v: V)
    requires Sorted(c) && Belongs(c, k, Stop(c, k), Hits(c, k))
    ensures PutBy(c, k, v) == PutIn(c, k, v) && Displaced(c, k) == Find(c, k) && PutsWell(c, k, v)
  {
    PutRefines(c, k, v);
    hide PutIn, Find, Less, AsMap, Stop;
    if Hits(c, k) { PutOver(c, k, v, Stop(c, k)); } else { PutAt(c, k, v, Stop(c, k)); }
  }

  lemma InsertedBelongs<V>(c: seq<Pair<V>>, k: Key, v: V)
    requires !Hits(c, k) && Sorted(PutBy(c, k, v))
    ensures Belongs(c, k, Stop(c, k), false)
  {
    var i, d := Stop(c, k), PutBy(c, k, v);
    assert d[i] == Pair(k, v);
    forall j | 0 <= j < i ensures Less(c[j].key, k) { assert d[j] == c[j]; }
    if i < |c| { assert d[i + 1] == c[i]; }
  }

  /** An entry with another key leaves the value of k as it was. */
  lemma {:induction false} OtherKey<V>(c: seq<Pair<V>>, i: nat, v: V, k: Key)
    requires i < |c| && c[i].key != k
    ensures Find(c[i := Pair(c[i].key, v)], k) == Find(c, k)
    decreases i
  {
    if i > 0 {
      OtherKey(c[1..], i - 1, v, k);
      assert c[i := Pair(c[i].key, v)][1..] == c[1..][i - 1 := Pair(c[i].key, v)];
    }
  }

  lemma OverwrittenBelongs<V>(c: seq<Pair<V>>, k: Key, a: V, b: V)
    requires Sorted(c) && Hits(c, k) && a != b && PutsWell(c, k, a) && PutsWell(c, k, b)
    ensures Belongs(c, k, Stop(c, k), true)
  {
    var i := Stop(c, k);
    if c[i].key != k {
      OtherKey(c, i, a, k);
      OtherKey(c, i, b, k);
      FindRefines(PutBy(c, k, a), k);
      FindRefines(PutBy(c, k, b), k);
      assert false;
    }
    forall j | 0 <= j < i ensures Less(c[j].key, k) { assert Less(c[j].key, c[i].key); }
  }

  /**
   * Putting k keeps the order and is putting into the map, for two values that differ, exactly when
   * the walk meets no key whose length misleads it.
   */
  lemma PutsExactly<V>(c: seq<Pair<V>>, k: Key, a: V, b: V)
    requires Sorted(c) && a != b
    ensures PutsWell(c, k, a) && PutsWell(c, k, b) <==> Told(c, k)
    ensures Told(c, k) ==> Displaced(c, k) == Find(c, k)
  {
    hide Sorted, AsMap, Stop, PutBy, Told, Find;
    if Told(c, k) {
      ToldBelongs(c, k);
      BelongingPutsIn(c, k, a);
      BelongingPutsIn(c, k, b);
    }
    if PutsWell(c, k, a) && PutsWell(c, k, b) {
      if Hits(c, k) { OverwrittenBelongs(c, k, a, b); } else { InsertedBelongs(c, k, a); }
      BelongsTold(c, k);
    }
  }

  const SHORT: nat := 0x8000_0000

  /** Strings under two gigabytes mislead no walk. */
  lemma ShortIsTold<V>(c: seq<Pair<V>>, k: Key)
    requires |k| < SHORT && forall p :: p in c ==> |p.key| < SHORT
    ensures Told(c, k)
  {
    forall j {:trigger c[j]} | 0 <= j < |c| ensures Comparable(k, c[j].key) { assert c[j] in c; }
  }

  /** The empty key put beside one of 2^32 bytes takes its place: the value goes under the other key. */
  lemma LongKeyWitness(long: Key, v: int, w: int)
    requires |long| == TWO_32
    ensures Sorted([Pair(long, v)]) && !Told([Pair(long, v)], [])
    ensures PutBy([Pair(long, v)], [], w) == [Pair(long, w)] && Find([Pair(long, w)], []) == None
  {
    var c := [Pair(long, v)];
    assert Compare([], long) == 0;
    assert c[0].key == long;
    assert !Comparable([], c[0].key);
    assert Find([Pair(long, w)][1..], []) == None;
  }

  // ---- Runs ----

  datatype Op<V> = PutOp(key: Key, val: V) | RemoveOp(key: Key)

  function RunList<V>(ops: seq<Op<V>>): seq<Pair<V>> {
    if ops == [] then []
    else
      var c := RunList(ops[..|ops| - 1]);
      match ops[|ops| - 1]
      case PutOp(k, v) => PutBy(c, k, v)
      case RemoveOp(k) => Drop(c, k)
  }

  function RunMap<V>(ops: seq<Op<V>>): map<Key, V> {
    if ops == [] then map[]
    else
      var m := RunMap(ops[..|ops| - 1]);
      match ops[|ops| - 1]
      case PutOp(k, v) => m[k := v]
      case RemoveOp(k) => m - {k}
  }

  /** No put of the run is misled. */
  ghost predicate RunTold<V>(ops: seq<Op<V>>) {
    ops != [] ==>
      && RunTold(ops[..|ops| - 1])
      && match ops[|ops| - 1]
         case PutOp(k, v) => Told(RunList(ops[..|ops| - 1]), k)
         case RemoveOp(k) => true
  }

  lemma {:induction false} RunsRefine<V>(ops: seq<Op<V>>)
    requires RunTold(ops)
    ensures Sorted(RunList(ops)) && AsMap(RunList(ops)) == RunMap(ops)
    decreases |ops|
  {
    if ops != [] {
      hide Sorted, AsMap, Told, PutBy, Drop;
      var c := RunList(ops[..|ops| - 1]);
      RunsRefine(ops[..|ops| - 1]);
      match ops[|ops| - 1]
      case PutOp(k, v) =>
        ToldBelongs(c, k);
        BelongingPutsIn(c, k, v);
      case RemoveOp(k) => DropRefines(c, k);
    }
  }

  /** Whatever the history, one map is one list. */
  lemma RunsAreCanonical<V>(ops: seq<Op<V>>, others: seq<Op<V>>)
    requires RunTold(ops) && RunTold(others) && RunMap(ops) == RunMap(others)
    ensures RunList(ops) == RunList(others)
  {
    RunsRefine(ops);
    RunsRefine(others);
    Canonical(RunList(ops), RunList(others));
  }

  ghost predicate ShortRun<V>(ops: seq<Op<V>>) {
    forall o :: o in ops && o.PutOp? ==> |o.key| < SHORT
  }

  /** A run that only puts strings under two gigabytes is not misled. */
  lemma {:induction false} ShortRunsAreTold<V>(ops: seq<Op<V>>)
    requires ShortRun(ops)
    ensures RunTold(ops) && forall p :: p in RunList(ops) ==> |p.key| < SHORT
    decreases |ops|
  {
    if ops != [] {
      var before, o := ops[..|ops| - 1], ops[|ops| - 1];
      assert o in ops;
      forall b | b in before && b.PutOp? ensures |b.key| < SHORT { assert b in ops; }
      ShortRunsAreTold(before);
      match o
      case PutOp(k, v) =>
        ShortIsTold(RunList(before), k);
        PutByKeys(RunList(before), k, v);
      case RemoveOp(k) => DropKeys(RunList(before), k);
    }
  }

  lemma PutByKeys<V>(c: seq<Pair<V>>, k: Key, v: V)
    ensures forall p :: p in PutBy(c, k, v) ==> p.key == k || exists q :: q in c && q.key == p.key
  {
    forall p | p in PutBy(c, k, v) ensures p.key == k || exists q :: q in c && q.key == p.key {
      var i, d := Stop(c, k), PutBy(c, k, v);
      var j :| 0 <= j < |d| && d[j] == p;
      if Hits(c, k) {
        assert c[j] in c && c[j].key == p.key;
      } else if j != i {
        assert p == c[if j < i then j else j - 1];
        assert p in c;
      }
    }
  }

  lemma {:induction false} DropKeys<V>(c: seq<Pair<V>>, k: Key)
    ensures forall p :: p in Drop(c, k) ==> p in c
    decreases |c|
  {
    if c != [] { DropKeys(c[1..], k); }
  }

  // ---- The linked list ----

  class Entry<V> {
    const key: Key
    var val: V
    var next: Entry?<V>

    constructor (key: Key, val: V, next: Entry?<V>)
      ensures this.key == key && this.val == val && this.next == next
    {
      this.key := key;
      this.val := val;
      this.next := next;
    }
  }

  function EntryAt<V>(es: seq<Entry<V>>, i: int): Entry?<V> {
    if 0 <= i < |es| then es[i] else null
  }

  ghost function PairsOf<V>(es: seq<Entry<V>>): (c: seq<Pair<V>>)
    reads es
    ensures |c| == |es| && forall i {:trigger c[i]} {:trigger es[i]} :: 0 <= i < |es| ==> c[i] == Pair(es[i].key, es[i].val)
  {
    seq(|es|, i requires 0 <= i < |es| reads es => Pair(es[i].key, es[i].val))
  }

  lemma PairsJoin<V>(a: seq<Entry<V>>, b: seq<Entry<V>>)
    ensures PairsOf(a + b) == PairsOf(a) + PairsOf(b)
  {
  }

  lemma PairsSplit<V>(es: seq<Entry<V>>, i: nat)
    requires i <= |es|
    ensures PairsOf(es[..i]) == PairsOf(es)[..i] && PairsOf(es[i..]) == PairsOf(es)[i..]
  {
  }

  /** `spine` is the list from the head, which the program does not keep. */
  class Dictionary<V> {
    var head: Entry?<V>
    ghost var spine: seq<Entry<V>>

    ghost predicate Linked()
      reads this, spine
    {
      && (forall i, j :: 0 <= i < j < |spine| ==> spine[i] != spine[j])
      && head == EntryAt(spine, 0)
      && (forall i {:trigger spine[i]} :: 0 <= i < |spine| ==> spine[i].next == EntryAt(spine, i + 1))
    }

    ghost function Contents(): seq<Pair<V>>
      reads this, spine
    {
      PairsOf(spine)
    }

    constructor ()
      ensures Linked() && Contents() == [] && spine == []
    {
      head := null;
      spine := [];
    }

    /** `Dict_size`, with a counter that wraps: right exactly below 2^31 entries. */
    method Size() returns (n: int)
      requires Linked()
      ensures n == Int32(|Contents()|) && (n == |Contents()| <==> |Contents()| < SHORT)
    {
      var entry := head;
      n := 0;
      ghost var i := 0;
      while entry != null
        invariant i <= |spine| && entry == EntryAt(spine, i) && n == Int32(i)
        decreases |spine| - i
      {
        assert entry == spine[i];
        entry := entry.next;
        OneMore(i);
        n := Int32(n + 1);
        i := i + 1;
      }
      CountFits(i);
    }

    /** `lookupObject` with a key that is not null. */
    method Lookup(key: Key) returns (r: Option<V>)
      requires Linked()
      ensures r == if key in AsMap(Contents()) then Some(AsMap(Contents())[key]) else None
    {
      FindRefines(Contents(), key);
      var curr := head;
      ghost var i := 0;
      while curr != null
        invariant i <= |spine| && curr == EntryAt(spine, i)
        invariant forall j :: 0 <= j < i ==> spine[j].key != key
        decreases |spine| - i
      {
        assert curr == spine[i];
        if curr.key == key {
          FoundAt(Contents(), key, i);
          return Some(curr.val);
        }
        curr := curr.next;
        i := i + 1;
      }
      NotThere(Contents(), key);
      return None;
    }

    /** The walk of `putObject`; `prev` stands for the link it came by, `same` for an entry it takes for the key. */
    method Walk(key: Key) returns (prev: Entry?<V>, current: Entry?<V>, same: bool, ghost i: nat)
      requires Linked()
      ensures i == Stop(Contents(), key) && same == Hits(Contents(), key)
      ensures current == EntryAt(spine, i) && prev == EntryAt(spine, i - 1)
    {
      prev, current, same, i := null, head, false, 0;
      ghost var c := Contents();
      while current != null
        invariant i <= |spine| && current == EntryAt(spine, i) && prev == EntryAt(spine, i - 1)
        invariant i <= Stop(c, key)
        decreases |spine| - i
      {
        assert current == spine[i];
        assert c[i].key == current.key;
        var cmp := CompareStrings(key, current.key);
        if cmp < 0 {
          return;
        } else if cmp == 0 {
          same := true;
          return;
        }
        prev := current;
        current := current.next;
        i := i + 1;
      }
    }

    /** `putObject` */
    method Put(key: Key, value: V) returns (displaced: Option<V>)
      requires Linked()
      modifies this, spine
      ensures Linked() && Contents() == PutBy(old(Contents()), key, value)
      ensures displaced == Displaced(old(Contents()), key)
      ensures forall e :: e in spine ==> e in old(spine) || fresh(e)
    {
      hide PairsOf, Linked, Stop;
      var prev, current, same, i := Walk(key);
      if same {
        displaced := Some(current.val);
        Overwrite(current, value, i);
      } else {
        var entry := new Entry(key, value, current);
        Insert(prev, entry, i);
        displaced := None;
      }
    }

    method Overwrite(current: Entry<V>, value: V, ghost i: nat)
      requires Linked() && i < |spine| && current == spine[i]
      modifies spine
      ensures Linked() && spine == old(spine)
      ensures Contents() == old(Contents())[i := Pair(current.key, value)]
    {
      current.val := value;
    }

    method Insert(prev: Entry?<V>, entry: Entry<V>, ghost i: nat)
      requires Linked() && i <= |spine| && prev == EntryAt(spine, i - 1)
      requires entry !in spine && entry.next == EntryAt(spine, i)
      modifies this, spine
      ensures Linked() && spine == old(spine)[..i] + [entry] + old(spine)[i..]
      ensures Contents() == old(Contents())[..i] + [Pair(entry.key, entry.val)] + old(Contents())[i..]
    {
      hide Linked;
      LinkIn(prev, entry, i);
      assert PairsOf(old(spine)) == old(PairsOf(spine));
      PairsJoin(old(spine)[..i] + [entry], old(spine)[i..]);
      PairsJoin(old(spine)[..i], [entry]);
      PairsSplit(old(spine), i);
      assert PairsOf([entry]) == [Pair(entry.key, entry.val)];
    }

    /** Storing the new entry in the link the walk came by. */
    method LinkIn(prev: Entry?<V>, entry: Entry<V>, ghost i: nat)
      requires Linked() && i <= |spine| && prev == EntryAt(spine, i - 1)
      requires entry !in spine && entry.next == EntryAt(spine, i)
      modifies this, spine
      ensures Linked() && spine == old(spine)[..i] + [entry] + old(spine)[i..]
      ensures forall e :: e in old(spine) ==> e.val == old(e.val)
    {
      if prev == null {
        head := entry;
      } else {
        prev.next := entry;
      }
      ghost var before := spine;
      spine := spine[..i] + [entry] + spine[i..];
      forall k {:trigger spine[k]} | 0 <= k < |spine| ensures spine[k].next == EntryAt(spine, k + 1) {
        if k < i { assert spine[k] == before[k]; } else if k > i { assert spine[k] == before[k - 1]; }
      }
    }

    /** Storing the next entry in the link the walk came by. */
    method LinkOut(prev: Entry?<V>, current: Entry<V>, ghost i: nat)
      requires Linked() && i < |spine| && prev == EntryAt(spine, i - 1) && current == spine[i]
      modifies this, spine
      ensures Linked() && spine == old(spine)[..i] + old(spine)[i + 1..]
      ensures forall e :: e in old(spine) ==> e.val == old(e.val)
    {
      if prev == null {
        head := current.next;
      } else {
        prev.next := current.next;
      }
      ghost var before := spine;
      spine := spine[..i] + spine[i + 1..];
      forall k {:trigger spine[k]} | 0 <= k < |spine| ensures spine[k].next == EntryAt(spine, k + 1) {
        if k < i { assert spine[k] == before[k]; } else { assert spine[k] == before[k + 1]; }
      }
    }

    /** The walk of `Dict_remove`. */
    method Seek(key: Key) returns (prev: Entry?<V>, current: Entry?<V>, ghost i: nat)
      requires Linked()
      ensures i <= |spine| && current == EntryAt(spine, i) && prev == EntryAt(spine, i - 1)
      ensures forall j :: 0 <= j < i ==> spine[j].key != key
      ensures current != null ==> current.key == key
    {
      prev, current, i := null, head, 0;
      while current != null
        invariant i <= |spine| && current == EntryAt(spine, i) && prev == EntryAt(spine, i - 1)
        invariant forall j :: 0 <= j < i ==> spine[j].key != key
        decreases |spine| - i
      {
        assert current == spine[i];
        if current.key == key {
          return;
        }
        prev := current;
        current := current.next;
        i := i + 1;
      }
    }

    /** `Dict_remove` */
    method Remove(key: Key) returns (removed: bool)
      requires Linked()
      modifies this, spine
      ensures Linked() && Contents() == Drop(old(Contents()), key)
      ensures removed == (key in AsMap(old(Contents())))
      ensures forall e :: e in spine ==> e in old(spine)
    {
      hide Less, Drop, Find, AsMap, Sorted, PairsOf, Linked;
      ghost var c := Contents();
      FindRefines(c, key);
      var prev, current, i := Seek(key);
      if current == null {
        NotThere(c, key);
        return false;
      }
      FoundAt(c, key, i);
      DropAt(c, key, i);
      LinkOut(prev, current, i);
      assert PairsOf(old(spine)) == c;
      PairsJoin(old(spine)[..i], old(spine)[i + 1..]);
      PairsSplit(old(spine), i);
      PairsSplit(old(spine), i + 1);
      return true;
    }
  }

  lemma {:induction false} DropAt<V>(c: seq<Pair<V>>, k: Key, i: nat)
    requires i < |c| && c[i].key == k && forall j :: 0 <= j < i ==> c[j].key != k
    ensures Drop(c, k) == c[..i] + c[i + 1..]
    decreases i
  {
    if i > 0 {
      DropAt(c[1..], k, i - 1);
      assert [c[0]] + (c[1..][..i - 1] + c[1..][i..]) == c[..i] + c[i + 1..];
    }
  }
}
