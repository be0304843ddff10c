/** Sums over finite maps and lists of blocks. */
module Sums {
  import opened Links

  /** A block by its address and its size, header included. */
  datatype Block = Block(at: Id, size: nat)

  function Bytes(s: seq<Block>): nat {
    if s == [] then 0 else s[0].size + Bytes(s[1..])
  }

  lemma {:induction false} BytesJoin(s: seq<Block>, r: seq<Block>)
    ensures Bytes(s + r) == Bytes(s) + Bytes(r)
    decreases |s|
  {
    if s == [] {
      assert s + r == r;
    } else {
      BytesJoin(s[1..], r);
      assert (s + r)[1..] == s[1..] + r;
    }
  }

  lemma BytesReplaced(s: seq<Block>, i: nat, mid: seq<Block>)
    requires i < |s|
    ensures Bytes(s[..i] + mid + s[i + 1..]) == Bytes(s) - s[i].size + Bytes(mid)
  {
    BytesJoin(s[..i] + mid, s[i + 1..]);
    BytesJoin(s[..i], mid);
    BytesJoin(s[..i], s[i..]);
    assert s == s[..i] + s[i..];
    assert s[i..][1..] == s[i + 1..];
  }

  lemma {:induction false} BlockWithinSum(s: seq<Block>, i: nat)
    requires i < |s|
    ensures s[i].size <= Bytes(s)
    decreases i
  {
    if i > 0 { BlockWithinSum(s[1..], i - 1); }
  }

  ghost function Sum(keys: set<Id>, m: map<Id, nat>): nat
    requires keys <= m.Keys
  {
    if keys == {} then 0
    else
      var k :| k in keys;
      m[k] + Sum(keys - {k}, m)
  }

  lemma {:induction false} SumTakes(keys: set<Id>, m: map<Id, nat>, k: Id)
    requires keys <= m.Keys && k in keys
    ensures Sum(keys, m) == m[k] + Sum(keys - {k}, m)
    decreases keys
  {
    var j :| j in keys && Sum(keys, m) == m[j] + Sum(keys - {j}, m);
    if j != k {
      SumTakes(keys - {j}, m, k);
      SumTakes(keys - {k}, m, j);
      assert keys - {j} - {k} == keys - {k} - {j};
    }
  }

  lemma SumOne(m: map<Id, nat>, x: Id)
    requires x in m
    ensures Sum({x}, m) == m[x]
  {
    SumTakes({x}, m, x);
    assert {x} - {x} == {};
  }

  lemma {:induction false} SumAgrees(keys: set<Id>, m: map<Id, nat>, m': map<Id, nat>)
    requires keys <= m.Keys && keys <= m'.Keys && forall k :: k in keys ==> m'[k] == m[k]
    ensures Sum(keys, m') == Sum(keys, m)
    decreases keys
  {
    if keys != {} {
      var k :| k in keys;
      SumTakes(keys, m, k);
      SumTakes(keys, m', k);
      SumAgrees(keys - {k}, m, m');
    }
  }

  lemma {:induction false} SumSplits(keys: set<Id>, some: set<Id>, m: map<Id, nat>)
    requires some <= keys <= m.Keys
    ensures Sum(keys, m) == Sum(some, m) + Sum(keys - some, m)
    decreases some
  {
    if some == {} {
      assert keys - some == keys;
    } else {
      var k :| k in some;
      SumTakes(keys, m, k);
      SumTakes(some, m, k);
      SumSplits(keys - {k}, some - {k}, m);
      assert keys - {k} - (some - {k}) == keys - some;
    }
  }

  /** Changing one value changes the sum by the difference. */
  lemma SumUpdates(m: map<Id, nat>, k: Id, v: nat)
    requires k in m
    ensures Sum(m[k := v].Keys, m[k := v]) == Sum(m.Keys, m) - m[k] + v
  {
    var m' := m[k := v];
    assert m'.Keys == m.Keys;
    SumTakes(m.Keys, m, k);
    SumTakes(m'.Keys, m', k);
    SumAgrees(m.Keys - {k}, m, m');
  }

  /** A new entry adds its value. */
  lemma SumExtends(m: map<Id, nat>, k: Id, v: nat)
    requires k !in m
    ensures Sum(m[k := v].Keys, m[k := v]) == Sum(m.Keys, m) + v
  {
    var m' := m[k := v];
    SumTakes(m'.Keys, m', k);
    assert m'.Keys - {k} == m.Keys;
    SumAgrees(m.Keys, m, m');
  }
}
