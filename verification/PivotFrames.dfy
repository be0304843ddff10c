/**
 * What visiting some allocators leaves alone: the lists the walk is still going along, and the levels
 * it has not reached.
 */
module PivotFrames {
  import opened Links
  import opened Ownership
  import opened Pivot

  /** The list of z ends with `rest`. */
  ghost predicate EndsWith(s: seq<Id>, rest: seq<Id>) {
    |rest| <= |s| && s[|s| - |rest|..] == rest
  }

  lemma {:induction false} RemoveKeepsEnd(s: seq<Id>, rest: seq<Id>, c: Id)
    requires EndsWith(s, rest) && c !in rest
    ensures EndsWith(Remove(s, c), rest)
    decreases |s|
  {
    if |s| == |rest| {
      assert s == rest;
      RemoveAbsent(s, c);
    } else {
      assert s[1..][|s| - 1 - |rest|..] == rest;
      if s[0] != c {
        RemoveKeepsEnd(s[1..], rest, c);
        EndOfLonger(s[0], Remove(s[1..], c), rest);
      }
    }
  }

  lemma EndOfLonger(x: Id, s: seq<Id>, rest: seq<Id>)
    requires EndsWith(s, rest)
    ensures EndsWith([x] + s, rest)
  {
    assert ([x] + s)[1 + |s| - |rest|..] == s[|s| - |rest|..];
  }

  /** The children of a freeing allocator after a visit: at most the visited one is gone. */
  lemma VisitKids(t: Tree, root: Id, c: Id, z: Id)
    requires Structure(t, root) && c in t && z in t && t[z].freeing
    ensures var t' := Visit(t, c).0;
            && z in t' && t'[z].freeing
            && (t'[z].kids == t[z].kids || (t[c].parent == z && t'[z].kids == Remove(t[z].kids, c)))
  {
    if t[c].freeing {
    } else if t[c].adopters != [] {
      var p := t[c].adopters[0];
      assert p in t[c].adopters;
      AdopterIsLive(t, root, c, p);
    } else {
      DropFacts(t, root, c);
    }
  }

  lemma VisitParents(t: Tree, root: Id, c: Id, n: Id)
    requires Structure(t, root) && c in t && n in t && n != c
    ensures n in Visit(t, c).0 && Visit(t, c).0[n].parent == t[n].parent
  {
    if t[c].freeing {
    } else if t[c].adopters != [] {
      assert t[c].adopters[0] in t[c].adopters;
    } else {
      DropFacts(t, root, c);
    }
  }

  /** A freeing allocator none of whose children is visited keeps them all. */
  lemma {:induction false} VisitAllKids(t: Tree, root: Id, ns: seq<Id>, z: Id)
    requires Structure(t, root) && AllIn(ns, t) && Distinct(ns) && z in t && t[z].freeing
    requires forall n :: n in ns ==> t[n].parent != z
    ensures var t' := VisitAll(t, root, ns).0; z in t' && t'[z].freeing && t'[z].kids == t[z].kids
    decreases |ns|
  {
    if ns != [] {
      AllInSplits(ns, t, t);
      var c, t1 := ns[0], Visit(t, ns[0]).0;
      VisitKeepsStructure(t, root, c);
      AllInSplits(ns, t, t1);
      VisitKids(t, root, c, z);
      forall n | n in ns[1..] ensures t1[n].parent != z {
        assert n in ns && n != c;
        VisitParents(t, root, c, n);
      }
      VisitAllKids(t1, root, ns[1..], z);
    }
  }

  /** The part of a freeing allocator's list that holds no visited allocator stays its end. */
  lemma {:induction false} VisitAllKeepsEnd(t: Tree, root: Id, ns: seq<Id>, z: Id, rest: seq<Id>)
    requires Structure(t, root) && AllIn(ns, t) && z in t && t[z].freeing && EndsWith(t[z].kids, rest)
    requires forall n :: n in ns ==> n !in rest
    ensures var t' := VisitAll(t, root, ns).0; z in t' && t'[z].freeing && EndsWith(t'[z].kids, rest)
    decreases |ns|
  {
    if ns != [] {
      AllInSplits(ns, t, t);
      var c, t1 := ns[0], Visit(t, ns[0]).0;
      assert c in ns;
      VisitKeepsStructure(t, root, c);
      AllInSplits(ns, t, t1);
      VisitKids(t, root, c, z);
      RemoveKeepsEnd(t[z].kids, rest, c);
      VisitAllKeepsEnd(t1, root, ns[1..], z, rest);
    }
  }

  lemma VisitAllStep(t: Tree, root: Id, c: Id, rest: seq<Id>, ns: seq<Id>, all: (Tree, nat)) returns (t1: Tree, m: nat)
    requires Structure(t, root) && AllIn(ns, t) && ns != [] && ns[0] == c && ns[1..] == rest
    requires all == VisitAll(t, root, ns)
    ensures c in t && t1 == Visit(t, c).0 && m == Visit(t, c).1
    ensures Structure(t1, root) && t1.Keys == t.Keys && AllIn(rest, t1)
    ensures all.0 == VisitAll(t1, root, rest).0 && all.1 == m + VisitAll(t1, root, rest).1
  {
    AllInSplits(ns, t, t);
    VisitKeepsStructure(t, root, c);
    t1, m := Visit(t, c).0, Visit(t, c).1;
    AllInSplits(ns, t, t1);
  }

  /** Visiting a and then b; `first` and `both` are what visiting a and the two give. */
  lemma {:induction false} VisitAllJoins(
    t: Tree, root: Id, a: seq<Id>, b: seq<Id>, ab: seq<Id>, first: (Tree, nat), both: (Tree, nat))
    requires Structure(t, root) && AllIn(a, t) && AllIn(b, t) && AllIn(ab, t) && ab == a + b
    requires first == VisitAll(t, root, a) && both == VisitAll(t, root, ab)
    ensures Structure(first.0, root) && AllIn(b, first.0)
    ensures both.0 == VisitAll(first.0, root, b).0 && both.1 == first.1 + VisitAll(first.0, root, b).1
    decreases |a|
  {
    if a == [] {
      assert ab == b;
    } else {
      var rest := a[1..] + b;
      assert ab[1..] == rest && ab[0] == a[0];
      var t1, m := VisitAllStep(t, root, a[0], rest, ab, both);
      var t2, k := VisitAllStep(t, root, a[0], a[1..], a, first);
      VisitAllJoins(t1, root, a[1..], b, rest, VisitAll(t1, root, a[1..]), VisitAll(t1, root, rest));
    }
  }

  lemma VisitNone(t: Tree, root: Id, ns: seq<Id>)
    requires Structure(t, root) && ns == []
    ensures AllIn(ns, t) && VisitAll(t, root, ns) == (t, 0)
  {
  }

  // ---- Levels ----

  /** Every allocator on the first d levels from x on is freeing. */
  ghost predicate UpperFreeing(t: Tree, root: Id, x: Id, d: nat) {
    forall z, e: nat {:trigger Below(t, root, x, z, e)} :: e < d && Below(t, root, x, z, e) ==> t[z].freeing
  }

  ghost predicate SameKidsAbove(t: Tree, t': Tree, root: Id, x: Id, d: nat) {
    forall z, e: nat {:trigger Below(t, root, x, z, e)} :: e < d && Below(t, root, x, z, e) ==>
      z in t' && t'[z].kids == t[z].kids
  }

  lemma KidBelow(t: Tree, root: Id, x: Id, k: Id, z: Id, e: nat)
    requires Structure(t, root) && x in t && k in t[x].kids && Below(t, root, k, z, e)
    ensures Below(t, root, x, z, e + 1)
  {
    BelowSplits(t, root, x, z, e + 1);
  }

  lemma SameKidsOfKid(t: Tree, t': Tree, root: Id, x: Id, d: nat, k: Id)
    requires Structure(t, root) && x in t && k in t[x].kids && d > 0 && SameKidsAbove(t, t', root, x, d)
    ensures SameKidsAbove(t, t', root, k, d - 1)
  {
    forall z, e: nat {:trigger Below(t, root, k, z, e)} | e < d - 1 && Below(t, root, k, z, e)
      ensures z in t' && t'[z].kids == t[z].kids
    {
      KidBelow(t, root, x, k, z, e);
    }
  }

  lemma {:induction false} LevelStays(t: Tree, t': Tree, root: Id, x: Id, d: nat)
    requires Structure(t, root) && KidsPointBack(t', root) && x in t && x in t' && SameKidsAbove(t, t', root, x, d)
    ensures Level(t', root, x, d) == Level(t, root, x, d)
    decreases d, 0
  {
    if d > 0 {
      assert Below(t, root, x, x, 0);
      forall k | k in t[x].kids ensures k in t && k in t' && SameKidsAbove(t, t', root, k, d - 1) {
        SameKidsOfKid(t, t', root, x, d, k);
        assert k in t'[x].kids;
      }
      LevelsStay(t, t', root, t[x].kids, d - 1);
    }
  }

  lemma {:induction false} LevelsStay(t: Tree, t': Tree, root: Id, xs: seq<Id>, d: nat)
    requires Structure(t, root) && KidsPointBack(t', root)
    requires forall x :: x in xs ==> x in t && x in t' && SameKidsAbove(t, t', root, x, d)
    ensures LevelsOf(t', root, xs, d) == LevelsOf(t, root, xs, d)
    decreases d, 1 + |xs|
  {
    if xs != [] {
      assert xs[0] in xs;
      LevelStays(t, t', root, xs[0], d);
      LevelsStay(t, t', root, xs[1..], d);
    }
  }

  lemma {:induction false} LevelsJoin(t: Tree, root: Id, xs: seq<Id>, ys: seq<Id>, d: nat)
    requires KidsPointBack(t, root) && (forall x :: x in xs ==> x in t) && (forall y :: y in ys ==> y in t)
    ensures (forall x :: x in xs + ys ==> x in t)
    ensures LevelsOf(t, root, xs + ys, d) == LevelsOf(t, root, xs, d) + LevelsOf(t, root, ys, d)
    decreases |xs|
  {
    if xs == [] {
      assert xs + ys == ys;
    } else {
      LevelsJoin(t, root, xs[1..], ys, d);
      assert (xs + ys)[1..] == xs[1..] + ys;
    }
  }

  // ---- Going along the children of one allocator ----

  lemma VisitKeepsRanked(t: Tree, root: Id, rank: map<Id, nat>, c: Id)
    requires Structure(t, root) && c in t && Ranked(LinkSet(t, root), rank)
    ensures Ranked(LinkSet(Visit(t, c).0, root), rank)
  {
    VisitKeepsStructure(t, root, c);
    if t[c].freeing {
    } else if t[c].adopters != [] {
      PivotLinksAreOld(t, root, c);
      OldLinksRanked(t, Visit(t, c).0, root, rank);
    } else {
      MarkLinksAreOld(t, root, c);
      OldLinksRanked(t, Visit(t, c).0, root, rank);
    }
  }

  lemma MarkLinksAreOld(t: Tree, root: Id, c: Id)
    requires Structure(t, root) && c in t && !t[c].freeing && t[c].adopters == []
    ensures OnlyOldLinks(t, Visit(t, c).0, root)
  {
    var t' := Visit(t, c).0;
    MarkLinks(t, root, c);
    forall a, n {:trigger HasLink(t', root, a, n)} | HasLink(t', root, a, n) ensures HasLink(t, root, a, n) {
      assert t'[n].parent == t[n].parent;
    }
  }

  lemma {:induction false} VisitAllKeepsRanked(t: Tree, root: Id, rank: map<Id, nat>, ns: seq<Id>)
    requires Structure(t, root) && AllIn(ns, t) && Ranked(LinkSet(t, root), rank)
    ensures Ranked(LinkSet(VisitAll(t, root, ns).0, root), rank)
    decreases |ns|
  {
    if ns != [] {
      var t1, m := VisitAllStep(t, root, ns[0], ns[1..], ns, VisitAll(t, root, ns));
      VisitKeepsRanked(t, root, rank, ns[0]);
      VisitAllKeepsRanked(t1, root, rank, ns[1..]);
    }
  }

  lemma KidsAreIn(t: Tree, root: Id, x: Id, k: nat)
    requires KidsPointBack(t, root) && x in t && k <= |t[x].kids|
    ensures forall y :: y in t[x].kids[..k] ==> y in t[x].kids && y in t
    ensures k < |t[x].kids| ==> t[x].kids[k] in t && t[t[x].kids[k]].parent == x && t[x].kids[k] != root
  {
    forall y | y in t[x].kids[..k] ensures y in t[x].kids && y in t { assert y in t[x].kids; }
    if k < |t[x].kids| { assert t[x].kids[k] in t[x].kids; }
  }

  lemma KidIsBelow(t: Tree, root: Id, x: Id, k: nat)
    requires KidsPointBack(t, root) && x in t && k < |t[x].kids|
    ensures Below(t, root, x, t[x].kids[k], 1)
  {
    KidsAreIn(t, root, x, k);
    assert Below(t, root, x, x, 0);
  }

  /** The level d below the first k children of x. */
  ghost function Earlier(t: Tree, root: Id, x: Id, k: nat, d: nat): seq<Id>
    requires KidsPointBack(t, root) && x in t && k <= |t[x].kids|
  {
    KidsAreIn(t, root, x, k);
    LevelsOf(t, root, t[x].kids[..k], d)
  }

  lemma EarlierMember(t: Tree, root: Id, x: Id, k: nat, d: nat, n: Id) returns (j: nat)
    requires Structure(t, root) && x in t && k <= |t[x].kids| && n in Earlier(t, root, x, k, d)
    ensures j < k && Below(t, root, t[x].kids[j], n, d) && Below(t, root, x, n, d + 1)
  {
    var ks := t[x].kids;
    KidsAreIn(t, root, x, k);
    LevelsMembers(t, root, ks[..k], d, n);
    var y :| y in ks[..k] && Below(t, root, y, n, d);
    j :| 0 <= j < k && ks[j] == y;
    KidBelow(t, root, x, y, n, d);
  }

  lemma EarlierFacts(t: Tree, root: Id, x: Id, k: nat, d: nat)
    requires Structure(t, root) && x in t && k <= |t[x].kids|
    ensures AllIn(Earlier(t, root, x, k, d), t) && Distinct(Earlier(t, root, x, k, d))
  {
    var ns := Earlier(t, root, x, k, d);
    forall n {:trigger n in ns} | n in ns ensures n in t {
      var j := EarlierMember(t, root, x, k, d, n);
    }
    assert Distinct(t[x].kids);
    KidsAreIn(t, root, x, k);
    LevelsDistinct(t, root, t[x].kids[..k], d);
  }

  /** Nothing visited under earlier children is a later child. */
  lemma EarlierNotLater(t: Tree, root: Id, rank: map<Id, nat>, x: Id, k: nat, d: nat, i: nat)
    requires Structure(t, root) && rank.Keys == t.Keys && Ranked(LinkSet(t, root), rank)
    requires x in t && k <= i < |t[x].kids|
    ensures t[x].kids[i] !in Earlier(t, root, x, k, d)
  {
    var n := t[x].kids[i];
    KidIsBelow(t, root, x, i);
    if n in Earlier(t, root, x, k, d) {
      var j := EarlierMember(t, root, x, k, d, n);
      DepthUnique(t, root, rank, x, n, 1, d + 1);
    }
  }

  /** Nothing visited under earlier children hangs from an upper level under a later child. */
  lemma EarlierElsewhere(t: Tree, root: Id, rank: map<Id, nat>, x: Id, k: nat, d: nat, n: Id, z: Id, e: nat)
    requires Structure(t, root) && rank.Keys == t.Keys && Ranked(LinkSet(t, root), rank)
    requires x in t && k < |t[x].kids| && n in Earlier(t, root, x, k, d)
    requires e < d && Below(t, root, t[x].kids[k], z, e)
    ensures n in t && t[n].parent != z
  {
    var j := EarlierMember(t, root, x, k, d, n);
    if t[n].parent == z { SameDepthSameKid(t, root, rank, x, k, j, d, n, e); }
  }

  lemma SameDepthSameKid(t: Tree, root: Id, rank: map<Id, nat>, x: Id, k: nat, j: nat, d: nat, n: Id, e: nat)
    requires Structure(t, root) && rank.Keys == t.Keys && Ranked(LinkSet(t, root), rank)
    requires x in t && k < |t[x].kids| && j < |t[x].kids|
    requires Below(t, root, t[x].kids[j], n, d) && n != root && Below(t, root, t[x].kids[k], t[n].parent, e)
    ensures j == k
  {
    hide Structure, Ranked, Below;
    OneBelow(t, root, t[x].kids[k], t[x].kids[j], n, e, d);
    SameDepth(t, root, rank, x, k, j, d, n, e + 1);
    BelowUnique(t, root, t[x].kids[k], t[x].kids[j], n, d);
    KidOnce(t, root, x, j, k);
  }

  lemma OneBelow(t: Tree, root: Id, y: Id, z: Id, n: Id, e: nat, d: nat)
    requires Below(t, root, z, n, d) && n != root && Below(t, root, y, t[n].parent, e)
    ensures Below(t, root, y, n, e + 1)
  {
  }

  lemma KidOnce(t: Tree, root: Id, x: Id, j: nat, k: nat)
    requires Structure(t, root) && x in t && j < |t[x].kids| && k < |t[x].kids| && t[x].kids[j] == t[x].kids[k]
    ensures j == k
  {
    assert Distinct(t[x].kids);
  }

  lemma SameDepth(t: Tree, root: Id, rank: map<Id, nat>, x: Id, k: nat, j: nat, d: nat, n: Id, e: nat)
    requires Structure(t, root) && rank.Keys == t.Keys && Ranked(LinkSet(t, root), rank)
    requires x in t && k < |t[x].kids| && j < |t[x].kids|
    requires Below(t, root, t[x].kids[j], n, d) && Below(t, root, t[x].kids[k], n, e)
    ensures e == d
  {
    KidsAreIn(t, root, x, k);
    KidsAreIn(t, root, x, j);
    KidBelow(t, root, x, t[x].kids[k], n, e);
    KidBelow(t, root, x, t[x].kids[j], n, d);
    DepthUnique(t, root, rank, x, n, e + 1, d + 1);
  }

  /** An allocator on an upper level under child k, once the earlier children are done. */
  lemma UpperStays(t: Tree, root: Id, rank: map<Id, nat>, x: Id, k: nat, d: nat, t': Tree, z: Id, e: nat)
    requires Structure(t, root) && rank.Keys == t.Keys && Ranked(LinkSet(t, root), rank)
    requires x in t && k < |t[x].kids| && UpperFreeing(t, root, x, d + 1)
    requires AllIn(Earlier(t, root, x, k, d), t) && t' == VisitAll(t, root, Earlier(t, root, x, k, d)).0
    requires e < d && Below(t, root, t[x].kids[k], z, e)
    ensures z in t' && t'[z].freeing && t'[z].kids == t[z].kids
  {
    var ns := Earlier(t, root, x, k, d);
    EarlierFacts(t, root, x, k, d);
    assert t[x].kids[k] in t[x].kids;
    KidBelow(t, root, x, t[x].kids[k], z, e);
    forall n | n in ns ensures t[n].parent != z {
      EarlierElsewhere(t, root, rank, x, k, d, n, z, e);
    }
    VisitAllKids(t, root, ns, z);
  }

  lemma KidLevelsStay(t: Tree, root: Id, rank: map<Id, nat>, x: Id, k: nat, d: nat, t': Tree)
    requires Structure(t, root) && rank.Keys == t.Keys && Ranked(LinkSet(t, root), rank)
    requires x in t && k < |t[x].kids| && UpperFreeing(t, root, x, d + 1)
    requires AllIn(Earlier(t, root, x, k, d), t) && t' == VisitAll(t, root, Earlier(t, root, x, k, d)).0
    ensures t[x].kids[k] in t && SameKidsAbove(t, t', root, t[x].kids[k], d)
  {
    var c := t[x].kids[k];
    assert c in t[x].kids;
    forall z, e: nat {:trigger Below(t, root, c, z, e)} | e < d && Below(t, root, c, z, e)
      ensures z in t' && t'[z].kids == t[z].kids
    {
      UpperStays(t, root, rank, x, k, d, t', z, e);
    }
  }

  lemma KidUpperFreeing(t: Tree, root: Id, rank: map<Id, nat>, x: Id, k: nat, d: nat, t': Tree)
    requires Structure(t, root) && rank.Keys == t.Keys && Ranked(LinkSet(t, root), rank)
    requires x in t && k < |t[x].kids| && UpperFreeing(t, root, x, d + 1)
    requires AllIn(Earlier(t, root, x, k, d), t) && t' == VisitAll(t, root, Earlier(t, root, x, k, d)).0
    requires Structure(t', root) && t'.Keys == t.Keys
    ensures t[x].kids[k] in t && UpperFreeing(t', root, t[x].kids[k], d)
    ensures Level(t', root, t[x].kids[k], d) == Level(t, root, t[x].kids[k], d)
  {
    var c := t[x].kids[k];
    KidLevelsStay(t, root, rank, x, k, d, t');
    LevelStays(t, t', root, c, d);
    forall z, e: nat {:trigger Below(t', root, c, z, e)} | e < d && Below(t', root, c, z, e) ensures t'[z].freeing {
      assert SameKidsAbove(t, t', root, c, e);
      LevelStays(t, t', root, c, e);
      LevelMembers(t', root, c, e, z);
      LevelMembers(t, root, c, e, z);
      UpperStays(t, root, rank, x, k, d, t', z, e);
    }
  }

  lemma EarlierNone(t: Tree, root: Id, x: Id, d: nat)
    requires Structure(t, root) && x in t
    ensures AllIn(Earlier(t, root, x, 0, d), t) && VisitAll(t, root, Earlier(t, root, x, 0, d)) == (t, 0)
  {
    assert t[x].kids[..0] == [];
    VisitNone(t, root, Earlier(t, root, x, 0, d));
  }

  /** One more child done. */
  lemma EarlierGrows(t: Tree, root: Id, x: Id, k: nat, d: nat)
    requires Structure(t, root) && x in t && k < |t[x].kids|
    ensures t[x].kids[k] in t
    ensures Earlier(t, root, x, k + 1, d) == Earlier(t, root, x, k, d) + Level(t, root, t[x].kids[k], d)
  {
    var ks := t[x].kids;
    KidsAreIn(t, root, x, k);
    assert ks[..k + 1] == ks[..k] + [ks[k]];
    LevelsJoin(t, root, ks[..k], [ks[k]], d);
    assert [ks[k]][1..] == [];
  }
}
