/**
 * The level-by-level walk of `pivotChildrenToAdoptedParents`, and what it marks as freeing.
 */
module Pivot {
  import opened Links
  import opened Ownership

  // ---- One allocator ----

  /** Drop every adoption n holds, head first. */
  function DropAdoptees(t: Tree, n: Id): Tree
    requires n in t && Symmetric(t)
    decreases if n in t then |t[n].adoptees| else 0
  {
    if t[n].adoptees == [] then t
    else
      var c := t[n].adoptees[0];
      assert c in t[n].adoptees;
      UnadoptKeepsSymmetric(t, n, c);
      DropAdoptees(Unadopt(t, n, c), n)
  }

  function Mark(t: Tree, n: Id): Tree
    requires n in t
  {
    t[n := t[n].(freeing := true)]
  }

  /** What the walk does at an allocator on the level it has reached; the count is 1 for a new mark. */
  function Visit(t: Tree, n: Id): (Tree, nat)
    requires n in t && Symmetric(t)
  {
    if t[n].freeing then (t, 0)
    else if t[n].adopters != [] then
      var p := t[n].adopters[0];
      assert p in t[n].adopters;
      (Unadopt(Move(t, n, p), p, n), 0)
    else
      DropKeepsKeys(t, n);
      (Mark(DropAdoptees(t, n), n), 1)
  }

  lemma {:induction false} DropKeepsKeys(t: Tree, n: Id)
    requires n in t && Symmetric(t)
    ensures DropAdoptees(t, n).Keys == t.Keys
    decreases |t[n].adoptees|
  {
    if t[n].adoptees != [] {
      var c := t[n].adoptees[0];
      assert c in t[n].adoptees;
      UnadoptKeepsSymmetric(t, n, c);
      DropKeepsKeys(Unadopt(t, n, c), n);
    }
  }

  lemma SameNatureTransitive(a: Tree, b: Tree, c: Tree)
    requires SameNature(a, b) && SameNature(b, c)
    ensures SameNature(a, c)
  {
  }

  /** Adopters other than n stay, and n is gone from every list. */
  ghost predicate LosesAdopter(t: Tree, t': Tree, n: Id) {
    && t'.Keys == t.Keys
    && (forall c, p {:trigger p in t'[c].adopters} {:trigger p in t[c].adopters} ::
          c in t && p != n ==> (p in t'[c].adopters <==> p in t[c].adopters))
    && (forall c {:trigger t'[c].adopters} :: c in t && n in t'[c].adopters ==> n in t[c].adopters)
  }

  lemma {:induction false} DropFacts(t: Tree, root: Id, n: Id)
    requires n in t && Structure(t, root)
    ensures var t' := DropAdoptees(t, n);
            && Structure(t', root)
            && SameNature(t, t')
            && LosesAdopter(t, t', n)
            && t'[n].adoptees == []
            && t'[n].adopters == t[n].adopters
    decreases |t[n].adoptees|
  {
    if t[n].adoptees != [] {
      var c := t[n].adoptees[0];
      assert c in t[n].adoptees;
      var t1 := Unadopt(t, n, c);
      UnadoptKeepsStructure(t, root, n, c);
      UnadoptSameNature(t, n, c);
      RemoveMembers(t[c].adopters, n);
      assert LosesAdopter(t, t1, n);
      DropFacts(t1, root, n);
      SameNatureTransitive(t, t1, DropAdoptees(t1, n));
      LosesAdopterTransitive(t, t1, DropAdoptees(t1, n), n);
    }
  }

  lemma LosesAdopterTransitive(a: Tree, b: Tree, c: Tree, n: Id)
    requires LosesAdopter(a, b, n) && LosesAdopter(b, c, n)
    ensures LosesAdopter(a, c, n)
  {
  }

  lemma MarkKeepsStructure(t: Tree, root: Id, n: Id)
    requires Structure(t, root) && n in t && t[n].adopters == [] && t[n].adoptees == []
    ensures Structure(Mark(t, n), root)
  {
    var t' := Mark(t, n);
    assert Parented(t', root);
    assert KidsDistinct(t');
    assert KidsPointBack(t', root);
    assert FreeingHoldsNothing(t');
    forall p, c | p in t' && c in t' ensures Count(t'[c].adopters, p) == Count(t'[p].adoptees, c) {
      assert Count(t[c].adopters, p) == Count(t[p].adoptees, c);
    }
  }

  /** The first adopter of a live allocator is live: the assertion of the program before a pivot. */
  lemma AdopterIsLive(t: Tree, root: Id, n: Id, p: Id)
    requires Structure(t, root) && n in t && p in t[n].adopters
    ensures p in t && p != n && !t[p].freeing
  {
    assert Count(t[n].adopters, p) == Count(t[p].adoptees, n);
    CountPositive(t[n].adopters, p);
  }

  /** Every adoptee of an allocator is live: the assertion of the program before it drops them. */
  lemma AdopteeIsLive(t: Tree, root: Id, n: Id, c: Id)
    requires Structure(t, root) && n in t && c in t[n].adoptees
    ensures c in t && c != n && !t[c].freeing
  {
    assert Count(t[c].adopters, n) == Count(t[n].adoptees, c);
    CountPositive(t[n].adoptees, c);
  }

  lemma VisitKeepsStructure(t: Tree, root: Id, n: Id)
    requires Structure(t, root) && n in t
    ensures Structure(Visit(t, n).0, root) && Visit(t, n).0.Keys == t.Keys
  {
    if t[n].freeing {
    } else if t[n].adopters != [] {
      var p := t[n].adopters[0];
      AdopterIsLive(t, root, n, p);
      MoveKeepsStructure(t, root, n, p);
      UnadoptKeepsStructure(Move(t, n, p), root, p, n);
    } else {
      DropFacts(t, root, n);
      MarkKeepsStructure(DropAdoptees(t, n), root, n);
    }
  }

  // ---- Levels ----

  /** The allocators d levels below x, in the order the walk meets them. */
  function Level(t: Tree, root: Id, x: Id, d: nat): seq<Id>
    requires x in t && KidsPointBack(t, root)
    decreases d, 0
  {
    if d == 0 then [x] else LevelsOf(t, root, t[x].kids, d - 1)
  }

  function LevelsOf(t: Tree, root: Id, xs: seq<Id>, d: nat): seq<Id>
    requires KidsPointBack(t, root) && forall x :: x in xs ==> x in t
    decreases d, 1 + |xs|
  {
    if xs == [] then [] else Level(t, root, xs[0], d) + LevelsOf(t, root, xs[1..], d)
  }

  /** Climbing d natural parents from n leads to x. */
  ghost predicate Below(t: Tree, root: Id, x: Id, n: Id, d: nat)
    decreases d
  {
    n in t && if d == 0 then n == x else n != root && Below(t, root, x, t[n].parent, d - 1)
  }

  lemma {:induction false} BelowSplits(t: Tree, root: Id, x: Id, n: Id, d: nat)
    requires Structure(t, root) && x in t && d > 0
    ensures Below(t, root, x, n, d) <==> exists k :: k in t[x].kids && Below(t, root, k, n, d - 1)
    decreases d
  {
    if n in t && n != root {
      if d == 1 {
        if Below(t, root, x, n, 1) { assert n in t[x].kids && Below(t, root, n, n, 0); }
      } else {
        BelowSplits(t, root, x, t[n].parent, d - 1);
        if Below(t, root, x, n, d) {
          var k :| k in t[x].kids && Below(t, root, k, t[n].parent, d - 2);
          assert Below(t, root, k, n, d - 1);
        }
        if k :| k in t[x].kids && Below(t, root, k, n, d - 1) {
          assert Below(t, root, k, t[n].parent, d - 2);
        }
      }
    } else if d == 1 && n == root {
      assert n !in t[x].kids;
    }
  }

  lemma {:induction false} BelowUnique(t: Tree, root: Id, x: Id, y: Id, n: Id, d: nat)
    requires Below(t, root, x, n, d) && Below(t, root, y, n, d)
    ensures x == y
    decreases d
  {
    if d > 0 { BelowUnique(t, root, x, y, t[n].parent, d - 1); }
  }

  lemma {:induction false} LevelMembers(t: Tree, root: Id, x: Id, d: nat, n: Id)
    requires Structure(t, root) && x in t
    ensures n in Level(t, root, x, d) <==> Below(t, root, x, n, d)
    decreases d, 0
  {
    if d > 0 {
      forall k | k in t[x].kids ensures k in t { }
      LevelsMembers(t, root, t[x].kids, d - 1, n);
      BelowSplits(t, root, x, n, d);
    }
  }

  lemma {:induction false} LevelsMembers(t: Tree, root: Id, xs: seq<Id>, d: nat, n: Id)
    requires Structure(t, root) && forall x :: x in xs ==> x in t
    ensures n in LevelsOf(t, root, xs, d) <==> exists x :: x in xs && Below(t, root, x, n, d)
    decreases d, 1 + |xs|
  {
    if xs != [] {
      LevelMembers(t, root, xs[0], d, n);
      LevelsMembers(t, root, xs[1..], d, n);
    }
  }

  lemma {:induction false} LevelDistinct(t: Tree, root: Id, x: Id, d: nat)
    requires Structure(t, root) && x in t
    ensures Distinct(Level(t, root, x, d))
    decreases d, 0
  {
    if d > 0 {
      forall k | k in t[x].kids ensures k in t { }
      LevelsDistinct(t, root, t[x].kids, d - 1);
    }
  }

  lemma {:induction false} LevelsDistinct(t: Tree, root: Id, xs: seq<Id>, d: nat)
    requires Structure(t, root) && (forall x :: x in xs ==> x in t) && Distinct(xs)
    ensures Distinct(LevelsOf(t, root, xs, d))
    decreases d, 1 + |xs|
  {
    if xs != [] {
      var a, b := Level(t, root, xs[0], d), LevelsOf(t, root, xs[1..], d);
      LevelDistinct(t, root, xs[0], d);
      LevelsDistinct(t, root, xs[1..], d);
      forall i, j | 0 <= i < |a| && 0 <= j < |b| ensures a[i] != b[j] {
        if a[i] == b[j] {
          LevelMembers(t, root, xs[0], d, a[i]);
          LevelsMembers(t, root, xs[1..], d, b[j]);
          var x :| x in xs[1..] && Below(t, root, x, b[j], d);
          BelowUnique(t, root, x, xs[0], a[i], d);
        }
      }
    }
  }

  // ---- What survives a free ----

  /** The links of t without the natural link of x. */
  ghost function CutLinks(t: Tree, root: Id, x: Id): set<(Id, Id)> {
    set p, c | p in t && c in t && HasLink(t, root, p, c) && (c != x || p in t[c].adopters) :: (p, c)
  }

  /** Some chain of natural and adopted links still leads from the root to n once x is cut loose. */
  ghost predicate Saved(t: Tree, root: Id, x: Id, n: Id) {
    x != root && Reaches(CutLinks(t, root, x), root, n)
  }

  // ---- The invariant of the walk ----

  /** n is d levels below x and everything in between, x included, is freeing. */
  ghost predicate Hangs(t: Tree, root: Id, x: Id, n: Id, d: nat)
    decreases d
  {
    n in t &&
    if d == 0 then n == x
    else n != root && t[n].parent in t && t[t[n].parent].freeing && Hangs(t, root, x, t[n].parent, d - 1)
  }

  /** Live allocators keep every link from a live parent. */
  ghost predicate Persists(t0: Tree, t: Tree, root: Id, x: Id) {
    forall p, n {:trigger HasLink(t, root, p, n)} {:trigger HasLink(t0, root, p, n)} ::
      p in t && n in t && n != x && !t[p].freeing && !t[n].freeing && HasLink(t0, root, p, n)
      ==> HasLink(t, root, p, n)
  }

  ghost predicate OnlyOldLinks(t0: Tree, t: Tree, root: Id) {
    forall p, n {:trigger HasLink(t, root, p, n)} :: HasLink(t, root, p, n) ==> HasLink(t0, root, p, n)
  }

  /** Nothing that is still reachable has been marked. */
  ghost predicate MarksDoomed(t0: Tree, t: Tree, root: Id, x: Id) {
    && t.Keys == t0.Keys
    && forall n {:trigger t[n].freeing} :: n in t ==>
         && (t0[n].freeing ==> t[n].freeing)
         && (t[n].freeing && !t0[n].freeing ==> !Saved(t0, root, x, n))
  }

  /**
   * A live allocator under a freeing one is either still to be visited on this level, or its parent
   * was marked on this level.
   */
  ghost predicate Frontier(t: Tree, root: Id, todo: seq<Id>, marked: set<Id>) {
    forall n {:trigger t[n].parent} ::
      n in t && n != root && !t[n].freeing && t[n].parent in t && t[t[n].parent].freeing
      ==> n in todo || t[n].parent in marked
  }

  ghost predicate AllHang(t: Tree, root: Id, x: Id, ns: seq<Id>, d: nat) {
    forall n {:trigger n in ns} :: n in ns ==> Hangs(t, root, x, n, d)
  }

  ghost predicate MarkedHang(t: Tree, root: Id, x: Id, marked: set<Id>, d: nat) {
    forall n {:trigger n in marked} :: n in marked ==> Hangs(t, root, x, n, d) && t[n].freeing
  }

  /** Whatever has been marked, x apart, was marked under another one. */
  ghost predicate MarksHang(t0: Tree, t: Tree, root: Id, x: Id) {
    && t.Keys == t0.Keys
    && forall n {:trigger t[n].parent} :: n in t && t[n].freeing && !t0[n].freeing && n != x ==>
         n != root && t[n].parent in t && t[t[n].parent].freeing && !t0[t[n].parent].freeing
  }

  ghost predicate PassInv(t0: Tree, t: Tree, root: Id, x: Id, d: nat, todo: seq<Id>, marked: set<Id>) {
    && Structure(t, root)
    && OnlyOldLinks(t0, t, root)
    && Persists(t0, t, root, x)
    && MarksDoomed(t0, t, root, x)
    && MarksHang(t0, t, root, x)
    && Frontier(t, root, todo, marked)
    && Distinct(todo)
    && AllHang(t, root, x, todo, d)
    && MarkedHang(t, root, x, marked, d)
  }

  /** A tree in which only the live allocator c may have a new parent, and freeing has only grown. */
  ghost predicate OnlyMoves(t: Tree, t': Tree, c: Id) {
    && t'.Keys == t.Keys
    && forall n {:trigger t'[n].parent} :: n in t ==>
         && (n != c ==> t'[n].parent == t[n].parent)
         && (t[n].freeing ==> t'[n].freeing)
  }

  lemma {:induction false} HangsStays(t: Tree, t': Tree, root: Id, x: Id, c: Id, n: Id, d: nat)
    requires Hangs(t, root, x, n, d) && OnlyMoves(t, t', c) && c in t && !t[c].freeing
    requires n != c || t'[c].parent == t[c].parent
    ensures Hangs(t', root, x, n, d)
    decreases d
  {
    if d > 0 { HangsStays(t, t', root, x, c, t[n].parent, d - 1); }
  }

  // ---- Visiting one allocator keeps the invariant ----

  /** The links of c after it has pivoted to its first adopter. */
  lemma PivotLinks(t: Tree, root: Id, c: Id)
    requires Structure(t, root) && c in t && c != root && !t[c].freeing && t[c].adopters != []
    ensures var t' := Visit(t, c).0;
            && OnlyMoves(t, t', c)
            && t'[c].parent == t[c].adopters[0]
            && (forall n {:trigger t'[n].freeing} :: n in t ==> t'[n].freeing == t[n].freeing)
            && (forall n, p {:trigger p in t'[n].adopters} :: n in t && n != c ==>
                  (p in t'[n].adopters <==> p in t[n].adopters))
            && (forall p {:trigger p in t'[c].adopters} ::
                  && (p in t'[c].adopters ==> p in t[c].adopters)
                  && (p in t[c].adopters && p != t[c].adopters[0] ==> p in t'[c].adopters))
  {
    var p := t[c].adopters[0];
    assert p in t[c].adopters;
    AdopterIsLive(t, root, c, p);
    RemoveMembers(t[c].adopters, p);
    var t1 := Move(t, c, p);
    MoveSameAdoptions(t, c, p);
    UnadoptSameNature(t1, p, c);
  }

  lemma PivotKeepsLinks(t0: Tree, t: Tree, root: Id, x: Id, c: Id)
    requires Structure(t, root) && c in t && c != root && !t[c].freeing && t[c].adopters != []
    requires OnlyOldLinks(t0, t, root) && Persists(t0, t, root, x)
    requires c == x || (t[c].parent in t && t[t[c].parent].freeing)
    ensures OnlyOldLinks(t0, Visit(t, c).0, root) && Persists(t0, Visit(t, c).0, root, x)
  {
    var t', p := Visit(t, c).0, t[c].adopters[0];
    PivotLinks(t, root, c);
    assert p in t[c].adopters;
    forall a, n {:trigger HasLink(t', root, a, n)} | HasLink(t', root, a, n) ensures HasLink(t0, root, a, n) {
      assert t'[n].parent == t'[n].parent;
      assert HasLink(t, root, a, n);
    }
    forall a, n {:trigger HasLink(t', root, a, n)}
      | a in t' && n in t' && n != x && !t'[a].freeing && !t'[n].freeing && HasLink(t0, root, a, n)
      ensures HasLink(t', root, a, n)
    {
      assert HasLink(t, root, a, n);
      assert a in t'[n].adopters <==> a in t'[n].adopters;
      assert t'[n].parent == t'[n].parent;
    }
  }

  lemma MarkLinks(t: Tree, root: Id, c: Id)
    requires Structure(t, root) && c in t && !t[c].freeing && t[c].adopters == []
    ensures var t' := Visit(t, c).0;
            && t'.Keys == t.Keys
            && (forall n {:trigger t'[n].parent} :: n in t ==> t'[n].parent == t[n].parent)
            && (forall n {:trigger t'[n].freeing} :: n in t ==> t'[n].freeing == (t[n].freeing || n == c))
            && (forall n, p {:trigger p in t'[n].adopters} :: n in t ==>
                  && (p in t'[n].adopters ==> p in t[n].adopters)
                  && (p in t[n].adopters && p != c ==> p in t'[n].adopters))
  {
    DropFacts(t, root, c);
    var t1 := DropAdoptees(t, c);
    forall n, p | n in t ensures (p in t1[n].adopters ==> p in t[n].adopters) && (p in t[n].adopters && p != c ==> p in t1[n].adopters) {
      assert p != c ==> (p in t1[n].adopters <==> p in t[n].adopters);
      assert c in t1[n].adopters ==> c in t[n].adopters;
    }
  }

  lemma MarkKeepsLinks(t0: Tree, t: Tree, root: Id, x: Id, c: Id)
    requires Structure(t, root) && c in t && !t[c].freeing && t[c].adopters == []
    requires OnlyOldLinks(t0, t, root) && Persists(t0, t, root, x)
    ensures OnlyOldLinks(t0, Visit(t, c).0, root) && Persists(t0, Visit(t, c).0, root, x)
  {
    var t' := Visit(t, c).0;
    MarkLinks(t, root, c);
    forall a, n {:trigger HasLink(t', root, a, n)} | HasLink(t', root, a, n) ensures HasLink(t0, root, a, n) {
      assert t'[n].parent == t[n].parent;
      assert HasLink(t, root, a, n);
    }
    forall a, n {:trigger HasLink(t', root, a, n)}
      | a in t' && n in t' && n != x && !t'[a].freeing && !t'[n].freeing && HasLink(t0, root, a, n)
      ensures HasLink(t', root, a, n)
    {
      assert t'[n].freeing == (t[n].freeing || n == c) && t'[a].freeing == (t[a].freeing || a == c);
      assert HasLink(t, root, a, n);
      assert t'[n].parent == t[n].parent;
      assert a in t[n].adopters && a != c ==> a in t'[n].adopters;
    }
  }

  /** An allocator whose natural parent is freeing and that has no adopter is out of reach. */
  lemma MarkedIsDoomed(t0: Tree, t: Tree, root: Id, x: Id, c: Id)
    requires Structure(t0, root) && Closed(t0, root) && Structure(t, root)
    requires OnlyOldLinks(t0, t, root) && Persists(t0, t, root, x) && MarksDoomed(t0, t, root, x)
    requires c in t && x in t && !t[c].freeing && t[c].adopters == []
    requires c == x ==> t0[x].adopters == []
    requires c != x ==> c != root && t[c].parent in t && t[t[c].parent].freeing
    ensures !Saved(t0, root, x, c)
  {
    if Saved(t0, root, x, c) {
      var q := ReachesLast(CutLinks(t0, root, x), root, c);
      assert HasLink(t0, root, q, c);
      assert Saved(t0, root, x, q);
      assert !t[q].freeing || t0[q].freeing;
      if t0[q].freeing {
        FreeingHasNoLiveLink(t0, root, q, c);
      }
      assert false;
    }
  }

  lemma FreeingHasNoLiveLink(t: Tree, root: Id, p: Id, c: Id)
    requires Structure(t, root) && Closed(t, root) && p in t && t[p].freeing && HasLink(t, root, p, c)
    ensures t[c].freeing
  {
    if p in t[c].adopters {
      AdopterIsLive(t, root, c, p);
    }
  }

  lemma VisitKeepsHanging(t: Tree, t': Tree, root: Id, x: Id, c: Id, d: nat, todo: seq<Id>, marked: set<Id>)
    requires OnlyMoves(t, t', c) && c in t && !t[c].freeing
    requires Distinct([c] + todo) && AllHang(t, root, x, [c] + todo, d) && MarkedHang(t, root, x, marked, d)
    ensures AllHang(t', root, x, todo, d) && MarkedHang(t', root, x, marked, d)
  {
    forall n {:trigger n in todo} | n in todo ensures Hangs(t', root, x, n, d) {
      assert n in [c] + todo;
      var k :| 0 <= k < |todo| && todo[k] == n;
      assert ([c] + todo)[0] == c && ([c] + todo)[k + 1] == n;
      HangsStays(t, t', root, x, c, n, d);
    }
    forall n {:trigger n in marked} | n in marked ensures Hangs(t', root, x, n, d) && t'[n].freeing {
      HangsStays(t, t', root, x, c, n, d);
      assert t'[n].parent == t'[n].parent;
    }
  }

  lemma VisitSkips(t0: Tree, t: Tree, root: Id, x: Id, c: Id, d: nat, todo: seq<Id>, marked: set<Id>)
    requires PassInv(t0, t, root, x, d, [c] + todo, marked) && c in t && t[c].freeing
    ensures PassInv(t0, t, root, x, d, todo, marked)
  {
    var all := [c] + todo;
    assert all[1..] == todo;
    forall i, j | 0 <= i < j < |todo| ensures todo[i] != todo[j] { assert all[i + 1] != all[j + 1]; }
    forall n {:trigger n in todo} | n in todo ensures Hangs(t, root, x, n, d) { assert n in all; }
    forall n {:trigger t[n].parent}
      | n in t && n != root && !t[n].freeing && t[n].parent in t && t[t[n].parent].freeing
      ensures n in todo || t[n].parent in marked
    {
      assert n in all || t[n].parent in marked;
    }
  }

  lemma PivotKeepsMarksHang(t0: Tree, t: Tree, t': Tree, root: Id, x: Id, c: Id)
    requires MarksHang(t0, t, root, x) && OnlyMoves(t, t', c) && c in t && !t[c].freeing
    requires forall m {:trigger t'[m].freeing} :: m in t ==> t'[m].freeing == t[m].freeing
    ensures MarksHang(t0, t', root, x)
  {
    forall n {:trigger t'[n].parent} | n in t' && t'[n].freeing && !t0[n].freeing && n != x
      ensures n != root && t'[n].parent in t' && t'[t'[n].parent].freeing && !t0[t'[n].parent].freeing
    {
      assert t'[n].parent == t[n].parent;
    }
  }

  /** A live allocator under a freeing one is under one that has just been marked. */
  lemma MarkKeepsMarksHang(t0: Tree, t: Tree, t': Tree, root: Id, x: Id, c: Id)
    requires Structure(t0, root) && Closed(t0, root) && OnlyOldLinks(t0, t, root) && MarksDoomed(t0, t, root, x)
    requires MarksHang(t0, t, root, x) && t'.Keys == t.Keys && c in t && !t[c].freeing
    requires c == x || (c != root && t[c].parent in t && t[t[c].parent].freeing)
    requires forall m {:trigger t'[m].freeing} :: m in t ==> t'[m].freeing == (t[m].freeing || m == c)
    requires forall m {:trigger t'[m].parent} :: m in t ==> t'[m].parent == t[m].parent
    ensures MarksHang(t0, t', root, x)
  {
    if c != x {
      assert HasLink(t, root, t[c].parent, c);
      if t0[t[c].parent].freeing { FreeingHasNoLiveLink(t0, root, t[c].parent, c); }
    }
    forall n {:trigger t'[n].parent} | n in t' && t'[n].freeing && !t0[n].freeing && n != x
      ensures n != root && t'[n].parent in t' && t'[t'[n].parent].freeing && !t0[t'[n].parent].freeing
    {
      assert t'[n].parent == t[n].parent;
      assert t'[n].freeing == (t[n].freeing || n == c);
    }
  }

  lemma VisitPivots(t0: Tree, t: Tree, root: Id, x: Id, c: Id, d: nat, todo: seq<Id>, marked: set<Id>)
    requires PassInv(t0, t, root, x, d, [c] + todo, marked)
    requires c in t && c != root && !t[c].freeing && t[c].adopters != []
    ensures PassInv(t0, Visit(t, c).0, root, x, d, todo, marked)
  {
    var t', p := Visit(t, c).0, t[c].adopters[0];
    assert c in [c] + todo;
    assert Hangs(t, root, x, c, d);
    VisitKeepsStructure(t, root, c);
    PivotLinks(t, root, c);
    PivotKeepsLinks(t0, t, root, x, c);
    VisitKeepsHanging(t, t', root, x, c, d, todo, marked);
    PivotKeepsMarksHang(t0, t, t', root, x, c);
    TailDistinct(c, todo);
    assert p in t[c].adopters;
    AdopterIsLive(t, root, c, p);
    forall n {:trigger t'[n].freeing} | n in t'
      ensures (t0[n].freeing ==> t'[n].freeing) && (t'[n].freeing && !t0[n].freeing ==> !Saved(t0, root, x, n))
    {
      assert t'[n].freeing == t[n].freeing;
    }
    forall n {:trigger t'[n].parent}
      | n in t' && n != root && !t'[n].freeing && t'[n].parent in t' && t'[t'[n].parent].freeing
      ensures n in todo || t'[n].parent in marked
    {
      FrontierAfterPivot(t, t', root, c, todo, marked, n);
    }
  }

  lemma FrontierAfterPivot(t: Tree, t': Tree, root: Id, c: Id, todo: seq<Id>, marked: set<Id>, n: Id)
    requires OnlyMoves(t, t', c) && Frontier(t, root, [c] + todo, marked) && c in t
    requires forall m {:trigger t'[m].freeing} :: m in t ==> t'[m].freeing == t[m].freeing
    requires t'[c].parent in t && !t[t'[c].parent].freeing
    requires n in t' && n != root && !t'[n].freeing && t'[n].parent in t' && t'[t'[n].parent].freeing
    ensures n in todo || t'[n].parent in marked
  {
    assert n != c;
    assert t'[n].parent == t[n].parent;
    assert n in [c] + todo || t[n].parent in marked;
  }

  lemma TailDistinct(c: Id, todo: seq<Id>)
    requires Distinct([c] + todo)
    ensures Distinct(todo)
  {
    var all := [c] + todo;
    forall i, j | 0 <= i < j < |todo| ensures todo[i] != todo[j] { assert all[i + 1] != all[j + 1]; }
  }

  lemma VisitMarks(t0: Tree, t: Tree, root: Id, x: Id, c: Id, d: nat, todo: seq<Id>, marked: set<Id>)
    requires Structure(t0, root) && Closed(t0, root) && x in t0 && t0[x].adopters == []
    requires PassInv(t0, t, root, x, d, [c] + todo, marked)
    requires c in t && !t[c].freeing && t[c].adopters == [] && (c == x || d > 0)
    ensures PassInv(t0, Visit(t, c).0, root, x, d, todo, marked + {c})
  {
    hide Closed, Visit, OnlyOldLinks, Persists, MarksDoomed, MarksHang, Frontier, Distinct, MarkedHang, Saved;
    var t' := Visit(t, c).0;
    assert c in [c] + todo;
    assert Hangs(t, root, x, c, d);
    VisitKeepsStructure(t, root, c);
    MarkLinks(t, root, c);
    MarkKeepsLinks(t0, t, root, x, c);
    MarkKeepsHanging(t, t', root, x, c, d, todo, marked);
    SameIds(t0, t, root, x);
    MarkKeepsMarksHang(t0, t, t', root, x, c);
    TailDistinct(c, todo);
    MarkedIsDoomed(t0, t, root, x, c);
    MarkKeepsDoom(t0, t, t', root, x, c);
    MarkKeepsFrontier(t, t', root, c, todo, marked);
  }

  lemma SameIds(t0: Tree, t: Tree, root: Id, x: Id)
    requires MarksDoomed(t0, t, root, x)
    ensures t.Keys == t0.Keys
  {
  }

  lemma MarkKeepsHanging(t: Tree, t': Tree, root: Id, x: Id, c: Id, d: nat, todo: seq<Id>, marked: set<Id>)
    requires t'.Keys == t.Keys && c in t && !t[c].freeing
    requires forall m {:trigger t'[m].freeing} :: m in t ==> t'[m].freeing == (t[m].freeing || m == c)
    requires forall m {:trigger t'[m].parent} :: m in t ==> t'[m].parent == t[m].parent
    requires Distinct([c] + todo) && AllHang(t, root, x, [c] + todo, d) && MarkedHang(t, root, x, marked, d)
    ensures AllHang(t', root, x, todo, d) && MarkedHang(t', root, x, marked + {c}, d)
  {
    assert OnlyMoves(t, t', c);
    assert c in [c] + todo;
    VisitKeepsHanging(t, t', root, x, c, d, todo, marked);
    HangsStays(t, t', root, x, c, c, d);
  }

  lemma MarkKeepsFrontier(t: Tree, t': Tree, root: Id, c: Id, todo: seq<Id>, marked: set<Id>)
    requires t'.Keys == t.Keys && Frontier(t, root, [c] + todo, marked) && c in t
    requires forall m {:trigger t'[m].freeing} :: m in t ==> t'[m].freeing == (t[m].freeing || m == c)
    requires forall m {:trigger t'[m].parent} :: m in t ==> t'[m].parent == t[m].parent
    ensures Frontier(t', root, todo, marked + {c})
  {
    forall n {:trigger t'[n].parent}
      | n in t' && n != root && !t'[n].freeing && t'[n].parent in t' && t'[t'[n].parent].freeing
      ensures n in todo || t'[n].parent in marked + {c}
    {
      FrontierAfterMark(t, t', root, c, todo, marked, n);
    }
  }

  lemma MarkKeepsDoom(t0: Tree, t: Tree, t': Tree, root: Id, x: Id, c: Id)
    requires MarksDoomed(t0, t, root, x) && t'.Keys == t.Keys && c in t && !Saved(t0, root, x, c)
    requires forall n {:trigger t'[n].freeing} :: n in t ==> t'[n].freeing == (t[n].freeing || n == c)
    ensures MarksDoomed(t0, t', root, x)
  {
    hide Saved;
  }

  lemma FrontierAfterMark(t: Tree, t': Tree, root: Id, c: Id, todo: seq<Id>, marked: set<Id>, n: Id)
    requires t'.Keys == t.Keys && Frontier(t, root, [c] + todo, marked) && c in t
    requires forall m {:trigger t'[m].freeing} :: m in t ==> t'[m].freeing == (t[m].freeing || m == c)
    requires forall m {:trigger t'[m].parent} :: m in t ==> t'[m].parent == t[m].parent
    requires n in t' && n != root && !t'[n].freeing && t'[n].parent in t' && t'[t'[n].parent].freeing
    ensures n in todo || t'[n].parent in marked + {c}
  {
    assert t'[n].parent == t[n].parent;
    assert t'[n].freeing == (t[n].freeing || n == c);
    if t[n].parent != c {
      assert n in [c] + todo || t[n].parent in marked;
    }
  }

  // ---- A whole level ----

  ghost predicate AllIn(ns: seq<Id>, t: Tree) {
    forall n {:trigger n in ns} :: n in ns ==> n in t
  }

  lemma AllInSplits(ns: seq<Id>, t: Tree, t': Tree)
    requires AllIn(ns, t) && ns != [] && t'.Keys == t.Keys
    ensures ns[0] in t && AllIn(ns[1..], t')
  {
    assert ns[0] in ns;
    forall n {:trigger n in ns[1..]} | n in ns[1..] ensures n in t' { assert n in ns; }
  }

  /** Visiting a list of allocators in order; the count is the number of new marks. */
  function VisitAll(t: Tree, root: Id, ns: seq<Id>): (Tree, nat)
    requires Structure(t, root) && AllIn(ns, t)
    decreases |ns|
  {
    if ns == [] then (t, 0)
    else
      AllInSplits(ns, t, t);
      VisitKeepsStructure(t, root, ns[0]);
      var (t1, a) := Visit(t, ns[0]);
      AllInSplits(ns, t, t1);
      var (t2, b) := VisitAll(t1, root, ns[1..]);
      (t2, a + b)
  }

  lemma {:induction false} VisitAllKeepsStructure(t: Tree, root: Id, ns: seq<Id>)
    requires Structure(t, root) && AllIn(ns, t)
    ensures Structure(VisitAll(t, root, ns).0, root) && VisitAll(t, root, ns).0.Keys == t.Keys
    decreases |ns|
  {
    if ns != [] {
      AllInSplits(ns, t, t);
      VisitKeepsStructure(t, root, ns[0]);
      AllInSplits(ns, t, Visit(t, ns[0]).0);
      VisitAllKeepsStructure(Visit(t, ns[0]).0, root, ns[1..]);
    }
  }

  lemma VisitKeeps(t0: Tree, t: Tree, root: Id, x: Id, d: nat, c: Id, rest: seq<Id>, marked: set<Id>)
    requires Structure(t0, root) && Closed(t0, root) && x in t0 && t0[x].adopters == []
    requires PassInv(t0, t, root, x, d, [c] + rest, marked) && c in t
    requires d == 0 ==> c == x && t == t0
    ensures PassInv(t0, Visit(t, c).0, root, x, d, rest, if Visit(t, c).1 == 0 then marked else marked + {c})
  {
    assert c in [c] + rest;
    assert Hangs(t, root, x, c, d);
    if t[c].freeing {
      VisitSkips(t0, t, root, x, c, d, rest, marked);
    } else if t[c].adopters != [] {
      VisitPivots(t0, t, root, x, c, d, rest, marked);
    } else {
      VisitMarks(t0, t, root, x, c, d, rest, marked);
    }
  }

  lemma {:induction false} VisitAllKeeps(
    t0: Tree, t: Tree, root: Id, x: Id, d: nat, todo: seq<Id>, marked: set<Id>) returns (marked': set<Id>)
    requires Structure(t0, root) && Closed(t0, root) && x in t0 && t0[x].adopters == []
    requires PassInv(t0, t, root, x, d, todo, marked) && AllIn(todo, t)
    requires d == 0 ==> (todo == [x] && t == t0) || todo == []
    ensures var (t', out) := VisitAll(t, root, todo);
            && PassInv(t0, t', root, x, d, [], marked')
            && (out == 0 ==> marked' == marked)
            && marked <= marked' && (out > 0 ==> marked' != {})
    decreases |todo|
  {
    if todo == [] {
      marked' := marked;
    } else {
      var c, rest := todo[0], todo[1..];
      assert todo == [c] + rest;
      AllInSplits(todo, t, t);
      VisitKeepsStructure(t, root, c);
      VisitKeeps(t0, t, root, x, d, c, rest, marked);
      var (t1, a) := Visit(t, c);
      AllInSplits(todo, t, t1);
      marked' := VisitAllKeeps(t0, t1, root, x, d, rest, if a == 0 then marked else marked + {c});
    }
  }

  lemma {:induction false} HangsIsBelow(t: Tree, root: Id, x: Id, n: Id, d: nat)
    requires Hangs(t, root, x, n, d)
    ensures Below(t, root, x, n, d)
    decreases d
  {
    if d > 0 { HangsIsBelow(t, root, x, t[n].parent, d - 1); }
  }

  lemma {:induction false} BelowRanks(t: Tree, root: Id, rank: map<Id, nat>, x: Id, n: Id, d: nat)
    requires rank.Keys == t.Keys && Ranked(LinkSet(t, root), rank)
    requires Below(t, root, x, n, d)
    ensures x in t && if d == 0 then n == x else rank[x] < rank[n]
    decreases d
  {
    if d > 0 {
      assert HasLink(t, root, t[n].parent, n);
      assert (t[n].parent, n) in LinkSet(t, root);
      BelowRanks(t, root, rank, x, t[n].parent, d - 1);
    }
  }

  lemma {:induction false} DepthUnique(t: Tree, root: Id, rank: map<Id, nat>, x: Id, n: Id, a: nat, b: nat)
    requires rank.Keys == t.Keys && Ranked(LinkSet(t, root), rank)
    requires Below(t, root, x, n, a) && Below(t, root, x, n, b)
    ensures a == b
    decreases a
  {
    if a == 0 || b == 0 {
      BelowRanks(t, root, rank, x, n, a);
      BelowRanks(t, root, rank, x, n, b);
    } else {
      DepthUnique(t, root, rank, x, t[n].parent, a - 1, b - 1);
    }
  }

  /** After the level d everything down to that depth is freeing. */
  lemma {:induction false} AboveIsFreeing(
    t0: Tree, t: Tree, root: Id, rank: map<Id, nat>, x: Id, d: nat, marked: set<Id>, n: Id, e: nat)
    requires PassInv(t0, t, root, x, d, [], marked) && rank.Keys == t.Keys && Ranked(LinkSet(t, root), rank)
    requires x in t && t[x].freeing && Below(t, root, x, n, e) && e <= d
    ensures t[n].freeing
    decreases e
  {
    if e > 0 {
      var p := t[n].parent;
      AboveIsFreeing(t0, t, root, rank, x, d, marked, p, e - 1);
      if !t[n].freeing {
        assert p in marked;
        HangsIsBelow(t, root, x, p, d);
        DepthUnique(t, root, rank, x, p, d, e - 1);
      }
    }
  }

  lemma {:induction false} BelowHangs(
    t0: Tree, t: Tree, root: Id, rank: map<Id, nat>, x: Id, d: nat, marked: set<Id>, n: Id, e: nat)
    requires PassInv(t0, t, root, x, d, [], marked) && rank.Keys == t.Keys && Ranked(LinkSet(t, root), rank)
    requires x in t && t[x].freeing && Below(t, root, x, n, e) && e <= d + 1
    ensures Hangs(t, root, x, n, e)
    decreases e
  {
    if e > 0 {
      AboveIsFreeing(t0, t, root, rank, x, d, marked, t[n].parent, e - 1);
      BelowHangs(t0, t, root, rank, x, d, marked, t[n].parent, e - 1);
    }
  }

  lemma NextLevelHangs(t0: Tree, t: Tree, root: Id, rank: map<Id, nat>, x: Id, d: nat, marked: set<Id>)
    requires PassInv(t0, t, root, x, d, [], marked) && rank.Keys == t.Keys && Ranked(LinkSet(t, root), rank)
    requires x in t && t[x].freeing
    ensures AllHang(t, root, x, Level(t, root, x, d + 1), d + 1)
  {
    var todo := Level(t, root, x, d + 1);
    forall n {:trigger n in todo} | n in todo ensures Hangs(t, root, x, n, d + 1) {
      LevelMembers(t, root, x, d + 1, n);
      BelowHangs(t0, t, root, rank, x, d, marked, n, d + 1);
    }
  }

  lemma NextLevelFrontier(t: Tree, root: Id, x: Id, d: nat, marked: set<Id>)
    requires Structure(t, root) && Frontier(t, root, [], marked) && MarkedHang(t, root, x, marked, d) && x in t
    ensures Frontier(t, root, Level(t, root, x, d + 1), {})
  {
    var todo := Level(t, root, x, d + 1);
    forall n {:trigger t[n].parent}
      | n in t && n != root && !t[n].freeing && t[n].parent in t && t[t[n].parent].freeing
      ensures n in todo
    {
      assert t[n].parent in marked;
      HangsIsBelow(t, root, x, t[n].parent, d);
      assert Below(t, root, x, n, d + 1);
      LevelMembers(t, root, x, d + 1, n);
    }
  }

  /** The walk is ready for the next level. */
  lemma NextLevel(t0: Tree, t: Tree, root: Id, rank: map<Id, nat>, x: Id, d: nat, marked: set<Id>)
    requires PassInv(t0, t, root, x, d, [], marked) && rank.Keys == t.Keys && Ranked(LinkSet(t, root), rank)
    requires x in t && t[x].freeing
    ensures PassInv(t0, t, root, x, d + 1, Level(t, root, x, d + 1), {})
  {
    LevelDistinct(t, root, x, d + 1);
    NextLevelHangs(t0, t, root, rank, x, d, marked);
    NextLevelFrontier(t, root, x, d, marked);
  }

  // ---- The whole walk ----

  const MAX_DEPTH: nat := 10000

  datatype Walk = Freed(tree: Tree) | Pivoted(tree: Tree) | TooDeep

  lemma LevelIn(t: Tree, root: Id, x: Id, d: nat)
    requires Structure(t, root) && x in t
    ensures AllIn(Level(t, root, x, d), t)
  {
    forall n {:trigger n in Level(t, root, x, d)} | n in Level(t, root, x, d) ensures n in t {
      LevelMembers(t, root, x, d, n);
    }
  }

  /** `pivotChildrenToAdoptedParents` from level i on. */
  function Passes(t: Tree, root: Id, x: Id, i: nat): Walk
    requires Structure(t, root) && x in t
    decreases MAX_DEPTH - i
  {
    if i >= MAX_DEPTH then TooDeep
    else
      LevelIn(t, root, x, i);
      VisitAllKeepsStructure(t, root, Level(t, root, x, i));
      var (t', out) := VisitAll(t, root, Level(t, root, x, i));
      if out == 0 then (if i == 0 then Pivoted(t') else Freed(t'))
      else Passes(t', root, x, i + 1)
  }

  lemma OldLinksRanked(t0: Tree, t: Tree, root: Id, rank: map<Id, nat>)
    requires t.Keys == t0.Keys && OnlyOldLinks(t0, t, root) && Ranked(LinkSet(t0, root), rank)
    ensures Ranked(LinkSet(t, root), rank)
  {
    forall l | l in LinkSet(t, root) ensures l in LinkSet(t0, root) {
      assert HasLink(t, root, l.0, l.1);
    }
  }

  /** What the walk leaves when it has marked x. */
  ghost predicate GoodFree(t0: Tree, t: Tree, root: Id, x: Id) {
    && Structure(t, root)
    && Closed(t, root)
    && OnlyOldLinks(t0, t, root)
    && Persists(t0, t, root, x)
    && MarksDoomed(t0, t, root, x)
    && MarksHang(t0, t, root, x)
    && x in t && t[x].freeing
  }

  /** One more level of the walk. */
  lemma OneMoreLevel(t0: Tree, t: Tree, root: Id, rank: map<Id, nat>, x: Id, d: nat, marked: set<Id>)
    returns (marked': set<Id>)
    requires WellFormed(t0, root, rank) && x in t0 && t0[x].adopters == []
    requires PassInv(t0, t, root, x, d, [], marked) && t[x].freeing
    ensures AllIn(Level(t, root, x, d + 1), t)
    ensures var (t', out) := VisitAll(t, root, Level(t, root, x, d + 1));
            && PassInv(t0, t', root, x, d + 1, [], marked')
            && x in t' && t'[x].freeing
            && (out == 0 ==> Closed(t', root))
            && (out > 0 ==> marked' != {})
  {
    OldLinksRanked(t0, t, root, rank);
    NextLevel(t0, t, root, rank, x, d, marked);
    LevelIn(t, root, x, d + 1);
    var todo := Level(t, root, x, d + 1);
    marked' := VisitAllKeeps(t0, t, root, x, d + 1, todo, {});
    XStaysFreeing(t, root, todo, x);
    if VisitAll(t, root, todo).1 == 0 {
      ClosedAgain(VisitAll(t, root, todo).0, root);
    }
  }

  lemma {:induction false} HangingChain(t0: Tree, t: Tree, root: Id, x: Id, n: Id, d: nat) returns (path: seq<Id>)
    requires t.Keys == t0.Keys && OnlyOldLinks(t0, t, root) && Hangs(t, root, x, n, d)
    ensures Joins(LinkSet(t0, root), x, n, path) && |path| == d + 1
    decreases d
  {
    if d == 0 {
      path := [n];
    } else {
      var p := t[n].parent;
      var upper := HangingChain(t0, t, root, x, p, d - 1);
      assert HasLink(t, root, p, n);
      assert (p, n) in LinkSet(t0, root);
      path := upper + [n];
      assert path[|upper| - 1] == p;
    }
  }

  /** Level d is done and has marked something. */
  ghost predicate MidWalk(t0: Tree, t: Tree, root: Id, x: Id, d: nat, marked: set<Id>) {
    PassInv(t0, t, root, x, d, [], marked) && x in t && t[x].freeing && marked != {}
  }

  lemma MarkedChain(t0: Tree, t: Tree, root: Id, x: Id, d: nat, marked: set<Id>) returns (path: seq<Id>)
    requires MidWalk(t0, t, root, x, d, marked)
    ensures IsPath(LinkSet(t0, root), path) && path[0] == x && |path| == d + 1
  {
    var n :| n in marked;
    path := HangingChain(t0, t, root, x, n, d);
  }

  /** Where a walk may end: well, or after a chain of links as long as its limit. */
  ghost predicate EndsWell(t0: Tree, root: Id, x: Id, w: Walk) {
    if w.TooDeep? then exists path :: IsPath(LinkSet(t0, root), path) && path[0] == x && |path| == MAX_DEPTH
    else w.Freed? && GoodFree(t0, w.tree, root, x)
  }

  lemma LastLevel(t0: Tree, t: Tree, root: Id, x: Id, marked: set<Id>, w: Walk)
    requires MidWalk(t0, t, root, x, MAX_DEPTH - 1, marked) && w == Passes(t, root, x, MAX_DEPTH)
    ensures EndsWell(t0, root, x, w)
  {
    var path := MarkedChain(t0, t, root, x, MAX_DEPTH - 1, marked);
  }

  /** A level that is not the last the limit allows: it ends the walk well, or the walk goes on from t'. */
  lemma LevelKeeps(t0: Tree, t: Tree, root: Id, rank: map<Id, nat>, x: Id, d: nat, marked: set<Id>, w: Walk)
    returns (t': Tree, marked': set<Id>)
    requires WellFormed(t0, root, rank) && x in t0 && t0[x].adopters == []
    requires MidWalk(t0, t, root, x, d, marked) && d + 1 < MAX_DEPTH && w == Passes(t, root, x, d + 1)
    ensures EndsWell(t0, root, x, w) ||
            (MidWalk(t0, t', root, x, d + 1, marked') && w == Passes(t', root, x, d + 2))
  {
    marked' := OneMoreLevel(t0, t, root, rank, x, d, marked);
    t' := VisitAll(t, root, Level(t, root, x, d + 1)).0;
  }

  lemma {:induction false} PassesKeep(
    t0: Tree, t: Tree, root: Id, rank: map<Id, nat>, x: Id, d: nat, marked: set<Id>, w: Walk)
    requires WellFormed(t0, root, rank) && x in t0 && t0[x].adopters == []
    requires MidWalk(t0, t, root, x, d, marked) && d < MAX_DEPTH && w == Passes(t, root, x, d + 1)
    ensures EndsWell(t0, root, x, w)
    decreases MAX_DEPTH - d
  {
    if d + 1 == MAX_DEPTH {
      LastLevel(t0, t, root, x, marked, w);
    } else {
      var t', marked' := LevelKeeps(t0, t, root, rank, x, d, marked, w);
      if !EndsWell(t0, root, x, w) {
        PassesKeep(t0, t', root, rank, x, d + 1, marked', w);
      }
    }
  }

  lemma ClosedAgain(t: Tree, root: Id)
    requires Frontier(t, root, [], {})
    ensures Closed(t, root)
  {
  }

  lemma {:induction false} XStaysFreeing(t: Tree, root: Id, ns: seq<Id>, x: Id)
    requires Structure(t, root) && AllIn(ns, t) && x in t && t[x].freeing
    ensures x in VisitAll(t, root, ns).0 && VisitAll(t, root, ns).0[x].freeing
    decreases |ns|
  {
    if ns != [] {
      AllInSplits(ns, t, t);
      VisitKeepsStructure(t, root, ns[0]);
      var t1 := Visit(t, ns[0]).0;
      AllInSplits(ns, t, t1);
      VisitKeepsFreeing(t, root, ns[0], x);
      XStaysFreeing(t1, root, ns[1..], x);
    }
  }

  lemma VisitKeepsFreeing(t: Tree, root: Id, n: Id, x: Id)
    requires Structure(t, root) && n in t && x in t && t[x].freeing
    ensures x in Visit(t, n).0 && Visit(t, n).0[x].freeing
  {
    if !t[n].freeing && t[n].adopters == [] {
      DropFacts(t, root, n);
    }
  }

  /** With everything closed again, a live allocator is reached through its live natural parents. */
  lemma {:induction false} LiveIsSaved(t0: Tree, t: Tree, root: Id, rank: map<Id, nat>, x: Id, n: Id)
    requires rank.Keys == t.Keys && Ranked(LinkSet(t0, root), rank)
    requires GoodFree(t0, t, root, x) && n in t && !t[n].freeing
    ensures Saved(t0, root, x, n)
    decreases rank[n]
  {
    if n == root {
      ReachesItself(CutLinks(t0, root, x), root);
    } else {
      var p := t[n].parent;
      assert HasLink(t, root, p, n);
      assert HasLink(t0, root, p, n);
      assert (p, n) in LinkSet(t0, root);
      LiveIsSaved(t0, t, root, rank, x, p);
      assert (p, n) in CutLinks(t0, root, x);
      ReachesOnward(CutLinks(t0, root, x), root, p, n);
    }
  }

  lemma FirstLevel(t0: Tree, root: Id, x: Id)
    requires Structure(t0, root) && Closed(t0, root) && x in t0
    ensures PassInv(t0, t0, root, x, 0, [x], {})
  {
  }

  lemma WalkStarts(t: Tree, root: Id, x: Id, w: Walk) returns (t': Tree)
    requires Structure(t, root) && Closed(t, root) && x in t && !t[x].freeing && t[x].adopters == []
    requires w == Passes(t, root, x, 0)
    ensures MidWalk(t, t', root, x, 0, {x}) && w == Passes(t', root, x, 1)
  {
    FirstPass(t, root, x);
    FirstStep(t, root, x);
    t' := Visit(t, x).0;
  }

  lemma WalkEnds(t: Tree, root: Id, rank: map<Id, nat>, x: Id, w: Walk)
    requires WellFormed(t, root, rank) && x in t && !t[x].freeing && t[x].adopters == []
    requires w == Passes(t, root, x, 0)
    ensures EndsWell(t, root, x, w)
  {
    hide Structure, Closed, Passes, MidWalk, EndsWell, Ranked, LinkSet;
    var t' := WalkStarts(t, root, x, w);
    PassesKeep(t, t', root, rank, x, 0, {x}, w);
  }

  /**
   * Free equals reachability.  Freeing a live allocator x that nobody has adopted newly marks exactly
   * the live allocators that no chain of links from the root reaches once x's natural link is cut,
   * and leaves the graph well formed, unless a chain under x is as deep as the limit.
   */
  lemma FreeMarksUnreachable(t: Tree, root: Id, rank: map<Id, nat>, x: Id)
    requires WellFormed(t, root, rank) && x in t && !t[x].freeing && t[x].adopters == []
    ensures var w := Passes(t, root, x, 0);
            w.TooDeep? ||
            (&& w.Freed?
             && w.tree.Keys == t.Keys
             && WellFormed(w.tree, root, rank)
             && forall n {:trigger w.tree[n].freeing} :: n in t ==>
                  (w.tree[n].freeing <==> t[n].freeing || !Saved(t, root, x, n)))
  {
    WalkEnds(t, root, rank, x, Passes(t, root, x, 0));
    var w := Passes(t, root, x, 0);
    if w.Freed? {
      OldLinksRanked(t, w.tree, root, rank);
      forall n {:trigger w.tree[n].freeing} | n in t
        ensures w.tree[n].freeing <==> t[n].freeing || !Saved(t, root, x, n)
      {
        if !w.tree[n].freeing { LiveIsSaved(t, w.tree, root, rank, x, n); }
      }
    }
  }

  /** What is left alive keeps exactly the links it had among itself. */
  lemma FreeKeepsLinks(t: Tree, root: Id, rank: map<Id, nat>, x: Id, p: Id, n: Id)
    requires WellFormed(t, root, rank) && x in t && !t[x].freeing && t[x].adopters == []
    requires p in t && n in t && Passes(t, root, x, 0).Freed?
    ensures var w := Passes(t, root, x, 0).tree;
            && (HasLink(w, root, p, n) ==> HasLink(t, root, p, n))
            && (p in w && n in w && !w[p].freeing && !w[n].freeing ==>
                  (HasLink(w, root, p, n) <==> HasLink(t, root, p, n)))
  {
    hide Passes, HasLink, Structure, Closed, Ranked;
    WalkEnds(t, root, rank, x, Passes(t, root, x, 0));
  }

  /** The first level is x alone. */
  lemma FirstVisit(t: Tree, root: Id, x: Id)
    requires Structure(t, root) && x in t
    ensures AllIn(Level(t, root, x, 0), t) && VisitAll(t, root, Level(t, root, x, 0)) == Visit(t, x)
  {
    assert Level(t, root, x, 0) == [x];
    VisitOne(t, root, x, [x]);
  }

  lemma VisitOne(t: Tree, root: Id, x: Id, ns: seq<Id>)
    requires Structure(t, root) && x in t && ns == [x]
    ensures AllIn(ns, t) && VisitAll(t, root, ns) == Visit(t, x)
  {
    var (t', out) := Visit(t, x);
    VisitKeepsStructure(t, root, x);
    assert AllIn(ns, t) && ns[1..] == [];
    AllInSplits(ns, t, t');
    assert VisitAll(t', root, ns[1..]) == (t', 0);
  }

  lemma FirstStep(t: Tree, root: Id, x: Id)
    requires Structure(t, root) && x in t && !t[x].freeing && t[x].adopters == []
    ensures Structure(Visit(t, x).0, root) && x in Visit(t, x).0
    ensures Passes(t, root, x, 0) == Passes(Visit(t, x).0, root, x, 1)
  {
    VisitKeepsStructure(t, root, x);
    FirstVisit(t, root, x);
  }

  lemma FirstPass(t: Tree, root: Id, x: Id)
    requires Structure(t, root) && Closed(t, root) && x in t && !t[x].freeing && t[x].adopters == []
    ensures MidWalk(t, Visit(t, x).0, root, x, 0, {x})
  {
    FirstLevel(t, root, x);
    assert [x] == [x] + [];
    VisitKeeps(t, t, root, x, 0, x, [], {});
    assert {} + {x} == {x};
    MarkLinks(t, root, x);
  }

  // ---- Where the freed part ends up ----

  /** Freeing allocators stay freeing and stay where they are, and nobody gains an adopter. */
  ghost predicate Settled(t: Tree, t': Tree) {
    && t'.Keys == t.Keys
    && (forall c, p {:trigger p in t'[c].adopters} :: c in t && p in t'[c].adopters ==> p in t[c].adopters)
    && forall n {:trigger t'[n].parent} {:trigger t'[n].freeing} {:trigger t[n].freeing} ::
         n in t && t[n].freeing ==> t'[n].freeing && t'[n].parent == t[n].parent
  }

  lemma VisitSettles(t: Tree, root: Id, c: Id)
    requires Structure(t, root) && c in t
    ensures Settled(t, Visit(t, c).0)
  {
    if t[c].freeing {
    } else if t[c].adopters != [] {
      PivotLinks(t, root, c);
    } else {
      DropFacts(t, root, c);
      MarkLinks(t, root, c);
    }
  }

  lemma {:induction false} VisitAllSettles(t: Tree, root: Id, ns: seq<Id>)
    requires Structure(t, root) && AllIn(ns, t)
    ensures Settled(t, VisitAll(t, root, ns).0)
    decreases |ns|
  {
    if ns != [] {
      AllInSplits(ns, t, t);
      VisitKeepsStructure(t, root, ns[0]);
      var t1 := Visit(t, ns[0]).0;
      AllInSplits(ns, t, t1);
      VisitSettles(t, root, ns[0]);
      VisitAllSettles(t1, root, ns[1..]);
      SettledTransitive(t, t1, VisitAll(t1, root, ns[1..]).0);
    }
  }

  lemma SettledTransitive(a: Tree, b: Tree, c: Tree)
    requires Settled(a, b) && Settled(b, c)
    ensures Settled(a, c)
  {
  }

  lemma LevelSettles(t: Tree, root: Id, x: Id, i: nat) returns (t': Tree)
    requires Structure(t, root) && x in t && i < MAX_DEPTH
    ensures Structure(t', root) && Settled(t, t') && x in t'
    ensures var w := Passes(t, root, x, i); w == Pivoted(t') || w == Freed(t') || w == Passes(t', root, x, i + 1)
  {
    var ns := Level(t, root, x, i);
    LevelIn(t, root, x, i);
    VisitAllKeepsStructure(t, root, ns);
    VisitAllSettles(t, root, ns);
    t' := VisitAll(t, root, ns).0;
  }

  lemma {:induction false} PassesSettle(t: Tree, root: Id, x: Id, i: nat)
    requires Structure(t, root) && x in t
    ensures Passes(t, root, x, i).TooDeep? || Settled(t, Passes(t, root, x, i).tree)
    decreases MAX_DEPTH - i
  {
    if i < MAX_DEPTH {
      var t' := LevelSettles(t, root, x, i);
      var w := Passes(t, root, x, i);
      if w == Passes(t', root, x, i + 1) {
        PassesSettle(t', root, x, i + 1);
        if !w.TooDeep? { SettledTransitive(t, t', w.tree); }
      }
    }
  }

  lemma FreedKeepsParent(t: Tree, root: Id, x: Id)
    requires Structure(t, root) && Closed(t, root) && x in t && !t[x].freeing && t[x].adopters == []
    requires Passes(t, root, x, 0).Freed?
    ensures var w := Passes(t, root, x, 0).tree; x in w && w[x].parent == t[x].parent && w[x].freeing
  {
    var t' := Visit(t, x).0;
    FirstStep(t, root, x);
    MarkLinks(t, root, x);
    assert t'[x].parent == t[x].parent && t'[x].freeing;
    PassesSettle(t', root, x, 1);
  }

  /**
   * The freed part is one subtree.  Allocators that were freeing before stay where they were, x keeps
   * its natural parent, and every other newly freed allocator hangs under a newly freed one.
   */
  lemma FreedPartHangs(t: Tree, root: Id, rank: map<Id, nat>, x: Id)
    requires WellFormed(t, root, rank) && x in t && !t[x].freeing && t[x].adopters == []
    requires Passes(t, root, x, 0).Freed?
    ensures var w := Passes(t, root, x, 0).tree;
            && Settled(t, w)
            && MarksHang(t, w, root, x)
            && w[x].parent == t[x].parent && w[x].freeing
  {
    FreedKeepsParent(t, root, x);
    FreedMarksHang(t, root, rank, x);
    PassesSettle(t, root, x, 0);
  }

  lemma FreedMarksHang(t: Tree, root: Id, rank: map<Id, nat>, x: Id)
    requires WellFormed(t, root, rank) && x in t && !t[x].freeing && t[x].adopters == []
    requires Passes(t, root, x, 0).Freed?
    ensures MarksHang(t, Passes(t, root, x, 0).tree, root, x)
  {
    WalkEnds(t, root, rank, x, Passes(t, root, x, 0));
  }

  // ---- The two ways out of the walk that free nothing ----

  /** An adopted allocator only changes parents: nothing is freed and the graph stays well formed. */
  lemma AdoptedOnlyPivots(t: Tree, root: Id, rank: map<Id, nat>, x: Id)
    requires WellFormed(t, root, rank) && x in t && !t[x].freeing && t[x].adopters != []
    ensures var w := Passes(t, root, x, 0);
            && w.Pivoted?
            && w.tree.Keys == t.Keys
            && WellFormed(w.tree, root, rank)
            && w.tree[x].parent == t[x].adopters[0]
            && w.tree[x].adopters == Remove(t[x].adopters, t[x].adopters[0])
            && (forall n {:trigger w.tree[n].freeing} :: n in t ==> w.tree[n].freeing == t[n].freeing)
            && (forall n {:trigger w.tree[n].parent} :: n in t && n != x ==>
                  w.tree[n].parent == t[n].parent && w.tree[n].adopters == t[n].adopters)
  {
    var t', p := Visit(t, x).0, t[x].adopters[0];
    assert p in t[x].adopters;
    AdopterIsLive(t, root, x, p);
    FirstVisit(t, root, x);
    VisitKeepsStructure(t, root, x);
    PivotLinks(t, root, x);
    PivotLinksAreOld(t, root, x);
    OldLinksRanked(t, t', root, rank);
    forall n {:trigger t'[n].parent} | n in t' && n != root && t'[n].parent in t' && t'[t'[n].parent].freeing
      ensures t'[n].freeing
    {
      assert n != x ==> t'[n].parent == t[n].parent;
    }
  }

  lemma PivotLinksAreOld(t: Tree, root: Id, c: Id)
    requires Structure(t, root) && c in t && c != root && !t[c].freeing && t[c].adopters != []
    ensures OnlyOldLinks(t, Visit(t, c).0, root)
  {
    var t' := Visit(t, c).0;
    PivotLinks(t, root, c);
    forall a, n {:trigger HasLink(t', root, a, n)} | HasLink(t', root, a, n) ensures HasLink(t, root, a, n) {
      assert n != c ==> t'[n].parent == t[n].parent;
    }
  }

  lemma DeepWalkHasChain(t: Tree, root: Id, rank: map<Id, nat>, x: Id) returns (path: seq<Id>)
    requires WellFormed(t, root, rank) && x in t && !t[x].freeing && t[x].adopters == []
    requires Passes(t, root, x, 0).TooDeep?
    ensures IsPath(LinkSet(t, root), path) && path[0] == x && |path| == MAX_DEPTH
  {
    WalkEnds(t, root, rank, x, Passes(t, root, x, 0));
    path :| IsPath(LinkSet(t, root), path) && path[0] == x && |path| == MAX_DEPTH;
  }

  /** The walk gives up only when 10000 allocators from x on are each a natural or an adopted child of the one before. */
  lemma WalkFinishes(t: Tree, root: Id, rank: map<Id, nat>, x: Id)
    requires WellFormed(t, root, rank) && x in t && !t[x].freeing
    requires forall path :: IsPath(LinkSet(t, root), path) && path[0] == x ==> |path| < MAX_DEPTH
    ensures !Passes(t, root, x, 0).TooDeep?
  {
    if t[x].adopters != [] {
      AdoptedOnlyPivots(t, root, rank, x);
    } else if Passes(t, root, x, 0).TooDeep? {
      var path := DeepWalkHasChain(t, root, rank, x);
    }
  }

  /** And it comes first among the children of its new parent; the other lists keep their order. */
  lemma PivotedGoesFirst(t: Tree, root: Id, rank: map<Id, nat>, x: Id, n: Id)
    requires WellFormed(t, root, rank) && x in t && !t[x].freeing && t[x].adopters != [] && n in t
    ensures var w := Passes(t, root, x, 0);
            && w.Pivoted? && n in w.tree
            && w.tree[n].kids == (if n == t[x].adopters[0] then [x] else []) + Remove(t[n].kids, x)
  {
    hide Passes, Visit, Ranked, Closed;
    AdoptedOnlyPivots(t, root, rank, x);
    PivotIsOneVisit(t, root, x);
    VisitedGoesFirst(t, root, x, n);
  }

  lemma PivotIsOneVisit(t: Tree, root: Id, x: Id)
    requires Structure(t, root) && x in t && t[x].adopters != []
    ensures Passes(t, root, x, 0) == Pivoted(Visit(t, x).0)
  {
    hide Structure;
    FirstVisit(t, root, x);
  }

  lemma VisitedGoesFirst(t: Tree, root: Id, x: Id, n: Id)
    requires Structure(t, root) && x in t && !t[x].freeing && t[x].adopters != [] && n in t
    ensures n in Visit(t, x).0
    ensures Visit(t, x).0[n].kids == (if n == t[x].adopters[0] then [x] else []) + Remove(t[n].kids, x)
  {
    hide Move, Unadopt;
    var p := t[x].adopters[0];
    assert p in t[x].adopters;
    MoveSameAdoptions(t, x, p);
    MovedGoesFirst(t, root, x, p, n);
    UnadoptSameNature(Move(t, x, p), p, x);
  }
}
