/**
 * The ownership graph of memory/Allocator.c as a value: every allocator has one natural parent and
 * any number of adopted ones, and freeing walks the tree level by level.
 */
module Ownership {
  import opened Links

  /** The lists are in program order, head first. */
  datatype Node = Node(
    parent: Id,
    kids: seq<Id>,
    adopters: seq<Id>,
    adoptees: seq<Id>,
    freeing: bool)

  type Tree = map<Id, Node>

  // ---- Lists ----

  function Remove(s: seq<Id>, x: Id): seq<Id> {
    if s == [] then [] else if s[0] == x then s[1..] else [s[0]] + Remove(s[1..], x)
  }

  ghost predicate Distinct(s: seq<Id>) {
    forall i, j :: 0 <= i < j < |s| ==> s[i] != s[j]
  }

  function Count(s: seq<Id>, x: Id): nat {
    if s == [] then 0 else (if s[0] == x then 1 else 0) + Count(s[1..], x)
  }

  lemma {:induction false} CountPositive(s: seq<Id>, x: Id)
    ensures x in s <==> Count(s, x) > 0
    decreases |s|
  {
    if s != [] { CountPositive(s[1..], x); }
  }

  lemma {:induction false} RemoveCounts(s: seq<Id>, x: Id, y: Id)
    ensures Count(Remove(s, x), y) == if y == x && x in s then Count(s, y) - 1 else Count(s, y)
    decreases |s|
  {
    if s != [] {
      if s[0] == x {
      } else {
        RemoveCounts(s[1..], x, y);
        assert ([s[0]] + Remove(s[1..], x))[1..] == Remove(s[1..], x);
      }
    }
    CountPositive(s, x);
  }

  lemma RemoveMembers(s: seq<Id>, x: Id)
    ensures forall y :: y != x ==> (y in Remove(s, x) <==> y in s)
    ensures forall y :: y in Remove(s, x) ==> y in s
  {
    forall y ensures y != x ==> (y in Remove(s, x) <==> y in s) && (y in Remove(s, x) ==> y in s) {
      RemoveCounts(s, x, y);
      CountPositive(s, y);
      CountPositive(Remove(s, x), y);
    }
    RemoveCounts(s, x, x);
    CountPositive(s, x);
    CountPositive(Remove(s, x), x);
  }

  lemma {:induction false} RemoveDistinct(s: seq<Id>, x: Id)
    requires Distinct(s)
    ensures Distinct(Remove(s, x)) && x !in Remove(s, x)
    decreases |s|
  {
    if s != [] && s[0] != x {
      RemoveDistinct(s[1..], x);
      RemoveMembers(s[1..], x);
      var r := Remove(s[1..], x);
      forall j | 0 <= j < |r| ensures r[j] != s[0] { assert r[j] in s[1..]; }
    }
  }

  // ---- Structure ----

  ghost predicate Parented(t: Tree, root: Id) {
    && root in t && t[root].parent == root && t[root].adopters == []
    && forall n {:trigger t[n].parent} :: n in t && n != root ==>
         t[n].parent in t && t[n].parent != n && n in t[t[n].parent].kids
  }

  ghost predicate KidsDistinct(t: Tree) {
    forall n {:trigger t[n].kids} :: n in t ==> Distinct(t[n].kids)
  }

  ghost predicate KidsPointBack(t: Tree, root: Id) {
    forall n, k {:trigger k in t[n].kids} :: n in t && k in t[n].kids ==> k in t && k != root && t[k].parent == n
  }

  ghost predicate KidsOk(t: Tree, root: Id) {
    KidsDistinct(t) && KidsPointBack(t, root)
  }

  /** Each adoption is in the child's list and in the parent's list, equally often. */
  ghost predicate Symmetric(t: Tree) {
    && (forall c, p {:trigger p in t[c].adopters} :: c in t && p in t[c].adopters ==> p in t && p != c)
    && (forall p, c {:trigger c in t[p].adoptees} :: p in t && c in t[p].adoptees ==> c in t && c != p)
    && (forall p, c {:trigger Count(t[c].adopters, p)} {:trigger Count(t[p].adoptees, c)} ::
          p in t && c in t ==> Count(t[c].adopters, p) == Count(t[p].adoptees, c))
  }

  ghost predicate FreeingHoldsNothing(t: Tree) {
    forall n {:trigger t[n].freeing} :: n in t && t[n].freeing ==> t[n].adopters == [] && t[n].adoptees == []
  }

  ghost predicate Structure(t: Tree, root: Id) {
    Parented(t, root) && KidsOk(t, root) && Symmetric(t) && FreeingHoldsNothing(t)
  }

  /** Outside a pivot pass, what hangs under a freeing allocator is freeing. */
  ghost predicate Closed(t: Tree, root: Id) {
    forall n {:trigger t[n].parent} ::
      n in t && n != root && t[n].parent in t && t[t[n].parent].freeing ==> t[n].freeing
  }

  ghost predicate HasLink(t: Tree, root: Id, p: Id, c: Id) {
    c in t && ((c != root && t[c].parent == p) || p in t[c].adopters)
  }

  ghost function LinkSet(t: Tree, root: Id): set<(Id, Id)> {
    set p, c | p in t && c in t && HasLink(t, root, p, c) :: (p, c)
  }

  ghost predicate WellFormed(t: Tree, root: Id, rank: map<Id, nat>) {
    && Structure(t, root)
    && Closed(t, root)
    && rank.Keys == t.Keys
    && Ranked(LinkSet(t, root), rank)
  }

  // ---- Moving and disowning ----

  /** The children of n once c has left its parent and become the first child of p. */
  function KidsAfterMove(t: Tree, c: Id, p: Id, n: Id): seq<Id>
    requires c in t && n in t
  {
    var left := if n == t[c].parent then Remove(t[n].kids, c) else t[n].kids;
    if n == p then [c] + left else left
  }

  /** `disconnect` followed by `connect`. */
  function Move(t: Tree, c: Id, p: Id): Tree
    requires c in t && p in t
  {
    map n | n in t :: t[n].(kids := KidsAfterMove(t, c, p, n), parent := if n == c then p else t[n].parent)
  }

  /** `disconnectAdopted` */
  function Unadopt(t: Tree, p: Id, c: Id): Tree
    requires p in t && c in t
  {
    map n | n in t ::
      t[n].(adoptees := if n == p then Remove(t[n].adoptees, c) else t[n].adoptees,
            adopters := if n == c then Remove(t[n].adopters, p) else t[n].adopters)
  }

  /** Two trees that differ in their natural links only. */
  ghost predicate SameAdoptions(t: Tree, t': Tree) {
    && t'.Keys == t.Keys
    && forall n :: n in t ==>
         t'[n].adopters == t[n].adopters && t'[n].adoptees == t[n].adoptees && t'[n].freeing == t[n].freeing
  }

  /** Two trees that differ in their adoptions only. */
  ghost predicate SameNature(t: Tree, t': Tree) {
    && t'.Keys == t.Keys
    && forall n :: n in t ==>
         t'[n].parent == t[n].parent && t'[n].kids == t[n].kids && t'[n].freeing == t[n].freeing
  }

  lemma SameAdoptionsKeep(t: Tree, t': Tree)
    requires SameAdoptions(t, t') && Symmetric(t) && FreeingHoldsNothing(t)
    ensures Symmetric(t') && FreeingHoldsNothing(t')
  {
  }

  lemma MovedKids(t: Tree, root: Id, c: Id, p: Id, n: Id)
    requires Parented(t, root) && KidsOk(t, root) && c in t && p in t && c != root && n in t
    ensures Distinct(KidsAfterMove(t, c, p, n))
    ensures forall k :: k in KidsAfterMove(t, c, p, n) <==> (k == c && n == p) || (k != c && k in t[n].kids)
  {
    RemoveDistinct(t[n].kids, c);
    RemoveMembers(t[n].kids, c);
    var left := if n == t[c].parent then Remove(t[n].kids, c) else t[n].kids;
    assert c !in left;
    assert forall j :: 0 <= j < |left| ==> left[j] != c;
  }

  lemma {:induction false} RemoveAbsent(s: seq<Id>, x: Id)
    requires x !in s
    ensures Remove(s, x) == s
    decreases |s|
  {
    if s != [] { RemoveAbsent(s[1..], x); }
  }

  /** An allocator that moves becomes the first child of its new parent and leaves every other list. */
  lemma MovedGoesFirst(t: Tree, root: Id, c: Id, p: Id, n: Id)
    requires KidsOk(t, root) && c in t && p in t && n in t
    ensures Move(t, c, p)[n].kids == (if n == p then [c] else []) + Remove(t[n].kids, c)
  {
    if n != t[c].parent {
      assert c !in t[n].kids;
      RemoveAbsent(t[n].kids, c);
    }
  }

  lemma MoveSameAdoptions(t: Tree, c: Id, p: Id)
    requires c in t && p in t
    ensures SameAdoptions(t, Move(t, c, p))
  {
  }

  lemma MoveKeepsParented(t: Tree, root: Id, c: Id, p: Id)
    requires Parented(t, root) && KidsOk(t, root) && c in t && p in t && c != root && c != p
    ensures Parented(Move(t, c, p), root)
  {
    var t' := Move(t, c, p);
    forall n | n in t' && n != root
      ensures t'[n].parent in t' && t'[n].parent != n && n in t'[t'[n].parent].kids
    {
      var q := t'[n].parent;
      assert n != c ==> q == t[n].parent;
      MovedKids(t, root, c, p, q);
    }
  }

  lemma MoveKeepsKidsDistinct(t: Tree, root: Id, c: Id, p: Id)
    requires Parented(t, root) && KidsOk(t, root) && c in t && p in t && c != root
    ensures KidsDistinct(Move(t, c, p))
  {
    var t' := Move(t, c, p);
    forall n | n in t' ensures Distinct(t'[n].kids) {
      MovedKids(t, root, c, p, n);
    }
  }

  lemma MoveKeepsKidsBack(t: Tree, root: Id, c: Id, p: Id)
    requires Parented(t, root) && KidsOk(t, root) && c in t && p in t && c != root && c != p
    ensures KidsPointBack(Move(t, c, p), root)
  {
    var t' := Move(t, c, p);
    forall n, k {:trigger k in t'[n].kids} | n in t' && k in t'[n].kids ensures k in t' && k != root && t'[k].parent == n {
      MovedKid(t, root, c, p, n, k);
    }
  }

  lemma MovedKid(t: Tree, root: Id, c: Id, p: Id, n: Id, k: Id)
    requires Parented(t, root) && KidsOk(t, root) && c in t && p in t && c != root && c != p
    requires n in t && k in KidsAfterMove(t, c, p, n)
    ensures k in t && k != root && Move(t, c, p)[k].parent == n
  {
    MovedKids(t, root, c, p, n);
    if k != c { assert k in t[n].kids; }
  }

  lemma MoveKeepsStructure(t: Tree, root: Id, c: Id, p: Id)
    requires Structure(t, root) && c in t && p in t && c != root && c != p
    ensures Structure(Move(t, c, p), root)
  {
    MoveSameAdoptions(t, c, p);
    SameAdoptionsKeep(t, Move(t, c, p));
    MoveKeepsParented(t, root, c, p);
    MoveKeepsKidsDistinct(t, root, c, p);
    MoveKeepsKidsBack(t, root, c, p);
  }

  lemma UnadoptCounts(t: Tree, p: Id, c: Id, a: Id, b: Id)
    requires Symmetric(t) && p in t && c in t && a in t && b in t
    ensures Count(Unadopt(t, p, c)[b].adopters, a) == Count(Unadopt(t, p, c)[a].adoptees, b)
  {
    assert Count(t[b].adopters, a) == Count(t[a].adoptees, b);
    assert Count(t[c].adopters, p) == Count(t[p].adoptees, c);
    RemoveCounts(t[c].adopters, p, a);
    RemoveCounts(t[p].adoptees, c, b);
    CountPositive(t[c].adopters, p);
    CountPositive(t[p].adoptees, c);
  }

  lemma UnadoptSameNature(t: Tree, p: Id, c: Id)
    requires p in t && c in t
    ensures SameNature(t, Unadopt(t, p, c))
  {
  }

  lemma SameNatureKeeps(t: Tree, t': Tree, root: Id)
    requires SameNature(t, t') && Parented(t, root) && KidsOk(t, root) && t'[root].adopters == []
    ensures Parented(t', root) && KidsOk(t', root)
  {
  }

  lemma UnadoptKeepsSymmetric(t: Tree, p: Id, c: Id)
    requires Symmetric(t) && p in t && c in t
    ensures Symmetric(Unadopt(t, p, c))
  {
    var t' := Unadopt(t, p, c);
    RemoveMembers(t[c].adopters, p);
    RemoveMembers(t[p].adoptees, c);
    forall a, b | a in t' && b in t' ensures Count(t'[b].adopters, a) == Count(t'[a].adoptees, b) {
      UnadoptCounts(t, p, c, a, b);
    }
  }

  lemma UnadoptHoldsNothing(t: Tree, p: Id, c: Id)
    requires FreeingHoldsNothing(t) && p in t && c in t
    ensures FreeingHoldsNothing(Unadopt(t, p, c))
  {
  }

  lemma UnadoptKeepsStructure(t: Tree, root: Id, p: Id, c: Id)
    requires Structure(t, root) && p in t && c in t
    ensures Structure(Unadopt(t, p, c), root)
  {
    UnadoptSameNature(t, p, c);
    SameNatureKeeps(t, Unadopt(t, p, c), root);
    UnadoptKeepsSymmetric(t, p, c);
    UnadoptHoldsNothing(t, p, c);
  }
}
