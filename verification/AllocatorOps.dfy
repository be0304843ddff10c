/**
 * The calls that change the ownership graph, and what every run of them keeps.
 */
module AllocatorOps {
  import opened Links
  import opened Ownership
  import opened Pivot

  // ---- isAncestorOf ----

  /** Every allocator is reachable from the root. */
  lemma {:induction false} RootReaches(t: Tree, root: Id, rank: map<Id, nat>, n: Id)
    requires WellFormed(t, root, rank) && n in t
    ensures Reaches(LinkSet(t, root), root, n)
    decreases rank[n]
  {
    if n == root {
      ReachesItself(LinkSet(t, root), root);
    } else {
      assert HasLink(t, root, t[n].parent, n);
      assert (t[n].parent, n) in LinkSet(t, root);
      RootReaches(t, root, rank, t[n].parent);
      ReachesOnward(LinkSet(t, root), root, t[n].parent, n);
    }
  }

  /** The recursion of `isAncestorOf` with a loop that does visit every adopted parent. */
  function IsAncestorOf(t: Tree, root: Id, ghost rank: map<Id, nat>, a: Id, c: Id): (r: bool)
    requires WellFormed(t, root, rank) && c in t
    ensures r <==> Reaches(LinkSet(t, root), a, c)
    decreases rank[c], |t[c].adopters| + 1
  {
    if a == c then
      ReachesItself(LinkSet(t, root), a);
      true
    else if c == root then
      NothingAboveRoot(t, root, rank, a);
      false
    else
      NaturalLink(t, root, rank, c);
      AncestorSplits(t, root, rank, a, c);
      IsAncestorOf(t, root, rank, a, t[c].parent) || IsAncestorOfAny(t, root, rank, a, c, t[c].adopters)
  }

  function IsAncestorOfAny(t: Tree, root: Id, ghost rank: map<Id, nat>, a: Id, c: Id, ps: seq<Id>): (r: bool)
    requires WellFormed(t, root, rank) && c in t && forall p :: p in ps ==> p in t[c].adopters
    ensures r <==> exists p :: p in ps && Reaches(LinkSet(t, root), a, p)
    decreases rank[c], |ps|
  {
    if ps == [] then false
    else
      AdoptedLink(t, root, rank, c, ps[0]);
      IsAncestorOf(t, root, rank, a, ps[0]) || IsAncestorOfAny(t, root, rank, a, c, ps[1..])
  }

  lemma NothingAboveRoot(t: Tree, root: Id, rank: map<Id, nat>, a: Id)
    requires WellFormed(t, root, rank) && a != root
    ensures !Reaches(LinkSet(t, root), a, root)
  {
    if Reaches(LinkSet(t, root), a, root) {
      var b := ReachesLast(LinkSet(t, root), a, root);
    }
  }

  lemma NaturalLink(t: Tree, root: Id, rank: map<Id, nat>, c: Id)
    requires WellFormed(t, root, rank) && c in t && c != root
    ensures t[c].parent in t && (t[c].parent, c) in LinkSet(t, root) && rank[t[c].parent] < rank[c]
  {
    assert HasLink(t, root, t[c].parent, c);
    assert (t[c].parent, c) in LinkSet(t, root);
  }

  lemma AdoptedLink(t: Tree, root: Id, rank: map<Id, nat>, c: Id, p: Id)
    requires WellFormed(t, root, rank) && c in t && p in t[c].adopters
    ensures p in t && (p, c) in LinkSet(t, root) && rank[p] < rank[c]
  {
    assert HasLink(t, root, p, c);
    assert (p, c) in LinkSet(t, root);
  }

  /** Reaching c from elsewhere means reaching its natural parent or one of its adopters. */
  lemma AncestorSplits(t: Tree, root: Id, rank: map<Id, nat>, a: Id, c: Id)
    requires WellFormed(t, root, rank) && c in t && c != root && a != c
    ensures Reaches(LinkSet(t, root), a, c) <==>
              Reaches(LinkSet(t, root), a, t[c].parent) ||
              exists p :: p in t[c].adopters && Reaches(LinkSet(t, root), a, p)
  {
    var links := LinkSet(t, root);
    if Reaches(links, a, c) {
      var b := ReachesLast(links, a, c);
      assert HasLink(t, root, b, c);
    }
    if Reaches(links, a, t[c].parent) {
      NaturalLink(t, root, rank, c);
      ReachesOnward(links, a, t[c].parent, c);
    }
    if p :| p in t[c].adopters && Reaches(links, a, p) {
      AdoptedLink(t, root, rank, c, p);
      ReachesOnward(links, a, p, c);
    }
  }

  // ---- isAncestorOf as it is written ----

  /** The loop over adopted parents never moves on: it ends only if the first one answers yes. */
  datatype Answer = Yes | No | Hangs

  function AsWritten(t: Tree, root: Id, ghost rank: map<Id, nat>, a: Id, c: Id): Answer
    requires WellFormed(t, root, rank) && c in t
    decreases rank[c]
  {
    if a == c then Yes
    else if c == root then No
    else
      NaturalLink(t, root, rank, c);
      match AsWritten(t, root, rank, a, t[c].parent)
      case Yes => Yes
      case Hangs => Hangs
      case No =>
        if t[c].adopters == [] then No
        else
          AdoptedLink(t, root, rank, c, t[c].adopters[0]);
          if AsWritten(t, root, rank, a, t[c].adopters[0]) == Yes then Yes else Hangs
  }

  /** An answer that comes back is right. */
  lemma {:induction false} AnswersAreRight(t: Tree, root: Id, rank: map<Id, nat>, a: Id, c: Id)
    requires WellFormed(t, root, rank) && c in t
    ensures AsWritten(t, root, rank, a, c) == Yes ==> Reaches(LinkSet(t, root), a, c)
    ensures AsWritten(t, root, rank, a, c) == No ==> !Reaches(LinkSet(t, root), a, c)
    decreases rank[c]
  {
    if a == c {
      ReachesItself(LinkSet(t, root), a);
    } else if c == root {
      NothingAboveRoot(t, root, rank, a);
    } else {
      NaturalLink(t, root, rank, c);
      AnswersAreRight(t, root, rank, a, t[c].parent);
      AncestorSplits(t, root, rank, a, c);
      if t[c].adopters != [] {
        AdoptedLink(t, root, rank, c, t[c].adopters[0]);
        AnswersAreRight(t, root, rank, a, t[c].adopters[0]);
      }
    }
  }

  /** Some allocator on the line of natural parents from c to the root has been adopted. */
  predicate AdoptedOnLine(t: Tree, root: Id, ghost rank: map<Id, nat>, c: Id)
    requires WellFormed(t, root, rank) && c in t
    decreases rank[c]
  {
    c != root &&
    (NaturalLink(t, root, rank, c);
     t[c].adopters != [] || AdoptedOnLine(t, root, rank, t[c].parent))
  }

  /** The allocator a is on the line of natural parents from c to the root. */
  predicate OnLine(t: Tree, root: Id, ghost rank: map<Id, nat>, a: Id, c: Id)
    requires WellFormed(t, root, rank) && c in t
    decreases rank[c]
  {
    a == c || (c != root && (NaturalLink(t, root, rank, c); OnLine(t, root, rank, a, t[c].parent)))
  }

  /** The first adopter of the adopted allocator nearest the root on that line. */
  function TopAdopter(t: Tree, root: Id, ghost rank: map<Id, nat>, c: Id): (p: Id)
    requires WellFormed(t, root, rank) && c in t && AdoptedOnLine(t, root, rank, c)
    ensures p in t && rank[p] < rank[c]
    decreases rank[c]
  {
    NaturalLink(t, root, rank, c);
    if AdoptedOnLine(t, root, rank, t[c].parent) then TopAdopter(t, root, rank, t[c].parent)
    else
      AdoptedLink(t, root, rank, c, t[c].adopters[0]);
      t[c].adopters[0]
  }

  /** The one way on the search takes from a line is through that adopter. */
  predicate Found(t: Tree, root: Id, ghost rank: map<Id, nat>, a: Id, c: Id)
    requires WellFormed(t, root, rank) && c in t
    decreases rank[c]
  {
    || OnLine(t, root, rank, a, c)
    || (AdoptedOnLine(t, root, rank, c) && Found(t, root, rank, a, TopAdopter(t, root, rank, c)))
  }

  /**
   * What the call does, for every pair.  It answers yes exactly when a is found, no exactly when a is
   * not found and nothing on the line of natural parents of c has been adopted, and otherwise hangs.
   */
  lemma {:induction false} ReturnsExactly(t: Tree, root: Id, rank: map<Id, nat>, a: Id, c: Id)
    requires WellFormed(t, root, rank) && c in t
    ensures AsWritten(t, root, rank, a, c) == Yes <==> Found(t, root, rank, a, c)
    ensures AsWritten(t, root, rank, a, c) == No <==>
              !Found(t, root, rank, a, c) && !AdoptedOnLine(t, root, rank, c)
    decreases rank[c]
  {
    if a != c && c != root {
      NaturalLink(t, root, rank, c);
      ReturnsExactly(t, root, rank, a, t[c].parent);
      if t[c].adopters != [] {
        AdoptedLink(t, root, rank, c, t[c].adopters[0]);
        ReturnsExactly(t, root, rank, a, t[c].adopters[0]);
      }
    }
  }

  /** Three children of the root, the last adopted by the first and then the second. */
  function TwiceAdopted(): Tree {
    map[0 := Node(0, [1, 2, 3], [], [], false),
        1 := Node(0, [], [], [3], false),
        2 := Node(0, [], [], [3], false),
        3 := Node(0, [], [1, 2], [], false)]
  }

  lemma TwiceAdoptedParented()
    ensures Parented(TwiceAdopted(), 0) && FreeingHoldsNothing(TwiceAdopted()) && Closed(TwiceAdopted(), 0)
  {
  }

  lemma TwiceAdoptedKids()
    ensures KidsOk(TwiceAdopted(), 0)
  {
  }

  /** How often each is adopted by each. */
  lemma TwiceAdoptedCounts(p: Id)
    ensures Count([1, 2], p) == (if p == 1 || p == 2 then 1 else 0) && Count([3], p) == if p == 3 then 1 else 0
  {
    assert [1, 2][1..] == [2] && [2][1..] == [] && [3][1..] == [];
    assert Count([2], p) == if p == 2 then 1 else 0;
  }

  lemma TwiceAdoptedSymmetric()
    ensures Symmetric(TwiceAdopted())
  {
    hide Count;
    var t := TwiceAdopted();
    forall p, c | p in t && c in t ensures Count(t[c].adopters, p) == Count(t[p].adoptees, c) {
      TwiceAdoptedCounts(p);
      TwiceAdoptedCounts(c);
      NoneCounted(p);
      NoneCounted(c);
    }
  }

  lemma NoneCounted(p: Id)
    ensures Count([], p) == 0
  {
  }

  lemma TwiceAdoptedRanked()
    ensures Ranked(LinkSet(TwiceAdopted(), 0), map[0 := 0, 1 := 1, 2 := 1, 3 := 2])
  {
    var t, rank := TwiceAdopted(), map[0 := 0, 1 := 1, 2 := 1, 3 := 2];
    forall l | l in LinkSet(t, 0) ensures l.0 in rank && l.1 in rank && rank[l.0] < rank[l.1] {
      assert HasLink(t, 0, l.0, l.1);
    }
  }

  lemma TwiceAdoptedWellFormed()
    ensures WellFormed(TwiceAdopted(), 0, map[0 := 0, 1 := 1, 2 := 1, 3 := 2])
  {
    hide Parented, KidsOk, FreeingHoldsNothing, Closed, Symmetric, Ranked;
    TwiceAdoptedParented();
    TwiceAdoptedKids();
    TwiceAdoptedSymmetric();
    TwiceAdoptedRanked();
  }

  /** There the call does not come back though 2 is an ancestor of 3: the loop stays with adopter 1. */
  lemma HangsOnAncestor()
    ensures var t, rank := TwiceAdopted(), map[0 := 0, 1 := 1, 2 := 1, 3 := 2];
            WellFormed(t, 0, rank) && Reaches(LinkSet(t, 0), 2, 3) && AsWritten(t, 0, rank, 2, 3) == Hangs
  {
    var t, rank := TwiceAdopted(), map[0 := 0, 1 := 1, 2 := 1, 3 := 2];
    hide WellFormed;
    TwiceAdoptedWellFormed();
    AdoptedLink(t, 0, rank, 3, 2);
    ReachesItself(LinkSet(t, 0), 2);
    ReachesOnward(LinkSet(t, 0), 2, 2, 3);
    assert AsWritten(t, 0, rank, 2, 0) == No;
    assert AsWritten(t, 0, rank, 2, 1) == No;
  }

  // ---- A new child ----

  function AddChild(t: Tree, p: Id, id: Id): Tree
    requires p in t
  {
    map n | n in t.Keys + {id} ::
      if n == id then Node(p, [], [], [], t[p].freeing)
      else if n == p then t[n].(kids := [id] + t[n].kids)
      else t[n]
  }

  lemma ChildParented(t: Tree, root: Id, p: Id, id: Id)
    requires Parented(t, root) && p in t && id !in t
    ensures Parented(AddChild(t, p, id), root)
  {
    var t' := AddChild(t, p, id);
    forall n {:trigger t'[n].parent} | n in t' && n != root
      ensures t'[n].parent in t' && t'[n].parent != n && n in t'[t'[n].parent].kids
    {
      if n != id { assert t'[n].parent == t[n].parent; }
    }
  }

  lemma ChildKids(t: Tree, root: Id, p: Id, id: Id)
    requires KidsOk(t, root) && p in t && id !in t && root in t
    ensures KidsOk(AddChild(t, p, id), root)
  {
    var t' := AddChild(t, p, id);
    forall n, k {:trigger k in t'[n].kids} | n in t' && k in t'[n].kids
      ensures k in t' && k != root && t'[k].parent == n
    {
      if k != id { assert k in t[n].kids; }
    }
    forall n {:trigger t'[n].kids} | n in t' ensures Distinct(t'[n].kids) {
      if n == p {
        forall j | 0 <= j < |t[p].kids| ensures t[p].kids[j] != id { assert t[p].kids[j] in t[p].kids; }
      }
    }
  }

  lemma ChildSymmetric(t: Tree, p: Id, id: Id)
    requires Symmetric(t) && p in t && id !in t
    ensures Symmetric(AddChild(t, p, id))
  {
    var t' := AddChild(t, p, id);
    forall a, b {:trigger Count(t'[b].adopters, a)} {:trigger Count(t'[a].adoptees, b)} | a in t' && b in t'
      ensures Count(t'[b].adopters, a) == Count(t'[a].adoptees, b)
    {
      if a != id && b != id {
        assert Count(t[b].adopters, a) == Count(t[a].adoptees, b);
      } else if a == id && b != id {
        CountPositive(t[b].adopters, id);
        assert id in t[b].adopters ==> id in t;
      } else if b == id && a != id {
        CountPositive(t[a].adoptees, id);
        assert id in t[a].adoptees ==> id in t;
      }
    }
  }

  lemma ChildKeepsWellFormed(t: Tree, root: Id, rank: map<Id, nat>, p: Id, id: Id)
    requires WellFormed(t, root, rank) && p in t && id !in t
    ensures WellFormed(AddChild(t, p, id), root, rank[id := rank[p] + 1])
  {
    var t', rank' := AddChild(t, p, id), rank[id := rank[p] + 1];
    ChildParented(t, root, p, id);
    ChildKids(t, root, p, id);
    ChildSymmetric(t, p, id);
    assert FreeingHoldsNothing(t');
    assert Closed(t', root);
    forall l | l in LinkSet(t', root) ensures l.0 in rank' && l.1 in rank' && rank'[l.0] < rank'[l.1] {
      ChildLink(t, root, rank, p, id, l.0, l.1);
    }
  }

  lemma ChildLink(t: Tree, root: Id, rank: map<Id, nat>, p: Id, id: Id, a: Id, c: Id)
    requires WellFormed(t, root, rank) && p in t && id !in t
    requires HasLink(AddChild(t, p, id), root, a, c)
    ensures if c == id then a == p else a in t && c in t && rank[a] < rank[c]
  {
    if c != id {
      assert HasLink(t, root, a, c);
      if c != root && t[c].parent == a {
        NaturalLink(t, root, rank, c);
      } else {
        AdoptedLink(t, root, rank, c, a);
      }
    }
  }

  // ---- Adoption ----

  function AddAdoption(t: Tree, p: Id, c: Id): Tree
    requires p in t && c in t
  {
    map n | n in t ::
      t[n].(adoptees := if n == p then [c] + t[n].adoptees else t[n].adoptees,
            adopters := if n == c then [p] + t[n].adopters else t[n].adopters)
  }

  lemma AdoptionSymmetric(t: Tree, p: Id, c: Id)
    requires Symmetric(t) && p in t && c in t && p != c
    ensures Symmetric(AddAdoption(t, p, c))
  {
    var t' := AddAdoption(t, p, c);
    forall a, b {:trigger Count(t'[b].adopters, a)} {:trigger Count(t'[a].adoptees, b)} | a in t' && b in t'
      ensures Count(t'[b].adopters, a) == Count(t'[a].adoptees, b)
    {
      assert Count(t[b].adopters, a) == Count(t[a].adoptees, b);
      assert ([p] + t[c].adopters)[1..] == t[c].adopters;
      assert ([c] + t[p].adoptees)[1..] == t[p].adoptees;
    }
  }

  lemma AdoptionLinks(t: Tree, root: Id, p: Id, c: Id)
    requires p in t && c in t
    ensures LinkSet(AddAdoption(t, p, c), root) <= LinkSet(t, root) + {(p, c)}
  {
    var t' := AddAdoption(t, p, c);
    forall l | l in LinkSet(t', root) ensures l in LinkSet(t, root) + {(p, c)} {
      assert HasLink(t', root, l.0, l.1);
      if l != (p, c) { assert HasLink(t, root, l.0, l.1); }
    }
  }

  lemma AdoptionKeepsWellFormed(t: Tree, root: Id, rank: map<Id, nat>, p: Id, c: Id)
    requires WellFormed(t, root, rank) && p in t && c in t && !t[p].freeing && !t[c].freeing
    requires !Reaches(LinkSet(t, root), c, p)
    ensures WellFormed(AddAdoption(t, p, c), root, Lifted(LinkSet(t, root), rank, p, c))
  {
    var t' := AddAdoption(t, p, c);
    assert c != p by { ReachesItself(LinkSet(t, root), c); }
    assert c != root by { RootReaches(t, root, rank, p); }
    AdoptionSymmetric(t, p, c);
    assert SameNature(t, t');
    SameNatureKeeps(t, t', root);
    assert FreeingHoldsNothing(t');
    assert Closed(t', root);
    LinkKeepsRanked(LinkSet(t, root), rank, p, c);
    AdoptionLinks(t, root, p, c);
  }

  lemma UnadoptKeepsWellFormed(t: Tree, root: Id, rank: map<Id, nat>, p: Id, c: Id)
    requires WellFormed(t, root, rank) && p in t && c in t
    ensures WellFormed(Unadopt(t, p, c), root, rank)
  {
    var t' := Unadopt(t, p, c);
    UnadoptKeepsStructure(t, root, p, c);
    RemoveMembers(t[c].adopters, p);
    assert Closed(t', root);
    forall a, n {:trigger HasLink(t', root, a, n)} | HasLink(t', root, a, n) ensures HasLink(t, root, a, n) { }
    OldLinksRanked(t, t', root, rank);
  }

  // ---- Release ----

  ghost predicate Under(t: Tree, root: Id, x: Id, n: Id) {
    exists d: nat :: Below(t, root, x, n, d)
  }

  /** A freed allocator and everything under it leave the tree. */
  ghost function Prune(t: Tree, root: Id, x: Id): Tree
    requires x in t
  {
    map n | n in t && !Under(t, root, x, n) ::
      if n == t[x].parent then t[n].(kids := Remove(t[n].kids, x)) else t[n]
  }

  lemma UnderParent(t: Tree, root: Id, x: Id, n: Id)
    requires n in t && n != root
    ensures Under(t, root, x, n) <==> n == x || Under(t, root, x, t[n].parent)
  {
    if Under(t, root, x, n) {
      var d: nat :| Below(t, root, x, n, d);
      if d > 0 { assert Below(t, root, x, t[n].parent, d - 1); }
    }
    if n == x { assert Below(t, root, x, n, 0); }
    if Under(t, root, x, t[n].parent) {
      var d: nat :| Below(t, root, x, t[n].parent, d);
      assert Below(t, root, x, n, d + 1);
    }
  }

  /** Everything under a freeing allocator is freeing. */
  lemma {:induction false} BelowFreeing(t: Tree, root: Id, x: Id, n: Id, d: nat)
    requires Closed(t, root) && x in t && t[x].freeing && Below(t, root, x, n, d)
    ensures t[n].freeing
    decreases d
  {
    if d > 0 { BelowFreeing(t, root, x, t[n].parent, d - 1); }
  }

  lemma UnderFreeing(t: Tree, root: Id, x: Id, n: Id)
    requires Closed(t, root) && x in t && t[x].freeing && Under(t, root, x, n)
    ensures n in t && t[n].freeing
  {
    var d: nat :| Below(t, root, x, n, d);
    BelowFreeing(t, root, x, n, d);
  }

  lemma NotUnderRoot(t: Tree, root: Id, x: Id)
    requires x != root
    ensures !Under(t, root, x, root)
  {
  }

  lemma PruneParented(t: Tree, root: Id, x: Id)
    requires Structure(t, root) && x in t && x != root
    ensures Parented(Prune(t, root, x), root)
  {
    var t' := Prune(t, root, x);
    NotUnderRoot(t, root, x);
    RemoveMembers(t[t[x].parent].kids, x);
    forall n {:trigger t'[n].parent} | n in t' && n != root
      ensures t'[n].parent in t' && t'[n].parent != n && n in t'[t'[n].parent].kids
    {
      assert t'[n].parent == t[n].parent;
      UnderParent(t, root, x, n);
    }
  }

  lemma PruneKids(t: Tree, root: Id, x: Id)
    requires Structure(t, root) && x in t && x != root
    ensures KidsOk(Prune(t, root, x), root)
  {
    var t' := Prune(t, root, x);
    RemoveDistinct(t[t[x].parent].kids, x);
    RemoveMembers(t[t[x].parent].kids, x);
    forall n, k {:trigger k in t'[n].kids} | n in t' && k in t'[n].kids
      ensures k in t' && k != root && t'[k].parent == n
    {
      assert k in t[n].kids;
      UnderParent(t, root, x, k);
      assert k != x;
    }
    forall n {:trigger t'[n].kids} | n in t' ensures Distinct(t'[n].kids) { }
  }

  lemma PruneAdoptions(t: Tree, root: Id, x: Id)
    requires Structure(t, root) && Closed(t, root) && x in t && x != root && t[x].freeing
    ensures Symmetric(Prune(t, root, x)) && FreeingHoldsNothing(Prune(t, root, x))
  {
    var t' := Prune(t, root, x);
    forall c, p {:trigger p in t'[c].adopters} | c in t' && p in t'[c].adopters ensures p in t' && p != c {
      assert p in t[c].adopters;
      AdopterIsLive(t, root, c, p);
      if Under(t, root, x, p) { UnderFreeing(t, root, x, p); }
    }
    forall p, c {:trigger c in t'[p].adoptees} | p in t' && c in t'[p].adoptees ensures c in t' && c != p {
      assert c in t[p].adoptees;
      AdopteeIsLive(t, root, p, c);
      if Under(t, root, x, c) { UnderFreeing(t, root, x, c); }
    }
    forall p, c {:trigger Count(t'[c].adopters, p)} {:trigger Count(t'[p].adoptees, c)} | p in t' && c in t'
      ensures Count(t'[c].adopters, p) == Count(t'[p].adoptees, c)
    {
      assert Count(t[c].adopters, p) == Count(t[p].adoptees, c);
    }
  }

  ghost function Restrict(rank: map<Id, nat>, t: Tree): map<Id, nat> {
    map n | n in rank && n in t :: rank[n]
  }

  /** Releasing a freed allocator keeps the graph of the others well formed. */
  lemma PruneKeepsWellFormed(t: Tree, root: Id, rank: map<Id, nat>, x: Id)
    requires WellFormed(t, root, rank) && x in t && x != root && t[x].freeing
    ensures WellFormed(Prune(t, root, x), root, Restrict(rank, Prune(t, root, x)))
  {
    var t' := Prune(t, root, x);
    PruneParented(t, root, x);
    PruneKids(t, root, x);
    PruneAdoptions(t, root, x);
    assert Closed(t', root);
    forall l | l in LinkSet(t', root) ensures l in LinkSet(t, root) {
      assert HasLink(t', root, l.0, l.1);
      assert HasLink(t, root, l.0, l.1);
    }
  }
}
