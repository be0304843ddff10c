/**
 * What each operation on the tree brings about, which operations undo which, and exactly when one ends
 * the program.
 */
module ArenaEffects {
  import opened Prelude
  import opened Links
  import opened Ownership
  import opened Pivot
  import opened AllocatorOps
  import opened Sums
  import opened Arena
  import opened ArenaInvariant
  import opened ArenaProperties

  // ---- Sizes ----

  /** The real size is the least multiple of eight with room for the request and the header. */
  lemma RealSizeIsLeast(requested: nat, k: nat)
    requires requested <= TWO_64 - 40
    ensures RealSize(requested) % 8 == 0 && RealSize(requested) >= requested + BLOCK_HEADER
    ensures 8 * k >= requested + BLOCK_HEADER ==> 8 * k >= RealSize(requested)
  {
  }

  /** A new root has the room its limit says beside its own block, or all but that of 2^63 - 1 bytes. */
  lemma NewArenaExactly(sizeLimit: nat, root: Id, provided: bool)
    ensures var o := NewArena(sizeLimit, root, provided);
            && (o.Some? <==> provided && sizeLimit + 152 < TWO_63)
            && (o.Some? ==>
                  && o.value.spaceAvailable == (if sizeLimit == 0 then TWO_63 - 1 - 152 else sizeLimit)
                  && o.value.maxSpace == o.value.spaceAvailable + 152)
  {
    RootSizes();
  }

  // ---- Blocks ----

  /**
   * Giving a block back takes exactly it from the list; resizing is giving it back and taking a new one
   * in its place, and is refused only when the limit or the provider refuses that.
   */
  lemma ResizeExactly(a: Arena, n: Id, i: nat, requested: nat, given: Option<Id>)
    requires Accounted(a) && n in a.tree && i < |a.blocks[n]|
    requires forall k :: 0 <= k < i ==> a.blocks[n][k].at != a.blocks[n][i].at
    ensures var b, size := a.blocks[n][i], RealSize(requested);
            var back, o := Realloc(a, n, b.at, 0, given), Realloc(a, n, b.at, requested, given);
            && back.Next?
            && back.arena == a.(blocks := a.blocks[n := Without(a.blocks[n], i)],
                                allocatedHere := a.allocatedHere[n := a.allocatedHere[n] - b.size],
                                spaceAvailable := a.spaceAvailable + b.size)
            && (requested > 0 ==>
                  && (o.Next? <==> given.Some? && size <= back.arena.spaceAvailable) && !o.Ended?
                  && (o.Next? ==>
                        o.arena == a.(blocks := a.blocks[n := a.blocks[n][i := Block(given.value, size)]],
                                      allocatedHere := a.allocatedHere[n := back.arena.allocatedHere[n] + size],
                                      spaceAvailable := back.arena.spaceAvailable - size)))
  {
    hide RealSize;
    var list := a.blocks[n];
    assert a.allocatedHere[n] == Bytes(list);
    BlockWithinSum(list, i);
    assert Position(list, list[i].at) == i;
    if given.Some? {
      assert list[..i] + [Block(given.value, RealSize(requested))] + list[i + 1..] ==
             list[i := Block(given.value, RealSize(requested))];
    }
  }

  function Without(s: seq<Block>, i: nat): seq<Block>
    requires i < |s|
  {
    s[..i] + s[i + 1..]
  }

  /** A block the allocator did not hand out cannot be resized. */
  lemma ForeignBlock(a: Arena, n: Id, block: Id, requested: nat, given: Option<Id>)
    requires Accounted(a) && n in a.tree
    ensures (forall i :: 0 <= i < |a.blocks[n]| ==> a.blocks[n][i].at != block) ==>
              Realloc(a, n, block, requested, given) == Aborted
  {
  }

  // ---- Children ----

  /** A new child hangs first under its parent, with its own block and nothing else. */
  lemma ChildMade(a: Arena, root: Id, p: Id, id: Id, provided: bool)
    requires Inv(a, root) && p in a.tree && id !in a.tree
    ensures var o := Child(a, p, id, provided);
            && (o.Next? <==> provided && a.spaceAvailable > 120) && !o.Ended?
            && (o.Next? ==>
                  && o.arena.tree.Keys == a.tree.Keys + {id}
                  && o.arena.tree[id] == Node(p, [], [], [], a.tree[p].freeing)
                  && o.arena.tree[p] == a.tree[p].(kids := [id] + a.tree[p].kids)
                  && (forall n :: n in a.tree && n != p ==> o.arena.tree[n] == a.tree[n])
                  && o.arena == a.(tree := o.arena.tree, blocks := a.blocks[id := [Block(id, 120)]],
                                   allocatedHere := a.allocatedHere[id := 120],
                                   spaceAvailable := a.spaceAvailable - 120))
  {
    hide Inv;
    RootSizes();
  }

  /** The walk over a live leaf that nobody adopted marks it and ends. */
  lemma LeafIsFreed(t: Tree, root: Id, x: Id)
    requires Structure(t, root) && x in t && !t[x].freeing
    requires t[x].kids == [] && t[x].adopters == [] && t[x].adoptees == []
    ensures Passes(t, root, x, 0) == Freed(t[x := t[x].(freeing := true)])
  {
    var t1 := t[x := t[x].(freeing := true)];
    LevelIn(t, root, x, 0);
    VisitAllKeepsStructure(t, root, Level(t, root, x, 0));
    assert Visit(t, x) == (t1, 1);
    FirstVisit(t, root, x);
    VisitKeepsStructure(t, root, x);
    assert Level(t1, root, x, 1) == [];
    LevelIn(t1, root, x, 1);
    assert VisitAll(t1, root, []) == (t1, 0);
  }

  lemma LeafUnder(t: Tree, root: Id, x: Id)
    requires Structure(t, root) && x in t && t[x].kids == []
    ensures UnderSet(t, root, x) == {x}
  {
    UnderItself(t, root, x);
    forall n | n in UnderSet(t, root, x) ensures n == x {
      if n != x { var k := UnderSplits(t, root, x, n); }
    }
  }

  /** What is left once a live leaf without jobs has been freed. */
  ghost function LeafGone(a: Arena, root: Id, x: Id): Arena
    requires x in a.tree && x in a.allocatedHere
  {
    a.(tree := Prune(a.tree[x := a.tree[x].(freeing := true)], root, x),
       spaceAvailable := a.spaceAvailable + a.allocatedHere[x],
       allocatedHere := a.allocatedHere - {x}, blocks := a.blocks - {x}, adoptionRecords := a.adoptionRecords - {x})
  }

  lemma FreeOfLeaf(a: Arena, root: Id, x: Id, async: set<JobId>)
    requires Structure(a.tree, root) && a.allocatedHere.Keys == a.tree.Keys && x in a.tree && x != root
    requires !a.tree[x].freeing && !a.tree[a.tree[x].parent].freeing
    requires a.tree[x].kids == [] && a.tree[x].adopters == [] && a.tree[x].adoptees == []
    requires NoJobsAt(a, x) && forall j :: j in a.jobs ==> a.jobs[j].owner in a.tree
    ensures Free(a, root, x, async) == Next(LeafGone(a, root, x))
  {
    hide Passes, RunJobs, Marshal, Prune, UnderSet;
    LeafIsFreed(a.tree, root, x);
    MarkedLeafStructure(a.tree, root, x);
    var r := a.(tree := a.tree[x := a.tree[x].(freeing := true)]);
    LeafUnder(r.tree, root, x);
    JobsUntouched(r, root, x, async);
    SumOne(a.allocatedHere, x);
  }

  /** Freeing a new child gives back the arena as it was. */
  lemma FreeUndoesChild(a: Arena, root: Id, p: Id, id: Id, async: set<JobId>)
    requires Inv(a, root) && p in a.tree && id !in a.tree && !a.tree[p].freeing && Child(a, p, id, true).Next?
    ensures var a1 := Child(a, p, id, true).arena;
            Structure(a1.tree, root) && id in a1.tree && a1.allocatedHere.Keys == a1.tree.Keys &&
            Free(a1, root, id, async) == Next(a)
  {
    hide Inv, Structure, Free, Child, LeafGone, NoJobsAt, Sound, Closed, Sum;
    ChildMade(a, root, p, id, true);
    ChildKeepsInv(a, root, p, id, true);
    var a1 := Child(a, p, id, true).arena;
    RootStays(a, root);
    RootStays(a1, root);
    NewHasNoJobs(a, a1, root, id);
    FreeOfLeaf(a1, root, id, async);
    IsRecorded(a, root);
    LeafUndone(a, a1, root, p, id);
  }

  lemma IsRecorded(a: Arena, root: Id)
    requires Inv(a, root)
    ensures Recorded(a)
  {
  }

  lemma LeafUndone(a: Arena, a1: Arena, root: Id, p: Id, id: Id)
    requires p in a.tree && id !in a.tree && a.blocks.Keys == a.allocatedHere.Keys == a.tree.Keys && Recorded(a)
    requires Child(a, p, id, true) == Next(a1) && Structure(a1.tree, root)
    ensures id in a1.tree && id in a1.allocatedHere && LeafGone(a1, root, id) == a
  {
    hide Structure, Prune, RealSize, UnderSet;
    MarkedLeafStructure(a1.tree, root, id);
    LeafUnder(a1.tree[id := a1.tree[id].(freeing := true)], root, id);
    PruneUndoes(a.tree, root, p, id, a1.tree[id := a1.tree[id].(freeing := true)]);
    assert a1.blocks - {id} == a.blocks && a1.allocatedHere - {id} == a.allocatedHere;
    RecordsInTree(a);
    assert a.adoptionRecords - {id} == a.adoptionRecords;
  }

  lemma RecordsInTree(a: Arena)
    requires Recorded(a)
    ensures a.adoptionRecords <= a.tree.Keys
  {
  }

  lemma MarkedLeafStructure(t: Tree, root: Id, x: Id)
    requires Structure(t, root) && x in t && t[x].adopters == [] && t[x].adoptees == []
    ensures Structure(t[x := t[x].(freeing := true)], root)
  {
  }

  lemma NewHasNoJobs(a: Arena, a1: Arena, root: Id, id: Id)
    requires Inv(a, root) && id !in a.tree && a1.jobs == a.jobs && a1.tree.Keys == a.tree.Keys + {id}
    ensures NoJobsAt(a1, id) && forall j :: j in a1.jobs ==> a1.jobs[j].owner in a1.tree
  {
    forall j | j in a.jobs ensures a.jobs[j].owner in a.tree { OwnerThere(a, root, j); }
  }

  lemma OwnerThere(a: Arena, root: Id, job: JobId)
    requires Inv(a, root) && job in a.jobs
    ensures a.jobs[job].owner in a.tree
  {
    assert Placed(a.tree, root, a.jobs[job]);
  }

  /** A free of a part without jobs leaves the jobs alone. */
  lemma JobsUntouched(a: Arena, root: Id, x: Id, async: set<JobId>)
    requires UnderSet(a.tree, root, x) == {x} && NoJobsAt(a, x) && forall j :: j in a.jobs ==> a.jobs[j].owner in a.tree
    ensures RunJobs(Marshal(a, root, x), x, async) == a
  {
    forall j | j in a.jobs ensures !Under(a.tree, root, x, a.jobs[j].owner) {
      assert a.jobs[j].owner !in UnderSet(a.tree, root, x);
    }
    assert Marshal(a, root, x).jobs == a.jobs;
    var r := RunJobs(a, x, async);
    assert r.jobs == a.jobs;
    assert r.timesCalled == a.timesCalled;
  }

  lemma PruneUndoes(t: Tree, root: Id, p: Id, id: Id, t': Tree)
    requires p in t && id !in t && p != id && UnderSet(t', root, id) == {id}
    requires t' == AddChild(t, p, id)[id := AddChild(t, p, id)[id].(freeing := true)]
    ensures Prune(t', root, id) == t
  {
    assert Remove([id] + t[p].kids, id) == t[p].kids;
    forall n | n in t' ensures Under(t', root, id, n) <==> n == id {
      assert n in UnderSet(t', root, id) <==> Under(t', root, id, n);
    }
    assert Prune(t', root, id).Keys == t.Keys;
  }

  // ---- Adoptions ----

  /** What an adoption takes from the limit. */
  function AdoptionCost(a: Arena, p: Id, c: Id): nat {
    96 + (if p in a.adoptionRecords then 0 else 48) + (if c in a.adoptionRecords then 0 else 48)
  }

  /** Who pays: each for its own lists, the child for both entries. */
  function AdoptionBill(a: Arena, p: Id, c: Id): map<Id, nat>
    requires p in a.allocatedHere && c in a.allocatedHere
  {
    a.allocatedHere[p := a.allocatedHere[p] + if p in a.adoptionRecords then 0 else 48]
      [c := a.allocatedHere[c] + 96 + if c in a.adoptionRecords then 0 else 48]
  }

  /** The provider answers every request of the adoption. */
  predicate Granted(a: Arena, p: Id, c: Id, g: Grants) {
    && (p in a.adoptionRecords || g.parentLists.Some?) && (c in a.adoptionRecords || g.childLists.Some?)
    && g.childEntry.Some? && g.parentEntry.Some?
  }

  /** There is one more link, from p to c, first in both lists, and nothing else in the tree has changed. */
  ghost predicate Adopts(t: Tree, t': Tree, root: Id, p: Id, c: Id)
    requires p in t && c in t
  {
    && LinkSet(t', root) == LinkSet(t, root) + {(p, c)}
    && SameNature(t, t')
    && t'[c].adopters == [p] + t[c].adopters && t'[p].adoptees == [c] + t[p].adoptees
    && (forall n :: n in t && n != c ==> t'[n].adopters == t[n].adopters)
    && (forall n :: n in t && n != p ==> t'[n].adoptees == t[n].adoptees)
  }

  /** The outcome of one more request of n for 48 bytes, if it is made: it wants more space than it takes. */
  ghost predicate Billed(o: Outcome, o': Outcome, n: Id, made: bool, given: Option<Id>) {
    && (o'.Next? <==> o.Next? && (made ==> given.Some? && o.arena.spaceAvailable > 48))
    && (o'.Next? ==>
          && n in o.arena.allocatedHere && o'.arena.blocks.Keys == o.arena.blocks.Keys
          && o'.arena.spaceAvailable == o.arena.spaceAvailable - (if made then 48 else 0)
          && o'.arena.allocatedHere == o.arena.allocatedHere[n := o.arena.allocatedHere[n] + if made then 48 else 0])
  }

  lemma OneCharge(o: Outcome, n: Id, requested: nat, made: bool, given: Option<Id>)
    requires o.Next? ==> n in o.arena.blocks && n in o.arena.allocatedHere && o.arena.allocatedHere[n] < TWO_64 - 48
    requires RealSize(requested) == 48
    ensures Billed(o, if made then AndThen(o, n, requested, given) else o, n, made, given)
  {
    hide RealSize;
    if o.Next? && !made { assert o.arena.allocatedHere[n := o.arena.allocatedHere[n]] == o.arena.allocatedHere; }
  }

  lemma AdoptionCharges(a: Arena, p: Id, c: Id, g: Grants)
    requires Accounted(a) && p in a.tree && c in a.tree && p != c
    ensures var o := AdoptionMemory(a, p, c, g);
            && (o.Next? <==> Granted(a, p, c, g) && a.spaceAvailable > AdoptionCost(a, p, c))
            && (o.Next? ==>
                  && o.arena.spaceAvailable == a.spaceAvailable - AdoptionCost(a, p, c)
                  && p in a.allocatedHere && c in a.allocatedHere && o.arena.allocatedHere == AdoptionBill(a, p, c))
  {
    HasLists(a, p);
    HasLists(a, c);
    HereWithinLimit(a, p);
    HereWithinLimit(a, c);
    ListSizes();
    hide RealSize, AndThen, Accounted;
    var o1 := if p in a.adoptionRecords then Next(a) else AndThen(Next(a), p, ADOPTIONS_SIZE, g.parentLists);
    OneCharge(Next(a), p, ADOPTIONS_SIZE, p !in a.adoptionRecords, g.parentLists);
    var o2 := if c in a.adoptionRecords then o1 else AndThen(o1, c, ADOPTIONS_SIZE, g.childLists);
    OneCharge(o1, c, ADOPTIONS_SIZE, c !in a.adoptionRecords, g.childLists);
    var o3 := AndThen(o2, c, LIST_SIZE, g.childEntry);
    OneCharge(o2, c, LIST_SIZE, true, g.childEntry);
    OneCharge(o3, c, LIST_SIZE, true, g.parentEntry);
    BillsAdd(a, p, c, g, o1, o2, o3, AndThen(o3, c, LIST_SIZE, g.parentEntry));
  }

  lemma BillsAdd(a: Arena, p: Id, c: Id, g: Grants, o1: Outcome, o2: Outcome, o3: Outcome, o: Outcome)
    requires p in a.allocatedHere && c in a.allocatedHere && p != c
    requires Billed(Next(a), o1, p, p !in a.adoptionRecords, g.parentLists)
    requires Billed(o1, o2, c, c !in a.adoptionRecords, g.childLists)
    requires Billed(o2, o3, c, true, g.childEntry) && Billed(o3, o, c, true, g.parentEntry)
    ensures o.Next? <==> Granted(a, p, c, g) && a.spaceAvailable > AdoptionCost(a, p, c)
    ensures o.Next? ==>
              o.arena.spaceAvailable == a.spaceAvailable - AdoptionCost(a, p, c) &&
              o.arena.allocatedHere == AdoptionBill(a, p, c)
  {
  }

  lemma ListSizes()
    ensures RealSize(ADOPTIONS_SIZE) == 48 && RealSize(LIST_SIZE) == 48
  {
  }

  lemma AdoptionAdopts(t: Tree, root: Id, p: Id, c: Id)
    requires p in t && c in t
    ensures Adopts(t, AddAdoption(t, p, c), root, p, c)
  {
    var t' := AddAdoption(t, p, c);
    AdoptionLinks(t, root, p, c);
    forall l | l in LinkSet(t, root) + {(p, c)} ensures l in LinkSet(t', root) {
      if l == (p, c) { assert p in t'[c].adopters; } else { assert HasLink(t, root, l.0, l.1); }
      assert HasLink(t', root, l.0, l.1);
    }
  }

  /** An adoption links the two, unless there is nothing to link or it ends the program. */
  lemma AdoptExactly(a: Arena, root: Id, rank: map<Id, nat>, p: Id, c: Id, g: Grants)
    requires Inv(a, root) && WellFormed(a.tree, root, rank) && p in a.tree && c in a.tree && Elsewhere(g, p, c)
    ensures var o := Adopt(a, root, rank, p, c, g);
            if a.tree[p].freeing then o == Next(a)
            else if a.tree[c].freeing then o == Aborted
            else if Reaches(LinkSet(a.tree, root), c, p) then o == Next(a)
            else if !Granted(a, p, c, g) || a.spaceAvailable <= AdoptionCost(a, p, c) then o == Aborted
            else
              && o.Next? && Adopts(a.tree, o.arena.tree, root, p, c)
              && o.arena.jobs == a.jobs && o.arena.timesCalled == a.timesCalled
              && o.arena.spaceAvailable == a.spaceAvailable - AdoptionCost(a, p, c)
              && p in a.allocatedHere && c in a.allocatedHere && o.arena.allocatedHere == AdoptionBill(a, p, c)
              && o.arena.adoptionRecords == a.adoptionRecords + {p, c}
  {
    hide AdoptionMemory, Adopts, Recorded, JobsPlaced, CalledOnce;
    ReachesItself(LinkSet(a.tree, root), c);
    if p != c {
      AdoptionCharges(a, p, c, g);
      AdoptionAccounts(a, p, c, g);
      AdoptionAdopts(a.tree, root, p, c);
    }
  }

  /** The arena after an adoption that made a link. */
  ghost predicate Adopted(a: Arena, a': Arena, root: Id, p: Id, c: Id) {
    && Inv(a, root) && p in a.tree && c in a.tree && !a.tree[p].freeing && !a.tree[c].freeing
    && Inv(a', root) && Adopts(a.tree, a'.tree, root, p, c) && a'.jobs == a.jobs
  }

  /** Free an adopted allocator and nothing is freed: it moves under its last adopter. */
  lemma AdoptionSaves(a: Arena, a': Arena, root: Id, p: Id, c: Id, async: set<JobId>)
    requires Adopted(a, a', root, p, c) && a'.allocatedHere.Keys == a'.tree.Keys
    ensures var o := Free(a', root, c, async);
            && o.Next? && o.arena == a'.(tree := o.arena.tree) && o.arena.tree.Keys == a.tree.Keys
            && o.arena.tree[c].parent == p && o.arena.tree[c].adopters == a.tree[c].adopters
            && (forall n :: n in a.tree ==> o.arena.tree[n].freeing == a.tree[n].freeing)
            && (forall n :: n in a.tree && n != c ==> o.arena.tree[n].parent == a.tree[n].parent)
  {
    hide Inv, Structure, LinkSet, WellFormed, RunJobs, Marshal, Release, NoJobsAt, Passes, Sum;
    RootStays(a', root);
    PivotSaves(a.tree, a'.tree, root, SomeRank(a'.tree, root), p, c);
  }

  lemma PivotSaves(t: Tree, t': Tree, root: Id, rank: map<Id, nat>, p: Id, c: Id)
    requires WellFormed(t', root, rank) && p in t && c in t && Adopts(t, t', root, p, c) && !t[c].freeing
    ensures var w := Passes(t', root, c, 0);
            && !t'[c].freeing && w.Pivoted? && w.tree.Keys == t.Keys
            && w.tree[c].parent == p && w.tree[c].adopters == t[c].adopters
            && (forall n :: n in t ==> w.tree[n].freeing == t[n].freeing)
            && (forall n :: n in t && n != c ==> w.tree[n].parent == t[n].parent)
  {
    hide Passes, Structure, LinkSet;
    AdoptedOnlyPivots(t', root, rank, c);
    assert Remove([p] + t[c].adopters, p) == t[c].adopters;
  }

  lemma LinkIsNotBack(t: Tree, root: Id, rank: map<Id, nat>, p: Id, c: Id)
    requires WellFormed(t, root, rank) && (p, c) in LinkSet(t, root)
    ensures !Reaches(LinkSet(t, root), c, p)
  {
    if path :| Joins(LinkSet(t, root), c, p, path) {
      if |path| > 1 { RankRises(LinkSet(t, root), rank, path); }
    }
  }

  /** Disowning undoes an adoption by an allocator that is not the natural parent. */
  lemma DisownUndoesAdopt(a: Arena, a': Arena, root: Id, rank: map<Id, nat>, p: Id, c: Id, async: set<JobId>)
    requires Adopted(a, a', root, p, c) && a.tree[c].parent != p && WellFormed(a'.tree, root, rank)
    requires a'.allocatedHere.Keys == a'.tree.Keys
    ensures Disown(a', root, rank, p, c, async) == Next(a'.(tree := a.tree))
  {
    hide Accounted, Recorded, JobsPlaced, CalledOnce, Structure;
    LinkIsNotBack(a'.tree, root, rank, p, c);
    assert Remove([p] + a.tree[c].adopters, p) == a.tree[c].adopters;
    assert Remove([c] + a.tree[p].adoptees, c) == a.tree[p].adoptees;
    assert p in a'.tree[c].adopters;
    NotSelfLinked(a'.tree, root, rank, p, c);
    UnadoptUndoes(a.tree, a'.tree, root, p, c);
  }

  lemma NotSelfLinked(t: Tree, root: Id, rank: map<Id, nat>, p: Id, c: Id)
    requires WellFormed(t, root, rank) && (p, c) in LinkSet(t, root)
    ensures p != c
  {
  }

  lemma UnadoptUndoes(t: Tree, t': Tree, root: Id, p: Id, c: Id)
    requires p in t && c in t && p != c && Adopts(t, t', root, p, c)
    ensures Unadopt(t', p, c) == t
  {
    assert Remove([p] + t[c].adopters, p) == t[c].adopters;
    assert Remove([c] + t[p].adoptees, c) == t[p].adoptees;
    var u := Unadopt(t', p, c);
    forall n | n in t ensures u[n] == t[n] {
      assert t'[n].parent == t[n].parent && t'[n].kids == t[n].kids && t'[n].freeing == t[n].freeing;
    }
  }

  /** One adoption of c by p is over; the link is gone with the last one. */
  ghost predicate Disowns(t: Tree, t': Tree, root: Id, p: Id, c: Id)
    requires p in t && c in t
  {
    && SameNature(t, t')
    && (forall q :: Count(t'[c].adopters, q) == Count(t[c].adopters, q) - if q == p then 1 else 0)
    && (forall q :: Count(t'[p].adoptees, q) == Count(t[p].adoptees, q) - if q == c then 1 else 0)
    && (forall n :: n in t && n != c ==> t'[n].adopters == t[n].adopters)
    && (forall n :: n in t && n != p ==> t'[n].adoptees == t[n].adoptees)
    && LinkSet(t', root) == if Count(t[c].adopters, p) > 1 then LinkSet(t, root) else LinkSet(t, root) - {(p, c)}
  }

  lemma UnadoptCount(t: Tree, root: Id, p: Id, c: Id)
    requires Structure(t, root) && p in t && c in t && p in t[c].adopters && t[c].parent != p
    ensures Disowns(t, Unadopt(t, p, c), root, p, c)
  {
    var t' := Unadopt(t, p, c);
    UnadoptSameNature(t, p, c);
    CountPositive(t[c].adopters, p);
    assert Count(t[c].adopters, p) == Count(t[p].adoptees, c);
    CountPositive(t[p].adoptees, c);
    forall q ensures Count(t'[c].adopters, q) == Count(t[c].adopters, q) - if q == p then 1 else 0 {
      RemoveCounts(t[c].adopters, p, q);
    }
    forall q ensures Count(t'[p].adoptees, q) == Count(t[p].adoptees, q) - if q == c then 1 else 0 {
      RemoveCounts(t[p].adoptees, c, q);
    }
    UnadoptLinks(t, root, p, c);
  }

  lemma UnadoptLinks(t: Tree, root: Id, p: Id, c: Id)
    requires Structure(t, root) && p in t && c in t && p in t[c].adopters && t[c].parent != p
    ensures LinkSet(Unadopt(t, p, c), root) ==
            if Count(t[c].adopters, p) > 1 then LinkSet(t, root) else LinkSet(t, root) - {(p, c)}
  {
    var t' := Unadopt(t, p, c);
    RemoveMembers(t[c].adopters, p);
    RemoveCounts(t[c].adopters, p, p);
    CountPositive(t'[c].adopters, p);
    CountPositive(t[c].adopters, p);
    assert HasLink(t', root, p, c) <==> Count(t[c].adopters, p) > 1;
    forall l: (Id, Id) ensures l != (p, c) ==> (l in LinkSet(t', root) <==> l in LinkSet(t, root)) {
      if l != (p, c) { LinkElsewhere(t, root, p, c, l.0, l.1); }
    }
  }

  lemma LinkElsewhere(t: Tree, root: Id, p: Id, c: Id, q: Id, n: Id)
    requires p in t && c in t && (q, n) != (p, c)
    ensures var t' := Unadopt(t, p, c);
            && (HasLink(t', root, q, n) <==> HasLink(t, root, q, n))
            && ((q, n) in LinkSet(t', root) <==> (q, n) in LinkSet(t, root))
  {
    RemoveMembers(t[c].adopters, p);
  }

  /** Disowning frees a natural child, ends one adoption of an adopted one, and is refused for any other. */
  lemma DisownExactly(a: Arena, root: Id, rank: map<Id, nat>, p: Id, c: Id, async: set<JobId>)
    requires Inv(a, root) && WellFormed(a.tree, root, rank) && p in a.tree && c in a.tree
    requires a.allocatedHere.Keys == a.tree.Keys
    ensures var o := Disown(a, root, rank, p, c, async);
            if a.tree[p].freeing || a.tree[c].freeing then o == Next(a)
            else if a.tree[c].parent == p then o == Free(a, root, c, async)
            else if Reaches(LinkSet(a.tree, root), c, p) then o == Next(a)
            else if p !in a.tree[c].adopters then o == Aborted
            else o.Next? && o.arena == a.(tree := o.arena.tree) && Disowns(a.tree, o.arena.tree, root, p, c)
  {
    hide Disowns, Free, Accounted, Recorded, JobsPlaced, CalledOnce;
    if p in a.tree[c].adopters && a.tree[c].parent != p { UnadoptCount(a.tree, root, p, c); }
  }

  // ---- Jobs ----

  /** Cancelling a job just registered leaves the jobs as they were; its block stays until x is freed. */
  lemma CancelUndoesRegister(
    a: Arena, root: Id, rank: map<Id, nat>, x: Id, job: JobId, hasCallback: bool, given: Option<Id>)
    requires Inv(a, root) && WellFormed(a.tree, root, rank) && x in a.tree && job !in a.timesCalled
    requires x in a.blocks && x in a.allocatedHere && given != Some(x)
    ensures var o := OnFree(a, root, rank, x, job, hasCallback, given);
            && (o.Next? <==> given.Some? && a.spaceAvailable > 80) && !o.Ended?
            && (o.Next? ==>
                  var a' := CancelOnFree(o.arena, job);
                  && job in o.arena.jobs && o.arena.jobs[job].home == x && o.arena.jobs[job].hasCallback == hasCallback
                  && !o.arena.jobs[job].called
                  && a'.jobs == a.jobs && a'.tree == a.tree && a'.timesCalled == a.timesCalled[job := 0]
                  && a'.spaceAvailable == a.spaceAvailable - 80
                  && a'.blocks == a.blocks[x := [Block(given.value, 80)] + a.blocks[x]])
  {
    hide Sound, Accounted, Recorded, JobsPlaced, WellFormed;
    JobSize();
    if job in a.jobs { JobCounted(a, root, job); }
  }

  // ---- When an operation ends the program ----

  /** The walk of a free of x gives up. */
  ghost predicate WalkGivesUp(a: Arena, root: Id, x: Id)
    requires Inv(a, root) && x in a.tree
  {
    RootStays(a, root);
    !a.tree[x].freeing && Passes(a.tree, root, x, 0).TooDeep?
  }

  /** Block i is the first of the list at the address. */
  predicate FirstAt(s: seq<Block>, i: int, at: Id) {
    0 <= i < |s| && s[i].at == at && forall k :: 0 <= k < i ==> s[k].at != at
  }

  /** Refused by the limit or the provider, or an assertion of the program fails. */
  ghost predicate Fails(a: Arena, root: Id, op: Op)
    requires Inv(a, root) && Allowed(a, op)
  {
    match op
    case Malloc(n, requested, given) => given.None? || a.spaceAvailable <= RealSize(requested)
    case Resize(n, block, requested, given) =>
      n in a.blocks &&
      forall i :: FirstAt(a.blocks[n], i, block) ==>
        requested > 0 && (given.None? || a.spaceAvailable + a.blocks[n][i].size < RealSize(requested))
    case MakeChild(p, id, provided) => !provided || a.spaceAvailable <= 120
    case AdoptChild(p, c, g) =>
      !a.tree[p].freeing &&
      (a.tree[c].freeing ||
       (!Reaches(LinkSet(a.tree, root), c, p) && (!Granted(a, p, c, g) || a.spaceAvailable <= AdoptionCost(a, p, c))))
    case DisownChild(p, c, async) =>
      !a.tree[p].freeing && !a.tree[c].freeing &&
      (if a.tree[c].parent == p then WalkGivesUp(a, root, c)
       else !Reaches(LinkSet(a.tree, root), c, p) && p !in a.tree[c].adopters)
    case Register(x, job, hasCallback, given) => given.None? || a.spaceAvailable <= 80
    case Cancel(job) => false
    case FreeAllocator(x, async) => WalkGivesUp(a, root, x)
    case Complete(job) =>
      job !in a.jobs ||
      (a.jobs[job].owner in a.tree && !a.tree[a.jobs[job].owner].freeing &&
       forall j :: j in a.jobs && j != job ==> a.jobs[j].owner != a.jobs[job].owner)
  }

  lemma FreeFails(a: Arena, root: Id, x: Id, async: set<JobId>)
    requires Inv(a, root) && x in a.tree
    ensures Structure(a.tree, root) && a.allocatedHere.Keys == a.tree.Keys
    ensures Free(a, root, x, async).Aborted? <==> WalkGivesUp(a, root, x)
  {
    hide Passes, RunJobs, Marshal, Prune, Sum, UnderSet, NoJobsAt;
    RootStays(a, root);
  }

  lemma CompleteFails(a: Arena, root: Id, job: JobId)
    requires Inv(a, root)
    ensures OnFreeComplete(a, root, job).Aborted? <==> Fails(a, root, Complete(job))
  {
    hide Inv, Release, Sound, Structure, Closed, Sum;
    RootStays(a, root);
    if job in a.jobs {
      OwnerThere(a, root, job);
      var a1, x := a.(jobs := a.jobs - {job}), a.jobs[job].owner;
      ReleaseNeverFails(a1, root, x);
      OnlyJob(a, a1, job, x);
    }
  }

  lemma OnlyJob(a: Arena, a1: Arena, job: JobId, x: Id)
    requires a1.jobs == a.jobs - {job}
    ensures NoJobsAt(a1, x) <==> forall j :: j in a.jobs && j != job ==> a.jobs[j].owner != x
  {
    if NoJobsAt(a1, x) {
      forall j | j in a.jobs && j != job ensures a.jobs[j].owner != x { assert j in a1.jobs; }
    }
  }

  lemma ReleaseNeverFails(a: Arena, root: Id, x: Id)
    requires x in a.tree && a.allocatedHere.Keys == a.tree.Keys
    ensures !Release(a, root, x).Aborted?
  {
    hide Prune, UnderSet, Sum, IsTop;
  }

  lemma ResizeFails(a: Arena, root: Id, n: Id, block: Id, requested: nat, given: Option<Id>)
    requires Inv(a, root) && n in a.tree && block != n && given != Some(n)
    ensures Realloc(a, n, block, requested, given).Aborted? <==> Fails(a, root, Resize(n, block, requested, given))
  {
    hide RealSize, Sound, Recorded, JobsPlaced, CalledOnce;
    ForeignBlock(a, n, block, requested, given);
    var i := Position(a.blocks[n], block);
    if i < |a.blocks[n]| { ResizeExactly(a, n, i, requested, given); }
  }

  /** An operation ends the program exactly when it fails. */
  lemma FailsExactly(a: Arena, root: Id, op: Op)
    requires Inv(a, root) && Allowed(a, op)
    ensures Apply(a, root, op).Aborted? <==> Fails(a, root, op)
  {
    hide Sound, Recorded, JobsPlaced, CalledOnce, RealSize, Free, Adopt, Disown, OnFree, Child, Realloc, WalkGivesUp;
    RootStays(a, root);
    var rank := SomeRank(a.tree, root);
    match op
    case Malloc(n, requested, given) =>
    case Resize(n, block, requested, given) => ResizeFails(a, root, n, block, requested, given);
    case MakeChild(p, id, provided) => ChildMade(a, root, p, id, provided);
    case AdoptChild(p, c, g) => AdoptExactly(a, root, rank, p, c, g);
    case DisownChild(p, c, async) =>
      DisownExactly(a, root, rank, p, c, async);
      FreeFails(a, root, c, async);
    case Register(x, job, hasCallback, given) => CancelUndoesRegister(a, root, rank, x, job, hasCallback, given);
    case Cancel(job) =>
    case FreeAllocator(x, async) => FreeFails(a, root, x, async);
    case Complete(job) => CompleteFails(a, root, job);
  }

  /** The job outlives a free of its part: its callback has asked for more time, now or before. */
  predicate Outlives(j: Job, id: JobId, async: set<JobId>) {
    j.hasCallback && (j.called || id in async)
  }

  /** Freeing the root releases it, and with it everything, if and only if no job is still to come. */
  lemma RootEndsExactly(a: Arena, root: Id, async: set<JobId>)
    requires Inv(a, root) && root in a.tree && Structure(a.tree, root) && a.allocatedHere.Keys == a.tree.Keys
    ensures Free(a, root, root, async).Ended? <==>
              && !a.tree[root].freeing && !WalkGivesUp(a, root, root)
              && forall j :: j in a.jobs ==> !Outlives(a.jobs[j], j, async)
  {
    hide Passes, Inv, AfterJobs, Free, NoJobsAt, Structure, Sound, Closed, Sum, Outlives;
    RootStays(a, root);
    FreeFails(a, root, root, async);
    if a.tree[root].freeing {
      FreeAgain(a, root, root, async);
    } else if !WalkGivesUp(a, root, root) {
      RootIsWalked(a.tree, root, SomeRank(a.tree, root));
      AfterJobsTree(a, root, root, async);
      FreeEnds(a, root, root, async, Free(a, root, root, async));
      RootJobs(a, root, async);
    }
  }

  lemma FreeAgain(a: Arena, root: Id, x: Id, async: set<JobId>)
    requires Structure(a.tree, root) && x in a.tree && a.allocatedHere.Keys == a.tree.Keys && a.tree[x].freeing
    ensures Free(a, root, x, async) == Next(a)
  {
  }

  lemma RootIsWalked(t: Tree, root: Id, rank: map<Id, nat>)
    requires WellFormed(t, root, rank) && root in t && !t[root].freeing && !Passes(t, root, root, 0).TooDeep?
    ensures Passes(t, root, root, 0).Freed? && Passes(t, root, root, 0).tree.Keys == t.Keys
  {
    hide Passes;
    FreeMarksUnreachable(t, root, rank, root);
  }

  lemma RootJobs(a: Arena, root: Id, async: set<JobId>)
    requires Inv(a, root) && root in a.tree && Structure(a.tree, root) && !a.tree[root].freeing
    requires Passes(a.tree, root, root, 0).Freed?
    ensures NoJobsAt(AfterJobs(a, root, root, async), root) <==>
            forall j :: j in a.jobs ==> !Outlives(a.jobs[j], j, async)
  {
    hide Passes, AfterJobs, NoJobsAt, Accounted, Recorded, JobsPlaced, CalledOnce;
    var rank := SomeRank(a.tree, root);
    var r := AfterJobs(a, root, root, async);
    JobsKeepInv(a, root, rank, root, async);
    WaitingMeansPending(r, root, root);
    AfterJobsKeepHomes(a, root, root, async);
    RootStays(r, root);
    forall j | j in a.jobs
      ensures (j in r.jobs <==> Outlives(a.jobs[j], j, async)) && Under(r.tree, root, root, a.jobs[j].home)
    {
      JobCounted(a, root, j);
      AllUnderRoot(r.tree, root, SomeRank(r.tree, root), a.jobs[j].home);
      FreeRunsEveryJob(a, root, root, async, j);
    }
  }
}
