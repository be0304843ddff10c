/**
 * What every operation on an allocator tree keeps: the ownership graph stays well formed, every byte
 * is accounted for, and no job outlives its allocator or is called twice.
 */
module ArenaInvariant {
  import opened Prelude
  import opened Links
  import opened Ownership
  import opened Pivot
  import opened AllocatorOps
  import opened Sums
  import opened Arena

  // ---- The invariant ----

  ghost predicate Sound(t: Tree, root: Id) {
    exists rank :: WellFormed(t, root, rank)
  }

  ghost function SomeRank(t: Tree, root: Id): (rank: map<Id, nat>)
    requires Sound(t, root)
    ensures WellFormed(t, root, rank)
  {
    var rank :| WellFormed(t, root, rank);
    rank
  }

  /** The block that holds n itself, which is at n, is the last of the list and there only once. */
  ghost predicate OwnBlockLast(s: seq<Block>, n: Id) {
    s != [] && s[|s| - 1].at == n && forall i :: 0 <= i < |s| - 1 ==> s[i].at != n
  }

  /** Every block belongs to an allocator of the tree, and the space used is the sum of the blocks. */
  ghost predicate Accounted(a: Arena) {
    && a.blocks.Keys == a.tree.Keys
    && a.allocatedHere.Keys == a.tree.Keys
    && (forall n {:trigger a.blocks[n]} {:trigger a.allocatedHere[n]} :: n in a.tree ==>
          OwnBlockLast(a.blocks[n], n) && a.allocatedHere[n] == Bytes(a.blocks[n]))
    && 0 <= a.spaceAvailable
    && a.maxSpace < TWO_63
    && a.maxSpace == a.spaceAvailable + Sum(a.tree.Keys, a.allocatedHere)
  }

  /** Whoever adopts or is adopted has its adoption lists. */
  ghost predicate Recorded(a: Arena) {
    && a.adoptionRecords <= a.tree.Keys
    && forall n, p {:trigger p in a.tree[n].adopters} :: n in a.tree && p in a.tree[n].adopters ==>
         n in a.adoptionRecords && p in a.adoptionRecords
  }

  /**
   * A pending job was registered in the tree; on a live allocator it has not been called and is on the
   * list of its own allocator, on a freeing one it is on the list of the top of the freed part.
   */
  ghost predicate Placed(t: Tree, root: Id, j: Job) {
    && j.owner in t && j.home in t
    && if t[j.owner].freeing then IsTop(t, root, j.owner) && Under(t, root, j.owner, j.home)
       else j.home == j.owner && !j.called
  }

  ghost predicate JobsPlaced(a: Arena, root: Id) {
    forall j {:trigger a.jobs[j]} :: j in a.jobs ==> Placed(a.tree, root, a.jobs[j])
  }

  ghost predicate CalledOnce(a: Arena) {
    && (forall j {:trigger a.jobs[j]} :: j in a.jobs ==>
          && j in a.timesCalled
          && (a.jobs[j].called ==> a.jobs[j].hasCallback)
          && a.timesCalled[j] == if a.jobs[j].called then 1 else 0)
    && (forall j {:trigger a.timesCalled[j]} :: j in a.timesCalled ==> a.timesCalled[j] <= 1)
  }

  ghost predicate Inv(a: Arena, root: Id) {
    Sound(a.tree, root) && Accounted(a) && Recorded(a) && JobsPlaced(a, root) && CalledOnce(a)
  }

  // ---- Memory ----

  lemma AccountedAgain(a: Arena, t: Tree)
    requires Accounted(a) && t.Keys == a.tree.Keys
    ensures Accounted(a.(tree := t))
  {
  }

  lemma HereWithinLimit(a: Arena, n: Id)
    requires Accounted(a) && n in a.tree
    ensures a.allocatedHere[n] <= a.maxSpace - a.spaceAvailable < TWO_63
  {
    SumTakes(a.tree.Keys, a.allocatedHere, n);
  }

  /**
   * An allocation that goes through keeps the accounts if and only if its size, header included, is
   * below 2^63; a provider can answer no larger request on a real machine.
   */
  lemma AllocationAccountsExactly(a: Arena, n: Id, requested: nat, at: Id)
    requires Accounted(a) && n in a.tree && at != n && NewAllocation(a, n, requested, Some(at)).Next?
    ensures Accounted(NewAllocation(a, n, requested, Some(at)).arena) <==> RealSize(requested) < TWO_63
  {
    hide RealSize;
    var a' := NewAllocation(a, n, requested, Some(at)).arena;
    ChargeAccountsExactly(a, a', n, Block(at, RealSize(requested)));
  }

  lemma ChargeAccountsExactly(a: Arena, a': Arena, n: Id, b: Block)
    requires Accounted(a) && n in a.tree && b.at != n && b.size < TWO_64 && a.spaceAvailable > Int64(b.size)
    requires a' == a.(spaceAvailable := a.spaceAvailable - Int64(b.size),
                      allocatedHere := a.allocatedHere[n := (a.allocatedHere[n] + b.size) % TWO_64],
                      blocks := a.blocks[n := [b] + a.blocks[n]])
    ensures Accounted(a') <==> b.size < TWO_63
  {
    hide Sum;
    HereWithinLimit(a, n);
    SumUpdates(a.allocatedHere, n, a'.allocatedHere[n]);
    assert a'.allocatedHere.Keys == a.allocatedHere.Keys;
    assert a'.blocks[n][1..] == a.blocks[n];
    assert Bytes(a'.blocks[n]) == a.allocatedHere[n] + b.size;
    if b.size < TWO_63 {
      assert a'.allocatedHere[n] == a.allocatedHere[n] + b.size;
      assert OwnBlockLast(a'.blocks[n], n);
    }
  }

  lemma NewAllocationAccounts(a: Arena, n: Id, requested: nat, given: Option<Id>)
    requires Accounted(a) && n in a.tree && given != Some(n) && (given.Some? ==> RealSize(requested) < TWO_63)
    ensures NewAllocation(a, n, requested, given).Next? ==>
              Accounted(NewAllocation(a, n, requested, given).arena)
  {
    hide RealSize;
    if NewAllocation(a, n, requested, given).Next? { AllocationAccountsExactly(a, n, requested, given.value); }
  }

  /** Block i of n gives way to `mid`. */
  lemma ReplaceAccounts(a: Arena, a': Arena, n: Id, i: nat, mid: seq<Block>)
    requires Accounted(a) && n in a.tree && i + 1 < |a.blocks[n]| && forall b :: b in mid ==> b.at != n
    requires a' == a.(spaceAvailable := a'.spaceAvailable, allocatedHere := a'.allocatedHere, blocks := a'.blocks)
    requires a'.spaceAvailable == a.spaceAvailable + a.blocks[n][i].size - Bytes(mid) >= 0
    requires n in a'.allocatedHere && a'.allocatedHere == a.allocatedHere[n := a'.allocatedHere[n]]
    requires a'.allocatedHere[n] == a.allocatedHere[n] - a.blocks[n][i].size + Bytes(mid)
    requires a'.blocks == a.blocks[n := a.blocks[n][..i] + mid + a.blocks[n][i + 1..]]
    ensures Accounted(a')
  {
    SumUpdates(a.allocatedHere, n, a'.allocatedHere[n]);
    BytesReplaced(a.blocks[n], i, mid);
    OwnStaysLast(a.blocks[n], n, i, mid);
  }

  lemma OwnStaysLast(s: seq<Block>, n: Id, i: nat, mid: seq<Block>)
    requires OwnBlockLast(s, n) && i + 1 < |s| && forall b :: b in mid ==> b.at != n
    ensures OwnBlockLast(s[..i] + mid + s[i + 1..], n)
  {
    var r := s[..i] + mid + s[i + 1..];
    assert r[|r| - 1] == s[|s| - 1];
    forall k | 0 <= k < |r| - 1 ensures r[k].at != n {
      if i <= k < i + |mid| { assert r[k] in mid; }
    }
  }

  lemma ReallocAccounts(a: Arena, n: Id, block: Id, requested: nat, given: Option<Id>)
    requires Accounted(a) && n in a.tree && block != n && given != Some(n)
    ensures Realloc(a, n, block, requested, given).Next? ==>
              Accounted(Realloc(a, n, block, requested, given).arena)
  {
    hide RealSize;
    var o, list, i := Realloc(a, n, block, requested, given), a.blocks[n], Position(a.blocks[n], block);
    if o.Next? {
      assert OwnBlockLast(list, n);
      var mid: seq<Block> := if requested == 0 then [] else [Block(given.value, RealSize(requested))];
      assert list[..i] + [] + list[i + 1..] == list[..i] + list[i + 1..];
      assert requested != 0 ==> mid[1..] == [];
      ReplaceAccounts(a, o.arena, n, i, mid);
    }
  }

  lemma ChildAccounts(a: Arena, p: Id, id: Id, provided: bool)
    requires Accounted(a) && p in a.tree && id !in a.tree
    ensures Child(a, p, id, provided).Next? ==> Accounted(Child(a, p, id, provided).arena)
  {
    var o := Child(a, p, id, provided);
    if o.Next? {
      SumExtends(a.allocatedHere, id, RealSize(ALLOCATOR_SIZE));
      assert o.arena.tree.Keys == o.arena.allocatedHere.Keys;
      assert o.arena.blocks[id][1..] == [];
    }
  }

  lemma ReleaseAccounts(a: Arena, root: Id, x: Id)
    requires Accounted(a) && x in a.tree && IsTop(a.tree, root, x)
    ensures Release(a, root, x).Next? ==> Accounted(Release(a, root, x).arena)
  {
    var o := Release(a, root, x);
    if o.Next? {
      var gone := UnderSet(a.tree, root, x);
      SumSplits(a.tree.Keys, gone, a.allocatedHere);
      assert o.arena.tree.Keys == a.tree.Keys - gone;
      SumAgrees(a.tree.Keys - gone, a.allocatedHere, o.arena.allocatedHere);
    }
  }

  // ---- Natural descent ----

  /** Everything under x is still there, under the same natural parents. */
  ghost predicate Intact(t: Tree, t': Tree, root: Id, x: Id) {
    forall m {:trigger Under(t, root, x, m)} :: Under(t, root, x, m) ==>
      m in t && m in t' && t'[m].parent == t[m].parent
  }

  lemma {:induction false} BelowStays(t: Tree, t': Tree, root: Id, x: Id, n: Id, d: nat)
    requires Below(t, root, x, n, d) && Intact(t, t', root, x)
    ensures Below(t', root, x, n, d)
    decreases d
  {
    assert Under(t, root, x, n);
    if d > 0 { BelowStays(t, t', root, x, t[n].parent, d - 1); }
  }

  lemma UnderStays(t: Tree, t': Tree, root: Id, x: Id, n: Id)
    requires Under(t, root, x, n) && Intact(t, t', root, x)
    ensures Under(t', root, x, n)
  {
    var d :| Below(t, root, x, n, d);
    BelowStays(t, t', root, x, n, d);
  }

  lemma {:induction false} BelowJoins(t: Tree, root: Id, x: Id, y: Id, n: Id, d: nat, e: nat)
    requires Below(t, root, x, y, d) && Below(t, root, y, n, e)
    ensures Below(t, root, x, n, d + e)
    decreases e
  {
    if e > 0 { BelowJoins(t, root, x, y, t[n].parent, d, e - 1); }
  }

  lemma UnderJoins(t: Tree, root: Id, x: Id, y: Id, n: Id)
    requires Under(t, root, x, y) && Under(t, root, y, n)
    ensures Under(t, root, x, n)
  {
    var d :| Below(t, root, x, y, d);
    var e :| Below(t, root, y, n, e);
    BelowJoins(t, root, x, y, n, d, e);
  }

  /** Two ancestors of one allocator are on one line. */
  lemma {:induction false} BelowCompares(t: Tree, root: Id, x: Id, y: Id, n: Id, d: nat, e: nat)
    requires Below(t, root, x, n, d) && Below(t, root, y, n, e) && d <= e
    ensures Below(t, root, y, x, e - d)
    decreases d
  {
    if d > 0 { BelowCompares(t, root, x, y, t[n].parent, d - 1, e - 1); }
  }

  lemma UnderCompares(t: Tree, root: Id, x: Id, y: Id, n: Id)
    requires Under(t, root, x, n) && Under(t, root, y, n)
    ensures Under(t, root, x, y) || Under(t, root, y, x)
  {
    var d :| Below(t, root, x, n, d);
    var e :| Below(t, root, y, n, e);
    if d <= e { BelowCompares(t, root, x, y, n, d, e); } else { BelowCompares(t, root, y, x, n, e, d); }
  }

  lemma UnderItself(t: Tree, root: Id, x: Id)
    requires x in t
    ensures Under(t, root, x, x)
  {
    assert Below(t, root, x, x, 0);
  }

  /** Only the top of a freed part has a live parent. */
  lemma TopsDoNotNest(t: Tree, root: Id, x: Id, y: Id)
    requires Closed(t, root) && Parented(t, root) && x in t && t[x].freeing && IsTop(t, root, y) && Under(t, root, x, y)
    ensures x == y
  {
    if x != y {
      if y == root {
        NotUnderRoot(t, root, x);
      } else {
        UnderParent(t, root, x, y);
        UnderFreeing(t, root, x, t[y].parent);
      }
    }
  }

  // ---- Jobs ----

  /** Freeing allocators keep their state and place, live ones stay live. */
  ghost predicate SameFreeing(t: Tree, t': Tree) {
    forall n {:trigger t'[n]} {:trigger t[n]} :: n in t ==>
      n in t' && t'[n].freeing == t[n].freeing && (t[n].freeing ==> t'[n].parent == t[n].parent)
  }

  lemma FreeingIntact(t: Tree, t': Tree, root: Id, x: Id)
    requires Closed(t, root) && SameFreeing(t, t') && x in t && t[x].freeing
    ensures Intact(t, t', root, x)
  {
    forall m {:trigger Under(t, root, x, m)} | Under(t, root, x, m)
      ensures m in t && m in t' && t'[m].parent == t[m].parent
    {
      UnderFreeing(t, root, x, m);
    }
  }

  lemma PlacedStays(t: Tree, t': Tree, root: Id, j: Job)
    requires Closed(t, root) && SameFreeing(t, t') && Placed(t, root, j)
    ensures Placed(t', root, j)
  {
    var o := j.owner;
    assert j.home in t' by { assert t[j.home] == t[j.home]; }
    if t[o].freeing {
      FreeingIntact(t, t', root, o);
      UnderStays(t, t', root, o, j.home);
    }
  }

  lemma JobsPlacedStay(a: Arena, a': Arena, root: Id)
    requires JobsPlaced(a, root) && Closed(a.tree, root) && SameFreeing(a.tree, a'.tree)
    requires forall j {:trigger a'.jobs[j]} :: j in a'.jobs ==> j in a.jobs && a'.jobs[j] == a.jobs[j]
    ensures JobsPlaced(a', root)
  {
    forall j {:trigger a'.jobs[j]} | j in a'.jobs ensures Placed(a'.tree, root, a'.jobs[j]) {
      PlacedStays(a.tree, a'.tree, root, a.jobs[j]);
    }
  }

  // ---- Freeing ----

  /** What the walk has done to t when it has marked x. */
  ghost predicate FreedFrom(t: Tree, w: Tree, root: Id, rank: map<Id, nat>, x: Id) {
    && WellFormed(t, root, rank) && WellFormed(w, root, rank)
    && Settled(t, w) && MarksHang(t, w, root, x)
    && x in t && x in w && !t[x].freeing && w[x].freeing && w[x].parent == t[x].parent
  }

  lemma WalkFrees(t: Tree, root: Id, rank: map<Id, nat>, x: Id)
    requires WellFormed(t, root, rank) && x in t && !t[x].freeing && t[x].adopters == []
    requires Passes(t, root, x, 0).Freed?
    ensures FreedFrom(t, Passes(t, root, x, 0).tree, root, rank, x)
  {
    FreeMarksUnreachable(t, root, rank, x);
    FreedPartHangs(t, root, rank, x);
  }

  /** Every newly freed allocator is under x. */
  lemma {:induction false} FreedUnder(t: Tree, w: Tree, root: Id, rank: map<Id, nat>, x: Id, n: Id)
    requires FreedFrom(t, w, root, rank, x) && n in w && w[n].freeing && !t[n].freeing
    ensures Under(w, root, x, n)
    decreases rank[n]
  {
    if n == x {
      UnderItself(w, root, x);
    } else {
      var p := w[n].parent;
      NaturalLink(w, root, rank, n);
      FreedUnder(t, w, root, rank, x, p);
      UnderParent(w, root, x, n);
    }
  }

  lemma FreedIsTop(t: Tree, w: Tree, root: Id, rank: map<Id, nat>, x: Id)
    requires FreedFrom(t, w, root, rank, x)
    ensures IsTop(w, root, x)
  {
    if x != root {
      var p := w[x].parent;
      NaturalLink(w, root, rank, x);
      if w[p].freeing {
        assert !t[p].freeing;
        FreedUnder(t, w, root, rank, x, p);
        var d :| Below(w, root, x, p, d);
        BelowRanks(w, root, rank, x, p, d);
      }
    }
  }

  lemma SettledIntact(t: Tree, w: Tree, root: Id, o: Id)
    requires Closed(t, root) && Settled(t, w) && o in t && t[o].freeing
    ensures Intact(t, w, root, o)
  {
    forall m {:trigger Under(t, root, o, m)} | Under(t, root, o, m)
      ensures m in t && m in w && w[m].parent == t[m].parent
    {
      UnderFreeing(t, root, o, m);
    }
  }

  /** A job of the freed part, once it is on the list of x. */
  lemma MarshalledIsPlaced(t: Tree, w: Tree, root: Id, rank: map<Id, nat>, x: Id, j: Job)
    requires FreedFrom(t, w, root, rank, x) && Placed(t, root, j) && Under(w, root, x, j.owner)
    ensures Placed(w, root, j.(owner := x))
  {
    FreedIsTop(t, w, root, rank, x);
    if t[j.owner].freeing {
      SettledIntact(t, w, root, j.owner);
      UnderStays(t, w, root, j.owner, j.home);
      UnderJoins(w, root, x, j.owner, j.home);
    }
  }

  /** A job of any other part stays where it is. */
  lemma OthersArePlaced(t: Tree, w: Tree, root: Id, rank: map<Id, nat>, x: Id, j: Job)
    requires FreedFrom(t, w, root, rank, x) && Placed(t, root, j) && !Under(w, root, x, j.owner)
    ensures Placed(w, root, j)
  {
    var o := j.owner;
    if w[o].freeing {
      if !t[o].freeing { FreedUnder(t, w, root, rank, x, o); }
      SettledIntact(t, w, root, o);
      UnderStays(t, w, root, o, j.home);
      if o != root {
        var p := t[o].parent;
        assert w[o].parent == p;
        if w[p].freeing {
          FreedUnder(t, w, root, rank, x, p);
          UnderParent(w, root, x, o);
        }
      }
    }
  }

  lemma MarshalPlaces(a: Arena, w: Tree, root: Id, rank: map<Id, nat>, x: Id)
    requires FreedFrom(a.tree, w, root, rank, x) && JobsPlaced(a, root)
    ensures JobsPlaced(Marshal(a.(tree := w), root, x), root)
  {
    var a' := Marshal(a.(tree := w), root, x);
    forall j {:trigger a'.jobs[j]} | j in a'.jobs ensures Placed(a'.tree, root, a'.jobs[j]) {
      if Under(w, root, x, a.jobs[j].owner) {
        MarshalledIsPlaced(a.tree, w, root, rank, x, a.jobs[j]);
      } else {
        OthersArePlaced(a.tree, w, root, rank, x, a.jobs[j]);
      }
    }
  }

  lemma RunPlaces(a: Arena, root: Id, x: Id, async: set<JobId>)
    requires JobsPlaced(a, root) && x in a.tree && a.tree[x].freeing
    ensures JobsPlaced(RunJobs(a, x, async), root)
  {
  }

  /** Marshalling and running the jobs of x calls each of them at most once. */
  lemma RunCallsOnce(a: Arena, root: Id, x: Id, async: set<JobId>)
    requires CalledOnce(a)
    ensures CalledOnce(RunJobs(Marshal(a, root, x), x, async))
  {
    var m := Marshal(a, root, x);
    assert CalledOnce(m);
    var r := RunJobs(m, x, async);
    forall j {:trigger r.timesCalled[j]} | j in r.timesCalled ensures r.timesCalled[j] <= 1 {
      if Calls(m, x, j) { assert m.jobs[j] == m.jobs[j]; }
    }
    forall j {:trigger r.jobs[j]} | j in r.jobs
      ensures && j in r.timesCalled && (r.jobs[j].called ==> r.jobs[j].hasCallback)
              && r.timesCalled[j] == if r.jobs[j].called then 1 else 0
    {
      assert m.jobs[j] == m.jobs[j];
    }
  }

  // ---- Releasing ----

  lemma ReleaseIntact(t: Tree, root: Id, x: Id, o: Id)
    requires Structure(t, root) && Closed(t, root) && IsTop(t, root, x) && t[x].freeing && x != root
    requires IsTop(t, root, o) && t[o].freeing && o != x
    ensures Intact(t, Prune(t, root, x), root, o)
  {
    var t' := Prune(t, root, x);
    forall m {:trigger Under(t, root, o, m)} | Under(t, root, o, m)
      ensures m in t && m in t' && t'[m].parent == t[m].parent
    {
      UnderFreeing(t, root, o, m);
      if Under(t, root, x, m) {
        UnderCompares(t, root, x, o, m);
        if Under(t, root, x, o) { TopsDoNotNest(t, root, x, o); } else { TopsDoNotNest(t, root, o, x); }
      }
    }
  }

  lemma ReleasePlaces(t: Tree, root: Id, x: Id, j: Job)
    requires Structure(t, root) && Closed(t, root) && IsTop(t, root, x) && t[x].freeing && x != root
    requires Placed(t, root, j) && j.owner != x
    ensures Placed(Prune(t, root, x), root, j)
  {
    var t', o := Prune(t, root, x), j.owner;
    if t[o].freeing {
      ReleaseIntact(t, root, x, o);
      UnderItself(t, root, o);
      UnderStays(t, t', root, o, j.home);
      assert Under(t, root, o, j.home);
      if o != root {
        var p := t[o].parent;
        if Under(t, root, x, p) { UnderFreeing(t, root, x, p); }
        assert p in t' && !t'[p].freeing;
      }
    } else if Under(t, root, x, o) {
      UnderFreeing(t, root, x, o);
    }
  }

  lemma ReleaseRecords(a: Arena, root: Id, x: Id)
    requires Recorded(a) && Structure(a.tree, root) && Closed(a.tree, root) && IsTop(a.tree, root, x)
    requires a.tree[x].freeing && x != root && a.allocatedHere.Keys == a.tree.Keys
    ensures Recorded(Release(a, root, x).arena)
  {
    var a' := Release(a, root, x).arena;
    forall n, p {:trigger p in a'.tree[n].adopters} | n in a'.tree && p in a'.tree[n].adopters
      ensures n in a'.adoptionRecords && p in a'.adoptionRecords
    {
      assert p in a.tree[n].adopters;
      AdopterIsLive(a.tree, root, n, p);
      if Under(a.tree, root, x, p) { UnderFreeing(a.tree, root, x, p); }
    }
  }

  lemma ReleaseSound(a: Arena, root: Id, x: Id)
    requires Sound(a.tree, root) && IsTop(a.tree, root, x) && a.tree[x].freeing && x != root
    ensures Sound(Prune(a.tree, root, x), root)
  {
    var rank := SomeRank(a.tree, root);
    PruneKeepsWellFormed(a.tree, root, rank, x);
  }

  lemma ReleaseJobsPlaced(a: Arena, root: Id, x: Id)
    requires JobsPlaced(a, root) && Structure(a.tree, root) && Closed(a.tree, root) && IsTop(a.tree, root, x)
    requires a.tree[x].freeing && x != root && NoJobsAt(a, x) && a.allocatedHere.Keys == a.tree.Keys
    ensures JobsPlaced(Release(a, root, x).arena, root)
  {
    var a' := Release(a, root, x).arena;
    forall j {:trigger a'.jobs[j]} | j in a'.jobs ensures Placed(a'.tree, root, a'.jobs[j]) {
      ReleasePlaces(a.tree, root, x, a.jobs[j]);
    }
  }

  /** Releasing a freed part nobody waits for. */
  lemma ReleaseKeepsInv(a: Arena, root: Id, x: Id)
    requires Inv(a, root) && IsTop(a.tree, root, x) && a.tree[x].freeing && NoJobsAt(a, x)
    ensures Release(a, root, x).Ended? || (Release(a, root, x).Next? && Inv(Release(a, root, x).arena, root))
  {
    if x != root {
      var a' := Release(a, root, x).arena;
      ReleaseSound(a, root, x);
      assert a'.tree == Prune(a.tree, root, x);
      ReleaseAccounts(a, root, x);
      assert CalledOnce(a');
      ReleaseRecords(a, root, x);
      ReleaseJobsPlaced(a, root, x);
    }
  }

  // ---- Every operation ----

  /** `given` is what the provider answers: the address of a new block, or None for NULL. */
  datatype Op =
    | Malloc(n: Id, requested: nat, given: Option<Id>)
    | Resize(n: Id, block: Id, requested: nat, given: Option<Id>)
    | MakeChild(p: Id, id: Id, provided: bool)
    | AdoptChild(p: Id, c: Id, grants: Grants)
    | DisownChild(p: Id, c: Id, async: set<JobId>)
    | Register(x: Id, job: JobId, hasCallback: bool, given: Option<Id>)
    | Cancel(job: JobId)
    | FreeAllocator(x: Id, async: set<JobId>)
    | Complete(job: JobId)

  /** The provider does not hand out the address of the adopting or the adopted allocator. */
  predicate Elsewhere(g: Grants, p: Id, c: Id) {
    g.parentLists != Some(p) && g.childLists != Some(c) && g.childEntry != Some(c) && g.parentEntry != Some(c)
  }

  /**
   * What callers and the provider may do: name allocators of the tree, give new allocators and jobs
   * names not in use, hand out no block at the address of the allocator that asks and none of 2^63
   * bytes or more, and resize no block that holds an allocator.
   */
  ghost predicate Allowed(a: Arena, op: Op) {
    match op
    case Malloc(n, requested, given) => n in a.tree && given != Some(n) && (given.Some? ==> RealSize(requested) < TWO_63)
    case Resize(n, block, requested, given) => n in a.tree && block != n && given != Some(n)
    case MakeChild(p, id, provided) => p in a.tree && id !in a.tree
    case AdoptChild(p, c, grants) => p in a.tree && c in a.tree && Elsewhere(grants, p, c)
    case DisownChild(p, c, async) => p in a.tree && c in a.tree
    case Register(x, job, hasCallback, given) => x in a.tree && job !in a.timesCalled && given != Some(x)
    case Cancel(job) => true
    case FreeAllocator(x, async) => x in a.tree
    case Complete(job) => true
  }

  ghost function Apply(a: Arena, root: Id, op: Op): Outcome
    requires Inv(a, root) && Allowed(a, op)
  {
    match op
    case Malloc(n, requested, given) => NewAllocation(a, n, requested, given)
    case Resize(n, block, requested, given) => Realloc(a, n, block, requested, given)
    case MakeChild(p, id, provided) => Child(a, p, id, provided)
    case AdoptChild(p, c, grants) => Adopt(a, root, SomeRank(a.tree, root), p, c, grants)
    case DisownChild(p, c, async) => Disown(a, root, SomeRank(a.tree, root), p, c, async)
    case Register(x, job, hasCallback, given) =>
      OnFree(a, root, SomeRank(a.tree, root), x, job, hasCallback, given)
    case Cancel(job) => Next(CancelOnFree(a, job))
    case FreeAllocator(x, async) => Free(a, root, x, async)
    case Complete(job) => OnFreeComplete(a, root, job)
  }

  ghost predicate Keeps(o: Outcome, root: Id) {
    o.Next? ==> Inv(o.arena, root)
  }

  lemma MallocKeepsInv(a: Arena, root: Id, n: Id, requested: nat, given: Option<Id>)
    requires Inv(a, root) && n in a.tree && given != Some(n) && (given.Some? ==> RealSize(requested) < TWO_63)
    ensures Keeps(NewAllocation(a, n, requested, given), root)
  {
    NewAllocationAccounts(a, n, requested, given);
  }

  lemma ReallocKeepsInv(a: Arena, root: Id, n: Id, block: Id, requested: nat, given: Option<Id>)
    requires Inv(a, root) && n in a.tree && block != n && given != Some(n)
    ensures Keeps(Realloc(a, n, block, requested, given), root)
  {
    ReallocAccounts(a, n, block, requested, given);
  }

  lemma ChildSound(t: Tree, root: Id, p: Id, id: Id)
    requires Sound(t, root) && p in t && id !in t
    ensures Sound(AddChild(t, p, id), root) && Closed(t, root)
  {
    ChildKeepsWellFormed(t, root, SomeRank(t, root), p, id);
  }

  lemma ChildRecorded(a: Arena, a': Arena, p: Id, id: Id)
    requires Recorded(a) && p in a.tree && id !in a.tree
    requires a'.tree == AddChild(a.tree, p, id) && a'.adoptionRecords == a.adoptionRecords
    ensures Recorded(a')
  {
    forall n, q {:trigger q in a'.tree[n].adopters} | n in a'.tree && q in a'.tree[n].adopters
      ensures n in a'.adoptionRecords && q in a'.adoptionRecords
    {
      assert q in a.tree[n].adopters;
    }
  }

  lemma ChildPlaced(a: Arena, a': Arena, root: Id, p: Id, id: Id)
    requires JobsPlaced(a, root) && Closed(a.tree, root) && p in a.tree && id !in a.tree
    requires a'.tree == AddChild(a.tree, p, id) && a'.jobs == a.jobs
    ensures JobsPlaced(a', root)
  {
    assert SameFreeing(a.tree, a'.tree);
    JobsPlacedStay(a, a', root);
  }

  lemma ChildKeepsInv(a: Arena, root: Id, p: Id, id: Id, provided: bool)
    requires Inv(a, root) && p in a.tree && id !in a.tree
    ensures Keeps(Child(a, p, id, provided), root)
  {
    var o := Child(a, p, id, provided);
    if o.Next? {
      var a' := o.arena;
      ChildAccounts(a, p, id, provided);
      assert CalledOnce(a');
      ChildRecorded(a, a', p, id);
      ChildSound(a.tree, root, p, id);
      ChildPlaced(a, a', root, p, id);
    }
  }

  /** The outcome of charging blocks to allocators of a, and nothing else. */
  ghost predicate Charges(a: Arena, o: Outcome) {
    && !o.Ended?
    && (o.Next? ==>
          && Accounted(o.arena) && o.arena.tree == a.tree && o.arena.jobs == a.jobs
          && o.arena.timesCalled == a.timesCalled && o.arena.adoptionRecords == a.adoptionRecords)
  }

  lemma MallocCharges(a: Arena, n: Id, requested: nat, given: Option<Id>)
    requires Accounted(a) && n in a.tree && RealSize(requested) < TWO_63 && given != Some(n)
    ensures Charges(a, NewAllocation(a, n, requested, given))
  {
    hide RealSize;
    NewAllocationAccounts(a, n, requested, given);
  }

  lemma AndThenCharges(a: Arena, o: Outcome, n: Id, requested: nat, given: Option<Id>)
    requires Charges(a, o) && n in a.tree && RealSize(requested) < TWO_63 && given != Some(n)
    ensures Charges(a, AndThen(o, n, requested, given))
  {
    hide RealSize, NewAllocation;
    if o.Next? { MallocCharges(o.arena, n, requested, given); }
  }

  lemma AdoptionAccounts(a: Arena, p: Id, c: Id, g: Grants)
    requires Accounted(a) && p in a.tree && c in a.tree && Elsewhere(g, p, c)
    ensures Charges(a, AdoptionMemory(a, p, c, g))
  {
    assert RealSize(ADOPTIONS_SIZE) == 48 && Charges(a, Next(a));
    hide AndThen, Charges, RealSize;
    AndThenCharges(a, Next(a), p, ADOPTIONS_SIZE, g.parentLists);
    var o1 := if p in a.adoptionRecords then Next(a) else AndThen(Next(a), p, ADOPTIONS_SIZE, g.parentLists);
    AndThenCharges(a, o1, c, ADOPTIONS_SIZE, g.childLists);
    var o2 := if c in a.adoptionRecords then o1 else AndThen(o1, c, ADOPTIONS_SIZE, g.childLists);
    AndThenCharges(a, o2, c, LIST_SIZE, g.childEntry);
    AndThenCharges(a, AndThen(o2, c, LIST_SIZE, g.childEntry), c, LIST_SIZE, g.parentEntry);
  }

  lemma AdoptionSound(t: Tree, root: Id, rank: map<Id, nat>, p: Id, c: Id)
    requires WellFormed(t, root, rank) && p in t && c in t && !t[p].freeing && !t[c].freeing
    requires !Reaches(LinkSet(t, root), c, p)
    ensures Sound(AddAdoption(t, p, c), root)
  {
    AdoptionKeepsWellFormed(t, root, rank, p, c);
  }

  lemma LinkingKeepsInv(a: Arena, a': Arena, root: Id, rank: map<Id, nat>, p: Id, c: Id)
    requires Inv(a, root) && WellFormed(a.tree, root, rank) && p in a.tree && c in a.tree
    requires !a.tree[p].freeing && !a.tree[c].freeing && !Reaches(LinkSet(a.tree, root), c, p)
    requires Accounted(a'.(tree := a.tree)) && a'.tree == AddAdoption(a.tree, p, c)
    requires a'.jobs == a.jobs && a'.timesCalled == a.timesCalled
    requires a'.adoptionRecords == a.adoptionRecords + {p, c}
    ensures Inv(a', root)
  {
    hide Accounted, Recorded, JobsPlaced, Ranked, Structure;
    assert a'.tree.Keys == a.tree.Keys;
    AccountedAgain(a'.(tree := a.tree), a'.tree);
    AdoptionRecorded(a, a', p, c);
    AdoptionPlaced(a, a', root, p, c);
    AdoptionSound(a.tree, root, rank, p, c);
  }

  lemma AdoptKeepsInv(a: Arena, root: Id, rank: map<Id, nat>, p: Id, c: Id, g: Grants)
    requires Inv(a, root) && WellFormed(a.tree, root, rank) && p in a.tree && c in a.tree && Elsewhere(g, p, c)
    ensures Keeps(Adopt(a, root, rank, p, c, g), root)
  {
    if !a.tree[p].freeing && !a.tree[c].freeing {
      LinkKeepsInv(a, root, rank, IsAncestorOf(a.tree, root, rank, c, p), p, c, g,
                   Adopt(a, root, rank, p, c, g));
    }
  }

  lemma LinkKeepsInv(
    a: Arena, root: Id, rank: map<Id, nat>, ancestor: bool, p: Id, c: Id, g: Grants, o: Outcome)
    requires Inv(a, root) && WellFormed(a.tree, root, rank) && p in a.tree && c in a.tree && Elsewhere(g, p, c)
    requires !a.tree[p].freeing && !a.tree[c].freeing
    requires !ancestor ==> !Reaches(LinkSet(a.tree, root), c, p)
    requires o == Link(a, ancestor, p, c, g)
    ensures Keeps(o, root)
  {
    hide Sound, Recorded, JobsPlaced, CalledOnce, WellFormed, AdoptionMemory, Reaches, LinkSet;
    AdoptionAccounts(a, p, c, g);
    if !ancestor && o.Next? { LinkingKeepsInv(a, o.arena, root, rank, p, c); }
  }

  lemma AdoptionPlaced(a: Arena, a': Arena, root: Id, p: Id, c: Id)
    requires JobsPlaced(a, root) && Closed(a.tree, root) && p in a.tree && c in a.tree
    requires a'.tree == AddAdoption(a.tree, p, c) && a'.jobs == a.jobs
    ensures JobsPlaced(a', root)
  {
    assert SameFreeing(a.tree, a'.tree);
    JobsPlacedStay(a, a', root);
  }

  lemma AdoptionRecorded(a: Arena, a': Arena, p: Id, c: Id)
    requires Recorded(a) && p in a.tree && c in a.tree
    requires a'.tree == AddAdoption(a.tree, p, c) && a'.adoptionRecords == a.adoptionRecords + {p, c}
    ensures Recorded(a')
  {
    forall n, q {:trigger q in a'.tree[n].adopters} | n in a'.tree && q in a'.tree[n].adopters
      ensures n in a'.adoptionRecords && q in a'.adoptionRecords
    {
      assert q in a.tree[n].adopters || (n == c && q == p);
    }
  }

  lemma {:induction false} OwnerIsTop(t: Tree, root: Id, rank: map<Id, nat>, x: Id)
    requires WellFormed(t, root, rank) && x in t
    ensures var o := JobOwner(t, root, rank, x);
            o in t && if t[x].freeing then t[o].freeing && IsTop(t, root, o) && Under(t, root, o, x) else o == x
    decreases rank[x]
  {
    UnderItself(t, root, x);
    if t[x].freeing && x != root {
      NaturalLink(t, root, rank, x);
      if t[t[x].parent].freeing {
        OwnerIsTop(t, root, rank, t[x].parent);
        UnderParent(t, root, JobOwner(t, root, rank, x), x);
      }
    }
  }

  lemma OnFreeKeepsInv(a: Arena, root: Id, rank: map<Id, nat>, x: Id, job: JobId, hasCallback: bool, given: Option<Id>)
    requires Inv(a, root) && WellFormed(a.tree, root, rank) && x in a.tree && job !in a.timesCalled && given != Some(x)
    ensures Keeps(OnFree(a, root, rank, x, job, hasCallback, given), root)
  {
    OwnerPlaced(a.tree, root, rank, x, hasCallback);
    EnlistKeepsInv(a, root, JobOwner(a.tree, root, rank, x), x, job, hasCallback, given,
                   OnFree(a, root, rank, x, job, hasCallback, given));
  }

  lemma EnlistKeepsInv(
    a: Arena, root: Id, owner: Id, x: Id, job: JobId, hasCallback: bool, given: Option<Id>, o: Outcome)
    requires Inv(a, root) && x in a.tree && job !in a.timesCalled && given != Some(x)
    requires Placed(a.tree, root, Job(owner, x, hasCallback, false))
    requires o == Enlist(a, owner, x, job, hasCallback, given)
    ensures Keeps(o, root)
  {
    hide RealSize, NewAllocation, Sound, Placed, Accounted, Recorded, JobsPlaced, CalledOnce;
    HasLists(a, x);
    JobSize();
    MallocCharges(a, x, JOB_SIZE, given);
    if o.Next? { EnlistedKeepsInv(a, NewAllocation(a, x, JOB_SIZE, given).arena, o.arena, root, job); }
  }

  lemma JobSize()
    ensures RealSize(JOB_SIZE) == 80
  {
  }

  lemma EnlistedKeepsInv(a: Arena, b: Arena, a': Arena, root: Id, job: JobId)
    requires Inv(a, root) && Accounted(b) && b.tree == a.tree && b.adoptionRecords == a.adoptionRecords
    requires a' == b.(jobs := a'.jobs, timesCalled := a'.timesCalled)
    requires job !in a.timesCalled && job in a'.jobs && !a'.jobs[job].called && Placed(a.tree, root, a'.jobs[job])
    requires a'.jobs == a.jobs[job := a'.jobs[job]] && a'.timesCalled == a.timesCalled[job := 0]
    ensures Inv(a', root)
  {
    hide Sound, Placed, Accounted, Recorded, JobsPlaced, CalledOnce;
    AccountsOnly(b, a');
    RecordedAgain(a, a');
    RegisterPlaced(a, a', root, job);
    RegisterCalledOnce(a, a', job);
  }

  lemma HasLists(a: Arena, x: Id)
    requires Accounted(a) && x in a.tree
    ensures x in a.blocks && x in a.allocatedHere
  {
  }

  lemma AccountsOnly(a: Arena, a': Arena)
    requires Accounted(a) && a' == a.(jobs := a'.jobs, timesCalled := a'.timesCalled)
    ensures Accounted(a')
  {
  }

  lemma RecordedAgain(a: Arena, a': Arena)
    requires Recorded(a) && a'.tree == a.tree && a'.adoptionRecords == a.adoptionRecords
    ensures Recorded(a')
  {
  }

  lemma OwnerPlaced(t: Tree, root: Id, rank: map<Id, nat>, x: Id, hasCallback: bool)
    requires WellFormed(t, root, rank) && x in t
    ensures Placed(t, root, Job(JobOwner(t, root, rank, x), x, hasCallback, false))
  {
    OwnerIsTop(t, root, rank, x);
  }

  lemma RegisterPlaced(a: Arena, a': Arena, root: Id, job: JobId)
    requires JobsPlaced(a, root) && a'.tree == a.tree && job in a'.jobs && Placed(a.tree, root, a'.jobs[job])
    requires a'.jobs == a.jobs[job := a'.jobs[job]]
    ensures JobsPlaced(a', root)
  {
  }

  lemma RegisterCalledOnce(a: Arena, a': Arena, job: JobId)
    requires CalledOnce(a) && job !in a.timesCalled && job in a'.jobs && !a'.jobs[job].called
    requires a'.jobs == a.jobs[job := a'.jobs[job]] && a'.timesCalled == a.timesCalled[job := 0]
    ensures CalledOnce(a')
  {
  }

  lemma CancelKeepsInv(a: Arena, root: Id, job: JobId)
    requires Inv(a, root)
    ensures Inv(CancelOnFree(a, job), root)
  {
  }

  lemma CompleteKeepsInv(a: Arena, root: Id, job: JobId)
    requires Inv(a, root)
    ensures Keeps(OnFreeComplete(a, root, job), root)
  {
    CancelKeepsInv(a, root, job);
    if job in a.jobs {
      var x := a.jobs[job].owner;
      assert Placed(a.tree, root, a.jobs[job]);
      if NoJobsAt(CancelOnFree(a, job), x) && a.tree[x].freeing {
        ReleaseKeepsInv(CancelOnFree(a, job), root, x);
      }
    }
  }

  lemma PivotKeepsInv(a: Arena, root: Id, rank: map<Id, nat>, x: Id)
    requires Inv(a, root) && WellFormed(a.tree, root, rank) && x in a.tree && !a.tree[x].freeing
    requires a.tree[x].adopters != []
    ensures Passes(a.tree, root, x, 0).Pivoted? && Inv(a.(tree := Passes(a.tree, root, x, 0).tree), root)
  {
    AdoptedOnlyPivots(a.tree, root, rank, x);
    PassesSettle(a.tree, root, x, 0);
    var a' := a.(tree := Passes(a.tree, root, x, 0).tree);
    JobsPlacedStay(a, a', root);
  }

  /** The state `Allocator__free` has reached when it decides whether to release the memory. */
  ghost function AfterJobs(a: Arena, root: Id, x: Id, async: set<JobId>): Arena
    requires Structure(a.tree, root) && x in a.tree && Passes(a.tree, root, x, 0).Freed?
  {
    RunJobs(Marshal(a.(tree := Passes(a.tree, root, x, 0).tree), root, x), x, async)
  }

  lemma JobsKeepInv(a: Arena, root: Id, rank: map<Id, nat>, x: Id, async: set<JobId>)
    requires Inv(a, root) && WellFormed(a.tree, root, rank) && x in a.tree && !a.tree[x].freeing
    requires a.tree[x].adopters == [] && Passes(a.tree, root, x, 0).Freed?
    ensures var r := AfterJobs(a, root, x, async);
            && Inv(r, root) && r.tree.Keys == a.tree.Keys
            && IsTop(r.tree, root, x) && r.tree[x].freeing
  {
    var w := Passes(a.tree, root, x, 0).tree;
    WalkFrees(a.tree, root, rank, x);
    FreedIsTop(a.tree, w, root, rank, x);
    MarshalPlaces(a, w, root, rank, x);
    RunPlaces(Marshal(a.(tree := w), root, x), root, x, async);
    RunCallsOnce(a.(tree := w), root, x, async);
    assert Recorded(a.(tree := w));
    assert Accounted(a.(tree := w));
  }

  lemma FreeKeepsInv(a: Arena, root: Id, rank: map<Id, nat>, x: Id, async: set<JobId>, o: Outcome)
    requires Inv(a, root) && WellFormed(a.tree, root, rank) && x in a.tree && o == Free(a, root, x, async)
    ensures Keeps(o, root)
  {
    if !a.tree[x].freeing {
      if a.tree[x].adopters != [] {
        PivotKeepsInv(a, root, rank, x);
      } else {
        FreeMarksUnreachable(a.tree, root, rank, x);
        if Passes(a.tree, root, x, 0).Freed? {
          JobsKeepInv(a, root, rank, x, async);
          var r := AfterJobs(a, root, x, async);
          if NoJobsAt(r, x) { ReleaseKeepsInv(r, root, x); }
        }
      }
    }
  }

  lemma DisownKeepsInv(
    a: Arena, root: Id, rank: map<Id, nat>, p: Id, c: Id, async: set<JobId>, o: Outcome)
    requires Inv(a, root) && WellFormed(a.tree, root, rank) && p in a.tree && c in a.tree
    requires o == Disown(a, root, rank, p, c, async)
    ensures Keeps(o, root)
  {
    if a.tree[p].freeing || a.tree[c].freeing {
    } else if a.tree[c].parent == p {
      FreeKeepsInv(a, root, rank, c, async, o);
    } else {
      CutKeepsInv(a, root, rank, IsAncestorOf(a.tree, root, rank, c, p), p, c, o);
    }
  }

  lemma CutKeepsInv(a: Arena, root: Id, rank: map<Id, nat>, ancestor: bool, p: Id, c: Id, o: Outcome)
    requires Inv(a, root) && WellFormed(a.tree, root, rank) && p in a.tree && c in a.tree
    requires o == Cut(a, ancestor, p, c)
    ensures Keeps(o, root)
  {
    UnadoptKeepsInv(a, root, rank, p, c);
  }

  lemma UnadoptKeepsInv(a: Arena, root: Id, rank: map<Id, nat>, p: Id, c: Id)
    requires Inv(a, root) && WellFormed(a.tree, root, rank) && p in a.tree && c in a.tree
    ensures Inv(a.(tree := Unadopt(a.tree, p, c)), root)
  {
    var a' := a.(tree := Unadopt(a.tree, p, c));
    UnadoptRecorded(a, p, c);
    UnadoptSameNature(a.tree, p, c);
    assert Accounted(a') && CalledOnce(a');
    JobsPlacedStay(a, a', root);
    UnadoptKeepsWellFormed(a.tree, root, rank, p, c);
  }

  lemma UnadoptRecorded(a: Arena, p: Id, c: Id)
    requires Recorded(a) && p in a.tree && c in a.tree
    ensures Recorded(a.(tree := Unadopt(a.tree, p, c)))
  {
    RemoveMembers(a.tree[c].adopters, p);
  }

  /** Every operation keeps the invariant. */
  lemma ApplyKeepsInv(a: Arena, root: Id, op: Op)
    requires Inv(a, root) && Allowed(a, op)
    ensures Keeps(Apply(a, root, op), root)
  {
    match op
    case Malloc(n, requested, given) => MallocKeepsInv(a, root, n, requested, given);
    case Resize(n, block, requested, given) => ReallocKeepsInv(a, root, n, block, requested, given);
    case MakeChild(p, id, provided) => ChildKeepsInv(a, root, p, id, provided);
    case AdoptChild(p, c, grants) => AdoptKeepsInv(a, root, SomeRank(a.tree, root), p, c, grants);
    case DisownChild(p, c, async) => DisownKeepsInv(a, root, SomeRank(a.tree, root), p, c, async, Apply(a, root, op));
    case Register(x, job, hasCallback, given) =>
      OnFreeKeepsInv(a, root, SomeRank(a.tree, root), x, job, hasCallback, given);
    case Cancel(job) => CancelKeepsInv(a, root, job);
    case FreeAllocator(x, async) => FreeKeepsInv(a, root, SomeRank(a.tree, root), x, async, Apply(a, root, op));
    case Complete(job) => CompleteKeepsInv(a, root, job);
  }

  // ---- Whole runs ----

  /** A run of operations; it stops when one does not return or is not the caller's to make. */
  ghost function Run(a: Arena, root: Id, ops: seq<Op>): Outcome
    requires Inv(a, root)
    decreases |ops|
  {
    if ops == [] || !Allowed(a, ops[0]) then Next(a)
    else
      ApplyKeepsInv(a, root, ops[0]);
      match Apply(a, root, ops[0])
      case Next(a') => Run(a', root, ops[1..])
      case o => o
  }

  lemma {:induction false} RunKeepsInv(a: Arena, root: Id, ops: seq<Op>)
    requires Inv(a, root)
    ensures Keeps(Run(a, root, ops), root)
    decreases |ops|
  {
    if ops != [] && Allowed(a, ops[0]) {
      ApplyKeepsInv(a, root, ops[0]);
      var o := Apply(a, root, ops[0]);
      if o.Next? { RunKeepsInv(o.arena, root, ops[1..]); }
    }
  }
}
