/** The allocator of memory/Allocator.c as it works: on cells linked by pointers, changed in place. */
module AllocatorTree {
  import opened Prelude
  import opened Links
  import opened Ownership
  import opened Pivot
  import opened PivotFrames
  import opened SiblingLists
  import opened AllocatorOps
  import opened Sums
  import opened Arena
  import opened ArenaInvariant
  import opened ArenaProperties

  /**
   * All allocators under one root.  `tree` is the ownership graph the cells lay out, `timesCalled` a
   * count of callbacks and `returned` the blocks handed back to the provider, in order; the program has
   * none of them.
   */
  class Allocators {
    const root: Id
    var cells: Heap
    var onFree: map<Id, seq<JobId>>
    var jobs: map<JobId, Job>
    var blocks: map<Id, seq<Block>>
    var allocatedHere: map<Id, nat>
    var spaceAvailable: int
    var maxSpace: int
    var adoptionRecords: set<Id>
    ghost var tree: Tree
    ghost var timesCalled: map<JobId, nat>
    ghost var returned: seq<Block>

    ghost function View(): Arena
      reads this
    {
      Arena(tree, jobs, timesCalled, blocks, allocatedHere, spaceAvailable, maxSpace, adoptionRecords)
    }

    /** The cells lay out the tree, the job lists hold the jobs of their owners, and the invariant holds. */
    ghost predicate Valid()
      reads this
    {
      Lays(cells, tree, root, None) && ListsOwned(onFree, jobs, tree.Keys) && Inv(View(), root)
    }

    ghost predicate Laid()
      reads this
    {
      Lays(cells, tree, root, None) && Structure(tree, root)
    }

    /** `Allocator_new`; with no room for the root itself the program ends. */
    constructor (id: Id, sizeLimit: nat, provided: bool)
      requires NewArena(sizeLimit, id, provided).Some?
      ensures root == id && Valid() && View() == NewArena(sizeLimit, id, provided).value
    {
      hide Inv, RealSize;
      StartOk(sizeLimit, id, provided);
      var size: nat := RealSize(ROOT_SIZE);
      var limit := if sizeLimit == 0 then TWO_63 - 1 else sizeLimit + size;
      root := id;
      cells := map[id := Cell(Some(id), None, None, None, [], [], false)];
      onFree := map[id := []];
      jobs := map[];
      blocks := map[id := [Block(id, size)]];
      allocatedHere := map[id := size];
      spaceAvailable := limit - size;
      maxSpace := limit;
      adoptionRecords := {};
      tree := map[id := Node(id, [], [], [], false)];
      timesCalled := map[];
    }

    // ---- Memory ----

    /** `newAllocation`; false when the limit or the provider refuses, which ends the program. */
    method Allocate(n: Id, requested: nat, given: Option<Id>) returns (ok: bool)
      requires Valid() && n in tree && given != Some(n) && (given.Some? ==> RealSize(requested) < TWO_63)
      modifies `spaceAvailable, `allocatedHere, `blocks
      ensures var o := NewAllocation(old(View()), n, requested, given);
              if ok then o == Next(View()) && Valid() else o == Aborted && View() == old(View())
    {
      hide Lays, ListsOwned, Inv, RealSize;
      HasBlocks(View(), root, n);
      MallocKeepsInv(View(), root, n, requested, given);
      var size: nat := RealSize(requested);
      if spaceAvailable <= Int64(size) || given.None? {
        return false;
      }
      spaceAvailable := spaceAvailable - Int64(size);
      allocatedHere := allocatedHere[n := (allocatedHere[n] + size) % TWO_64];
      blocks := blocks[n := [Block(given.value, size)] + blocks[n]];
      return true;
    }

    /** The walk of `Allocator__realloc` along the blocks of n. */
    method FindBlock(n: Id, block: Id) returns (i: nat)
      requires n in blocks
      ensures i == Position(blocks[n], block)
    {
      i := 0;
      while i < |blocks[n]| && blocks[n][i].at != block
        invariant i <= |blocks[n]| && forall k :: 0 <= k < i ==> blocks[n][k].at != block
      {
        i := i + 1;
      }
    }

    /** `Allocator__realloc` of a block of n, which is not the one that holds n itself. */
    method Reallocate(n: Id, block: Id, requested: nat, given: Option<Id>) returns (ok: bool)
      requires Valid() && n in tree && block != n && given != Some(n)
      modifies `spaceAvailable, `allocatedHere, `blocks
      ensures var o := Realloc(old(View()), n, block, requested, given);
              if ok then o == Next(View()) && Valid() else o == Aborted && View() == old(View())
    {
      hide Lays, ListsOwned, Inv, RealSize;
      HasBlocks(View(), root, n);
      ReallocKeepsInv(View(), root, n, block, requested, given);
      var i := FindBlock(n, block);
      if i >= |blocks[n]| {
        return false;
      }
      var was := blocks[n][i].size;
      assert was <= allocatedHere[n];
      if requested == 0 {
        blocks := blocks[n := blocks[n][..i] + blocks[n][i + 1..]];
        spaceAvailable := spaceAvailable + was;
        allocatedHere := allocatedHere[n := allocatedHere[n] - was];
        return true;
      }
      var size: nat := RealSize(requested);
      if spaceAvailable + was < size || given.None? {
        return false;
      }
      spaceAvailable := spaceAvailable + was - size;
      allocatedHere := allocatedHere[n := allocatedHere[n] - was + size];
      blocks := blocks[n := blocks[n][..i] + [Block(given.value, size)] + blocks[n][i + 1..]];
      return true;
    }

    // ---- Sibling lists ----

    /** The pointer writes of `disconnect`, with the assertions it makes on the way. */
    method Unlink(c: Id)
      requires HasNeighbours(cells, c)
      modifies `cells
      ensures TakenOut(old(cells), cells, old(cells[c].parent.value), c)
    {
      var cell := cells[c];
      var p := cell.parent.value;
      if cell.lastSibling.Some? {
        var last := cell.lastSibling.value;
        assert cells[last].nextSibling == Some(c) && cells[p].firstChild != Some(c);
        cells := cells[last := cells[last].(nextSibling := cell.nextSibling)];
      } else {
        assert cells[p].firstChild == Some(c);
        cells := cells[p := cells[p].(firstChild := cell.nextSibling)];
      }
      if cell.nextSibling.Some? {
        var next := cell.nextSibling.value;
        assert cells[next].lastSibling == Some(c);
        cells := cells[next := cells[next].(lastSibling := cell.lastSibling)];
      }
      cells := cells[c := cells[c].(lastSibling := None, nextSibling := None, parent := None)];
    }

    /** `disconnect` */
    method Disconnect(c: Id)
      requires Laid() && c in tree && c != root
      modifies `cells, `tree
      ensures tree == Detached(old(tree), c) && Lays(cells, tree, root, Some(c))
    {
      Neighbours(cells, tree, root, c);
      Unlink(c);
      TakenOutLays(old(cells), cells, tree, root, c);
      tree := Detached(tree, c);
    }

    /** The pointer writes of `connect`. */
    method LinkFirst(p: Id, c: Id)
      requires p in cells && c in cells && p != c
      requires cells[p].firstChild.Some? ==> cells[p].firstChild.value in cells && cells[p].firstChild.value != c
      modifies `cells
      ensures PutIn(old(cells), cells, p, c)
    {
      var first := cells[p].firstChild;
      cells := cells[c := cells[c].(nextSibling := first)];
      if first.Some? {
        cells := cells[first.value := cells[first.value].(lastSibling := Some(c))];
      }
      cells := cells[p := cells[p].(firstChild := Some(c))];
      cells := cells[c := cells[c].(parent := Some(p))];
    }

    /** `connect` */
    method Connect(p: Id, c: Id)
      requires Lays(cells, tree, root, Some(c)) && KidsOk(tree, root) && InNoList(tree, c) && root in tree
      requires p in tree && c in tree && p != c && c != root
      modifies `cells, `tree
      ensures tree == Attached(old(tree), c, p) && Lays(cells, tree, root, None)
    {
      assert cells[c].parent.None? && cells[c].lastSibling.None? && cells[c].nextSibling.None?;
      FirstIsKid(cells, tree, p, c);
      LinkFirst(p, c);
      PutInLays(old(cells), cells, tree, root, c, p);
      tree := Attached(tree, c, p);
    }

    /** A new cell, first on the list of p. */
    method AddCell(p: Id, id: Id)
      requires Lays(cells, tree, root, None) && KidsOk(tree, root) && root in tree && p in tree && id !in tree
      modifies `cells, `tree
      ensures tree == AddChild(old(tree), p, id) && tree.Keys == old(tree).Keys + {id}
      ensures Lays(cells, tree, root, None)
    {
      hide Lays, AddChild, Attached, KidsOk, InNoList;
      CellOf(cells, tree, root, p);
      cells := cells[id := Cell(None, None, None, None, [], [], cells[p].isFreeing)];
      NewCellLays(old(cells), cells, tree, root, p, id);
      NewNodeAttached(tree, p, id);
      tree := NewNode(tree, p, id);
      Connect(p, id);
    }

    /** `Allocator__child`; id is the address of the new allocator's own block. */
    method MakeChild(p: Id, id: Id, provided: bool) returns (ok: bool)
      requires Valid() && p in tree && id !in tree
      modifies this
      ensures var o := Child(old(View()), p, id, provided);
              if ok then o == Next(View()) && Valid() else o == Aborted && View() == old(View())
    {
      hide Lays, ListsOwned, Inv, RealSize, AddChild, Attached, Structure, KidsOk, InNoList, Sound, Closed;
      InvTree(View(), root);
      ChildKeepsInv(View(), root, p, id, provided);
      NewList(onFree, jobs, tree.Keys, View(), root, id);
      var size: nat := RealSize(ALLOCATOR_SIZE);
      if spaceAvailable <= size || !provided {
        return false;
      }
      spaceAvailable := spaceAvailable - size;
      allocatedHere := allocatedHere[id := size];
      blocks := blocks[id := [Block(id, size)]];
      onFree := onFree[id := []];
      AddCell(p, id);
      return true;
    }

    // ---- Adoption lists ----

    /** `isAncestorOf`, with the loop over adopted parents moving on. */
    method IsAncestor(a: Id, c: Id, ghost rank: map<Id, nat>) returns (r: bool)
      requires Lays(cells, tree, root, None) && WellFormed(tree, root, rank) && c in tree
      ensures r == IsAncestorOf(tree, root, rank, a, c)
      decreases rank[c]
    {
      if a == c {
        return true;
      }
      assert cells[c].parent == Some(tree[c].parent) && cells[c].adopters == tree[c].adopters;
      if cells[c].parent == Some(c) {
        return false;
      }
      NaturalLink(tree, root, rank, c);
      r := IsAncestor(a, cells[c].parent.value, rank);
      if r {
        return true;
      }
      var list, i := cells[c].adopters, 0;
      while i < |list|
        invariant i <= |list| && list == tree[c].adopters
        invariant IsAncestorOfAny(tree, root, rank, a, c, list[i..]) == IsAncestorOfAny(tree, root, rank, a, c, list)
      {
        AdoptedLink(tree, root, rank, c, list[i]);
        r := IsAncestor(a, list[i], rank);
        if r {
          return true;
        }
        assert list[i..][1..] == list[i + 1..];
        i := i + 1;
      }
      return false;
    }

    /** The two list entries `Allocator__adopt` makes. */
    method LinkAdoption(p: Id, c: Id)
      requires Lays(cells, tree, root, None) && p in tree && c in tree && p != c
      modifies `cells, `tree
      ensures tree == AddAdoption(old(tree), p, c) && tree.Keys == old(tree).Keys && Lays(cells, tree, root, None)
    {
      hide Lays;
      CellOf(cells, tree, root, p);
      CellOf(cells, tree, root, c);
      cells := cells[p := cells[p].(adoptees := [c] + cells[p].adoptees)];
      cells := cells[c := cells[c].(adopters := [p] + cells[c].adopters)];
      AdoptionLays(old(cells), cells, tree, root, p, c);
      tree := AddAdoption(tree, p, c);
    }

    /** The blocks `Allocator__adopt` asks for. */
    method AllocateAdoption(p: Id, c: Id, given: Grants) returns (ok: bool)
      requires Valid() && p in tree && c in tree && Elsewhere(given, p, c)
      modifies `spaceAvailable, `allocatedHere, `blocks
      ensures var o := AdoptionMemory(old(View()), p, c, given);
              if ok then o == Next(View()) && Valid() else o == Aborted
    {
      hide Lays, ListsOwned, Inv, NewAllocation;
      HasBlocks(View(), root, p);
      HasBlocks(View(), root, c);
      ok := true;
      if p !in adoptionRecords {
        ok := Allocate(p, ADOPTIONS_SIZE, given.parentLists);
        if !ok {
          return;
        }
        HasBlocks(View(), root, c);
      }
      if c !in adoptionRecords {
        ok := Allocate(c, ADOPTIONS_SIZE, given.childLists);
        if !ok {
          return;
        }
        HasBlocks(View(), root, c);
      }
      ok := Allocate(c, LIST_SIZE, given.childEntry);
      if !ok {
        return;
      }
      HasBlocks(View(), root, c);
      ok := Allocate(c, LIST_SIZE, given.parentEntry);
    }

    /** `Allocator__adopt` */
    method AdoptChild(p: Id, c: Id, given: Grants, ghost rank: map<Id, nat>) returns (ok: bool)
      requires Valid() && WellFormed(tree, root, rank) && p in tree && c in tree && Elsewhere(given, p, c)
      modifies this
      ensures var o := Adopt(old(View()), root, rank, p, c, given);
              if ok then o == Next(View()) && Valid() else o == Aborted
    {
      hide Lays, ListsOwned, Inv, WellFormed, AdoptionMemory, AddAdoption, IsAncestorOf;
      AdoptKeepsInv(View(), root, rank, p, c, given);
      CellOf(cells, tree, root, p);
      CellOf(cells, tree, root, c);
      if cells[p].isFreeing {
        return true;
      }
      if cells[c].isFreeing {
        return false;
      }
      var ancestor := IsAncestor(c, p, rank);
      if ancestor {
        return true;
      }
      NotOwnAncestor(tree, root, rank, p, c);
      ok := AllocateAdoption(p, c, given);
      if ok {
        adoptionRecords := adoptionRecords + {p, c};
        LinkAdoption(p, c);
      }
    }

    /** `disconnectAllocator` */
    static method DisconnectAllocator(target: Id, list: seq<Id>) returns (found: bool, rest: seq<Id>)
      ensures found == (target in list) && rest == Remove(list, target)
    {
      var i := 0;
      while i < |list|
        invariant i <= |list| && target !in list[..i]
      {
        if list[i] == target {
          RemoveAt(list, i);
          return true, list[..i] + list[i + 1..];
        }
        i := i + 1;
      }
      assert list[..i] == list;
      RemoveAbsent(list, target);
      return false, list;
    }

    /** `disconnectAdopted` */
    method DisconnectAdopted(p: Id, c: Id)
      requires Laid() && c in tree && p in tree[c].adopters
      modifies `cells, `tree
      ensures p in old(tree) && tree == Unadopt(old(tree), p, c) && Laid()
    {
      hide Structure, AllLists, SameParents, Remove;
      AdoptionOnBothSides(tree, root, p, c);
      assert cells[p].adoptees != [] && cells[c].adopters != [];
      var found, rest := DisconnectAllocator(c, cells[p].adoptees);
      assert found;
      cells := cells[p := cells[p].(adoptees := rest)];
      found, rest := DisconnectAllocator(p, cells[c].adopters);
      assert found;
      cells := cells[c := cells[c].(adopters := rest)];
      UnadoptLays(old(cells), cells, tree, root, p, c);
      tree := Unadopt(tree, p, c);
    }

    // ---- Jobs ----

    /** `removeJob`: false when the job is on no list. */
    method RemoveJob(job: JobId) returns (found: bool)
      requires ListsOwned(onFree, jobs, tree.Keys) && (job in jobs ==> jobs[job].owner in tree)
      modifies `onFree, `jobs
      ensures found == (job in old(jobs)) && jobs == old(jobs) - {job}
      ensures ListsOwned(onFree, jobs, tree.Keys)
      ensures found ==> var n := old(jobs)[job].owner;
                        n in old(onFree) && onFree == old(onFree)[n := Remove(old(onFree)[n], job)]
    {
      if job !in jobs {
        return false;
      }
      var n := jobs[job].owner;
      var list, i := onFree[n], 0;
      assert job in list;
      while list[i] != job
        invariant i < |list| && job !in list[..i]
        decreases |list| - i
      {
        i := i + 1;
      }
      RemoveAt(list, i);
      ListWithout(onFree, jobs, tree.Keys, n, job);
      onFree := onFree[n := list[..i] + list[i + 1..]];
      jobs := jobs - {job};
      return true;
    }

    /** `Allocator_cancelOnFree` */
    method CancelJob(job: JobId) returns (found: bool)
      requires Valid()
      modifies `onFree, `jobs
      ensures Valid() && View() == CancelOnFree(old(View()), job) && found == (job in old(jobs))
    {
      hide Lays, ListsOwned, Inv;
      OwnerInTree(View(), root, job);
      CancelKeepsInv(View(), root, job);
      found := RemoveJob(job);
    }

    /** `Allocator__onFree` */
    method Register(x: Id, job: JobId, hasCallback: bool, given: Option<Id>, ghost rank: map<Id, nat>) returns (ok: bool)
      requires Valid() && WellFormed(tree, root, rank) && x in tree && job !in timesCalled && given != Some(x)
      modifies this
      ensures var o := OnFree(old(View()), root, rank, x, job, hasCallback, given);
              if ok then o == Next(View()) && Valid() else o == Aborted
    {
      hide Lays, ListsOwned, Inv, WellFormed, NewAllocation, JobOwner;
      HasBlocks(View(), root, x);
      OnFreeKeepsInv(View(), root, rank, x, job, hasCallback, given);
      var context := FindOwner(x, rank);
      ok := Allocate(x, JOB_SIZE, given);
      if ok {
        NewJobListed(onFree, jobs, View(), root, context, job, Job(context, x, hasCallback, false));
        onFree := onFree[context := onFree[context] + [job]];
        jobs := jobs[job := Job(context, x, hasCallback, false)];
        timesCalled := timesCalled[job := 0];
      }
    }

    /** The climb to the top of the freeing part x is in. */
    method FindOwner(x: Id, ghost rank: map<Id, nat>) returns (context: Id)
      requires Lays(cells, tree, root, None) && WellFormed(tree, root, rank) && x in tree
      ensures context in tree && context == JobOwner(tree, root, rank, x)
    {
      hide WellFormed, Lays;
      context := x;
      CellOf(cells, tree, root, x);
      ParentOf(tree, root, rank, x);
      while cells[context].isFreeing
        invariant context in rank && context in tree && context in cells && cells[context].isFreeing == tree[context].freeing
        invariant JobOwner(tree, root, rank, context) == JobOwner(tree, root, rank, x)
        decreases rank[context]
      {
        CellOf(cells, tree, root, context);
        ParentOf(tree, root, rank, context);
        var parent := cells[context].parent.value;
        CellOf(cells, tree, root, parent);
        if parent == context || !cells[parent].isFreeing {
          return;
        }
        context := parent;
      }
    }

    /** One child's part of `marshalOnFreeJobs`: its list goes to the end of the list of `top`. */
    method TakeJobs(child: Id, top: Id)
      requires ListsOwned(onFree, jobs, tree.Keys) && child in tree && top in tree && child != top
      modifies `onFree, `jobs
      ensures jobs == MovedTo(old(jobs), {child}, top) && ListsOwned(onFree, jobs, tree.Keys)
    {
      hide ListsOwned, MovedTo;
      ListMoved(onFree, jobs, tree.Keys, child, top);
      var list := onFree[child];
      onFree := onFree[top := onFree[top] + list];
      onFree := onFree[child := []];
      var i := 0;
      while i < |list|
        invariant i <= |list| && jobs.Keys == old(jobs).Keys && onFree == old(onFree)[top := old(onFree)[top] + list][child := []]
        invariant forall j {:trigger jobs[j]} :: j in jobs ==>
                    jobs[j] == if j in list[..i] then old(jobs)[j].(owner := top) else old(jobs)[j]
      {
        assert list[i] in list && list[i] in jobs;
        jobs := jobs[list[i] := jobs[list[i]].(owner := top)];
        i := i + 1;
      }
      assert list[..i] == list;
      MovedIs(old(jobs), jobs, list, child, top);
    }

    /** `marshalOnFreeJobs` */
    method MarshalJobs(x: Id, top: Id, ghost rank: map<Id, nat>)
      requires Lays(cells, tree, root, None) && ListsOwned(onFree, jobs, tree.Keys) && WellFormed(tree, root, rank)
      requires x in tree && tree[x].freeing && top in tree && top !in UnderAny(tree, root, tree[x].kids)
      modifies `onFree, `jobs
      ensures jobs == MovedTo(old(jobs), UnderAny(tree, root, tree[x].kids), top)
      ensures ListsOwned(onFree, jobs, tree.Keys)
      decreases UnderSet(tree, root, x)
    {
      hide ListsOwned, WellFormed, Lays, UnderAny, UnderSet, MovedTo;
      CellOf(cells, tree, root, x);
      assert cells[x].isFreeing;
      KidList(cells, tree, root, x);
      MovedNone(tree, root, rank, jobs, x, top);
      var child := cells[x].firstChild;
      ghost var k := 0;
      while child.Some?
        invariant k <= |tree[x].kids| && child == At(tree[x].kids, k)
        invariant jobs == MovedTo(old(jobs), UnderAny(tree, root, tree[x].kids[..k]), top)
        invariant ListsOwned(onFree, jobs, tree.Keys)
        decreases |tree[x].kids| - k
      {
        JobsOfKid(tree, root, rank, old(jobs), x, k, top);
        TakeJobs(child.value, top);
        var nextChild := cells[child.value].nextSibling;
        MarshalJobs(child.value, top, rank);
        child := nextChild;
        k := k + 1;
      }
      assert tree[x].kids[..k] == tree[x].kids;
    }

    /** What `doOnFreeJobs` does with one job; true when the job stays on the list. */
    method RunJob(job: JobId, async: set<JobId>) returns (kept: bool)
      requires ListsOwned(onFree, jobs, tree.Keys) && job in jobs && job in timesCalled && jobs[job].owner in tree
      modifies `onFree, `jobs, `timesCalled
      ensures (jobs, timesCalled) == RunOne(old(jobs), old(timesCalled), async, job) && kept == (job in jobs)
      ensures ListsOwned(onFree, jobs, tree.Keys)
      ensures var n := old(jobs)[job].owner;
              n in old(onFree) && onFree == if kept then old(onFree) else old(onFree)[n := Remove(old(onFree)[n], job)]
    {
      var j := jobs[job];
      kept := true;
      if !j.hasCallback {
        var found := RemoveJob(job);
        assert found;
        kept := false;
      } else if !j.called {
        timesCalled := timesCalled[job := timesCalled[job] + 1];
        if job !in async {
          var found := RemoveJob(job);
          assert found;
          kept := false;
        } else {
          jobs := jobs[job := j.(called := true)];
        }
      }
    }

    /** `doOnFreeJobs`; `async` are the jobs whose callback asks for more time. */
    method DoJobs(x: Id, async: set<JobId>)
      requires ListsOwned(onFree, jobs, tree.Keys) && x in tree && CalledOnce(View())
      modifies `onFree, `jobs, `timesCalled
      ensures View() == RunJobs(old(View()), x, async) && ListsOwned(onFree, jobs, tree.Keys)
    {
      hide ListsOwned, CalledOnce, RunOne, RunJobs, RunSome;
      RunBegins(onFree, View(), tree.Keys, x, async);
      ghost var done: set<JobId> := {};
      var i := 0;
      while i < |onFree[x]|
        invariant x in onFree && i <= |onFree[x]| && ListsOwned(onFree, jobs, tree.Keys)
        invariant View() == RunSome(old(View()), x, async, done)
        invariant LeftToRun(old(View()), x, done, onFree[x][i..])
        decreases |onFree[x]| - i
      {
        var job := onFree[x][i];
        RunGoes(onFree, old(View()), View(), tree.Keys, x, async, done, i);
        var kept := RunJob(job, async);
        done := done + {job};
        if kept {
          i := i + 1;
        }
      }
      assert onFree[x][i..] == [];
      RunIsOver(old(View()), x, async, done);
    }

    // ---- The walk ----

    /** Moving c to its first adopter. */
    method PivotAway(c: Id)
      requires Laid() && c in tree && !tree[c].freeing && tree[c].adopters != []
      modifies `cells, `tree
      ensures Laid() && (tree, 0) == Visit(old(tree), c)
    {
      var p := cells[c].adopters[0];
      AdopterIsLive(tree, root, c, p);
      assert !cells[p].isFreeing;
      Disconnect(c);
      DetachedKids(old(tree), root, c);
      DetachedAttached(old(tree), c, p);
      Connect(p, c);
      MoveKeepsStructure(old(tree), root, c, p);
      DisconnectAdopted(p, c);
    }

    /** Dropping every adoption c has made. */
    method DropAdoptions(c: Id)
      requires Laid() && c in tree
      modifies `cells, `tree
      ensures Laid() && tree == DropAdoptees(old(tree), c)
    {
      while cells[c].adoptees != []
        invariant Laid() && c in tree && DropAdoptees(tree, c) == DropAdoptees(old(tree), c)
        decreases |tree[c].adoptees|
      {
        var k := cells[c].adoptees[0];
        AdopteeIsLive(tree, root, c, k);
        assert !cells[k].isFreeing;
        DropStep(tree, root, c);
        DisconnectAdopted(c, k);
      }
    }

    method MarkFreeing(c: Id)
      requires Laid() && c in tree && !tree[c].freeing && tree[c].adopters == [] && tree[c].adoptees == []
      modifies `cells, `tree
      ensures Laid() && tree == Mark(old(tree), c)
    {
      assert !cells[c].isFreeing;
      cells := cells[c := cells[c].(isFreeing := true)];
      MarkLays(old(cells), tree, root, c);
      tree := Mark(tree, c);
    }

    /** `pivotChildrenToAdoptedParents0` on the level it is after. */
    method Reach(c: Id) returns (out: nat)
      requires Laid() && c in tree
      modifies `cells, `tree
      ensures Laid() && (tree, out) == Visit(old(tree), c)
    {
      if cells[c].isFreeing {
        return 0;
      }
      if cells[c].adopters != [] {
        PivotAway(c);
        return 0;
      }
      DropFacts(tree, root, c);
      DropAdoptions(c);
      MarkFreeing(c);
      return 1;
    }

    /**
     * `pivotChildrenToAdoptedParents0`: everything above the level it is after is already freeing, and
     * visiting that level gives `goal`.
     */
    method PivotLevel(x: Id, depth: nat, maxDepth: nat, ghost rank: map<Id, nat>, ghost goal: (Tree, nat))
      returns (out: nat)
      requires Laid() && depth <= maxDepth && Ready(tree, root, rank, x, maxDepth - depth, goal)
      modifies `cells, `tree
      ensures Laid() && tree == goal.0 && out == goal.1
      decreases maxDepth - depth, 2
    {
      if depth == maxDepth {
        FirstVisit(tree, root, x);
        out := Reach(x);
      } else {
        out := PivotKids(x, depth, maxDepth, rank, goal);
      }
    }

    /** One round of its loop: the next sibling is saved before the call. */
    method PivotKid(child: Id, depth: nat, maxDepth: nat, out: nat, ghost rank: map<Id, nat>, ghost goal: (Tree, nat))
      returns (nextChild: Option<Id>, out': nat)
      requires Laid() && child in cells && depth < maxDepth
      requires Ready(tree, root, rank, child, maxDepth - depth - 1, goal)
      modifies `cells, `tree
      ensures Laid() && tree == goal.0 && out' == out + goal.1 && nextChild == old(cells[child].nextSibling)
      decreases maxDepth - depth, 0
    {
      hide VisitAll, Level, Structure, Lays;
      nextChild := cells[child].nextSibling;
      var more := PivotLevel(child, depth + 1, maxDepth, rank, goal);
      out' := out + more;
    }

    /** Its loop over the children of x. */
    method PivotKids(x: Id, depth: nat, maxDepth: nat, ghost rank: map<Id, nat>, ghost goal: (Tree, nat))
      returns (out: nat)
      requires Laid() && depth < maxDepth && Ready(tree, root, rank, x, maxDepth - depth, goal)
      modifies `cells, `tree
      ensures Laid() && tree == goal.0 && out == goal.1
      decreases maxDepth - depth, 1
    {
      hide VisitAll, Level, Structure, AllLists, SameAdoption, SameParents;
      ghost var loop := LoopStarts(cells, tree, root, rank, x, maxDepth - depth - 1, goal);
      var child := cells[x].firstChild;
      out := 0;
      while child.Some?
        invariant Laid() && Going(loop, tree, child, out) && loop.root == root && loop.rank == rank
        invariant loop.goal == goal && loop.k <= |loop.kids| && loop.d == maxDepth - depth - 1
        decreases |loop.kids| - loop.k
      {
        ghost var next := LoopRound(cells, loop, tree, child, out);
        child, out := PivotKid(child.value, depth, maxDepth, out, rank, next);
        loop := loop.(k := loop.k + 1);
      }
      LoopEnds(loop, tree, out);
    }

    /** `pivotChildrenToAdoptedParents`: `gaveUp` is its final assertion. */
    method PivotChildren(x: Id, ghost rank: map<Id, nat>) returns (freed: bool, gaveUp: bool)
      requires Laid() && WellFormed(tree, root, rank) && x in tree && !tree[x].freeing
      modifies `cells, `tree
      ensures Laid() && !(freed && gaveUp)
      ensures match Passes(old(tree), root, x, 0)
              case TooDeep => gaveUp
              case Pivoted(t) => !freed && !gaveUp && tree == t
              case Freed(t) => freed && tree == t
    {
      hide VisitAll, Passes, Level, WellFormed, PassInv, Structure, AllLists, SameAdoption, SameParents;
      ghost var t, w := tree, Passes(tree, root, x, 0);
      ghost var marked: set<Id> := {};
      var i := 0;
      while i < 10000
        invariant i <= MAX_DEPTH && Laid() && Walking(t, tree, root, rank, x, i, marked, w)
      {
        ghost var goal, marked' := WalkRound(t, tree, root, rank, x, i, marked, w);
        var out := PivotLevel(x, 0, i, rank, goal);
        if out == 0 {
          return i != 0, false;
        }
        marked := marked';
        i := i + 1;
      }
      GivesUp(t, tree, root, rank, x, marked, w);
      return false, true;
    }

    // ---- Releasing ----

    ghost function Held(): Memory
      reads this
    {
      Memory(cells, onFree, blocks, allocatedHere, spaceAvailable, adoptionRecords)
    }

    /** `releaseMemory`: the blocks go back one by one, the one that holds x itself last. */
    method ReleaseMemory(x: Id)
      requires x in cells && x in onFree && x in blocks && x in allocatedHere && allocatedHere[x] == Bytes(blocks[x])
      modifies `cells, `onFree, `blocks, `allocatedHere, `spaceAvailable, `adoptionRecords, `returned
      ensures Held() == Without(old(Held()), {x}) && returned == old(returned) + old(blocks[x])
    {
      SumOne(allocatedHere, x);
      spaceAvailable := spaceAvailable + allocatedHere[x];
      var list, left, i := blocks[x], allocatedHere[x], 0;
      assert list[0..] == list;
      while i < |list|
        invariant i <= |list| && left == Bytes(list[i..]) && returned == old(returned) + list[..i]
        modifies `returned
      {
        assert list[i..][1..] == list[i + 1..] && list[..i + 1] == list[..i] + [list[i]];
        left := left - list[i].size;
        returned := returned + [list[i]];
        i := i + 1;
      }
      assert left == 0 && list[..i] == list;
      cells := cells - {x};
      onFree := onFree - {x};
      blocks := blocks - {x};
      allocatedHere := allocatedHere - {x};
      adoptionRecords := adoptionRecords - {x};
    }

    /** The recursion of `freeAllocator`: x and everything under it in t are released, children first. */
    method ReleaseAll(x: Id, ghost t: Tree, ghost rank: map<Id, nat>) returns (ghost order: seq<Id>)
      requires WellFormed(t, root, rank) && x in t && HoldsUnder(t, root, x, Held())
      modifies `cells, `onFree, `blocks, `allocatedHere, `spaceAvailable, `adoptionRecords, `returned
      ensures UnderSet(t, root, x) <= old(allocatedHere).Keys
      ensures Held() == Without(old(Held()), UnderSet(t, root, x))
      ensures ChildrenFirst(t, UnderSet(t, root, x), order) && returned == old(returned) + BlocksOf(order, old(blocks))
      decreases UnderSet(t, root, x)
    {
      hide WellFormed, HoldsUnder, UnderSet, UnderAny, Without, ChildrenFirst, BlocksOf;
      ghost var m := Held();
      ReleaseStarts(t, root, rank, x, m);
      OrderStarts(t, root, x, m.blocks);
      var child := cells[x].firstChild;
      ghost var k := 0;
      order := [];
      while child.Some?
        invariant k <= |t[x].kids| && child == At(t[x].kids, k)
        invariant UnderAny(t, root, t[x].kids[..k]) <= m.allocatedHere.Keys
        invariant Held() == Without(m, UnderAny(t, root, t[x].kids[..k]))
        invariant ChildrenFirst(t, UnderAny(t, root, t[x].kids[..k]), order)
        invariant returned == old(returned) + BlocksOf(order, m.blocks)
        decreases |t[x].kids| - k
      {
        ReleaseKid(t, root, rank, x, k, m);
        var nextChild := cells[child.value].nextSibling;
        ghost var left := Held();
        ghost var more := ReleaseAll(child.value, t, rank);
        OrderGrows(t, root, rank, x, k, order, more, m, left);
        order := order + more;
        child := nextChild;
        k := k + 1;
      }
      assert t[x].kids[..k] == t[x].kids;
      ReleaseSelf(t, root, rank, x, m);
      OrderEnds(t, root, rank, x, order, m, Held());
      ReleaseMemory(x);
      order := order + [x];
    }

    /** `freeAllocator` on the top of a freed part nobody waits for; true when that is the root. */
    method FreeAll(x: Id, ghost rank: map<Id, nat>) returns (ended: bool, ghost order: seq<Id>)
      requires Valid() && WellFormed(tree, root, rank) && x in tree && tree[x].freeing && IsTop(tree, root, x)
      requires NoJobsAt(View(), x)
      modifies this
      ensures ended == (x == root)
      ensures !ended ==> Release(old(View()), root, x) == Next(View()) && Valid()
      ensures ChildrenFirst(old(tree), UnderSet(old(tree), root, x), order)
      ensures returned == old(returned) + BlocksOf(order, old(blocks))
    {
      hide ChildrenFirst, BlocksOf, WellFormed, Inv, Lays, ListsOwned, HoldsUnder;
      hide UnderSet, Sum, Prune, Release, Structure, IsTop, NoJobsAt, Accounted;
      InvTree(View(), root);
      ReleaseKeepsInv(View(), root, x);
      ghost var t, a, m := tree, View(), Held();
      CellOf(cells, tree, root, x);
      assert cells[x].isFreeing;
      TopParent(cells, tree, root, rank, x);
      var isTop := !cells[cells[x].parent.value].isFreeing;
      HeldFacts(m, a, root);
      HeldThere(m, a, root, x);
      if isTop {
        Disconnect(x);
        HeldStill(m, cells, a, root, rank, x);
      }
      ghost var h := cells;
      order := ReleaseAll(x, t, rank);
      if x == root {
        ended := true;
        return;
      }
      tree := Prune(t, root, x);
      ReleasedView(m.(cells := h), a, Held(), root, x);
      ReleasedLays(h, t, root, rank, x);
      ReleasedLists(m.onFree, a, root, x);
      ended := false;
    }

    /** `bytesAllocated` */
    method CountBytes(x: Id, ghost rank: map<Id, nat>) returns (bytes: nat)
      requires Lays(cells, tree, root, None) && WellFormed(tree, root, rank) && x in tree
      requires allocatedHere.Keys == tree.Keys
      ensures bytes == BytesAllocated(tree, root, rank, allocatedHere, x)
      decreases UnderSet(tree, root, x)
    {
      hide Lays, WellFormed, UnderSet;
      KidList(cells, tree, root, x);
      ghost var ks, k := tree[x].kids, 0;
      bytes := allocatedHere[x];
      var child := cells[x].firstChild;
      assert ks[0..] == ks;
      while child.Some?
        invariant k <= |ks| && child == At(ks, k)
        invariant bytes + BytesOfAll(tree, root, rank, allocatedHere, x, ks[k..]) ==
                  BytesAllocated(tree, root, rank, allocatedHere, x)
        decreases |ks| - k
      {
        assert ks[k] in ks && ks[k..][0] == ks[k] && ks[k..][1..] == ks[k + 1..];
        KidShrinks(tree, root, rank, x, ks[k]);
        KidInTree(tree, root, rank, x, ks[k]);
        var more := CountBytes(child.value, rank);
        bytes := bytes + more;
        child := cells[child.value].nextSibling;
        k := k + 1;
      }
    }

    // ---- Freeing ----

    /** The end of `Allocator__free` for an allocator the walk has marked. */
    method FinishFree(x: Id, async: set<JobId>, ghost a: Arena, ghost rank: map<Id, nat>) returns (ending: Ending)
      requires Inv(a, root) && WellFormed(a.tree, root, rank) && x in a.tree && !a.tree[x].freeing
      requires a.tree[x].adopters == [] && Passes(a.tree, root, x, 0) == Freed(tree)
      requires View() == a.(tree := tree) && Lays(cells, tree, root, None) && ListsOwned(onFree, jobs, tree.Keys)
      modifies this
      ensures Ends(ending, Free(a, root, x, async), View()) && (ending == GoesOn ==> Valid())
    {
      hide Inv, WellFormed, Lays, ListsOwned, Passes, AfterJobs, RunJobs, Marshal, MovedTo, UnderAny, NoJobsAt, Release;
      InvTree(a, root);
      FreeStarts(a, tree, root, rank, x, async);
      MarshalJobs(x, x, rank);
      DoJobs(x, async);
      assert View() == AfterJobs(a, root, x, async);
      FreeGoes(a, View(), root, rank, x, async);
      EmptyMeansNone(onFree, View(), x);
      if onFree[x] == [] {
        var ended, _ := FreeAll(x, rank);
        ending := if ended then RootGone else GoesOn;
      } else {
        ending := GoesOn;
      }
    }

    /** `Allocator__free` */
    method FreeOne(x: Id, async: set<JobId>, ghost rank: map<Id, nat>) returns (ending: Ending)
      requires Valid() && WellFormed(tree, root, rank) && x in tree
      modifies this
      ensures Ends(ending, Free(old(View()), root, x, async), View()) && (ending == GoesOn ==> Valid())
    {
      hide Inv, WellFormed, Lays, ListsOwned, Passes, AfterJobs, RunJobs, Marshal, NoJobsAt, Release;
      CellOf(cells, tree, root, x);
      if cells[x].isFreeing {
        return GoesOn;
      }
      InvTree(View(), root);
      if x == root {
        AllHere(View(), root);
        NothingUnaccounted(View(), root, rank);
        var bytes := CountBytes(x, rank);
        assert bytes + spaceAvailable == maxSpace;
      }
      ghost var a := View();
      FreeCases(a, root, rank, x);
      var freed, gaveUp := PivotChildren(x, rank);
      if gaveUp {
        return Aborts;
      }
      if !freed {
        return GoesOn;
      }
      ending := FinishFree(x, async, a, rank);
    }

    /** `Allocator_onFreeComplete` */
    method CompleteJob(job: JobId, ghost rank: map<Id, nat>) returns (ending: Ending)
      requires Valid() && WellFormed(tree, root, rank)
      modifies this
      ensures Ends(ending, OnFreeComplete(old(View()), root, job), View()) && (ending == GoesOn ==> Valid())
    {
      hide Inv, WellFormed, Lays, ListsOwned, NoJobsAt, Release, IsTop;
      ghost var a := View();
      AllHere(a, root);
      OwnerInTree(a, root, job);
      CancelKeepsInv(a, root, job);
      if job !in jobs {
        return Aborts;
      }
      var n := jobs[job].owner;
      var found := RemoveJob(job);
      EmptyMeansNone(onFree, View(), n);
      if onFree[n] != [] {
        return GoesOn;
      }
      CellOf(cells, tree, root, n);
      if !cells[n].isFreeing {
        return Aborts;
      }
      OwnerReleases(a, root, job);
      var ended, _ := FreeAll(n, rank);
      return if ended then RootGone else GoesOn;
    }

    /** `Allocator__disown` */
    method DisownChild(p: Id, c: Id, async: set<JobId>, ghost rank: map<Id, nat>) returns (ending: Ending)
      requires Valid() && WellFormed(tree, root, rank) && p in tree && c in tree
      modifies this
      ensures Ends(ending, Disown(old(View()), root, rank, p, c, async), View()) && (ending == GoesOn ==> Valid())
    {
      hide Inv, WellFormed, Lays, ListsOwned, Structure, Free, Unadopt, IsAncestorOf;
      InvTree(View(), root);
      AllHere(View(), root);
      CellOf(cells, tree, root, p);
      CellOf(cells, tree, root, c);
      if cells[p].isFreeing || cells[c].isFreeing {
        return GoesOn;
      }
      if cells[c].parent == Some(p) {
        ending := FreeOne(c, async, rank);
        return;
      }
      var ancestor := IsAncestor(c, p, rank);
      if ancestor {
        return GoesOn;
      }
      if p !in cells[c].adopters {
        return Aborts;
      }
      UnadoptKeepsInv(View(), root, rank, p, c);
      SameNodes(tree, p, c);
      DisconnectAdopted(p, c);
      return GoesOn;
    }
  }

  // ---- The loop over the levels ----

  /** The walk from x in t has reached level i in t' and is to end in w. */
  ghost predicate Walking(
    t: Tree, t': Tree, root: Id, rank: map<Id, nat>, x: Id, i: nat, marked: set<Id>, w: Walk)
  {
    && WellFormed(t, root, rank) && x in t && !t[x].freeing
    && Structure(t', root) && x in t' && w == Passes(t', root, x, i)
    && if i == 0 then t' == t else t[x].adopters == [] && MidWalk(t, t', root, x, i - 1, marked)
  }

  lemma WalkRound(t: Tree, t': Tree, root: Id, rank: map<Id, nat>, x: Id, i: nat, marked: set<Id>, w: Walk)
    returns (goal: (Tree, nat), marked': set<Id>)
    requires Walking(t, t', root, rank, x, i, marked, w) && i < MAX_DEPTH
    ensures Ready(t', root, rank, x, i, goal)
    ensures goal.1 == 0 ==> w == if i == 0 then Pivoted(goal.0) else Freed(goal.0)
    ensures goal.1 > 0 ==> Walking(t, goal.0, root, rank, x, i + 1, marked', w)
  {
    hide WellFormed, Structure, PassInv, VisitAll, Level, Passes;
    if i == 0 {
      goal, marked' := FirstRound(t, root, rank, x, w);
    } else {
      goal, marked' := LaterRound(t, t', root, rank, x, i, marked, w);
    }
  }

  lemma FirstRound(t: Tree, root: Id, rank: map<Id, nat>, x: Id, w: Walk)
    returns (goal: (Tree, nat), marked: set<Id>)
    requires Walking(t, t, root, rank, x, 0, {}, w)
    ensures Ready(t, root, rank, x, 0, goal)
    ensures goal.1 == 0 ==> w == Pivoted(goal.0)
    ensures goal.1 > 0 ==> Walking(t, goal.0, root, rank, x, 1, marked, w)
  {
    FirstVisit(t, root, x);
    goal, marked := Visit(t, x), {x};
    if t[x].adopters == [] {
      FirstPass(t, root, x);
      FirstStep(t, root, x);
    }
  }

  lemma LaterRound(t: Tree, t': Tree, root: Id, rank: map<Id, nat>, x: Id, i: nat, marked: set<Id>, w: Walk)
    returns (goal: (Tree, nat), marked': set<Id>)
    requires Walking(t, t', root, rank, x, i, marked, w) && 0 < i < MAX_DEPTH
    ensures Ready(t', root, rank, x, i, goal)
    ensures goal.1 == 0 ==> w == Freed(goal.0)
    ensures goal.1 > 0 ==> Walking(t, goal.0, root, rank, x, i + 1, marked', w)
  {
    hide Structure, Closed, Ranked, VisitAll, Level, Passes, OnlyOldLinks, Persists, MarksDoomed, Frontier, AllHang,
         MarkedHang;
    goal := LevelStep(t', root, x, i, w);
    marked' := OneMoreLevel(t, t', root, rank, x, i - 1, marked);
    OldLinksRanked(t, t', root, rank);
    UpperIsFreeing(t, t', root, rank, x, i, marked);
  }

  lemma LevelStep(t: Tree, root: Id, x: Id, i: nat, w: Walk) returns (goal: (Tree, nat))
    requires Structure(t, root) && x in t && 0 < i < MAX_DEPTH && w == Passes(t, root, x, i)
    ensures AllIn(Level(t, root, x, i), t) && goal == VisitAll(t, root, Level(t, root, x, i))
    ensures Structure(goal.0, root) && goal.0.Keys == t.Keys
    ensures w == if goal.1 == 0 then Freed(goal.0) else Passes(goal.0, root, x, i + 1)
  {
    LevelIn(t, root, x, i);
    VisitAllKeepsStructure(t, root, Level(t, root, x, i));
    goal := VisitAll(t, root, Level(t, root, x, i));
  }

  lemma GivesUp(t: Tree, t': Tree, root: Id, rank: map<Id, nat>, x: Id, marked: set<Id>, w: Walk)
    requires Walking(t, t', root, rank, x, MAX_DEPTH, marked, w)
    ensures w.TooDeep?
  {
    hide WellFormed, PassInv;
  }

  lemma UpperIsFreeing(t: Tree, t': Tree, root: Id, rank: map<Id, nat>, x: Id, i: nat, marked: set<Id>)
    requires i > 0 && MidWalk(t, t', root, x, i - 1, marked)
    requires rank.Keys == t'.Keys && Ranked(LinkSet(t', root), rank)
    ensures UpperFreeing(t', root, x, i)
  {
    hide PassInv, Ranked;
    forall z, e: nat {:trigger Below(t', root, x, z, e)} | e < i && Below(t', root, x, z, e) ensures t'[z].freeing {
      AboveIsFreeing(t, t', root, rank, x, i - 1, marked, z, e);
    }
  }

  // ---- The loop over the children of x ----

  /** The walk may go after the level d below x, and visiting it gives `goal`. */
  ghost predicate Ready(t: Tree, root: Id, rank: map<Id, nat>, x: Id, d: nat, goal: (Tree, nat)) {
    && Structure(t, root) && rank.Keys == t.Keys && Ranked(LinkSet(t, root), rank)
    && x in t && UpperFreeing(t, root, x, d)
    && AllIn(Level(t, root, x, d), t)
    && goal == VisitAll(t, root, Level(t, root, x, d))
  }

  /** The loop over `kids`, the children of x in t, k of them done. */
  datatype Loop = Loop(t: Tree, root: Id, rank: map<Id, nat>, x: Id, kids: seq<Id>, k: nat, d: nat, goal: (Tree, nat))

  ghost predicate GoneAlong(l: Loop, t': Tree, out: nat) {
    && Ready(l.t, l.root, l.rank, l.x, l.d + 1, l.goal)
    && l.kids == l.t[l.x].kids && l.k <= |l.kids|
    && AllIn(Earlier(l.t, l.root, l.x, l.k, l.d), l.t)
    && (t', out) == VisitAll(l.t, l.root, Earlier(l.t, l.root, l.x, l.k, l.d))
    && l.x in t' && EndsWith(t'[l.x].kids, l.kids[l.k..])
  }

  ghost predicate Going(l: Loop, t': Tree, child: Option<Id>, out: nat) {
    GoneAlong(l, t', out) && child == At(l.kids, l.k)
  }

  lemma LoopStarts(h: Heap, t: Tree, root: Id, rank: map<Id, nat>, x: Id, d: nat, goal: (Tree, nat)) returns (l: Loop)
    requires Lays(h, t, root, None) && Ready(t, root, rank, x, d + 1, goal)
    ensures l == Loop(t, root, rank, x, t[x].kids, 0, d, goal)
    ensures x in h && Going(l, t, h[x].firstChild, 0)
  {
    hide VisitAll, Level, Parented, KidsDistinct, Symmetric, FreeingHoldsNothing;
    hide AllLists, SameAdoption, SameParents, Ranked, UpperFreeing;
    l := Loop(t, root, rank, x, t[x].kids, 0, d, goal);
    FirstOfList(h, t, x);
    EarlierNone(t, root, x, d);
  }

  lemma FirstOfList(h: Heap, t: Tree, x: Id)
    requires AllLists(h, t) && x in t
    ensures x in h && h[x].firstChild == At(t[x].kids, 0)
  {
    assert OneList(h, x, t[x].kids);
  }

  lemma LoopRound(h: Heap, l: Loop, t': Tree, child: Option<Id>, out: nat) returns (next: (Tree, nat))
    requires Lays(h, t', l.root, None) && Going(l, t', child, out) && child.Some?
    ensures child.value in h && l.k < |l.kids| && Ready(t', l.root, l.rank, child.value, l.d, next)
    ensures Going(l.(k := l.k + 1), next.0, h[child.value].nextSibling, out + next.1)
  {
    LoopNext(h, l, t', child, out);
    next := LoopCalls(l, t', child, out);
  }

  lemma LoopNext(h: Heap, l: Loop, t': Tree, child: Option<Id>, out: nat)
    requires Lays(h, t', l.root, None) && Going(l, t', child, out) && child.Some?
    ensures child.value in h && h[child.value].nextSibling == At(l.kids, l.k + 1) && l.k < |l.kids|
  {
    NextOfList(h, t', l.x, l.kids, l.k);
  }

  lemma NextOfList(h: Heap, t: Tree, x: Id, ks: seq<Id>, k: nat)
    requires AllLists(h, t) && x in t && k < |ks| && EndsWith(t[x].kids, ks[k..])
    ensures ks[k] in h && h[ks[k]].nextSibling == At(ks, k + 1)
  {
    var kids := t[x].kids;
    assert OneList(h, x, kids);
    var i := |kids| - |ks[k..]|;
    assert kids[i] == kids[i..][0] == ks[k];
    if k + 1 < |ks| { assert kids[i + 1] == kids[i..][1] == ks[k + 1]; }
  }

  /** The call on child k, and where the loop is when it comes back. */
  lemma LoopCalls(l: Loop, t': Tree, child: Option<Id>, out: nat) returns (next: (Tree, nat))
    requires Going(l, t', child, out) && child.Some?
    ensures Ready(t', l.root, l.rank, child.value, l.d, next)
    ensures Going(l.(k := l.k + 1), next.0, At(l.kids, l.k + 1), out + next.1)
  {
    hide VisitAll, Level, Below, Parented, KidsDistinct, Symmetric, FreeingHoldsNothing, Ranked, UpperFreeing;
    KidsLevel(l.t, t', l.root, l.rank, l.x, l.k, l.d, out);
    LevelIn(t', l.root, child.value, l.d);
    next := VisitAll(t', l.root, Level(t', l.root, child.value, l.d));
    var a, b := Earlier(l.t, l.root, l.x, l.k, l.d), Level(l.t, l.root, child.value, l.d);
    var ab := Earlier(l.t, l.root, l.x, l.k + 1, l.d);
    VisitAllJoins(l.t, l.root, a, b, ab, (t', out), VisitAll(l.t, l.root, ab));
    EndStays(l.t, l.root, l.rank, l.x, l.k + 1, l.d);
  }

  lemma KidsLevel(t: Tree, t': Tree, root: Id, rank: map<Id, nat>, x: Id, k: nat, d: nat, out: nat)
    requires Structure(t, root) && rank.Keys == t.Keys && Ranked(LinkSet(t, root), rank)
    requires x in t && k < |t[x].kids| && UpperFreeing(t, root, x, d + 1) && AllIn(Earlier(t, root, x, k, d), t)
    requires (t', out) == VisitAll(t, root, Earlier(t, root, x, k, d))
    ensures t[x].kids[k] in t && t[x].kids[k] in t' && Structure(t', root)
    ensures rank.Keys == t'.Keys && Ranked(LinkSet(t', root), rank) && UpperFreeing(t', root, t[x].kids[k], d)
    ensures Level(t', root, t[x].kids[k], d) == Level(t, root, t[x].kids[k], d)
    ensures AllIn(Level(t, root, t[x].kids[k], d), t) && AllIn(Earlier(t, root, x, k + 1, d), t)
    ensures Earlier(t, root, x, k + 1, d) == Earlier(t, root, x, k, d) + Level(t, root, t[x].kids[k], d)
  {
    VisitAllKeepsStructure(t, root, Earlier(t, root, x, k, d));
    VisitAllKeepsRanked(t, root, rank, Earlier(t, root, x, k, d));
    KidUpperFreeing(t, root, rank, x, k, d, t');
    EarlierGrows(t, root, x, k, d);
    EarlierFacts(t, root, x, k + 1, d);
    LevelIn(t, root, t[x].kids[k], d);
  }

  /** The children not yet reached are still the end of the list. */
  lemma EndStays(t: Tree, root: Id, rank: map<Id, nat>, x: Id, k: nat, d: nat)
    requires Structure(t, root) && rank.Keys == t.Keys && Ranked(LinkSet(t, root), rank)
    requires x in t && k <= |t[x].kids| && UpperFreeing(t, root, x, d + 1) && AllIn(Earlier(t, root, x, k, d), t)
    ensures var t' := VisitAll(t, root, Earlier(t, root, x, k, d)).0; x in t' && EndsWith(t'[x].kids, t[x].kids[k..])
  {
    var ns, rest := Earlier(t, root, x, k, d), t[x].kids[k..];
    assert Below(t, root, x, x, 0);
    forall n | n in ns ensures n !in rest {
      if n in rest {
        var i :| 0 <= i < |rest| && rest[i] == n;
        EarlierNotLater(t, root, rank, x, k, d, k + i);
      }
    }
    VisitAllKeepsEnd(t, root, ns, x, rest);
  }

  lemma LoopEnds(l: Loop, t': Tree, out: nat)
    requires Going(l, t', None, out)
    ensures l.goal == (t', out)
  {
    assert l.k == |l.kids| && l.kids[..l.k] == l.kids;
  }

  lemma MarkLays(h: Heap, t: Tree, root: Id, c: Id)
    requires Lays(h, t, root, None) && Structure(t, root) && c in t && t[c].adopters == [] && t[c].adoptees == []
    ensures Lays(h[c := h[c].(isFreeing := true)], Mark(t, c), root, None) && Structure(Mark(t, c), root)
  {
    MarkKeepsStructure(t, root, c);
    MarkCells(h, t, c);
    LaysFollow(h, h[c := h[c].(isFreeing := true)], t, Mark(t, c), root);
  }

  lemma MarkCells(h: Heap, t: Tree, c: Id)
    requires SameAdoption(h, t) && h.Keys == t.Keys && c in t
    ensures var h' := h[c := h[c].(isFreeing := true)];
            SamePointers(h, h') && SameKids(t, Mark(t, c)) && SameAdoption(h', Mark(t, c))
  {
  }

  lemma DropStep(t: Tree, root: Id, c: Id)
    requires Structure(t, root) && c in t && t[c].adoptees != []
    ensures var k := t[c].adoptees[0];
            && k in t && c in t[k].adopters
            && Symmetric(Unadopt(t, c, k))
            && |Unadopt(t, c, k)[c].adoptees| < |t[c].adoptees|
            && DropAdoptees(t, c) == DropAdoptees(Unadopt(t, c, k), c)
  {
    var k := t[c].adoptees[0];
    assert k in t[c].adoptees;
    AdopteeSide(t, root, c, k);
    UnadoptKeepsSymmetric(t, c, k);
  }

  lemma AdopteeSide(t: Tree, root: Id, p: Id, c: Id)
    requires Structure(t, root) && p in t && c in t[p].adoptees
    ensures c in t && p in t[c].adopters
  {
    assert Count(t[c].adopters, p) == Count(t[p].adoptees, c);
    CountPositive(t[p].adoptees, c);
    CountPositive(t[c].adopters, p);
  }

  /** Every list holds exactly the pending jobs of its owner, each once. */
  ghost predicate ListsOwned(onFree: map<Id, seq<JobId>>, jobs: map<JobId, Job>, ids: set<Id>) {
    && onFree.Keys == ids
    && (forall n {:trigger onFree[n]} :: n in onFree ==> Distinct(onFree[n]))
    && (forall n, j {:trigger j in onFree[n]} :: n in onFree ==> (j in onFree[n] <==> j in jobs && jobs[j].owner == n))
  }

  lemma AdoptionLays(h: Heap, h': Heap, t: Tree, root: Id, p: Id, c: Id)
    requires Lays(h, t, root, None) && p in t && c in t && p != c && p in h && c in h
    requires h' == h[p := h[p].(adoptees := [c] + h[p].adoptees)][c := h[c].(adopters := [p] + h[c].adopters)]
    ensures Lays(h', AddAdoption(t, p, c), root, None) && AddAdoption(t, p, c).Keys == t.Keys
  {
    hide AllLists, SameParents, OneList;
    AdoptionCells(h, h', t, p, c);
    LaysFollow(h, h', t, AddAdoption(t, p, c), root);
  }

  lemma AdoptionCells(h: Heap, h': Heap, t: Tree, p: Id, c: Id)
    requires SameAdoption(h, t) && h.Keys == t.Keys && p in t && c in t && p != c
    requires h' == h[p := h[p].(adoptees := [c] + h[p].adoptees)][c := h[c].(adopters := [p] + h[c].adopters)]
    ensures SamePointers(h, h') && SameKids(t, AddAdoption(t, p, c)) && SameAdoption(h', AddAdoption(t, p, c))
  {
  }

  lemma NotOwnAncestor(t: Tree, root: Id, rank: map<Id, nat>, p: Id, c: Id)
    requires WellFormed(t, root, rank) && p in t && !IsAncestorOf(t, root, rank, c, p)
    ensures p != c
  {
  }

  lemma InvTree(a: Arena, root: Id)
    requires Inv(a, root)
    ensures Sound(a.tree, root) && Structure(a.tree, root) && Closed(a.tree, root)
    ensures KidsOk(a.tree, root) && root in a.tree
  {
    hide Accounted, Recorded, JobsPlaced, CalledOnce;
    var rank := SomeRank(a.tree, root);
  }

  lemma CellOf(h: Heap, t: Tree, root: Id, n: Id)
    requires Lays(h, t, root, None) && n in t
    ensures n in h && h[n].parent == Some(t[n].parent)
    ensures h[n].adopters == t[n].adopters && h[n].adoptees == t[n].adoptees && h[n].isFreeing == t[n].freeing
  {
    hide AllLists;
  }

  ghost function NewNode(t: Tree, p: Id, id: Id): Tree
    requires p in t
  {
    t[id := Node(p, [], [], [], t[p].freeing)]
  }

  /** A new allocator before it is put on its parent's list. */
  lemma NewCellLays(h: Heap, h': Heap, t: Tree, root: Id, p: Id, id: Id)
    requires Lays(h, t, root, None) && KidsOk(t, root) && root in t && p in t && id !in t
    requires p in h && h' == h[id := Cell(None, None, None, None, [], [], h[p].isFreeing)]
    ensures Lays(h', NewNode(t, p, id), root, Some(id))
    ensures KidsOk(NewNode(t, p, id), root) && InNoList(NewNode(t, p, id), id)
  {
    NewCellLists(h, h', t, root, p, id);
    NewCellSame(h, h', t, p, id);
    NewNodeKids(t, root, p, id);
  }

  lemma NewNodeKids(t: Tree, root: Id, p: Id, id: Id)
    requires KidsOk(t, root) && p in t && id !in t
    ensures KidsOk(NewNode(t, p, id), root) && InNoList(NewNode(t, p, id), id)
  {
    var t' := NewNode(t, p, id);
    forall n {:trigger t'[n].kids} | n in t' ensures id !in t'[n].kids && Distinct(t'[n].kids) {
      if n != id {
        assert Distinct(t[n].kids) && id !in t[n].kids;
      }
    }
    assert KidsPointBack(t', root);
  }

  lemma NewCellLists(h: Heap, h': Heap, t: Tree, root: Id, p: Id, id: Id)
    requires AllLists(h, t) && KidsPointBack(t, root) && p in t && id !in t && h.Keys == t.Keys
    requires h' == h[id := Cell(None, None, None, None, [], [], h[p].isFreeing)]
    ensures AllLists(h', NewNode(t, p, id))
  {
    var t' := NewNode(t, p, id);
    forall n {:trigger t'[n].kids} | n in t' ensures OneList(h', n, t'[n].kids) {
      if n != id { assert OneList(h, n, t[n].kids); }
    }
  }

  lemma NewCellSame(h: Heap, h': Heap, t: Tree, p: Id, id: Id)
    requires SameAdoption(h, t) && SameParents(h, t, None) && p in t && id !in t && h.Keys == t.Keys
    requires h' == h[id := Cell(None, None, None, None, [], [], h[p].isFreeing)]
    ensures SameAdoption(h', NewNode(t, p, id)) && SameParents(h', NewNode(t, p, id), Some(id))
  {
  }

  lemma NewNodeAttached(t: Tree, p: Id, id: Id)
    requires p in t && id !in t
    ensures Attached(NewNode(t, p, id), id, p) == AddChild(t, p, id) && AddChild(t, p, id).Keys == t.Keys + {id}
  {
  }

  lemma NewList(onFree: map<Id, seq<JobId>>, jobs: map<JobId, Job>, ids: set<Id>, a: Arena, root: Id, id: Id)
    requires ListsOwned(onFree, jobs, ids) && id !in ids && Inv(a, root) && a.jobs == jobs && a.tree.Keys == ids
    ensures ListsOwned(onFree[id := []], jobs, ids + {id})
  {
    forall j | j in jobs ensures jobs[j].owner != id { assert Placed(a.tree, root, a.jobs[j]); }
  }

  /** Every job owned by one of `from` is owned by `top`. */
  ghost function MovedTo(jobs: map<JobId, Job>, from: set<Id>, top: Id): map<JobId, Job> {
    map j | j in jobs :: if jobs[j].owner in from then jobs[j].(owner := top) else jobs[j]
  }

  lemma ListMoved(onFree: map<Id, seq<JobId>>, jobs: map<JobId, Job>, ids: set<Id>, child: Id, top: Id)
    requires ListsOwned(onFree, jobs, ids) && child in ids && top in ids && child != top
    ensures ListsOwned(onFree[top := onFree[top] + onFree[child]][child := []], MovedTo(jobs, {child}, top), ids)
    ensures onFree.Keys == ids
    ensures forall j :: j in onFree[child] <==> j in jobs && jobs[j].owner == child
  {
    var list := onFree[top] + onFree[child];
    forall i, j | 0 <= i < j < |list| ensures list[i] != list[j] {
      assert list[i] in list && list[j] in list;
      if i < |onFree[top]| <= j {
        assert list[i] in onFree[top] && list[j] in onFree[child];
      }
    }
  }

  lemma MovedIs(jobs: map<JobId, Job>, jobs': map<JobId, Job>, list: seq<JobId>, child: Id, top: Id)
    requires jobs'.Keys == jobs.Keys && forall j :: j in list <==> j in jobs && jobs[j].owner == child
    requires forall j {:trigger jobs'[j]} :: j in jobs' ==> jobs'[j] == if j in list then jobs[j].(owner := top) else jobs[j]
    ensures jobs' == MovedTo(jobs, {child}, top)
  {
  }

  lemma KidList(h: Heap, t: Tree, root: Id, x: Id)
    requires Lays(h, t, root, None) && x in t
    ensures x in h && h[x].firstChild == At(t[x].kids, 0)
    ensures forall k {:trigger t[x].kids[k]} :: 0 <= k < |t[x].kids| ==>
              t[x].kids[k] in h && h[t[x].kids[k]].nextSibling == At(t[x].kids, k + 1)
  {
    assert OneList(h, x, t[x].kids);
  }

  lemma MovedNone(t: Tree, root: Id, rank: map<Id, nat>, jobs: map<JobId, Job>, x: Id, top: Id)
    requires x in t
    ensures MovedTo(jobs, UnderAny(t, root, t[x].kids[..0]), top) == jobs
  {
    assert UnderAny(t, root, t[x].kids[..0]) == {};
  }

  lemma UnderMore(t: Tree, root: Id, rank: map<Id, nat>, x: Id, k: nat)
    requires WellFormed(t, root, rank) && x in t && k < |t[x].kids|
    ensures var c := t[x].kids[k];
            && c in t && t[c].parent == x && c in t[x].kids
            && UnderAny(t, root, t[x].kids[..k + 1]) == UnderAny(t, root, t[x].kids[..k]) + {c} + UnderAny(t, root, t[c].kids)
            && UnderAny(t, root, t[x].kids[..k + 1]) <= UnderAny(t, root, t[x].kids)
            && UnderSet(t, root, c) < UnderSet(t, root, x)
  {
    var ks, c := t[x].kids, t[x].kids[k];
    assert c in ks;
    NaturalLink(t, root, rank, c);
    KidShrinks(t, root, rank, x, c);
    KidsCover(t, root, rank, c);
    UnderItself(t, root, c);
    var a, b := UnderAny(t, root, ks[..k]), UnderAny(t, root, ks[..k + 1]);
    forall n | n in b ensures n in a + UnderSet(t, root, c) {
      var j :| j in ks[..k + 1] && Under(t, root, j, n);
      assert j in ks[..k] || j == c;
    }
    forall n | n in a + UnderSet(t, root, c) ensures n in b {
      if n in a {
        var j :| j in ks[..k] && Under(t, root, j, n);
        assert j in ks[..k + 1];
      } else {
        assert ks[..k + 1][k] == c;
      }
    }
    forall n | n in b ensures n in UnderAny(t, root, ks) {
      var j :| j in ks[..k + 1] && Under(t, root, j, n);
      assert j in ks;
    }
  }

  /** The jobs of child k and of everything under it, once those of the earlier children have moved. */
  lemma JobsOfKid(t: Tree, root: Id, rank: map<Id, nat>, jobs: map<JobId, Job>, x: Id, k: nat, top: Id)
    requires WellFormed(t, root, rank) && x in t && t[x].freeing && k < |t[x].kids| && top !in UnderAny(t, root, t[x].kids)
    ensures var c := t[x].kids[k];
            && c in t && t[c].freeing && c != top && top !in UnderAny(t, root, t[c].kids)
            && UnderSet(t, root, c) < UnderSet(t, root, x)
            && MovedTo(MovedTo(MovedTo(jobs, UnderAny(t, root, t[x].kids[..k]), top), {c}, top), UnderAny(t, root, t[c].kids), top)
               == MovedTo(jobs, UnderAny(t, root, t[x].kids[..k + 1]), top)
  {
    hide UnderAny, UnderSet;
    UnderMore(t, root, rank, x, k);
  }

  /** One job as `doOnFreeJobs` runs it. */
  ghost function RunOne(jobs: map<JobId, Job>, times: map<JobId, nat>, async: set<JobId>, job: JobId)
    : (map<JobId, Job>, map<JobId, nat>)
    requires job in jobs && job in times
  {
    var j := jobs[job];
    if !j.hasCallback then (jobs - {job}, times)
    else if j.called then (jobs, times)
    else if job in async then (jobs[job := j.(called := true)], times[job := times[job] + 1])
    else (jobs - {job}, times[job := times[job] + 1])
  }

  /** The jobs `done`, all of x, have been run. */
  ghost function RunSome(a: Arena, x: Id, async: set<JobId>, done: set<JobId>): Arena {
    a.(jobs := map j | j in a.jobs && !(j in done && Finishes(a, x, async, j)) ::
                 if j in done then a.jobs[j].(called := true) else a.jobs[j],
       timesCalled := map j | j in a.timesCalled ::
                        if j in done && Calls(a, x, j) then a.timesCalled[j] + 1 else a.timesCalled[j])
  }

  /** `rest` holds, each once, the jobs of x that have not been run. */
  ghost predicate LeftToRun(a: Arena, x: Id, done: set<JobId>, rest: seq<JobId>) {
    && Distinct(rest)
    && (forall j {:trigger j in done} :: j in done ==> j in a.jobs && a.jobs[j].owner == x)
    && (forall j {:trigger j in rest} :: j in rest <==> j in a.jobs && a.jobs[j].owner == x && j !in done)
  }

  lemma RunBegins(onFree: map<Id, seq<JobId>>, a: Arena, ids: set<Id>, x: Id, async: set<JobId>)
    requires ListsOwned(onFree, a.jobs, ids) && x in ids
    ensures x in onFree && a == RunSome(a, x, async, {}) && LeftToRun(a, x, {}, onFree[x][0..])
  {
    assert onFree[x][0..] == onFree[x];
  }

  lemma RunGoes(
    onFree: map<Id, seq<JobId>>, a: Arena, a': Arena, ids: set<Id>, x: Id, async: set<JobId>, done: set<JobId>, i: nat)
    requires ListsOwned(onFree, a'.jobs, ids) && x in onFree && i < |onFree[x]| && CalledOnce(a)
    requires a' == RunSome(a, x, async, done) && LeftToRun(a, x, done, onFree[x][i..])
    ensures var job := onFree[x][i];
            && job in a'.jobs && job in a'.timesCalled && a'.jobs[job].owner == x && x in ids
            && var r := RunOne(a'.jobs, a'.timesCalled, async, job);
            && a'.(jobs := r.0, timesCalled := r.1) == RunSome(a, x, async, done + {job})
            && LeftToRun(a, x, done + {job}, onFree[x][i + 1..])
            && |Remove(onFree[x], job)| == |onFree[x]| - 1 && Remove(onFree[x], job)[i..] == onFree[x][i + 1..]
  {
    var list, job := onFree[x], onFree[x][i];
    assert job in list && list[i..][0] == job && job in list[i..];
    RunOnce(a, a', x, async, done, job);
    assert list[i..][1..] == list[i + 1..];
    LeftShrinks(a, x, done, list[i..]);
    assert job !in list[..i];
    RemoveAt(list, i);
    assert (list[..i] + list[i + 1..])[i..] == list[i + 1..];
  }

  lemma LeftShrinks(a: Arena, x: Id, done: set<JobId>, rest: seq<JobId>)
    requires LeftToRun(a, x, done, rest) && rest != []
    ensures LeftToRun(a, x, done + {rest[0]}, rest[1..])
  {
    assert rest[0] in rest;
    forall j {:trigger j in rest[1..]}
      ensures j in rest[1..] <==> j in a.jobs && a.jobs[j].owner == x && j !in done + {rest[0]}
    {
      assert j in rest <==> j == rest[0] || j in rest[1..];
    }
  }

  lemma RunOnce(a: Arena, a': Arena, x: Id, async: set<JobId>, done: set<JobId>, job: JobId)
    requires a' == RunSome(a, x, async, done) && job in a.jobs && a.jobs[job].owner == x && job !in done && CalledOnce(a)
    ensures job in a'.jobs && a'.jobs[job] == a.jobs[job] && job in a'.timesCalled
    ensures var r := RunOne(a'.jobs, a'.timesCalled, async, job);
            a'.(jobs := r.0, timesCalled := r.1) == RunSome(a, x, async, done + {job})
  {
    assert a.jobs[job] == a.jobs[job];
    var r, b := RunOne(a'.jobs, a'.timesCalled, async, job), RunSome(a, x, async, done + {job});
    assert r.0.Keys == b.jobs.Keys;
    assert r.0 == b.jobs;
    assert r.1 == b.timesCalled;
  }

  lemma RunIsOver(a: Arena, x: Id, async: set<JobId>, done: set<JobId>)
    requires LeftToRun(a, x, done, [])
    ensures RunSome(a, x, async, done) == RunJobs(a, x, async)
  {
    forall j | j in a.jobs && a.jobs[j].owner == x ensures j in done { assert j !in []; }
    var r, b := RunSome(a, x, async, done), RunJobs(a, x, async);
    assert r.jobs == b.jobs;
    assert r.timesCalled == b.timesCalled;
  }

  /** What an allocator's struct and blocks take up, and the space left. */
  datatype Memory = Memory(
    cells: Heap,
    onFree: map<Id, seq<JobId>>,
    blocks: map<Id, seq<Block>>,
    allocatedHere: map<Id, nat>,
    spaceAvailable: int,
    adoptionRecords: set<Id>)

  /** The allocators `gone` have been released. */
  ghost function Without(m: Memory, gone: set<Id>): Memory
    requires gone <= m.allocatedHere.Keys
  {
    Memory(m.cells - gone, m.onFree - gone, m.blocks - gone, m.allocatedHere - gone,
           m.spaceAvailable + Sum(gone, m.allocatedHere), m.adoptionRecords - gone)
  }

  /** Everything under x is there, with its lists of children and its blocks. */
  ghost predicate HoldsUnder(t: Tree, root: Id, x: Id, m: Memory) {
    forall n {:trigger n in UnderSet(t, root, x)} :: n in UnderSet(t, root, x) ==>
      && n in m.cells && n in m.onFree && n in m.blocks && n in m.allocatedHere
      && m.allocatedHere[n] == Bytes(m.blocks[n])
      && m.cells[n].firstChild == At(t[n].kids, 0)
      && (forall i {:trigger t[n].kids[i]} :: 0 <= i < |t[n].kids| && t[n].kids[i] in m.cells ==>
            m.cells[t[n].kids[i]].nextSibling == At(t[n].kids, i + 1))
  }

  lemma WithoutMore(m: Memory, a: set<Id>, b: set<Id>)
    requires a <= m.allocatedHere.Keys && b <= m.allocatedHere.Keys && a !! b
    ensures b <= Without(m, a).allocatedHere.Keys && Without(Without(m, a), b) == Without(m, a + b)
  {
    var m' := Without(m, a);
    SumAgrees(b, m.allocatedHere, m'.allocatedHere);
    SumSplits(a + b, a, m.allocatedHere);
    assert (a + b) - a == b;
    assert m.cells - a - b == m.cells - (a + b);
    assert m.onFree - a - b == m.onFree - (a + b);
    assert m.blocks - a - b == m.blocks - (a + b);
    assert m.allocatedHere - a - b == m.allocatedHere - (a + b);
    assert m.adoptionRecords - a - b == m.adoptionRecords - (a + b);
  }

  lemma ReleaseStarts(t: Tree, root: Id, rank: map<Id, nat>, x: Id, m: Memory)
    requires WellFormed(t, root, rank) && x in t && HoldsUnder(t, root, x, m)
    ensures x in m.cells && m.cells[x].firstChild == At(t[x].kids, 0)
    ensures UnderAny(t, root, t[x].kids[..0]) <= m.allocatedHere.Keys
    ensures m == Without(m, UnderAny(t, root, t[x].kids[..0]))
  {
    UnderItself(t, root, x);
    assert x in UnderSet(t, root, x);
    assert UnderAny(t, root, t[x].kids[..0]) == {};
    assert m.cells - {} == m.cells && m.onFree - {} == m.onFree && m.blocks - {} == m.blocks;
    assert m.allocatedHere - {} == m.allocatedHere && m.adoptionRecords - {} == m.adoptionRecords;
  }

  /** Child k and what is under it, once the earlier children have been released. */
  lemma ReleaseKid(t: Tree, root: Id, rank: map<Id, nat>, x: Id, k: nat, m: Memory)
    requires WellFormed(t, root, rank) && x in t && HoldsUnder(t, root, x, m) && k < |t[x].kids|
    requires UnderAny(t, root, t[x].kids[..k]) <= m.allocatedHere.Keys
    ensures var c, m' := t[x].kids[k], Without(m, UnderAny(t, root, t[x].kids[..k]));
            && c in t && HoldsUnder(t, root, c, m') && UnderSet(t, root, c) < UnderSet(t, root, x)
            && c in m'.cells && m'.cells[c].nextSibling == At(t[x].kids, k + 1)
            && UnderSet(t, root, c) <= m'.allocatedHere.Keys
            && UnderAny(t, root, t[x].kids[..k + 1]) <= m.allocatedHere.Keys
            && Without(m', UnderSet(t, root, c)) == Without(m, UnderAny(t, root, t[x].kids[..k + 1]))
  {
    var ks, c, done := t[x].kids, t[x].kids[k], UnderAny(t, root, t[x].kids[..k]);
    var m' := Without(m, done);
    UnderMore(t, root, rank, x, k);
    KidsCover(t, root, rank, c);
    UnderItself(t, root, c);
    UnderItself(t, root, x);
    assert c in UnderSet(t, root, c) && x in UnderSet(t, root, x);
    assert Distinct(ks) && c !in ks[..k];
    forall j | j in ks[..k] ensures j in ks { }
    KidsApart(t, root, rank, x, c, ks[..k]);
    HoldsLess(t, root, x, c, m, done);
    WithoutMore(m, done, UnderSet(t, root, c));
    assert UnderAny(t, root, ks[..k + 1]) == done + UnderSet(t, root, c);
  }

  lemma HoldsLess(t: Tree, root: Id, x: Id, c: Id, m: Memory, done: set<Id>)
    requires HoldsUnder(t, root, x, m) && UnderSet(t, root, c) <= UnderSet(t, root, x) && UnderSet(t, root, c) !! done
    requires done <= m.allocatedHere.Keys
    ensures HoldsUnder(t, root, c, Without(m, done)) && UnderSet(t, root, c) <= m.allocatedHere.Keys
  {
    hide Sum;
    var m' := Without(m, done);
    forall n {:trigger n in UnderSet(t, root, c)} | n in UnderSet(t, root, c)
      ensures && n in m'.cells && n in m'.onFree && n in m'.blocks && n in m'.allocatedHere
              && m'.allocatedHere[n] == Bytes(m'.blocks[n]) && m'.cells[n].firstChild == At(t[n].kids, 0)
              && (forall i {:trigger t[n].kids[i]} :: 0 <= i < |t[n].kids| && t[n].kids[i] in m'.cells ==>
                    m'.cells[t[n].kids[i]].nextSibling == At(t[n].kids, i + 1))
    {
      assert n in UnderSet(t, root, x) && n !in done;
    }
  }

  /** x itself, once all its children have been released. */
  lemma ReleaseSelf(t: Tree, root: Id, rank: map<Id, nat>, x: Id, m: Memory)
    requires WellFormed(t, root, rank) && x in t && HoldsUnder(t, root, x, m)
    requires UnderAny(t, root, t[x].kids) <= m.allocatedHere.Keys
    ensures var m' := Without(m, UnderAny(t, root, t[x].kids));
            && x in m'.cells && x in m'.onFree && x in m'.blocks && x in m'.allocatedHere
            && m'.allocatedHere[x] == Bytes(m'.blocks[x])
            && UnderSet(t, root, x) <= m.allocatedHere.Keys
            && Without(m', {x}) == Without(m, UnderSet(t, root, x))
  {
    KidsCover(t, root, rank, x);
    UnderItself(t, root, x);
    assert x in UnderSet(t, root, x);
    var kids := UnderAny(t, root, t[x].kids);
    assert kids + {x} == UnderSet(t, root, x) && x !in kids;
    WithoutMore(m, kids, {x});
  }

  // ---- The order in which memory goes back ----

  /** The allocators `gone`, each once, every one of them after all its children. */
  ghost predicate ChildrenFirst(t: Tree, gone: set<Id>, order: seq<Id>) {
    && Distinct(order) && gone <= t.Keys && (forall n :: n in order <==> n in gone)
    && forall i, j {:trigger order[i], order[j]} ::
         0 <= i < |order| && 0 <= j < |order| && order[i] in t && order[j] in t[order[i]].kids ==> j < i
  }

  /** The blocks of these allocators, one allocator after the other, each list from its head. */
  ghost function BlocksOf(order: seq<Id>, blocks: map<Id, seq<Block>>): seq<Block> {
    if order == [] then []
    else
      var n := order[|order| - 1];
      BlocksOf(order[..|order| - 1], blocks) + if n in blocks then blocks[n] else []
  }

  lemma {:induction false} BlocksJoin(s: seq<Id>, more: seq<Id>, blocks: map<Id, seq<Block>>)
    ensures BlocksOf(s + more, blocks) == BlocksOf(s, blocks) + BlocksOf(more, blocks)
    decreases |more|
  {
    if more == [] {
      assert s + more == s;
    } else {
      BlocksJoin(s, more[..|more| - 1], blocks);
      assert (s + more)[..|s + more| - 1] == s + more[..|more| - 1];
    }
  }

  lemma {:induction false} BlocksAgree(s: seq<Id>, blocks: map<Id, seq<Block>>, left: map<Id, seq<Block>>)
    requires forall n :: n in s ==> (n in left <==> n in blocks) && (n in blocks ==> left[n] == blocks[n])
    ensures BlocksOf(s, left) == BlocksOf(s, blocks)
    decreases |s|
  {
    if s != [] { BlocksAgree(s[..|s| - 1], blocks, left); }
  }

  /** Two such orders one after the other, when the first part holds all its own children. */
  lemma OrdersJoin(t: Tree, a: set<Id>, b: set<Id>, s: seq<Id>, more: seq<Id>)
    requires ChildrenFirst(t, a, s) && ChildrenFirst(t, b, more) && a !! b
    requires forall n, k {:trigger k in t[n].kids} :: n in a && n in t && k in t[n].kids ==> k in a
    ensures ChildrenFirst(t, a + b, s + more)
  {
    var r := s + more;
    assert forall n :: n in r <==> n in s || n in more;
    assert forall i :: 0 <= i < |s| ==> s[i] in a;
    assert forall j :: 0 <= j < |more| ==> more[j] in b;
    forall i, j {:trigger r[i], r[j]} | 0 <= i < j < |r| ensures r[i] != r[j] { }
    forall i, j {:trigger r[i], r[j]} | 0 <= i < |r| && 0 <= j < |r| && r[i] in t && r[j] in t[r[i]].kids ensures j < i { }
  }

  lemma OrderStarts(t: Tree, root: Id, x: Id, blocks: map<Id, seq<Block>>)
    requires x in t
    ensures ChildrenFirst(t, UnderAny(t, root, t[x].kids[..0]), []) && BlocksOf([], blocks) == []
  {
  }

  lemma UnderAnyHoldsKids(t: Tree, root: Id, rank: map<Id, nat>, ks: seq<Id>)
    requires WellFormed(t, root, rank)
    ensures forall n, k {:trigger k in t[n].kids} ::
      n in UnderAny(t, root, ks) && n in t && k in t[n].kids ==> k in UnderAny(t, root, ks)
  {
    forall n, k {:trigger k in t[n].kids} | n in UnderAny(t, root, ks) && n in t && k in t[n].kids
      ensures k in UnderAny(t, root, ks)
    {
      var j :| j in ks && Under(t, root, j, n);
      UnderParent(t, root, j, k);
    }
  }

  /** Child k and what is under it go after the earlier children. */
  lemma OrderGrows(
    t: Tree, root: Id, rank: map<Id, nat>, x: Id, k: nat, order: seq<Id>, more: seq<Id>, m: Memory, left: Memory)
    requires WellFormed(t, root, rank) && x in t && k < |t[x].kids|
    requires UnderAny(t, root, t[x].kids[..k]) <= m.allocatedHere.Keys && left == Without(m, UnderAny(t, root, t[x].kids[..k]))
    requires ChildrenFirst(t, UnderAny(t, root, t[x].kids[..k]), order)
    requires ChildrenFirst(t, UnderSet(t, root, t[x].kids[k]), more)
    ensures ChildrenFirst(t, UnderAny(t, root, t[x].kids[..k + 1]), order + more)
    ensures BlocksOf(order, m.blocks) + BlocksOf(more, left.blocks) == BlocksOf(order + more, m.blocks)
  {
    hide BlocksOf, Sum;
    var ks, c, done := t[x].kids, t[x].kids[k], UnderAny(t, root, t[x].kids[..k]);
    UnderMore(t, root, rank, x, k);
    KidsCover(t, root, rank, c);
    UnderItself(t, root, c);
    assert Distinct(ks) && c !in ks[..k];
    forall j | j in ks[..k] ensures j in ks { }
    KidsApart(t, root, rank, x, c, ks[..k]);
    assert UnderAny(t, root, ks[..k + 1]) == done + UnderSet(t, root, c);
    UnderAnyHoldsKids(t, root, rank, ks[..k]);
    OrdersJoin(t, done, UnderSet(t, root, c), order, more);
    BlocksAgree(more, m.blocks, left.blocks);
    BlocksJoin(order, more, m.blocks);
  }

  /** x itself goes after all of them. */
  lemma OrderEnds(t: Tree, root: Id, rank: map<Id, nat>, x: Id, order: seq<Id>, m: Memory, left: Memory)
    requires WellFormed(t, root, rank) && x in t && x in left.blocks
    requires UnderAny(t, root, t[x].kids) <= m.allocatedHere.Keys && left == Without(m, UnderAny(t, root, t[x].kids))
    requires ChildrenFirst(t, UnderAny(t, root, t[x].kids), order)
    ensures ChildrenFirst(t, UnderSet(t, root, x), order + [x])
    ensures BlocksOf(order, m.blocks) + left.blocks[x] == BlocksOf(order + [x], m.blocks)
  {
    hide Sum;
    KidsCover(t, root, rank, x);
    UnderItself(t, root, x);
    var kids := UnderAny(t, root, t[x].kids);
    assert x !in kids && kids + {x} == UnderSet(t, root, x);
    UnderAnyHoldsKids(t, root, rank, t[x].kids);
    assert ChildrenFirst(t, {x}, [x]);
    OrdersJoin(t, kids, {x}, order, [x]);
    assert (order + [x])[..|order|] == order;
  }

  /** The block an allocator lives in goes back after all its other blocks and after all its children. */
  lemma OwnBlockGoesLast(a: Arena, root: Id, gone: set<Id>, order: seq<Id>, i: nat)
    requires Inv(a, root) && ChildrenFirst(a.tree, gone, order) && i < |order|
    ensures var n, before, after := order[i], BlocksOf(order[..i + 1], a.blocks), BlocksOf(order[i + 1..], a.blocks);
            && BlocksOf(order, a.blocks) == before + after
            && OwnBlockLast(a.blocks[n], n) && before == BlocksOf(order[..i], a.blocks) + a.blocks[n]
            && forall k :: k in a.tree[n].kids && k in gone ==> k in order[..i]
  {
    hide BlocksOf, Inv, ChildrenFirst, OwnBlockLast;
    var n := order[i];
    InOrderInTree(a.tree, gone, order, i);
    OwnIsLast(a, root, n);
    assert order[..i + 1] + order[i + 1..] == order && order[..i] + [n] == order[..i + 1];
    BlocksJoin(order[..i + 1], order[i + 1..], a.blocks);
    BlocksJoin(order[..i], [n], a.blocks);
    OneOf(n, a.blocks);
    forall k | k in a.tree[n].kids && k in gone ensures k in order[..i] {
      KidGoesFirst(a.tree, gone, order, i, k);
    }
  }

  lemma KidGoesFirst(t: Tree, gone: set<Id>, order: seq<Id>, i: nat, k: Id)
    requires ChildrenFirst(t, gone, order) && i < |order| && order[i] in t && k in t[order[i]].kids && k in gone
    ensures k in order[..i]
  {
    assert k in order;
    var j :| 0 <= j < |order| && order[j] == k;
    assert order[..i][j] == k;
  }

  lemma InOrderInTree(t: Tree, gone: set<Id>, order: seq<Id>, i: nat)
    requires ChildrenFirst(t, gone, order) && i < |order|
    ensures order[i] in gone && order[i] in t
  {
  }

  lemma OwnIsLast(a: Arena, root: Id, n: Id)
    requires Inv(a, root) && n in a.tree
    ensures n in a.blocks && OwnBlockLast(a.blocks[n], n)
  {
  }

  lemma OneOf(n: Id, blocks: map<Id, seq<Block>>)
    requires n in blocks
    ensures BlocksOf([n], blocks) == blocks[n]
  {
    assert [n][..0] == [];
  }

  lemma HeldFacts(m: Memory, a: Arena, root: Id)
    requires Inv(a, root) && ListsOwned(m.onFree, a.jobs, a.tree.Keys)
    ensures Accounted(a) && m.onFree.Keys == a.tree.Keys
  {
  }

  /** How a call that frees comes back: normally, with a failed assertion, or with the root released. */
  datatype Ending = GoesOn | Aborts | RootGone

  ghost predicate Ends(ending: Ending, o: Outcome, a: Arena) {
    match ending
    case GoesOn => o == Next(a)
    case Aborts => o == Aborted
    case RootGone => o == Ended
  }

  lemma KidInTree(t: Tree, root: Id, rank: map<Id, nat>, x: Id, k: Id)
    requires WellFormed(t, root, rank) && x in t && k in t[x].kids
    ensures k in t
  {
  }

  lemma AllHere(a: Arena, root: Id)
    requires Inv(a, root)
    ensures a.allocatedHere.Keys == a.tree.Keys
  {
  }

  lemma SameNodes(t: Tree, p: Id, c: Id)
    requires p in t && c in t
    ensures Unadopt(t, p, c).Keys == t.Keys
  {
  }

  lemma OwnerReleases(a: Arena, root: Id, job: JobId)
    requires Inv(a, root) && job in a.jobs && a.jobs[job].owner in a.tree && a.tree[a.jobs[job].owner].freeing
    requires a.allocatedHere.Keys == a.tree.Keys
    ensures var n, a1 := a.jobs[job].owner, CancelOnFree(a, job);
            IsTop(a.tree, root, n) && (n == root ==> Release(a1, root, n) == Ended)
  {
    assert Placed(a.tree, root, a.jobs[job]);
  }

  lemma FreeCases(a: Arena, root: Id, rank: map<Id, nat>, x: Id)
    requires Inv(a, root) && WellFormed(a.tree, root, rank) && x in a.tree && !a.tree[x].freeing
    ensures Structure(a.tree, root) && a.allocatedHere.Keys == a.tree.Keys
    ensures var w := Passes(a.tree, root, x, 0);
            && (w.Pivoted? ==> Inv(a.(tree := w.tree), root) && w.tree.Keys == a.tree.Keys)
            && (w.Freed? ==> a.tree[x].adopters == [] && w.tree.Keys == a.tree.Keys)
  {
    hide Passes;
    AllHere(a, root);
    if a.tree[x].adopters != [] {
      PivotKeepsInv(a, root, rank, x);
      AdoptedOnlyPivots(a.tree, root, rank, x);
    } else {
      FreeMarksUnreachable(a.tree, root, rank, x);
    }
  }

  lemma FreeStarts(a: Arena, w: Tree, root: Id, rank: map<Id, nat>, x: Id, async: set<JobId>)
    requires Inv(a, root) && WellFormed(a.tree, root, rank) && x in a.tree && !a.tree[x].freeing
    requires a.tree[x].adopters == [] && Passes(a.tree, root, x, 0) == Freed(w)
    ensures WellFormed(w, root, rank) && x in w && w[x].freeing && x !in UnderAny(w, root, w[x].kids)
    ensures var m := a.(tree := w, jobs := MovedTo(a.jobs, UnderAny(w, root, w[x].kids), x));
            CalledOnce(m) && RunJobs(m, x, async) == AfterJobs(a, root, x, async)
  {
    hide Passes, Recorded, Accounted;
    WalkFrees(a.tree, root, rank, x);
    KidsCover(w, root, rank, x);
    UnderItself(w, root, x);
    MarshalIsMoved(a.(tree := w), root, x);
  }

  lemma MarshalIsMoved(a: Arena, root: Id, x: Id)
    requires x in a.tree && UnderSet(a.tree, root, x) - {x} == UnderAny(a.tree, root, a.tree[x].kids) && CalledOnce(a)
    requires forall j :: j in a.jobs ==> a.jobs[j].owner in a.tree
    ensures var m := a.(jobs := MovedTo(a.jobs, UnderAny(a.tree, root, a.tree[x].kids), x));
            m == Marshal(a, root, x) && CalledOnce(m)
  {
    hide UnderAny;
    var m := a.(jobs := MovedTo(a.jobs, UnderAny(a.tree, root, a.tree[x].kids), x));
    forall j | j in a.jobs ensures m.jobs[j] == Marshal(a, root, x).jobs[j] {
      assert a.jobs[j].owner in UnderSet(a.tree, root, x) <==> Under(a.tree, root, x, a.jobs[j].owner);
    }
  }

  lemma FreeGoes(a: Arena, r: Arena, root: Id, rank: map<Id, nat>, x: Id, async: set<JobId>)
    requires Inv(a, root) && WellFormed(a.tree, root, rank) && x in a.tree && !a.tree[x].freeing
    requires a.tree[x].adopters == [] && Passes(a.tree, root, x, 0).Freed? && r == AfterJobs(a, root, x, async)
    ensures Inv(r, root) && WellFormed(r.tree, root, rank) && x in r.tree && r.tree[x].freeing && IsTop(r.tree, root, x)
    ensures Structure(a.tree, root) && a.allocatedHere.Keys == a.tree.Keys && r.allocatedHere.Keys == r.tree.Keys
    ensures Free(a, root, x, async) == if NoJobsAt(r, x) then Release(r, root, x) else Next(r)
    ensures x == root ==> Release(r, root, x) == Ended
  {
    AllHere(a, root);
    JobsKeepInv(a, root, rank, x, async);
    AllHere(r, root);
    WalkFrees(a.tree, root, rank, x);
  }

  lemma EmptyMeansNone(onFree: map<Id, seq<JobId>>, a: Arena, x: Id)
    requires ListsOwned(onFree, a.jobs, a.tree.Keys) && x in a.tree
    ensures x in onFree && (onFree[x] == [] <==> NoJobsAt(a, x))
  {
    if onFree[x] == [] {
      forall j | j in a.jobs ensures a.jobs[j].owner != x { assert j !in onFree[x]; }
    } else {
      assert onFree[x][0] in onFree[x];
    }
  }

  lemma TopParent(h: Heap, t: Tree, root: Id, rank: map<Id, nat>, x: Id)
    requires Lays(h, t, root, None) && WellFormed(t, root, rank) && x in t && t[x].freeing && IsTop(t, root, x)
    ensures x in h && h[x].parent == Some(t[x].parent) && t[x].parent in h
    ensures !h[t[x].parent].isFreeing <==> x != root
  {
    hide AllLists, Ranked;
    CellOf(h, t, root, x);
    ParentOf(t, root, rank, x);
    CellOf(h, t, root, t[x].parent);
  }

  /** In a valid state everything under x is there. */
  lemma HeldThere(m: Memory, a: Arena, root: Id, x: Id)
    requires Accounted(a) && Lays(m.cells, a.tree, root, None)
    requires m.onFree.Keys == a.tree.Keys && m.blocks == a.blocks && m.allocatedHere == a.allocatedHere
    ensures HoldsUnder(a.tree, root, x, m)
  {
    HeldUnder(m, a, a.tree, root, x);
  }

  lemma HeldUnder(m: Memory, a: Arena, t: Tree, root: Id, x: Id)
    requires Accounted(a) && a.tree.Keys == t.Keys == m.cells.Keys
    requires forall n {:trigger n in UnderSet(t, root, x)} :: n in UnderSet(t, root, x) ==> OneList(m.cells, n, t[n].kids)
    requires m.onFree.Keys == a.tree.Keys && m.blocks == a.blocks && m.allocatedHere == a.allocatedHere
    ensures HoldsUnder(t, root, x, m)
  {
    forall n {:trigger n in UnderSet(t, root, x)} | n in UnderSet(t, root, x)
      ensures && n in m.cells && n in m.onFree && n in m.blocks && n in m.allocatedHere
              && m.allocatedHere[n] == Bytes(m.blocks[n]) && m.cells[n].firstChild == At(t[n].kids, 0)
              && (forall i {:trigger t[n].kids[i]} :: 0 <= i < |t[n].kids| && t[n].kids[i] in m.cells ==>
                    m.cells[t[n].kids[i]].nextSibling == At(t[n].kids, i + 1))
    {
      assert OneList(m.cells, n, t[n].kids);
    }
  }

  lemma ParentNotUnder(t: Tree, root: Id, rank: map<Id, nat>, x: Id)
    requires WellFormed(t, root, rank) && x in t && x != root
    ensures t[x].parent in t && t[x].parent !in UnderSet(t, root, x)
  {
    NaturalLink(t, root, rank, x);
    if Under(t, root, x, t[x].parent) {
      var d: nat :| Below(t, root, x, t[x].parent, d);
      BelowRanks(t, root, rank, x, t[x].parent, d);
    }
  }

  /** Taking x off its parent's list leaves everything under it alone. */
  lemma HeldStill(m: Memory, h: Heap, a: Arena, root: Id, rank: map<Id, nat>, x: Id)
    requires Accounted(a) && WellFormed(a.tree, root, rank) && x in a.tree && x != root
    requires Lays(h, Detached(a.tree, x), root, Some(x))
    requires m.onFree.Keys == a.tree.Keys && m.blocks == a.blocks && m.allocatedHere == a.allocatedHere
    ensures HoldsUnder(a.tree, root, x, m.(cells := h))
  {
    hide WellFormed, Below, Bytes, Sum, OwnBlockLast;
    var t, t' := a.tree, Detached(a.tree, x);
    ParentNotUnder(t, root, rank, x);
    forall n {:trigger n in UnderSet(t, root, x)} | n in UnderSet(t, root, x) ensures OneList(h, n, t[n].kids) {
      assert t'[n].kids == t[n].kids;
    }
    HeldUnder(m.(cells := h), a, t, root, x);
  }

  lemma ReleasedView(m: Memory, a: Arena, m': Memory, root: Id, x: Id)
    requires x in a.tree && x != root && IsTop(a.tree, root, x) && a.allocatedHere.Keys == a.tree.Keys
    requires UnderSet(a.tree, root, x) <= m.allocatedHere.Keys && m' == Without(m, UnderSet(a.tree, root, x))
    requires m.blocks == a.blocks && m.allocatedHere == a.allocatedHere
    requires m.spaceAvailable == a.spaceAvailable && m.adoptionRecords == a.adoptionRecords
    ensures Release(a, root, x) ==
              Next(a.(tree := Prune(a.tree, root, x), spaceAvailable := m'.spaceAvailable, blocks := m'.blocks,
                      allocatedHere := m'.allocatedHere, adoptionRecords := m'.adoptionRecords))
  {
  }

  lemma ReleasedLists(onFree: map<Id, seq<JobId>>, a: Arena, root: Id, x: Id)
    requires ListsOwned(onFree, a.jobs, a.tree.Keys) && x in a.tree
    ensures ListsOwned(onFree - UnderSet(a.tree, root, x), a.jobs, Prune(a.tree, root, x).Keys)
  {
  }

  lemma ReleasedLays(h: Heap, t: Tree, root: Id, rank: map<Id, nat>, x: Id)
    requires WellFormed(t, root, rank) && x in t && x != root && Lays(h, Detached(t, x), root, Some(x))
    ensures Lays(h - UnderSet(t, root, x), Prune(t, root, x), root, None)
  {
    hide AllLists, SameAdoption, SameParents, WellFormed, Below;
    NotUnderRoot(t, root, x);
    UnderItself(t, root, x);
    ReleasedCells(h, t, root, x);
    ReleasedAllLists(h, t, root, rank, x);
  }

  lemma ReleasedCells(h: Heap, t: Tree, root: Id, x: Id)
    requires x in t && Under(t, root, x, x) && h.Keys == t.Keys
    requires SameAdoption(h, Detached(t, x)) && SameParents(h, Detached(t, x), Some(x))
    ensures SameAdoption(h - UnderSet(t, root, x), Prune(t, root, x))
    ensures SameParents(h - UnderSet(t, root, x), Prune(t, root, x), None)
  {
  }

  lemma ReleasedAllLists(h: Heap, t: Tree, root: Id, rank: map<Id, nat>, x: Id)
    requires WellFormed(t, root, rank) && x in t && x != root && AllLists(h, Detached(t, x))
    ensures AllLists(h - UnderSet(t, root, x), Prune(t, root, x))
  {
    hide WellFormed;
    var h', t' := h - UnderSet(t, root, x), Prune(t, root, x);
    forall n {:trigger t'[n].kids} | n in t' ensures OneList(h', n, t'[n].kids) {
      assert t'[n] == Detached(t, x)[n] && OneList(h, n, t'[n].kids);
      KeptKids(t, root, rank, x, n);
    }
  }

  lemma KeptKids(t: Tree, root: Id, rank: map<Id, nat>, x: Id, n: Id)
    requires WellFormed(t, root, rank) && x in t && x != root && n in t && n !in UnderSet(t, root, x)
    ensures forall k :: k in Detached(t, x)[n].kids ==> k !in UnderSet(t, root, x)
  {
    DetachedKids(t, root, x);
    RemoveMembers(t[t[x].parent].kids, x);
    forall k | k in Detached(t, x)[n].kids ensures k !in UnderSet(t, root, x) {
      assert k in t[n].kids && k != x;
      UnderParent(t, root, x, k);
    }
  }

  lemma ListWithout(onFree: map<Id, seq<JobId>>, jobs: map<JobId, Job>, ids: set<Id>, n: Id, job: JobId)
    requires ListsOwned(onFree, jobs, ids) && n in onFree && job in jobs && jobs[job].owner == n
    ensures ListsOwned(onFree[n := Remove(onFree[n], job)], jobs - {job}, ids)
  {
    RemoveDistinct(onFree[n], job);
    RemoveMembers(onFree[n], job);
  }

  lemma OwnerInTree(a: Arena, root: Id, job: JobId)
    requires Inv(a, root)
    ensures job in a.jobs ==> a.jobs[job].owner in a.tree && job in a.timesCalled
  {
    hide Sound, Accounted, Recorded;
    if job in a.jobs { assert Placed(a.tree, root, a.jobs[job]); }
  }

  lemma NewJobListed(
    onFree: map<Id, seq<JobId>>, jobs: map<JobId, Job>, a: Arena, root: Id, n: Id, job: JobId, entry: Job)
    requires ListsOwned(onFree, jobs, a.tree.Keys) && Inv(a, root) && a.jobs == jobs
    requires n in a.tree && job !in a.timesCalled && entry.owner == n
    ensures n in onFree && ListsOwned(onFree[n := onFree[n] + [job]], jobs[job := entry], a.tree.Keys)
  {
    OwnerInTree(a, root, job);
    assert job !in onFree[n];
  }

  lemma ParentOf(t: Tree, root: Id, rank: map<Id, nat>, n: Id)
    requires WellFormed(t, root, rank) && n in t
    ensures n in rank && t[n].parent in t && t[n].parent in rank
    ensures if n == root then t[n].parent == n else t[n].parent != n && rank[t[n].parent] < rank[n]
  {
    if n != root { NaturalLink(t, root, rank, n); }
  }

  lemma HasBlocks(a: Arena, root: Id, n: Id)
    requires Inv(a, root) && n in a.tree
    ensures n in a.blocks && n in a.allocatedHere && a.allocatedHere[n] < TWO_63
    ensures forall i :: 0 <= i < |a.blocks[n]| ==> a.blocks[n][i].size <= a.allocatedHere[n]
  {
    HereWithinLimit(a, n);
    assert a.allocatedHere[n] == Bytes(a.blocks[n]);
    forall i | 0 <= i < |a.blocks[n]| ensures a.blocks[n][i].size <= a.allocatedHere[n] {
      BlockWithinSum(a.blocks[n], i);
    }
  }

  lemma AdoptionOnBothSides(t: Tree, root: Id, p: Id, c: Id)
    requires Structure(t, root) && c in t && p in t[c].adopters
    ensures p in t && p != c && !t[p].freeing && c in t[p].adoptees
  {
    AdopterIsLive(t, root, c, p);
    assert Count(t[c].adopters, p) == Count(t[p].adoptees, c);
    CountPositive(t[c].adopters, p);
    CountPositive(t[p].adoptees, c);
  }

  lemma UnadoptLays(h: Heap, h': Heap, t: Tree, root: Id, p: Id, c: Id)
    requires Lays(h, t, root, None) && Structure(t, root) && p in t && c in t && p != c
    requires h' == h[p := h[p].(adoptees := Remove(t[p].adoptees, c))][c := h[c].(adopters := Remove(t[c].adopters, p))]
    ensures Lays(h', Unadopt(t, p, c), root, None) && Structure(Unadopt(t, p, c), root)
  {
    UnadoptKeepsStructure(t, root, p, c);
    UnadoptCells(h, h', t, p, c);
    LaysFollow(h, h', t, Unadopt(t, p, c), root);
  }

  lemma UnadoptCells(h: Heap, h': Heap, t: Tree, p: Id, c: Id)
    requires SameAdoption(h, t) && h.Keys == t.Keys && p in t && c in t && p != c
    requires h' == h[p := h[p].(adoptees := Remove(t[p].adoptees, c))][c := h[c].(adopters := Remove(t[c].adopters, p))]
    ensures SamePointers(h, h') && SameKids(t, Unadopt(t, p, c)) && SameAdoption(h', Unadopt(t, p, c))
  {
    UnadoptSameNature(t, p, c);
    UnadoptPointers(h, h', t, p, c);
    hide Unadopt, Remove, SamePointers;
    var t' := Unadopt(t, p, c);
    forall n | n in t
      ensures n in h' && h'[n].adopters == t'[n].adopters && h'[n].adoptees == t'[n].adoptees && h'[n].isFreeing == t'[n].freeing
    {
      UnadoptCell(h, t, p, c, n);
    }
  }

  lemma UnadoptPointers(h: Heap, h': Heap, t: Tree, p: Id, c: Id)
    requires h.Keys == t.Keys && p in t && c in t && p != c
    requires h' == h[p := h[p].(adoptees := Remove(t[p].adoptees, c))][c := h[c].(adopters := Remove(t[c].adopters, p))]
    ensures SamePointers(h, h')
  {
    hide Remove, SamePointers;
    var h1 := h[p := h[p].(adoptees := Remove(t[p].adoptees, c))];
    ListsChanged(h, p, h[p].adopters, Remove(t[p].adoptees, c));
    ListsChanged(h1, c, Remove(t[c].adopters, p), h1[c].adoptees);
    PointersChain(h, h1, h');
  }

  lemma ListsChanged(h: Heap, n: Id, adopters: seq<Id>, adoptees: seq<Id>)
    requires n in h
    ensures SamePointers(h, h[n := h[n].(adopters := adopters, adoptees := adoptees)])
  {
  }

  lemma PointersChain(h: Heap, h1: Heap, h2: Heap)
    requires SamePointers(h, h1) && SamePointers(h1, h2)
    ensures SamePointers(h, h2)
  {
    forall m {:trigger h2[m]} | m in h
      ensures h2[m] == h[m].(adopters := h2[m].adopters, adoptees := h2[m].adoptees, isFreeing := h2[m].isFreeing)
    {
      assert h1[m] == h[m].(adopters := h1[m].adopters, adoptees := h1[m].adoptees, isFreeing := h1[m].isFreeing);
    }
  }

  lemma UnadoptCell(h: Heap, t: Tree, p: Id, c: Id, n: Id)
    requires SameAdoption(h, t) && p in t && c in t && p != c && n in t
    ensures n in h
    ensures Unadopt(t, p, c)[n].adopters == if n == c then Remove(t[c].adopters, p) else h[n].adopters
    ensures Unadopt(t, p, c)[n].adoptees == if n == p then Remove(t[p].adoptees, c) else h[n].adoptees
    ensures Unadopt(t, p, c)[n].freeing == h[n].isFreeing
  {
  }

  /** What `disconnect` asserts about the neighbours of c. */
  ghost predicate HasNeighbours(h: Heap, c: Id) {
    && c in h && h[c].parent.Some?
    && var p := h[c].parent.value;
    && p in h && p != c
    && (match h[c].lastSibling
        case Some(m) => m in h && m != c && h[m].nextSibling == Some(c) && h[p].firstChild != Some(c)
        case None => h[p].firstChild == Some(c))
    && (match h[c].nextSibling
        case Some(m) => m in h && m != c && h[m].lastSibling == Some(c) && h[c].lastSibling != Some(m)
        case None => true)
  }

  lemma Neighbours(h: Heap, t: Tree, root: Id, c: Id)
    requires Lays(h, t, root, None) && Structure(t, root) && c in t && c != root
    ensures HasNeighbours(h, c) && h[c].parent == Some(t[c].parent)
  {
    var p := t[c].parent;
    assert p in t && c in t[p].kids;
    var kids := t[p].kids;
    assert OneList(h, p, kids) && Distinct(kids);
    var i :| 0 <= i < |kids| && kids[i] == c;
    if i > 0 { assert kids[i - 1] != c && kids[0] != c && At(kids, i - 1) == Some(kids[i - 1]); }
    if i + 1 < |kids| { assert kids[i + 1] != c && At(kids, i + 1) == Some(kids[i + 1]); }
  }

  lemma FirstIsKid(h: Heap, t: Tree, p: Id, c: Id)
    requires AllLists(h, t) && InNoList(t, c) && p in t
    ensures p in h
    ensures h[p].firstChild.Some? ==> h[p].firstChild.value in h && h[p].firstChild.value != c
  {
    var kids := t[p].kids;
    assert OneList(h, p, kids);
    if kids != [] { assert kids[0] in kids; }
  }

  ghost predicate SamePointers(h: Heap, h': Heap) {
    && h'.Keys == h.Keys
    && forall m {:trigger h'[m]} :: m in h ==>
         h'[m] == h[m].(adopters := h'[m].adopters, adoptees := h'[m].adoptees, isFreeing := h'[m].isFreeing)
  }

  lemma ListsFollow(h: Heap, h': Heap, t: Tree, t': Tree)
    requires AllLists(h, t) && SamePointers(h, h') && SameKids(t, t')
    ensures AllLists(h', t')
  {
    forall n {:trigger t'[n].kids} | n in t' ensures OneList(h', n, t'[n].kids) {
      assert OneList(h, n, t[n].kids);
    }
  }

  ghost predicate SameKids(t: Tree, t': Tree) {
    && t'.Keys == t.Keys
    && forall n {:trigger t'[n]} :: n in t ==> t'[n].kids == t[n].kids && t'[n].parent == t[n].parent
  }

  /** A change of adoptions and marks that both sides make. */
  lemma LaysFollow(h: Heap, h': Heap, t: Tree, t': Tree, root: Id)
    requires Lays(h, t, root, None) && SamePointers(h, h') && SameKids(t, t') && SameAdoption(h', t')
    ensures Lays(h', t', root, None)
  {
    ListsFollow(h, h', t, t');
  }
}
