/**
 * A whole allocator tree: the ownership graph, the blocks each allocator has handed out, and the
 * jobs to run when an allocator is freed.
 */
module Arena {
  import opened Prelude
  import opened Links
  import opened Ownership
  import opened Pivot
  import opened AllocatorOps
  import opened Sums

  type JobId = nat

  /**
   * `owner` is the allocator whose list the job is on, `home` the one it was registered with.
   * Which jobs a list holds matters here, not their order.
   */
  datatype Job = Job(owner: Id, home: Id, hasCallback: bool, called: bool)

  datatype Arena = Arena(
    tree: Tree,
    jobs: map<JobId, Job>,
    timesCalled: map<JobId, nat>,
    blocks: map<Id, seq<Block>>,
    allocatedHere: map<Id, nat>,
    spaceAvailable: int,
    maxSpace: int,
    adoptionRecords: set<Id>)

  /**
   * Aborted: an assertion fails or memory runs out.  Ended: the root itself has been released.
   */
  datatype Outcome = Next(arena: Arena) | Aborted | Ended

  // ---- Sizes on a 64-bit machine ----

  const BLOCK_HEADER: nat := 32
  const ALLOCATOR_SIZE: nat := 88
  const ROOT_SIZE: nat := 120
  const ADOPTIONS_SIZE: nat := 16
  const LIST_SIZE: nat := 16
  const JOB_SIZE: nat := 48

  /** `getRealSize`, in the 64-bit arithmetic it is computed in. */
  function RealSize(requested: nat): (size: nat)
    ensures size < TWO_64
  {
    ((requested + 7) % TWO_64 / 8 * 8 + BLOCK_HEADER) % TWO_64
  }

  /** A block has room for what was asked and its header exactly while the rounding does not wrap. */
  lemma RealSizeHoldsExactly(requested: nat)
    requires requested < TWO_64
    ensures RealSize(requested) >= requested + BLOCK_HEADER <==> requested <= TWO_64 - 40
  {
  }

  // ---- Memory ----

  function Int64(x: nat): int {
    if x < TWO_63 then x else x - TWO_64
  }

  /**
   * `newAllocation`.  `given` is the address the provider answers with, None for NULL.  The size is
   * compared and subtracted as a signed number, so one of 2^63 or more passes the limit.
   */
  function NewAllocation(a: Arena, n: Id, requested: nat, given: Option<Id>): Outcome
    requires n in a.blocks && n in a.allocatedHere
  {
    var size: nat := RealSize(requested);
    if a.spaceAvailable <= Int64(size) || given.None? then Aborted
    else
      Next(a.(spaceAvailable := a.spaceAvailable - Int64(size),
              allocatedHere := a.allocatedHere[n := (a.allocatedHere[n] + size) % TWO_64],
              blocks := a.blocks[n := [Block(given.value, size)] + a.blocks[n]]))
  }

  /** Where a list of blocks has the one at an address; past the end when it has not. */
  function Position(s: seq<Block>, at: Id): (i: nat)
    ensures i <= |s| && (forall k :: 0 <= k < i ==> s[k].at != at) && (i < |s| ==> s[i].at == at)
  {
    if s == [] || s[0].at == at then 0 else 1 + Position(s[1..], at)
  }

  /** `Allocator__realloc` of the block of n at an address. */
  function Realloc(a: Arena, n: Id, block: Id, requested: nat, given: Option<Id>): Outcome
    requires n in a.blocks && n in a.allocatedHere
  {
    var list, i := a.blocks[n], Position(a.blocks[n], block);
    if i == |list| || list[i].size > a.allocatedHere[n] then Aborted
    else
      var was := list[i].size;
      var here := a.allocatedHere[n] - was;
      if requested == 0 then
        Next(a.(spaceAvailable := a.spaceAvailable + was,
                allocatedHere := a.allocatedHere[n := here],
                blocks := a.blocks[n := list[..i] + list[i + 1..]]))
      else
        var size: nat := RealSize(requested);
        if a.spaceAvailable + was < size || given.None? then Aborted
        else
          Next(a.(spaceAvailable := a.spaceAvailable + was - size,
                  allocatedHere := a.allocatedHere[n := here + size],
                  blocks := a.blocks[n := list[..i] + [Block(given.value, size)] + list[i + 1..]]))
  }

  /** `Allocator_new`: None when the limit leaves no room for the root itself. */
  function NewArena(sizeLimit: nat, root: Id, provided: bool): Option<Arena> {
    var limit := if sizeLimit == 0 then TWO_63 - 1 else sizeLimit + RealSize(ROOT_SIZE);
    if limit >= TWO_63 || limit <= RealSize(ROOT_SIZE) || !provided then None
    else
      var size: nat := RealSize(ROOT_SIZE);
      Some(Arena(map[root := Node(root, [], [], [], false)], map[], map[], map[root := [Block(root, size)]],
                 map[root := size], limit - size, limit, {}))
  }

  // ---- Growing the tree ----

  /** `Allocator__child`: the block at id that holds the child is the child's own first block. */
  function Child(a: Arena, p: Id, id: Id, provided: bool): Outcome
    requires p in a.tree
  {
    var size: nat := RealSize(ALLOCATOR_SIZE);
    if a.spaceAvailable <= size || !provided then Aborted
    else
      Next(a.(tree := AddChild(a.tree, p, id),
              spaceAvailable := a.spaceAvailable - size,
              allocatedHere := a.allocatedHere[id := size],
              blocks := a.blocks[id := [Block(id, size)]]))
  }

  function AndThen(o: Outcome, n: Id, requested: nat, given: Option<Id>): Outcome {
    match o
    case Next(a) => if n in a.blocks && n in a.allocatedHere then NewAllocation(a, n, requested, given) else Aborted
    case _ => o
  }

  /** The addresses the provider answers with when an adoption needs memory. */
  datatype Grants = Grants(
    parentLists: Option<Id>, childLists: Option<Id>, childEntry: Option<Id>, parentEntry: Option<Id>)

  /** The allocations `Allocator__adopt` makes before it links the two. */
  function AdoptionMemory(a: Arena, p: Id, c: Id, given: Grants): Outcome {
    var o1 := if p in a.adoptionRecords then Next(a) else AndThen(Next(a), p, ADOPTIONS_SIZE, given.parentLists);
    var o2 := if c in a.adoptionRecords then o1 else AndThen(o1, c, ADOPTIONS_SIZE, given.childLists);
    AndThen(AndThen(o2, c, LIST_SIZE, given.childEntry), c, LIST_SIZE, given.parentEntry)
  }

  /** Adopting, once it is known whether c is an ancestor of p. */
  function Link(a: Arena, ancestor: bool, p: Id, c: Id, given: Grants): Outcome
    requires p in a.tree && c in a.tree
  {
    if ancestor then Next(a)
    else
      match AdoptionMemory(a, p, c, given)
      case Next(a1) =>
        Next(a1.(tree := AddAdoption(a.tree, p, c), adoptionRecords := a.adoptionRecords + {p, c}))
      case o => o
  }

  /** `Allocator__adopt` */
  function Adopt(a: Arena, root: Id, ghost rank: map<Id, nat>, p: Id, c: Id, given: Grants): Outcome
    requires WellFormed(a.tree, root, rank) && p in a.tree && c in a.tree
  {
    if a.tree[p].freeing then Next(a)
    else if a.tree[c].freeing then Aborted
    else Link(a, IsAncestorOf(a.tree, root, rank, c, p), p, c, given)
  }

  // ---- Jobs ----

  /** Where a new job goes: the topmost allocator of the freeing part x is in, or x itself. */
  function JobOwner(t: Tree, root: Id, ghost rank: map<Id, nat>, x: Id): Id
    requires WellFormed(t, root, rank) && x in t
    decreases rank[x]
  {
    if !t[x].freeing || x == root then x
    else
      NaturalLink(t, root, rank, x);
      if !t[t[x].parent].freeing then x else JobOwner(t, root, rank, t[x].parent)
  }

  /** Putting a new job on the list of its owner; its block comes from the allocator it is for. */
  function Enlist(a: Arena, owner: Id, x: Id, job: JobId, hasCallback: bool, given: Option<Id>): Outcome
    requires x in a.blocks && x in a.allocatedHere
  {
    match NewAllocation(a, x, JOB_SIZE, given)
    case Next(a1) =>
      Next(a1.(jobs := a.jobs[job := Job(owner, x, hasCallback, false)],
               timesCalled := a.timesCalled[job := 0]))
    case o => o
  }

  /** `Allocator__onFree` */
  function OnFree(
    a: Arena, root: Id, ghost rank: map<Id, nat>, x: Id, job: JobId, hasCallback: bool, given: Option<Id>): Outcome
    requires WellFormed(a.tree, root, rank) && x in a.tree && x in a.blocks && x in a.allocatedHere
  {
    Enlist(a, JobOwner(a.tree, root, rank, x), x, job, hasCallback, given)
  }

  /** `Allocator_cancelOnFree` */
  function CancelOnFree(a: Arena, job: JobId): Arena {
    a.(jobs := a.jobs - {job})
  }

  /** `marshalOnFreeJobs`: every job of the freed part moves to its root. */
  ghost function Marshal(a: Arena, root: Id, x: Id): Arena {
    a.(jobs := map j | j in a.jobs ::
                 if Under(a.tree, root, x, a.jobs[j].owner) then a.jobs[j].(owner := x) else a.jobs[j])
  }

  /** `doOnFreeJobs`: `async` are the jobs whose callback asks for more time. */
  predicate Calls(a: Arena, x: Id, j: JobId) {
    j in a.jobs && a.jobs[j].owner == x && a.jobs[j].hasCallback && !a.jobs[j].called
  }

  predicate Finishes(a: Arena, x: Id, async: set<JobId>, j: JobId) {
    && j in a.jobs && a.jobs[j].owner == x
    && (!a.jobs[j].hasCallback || (!a.jobs[j].called && j !in async))
  }

  function RunJobs(a: Arena, x: Id, async: set<JobId>): Arena {
    a.(jobs := map j | j in a.jobs && !Finishes(a, x, async, j) ::
                 if a.jobs[j].owner == x then a.jobs[j].(called := true) else a.jobs[j],
       timesCalled := map j | j in a.timesCalled ::
                        if Calls(a, x, j) then a.timesCalled[j] + 1 else a.timesCalled[j])
  }

  predicate NoJobsAt(a: Arena, x: Id) {
    forall j :: j in a.jobs ==> a.jobs[j].owner != x
  }

  // ---- Freeing ----

  ghost predicate IsTop(t: Tree, root: Id, n: Id) {
    n in t && (n == root || (t[n].parent in t && !t[t[n].parent].freeing))
  }

  ghost function UnderSet(t: Tree, root: Id, x: Id): set<Id> {
    set n | n in t && Under(t, root, x, n)
  }

  /** `freeAllocator`; only an allocator with a live parent is taken off its parent's list. */
  ghost function Release(a: Arena, root: Id, x: Id): Outcome
    requires x in a.tree && a.allocatedHere.Keys == a.tree.Keys
  {
    if x == root then Ended
    else
      var gone := UnderSet(a.tree, root, x);
      Next(a.(tree := if IsTop(a.tree, root, x) then Prune(a.tree, root, x) else a.tree - gone,
              spaceAvailable := a.spaceAvailable + Sum(gone, a.allocatedHere),
              allocatedHere := a.allocatedHere - gone,
              blocks := a.blocks - gone,
              adoptionRecords := a.adoptionRecords - gone))
  }

  /** `Allocator__free` */
  ghost function Free(a: Arena, root: Id, x: Id, async: set<JobId>): Outcome
    requires Structure(a.tree, root) && x in a.tree && a.allocatedHere.Keys == a.tree.Keys
  {
    if a.tree[x].freeing then Next(a)
    else
      match Passes(a.tree, root, x, 0)
      case TooDeep => Aborted
      case Pivoted(t) => Next(a.(tree := t))
      case Freed(t) =>
        var ran := RunJobs(Marshal(a.(tree := t), root, x), x, async);
        if NoJobsAt(ran, x) && x in t && t.Keys == a.tree.Keys then Release(ran, root, x) else Next(ran)
  }

  /** `Allocator_onFreeComplete` */
  ghost function OnFreeComplete(a: Arena, root: Id, job: JobId): Outcome
    requires a.allocatedHere.Keys == a.tree.Keys
  {
    if job !in a.jobs || a.jobs[job].owner !in a.tree then Aborted
    else
      var x := a.jobs[job].owner;
      var a1 := a.(jobs := a.jobs - {job});
      if !NoJobsAt(a1, x) then Next(a1)
      else if !a.tree[x].freeing then Aborted
      else Release(a1, root, x)
  }

  /** Ending an adoption, once it is known whether c is an ancestor of p. */
  function Cut(a: Arena, ancestor: bool, p: Id, c: Id): Outcome
    requires p in a.tree && c in a.tree
  {
    if ancestor then Next(a)
    else if p !in a.tree[c].adopters then Aborted
    else Next(a.(tree := Unadopt(a.tree, p, c)))
  }

  /** `Allocator__disown` */
  ghost function Disown(a: Arena, root: Id, rank: map<Id, nat>, p: Id, c: Id, async: set<JobId>): Outcome
    requires WellFormed(a.tree, root, rank) && p in a.tree && c in a.tree && a.allocatedHere.Keys == a.tree.Keys
  {
    if a.tree[p].freeing || a.tree[c].freeing then Next(a)
    else if a.tree[c].parent == p then Free(a, root, c, async)
    else Cut(a, IsAncestorOf(a.tree, root, rank, c, p), p, c)
  }
}
