/**
 * What holds in every reachable state of an allocator tree, and what a free does to the jobs and the
 * memory of the part it frees.
 */
module ArenaProperties {
  import opened Prelude
  import opened Links
  import opened Ownership
  import opened Pivot
  import opened AllocatorOps
  import opened Sums
  import opened Arena
  import opened ArenaInvariant

  // ---- Every run ----

  lemma StartOk(sizeLimit: nat, root: Id, provided: bool)
    requires NewArena(sizeLimit, root, provided).Some?
    ensures Inv(NewArena(sizeLimit, root, provided).value, root)
  {
    var a := NewArena(sizeLimit, root, provided).value;
    var size: nat := RealSize(ROOT_SIZE);
    assert LinkSet(a.tree, root) == {};
    assert WellFormed(a.tree, root, map[root := 0]);
    var none: map<Id, nat> := map[];
    SumExtends(none, root, size);
    assert none[root := size] == a.allocatedHere && a.tree.Keys == a.allocatedHere.Keys;
    assert a.blocks[root][1..] == [];
  }

  /**
   * After any run from a new root: the ownership links have no cycle, every block is accounted for
   * within the limit, the block that holds an allocator is the last of its list, every pending job's
   * allocator is still there, and no job has been called twice.
   */
  lemma EveryRun(sizeLimit: nat, root: Id, provided: bool, ops: seq<Op>)
    requires NewArena(sizeLimit, root, provided).Some?
    ensures var a := NewArena(sizeLimit, root, provided).value;
            Inv(a, root) &&
            var o := Run(a, root, ops);
            o.Next? ==>
              && Acyclic(LinkSet(o.arena.tree, root))
              && 0 <= o.arena.spaceAvailable
              && o.arena.allocatedHere.Keys == o.arena.tree.Keys
              && o.arena.maxSpace - o.arena.spaceAvailable == Sum(o.arena.tree.Keys, o.arena.allocatedHere)
              && (forall n :: n in o.arena.tree ==> n in o.arena.blocks && OwnBlockLast(o.arena.blocks[n], n))
              && (forall j :: j in o.arena.jobs ==> o.arena.jobs[j].home in o.arena.tree)
              && (forall j :: j in o.arena.timesCalled ==> o.arena.timesCalled[j] <= 1)
  {
    StartOk(sizeLimit, root, provided);
    var a := NewArena(sizeLimit, root, provided).value;
    RunKeepsInv(a, root, ops);
    var o := Run(a, root, ops);
    if o.Next? {
      RankedIsAcyclic(LinkSet(o.arena.tree, root), SomeRank(o.arena.tree, root));
    }
  }

  // ---- Counting what is allocated ----

  lemma NotUnderKid(t: Tree, root: Id, rank: map<Id, nat>, x: Id, k: Id)
    requires WellFormed(t, root, rank) && x in t && k in t[x].kids
    ensures k in t && t[k].parent == x && Under(t, root, x, k) && !Under(t, root, k, x)
  {
    NaturalLink(t, root, rank, k);
    assert Below(t, root, x, k, 1) by { assert Below(t, root, x, x, 0); }
    if Under(t, root, k, x) {
      var d :| Below(t, root, k, x, d);
      BelowRanks(t, root, rank, k, x, d);
    }
  }

  lemma KidShrinks(t: Tree, root: Id, rank: map<Id, nat>, x: Id, k: Id)
    requires WellFormed(t, root, rank) && x in t && k in t[x].kids
    ensures UnderSet(t, root, k) < UnderSet(t, root, x)
  {
    NotUnderKid(t, root, rank, x, k);
    UnderItself(t, root, x);
    forall n | n in UnderSet(t, root, k) ensures n in UnderSet(t, root, x) { UnderJoins(t, root, x, k, n); }
    assert x in UnderSet(t, root, x) && x !in UnderSet(t, root, k);
  }

  /** `bytesAllocated` */
  function BytesAllocated(t: Tree, root: Id, ghost rank: map<Id, nat>, here: map<Id, nat>, x: Id): nat
    requires WellFormed(t, root, rank) && here.Keys == t.Keys && x in t
    decreases UnderSet(t, root, x)
  {
    here[x] + BytesOfAll(t, root, rank, here, x, t[x].kids)
  }

  function BytesOfAll(
    t: Tree, root: Id, ghost rank: map<Id, nat>, here: map<Id, nat>, x: Id, ks: seq<Id>): nat
    requires WellFormed(t, root, rank) && here.Keys == t.Keys && x in t && forall k :: k in ks ==> k in t[x].kids
    decreases UnderSet(t, root, x), |ks|
  {
    if ks == [] then 0
    else
      assert ks[0] in t[x].kids;
      KidShrinks(t, root, rank, x, ks[0]);
      BytesAllocated(t, root, rank, here, ks[0]) + BytesOfAll(t, root, rank, here, x, ks[1..])
  }

  ghost function UnderAny(t: Tree, root: Id, ks: seq<Id>): set<Id> {
    set n | n in t && exists k :: k in ks && Under(t, root, k, n)
  }

  /** Nothing is under two allocators of one level. */
  lemma KidsApart(t: Tree, root: Id, rank: map<Id, nat>, x: Id, k: Id, ks: seq<Id>)
    requires WellFormed(t, root, rank) && x in t && k in t[x].kids && (forall j :: j in ks ==> j in t[x].kids) && k !in ks
    ensures UnderAny(t, root, [k] + ks) == UnderSet(t, root, k) + UnderAny(t, root, ks)
    ensures UnderSet(t, root, k) !! UnderAny(t, root, ks)
  {
    forall n | n in UnderSet(t, root, k) && n in UnderAny(t, root, ks) ensures false {
      var j :| j in ks && Under(t, root, j, n);
      UnderCompares(t, root, j, k, n);
      NotUnderKid(t, root, rank, x, k);
      NotUnderKid(t, root, rank, x, j);
      UnderParent(t, root, j, k);
      UnderParent(t, root, k, j);
    }
    forall n | n in UnderSet(t, root, k) + UnderAny(t, root, ks) ensures n in UnderAny(t, root, [k] + ks) {
      if n in UnderSet(t, root, k) { assert k in [k] + ks; } else {
        var j :| j in ks && Under(t, root, j, n);
        assert j in [k] + ks;
      }
    }
  }

  lemma UnderSplits(t: Tree, root: Id, x: Id, n: Id) returns (k: Id)
    requires Structure(t, root) && x in t && Under(t, root, x, n) && n != x
    ensures k in t[x].kids && Under(t, root, k, n)
  {
    var d: nat :| Below(t, root, x, n, d);
    assert d > 0;
    BelowSplits(t, root, x, n, d);
    k :| k in t[x].kids && Below(t, root, k, n, d - 1);
  }

  lemma KidsCover(t: Tree, root: Id, rank: map<Id, nat>, x: Id)
    requires WellFormed(t, root, rank) && x in t
    ensures UnderSet(t, root, x) - {x} == UnderAny(t, root, t[x].kids)
  {
    forall n | n in UnderSet(t, root, x) && n != x ensures n in UnderAny(t, root, t[x].kids) {
      var k := UnderSplits(t, root, x, n);
    }
    forall n | n in UnderAny(t, root, t[x].kids) ensures n in UnderSet(t, root, x) && n != x {
      var k :| k in t[x].kids && Under(t, root, k, n);
      NotUnderKid(t, root, rank, x, k);
      UnderJoins(t, root, x, k, n);
    }
  }

  /** The recursive count is the sum over everything under x. */
  lemma {:induction false} BytesAllocatedSums(t: Tree, root: Id, rank: map<Id, nat>, here: map<Id, nat>, x: Id)
    requires WellFormed(t, root, rank) && here.Keys == t.Keys && x in t
    ensures BytesAllocated(t, root, rank, here, x) == Sum(UnderSet(t, root, x), here)
    decreases UnderSet(t, root, x)
  {
    BytesOfAllSums(t, root, rank, here, x, t[x].kids);
    KidsCover(t, root, rank, x);
    UnderItself(t, root, x);
    SumTakes(UnderSet(t, root, x), here, x);
  }

  lemma {:induction false} BytesOfAllSums(
    t: Tree, root: Id, rank: map<Id, nat>, here: map<Id, nat>, x: Id, ks: seq<Id>)
    requires WellFormed(t, root, rank) && here.Keys == t.Keys && x in t
    requires (forall k :: k in ks ==> k in t[x].kids) && Distinct(ks)
    ensures BytesOfAll(t, root, rank, here, x, ks) == Sum(UnderAny(t, root, ks), here)
    decreases UnderSet(t, root, x), |ks|
  {
    if ks == [] {
      assert UnderAny(t, root, ks) == {};
    } else {
      var k, rest := ks[0], ks[1..];
      assert k in t[x].kids && ks == [k] + rest && k !in rest;
      KidShrinks(t, root, rank, x, k);
      BytesAllocatedSums(t, root, rank, here, k);
      BytesOfAllSums(t, root, rank, here, x, rest);
      KidsApart(t, root, rank, x, k, rest);
      SumSplits(UnderAny(t, root, ks), UnderSet(t, root, k), here);
      assert UnderAny(t, root, ks) - UnderSet(t, root, k) == UnderAny(t, root, rest);
    }
  }

  lemma {:induction false} AllUnderRoot(t: Tree, root: Id, rank: map<Id, nat>, n: Id)
    requires WellFormed(t, root, rank) && n in t
    ensures Under(t, root, root, n)
    decreases rank[n]
  {
    if n == root {
      UnderItself(t, root, root);
    } else {
      NaturalLink(t, root, rank, n);
      AllUnderRoot(t, root, rank, t[n].parent);
      UnderParent(t, root, root, n);
    }
  }

  lemma RootStays(a: Arena, root: Id)
    requires Inv(a, root)
    ensures Sound(a.tree, root) && root in a.tree && Structure(a.tree, root) && Closed(a.tree, root)
    ensures a.allocatedHere.Keys == a.tree.Keys == a.blocks.Keys
    ensures a.maxSpace == a.spaceAvailable + Sum(a.tree.Keys, a.allocatedHere)
  {
    hide Recorded, JobsPlaced, CalledOnce;
    var rank := SomeRank(a.tree, root);
  }

  /** The check for unaccounted memory before the root is freed never fires. */
  lemma NothingUnaccounted(a: Arena, root: Id, rank: map<Id, nat>)
    requires Inv(a, root) && WellFormed(a.tree, root, rank)
    ensures BytesAllocated(a.tree, root, rank, a.allocatedHere, root) + a.spaceAvailable == a.maxSpace
  {
    hide Inv, WellFormed;
    RootStays(a, root);
    BytesAllocatedSums(a.tree, root, rank, a.allocatedHere, root);
    forall n | n in a.tree ensures n in UnderSet(a.tree, root, root) { AllUnderRoot(a.tree, root, rank, n); }
    assert UnderSet(a.tree, root, root) == a.tree.Keys;
  }

  // ---- What a free does to jobs and memory ----

  /** A pending job is on the list of x after the walk exactly when its allocator has been freed with x. */
  lemma OwnerFollowsHome(t: Tree, w: Tree, root: Id, rank: map<Id, nat>, x: Id, j: Job)
    requires FreedFrom(t, w, root, rank, x) && Placed(t, root, j)
    ensures Under(w, root, x, j.owner) <==> Under(w, root, x, j.home)
  {
    if t[j.owner].freeing {
      SettledIntact(t, w, root, j.owner);
      UnderStays(t, w, root, j.owner, j.home);
      if Under(w, root, x, j.owner) { UnderJoins(w, root, x, j.owner, j.home); }
      if Under(w, root, x, j.home) {
        UnderCompares(w, root, x, j.owner, j.home);
        if !Under(w, root, x, j.owner) {
          FreedIsTop(t, w, root, rank, x);
          TopsDoNotNest(w, root, j.owner, x);
        }
      }
    }
  }

  /**
   * Freeing x calls the callback of every job registered in the freed part, exactly once over the
   * job's life; afterwards exactly the asynchronous ones are pending.  Other jobs are untouched.
   */
  lemma FreeRunsEveryJob(a: Arena, root: Id, x: Id, async: set<JobId>, j: JobId)
    requires Inv(a, root) && x in a.tree && !a.tree[x].freeing && a.tree[x].adopters == []
    requires Passes(a.tree, root, x, 0).Freed? && j in a.jobs
    ensures var r := AfterJobs(a, root, x, async);
            j in r.timesCalled &&
            if Under(r.tree, root, x, a.jobs[j].home) then
              && (a.jobs[j].hasCallback ==> r.timesCalled[j] == 1)
              && (j in r.jobs <==> a.jobs[j].hasCallback && (a.jobs[j].called || j in async))
            else j in r.jobs && r.jobs[j] == a.jobs[j] && r.timesCalled[j] == a.timesCalled[j]
  {
    hide Accounted, Recorded, Passes;
    var rank := SomeRank(a.tree, root);
    var w := Passes(a.tree, root, x, 0).tree;
    WalkFrees(a.tree, root, rank, x);
    assert Placed(a.tree, root, a.jobs[j]);
    OwnerFollowsHome(a.tree, w, root, rank, x, a.jobs[j]);
    UnderItself(w, root, x);
    assert a.timesCalled[j] == if a.jobs[j].called then 1 else 0;
  }

  /** The freed part is gone exactly when none of its jobs is pending, and then its bytes are back. */
  lemma FreeReleasesExactly(a: Arena, root: Id, x: Id, async: set<JobId>)
    requires Inv(a, root) && x in a.tree && !a.tree[x].freeing && a.tree[x].adopters == [] && x != root
    requires Passes(a.tree, root, x, 0).Freed?
    ensures Free(a, root, x, async).Next?
    ensures var r, a' := AfterJobs(a, root, x, async), Free(a, root, x, async).arena;
            && (x in a'.tree <==> exists j :: j in r.jobs && Under(r.tree, root, x, r.jobs[j].home))
            && r.allocatedHere == a.allocatedHere
            && (x !in a'.tree ==>
                  && a'.tree.Keys == a.tree.Keys - UnderSet(r.tree, root, x)
                  && UnderSet(r.tree, root, x) <= a.allocatedHere.Keys
                  && a'.spaceAvailable == a.spaceAvailable + Sum(UnderSet(r.tree, root, x), a.allocatedHere))
  {
    var r := AfterJobs(a, root, x, async);
    JobsKeepInv(a, root, SomeRank(a.tree, root), x, async);
    ReleasedExactly(r, root, x, Free(a, root, x, async));
  }

  lemma ReleasedExactly(r: Arena, root: Id, x: Id, o: Outcome)
    requires Inv(r, root) && IsTop(r.tree, root, x) && r.tree[x].freeing && x != root
    requires o == if NoJobsAt(r, x) then Release(r, root, x) else Next(r)
    ensures o.Next?
    ensures x in o.arena.tree <==> exists j :: j in r.jobs && Under(r.tree, root, x, r.jobs[j].home)
    ensures x !in o.arena.tree ==>
              && o.arena.tree.Keys == r.tree.Keys - UnderSet(r.tree, root, x)
              && o.arena.spaceAvailable == r.spaceAvailable + Sum(UnderSet(r.tree, root, x), r.allocatedHere)
  {
    WaitingMeansPending(r, root, x);
    UnderItself(r.tree, root, x);
  }

  lemma WaitingMeansPending(r: Arena, root: Id, x: Id)
    requires Inv(r, root) && IsTop(r.tree, root, x) && r.tree[x].freeing
    ensures NoJobsAt(r, x) <==> !exists j :: j in r.jobs && Under(r.tree, root, x, r.jobs[j].home)
  {
    if NoJobsAt(r, x) {
      forall j | j in r.jobs ensures !Under(r.tree, root, x, r.jobs[j].home) {
        HomeNotUnder(r, root, x, j);
      }
    } else {
      var j :| j in r.jobs && r.jobs[j].owner == x;
      assert Placed(r.tree, root, r.jobs[j]);
    }
  }

  /** With no job on the list of a freed part, no job's allocator is in it. */
  lemma HomeNotUnder(r: Arena, root: Id, x: Id, j: JobId)
    requires Inv(r, root) && IsTop(r.tree, root, x) && r.tree[x].freeing && j in r.jobs && r.jobs[j].owner != x
    ensures !Under(r.tree, root, x, r.jobs[j].home)
  {
    var t, o := r.tree, r.jobs[j].owner;
    assert Placed(t, root, r.jobs[j]);
    if Under(t, root, x, r.jobs[j].home) {
      UnderFreeing(t, root, x, r.jobs[j].home);
      assert t[o].freeing;
      UnderCompares(t, root, x, o, r.jobs[j].home);
      if Under(t, root, x, o) { TopsDoNotNest(t, root, x, o); } else { TopsDoNotNest(t, root, o, x); }
    }
  }

  // ---- Which jobs a run calls ----

  /** What a free of x takes: everything under x once the walk has marked it, nothing if x pivots. */
  ghost function FreedPart(t: Tree, root: Id, x: Id): set<Id>
    requires Structure(t, root) && x in t
  {
    if !t[x].freeing && Passes(t, root, x, 0).Freed? then UnderSet(Passes(t, root, x, 0).tree, root, x) else {}
  }

  /** Of the live allocators that is those no chain of links reaches once the natural link of x is cut. */
  lemma FreedPartIsUnreachable(t: Tree, root: Id, rank: map<Id, nat>, x: Id, n: Id)
    requires WellFormed(t, root, rank) && x in t && n in t && !t[n].freeing && !t[x].freeing
    requires !Passes(t, root, x, 0).TooDeep?
    ensures n in FreedPart(t, root, x) <==> t[x].adopters == [] && !Saved(t, root, x, n)
  {
    hide Passes;
    if t[x].adopters != [] {
      AdoptedOnlyPivots(t, root, rank, x);
    } else {
      FreeMarksUnreachable(t, root, rank, x);
      WalkFrees(t, root, rank, x);
      var w := Passes(t, root, x, 0).tree;
      if w[n].freeing { FreedUnder(t, w, root, rank, x, n); }
      if Under(w, root, x, n) { UnderFreeing(w, root, x, n); }
    }
  }

  /** What an operation takes. */
  ghost function TakenBy(a: Arena, root: Id, op: Op): set<Id>
    requires Inv(a, root) && Allowed(a, op)
  {
    match op
    case FreeAllocator(x, async) => FreedPart(a.tree, root, x)
    case DisownChild(p, c, async) =>
      if a.tree[p].freeing || a.tree[c].freeing || a.tree[c].parent != p then {} else FreedPart(a.tree, root, c)
    case _ => {}
  }

  /** Some operation of the run takes n. */
  ghost predicate TakenInRun(a: Arena, root: Id, ops: seq<Op>, n: Id)
    requires Inv(a, root)
    decreases |ops|
  {
    ops != [] && Allowed(a, ops[0]) &&
    (ApplyKeepsInv(a, root, ops[0]);
     || n in TakenBy(a, root, ops[0])
     || (Apply(a, root, ops[0]).Next? && TakenInRun(Apply(a, root, ops[0]).arena, root, ops[1..], n)))
  }

  lemma AdoptEffect(a: Arena, root: Id, rank: map<Id, nat>, p: Id, c: Id, g: Grants, o: Outcome)
    requires Accounted(a) && WellFormed(a.tree, root, rank) && p in a.tree && c in a.tree && Elsewhere(g, p, c)
    requires o == Adopt(a, root, rank, p, c, g)
    ensures !o.Ended?
    ensures o.Next? ==>
              && o.arena.jobs == a.jobs && o.arena.timesCalled == a.timesCalled
              && (o.arena.tree == a.tree || o.arena.tree == AddAdoption(a.tree, p, c))
  {
    if !a.tree[p].freeing && !a.tree[c].freeing {
      LinkEffect(a, IsAncestorOf(a.tree, root, rank, c, p), p, c, g, o);
    }
  }

  lemma LinkEffect(a: Arena, ancestor: bool, p: Id, c: Id, g: Grants, o: Outcome)
    requires Accounted(a) && p in a.tree && c in a.tree && Elsewhere(g, p, c) && o == Link(a, ancestor, p, c, g)
    ensures !o.Ended?
    ensures o.Next? ==>
              && o.arena.jobs == a.jobs && o.arena.timesCalled == a.timesCalled
              && (o.arena.tree == a.tree || o.arena.tree == AddAdoption(a.tree, p, c))
  {
    hide AdoptionMemory, Accounted;
    AdoptionAccounts(a, p, c, g);
  }

  lemma EnlistEffect(a: Arena, owner: Id, x: Id, job: JobId, hasCallback: bool, given: Option<Id>, o: Outcome)
    requires x in a.blocks && x in a.allocatedHere && o == Enlist(a, owner, x, job, hasCallback, given)
    ensures !o.Ended?
    ensures o.Next? ==>
              && o.arena.tree == a.tree && o.arena.jobs == a.jobs[job := Job(owner, x, hasCallback, false)]
              && o.arena.timesCalled == a.timesCalled[job := 0]
  {
    hide RealSize;
  }

  lemma CompleteJobs(a: Arena, root: Id, job: JobId)
    requires a.allocatedHere.Keys == a.tree.Keys
    ensures var o := OnFreeComplete(a, root, job);
            o.Next? ==> o.arena.jobs == a.jobs - {job} && o.arena.timesCalled == a.timesCalled
  {
    hide Prune, UnderSet, Sum;
  }

  /** Operations that start no free. */
  predicate Quiet(op: Op) {
    !op.FreeAllocator? && !op.DisownChild?
  }

  /** Without a free, jobs come only from registering and go only by cancelling and completing. */
  lemma QuietJobs(a: Arena, root: Id, op: Op, o: Outcome)
    requires Inv(a, root) && Allowed(a, op) && Quiet(op) && o == Apply(a, root, op) && o.Next?
    ensures op.Register? ==>
              && op.job in o.arena.jobs && o.arena.jobs == a.jobs[op.job := o.arena.jobs[op.job]]
              && o.arena.timesCalled == a.timesCalled[op.job := 0]
    ensures !op.Register? ==>
              && o.arena.jobs == (if op.Cancel? || op.Complete? then a.jobs - {op.job} else a.jobs)
              && o.arena.timesCalled == a.timesCalled
  {
    hide Sound, Recorded, JobsPlaced, CalledOnce, WellFormed, RealSize, OnFreeComplete, Adopt, Enlist, IsAncestorOf, JobOwner;
    match op
    case AdoptChild(p, c, grants) => AdoptEffect(a, root, SomeRank(a.tree, root), p, c, grants, o);
    case Complete(job) => CompleteJobs(a, root, job);
    case Register(x, job, hasCallback, given) =>
      EnlistEffect(a, JobOwner(a.tree, root, SomeRank(a.tree, root), x), x, job, hasCallback, given, o);
    case _ =>
  }

  /** The allocator an operation frees, None when it frees none. */
  function FreeTarget(a: Arena, op: Op): Option<Id> {
    match op
    case FreeAllocator(x, async) => Some(x)
    case DisownChild(p, c, async) =>
      if p in a.tree && c in a.tree && !a.tree[p].freeing && !a.tree[c].freeing && a.tree[c].parent == p then Some(c) else None
    case _ => None
  }

  lemma CutEffect(a: Arena, ancestor: bool, p: Id, c: Id, o: Outcome)
    requires p in a.tree && c in a.tree && o == Cut(a, ancestor, p, c)
    ensures Undisturbed(a, o)
  {
  }

  /** The operation has neither touched a job nor freed or moved anything that is being freed. */
  ghost predicate Undisturbed(a: Arena, o: Outcome) {
    && !o.Ended?
    && (o.Next? ==>
          o.arena.jobs == a.jobs && o.arena.timesCalled == a.timesCalled && SameFreeing(a.tree, o.arena.tree))
  }

  lemma FreeOrQuiet(a: Arena, root: Id, op: Op, o: Outcome)
    requires Inv(a, root) && Allowed(a, op) && !Quiet(op) && o == Apply(a, root, op)
    ensures match FreeTarget(a, op)
            case Some(x) =>
              && x in a.tree && Structure(a.tree, root) && a.allocatedHere.Keys == a.tree.Keys
              && o == Free(a, root, x, op.async) && TakenBy(a, root, op) == FreedPart(a.tree, root, x)
            case None => TakenBy(a, root, op) == {} && Undisturbed(a, o)
  {
    hide Inv, Sound, WellFormed, Structure, Free, FreedPart, IsAncestorOf, Cut, Unadopt;
    RootStays(a, root);
    if op.DisownChild? && FreeTarget(a, op).None? {
      if !a.tree[op.p].freeing && !a.tree[op.c].freeing {
        CutEffect(a, IsAncestorOf(a.tree, root, SomeRank(a.tree, root), op.c, op.p), op.p, op.c, o);
      }
    }
  }

  /** What a free makes of one pending job. */
  lemma JobAfterFree(a: Arena, root: Id, x: Id, async: set<JobId>, j: JobId, o: Outcome)
    requires Inv(a, root) && x in a.tree && Structure(a.tree, root) && a.allocatedHere.Keys == a.tree.Keys
    requires j in a.jobs && o == Free(a, root, x, async) && o.Next?
    ensures j in o.arena.timesCalled && j in a.timesCalled
    ensures a.jobs[j].home in FreedPart(a.tree, root, x) ==>
              a.jobs[j].hasCallback ==> o.arena.timesCalled[j] == 1
    ensures a.jobs[j].home !in FreedPart(a.tree, root, x) ==>
              j in o.arena.jobs && o.arena.jobs[j] == a.jobs[j] && o.arena.timesCalled[j] == a.timesCalled[j]
  {
    hide Passes, Prune, UnderSet, Sum, RunJobs, Marshal;
    assert Placed(a.tree, root, a.jobs[j]) && j in a.timesCalled;
    if !a.tree[x].freeing && Passes(a.tree, root, x, 0).Freed? {
      FreedHasNoAdopter(a.tree, root, SomeRank(a.tree, root), x);
      FreeRunsEveryJob(a, root, x, async, j);
      FreedPartMeans(a.tree, root, x, a.jobs[j].home);
      AfterJobsTree(a, root, x, async);
      FreeEnds(a, root, x, async, o);
    }
  }

  lemma AfterJobsTree(a: Arena, root: Id, x: Id, async: set<JobId>)
    requires Structure(a.tree, root) && x in a.tree && Passes(a.tree, root, x, 0).Freed?
    ensures AfterJobs(a, root, x, async).tree == Passes(a.tree, root, x, 0).tree
    ensures AfterJobs(a, root, x, async).allocatedHere == a.allocatedHere
  {
    hide Passes;
  }

  /** The last step of a free: the part is released if it has no job, and no job is touched. */
  lemma FreeEnds(a: Arena, root: Id, x: Id, async: set<JobId>, o: Outcome)
    requires Structure(a.tree, root) && x in a.tree && a.allocatedHere.Keys == a.tree.Keys
    requires !a.tree[x].freeing && Passes(a.tree, root, x, 0).Freed? && o == Free(a, root, x, async)
    ensures var r := AfterJobs(a, root, x, async);
            && (o.Next? ==> o.arena.jobs == r.jobs && o.arena.timesCalled == r.timesCalled)
            && (r.tree.Keys == a.tree.Keys ==>
                  r.allocatedHere.Keys == r.tree.Keys && o == if NoJobsAt(r, x) then Release(r, root, x) else Next(r))
  {
    hide Passes, Prune, UnderSet, Sum, NoJobsAt;
  }

  lemma FreedPartMeans(t: Tree, root: Id, x: Id, n: Id)
    requires Structure(t, root) && x in t && !t[x].freeing && Passes(t, root, x, 0).Freed?
    ensures n in FreedPart(t, root, x) <==> Under(Passes(t, root, x, 0).tree, root, x, n)
  {
  }

  lemma FreedHasNoAdopter(t: Tree, root: Id, rank: map<Id, nat>, x: Id)
    requires WellFormed(t, root, rank) && x in t && !t[x].freeing && Passes(t, root, x, 0).Freed?
    ensures t[x].adopters == []
  {
    hide Passes;
    if t[x].adopters != [] { AdoptedOnlyPivots(t, root, rank, x); }
  }

  /** What any operation makes of one pending job that it does not cancel or complete. */
  lemma JobAfter(a: Arena, root: Id, op: Op, j: JobId, o: Outcome)
    requires Inv(a, root) && Allowed(a, op) && j in a.jobs && op != Cancel(j) && op != Complete(j)
    requires o == Apply(a, root, op) && o.Next?
    ensures j in o.arena.timesCalled && j in a.timesCalled
    ensures a.jobs[j].home in TakenBy(a, root, op) ==>
              a.jobs[j].hasCallback ==> o.arena.timesCalled[j] == 1
    ensures a.jobs[j].home !in TakenBy(a, root, op) ==>
              j in o.arena.jobs && o.arena.jobs[j] == a.jobs[j] && o.arena.timesCalled[j] == a.timesCalled[j]
  {
    JobCounted(a, root, j);
    hide Inv, Apply, Free, FreedPart;
    if Quiet(op) {
      QuietJobs(a, root, op, o);
    } else {
      FreeOrQuiet(a, root, op, o);
      match FreeTarget(a, op)
      case Some(x) => JobAfterFree(a, root, x, op.async, j, o);
      case None =>
    }
  }

  lemma JobCounted(a: Arena, root: Id, j: JobId)
    requires Inv(a, root) && j in a.jobs
    ensures j in a.timesCalled && a.jobs[j].home in a.tree && a.timesCalled[j] == if a.jobs[j].called then 1 else 0
  {
    assert Placed(a.tree, root, a.jobs[j]);
  }

  lemma RunJobsGrow(a: Arena, root: Id, x: Id, async: set<JobId>, j: JobId)
    requires j in a.timesCalled
    ensures var r := RunJobs(Marshal(a, root, x), x, async); j in r.timesCalled && r.timesCalled[j] >= a.timesCalled[j]
  {
  }

  /** The count of calls of a job never goes down. */
  lemma CallsGrow(a: Arena, root: Id, op: Op, j: JobId, o: Outcome)
    requires Inv(a, root) && Allowed(a, op) && j in a.timesCalled && o == Apply(a, root, op) && o.Next?
    ensures j in o.arena.timesCalled && o.arena.timesCalled[j] >= a.timesCalled[j]
  {
    hide Inv, Apply, FreedPart, Passes, RunJobs, Marshal, Prune, UnderSet, Sum, NoJobsAt;
    if Quiet(op) {
      QuietJobs(a, root, op, o);
    } else {
      FreeOrQuiet(a, root, op, o);
      match FreeTarget(a, op)
      case Some(x) =>
        var w := Passes(a.tree, root, x, 0);
        if w.Freed? { RunJobsGrow(a.(tree := w.tree), root, x, op.async, j); }
      case None =>
    }
  }

  lemma {:induction false} CallsGrowInRun(a: Arena, root: Id, ops: seq<Op>, j: JobId)
    requires Inv(a, root) && j in a.timesCalled
    ensures var o := Run(a, root, ops);
            o.Next? ==> j in o.arena.timesCalled && a.timesCalled[j] <= o.arena.timesCalled[j] <= 1
    decreases |ops|
  {
    if ops != [] && Allowed(a, ops[0]) {
      ApplyKeepsInv(a, root, ops[0]);
      var o := Apply(a, root, ops[0]);
      hide Inv, Apply;
      if o.Next? {
        CallsGrow(a, root, ops[0], j, o);
        CallsGrowInRun(o.arena, root, ops[1..], j);
      }
    }
  }

  /** The root goes only when everything is taken: no other job can keep it from a pending one. */
  lemma EndTakesAll(a: Arena, root: Id, op: Op, j: JobId)
    requires Inv(a, root) && Allowed(a, op) && j in a.jobs && op != Complete(j) && Apply(a, root, op).Ended?
    ensures a.jobs[j].home in TakenBy(a, root, op)
  {
    var o := Apply(a, root, op);
    RootStays(a, root);
    JobCounted(a, root, j);
    hide Sound, Accounted, Recorded, CalledOnce, Structure;
    AllUnderRoot(a.tree, root, SomeRank(a.tree, root), a.jobs[j].home);
    if op.Complete? {
      CompleteEndsAll(a, root, op.job, j);
    } else if Quiet(op) {
      QuietGoesOn(a, root, op, o);
    } else {
      FreeOrQuiet(a, root, op, o);
      FreeEndsAll(a, root, FreeTarget(a, op).value, op.async, a.jobs[j].home);
    }
  }

  lemma QuietGoesOn(a: Arena, root: Id, op: Op, o: Outcome)
    requires Inv(a, root) && Allowed(a, op) && Quiet(op) && !op.Complete? && o == Apply(a, root, op)
    ensures !o.Ended?
  {
    QuietTree(a, root, op, o);
  }

  lemma CompleteEndsAll(a: Arena, root: Id, job: JobId, j: JobId)
    requires Inv(a, root) && j in a.jobs && job != j && a.allocatedHere.Keys == a.tree.Keys
    requires Under(a.tree, root, root, a.jobs[j].home)
    ensures !OnFreeComplete(a, root, job).Ended?
  {
    var o := OnFreeComplete(a, root, job);
    if o.Ended? {
      var a1 := CancelOnFree(a, job);
      CancelKeepsInv(a, root, job);
      assert j in a1.jobs;
      HomeNotUnder(a1, root, root, j);
    }
  }

  lemma FreeEndsAll(a: Arena, root: Id, x: Id, async: set<JobId>, n: Id)
    requires Inv(a, root) && x in a.tree && n in a.tree
    requires Structure(a.tree, root) && a.allocatedHere.Keys == a.tree.Keys && Free(a, root, x, async).Ended?
    ensures n in FreedPart(a.tree, root, x)
  {
    hide Passes, Accounted, Recorded, JobsPlaced, CalledOnce, RunJobs, Marshal;
    var rank := SomeRank(a.tree, root);
    var w := Passes(a.tree, root, x, 0).tree;
    assert x == root;
    FreedHasNoAdopter(a.tree, root, rank, x);
    WalkFrees(a.tree, root, rank, x);
    AllUnderRoot(w, root, rank, n);
  }

  /** The run neither cancels nor completes job j. */
  predicate Leaves(ops: seq<Op>, j: JobId) {
    forall op :: op in ops ==> op != Cancel(j) && op != Complete(j)
  }

  /**
   * The exact fate of a job.  Over any run that does not cancel or complete it, a job with a callback
   * that has not been called ends up called once if and only if some free or disown of the run takes
   * the allocator it was registered with; otherwise the job is still pending and its allocator there.
   * If the root itself goes in the run, the job has been called.
   */
  lemma {:induction false} JobCalledExactly(a: Arena, root: Id, ops: seq<Op>, j: JobId)
    requires Inv(a, root) && j in a.jobs && a.jobs[j].hasCallback && !a.jobs[j].called && Leaves(ops, j)
    ensures var o, taken := Run(a, root, ops), TakenInRun(a, root, ops, a.jobs[j].home);
            && (o.Next? ==> j in o.arena.timesCalled && o.arena.timesCalled[j] == if taken then 1 else 0)
            && (o.Next? && !taken ==> j in o.arena.jobs && o.arena.jobs[j] == a.jobs[j] && a.jobs[j].home in o.arena.tree)
            && (o.Ended? ==> taken)
    decreases |ops|
  {
    hide Inv, Apply, Allowed, TakenBy;
    JobCounted(a, root, j);
    if ops != [] && Allowed(a, ops[0]) {
      var op := ops[0];
      assert op in ops;
      ApplyKeepsInv(a, root, op);
      var o := Apply(a, root, op);
      if o.Next? {
        JobAfter(a, root, op, j, o);
        if a.jobs[j].home in TakenBy(a, root, op) {
          CallsGrowInRun(o.arena, root, ops[1..], j);
        } else {
          LeavesLater(ops, j);
          JobCalledExactly(o.arena, root, ops[1..], j);
        }
      } else if o.Ended? {
        EndTakesAll(a, root, op, j);
      }
    }
  }

  lemma LeavesLater(ops: seq<Op>, j: JobId)
    requires Leaves(ops, j) && ops != []
    ensures Leaves(ops[1..], j)
  {
    forall op | op in ops[1..] ensures op != Cancel(j) && op != Complete(j) { assert op in ops; }
  }

  /**
   * So for a job registered with an allocator that is already being freed: the free under way does not
   * call it, and it keeps the memory of that allocator, until a later free takes the freed part with it.
   */
  lemma LateJobCalledExactly(a: Arena, root: Id, x: Id, j: JobId, given: Option<Id>, ops: seq<Op>)
    requires Inv(a, root) && Allowed(a, Register(x, j, true, given)) && a.tree[x].freeing && Leaves(ops, j)
    requires Apply(a, root, Register(x, j, true, given)).Next?
    ensures var a1 := Apply(a, root, Register(x, j, true, given)).arena;
            Inv(a1, root) &&
            var o, taken := Run(a1, root, ops), TakenInRun(a1, root, ops, x);
            && (o.Next? ==> j in o.arena.timesCalled && o.arena.timesCalled[j] == if taken then 1 else 0)
            && (o.Next? && !taken ==> j in o.arena.jobs && x in o.arena.tree && x in o.arena.blocks)
  {
    var op := Register(x, j, true, given);
    ApplyKeepsInv(a, root, op);
    var o := Apply(a, root, op);
    RootStays(a, root);
    EnlistEffect(a, JobOwner(a.tree, root, SomeRank(a.tree, root), x), x, j, true, given, o);
    hide Inv, Apply;
    JobCalledExactly(o.arena, root, ops, j);
    RunKeepsInv(o.arena, root, ops);
    if Run(o.arena, root, ops).Next? { RootStays(Run(o.arena, root, ops).arena, root); }
  }

  // ---- Freed parts that linger ----

  /** x is the top of a freed part that has not been released. */
  ghost predicate Lingers(a: Arena, root: Id, x: Id) {
    x in a.tree && a.tree[x].freeing && IsTop(a.tree, root, x)
  }

  lemma ChildSame(t: Tree, p: Id, id: Id)
    requires p in t && id !in t
    ensures SameFreeing(t, AddChild(t, p, id))
  {
  }

  lemma AdoptionSame(t: Tree, p: Id, c: Id)
    requires p in t && c in t
    ensures SameFreeing(t, AddAdoption(t, p, c))
  {
  }

  lemma QuietTree(a: Arena, root: Id, op: Op, o: Outcome)
    requires Inv(a, root) && Allowed(a, op) && Quiet(op) && !op.Complete? && o == Apply(a, root, op)
    ensures !o.Ended? && (o.Next? ==> SameFreeing(a.tree, o.arena.tree))
  {
    hide Sound, Recorded, JobsPlaced, CalledOnce, WellFormed, RealSize, Adopt, Enlist, AddChild, AddAdoption, JobOwner;
    match op
    case MakeChild(p, id, _) => ChildSame(a.tree, p, id);
    case AdoptChild(p, c, grants) =>
      AdoptEffect(a, root, SomeRank(a.tree, root), p, c, grants, o);
      AdoptionSame(a.tree, p, c);
    case Register(x, job, hasCallback, given) =>
      EnlistEffect(a, JobOwner(a.tree, root, SomeRank(a.tree, root), x), x, job, hasCallback, given, o);
    case _ =>
  }

  lemma LingersStays(t: Tree, t': Tree, root: Id, x: Id)
    requires x in t && t[x].freeing && IsTop(t, root, x) && SameFreeing(t, t')
    ensures x in t' && t'[x].freeing && IsTop(t', root, x)
  {
  }

  /** The operation completes the last job x waits for. */
  ghost predicate CompletesLast(a: Arena, op: Op, x: Id) {
    op.Complete? && op.job in a.jobs && a.jobs[op.job].owner == x && NoJobsAt(CancelOnFree(a, op.job), x)
  }

  lemma CompleteLeaves(a: Arena, root: Id, job: JobId, x: Id)
    requires Inv(a, root) && Lingers(a, root, x) && !CompletesLast(a, Complete(job), x)
    ensures var o := OnFreeComplete(a, root, job); !o.Ended? && (o.Next? ==> Lingers(o.arena, root, x))
  {
    if job in a.jobs {
      var y := a.jobs[job].owner;
      assert Placed(a.tree, root, a.jobs[job]);
      if y != x && a.tree[y].freeing {
        if Under(a.tree, root, y, x) { TopsDoNotNest(a.tree, root, y, x); }
        CancelKeepsInv(a, root, job);
        ReleaseLeaves(CancelOnFree(a, job), root, y, x);
      }
    }
  }

  lemma ReleaseLeaves(a: Arena, root: Id, y: Id, x: Id)
    requires Inv(a, root) && Lingers(a, root, x) && Lingers(a, root, y) && !Under(a.tree, root, y, x)
    ensures Release(a, root, y).Next? && Lingers(Release(a, root, y).arena, root, x)
  {
    var t := a.tree;
    AllUnderRoot(t, root, SomeRank(t, root), x);
    if x != root && Under(t, root, y, t[x].parent) { UnderFreeing(t, root, y, t[x].parent); }
  }

  /** The walk of a free that does not take x leaves it the top of its part. */
  lemma WalkLeaves(t: Tree, w: Tree, root: Id, rank: map<Id, nat>, y: Id, x: Id)
    requires FreedFrom(t, w, root, rank, y) && x in t && t[x].freeing && IsTop(t, root, x) && !Under(w, root, y, x)
    ensures x in w && w[x].freeing && IsTop(w, root, x)
  {
    if x != root {
      var p := t[x].parent;
      if w[p].freeing {
        FreedUnder(t, w, root, rank, y, p);
        UnderParent(w, root, y, x);
      }
    }
  }

  lemma FreeLeaves(a: Arena, root: Id, y: Id, async: set<JobId>, x: Id, o: Outcome)
    requires Inv(a, root) && Lingers(a, root, x) && y in a.tree
    requires Structure(a.tree, root) && a.allocatedHere.Keys == a.tree.Keys
    requires x !in FreedPart(a.tree, root, y) && o == Free(a, root, y, async)
    ensures !o.Ended? && (o.Next? ==> Lingers(o.arena, root, x))
    ensures o.Next? && NoJobsAt(a, x) ==> NoJobsAt(o.arena, x)
  {
    hide Passes, Accounted, Recorded, JobsPlaced, CalledOnce, Prune, UnderSet, Sum;
    var rank := SomeRank(a.tree, root);
    if !a.tree[y].freeing {
      if a.tree[y].adopters != [] {
        AdoptedOnlyPivots(a.tree, root, rank, y);
        PassesSettle(a.tree, root, y, 0);
        LingersStays(a.tree, Passes(a.tree, root, y, 0).tree, root, x);
      } else if Passes(a.tree, root, y, 0).Freed? {
        FreedLeaves(a, root, rank, y, async, x, o);
      } else {
        FreeMarksUnreachable(a.tree, root, rank, y);
      }
    }
  }

  lemma FreedLeaves(a: Arena, root: Id, rank: map<Id, nat>, y: Id, async: set<JobId>, x: Id, o: Outcome)
    requires Inv(a, root) && WellFormed(a.tree, root, rank) && Lingers(a, root, x) && y in a.tree && !a.tree[y].freeing
    requires a.allocatedHere.Keys == a.tree.Keys && a.tree[y].adopters == [] && Passes(a.tree, root, y, 0).Freed?
    requires x !in FreedPart(a.tree, root, y) && o == Free(a, root, y, async)
    ensures o.Next? && Lingers(o.arena, root, x)
    ensures NoJobsAt(a, x) ==> NoJobsAt(o.arena, x)
  {
    hide Passes, Accounted, Recorded, JobsPlaced, CalledOnce, Prune, UnderSet, Sum, Structure;
    var r := AfterJobs(a, root, y, async);
    FreedPartMeans(a.tree, root, y, x);
    WalkFrees(a.tree, root, rank, y);
    AfterJobsTree(a, root, y, async);
    WalkLeaves(a.tree, r.tree, root, rank, y, x);
    JobsKeepInv(a, root, rank, y, async);
    FreeEnds(a, root, y, async, o);
    if NoJobsAt(a, x) { AfterJobsNone(a, root, y, async, x); }
    if NoJobsAt(r, y) { ReleaseLeaves(r, root, y, x); }
  }

  lemma AfterJobsNone(a: Arena, root: Id, y: Id, async: set<JobId>, x: Id)
    requires Structure(a.tree, root) && y in a.tree && Passes(a.tree, root, y, 0).Freed? && x != y && NoJobsAt(a, x)
    ensures NoJobsAt(AfterJobs(a, root, y, async), x)
  {
    hide Passes;
  }

  /** An operation that does not take x and does not complete its last job leaves x where it is. */
  lemma LingersOn(a: Arena, root: Id, op: Op, x: Id, o: Outcome)
    requires Inv(a, root) && Allowed(a, op) && Lingers(a, root, x) && o == Apply(a, root, op)
    requires x !in TakenBy(a, root, op) && !CompletesLast(a, op, x)
    ensures !o.Ended? && (o.Next? ==> Lingers(o.arena, root, x))
  {
    hide Inv, Free, FreedPart;
    if op.Complete? {
      CompleteLeaves(a, root, op.job, x);
    } else if Quiet(op) {
      QuietTree(a, root, op, o);
      if o.Next? { LingersStays(a.tree, o.arena.tree, root, x); }
    } else {
      FreeOrQuiet(a, root, op, o);
      match FreeTarget(a, op)
      case Some(y) => FreeLeaves(a, root, y, op.async, x, o);
      case None => if o.Next? { LingersStays(a.tree, o.arena.tree, root, x); }
    }
  }

  /** The operation frees a part that x is in, and no job of that part stays pending. */
  ghost predicate FreesAll(a: Arena, root: Id, op: Op, x: Id)
    requires Inv(a, root) && Allowed(a, op)
  {
    && x in TakenBy(a, root, op) && FreeTarget(a, op).Some?
    && var y := FreeTarget(a, op).value;
    && y in a.tree && Structure(a.tree, root) && Passes(a.tree, root, y, 0).Freed?
    && NoJobsAt(AfterJobs(a, root, y, op.async), y)
  }

  /**
   * A freed part goes exactly when its last job is completed, or when a free takes it and leaves no
   * job of what it took pending.  Cancelling a job never releases anything.
   */
  lemma GoesExactly(a: Arena, root: Id, op: Op, x: Id, o: Outcome)
    requires Inv(a, root) && Allowed(a, op) && Lingers(a, root, x) && o == Apply(a, root, op) && o.Next?
    ensures x !in o.arena.tree <==> CompletesLast(a, op, x) || FreesAll(a, root, op, x)
  {
    hide Inv, Free, FreedPart, NoJobsAt, Passes, AfterJobs;
    RootStays(a, root);
    if CompletesLast(a, op, x) {
      CompleteReleases(a, root, op.job, x, o);
    } else if x in TakenBy(a, root, op) {
      FreeOrQuiet(a, root, op, o);
      TakenGoes(a, root, FreeTarget(a, op).value, op.async, x, o);
    } else {
      LingersOn(a, root, op, x, o);
    }
  }

  lemma CompleteReleases(a: Arena, root: Id, job: JobId, x: Id, o: Outcome)
    requires Inv(a, root) && Lingers(a, root, x) && CompletesLast(a, Complete(job), x)
    requires a.allocatedHere.Keys == a.tree.Keys && o == OnFreeComplete(a, root, job) && o.Next?
    ensures x !in o.arena.tree
  {
    UnderItself(a.tree, root, x);
  }

  lemma TakenGoes(a: Arena, root: Id, y: Id, async: set<JobId>, x: Id, o: Outcome)
    requires Inv(a, root) && y in a.tree && Structure(a.tree, root) && a.allocatedHere.Keys == a.tree.Keys
    requires x in FreedPart(a.tree, root, y) && o == Free(a, root, y, async) && o.Next?
    ensures Passes(a.tree, root, y, 0).Freed? && !a.tree[y].freeing
    ensures x !in o.arena.tree <==> NoJobsAt(AfterJobs(a, root, y, async), y)
  {
    hide Passes, Accounted, Recorded, JobsPlaced, CalledOnce, NoJobsAt;
    var rank := SomeRank(a.tree, root);
    FreedHasNoAdopter(a.tree, root, rank, y);
    FreedPartMeans(a.tree, root, y, x);
    AfterJobsTree(a, root, y, async);
    JobsKeepInv(a, root, rank, y, async);
    FreeEnds(a, root, y, async, o);
    var r := AfterJobs(a, root, y, async);
    if NoJobsAt(r, y) { ReleaseTakes(r, root, y, x, o); }
  }

  lemma ReleaseTakes(r: Arena, root: Id, y: Id, x: Id, o: Outcome)
    requires y in r.tree && r.allocatedHere.Keys == r.tree.Keys && Under(r.tree, root, y, x)
    requires o == Release(r, root, y) && o.Next?
    ensures x !in o.arena.tree
  {
  }

  /** Some operation of the run registers a job with an allocator under x. */
  ghost predicate RegisteredInRun(a: Arena, root: Id, ops: seq<Op>, x: Id)
    requires Inv(a, root)
    decreases |ops|
  {
    ops != [] && Allowed(a, ops[0]) &&
    (ApplyKeepsInv(a, root, ops[0]);
     || (ops[0].Register? && Under(a.tree, root, x, ops[0].x))
     || (Apply(a, root, ops[0]).Next? && RegisteredInRun(Apply(a, root, ops[0]).arena, root, ops[1..], x)))
  }

  lemma NoJobsStays(a: Arena, root: Id, op: Op, x: Id, o: Outcome)
    requires Inv(a, root) && Allowed(a, op) && Lingers(a, root, x) && NoJobsAt(a, x) && o == Apply(a, root, op) && o.Next?
    requires x !in TakenBy(a, root, op) && !(op.Register? && Under(a.tree, root, x, op.x))
    ensures NoJobsAt(o.arena, x)
  {
    hide Inv, Free, FreedPart;
    if op.Register? {
      RegisteredElsewhere(a, root, op.x, op.job, op.hasCallback, op.given, x, o);
    } else if Quiet(op) {
      QuietJobs(a, root, op, o);
    } else {
      FreeOrQuiet(a, root, op, o);
      match FreeTarget(a, op)
      case Some(y) => FreeLeaves(a, root, y, op.async, x, o);
      case None =>
    }
  }

  lemma RegisteredElsewhere(a: Arena, root: Id, n: Id, job: JobId, hasCallback: bool, given: Option<Id>, x: Id, o: Outcome)
    requires Inv(a, root) && n in a.tree && job !in a.timesCalled && given != Some(n) && NoJobsAt(a, x)
    requires !Under(a.tree, root, x, n) && o == Apply(a, root, Register(n, job, hasCallback, given)) && o.Next?
    ensures NoJobsAt(o.arena, x)
  {
    hide Recorded, JobsPlaced, CalledOnce, Enlist, JobOwner, Accounted, Structure, Below;
    HasLists(a, n);
    var rank := SomeRank(a.tree, root);
    OwnerIsTop(a.tree, root, rank, n);
    UnderItself(a.tree, root, n);
    EnlistEffect(a, JobOwner(a.tree, root, rank, n), n, job, hasCallback, given, o);
  }

  /** With no job left, a freed part stays until a free takes it or a new job is registered in it. */
  lemma {:induction false} Stranded(a: Arena, root: Id, ops: seq<Op>, x: Id)
    requires Inv(a, root) && Lingers(a, root, x) && NoJobsAt(a, x)
    requires !TakenInRun(a, root, ops, x) && !RegisteredInRun(a, root, ops, x)
    ensures var o := Run(a, root, ops); !o.Ended? && (o.Next? ==> x in o.arena.tree && x in o.arena.blocks)
    decreases |ops|
  {
    RootStays(a, root);
    if ops != [] && Allowed(a, ops[0]) {
      hide Inv, Apply;
      var op := ops[0];
      var o := Apply(a, root, op);
      ApplyKeepsInv(a, root, op);
      LingersOn(a, root, op, x, o);
      if o.Next? {
        NoJobsStays(a, root, op, x, o);
        Stranded(o.arena, root, ops[1..], x);
      }
    }
  }

  /**
   * Cancelling the last job a freed part waits for strands its memory: no run gets it back unless a
   * free takes the part or another job is registered in it.
   */
  lemma CancelStrands(a: Arena, root: Id, job: JobId, ops: seq<Op>)
    requires Inv(a, root) && job in a.jobs && Lingers(a, root, a.jobs[job].owner)
    requires NoJobsAt(CancelOnFree(a, job), a.jobs[job].owner)
    ensures var a1, x := CancelOnFree(a, job), a.jobs[job].owner;
            Inv(a1, root) &&
            var o := Run(a1, root, ops);
            o.Ended? || (o.Next? && x !in o.arena.tree) ==>
              TakenInRun(a1, root, ops, x) || RegisteredInRun(a1, root, ops, x)
  {
    var a1, x := CancelOnFree(a, job), a.jobs[job].owner;
    CancelKeepsInv(a, root, job);
    if !TakenInRun(a1, root, ops, x) && !RegisteredInRun(a1, root, ops, x) { Stranded(a1, root, ops, x); }
  }

  // ---- Such states are reachable ----

  /** A root at 0. */
  function NewRoot(): Arena {
    NewArena(0, 0, true).value
  }

  /** A child at 1 gets job 7, whose callback asks for more time when the child is freed. */
  function FreeWaits(): seq<Op> {
    [MakeChild(0, 1, true), Register(1, 7, true, Some(2)), FreeAllocator(1, {7})]
  }

  /** The child lives, and job 7 is its only job. */
  ghost predicate OneChild(a: Arena) {
    && Inv(a, 0) && a.tree.Keys == {0, 1} && a.tree[1].parent == 0 && a.tree[1].adopters == []
    && !a.tree[1].freeing && !a.tree[0].freeing && a.tree[0].adopters == []
    && a.jobs == map[7 := Job(1, 1, true, false)] && a.timesCalled.Keys == {7} && a.spaceAvailable > 1000
  }

  /** The child is being freed and waits for job 7. */
  ghost predicate OneWaits(a: Arena) {
    && Inv(a, 0) && Lingers(a, 0, 1) && a.jobs.Keys == {7} && a.jobs[7].owner == 1
    && a.timesCalled.Keys == {7} && a.spaceAvailable > 1000
  }

  lemma RootSizes()
    ensures RealSize(ROOT_SIZE) == 152 && RealSize(ALLOCATOR_SIZE) == 120 && RealSize(JOB_SIZE) == 80
  {
  }

  lemma ChildGetsJob()
    ensures Inv(NewRoot(), 0) && Allowed(NewRoot(), FreeWaits()[0])
    ensures var o := Apply(NewRoot(), 0, FreeWaits()[0]);
            && o.Next? && Inv(o.arena, 0) && Allowed(o.arena, FreeWaits()[1])
            && Apply(o.arena, 0, FreeWaits()[1]).Next? && OneChild(Apply(o.arena, 0, FreeWaits()[1]).arena)
  {
    hide RealSize, Inv, OneChild;
    RootSizes();
    StartOk(0, 0, true);
    var a, op := NewRoot(), FreeWaits()[0];
    ApplyKeepsInv(a, 0, op);
    FirstChild();
    JobComes(Child(a, 0, 1, true).arena);
  }

  lemma FirstChild()
    ensures var o := Child(NewRoot(), 0, 1, true);
            && o.Next? && o.arena.tree.Keys == {0, 1} && o.arena.tree[1].parent == 0 && o.arena.tree[1].adopters == []
            && !o.arena.tree[1].freeing && !o.arena.tree[0].freeing && o.arena.tree[0].adopters == []
            && o.arena.jobs == map[] && o.arena.timesCalled == map[] && o.arena.spaceAvailable > 2000
  {
    RootSizes();
    hide RealSize;
  }

  lemma JobComes(a: Arena)
    requires Inv(a, 0) && a.tree.Keys == {0, 1} && a.tree[1].parent == 0 && a.tree[1].adopters == []
    requires !a.tree[1].freeing && !a.tree[0].freeing && a.tree[0].adopters == []
    requires a.jobs == map[] && a.timesCalled == map[] && a.spaceAvailable > 2000
    ensures Allowed(a, FreeWaits()[1])
    ensures Apply(a, 0, FreeWaits()[1]).Next? && OneChild(Apply(a, 0, FreeWaits()[1]).arena)
  {
    RootSizes();
    hide RealSize, Inv;
    RootStays(a, 0);
    var op := FreeWaits()[1];
    var o := Apply(a, 0, op);
    ApplyKeepsInv(a, 0, op);
    EnlistEffect(a, JobOwner(a.tree, 0, SomeRank(a.tree, 0), 1), 1, 7, true, Some(2), o);
  }

  lemma FirstOfPath(links: set<(Id, Id)>, path: seq<Id>)
    requires IsPath(links, path) && |path| > 1
    ensures (path[0], path[1]) in links
  {
    assert (path[0], path[0 + 1]) in links;
  }

  lemma ChildIsWalked(a: Arena)
    requires OneChild(a)
    ensures Structure(a.tree, 0) && Passes(a.tree, 0, 1, 0).Freed?
    ensures var w := Passes(a.tree, 0, 1, 0).tree; w.Keys == {0, 1} && !w[0].freeing
  {
    hide Passes, Accounted, Recorded, JobsPlaced, CalledOnce;
    var t, rank := a.tree, SomeRank(a.tree, 0);
    forall path | IsPath(LinkSet(t, 0), path) && path[0] == 1 ensures |path| < MAX_DEPTH {
      if |path| > 1 { FirstOfPath(LinkSet(t, 0), path); }
    }
    WalkFinishes(t, 0, rank, 1);
    FreeMarksUnreachable(t, 0, rank, 1);
    ReachesItself(CutLinks(t, 0, 1), 0);
    assert Saved(t, 0, 1, 0);
  }

  lemma FreeBegins(a: Arena)
    requires OneChild(a)
    ensures Allowed(a, FreeWaits()[2]) && Apply(a, 0, FreeWaits()[2]).Next? && OneWaits(Apply(a, 0, FreeWaits()[2]).arena)
  {
    hide Passes, Accounted, Recorded, Structure, Marshal, RunJobs, Below;
    RootStays(a, 0);
    ChildIsWalked(a);
    var rank := SomeRank(a.tree, 0);
    var r := AfterJobs(a, 0, 1, {7});
    JobsKeepInv(a, 0, rank, 1, {7});
    AfterJobsTree(a, 0, 1, {7});
    UnderItself(r.tree, 0, 1);
    FreeRunsEveryJob(a, 0, 1, {7}, 7);
    FreeEnds(a, 0, 1, {7}, Apply(a, 0, FreeWaits()[2]));
    AfterJobsKeepHomes(a, 0, 1, {7});
    assert Placed(r.tree, 0, r.jobs[7]);
  }

  lemma AfterJobsKeepHomes(a: Arena, root: Id, x: Id, async: set<JobId>)
    requires Structure(a.tree, root) && x in a.tree && Passes(a.tree, root, x, 0).Freed?
    ensures var r := AfterJobs(a, root, x, async);
            && r.timesCalled.Keys == a.timesCalled.Keys && r.spaceAvailable == a.spaceAvailable
            && forall j :: j in r.jobs ==> j in a.jobs && r.jobs[j].home == a.jobs[j].home
  {
    hide Passes;
  }

  lemma WaitingIsReached()
    ensures Inv(NewRoot(), 0) && Run(NewRoot(), 0, FreeWaits()).Next?
    ensures OneWaits(Run(NewRoot(), 0, FreeWaits()).arena)
  {
    hide Inv, Apply, OneChild, OneWaits, Allowed;
    ChildGetsJob();
    var a1 := Apply(NewRoot(), 0, FreeWaits()[0]).arena;
    var a2 := Apply(a1, 0, FreeWaits()[1]).arena;
    ChildInv(a2);
    FreeBegins(a2);
    var a3 := Apply(a2, 0, FreeWaits()[2]).arena;
    ApplyKeepsInv(a2, 0, FreeWaits()[2]);
    var ops := FreeWaits();
    assert ops[1..][0] == ops[1] && ops[1..][1..] == ops[2..] && ops[2..][0] == ops[2] && ops[2..][1..] == [];
    assert Run(a3, 0, []) == Next(a3);
    assert Run(a2, 0, ops[2..]) == Next(a3);
    assert Run(a1, 0, ops[1..]) == Next(a3);
  }

  lemma ChildInv(a: Arena)
    requires OneChild(a)
    ensures Inv(a, 0)
  {
  }

  /** There a job can be registered late, and a cancel strands the child. */
  ghost predicate LateOrStranded(a: Arena) {
    && Inv(a, 0) && 1 in a.tree && a.tree[1].freeing
    && Allowed(a, Register(1, 8, true, Some(3))) && Apply(a, 0, Register(1, 8, true, Some(3))).Next?
    && 7 in a.jobs && a.jobs[7].owner == 1 && Lingers(a, 0, 1) && NoJobsAt(CancelOnFree(a, 7), 1)
  }

  lemma WaitingAllows(a: Arena)
    requires OneWaits(a)
    ensures LateOrStranded(a)
  {
    RootSizes();
    hide RealSize, Inv, JobOwner;
    RootStays(a, 0);
  }

  /** A run from a new root ends in such a state. */
  lemma LateAndStrandedReachable()
    ensures Inv(NewRoot(), 0) && Run(NewRoot(), 0, FreeWaits()).Next?
    ensures LateOrStranded(Run(NewRoot(), 0, FreeWaits()).arena)
  {
    hide OneWaits, LateOrStranded, Run;
    WaitingIsReached();
    WaitingAllows(Run(NewRoot(), 0, FreeWaits()).arena);
  }

  /** Giving back the block just allocated undoes the allocation. */
  lemma ReallocUndoesMalloc(a: Arena, n: Id, requested: nat, at: Id)
    requires Accounted(a) && n in a.tree && RealSize(requested) < TWO_63
    requires NewAllocation(a, n, requested, Some(at)).Next?
    ensures var a1 := NewAllocation(a, n, requested, Some(at)).arena;
            n in a1.blocks && n in a1.allocatedHere && Realloc(a1, n, at, 0, None) == Next(a)
  {
    HereWithinLimit(a, n);
    UndoesCharge(a, n, requested, at);
  }

  lemma UndoesCharge(a: Arena, n: Id, requested: nat, at: Id)
    requires n in a.blocks && n in a.allocatedHere && RealSize(requested) < TWO_63 && a.allocatedHere[n] < TWO_63
    requires NewAllocation(a, n, requested, Some(at)).Next?
    ensures var a1 := NewAllocation(a, n, requested, Some(at)).arena;
            n in a1.blocks && n in a1.allocatedHere && Realloc(a1, n, at, 0, None) == Next(a)
  {
    hide RealSize;
    var a1 := NewAllocation(a, n, requested, Some(at)).arena;
    assert Position(a1.blocks[n], at) == 0;
    assert a1.blocks[n][..0] + a1.blocks[n][1..] == a.blocks[n];
    assert a1.blocks[n := a.blocks[n]] == a.blocks;
    assert a1.allocatedHere[n := a.allocatedHere[n]] == a.allocatedHere;
  }
}
