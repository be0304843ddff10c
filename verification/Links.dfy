/** Reachability over a finite set of links between numbered allocators. */
module Links {

  type Id = nat

  ghost predicate IsPath(links: set<(Id, Id)>, path: seq<Id>) {
    && |path| > 0
    && forall i :: 0 <= i < |path| - 1 ==> (path[i], path[i + 1]) in links
  }

  ghost predicate Joins(links: set<(Id, Id)>, a: Id, c: Id, path: seq<Id>) {
    IsPath(links, path) && path[0] == a && path[|path| - 1] == c
  }

  /** Some chain of links leads from a down to c; the empty chain counts. */
  ghost predicate Reaches(links: set<(Id, Id)>, a: Id, c: Id) {
    exists path :: Joins(links, a, c, path)
  }

  /** No chain of one or more links comes back to where it started. */
  ghost predicate Acyclic(links: set<(Id, Id)>) {
    forall path :: IsPath(links, path) && |path| > 1 ==> path[0] != path[|path| - 1]
  }

  /** Numbers that go up along every link. */
  ghost predicate Ranked(links: set<(Id, Id)>, rank: map<Id, nat>) {
    forall l :: l in links ==> l.0 in rank && l.1 in rank && rank[l.0] < rank[l.1]
  }

  lemma ReachesItself(links: set<(Id, Id)>, a: Id)
    ensures Reaches(links, a, a)
  {
    assert Joins(links, a, a, [a]);
  }

  lemma ReachesOnward(links: set<(Id, Id)>, a: Id, b: Id, c: Id)
    requires Reaches(links, a, b) && (b, c) in links
    ensures Reaches(links, a, c)
  {
    var path :| Joins(links, a, b, path);
    assert Joins(links, a, c, path + [c]);
  }

  lemma ReachesLast(links: set<(Id, Id)>, a: Id, c: Id) returns (b: Id)
    requires Reaches(links, a, c) && a != c
    ensures Reaches(links, a, b) && (b, c) in links
  {
    var path :| Joins(links, a, c, path);
    var k := |path| - 1;
    b := path[k - 1];
    assert (path[k - 1], path[k - 1 + 1]) in links;
    assert Joins(links, a, b, path[..k]);
  }

  lemma {:induction false} RankRises(links: set<(Id, Id)>, rank: map<Id, nat>, path: seq<Id>)
    requires Ranked(links, rank) && IsPath(links, path) && |path| > 1
    ensures path[0] in rank && path[|path| - 1] in rank && rank[path[0]] < rank[path[|path| - 1]]
    decreases |path|
  {
    var k := |path| - 1;
    assert (path[k - 1], path[k - 1 + 1]) in links;
    if k > 1 {
      assert IsPath(links, path[..k]);
      RankRises(links, rank, path[..k]);
    }
  }

  lemma RankedIsAcyclic(links: set<(Id, Id)>, rank: map<Id, nat>)
    requires Ranked(links, rank)
    ensures Acyclic(links)
  {
    forall path | IsPath(links, path) && |path| > 1 ensures path[0] != path[|path| - 1] {
      RankRises(links, rank, path);
    }
  }

  /** The ranks after everything below c has been lifted past p. */
  ghost function Lifted(links: set<(Id, Id)>, rank: map<Id, nat>, p: Id, c: Id): map<Id, nat>
    requires p in rank
  {
    map n | n in rank :: if Reaches(links, c, n) then rank[n] + rank[p] + 1 else rank[n]
  }

  /** A link from p to c closes no cycle as long as c does not already reach p. */
  lemma LinkKeepsRanked(links: set<(Id, Id)>, rank: map<Id, nat>, p: Id, c: Id)
    requires Ranked(links, rank) && p in rank && c in rank && !Reaches(links, c, p)
    ensures Ranked(links + {(p, c)}, Lifted(links, rank, p, c))
  {
    var lifted := Lifted(links, rank, p, c);
    forall l | l in links + {(p, c)} ensures l.0 in lifted && l.1 in lifted && lifted[l.0] < lifted[l.1] {
      if l in links {
        if Reaches(links, c, l.0) { ReachesOnward(links, c, l.0, l.1); }
      } else {
        ReachesItself(links, c);
      }
    }
  }
}
