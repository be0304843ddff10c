/**
 * Allocators as they lie in memory: each points to its parent, its first child and its two siblings.
 * Every list of children is such a doubly linked list; unlinking and relinking one allocator is
 * removing it from one list and putting it at the head of another.
 */
module SiblingLists {
  import opened Prelude
  import opened Links
  import opened Ownership

  datatype Cell = Cell(
    parent: Option<Id>,
    lastSibling: Option<Id>,
    nextSibling: Option<Id>,
    firstChild: Option<Id>,
    adopters: seq<Id>,
    adoptees: seq<Id>,
    isFreeing: bool)

  type Heap = map<Id, Cell>

  function At(s: seq<Id>, i: int): Option<Id> {
    if 0 <= i < |s| then Some(s[i]) else None
  }

  /** The doubly linked list from n's first child holds exactly `kids`, in order. */
  ghost predicate OneList(h: Heap, n: Id, kids: seq<Id>) {
    && n in h && h[n].firstChild == At(kids, 0)
    && forall i {:trigger kids[i]} :: 0 <= i < |kids| ==>
         && kids[i] in h
         && h[kids[i]].lastSibling == At(kids, i - 1)
         && h[kids[i]].nextSibling == At(kids, i + 1)
  }

  ghost predicate AllLists(h: Heap, t: Tree) {
    forall n {:trigger t[n].kids} :: n in t ==> OneList(h, n, t[n].kids)
  }

  ghost predicate SameAdoption(h: Heap, t: Tree) {
    forall n {:trigger h[n]} {:trigger t[n]} :: n in t ==>
      n in h && h[n].adopters == t[n].adopters && h[n].adoptees == t[n].adoptees && h[n].isFreeing == t[n].freeing
  }

  /** Everybody knows its parent, except an allocator that is between two lists. */
  ghost predicate SameParents(h: Heap, t: Tree, loose: Option<Id>) {
    forall n {:trigger h[n].parent} {:trigger t[n].parent} :: n in t ==>
      n in h && h[n].parent == if loose == Some(n) then None else Some(t[n].parent)
  }

  ghost predicate Unlinked(h: Heap, n: Id) {
    n in h && h[n].lastSibling.None? && h[n].nextSibling.None?
  }

  /** The heap h lays out the tree t; `loose` is an allocator that is in no list at the moment. */
  ghost predicate Lays(h: Heap, t: Tree, root: Id, loose: Option<Id>) {
    && h.Keys == t.Keys
    && SameAdoption(h, t)
    && SameParents(h, t, loose)
    && AllLists(h, t)
    && Unlinked(h, root)
    && (loose.Some? ==> Unlinked(h, loose.value))
  }

  // ---- Leaving a list ----

  /** What `disconnect` does to the pointers. */
  ghost predicate TakenOut(h: Heap, h': Heap, p: Id, c: Id) {
    && h'.Keys == h.Keys && c in h
    && forall m {:trigger h'[m]} :: m in h ==>
         h'[m] == h[m].(
           parent := if m == c then None else h[m].parent,
           lastSibling := if m == c then None else if h[c].nextSibling == Some(m) then h[c].lastSibling else h[m].lastSibling,
           nextSibling := if m == c then None else if h[c].lastSibling == Some(m) then h[c].nextSibling else h[m].nextSibling,
           firstChild := if m == p && h[c].lastSibling.None? then h[c].nextSibling else h[m].firstChild)
  }

  lemma {:induction false} RemoveAt(s: seq<Id>, i: nat)
    requires i < |s| && s[i] !in s[..i]
    ensures Remove(s, s[i]) == s[..i] + s[i + 1..]
    decreases i
  {
    if i > 0 {
      var r := s[1..];
      assert s[0] in s[..i] && r[i - 1] == s[i];
      forall k | 0 <= k < i - 1 ensures r[k] != s[i] { assert s[..i][k + 1] == r[k]; }
      RemoveAt(r, i - 1);
      assert s[..i] == [s[0]] + r[..i - 1];
      assert s[i + 1..] == r[i..];
      assert [s[0]] + (r[..i - 1] + r[i..]) == s[..i] + s[i + 1..];
    }
  }

  lemma ListTakenOut(h: Heap, h': Heap, p: Id, kids: seq<Id>, i: nat)
    requires OneList(h, p, kids) && Distinct(kids) && i < |kids| && p !in kids && TakenOut(h, h', p, kids[i])
    ensures OneList(h', p, kids[..i] + kids[i + 1..])
  {
    var kids' := kids[..i] + kids[i + 1..];
    assert At(kids', 0) == if i == 0 then At(kids, 1) else At(kids, 0);
    forall k {:trigger kids'[k]} | 0 <= k < |kids'|
      ensures kids'[k] in h' && h'[kids'[k]].lastSibling == At(kids', k - 1) && h'[kids'[k]].nextSibling == At(kids', k + 1)
    {
      OtherTakenOut(h, h', p, kids, i, if k < i then k else k + 1);
      NeighboursTakenOut(kids, i, k);
    }
  }

  lemma NeighboursTakenOut(kids: seq<Id>, i: nat, k: nat)
    requires i < |kids| && k + 1 < |kids|
    ensures var kids', o := kids[..i] + kids[i + 1..], if k < i then k else k + 1;
            && kids'[k] == kids[o]
            && At(kids', k - 1) == At(kids, if o == i + 1 then o - 2 else o - 1)
            && At(kids', k + 1) == At(kids, if o + 1 == i then o + 2 else o + 1)
  {
  }

  /** The two neighbours of a sibling other than the one that leaves. */
  lemma OtherTakenOut(h: Heap, h': Heap, p: Id, kids: seq<Id>, i: nat, o: nat)
    requires OneList(h, p, kids) && Distinct(kids) && i < |kids| && o < |kids| && o != i && TakenOut(h, h', p, kids[i])
    ensures kids[o] in h'
    ensures h'[kids[o]].lastSibling == At(kids, if o == i + 1 then o - 2 else o - 1)
    ensures h'[kids[o]].nextSibling == At(kids, if o + 1 == i then o + 2 else o + 1)
  {
    assert kids[o] != kids[i];
    if o != i - 1 && i > 0 { assert kids[i - 1] != kids[o]; }
    if o != i + 1 && i + 1 < |kids| { assert kids[i + 1] != kids[o]; }
  }

  /** A list that has nothing to do with c stays as it is. */
  lemma ListUntouched(h: Heap, h': Heap, n: Id, kids: seq<Id>, p: Id, others: seq<Id>, i: nat)
    requires OneList(h, n, kids) && OneList(h, p, others) && n != p && i < |others| && TakenOut(h, h', p, others[i])
    requires forall k :: k in kids ==> k !in others
    ensures OneList(h', n, kids)
  {
    forall k {:trigger kids[k]} | 0 <= k < |kids|
      ensures kids[k] in h' && h'[kids[k]].lastSibling == At(kids, k - 1) && h'[kids[k]].nextSibling == At(kids, k + 1)
    {
      assert kids[k] in kids;
    }
  }

  /** The tree while c is in no list. */
  ghost function Detached(t: Tree, c: Id): Tree
    requires c in t
  {
    map n | n in t :: if n == t[c].parent then t[n].(kids := Remove(t[n].kids, c)) else t[n]
  }

  lemma KidsOfOthers(t: Tree, root: Id, n: Id, p: Id)
    requires KidsPointBack(t, root) && n in t && p in t && n != p
    ensures forall k :: k in t[n].kids ==> k !in t[p].kids
  {
  }

  lemma TakenOutLists(h: Heap, h': Heap, t: Tree, root: Id, p: Id, i: nat)
    requires AllLists(h, t) && KidsOk(t, root) && p in t && i < |t[p].kids| && p !in t[p].kids
    requires TakenOut(h, h', p, t[p].kids[i])
    ensures t[p].kids[i] in t && AllLists(h', Detached(t, t[p].kids[i]))
  {
    var c := t[p].kids[i];
    assert c in t[p].kids;
    var t' := Detached(t, c);
    RemoveAt(t[p].kids, i);
    forall n {:trigger t'[n].kids} | n in t' ensures OneList(h', n, t'[n].kids) {
      assert OneList(h, n, t[n].kids) && OneList(h, p, t[p].kids);
      if n == p {
        ListTakenOut(h, h', p, t[p].kids, i);
      } else {
        KidsOfOthers(t, root, n, p);
        ListUntouched(h, h', n, t[n].kids, p, t[p].kids, i);
      }
    }
  }

  lemma TakenOutCells(h: Heap, h': Heap, t: Tree, c: Id)
    requires SameAdoption(h, t) && SameParents(h, t, None) && h.Keys == t.Keys && c in t && TakenOut(h, h', t[c].parent, c)
    ensures SameAdoption(h', Detached(t, c)) && SameParents(h', Detached(t, c), Some(c)) && Unlinked(h', c)
  {
    var t' := Detached(t, c);
    forall n {:trigger h'[n].parent} {:trigger t'[n].parent} | n in t'
      ensures n in h' && h'[n].parent == if Some(c) == Some(n) then None else Some(t'[n].parent)
    {
      assert h[n].parent == Some(t[n].parent);
    }
  }

  lemma TakenOutLays(h: Heap, h': Heap, t: Tree, root: Id, c: Id)
    requires Lays(h, t, root, None) && Structure(t, root) && c in t && c != root && TakenOut(h, h', t[c].parent, c)
    ensures Lays(h', Detached(t, c), root, Some(c))
  {
    var p := t[c].parent;
    assert p in t && c in t[p].kids;
    var i :| 0 <= i < |t[p].kids| && t[p].kids[i] == c;
    assert p !in t[p].kids;
    TakenOutAt(h, h', t, root, p, i);
  }

  lemma TakenOutAt(h: Heap, h': Heap, t: Tree, root: Id, p: Id, i: nat)
    requires Lays(h, t, root, None) && KidsOk(t, root) && root in t && p in t && i < |t[p].kids| && p !in t[p].kids
    requires TakenOut(h, h', p, t[p].kids[i])
    ensures t[p].kids[i] in t && Lays(h', Detached(t, t[p].kids[i]), root, Some(t[p].kids[i]))
  {
    var c := t[p].kids[i];
    assert c in t[p].kids;
    TakenOutLists(h, h', t, root, p, i);
    TakenOutCells(h, h', t, c);
    RootStaysUnlinked(h, h', t, root, p, i);
  }

  lemma RootStaysUnlinked(h: Heap, h': Heap, t: Tree, root: Id, p: Id, i: nat)
    requires Unlinked(h, root) && AllLists(h, t) && KidsPointBack(t, root) && p in t && i < |t[p].kids|
    requires TakenOut(h, h', p, t[p].kids[i])
    ensures Unlinked(h', root)
  {
    var kids := t[p].kids;
    assert OneList(h, p, kids);
    if i > 0 { assert kids[i - 1] in kids; }
    if i + 1 < |kids| { assert kids[i + 1] in kids; }
    assert root !in kids;
  }

  // ---- Joining a list ----

  /** What `connect` does to the pointers. */
  ghost predicate PutIn(h: Heap, h': Heap, p: Id, c: Id) {
    && h'.Keys == h.Keys && c in h && p in h
    && forall m {:trigger h'[m]} :: m in h ==>
         h'[m] == h[m].(
           parent := if m == c then Some(p) else h[m].parent,
           lastSibling := if h[p].firstChild == Some(m) then Some(c) else h[m].lastSibling,
           nextSibling := if m == c then h[p].firstChild else h[m].nextSibling,
           firstChild := if m == p then Some(c) else h[m].firstChild)
  }

  lemma ListPutIn(h: Heap, h': Heap, p: Id, c: Id, kids: seq<Id>)
    requires OneList(h, p, kids) && Distinct(kids) && c !in kids && p != c && PutIn(h, h', p, c) && Unlinked(h, c)
    ensures OneList(h', p, [c] + kids)
  {
    var kids' := [c] + kids;
    forall k {:trigger kids'[k]} | 0 <= k < |kids'|
      ensures kids'[k] in h' && h'[kids'[k]].lastSibling == At(kids', k - 1) && h'[kids'[k]].nextSibling == At(kids', k + 1)
    {
      if k == 0 {
        assert At(kids', 1) == At(kids, 0);
        if kids != [] { assert kids[0] in kids; }
      } else {
        assert kids'[k] == kids[k - 1] && kids[k - 1] in kids;
        if k > 1 { assert kids[0] != kids[k - 1]; }
      }
    }
  }

  lemma ListNotJoined(h: Heap, h': Heap, n: Id, kids: seq<Id>, p: Id, c: Id, others: seq<Id>)
    requires OneList(h, n, kids) && OneList(h, p, others) && n != p && PutIn(h, h', p, c) && c !in kids
    requires forall k :: k in kids ==> k !in others
    ensures OneList(h', n, kids)
  {
    forall k {:trigger kids[k]} | 0 <= k < |kids|
      ensures kids[k] in h' && h'[kids[k]].lastSibling == At(kids, k - 1) && h'[kids[k]].nextSibling == At(kids, k + 1)
    {
      assert kids[k] in kids;
    }
  }

  /** The tree once c, in no list before, is the first child of p. */
  ghost function Attached(t: Tree, c: Id, p: Id): Tree
    requires c in t && p in t
  {
    map n | n in t ::
      t[n].(kids := if n == p then [c] + t[n].kids else t[n].kids, parent := if n == c then p else t[n].parent)
  }

  ghost predicate InNoList(t: Tree, c: Id) {
    forall n {:trigger t[n].kids} :: n in t ==> c !in t[n].kids
  }

  lemma PutInLists(h: Heap, h': Heap, t: Tree, root: Id, c: Id, p: Id)
    requires AllLists(h, t) && KidsOk(t, root) && InNoList(t, c) && Unlinked(h, c) && c in t && p in t && p != c
    requires PutIn(h, h', p, c)
    ensures AllLists(h', Attached(t, c, p))
  {
    var t' := Attached(t, c, p);
    forall n {:trigger t'[n].kids} | n in t' ensures OneList(h', n, t'[n].kids) {
      assert OneList(h, n, t[n].kids) && OneList(h, p, t[p].kids);
      if n == p {
        ListPutIn(h, h', p, c, t[p].kids);
      } else {
        KidsOfOthers(t, root, n, p);
        ListNotJoined(h, h', n, t[n].kids, p, c, t[p].kids);
      }
    }
  }

  lemma PutInCells(h: Heap, h': Heap, t: Tree, c: Id, p: Id)
    requires SameAdoption(h, t) && SameParents(h, t, Some(c)) && h.Keys == t.Keys && c in t && p in t && PutIn(h, h', p, c)
    ensures SameAdoption(h', Attached(t, c, p)) && SameParents(h', Attached(t, c, p), None)
  {
  }

  lemma PutInLays(h: Heap, h': Heap, t: Tree, root: Id, c: Id, p: Id)
    requires Lays(h, t, root, Some(c)) && KidsOk(t, root) && InNoList(t, c) && c in t && p in t && p != c
    requires root in t && c != root && PutIn(h, h', p, c)
    ensures Lays(h', Attached(t, c, p), root, None)
  {
    hide AllLists, SameAdoption, SameParents, KidsPointBack, KidsDistinct, InNoList;
    PutInLists(h, h', t, root, c, p);
    PutInCells(h, h', t, c, p);
    RootNotJoined(h, h', t, root, c, p);
  }

  lemma RootNotJoined(h: Heap, h': Heap, t: Tree, root: Id, c: Id, p: Id)
    requires AllLists(h, t) && KidsPointBack(t, root) && Unlinked(h, root) && p in t && c != root && PutIn(h, h', p, c)
    ensures Unlinked(h', root)
  {
    assert OneList(h, p, t[p].kids);
    if t[p].kids != [] { assert t[p].kids[0] in t[p].kids; }
  }

  /** Leaving one list and joining another is the move of the tree. */
  lemma DetachedAttached(t: Tree, c: Id, p: Id)
    requires c in t && p in t
    ensures Attached(Detached(t, c), c, p) == Move(t, c, p)
  {
  }

  lemma DetachedKids(t: Tree, root: Id, c: Id)
    requires KidsOk(t, root) && c in t && t[c].parent in t
    ensures KidsOk(Detached(t, c), root) && InNoList(Detached(t, c), c)
  {
    var t', p := Detached(t, c), t[c].parent;
    RemoveDistinct(t[p].kids, c);
    RemoveMembers(t[p].kids, c);
    forall n {:trigger t'[n].kids} | n in t' ensures Distinct(t'[n].kids) && c !in t'[n].kids {
      if n != p { assert Distinct(t[n].kids); }
    }
    assert KidsPointBack(t', root);
  }
}
