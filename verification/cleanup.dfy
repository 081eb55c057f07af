/** `cleanup_empty_containers` (src/ezwrite/graph/ezentity.py:141-150): the
    sweep run on the chapter after a successful backspace, meant to remove
    every paragraph and sentence an edit has left without tokens.

    As written, the sweep zaps the entity being swept (`self.zap()`) when one
    of its container children has no `HAS_PART` bucket, and it never adds
    anything to its count. `SweepAsWritten` models that code; the corrected
    `CleanupEmptyContainers` removes the empty children themselves and
    counts them, and it is the one the chapter's Backspace command uses. */
module Cleanup {
  import opened Sequences
  import opened Entities
  import opened Navigation
  import opened Zapping

  /** Depth of an entity; an unknown identity counts as a token. */
  function LevelOf(d: Doc, c: Id): (l: nat)
    ensures l <= 3
  {
    if c in d.nodes then Level(d.nodes[c].kind) else 3
  }

  // ---------------------------------------------------------------- as written

  /** The sweep only takes entities out: the root and the identity counter
      stay, no entity is added, and an entity that stays changes at most its
      child list. */
  ghost predicate OnlyPruned(d: Doc, r: Doc) {
    && r.root == d.root && r.nextId == d.nextId
    && r.nodes.Keys <= d.nodes.Keys
    && forall x :: x in r.nodes ==> r.nodes[x] == d.nodes[x].(children := r.nodes[x].children)
  }

  /** `cleanup_empty_containers` on `c` as written. Whatever it zaps, it
      only prunes. */
  function SweepAsWritten(d: Doc, c: Id): (r: (Doc, int))
    ensures OnlyPruned(d, r.0)
    decreases 3 - LevelOf(d, c), 1
  {
    SweepLoopAsWritten(d, c, LevelOf(d, c), 0, |ChildrenOf(d.nodes, c)|, 0)
  }

  /** The `for` loop over `c`'s child list from position `i` on. Python's
      list iterator reads the live list by position, so an entity the nested
      sweep zaps out of `c`'s list makes the loop skip its successor, and
      once `c` itself is zapped by this model's snapshot zap its list is
      empty and the loop ends (the source's zap walks the live list, so
      every second child would stay and the loop would go on). The
      bound `n0` (the list's length when the loop starts; zaps only shorten
      lists) and the depth test (children sit one level deeper in a
      well-formed tree) are there for termination only. `has_children` is
      read from the child's entry before its own sweep: the bucket of an
      entity is never dropped, not even by its `zap`. */
  function SweepLoopAsWritten(d: Doc, c: Id, lvl: nat, i: nat, n0: nat, count: int): (r: (Doc, int))
    requires lvl <= 3
    ensures OnlyPruned(d, r.0)
    decreases 3 - lvl, 0, n0 - i
  {
    var cs := ChildrenOf(d.nodes, c);
    if n0 <= i || |cs| <= i then (d, count)
    else
      var x := cs[i];
      if x !in d.nodes || d.nodes[x].kind == Tok || LevelOf(d, x) <= lvl then
        SweepLoopAsWritten(d, c, lvl, i + 1, n0, count)
      else
        var swept := SweepAsWritten(d, x);
        var d' := if d.nodes[x].hasBucket then swept.0 else Zap(swept.0, c);
        SweepLoopAsWritten(d', c, lvl, i + 1, n0, count + swept.1)
  }

  /** As written, the sweep reports zero removals whatever it zaps. */
  lemma {:induction false} SweepCountsNothing(d: Doc, c: Id)
    ensures SweepAsWritten(d, c).1 == 0
    decreases 3 - LevelOf(d, c), 1
  {
    SweepLoopCount(d, c, LevelOf(d, c), 0, |ChildrenOf(d.nodes, c)|, 0);
  }

  lemma {:induction false} SweepLoopCount(d: Doc, c: Id, lvl: nat, i: nat, n0: nat, count: int)
    requires lvl <= 3
    ensures SweepLoopAsWritten(d, c, lvl, i, n0, count).1 == count
    decreases 3 - lvl, 0, n0 - i
  {
    var cs := ChildrenOf(d.nodes, c);
    if n0 <= i || |cs| <= i {
    } else {
      var x := cs[i];
      if x !in d.nodes || d.nodes[x].kind == Tok || LevelOf(d, x) <= lvl {
        SweepLoopCount(d, c, lvl, i + 1, n0, count);
      } else {
        var swept := SweepAsWritten(d, x);
        SweepCountsNothing(d, x);
        var d' := if d.nodes[x].hasBucket then swept.0 else Zap(swept.0, c);
        SweepLoopCount(d', c, lvl, i + 1, n0, count + swept.1);
      }
    }
  }

  /** A container whose first child is a container that never had a child
      (a paragraph whose first sentence is fresh, a chapter whose first
      paragraph is fresh) is zapped by its own sweep, which still reports
      zero. Under this model's snapshot zap the owner goes with all the
      tokens below it; the source's live-list zap leaves every second child. */
  lemma SweepZapsOwner(d: Doc, c: Id)
    requires WellFormed(d) && c in d.nodes && |d.nodes[c].children| > 0
    requires d.nodes[c].children[0] in d.nodes
    requires d.nodes[d.nodes[c].children[0]].kind != Tok
    requires !d.nodes[d.nodes[c].children[0]].hasBucket
    ensures SweepAsWritten(d, c) == (Zap(d, c), 0)
    ensures c == d.root ==> Leaves(SweepAsWritten(d, c).0) == []
    ensures c != d.root ==> forall t :: t in Leaves(d) && AncestorOrSelf(d.nodes, c, t) ==> t !in Leaves(SweepAsWritten(d, c).0)
  {
    SweepFirstChild(d, c);
    ZappedTokens(d, c);
  }

  /** The first round of the loop zaps `c`, which ends the loop. */
  lemma SweepFirstChild(d: Doc, c: Id)
    requires WellFormed(d) && c in d.nodes && |d.nodes[c].children| > 0
    requires d.nodes[c].children[0] in d.nodes
    requires d.nodes[d.nodes[c].children[0]].kind != Tok
    requires !d.nodes[d.nodes[c].children[0]].hasBucket
    ensures SweepAsWritten(d, c) == (Zap(d, c), 0)
  {
    var x := d.nodes[c].children[0];
    var lvl := LevelOf(d, c);
    var n0 := |ChildrenOf(d.nodes, c)|;
    var r := Zap(d, c);
    assert x in d.nodes && d.nodes[x].kind != Tok && LevelOf(d, x) > lvl by {
      assert ChildrenOK(d.nodes, c);
    }
    assert SweepAsWritten(d, x) == (d, 0) by {
      assert ChildrenOK(d.nodes, x);
    }
    assert SweepLoopAsWritten(d, c, lvl, 0, n0, 0) == SweepLoopAsWritten(r, c, lvl, 1, n0, 0);
    assert SweepLoopAsWritten(r, c, lvl, 1, n0, 0) == (r, 0) by {
      assert ChildrenOf(r.nodes, c) == [] by {
        ParentlessIsRoot(d, c);
      }
    }
  }

  /** Zapping the chapter empties the document; zapping any other entity
      takes every token below it out of the document. */
  lemma ZappedTokens(d: Doc, c: Id)
    requires WellFormed(d) && c in d.nodes
    ensures c == d.root ==> Leaves(Zap(d, c)) == []
    ensures c != d.root ==> forall t :: t in Leaves(d) && AncestorOrSelf(d.nodes, c, t) ==> t !in Leaves(Zap(d, c))
  {
    var r := Zap(d, c);
    if c == d.root {
      ParentlessIsRoot(d, c);
      assert ChildrenOf(r.nodes, c) == [];
      assert Kids(r.nodes, [c]) == ChildrenOf(r.nodes, c) + Kids(r.nodes, []);
      assert LevelSeq(r, 1) == [];
      assert LevelSeq(r, 2) == Kids(r.nodes, []) == [];
      assert LevelSeq(r, 3) == Kids(r.nodes, []) == [];
    } else {
      ZapLevels(d, c);
    }
  }

  // ----------------------------------------------------------------- corrected

  /** A paragraph or sentence with no token anywhere below it: a sentence
      with an empty child list, or a paragraph each of whose sentences has
      one. */
  predicate Hollow(ns: Nodes, x: Id)
    requires x in ns
  {
    || (ns[x].kind == Sentence && ns[x].children == [])
    || (ns[x].kind == Paragraph && forall s :: s in ns[x].children ==> ChildrenOf(ns, s) == [])
  }

  /** The entities the corrected sweep removes. */
  function Hollows(d: Doc): (D: set<Id>)
    ensures forall x :: x in D <==> x in d.nodes && Hollow(d.nodes, x)
  {
    set x | x in d.nodes && Hollow(d.nodes, x)
  }

  /** The arena without the entities of `D`, their identities filtered out
      of every remaining child list. */
  function Drop(d: Doc, D: set<Id>): (r: Doc)
    ensures r.root == d.root && r.nextId == d.nextId
    ensures r.nodes.Keys == d.nodes.Keys - D
  {
    Doc(map x | x in d.nodes && x !in D :: d.nodes[x].(children := FilterOut(d.nodes[x].children, D)), d.root, d.nextId)
  }

  /** `cleanup_empty_containers` on the chapter, corrected in three ways:
      the loop runs over a copy of the child list (the live list loses each
      zapped child, which made the loop skip its next sibling); a child
      container is empty when its child list is, not when its bucket is
      missing (an emptied bucket is never dropped); and the child, not the
      caller, is zapped and counted. Depth first, a child container left
      with no children is removed. In a well-formed tree the containers removed are
      exactly the hollow ones; the count is how many entities left the
      arena, and the survivors change nothing but their child lists. */
  function CleanupEmptyContainers(d: Doc): (r: (Doc, nat))
    ensures r.0.root == d.root && r.0.nextId == d.nextId
    ensures forall x :: x in r.0.nodes <==> x in d.nodes && !Hollow(d.nodes, x)
    ensures r.1 == |d.nodes.Keys - r.0.nodes.Keys|
    ensures forall x :: x in r.0.nodes ==> r.0.nodes[x] == d.nodes[x].(children := r.0.nodes[x].children)
  {
    var D := Hollows(d);
    assert d.nodes.Keys - (d.nodes.Keys - D) == D;
    (Drop(d, D), |D|)
  }

  /** In a well-formed tree hollow entities are containers below the root
      and their children are hollow too. */
  lemma HollowsClosed(d: Doc)
    requires WellFormed(d)
    ensures d.root !in Hollows(d)
    ensures forall x, c :: x in Hollows(d) && c in ChildrenOf(d.nodes, x) ==> c in Hollows(d)
  {
    forall x, c | x in Hollows(d) && c in ChildrenOf(d.nodes, x) ensures c in Hollows(d) {
      assert ChildrenOK(d.nodes, x);
    }
  }

  /** The corrected sweep keeps the tree well formed. */
  lemma CleanupWellFormed(d: Doc)
    requires WellFormed(d)
    ensures WellFormed(CleanupEmptyContainers(d).0)
  {
    var D := Hollows(d);
    HollowsClosed(d);
    DropWellFormed(d, D);
  }

  /** Dropping a set closed under children and not holding the root keeps
      the tree well formed. */
  lemma DropWellFormed(d: Doc, D: set<Id>)
    requires WellFormed(d) && d.root !in D
    requires forall x, c :: x in D && c in ChildrenOf(d.nodes, x) ==> c in D
    ensures WellFormed(Drop(d, D))
  {
    var ns := d.nodes;
    var r := Drop(d, D);
    forall n | n in r.nodes ensures ChildrenOK(r.nodes, n) {
      assert ChildrenOK(ns, n);
      FilterOutNoDup(ns[n].children, D);
    }
    forall n | n in r.nodes && n != r.root ensures Attached(r.nodes, n) {
      assert Attached(ns, n);
      var q := ns[n].parent.value;
      assert n in ChildrenOf(ns, q);
      FilterOutKeeps(ns[q].children, n, D);
    }
  }

  /** The corrected sweep removes no token: the document's tokens and text
      are what they were. */
  lemma CleanupKeepsText(d: Doc)
    requires WellFormed(d)
    ensures Leaves(CleanupEmptyContainers(d).0) == Leaves(d)
    ensures Text(CleanupEmptyContainers(d).0) == Text(d)
  {
    HollowsClosed(d);
    DropKeepsText(d, Hollows(d));
  }

  /** Dropping a closed set of containers keeps every token and its word. */
  lemma DropKeepsText(d: Doc, D: set<Id>)
    requires WellFormed(d) && d.root !in D
    requires forall x, c :: x in D && c in ChildrenOf(d.nodes, x) ==> c in D
    requires forall x :: x in D ==> x in d.nodes && d.nodes[x].kind != Tok
    ensures Leaves(Drop(d, D)) == Leaves(d)
    ensures Text(Drop(d, D)) == Text(d)
  {
    var r := Drop(d, D);
    DropChildLists(d, D);
    FilterLevels(d, r, D, 3);
    LevelSeqKinds(d, 3);
    FilterOutNone(Leaves(d), D);
    WordsSame(d.nodes, r.nodes, Leaves(d));
  }

  /** The child lists after a drop, in the form `FilterLevels` takes. */
  lemma DropChildLists(d: Doc, D: set<Id>)
    requires forall x, c :: x in D && c in ChildrenOf(d.nodes, x) ==> c in D
    ensures forall q :: q !in D ==> ChildrenOf(Drop(d, D).nodes, q) == FilterOut(ChildrenOf(d.nodes, q), D)
    ensures forall q :: q in D ==> FilterOut(ChildrenOf(d.nodes, q), D) == []
  {
    forall q | q in D ensures FilterOut(ChildrenOf(d.nodes, q), D) == [] {
      FilterOutAll(ChildrenOf(d.nodes, q), D);
    }
  }

  /** After the corrected sweep no paragraph or sentence is left without a
      token below it. */
  lemma CleanupLeavesNoHollow(d: Doc)
    requires WellFormed(d)
    ensures Hollows(CleanupEmptyContainers(d).0) == {}
  {
    var D := Hollows(d);
    var r := Drop(d, D);
    forall x | x in r.nodes ensures !Hollow(r.nodes, x) {
      StaysFull(d, D, x);
    }
    assert CleanupEmptyContainers(d).0 == r;
  }

  /** An entity that survives the drop is not hollow afterwards. */
  lemma StaysFull(d: Doc, D: set<Id>, x: Id)
    requires WellFormed(d) && D == Hollows(d) && x in d.nodes && x !in D
    ensures x in Drop(d, D).nodes && !Hollow(Drop(d, D).nodes, x)
  {
    var ns := d.nodes;
    var rs := Drop(d, D).nodes;
    assert ChildrenOK(ns, x);
    if ns[x].kind == Sentence {
      KeepsTok(d, x, D);
    } else if ns[x].kind == Paragraph {
      var s :| s in ns[x].children && ChildrenOf(ns, s) != [];
      assert ChildrenOK(ns, s);
      assert s !in D;
      KeepsTok(d, s, D);
      FilterOutKeeps(ns[x].children, s, D);
      assert s in rs[x].children && ChildrenOf(rs, s) != [];
    }
  }

  /** A sentence with children keeps one through the sweep: its children
      are tokens, and no token is hollow. */
  lemma KeepsTok(d: Doc, s: Id, D: set<Id>)
    requires WellFormed(d) && s in d.nodes && d.nodes[s].kind == Sentence && d.nodes[s].children != []
    requires D == Hollows(d)
    ensures FilterOut(d.nodes[s].children, D) != []
  {
    assert ChildrenOK(d.nodes, s);
    var t := d.nodes[s].children[0];
    assert t !in D;
    FilterOutKeeps(d.nodes[s].children, t, D);
  }

  /** The corrected sweep is idempotent: a second sweep removes nothing and
      reports zero. */
  lemma CleanupIdempotent(d: Doc)
    requires WellFormed(d)
    ensures var r := CleanupEmptyContainers(d).0;
      CleanupEmptyContainers(r) == (r, 0)
  {
    var r := CleanupEmptyContainers(d).0;
    CleanupLeavesNoHollow(d);
    DropNothing(r);
    assert CleanupEmptyContainers(r) == (Drop(r, Hollows(r)), |Hollows(r)|);
  }

  lemma DropNothing(d: Doc)
    ensures Drop(d, {}) == d
  {
    var r := Drop(d, {});
    forall x | x in d.nodes ensures r.nodes[x] == d.nodes[x] {
      FilterOutNone(d.nodes[x].children, {});
    }
    assert r.nodes == d.nodes;
  }
}
