/** `zap`: detaching an entity from its parent and zapping its children.
    The source iterates the live child list while each child's `zap`
    removes itself from it; the model zaps a snapshot of the list, that is,
    the whole subtree, and drops the detached entities from the arena since
    nothing reachable from the chapter refers to them any more. */
module Zapping {
  import opened Wrappers
  import opened Sequences
  import opened Entities
  import opened Navigation

  /** The entity and everything below it. */
  function Subtree(ns: Nodes, id: Id): (r: set<Id>)
    ensures forall n :: n in r <==> n in ns && AncestorOrSelf(ns, id, n)
  {
    set n | n in ns.Keys && AncestorOrSelf(ns, id, n)
  }

  /** `zap`: an entity with a parent leaves its parent's child list and its
      subtree leaves the arena; a parentless entity (the chapter) keeps its
      place and its bucket but loses every child. An unknown identity is a
      no-op. */
  function Zap(d: Doc, id: Id): (r: Doc)
    ensures r.root == d.root && r.nextId == d.nextId
    ensures forall n :: n in r.nodes ==> n in d.nodes
    ensures id in d.nodes ==> (id in r.nodes <==> d.nodes[id].parent.None?)
    ensures id in d.nodes ==> forall n :: n in d.nodes && n != id && AncestorOrSelf(d.nodes, id, n) ==> n !in r.nodes
    ensures forall n :: n in d.nodes && !AncestorOrSelf(d.nodes, id, n) ==> n in r.nodes
    ensures id in d.nodes && d.nodes[id].parent.None? ==> r.nodes[id] == d.nodes[id].(children := [])
    ensures id in d.nodes ==> forall n :: n in r.nodes && n != id && Some(n) != d.nodes[id].parent ==> r.nodes[n] == d.nodes[n]
    ensures id in d.nodes && d.nodes[id].parent.Some? && d.nodes[id].parent.value in r.nodes ==>
      var p := d.nodes[id].parent.value;
      r.nodes[p] == d.nodes[p].(children := RemoveFirst(d.nodes[p].children, id))
  {
    if id !in d.nodes then d
    else
      var ns := d.nodes;
      match ns[id].parent
      case None =>
        Doc(map n | n in ns && (n == id || !AncestorOrSelf(ns, id, n)) ::
              if n == id then ns[n].(children := []) else ns[n],
            d.root, d.nextId)
      case Some(p) =>
        Doc(map n | n in ns && !AncestorOrSelf(ns, id, n) ::
              if n == p then ns[n].(children := RemoveFirst(ns[n].children, id)) else ns[n],
            d.root, d.nextId)
  }

  /** An entity strictly below `a` sits deeper than `a`. */
  lemma AncestorLevel(ns: Nodes, a: Id, x: Id)
    requires AncestorOrSelf(ns, a, x) && x != a
    ensures a in ns && x in ns && Level(ns[a].kind) < Level(ns[x].kind)
    decreases if x in ns then Level(ns[x].kind) + 1 else 0
  {
    var q := ns[x].parent.value;
    if q != a {
      AncestorLevel(ns, a, q);
    }
  }

  /** Facts about the subtree of a non-root entity `id` in a well-formed
      document with parent `p`: the parent and the root lie outside it, the
      children of a member are members, and a non-member's only member child
      can be `id` itself. */
  lemma SubtreeFacts(d: Doc, id: Id, p: Id)
    requires WellFormed(d) && id in d.nodes && d.nodes[id].parent == Some(p)
    ensures var D := Subtree(d.nodes, id);
      && id in D && p !in D && d.root !in D && p in d.nodes
      && (forall q, c :: q in D && c in ChildrenOf(d.nodes, q) ==> c in D)
      && (forall q, c :: q in d.nodes && q !in D && c in ChildrenOf(d.nodes, q) && c in D ==> c == id && q == p)
  {
    var ns := d.nodes;
    var D := Subtree(ns, id);
    ParentlessIsRoot(d, id);
    ParentLevel(d, id);
    if AncestorOrSelf(ns, id, p) {
      AncestorLevel(ns, id, p);
    }
    if AncestorOrSelf(ns, id, d.root) && d.root != id {
      AncestorLevel(ns, id, d.root);
    }
    forall q, c | q in D && c in ChildrenOf(ns, q) ensures c in D {
      assert ChildrenOK(ns, q);
    }
    forall q, c | q in ns && q !in D && c in ChildrenOf(ns, q) && c in D ensures c == id && q == p {
      assert ChildrenOK(ns, q);
      assert ns[c].parent == Some(q);
    }
  }

  /** Kids commutes with dropping a set closed under children: the children
      of surviving parents are filtered, the children of dropped ones vanish. */
  lemma {:induction false} KidsFilter(ns: Nodes, ns': Nodes, s: seq<Id>, D: set<Id>)
    requires forall q :: q in s && q !in D ==> ChildrenOf(ns', q) == FilterOut(ChildrenOf(ns, q), D)
    requires forall q :: q in s && q in D ==> FilterOut(ChildrenOf(ns, q), D) == []
    ensures Kids(ns', FilterOut(s, D)) == FilterOut(Kids(ns, s), D)
  {
    if |s| > 0 {
      var rest := FilterOut(s[1..], D);
      KidsFilter(ns, ns', s[1..], D);
      assert Kids(ns, s) == ChildrenOf(ns, s[0]) + Kids(ns, s[1..]);
      FilterOutAppend(ChildrenOf(ns, s[0]), Kids(ns, s[1..]), D);
      if s[0] !in D {
        assert FilterOut(s, D) == [s[0]] + rest;
        assert ([s[0]] + rest)[1..] == rest;
        assert Kids(ns', [s[0]] + rest) == ChildrenOf(ns', s[0]) + Kids(ns', rest);
      } else {
        assert FilterOut(s, D) == rest;
      }
    }
  }

  /** Zapping a non-root entity keeps the document well formed and removes
      exactly its subtree from every level of the document order. */
  lemma ZapLevels(d: Doc, id: Id)
    requires WellFormed(d) && id in d.nodes && id != d.root
    ensures WellFormed(Zap(d, id))
    ensures forall level: nat :: LevelSeq(Zap(d, id), level) == FilterOut(LevelSeq(d, level), Subtree(d.nodes, id))
  {
    ZapWellFormed(d, id);
    forall level: nat ensures LevelSeq(Zap(d, id), level) == FilterOut(LevelSeq(d, level), Subtree(d.nodes, id)) {
      ZapLevel(d, id, level);
    }
  }

  lemma ZapWellFormed(d: Doc, id: Id)
    requires WellFormed(d) && id in d.nodes && id != d.root
    ensures WellFormed(Zap(d, id))
  {
    var ns := d.nodes;
    ParentlessIsRoot(d, id);
    var p := ns[id].parent.value;
    SubtreeFacts(d, id, p);
    var D := Subtree(ns, id);
    var r := Zap(d, id);
    assert r.nodes.Keys == ns.Keys - D;
    forall n | n in r.nodes ensures ChildrenOK(r.nodes, n) {
      assert ChildrenOK(ns, n);
      forall c | c in r.nodes[n].children
        ensures c in r.nodes && r.nodes[c].parent == Some(n) && Level(r.nodes[c].kind) == Level(r.nodes[n].kind) + 1
      {
        assert c in ns[n].children && c != id;
      }
    }
    forall n | n in r.nodes && n != r.root ensures Attached(r.nodes, n) {
      assert Attached(ns, n);
      var q := ns[n].parent.value;
      assert ChildrenOK(ns, q);
      assert q !in D;
    }
  }

  lemma ZapLevel(d: Doc, id: Id, level: nat)
    requires WellFormed(d) && id in d.nodes && id != d.root
    ensures LevelSeq(Zap(d, id), level) == FilterOut(LevelSeq(d, level), Subtree(d.nodes, id))
  {
    ZapChildLists(d, id);
    FilterLevels(d, Zap(d, id), Subtree(d.nodes, id), level);
  }

  /** Dropping a set of entities closed under children, and not containing
      the root, filters it out of every level of the document order. */
  lemma {:induction false} FilterLevels(d: Doc, r: Doc, D: set<Id>, level: nat)
    requires r.root == d.root && d.root !in D
    requires forall q :: q !in D ==> ChildrenOf(r.nodes, q) == FilterOut(ChildrenOf(d.nodes, q), D)
    requires forall q :: q in D ==> FilterOut(ChildrenOf(d.nodes, q), D) == []
    ensures LevelSeq(r, level) == FilterOut(LevelSeq(d, level), D)
  {
    if level == 0 {
      assert FilterOut([d.root], D) == [d.root];
    } else {
      FilterLevels(d, r, D, level - 1);
      KidsFilter(d.nodes, r.nodes, LevelSeq(d, level - 1), D);
    }
  }

  /** After the zap, a surviving entity's child list is its old list with
      the subtree filtered out; a zapped entity's children were all zapped. */
  lemma ZapChildLists(d: Doc, id: Id)
    requires WellFormed(d) && id in d.nodes && id != d.root
    ensures d.root !in Subtree(d.nodes, id)
    ensures forall q :: q !in Subtree(d.nodes, id) ==>
      ChildrenOf(Zap(d, id).nodes, q) == FilterOut(ChildrenOf(d.nodes, q), Subtree(d.nodes, id))
    ensures forall q :: q in Subtree(d.nodes, id) ==> FilterOut(ChildrenOf(d.nodes, q), Subtree(d.nodes, id)) == []
  {
    var ns := d.nodes;
    ParentlessIsRoot(d, id);
    var p := ns[id].parent.value;
    SubtreeFacts(d, id, p);
    var D := Subtree(ns, id);
    var r := Zap(d, id);
    forall q | q !in D ensures ChildrenOf(r.nodes, q) == FilterOut(ChildrenOf(ns, q), D) {
      if q in ns {
        assert ChildrenOK(ns, q);
        if q == p {
          RemoveFirstIsFilterOut(ns[p].children, id, D);
        } else {
          FilterOutNone(ChildrenOf(ns, q), D);
        }
      }
    }
    forall q | q in D ensures FilterOut(ChildrenOf(ns, q), D) == [] {
      FilterOutAll(ChildrenOf(ns, q), D);
    }
  }

  /** A token's subtree is the token alone. */
  lemma SubtreeOfTok(d: Doc, t: Id)
    requires WellFormed(d) && t in d.nodes && d.nodes[t].kind == Tok
    ensures Subtree(d.nodes, t) == {t}
  {
    forall n | n in d.nodes && AncestorOrSelf(d.nodes, t, n) ensures n == t {
      if n != t {
        AncestorLevel(d.nodes, t, n);
      }
    }
  }
}
