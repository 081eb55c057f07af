/** Walking one level of the tree: sibling lookup, first and last child,
    the dirty flag's upward propagation and the search for the root container. */
module Navigation {
  import opened Wrappers
  import opened Sequences
  import opened Entities

  /** `get_next_child`: scans the child list, returning the element after the
      first occurrence of `child`; None when `child` is last or absent. */
  method GetNextChild(ns: Nodes, p: Id, child: Id) returns (r: Option<Id>)
    ensures r == Succ(ChildrenOf(ns, p), child)
  {
    var children := ChildrenOf(ns, p);
    if |children| == 0 {
      return None;
    }
    var found := false;
    var i := 0;
    while i < |children|
      invariant 0 <= i <= |children|
      invariant found <==> child in children[..i]
      invariant found ==> child in children && i == IndexOf(children, child) + 1
    {
      if found {
        return Some(children[i]);
      }
      if children[i] == child {
        found := true;
      }
      assert children[..i + 1] == children[..i] + [children[i]];
      i := i + 1;
    }
    assert children[..i] == children;
    return None;
  }

  /** `get_previous_child`: the element before the first occurrence of
      `child`; None when `child` is first or absent. */
  method GetPreviousChild(ns: Nodes, p: Id, child: Id) returns (r: Option<Id>)
    ensures r == Pred(ChildrenOf(ns, p), child)
  {
    var children := ChildrenOf(ns, p);
    if |children| == 0 {
      return None;
    }
    var prev: Option<Id> := None;
    var i := 0;
    while i < |children|
      invariant 0 <= i <= |children|
      invariant child !in children[..i]
      invariant prev == if i == 0 then None else Some(children[i - 1])
    {
      if children[i] == child {
        if prev.Some? {
          return prev;
        }
        break;
      }
      assert children[..i + 1] == children[..i] + [children[i]];
      prev := Some(children[i]);
      i := i + 1;
    }
    if i == |children| {
      assert children[..i] == children;
    }
    return None;
  }

  /** `first_child`: the child with no predecessor, None for no children. */
  function FirstChild(ns: Nodes, p: Id): (r: Option<Id>)
    ensures r.None? <==> |ChildrenOf(ns, p)| == 0
    ensures r.Some? ==> r.value in ChildrenOf(ns, p) && Pred(ChildrenOf(ns, p), r.value).None?
  {
    var cs := ChildrenOf(ns, p);
    if |cs| == 0 then None else Some(cs[0])
  }

  /** `last_child`: the child with no successor (in a duplicate-free list),
      None for no children. */
  function LastChild(ns: Nodes, p: Id): (r: Option<Id>)
    ensures r.None? <==> |ChildrenOf(ns, p)| == 0
    ensures r.Some? ==> r.value in ChildrenOf(ns, p)
    ensures r.Some? && NoDup(ChildrenOf(ns, p)) ==> Succ(ChildrenOf(ns, p), r.value).None?
  {
    var cs := ChildrenOf(ns, p);
    if |cs| == 0 then None
    else
      IndexOfUnique(cs, |cs| - 1);
      Some(cs[|cs| - 1])
  }

  /** `has_children`: whether the HAS_PART bucket exists, even if now empty. */
  function HasChildren(ns: Nodes, id: Id): (r: bool) {
    id in ns && ns[id].hasBucket
  }

  /** `a` is `x` or one of its ancestors along the parent links (each step
      strictly up a level). */
  predicate AncestorOrSelf(ns: Nodes, a: Id, x: Id)
    decreases if x in ns then Level(ns[x].kind) + 1 else 0
  {
    || x == a
    || (&& x in ns
        && ns[x].parent.Some?
        && ns[x].parent.value in ns
        && Level(ns[ns[x].parent.value].kind) < Level(ns[x].kind)
        && AncestorOrSelf(ns, a, ns[x].parent.value))
  }

  /** The ancestor relation reads only kinds and parent links, so updating
      other fields of one entity preserves it. */
  lemma AncestorAfterUpdate(ns: Nodes, id: Id, v: Node, a: Id, x: Id)
    requires id in ns && v.kind == ns[id].kind && v.parent == ns[id].parent
    ensures AncestorOrSelf(ns[id := v], a, x) == AncestorOrSelf(ns, a, x)
    decreases if x in ns then Level(ns[x].kind) + 1 else 0
  {
    if x != a && x in ns && ns[x].parent.Some? && ns[x].parent.value in ns
       && Level(ns[ns[x].parent.value].kind) < Level(ns[x].kind) {
      AncestorAfterUpdate(ns, id, v, a, ns[x].parent.value);
    }
  }

  /** `mark_dirty`: sets the flag on the entity and on every ancestor up to
      the root; no other entity and no other field changes. */
  function MarkDirty(ns: Nodes, id: Id): (r: Nodes)
    ensures r.Keys == ns.Keys
    ensures forall n :: n in ns ==> r[n].dirty == (ns[n].dirty || AncestorOrSelf(ns, n, id))
    ensures forall n :: n in ns ==> r[n] == ns[n].(dirty := r[n].dirty)
    decreases if id in ns then Level(ns[id].kind) + 1 else 0
  {
    if id !in ns then ns
    else
      var ns1 := ns[id := ns[id].(dirty := true)];
      var par := ns[id].parent;
      if par.Some? && par.value in ns && Level(ns[par.value].kind) < Level(ns[id].kind) then
        var r := MarkDirty(ns1, par.value);
        MarkDirtyStep(ns, ns1, id, par.value, r);
        r
      else
        ns1
  }

  /** The flag set on `id` plus the flags set from its parent upward are the
      flags set from `id` upward. */
  lemma MarkDirtyStep(ns: Nodes, ns1: Nodes, id: Id, p: Id, r: Nodes)
    requires id in ns && ns1 == ns[id := ns[id].(dirty := true)]
    requires ns[id].parent == Some(p) && p in ns && Level(ns[p].kind) < Level(ns[id].kind)
    requires r.Keys == ns1.Keys
    requires forall n :: n in ns1 ==> r[n].dirty == (ns1[n].dirty || AncestorOrSelf(ns1, n, p))
    requires forall n :: n in ns1 ==> r[n] == ns1[n].(dirty := r[n].dirty)
    ensures forall n :: n in ns ==> r[n].dirty == (ns[n].dirty || AncestorOrSelf(ns, n, id))
    ensures forall n :: n in ns ==> r[n] == ns[n].(dirty := r[n].dirty)
  {
    forall n | n in ns ensures r[n].dirty == (ns[n].dirty || AncestorOrSelf(ns, n, id)) {
      AncestorAfterUpdate(ns, id, ns[id].(dirty := true), n, p);
      assert AncestorOrSelf(ns, n, id) == (n == id || AncestorOrSelf(ns, n, p));
    }
  }

  /** The highest container reached from `x` by following parent links
      while they lead to containers (the loop of `get_root_container`). */
  function TopContainer(ns: Nodes, x: Id): Id
    decreases if x in ns then Level(ns[x].kind) + 1 else 0
  {
    if x in ns && ns[x].parent.Some? && ns[x].parent.value in ns
       && IsContainerKind(ns[ns[x].parent.value].kind)
       && Level(ns[ns[x].parent.value].kind) < Level(ns[x].kind)
    then TopContainer(ns, ns[x].parent.value)
    else x
  }

  /** `get_root_container`: starting from the entity's parent, climb through
      containers; raise when there is no container above the entity, or when
      the highest one is not the chapter. */
  function GetRootContainer(ns: Nodes, self: Id): (r: Result<Id>)
    ensures r.Ok? ==> r.value in ns && ns[r.value].kind == Chapter
  {
    if self !in ns || ns[self].parent.None? then Err(NoRootContainer)
    else
      var p := ns[self].parent.value;
      if p !in ns || !IsContainerKind(ns[p].kind) then Err(NoRootContainer)
      else
        var top := TopContainer(ns, p);
        if top in ns && ns[top].kind == Chapter then Ok(top) else Err(WrongKind)
  }

  /** In a well-formed document every container's climb ends at the root. */
  lemma TopContainerIsRoot(d: Doc, x: Id)
    requires WellFormed(d) && x in d.nodes && IsContainerKind(d.nodes[x].kind)
    ensures TopContainer(d.nodes, x) == d.root
    decreases Level(d.nodes[x].kind)
  {
    if x != d.root {
      ParentLevel(d, x);
      TopContainerIsRoot(d, d.nodes[x].parent.value);
    }
  }

  /** Every entity but the root finds the root chapter; the root itself,
      having no parent, raises. */
  lemma {:induction false} RootContainerFound(d: Doc, x: Id)
    requires WellFormed(d) && x in d.nodes
    ensures x != d.root ==> GetRootContainer(d.nodes, x) == Ok(d.root)
    ensures x == d.root ==> GetRootContainer(d.nodes, x) == Err(NoRootContainer)
  {
    if x != d.root {
      ParentLevel(d, x);
      TopContainerIsRoot(d, d.nodes[x].parent.value);
    }
  }
}
