/** Whole-document peer traversal: `next_peer` and `previous_peer` make each
    level of the tree one sequence. The reference for both is the level's
    document-order sequence `LevelSeq`; the methods follow the source's
    algorithm (sibling lookup, else climb to the parent's peer and descend
    into the first non-empty one) and are proved to return the reference's
    successor or predecessor. */
module Peers {
  import opened Wrappers
  import opened Sequences
  import opened Entities
  import opened Navigation

  function Head(s: seq<Id>): Option<Id> {
    if |s| > 0 then Some(s[0]) else None
  }

  function Last(s: seq<Id>): Option<Id> {
    if |s| > 0 then Some(s[|s| - 1]) else None
  }

  /** Successor and predecessor at a known position of a duplicate-free list. */
  lemma SuccPredAt(s: seq<Id>, m: nat)
    requires NoDup(s) && m < |s|
    ensures Succ(s, s[m]) == if m + 1 < |s| then Some(s[m + 1]) else None
    ensures Pred(s, s[m]) == if m > 0 then Some(s[m - 1]) else None
  {
    IndexOfUnique(s, m);
  }

  /** Peeling entry `m` off the front of `s[m..]` or the back of `s[..m + 1]`;
      an entry without children contributes nothing. */
  lemma KidsUnfold(ns: Nodes, s: seq<Id>, m: nat)
    requires m < |s|
    ensures Kids(ns, s[m..]) == ChildrenOf(ns, s[m]) + Kids(ns, s[m + 1..])
    ensures Kids(ns, s[..m + 1]) == Kids(ns, s[..m]) + ChildrenOf(ns, s[m])
    ensures ChildrenOf(ns, s[m]) == [] ==>
      Kids(ns, s[m..]) == Kids(ns, s[m + 1..]) && Kids(ns, s[..m + 1]) == Kids(ns, s[..m])
  {
    assert s[m..][1..] == s[m + 1..];
    assert s[..m + 1] == s[..m] + [s[m]];
    KidsAppend(ns, s[..m], [s[m]]);
  }

  lemma LevelSplit(d: Doc, x: Id, p: Id) returns (s: seq<Id>, k: nat)
    requires WellFormed(d) && x in d.nodes && d.nodes[x].parent == Some(p)
    ensures p in d.nodes && Level(d.nodes[p].kind) + 1 == Level(d.nodes[x].kind)
    ensures s == LevelSeq(d, Level(d.nodes[p].kind)) && NoDup(s)
    ensures forall y :: y in s ==> y in d.nodes && Level(d.nodes[y].kind) == Level(d.nodes[p].kind)
    ensures k < |s| && s[k] == p && x in ChildrenOf(d.nodes, p)
    ensures var lx := LevelSeq(d, Level(d.nodes[x].kind));
      && lx == Kids(d.nodes, s[..k]) + ChildrenOf(d.nodes, p) + Kids(d.nodes, s[k + 1..])
      && NoDup(lx)
  {
    ParentlessIsRoot(d, x);
    ParentLevel(d, x);
    var lp := Level(d.nodes[p].kind);
    LevelSeqComplete(d, p);
    s := LevelSeq(d, lp);
    k := IndexOf(s, p);
    KidsAround(d.nodes, s, k);
    LevelSeqNoDup(d, lp);
    LevelSeqNoDup(d, lp + 1);
    LevelSeqKinds(d, lp);
  }

  /** One step of the forward scan: entry `m` supplies its first child, or
      the scan goes on past it. */
  lemma HeadStep(ns: Nodes, s: seq<Id>, m: nat)
    requires m < |s|
    ensures Head(Kids(ns, s[m..])) ==
      if FirstChild(ns, s[m]).Some? then FirstChild(ns, s[m]) else Head(Kids(ns, s[m + 1..]))
  {
    KidsUnfold(ns, s, m);
  }

  /** One step of the backward scan: entry `m` supplies its last child, or
      the scan goes on before it. */
  lemma LastStep(ns: Nodes, s: seq<Id>, m: nat)
    requires m < |s|
    ensures Last(Kids(ns, s[..m + 1])) ==
      if LastChild(ns, s[m]).Some? then LastChild(ns, s[m]) else Last(Kids(ns, s[..m]))
  {
    KidsUnfold(ns, s, m);
  }

  /** Where `x` sits: its parent `p` is entry `k` of the level above, and the
      level of `x` is the children of the entries before `p`, then the
      children of `p`, then the children of the entries after `p`. */
  lemma Locate(d: Doc, x: Id, p: Id) returns (s: seq<Id>, k: nat)
    requires WellFormed(d) && x in d.nodes && d.nodes[x].parent == Some(p)
    ensures p in d.nodes && Level(d.nodes[p].kind) + 1 == Level(d.nodes[x].kind)
    ensures s == LevelSeq(d, Level(d.nodes[p].kind)) && NoDup(s)
    ensures forall y :: y in s ==> y in d.nodes && Level(d.nodes[y].kind) == Level(d.nodes[p].kind)
    ensures k < |s| && s[k] == p
    ensures Succ(ChildrenOf(d.nodes, p), x).Some? ==>
      Succ(LevelSeq(d, Level(d.nodes[x].kind)), x) == Succ(ChildrenOf(d.nodes, p), x)
    ensures Succ(ChildrenOf(d.nodes, p), x).None? ==>
      Succ(LevelSeq(d, Level(d.nodes[x].kind)), x) == Head(Kids(d.nodes, s[k + 1..]))
    ensures Pred(ChildrenOf(d.nodes, p), x).Some? ==>
      Pred(LevelSeq(d, Level(d.nodes[x].kind)), x) == Pred(ChildrenOf(d.nodes, p), x)
    ensures Pred(ChildrenOf(d.nodes, p), x).None? ==>
      Pred(LevelSeq(d, Level(d.nodes[x].kind)), x) == Last(Kids(d.nodes, s[..k]))
  {
    s, k := LevelSplit(d, x, p);
    var a, c, b := Kids(d.nodes, s[..k]), ChildrenOf(d.nodes, p), Kids(d.nodes, s[k + 1..]);
    SuccConcat(a, c, b, x);
    PredConcat(a, c, b, x);
  }

  /** `next_peer`: the entity after `x` at its own level, in document order;
      None for the root and for the last entity of the level. */
  method NextPeer(d: Doc, x: Id) returns (r: Option<Id>)
    requires WellFormed(d) && x in d.nodes
    ensures r == Succ(LevelSeq(d, Level(d.nodes[x].kind)), x)
    decreases Level(d.nodes[x].kind), 1
  {
    var par := d.nodes[x].parent;
    if par.None? {
      ParentlessIsRoot(d, x);
      return None;
    }
    var p := par.value;
    ghost var s, k := Locate(d, x, p);
    var peer := GetNextChild(d.nodes, p, x);
    if peer.Some? {
      return peer;
    }
    SuccPredAt(s, k);
    var np := NextPeer(d, p);
    r := FirstChildFrom(d, Level(d.nodes[p].kind), s, k + 1, np);
  }

  /** The loop of `next_peer`: starting at entry `m` of the level above
      (`np`), the first child of the first entry that has one. */
  method FirstChildFrom(d: Doc, ghost level: nat, ghost s: seq<Id>, ghost m: nat, np: Option<Id>)
    returns (r: Option<Id>)
    requires WellFormed(d) && s == LevelSeq(d, level) && NoDup(s)
    requires forall y :: y in s ==> y in d.nodes && Level(d.nodes[y].kind) == level
    requires m <= |s| && np == if m < |s| then Some(s[m]) else None
    ensures r == Head(Kids(d.nodes, s[m..]))
    decreases level + 1, 0
  {
    var cur := np;
    ghost var i := m;
    while cur.Some?
      invariant m <= i <= |s|
      invariant cur == if i < |s| then Some(s[i]) else None
      invariant Head(Kids(d.nodes, s[m..])) == Head(Kids(d.nodes, s[i..]))
      decreases |s| - i
    {
      var q := cur.value;
      var fc := FirstChild(d.nodes, q);
      HeadStep(d.nodes, s, i);
      if fc.Some? {
        return fc;
      }
      SuccPredAt(s, i);
      cur := NextPeer(d, q);
      i := i + 1;
    }
    return None;
  }

  /** `previous_peer`: the entity before `x` at its own level, in document
      order; None for the root and for the first entity of the level. */
  method PreviousPeer(d: Doc, x: Id) returns (r: Option<Id>)
    requires WellFormed(d) && x in d.nodes
    ensures r == Pred(LevelSeq(d, Level(d.nodes[x].kind)), x)
    decreases Level(d.nodes[x].kind), 1
  {
    var par := d.nodes[x].parent;
    if par.None? {
      ParentlessIsRoot(d, x);
      return None;
    }
    var p := par.value;
    ghost var s, k := Locate(d, x, p);
    var peer := GetPreviousChild(d.nodes, p, x);
    if peer.Some? {
      return peer;
    }
    SuccPredAt(s, k);
    var pp := PreviousPeer(d, p);
    r := LastChildBefore(d, Level(d.nodes[p].kind), s, k, pp);
  }

  /** The loop of `previous_peer`: going back from entry `m - 1` of the level
      above (`pp`), the last child of the first entry that has one. */
  method LastChildBefore(d: Doc, ghost level: nat, ghost s: seq<Id>, ghost m: nat, pp: Option<Id>)
    returns (r: Option<Id>)
    requires WellFormed(d) && s == LevelSeq(d, level) && NoDup(s)
    requires forall y :: y in s ==> y in d.nodes && Level(d.nodes[y].kind) == level
    requires m <= |s| && pp == if m > 0 then Some(s[m - 1]) else None
    ensures r == Last(Kids(d.nodes, s[..m]))
    decreases level + 1, 0
  {
    var cur := pp;
    ghost var i := m;
    while cur.Some?
      invariant 0 <= i <= m
      invariant cur == if i > 0 then Some(s[i - 1]) else None
      invariant Last(Kids(d.nodes, s[..m])) == Last(Kids(d.nodes, s[..i]))
      decreases i
    {
      var q := cur.value;
      var lc := LastChild(d.nodes, q);
      LastStep(d.nodes, s, i - 1);
      if lc.Some? {
        return lc;
      }
      SuccPredAt(s, i - 1);
      cur := PreviousPeer(d, q);
      i := i - 1;
    }
    return None;
  }

  /** The two traversals undo each other: the previous peer of a next peer is
      the entity itself, and vice versa. */
  lemma PeerRoundTrip(d: Doc, x: Id, level: nat)
    requires WellFormed(d)
    ensures var s := LevelSeq(d, level);
      && (Succ(s, x).Some? ==> Pred(s, Succ(s, x).value) == Some(x))
      && (Pred(s, x).Some? ==> Succ(s, Pred(s, x).value) == Some(x))
  {
    LevelSeqNoDup(d, level);
    SuccPredRoundTrip(LevelSeq(d, level), x);
  }
}
