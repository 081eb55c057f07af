/** The document tree as an arena of entities addressed by identity.

    An entity is a Chapter (the root), a Paragraph, a Sentence or a Tok
    (token). Its child list is the single `HAS_PART` bucket of its property
    list, so `hasBucket` records whether that bucket was ever created: the
    source's `has_children` reads the bucket's existence, not its length.
    Entity equality is identity (`is`), which is `Id` equality here. */
module Entities {
  import opened Wrappers
  import opened Sequences

  type Id = nat

  datatype Kind = Chapter | Paragraph | Sentence | Tok

  /** Depth of each kind below the chapter. */
  function Level(k: Kind): nat {
    match k
    case Chapter => 0
    case Paragraph => 1
    case Sentence => 2
    case Tok => 3
  }

  /** `is_container`: every kind but the token. */
  predicate IsContainerKind(k: Kind) {
    k != Tok
  }

  /** One entity. Container fields (`children`, `hasBucket`) and token fields
      (`word`, cursor and selection) sit side by side; the unused ones keep
      their initial values. `cursorX` is the cursor's horizontal position:
      negative means the cursor is off-canvas (new token, `remove_cursor`,
      `zap`), as the source tests `x < 0`; `highlighted` is the highlight
      rectangle's existence; `selStart`/`selEnd` survive a deselect as in
      the source. */
  datatype Node = Node(
    kind: Kind,
    parent: Option<Id>,
    children: seq<Id>,
    hasBucket: bool,
    word: string,
    cursorIndex: nat,
    cursorX: int,
    highlighted: bool,
    selStart: int,
    selEnd: int,
    dirty: bool)

  /** A fresh container or token as its constructor leaves it. */
  function NewNode(kind: Kind, parent: Option<Id>, word: string): (n: Node)
    ensures n.kind == kind && n.parent == parent && n.word == word
    ensures n.children == [] && !n.hasBucket && !n.highlighted && n.cursorX < 0 && n.cursorIndex == 0
  {
    Node(kind, parent, [], false, word, 0, -5, false, 0, 0, false)
  }

  type Nodes = map<Id, Node>

  /** The arena, its root chapter and the next unused identity. */
  datatype Doc = Doc(nodes: Nodes, root: Id, nextId: Id)

  /** Children of `id`; the empty list for an unknown identity. */
  function ChildrenOf(ns: Nodes, id: Id): seq<Id> {
    if id in ns then ns[id].children else []
  }

  ghost predicate ChildrenOK(ns: Nodes, id: Id)
    requires id in ns
  {
    var n := ns[id];
    && NoDup(n.children)
    && (n.kind == Tok ==> n.children == [])
    && (|n.children| > 0 ==> n.hasBucket)
    && (forall c :: c in n.children ==>
          c in ns && ns[c].parent == Some(id) && Level(ns[c].kind) == Level(n.kind) + 1)
  }

  ghost predicate Attached(ns: Nodes, id: Id)
    requires id in ns
  {
    && ns[id].parent.Some?
    && ns[id].parent.value in ns
    && id in ns[ns[id].parent.value].children
  }

  /** The tree invariant: the root is a parentless chapter; every child list
      is duplicate-free, one level deeper, and back-linked; tokens have none; every other entity
      is in its parent's child list; identities below `nextId` are used. */
  ghost predicate WellFormed(d: Doc) {
    && d.root in d.nodes
    && d.nodes[d.root].kind == Chapter
    && d.nodes[d.root].parent == None
    && (forall id :: id in d.nodes ==> id < d.nextId)
    && (forall id {:trigger ChildrenOK(d.nodes, id)} :: id in d.nodes ==> ChildrenOK(d.nodes, id))
    && (forall id {:trigger Attached(d.nodes, id)} :: id in d.nodes && id != d.root ==> Attached(d.nodes, id))
  }

  /** Concatenation of the child lists of `s`, in order. */
  function Kids(ns: Nodes, s: seq<Id>): seq<Id> {
    if |s| == 0 then [] else ChildrenOf(ns, s[0]) + Kids(ns, s[1..])
  }

  /** The entities at depth `level`, in document order: the tree read as one
      sequence per level. Level 3 is the sequence of all tokens. */
  function LevelSeq(d: Doc, level: nat): seq<Id> {
    if level == 0 then [d.root] else Kids(d.nodes, LevelSeq(d, level - 1))
  }

  function Leaves(d: Doc): seq<Id> {
    LevelSeq(d, 3)
  }

  /** The words of a run of tokens. */
  function Words(ns: Nodes, s: seq<Id>): (r: seq<string>)
    ensures |r| == |s|
    ensures forall i :: 0 <= i < |s| ==> r[i] == if s[i] in ns then ns[s[i]].word else ""
  {
    if |s| == 0 then [] else Words(ns, s[..|s| - 1]) + [if s[|s| - 1] in ns then ns[s[|s| - 1]].word else ""]
  }

  /** The document's text, token by token. */
  function Text(d: Doc): seq<string> {
    Words(d.nodes, Leaves(d))
  }

  /** Arenas that agree on the words of a run of entities give it the same words. */
  lemma WordsSame(ns: Nodes, ns': Nodes, s: seq<Id>)
    requires forall x :: x in s ==> (x in ns <==> x in ns') && (x in ns ==> ns[x].word == ns'[x].word)
    ensures Words(ns, s) == Words(ns', s)
  {
    var a, b := Words(ns, s), Words(ns', s);
    forall i | 0 <= i < |s| ensures a[i] == b[i] {
      assert s[i] in s;
    }
  }

  lemma WordsAppend(ns: Nodes, s: seq<Id>, t: seq<Id>)
    ensures Words(ns, s + t) == Words(ns, s) + Words(ns, t)
  {
    if |t| > 0 {
      assert (s + t)[..|s + t| - 1] == s + t[..|t| - 1];
      WordsAppend(ns, s, t[..|t| - 1]);
    } else {
      assert s + t == s;
    }
  }

  /** The words of a run whose middle part is replaced, the outer parts keeping
      their words. */
  lemma WordsReplace(ns: Nodes, ns': Nodes, a: seq<Id>, m: seq<Id>, b: seq<Id>)
    requires forall x :: x in a ==> x in ns && x in ns' && ns'[x].word == ns[x].word
    requires forall x :: x in b ==> x in ns && x in ns' && ns'[x].word == ns[x].word
    ensures Words(ns', a + m + b) == Words(ns, a) + Words(ns', m) + Words(ns, b)
  {
    WordsAppend(ns', a + m, b);
    WordsAppend(ns', a, m);
    WordsSame(ns, ns', a);
    WordsSame(ns, ns', b);
  }

  // ---------------------------------------------------------------------
  // Facts about Kids and LevelSeq

  lemma KidsAppend(ns: Nodes, s: seq<Id>, t: seq<Id>)
    ensures Kids(ns, s + t) == Kids(ns, s) + Kids(ns, t)
  {
    if |s| > 0 {
      assert (s + t)[1..] == s[1..] + t;
      KidsAppend(ns, s[1..], t);
    } else {
      assert s + t == t;
    }
  }

  lemma KidsMembers(ns: Nodes, s: seq<Id>)
    ensures forall x :: x in Kids(ns, s) ==> exists p :: p in s && x in ChildrenOf(ns, p)
    ensures forall p, x :: p in s && x in ChildrenOf(ns, p) ==> x in Kids(ns, s)
  {
    if |s| > 0 {
      KidsMembers(ns, s[1..]);
      assert forall p :: p in s ==> p == s[0] || p in s[1..];
    }
  }

  /** Two arenas that agree on the child lists of `s` give the same Kids. */
  lemma KidsSame(ns: Nodes, ns': Nodes, s: seq<Id>)
    requires forall p :: p in s ==> ChildrenOf(ns, p) == ChildrenOf(ns', p)
    ensures Kids(ns, s) == Kids(ns', s)
  {
    if |s| > 0 {
      KidsSame(ns, ns', s[1..]);
    }
  }

  /** Kids over a sequence split around one parent. */
  lemma KidsAround(ns: Nodes, s: seq<Id>, k: nat)
    requires k < |s|
    ensures Kids(ns, s) == Kids(ns, s[..k]) + ChildrenOf(ns, s[k]) + Kids(ns, s[k + 1..])
  {
    var t := [s[k]] + s[k + 1..];
    assert s == s[..k] + t;
    KidsAppend(ns, s[..k], t);
    assert t[0] == s[k] && t[1..] == s[k + 1..];
    assert Kids(ns, t) == ChildrenOf(ns, s[k]) + Kids(ns, s[k + 1..]);
  }

  /** Every member of LevelSeq(d, level) is an entity of that depth. */
  lemma LevelSeqKinds(d: Doc, level: nat)
    requires WellFormed(d)
    ensures forall x :: x in LevelSeq(d, level) ==> x in d.nodes && Level(d.nodes[x].kind) == level
  {
    if level > 0 {
      LevelSeqKinds(d, level - 1);
      KidsMembers(d.nodes, LevelSeq(d, level - 1));
      forall x | x in LevelSeq(d, level)
        ensures x in d.nodes && Level(d.nodes[x].kind) == level
      {
        var p :| p in LevelSeq(d, level - 1) && x in ChildrenOf(d.nodes, p);
        assert ChildrenOK(d.nodes, p);
      }
    }
  }

  /** Kids of a duplicate-free run of entities is duplicate-free. */
  lemma KidsNoDup(d: Doc, s: seq<Id>)
    requires WellFormed(d)
    requires NoDup(s)
    requires forall x :: x in s ==> x in d.nodes
    ensures NoDup(Kids(d.nodes, s))
  {
    if |s| > 0 {
      KidsNoDup(d, s[1..]);
      KidsMembers(d.nodes, s[1..]);
      var c := ChildrenOf(d.nodes, s[0]);
      var rest := Kids(d.nodes, s[1..]);
      assert ChildrenOK(d.nodes, s[0]);
      forall x | x in c ensures d.nodes[x].parent == Some(s[0]) {
      }
      forall x | x in rest ensures x in d.nodes && d.nodes[x].parent != Some(s[0]) {
        var p :| p in s[1..] && x in ChildrenOf(d.nodes, p);
        assert ChildrenOK(d.nodes, p);
      }
      assert Kids(d.nodes, s) == c + rest;
      NoDupConcat(c, rest);
    }
  }

  lemma NoDupConcat<T(!new)>(a: seq<T>, b: seq<T>)
    requires NoDup(a) && NoDup(b)
    requires forall x :: x in a ==> x !in b
    ensures NoDup(a + b)
  {
    var r := a + b;
    forall i, j | 0 <= i < j < |r| ensures r[i] != r[j] {
      if j < |a| {
      } else if i >= |a| {
        assert r[i] == b[i - |a|] && r[j] == b[j - |a|];
      } else {
        assert r[i] in a && r[j] == b[j - |a|];
      }
    }
  }

  lemma LevelSeqNoDup(d: Doc, level: nat)
    requires WellFormed(d)
    ensures NoDup(LevelSeq(d, level))
  {
    if level > 0 {
      LevelSeqNoDup(d, level - 1);
      LevelSeqKinds(d, level - 1);
      KidsNoDup(d, LevelSeq(d, level - 1));
    }
  }

  /** Every entity of depth `level` occurs in LevelSeq(d, level). */
  lemma LevelSeqComplete(d: Doc, x: Id)
    requires WellFormed(d) && x in d.nodes
    ensures x in LevelSeq(d, Level(d.nodes[x].kind))
    decreases Level(d.nodes[x].kind)
  {
    if x != d.root {
      assert Attached(d.nodes, x);
      var p := d.nodes[x].parent.value;
      assert ChildrenOK(d.nodes, p);
      LevelSeqComplete(d, p);
      KidsMembers(d.nodes, LevelSeq(d, Level(d.nodes[p].kind)));
    }
  }

  /** An edit that changes no child list of an entity above the level of `s`
      leaves the document order down to that level unchanged. */
  lemma {:induction false} UpperLevelsSame(d: Doc, r: Doc, s: Id, level: nat)
    requires WellFormed(d) && s in d.nodes && r.root == d.root
    requires forall q :: q != s ==> ChildrenOf(r.nodes, q) == ChildrenOf(d.nodes, q)
    requires level <= Level(d.nodes[s].kind)
    ensures LevelSeq(r, level) == LevelSeq(d, level)
  {
    if level > 0 {
      UpperLevelsSame(d, r, s, level - 1);
      LevelSeqKinds(d, level - 1);
      KidsSame(r.nodes, d.nodes, LevelSeq(d, level - 1));
    }
  }

  /** An edit of the child list of `s` alone: the document order is unchanged
      down to the level of `s`, and the next level changes exactly in the
      slice that holds the children of `s`. */
  lemma OneListChanged(d: Doc, r: Doc, s: Id) returns (ls: seq<Id>, k: nat)
    requires WellFormed(d) && s in d.nodes && r.root == d.root
    requires forall q :: q != s ==> ChildrenOf(r.nodes, q) == ChildrenOf(d.nodes, q)
    ensures ls == LevelSeq(d, Level(d.nodes[s].kind)) && k < |ls| && ls[k] == s
    ensures forall level: nat :: level <= Level(d.nodes[s].kind) ==> LevelSeq(r, level) == LevelSeq(d, level)
    ensures LevelSeq(d, Level(d.nodes[s].kind) + 1)
         == Kids(d.nodes, ls[..k]) + ChildrenOf(d.nodes, s) + Kids(d.nodes, ls[k + 1..])
    ensures LevelSeq(r, Level(d.nodes[s].kind) + 1)
         == Kids(d.nodes, ls[..k]) + ChildrenOf(r.nodes, s) + Kids(d.nodes, ls[k + 1..])
  {
    var L := Level(d.nodes[s].kind);
    forall level: nat | level <= L ensures LevelSeq(r, level) == LevelSeq(d, level) {
      UpperLevelsSame(d, r, s, level);
    }
    ls := LevelSeq(d, L);
    LevelSeqComplete(d, s);
    LevelSeqNoDup(d, L);
    k := IndexOf(ls, s);
    KidsAround(d.nodes, ls, k);
    KidsAround(r.nodes, ls, k);
    KidsSame(r.nodes, d.nodes, ls[..k]);
    forall q | q in ls[k + 1..] ensures ChildrenOf(r.nodes, q) == ChildrenOf(d.nodes, q) {
      var j :| 0 <= j < |ls[k + 1..]| && ls[k + 1..][j] == q;
      assert ls[k + 1 + j] == q;
    }
    KidsSame(r.nodes, d.nodes, ls[k + 1..]);
  }

  /** Child lists agree outside `s` when every other entity keeps its list and
      the entities that appear or disappear have none. */
  lemma ChildListFrame(ns: Nodes, ns': Nodes, s: Id)
    requires forall n :: n in ns && n in ns' && n != s ==> ns'[n].children == ns[n].children
    requires forall n :: n in ns' && n !in ns ==> ns'[n].children == []
    requires forall n :: n in ns && n !in ns' ==> ns[n].children == []
    ensures forall q :: q != s ==> ChildrenOf(ns', q) == ChildrenOf(ns, q)
  {
  }

  /** An edit confined to the child list of sentence `s`, seen on the token
      sequence: the tokens before and after that sentence stay put. */
  lemma SentenceEdit(d: Doc, r: Doc, s: Id) returns (a: seq<Id>, b: seq<Id>)
    requires WellFormed(d) && s in d.nodes && d.nodes[s].kind == Sentence && r.root == d.root
    requires forall q :: q != s ==> ChildrenOf(r.nodes, q) == ChildrenOf(d.nodes, q)
    ensures Leaves(d) == a + d.nodes[s].children + b
    ensures Leaves(r) == a + ChildrenOf(r.nodes, s) + b
    ensures NoDup(Leaves(d))
    ensures forall x :: x in Leaves(d) ==> x in d.nodes && d.nodes[x].kind == Tok
  {
    var ls, k := OneListChanged(d, r, s);
    a, b := Kids(d.nodes, ls[..k]), Kids(d.nodes, ls[k + 1..]);
    LevelSeqNoDup(d, 3);
    LevelSeqKinds(d, 3);
  }

  /** The parent of a non-root entity sits one level up. */
  lemma ParentLevel(d: Doc, x: Id)
    requires WellFormed(d) && x in d.nodes && x != d.root
    ensures d.nodes[x].parent.Some?
    ensures var p := d.nodes[x].parent.value;
      p in d.nodes && x in d.nodes[p].children && Level(d.nodes[p].kind) + 1 == Level(d.nodes[x].kind)
  {
    assert Attached(d.nodes, x);
    assert ChildrenOK(d.nodes, d.nodes[x].parent.value);
  }

  /** Exactly the root has no parent. */
  lemma ParentlessIsRoot(d: Doc, x: Id)
    requires WellFormed(d) && x in d.nodes
    ensures d.nodes[x].parent.None? <==> x == d.root
  {
    if x != d.root {
      assert Attached(d.nodes, x);
    }
  }

  /** Only the root is a chapter. */
  lemma ChapterIsRoot(d: Doc, x: Id)
    requires WellFormed(d) && x in d.nodes && d.nodes[x].kind == Chapter
    ensures x == d.root
  {
    if x != d.root {
      ParentLevel(d, x);
    }
  }

  /** Tokens have no children. */
  lemma TokHasNoChildren(d: Doc, x: Id)
    requires WellFormed(d) && x in d.nodes && d.nodes[x].kind == Tok
    ensures d.nodes[x].children == []
  {
    assert ChildrenOK(d.nodes, x);
  }
}
