/** The container sweeps: `remove_cursor_except`, `deselect_all` and
    `get_selected`. Each container forwards the call to its children in
    order (chapter to paragraphs, paragraph to sentences) and a sentence
    applies it to its tokens, so a sweep from a container visits the tokens
    below it in document order. The model computes that token run with
    `Descend` and folds the per-token step over it. */
module Sweeps {
  import opened Wrappers
  import opened Sequences
  import opened Entities
  import opened Tokens

  /** `k` levels below the entities `s`, in order. */
  function Descend(ns: Nodes, s: seq<Id>, k: nat): seq<Id> {
    if k == 0 then s else Kids(ns, Descend(ns, s, k - 1))
  }

  /** How many levels below an entity of kind `k` the tokens sit. */
  function Depth(k: Kind): nat {
    3 - Level(k)
  }

  /** The tokens below `c` in document order, as the forwarding reaches them. */
  function TokensUnder(ns: Nodes, c: Id): seq<Id> {
    if c in ns then Descend(ns, [c], Depth(ns[c].kind)) else []
  }

  lemma {:induction false} DescendAppend(ns: Nodes, a: seq<Id>, b: seq<Id>, k: nat)
    ensures Descend(ns, a + b, k) == Descend(ns, a, k) + Descend(ns, b, k)
  {
    if k > 0 {
      DescendAppend(ns, a, b, k - 1);
      KidsAppend(ns, Descend(ns, a, k - 1), Descend(ns, b, k - 1));
    }
  }

  /** Descending `k + 1` levels is descending `k` levels from the children. */
  lemma {:induction false} DescendFront(ns: Nodes, s: seq<Id>, k: nat)
    ensures Descend(ns, s, k + 1) == Descend(ns, Kids(ns, s), k)
  {
    if k > 0 {
      DescendFront(ns, s, k - 1);
    }
  }

  /** From the root the sweep reaches exactly the document's tokens. */
  lemma {:induction false} DescendIsLevelSeq(d: Doc, k: nat)
    ensures Descend(d.nodes, [d.root], k) == LevelSeq(d, k)
  {
    if k > 0 {
      DescendIsLevelSeq(d, k - 1);
    }
  }

  lemma TokensUnderRoot(d: Doc)
    requires WellFormed(d)
    ensures TokensUnder(d.nodes, d.root) == Leaves(d)
  {
    DescendIsLevelSeq(d, 3);
  }

  /** The forwarding: the tokens below a container are the tokens below
      each of its children, child after child. */
  lemma TokensUnderForwards(d: Doc, c: Id)
    requires WellFormed(d) && c in d.nodes && d.nodes[c].kind != Tok
    ensures TokensUnder(d.nodes, c) == Descend(d.nodes, d.nodes[c].children, Depth(d.nodes[c].kind) - 1)
    ensures forall x :: x in d.nodes[c].children ==>
      TokensUnder(d.nodes, x) == Descend(d.nodes, [x], Depth(d.nodes[c].kind) - 1)
  {
    var ns := d.nodes;
    var k := Depth(ns[c].kind) - 1;
    DescendFront(ns, [c], k);
    KidsSingle(ns, c);
    assert ChildrenOK(ns, c);
    forall x | x in ns[c].children ensures TokensUnder(ns, x) == Descend(ns, [x], k) {
      assert Depth(ns[x].kind) == k;
    }
  }

  lemma KidsSingle(ns: Nodes, c: Id)
    ensures Kids(ns, [c]) == ChildrenOf(ns, c)
  {
    assert Kids(ns, [c]) == ChildrenOf(ns, c) + Kids(ns, []);
    assert ChildrenOf(ns, c) + [] == ChildrenOf(ns, c);
  }

  /** The two per-token steps the sweeps apply. */
  datatype TokOp = ClearCursor | ClearHighlight

  function Apply(op: TokOp, n: Node): (r: Node)
    ensures r.kind == n.kind && r.children == n.children && r.parent == n.parent && r.word == n.word
  {
    match op
    case ClearCursor => RemoveCursor(n)
    case ClearHighlight => Deselect(n).1
  }

  /** Both steps are idempotent, which is what lets a token be visited twice
      without harm. */
  lemma ApplyIdempotent(op: TokOp, n: Node)
    ensures Apply(op, Apply(op, n)) == Apply(op, n)
  {
  }

  /** The step on token `x` unless it is the excepted one. */
  function StepAt(ns: Nodes, x: Id, skip: Option<Id>, op: TokOp): Nodes {
    if x in ns && Some(x) != skip && ns[x].kind == Tok then ns[x := Apply(op, ns[x])] else ns
  }

  /** The step applied to the tokens `toks` one after the other. The result
      is described entity by entity: the tokens of the run other than the
      excepted one have had the step applied once, everything else is as it
      was. */
  function Sweep(ns: Nodes, toks: seq<Id>, skip: Option<Id>, op: TokOp): (r: Nodes)
    ensures r.Keys == ns.Keys
    ensures forall n :: n in ns ==>
      r[n] == (if n in toks && Some(n) != skip && ns[n].kind == Tok then Apply(op, ns[n]) else ns[n])
  {
    if |toks| == 0 then ns
    else
      var init := toks[..|toks| - 1];
      var x := toks[|toks| - 1];
      var r0 := Sweep(ns, init, skip, op);
      assert forall n :: n in toks <==> n in init || n == x;
      if x in ns then
        ApplyIdempotent(op, ns[x]);
        StepAt(r0, x, skip, op)
      else StepAt(r0, x, skip, op)
  }

  /** Sweeping a concatenation is sweeping its parts in turn, which is how
      a container's sweep is its children's sweeps one after the other. */
  lemma SweepAppend(ns: Nodes, a: seq<Id>, b: seq<Id>, skip: Option<Id>, op: TokOp)
    ensures Sweep(ns, a + b, skip, op) == Sweep(Sweep(ns, a, skip, op), b, skip, op)
  {
    var m := Sweep(ns, a, skip, op);
    var l, r := Sweep(ns, a + b, skip, op), Sweep(m, b, skip, op);
    forall n | n in ns ensures l[n] == r[n] {
      assert n in a + b <==> n in a || n in b;
      assert m[n].kind == ns[n].kind;
      ApplyIdempotent(op, ns[n]);
    }
    assert l.Keys == r.Keys;
  }

  /** `remove_cursor_except(tok)` on container `c`: every token below `c`
      except `tok` loses its cursor. */
  function RemoveCursorExcept(d: Doc, c: Id, tok: Id): (r: Doc)
    ensures r.root == d.root && r.nextId == d.nextId && r.nodes.Keys == d.nodes.Keys
    ensures forall n :: n in TokensUnder(d.nodes, c) && n != tok && n in r.nodes && r.nodes[n].kind == Tok ==>
      r.nodes[n].cursorX < 0
    ensures forall n :: n in d.nodes ==> r.nodes[n] == d.nodes[n].(cursorX := r.nodes[n].cursorX)
    ensures forall n :: n in d.nodes && (n !in TokensUnder(d.nodes, c) || n == tok) ==> r.nodes[n] == d.nodes[n]
  {
    d.(nodes := Sweep(d.nodes, TokensUnder(d.nodes, c), Some(tok), ClearCursor))
  }

  /** `deselect_all` on container `c`: no token below `c` stays highlighted. */
  function DeselectAll(d: Doc, c: Id): (r: Doc)
    ensures r.root == d.root && r.nextId == d.nextId && r.nodes.Keys == d.nodes.Keys
    ensures forall n :: n in TokensUnder(d.nodes, c) && n in r.nodes && r.nodes[n].kind == Tok ==> !r.nodes[n].highlighted
    ensures forall n :: n in d.nodes ==> r.nodes[n] == d.nodes[n].(highlighted := r.nodes[n].highlighted)
    ensures forall n :: n in d.nodes && n !in TokensUnder(d.nodes, c) ==> r.nodes[n] == d.nodes[n]
  {
    d.(nodes := Sweep(d.nodes, TokensUnder(d.nodes, c), None, ClearHighlight))
  }

  /** Container `get_selected` over the child list `cs`: each child's
      contribution, in order. `k` counts the container levels left below
      `cs`; in a well-formed document it is never exhausted. */
  function GetSelected(ns: Nodes, cs: seq<Id>, k: nat): (r: seq<Id>)
    ensures forall x :: x in r ==> x in ns && ns[x].kind == Tok && ns[x].highlighted
    decreases k, |cs|
  {
    if |cs| == 0 then [] else SelectedOf(ns, cs[0], k) + GetSelected(ns, cs[1..], k)
  }

  /** One child's contribution: a token contributes its own `get_selected`,
      a container its container `get_selected`. */
  function SelectedOf(ns: Nodes, x: Id, k: nat): (r: seq<Id>)
    ensures forall y :: y in r ==> y in ns && ns[y].kind == Tok && ns[y].highlighted
    decreases k, 0
  {
    if x in ns && ns[x].kind == Tok then TokSelected(ns[x], x)
    else if x in ns && k > 0 then GetSelected(ns, ns[x].children, k - 1)
    else []
  }

  /** The highlighted entries of a run, in order. */
  function Highlighted(ns: Nodes, s: seq<Id>): (r: seq<Id>)
    ensures |r| <= |s|
  {
    if |s| == 0 then []
    else (if s[0] in ns && ns[s[0]].highlighted then [s[0]] else []) + Highlighted(ns, s[1..])
  }

  lemma {:induction false} HighlightedAppend(ns: Nodes, a: seq<Id>, b: seq<Id>)
    ensures Highlighted(ns, a + b) == Highlighted(ns, a) + Highlighted(ns, b)
  {
    if |a| > 0 {
      assert (a + b)[1..] == a[1..] + b;
      HighlightedAppend(ns, a[1..], b);
    } else {
      assert a + b == b;
    }
  }

  /** In a well-formed document, `get_selected` on entities `k` levels above
      the tokens returns the highlighted tokens below them in document
      order. */
  lemma {:induction false} GetSelectedIsHighlighted(d: Doc, cs: seq<Id>, k: nat)
    requires WellFormed(d) && k <= 3
    requires forall x :: x in cs ==> x in d.nodes && Level(d.nodes[x].kind) == 3 - k
    ensures GetSelected(d.nodes, cs, k) == Highlighted(d.nodes, Descend(d.nodes, cs, k))
    decreases k, |cs|
  {
    var ns := d.nodes;
    if |cs| > 0 {
      var x := cs[0];
      assert cs == [x] + cs[1..];
      DescendAppend(ns, [x], cs[1..], k);
      HighlightedAppend(ns, Descend(ns, [x], k), Descend(ns, cs[1..], k));
      GetSelectedIsHighlighted(d, cs[1..], k);
      SelectedOfIsHighlighted(d, x, k);
    } else {
      DescendEmpty(ns, k);
    }
  }

  lemma {:induction false} SelectedOfIsHighlighted(d: Doc, x: Id, k: nat)
    requires WellFormed(d) && k <= 3
    requires x in d.nodes && Level(d.nodes[x].kind) == 3 - k
    ensures SelectedOf(d.nodes, x, k) == Highlighted(d.nodes, Descend(d.nodes, [x], k))
    decreases k, 0
  {
    var ns := d.nodes;
    if k == 0 {
      assert Highlighted(ns, [x]) == (if ns[x].highlighted then [x] else []) + Highlighted(ns, []);
    } else {
      assert ChildrenOK(ns, x);
      DescendFront(ns, [x], k - 1);
      KidsSingle(ns, x);
      GetSelectedIsHighlighted(d, ns[x].children, k - 1);
    }
  }

  lemma {:induction false} DescendEmpty(ns: Nodes, k: nat)
    ensures Descend(ns, [], k) == []
  {
    if k > 0 {
      DescendEmpty(ns, k - 1);
    }
  }

  /** A container's `get_selected`: its highlighted tokens in document order. */
  lemma GetSelectedOfContainer(d: Doc, c: Id)
    requires WellFormed(d) && c in d.nodes && d.nodes[c].kind != Tok
    ensures GetSelected(d.nodes, d.nodes[c].children, Depth(d.nodes[c].kind) - 1)
      == Highlighted(d.nodes, TokensUnder(d.nodes, c))
  {
    TokensUnderForwards(d, c);
    assert ChildrenOK(d.nodes, c);
    GetSelectedIsHighlighted(d, d.nodes[c].children, Depth(d.nodes[c].kind) - 1);
  }

  /** Entities `k` levels below entities of level `l` are of level `l + k`. */
  lemma {:induction false} DescendLevels(d: Doc, s: seq<Id>, l: nat, k: nat)
    requires WellFormed(d)
    requires forall x :: x in s ==> x in d.nodes && Level(d.nodes[x].kind) == l
    ensures forall y :: y in Descend(d.nodes, s, k) ==> y in d.nodes && Level(d.nodes[y].kind) == l + k
  {
    if k > 0 {
      DescendLevels(d, s, l, k - 1);
      var t := Descend(d.nodes, s, k - 1);
      KidsMembers(d.nodes, t);
      forall y | y in Descend(d.nodes, s, k) ensures y in d.nodes && Level(d.nodes[y].kind) == l + k {
        var p :| p in t && y in ChildrenOf(d.nodes, p);
        assert ChildrenOK(d.nodes, p);
      }
    }
  }

  /** Everything a sweep from `c` reaches is a token. */
  lemma TokensUnderAreTokens(d: Doc, c: Id)
    requires WellFormed(d) && c in d.nodes
    ensures forall y :: y in TokensUnder(d.nodes, c) ==> y in d.nodes && d.nodes[y].kind == Tok
  {
    DescendLevels(d, [c], Level(d.nodes[c].kind), Depth(d.nodes[c].kind));
  }

  /** Descending reads child lists only. */
  lemma {:induction false} DescendSame(ns: Nodes, ns': Nodes, s: seq<Id>, k: nat)
    requires ns.Keys == ns'.Keys
    requires forall n :: n in ns ==> ns'[n].children == ns[n].children
    ensures Descend(ns, s, k) == Descend(ns', s, k)
  {
    if k > 0 {
      DescendSame(ns, ns', s, k - 1);
      KidsSame(ns, ns', Descend(ns, s, k - 1));
    }
  }

  /** A sweep changes token fields only: the tree, and so well-formedness
      and the run of tokens below every entity, stay as they were. */
  lemma SweepKeepsTree(d: Doc, toks: seq<Id>, skip: Option<Id>, op: TokOp, c: Id)
    requires WellFormed(d)
    ensures var r := d.(nodes := Sweep(d.nodes, toks, skip, op));
      && TreeKept(d, r)
      && Leaves(r) == Leaves(d)
      && WellFormed(r)
      && TokensUnder(r.nodes, c) == TokensUnder(d.nodes, c)
  {
    var r := d.(nodes := Sweep(d.nodes, toks, skip, op));
    SameTree(d, r, c);
  }

  /** `r` has the same tree and words as `d`: only cursor, selection and
      dirty fields may differ. */
  ghost predicate TreeKept(d: Doc, r: Doc) {
    && r.root == d.root && r.nextId == d.nextId && r.nodes.Keys == d.nodes.Keys
    && (forall n :: n in d.nodes ==>
          && r.nodes[n].kind == d.nodes[n].kind && r.nodes[n].children == d.nodes[n].children
          && r.nodes[n].parent == d.nodes[n].parent && r.nodes[n].hasBucket == d.nodes[n].hasBucket
          && r.nodes[n].word == d.nodes[n].word)
  }

  /** Keeping the tree keeps well-formedness and every traversal order. */
  lemma SameTree(d: Doc, r: Doc, c: Id)
    requires WellFormed(d) && TreeKept(d, r)
    ensures WellFormed(r)
    ensures TokensUnder(r.nodes, c) == TokensUnder(d.nodes, c)
    ensures Leaves(r) == Leaves(d)
  {
    var ns := d.nodes;
    forall n | n in r.nodes ensures ChildrenOK(r.nodes, n) {
      assert ChildrenOK(ns, n);
    }
    forall n | n in r.nodes && n != r.root ensures Attached(r.nodes, n) {
      assert Attached(ns, n);
    }
    DescendSame(ns, r.nodes, [c], if c in ns then Depth(ns[c].kind) else 0);
    DescendSame(ns, r.nodes, [d.root], 3);
    DescendIsLevelSeq(d, 3);
    DescendIsLevelSeq(r, 3);
  }

  /** After `deselect_all` on a container its `get_selected` is empty. */
  lemma GetSelectedAfterDeselectAll(d: Doc, c: Id)
    requires WellFormed(d) && c in d.nodes && d.nodes[c].kind != Tok
    ensures var r := DeselectAll(d, c);
      GetSelected(r.nodes, r.nodes[c].children, Depth(r.nodes[c].kind) - 1) == []
  {
    var r := DeselectAll(d, c);
    SweepKeepsTree(d, TokensUnder(d.nodes, c), None, ClearHighlight, c);
    GetSelectedOfContainer(r, c);
    TokensUnderAreTokens(d, c);
    NoneHighlighted(r.nodes, TokensUnder(d.nodes, c));
  }

  lemma {:induction false} NoneHighlighted(ns: Nodes, s: seq<Id>)
    requires forall y :: y in s && y in ns ==> !ns[y].highlighted
    ensures Highlighted(ns, s) == []
  {
    if |s| > 0 {
      NoneHighlighted(ns, s[1..]);
    }
  }

  /** After `remove_cursor_except(tok)` on the chapter, `tok` is the only
      token of the document that may still show a cursor. */
  lemma RemoveCursorEverywhere(d: Doc, tok: Id)
    requires WellFormed(d)
    ensures var r := RemoveCursorExcept(d, d.root, tok);
      forall n :: n in r.nodes && r.nodes[n].kind == Tok && n != tok ==> r.nodes[n].cursorX < 0
  {
    TokensUnderRoot(d);
    forall n | n in d.nodes && d.nodes[n].kind == Tok ensures n in Leaves(d) {
      LevelSeqComplete(d, n);
    }
  }
}
