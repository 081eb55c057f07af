/** `Chapter._apply_selection` (src/ezwrite/ui/chapter.py:205-229): turning a
    mouse press and release into highlighted token ranges. Every existing
    highlight is cleared first; within one token the range between the two
    indices is selected; across tokens the traversal between the endpoints
    selects the tokens strictly between them whole, the earlier endpoint from
    its index to its end and the later one from its start to its index. The
    traversal is the corrected pass of the Traversal module. */
module Selection {
  import opened Wrappers
  import opened Sequences
  import opened Entities
  import opened Tokens
  import opened Sweeps
  import opened Cursor
  import opened Traversal

  /** `Chapter.select_token` on each entity of `ts` in turn: a token is
      selected whole, anything else is passed over. */
  function SelectEach(ns: Nodes, ts: seq<Id>): (r: Nodes)
    ensures r.Keys == ns.Keys
    ensures forall n :: n in ns ==> r[n] == if n in ts && ns[n].kind == Tok then Select(ns[n], 0, -1) else ns[n]
  {
    if |ts| == 0 then ns
    else
      var x := ts[0];
      var ns1 := if x in ns && ns[x].kind == Tok then ns[x := Select(ns[x], 0, -1)] else ns;
      assert forall n :: n in ts <==> n == x || n in ts[1..];
      SelectEach(ns1, ts[1..])
  }

  /** Two arenas that differ at most in the highlight and the stored
      selection range of their entities. */
  ghost predicate OnlySelection(ns: Nodes, r: Nodes) {
    && r.Keys == ns.Keys
    && forall n :: n in ns ==> r[n] == ns[n].(highlighted := r[n].highlighted, selStart := r[n].selStart, selEnd := r[n].selEnd)
  }

  /** `_apply_selection(press, release)` on the chapter: the chapter's
      `deselect_all`, then the selection proper. The traversal reads only the
      tree, which deselecting does not change, so it is run over the
      sentences of `d`. The source always returns true. */
  function ApplySelection(d: Doc, press: RelativeCursor, release: RelativeCursor): (r: Doc)
    requires press.token in d.nodes && release.token in d.nodes
    ensures r.root == d.root && r.nextId == d.nextId && r.nodes.Keys == d.nodes.Keys
    ensures press.token == release.token && press.wordIndex == release.wordIndex ==> r.nodes == Cleared(d)
    ensures press.token != release.token || press.wordIndex != release.wordIndex ==>
      r.nodes[press.token].highlighted && r.nodes[release.token].highlighted
    ensures forall n ::
      (&& n in d.nodes && n != press.token && n != release.token
       && (press.token != release.token ==> n !in Traverse(press.token, release.token, Sentences(d)).called))
      ==> r.nodes[n] == Cleared(d)[n]
  {
    var ns := Cleared(d);
    var a := press.token;
    var b := release.token;
    if a == b then d.(nodes := Within(ns, a, press.wordIndex, release.wordIndex))
    else
      var tr := Traverse(a, b, Sentences(d));
      d.(nodes := Across(ns, tr.first, tr.called, press, release))
  }

  /** The chapter's `deselect_all`. */
  function Cleared(d: Doc): (ns: Nodes)
    ensures ns.Keys == d.nodes.Keys
  {
    DeselectAll(d, d.root).nodes
  }

  /** Press and release in the same token `a`: nothing at the same index,
      otherwise the range from the smaller index to the larger. */
  function Within(ns: Nodes, a: Id, pi: nat, ri: nat): (r: Nodes)
    requires a in ns
  {
    if ri == pi then ns
    else if ri < pi then SelectWithin(ns, a, ri, pi)
    else SelectWithin(ns, a, pi, ri)
  }

  /** Press and release in different tokens, once the traversal has called
      back on `called` and recorded `first`. */
  function Across(ns: Nodes, first: Option<Id>, called: seq<Id>, press: RelativeCursor, release: RelativeCursor): (r: Nodes)
    requires press.token in ns && release.token in ns && press.token != release.token
  {
    var ns2 := SelectEach(ns, called);
    if first != Some(press.token) then SelectEnds(ns2, release.token, release.wordIndex, press.token, press.wordIndex)
    else SelectEnds(ns2, press.token, press.wordIndex, release.token, release.wordIndex)
  }

  /** `token.select(i, j)` on one token. */
  function SelectWithin(ns: Nodes, a: Id, i: int, j: int): (r: Nodes)
    requires a in ns
    ensures r.Keys == ns.Keys && r[a] == Select(ns[a], i, j)
    ensures forall n :: n in ns && n != a ==> r[n] == ns[n]
  {
    ns[a := Select(ns[a], i, j)]
  }

  /** The two endpoint selections: the earlier token `e` from index `ie` to
      its end, then the later token `l` from its start to index `il`. */
  function SelectEnds(ns: Nodes, e: Id, ie: int, l: Id, il: int): (r: Nodes)
    requires e in ns && l in ns && e != l
    ensures r.Keys == ns.Keys
    ensures r[e] == Select(ns[e], ie, -1) && r[l] == Select(ns[l], 0, il)
    ensures forall n :: n in ns && n != e && n != l ==> r[n] == ns[n]
  {
    SelectWithin(SelectWithin(ns, e, ie, -1), l, 0, il)
  }

  /** The selection does not depend on which end was pressed: swapping the
      press and the release gives the same document. */
  lemma ApplySelectionSymmetric(d: Doc, press: RelativeCursor, release: RelativeCursor)
    requires WellFormed(d)
    requires press.token in d.nodes && d.nodes[press.token].kind == Tok
    requires release.token in d.nodes && d.nodes[release.token].kind == Tok
    ensures ApplySelection(d, press, release) == ApplySelection(d, release, press)
  {
    var a := press.token;
    var b := release.token;
    if a != b {
      LevelSeqComplete(d, a);
      LevelSeqComplete(d, b);
      TraverseSymmetric(a, b, Sentences(d));
      var tr := Traverse(a, b, Sentences(d));
      TraverseBetween(d, a, b);
      AcrossSymmetric(Cleared(d), tr.first, tr.called, press, release);
    }
  }

  /** The two orders agree once the traversal has named one of the two
      endpoints as first. */
  lemma AcrossSymmetric(ns: Nodes, first: Option<Id>, called: seq<Id>, press: RelativeCursor, release: RelativeCursor)
    requires press.token in ns && release.token in ns && press.token != release.token
    requires first == Some(press.token) || first == Some(release.token)
    ensures Across(ns, first, called, press, release) == Across(ns, first, called, release, press)
  {
  }

  /** In a well-formed document `deselect_all` on the chapter leaves no
      token highlighted and keeps the tree. */
  lemma DeselectedEverywhere(d: Doc)
    requires WellFormed(d)
    ensures OnlySelection(d.nodes, Cleared(d))
    ensures forall n :: n in d.nodes && d.nodes[n].kind == Tok ==> !Cleared(d)[n].highlighted
  {
    TokensUnderRoot(d);
    forall n | n in d.nodes && d.nodes[n].kind == Tok ensures n in TokensUnder(d.nodes, d.root) {
      LevelSeqComplete(d, n);
    }
  }

  /** Changing selections only keeps the tree. */
  lemma SelectionKeepsTree(d: Doc, ns: Nodes)
    requires OnlySelection(d.nodes, ns)
    ensures TreeKept(d, d.(nodes := ns))
  {
  }

  /** Press and release in one token: at the same index nothing is
      selected; otherwise exactly that token is, over the range between the
      two indices whichever comes first. The tree is kept. */
  lemma SelectionInOneToken(d: Doc, press: RelativeCursor, release: RelativeCursor)
    requires WellFormed(d) && press.token in d.nodes && d.nodes[press.token].kind == Tok
    requires release.token == press.token
    ensures var r := ApplySelection(d, press, release);
      && TreeKept(d, r)
      && (forall n :: n in d.nodes && d.nodes[n].kind == Tok ==>
            (r.nodes[n].highlighted <==> n == press.token && press.wordIndex != release.wordIndex))
      && (press.wordIndex != release.wordIndex ==>
            var w := d.nodes[press.token].word;
            var lo := if press.wordIndex < release.wordIndex then press.wordIndex else release.wordIndex;
            var hi := if press.wordIndex < release.wordIndex then release.wordIndex else press.wordIndex;
            r.nodes[press.token].selStart == ClampIndex(|w|, lo) && r.nodes[press.token].selEnd == ClampIndex(|w|, hi))
  {
    DeselectedEverywhere(d);
    var ns := Cleared(d);
    var r := Within(ns, press.token, press.wordIndex, release.wordIndex);
    WithinKeeps(ns, press.token, press.wordIndex, release.wordIndex);
    OnlySelectionTrans(d.nodes, ns, r);
    SelectionKeepsTree(d, r);
  }

  lemma WithinKeeps(ns: Nodes, a: Id, pi: nat, ri: nat)
    requires a in ns
    ensures OnlySelection(ns, Within(ns, a, pi, ri))
  {
    if pi != ri {
      var r := Within(ns, a, pi, ri);
      assert r[a] == Select(ns[a], if ri < pi then ri else pi, if ri < pi then pi else ri);
    }
  }

  /** The index the cursor of endpoint token `x` was at. */
  function IndexAt(x: Id, press: RelativeCursor, release: RelativeCursor): nat {
    if x == press.token then press.wordIndex else release.wordIndex
  }

  /** Press and release in different tokens: exactly the tokens from the
      earlier endpoint to the later one, in document order, are selected;
      the earlier from its index to the end of its word, the later from its
      start to its index, and every token in between whole. The tree is
      kept. */
  lemma SelectionAcrossTokens(d: Doc, press: RelativeCursor, release: RelativeCursor)
    requires WellFormed(d)
    requires press.token in d.nodes && d.nodes[press.token].kind == Tok
    requires release.token in d.nodes && d.nodes[release.token].kind == Tok
    requires press.token != release.token
    ensures press.token in Leaves(d) && release.token in Leaves(d)
    ensures var r := ApplySelection(d, press, release);
      var L := Leaves(d);
      var lo := Lo(L, press.token, release.token);
      var hi := Hi(L, press.token, release.token);
      && lo < hi < |L|
      && TreeKept(d, r)
      && AcrossResult(d.nodes, r.nodes, L, lo, hi, press, release)
  {
    var tr := AcrossTraversal(d, press.token, release.token);
    var L := Leaves(d);
    AcrossOutcome(d, press, release, tr, L, Lo(L, press.token, release.token), Hi(L, press.token, release.token));
  }

  /** The selection across tokens, given what the traversal reported. */
  lemma AcrossOutcome(d: Doc, press: RelativeCursor, release: RelativeCursor, tr: Trav, L: seq<Id>, lo: nat, hi: nat)
    requires WellFormed(d)
    requires press.token in d.nodes && release.token in d.nodes && press.token != release.token
    requires tr == Traverse(press.token, release.token, Sentences(d))
    requires lo < hi < |L| && NoDup(L) && (forall x :: x in L ==> x in d.nodes && d.nodes[x].kind == Tok)
    requires (L[lo] == press.token && L[hi] == release.token) || (L[lo] == release.token && L[hi] == press.token)
    requires tr.first == Some(L[lo]) && tr.called == L[lo + 1..hi]
    ensures var r := ApplySelection(d, press, release);
      TreeKept(d, r) && AcrossResult(d.nodes, r.nodes, L, lo, hi, press, release)
  {
    var ns := Cleared(d);
    var rs := Across(ns, tr.first, tr.called, press, release);
    assert ApplySelection(d, press, release) == d.(nodes := rs);
    DeselectedEverywhere(d);
    AcrossFacts(d.nodes, ns, tr.first, tr.called, L, lo, hi, press, release);
    SelectionKeepsTree(d, rs);
  }

  /** What the traversal between two distinct tokens hands
      `_apply_selection`: the earlier endpoint first and the tokens strictly
      between them, over a duplicate-free sequence of tokens. */
  lemma AcrossTraversal(d: Doc, a: Id, b: Id) returns (tr: Trav)
    requires WellFormed(d)
    requires a in d.nodes && d.nodes[a].kind == Tok
    requires b in d.nodes && d.nodes[b].kind == Tok
    requires a != b
    ensures a in Leaves(d) && b in Leaves(d)
    ensures tr == Traverse(a, b, Sentences(d))
    ensures var L := Leaves(d);
      var lo := Lo(L, a, b);
      var hi := Hi(L, a, b);
      && lo < hi < |L|
      && NoDup(L) && (forall x :: x in L ==> x in d.nodes && d.nodes[x].kind == Tok)
      && ((L[lo] == a && L[hi] == b) || (L[lo] == b && L[hi] == a))
      && tr.first == Some(L[lo]) && tr.called == L[lo + 1..hi]
  {
    var L := Leaves(d);
    TraverseBetween(d, a, b);
    assert NoDup(L) by { LevelSeqNoDup(d, 3); }
    assert forall x :: x in L ==> x in d.nodes && d.nodes[x].kind == Tok by { LevelSeqKinds(d, 3); }
    tr := Traverse(a, b, Sentences(d));
    var i := IndexOf(L, a);
    var j := IndexOf(L, b);
    assert L[i] == a && L[j] == b;
  }

  /** The selection across tokens `L[lo]` and `L[hi]` as it should come
      out: highlighted are exactly `L[lo..hi]` inclusive, the earlier from
      its index to the end, the later from the start to its index, every
      token in between whole. */
  ghost predicate AcrossResult(ns: Nodes, r: Nodes, L: seq<Id>, lo: nat, hi: nat, press: RelativeCursor, release: RelativeCursor)
    requires lo < hi < |L|
  {
    && (forall n :: n in ns && n in r && ns[n].kind == Tok ==> (r[n].highlighted <==> n in L[lo..hi + 1]))
    && EndsResult(ns, r, L[lo], L[hi], IndexAt(L[lo], press, release), IndexAt(L[hi], press, release))
    && (forall k :: lo < k < hi ==> L[k] in ns && L[k] in r && r[L[k]].selStart == 0 && r[L[k]].selEnd == |ns[L[k]].word|)
  }

  /** The earlier endpoint `e` selected from `ie` to its end, the later
      endpoint `l` from its start to `il`. */
  ghost predicate EndsResult(ns: Nodes, r: Nodes, e: Id, l: Id, ie: int, il: int) {
    && e in ns && e in r && l in ns && l in r
    && r[e].selStart == ClampIndex(|ns[e].word|, ie) && r[e].selEnd == |ns[e].word|
    && r[l].selStart == 0 && r[l].selEnd == ClampIndex(|ns[l].word|, il)
  }

  /** The node-level content of `SelectionAcrossTokens`. */
  lemma AcrossFacts(d0: Nodes, ns: Nodes, first: Option<Id>, called: seq<Id>, L: seq<Id>, lo: nat, hi: nat,
                    press: RelativeCursor, release: RelativeCursor)
    requires OnlySelection(d0, ns)
    requires forall n :: n in d0 && d0[n].kind == Tok ==> !ns[n].highlighted
    requires NoDup(L) && lo < hi < |L| && forall x :: x in L ==> x in d0 && d0[x].kind == Tok
    requires press.token != release.token
    requires (L[lo] == press.token && L[hi] == release.token) || (L[lo] == release.token && L[hi] == press.token)
    requires first == Some(L[lo]) && called == L[lo + 1..hi]
    ensures OnlySelection(d0, Across(ns, first, called, press, release))
    ensures AcrossResult(d0, Across(ns, first, called, press, release), L, lo, hi, press, release)
  {
    AcrossIsEnds(ns, first, called, L[lo], L[hi], press, release);
    EndsFacts(d0, ns, called, L, lo, hi, press, release);
  }

  /** `Across` selects the endpoint named first from its index on. */
  lemma AcrossIsEnds(ns: Nodes, first: Option<Id>, called: seq<Id>, e: Id, l: Id, press: RelativeCursor, release: RelativeCursor)
    requires press.token in ns && release.token in ns && press.token != release.token
    requires (e == press.token && l == release.token) || (e == release.token && l == press.token)
    requires first == Some(e)
    ensures Across(ns, first, called, press, release) ==
      SelectEnds(SelectEach(ns, called), e, IndexAt(e, press, release), l, IndexAt(l, press, release))
  {
  }

  lemma EndsFacts(d0: Nodes, ns: Nodes, called: seq<Id>, L: seq<Id>, lo: nat, hi: nat, press: RelativeCursor, release: RelativeCursor)
    requires OnlySelection(d0, ns)
    requires forall n :: n in d0 && d0[n].kind == Tok ==> !ns[n].highlighted
    requires NoDup(L) && lo < hi < |L| && forall x :: x in L ==> x in d0 && d0[x].kind == Tok
    requires called == L[lo + 1..hi]
    ensures var r := SelectEnds(SelectEach(ns, called), L[lo], IndexAt(L[lo], press, release), L[hi], IndexAt(L[hi], press, release));
      && OnlySelection(d0, r)
      && AcrossResult(d0, r, L, lo, hi, press, release)
  {
    var ie := IndexAt(L[lo], press, release);
    var il := IndexAt(L[hi], press, release);
    Between(L, lo, hi);
    var ns2 := SelectEach(ns, called);
    var r := SelectEnds(ns2, L[lo], ie, L[hi], il);
    SelectingKeeps(ns, called, L[lo], ie, L[hi], il);
    OnlySelectionTrans(d0, ns, ns2);
    OnlySelectionTrans(d0, ns2, r);
    assert forall n :: n in L[lo..hi + 1] <==> n == L[lo] || n == L[hi] || n in called;
    forall k | lo < k < hi ensures L[k] in d0 && L[k] in r && r[L[k]].selStart == 0 && r[L[k]].selEnd == |d0[L[k]].word| {
      assert L[k] in L;
    }
  }

  /** Selecting changes nothing but selections. */
  lemma SelectingKeeps(ns: Nodes, called: seq<Id>, e: Id, ie: int, l: Id, il: int)
    requires e in ns && l in ns && e != l
    ensures OnlySelection(ns, SelectEach(ns, called))
    ensures OnlySelection(SelectEach(ns, called), SelectEnds(SelectEach(ns, called), e, ie, l, il))
  {
    EachKeeps(ns, called);
    EndsKeep(SelectEach(ns, called), e, ie, l, il);
  }

  lemma EachKeeps(ns: Nodes, called: seq<Id>)
    ensures OnlySelection(ns, SelectEach(ns, called))
  {
    var r := SelectEach(ns, called);
    forall n | n in ns
      ensures r[n] == ns[n].(highlighted := r[n].highlighted, selStart := r[n].selStart, selEnd := r[n].selEnd)
    {
      if n in called && ns[n].kind == Tok {
        assert r[n] == Select(ns[n], 0, -1);
      }
    }
  }

  lemma EndsKeep(ns: Nodes, e: Id, ie: int, l: Id, il: int)
    requires e in ns && l in ns && e != l
    ensures OnlySelection(ns, SelectEnds(ns, e, ie, l, il))
  {
    var r := SelectEnds(ns, e, ie, l, il);
    forall n | n in ns
      ensures r[n] == ns[n].(highlighted := r[n].highlighted, selStart := r[n].selStart, selEnd := r[n].selEnd)
    {
      if n == e {
        assert r[n] == Select(ns[n], ie, -1);
      } else if n == l {
        assert r[n] == Select(ns[n], 0, il);
      }
    }
  }

  lemma OnlySelectionTrans(a: Nodes, b: Nodes, c: Nodes)
    requires OnlySelection(a, b) && OnlySelection(b, c)
    ensures OnlySelection(a, c)
  {
  }

  /** In a duplicate-free list the entries strictly between two positions
      are the entries of the closed range other than its two ends. */
  lemma Between(L: seq<Id>, lo: nat, hi: nat)
    requires NoDup(L) && lo < hi < |L|
    ensures L[lo..hi + 1] == [L[lo]] + L[lo + 1..hi] + [L[hi]]
    ensures L[lo] !in L[lo + 1..hi] && L[hi] !in L[lo + 1..hi]
    ensures forall k :: lo < k < hi ==> L[k] in L[lo + 1..hi]
  {
    assert L[lo..hi + 1] == [L[lo]] + L[lo + 1..hi] + [L[hi]];
    forall k | lo < k < hi ensures L[k] != L[lo] && L[k] != L[hi] {
    }
  }
}
