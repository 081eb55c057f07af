/** `TokenEditor.delete_character_left`, the backspace of the editor, on the
    whole document. With the cursor inside a word one character of the word
    goes. With the cursor at the start of a token the cursor first moves to
    the end of the previous token and the deletion happens there. A token of
    a single character is zapped, and its two neighbours, when it has both
    and they sit in one paragraph, are joined into one token; their
    sentences are merged. Across a paragraph border a token holding a space
    is added instead, and the sentences are merged all the same. */
module Backspace {
  import opened Wrappers
  import opened Sequences
  import opened Entities
  import opened Zapping
  import opened Containers
  import opened Sweeps
  import opened Peers
  import opened Tokens
  import opened Cursor
  import opened SentenceMerge
  import opened TokenEditing

  /** The entity `x` is attached to, if any. */
  function ParentOf(ns: Nodes, x: Id): (r: Option<Id>)
    ensures x in ns ==> r == ns[x].parent
    ensures x !in ns ==> r.None?
  {
    if x in ns then ns[x].parent else None
  }

  /** The paragraph of token `x`: its parent's parent. */
  function ParagraphOf(ns: Nodes, x: Id): (r: Option<Id>)
    ensures r.Some? ==> ParentOf(ns, x).Some? && r == ParentOf(ns, ParentOf(ns, x).value)
  {
    match ParentOf(ns, x)
    case None => None
    case Some(s) => ParentOf(ns, s)
  }

  /** The three tokens around index `j` of the token order and their
      sentences. */
  lemma NeighbourParents(d: Doc, j: nat)
    requires WellFormed(d) && 0 < j && j + 1 < |Leaves(d)|
    ensures var L := Leaves(d);
      && NoDup(L) && (forall x :: x in L ==> x in d.nodes && d.nodes[x].kind == Tok)
      && L[j - 1] != L[j] && L[j] != L[j + 1] && L[j - 1] != L[j + 1]
      && (forall k :: j - 1 <= k <= j + 1 ==>
            && L[k] in d.nodes && d.nodes[L[k]].parent.Some?
            && d.nodes[L[k]].parent.value in d.nodes
            && d.nodes[d.nodes[L[k]].parent.value].kind == Sentence)
  {
    var L := Leaves(d);
    LevelSeqNoDup(d, 3);
    LevelSeqKinds(d, 3);
    forall k | j - 1 <= k <= j + 1
      ensures && L[k] in d.nodes && d.nodes[L[k]].parent.Some?
        && d.nodes[L[k]].parent.value in d.nodes
        && d.nodes[d.nodes[L[k]].parent.value].kind == Sentence
    {
      assert L[k] in L;
      TokParent(d, L[k]);
    }
  }

  /** Around a token whose neighbours are not all in its sentence: the
      previous sentence `PS` ends with the previous token `p` (followed by
      the token `t` itself when `t` is in `PS`), the next sentence `NS`
      starts with the next token `n` (preceded by `t` when `t` is in `NS`),
      and a sentence of `t` that is neither holds `t` alone. */
  lemma NeighbourSpans(d: Doc, j: nat, PS: Id, S: Id, NS: Id) returns (X: seq<Id>, A: seq<Id>, B: seq<Id>, Y: seq<Id>)
    requires WellFormed(d) && 0 < j && j + 1 < |Leaves(d)|
    requires var L := Leaves(d);
      && L[j - 1] in d.nodes && L[j] in d.nodes && L[j + 1] in d.nodes
      && d.nodes[L[j - 1]].parent == Some(PS) && d.nodes[L[j]].parent == Some(S) && d.nodes[L[j + 1]].parent == Some(NS)
    requires PS in d.nodes && S in d.nodes && NS in d.nodes
    requires d.nodes[PS].kind == Sentence && d.nodes[S].kind == Sentence && d.nodes[NS].kind == Sentence
    requires !(PS == S && S == NS)
    ensures var L := Leaves(d);
      var M := if S != PS && S != NS then [L[j]] else [];
      && L == X + A + [L[j - 1], L[j], L[j + 1]] + B + Y && |X| + |A| == j - 1
      && PS != NS
      && d.nodes[PS].children == A + [L[j - 1]] + (if S == PS then [L[j]] else [])
      && d.nodes[NS].children == (if S == NS then [L[j]] else []) + [L[j + 1]] + B
      && (S != PS && S != NS ==> d.nodes[S].children == [L[j]])
      && L == X + d.nodes[PS].children + M + d.nodes[NS].children + Y
  {
    var L := Leaves(d);
    var par := seq(|L|, k requires 0 <= k < |L| => ParentOf(d.nodes, L[k]));
    var aP := SentenceSpan(d, PS);
    var aN := SentenceSpan(d, NS);
    var aS := SentenceSpan(d, S);
    assert forall k :: 0 <= k < |L| ==> par[k] == d.nodes[L[k]].parent;
    X, A, B, Y := RunsAround(L, par, j, PS, S, NS, aP, d.nodes[PS].children, aS, d.nodes[S].children, aN, d.nodes[NS].children);
  }

  /** The index reasoning of `NeighbourSpans` on a list `L` whose entries
      have the parents `par`, each parent owning one contiguous run. */
  lemma RunsAround(L: seq<Id>, par: seq<Option<Id>>, j: nat, PS: Id, S: Id, NS: Id,
                   aP: nat, cp: seq<Id>, aS: nat, cs: seq<Id>, aN: nat, cn: seq<Id>)
      returns (X: seq<Id>, A: seq<Id>, B: seq<Id>, Y: seq<Id>)
    requires |par| == |L| && 0 < j && j + 1 < |L|
    requires par[j - 1] == Some(PS) && par[j] == Some(S) && par[j + 1] == Some(NS)
    requires !(PS == S && S == NS)
    requires aP + |cp| <= |L| && L[aP..aP + |cp|] == cp
    requires forall k :: 0 <= k < |L| ==> (par[k] == Some(PS) <==> aP <= k < aP + |cp|)
    requires aS + |cs| <= |L| && L[aS..aS + |cs|] == cs
    requires forall k :: 0 <= k < |L| ==> (par[k] == Some(S) <==> aS <= k < aS + |cs|)
    requires aN + |cn| <= |L| && L[aN..aN + |cn|] == cn
    requires forall k :: 0 <= k < |L| ==> (par[k] == Some(NS) <==> aN <= k < aN + |cn|)
    ensures var M := if S != PS && S != NS then [L[j]] else [];
      && L == X + A + [L[j - 1], L[j], L[j + 1]] + B + Y && |X| + |A| == j - 1
      && PS != NS
      && cp == A + [L[j - 1]] + (if S == PS then [L[j]] else [])
      && cn == (if S == NS then [L[j]] else []) + [L[j + 1]] + B
      && (S != PS && S != NS ==> cs == [L[j]])
      && L == X + cp + M + cn + Y
  {
    RunsMeet(L, par, j, PS, S, NS, aP, cp, aS, cs, aN, cn);
    if S != PS && S != NS {
      assert cs == L[j..j + 1];
    }
    X, A, B, Y := RunsSplit(L, j, aP, cp, aN, cn, S == PS, S == NS);
  }

  /** Where the three runs start and end around index `j`. */
  lemma RunsMeet(L: seq<Id>, par: seq<Option<Id>>, j: nat, PS: Id, S: Id, NS: Id,
                 aP: nat, cp: seq<Id>, aS: nat, cs: seq<Id>, aN: nat, cn: seq<Id>)
    requires |par| == |L| && 0 < j && j + 1 < |L|
    requires par[j - 1] == Some(PS) && par[j] == Some(S) && par[j + 1] == Some(NS)
    requires !(PS == S && S == NS)
    requires aP + |cp| <= |L| && aS + |cs| <= |L| && aN + |cn| <= |L|
    requires forall k :: 0 <= k < |L| ==> (par[k] == Some(PS) <==> aP <= k < aP + |cp|)
    requires forall k :: 0 <= k < |L| ==> (par[k] == Some(S) <==> aS <= k < aS + |cs|)
    requires forall k :: 0 <= k < |L| ==> (par[k] == Some(NS) <==> aN <= k < aN + |cn|)
    ensures PS != NS && aP <= j - 1 && j + 1 < aN + |cn|
    ensures aP + |cp| == (if S == PS then j + 1 else j)
    ensures aN == (if S == NS then j else j + 1)
    ensures S != PS && S != NS ==> aS == j && |cs| == 1
  {
    assert aP <= j - 1 < aP + |cp| && aN <= j + 1 < aN + |cn|;
    assert PS == NS ==> aP <= j < aP + |cp|;
  }

  /** Cutting `L` at the run boundaries found by `RunsMeet`. */
  lemma RunsSplit(L: seq<Id>, j: nat, aP: nat, cp: seq<Id>, aN: nat, cn: seq<Id>, inP: bool, inN: bool)
      returns (X: seq<Id>, A: seq<Id>, B: seq<Id>, Y: seq<Id>)
    requires 0 < j && j + 1 < |L| && !(inP && inN)
    requires aP <= j - 1 && aP + |cp| == (if inP then j + 1 else j) && L[aP..aP + |cp|] == cp
    requires aN == (if inN then j else j + 1) && j + 1 < aN + |cn| <= |L| && L[aN..aN + |cn|] == cn
    ensures var M := if !inP && !inN then [L[j]] else [];
      && L == X + A + [L[j - 1], L[j], L[j + 1]] + B + Y && |X| + |A| == j - 1
      && cp == A + [L[j - 1]] + (if inP then [L[j]] else [])
      && cn == (if inN then [L[j]] else []) + [L[j + 1]] + B
      && L == X + cp + M + cn + Y
  {
    var eP, eN := aP + |cp|, aN + |cn|;
    X, A, B, Y := L[..aP], L[aP..j - 1], L[j + 2..eN], L[eN..];
    var M := if !inP && !inN then [L[j]] else [];
    assert L == X + A + [L[j - 1], L[j], L[j + 1]] + B + Y by { TriplesCut(L, aP, j, eN); }
    assert cp == A + [L[j - 1]] + (if inP then [L[j]] else []) by { PrevCut(L, aP, j, inP); }
    assert cn == (if inN then [L[j]] else []) + [L[j + 1]] + B by { NextCut(L, j, eN, inN); }
    assert L == X + cp + M + cn + Y by {
      CutFive(L, aP, eP, aN, eN);
      assert L[eP..aN] == M;
    }
  }

  /** `L` cut around the three entries at `j - 1`, `j` and `j + 1`. */
  lemma TriplesCut(L: seq<Id>, a: nat, j: nat, e: nat)
    requires a < j && j + 2 <= e <= |L|
    ensures L == L[..a] + L[a..j - 1] + [L[j - 1], L[j], L[j + 1]] + L[j + 2..e] + L[e..]
  {
    assert L[j - 1..j + 2] == [L[j - 1], L[j], L[j + 1]];
    CutFive(L, a, j - 1, j + 2, e);
  }

  /** The run ending at `j - 1` or, with `inP`, at `j`. */
  lemma PrevCut(L: seq<Id>, a: nat, j: nat, inP: bool)
    requires a < j && j + 1 < |L|
    ensures L[a..if inP then j + 1 else j] == L[a..j - 1] + [L[j - 1]] + (if inP then [L[j]] else [])
  {
    CutTwo(L, a, j - 1, if inP then j + 1 else j);
  }

  /** The run starting at `j + 1` or, with `inN`, at `j`. */
  lemma NextCut(L: seq<Id>, j: nat, e: nat, inN: bool)
    requires 0 < j && j + 2 <= e <= |L|
    ensures L[if inN then j else j + 1..e] == (if inN then [L[j]] else []) + [L[j + 1]] + L[j + 2..e]
  {
    CutTwo(L, if inN then j else j + 1, j + 2, e);
  }

  /** A slice is the concatenation of its two halves. */
  lemma CutTwo(L: seq<Id>, a: nat, b: nat, c: nat)
    requires a <= b <= c <= |L|
    ensures L[a..c] == L[a..b] + L[b..c]
  {
  }

  /** A list is the concatenation of its slices between four cut points. */
  lemma CutFive(L: seq<Id>, a: nat, b: nat, c: nat, e: nat)
    requires a <= b <= c <= e <= |L|
    ensures L == L[..a] + L[a..b] + L[b..c] + L[c..e] + L[e..]
  {
    assert L == L[..a] + L[a..];
    CutTwo(L, a, b, |L|);
    CutTwo(L, b, c, |L|);
    CutTwo(L, c, e, |L|);
  }

  /** The sentence merges that end the cross-sentence branches: when the
      token's own sentence `S` is neither neighbour's it is merged into the
      previous sentence `PS` first, then the next sentence `NS` is. The text
      is unchanged and no cursor moves into or out of a word. */
  method MergeRuns(d: Doc, PS: Id, S: Id, NS: Id, ghost X: seq<Id>, ghost Y: seq<Id>) returns (r: Doc)
    requires WellFormed(d) && PS in d.nodes && S in d.nodes && NS in d.nodes && PS != NS
    requires d.nodes[PS].kind == Sentence && d.nodes[S].kind == Sentence && d.nodes[NS].kind == Sentence
    requires |d.nodes[PS].children| > 0
    requires Leaves(d) == X + d.nodes[PS].children
      + (if S != PS && S != NS then d.nodes[S].children else []) + d.nodes[NS].children + Y
    ensures WellFormed(r) && r.root == d.root && Text(r) == Text(d)
    ensures CursorsInWords(d) ==> CursorsInWords(r)
    ensures forall x :: OnlyCursor(d, x) ==> OnlyCursor(r, x)
  {
    if S != PS && S != NS {
      r := MergeThree(d, PS, S, NS, X, Y);
    } else {
      assert d.nodes[PS].children + [] == d.nodes[PS].children;
      r := MergeSentences(d, PS, NS, X, Y);
    }
  }

  /** `S` merged into `PS`, then `NS` into `PS`. */
  method MergeThree(d: Doc, PS: Id, S: Id, NS: Id, ghost X: seq<Id>, ghost Y: seq<Id>) returns (r: Doc)
    requires WellFormed(d) && PS in d.nodes && S in d.nodes && NS in d.nodes
    requires PS != NS && S != PS && S != NS
    requires d.nodes[PS].kind == Sentence && d.nodes[S].kind == Sentence && d.nodes[NS].kind == Sentence
    requires |d.nodes[PS].children| > 0
    requires Leaves(d) == X + d.nodes[PS].children + d.nodes[S].children + d.nodes[NS].children + Y
    ensures WellFormed(r) && r.root == d.root && Text(r) == Text(d)
    ensures CursorsInWords(d) ==> CursorsInWords(r)
    ensures forall x :: OnlyCursor(d, x) ==> OnlyCursor(r, x)
  {
    var cn := d.nodes[NS].children;
    Assoc(X + d.nodes[PS].children + d.nodes[S].children, cn, Y);
    var r1 := MergeSentences(d, PS, S, X, cn + Y);
    MergeThreeMiddle(d, r1, PS, S, NS, X, Y);
    r := MergeSentences(r1, PS, NS, X, Y);
  }

  /** Between the two merges of `MergeThree`. */
  lemma MergeThreeMiddle(d: Doc, r1: Doc, PS: Id, S: Id, NS: Id, X: seq<Id>, Y: seq<Id>)
    requires NS in d.nodes && d.nodes[NS].kind == Sentence && NS != PS && NS != S
    requires forall q :: q in d.nodes && d.nodes[q].kind == Sentence && q != PS && q != S ==> q in r1.nodes && r1.nodes[q] == d.nodes[q]
    requires PS in r1.nodes && Leaves(r1) == X + r1.nodes[PS].children + (d.nodes[NS].children + Y)
    ensures NS in r1.nodes && r1.nodes[NS] == d.nodes[NS]
    ensures Leaves(r1) == X + r1.nodes[PS].children + r1.nodes[NS].children + Y
  {
    Assoc(X + r1.nodes[PS].children, d.nodes[NS].children, Y);
  }

  /** In a list without duplicates nothing before or after a middle part
      occurs in it. */
  lemma NoDupApart(L: seq<Id>, P: seq<Id>, M: seq<Id>, Q: seq<Id>)
    requires NoDup(L) && L == P + M + Q
    ensures forall x :: x in P ==> x !in M
    ensures forall x :: x in Q ==> x !in M
  {
    forall i, k | 0 <= i < |P| && 0 <= k < |M| ensures P[i] != M[k] {
      assert L[i] == P[i] && L[|P| + k] == M[k];
    }
    forall i, k | 0 <= i < |Q| && 0 <= k < |M| ensures Q[i] != M[k] {
      assert L[|P| + |M| + i] == Q[i] && L[|P| + k] == M[k];
    }
  }

  /** The previous sentence's children after the join: the joined token
      takes the place of `p` (and of `t` when it shared that sentence). */
  lemma JoinedPrev(A: seq<Id>, p: Id, tail: seq<Id>, t: Id, n: Id, J: Id)
    requires forall x :: x in A ==> x != t && x != p && x != n && x != J
    requires J != t && J != p && J != n && tail <= [t]
    ensures p in A + [p] + tail
    ensures FilterOut(InsertBefore(A + [p] + tail, p, J), {t, p, n}) == A + [J]
  {
    var cp := A + [p] + tail;
    assert cp[|A|] == p;
    InsertBeforeAt(cp, p, J, A, tail);
    assert A + [J] + [p] + tail == (A + [J]) + ([p] + tail);
    DropFront(A + [J], [p] + tail, {t, p, n});
  }

  /** Filtering keeps a front part that avoids `drop` and loses a back part
      inside it. */
  lemma DropFront(a: seq<Id>, b: seq<Id>, drop: set<Id>)
    requires forall x :: x in a ==> x !in drop
    requires forall x :: x in b ==> x in drop
    ensures FilterOut(a + b, drop) == a
  {
    FilterOutAppend(a, b, drop);
    FilterOutNone(a, drop);
    FilterOutAll(b, drop);
  }

  /** The next sentence's children after the join: `n` (and `t` when it
      shared that sentence) are gone from its front. */
  lemma JoinedNext(B: seq<Id>, p: Id, t: Id, n: Id, inN: bool)
    requires forall x :: x in B ==> x != t && x != p && x != n
    ensures FilterOut((if inN then [t] else []) + [n] + B, {t, p, n}) == B
    ensures FilterOut([t], {t, p, n}) == []
  {
    var drop := {t, p, n};
    var head: seq<Id> := (if inN then [t] else []) + [n];
    FilterOutAppend(head, B, drop);
    FilterOutAll(head, drop);
    FilterOutNone(B, drop);
    FilterOutAll([t], drop);
  }

  /** The token order after the join, run by run. */
  lemma SplicedRuns(L: seq<Id>, X: seq<Id>, A: seq<Id>, B: seq<Id>, Y: seq<Id>, j: nat, J: Id)
    requires 0 < j && j + 1 < |L| && L == X + A + [L[j - 1], L[j], L[j + 1]] + B + Y
    requires |X| + |A| == j - 1
    ensures L[..j - 1] + [J] + L[j + 2..] == X + (A + [J]) + [] + B + Y
  {
    assert L[..j - 1] == X + A;
    assert L[j + 2..] == B + Y;
  }

  /** The token `t` at index `j` holds one character and its neighbours sit
      in different sentences of one paragraph: `t` goes, its neighbours are
      joined into one token in the previous sentence, and the sentences
      around are merged into the previous one. */
  method JoinAcross(d: Doc, p: Id, t: Id, n: Id, ghost j: nat, PS: Id, S: Id, NS: Id, measure: string -> int) returns (r: Doc)
    requires WellFormed(d) && 0 < j && j + 1 < |Leaves(d)|
    requires Leaves(d)[j - 1] == p && Leaves(d)[j] == t && Leaves(d)[j + 1] == n
    requires p in d.nodes && t in d.nodes && n in d.nodes
    requires d.nodes[p].parent == Some(PS) && d.nodes[t].parent == Some(S) && d.nodes[n].parent == Some(NS)
    requires PS in d.nodes && S in d.nodes && NS in d.nodes
    requires d.nodes[PS].kind == Sentence && d.nodes[S].kind == Sentence && d.nodes[NS].kind == Sentence
    requires !(PS == S && S == NS)
    ensures WellFormed(r) && r.root == d.root
    ensures var T := Text(d); Text(r) == T[..j - 1] + [T[j - 1] + T[j + 1]] + T[j + 2..]
    ensures CursorsInWords(d) ==> CursorsInWords(r)
  {
    ghost var L := Leaves(d);
    NeighbourParents(d, j);
    ghost var X, A, B, Y := NeighbourSpans(d, j, PS, S, NS);
    AcrossFacts(d, L, X, A, B, Y, p, t, n);
    var r1, J := JoinNeighbours(d, t, p, n, PS, j, measure);
    JoinedSentences(d, r1, PS, S, NS, A, B, p, t, n, J);
    SplicedRuns(L, X, A, B, Y, j, J);
    r := MergeRuns(r1, PS, S, NS, X, Y);
  }

  /** The three sentences after the join, before they are merged. */
  lemma JoinedSentences(d: Doc, r1: Doc, PS: Id, S: Id, NS: Id, A: seq<Id>, B: seq<Id>, p: Id, t: Id, n: Id, J: Id)
    requires PS in d.nodes && S in d.nodes && NS in d.nodes && PS != NS
    requires d.nodes[PS].kind == Sentence && d.nodes[S].kind == Sentence && d.nodes[NS].kind == Sentence
    requires d.nodes[PS].children == A + [p] + (if S == PS then [t] else [])
    requires d.nodes[NS].children == (if S == NS then [t] else []) + [n] + B
    requires S != PS && S != NS ==> d.nodes[S].children == [t]
    requires forall x :: x in A ==> x != t && x != p && x != n && x != J
    requires forall x :: x in B ==> x != t && x != p && x != n
    requires J != t && J != p && J != n
    requires forall q :: q in d.nodes && d.nodes[q].kind == Sentence ==>
      && q in r1.nodes && r1.nodes[q].kind == Sentence && r1.nodes[q].parent == d.nodes[q].parent
      && r1.nodes[q].children == FilterOut(if q == PS then InsertBefore(d.nodes[q].children, p, J) else d.nodes[q].children, {t, p, n})
    ensures PS in r1.nodes && S in r1.nodes && NS in r1.nodes
    ensures r1.nodes[PS].kind == Sentence && r1.nodes[S].kind == Sentence && r1.nodes[NS].kind == Sentence
    ensures r1.nodes[PS].children == A + [J] && r1.nodes[NS].children == B
    ensures S != PS && S != NS ==> r1.nodes[S].children == []
  {
    JoinedPrev(A, p, if S == PS then [t] else [], t, n, J);
    JoinedNext(B, p, t, n, S == NS);
  }

  /** What the runs around the three tokens avoid: the three tokens, and a
      fresh identifier. */
  lemma AcrossFacts(d: Doc, L: seq<Id>, X: seq<Id>, A: seq<Id>, B: seq<Id>, Y: seq<Id>, p: Id, t: Id, n: Id)
    requires WellFormed(d) && NoDup(L) && (forall x :: x in L ==> x in d.nodes)
    requires L == X + A + [p, t, n] + B + Y
    ensures forall x :: x in A ==> x != t && x != p && x != n && x != d.nextId
    ensures forall x :: x in B ==> x != t && x != p && x != n
  {
    assert L == (X + A) + [p, t, n] + (B + Y);
    NoDupApart(L, X + A, [p, t, n], B + Y);
    assert forall x :: x in A ==> x in X + A && x in L;
    assert forall x :: x in B ==> x in B + Y;
  }

  /** `Tok(prev_sentence, ' ')`: a token holding a space at the end of the
      sentence `PS`, which is `NewTok` and the same as appending the word
      `" "`. Its text lands right after the sentence's last token. */
  method AddSpace(d: Doc, PS: Id, ghost X: seq<Id>, ghost Z: seq<Id>) returns (r: Doc)
    requires WellFormed(d) && PS in d.nodes && d.nodes[PS].kind == Sentence
    requires |d.nodes[PS].children| > 0 && Leaves(d) == X + d.nodes[PS].children + Z
    ensures WellFormed(r) && r.root == d.root && d.nextId !in d.nodes
    ensures PS in r.nodes && r.nodes[PS].children == d.nodes[PS].children + [d.nextId]
    ensures r.nodes[PS] == d.nodes[PS].(children := r.nodes[PS].children, hasBucket := r.nodes[PS].hasBucket)
    ensures forall x :: x in d.nodes && x != PS ==> x in r.nodes && r.nodes[x] == d.nodes[x]
    ensures Leaves(r) == X + r.nodes[PS].children + Z
    ensures var e := |X| + |d.nodes[PS].children|;
      e <= |Text(d)| && Text(r) == Text(d)[..e] + [" "] + Text(d)[e..]
    ensures CursorsInWords(d) ==> CursorsInWords(r)
    ensures forall x :: OnlyCursor(d, x) ==> OnlyCursor(r, x)
  {
    r := NewTok(d, PS, " ").1;
    SpaceIsAppend(d, PS);
    SpaceFacts(d, PS, X, Z);
  }

  /** Creating the space token is appending the word `" "`. */
  lemma SpaceIsAppend(d: Doc, PS: Id)
    requires WellFormed(d) && PS in d.nodes && d.nodes[PS].kind == Sentence
    ensures NewTok(d, PS, " ").1 == AppendToks(d, PS, [" "])
  {
    WellFormedUnused(d, PS);
    AppendToksStep(d, PS, [], " ");
    var r0 := AppendToks(d, PS, []);
    assert r0.nodes[PS] == d.nodes[PS];
    assert r0.nodes.Keys == d.nodes.Keys;
    assert r0 == d;
  }

  /** What appending `" "` to `PS` does to the document. */
  lemma SpaceFacts(d: Doc, PS: Id, X: seq<Id>, Z: seq<Id>)
    requires WellFormed(d) && PS in d.nodes && d.nodes[PS].kind == Sentence
    requires |d.nodes[PS].children| > 0 && Leaves(d) == X + d.nodes[PS].children + Z
    ensures var r := AppendToks(d, PS, [" "]);
      && WellFormed(r) && r.root == d.root && d.nextId !in d.nodes
      && PS in r.nodes && r.nodes[PS].children == d.nodes[PS].children + [d.nextId]
      && r.nodes[PS] == d.nodes[PS].(children := r.nodes[PS].children, hasBucket := r.nodes[PS].hasBucket)
      && (forall x :: x in d.nodes && x != PS ==> x in r.nodes && r.nodes[x] == d.nodes[x])
      && Leaves(r) == X + r.nodes[PS].children + Z
      && (var e := |X| + |d.nodes[PS].children|;
          e <= |Text(d)| && Text(r) == Text(d)[..e] + [" "] + Text(d)[e..])
      && (CursorsInWords(d) ==> CursorsInWords(r))
      && (forall x :: OnlyCursor(d, x) ==> OnlyCursor(r, x))
  {
    var r := AppendToks(d, PS, [" "]);
    WellFormedUnused(d, PS);
    AppendToksWellFormed(d, PS, [" "]);
    AppendFrame(d, PS, [" "]);
    AppendLeaves(d, PS, [" "], X, Z);
    assert Range(d.nextId, 1) == [d.nextId];
    assert r.nodes[d.nextId] == NewNode(Tok, Some(PS), " ");
    SpaceText(d, r, PS, X, Z);
    SpaceCursors(d, r, PS);
  }

  /** The text after the space is appended. */
  lemma SpaceText(d: Doc, r: Doc, PS: Id, X: seq<Id>, Z: seq<Id>)
    requires WellFormed(d) && PS in d.nodes && d.nodes[PS].kind == Sentence
    requires Leaves(d) == X + d.nodes[PS].children + Z
    requires Leaves(r) == X + (d.nodes[PS].children + [d.nextId]) + Z
    requires d.nextId in r.nodes && r.nodes[d.nextId].word == " "
    requires forall x :: x in d.nodes && x != PS ==> x in r.nodes && r.nodes[x] == d.nodes[x]
    ensures var e := |X| + |d.nodes[PS].children|;
      e <= |Text(d)| && Text(r) == Text(d)[..e] + [" "] + Text(d)[e..]
  {
    LeafWordsKept(d, r, PS);
    SpaceWords(d.nodes, r.nodes, Leaves(d), X, d.nodes[PS].children, Z, d.nextId);
  }

  /** Tokens other than `PS`'s own node keep their words. */
  lemma LeafWordsKept(d: Doc, r: Doc, PS: Id)
    requires WellFormed(d) && PS in d.nodes && d.nodes[PS].kind == Sentence
    requires forall x :: x in d.nodes && x != PS ==> x in r.nodes && r.nodes[x] == d.nodes[x]
    ensures forall x :: x in Leaves(d) ==> x in d.nodes && x in r.nodes && r.nodes[x].word == d.nodes[x].word
  {
    LevelSeqKinds(d, 3);
  }

  /** `SpaceText` on the words alone. */
  lemma SpaceWords(ns: Nodes, ns': Nodes, L: seq<Id>, X: seq<Id>, cp: seq<Id>, Z: seq<Id>, J: Id)
    requires L == X + cp + Z && J in ns' && ns'[J].word == " "
    requires forall x :: x in L ==> x in ns && x in ns' && ns'[x].word == ns[x].word
    ensures var e := |X| + |cp|;
      e <= |L| && Words(ns', X + (cp + [J]) + Z) == Words(ns, L)[..e] + [" "] + Words(ns, L)[e..]
  {
    AppendedRun(L, X, cp, Z, J);
    InsertedWords(ns, ns', L, |X| + |cp|, J);
  }

  /** An entry appended to the run `cp` of `L` lands at index `|X| + |cp|`. */
  lemma AppendedRun(L: seq<Id>, X: seq<Id>, cp: seq<Id>, Z: seq<Id>, J: Id)
    requires L == X + cp + Z
    ensures L[..|X| + |cp|] + [J] + L[|X| + |cp|..] == X + (cp + [J]) + Z
  {
    assert L[..|X| + |cp|] == X + cp && L[|X| + |cp|..] == Z;
  }

  /** The space token shows no cursor and sits at index 0. */
  lemma SpaceCursors(d: Doc, r: Doc, PS: Id)
    requires PS in d.nodes && d.nodes[PS].kind == Sentence && PS in r.nodes
    requires r.nodes[PS] == d.nodes[PS].(children := r.nodes[PS].children, hasBucket := r.nodes[PS].hasBucket)
    requires forall x :: x in d.nodes && x != PS ==> x in r.nodes && r.nodes[x] == d.nodes[x]
    requires forall x :: x in r.nodes && x !in d.nodes ==>
      r.nodes[x].kind == Tok && r.nodes[x].cursorIndex == 0 && r.nodes[x].cursorX < 0
    ensures CursorsInWords(d) ==> CursorsInWords(r)
    ensures forall x :: OnlyCursor(d, x) ==> OnlyCursor(r, x)
  {
  }

  /** The token `t` at index `j` holds one character and its neighbours sit
      in different paragraphs: `t` stays, a space token is added at the end
      of the previous sentence, and the sentences around are merged into
      the previous one, across the paragraph border. */
  method SpaceAcross(d: Doc, p: Id, t: Id, n: Id, ghost j: nat, PS: Id, S: Id, NS: Id) returns (r: Doc)
    requires WellFormed(d) && 0 < j && j + 1 < |Leaves(d)|
    requires Leaves(d)[j - 1] == p && Leaves(d)[j] == t && Leaves(d)[j + 1] == n
    requires p in d.nodes && t in d.nodes && n in d.nodes
    requires d.nodes[p].parent == Some(PS) && d.nodes[t].parent == Some(S) && d.nodes[n].parent == Some(NS)
    requires PS in d.nodes && S in d.nodes && NS in d.nodes
    requires d.nodes[PS].kind == Sentence && d.nodes[S].kind == Sentence && d.nodes[NS].kind == Sentence
    requires !(PS == S && S == NS)
    ensures WellFormed(r) && r.root == d.root
    ensures var m := if S == PS then j + 1 else j;
      m <= |Text(d)| && Text(r) == Text(d)[..m] + [" "] + Text(d)[m..]
    ensures CursorsInWords(d) ==> CursorsInWords(r)
    ensures forall x :: OnlyCursor(d, x) ==> OnlyCursor(r, x)
  {
    ghost var X, A, B, Y := NeighbourSpans(d, j, PS, S, NS);
    if S == PS {
      assert |X| + |d.nodes[PS].children| == j + 1;
      r := SpaceMerge(d, PS, S, NS, X, [], Y);
    } else if S == NS {
      assert |X| + |d.nodes[PS].children| == j;
      r := SpaceMerge(d, PS, S, NS, X, [], Y);
    } else {
      assert |X| + |d.nodes[PS].children| == j;
      r := SpaceMerge(d, PS, S, NS, X, [t], Y);
    }
  }

  /** The space token, then the merges. */
  method SpaceMerge(d: Doc, PS: Id, S: Id, NS: Id, ghost X: seq<Id>, ghost M: seq<Id>, ghost Y: seq<Id>) returns (r: Doc)
    requires WellFormed(d) && PS in d.nodes && S in d.nodes && NS in d.nodes && PS != NS
    requires d.nodes[PS].kind == Sentence && d.nodes[S].kind == Sentence && d.nodes[NS].kind == Sentence
    requires |d.nodes[PS].children| > 0
    requires M == if S != PS && S != NS then d.nodes[S].children else []
    requires Leaves(d) == X + d.nodes[PS].children + M + d.nodes[NS].children + Y
    ensures WellFormed(r) && r.root == d.root
    ensures var e := |X| + |d.nodes[PS].children|;
      e <= |Text(d)| && Text(r) == Text(d)[..e] + [" "] + Text(d)[e..]
    ensures CursorsInWords(d) ==> CursorsInWords(r)
    ensures forall x :: OnlyCursor(d, x) ==> OnlyCursor(r, x)
  {
    ghost var cp, cn := d.nodes[PS].children, d.nodes[NS].children;
    SpaceRuns(Leaves(d), X, cp, M, cn, Y, d.nextId);
    var r1 := AddSpace(d, PS, X, M + cn + Y);
    assert S != PS && S != NS ==> r1.nodes[S] == d.nodes[S];
    r := MergeRuns(r1, PS, S, NS, X, Y);
  }

  /** The token order around the space token, regrouped for the merges. */
  lemma SpaceRuns(L: seq<Id>, X: seq<Id>, cp: seq<Id>, M: seq<Id>, cn: seq<Id>, Y: seq<Id>, J: Id)
    requires L == X + cp + M + cn + Y
    ensures L == X + cp + (M + cn + Y)
    ensures X + (cp + [J]) + (M + cn + Y) == X + (cp + [J]) + M + cn + Y
  {
  }

  /** The text after Backspace removes the single character of the token at
      index `j`: without a neighbour on both sides the token just goes; with
      neighbours in one paragraph the token goes and its neighbours become
      one word; across a paragraph border the token stays and a space word
      comes in after the last token of the previous token's sentence. */
  ghost function SingleCharText(d: Doc, j: nat): (r: seq<string>)
    requires WellFormed(d) && j < |Leaves(d)|
  {
    var L, T := Leaves(d), Text(d);
    if j == 0 || j + 1 == |L| then T[..j] + T[j + 1..]
    else if ParagraphOf(d.nodes, L[j - 1]) == ParagraphOf(d.nodes, L[j + 1]) then
      T[..j - 1] + [T[j - 1] + T[j + 1]] + T[j + 2..]
    else
      var m := if ParentOf(d.nodes, L[j - 1]) == ParentOf(d.nodes, L[j]) then j + 1 else j;
      T[..m] + [" "] + T[m..]
  }

  /** Backspace with the cursor after the only character of token `t`. */
  method SingleChar(d: Doc, t: Id, measure: string -> int) returns (r: Doc)
    requires WellFormed(d) && t in d.nodes && d.nodes[t].kind == Tok
    ensures t in Leaves(d)
    ensures WellFormed(r) && r.root == d.root
    ensures Text(r) == SingleCharText(d, IndexOf(Leaves(d), t))
    ensures CursorsInWords(d) ==> CursorsInWords(r)
  {
    LeafPosition(d, t);
    ghost var L := Leaves(d);
    ghost var j := IndexOf(L, t);
    var prev := PreviousPeer(d, t);
    var next := NextPeer(d, t);
    if prev.None? || next.None? {
      r := ZapTok(d, t, j);
      ZapCursors(d, r, t);
      return;
    }
    var p, n := prev.value, next.value;
    NeighbourParents(d, j);
    var PS, S, NS := d.nodes[p].parent.value, d.nodes[t].parent.value, d.nodes[n].parent.value;
    if PS == S && NS == S {
      r := JoinInSentence(d, t, p, n, S, j, measure);
    } else if d.nodes[PS].parent == d.nodes[NS].parent {
      r := JoinAcross(d, p, t, n, j, PS, S, NS, measure);
    } else {
      r := SpaceAcross(d, p, t, n, j, PS, S, NS);
    }
  }

  /** The join inside one sentence. */
  method JoinInSentence(d: Doc, t: Id, p: Id, n: Id, S: Id, ghost j: nat, measure: string -> int) returns (r: Doc)
    requires WellFormed(d) && t in d.nodes && d.nodes[t].kind == Tok
    requires 0 < j && j + 1 < |Leaves(d)| && Leaves(d)[j] == t
    requires p == Leaves(d)[j - 1] && n == Leaves(d)[j + 1]
    requires p in d.nodes && d.nodes[p].parent == Some(S) && S in d.nodes && d.nodes[S].kind == Sentence
    ensures WellFormed(r) && r.root == d.root
    ensures var T := Text(d); Text(r) == T[..j - 1] + [T[j - 1] + T[j + 1]] + T[j + 2..]
    ensures CursorsInWords(d) ==> CursorsInWords(r)
  {
    assert p != d.root && Attached(d.nodes, p);
    var J;
    r, J := JoinNeighbours(d, t, p, n, S, j, measure);
  }

  /** The token whose character Backspace removes: `t` itself when its
      cursor is past the start, otherwise the nearest earlier token with a
      non-empty word (empty tokens are passed over); None when there is
      none. */
  ghost function Target(d: Doc, t: Id): (r: Option<Id>)
    requires WellFormed(d) && t in d.nodes && t in Leaves(d)
    ensures r.Some? ==> r.value in Leaves(d) && r.value in d.nodes
  {
    var L := Leaves(d);
    if d.nodes[t].cursorIndex > 0 then Some(t)
    else
      var r := LastNonEmpty(d.nodes, L[..IndexOf(L, t)]);
      assert r.Some? ==> r.value in L;
      r
  }

  /** The text after Backspace removes the character before the cursor
      index `c` of the target token `x`: the cursor's own index when `x` is
      the cursor token, the end of the word otherwise. */
  ghost function Backspaced(d: Doc, t: Id): (r: seq<string>)
    requires WellFormed(d) && t in d.nodes && t in Leaves(d) && Target(d, t).Some?
  {
    var x := Target(d, t).value;
    var w := d.nodes[x].word;
    var c := if x == t then d.nodes[t].cursorIndex else |w|;
    var j := IndexOf(Leaves(d), x);
    if c == 1 && |w| == 1 then SingleCharText(d, j)
    else Text(d)[j := DeletedWord(w, c)]
  }

  /** `delete_character_left` on a token: the result is false exactly when
      there is no target, and then only cursor positions have changed;
      otherwise the text is the reference text `Backspaced`. */
  method Backspace(d: Doc, t: Id, measure: string -> int) returns (r: Doc, deleted: bool)
    requires WellFormed(d) && t in d.nodes && d.nodes[t].kind == Tok
    ensures t in Leaves(d) && WellFormed(r) && r.root == d.root
    ensures deleted <==> Target(d, t).Some?
    ensures !deleted ==> TreeKept(d, r)
    ensures deleted ==> Text(r) == Backspaced(d, t)
    ensures CursorsInWords(d) ==> CursorsInWords(r)
    decreases if t in Leaves(d) then IndexOf(Leaves(d), t) else 0
  {
    LeafPosition(d, t);
    var c := d.nodes[t].cursorIndex;
    if c == 0 {
      var prev := PreviousPeer(d, t);
      if prev.None? {
        return d, false;
      }
      var p := prev.value;
      var r1 := PlaceAtEnd(d, t, p, measure);
      r, deleted := Backspace(r1, p, measure);
      StepBack(d, r1, t, p);
      if !deleted {
        TreeKeptTrans(d, r1, r);
      }
    } else if c == 1 && |d.nodes[t].word| == 1 {
      r := SingleChar(d, t, measure);
      deleted := true;
    } else {
      r := EditWordStep(d, t);
      deleted := true;
    }
  }

  /** `prev_tok.place_cursor_at_word_index(-1)`: the cursor goes to the end
      of the previous token `p`. */
  method PlaceAtEnd(d: Doc, t: Id, p: Id, measure: string -> int) returns (r: Doc)
    requires WellFormed(d) && t in d.nodes && d.nodes[t].kind == Tok && t in Leaves(d)
    requires Pred(Leaves(d), t) == Some(p)
    ensures WellFormed(r) && TreeKept(d, r) && Leaves(r) == Leaves(d)
    ensures p in r.nodes && r.nodes[p].kind == Tok && r.nodes[p].cursorIndex == |d.nodes[p].word|
    ensures IndexOf(Leaves(d), p) + 1 == IndexOf(Leaves(d), t)
    ensures CursorsInWords(d) ==> CursorsInWords(r)
  {
    LeafPosition(d, t);
    var px := GetXPos(d.nodes[p].word, -1, measure);
    r := PlaceOnToken(d, p, px.0, px.1);
    SameTree(d, r, d.root);
  }

  /** One step back: after the cursor moves to the end of `p`, the target
      and the reference text seen from `p` are those seen from `t`. */
  lemma StepBack(d: Doc, r1: Doc, t: Id, p: Id)
    requires WellFormed(d) && WellFormed(r1) && TreeKept(d, r1) && Leaves(r1) == Leaves(d)
    requires t in d.nodes && t in Leaves(d) && d.nodes[t].cursorIndex == 0
    requires p in r1.nodes && p in Leaves(d) && r1.nodes[p].cursorIndex == |d.nodes[p].word|
    requires IndexOf(Leaves(d), p) + 1 == IndexOf(Leaves(d), t)
    ensures Target(r1, p) == Target(d, t)
    ensures Target(d, t).Some? ==> Backspaced(r1, p) == Backspaced(d, t)
  {
    StepBackTarget(d, r1, t, p);
    if Target(d, t).Some? {
      var x := Target(d, t).value;
      SameTreeWords(d, r1);
      SingleCharTextSame(d, r1, IndexOf(Leaves(d), x));
      assert x != t;
    }
  }

  /** The target part of `StepBack`. */
  lemma StepBackTarget(d: Doc, r1: Doc, t: Id, p: Id)
    requires WellFormed(d) && WellFormed(r1) && TreeKept(d, r1) && Leaves(r1) == Leaves(d)
    requires t in d.nodes && t in Leaves(d) && d.nodes[t].cursorIndex == 0
    requires p in r1.nodes && p in Leaves(d) && r1.nodes[p].cursorIndex == |d.nodes[p].word|
    requires IndexOf(Leaves(d), p) + 1 == IndexOf(Leaves(d), t)
    ensures Target(r1, p) == Target(d, t)
    ensures Target(d, t).Some? ==> Target(d, t).value != t
  {
    var L := Leaves(d);
    var j := IndexOf(L, t);
    LastNonEmptySame(d, r1, L[..j - 1]);
    NonEmptyBack(d.nodes, r1.nodes, L, j, p);
  }

  /** `LastNonEmptyStep` seen from the previous token `p`, whose word
      `ns1` keeps. */
  lemma NonEmptyBack(ns: Nodes, ns1: Nodes, L: seq<Id>, j: nat, p: Id)
    requires 0 < j <= |L| && L[j - 1] == p && p in ns && p in ns1 && ns1[p].word == ns[p].word
    ensures LastNonEmpty(ns, L[..j]) == if |ns1[p].word| > 0 then Some(p) else LastNonEmpty(ns, L[..j - 1])
  {
    LastNonEmptyStep(ns, L, j);
  }

  /** Keeping the tree keeps the text. */
  lemma SameTreeWords(d: Doc, r: Doc)
    requires WellFormed(d) && TreeKept(d, r)
    ensures Text(r) == Text(d)
  {
    SameTree(d, r, d.root);
    WordsSame(d.nodes, r.nodes, Leaves(d));
  }

  /** Keeping the tree keeps `SingleCharText`, which reads only the tree. */
  lemma SingleCharTextSame(d: Doc, r: Doc, j: nat)
    requires WellFormed(d) && TreeKept(d, r) && j < |Leaves(d)|
    ensures WellFormed(r) && Leaves(r) == Leaves(d)
    ensures SingleCharText(r, j) == SingleCharText(d, j)
  {
    SameTree(d, r, d.root);
    SameTreeWords(d, r);
    var L := Leaves(d);
    if 0 < j && j + 1 < |L| {
      ParentsKept(d, r, L[j - 1]);
      ParentsKept(d, r, L[j]);
      ParentsKept(d, r, L[j + 1]);
    }
  }

  /** Keeping the tree keeps every entity's parent and grandparent. */
  lemma ParentsKept(d: Doc, r: Doc, x: Id)
    requires TreeKept(d, r)
    ensures ParentOf(r.nodes, x) == ParentOf(d.nodes, x)
    ensures ParagraphOf(r.nodes, x) == ParagraphOf(d.nodes, x)
  {
    if x in d.nodes && d.nodes[x].parent.Some? {
      var s := d.nodes[x].parent.value;
      assert ParentOf(r.nodes, s) == ParentOf(d.nodes, s);
    }
  }

  /** `TokenEditor.delete_character_left(ent)`: an entity that is not a
      token is refused with an error; on a token it is `Backspace`. */
  method DeleteCharacterLeft(d: Doc, ent: Id, measure: string -> int) returns (res: Result<(Doc, bool)>)
    requires WellFormed(d) && ent in d.nodes
    ensures res.Err? <==> d.nodes[ent].kind != Tok
    ensures res.Err? ==> res.error == WrongKind
    ensures res.Ok? ==> var (r, deleted) := res.value;
      && ent in Leaves(d) && WellFormed(r) && r.root == d.root
      && (deleted <==> Target(d, ent).Some?)
      && (!deleted ==> TreeKept(d, r))
      && (deleted ==> Text(r) == Backspaced(d, ent))
      && (CursorsInWords(d) ==> CursorsInWords(r))
  {
    if d.nodes[ent].kind != Tok {
      return Err(WrongKind);
    }
    var r, deleted := Backspace(d, ent, measure);
    return Ok((r, deleted));
  }

  /** The number of characters of a text. */
  function Chars(T: seq<string>): (n: nat)
    ensures |T| == 1 ==> n == |T[0]|
  {
    if |T| == 0 then 0 else Chars(T[..|T| - 1]) + |T[|T| - 1]|
  }

  lemma {:induction false} CharsAppend(a: seq<string>, b: seq<string>)
    ensures Chars(a + b) == Chars(a) + Chars(b)
    decreases |b|
  {
    if |b| > 0 {
      assert (a + b)[..|a + b| - 1] == a + b[..|b| - 1];
      CharsAppend(a, b[..|b| - 1]);
    } else {
      assert a + b == a;
    }
  }

  /** A text cut around its entry `j`. */
  lemma CharsAround(T: seq<string>, j: nat)
    requires j < |T|
    ensures Chars(T) == Chars(T[..j]) + |T[j]| + Chars(T[j + 1..])
  {
    assert T == T[..j] + [T[j]] + T[j + 1..];
    CharsAppend(T[..j] + [T[j]], T[j + 1..]);
    CharsAppend(T[..j], [T[j]]);
  }

  /** Backspace across a paragraph border: the token of one character
      stays and a space is added. */
  ghost predicate AddsSpace(d: Doc, t: Id)
    requires WellFormed(d) && t in d.nodes && t in Leaves(d) && Target(d, t).Some?
  {
    var x := Target(d, t).value;
    var L := Leaves(d);
    var j := IndexOf(L, x);
    var c := if x == t then d.nodes[t].cursorIndex else |d.nodes[x].word|;
    && c == 1 && |d.nodes[x].word| == 1 && 0 < j && j + 1 < |L|
    && ParagraphOf(d.nodes, L[j - 1]) != ParagraphOf(d.nodes, L[j + 1])
  }

  /** Backspace takes exactly one character out of the text, except across
      a paragraph border, where it adds one (the space). */
  lemma BackspacedChars(d: Doc, t: Id)
    requires WellFormed(d) && CursorsInWords(d) && t in d.nodes && t in Leaves(d) && Target(d, t).Some?
    ensures AddsSpace(d, t) ==> Chars(Backspaced(d, t)) == Chars(Text(d)) + 1
    ensures !AddsSpace(d, t) ==> Chars(Backspaced(d, t)) + 1 == Chars(Text(d))
  {
    var x := Target(d, t).value;
    var L, T := Leaves(d), Text(d);
    var j := IndexOf(L, x);
    var w := d.nodes[x].word;
    var c := if x == t then d.nodes[t].cursorIndex else |w|;
    TargetWord(d, t);
    if c == 1 && |w| == 1 {
      if j == 0 || j + 1 == |L| {
        RemovedChars(T, j);
      } else if ParagraphOf(d.nodes, L[j - 1]) == ParagraphOf(d.nodes, L[j + 1]) {
        JoinedChars(T, j);
      } else {
        var m := if ParentOf(d.nodes, L[j - 1]) == ParentOf(d.nodes, L[j]) then j + 1 else j;
        SpacedChars(T, m);
      }
    } else {
      UpdatedChars(T, j, DeletedWord(w, c));
    }
  }

  /** The target's word is its entry in the text, and the deletion index
      lies within it. */
  lemma TargetWord(d: Doc, t: Id)
    requires WellFormed(d) && CursorsInWords(d) && t in d.nodes && t in Leaves(d) && Target(d, t).Some?
    ensures var x := Target(d, t).value;
      var c := if x == t then d.nodes[t].cursorIndex else |d.nodes[x].word|;
      && Text(d)[IndexOf(Leaves(d), x)] == d.nodes[x].word
      && 1 <= c <= |d.nodes[x].word|
  {
    LevelSeqKinds(d, 3);
  }

  /** Removing a one-character word. */
  lemma RemovedChars(T: seq<string>, j: nat)
    requires j < |T| && |T[j]| == 1
    ensures Chars(T[..j] + T[j + 1..]) + 1 == Chars(T)
  {
    CharsAround(T, j);
    CharsAppend(T[..j], T[j + 1..]);
  }

  /** Replacing a word by one a character shorter. */
  lemma UpdatedChars(T: seq<string>, j: nat, w: string)
    requires j < |T| && |w| + 1 == |T[j]|
    ensures Chars(T[j := w]) + 1 == Chars(T)
  {
    var U := T[j := w];
    CharsAround(T, j);
    CharsAround(U, j);
    assert U[..j] == T[..j] && U[j + 1..] == T[j + 1..];
  }

  /** Joining the neighbours of a one-character word keeps all other
      characters. */
  lemma JoinedChars(T: seq<string>, j: nat)
    requires 0 < j && j + 1 < |T| && |T[j]| == 1
    ensures Chars(T[..j - 1] + [T[j - 1] + T[j + 1]] + T[j + 2..]) + 1 == Chars(T)
  {
    CharsAround(T, j);
    CharsAround(T[..j], j - 1);
    assert T[..j][..j - 1] == T[..j - 1] && T[..j][j..] == [];
    CharsAround(T[j + 1..], 0);
    assert T[j + 1..][1..] == T[j + 2..];
    var U := T[..j - 1] + [T[j - 1] + T[j + 1]] + T[j + 2..];
    CharsAround(U, j - 1);
    assert U[..j - 1] == T[..j - 1] && U[j..] == T[j + 2..];
  }

  /** A space word adds one character. */
  lemma SpacedChars(T: seq<string>, m: nat)
    requires m <= |T|
    ensures Chars(T[..m] + [" "] + T[m..]) == Chars(T) + 1
  {
    CharsAppend(T[..m] + [" "], T[m..]);
    CharsAppend(T[..m], [" "]);
    assert T == T[..m] + T[m..];
    CharsAppend(T[..m], T[m..]);
  }
}
