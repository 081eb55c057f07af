/** Sentences seen on the token order: each sentence's tokens form one
    contiguous run of it, and moving the tokens of one sentence onto the end
    of the sentence right before it (`append_copy_tokens_from`, then `zap`)
    leaves the document's text as it was. */
module SentenceMerge {
  import opened Wrappers
  import opened Sequences
  import opened Entities
  import opened Navigation
  import opened Zapping
  import opened Containers
  import opened Cursor

  /** A token's parent is a sentence that lists it. */
  lemma TokParent(d: Doc, x: Id)
    requires WellFormed(d) && x in d.nodes && d.nodes[x].kind == Tok
    ensures d.nodes[x].parent.Some?
    ensures var s := d.nodes[x].parent.value;
      s in d.nodes && d.nodes[s].kind == Sentence && x in d.nodes[s].children
  {
    ChapterIsRoot(d, d.root);
    if x == d.root {
      assert false;
    }
    ParentLevel(d, x);
  }

  /** The tokens of sentence `s` are the run of the token order starting at
      `a`: a token lies in that run exactly when `s` is its parent. */
  lemma SentenceSpan(d: Doc, s: Id) returns (a: nat)
    requires WellFormed(d) && s in d.nodes && d.nodes[s].kind == Sentence
    ensures var L := Leaves(d); var cs := d.nodes[s].children;
      && NoDup(L) && a + |cs| <= |L| && L[a..a + |cs|] == cs
      && (forall x :: x in L ==> x in d.nodes && d.nodes[x].kind == Tok)
      && (forall k :: 0 <= k < |L| ==> (d.nodes[L[k]].parent == Some(s) <==> a <= k < a + |cs|))
  {
    var A, B := SentenceEdit(d, d, s);
    a := |A|;
    var L := Leaves(d);
    var cs := d.nodes[s].children;
    assert L[a..a + |cs|] == cs;
    assert ChildrenOK(d.nodes, s);
    forall k | 0 <= k < |L| ensures d.nodes[L[k]].parent == Some(s) <==> a <= k < a + |cs| {
      if d.nodes[L[k]].parent == Some(s) {
        assert Attached(d.nodes, L[k]);
        var i :| 0 <= i < |cs| && cs[i] == L[k];
        assert L[a + i] == L[k];
      }
    }
  }

  /** In a duplicate-free list a non-empty run has one place. */
  lemma SplitUnique(L: seq<Id>, a: seq<Id>, b: seq<Id>, x: seq<Id>, z: seq<Id>, cs: seq<Id>)
    requires NoDup(L) && |cs| > 0
    requires L == a + cs + b && L == x + cs + z
    ensures a == x && b == z
  {
    assert L[|a|] == cs[0] == L[|x|];
    assert |a| == |x|;
    assert a == L[..|a|] && x == L[..|x|];
    assert b == L[|a| + |cs|..] && z == L[|x| + |cs|..];
  }

  /** A sentence's subtree is the sentence and its tokens. */
  lemma SubtreeOfSentence(d: Doc, s: Id)
    requires WellFormed(d) && s in d.nodes && d.nodes[s].kind == Sentence
    ensures Subtree(d.nodes, s) == {s} + set x | x in d.nodes[s].children
  {
    var ns := d.nodes;
    assert ChildrenOK(ns, s);
    forall n | n in Subtree(ns, s) ensures n == s || n in ns[s].children {
      if n != s {
        AncestorLevel(ns, s, n);
        var q := ns[n].parent.value;
        if q != s {
          AncestorLevel(ns, s, q);
        }
        assert Attached(ns, n);
      }
    }
    forall n | n in ns[s].children ensures n in Subtree(ns, s) {
      assert AncestorOrSelf(ns, s, n);
    }
  }

  /** `zap` on a sentence: it and its tokens leave the arena and the token
      order; its paragraph loses it; every other entity is as it was. */
  method ZapSentence(d: Doc, o: Id) returns (r: Doc)
    requires WellFormed(d) && o in d.nodes && d.nodes[o].kind == Sentence
    ensures WellFormed(r) && r.root == d.root && r.nextId == d.nextId
    ensures Leaves(r) == FilterOut(Leaves(d), {o} + set x | x in d.nodes[o].children)
    ensures r.nodes.Keys == d.nodes.Keys - ({o} + set x | x in d.nodes[o].children)
    ensures forall n :: n in r.nodes && Some(n) != d.nodes[o].parent ==> r.nodes[n] == d.nodes[n]
    ensures d.nodes[o].parent.Some? && var p := d.nodes[o].parent.value;
      p in r.nodes && r.nodes[p].kind == Paragraph && r.nodes[p].parent == d.nodes[p].parent
  {
    ZapSentenceFacts(d, o);
    r := Zap(d, o);
  }

  lemma ZapSentenceFacts(d: Doc, o: Id)
    requires WellFormed(d) && o in d.nodes && d.nodes[o].kind == Sentence
    ensures var r := Zap(d, o); var D := {o} + set x | x in d.nodes[o].children;
      && WellFormed(r)
      && Leaves(r) == FilterOut(Leaves(d), D)
      && r.nodes.Keys == d.nodes.Keys - D
      && (forall n :: n in r.nodes && Some(n) != d.nodes[o].parent ==> r.nodes[n] == d.nodes[n])
      && d.nodes[o].parent.Some?
      && var p := d.nodes[o].parent.value;
      && p in r.nodes && r.nodes[p].kind == Paragraph && r.nodes[p].parent == d.nodes[p].parent
  {
    ChapterIsRoot(d, d.root);
    if o == d.root {
      assert false;
    }
    ParentLevel(d, o);
    ZapWellFormed(d, o);
    ZapLevel(d, o, 3);
    SubtreeOfSentence(d, o);
    var p := d.nodes[o].parent.value;
    SubtreeFacts(d, o, p);
  }

  /** Appending tokens to a non-empty sentence puts them right after its
      last token in the token order. */
  lemma AppendLeaves(d: Doc, s: Id, ws: seq<string>, X: seq<Id>, Z: seq<Id>)
    requires WellFormed(d) && s in d.nodes && d.nodes[s].kind == Sentence
    requires |d.nodes[s].children| > 0 && Leaves(d) == X + d.nodes[s].children + Z
    ensures s < d.nextId
    ensures Leaves(AppendToks(d, s, ws)) == X + d.nodes[s].children + Range(d.nextId, |ws|) + Z
  {
    WellFormedUnused(d, s);
    var r := AppendToks(d, s, ws);
    ChildListFrame(d.nodes, r.nodes, s);
    var A, B := SentenceEdit(d, r, s);
    var cs := d.nodes[s].children;
    SplitUnique(Leaves(d), A, B, X, Z, cs);
    var cr := ChildrenOf(r.nodes, s);
    assert cr == cs + Range(d.nextId, |ws|);
    Regroup(X, cs, Range(d.nextId, |ws|), Z);
  }

  /** Appending tokens changes only the sentence; every added entity is a
      token without a cursor. */
  lemma AppendFrame(d: Doc, s: Id, ws: seq<string>)
    requires WellFormed(d) && s in d.nodes
    ensures s < d.nextId
    ensures var r := AppendToks(d, s, ws);
      && (forall x :: x in d.nodes && x != s ==> x in r.nodes && r.nodes[x] == d.nodes[x])
      && (forall x :: x in r.nodes && x !in d.nodes ==>
            r.nodes[x].kind == Tok && r.nodes[x].cursorIndex == 0 && r.nodes[x].cursorX < 0)
      && s in r.nodes && r.nodes[s] == d.nodes[s].(children := r.nodes[s].children, hasBucket := r.nodes[s].hasBucket)
  {
    WellFormedUnused(d, s);
  }

  /** `s.append_copy_tokens_from(o)` then `o.zap()`, for a sentence `o`
      whose tokens directly follow those of `s` in the token order: the
      copies take the place of the originals, so the text is unchanged;
      `o` and its tokens are gone, other sentences are as they were, and the
      copies carry no cursor. */
  method MergeSentences(d: Doc, s: Id, o: Id, ghost X: seq<Id>, ghost Y: seq<Id>) returns (r: Doc)
    requires WellFormed(d) && s in d.nodes && o in d.nodes && s != o
    requires d.nodes[s].kind == Sentence && d.nodes[o].kind == Sentence
    requires |d.nodes[s].children| > 0
    requires Leaves(d) == X + d.nodes[s].children + d.nodes[o].children + Y
    ensures WellFormed(r) && r.root == d.root
    ensures s in r.nodes && Leaves(r) == X + r.nodes[s].children + Y && |r.nodes[s].children| > 0
    ensures r.nodes[s] == d.nodes[s].(children := r.nodes[s].children, hasBucket := r.nodes[s].hasBucket)
    ensures Text(r) == Text(d)
    ensures o !in r.nodes
    ensures forall q :: q in d.nodes && d.nodes[q].kind == Sentence && q != s && q != o ==> q in r.nodes && r.nodes[q] == d.nodes[q]
    ensures CursorsInWords(d) ==> CursorsInWords(r)
    ensures forall t :: OnlyCursor(d, t) ==> OnlyCursor(r, t)
  {
    var d1 := AppendCopyTokensFrom(d, s, o);
    AppendStep(d, s, o, X, Y);
    r := ZapSentence(d1, o);
    ZapStep(d, d1, r, s, o, X, Y, Range(d.nextId, |d.nodes[o].children|));
  }

  /** The copy half of the merge. */
  lemma AppendStep(d: Doc, s: Id, o: Id, X: seq<Id>, Y: seq<Id>)
    requires WellFormed(d) && s in d.nodes && o in d.nodes && s != o
    requires d.nodes[s].kind == Sentence && d.nodes[o].kind == Sentence
    requires |d.nodes[s].children| > 0
    requires Leaves(d) == X + d.nodes[s].children + d.nodes[o].children + Y
    ensures s < d.nextId
    ensures var cs, co := d.nodes[s].children, d.nodes[o].children;
      var d1 := AppendToks(d, s, TokWords(d.nodes, co));
      var R := Range(d.nextId, |co|);
      && Leaves(d1) == X + (cs + R) + co + Y
      && d1.nodes[s].children == cs + R
      && Words(d1.nodes, cs + R) == Words(d.nodes, cs) + Words(d.nodes, co)
      && (forall x :: x in d.nodes && x != s ==> x in d1.nodes && d1.nodes[x] == d.nodes[x])
      && (forall x :: x in d1.nodes && x !in d.nodes ==>
            d1.nodes[x].kind == Tok && d1.nodes[x].cursorIndex == 0 && d1.nodes[x].cursorX < 0)
      && d1.nodes[s] == d.nodes[s].(children := cs + R, hasBucket := d1.nodes[s].hasBucket)
  {
    var cs, co := d.nodes[s].children, d.nodes[o].children;
    CopiedAllTok(d, s, o, X, Y);
    var ws := Words(d.nodes, co);
    AppendFrame(d, s, ws);
    AppendStepLeaves(d, s, o, X, Y);
    WellFormedUnused(d, s);
    AppendToksWords(d, s, ws);
  }

  /** The tokens of `o` are all tokens, so the copy takes all of them. */
  lemma CopiedAllTok(d: Doc, s: Id, o: Id, X: seq<Id>, Y: seq<Id>)
    requires WellFormed(d) && s in d.nodes && o in d.nodes
    requires Leaves(d) == X + d.nodes[s].children + d.nodes[o].children + Y
    ensures TokWords(d.nodes, d.nodes[o].children) == Words(d.nodes, d.nodes[o].children)
  {
    var co := d.nodes[o].children;
    var L := Leaves(d);
    LevelSeqKinds(d, 3);
    forall c | c in co ensures c in d.nodes && d.nodes[c].kind == Tok {
      var k :| 0 <= k < |co| && co[k] == c;
      assert L[|X| + |d.nodes[s].children| + k] == c;
    }
    TokWordsAllTok(d.nodes, co);
  }

  /** Where the copies land in the token order. */
  lemma AppendStepLeaves(d: Doc, s: Id, o: Id, X: seq<Id>, Y: seq<Id>)
    requires WellFormed(d) && s in d.nodes && d.nodes[s].kind == Sentence && o in d.nodes
    requires |d.nodes[s].children| > 0
    requires Leaves(d) == X + d.nodes[s].children + d.nodes[o].children + Y
    ensures s < d.nextId
    ensures var cs, co := d.nodes[s].children, d.nodes[o].children;
      Leaves(AppendToks(d, s, Words(d.nodes, co))) == X + (cs + Range(d.nextId, |co|)) + co + Y
  {
    var cs, co := d.nodes[s].children, d.nodes[o].children;
    var ws := Words(d.nodes, co);
    Regroup(X, cs, co, Y);
    AppendLeaves(d, s, ws, X, co + Y);
    var L1 := Leaves(AppendToks(d, s, ws));
    var R := Range(d.nextId, |co|);
    assert L1 == X + cs + R + (co + Y);
    Regroup(X, cs, R, co + Y);
    Assoc(X + (cs + R), co, Y);
  }

  /** The zap half of the merge. */
  lemma ZapStep(d: Doc, d1: Doc, r: Doc, s: Id, o: Id, X: seq<Id>, Y: seq<Id>, R: seq<Id>)
    requires WellFormed(d) && WellFormed(d1) && s in d.nodes && o in d.nodes && s != o
    requires d.nodes[s].kind == Sentence && d.nodes[o].kind == Sentence
    requires |d.nodes[s].children| > 0
    requires Leaves(d) == X + d.nodes[s].children + d.nodes[o].children + Y
    requires var cs, co := d.nodes[s].children, d.nodes[o].children;
      && Leaves(d1) == X + (cs + R) + co + Y
      && Words(d1.nodes, cs + R) == Words(d.nodes, cs) + Words(d.nodes, co)
      && (forall x :: x in d.nodes && x != s ==> x in d1.nodes && d1.nodes[x] == d.nodes[x])
      && (forall x :: x in d1.nodes && x !in d.nodes ==>
            d1.nodes[x].kind == Tok && d1.nodes[x].cursorIndex == 0 && d1.nodes[x].cursorX < 0)
      && s in d1.nodes && d1.nodes[s] == d.nodes[s].(children := cs + R, hasBucket := d1.nodes[s].hasBucket)
    requires WellFormed(r) && r.root == d1.root && d1.root == d.root
    requires Leaves(r) == FilterOut(Leaves(d1), {o} + set x | x in d1.nodes[o].children)
    requires r.nodes.Keys == d1.nodes.Keys - ({o} + set x | x in d1.nodes[o].children)
    requires forall n :: n in r.nodes && Some(n) != d1.nodes[o].parent ==> r.nodes[n] == d1.nodes[n]
    requires d1.nodes[o].parent.Some? && d1.nodes[o].parent.value in r.nodes && r.nodes[d1.nodes[o].parent.value].kind == Paragraph
    ensures s in r.nodes && Leaves(r) == X + r.nodes[s].children + Y && |r.nodes[s].children| > 0
    ensures r.nodes[s] == d.nodes[s].(children := r.nodes[s].children, hasBucket := r.nodes[s].hasBucket)
    ensures Text(r) == Text(d)
    ensures o !in r.nodes
    ensures forall q :: q in d.nodes && d.nodes[q].kind == Sentence && q != s && q != o ==> q in r.nodes && r.nodes[q] == d.nodes[q]
    ensures CursorsInWords(d) ==> CursorsInWords(r)
    ensures forall t :: OnlyCursor(d, t) ==> OnlyCursor(r, t)
  {
    var cs, co := d.nodes[s].children, d.nodes[o].children;
    assert d1.nodes[o] == d.nodes[o];
    ZapStepLeaves(d1, r, s, o, X, Y);
    ZapStepText(d, d1, r, s, o, X, Y, R);
    MergedFrame(d, d1, r, s, o);
  }

  /** After the zap the merged sentence's tokens sit between `X` and `Y`. */
  lemma ZapStepLeaves(d1: Doc, r: Doc, s: Id, o: Id, X: seq<Id>, Y: seq<Id>)
    requires WellFormed(d1) && s in d1.nodes && o in d1.nodes && s != o
    requires d1.nodes[s].kind == Sentence && d1.nodes[o].kind == Sentence
    requires Leaves(d1) == X + d1.nodes[s].children + d1.nodes[o].children + Y
    requires Leaves(r) == FilterOut(Leaves(d1), {o} + set x | x in d1.nodes[o].children)
    requires r.nodes.Keys == d1.nodes.Keys - ({o} + set x | x in d1.nodes[o].children)
    requires forall n :: n in r.nodes && Some(n) != d1.nodes[o].parent ==> r.nodes[n] == d1.nodes[n]
    ensures s in r.nodes && r.nodes[s] == d1.nodes[s]
    ensures Leaves(r) == X + r.nodes[s].children + Y
  {
    MergedLeaves(d1, o, X, d1.nodes[s].children, Y);
    ParentLevel(d1, o);
    assert ChildrenOK(d1.nodes, o);
    assert s !in d1.nodes[o].children;
  }

  /** The merge keeps the text: the copies carry the words of `o`'s tokens. */
  lemma ZapStepText(d: Doc, d1: Doc, r: Doc, s: Id, o: Id, X: seq<Id>, Y: seq<Id>, R: seq<Id>)
    requires WellFormed(d) && WellFormed(r) && s in d.nodes && o in d.nodes && d.nodes[s].kind == Sentence
    requires Leaves(d) == X + d.nodes[s].children + d.nodes[o].children + Y
    requires Leaves(r) == X + (d.nodes[s].children + R) + Y
    requires Words(d1.nodes, d.nodes[s].children + R) == Words(d.nodes, d.nodes[s].children) + Words(d.nodes, d.nodes[o].children)
    requires forall x :: x in d.nodes && x != s ==> x in d1.nodes && d1.nodes[x] == d.nodes[x]
    requires o in d1.nodes && r.nodes.Keys <= d1.nodes.Keys
    requires forall n :: n in r.nodes && Some(n) != d1.nodes[o].parent ==> r.nodes[n] == d1.nodes[n]
    requires d1.nodes[o].parent.Some? && d1.nodes[o].parent.value in r.nodes && r.nodes[d1.nodes[o].parent.value].kind == Paragraph
    ensures Text(r) == Text(d)
  {
    var cs, co := d.nodes[s].children, d.nodes[o].children;
    var Lr := Leaves(r);
    LevelSeqKinds(r, 3);
    forall x | x in X + (cs + R) + Y ensures x in r.nodes && x in d1.nodes && r.nodes[x].word == d1.nodes[x].word {
      assert x in Lr;
    }
    var L := Leaves(d);
    LevelSeqKinds(d, 3);
    forall x | x in X + Y ensures x in d.nodes && x in d1.nodes && d1.nodes[x].word == d.nodes[x].word {
      InOuterParts(L, X, cs, co, Y, x);
    }
    WordsMerged(d.nodes, d1.nodes, r.nodes, X, cs, R, co, Y);
  }

  lemma InOuterParts(L: seq<Id>, X: seq<Id>, cs: seq<Id>, co: seq<Id>, Y: seq<Id>, x: Id)
    requires L == X + cs + co + Y && x in X + Y
    ensures x in L
  {
    var i: nat :| if x in X then i < |X| && X[i] == x && L[i] == x
                  else i < |Y| && Y[i] == x && L[|X| + |cs| + |co| + i] == x;
  }

  /** Zapping `o` from `X + M + co + Y` leaves `X + M + Y`. */
  lemma MergedLeaves(d1: Doc, o: Id, X: seq<Id>, M: seq<Id>, Y: seq<Id>)
    requires WellFormed(d1) && o in d1.nodes && d1.nodes[o].kind == Sentence
    requires Leaves(d1) == X + M + d1.nodes[o].children + Y
    ensures FilterOut(Leaves(d1), {o} + set x | x in d1.nodes[o].children) == X + M + Y
    ensures forall x :: x in X + M + Y ==> x in Leaves(d1) && x !in d1.nodes[o].children && x != o
  {
    LevelSeqNoDup(d1, 3);
    LevelSeqKinds(d1, 3);
    FilterMerged(Leaves(d1), X, M, d1.nodes[o].children, Y, o);
    forall x | x in X + M + Y ensures x in Leaves(d1) && x !in d1.nodes[o].children {
      NoDupSplit(Leaves(d1), X + M, d1.nodes[o].children, Y, x);
    }
  }

  /** What the merge leaves of the other entities. */
  lemma MergedFrame(d: Doc, d1: Doc, r: Doc, s: Id, o: Id)
    requires WellFormed(d) && s in d.nodes && o in d.nodes && s != o
    requires d.nodes[o].kind == Sentence && d.nodes[s].kind == Sentence
    requires forall x :: x in d.nodes && x != s ==> x in d1.nodes && d1.nodes[x] == d.nodes[x]
    requires forall x :: x in d1.nodes && x !in d.nodes ==>
      d1.nodes[x].kind == Tok && d1.nodes[x].cursorIndex == 0 && d1.nodes[x].cursorX < 0
    requires s in d1.nodes && d1.nodes[s] == d.nodes[s].(children := d1.nodes[s].children, hasBucket := d1.nodes[s].hasBucket)
    requires r.nodes.Keys == d1.nodes.Keys - ({o} + set x | x in d1.nodes[o].children)
    requires forall n :: n in r.nodes && Some(n) != d1.nodes[o].parent ==> r.nodes[n] == d1.nodes[n]
    requires d1.nodes[o].parent.Some? && d1.nodes[o].parent.value in r.nodes && r.nodes[d1.nodes[o].parent.value].kind == Paragraph
    ensures o !in r.nodes
    ensures forall q :: q in d.nodes && d.nodes[q].kind == Sentence && q != s && q != o ==> q in r.nodes && r.nodes[q] == d.nodes[q]
    ensures CursorsInWords(d) ==> CursorsInWords(r)
    ensures forall t :: OnlyCursor(d, t) ==> OnlyCursor(r, t)
  {
    ParentLevel(d, o);
    var p := d.nodes[o].parent.value;
    assert d1.nodes[o] == d.nodes[o];
    forall q | q in d.nodes && d.nodes[q].kind == Sentence && q != s && q != o ensures q in r.nodes && r.nodes[q] == d.nodes[q] {
      assert ChildrenOK(d.nodes, o);
      assert q !in d.nodes[o].children;
      assert q != p;
    }
    if CursorsInWords(d) {
      forall n | n in r.nodes && r.nodes[n].kind == Tok ensures r.nodes[n].cursorIndex <= |r.nodes[n].word| {
        assert n != p && n != s;
      }
    }
    forall t | OnlyCursor(d, t) ensures OnlyCursor(r, t) {
      forall n | n in r.nodes && n != t && r.nodes[n].kind == Tok ensures r.nodes[n].cursorX < 0 {
        assert n != p && n != s;
      }
    }
  }

  lemma Assoc(a: seq<Id>, b: seq<Id>, c: seq<Id>)
    ensures a + (b + c) == a + b + c
  {
  }

  lemma Regroup(a: seq<Id>, b: seq<Id>, c: seq<Id>, e: seq<Id>)
    ensures a + b + c + e == a + (b + c) + e
  {
  }

  /** Filtering a sentence and its tokens out of the token order. */
  lemma FilterMerged(L: seq<Id>, X: seq<Id>, M: seq<Id>, co: seq<Id>, Y: seq<Id>, o: Id)
    requires NoDup(L) && L == X + M + co + Y && o !in L
    ensures FilterOut(L, {o} + set x | x in co) == X + M + Y
  {
    var D := {o} + set x | x in co;
    forall x | x in X + M + Y ensures x !in D {
      NoDupSplit(L, X + M, co, Y, x);
    }
    assert L == (X + M) + (co + Y);
    FilterOutAppend(X + M, co + Y, D);
    FilterOutAppend(co, Y, D);
    FilterOutAll(co, D);
    FilterOutNone(X + M, D);
    FilterOutNone(Y, D);
  }

  /** The words after the merge: the copies carry the words of the originals. */
  lemma WordsMerged(ns: Nodes, ns1: Nodes, nr: Nodes, X: seq<Id>, cs: seq<Id>, R: seq<Id>, co: seq<Id>, Y: seq<Id>)
    requires forall x :: x in X + (cs + R) + Y ==> x in nr && x in ns1 && nr[x].word == ns1[x].word
    requires forall x :: x in X + Y ==> x in ns && x in ns1 && ns1[x].word == ns[x].word
    requires Words(ns1, cs + R) == Words(ns, cs) + Words(ns, co)
    ensures Words(nr, X + (cs + R) + Y) == Words(ns, X + cs + co + Y)
  {
    WordsSame(ns1, nr, X + (cs + R) + Y);
    WordsReplace(ns, ns1, X, cs + R, Y);
    WordsAppend(ns, cs, co);
    Regroup(X, cs, co, Y);
    WordsReplace(ns, ns, X, cs + co, Y);
  }

  /** An element of the first or last part of a duplicate-free split list
      is not in the middle part. */
  lemma NoDupSplit(L: seq<Id>, a: seq<Id>, m: seq<Id>, b: seq<Id>, x: Id)
    requires NoDup(L) && L == a + m + b && x in a + b
    ensures x in L && x !in m
  {
    var i: nat :| if x in a then i < |a| && a[i] == x && L[i] == x
                  else i < |b| && b[i] == x && L[|a| + |m| + i] == x;
    forall k | 0 <= k < |m| ensures m[k] != x {
      assert L[|a| + k] == m[k];
    }
  }
}
