/** `TokenEditor.delete_character_left`, the backspace key on a token: it
    deletes the character left of the cursor, walks back over tokens when
    the cursor is at the start of one, and removes a token whose last
    character goes, joining its neighbours into one token. */
module TokenEditing {
  import opened Wrappers
  import opened Sequences
  import opened Entities
  import opened Navigation
  import opened Zapping
  import opened Containers
  import opened Tokens
  import opened Sweeps
  import opened Cursor

  /** `r` has the same tree as `d`: words, cursors, selections and dirty
      flags may differ. */
  ghost predicate ShapeKept(d: Doc, r: Doc) {
    && r.root == d.root && r.nextId == d.nextId && r.nodes.Keys == d.nodes.Keys
    && (forall n :: n in d.nodes ==>
          && r.nodes[n].kind == d.nodes[n].kind && r.nodes[n].children == d.nodes[n].children
          && r.nodes[n].parent == d.nodes[n].parent && r.nodes[n].hasBucket == d.nodes[n].hasBucket)
  }

  /** Keeping the shape keeps well-formedness and the token order. */
  lemma SameShape(d: Doc, r: Doc)
    requires WellFormed(d) && ShapeKept(d, r)
    ensures WellFormed(r) && Leaves(r) == Leaves(d)
  {
    var ns := d.nodes;
    forall n | n in r.nodes ensures ChildrenOK(r.nodes, n) {
      assert ChildrenOK(ns, n);
    }
    forall n | n in r.nodes && n != r.root ensures Attached(r.nodes, n) {
      assert Attached(ns, n);
    }
    DescendSame(ns, r.nodes, [d.root], 3);
    DescendIsLevelSeq(d, 3);
    DescendIsLevelSeq(r, 3);
  }

  /** `Tok.change_word`: the token takes the new word and it and its
      ancestors are marked dirty; nothing else changes. */
  function ChangeWord(d: Doc, t: Id, w: string): (r: Doc)
    requires t in d.nodes
    ensures r.root == d.root && r.nextId == d.nextId && r.nodes.Keys == d.nodes.Keys
    ensures r.nodes[t] == d.nodes[t].(word := w, dirty := true)
    ensures forall n :: n in d.nodes && n != t ==> r.nodes[n] == d.nodes[n].(dirty := r.nodes[n].dirty)
    ensures forall n :: n in d.nodes ==> (r.nodes[n].dirty <==> d.nodes[n].dirty || AncestorOrSelf(d.nodes, n, t))
  {
    var ns := d.nodes[t := d.nodes[t].(word := w)];
    forall n | n in d.nodes ensures AncestorOrSelf(ns, n, t) == AncestorOrSelf(d.nodes, n, t) {
      AncestorAfterUpdate(d.nodes, t, d.nodes[t].(word := w), n, t);
    }
    d.(nodes := MarkDirty(ns, t))
  }

  /** Changing a word keeps the shape. */
  lemma ChangeWordShape(d: Doc, t: Id, w: string)
    requires t in d.nodes
    ensures ShapeKept(d, ChangeWord(d, t, w))
  {
  }

  /** In the document's text, changing a token's word replaces exactly that
      token's entry. */
  lemma ChangeWordText(d: Doc, t: Id, w: string)
    requires WellFormed(d) && t in d.nodes && d.nodes[t].kind == Tok
    ensures t in Leaves(d)
    ensures var r := ChangeWord(d, t, w);
      && WellFormed(r) && Leaves(r) == Leaves(d)
      && Text(r) == Text(d)[IndexOf(Leaves(d), t) := w]
  {
    var r := ChangeWord(d, t, w);
    ChangeWordShape(d, t, w);
    SameShape(d, r);
    LevelSeqComplete(d, t);
    LevelSeqNoDup(d, 3);
    WordsReplaceAt(d.nodes, r.nodes, Leaves(d), IndexOf(Leaves(d), t), w);
  }

  /** The words of a duplicate-free run after one entry's word changes. */
  lemma WordsReplaceAt(ns: Nodes, ns': Nodes, s: seq<Id>, i: nat, w: string)
    requires NoDup(s) && i < |s| && s[i] in ns' && ns'[s[i]].word == w
    requires forall x :: x in s && x != s[i] ==> (x in ns <==> x in ns') && (x in ns ==> ns'[x].word == ns[x].word)
    ensures Words(ns', s) == Words(ns, s)[i := w]
  {
    forall k | 0 <= k < |s| ensures Words(ns', s)[k] == Words(ns, s)[i := w][k] {
      if k != i {
        assert s[k] != s[i];
      }
    }
  }

  /** The words of a run with entry `i` dropped, the others keeping their words. */
  lemma WordsRemoveAt(ns: Nodes, ns': Nodes, s: seq<Id>, i: nat)
    requires i < |s|
    requires forall x :: x in s[..i] + s[i + 1..] ==> x in ns && x in ns' && ns'[x].word == ns[x].word
    ensures Words(ns', s[..i] + s[i + 1..]) == Words(ns, s)[..i] + Words(ns, s)[i + 1..]
  {
    var s' := s[..i] + s[i + 1..];
    forall k | 0 <= k < |s'| ensures Words(ns', s')[k] == (Words(ns, s)[..i] + Words(ns, s)[i + 1..])[k] {
      assert s'[k] in s';
      if k >= i {
        assert s'[k] == s[k + 1];
      }
    }
  }

  /** Zapping a token takes exactly its entry out of the token order and
      out of the text; every other entity but its sentence is untouched. */
  method ZapTok(d: Doc, t: Id, ghost i: nat) returns (r: Doc)
    requires WellFormed(d) && t in d.nodes && d.nodes[t].kind == Tok
    requires i < |Leaves(d)| && Leaves(d)[i] == t
    ensures WellFormed(r) && r.root == d.root && r.nextId == d.nextId
    ensures Leaves(r) == Leaves(d)[..i] + Leaves(d)[i + 1..]
    ensures Text(r) == Text(d)[..i] + Text(d)[i + 1..]
    ensures r.nodes.Keys == d.nodes.Keys - {t}
    ensures forall n :: n in r.nodes ==> r.nodes[n] == d.nodes[n].(children := FilterOut(d.nodes[n].children, {t}))
  {
    ZapTokFrame(d, t);
    ZapTokLeaves(d, t, i);
    r := Zap(d, t);
    var L := Leaves(d);
    forall x | x in L[..i] + L[i + 1..] ensures x in d.nodes && x in r.nodes && r.nodes[x].word == d.nodes[x].word {
      assert x in Leaves(r);
    }
    WordsRemoveAt(d.nodes, r.nodes, L, i);
    ZapTokLists(d, r, t);
  }

  /** What zapping a token leaves of the arena: the token is gone, its
      sentence lost it, and everything else is as it was. */
  lemma ZapTokFrame(d: Doc, t: Id)
    requires WellFormed(d) && t in d.nodes && d.nodes[t].kind == Tok
    ensures var r := Zap(d, t);
      && r.nodes.Keys == d.nodes.Keys - {t}
      && (forall n :: n in r.nodes && Some(n) != d.nodes[t].parent ==> r.nodes[n] == d.nodes[n])
      && d.nodes[t].parent.Some?
      && var p := d.nodes[t].parent.value;
      && p in r.nodes && r.nodes[p] == d.nodes[p].(children := RemoveFirst(d.nodes[p].children, t))
      && d.nodes[p].kind == Sentence
  {
    SubtreeOfTok(d, t);
    assert Attached(d.nodes, t);
    var p := d.nodes[t].parent.value;
    assert ChildrenOK(d.nodes, p);
    forall n | n in d.nodes && n != t ensures !AncestorOrSelf(d.nodes, t, n) {
      assert n !in Subtree(d.nodes, t);
    }
  }

  /** Zapping a token keeps the document well formed and drops the token
      from the token order; what remains are tokens other than the zapped
      one and its sentence. */
  lemma ZapTokLeaves(d: Doc, t: Id, i: nat)
    requires WellFormed(d) && t in d.nodes && d.nodes[t].kind == Tok
    requires i < |Leaves(d)| && Leaves(d)[i] == t
    ensures var r := Zap(d, t);
      && WellFormed(r)
      && Leaves(r) == Leaves(d)[..i] + Leaves(d)[i + 1..]
      && forall x :: x in Leaves(r) ==> x in d.nodes && x != t && d.nodes[x].kind == Tok
  {
    var L := Leaves(d);
    ZapTokOrder(d, t);
    assert FilterOut(L, {t}) == L[..i] + L[i + 1..] && t !in L[..i] + L[i + 1..] by {
      LevelSeqNoDup(d, 3);
      FilterOutAt(L, i);
    }
    assert forall x :: x in L ==> x in d.nodes && d.nodes[x].kind == Tok by { LevelSeqKinds(d, 3); }
  }

  /** A token's subtree is the token alone, so zapping it filters just the
      token out of the token order. */
  lemma ZapTokOrder(d: Doc, t: Id)
    requires WellFormed(d) && t in d.nodes && d.nodes[t].kind == Tok
    ensures WellFormed(Zap(d, t)) && Leaves(Zap(d, t)) == FilterOut(Leaves(d), {t})
  {
    assert t != d.root;
    ZapWellFormed(d, t);
    ZapLevel(d, t, 3);
    SubtreeOfTok(d, t);
  }

  /** The word after deleting the character left of cursor index `c` (the
      three in-word branches of `delete_character_left`): with the cursor
      inside the word the character at `c - 1` goes; with the cursor past
      the end nothing goes, as Python's slices are clipped. */
  function DeletedWord(w: string, c: nat): (r: string)
    requires c >= 1
    ensures c <= |w| ==> |r| + 1 == |w| && r[..c - 1] == w[..c - 1] && r[c - 1..] == w[c..]
    ensures c > |w| ==> r == w
  {
    if c == 1 then (if |w| >= 1 then w[1..] else [])
    else if c < |w| then w[..c - 1] + w[c..]
    else PyPrefix(w, c - 1)
  }

  /** Putting the deleted character back at `c - 1` restores the word. */
  lemma DeletedWordRoundTrip(w: string, c: nat)
    requires 1 <= c <= |w|
    ensures var r := DeletedWord(w, c); r[..c - 1] + [w[c - 1]] + r[c - 1..] == w
  {
    var r := DeletedWord(w, c);
    assert w == w[..c - 1] + [w[c - 1]] + w[c..];
  }

  /** The in-word branches of `delete_character_left` as written: the token
      takes the shorter word through `change_word`, and its cursor index is
      left where it was. */
  function EditWordAsWritten(d: Doc, t: Id): (r: Doc)
    requires t in d.nodes && d.nodes[t].cursorIndex >= 1
    ensures t in r.nodes && r.nodes[t].cursorIndex == d.nodes[t].cursorIndex
    ensures r.nodes[t].word == DeletedWord(d.nodes[t].word, d.nodes[t].cursorIndex)
  {
    ChangeWord(d, t, DeletedWord(d.nodes[t].word, d.nodes[t].cursorIndex))
  }

  /** With the cursor at the end of a word of two or more characters (as on
      "abc" with index 3), the as-written edit leaves the index past the end
      of the shortened word, and the next backspace deletes nothing. */
  lemma EditWordAsWrittenStrandsCursor(d: Doc, t: Id)
    requires t in d.nodes && d.nodes[t].kind == Tok
    requires 2 <= |d.nodes[t].word| == d.nodes[t].cursorIndex
    ensures var r := EditWordAsWritten(d, t);
      && !CursorsInWords(r)
      && EditWordAsWritten(r, t).nodes[t].word == r.nodes[t].word
    ensures DeletedWord("abc", 3) == "ab" && DeletedWord("ab", 3) == "ab"
  {
    var r := EditWordAsWritten(d, t);
    assert r.nodes[t].kind == Tok;
    assert "abc"[..2] == "ab";
  }

  /** The in-word branches as evidently intended: the word loses the
      character left of the cursor and the cursor steps back over it. */
  function EditWord(d: Doc, t: Id): (r: Doc)
    requires t in d.nodes && d.nodes[t].cursorIndex >= 1
    ensures r.nodes.Keys == d.nodes.Keys && r.nodes[t].kind == d.nodes[t].kind
    ensures r.nodes[t].cursorIndex + 1 == d.nodes[t].cursorIndex
    ensures r.nodes[t].word == DeletedWord(d.nodes[t].word, d.nodes[t].cursorIndex)
    ensures forall n :: n in d.nodes && n != t ==>
      r.nodes[n].kind == d.nodes[n].kind && r.nodes[n].word == d.nodes[n].word && r.nodes[n].cursorIndex == d.nodes[n].cursorIndex
  {
    var c := d.nodes[t].cursorIndex;
    var d1 := ChangeWord(d, t, DeletedWord(d.nodes[t].word, c));
    d1.(nodes := d1.nodes[t := d1.nodes[t].(cursorIndex := c - 1)])
  }

  /** Two deletions at `c` then `c - 1` take out the two characters before
      index `c`. */
  lemma DeletedTwice(w: string, c: nat)
    requires 2 <= c <= |w|
    ensures DeletedWord(DeletedWord(w, c), c - 1) == w[..c - 2] + w[c..]
  {
    var w1 := DeletedWord(w, c);
    var w2 := DeletedWord(w1, c - 1);
    assert w2[..c - 2] == w1[..c - 2] == w[..c - 2];
    assert w2[c - 2..] == w1[c - 1..] == w[c..];
    assert w2 == w2[..c - 2] + w2[c - 2..];
  }

  /** The corrected edit keeps every cursor inside its word. */
  lemma EditWordKeepsCursor(d: Doc, t: Id)
    requires t in d.nodes && d.nodes[t].kind == Tok && d.nodes[t].cursorIndex >= 1
    ensures CursorsInWords(d) ==> CursorsInWords(EditWord(d, t))
  {
    var r := EditWord(d, t);
    if CursorsInWords(d) {
      assert r.nodes[t].cursorIndex <= |r.nodes[t].word|;
      CursorsOutsideOne(d, r, t);
    }
  }

  /** Cursors stay inside words when only token `t` changes and its own
      cursor is inside its word. */
  lemma CursorsOutsideOne(d: Doc, r: Doc, t: Id)
    requires CursorsInWords(d) && r.nodes.Keys == d.nodes.Keys && t in r.nodes
    requires r.nodes[t].cursorIndex <= |r.nodes[t].word|
    requires forall n :: n in d.nodes && n != t ==>
      r.nodes[n].kind == d.nodes[n].kind && r.nodes[n].word == d.nodes[n].word && r.nodes[n].cursorIndex == d.nodes[n].cursorIndex
    ensures CursorsInWords(r)
  {
  }

  /** After the corrected edit a second backspace deletes the character
      before the first one: two presses inside a word remove two adjacent
      characters. */
  lemma EditWordTwice(d: Doc, t: Id)
    requires t in d.nodes && d.nodes[t].kind == Tok
    requires 2 <= d.nodes[t].cursorIndex <= |d.nodes[t].word|
    ensures var w, c := d.nodes[t].word, d.nodes[t].cursorIndex;
      EditWord(EditWord(d, t), t).nodes[t].word == w[..c - 2] + w[c..]
  {
    var w, c := d.nodes[t].word, d.nodes[t].cursorIndex;
    var r := EditWord(d, t);
    var w1 := r.nodes[t].word;
    assert w1 == DeletedWord(w, c);
    var r2 := EditWord(r, t);
    assert r2.nodes[t].word == DeletedWord(w1, c - 1);
    DeletedTwice(w, c);
  }

  /** The corrected edit changes no entity's place in the tree. */
  lemma EditWordShape(d: Doc, t: Id)
    requires t in d.nodes && d.nodes[t].cursorIndex >= 1
    ensures ShapeKept(d, EditWord(d, t))
  {
    var w := DeletedWord(d.nodes[t].word, d.nodes[t].cursorIndex);
    ChangeWordShape(d, t, w);
  }

  /** The corrected edit on a well-formed document: the tree is kept and
      the text changes in the edited token's entry only. */
  method EditWordStep(d: Doc, t: Id) returns (r: Doc)
    requires WellFormed(d) && t in d.nodes && d.nodes[t].kind == Tok && d.nodes[t].cursorIndex >= 1
    ensures r == EditWord(d, t)
    ensures t in Leaves(d) && WellFormed(r) && Leaves(r) == Leaves(d)
    ensures Text(r) == Text(d)[IndexOf(Leaves(d), t) := DeletedWord(d.nodes[t].word, d.nodes[t].cursorIndex)]
    ensures CursorsInWords(d) ==> CursorsInWords(r)
    ensures ShapeKept(d, r)
  {
    var w := DeletedWord(d.nodes[t].word, d.nodes[t].cursorIndex);
    r := EditWord(d, t);
    EditWordShape(d, t);
    SameShape(d, r);
    LevelSeqComplete(d, t);
    LevelSeqNoDup(d, 3);
    WordsReplaceAt(d.nodes, r.nodes, Leaves(d), IndexOf(Leaves(d), t), w);
    EditWordKeepsCursor(d, t);
  }

  /** Zapping a token changes child lists only, so every cursor stays
      where it was. */
  lemma ZapCursors(d: Doc, r: Doc, t: Id)
    requires r.nodes.Keys <= d.nodes.Keys
    requires forall n :: n in r.nodes ==> r.nodes[n] == d.nodes[n].(children := FilterOut(d.nodes[n].children, {t}))
    ensures CursorsInWords(d) ==> CursorsInWords(r)
    ensures forall x :: OnlyCursor(d, x) ==> OnlyCursor(r, x)
  {
  }

  /** What zapping a token does to every child list: the token is filtered
      out of its sentence's list, the others are unchanged. */
  lemma ZapTokLists(d: Doc, r: Doc, t: Id)
    requires WellFormed(d) && t in d.nodes && d.nodes[t].kind == Tok
    requires r.nodes.Keys == d.nodes.Keys - {t}
    requires forall n :: n in r.nodes && Some(n) != d.nodes[t].parent ==> r.nodes[n] == d.nodes[n]
    requires d.nodes[t].parent.Some? && var p := d.nodes[t].parent.value;
      p in r.nodes && r.nodes[p] == d.nodes[p].(children := RemoveFirst(d.nodes[p].children, t))
    ensures forall n :: n in r.nodes ==> r.nodes[n] == d.nodes[n].(children := FilterOut(d.nodes[n].children, {t}))
  {
    forall n | n in r.nodes ensures r.nodes[n] == d.nodes[n].(children := FilterOut(d.nodes[n].children, {t})) {
      assert ChildrenOK(d.nodes, n);
      if Some(n) == d.nodes[t].parent {
        RemoveFirstIsFilterOut(d.nodes[n].children, t, {t});
      } else {
        FilterOutNone(d.nodes[n].children, {t});
      }
    }
  }

  /** `join_tokens` on a well-formed document, as a step: the joined token
      enters the token order and the text right before `a`, and only the
      sentence's child list changes. */
  method JoinStep(d: Doc, s: Id, a: Id, b: Id, ghost i: nat) returns (r: Doc, J: Id)
    requires WellFormed(d) && s in d.nodes && d.nodes[s].kind == Sentence && a in d.nodes && b in d.nodes
    requires a in d.nodes[s].children && i < |Leaves(d)| && Leaves(d)[i] == a
    ensures JoinTokens(d, s, a, b).Ok?
    ensures J == d.nextId && J !in d.nodes && WellFormed(r) && r.root == d.root
    ensures Leaves(r) == Leaves(d)[..i] + [J] + Leaves(d)[i..]
    ensures Text(r) == Text(d)[..i] + [d.nodes[a].word + d.nodes[b].word] + Text(d)[i..]
    ensures r.nodes.Keys == d.nodes.Keys + {J}
    ensures r.nodes[J] == NewNode(Tok, Some(s), d.nodes[a].word + d.nodes[b].word)
    ensures forall n :: n in d.nodes ==>
      r.nodes[n] == d.nodes[n].(children := if n == s then InsertBefore(d.nodes[n].children, a, J) else d.nodes[n].children)
  {
    assert ChildrenOK(d.nodes, s);
    assert d.nextId !in d.nodes;
    var res := JoinTokens(d, s, a, b);
    J, r := res.value.0, res.value.1;
    JoinTokensLeaves(d, s, a, b);
    JoinTokensText(d, s, a, b);
    LevelSeqNoDup(d, 3);
    IndexOfUnique(Leaves(d), i);
  }

  /** The child lists after the join branch, from those before it: `t`, `p`
      and `n` are filtered out, and `p`'s sentence has the joined token where
      `p` was. */
  lemma JoinedList(c: seq<Id>, t: Id, p: Id, n: Id, J: Id, ins: bool)
    requires ins ==> p in c
    requires J !in c && J != t && J != p && J != n && p != t
    ensures ins ==> p in FilterOut(c, {t})
    ensures var c2 := FilterOut(c, {t});
      var c3 := if ins then InsertBefore(c2, p, J) else c2;
      FilterOut(FilterOut(c3, {p}), {n}) == FilterOut(if ins then InsertBefore(c, p, J) else c, {t, p, n})
  {
    var c2 := FilterOut(c, {t});
    var c0 := if ins then InsertBefore(c, p, J) else c;
    if ins {
      FilterOutInsertBefore(c, p, J, {t});
    }
    var c3 := if ins then InsertBefore(c2, p, J) else c2;
    assert c3 == FilterOut(c0, {t});
    FilterOutTwice(c3, {p}, {n});
    FilterOutTwice(c0, {t}, {p} + {n});
    assert {t} + ({p} + {n}) == {t, p, n};
  }

  /** The join branch of a single-character backspace on token `t` at index
      `j` of the token order, between `p` and `n`, `s` being `p`'s sentence:
      `t` is zapped, `s.join_tokens(p, n)` makes the joined token, the
      cursor goes into it at the end of `p`'s word, and `p` and `n` are
      zapped. The three tokens give way to the joined one in the token order
      and in the text, and the three are filtered out of their sentences. */
  method JoinNeighbours(d: Doc, t: Id, p: Id, n: Id, s: Id, ghost j: nat, measure: string -> int) returns (r: Doc, J: Id)
    requires WellFormed(d) && t in d.nodes && d.nodes[t].kind == Tok
    requires 0 < j && j + 1 < |Leaves(d)| && Leaves(d)[j] == t
    requires p == Leaves(d)[j - 1] && n == Leaves(d)[j + 1]
    requires p in d.nodes && d.nodes[p].parent == Some(s)
    requires s in d.nodes && p in d.nodes[s].children
    ensures WellFormed(r) && r.root == d.root && J == d.nextId && J !in d.nodes
    ensures Leaves(r) == Leaves(d)[..j - 1] + [J] + Leaves(d)[j + 2..]
    ensures Text(r) == Text(d)[..j - 1] + [Text(d)[j - 1] + Text(d)[j + 1]] + Text(d)[j + 2..]
    ensures J in r.nodes && r.nodes[J].cursorIndex == |d.nodes[p].word| && OnlyCursor(r, J)
    ensures CursorsInWords(d) ==> CursorsInWords(r)
    ensures forall q :: q in d.nodes && d.nodes[q].kind == Sentence ==>
      && q in r.nodes && r.nodes[q].kind == Sentence && r.nodes[q].parent == d.nodes[q].parent
      && r.nodes[q].children == FilterOut(if q == s then InsertBefore(d.nodes[q].children, p, J) else d.nodes[q].children, {t, p, n})
  {
    ghost var L, T := Leaves(d), Text(d);
    NeighbourFacts(d, t, p, n, s, j);
    var r2;
    r2, J := JoinHead(d, t, p, n, s, j);
    RemovedNeighbours(L, j);
    InsertedNeighbours(L[..j] + L[j + 1..], j - 1, J);
    r := JoinTail(r2, J, p, n, j, |d.nodes[p].word|, measure);
    Splice(L, j, J);
    Splice(T, j, d.nodes[p].word + d.nodes[n].word);
    forall q | q in d.nodes && d.nodes[q].kind == Sentence
      ensures && q in r.nodes && r.nodes[q].kind == Sentence && r.nodes[q].parent == d.nodes[q].parent
        && r.nodes[q].children == FilterOut(if q == s then InsertBefore(d.nodes[q].children, p, J) else d.nodes[q].children, {t, p, n})
    {
      assert q != t && q != p && q != n;
      JoinedNode(d.nodes[q], r2.nodes[q], r.nodes[q], t, p, n, J, q == s);
    }
  }

  /** The first half of the join branch: `t` is zapped and the joined token
      enters the token order right before `p`, in `p`'s sentence. */
  method JoinHead(d: Doc, t: Id, p: Id, n: Id, s: Id, ghost j: nat) returns (r2: Doc, J: Id)
    requires WellFormed(d) && t in d.nodes && d.nodes[t].kind == Tok
    requires 0 < j && j + 1 < |Leaves(d)| && Leaves(d)[j] == t
    requires p == Leaves(d)[j - 1] && n == Leaves(d)[j + 1]
    requires p in d.nodes && n in d.nodes && p != t && n != t
    requires s in d.nodes && d.nodes[s].kind == Sentence && p in d.nodes[s].children
    ensures WellFormed(r2) && r2.root == d.root && J == d.nextId && J !in d.nodes
    ensures var L1 := Leaves(d)[..j] + Leaves(d)[j + 1..];
      Leaves(r2) == L1[..j - 1] + [J] + L1[j - 1..]
    ensures var T1 := Text(d)[..j] + Text(d)[j + 1..];
      Text(r2) == T1[..j - 1] + [d.nodes[p].word + d.nodes[n].word] + T1[j - 1..]
    ensures J in r2.nodes && r2.nodes[J].kind == Tok && r2.nodes[J].word == d.nodes[p].word + d.nodes[n].word
    ensures forall q :: q in d.nodes && q != t ==>
      (var c := FilterOut(d.nodes[q].children, {t});
       && q in r2.nodes && (q == s ==> p in c)
       && r2.nodes[q] == d.nodes[q].(children := if q == s then InsertBefore(c, p, J) else c))
    ensures CursorsInWords(d) ==> CursorsInWords(r2)
  {
    var r1 := ZapTok(d, t, j);
    assert d.nextId !in d.nodes;
    r2, J := JoinAfterZap(d, r1, t, p, n, s, j);
  }

  /** The join itself, once `t` is zapped. */
  method JoinAfterZap(d: Doc, r1: Doc, t: Id, p: Id, n: Id, s: Id, ghost j: nat) returns (r2: Doc, J: Id)
    requires d.nextId !in d.nodes && t in d.nodes && d.nodes[t].kind == Tok
    requires 0 < j && j + 1 < |Leaves(d)| && Leaves(d)[j] == t
    requires p == Leaves(d)[j - 1] && n == Leaves(d)[j + 1]
    requires p in d.nodes && n in d.nodes && p != t && n != t
    requires s in d.nodes && d.nodes[s].kind == Sentence && p in d.nodes[s].children
    requires WellFormed(r1) && r1.root == d.root && r1.nextId == d.nextId
    requires Leaves(r1) == Leaves(d)[..j] + Leaves(d)[j + 1..]
    requires Text(r1) == Text(d)[..j] + Text(d)[j + 1..]
    requires r1.nodes.Keys == d.nodes.Keys - {t}
    requires forall n :: n in r1.nodes ==> r1.nodes[n] == d.nodes[n].(children := FilterOut(d.nodes[n].children, {t}))
    ensures WellFormed(r2) && r2.root == d.root && J == d.nextId && J !in d.nodes
    ensures var L1 := Leaves(d)[..j] + Leaves(d)[j + 1..];
      Leaves(r2) == L1[..j - 1] + [J] + L1[j - 1..]
    ensures var T1 := Text(d)[..j] + Text(d)[j + 1..];
      Text(r2) == T1[..j - 1] + [d.nodes[p].word + d.nodes[n].word] + T1[j - 1..]
    ensures J in r2.nodes && r2.nodes[J].kind == Tok && r2.nodes[J].word == d.nodes[p].word + d.nodes[n].word
    ensures forall q :: q in d.nodes && q != t ==>
      (var c := FilterOut(d.nodes[q].children, {t});
       && q in r2.nodes && (q == s ==> p in c)
       && r2.nodes[q] == d.nodes[q].(children := if q == s then InsertBefore(c, p, J) else c))
    ensures CursorsInWords(d) ==> CursorsInWords(r2)
  {
    RemovedNeighbours(Leaves(d), j);
    FilterOutKeeps(d.nodes[s].children, p, {t});
    assert s != t;
    SameInsert(Leaves(r1), Leaves(d)[..j] + Leaves(d)[j + 1..], j - 1, r1.nextId);
    assert r1.nodes[p].word + r1.nodes[n].word == d.nodes[p].word + d.nodes[n].word;
    SameInsert(Text(r1), Text(d)[..j] + Text(d)[j + 1..], j - 1, d.nodes[p].word + d.nodes[n].word);
    r2, J := JoinStep(r1, s, p, n, j - 1);
    ZapCursors(d, r1, t);
    JoinStepCursors(r1, r2, J);
    JoinHeadNodes(d, r1, r2, t, p, s, J);
  }

  /** Inserting into equal sequences gives equal sequences. */
  lemma SameInsert<T>(a: seq<T>, b: seq<T>, i: nat, x: T)
    requires a == b && i <= |a|
    ensures a[..i] + [x] + a[i..] == b[..i] + [x] + b[i..]
  {
  }

  /** Removing index `j` brings its two neighbours together. */
  lemma RemovedNeighbours<T>(s: seq<T>, j: nat)
    requires 0 < j && j + 1 < |s|
    ensures var s1 := s[..j] + s[j + 1..];
      |s1| + 1 == |s| && s1[j - 1] == s[j - 1] && s1[j] == s[j + 1]
  {
  }

  /** Removing index `j` brings the next element to index `j`. */
  lemma RemovedNext<T>(s: seq<T>, j: nat)
    requires j + 1 < |s|
    ensures var s1 := s[..j] + s[j + 1..];
      |s1| + 1 == |s| && s1[j] == s[j + 1]
  {
  }

  /** Inserting at index `i` shifts the element there and the next one up by
      one. */
  lemma InsertedNeighbours<T>(s: seq<T>, i: nat, e: T)
    requires i + 1 < |s|
    ensures var s2 := s[..i] + [e] + s[i..];
      |s2| == |s| + 1 && s2[i + 1] == s[i] && s2[i + 2] == s[i + 1]
  {
  }

  /** Every entity but `t` through the first half of the join branch. */
  lemma JoinHeadNodes(d: Doc, r1: Doc, r2: Doc, t: Id, p: Id, s: Id, J: Id)
    requires r1.nodes.Keys == d.nodes.Keys - {t}
    requires forall x :: x in r1.nodes ==> r1.nodes[x] == d.nodes[x].(children := FilterOut(d.nodes[x].children, {t}))
    requires s in r1.nodes && p in r1.nodes[s].children
    requires r2.nodes.Keys == r1.nodes.Keys + {J}
    requires forall x :: x in r1.nodes ==>
      r2.nodes[x] == r1.nodes[x].(children := if x == s then InsertBefore(r1.nodes[x].children, p, J) else r1.nodes[x].children)
    ensures forall q :: q in d.nodes && q != t ==>
      (var c := FilterOut(d.nodes[q].children, {t});
       && q in r2.nodes && (q == s ==> p in c)
       && r2.nodes[q] == d.nodes[q].(children := if q == s then InsertBefore(c, p, J) else c))
  {
    forall q | q in d.nodes && q != t
      ensures var c := FilterOut(d.nodes[q].children, {t});
       && q in r2.nodes && (q == s ==> p in c)
       && r2.nodes[q] == d.nodes[q].(children := if q == s then InsertBefore(c, p, J) else c)
    {
      assert q in r1.nodes;
    }
  }

  /** A new token with its cursor at index 0 keeps every cursor in its word. */
  lemma JoinStepCursors(r1: Doc, r2: Doc, J: Id)
    requires J in r2.nodes && r2.nodes.Keys == r1.nodes.Keys + {J} && r2.nodes[J].cursorIndex == 0
    requires forall x :: x in r1.nodes ==> r2.nodes[x] == r1.nodes[x].(children := r2.nodes[x].children)
    ensures CursorsInWords(r1) ==> CursorsInWords(r2)
  {
  }

  /** The second half of the join branch: the cursor goes into the joined
      token `J` at index `k`, then `p` and `n`, the two tokens after it, are
      zapped. */
  method JoinTail(r2: Doc, J: Id, p: Id, n: Id, ghost j: nat, k: nat, measure: string -> int) returns (r: Doc)
    requires WellFormed(r2) && J in r2.nodes && r2.nodes[J].kind == Tok && k <= |r2.nodes[J].word|
    requires j + 1 < |Leaves(r2)| && Leaves(r2)[j] == p && Leaves(r2)[j + 1] == n
    requires p in r2.nodes && n in r2.nodes && p != J && n != J && p != n
    requires r2.nodes[p].kind == Tok && r2.nodes[n].kind == Tok
    ensures WellFormed(r) && r.root == r2.root
    ensures var L3 := Leaves(r2)[..j] + Leaves(r2)[j + 1..];
      Leaves(r) == L3[..j] + L3[j + 1..]
    ensures var T3 := Text(r2)[..j] + Text(r2)[j + 1..];
      Text(r) == T3[..j] + T3[j + 1..]
    ensures J in r.nodes && r.nodes[J].cursorIndex == k && OnlyCursor(r, J)
    ensures CursorsInWords(r2) ==> CursorsInWords(r)
    ensures forall q :: q in r2.nodes && q != p && q != n ==>
      && q in r.nodes && r.nodes[q].kind == r2.nodes[q].kind && r.nodes[q].parent == r2.nodes[q].parent
      && r.nodes[q].children == FilterOut(FilterOut(r2.nodes[q].children, {p}), {n})
  {
    var px := GetXPos(r2.nodes[J].word, k, measure);
    var r3 := PlaceOnToken(r2, J, px.0, px.1);
    SameTree(r2, r3, r2.root);
    WordsSame(r2.nodes, r3.nodes, Leaves(r2));
    r := ZapPair(r3, J, p, n, j);
  }

  /** Zapping the two tokens at index `j` and `j + 1` of the token order, the
      first then the second, as the join branch does after placing the
      cursor on `J`. */
  method ZapPair(r3: Doc, J: Id, p: Id, n: Id, ghost j: nat) returns (r: Doc)
    requires WellFormed(r3) && J in r3.nodes
    requires j + 1 < |Leaves(r3)| && Leaves(r3)[j] == p && Leaves(r3)[j + 1] == n
    requires p in r3.nodes && n in r3.nodes && p != J && n != J && p != n
    requires r3.nodes[p].kind == Tok && r3.nodes[n].kind == Tok
    ensures WellFormed(r) && r.root == r3.root
    ensures var L3 := Leaves(r3)[..j] + Leaves(r3)[j + 1..];
      Leaves(r) == L3[..j] + L3[j + 1..]
    ensures var T3 := Text(r3)[..j] + Text(r3)[j + 1..];
      Text(r) == T3[..j] + T3[j + 1..]
    ensures J in r.nodes && r.nodes[J].cursorIndex == r3.nodes[J].cursorIndex
    ensures OnlyCursor(r3, J) ==> OnlyCursor(r, J)
    ensures CursorsInWords(r3) ==> CursorsInWords(r)
    ensures forall q :: q in r3.nodes && q != p && q != n ==>
      && q in r.nodes && r.nodes[q].kind == r3.nodes[q].kind && r.nodes[q].parent == r3.nodes[q].parent
      && r.nodes[q].children == FilterOut(FilterOut(r3.nodes[q].children, {p}), {n})
  {
    RemovedNext(Leaves(r3), j);
    var r4 := ZapTok(r3, p, j);
    r := ZapTok(r4, n, j);
    ZapCursors(r3, r4, p);
    ZapCursors(r4, r, n);
    ZapPairNodes(r3, r4, r, p, n);
  }

  /** Every entity but `p` and `n` through the two zaps. */
  lemma ZapPairNodes(r3: Doc, r4: Doc, r: Doc, p: Id, n: Id)
    requires r4.nodes.Keys == r3.nodes.Keys - {p}
    requires forall x :: x in r4.nodes ==> r4.nodes[x] == r3.nodes[x].(children := FilterOut(r3.nodes[x].children, {p}))
    requires r.nodes.Keys == r4.nodes.Keys - {n}
    requires forall x :: x in r.nodes ==> r.nodes[x] == r4.nodes[x].(children := FilterOut(r4.nodes[x].children, {n}))
    ensures forall q :: q in r3.nodes && q != p && q != n ==>
      && q in r.nodes && r.nodes[q].kind == r3.nodes[q].kind && r.nodes[q].parent == r3.nodes[q].parent
      && r.nodes[q].children == FilterOut(FilterOut(r3.nodes[q].children, {p}), {n})
  {
    forall q | q in r3.nodes && q != p && q != n
      ensures && q in r.nodes && r.nodes[q].kind == r3.nodes[q].kind && r.nodes[q].parent == r3.nodes[q].parent
        && r.nodes[q].children == FilterOut(FilterOut(r3.nodes[q].children, {p}), {n})
    {
      assert q in r4.nodes;
    }
  }

  /** The neighbours of `t` are distinct tokens, and `p` is in the child list
      of its sentence. */
  lemma NeighbourFacts(d: Doc, t: Id, p: Id, n: Id, s: Id, j: nat)
    requires WellFormed(d) && 0 < j && j + 1 < |Leaves(d)| && Leaves(d)[j] == t
    requires p == Leaves(d)[j - 1] && n == Leaves(d)[j + 1]
    requires p in d.nodes && d.nodes[p].parent == Some(s)
    ensures p in d.nodes && n in d.nodes && d.nodes[p].kind == Tok && d.nodes[n].kind == Tok
    ensures p != t && n != t && p != n
    ensures s in d.nodes && d.nodes[s].kind == Sentence && p in d.nodes[s].children
    ensures Text(d)[j - 1] == d.nodes[p].word && Text(d)[j + 1] == d.nodes[n].word
    ensures forall q :: q in d.nodes ==> d.nextId !in d.nodes[q].children
  {
    forall q | q in d.nodes ensures d.nextId !in d.nodes[q].children {
      assert ChildrenOK(d.nodes, q);
    }
    var L := Leaves(d);
    LevelSeqKinds(d, 3);
    LevelSeqNoDup(d, 3);
    assert L[j - 1] in L && L[j + 1] in L;
    ParentLevel(d, p);
  }

  /** One entity's node through the steps of the join branch. */
  lemma JoinedNode(n0: Node, n2: Node, n5: Node, t: Id, p: Id, n: Id, J: Id, ins: bool)
    requires J !in n0.children && J != t && J != p && J != n && p != t
    requires ins ==> p in n0.children
    requires ins ==> p in FilterOut(n0.children, {t})
    requires var c := FilterOut(n0.children, {t});
      n2 == n0.(children := if ins then InsertBefore(c, p, J) else c)
    requires n5.kind == n2.kind && n5.parent == n2.parent
    requires n5.children == FilterOut(FilterOut(n2.children, {p}), {n})
    ensures n5.kind == n0.kind && n5.parent == n0.parent
    ensures n5.children == FilterOut(if ins then InsertBefore(n0.children, p, J) else n0.children, {t, p, n})
  {
    JoinedList(n0.children, t, p, n, J, ins);
  }
}
