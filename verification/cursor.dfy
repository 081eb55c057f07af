/** Moving the text cursor between tokens: placing it at an index (which
    removes it from every other token), the arrow keys' `move_left` and
    `move_right`, and `calculate_cursor_x`, which turns a click position
    into an index, possibly on the next token. */
module Cursor {
  import opened Wrappers
  import opened Sequences
  import opened Entities
  import opened Navigation
  import opened Peers
  import opened Tokens
  import opened Sweeps

  /** `set_cursor_word_index`: only the index changes, not the drawn cursor. */
  function SetCursorWordIndex(d: Doc, t: Id, index: nat): (r: Doc)
    requires t in d.nodes
    ensures TreeKept(d, r)
    ensures r.nodes[t] == d.nodes[t].(cursorIndex := index)
    ensures forall n :: n in d.nodes && n != t ==> r.nodes[n] == d.nodes[n]
  {
    d.(nodes := d.nodes[t := d.nodes[t].(cursorIndex := index)])
  }

  /** Every token's cursor index lies within its word, the range the
      cursor arithmetic is meant for. */
  ghost predicate CursorsInWords(d: Doc) {
    forall n :: n in d.nodes && d.nodes[n].kind == Tok ==> d.nodes[n].cursorIndex <= |d.nodes[n].word|
  }

  /** No token other than `t` shows a cursor. */
  ghost predicate OnlyCursor(d: Doc, t: Id) {
    forall n :: n in d.nodes && n != t && d.nodes[n].kind == Tok ==> d.nodes[n].cursorX < 0
  }

  /** The token's own part of placing: the index and the drawn position
      (one pixel further in at index 0). */
  function Mark(d: Doc, t: Id, index: nat, x: int): (r: Doc)
    requires t in d.nodes
    ensures TreeKept(d, r) && t in r.nodes
    ensures r.nodes[t].cursorIndex == index
    ensures forall n :: n in d.nodes && n != t ==> r.nodes[n] == d.nodes[n]
  {
    d.(nodes := d.nodes[t := d.nodes[t].(cursorIndex := index, cursorX := if index == 0 then x + 1 else x)])
  }

  /** `place_cursor_at_word_index_and_x_position`: the token takes the index
      and the drawn cursor, then the root container removes the cursor from
      every other token. Finding no root container raises. */
  function PlaceCursor(d: Doc, t: Id, index: nat, x: int): (r: Result<Doc>)
    requires t in d.nodes
    ensures r.Err? ==> r.error == NoRootContainer || r.error == WrongKind
  {
    var d1 := Mark(d, t, index, x);
    match GetRootContainer(d1.nodes, t)
    case Err(e) => Err(e)
    case Ok(root) => Ok(RemoveCursorExcept(d1, root, t))
  }

  /** On a token of a well-formed document placing succeeds: the token holds
      the index and the only cursor, and nothing else changes. */
  lemma PlaceCursorOk(d: Doc, t: Id, index: nat, x: int)
    requires WellFormed(d) && t in d.nodes && d.nodes[t].kind == Tok
    ensures var r := PlaceCursor(d, t, index, x);
      && r.Ok?
      && TreeKept(d, r.value) && WellFormed(r.value)
      && r.value.nodes[t] == Mark(d, t, index, x).nodes[t]
      && OnlyCursor(r.value, t)
      && (forall n :: n in d.nodes && n != t ==> r.value.nodes[n] == d.nodes[n].(cursorX := r.value.nodes[n].cursorX))
      && (CursorsInWords(d) && index <= |d.nodes[t].word| ==> CursorsInWords(r.value))
  {
    var d1 := Mark(d, t, index, x);
    SameTree(d, d1, d.root);
    RootContainerFound(d1, t);
    PlaceCursorSweep(d, d1, t);
    var r := RemoveCursorExcept(d1, d.root, t);
    if CursorsInWords(d) && index <= |d.nodes[t].word| {
      CursorsKept(d, r, t);
    }
  }

  /** The sweep after marking keeps the tree and leaves `t` the only cursor. */
  lemma PlaceCursorSweep(d: Doc, d1: Doc, t: Id)
    requires WellFormed(d) && WellFormed(d1) && TreeKept(d, d1) && t in d.nodes
    requires forall n :: n in d.nodes && n != t ==> d1.nodes[n] == d.nodes[n]
    ensures var r := RemoveCursorExcept(d1, d1.root, t);
      && TreeKept(d, r) && WellFormed(r) && OnlyCursor(r, t) && r.nodes[t] == d1.nodes[t]
      && (forall n :: n in d.nodes && n != t ==> r.nodes[n] == d.nodes[n].(cursorX := r.nodes[n].cursorX))
  {
    RemoveCursorEverywhere(d1, t);
    SweepKeepsTree(d1, TokensUnder(d1.nodes, d1.root), Some(t), ClearCursor, d1.root);
    TreeKeptTrans(d, d1, RemoveCursorExcept(d1, d1.root, t));
  }

  lemma TreeKeptTrans(a: Doc, b: Doc, c: Doc)
    requires TreeKept(a, b) && TreeKept(b, c)
    ensures TreeKept(a, c)
  {
  }

  /** Changing one token's index to one within its word, and only cursor
      positions elsewhere, keeps every index within its word. */
  lemma CursorsKept(d: Doc, r: Doc, t: Id)
    requires CursorsInWords(d) && TreeKept(d, r) && t in d.nodes
    requires r.nodes[t].cursorIndex <= |r.nodes[t].word|
    requires forall n :: n in d.nodes && n != t ==> r.nodes[n] == d.nodes[n].(cursorX := r.nodes[n].cursorX)
    ensures CursorsInWords(r)
  {
  }

  /** `place_cursor_at_word_index`: the index as `get_x_pos_of_word_index`
      clamps it, at the position it computes. */
  function PlaceCursorAtWordIndex(d: Doc, t: Id, index: int, measure: string -> int): (r: Result<Doc>)
    requires t in d.nodes && index >= -1
  {
    var p := GetXPos(d.nodes[t].word, index, measure);
    PlaceCursor(d, t, p.0, p.1)
  }

  /** On a token of a well-formed document the index placed is the clamped
      one, and the token holds the only cursor. */
  lemma PlaceCursorAtWordIndexOk(d: Doc, t: Id, index: int, measure: string -> int)
    requires WellFormed(d) && t in d.nodes && d.nodes[t].kind == Tok && index >= -1
    ensures var r := PlaceCursorAtWordIndex(d, t, index, measure);
      && r.Ok? && TreeKept(d, r.value) && WellFormed(r.value)
      && r.value.nodes[t].cursorIndex == ClampIndex(|d.nodes[t].word|, index)
      && OnlyCursor(r.value, t)
  {
    var p := GetXPos(d.nodes[t].word, index, measure);
    PlaceCursorOk(d, t, p.0, p.1);
  }

  /** The last token of `s` with a non-empty word. */
  function LastNonEmpty(ns: Nodes, s: seq<Id>): (r: Option<Id>)
    ensures r.Some? ==> r.value in s && r.value in ns && |ns[r.value].word| > 0
    ensures r.None? ==> forall x :: x in s && x in ns ==> |ns[x].word| == 0
  {
    if |s| == 0 then None
    else
      var x := s[|s| - 1];
      if x in ns && |ns[x].word| > 0 then Some(x)
      else
        var r := LastNonEmpty(ns, s[..|s| - 1]);
        assert forall y :: y in s ==> y in s[..|s| - 1] || y == x;
        r
  }

  /** Taking the last entry off a prefix of `s`. */
  lemma LastNonEmptyStep(ns: Nodes, s: seq<Id>, j: nat)
    requires 0 < j <= |s| && s[j - 1] in ns
    ensures LastNonEmpty(ns, s[..j]) == if |ns[s[j - 1]].word| > 0 then Some(s[j - 1]) else LastNonEmpty(ns, s[..j - 1])
  {
    assert s[..j][..j - 1] == s[..j - 1];
  }

  /** LastNonEmpty reads only the key set and the words. */
  lemma LastNonEmptySame(d: Doc, r: Doc, s: seq<Id>)
    requires TreeKept(d, r)
    ensures LastNonEmpty(r.nodes, s) == LastNonEmpty(d.nodes, s)
  {
    if |s| > 0 {
      LastNonEmptySame(d, r, s[..|s| - 1]);
    }
  }

  /** Where a token sits in the document order of tokens. */
  lemma LeafPosition(d: Doc, t: Id)
    requires WellFormed(d) && t in d.nodes && d.nodes[t].kind == Tok
    ensures t in Leaves(d) && NoDup(Leaves(d))
    ensures var j := IndexOf(Leaves(d), t);
      && Pred(Leaves(d), t) == (if j > 0 then Some(Leaves(d)[j - 1]) else None)
      && (j > 0 ==> Leaves(d)[j - 1] in d.nodes && d.nodes[Leaves(d)[j - 1]].kind == Tok && IndexOf(Leaves(d), Leaves(d)[j - 1]) == j - 1)
  {
    LevelSeqComplete(d, t);
    LevelSeqNoDup(d, 3);
    LevelSeqKinds(d, 3);
    var L := Leaves(d);
    var j := IndexOf(L, t);
    SuccPredAt(L, j);
    if j > 0 {
      IndexOfUnique(L, j - 1);
      assert L[j - 1] in L;
    }
  }

  /** The token after a token in document order is a token. */
  lemma LeafNext(d: Doc, t: Id)
    requires WellFormed(d) && t in d.nodes && d.nodes[t].kind == Tok
    ensures t in Leaves(d)
    ensures Succ(Leaves(d), t).Some? ==> var n := Succ(Leaves(d), t).value;
      n in d.nodes && d.nodes[n].kind == Tok && n != t
  {
    LevelSeqComplete(d, t);
    LevelSeqKinds(d, 3);
    LevelSeqNoDup(d, 3);
    var L := Leaves(d);
    var j := IndexOf(L, t);
    SuccPredAt(L, j);
    if j + 1 < |L| {
      assert L[j + 1] in L;
    }
  }

  /** The first branch of `move_left`: the cursor steps one character back
      on the same token, which then holds the only cursor. */
  method StepLeftInWord(d: Doc, t: Id, measure: string -> int) returns (r: Doc)
    requires WellFormed(d) && t in d.nodes && d.nodes[t].kind == Tok && d.nodes[t].cursorIndex > 0
    ensures WellFormed(r) && TreeKept(d, r)
    ensures t in r.nodes && r.nodes[t].cursorIndex == d.nodes[t].cursorIndex - 1
    ensures OnlyCursor(r, t)
  {
    var idx := d.nodes[t].cursorIndex;
    var x := if idx == 1 then 0 else measure(PyPrefix(d.nodes[t].word, idx - 1));
    r := PlaceOnToken(d, t, idx - 1, x);
  }

  /** `move_left`. Inside a word (index > 0) the cursor steps one character
      back on the same token, which is returned. At index 0 the previous
      token gets the index at its end and moves left itself, so the cursor
      lands before the last character of the nearest earlier token with a
      non-empty word; empty tokens passed over keep index 0. With no such
      token the result is None. */
  method MoveLeft(d: Doc, t: Id, measure: string -> int) returns (r: Doc, res: Option<Id>)
    requires WellFormed(d) && t in d.nodes && d.nodes[t].kind == Tok
    ensures WellFormed(r) && TreeKept(d, r) && t in Leaves(d)
    ensures d.nodes[t].cursorIndex > 0 ==> res == Some(t)
    ensures d.nodes[t].cursorIndex == 0 ==> res == LastNonEmpty(d.nodes, Leaves(d)[..IndexOf(Leaves(d), t)])
    ensures res.Some? ==> (res.value in d.nodes && r.nodes[res.value].cursorIndex ==
      if res.value == t then d.nodes[t].cursorIndex - 1 else |d.nodes[res.value].word| - 1)
    ensures res.Some? ==> OnlyCursor(r, res.value)
    ensures d.nodes[t].cursorIndex == 0 && Pred(Leaves(d), t).None? ==> r == d && res.None?
    decreases if t in Leaves(d) then IndexOf(Leaves(d), t) else 0
  {
    LeafPosition(d, t);
    var idx := d.nodes[t].cursorIndex;
    if idx > 0 {
      r := StepLeftInWord(d, t, measure);
      return r, Some(t);
    }
    var prev := PreviousPeer(d, t);
    if prev.None? {
      return d, None;
    }
    var p := prev.value;
    ghost var L := Leaves(d);
    ghost var j := IndexOf(L, t);
    LastNonEmptyStep(d.nodes, L, j);
    var r1 := SetCursorWordIndex(d, p, |d.nodes[p].word|);
    SameTree(d, r1, d.root);
    LastNonEmptySame(d, r1, L[..j - 1]);
    r, res := MoveLeft(r1, p, measure);
    TreeKeptTrans(d, r1, r);
  }

  /** The index step of `move_right` as written: None hands the cursor to
      the next token, which happens only when the index is one before the
      end of the word. */
  function RightStepAsWritten(len: nat, idx: nat): (r: Option<nat>)
    ensures r.None? <==> idx + 1 == len
    ensures r.Some? ==> r.value == idx + 1
  {
    if idx == len - 1 then None else Some(idx + 1)
  }

  /** As written, the step leaves the word from its end: a cursor after the
      last character of a word moves one further, past it. */
  lemma RightStepLeavesWord(len: nat)
    ensures RightStepAsWritten(len, len) == Some(len + 1)
    ensures RightStepAsWritten(2, 2).value > 2
  {
  }

  /** The corrected step: the hand-off happens once the cursor is at or
      past the last character. */
  function RightStep(len: nat, idx: nat): (r: Option<nat>)
    ensures r.None? <==> idx + 1 >= len
    ensures r.Some? ==> r.value == idx + 1 && r.value < len
  {
    if idx + 1 >= len then None else Some(idx + 1)
  }

  /** The two steps differ only where the cursor already lies at or beyond
      the end of the word, and there the corrected one hands off. */
  lemma RightStepAgrees(len: nat, idx: nat)
    ensures idx + 1 < len ==> RightStep(len, idx) == RightStepAsWritten(len, idx)
    ensures len > 0 && idx + 1 == len ==> RightStep(len, idx) == RightStepAsWritten(len, idx) == None
    ensures RightStep(len, idx) != RightStepAsWritten(len, idx) ==> idx >= len && RightStep(len, idx).None?
  {
  }

  /** `move_right` with the corrected step. Inside the word the cursor moves
      one character on and the token is returned. Otherwise the next token,
      if any, takes the cursor at index 0 and, as in the source (which
      returns what `place_cursor_at_word_index_and_x_position` returns), the
      result is None. Cursor indices stay within their words. */
  method MoveRight(d: Doc, t: Id, measure: string -> int) returns (r: Doc, res: Option<Id>)
    requires WellFormed(d) && t in d.nodes && d.nodes[t].kind == Tok
    ensures WellFormed(r) && TreeKept(d, r) && t in Leaves(d)
    ensures var step := RightStep(|d.nodes[t].word|, d.nodes[t].cursorIndex);
      && (step.Some? ==> res == Some(t) && r.nodes[t].cursorIndex == step.value && OnlyCursor(r, t))
      && (step.None? ==> res.None?)
      && (step.None? && Succ(Leaves(d), t).None? ==> r == d)
      && (step.None? && Succ(Leaves(d), t).Some? ==> var n := Succ(Leaves(d), t).value;
            n in r.nodes && r.nodes[n].cursorIndex == 0 && OnlyCursor(r, n))
    ensures CursorsInWords(d) ==> CursorsInWords(r)
  {
    LevelSeqComplete(d, t);
    var idx := d.nodes[t].cursorIndex;
    var word := d.nodes[t].word;
    var step := RightStep(|word|, idx);
    if step.None? {
      r := ToNextToken(d, t);
      return r, None;
    }
    // The source pulls x back by 2 when the index is at the end of the
    // word; with the corrected step a move inside the word never starts there.
    var x := measure(PyPrefix(word, idx + 1));
    r := PlaceOnToken(d, t, idx + 1, x);
    res := Some(t);
  }

  /** Placing the cursor on a token of a well-formed document, as a step
      of a larger operation. */
  method PlaceOnToken(d: Doc, t: Id, index: nat, x: int) returns (r: Doc)
    requires WellFormed(d) && t in d.nodes && d.nodes[t].kind == Tok
    ensures PlaceCursor(d, t, index, x) == Ok(r)
    ensures WellFormed(r) && TreeKept(d, r) && r.nodes[t].cursorIndex == index && OnlyCursor(r, t)
    ensures CursorsInWords(d) && index <= |d.nodes[t].word| ==> CursorsInWords(r)
  {
    PlaceCursorOk(d, t, index, x);
    r := PlaceCursor(d, t, index, x).value;
  }

  /** The hand-off of `move_right`: the next token in document order, if
      any, takes the cursor at index 0; at the last token nothing changes. */
  method ToNextToken(d: Doc, t: Id) returns (r: Doc)
    requires WellFormed(d) && t in d.nodes && d.nodes[t].kind == Tok
    ensures WellFormed(r) && TreeKept(d, r) && t in Leaves(d)
    ensures Succ(Leaves(d), t).None? ==> r == d
    ensures Succ(Leaves(d), t).Some? ==> var n := Succ(Leaves(d), t).value;
      n in r.nodes && r.nodes[n].cursorIndex == 0 && OnlyCursor(r, n)
    ensures CursorsInWords(d) ==> CursorsInWords(r)
  {
    LeafNext(d, t);
    var next := NextPeer(d, t);
    if next.None? {
      return d;
    }
    r := PlaceOnToken(d, next.value, 0, 0);
  }

  /** `RelativeCursor`: a token, an index in its word and the position to
      draw the cursor at. */
  datatype RelativeCursor = RelativeCursor(x: int, wordIndex: nat, token: Id)

  /** `calculate_cursor_x`: the index nearest a click at `eventX`, found by
      `ClosestIndex`. At the end of the word the cursor belongs to the next
      token, at its start, if there is one; at the end of the last token it
      is drawn two pixels further in. */
  method CalculateCursorX(d: Doc, t: Id, eventX: int, measure: string -> int) returns (rel: RelativeCursor)
    requires WellFormed(d) && t in d.nodes && d.nodes[t].kind == Tok
    ensures rel.token in d.nodes && d.nodes[rel.token].kind == Tok
    ensures rel.wordIndex <= |d.nodes[rel.token].word|
    ensures rel.token == t ==>
      && FirstLocalMin(d.nodes[t].word, eventX, measure, rel.wordIndex)
      && rel.x == XAt(d.nodes[t].word, rel.wordIndex, measure) - (if rel.wordIndex == |d.nodes[t].word| then 2 else 0)
      && (rel.wordIndex == |d.nodes[t].word| ==> Succ(Leaves(d), t).None?)
    ensures rel.token != t ==>
      && FirstLocalMin(d.nodes[t].word, eventX, measure, |d.nodes[t].word|)
      && Succ(Leaves(d), t) == Some(rel.token) && rel.wordIndex == 0 && rel.x == 0
  {
    LeafNext(d, t);
    var word := d.nodes[t].word;
    var x, index := ClosestIndex(word, eventX, measure);
    if index == |word| {
      var next := NextPeer(d, t);
      if next.None? {
        x := x - 2;
      } else {
        return RelativeCursor(0, 0, next.value);
      }
    }
    rel := RelativeCursor(x, index, t);
  }

  /** `place_cursor_x`: the cursor goes where `calculate_cursor_x` puts it,
      and nowhere else. */
  method PlaceCursorX(d: Doc, t: Id, eventX: int, measure: string -> int) returns (r: Doc, rel: RelativeCursor)
    requires WellFormed(d) && t in d.nodes && d.nodes[t].kind == Tok
    ensures rel.token in d.nodes && d.nodes[rel.token].kind == Tok
    ensures rel.token == t || Succ(Leaves(d), t) == Some(rel.token)
    ensures PlaceCursor(d, rel.token, rel.wordIndex, rel.x) == Ok(r)
    ensures WellFormed(r) && TreeKept(d, r) && OnlyCursor(r, rel.token)
    ensures r.nodes[rel.token].cursorIndex == rel.wordIndex <= |d.nodes[rel.token].word|
    ensures CursorsInWords(d) ==> CursorsInWords(r)
  {
    rel := CalculateCursorX(d, t, eventX, measure);
    r := PlaceOnToken(d, rel.token, rel.wordIndex, rel.x);
  }
}
