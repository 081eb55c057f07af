/** The index arithmetic of one token: where a word index lies on the
    canvas, the highlight, the cursor's presence, the nearest index to a
    click and the cursor-colour rotation. Pixel widths come from the font;
    here the font is a parameter `measure` giving the width of a string,
    about which nothing is assumed. */
module Tokens {
  import opened Entities

  /** `word[0:i]` with Python's slice rules: a negative end counts from the
      back and every bound is clipped to the word. */
  function PyPrefix(word: string, i: int): (r: string)
    ensures |r| <= |word| && r == word[..|r|]
    ensures 0 <= i ==> |r| == if i < |word| then i else |word|
    ensures i < 0 ==> |r| == if |word| + i > 0 then |word| + i else 0
  {
    if i >= 0 then (if i < |word| then word[..i] else word)
    else if |word| + i > 0 then word[..|word| + i] else []
  }

  /** The index half of `get_x_pos_of_word_index`: -1 means the end of the
      word, any other index is capped at the word's length (a negative one
      other than -1 passes through unchanged). */
  function ClampIndex(len: nat, index: int): (i: int)
    ensures index == -1 ==> i == len
    ensures index != -1 ==> i <= index && i <= len && (i == index || i == len)
    ensures 0 <= index ==> 0 <= i
  {
    if index == -1 then len else if index < len then index else len
  }

  /** `get_x_pos_of_word_index`: the clamped index and its position, 0 at
      index 0 and otherwise the width of the text before the index. */
  function GetXPos(word: string, index: int, measure: string -> int): (r: (int, int))
    ensures r.0 == ClampIndex(|word|, index)
    ensures r.0 == 0 ==> r.1 == 0
    ensures r.0 != 0 ==> r.1 == measure(PyPrefix(word, r.0))
  {
    var i := ClampIndex(|word|, index);
    (i, if i == 0 then 0 else measure(PyPrefix(word, i)))
  }

  /** `deselect`: reports whether a highlight existed and drops it; the
      stored range is kept. */
  function Deselect(n: Node): (r: (bool, Node))
    ensures r.0 == n.highlighted
    ensures !r.1.highlighted && r.1 == n.(highlighted := false)
  {
    (n.highlighted, n.(highlighted := false))
  }

  /** `select(start, end)`: clears the old highlight, then highlights the
      range between the two indices as clamped by `GetXPos`. */
  function Select(n: Node, start: int, end: int): (r: Node)
    ensures r.highlighted
    ensures r.selStart == ClampIndex(|n.word|, start) && r.selEnd == ClampIndex(|n.word|, end)
    ensures r == n.(highlighted := true, selStart := r.selStart, selEnd := r.selEnd)
  {
    Deselect(n).1.(highlighted := true, selStart := ClampIndex(|n.word|, start), selEnd := ClampIndex(|n.word|, end))
  }

  /** `select()` with its defaults covers the whole word. */
  lemma SelectWhole(n: Node)
    ensures Select(n, 0, -1).selStart == 0 && Select(n, 0, -1).selEnd == |n.word|
  {
  }

  /** Selecting then deselecting leaves the token unhighlighted and reports
      that a highlight existed; deselecting twice reports false the second
      time. */
  lemma SelectDeselect(n: Node, start: int, end: int)
    ensures Deselect(Select(n, start, end)).0
    ensures !Deselect(Deselect(n).1).0
    ensures TokSelected(Deselect(Select(n, start, end)).1, 0) == []
  {
  }

  /** Tok `get_selected`: the token itself while it is highlighted. */
  function TokSelected(n: Node, id: Id): (r: seq<Id>)
    ensures r == [] || r == [id]
    ensures r == [id] <==> n.highlighted
  {
    if n.highlighted then [id] else []
  }

  /** `remove_cursor`: a shown cursor moves off-canvas; an absent one stays
      where it is. */
  function RemoveCursor(n: Node): (r: Node)
    ensures r.cursorX < 0
    ensures r == n.(cursorX := r.cursorX)
    ensures n.cursorX < 0 ==> r == n
  {
    if n.cursorX < 0 then n else n.(cursorX := -5)
  }

  /** The horizontal position of index `i` of `word`: 0 before the first
      character, else the width of the prefix. */
  function XAt(word: string, i: nat, measure: string -> int): int
    requires i <= |word|
  {
    if i == 0 then 0 else measure(word[..i])
  }

  function Dist(word: string, i: nat, eventX: int, measure: string -> int): nat
    requires i <= |word|
  {
    var v := eventX - XAt(word, i, measure);
    if v < 0 then -v else v
  }

  /** Index `i` is the first local minimum of the distance to the click:
      the distance strictly shrinks on every step up to `i` and not on the
      next one. */
  ghost predicate FirstLocalMin(word: string, eventX: int, measure: string -> int, i: nat)
    requires i <= |word|
  {
    && (forall j :: 0 < j <= i ==> Dist(word, j, eventX, measure) < Dist(word, j - 1, eventX, measure))
    && (i < |word| ==> Dist(word, i + 1, eventX, measure) >= Dist(word, i, eventX, measure))
  }

  /** There is only one first local minimum. */
  lemma FirstLocalMinUnique(word: string, eventX: int, measure: string -> int, i: nat, k: nat)
    requires i <= |word| && k <= |word|
    requires FirstLocalMin(word, eventX, measure, i) && FirstLocalMin(word, eventX, measure, k)
    ensures i == k
  {
  }

  /** The scan of `calculate_cursor_x`: walk the indices from 0 while the
      distance to the click strictly shrinks and stop at the last index
      reached, so the result is the first local minimum of the distance. */
  method ClosestIndex(word: string, eventX: int, measure: string -> int) returns (x: int, index: nat)
    ensures index <= |word| && x == XAt(word, index, measure)
    ensures FirstLocalMin(word, eventX, measure, index)
  {
    x, index := 0, 0;
    var closest: int := -1;
    var i := 0;
    while i < |word| + 1
      invariant 0 <= i <= |word| + 1
      invariant i == 0 ==> closest == -1 && index == 0 && x == 0
      invariant i > 0 ==> index == i - 1 && closest == Dist(word, index, eventX, measure)
      invariant index <= |word| && x == XAt(word, index, measure)
      invariant forall j :: 0 < j <= index ==> Dist(word, j, eventX, measure) < Dist(word, j - 1, eventX, measure)
      decreases |word| + 1 - i
    {
      var xi := if i == 0 then 0 else measure(word[..i]);
      var v := eventX - xi;
      var distance := if v < 0 then -v else v;
      if closest == -1 || distance < closest {
        x, index := xi, i;
      } else {
        break;
      }
      closest := distance;
      i := i + 1;
    }
  }

  /** The palette of `cursor_colours`. */
  const Palette: seq<string> := ["purple", "gold"]

  /** `_cursor_colour`: advance the shared index modulo the palette's
      length and return the colour it then names. */
  function CursorColour(index: int): (r: (int, string))
    ensures 0 <= r.0 < |Palette| && r.1 == Palette[r.0]
    ensures r.0 == (index + 1) % |Palette|
  {
    var i := (index + 1) % |Palette|;
    (i, Palette[i])
  }

  /** The shared index after `n` calls of `_cursor_colour` from `index`. */
  function AfterCalls(index: int, n: nat): int {
    if n == 0 then index else CursorColour(AfterCalls(index, n - 1)).0
  }

  /** Whatever the starting index, after `n >= 1` calls the shared index is
      `index + n` modulo the palette's length, so call `n` shows
      `Palette[(index + n) % 2]` and successive calls alternate between the
      two colours. */
  lemma {:induction false} CursorColourAlternates(index: int, n: nat)
    requires n >= 1
    ensures AfterCalls(index, n) == (index + n) % |Palette|
    ensures CursorColour(AfterCalls(index, n - 1)).1 == Palette[(index + n) % |Palette|]
    ensures CursorColour(AfterCalls(index, n)).1 != CursorColour(AfterCalls(index, n - 1)).1
  {
    if n > 1 {
      CursorColourAlternates(index, n - 1);
    }
  }
}
