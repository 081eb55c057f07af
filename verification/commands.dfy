/** Chapter-level commands (src/ezwrite/ui/chapter.py): Backspace with the
    cleanup that follows it, and the re-entrancy flag of `layout`. */
module Commands {
  import opened Wrappers
  import opened Entities
  import opened Sweeps
  import opened Cursor
  import opened Backspace
  import opened Cleanup

  /** The keys of a chord are given by their key symbols. */
  const BackSpaceKey: string := "BackSpace"

  /** The event was on a token and the chord is Backspace alone. */
  predicate IsBackspaceOnTok(d: Doc, target: Option<Id>, keys: seq<string>)
    requires target.Some? ==> target.value in d.nodes
  {
    target.Some? && d.nodes[target.value].kind == Tok && keys == [BackSpaceKey]
  }

  /** `handle_editing_keys`. `target` is what `widget_inside` found for the
      event's widget (None when it found nothing). Only Backspace alone on a
      token is handled: the token's editor deletes the character left of the
      cursor and, only when that succeeds, the chapter sweeps out the
      containers left empty and the command reports true. Anything else
      reports false and leaves the document as it was. */
  method HandleEditingKeys(d: Doc, target: Option<Id>, keys: seq<string>, measure: string -> int) returns (r: Doc, handled: bool)
    requires WellFormed(d)
    requires target.Some? ==> target.value in d.nodes
    ensures WellFormed(r) && r.root == d.root
    ensures !IsBackspaceOnTok(d, target, keys) ==> r == d && !handled
    ensures IsBackspaceOnTok(d, target, keys) ==> target.value in Leaves(d) && (handled <==> Target(d, target.value).Some?)
    ensures !handled ==> TreeKept(d, r)
    ensures handled ==>
      && target.Some? && target.value in Leaves(d) && Target(d, target.value).Some?
      && Text(r) == Backspaced(d, target.value) && Hollows(r) == {}
    ensures CursorsInWords(d) ==> CursorsInWords(r)
  {
    if !IsBackspaceOnTok(d, target, keys) {
      return d, false;
    }
    var tok := target.value;
    var res := DeleteCharacterLeft(d, tok, measure);
    var r1 := res.value.0;
    if !res.value.1 {
      return r1, false;
    }
    r := CleanupEmptyContainers(r1).0;
    handled := true;
    CleanupWellFormed(r1);
    CleanupKeepsText(r1);
    CleanupLeavesNoHollow(r1);
    CleanupKeepsCursors(r1);
  }

  /** The cleanup keeps every token as it was, so cursors stay inside
      their words. */
  lemma CleanupKeepsCursors(d: Doc)
    ensures CursorsInWords(d) ==> CursorsInWords(CleanupEmptyContainers(d).0)
  {
  }

  /** The sum of a list of heights, from the front. */
  function Sum(s: seq<int>): int {
    if |s| == 0 then 0 else s[0] + Sum(s[1..])
  }

  /** One more height at the end adds to the sum. */
  lemma {:induction false} SumSnoc(s: seq<int>, x: int)
    ensures Sum(s + [x]) == Sum(s) + x
  {
    if |s| > 0 {
      assert (s + [x])[1..] == s[1..] + [x];
      SumSnoc(s[1..], x);
    }
  }

  /** `Chapter.layout`. `layingOut` is the `_laying_out` flag on entry;
      `heights[k]` and `tokHeights[k]` are what paragraph `k`'s own layout
      reports as its frame height and its `max_tok_height`. A call made while
      a pass is running returns at once, with the flag still set and nothing
      laid out; otherwise paragraph `k` is placed at the total frame height
      and tallest-token height of the paragraphs before it, and the flag is
      cleared when the pass ends. */
  method Layout(layingOut: bool, heights: seq<int>, tokHeights: seq<int>) returns (flag: bool, offsets: Option<seq<int>>)
    requires |heights| == |tokHeights|
    ensures layingOut ==> flag && offsets.None?
    ensures !layingOut ==> !flag && offsets.Some?
    ensures offsets.Some? ==>
      && |offsets.value| == |heights|
      && (forall k :: 0 <= k < |heights| ==> offsets.value[k] == Sum(heights[..k]) + Sum(tokHeights[..k]))
      && (forall k :: 0 <= k < |heights| - 1 ==> offsets.value[k + 1] == offsets.value[k] + heights[k] + tokHeights[k])
  {
    if layingOut {
      return true, None;
    }
    flag := true;
    var ys: seq<int> := [];
    var y := 0;
    var i := 0;
    while i < |heights|
      invariant 0 <= i <= |heights|
      invariant |ys| == i
      invariant y == Sum(heights[..i]) + Sum(tokHeights[..i])
      invariant forall k :: 0 <= k < i ==> ys[k] == Sum(heights[..k]) + Sum(tokHeights[..k])
    {
      ys := ys + [y];
      assert heights[..i + 1] == heights[..i] + [heights[i]];
      assert tokHeights[..i + 1] == tokHeights[..i] + [tokHeights[i]];
      SumSnoc(heights[..i], heights[i]);
      SumSnoc(tokHeights[..i], tokHeights[i]);
      y := y + heights[i] + tokHeights[i];
      i := i + 1;
    }
    forall k | 0 <= k < |heights| - 1
      ensures ys[k + 1] == ys[k] + heights[k] + tokHeights[k]
    {
      assert heights[..k + 1] == heights[..k] + [heights[k]];
      assert tokHeights[..k + 1] == tokHeights[..k] + [tokHeights[k]];
      SumSnoc(heights[..k], heights[k]);
      SumSnoc(tokHeights[..k], tokHeights[k]);
    }
    flag := false;
    offsets := Some(ys);
  }
}
