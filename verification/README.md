# ezwrite document core in Dafny

ezwrite is a small word processor. Its text lives in a four-level tree: a
Chapter holds Paragraphs, a Paragraph holds Sentences, and a Sentence holds
Toks (tokens: a word, a punctuation mark or a space). This project models the
logic that walks and edits that tree without drawing anything:

- the ordered child storage of every entity (`PropertyList`);
- sibling and peer navigation, `mark_dirty`, `zap` and
  `cleanup_empty_containers` of `EzEntity`;
- the leaf traversal between two tokens (`EntityTraversal`);
- the cursor index and selection arithmetic of `Tok`;
- Backspace (`TokenEditor.delete_character_left`), together with
  `Sentence.join_tokens` and `append_copy_tokens_from`;
- the editor chain (`ChapterEditor`, `SentenceEditor`, the getters of
  `TokenEditor`);
- the chapter's commands: applying a mouse selection, Backspace followed by
  the cleanup, and the re-entrancy flag of `layout`.

The document is an arena, `Doc(nodes: map<Id, Node>, root, nextId)`. Each
entity is an identity, as ezwrite compares entities by object identity. Every
operation is a pure function or a method from one arena to the next.

`WellFormed` is the tree invariant:
- the root is a parentless chapter;
- every child list is duplicate-free, one level deeper, and back-linked;
- tokens have no children.

`LevelSeq(d, l)` reads the tree as one sequence per depth, in document order.
`Leaves(d)` is the sequence of all tokens and `Text(d)` is their words. These
are the reference definitions that most contracts are stated against: peers
are successors in `LevelSeq`, Backspace is stated as a change of `Text`, and
the selection as a range of `Leaves`.

Font measurement is a parameter, `measure: string -> int`, about which
nothing is assumed. Where the widget toolkit supplies a value, such as the
entity a key event landed on or a paragraph's laid-out height, that value is
a parameter too.

Modules, one file each:

| module | file |
|---|---|
| Wrappers, Sequences | `Option`/`Result`, list helpers (successor, predecessor, insert-before, filter) |
| PropertyLists | property_list.dfy |
| Entities | entity.dfy: the arena, `WellFormed`, document order |
| Navigation | navigation.dfy: sibling lookup, `mark_dirty`, `get_root_container` |
| Peers | peers.dfy: `next_peer` / `previous_peer` |
| Zapping | zap.dfy |
| Sweeps | sweeps.dfy: `remove_cursor_except`, `deselect_all`, `get_selected` |
| Tokens, Cursor | tokens.dfy, cursor.dfy: one token's index arithmetic, cursor moves |
| Traversal | traversal.dfy |
| Containers | containers.dfy: `add_child_entity`, constructors, `join_tokens`, `append_copy_tokens_from` |
| TokenEditing, SentenceMerge, Backspace | token_editor.dfy, merge.dfy, backspace.dfy |
| Cleanup | cleanup.dfy |
| Selection, Commands | selection.dfy, commands.dfy: the chapter's commands |
| Editors | editors.dfy |

## Model

| member | source | states |
|---|---|---|
| PropertyLists.Append | src/ezwrite/graph/property_list.py:16-29 | A new predicate gets a one-element bucket. A known predicate without the entity's type bucket fails (the missing-key error). An entity already in its bucket changes nothing. Otherwise the entity goes to the end of its bucket and no other predicate changes. No list ever holds a duplicate. |
| PropertyLists.InsertBefore | src/ezwrite/graph/property_list.py:31-47 | Fails on a missing predicate, type bucket or reference. Is a no-op when the entity is already present. Otherwise the bucket becomes the old list with the entity at the reference's former index. Duplicate-freedom is kept. |
| PropertyLists.Remove | src/ezwrite/graph/property_list.py:49-62 | Returns true exactly when the entity was in its bucket. It then removes it, and afterwards the entity is absent. Otherwise nothing changes. An unknown predicate gives false, and a known one without the type bucket the missing-key error. The buckets themselves stay. |
| PropertyLists.AllEntitiesOf | src/ezwrite/graph/property_list.py:64-74 | Empty for an unknown predicate. Otherwise it is the buckets' lists joined in bucket order, duplicates kept: as long as all of them together, with each bucket's list whole at its offset. |
| PropertyLists.EntitiesOf | src/ezwrite/graph/property_list.py:85-97 | Empty for an unknown predicate. An error for a known predicate without that type bucket. Otherwise the bucket in insertion order. |
| PropertyLists.RemoveKeepsHasEntities | src/ezwrite/graph/property_list.py:76-83 | Once a predicate has a bucket, no removal makes `has_entities_of` false. |
| PropertyLists.RemoveLastStillHasEntities | src/ezwrite/graph/property_list.py:76-83 | Removing the only entity leaves an empty bucket, and `has_entities_of` stays true. |
| Entities.NewNode | src/ezwrite/ui/tok.py:157-170 | A fresh entity has no children and no bucket. Its cursor index is 0 and its cursor is off-canvas. It has no highlight. |
| Entities.ParentlessIsRoot | src/ezwrite/ui/chapter.py:356-359 | In a well-formed document exactly the chapter has no parent. |
| Entities.ChapterIsRoot | src/ezwrite/ui/chapter.py:356-359 | The only chapter is the root. |
| Entities.TokHasNoChildren | src/ezwrite/ui/tok.py:437-440 | Tokens have no children. |
| Navigation.GetNextChild | src/ezwrite/graph/ezentity.py:78-89 | The loop returns the successor of `child` in the child list: None when `child` is last or absent. |
| Navigation.GetPreviousChild | src/ezwrite/graph/ezentity.py:91-104 | The loop returns the predecessor of `child`: None when it is first or absent. |
| Navigation.FirstChild | src/ezwrite/graph/ezentity.py:106-111 | None exactly for no children. Otherwise a child without a predecessor. |
| Navigation.LastChild | src/ezwrite/graph/ezentity.py:113-118 | None exactly for no children. Otherwise a child without a successor. |
| Navigation.MarkDirty | src/ezwrite/graph/ezentity.py:27-31 | Sets `dirty` on the entity and on exactly its ancestors. No other entity or field changes. |
| Navigation.GetRootContainer | src/ezwrite/ui/tok.py:28-42 | A success is always a chapter. |
| Navigation.RootContainerFound | src/ezwrite/ui/tok.py:28-42 | Every entity but the root finds the root chapter. The parentless root raises. |
| Navigation.TopContainerIsRoot | src/ezwrite/ui/tok.py:29-35 | The climb through containers from any container ends at the root. |
| Peers.NextPeer | src/ezwrite/graph/ezentity.py:38-56 | The recursive search with its skip over empty parents returns the entity after `x` at its own level in document order. It returns None for the root and for the last entity. |
| Peers.FirstChildFrom | src/ezwrite/graph/ezentity.py:48-55 | The loop over following parent peers yields the first child of the first one that has one. |
| Peers.PreviousPeer | src/ezwrite/graph/ezentity.py:58-76 | The mirror image of `NextPeer`: the entity before `x` at its level. |
| Peers.LastChildBefore | src/ezwrite/graph/ezentity.py:68-75 | The backward loop yields the last child of the nearest preceding parent peer that has one. |
| Peers.PeerRoundTrip | src/ezwrite/graph/ezentity.py:38-76 | The previous peer of the next peer is the entity itself, and vice versa. |
| Zapping.Zap | src/ezwrite/graph/ezentity.py:120-130 | A non-root entity and its whole subtree leave the arena, and the parent's child list loses the entity's first occurrence. A parentless entity stays, with no children, and its descendants go. Every entity outside the subtree other than the parent is unchanged. |
| Zapping.ZapLevels | src/ezwrite/graph/ezentity.py:120-130 | Zapping keeps the document well formed and removes exactly the zapped subtree from every level of the document order. |
| Zapping.SubtreeOfTok | src/ezwrite/ui/tok.py:437-440 | Zapping a token removes that token alone. |
| Sweeps.ApplyIdempotent | src/ezwrite/ui/tok.py:399-404 | Applying `remove_cursor` or `deselect` to a token twice is the same as applying it once, so a sweep that reaches a token again changes nothing more. |
| Sweeps.Sweep | src/ezwrite/ui/sentence.py:100-106 | The per-token loop changes exactly the listed tokens other than the excepted one, once each. |
| Sweeps.SweepAppend | src/ezwrite/ui/paragraph.py:152-157 | Sweeping a concatenation is sweeping its parts in turn, which is how a container forwards a sweep child by child. |
| Sweeps.TokensUnderForwards | src/ezwrite/ui/paragraph.py:152-157 | The tokens a container's sweep visits are those its children's sweeps visit, child after child. |
| Sweeps.TokensUnderRoot | src/ezwrite/ui/chapter.py:326-331 | A sweep from the chapter visits every token of the document in document order. |
| Sweeps.RemoveCursorExcept | src/ezwrite/ui/sentence.py:100-106 | Every token below the container except `tok` loses its cursor. Only cursor positions change. |
| Sweeps.RemoveCursorEverywhere | src/ezwrite/ui/chapter.py:326-331 | After `remove_cursor_except(tok)` on the chapter, `tok` is the only token that may show a cursor. |
| Sweeps.DeselectAll | src/ezwrite/ui/sentence.py:140-146 | No token below the container stays highlighted. Only highlights change, and entities outside the container are untouched. |
| Sweeps.GetSelectedAfterDeselectAll | src/ezwrite/ui/paragraph.py:178-184 | After a container's `deselect_all`, its `get_selected` is empty. |
| Sweeps.GetSelected | src/ezwrite/ui/tok.py:82-93 | The recursive collection returns only highlighted tokens. |
| Sweeps.GetSelectedOfContainer | src/ezwrite/ui/tok.py:82-93 | A container's `get_selected` is exactly its highlighted descendant tokens in document order. |
| Sweeps.SweepKeepsTree | src/ezwrite/ui/sentence.py:140-146 | Sweeps touch token fields only: well-formedness and every traversal order are kept. |
| Tokens.PyPrefix | src/ezwrite/ui/tok.py:257 | `word[0:i]` under Python's slice rules: a prefix of the word, with the length clipped and a negative end counted from the back. |
| Tokens.ClampIndex | src/ezwrite/ui/tok.py:254-256 | -1 maps to the word length. Any other index is capped at the word length. |
| Tokens.GetXPos | src/ezwrite/ui/tok.py:254-258 | The clamped index, and x = 0 at index 0, otherwise the measured width of the prefix. |
| Tokens.Select | src/ezwrite/ui/tok.py:227-240 | The token is highlighted. The stored range is the two clamped indices. Nothing else changes. |
| Tokens.SelectWhole | src/ezwrite/ui/tok.py:227 | `select()` with its defaults covers the whole word. |
| Tokens.Deselect | src/ezwrite/ui/tok.py:242-247 | Reports whether a highlight existed, and drops it. |
| Tokens.SelectDeselect | src/ezwrite/ui/tok.py:227-252 | After `select`, `deselect` reports true and `get_selected` is empty. A second `deselect` reports false. |
| Tokens.TokSelected | src/ezwrite/ui/tok.py:249-252 | The token itself exactly while it is highlighted, else nothing. |
| Tokens.RemoveCursor | src/ezwrite/ui/tok.py:399-404 | The cursor ends off-canvas. An absent cursor is left alone. |
| Tokens.ClosestIndex | src/ezwrite/ui/tok.py:276-287 | The scan stops at an index within the word, at its measured x. That index is the first local minimum of the distance to the click. |
| Tokens.FirstLocalMinUnique | src/ezwrite/ui/tok.py:279-287 | The index the scan stops at is unique. |
| Tokens.CursorColour | src/ezwrite/ui/tok.py:135-140 | The shared index advances modulo the palette length and names the returned colour. |
| Tokens.CursorColourAlternates | src/ezwrite/ui/tok.py:135-140 | From any starting index, call `n` leaves the index at `index + n` mod 2 and shows that colour, so successive calls alternate between the two colours. |
| Cursor.SetCursorWordIndex | src/ezwrite/ui/tok.py:272-273 | Only the token's index changes. |
| Cursor.PlaceCursor | src/ezwrite/ui/tok.py:267-270 | Placing can fail only as `get_root_container` does: no chapter above the token, or a parent that is not a container. |
| Cursor.PlaceCursorOk | src/ezwrite/ui/tok.py:260-270 | On a token of a well-formed document placing succeeds. The token holds the index, and the only cursor. Elsewhere only cursor positions change, and indices stay within their words. |
| Cursor.PlaceCursorAtWordIndexOk | src/ezwrite/ui/tok.py:263-265 | The index placed is the clamped one, and the token holds the only cursor. |
| Cursor.PlaceOnToken | src/ezwrite/ui/tok.py:267-270 | Placing on a token as one step: the tree is kept, the index is set, and that token has the only cursor. |
| Cursor.MoveLeft | src/ezwrite/ui/tok.py:304-315 | Inside a word the index drops by one and the same token is returned. At index 0 the cursor lands before the last character of the nearest earlier non-empty token, and that token is returned. With no earlier token nothing changes and None is returned. The tree is kept. |
| Cursor.RightStepAsWritten | src/ezwrite/ui/tok.py:317-329 | As written, `move_right` hands off only when the index is one before the end. Otherwise the index grows by one. |
| Cursor.RightStepLeavesWord | src/ezwrite/ui/tok.py:318-328 | As written, a cursor at the end of a word moves past it (index len + 1). |
| Cursor.RightStep | src/ezwrite/ui/tok.py:317-329 | The corrected step hands off exactly when the index is at or past the last character. Otherwise it stays inside the word. |
| Cursor.RightStepAgrees | src/ezwrite/ui/tok.py:318 | The two steps differ only where the cursor is already at or past the end of the word. |
| Cursor.MoveRight | src/ezwrite/ui/tok.py:317-329 | Inside the word the index grows by one and the token is returned. Otherwise the next token in document order takes the cursor at 0 and the result is None. At the last token nothing changes. Cursor indices stay within their words. |
| Cursor.ToNextToken | src/ezwrite/ui/tok.py:319-324 | The next token in document order takes the cursor at index 0 and holds the only cursor. At the last token nothing changes. |
| Cursor.CalculateCursorX | src/ezwrite/ui/tok.py:275-298 | The index is the first local minimum of the distance to the click. At the word's end the cursor goes to index 0 of the next token if there is one; at the end of the last token it is drawn 2 pixels in. |
| Cursor.PlaceCursorX | src/ezwrite/ui/tok.py:300-302 | The cursor goes where `calculate_cursor_x` says, on this or the next token, and nowhere else. |
| Traversal.Start | src/ezwrite/graph/ezentity.py:159-165 | A fresh traversal: both endpoints pending, count 0, nothing recorded. |
| Traversal.ScanLeaves | src/ezwrite/graph/ezentity.py:178-195 | The sentence loop adds to `count` exactly the number of callbacks it makes and never changes the endpoints. |
| Traversal.HandOff | src/ezwrite/graph/ezentity.py:200-205 | After the first endpoint is met, the other endpoint becomes the only one. |
| Traversal.Walk | src/ezwrite/graph/ezentity.py:196-206 | The pass over sentences adds to `count` exactly the callbacks it records. |
| Traversal.TraverseAsWritten | src/ezwrite/graph/ezentity.py:167-206 | The pass as written: `count` equals the number of callbacks. |
| Traversal.HandOffMissed | src/ezwrite/graph/ezentity.py:200 | As written, with sentences [1, 2] and [3, 4] and endpoints 2 and 4, nothing is called back (token 3 is missed) and 4 is recorded as first. |
| Traversal.Traverse | src/ezwrite/graph/ezentity.py:167-206 | The corrected pass: `count` equals the number of callbacks. |
| Traversal.TraverseBetween | src/ezwrite/graph/ezentity.py:153-206 | For two distinct tokens the corrected pass records the earlier endpoint as first and the later as last. The callback runs exactly on the tokens strictly between them, in document order. |
| Traversal.TraverseSymmetric | src/ezwrite/graph/ezentity.py:183-190 | The corrected pass gives the same result whichever endpoint is passed first. |
| Traversal.Sentences | src/ezwrite/graph/ezentity.py:196-197 | The sentences read end to end are the document's tokens. |
| Containers.ChildKind | src/ezwrite/ui/paragraph.py:147-150 | Each container accepts exactly the kind one level below it. A token accepts none. |
| Containers.ChildStoreReadsBack | src/ezwrite/ui/sentence.py:79-82 | `child_entities` is the HAS_PART bucket read back in order. `has_children` is the bucket's existence. |
| Containers.AddChildEntity | src/ezwrite/ui/sentence.py:94-98 | A token ignores the call. A container rejects every kind but its child kind. Otherwise it appends the child unless present, and nothing else changes. |
| Containers.AddChildIsAppend | src/ezwrite/ui/chapter.py:319-324 | The list edit is exactly the property list's `append` under HAS_PART. |
| Containers.Create | src/ezwrite/ui/sentence.py:38-45 | A constructor makes a fresh entity with the next unused identity and appends it to its parent's list. Nothing else changes. |
| Containers.CreateWellFormed | src/ezwrite/ui/tok.py:180-181 | Creating an entity keeps the document well formed. |
| Containers.JoinTokens | src/ezwrite/ui/sentence.py:127-131 | The joined token's word is `a.word + b.word`. It is inserted right before `a`, and `a` and `b` stay. It fails exactly when `a` is not in the sentence's bucket. |
| Containers.JoinIsInsertBefore | src/ezwrite/ui/sentence.py:130 | The list edit, including its failure, is the property list's `insert_before` with `a` as reference. |
| Containers.JoinTokensLeaves | src/ezwrite/ui/sentence.py:127-131 | The joined token enters the document's token order right before `a`, and nothing else moves. |
| Containers.JoinTokensText | src/ezwrite/ui/sentence.py:127-131 | The text gains the joined word right before `a`'s word. |
| Containers.AppendToksStep | src/ezwrite/ui/sentence.py:138 | One more `Tok(self, word)` extends the closed-form append by that word. |
| Containers.AppendToksWords | src/ezwrite/ui/sentence.py:133-138 | The sentence's words gain the copied words at the end, in order. |
| Containers.AppendToksWellFormed | src/ezwrite/ui/sentence.py:133-138 | Appending tokens keeps the document well formed. |
| Containers.TokWordsAllTok | src/ezwrite/ui/sentence.py:135-136 | When every child is a token the `isinstance` filter keeps them all. |
| Containers.CopyToks | src/ezwrite/ui/sentence.py:134-138 | The copy loop over a list is the closed-form append of its tokens' words. |
| Containers.AppendCopyTokensFrom | src/ezwrite/ui/sentence.py:133-138 | One fresh token per token of the other sentence is appended, with the same words in the same order. The copy runs over the list as it was when called. The document stays well formed. |
| TokenEditing.ChangeWord | src/ezwrite/ui/tok.py:190-194 | The token takes the new word, and it and its ancestors are marked dirty. Nothing else changes. |
| TokenEditing.ChangeWordText | src/ezwrite/ui/tok.py:190-194 | In the text, exactly that token's entry is replaced. |
| TokenEditing.ZapTok | src/ezwrite/ui/tok.py:183-188 | Zapping a token takes exactly its entry out of the token order and out of the text. |
| TokenEditing.ZapTokLeaves | src/ezwrite/editors/token_editor.py:79-80 | After the zap the document is well formed and the token is gone from the order. |
| TokenEditing.DeletedWord | src/ezwrite/editors/token_editor.py:81-90 | With the cursor inside the word, the character at `c - 1` goes and the word shortens by one. Past the end nothing goes. |
| TokenEditing.DeletedWordRoundTrip | src/ezwrite/editors/token_editor.py:84-86 | Putting the deleted character back at `c - 1` restores the word. |
| TokenEditing.EditWordAsWritten | src/ezwrite/editors/token_editor.py:81-90 | As written: the word shortens, and the cursor index stays where it was. |
| TokenEditing.EditWordAsWrittenStrandsCursor | src/ezwrite/editors/token_editor.py:88-90 | As written, on "abc" with index 3 the index ends past the new word, and a second Backspace deletes nothing. |
| TokenEditing.EditWord | src/ezwrite/editors/token_editor.py:81-90 | Corrected: the word loses the character left of the cursor, and the cursor steps back over it. |
| TokenEditing.EditWordKeepsCursor | src/ezwrite/editors/token_editor.py:81-90 | The corrected edit keeps every cursor inside its word. |
| TokenEditing.EditWordTwice | src/ezwrite/editors/token_editor.py:81-90 | With the corrected edit, two presses inside a word remove the two characters before the cursor. |
| TokenEditing.EditWordStep | src/ezwrite/editors/token_editor.py:81-90 | The corrected edit keeps the tree and changes only the edited token's entry of the text. |
| TokenEditing.JoinStep | src/ezwrite/editors/token_editor.py:72 | `join_tokens` as a step: the joined token enters the order and the text right before `a`. |
| TokenEditing.JoinNeighbours | src/ezwrite/editors/token_editor.py:71-76 | The token and both neighbours give way to one token holding `prev.word + next.word`, where `prev` was. The cursor goes to index `len(prev.word)` of it. |
| SentenceMerge.ZapSentence | src/ezwrite/editors/token_editor.py:66-68 | Zapping a sentence removes it and its tokens from the arena and from the token order. Every entity except its paragraph is unchanged, and the paragraph stays in place. |
| SentenceMerge.MergeSentences | src/ezwrite/editors/token_editor.py:67-68 | Copying the next sentence's tokens onto a sentence, then zapping the next one, keeps the text. The copies take the originals' place, and they show no cursor. |
| Backspace.Target | src/ezwrite/editors/token_editor.py:33-38 | When Backspace has a token to delete in, that token is one of the document's tokens in reading order. |
| Backspace.PlaceAtEnd | src/ezwrite/editors/token_editor.py:37 | The cursor goes to the end of the previous token. |
| Backspace.StepBack | src/ezwrite/editors/token_editor.py:37-38 | After that move, Backspace from the previous token has the same target and the same outcome as from the original token. |
| Backspace.SingleChar | src/ezwrite/editors/token_editor.py:39-80 | With the cursor after the only character, the text becomes the reference for that case: the token goes; neighbours in one paragraph are joined; across a paragraph border a space word is added. |
| Backspace.JoinInSentence | src/ezwrite/editors/token_editor.py:71-78 | Both neighbours in the token's sentence: three words become `prev + next`. |
| Backspace.JoinAcross | src/ezwrite/editors/token_editor.py:55-61 | Neighbours in different sentences of one paragraph: as within one sentence, the three words become `prev + next` in the text. Cursors stay inside words. |
| Backspace.SpaceAcross | src/ezwrite/editors/token_editor.py:62-68 | Neighbours in different paragraphs: the token and its neighbours stay, and one word " " enters the text right after the previous sentence's last token. No other token gains a cursor. |
| Backspace.AddSpace | src/ezwrite/editors/token_editor.py:63 | `Tok(prev_sentence, ' ')` is appending the word " " after the sentence's last token. |
| Backspace.MergeThree | src/ezwrite/editors/token_editor.py:64-68 | Merging the token's own sentence, then the next sentence, into the previous one keeps the document well formed and the text unchanged. |
| Backspace.Backspace | src/ezwrite/editors/token_editor.py:33-90 | Returns false exactly when there is no target, and then the tree and every word are as before. Otherwise the text is the reference `Backspaced`. The document stays well formed. With the corrected in-word edit (Findings, row 4), cursors stay within words. |
| Backspace.DeleteCharacterLeft | src/ezwrite/editors/token_editor.py:28-31 | A non-token is refused with an error. On a token the result is `Backspace`'s, with the corrected in-word edit (Findings, row 4). |
| Backspace.BackspacedChars | src/ezwrite/editors/token_editor.py:39-90 | Backspace removes exactly one character from the text, except across a paragraph border, where it adds one (the space). |
| Cleanup.SweepAsWritten | src/ezwrite/graph/ezentity.py:141-150 | As written, the loop walks the live child list, so a zapped child makes it skip the next one, and a child container without a bucket makes it zap the container being swept. Whatever it zaps, it only takes entities out: the root and identity counter stay, and survivors change at most their child lists. |
| Cleanup.SweepCountsNothing | src/ezwrite/graph/ezentity.py:143-147 | As written, the count returned is always 0. |
| Cleanup.SweepZapsOwner | src/ezwrite/graph/ezentity.py:148-149 | As written, a first child container without a bucket makes the sweep zap the container being swept, and 0 is returned. Under the snapshot zap of this model, on the chapter this empties the document. |
| Cleanup.CleanupEmptyContainers | src/ezwrite/graph/ezentity.py:141-150 | Corrected: exactly the sentences with no tokens, and the paragraphs whose sentences all have no tokens, are removed. Emptiness is read from the child list, not from whether the bucket exists. The count is the number removed. Survivors change only in their child lists. |
| Cleanup.HollowsClosed | src/ezwrite/graph/ezentity.py:144-147 | The removed set never holds the chapter and is closed under children. |
| Cleanup.CleanupWellFormed | src/ezwrite/graph/ezentity.py:141-150 | The cleanup keeps the document well formed. |
| Cleanup.CleanupKeepsText | src/ezwrite/graph/ezentity.py:141-150 | The cleanup keeps the token order and the text. |
| Cleanup.CleanupLeavesNoHollow | src/ezwrite/graph/ezentity.py:141-150 | After the cleanup no empty container is left. |
| Cleanup.CleanupIdempotent | src/ezwrite/graph/ezentity.py:141-150 | A second cleanup removes nothing. |
| Selection.ApplySelection | src/ezwrite/ui/chapter.py:205-229 | Everything is deselected first. A press and release at the same index of one token then select nothing. Otherwise both endpoint tokens are highlighted. Every entity other than the endpoints and, across tokens, the tokens the traversal calls back is as `deselect_all` left it. The tree is never changed. |
| Selection.SelectEach | src/ezwrite/ui/chapter.py:97-101 | `select_token` on each called-back entity: tokens are selected whole, and nothing else changes. |
| Selection.Cleared | src/ezwrite/ui/chapter.py:210 | The chapter's `deselect_all` keeps every entity. |
| Selection.DeselectedEverywhere | src/ezwrite/ui/chapter.py:366-372 | After the chapter's `deselect_all` no token is highlighted, and only selections changed. |
| Selection.SelectWithin | src/ezwrite/ui/chapter.py:215-218 | `select(i, j)` on one token: that token alone is selected from `i` to `j`, and nothing else changes. |
| Selection.SelectEnds | src/ezwrite/ui/chapter.py:222-227 | The earlier endpoint is selected from its index to -1 (the end), and the later from 0 to its index. |
| Selection.SelectionInOneToken | src/ezwrite/ui/chapter.py:212-218 | At the same index nothing is selected. Otherwise exactly that token is, over [min, max] of the two indices. The tree is kept. |
| Selection.SelectionAcrossTokens | src/ezwrite/ui/chapter.py:219-227 | Exactly the tokens from the earlier endpoint to the later are highlighted. The earlier is selected from its index to its end, the later from its start to its index, and every token between is whole. The tree is kept. |
| Selection.ApplySelectionSymmetric | src/ezwrite/ui/chapter.py:205-229 | Swapping press and release gives the same document. |
| Selection.AcrossSymmetric | src/ezwrite/ui/chapter.py:222-227 | The `ent_first` test makes the two branches agree once the traversal named either endpoint first. |
| Commands.HandleEditingKeys | src/ezwrite/ui/chapter.py:281-292 | Only Backspace alone on a token is handled. The cleanup runs, and true is returned, exactly when `delete_character_left` succeeds; the text is then the Backspace reference and no empty container is left. Otherwise false is returned and the tree is as before. |
| Commands.Layout | src/ezwrite/ui/chapter.py:339-354 | Called while a pass runs, it returns at once, with the flag still set and nothing laid out. Otherwise paragraph `k` is placed at the sum of the frame heights and tallest-token heights of the paragraphs before it, so each starts right below the previous one. The flag is cleared. |
| Editors.NewChapterEditor | src/ezwrite/editors/chapter_editor.py:16-19 | The constructor builds four editors. Every parent comes before its child, and the chapter editor's stored editors have the classes their fields name. |
| Editors.Get | src/ezwrite/editors/sentence_editor.py:12-22 | In a chained table every getter call resolves to an editor of the class the getter names. |
| Editors.ChainAgrees | src/ezwrite/editors/chapter_editor.py:21-31 | In a fresh chain every editor's getter returns the same stored editor as the chapter editor's. |
| Editors.EditorDeleteCharacterLeft | src/ezwrite/editors/chapter_editor.py:33-35 | The chapter and sentence editors answer false and change nothing. The token editor runs Backspace, with the corrected in-word edit. |

## Left out

- Everything the widget toolkit does is not modelled: canvases, frames, packing and placing, pixel layout, blink timers, scroll regions and `print` diagnostics. A token keeps only its cursor index and whether its cursor is shown.
- Hit-testing is a parameter: `widget_inside` and `get_closest_token`, `Entity.inside`, `move_up`/`move_down` and the geometry properties. `Commands.HandleEditingKeys` takes the entity the key event landed on as `target`.
- Font measurement is the uninterpreted parameter `measure`.
- `key_handler.py`, `app.py` and the lock in `layout` are not modelled. The lock only guards the `_laying_out` flag, and one call runs at a time here.
- rdflib graphs, URIs and `EzProperty` are not modelled. HAS_PART is an enumeration value, and an entity is its identity.
- The IS_PART_OF composites loop of `zap` is not modelled: nothing in the code adds to that list.
- Predicate-key lower-casing in `PropertyList` is not modelled; keys are taken as already normalised.
- `handle_typed_character` is left out: it is unfinished and always returns false.
- `delete_selected` is left out: it is an interface default that returns false.
- The paragraph editor's class is not part of this model. In the chain it is a level that forwards its getters.
- Editors.EditorDeleteCharacterLeft: the paragraph editor's `delete_character_left` is excluded by the precondition, because its class is not part of this model. The token editor's Backspace uses the corrected in-word edit (Findings, row 4).
- Zapping.Zap: the source iterates the live child list while each child removes itself from it. The model zaps a snapshot, the whole subtree.
- Cleanup.SweepZapsOwner: its statement that the chapter's sweep empties the document holds under the snapshot zap. In the source the chapter's zap walks its live child list, so every second paragraph is skipped and stays, and the sweep's loop goes on over the shortened list.
- Containers.AppendCopyTokensFrom: copying a sentence onto itself never ends in the source, whose loop walks the list it is growing; the model copies the list as it was and doubles the sentence. Its only caller merges two different sentences.
- Backspace.Backspace: the in-word branch uses the corrected edit (Findings, row 4), which steps the cursor back; as written the index stays put, so the promise that cursors stay within their words holds only with the correction. It does not state where the cursor ends up after the join branches.
- Backspace.DeleteCharacterLeft: runs Backspace.Backspace, so it too uses the corrected in-word edit (Findings, row 4), and its cursors-within-words promise holds only with the correction.
- Selection.ApplySelection: uses the corrected traversal (Findings, row 2). With the traversal as written, a press on the last token of a sentence can select the wrong range.
- Commands.HandleEditingKeys: uses the corrected cleanup (Findings, row 3) and the corrected in-word edit (Findings, row 4).
- Cursor.MoveRight: uses the corrected step (Findings, row 1).
- Cursor.CalculateCursorX: the `ArgumentTypeError` raised for a non-token peer cannot happen in a well-formed document, so it is not modelled.
- The `ArgumentTypeError` raised by the sweeps and by `layout` for a child of the wrong class likewise cannot happen in a well-formed document, so it is not modelled.

## Findings

| source | as written | input that shows it | evidently intended | confidence | as-written member | corrected member |
|---|---|---|---|---|---|---|
| src/ezwrite/ui/tok.py:318-328 | `move_right` hands off to the next token only when the index equals `len(word) - 1`; otherwise it adds one | a cursor at the end of a word (index `len`) moves to `len + 1`, outside the word | hand off once the index reaches the last character, keeping the index within the word | not executed | Cursor.RightStepAsWritten, Cursor.RightStepLeavesWord | Cursor.RightStep, Cursor.RightStepAgrees, Cursor.MoveRight |
| src/ezwrite/graph/ezentity.py:196-205 | the hand-off after a sentence fires only if that sentence made a callback | sentences [1, 2] and [3, 4], endpoints 2 and 4: token 3 is never called back (nothing is) and 4 is recorded as first | hand off as soon as the first endpoint has been met | not executed | Traversal.TraverseAsWritten, Traversal.HandOffMissed | Traversal.Traverse, Traversal.TraverseBetween, Traversal.TraverseSymmetric |
| src/ezwrite/graph/ezentity.py:141-150 | a child container without a bucket makes the sweep zap `self`, and `count` is never incremented | a chapter whose first paragraph has no sentence bucket: the sweep zaps the chapter itself, which drops its first paragraph and every other one after it, and 0 is returned | remove the child containers left without tokens and count them. Three changes: zap the child, not `self`; read emptiness from the child list, since `has_children` only asks whether the bucket exists and an emptied bucket is never dropped; and loop over a copy of the child list, since each zapped child leaves the live list and the loop would skip its next sibling (two empty sentences [s1, s2]: s2 is never visited, and it and its paragraph stay) | not executed | Cleanup.SweepAsWritten, Cleanup.SweepZapsOwner, Cleanup.SweepCountsNothing, PropertyLists.RemoveLastStillHasEntities | Cleanup.CleanupEmptyContainers, Cleanup.CleanupLeavesNoHollow, Cleanup.CleanupKeepsText |
| src/ezwrite/editors/token_editor.py:81-90 | in-word Backspace changes the word but not the cursor index | "abc" with index 3 becomes "ab" with index 3; the next Backspace deletes nothing | the cursor steps back over the deleted character | not executed | TokenEditing.EditWordAsWritten, TokenEditing.EditWordAsWrittenStrandsCursor | TokenEditing.EditWord, TokenEditing.EditWordKeepsCursor, TokenEditing.EditWordTwice |
