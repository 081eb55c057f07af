/** The editor chain (src/ezwrite/editors/chapter_editor.py,
    src/ezwrite/editors/sentence_editor.py and the getters of
    src/ezwrite/editors/token_editor.py). A ChapterEditor creates one
    paragraph, one sentence and one token editor, each holding the one
    before it as its parent; every getter either answers from the chapter
    editor's stored fields or forwards to the parent. Editors are objects
    compared by identity, so the model keeps them in a table and an editor
    is its position in the table. The paragraph editor's class is not part
    of this model: it is a level that forwards every getter to its parent. */
module Editors {
  import opened Wrappers
  import opened Entities
  import opened Backspace

  datatype Role = ChapterRole | ParagraphRole | SentenceRole | TokenRole

  /** An editor: its class, and either its parent editor (the paragraph,
      sentence and token editors) or, for the chapter editor, its three
      stored editors. */
  datatype Editor =
    | Forwarding(role: Role, parent: nat)
    | Owner(paragraph: nat, sentence: nat, token: nat)

  type Table = seq<Editor>

  datatype Getter = GetToken | GetSentence | GetParagraph

  /** The class of editor a getter is meant to return. */
  function Wanted(g: Getter): Role {
    match g
    case GetToken => TokenRole
    case GetSentence => SentenceRole
    case GetParagraph => ParagraphRole
  }

  function RoleOf(t: Table, e: nat): Role
    requires e < |t|
  {
    match t[e]
    case Forwarding(role, _) => role
    case Owner(_, _, _) => ChapterRole
  }

  /** `ChapterEditor()`: the chapter editor at 0, then its paragraph editor,
      its sentence editor and its token editor, each with the previous one
      as parent. */
  function NewChapterEditor(): (t: Table)
    ensures |t| == 4 && Chained(t)
  {
    [Owner(1, 2, 3), Forwarding(ParagraphRole, 0), Forwarding(SentenceRole, 1), Forwarding(TokenRole, 2)]
  }

  /** A table the getters can resolve in: every parent sits earlier, the
      chapter editors' stored editors exist and have the classes their
      fields name. */
  ghost predicate Chained(t: Table) {
    forall e :: 0 <= e < |t| ==>
      match t[e]
      case Forwarding(_, p) => p < e
      case Owner(pe, se, te) =>
        && pe < |t| && se < |t| && te < |t|
        && RoleOf(t, pe) == ParagraphRole && RoleOf(t, se) == SentenceRole && RoleOf(t, te) == TokenRole
  }

  /** A getter called on editor `e`: the token editor answers
      `get_token_editor` with itself and the sentence editor
      `get_sentence_editor` with itself; the chapter editor answers from its
      fields; every other call forwards to the parent. None only for an
      editor outside the table. */
  function Get(t: Table, e: nat, g: Getter): (r: Option<nat>)
    ensures Chained(t) && e < |t| ==> r.Some? && r.value < |t| && RoleOf(t, r.value) == Wanted(g)
    decreases e
  {
    if e >= |t| then None
    else
      match t[e]
      case Owner(pe, se, te) =>
        (match g
         case GetToken => Some(te)
         case GetSentence => Some(se)
         case GetParagraph => Some(pe))
      case Forwarding(role, p) =>
        if role == Wanted(g) && role != ParagraphRole then Some(e)
        else if p < e then Get(t, p, g)
        else None
  }

  /** In a freshly built chain every editor resolves every getter to the
      same stored editor: the token editor's `get_sentence_editor` is the
      chapter's sentence editor, the sentence editor's `get_token_editor`
      is the chapter's token editor, and so on. */
  lemma ChainAgrees(g: Getter, e: nat)
    requires e < 4
    ensures Get(NewChapterEditor(), e, g) == Get(NewChapterEditor(), 0, g)
    ensures Get(NewChapterEditor(), 0, g) == Some(match g case GetParagraph => 1 case GetSentence => 2 case GetToken => 3)
  {
    var t := NewChapterEditor();
    assert Get(t, 1, g) == Get(t, 0, g);
    assert Get(t, 2, g) == Get(t, 0, g);
  }

  /** `delete_character_left` dispatched on the editor's class: the chapter
      and sentence editors always answer false and change nothing; the
      token editor runs Backspace. The paragraph editor's answer is not part
      of this model. */
  method EditorDeleteCharacterLeft(t: Table, e: nat, d: Doc, ent: Id, measure: string -> int) returns (res: Result<(Doc, bool)>)
    requires e < |t| && RoleOf(t, e) != ParagraphRole
    requires WellFormed(d) && ent in d.nodes
    ensures RoleOf(t, e) != TokenRole ==> res == Ok((d, false))
    ensures RoleOf(t, e) == TokenRole ==> (res.Err? <==> d.nodes[ent].kind != Tok)
    ensures RoleOf(t, e) == TokenRole && res.Ok? ==>
      && ent in Leaves(d)
      && (res.value.1 <==> Target(d, ent).Some?)
      && (res.value.1 ==> Text(res.value.0) == Backspaced(d, ent))
  {
    if RoleOf(t, e) != TokenRole {
      return Ok((d, false));
    }
    res := DeleteCharacterLeft(d, ent, measure);
  }
}
