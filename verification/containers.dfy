/** Building the tree: `add_child_entity`, the entity constructors that
    attach themselves to their parent, `Sentence.join_tokens` and
    `Sentence.append_copy_tokens_from`. A container's child list is the
    HAS_PART bucket of its property list; `ChildStore` states that view
    and the lemmas here show each list edit is the corresponding property
    list operation. */
module Containers {
  import opened Wrappers
  import opened Sequences
  import PL = PropertyLists
  import opened Entities
  import opened Navigation

  datatype Predicate = HasPart | IsPartOf

  /** The one kind each container accepts as a child. */
  function ChildKind(k: Kind): (r: Option<Kind>)
    ensures r.Some? ==> Level(r.value) == Level(k) + 1
    ensures r.None? <==> k == Tok
  {
    match k
    case Chapter => Some(Paragraph)
    case Paragraph => Some(Sentence)
    case Sentence => Some(Tok)
    case Tok => None
  }

  /** The property list behind an entity's child list: no HAS_PART entry
      until the first child arrives, then one bucket keyed by the child
      kind. */
  function ChildStore(n: Node): PL.PropertyList<Predicate, Kind, Id> {
    if n.hasBucket && ChildKind(n.kind).Some? then
      PL.PropertyList(map[HasPart := [PL.Bucket(ChildKind(n.kind).value, n.children)]])
    else PL.Empty()
  }

  /** `child_entities` reads the bucket back: the child list in order, and
      `has_children` is the bucket's existence. */
  lemma ChildStoreReadsBack(n: Node)
    requires n.kind != Tok && (n.children != [] ==> n.hasBucket)
    ensures PL.EntitiesOf(ChildStore(n), HasPart, ChildKind(n.kind).value) == Ok(n.children)
    ensures PL.HasEntitiesOf(ChildStore(n), HasPart) == n.hasBucket
  {
    if n.hasBucket {
      assert PL.FindBucket(ChildStore(n).table[HasPart], ChildKind(n.kind).value) == Some(0);
    }
  }

  /** `add_child_entity`: a token ignores the call; a container accepts only
      its child kind (anything else raises) and appends the child to its
      list unless it is already there. */
  function AddChildEntity(d: Doc, p: Id, c: Id): (r: Result<Doc>)
    requires p in d.nodes && c in d.nodes
    ensures d.nodes[p].kind == Tok ==> r == Ok(d)
    ensures d.nodes[p].kind != Tok ==> (r.Ok? <==> ChildKind(d.nodes[p].kind) == Some(d.nodes[c].kind))
    ensures r.Ok? && d.nodes[p].kind != Tok ==>
      && r.value.nodes.Keys == d.nodes.Keys && r.value.root == d.root && r.value.nextId == d.nextId
      && r.value.nodes[p].children == AppendNew(d.nodes[p].children, c)
      && (forall n :: n in d.nodes && n != p ==> r.value.nodes[n] == d.nodes[n])
  {
    var n := d.nodes[p];
    if n.kind == Tok then Ok(d)
    else if ChildKind(n.kind) != Some(d.nodes[c].kind) then Err(WrongKind)
    else Ok(d.(nodes := d.nodes[p := n.(children := AppendNew(n.children, c), hasBucket := true)]))
  }

  /** The list edit of `add_child_entity` is the property list's `append`
      under HAS_PART with the child's kind as type key. */
  lemma AddChildIsAppend(d: Doc, p: Id, c: Id)
    requires p in d.nodes && c in d.nodes && d.nodes[p].kind != Tok
    requires d.nodes[p].children != [] ==> d.nodes[p].hasBucket
    requires AddChildEntity(d, p, c).Ok?
    ensures ChildStore(AddChildEntity(d, p, c).value.nodes[p])
         == PL.Append(ChildStore(d.nodes[p]), HasPart, d.nodes[c].kind, c).value
  {
    var n := d.nodes[p];
    var k := d.nodes[c].kind;
    var pl := ChildStore(n);
    if n.hasBucket {
      assert PL.FindBucket(pl.table[HasPart], k) == Some(0);
      if c in n.children {
        assert PL.Append(pl, HasPart, k, c) == Ok(pl);
      } else {
        var bs := [PL.Bucket(k, n.children + [c])];
        assert ChildKind(n.kind) == Some(k);
        assert pl.table[HasPart][0 := PL.Bucket(k, n.children + [c])] == bs;
        assert pl.table[HasPart := bs] == map[HasPart := bs];
        assert PL.Append(pl, HasPart, k, c) == Ok(PL.SetItems(pl, HasPart, 0, n.children + [c]));
      }
    }
  }

  /** A new entity of kind `k` attached at the end of `p`'s list, as the
      Tok, Sentence and Paragraph constructors do; its identity is the next
      unused one. */
  function Create(d: Doc, p: Id, k: Kind, word: string): (r: (Id, Doc))
    requires p in d.nodes && ChildKind(d.nodes[p].kind) == Some(k)
    ensures r.0 == d.nextId
    ensures r.0 !in d.nodes
      ==> && r.1.nodes.Keys == d.nodes.Keys + {r.0}
          && r.1.nodes[r.0] == NewNode(k, Some(p), word)
          && r.1.nodes[p].children == AppendNew(d.nodes[p].children, r.0)
          && r.1.nodes[p].hasBucket
          && (forall n :: n in d.nodes && n != p ==> r.1.nodes[n] == d.nodes[n])
          && r.1.root == d.root && r.1.nextId == d.nextId + 1
  {
    (d.nextId, PlaceFresh(d, p, k, word, AppendNew(d.nodes[p].children, d.nextId)))
  }

  /** `Paragraph(chapter)`. */
  function NewParagraph(d: Doc, chapter: Id): (r: (Id, Doc))
    requires chapter in d.nodes && d.nodes[chapter].kind == Chapter
  {
    Create(d, chapter, Paragraph, "")
  }

  /** `Sentence(paragraph)`. */
  function NewSentence(d: Doc, paragraph: Id): (r: (Id, Doc))
    requires paragraph in d.nodes && d.nodes[paragraph].kind == Paragraph
  {
    Create(d, paragraph, Sentence, "")
  }

  /** `Tok(sentence, word)`, attached to the sentence. */
  function NewTok(d: Doc, sentence: Id, word: string): (r: (Id, Doc))
    requires sentence in d.nodes && d.nodes[sentence].kind == Sentence
  {
    Create(d, sentence, Tok, word)
  }

  /** The arena after placing the fresh entity `d.nextId`, of kind `k`, as a
      child of `p` whose child list becomes `list`. */
  function PlaceFresh(d: Doc, p: Id, k: Kind, word: string, list: seq<Id>): Doc
    requires p in d.nodes
  {
    var ns := d.nodes[d.nextId := NewNode(k, Some(p), word)];
    Doc(ns[p := ns[p].(children := list, hasBucket := true)], d.root, d.nextId + 1)
  }

  /** A fresh child placed anywhere in `p`'s list keeps the document well
      formed; it sits at the level below `p`. */
  lemma PlaceFreshWellFormed(d: Doc, p: Id, k: Kind, word: string, list: seq<Id>)
    requires WellFormed(d) && p in d.nodes && ChildKind(d.nodes[p].kind) == Some(k)
    requires NoDup(list)
    requires forall x :: x in list <==> x in d.nodes[p].children || x == d.nextId
    ensures WellFormed(PlaceFresh(d, p, k, word, list))
  {
    PlaceFreshChildren(d, p, k, word, list);
    PlaceFreshAttached(d, p, k, word, list);
  }

  lemma PlaceFreshAttached(d: Doc, p: Id, k: Kind, word: string, list: seq<Id>)
    requires WellFormed(d) && p in d.nodes
    requires forall x :: x in list <==> x in d.nodes[p].children || x == d.nextId
    ensures var ns := PlaceFresh(d, p, k, word, list).nodes;
      forall n :: n in ns && n != d.root ==> Attached(ns, n)
  {
    var ns := PlaceFresh(d, p, k, word, list).nodes;
    assert d.nextId != p;
    forall n | n in ns && n != d.root ensures Attached(ns, n) {
      if n != d.nextId {
        assert Attached(d.nodes, n);
      }
    }
  }

  lemma PlaceFreshChildren(d: Doc, p: Id, k: Kind, word: string, list: seq<Id>)
    requires WellFormed(d) && p in d.nodes && ChildKind(d.nodes[p].kind) == Some(k)
    requires NoDup(list)
    requires forall x :: x in list <==> x in d.nodes[p].children || x == d.nextId
    ensures var ns := PlaceFresh(d, p, k, word, list).nodes;
      forall n :: n in ns ==> ChildrenOK(ns, n)
  {
    var id := d.nextId;
    var ns := PlaceFresh(d, p, k, word, list).nodes;
    assert id != p;
    forall n | n in ns ensures ChildrenOK(ns, n) {
      if n != id {
        assert ChildrenOK(d.nodes, n);
        forall c | c in ns[n].children ensures c in ns && ns[c].parent == Some(n) && Level(ns[c].kind) == Level(ns[n].kind) + 1 {
          if c != id {
            assert c in d.nodes[n].children;
          }
        }
      }
    }
  }

  /** Creating an entity under a well-formed document keeps it well formed. */
  lemma CreateWellFormed(d: Doc, p: Id, k: Kind, word: string)
    requires WellFormed(d) && p in d.nodes && ChildKind(d.nodes[p].kind) == Some(k)
    ensures d.nextId !in d.nodes
    ensures WellFormed(Create(d, p, k, word).1)
  {
    assert ChildrenOK(d.nodes, p);
    var list := d.nodes[p].children + [d.nextId];
    assert NoDup(list);
    PlaceFreshWellFormed(d, p, k, word, list);
  }

  /** `Sentence.join_tokens`: a fresh token whose word is `a`'s word followed
      by `b`'s goes to `a`'s index in the sentence, that is right before `a`;
      `a` and `b` stay where they are. The property list raises when the
      sentence has no child bucket yet or `a` is not in it. */
  function JoinTokens(d: Doc, s: Id, a: Id, b: Id): (r: Result<(Id, Doc)>)
    requires s in d.nodes && a in d.nodes && b in d.nodes && d.nodes[s].kind == Sentence
    ensures r.Ok? <==> d.nodes[s].hasBucket && a in d.nodes[s].children
    ensures r.Err? ==> r.error == ReferenceNotFound
    ensures r.Ok? ==> r.value.0 == d.nextId
    ensures r.Ok? && d.nextId !in d.nodes ==>
      var j := r.value.0;
      var ns := r.value.1.nodes;
      && ns.Keys == d.nodes.Keys + {j}
      && ns[j] == NewNode(Tok, Some(s), d.nodes[a].word + d.nodes[b].word)
      && ns[s] == d.nodes[s].(children := InsertBefore(d.nodes[s].children, a, j))
      && (forall n :: n in d.nodes && n != s ==> ns[n] == d.nodes[n])
      && r.value.1.root == d.root
  {
    var n := d.nodes[s];
    if !n.hasBucket || a !in n.children then Err(ReferenceNotFound)
    else
      var j := d.nextId;
      Ok((j, PlaceFresh(d, s, Tok, d.nodes[a].word + d.nodes[b].word, InsertBefore(n.children, a, j))))
  }

  /** The list edit of `join_tokens` is the property list's `insert_before`
      with `a` as the reference, including its failure. */
  lemma JoinIsInsertBefore(d: Doc, s: Id, a: Id, b: Id)
    requires s in d.nodes && a in d.nodes && b in d.nodes && d.nodes[s].kind == Sentence
    requires WellFormed(d)
    ensures var pl := ChildStore(d.nodes[s]);
      match JoinTokens(d, s, a, b)
      case Err(e) => PL.InsertBefore(pl, a, HasPart, Tok, d.nextId) == Err(e)
      case Ok((j, r)) => PL.InsertBefore(pl, a, HasPart, Tok, j) == Ok(ChildStore(r.nodes[s]))
  {
    var n := d.nodes[s];
    var pl := ChildStore(n);
    assert ChildrenOK(d.nodes, s);
    if n.hasBucket {
      assert PL.FindBucket(pl.table[HasPart], Tok) == Some(0);
      if a in n.children {
        var j := d.nextId;
        var items := InsertBefore(n.children, a, j);
        var bs := [PL.Bucket(Tok, items)];
        assert pl.table[HasPart][0 := PL.Bucket(Tok, items)] == bs;
        assert pl.table[HasPart := bs] == map[HasPart := bs];
        assert j !in n.children;
        assert PL.InsertBefore(pl, a, HasPart, Tok, j) == Ok(PL.SetItems(pl, HasPart, 0, items));
      }
    }
  }

  /** Joining keeps a well-formed document well formed; the joined token's
      list is the old one with the token at `a`'s index. */
  lemma JoinTokensWellFormed(d: Doc, s: Id, a: Id, b: Id) returns (ci: nat)
    requires WellFormed(d) && s in d.nodes && a in d.nodes && b in d.nodes && d.nodes[s].kind == Sentence
    requires JoinTokens(d, s, a, b).Ok?
    ensures var cs := d.nodes[s].children;
      && ci < |cs| && cs[ci] == a
      && JoinTokens(d, s, a, b).value.1.nodes[s].children == cs[..ci] + [d.nextId] + cs[ci..]
    ensures WellFormed(JoinTokens(d, s, a, b).value.1)
  {
    var n := d.nodes[s];
    var j := d.nextId;
    assert ChildrenOK(d.nodes, s);
    ci := IndexOf(n.children, a);
    var list := InsertBefore(n.children, a, j);
    assert j !in n.children;
    assert list == n.children[..ci] + [j] + n.children[ci..];
    assert n.children == n.children[..ci] + n.children[ci..];
    PlaceFreshWellFormed(d, s, Tok, d.nodes[a].word + d.nodes[b].word, list);
  }

  /** In a well-formed document the joined token enters the token sequence
      right before `a`; nothing else moves. */
  lemma JoinTokensLeaves(d: Doc, s: Id, a: Id, b: Id)
    requires WellFormed(d) && s in d.nodes && a in d.nodes && b in d.nodes && d.nodes[s].kind == Sentence
    requires JoinTokens(d, s, a, b).Ok?
    ensures a in Leaves(d)
    ensures var r := JoinTokens(d, s, a, b).value.1;
      var i := IndexOf(Leaves(d), a);
      && WellFormed(r)
      && Leaves(r) == Leaves(d)[..i] + [d.nextId] + Leaves(d)[i..]
  {
    var r := JoinTokens(d, s, a, b).value.1;
    var ci := JoinTokensWellFormed(d, s, a, b);
    ChildListFrame(d.nodes, r.nodes, s);
    InsertedLeaves(d, r, s, ci, d.nextId);
  }

  /** A token inserted at index `ci` of sentence `s`, no other list changing,
      enters the token sequence right before the entity it displaced. */
  lemma InsertedLeaves(d: Doc, r: Doc, s: Id, ci: nat, j: Id)
    requires WellFormed(d) && s in d.nodes && d.nodes[s].kind == Sentence && r.root == d.root
    requires forall q :: q != s ==> ChildrenOf(r.nodes, q) == ChildrenOf(d.nodes, q)
    requires var cs := d.nodes[s].children;
      ci < |cs| && ChildrenOf(r.nodes, s) == cs[..ci] + [j] + cs[ci..]
    ensures d.nodes[s].children[ci] in Leaves(d)
    ensures var i := IndexOf(Leaves(d), d.nodes[s].children[ci]);
      Leaves(r) == Leaves(d)[..i] + [j] + Leaves(d)[i..]
  {
    var cs := d.nodes[s].children;
    var P, S := SentenceEdit(d, r, s);
    var L := Leaves(d);
    var i := |P| + ci;
    assert L[i] == cs[ci];
    IndexOfUnique(L, i);
    assert L[..i] == P + cs[..ci];
    assert L[i..] == cs[ci..] + S;
  }

  /** The text gains the joined word right before `a`'s word. */
  lemma JoinTokensText(d: Doc, s: Id, a: Id, b: Id)
    requires WellFormed(d) && s in d.nodes && a in d.nodes && b in d.nodes && d.nodes[s].kind == Sentence
    requires JoinTokens(d, s, a, b).Ok?
    ensures a in Leaves(d)
    ensures var r := JoinTokens(d, s, a, b).value.1;
      var i := IndexOf(Leaves(d), a);
      Text(r) == Text(d)[..i] + [d.nodes[a].word + d.nodes[b].word] + Text(d)[i..]
  {
    JoinTokensLeaves(d, s, a, b);
    var r := JoinTokens(d, s, a, b).value.1;
    LevelSeqKinds(d, 3);
    InsertedWords(d.nodes, r.nodes, Leaves(d), IndexOf(Leaves(d), a), d.nextId);
  }

  /** Words of a run with one entity inserted, the others keeping their words. */
  lemma InsertedWords(ns: Nodes, ns': Nodes, xs: seq<Id>, i: nat, j: Id)
    requires i <= |xs| && j in ns'
    requires forall x :: x in xs ==> x in ns && x in ns' && ns'[x].word == ns[x].word
    ensures Words(ns', xs[..i] + [j] + xs[i..]) == Words(ns, xs)[..i] + [ns'[j].word] + Words(ns, xs)[i..]
  {
    var a, b := xs[..i], xs[i..];
    assert a + b == xs;
    forall x | x in a ensures x in xs { }
    forall x | x in b ensures x in xs { }
    WordsReplace(ns, ns', a, [j], b);
    WordsAppend(ns, a, b);
    var wa, wb := Words(ns, a), Words(ns, b);
    assert Words(ns, xs)[..i] == wa;
    assert Words(ns, xs)[i..] == wb;
    assert Words(ns', [j]) == [ns'[j].word];
  }

  /** The identities `a`, `a + 1`, ..., `a + m - 1`. */
  function Range(a: nat, m: nat): (r: seq<nat>)
    ensures |r| == m && forall i :: 0 <= i < m ==> r[i] == a + i
  {
    if m == 0 then [] else Range(a, m - 1) + [a + m - 1]
  }

  /** `d.nextId` is above every identity in use and in the child list of `s`. */
  ghost predicate Unused(d: Doc, s: Id)
    requires s in d.nodes
  {
    && (forall n :: n in d.nodes ==> n < d.nextId)
    && (forall n :: n in d.nodes[s].children ==> n < d.nextId)
  }

  /** New tokens under `s` with identities `a ..`, one per word of `ws`. */
  function FreshToks(a: nat, s: Id, ws: seq<string>): (r: Nodes)
    ensures forall n :: n in r <==> a <= n < a + |ws|
    ensures forall n :: n in r ==> r[n] == NewNode(Tok, Some(s), ws[n - a])
  {
    if |ws| == 0 then map[]
    else FreshToks(a, s, ws[..|ws| - 1])[a + |ws| - 1 := NewNode(Tok, Some(s), ws[|ws| - 1])]
  }

  /** Fresh tokens with the words `ws` at the end of sentence `s`, in one
      step: the identities `d.nextId ..` in order, each a new token under `s`
      with its word. */
  function AppendToks(d: Doc, s: Id, ws: seq<string>): (r: Doc)
    requires s in d.nodes && s < d.nextId
    ensures r.root == d.root && r.nextId == d.nextId + |ws|
    ensures forall n :: n in r.nodes <==> n in d.nodes || d.nextId <= n < r.nextId
    ensures forall n :: d.nextId <= n < r.nextId ==> r.nodes[n] == NewNode(Tok, Some(s), ws[n - d.nextId])
    ensures forall n :: n in d.nodes && n != s && n < d.nextId ==> r.nodes[n] == d.nodes[n]
    ensures r.nodes[s] == d.nodes[s].(children := d.nodes[s].children + Range(d.nextId, |ws|),
                                      hasBucket := d.nodes[s].hasBucket || |ws| > 0)
  {
    var ns := d.nodes + FreshToks(d.nextId, s, ws);
    var n0 := d.nodes[s];
    Doc(ns[s := n0.(children := n0.children + Range(d.nextId, |ws|), hasBucket := n0.hasBucket || |ws| > 0)],
        d.root, d.nextId + |ws|)
  }

  /** Appending one more token with `Tok(sentence, word)` extends the run by
      that word. */
  lemma AppendToksStep(d: Doc, s: Id, ws: seq<string>, w: string)
    requires s in d.nodes && d.nodes[s].kind == Sentence && Unused(d, s)
    ensures var r := AppendToks(d, s, ws);
      s in r.nodes && ChildKind(r.nodes[s].kind) == Some(Tok)
    ensures Create(AppendToks(d, s, ws), s, Tok, w).1 == AppendToks(d, s, ws + [w])
  {
    var r1 := Create(AppendToks(d, s, ws), s, Tok, w).1;
    var r2 := AppendToks(d, s, ws + [w]);
    StepSentence(d, s, ws, w);
    StepOthers(d, s, ws, w);
    assert r1.nodes == r2.nodes;
  }

  /** The sentence itself: one more identity at the end of its list. */
  lemma StepSentence(d: Doc, s: Id, ws: seq<string>, w: string)
    requires s in d.nodes && d.nodes[s].kind == Sentence && Unused(d, s)
    ensures Create(AppendToks(d, s, ws), s, Tok, w).1.nodes[s] == AppendToks(d, s, ws + [w]).nodes[s]
  {
    var a, m := d.nextId, |ws|;
    var n0 := d.nodes[s];
    var cs := n0.children;
    var target := n0.(children := cs + Range(a, m + 1), hasBucket := true);
    assert AppendToks(d, s, ws + [w]).nodes[s] == target by {
      assert |ws + [w]| == m + 1;
    }
    assert Create(AppendToks(d, s, ws), s, Tok, w).1.nodes[s] == target by {
      var r0 := AppendToks(d, s, ws);
      assert r0.nextId == a + m && a + m !in r0.nodes;
      assert r0.nodes[s] == n0.(children := cs + Range(a, m), hasBucket := n0.hasBucket || m > 0);
      assert a + m !in cs + Range(a, m) by {
        assert a + m !in cs;
        assert a + m !in Range(a, m);
      }
      CreateParent(r0, s, Tok, w);
      AppendNewFresh(cs + Range(a, m), a + m);
      RangeSnoc(cs, a, m);
    }
  }

  /** What `Create` does to the parent: the fresh identity joins its list. */
  lemma CreateParent(d: Doc, p: Id, k: Kind, word: string)
    requires p in d.nodes && ChildKind(d.nodes[p].kind) == Some(k) && d.nextId !in d.nodes
    ensures Create(d, p, k, word).1.nodes[p] == d.nodes[p].(children := AppendNew(d.nodes[p].children, d.nextId), hasBucket := true)
  {
  }

  lemma AppendNewFresh(s: seq<Id>, e: Id)
    requires e !in s
    ensures AppendNew(s, e) == s + [e]
  {
  }

  lemma RangeSnoc(cs: seq<Id>, a: nat, m: nat)
    ensures cs + Range(a, m) + [a + m] == cs + Range(a, m + 1)
  {
    assert Range(a, m + 1) == Range(a, m) + [a + m];
  }

  /** Every other entity: the same identities, the same contents. */
  lemma StepOthers(d: Doc, s: Id, ws: seq<string>, w: string)
    requires s in d.nodes && d.nodes[s].kind == Sentence && Unused(d, s)
    ensures var r1 := Create(AppendToks(d, s, ws), s, Tok, w).1;
      var r2 := AppendToks(d, s, ws + [w]);
      && r1.root == r2.root && r1.nextId == r2.nextId
      && r1.nodes.Keys == r2.nodes.Keys
      && forall n :: n in r1.nodes && n != s ==> r1.nodes[n] == r2.nodes[n]
  {
    var a := d.nextId;
    var r0 := AppendToks(d, s, ws);
    var r1 := Create(r0, s, Tok, w).1;
    var r2 := AppendToks(d, s, ws + [w]);
    assert a + |ws| !in r0.nodes;
    forall n | n in r1.nodes && n != s ensures r1.nodes[n] == r2.nodes[n] {
      if n != a + |ws| {
        assert r1.nodes[n] == r0.nodes[n];
      }
    }
  }

  /** The sentence's words gain `ws` at the end. */
  lemma AppendToksWords(d: Doc, s: Id, ws: seq<string>)
    requires WellFormed(d) && s in d.nodes && d.nodes[s].kind == Sentence && Unused(d, s)
    ensures var r := AppendToks(d, s, ws);
      Words(r.nodes, r.nodes[s].children) == Words(d.nodes, d.nodes[s].children) + ws
  {
    var r := AppendToks(d, s, ws);
    var cs := d.nodes[s].children;
    assert ChildrenOK(d.nodes, s);
    forall x | x in cs ensures (x in d.nodes <==> x in r.nodes) && (x in d.nodes ==> d.nodes[x].word == r.nodes[x].word) {
      assert x != s && x < d.nextId;
    }
    forall n: Id | d.nextId <= n < d.nextId + |ws| ensures n in r.nodes && r.nodes[n].word == ws[n - d.nextId] {
      assert r.nodes[n] == NewNode(Tok, Some(s), ws[n - d.nextId]);
    }
    RunAppendedWords(d.nodes, r.nodes, cs, d.nextId, ws);
  }

  lemma RunAppendedWords(ns: Nodes, ns': Nodes, cs: seq<Id>, a: nat, ws: seq<string>)
    requires forall x :: x in cs ==> (x in ns <==> x in ns') && (x in ns ==> ns[x].word == ns'[x].word)
    requires forall n: Id :: a <= n < a + |ws| ==> n in ns' && ns'[n].word == ws[n - a]
    ensures Words(ns', cs + Range(a, |ws|)) == Words(ns, cs) + ws
  {
    var run := Range(a, |ws|);
    WordsAppend(ns', cs, run);
    WordsSame(ns, ns', cs);
    var w := Words(ns', run);
    assert |w| == |ws|;
    forall i | 0 <= i < |ws| ensures w[i] == ws[i] {
      var n := a + i;
      assert run[i] == n && n - a == i;
    }
    assert w == ws;
  }

  /** Every identity in use, and so every child of `s`, is below `nextId`. */
  lemma WellFormedUnused(d: Doc, s: Id)
    requires WellFormed(d) && s in d.nodes
    ensures Unused(d, s)
  {
    assert ChildrenOK(d.nodes, s);
  }

  /** Appending tokens to a sentence keeps the document well formed. */
  lemma {:induction false} AppendToksWellFormed(d: Doc, s: Id, ws: seq<string>)
    requires WellFormed(d) && s in d.nodes && d.nodes[s].kind == Sentence
    ensures WellFormed(AppendToks(d, s, ws))
    decreases |ws|
  {
    WellFormedUnused(d, s);
    if |ws| == 0 {
      assert AppendToks(d, s, ws) == d by {
        var r := AppendToks(d, s, ws);
        assert r.nodes[s] == d.nodes[s];
        assert r.nodes.Keys == d.nodes.Keys;
      }
    } else {
      var init, w := ws[..|ws| - 1], ws[|ws| - 1];
      assert init + [w] == ws;
      AppendToksWellFormed(d, s, init);
      AppendToksStep(d, s, init, w);
      CreateWellFormed(AppendToks(d, s, init), s, Tok, w);
    }
  }

  /** The words of the entries of `cs` that are tokens, in order (the
      `isinstance(child, Tok)` filter of the copy loop). */
  function TokWords(ns: Nodes, cs: seq<Id>): (r: seq<string>)
    ensures |r| <= |cs|
  {
    if |cs| == 0 then []
    else
      var c := cs[|cs| - 1];
      TokWords(ns, cs[..|cs| - 1]) + (if c in ns && ns[c].kind == Tok then [ns[c].word] else [])
  }

  /** When every entry is a token the filter keeps them all. */
  lemma {:induction false} TokWordsAllTok(ns: Nodes, cs: seq<Id>)
    requires forall c :: c in cs ==> c in ns && ns[c].kind == Tok
    ensures TokWords(ns, cs) == Words(ns, cs)
  {
    if |cs| > 0 {
      var init := cs[..|cs| - 1];
      TokWordsAllTok(ns, init);
      assert init + [cs[|cs| - 1]] == cs;
      WordsAppend(ns, init, [cs[|cs| - 1]]);
    }
  }

  /** Appending no words changes nothing. */
  lemma AppendNoToks(d: Doc, s: Id)
    requires s in d.nodes && s < d.nextId
    ensures AppendToks(d, s, []) == d
  {
    var e := AppendToks(d, s, []);
    assert e.nodes[s] == d.nodes[s];
    assert e.nodes.Keys == d.nodes.Keys;
  }

  /** One turn of the copy loop: a token entry adds its word with
      `Tok(self, word)`, anything else adds nothing. */
  lemma CopyStep(d: Doc, s: Id, cs: seq<Id>, i: nat)
    requires s in d.nodes && d.nodes[s].kind == Sentence && Unused(d, s) && i < |cs|
    ensures var c := cs[i];
      var r := AppendToks(d, s, TokWords(d.nodes, cs[..i]));
      AppendToks(d, s, TokWords(d.nodes, cs[..i + 1])) ==
        if c in d.nodes && d.nodes[c].kind == Tok then Create(r, s, Tok, d.nodes[c].word).1 else r
  {
    var c := cs[i];
    assert cs[..i + 1][..i] == cs[..i];
    var ws := TokWords(d.nodes, cs[..i]);
    if c in d.nodes && d.nodes[c].kind == Tok {
      AppendToksStep(d, s, ws, d.nodes[c].word);
      assert TokWords(d.nodes, cs[..i + 1]) == ws + [d.nodes[c].word];
    } else {
      assert TokWords(d.nodes, cs[..i + 1]) == ws;
    }
  }

  /** One turn of the copy loop: `Tok(self, child.word)` for a token entry,
      nothing for any other. */
  method CopyEntry(d: Doc, s: Id, cs: seq<Id>, i: nat, r: Doc) returns (r': Doc)
    requires s in d.nodes && d.nodes[s].kind == Sentence && Unused(d, s) && i < |cs|
    requires r == AppendToks(d, s, TokWords(d.nodes, cs[..i]))
    ensures r' == AppendToks(d, s, TokWords(d.nodes, cs[..i + 1]))
  {
    var c := cs[i];
    CopyStep(d, s, cs, i);
    if c in d.nodes && d.nodes[c].kind == Tok {
      r' := Create(r, s, Tok, d.nodes[c].word).1;
    } else {
      r' := r;
    }
  }

  /** `Sentence.append_copy_tokens_from`: a fresh token with the same word
      is appended to `s` for every token of `other`, in order. The loop runs
      over the list `other` had when the call began. Copying a sentence onto
      itself, which never ends in the source because its loop walks the list
      it grows, here doubles the sentence. */
  method AppendCopyTokensFrom(d: Doc, s: Id, other: Id) returns (r: Doc)
    requires WellFormed(d) && s in d.nodes && d.nodes[s].kind == Sentence
    ensures r == AppendToks(d, s, TokWords(d.nodes, ChildrenOf(d.nodes, other)))
    ensures WellFormed(r) && r.root == d.root
    ensures Words(r.nodes, r.nodes[s].children)
      == Words(d.nodes, d.nodes[s].children) + TokWords(d.nodes, ChildrenOf(d.nodes, other))
  {
    WellFormedUnused(d, s);
    var cs := ChildrenOf(d.nodes, other);
    r := CopyToks(d, s, cs);
    AppendToksWellFormed(d, s, TokWords(d.nodes, cs));
    AppendToksWords(d, s, TokWords(d.nodes, cs));
  }

  /** The copy loop of `append_copy_tokens_from` over the list `cs`. */
  method CopyToks(d: Doc, s: Id, cs: seq<Id>) returns (r: Doc)
    requires s in d.nodes && d.nodes[s].kind == Sentence && Unused(d, s)
    ensures r == AppendToks(d, s, TokWords(d.nodes, cs))
  {
    r := d;
    AppendNoToks(d, s);
    var i := 0;
    while i < |cs|
      invariant 0 <= i <= |cs|
      invariant r == AppendToks(d, s, TokWords(d.nodes, cs[..i]))
    {
      r := CopyEntry(d, s, cs, i, r);
      i := i + 1;
    }
    assert cs[..i] == cs;
  }
}
