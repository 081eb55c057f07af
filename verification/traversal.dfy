/** `EntityTraversal.traverse_leaf_entities_between`: one forward pass over
    the tokens of a chapter that calls back on every token strictly between
    two endpoint tokens and records which endpoint came first.

    The source recurses chapter → paragraph → sentence. Every call on a
    container returns 0 unless the second endpoint has been seen, so the
    hand-off test after a paragraph never fires and the pass is the same as
    a walk over the sentences in document order with the hand-off test after
    each sentence; the model walks that sequence of sentences. The callback
    is recorded as the list of tokens it was called with. */
module Traversal {
  import opened Wrappers
  import opened Sequences
  import opened Entities

  /** The traversal's fields: the two endpoints (the second is dropped at
      the hand-off), the callback count, the endpoint met first and the one
      met last, and the tokens called back so far. */
  datatype Trav = Trav(ent1: Option<Id>, ent2: Option<Id>, count: nat, first: Option<Id>, last: Option<Id>, called: seq<Id>)

  /** A fresh traversal between two tokens. */
  function Start(a: Id, b: Id): (t: Trav)
    ensures t.ent1 == Some(a) && t.ent2 == Some(b) && t.first.None? && t.last.None?
    ensures t.count == 0 && t.called == []
  {
    Trav(Some(a), Some(b), 0, None, None, [])
  }

  /** The sequences of `ss` end to end. */
  function Flatten(ss: seq<seq<Id>>): seq<Id> {
    if |ss| == 0 then [] else ss[0] + Flatten(ss[1..])
  }

  /** The leaf loop of one sentence from `toks` on. `endingWith` is the
      endpoint that ends the pass, None while no endpoint has been met in
      this sentence; `adding` says whether tokens are being called back;
      `processed` counts the callbacks made in this sentence. */
  function ScanLeaves(t: Trav, endingWith: Option<Id>, adding: bool, toks: seq<Id>, processed: nat): (r: (Trav, nat))
    ensures r.0.ent1 == t.ent1 && r.0.ent2 == t.ent2
    ensures r.1 >= processed && r.0.count == t.count + (r.1 - processed)
    ensures |r.0.called| == |t.called| + (r.1 - processed)
    decreases |toks|
  {
    if |toks| == 0 then (t, processed)
    else
      var c := toks[0];
      if endingWith == Some(c) then (t.(last := Some(c)), processed)
      else if endingWith.None? then
        if Some(c) == t.ent1 then ScanLeaves(t.(first := t.ent1), t.ent2, true, toks[1..], processed)
        else if Some(c) == t.ent2 then ScanLeaves(t.(first := t.ent2), t.ent1, true, toks[1..], processed)
        else ScanLeaves(t, endingWith, adding, toks[1..], processed)
      else if adding then
        ScanLeaves(t.(count := t.count + 1, called := t.called + [c]), endingWith, adding, toks[1..], processed + 1)
      else ScanLeaves(t, endingWith, adding, toks[1..], processed)
  }

  /** One sentence: with both endpoints still pending the pass first looks
      for one of them; after the hand-off it calls back from the start of
      the sentence until the remaining endpoint. */
  function ScanSentence(t: Trav, toks: seq<Id>): (r: (Trav, nat))
    ensures r.0.ent1 == t.ent1 && r.0.ent2 == t.ent2
    ensures r.0.count == t.count + r.1 && |r.0.called| == |t.called| + r.1
  {
    ScanLeaves(t, if t.ent2.None? then t.ent1 else None, t.ent2.None?, toks, 0)
  }

  /** The hand-off: the endpoint not met yet becomes the only one. */
  function HandOff(t: Trav): (r: Trav)
    ensures r.first == t.first && r.last == t.last && r.called == t.called && r.count == t.count
    ensures t.first == t.ent1 ==> r.ent1 == t.ent2 && r.ent2.None?
    ensures t.first != t.ent1 && t.first == t.ent2 ==> r.ent1 == t.ent1 && r.ent2.None?
    ensures t.first != t.ent1 && t.first != t.ent2 ==> r == t
  {
    if t.first == t.ent1 then t.(ent1 := t.ent2, ent2 := None)
    else if t.first == t.ent2 then t.(ent2 := None)
    else t
  }

  /** The pass over a sequence of sentences, stopping once the second
      endpoint has been seen. After each sentence the hand-off fires when
      `fixed` is false as the source has it, only if that sentence called
      back at least once, and when `fixed` is true as soon as the first
      endpoint has been met. */
  function Walk(t: Trav, sents: seq<seq<Id>>, fixed: bool): (r: Trav)
    ensures r.count == t.count + (|r.called| - |t.called|) && |r.called| >= |t.called|
    decreases |sents|
  {
    if |sents| == 0 then t
    else
      var s := ScanSentence(t, sents[0]);
      if s.0.last.Some? then s.0
      else
        var go := if fixed then s.0.first.Some? else s.1 > 0;
        Walk(if go && s.0.ent2.Some? then HandOff(s.0) else s.0, sents[1..], fixed)
  }

  /** The pass as written. */
  function TraverseAsWritten(a: Id, b: Id, sents: seq<seq<Id>>): (r: Trav)
    ensures r.count == |r.called|
  {
    Walk(Start(a, b), sents, false)
  }

  /** The pass with the hand-off keyed on the first endpoint having been
      met. */
  function Traverse(a: Id, b: Id, sents: seq<seq<Id>>): (r: Trav)
    ensures r.count == |r.called|
  {
    Walk(Start(a, b), sents, true)
  }

  /** As written, a first endpoint that ends its sentence is forgotten: in
      sentences [1, 2] and [3, 4] with endpoints 2 and 4, token 3 is never
      called back and the endpoint recorded as first is 4. The corrected
      pass calls back token 3 and records 2. */
  lemma {:induction false} HandOffMissed()
    ensures TraverseAsWritten(2, 4, [[1, 2], [3, 4]]).first == Some(4)
    ensures TraverseAsWritten(2, 4, [[1, 2], [3, 4]]).called == []
  {
    var t0 := Start(2, 4);
    var t1 := t0.(first := Some(2));
    var t2 := t1.(first := Some(4));
    assert ScanLeaves(t0, None, false, [2], 0) == ScanLeaves(t1, Some(4), true, [], 0) == (t1, 0);
    assert ScanSentence(t0, [1, 2]) == (t1, 0);
    assert ScanLeaves(t1, None, false, [4], 0) == ScanLeaves(t2, Some(2), true, [], 0) == (t2, 0);
    assert ScanSentence(t1, [3, 4]) == (t2, 0);
    var ss: seq<seq<Id>> := [[1, 2], [3, 4]];
    assert ss[1..] == [[3, 4]] && ss[1..][1..] == [];
    assert Walk(t1, [[3, 4]], false) == Walk(t2, [], false) == t2;
  }

  /** Where `x` sits in `s + u`. */
  lemma {:induction false} IndexOfAppend(s: seq<Id>, u: seq<Id>, x: Id)
    requires x in s + u
    ensures x in s ==> IndexOf(s + u, x) == IndexOf(s, x)
    ensures x !in s ==> x in u && IndexOf(s + u, x) == |s| + IndexOf(u, x)
  {
    if |s| > 0 {
      assert (s + u)[0] == s[0] && (s + u)[1..] == s[1..] + u;
      if s[0] != x {
        IndexOfAppend(s[1..], u, x);
      }
    } else {
      assert s + u == u;
    }
  }

  /** The first index holding `a` or `b`. */
  function FirstOf(s: seq<Id>, a: Id, b: Id): (k: nat)
    requires a in s || b in s
    ensures k < |s| && (s[k] == a || s[k] == b) && a !in s[..k] && b !in s[..k]
  {
    if s[0] == a || s[0] == b then 0
    else
      var k := FirstOf(s[1..], a, b);
      assert s[..k + 1] == [s[0]] + s[1..][..k];
      k + 1
  }

  /** Calling back from the start of a sentence until `e`. */
  lemma {:induction false} AddingScan(t: Trav, e: Id, toks: seq<Id>, p: nat)
    ensures var r := ScanLeaves(t, Some(e), true, toks, p);
      && (e in toks ==> var k := IndexOf(toks, e);
            r == (t.(count := t.count + k, called := t.called + toks[..k], last := Some(e)), p + k))
      && (e !in toks ==> r == (t.(count := t.count + |toks|, called := t.called + toks), p + |toks|))
  {
    if e in toks {
      AddingScanFound(t, e, toks, p);
    } else {
      AddingScanMissing(t, e, toks, p);
    }
  }

  lemma {:induction false} AddingScanFound(t: Trav, e: Id, toks: seq<Id>, p: nat)
    requires e in toks
    ensures var k := IndexOf(toks, e);
      ScanLeaves(t, Some(e), true, toks, p) == (t.(count := t.count + k, called := t.called + toks[..k], last := Some(e)), p + k)
    decreases |toks|
  {
    if toks[0] == e {
      assert toks[..0] == [] && t.called + [] == t.called;
    } else {
      var c := toks[0];
      var t' := t.(count := t.count + 1, called := t.called + [c]);
      assert ScanLeaves(t, Some(e), true, toks, p) == ScanLeaves(t', Some(e), true, toks[1..], p + 1);
      AddingScanFound(t', e, toks[1..], p + 1);
      var k := IndexOf(toks[1..], e);
      assert IndexOf(toks, e) == k + 1;
      assert toks[..k + 1] == [c] + toks[1..][..k];
      assert t'.called + toks[1..][..k] == t.called + toks[..k + 1];
    }
  }

  lemma {:induction false} AddingScanMissing(t: Trav, e: Id, toks: seq<Id>, p: nat)
    requires e !in toks
    ensures ScanLeaves(t, Some(e), true, toks, p) == (t.(count := t.count + |toks|, called := t.called + toks), p + |toks|)
    decreases |toks|
  {
    if |toks| == 0 {
      assert t.called + toks == t.called;
    } else {
      var c := toks[0];
      var t' := t.(count := t.count + 1, called := t.called + [c]);
      assert ScanLeaves(t, Some(e), true, toks, p) == ScanLeaves(t', Some(e), true, toks[1..], p + 1);
      AddingScanMissing(t', e, toks[1..], p + 1);
      assert toks == [c] + toks[1..];
      assert t'.called + toks[1..] == t.called + toks;
    }
  }

  /** Looking for the first endpoint: the tokens before it are skipped,
      and from the one after it the scan calls back until the other. */
  lemma {:induction false} SearchScan(t: Trav, a: Id, b: Id, toks: seq<Id>, p: nat)
    requires t.ent1 == Some(a) && t.ent2 == Some(b) && a != b
    ensures a !in toks && b !in toks ==> ScanLeaves(t, None, false, toks, p) == (t, p)
    ensures a in toks || b in toks ==>
      var k := FirstOf(toks, a, b);
      ScanLeaves(t, None, false, toks, p) ==
        ScanLeaves(t.(first := Some(toks[k])), Some(if toks[k] == a then b else a), true, toks[k + 1..], p)
    decreases |toks|
  {
    if |toks| > 0 && toks[0] != a && toks[0] != b {
      SearchScan(t, a, b, toks[1..], p);
      assert toks == [toks[0]] + toks[1..];
      if a in toks || b in toks {
        assert toks[FirstOf(toks, a, b) + 1..] == toks[1..][FirstOf(toks[1..], a, b) + 1..];
      }
    }
  }

  /** After the hand-off the pass calls back every token up to the
      remaining endpoint `e`, whichever way the hand-off is keyed. */
  lemma {:induction false} AddingWalkFound(t: Trav, e: Id, sents: seq<seq<Id>>, fixed: bool)
    requires t.ent2.None? && t.ent1 == Some(e) && t.last.None? && e in Flatten(sents)
    ensures var k := IndexOf(Flatten(sents), e);
      Walk(t, sents, fixed) == t.(count := t.count + k, called := t.called + Flatten(sents)[..k], last := Some(e))
    decreases |sents|
  {
    var s0 := sents[0];
    var F' := Flatten(sents[1..]);
    IndexOfAppend(s0, F', e);
    if e in s0 {
      AddingScanFound(t, e, s0, 0);
      assert (s0 + F')[..IndexOf(s0, e)] == s0[..IndexOf(s0, e)];
    } else {
      AddingScanMissing(t, e, s0, 0);
      var t1 := t.(count := t.count + |s0|, called := t.called + s0);
      AddingWalkFound(t1, e, sents[1..], fixed);
      var k := IndexOf(F', e);
      assert (s0 + F')[..|s0| + k] == s0 + F'[..k];
      assert t1.called + F'[..k] == t.called + (s0 + F'[..k]);
    }
  }

  /** With both endpoints pending and both present, the corrected pass
      records the earlier endpoint as first and the later as last, and
      calls back exactly the tokens strictly between them. */
  lemma {:induction false} SearchWalk(t: Trav, a: Id, b: Id, sents: seq<seq<Id>>)
    requires t.ent1 == Some(a) && t.ent2 == Some(b) && a != b && t.first.None? && t.last.None?
    requires a in Flatten(sents) && b in Flatten(sents)
    ensures BetweenResult(t, Walk(t, sents, true), Flatten(sents), a, b)
    decreases |sents|
  {
    var s0 := sents[0];
    var F' := Flatten(sents[1..]);
    assert Flatten(sents) == s0 + F';
    IndexOfAppend(s0, F', a);
    IndexOfAppend(s0, F', b);
    if a !in s0 && b !in s0 {
      SearchScan(t, a, b, s0, 0);
      assert ScanSentence(t, s0) == (t, 0);
      assert Walk(t, sents, true) == Walk(t, sents[1..], true);
      SearchWalk(t, a, b, sents[1..]);
      BetweenShift(t, Walk(t, sents, true), s0, F', a, b);
    } else {
      SearchStep(t, a, b, sents);
    }
  }

  /** A result between entries of `u` stays one when entries that are
      neither endpoint go in front. */
  lemma BetweenShift(t: Trav, r: Trav, s: seq<Id>, u: seq<Id>, a: Id, b: Id)
    requires a !in s && b !in s && a in u && b in u
    requires BetweenResult(t, r, u, a, b)
    ensures a in s + u && b in s + u && BetweenResult(t, r, s + u, a, b)
  {
    var lo, hi := Lo(u, a, b), Hi(u, a, b);
    assert IndexOf(s + u, a) == |s| + IndexOf(u, a) && IndexOf(s + u, b) == |s| + IndexOf(u, b) by {
      IndexOfAppend(s, u, a);
      IndexOfAppend(s, u, b);
    }
    SliceShift(s, u, lo + 1, hi);
    BetweenAt(t, r, s + u, a, b, |s| + lo, |s| + hi);
  }

  /** A slice of the back part of `s + u`. */
  lemma SliceShift(s: seq<Id>, u: seq<Id>, lo: nat, hi: nat)
    requires lo <= hi <= |u|
    ensures (s + u)[|s| + lo..|s| + hi] == u[lo..hi]
  {
  }

  /** The earlier and the later of the positions of `a` and `b`. */
  function Lo(F: seq<Id>, a: Id, b: Id): nat
    requires a in F && b in F
  {
    var i := IndexOf(F, a);
    var j := IndexOf(F, b);
    if i < j then i else j
  }

  function Hi(F: seq<Id>, a: Id, b: Id): nat
    requires a in F && b in F
  {
    var i := IndexOf(F, a);
    var j := IndexOf(F, b);
    if i < j then j else i
  }

  /** `r` is the outcome of a traversal started as `t` between `a` and `b`
      over the tokens `F`: the earlier endpoint first, the later last, and
      the callbacks exactly the tokens strictly between them, in order. */
  ghost predicate BetweenResult(t: Trav, r: Trav, F: seq<Id>, a: Id, b: Id)
    requires a in F && b in F
  {
    var lo := Lo(F, a, b);
    var hi := Hi(F, a, b);
    && lo < hi <= |F|
    && r.first == Some(F[lo]) && r.last == Some(F[hi])
    && r.called == t.called + F[lo + 1..hi] && r.count == t.count + (hi - lo - 1)
  }

  /** The sentence holding the first endpoint met. */
  lemma {:induction false} SearchStep(t: Trav, a: Id, b: Id, sents: seq<seq<Id>>)
    requires t.ent1 == Some(a) && t.ent2 == Some(b) && a != b && t.first.None? && t.last.None?
    requires |sents| > 0 && (a in sents[0] || b in sents[0])
    requires a in Flatten(sents) && b in Flatten(sents)
    ensures BetweenResult(t, Walk(t, sents, true), Flatten(sents), a, b)
  {
    var s0 := sents[0];
    var k := FirstOf(s0, a, b);
    var x := s0[k];
    var y := if x == a then b else a;
    SearchScan(t, a, b, s0, 0);
    assert ScanSentence(t, s0) == ScanLeaves(t.(first := Some(x)), Some(y), true, s0[k + 1..], 0);
    if y in s0[k + 1..] {
      SearchStepHere(t, a, b, sents, k);
    } else {
      SearchStepOn(t, a, b, sents, k);
    }
  }

  /** The first endpoint met at `k` of the first sentence, the other after
      it in the same sentence. */
  lemma SearchStepHere(t: Trav, a: Id, b: Id, sents: seq<seq<Id>>, k: nat)
    requires t.ent1 == Some(a) && t.ent2 == Some(b) && a != b && t.first.None? && t.last.None?
    requires |sents| > 0 && k < |sents[0]|
    requires var s := sents[0];
      && (s[k] == a || s[k] == b) && a !in s[..k] && b !in s[..k]
      && var y := if s[k] == a then b else a;
      && y in s[k + 1..]
      && ScanSentence(t, s) == ScanLeaves(t.(first := Some(s[k])), Some(y), true, s[k + 1..], 0)
    ensures a in Flatten(sents) && b in Flatten(sents) && BetweenResult(t, Walk(t, sents, true), Flatten(sents), a, b)
  {
    var s0 := sents[0];
    var y := if s0[k] == a then b else a;
    AddingScanFound(t.(first := Some(s0[k])), y, s0[k + 1..], 0);
    assert Walk(t, sents, true) == ScanSentence(t, s0).0;
    assert Flatten(sents) == s0 + Flatten(sents[1..]);
    EndsInSentence(t, Walk(t, sents, true), s0, Flatten(sents[1..]), a, b, k);
  }

  /** The first endpoint met at `k` of the first sentence, the other in a
      later sentence. */
  lemma SearchStepOn(t: Trav, a: Id, b: Id, sents: seq<seq<Id>>, k: nat)
    requires t.ent1 == Some(a) && t.ent2 == Some(b) && a != b && t.first.None? && t.last.None?
    requires |sents| > 0 && k < |sents[0]| && a in Flatten(sents) && b in Flatten(sents)
    requires var s := sents[0];
      && (s[k] == a || s[k] == b) && a !in s[..k] && b !in s[..k]
      && var y := if s[k] == a then b else a;
      && y !in s[k + 1..]
      && ScanSentence(t, s) == ScanLeaves(t.(first := Some(s[k])), Some(y), true, s[k + 1..], 0)
    ensures BetweenResult(t, Walk(t, sents, true), Flatten(sents), a, b)
  {
    var s0 := sents[0];
    var F' := Flatten(sents[1..]);
    var y := if s0[k] == a then b else a;
    var rest := s0[k + 1..];
    var t0 := t.(first := Some(s0[k]));
    AddingScanMissing(t0, y, rest, 0);
    var t1 := t0.(count := t0.count + |rest|, called := t0.called + rest);
    var t2 := HandOff(t1);
    assert t2 == t1.(ent1 := Some(y), ent2 := None);
    assert Walk(t, sents, true) == Walk(t2, sents[1..], true);
    assert y !in s0 by {
      assert s0 == s0[..k + 1] + rest;
    }
    assert Flatten(sents) == s0 + F';
    IndexOfAppend(s0, F', y);
    AddingWalkFound(t2, y, sents[1..], true);
    EndsLater(t, Walk(t, sents, true), s0, F', a, b, k);
  }

  /** Both endpoints in the sentence `s`, the first met at `k`. */
  lemma EndsInSentence(t: Trav, r: Trav, s: seq<Id>, u: seq<Id>, a: Id, b: Id, k: nat)
    requires a != b && k < |s| && (s[k] == a || s[k] == b) && a !in s[..k] && b !in s[..k]
    requires var y := if s[k] == a then b else a;
      && y in s[k + 1..] && r.first == Some(s[k]) && r.last == Some(y)
      && r.called == t.called + s[k + 1..][..IndexOf(s[k + 1..], y)]
      && r.count == t.count + IndexOf(s[k + 1..], y)
    ensures a in s + u && b in s + u && BetweenResult(t, r, s + u, a, b)
  {
    var y := if s[k] == a then b else a;
    var m := IndexOf(s[k + 1..], y);
    assert IndexOf(s + u, s[k]) == k && IndexOf(s + u, y) == k + 1 + m by {
      OffsetIndex(s, k, y);
      IndexOfAppend(s, u, s[k]);
      IndexOfAppend(s, u, y);
    }
    assert (s + u)[k + 1..k + 1 + m] == s[k + 1..][..m];
    BetweenAt(t, r, s + u, a, b, k, k + 1 + m);
  }

  /** BetweenResult from the two positions. */
  lemma BetweenAt(t: Trav, r: Trav, F: seq<Id>, a: Id, b: Id, lo: nat, hi: nat)
    requires lo < hi < |F| && a in F && b in F
    requires (IndexOf(F, a) == lo && IndexOf(F, b) == hi) || (IndexOf(F, b) == lo && IndexOf(F, a) == hi)
    requires r.first == Some(F[lo]) && r.last == Some(F[hi])
    requires r.called == t.called + F[lo + 1..hi] && r.count == t.count + (hi - lo - 1)
    ensures BetweenResult(t, r, F, a, b)
  {
  }

  /** The first endpoint met at `k` in `s`, the other one in `u`. */
  lemma EndsLater(t: Trav, r: Trav, s: seq<Id>, u: seq<Id>, a: Id, b: Id, k: nat)
    requires a != b && k < |s| && (s[k] == a || s[k] == b) && a !in s[..k] && b !in s[..k]
    requires var y := if s[k] == a then b else a;
      && y !in s && y in u && r.first == Some(s[k]) && r.last == Some(y)
      && r.called == t.called + s[k + 1..] + u[..IndexOf(u, y)]
      && r.count == t.count + (|s| - k - 1) + IndexOf(u, y)
    ensures a in s + u && b in s + u && BetweenResult(t, r, s + u, a, b)
  {
    var y := if s[k] == a then b else a;
    var m := IndexOf(u, y);
    assert IndexOf(s + u, s[k]) == k && IndexOf(s + u, y) == |s| + m by {
      IndexOfAppend(s, u, s[k]);
      IndexOfAppend(s, u, y);
    }
    assert (s + u)[k + 1..|s| + m] == s[k + 1..] + u[..m];
    BetweenAt(t, r, s + u, a, b, k, |s| + m);
  }

  /** An entry not in the first `k + 1` places is found after them. */
  lemma OffsetIndex(s: seq<Id>, k: nat, y: Id)
    requires k < |s| && y in s[k + 1..] && y !in s[..k + 1]
    ensures IndexOf(s, y) == k + 1 + IndexOf(s[k + 1..], y)
  {
    var m := IndexOf(s[k + 1..], y);
    assert s[k + 1 + m] == y;
    assert s == s[..k + 1] + s[k + 1..];
    IndexOfAppend(s[..k + 1], s[k + 1..], y);
  }

  /** The children lists of the entities of `s`, in order. */
  function Groups(ns: Nodes, s: seq<Id>): (r: seq<seq<Id>>)
    ensures |r| == |s| && forall i :: 0 <= i < |s| ==> r[i] == ChildrenOf(ns, s[i])
  {
    if |s| == 0 then [] else [ChildrenOf(ns, s[0])] + Groups(ns, s[1..])
  }

  /** Reading the children lists end to end is the next level down. */
  lemma {:induction false} GroupsFlatten(ns: Nodes, s: seq<Id>)
    ensures Flatten(Groups(ns, s)) == Kids(ns, s)
  {
    if |s| > 0 {
      GroupsFlatten(ns, s[1..]);
      assert Groups(ns, s)[1..] == Groups(ns, s[1..]);
    }
  }

  /** The sentences of a document, each as its list of tokens. */
  function Sentences(d: Doc): (r: seq<seq<Id>>)
    ensures Flatten(r) == Leaves(d)
  {
    GroupsFlatten(d.nodes, LevelSeq(d, 2));
    Groups(d.nodes, LevelSeq(d, 2))
  }

  /** `traverse_leaf_entities_between` on a chapter, corrected, for two
      different tokens: the token earlier in the document is recorded as
      first, the later one as last, and the callback runs exactly on the
      tokens strictly between them, in document order, once each. */
  lemma TraverseBetween(d: Doc, a: Id, b: Id)
    requires WellFormed(d) && a != b
    requires a in d.nodes && d.nodes[a].kind == Tok && b in d.nodes && d.nodes[b].kind == Tok
    ensures a in Leaves(d) && b in Leaves(d)
    ensures BetweenResult(Start(a, b), Traverse(a, b, Sentences(d)), Leaves(d), a, b)
  {
    LevelSeqComplete(d, a);
    LevelSeqComplete(d, b);
    SearchWalk(Start(a, b), a, b, Sentences(d));
  }

  /** The corrected pass does not depend on which endpoint is given first:
      the same tokens are called back and the same endpoint comes first. */
  lemma TraverseSymmetric(a: Id, b: Id, sents: seq<seq<Id>>)
    requires a != b && a in Flatten(sents) && b in Flatten(sents)
    ensures Traverse(a, b, sents).first == Traverse(b, a, sents).first
    ensures Traverse(a, b, sents).last == Traverse(b, a, sents).last
    ensures Traverse(a, b, sents).called == Traverse(b, a, sents).called
  {
    SearchWalk(Start(a, b), a, b, sents);
    SearchWalk(Start(b, a), b, a, sents);
  }
}
