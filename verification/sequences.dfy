/** Positions in ordered lists: the successor and predecessor of an element, and
    the three list edits a child list undergoes (append-if-absent,
    insert-before-reference, remove-first-occurrence). */
module Sequences {
  import opened Wrappers

  /** No element occurs twice. */
  predicate NoDup<T(==,!new)>(s: seq<T>) {
    forall i, j :: 0 <= i < j < |s| ==> s[i] != s[j]
  }

  /** Index of the first occurrence of `x` (Python's `list.index`). */
  function IndexOf<T(==,!new)>(s: seq<T>, x: T): (i: nat)
    requires x in s
    ensures i < |s| && s[i] == x
    ensures x !in s[..i]
  {
    if s[0] == x then 0
    else
      assert s == [s[0]] + s[1..];
      var j := IndexOf(s[1..], x);
      assert s[..j + 1] == [s[0]] + s[1..][..j];
      j + 1
  }

  lemma IndexOfUnique<T(!new)>(s: seq<T>, i: nat)
    requires i < |s|
    ensures NoDup(s) ==> IndexOf(s, s[i]) == i
  {
  }

  /** The element right after the first occurrence of `x`, if any. */
  function Succ<T(==,!new)>(s: seq<T>, x: T): Option<T> {
    if x !in s then None
    else
      var i := IndexOf(s, x);
      if i + 1 < |s| then Some(s[i + 1]) else None
  }

  /** The element right before the first occurrence of `x`, if any. */
  function Pred<T(==,!new)>(s: seq<T>, x: T): Option<T> {
    if x !in s then None
    else
      var i := IndexOf(s, x);
      if i > 0 then Some(s[i - 1]) else None
  }

  /** In a list without duplicates, successor and predecessor undo each other. */
  lemma SuccPredRoundTrip<T(!new)>(s: seq<T>, x: T)
    requires NoDup(s)
    ensures Succ(s, x).Some? ==> Pred(s, Succ(s, x).value) == Some(x)
    ensures Pred(s, x).Some? ==> Succ(s, Pred(s, x).value) == Some(x)
  {
    if x in s {
      var i := IndexOf(s, x);
      if i + 1 < |s| {
        IndexOfUnique(s, i + 1);
      }
      if i > 0 {
        IndexOfUnique(s, i - 1);
      }
    }
  }

  /** The successor of an element of the middle part of a duplicate-free
      concatenation: inside the part, or the first element after it. */
  lemma SuccConcat<T(!new)>(a: seq<T>, c: seq<T>, b: seq<T>, x: T)
    requires NoDup(a + c + b) && x in c
    ensures Succ(a + c + b, x) ==
      if Succ(c, x).Some? then Succ(c, x) else if |b| > 0 then Some(b[0]) else None
  {
    var s := a + c + b;
    var j := IndexOf(c, x);
    assert s[|a| + j] == x;
    IndexOfUnique(s, |a| + j);
    if j + 1 < |c| {
      assert s[|a| + j + 1] == c[j + 1];
    } else if |b| > 0 {
      assert s[|a| + j + 1] == b[0];
    }
  }

  /** The predecessor of an element of the middle part of a duplicate-free
      concatenation: inside the part, or the last element before it. */
  lemma PredConcat<T(!new)>(a: seq<T>, c: seq<T>, b: seq<T>, x: T)
    requires NoDup(a + c + b) && x in c
    ensures Pred(a + c + b, x) ==
      if Pred(c, x).Some? then Pred(c, x) else if |a| > 0 then Some(a[|a| - 1]) else None
  {
    var s := a + c + b;
    var j := IndexOf(c, x);
    assert s[|a| + j] == x;
    IndexOfUnique(s, |a| + j);
    if j > 0 {
      assert s[|a| + j - 1] == c[j - 1];
    } else if |a| > 0 {
      assert s[|a| - 1] == a[|a| - 1];
    }
  }

  /** Append `e` unless it is already present. */
  function AppendNew<T(==,!new)>(s: seq<T>, e: T): (r: seq<T>)
    ensures e in s ==> r == s
    ensures e !in s ==> |r| == |s| + 1 && r[..|s|] == s && r[|s|] == e
    ensures NoDup(s) ==> NoDup(r)
  {
    if e in s then s else s + [e]
  }

  /** Insert `e` at the index of `ref`, shifting `ref` and its followers right;
      nothing changes when `e` is already present. */
  function InsertBefore<T(==,!new)>(s: seq<T>, ref: T, e: T): (r: seq<T>)
    requires ref in s
    ensures e in s ==> r == s
    ensures e !in s ==>
      var i := IndexOf(s, ref);
      |r| == |s| + 1 && r[..i] == s[..i] && r[i] == e && r[i + 1..] == s[i..]
    ensures NoDup(s) ==> NoDup(r)
  {
    if e in s then s
    else
      var i := IndexOf(s, ref);
      InsertAtNoDup(s, i, e);
      s[..i] + [e] + s[i..]
  }

  lemma InsertAtNoDup<T(!new)>(s: seq<T>, i: nat, e: T)
    requires i <= |s| && e !in s
    ensures NoDup(s) ==> NoDup(s[..i] + [e] + s[i..])
  {
    var r := s[..i] + [e] + s[i..];
    if NoDup(s) {
      forall a, b | 0 <= a < b < |r| ensures r[a] != r[b] {
        if b < i {
          assert r[a] == s[a] && r[b] == s[b];
        } else if b == i {
          assert r[a] == s[a] && r[b] == e;
        } else if a < i {
          assert r[a] == s[a] && r[b] == s[b - 1];
        } else if a == i {
          assert r[a] == e && r[b] == s[b - 1];
        } else {
          assert r[a] == s[a - 1] && r[b] == s[b - 1];
        }
      }
    }
  }

  /** Remove the first occurrence of `e` (Python's `list.remove`). */
  function RemoveFirst<T(==,!new)>(s: seq<T>, e: T): (r: seq<T>)
    ensures |r| == if e in s then |s| - 1 else |s|
    ensures forall x :: x in r ==> x in s
    ensures forall x :: x in s && x != e ==> x in r
    ensures NoDup(s) ==> NoDup(r) && e !in r
  {
    if e in s then
      var i := IndexOf(s, e);
      assert s == s[..i] + [e] + s[i + 1..];
      var r := s[..i] + s[i + 1..];
      assert forall k :: 0 <= k < |r| ==> r[k] == (if k < i then s[k] else s[k + 1]);
      r
    else s
  }

  /** The elements of `s` that are not in `drop`, in order. */
  function FilterOut<T(==,!new)>(s: seq<T>, drop: set<T>): (r: seq<T>)
    ensures forall x :: x in r ==> x in s && x !in drop
    ensures |r| <= |s|
  {
    if |s| == 0 then []
    else if s[0] in drop then FilterOut(s[1..], drop)
    else [s[0]] + FilterOut(s[1..], drop)
  }

  lemma FilterOutAppend<T(!new)>(s: seq<T>, t: seq<T>, drop: set<T>)
    ensures FilterOut(s + t, drop) == FilterOut(s, drop) + FilterOut(t, drop)
  {
    if |s| > 0 {
      assert (s + t)[1..] == s[1..] + t;
      FilterOutAppend(s[1..], t, drop);
    } else {
      assert s + t == t;
    }
  }

  /** What is not dropped survives the filter. */
  lemma FilterOutKeeps<T(!new)>(s: seq<T>, x: T, drop: set<T>)
    requires x in s && x !in drop
    ensures x in FilterOut(s, drop)
  {
    if s[0] != x {
      FilterOutKeeps(s[1..], x, drop);
    }
  }

  lemma FilterOutNone<T(!new)>(s: seq<T>, drop: set<T>)
    requires forall x :: x in s ==> x !in drop
    ensures FilterOut(s, drop) == s
  {
  }

  lemma FilterOutAll<T(!new)>(s: seq<T>, drop: set<T>)
    requires forall x :: x in s ==> x in drop
    ensures FilterOut(s, drop) == []
  {
  }

  /** Removing the single element `e` of `drop` that occurs in a duplicate-free
      list is the same as filtering `drop` out. */
  lemma RemoveFirstIsFilterOut<T(!new)>(s: seq<T>, e: T, drop: set<T>)
    requires NoDup(s) && e in drop
    requires forall x :: x in s && x in drop ==> x == e
    ensures RemoveFirst(s, e) == FilterOut(s, drop)
  {
    if e in s {
      var i := IndexOf(s, e);
      assert s == s[..i] + [e] + s[i + 1..];
      forall x | x in s[i + 1..] ensures x !in drop {
        var k :| i + 1 <= k < |s| && s[k] == x;
      }
      FilterOutAround(s[..i], e, s[i + 1..], drop);
    } else {
      FilterOutNone(s, drop);
    }
  }

  /** Filtering out the element at `i` of a duplicate-free list removes
      exactly that position. */
  lemma FilterOutAt<T(!new)>(s: seq<T>, i: nat)
    requires NoDup(s) && i < |s|
    ensures FilterOut(s, {s[i]}) == s[..i] + s[i + 1..]
    ensures s[i] !in s[..i] + s[i + 1..]
  {
    var a, e, b := s[..i], s[i], s[i + 1..];
    assert s == a + [e] + b;
    NoDupAround(a, e, b);
    FilterOutAround(a, e, b, {e});
  }

  /** In a duplicate-free list `a + [e] + b` the element `e` occurs
      neither in `a` nor in `b`. */
  lemma NoDupAround<T(!new)>(a: seq<T>, e: T, b: seq<T>)
    requires NoDup(a + [e] + b)
    ensures forall x :: x in a ==> x !in {e}
    ensures forall x :: x in b ==> x !in {e}
  {
    var s := a + [e] + b;
    forall x | x in a ensures x != e {
      var k :| 0 <= k < |a| && a[k] == x;
      assert s[k] == x && s[|a|] == e;
    }
    forall x | x in b ensures x != e {
      var k :| 0 <= k < |b| && b[k] == x;
      assert s[|a| + 1 + k] == x && s[|a|] == e;
    }
  }

  lemma FilterOutAround<T(!new)>(a: seq<T>, e: T, b: seq<T>, drop: set<T>)
    requires e in drop
    requires forall x :: x in a ==> x !in drop
    requires forall x :: x in b ==> x !in drop
    ensures FilterOut(a + [e] + b, drop) == a + b
  {
    assert a + [e] + b == a + ([e] + b);
    FilterOutAppend(a, [e] + b, drop);
    FilterOutAppend([e], b, drop);
    FilterOutNone(a, drop);
    FilterOutNone(b, drop);
  }

  lemma FilterOutNoDup<T(!new)>(s: seq<T>, drop: set<T>)
    requires NoDup(s)
    ensures NoDup(FilterOut(s, drop))
  {
    if |s| > 0 {
      FilterOutNoDup(s[1..], drop);
    }
  }

  /** Filtering twice is filtering the union once. */
  lemma {:induction false} FilterOutTwice<T(!new)>(s: seq<T>, a: set<T>, b: set<T>)
    ensures FilterOut(FilterOut(s, a), b) == FilterOut(s, a + b)
  {
    if |s| > 0 {
      FilterOutTwice(s[1..], a, b);
      if s[0] !in a {
        assert FilterOut(s, a) == [s[0]] + FilterOut(s[1..], a);
        assert FilterOut(s, a)[1..] == FilterOut(s[1..], a);
      }
    }
  }

  /** Where `InsertBefore` puts the new element, by the list's shape. */
  lemma InsertBeforeAt<T(!new)>(s: seq<T>, ref: T, e: T, a: seq<T>, b: seq<T>)
    requires s == a + [ref] + b && ref !in a && e !in s
    ensures InsertBefore(s, ref, e) == a + [e] + [ref] + b
  {
    var i := IndexOf(s, ref);
    assert forall k :: 0 <= k < |a| ==> s[k] == a[k];
    assert s[|a|] == ref;
    assert forall k :: 0 <= k < i ==> s[k] != ref;
    var r := InsertBefore(s, ref, e);
    assert r == r[..i] + [r[i]] + r[i + 1..];
  }

  /** Filtering commutes with an insertion before a kept reference. */
  lemma FilterOutInsertBefore<T(!new)>(s: seq<T>, ref: T, e: T, drop: set<T>)
    requires ref in s && ref !in drop && e !in drop && e !in s
    ensures ref in FilterOut(s, drop)
    ensures FilterOut(InsertBefore(s, ref, e), drop) == InsertBefore(FilterOut(s, drop), ref, e)
  {
    var i := IndexOf(s, ref);
    var a, b := s[..i], s[i + 1..];
    assert s == a + [ref] + b;
    InsertBeforeAt(s, ref, e, a, b);
    var fa, fb := FilterOut(a, drop), FilterOut(b, drop);
    FilterOutAppend(a + [ref], b, drop);
    FilterOutAppend(a, [ref], drop);
    assert FilterOut([ref], drop) == [ref];
    var f := FilterOut(s, drop);
    assert f == fa + [ref] + fb;
    FilterOutAppend(a + [e] + [ref], b, drop);
    FilterOutAppend(a + [e], [ref], drop);
    FilterOutAppend(a, [e], drop);
    assert FilterOut([e], drop) == [e];
    assert e !in f;
    InsertBeforeAt(f, ref, e, fa, fb);
  }

  /** The list edits of the join branch of a backspace, in index terms:
      remove entry `j`, insert `e` before entry `j - 1`, then remove entry
      `j` twice, leaves `e` where entries `j - 1 .. j + 1` were. */
  lemma Splice<T>(s: seq<T>, j: nat, e: T)
    requires 0 < j && j + 1 < |s|
    ensures var s1 := s[..j] + s[j + 1..];
      var s2 := s1[..j - 1] + [e] + s1[j - 1..];
      var s3 := s2[..j] + s2[j + 1..];
      s3[..j] + s3[j + 1..] == s[..j - 1] + [e] + s[j + 2..]
  {
    var s1 := s[..j] + s[j + 1..];
    var s2 := s1[..j - 1] + [e] + s1[j - 1..];
    var s3 := s2[..j] + s2[j + 1..];
    var s4 := s3[..j] + s3[j + 1..];
    var want := s[..j - 1] + [e] + s[j + 2..];
    assert |s4| == |want|;
    forall k | 0 <= k < |s4| ensures s4[k] == want[k] {
      if k < j - 1 {
        assert s4[k] == s3[k] == s2[k] == s1[k] == s[k];
      } else if k == j - 1 {
        assert s4[k] == s3[k] == s2[k] == e;
      } else {
        assert s4[k] == s3[k + 1] == s2[k + 2] == s1[k + 1] == s[k + 2];
      }
    }
  }
}
