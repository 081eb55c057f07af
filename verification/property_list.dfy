/** The ordered child storage of every entity: a two-level multimap from a
    predicate to type buckets (in the order the buckets were created, as a
    Python dictionary keeps them) and from a type key to an ordered list of
    entities. Predicate keys are taken as already normalised (the source lower-
    cases them); type keys stand for the entity's class name. */
module PropertyLists {
  import opened Wrappers
  import opened Sequences

  datatype Bucket<K, E> = Bucket(key: K, items: seq<E>)

  datatype PropertyList<P, K, E> = PropertyList(table: map<P, seq<Bucket<K, E>>>)

  function Empty<P, K, E>(): PropertyList<P, K, E> {
    PropertyList(map[])
  }

  /** Position of the bucket with type key `k`, if there is one. */
  function FindBucket<K(==), E>(bs: seq<Bucket<K, E>>, k: K): (r: Option<nat>)
    ensures r.Some? ==> r.value < |bs| && bs[r.value].key == k
    ensures r.None? ==> forall i :: 0 <= i < |bs| ==> bs[i].key != k
  {
    if |bs| == 0 then None
    else if bs[|bs| - 1].key == k then Some(|bs| - 1)
    else FindBucket(bs[..|bs| - 1], k)
  }

  /** Every predicate's buckets have distinct type keys and no list repeats an entity. */
  ghost predicate Valid<P, K, E(!new)>(pl: PropertyList<P, K, E>) {
    forall p :: p in pl.table ==> BucketsValid(pl.table[p])
  }

  ghost predicate BucketsValid<K, E(!new)>(bs: seq<Bucket<K, E>>) {
    && (forall i, j :: 0 <= i < j < |bs| ==> bs[i].key != bs[j].key)
    && (forall i :: 0 <= i < |bs| ==> NoDup(bs[i].items))
  }

  /** The list for (`p`, `k`), when both keys are present. */
  function Lookup<P(==), K(==), E>(pl: PropertyList<P, K, E>, p: P, k: K): Option<seq<E>> {
    if p !in pl.table then None
    else match FindBucket(pl.table[p], k)
      case None => None
      case Some(i) => Some(pl.table[p][i].items)
  }

  /** The same table with the list of bucket `i` of predicate `p` replaced. */
  function SetItems<P(==), K, E>(pl: PropertyList<P, K, E>, p: P, i: nat, items: seq<E>): PropertyList<P, K, E>
    requires p in pl.table && i < |pl.table[p]|
  {
    var bs := pl.table[p];
    PropertyList(pl.table[p := bs[i := Bucket(bs[i].key, items)]])
  }

  /** `append`: a new predicate gets a one-element bucket; an existing
      predicate without this type key raises; an entity already in its bucket
      is not added again; otherwise the entity goes to the end of its bucket. */
  function Append<P(==), K(==), E(==,!new)>(pl: PropertyList<P, K, E>, p: P, k: K, e: E): (r: Result<PropertyList<P, K, E>>)
    ensures p !in pl.table ==> r == Ok(PropertyList(pl.table[p := [Bucket(k, [e])]]))
    ensures p in pl.table && Lookup(pl, p, k).None? ==> r == Err(MissingKey)
    ensures Lookup(pl, p, k).Some? ==>
      && r.Ok?
      && Lookup(r.value, p, k) == Some(AppendNew(Lookup(pl, p, k).value, e))
      && r.value.table.Keys == pl.table.Keys
      && (forall q :: q in pl.table && q != p ==> r.value.table[q] == pl.table[q])
    ensures Valid(pl) && r.Ok? ==> Valid(r.value)
  {
    if p !in pl.table then
      Ok(PropertyList(pl.table[p := [Bucket(k, [e])]]))
    else
      match FindBucket(pl.table[p], k)
      case None => Err(MissingKey)
      case Some(i) =>
        var items := pl.table[p][i].items;
        if e in items then Ok(pl)
        else
          var r := SetItems(pl, p, i, items + [e]);
          assert FindBucket(r.table[p], k) == Some(i) by { FindBucketAfterSet(pl.table[p], i, k, items + [e]); }
          Ok(r)
  }

  /** Replacing a bucket's list leaves bucket positions unchanged. */
  lemma FindBucketAfterSet<K, E>(bs: seq<Bucket<K, E>>, i: nat, k: K, items: seq<E>)
    requires i < |bs|
    ensures FindBucket(bs[i := Bucket(bs[i].key, items)], k) == FindBucket(bs, k)
  {
    if |bs| > 0 && bs[|bs| - 1].key != k {
      var bs' := bs[i := Bucket(bs[i].key, items)];
      if i < |bs| - 1 {
        assert bs'[..|bs'| - 1] == bs[..|bs| - 1][i := Bucket(bs[i].key, items)];
        FindBucketAfterSet(bs[..|bs| - 1], i, k, items);
      } else {
        assert bs'[..|bs'| - 1] == bs[..|bs| - 1];
      }
    }
  }

  /** `insert_before`: raises when the predicate, the type key or the
      reference is missing; is a no-op when the entity is present; otherwise
      puts the entity at the reference's index. */
  function InsertBefore<P(==), K(==), E(==,!new)>(pl: PropertyList<P, K, E>, ref: E, p: P, k: K, e: E): (r: Result<PropertyList<P, K, E>>)
    ensures p !in pl.table ==> r == Err(ReferenceNotFound)
    ensures p in pl.table && Lookup(pl, p, k).None? ==> r == Err(MissingKey)
    ensures Lookup(pl, p, k).Some? && ref !in Lookup(pl, p, k).value ==> r == Err(ReferenceNotFound)
    ensures Lookup(pl, p, k).Some? && ref in Lookup(pl, p, k).value ==>
      var xs := Lookup(pl, p, k).value;
      && r.Ok?
      && (e in xs ==> r.value == pl)
      && Lookup(r.value, p, k) == Some(Sequences.InsertBefore(xs, ref, e))
    ensures Valid(pl) && r.Ok? ==> Valid(r.value)
  {
    if p !in pl.table then Err(ReferenceNotFound)
    else
      match FindBucket(pl.table[p], k)
      case None => Err(MissingKey)
      case Some(i) =>
        var items := pl.table[p][i].items;
        if ref !in items then Err(ReferenceNotFound)
        else if e in items then Ok(pl)
        else
          var r := SetItems(pl, p, i, Sequences.InsertBefore(items, ref, e));
          assert FindBucket(r.table[p], k) == Some(i) by {
            FindBucketAfterSet(pl.table[p], i, k, Sequences.InsertBefore(items, ref, e));
          }
          Ok(r)
  }

  /** `remove`: false and no change for an unknown predicate or an absent
      entity; raises for a missing type key; otherwise removes the entity and
      returns true. */
  function Remove<P(==), K(==), E(==,!new)>(pl: PropertyList<P, K, E>, p: P, k: K, e: E): (r: Result<(bool, PropertyList<P, K, E>)>)
    ensures p !in pl.table ==> r == Ok((false, pl))
    ensures p in pl.table && Lookup(pl, p, k).None? ==> r == Err(MissingKey)
    ensures Lookup(pl, p, k).Some? ==>
      var xs := Lookup(pl, p, k).value;
      && r.Ok?
      && (r.value.0 <==> e in xs)
      && (e !in xs ==> r.value.1 == pl)
      && Lookup(r.value.1, p, k) == Some(RemoveFirst(xs, e))
      && r.value.1.table.Keys == pl.table.Keys
      && |r.value.1.table[p]| == |pl.table[p]|
    ensures Valid(pl) && r.Ok? ==> Valid(r.value.1)
    ensures Valid(pl) && r.Ok? && Lookup(r.value.1, p, k).Some? ==> e !in Lookup(r.value.1, p, k).value
  {
    if p !in pl.table then Ok((false, pl))
    else
      match FindBucket(pl.table[p], k)
      case None => Err(MissingKey)
      case Some(i) =>
        var items := pl.table[p][i].items;
        if e in items then
          var r := SetItems(pl, p, i, RemoveFirst(items, e));
          assert FindBucket(r.table[p], k) == Some(i) by {
            FindBucketAfterSet(pl.table[p], i, k, RemoveFirst(items, e));
          }
          Ok((true, r))
        else Ok((false, pl))
  }

  /** Concatenation of the lists of a run of buckets, in bucket order. */
  function Flatten<K, E>(bs: seq<Bucket<K, E>>): seq<E> {
    if |bs| == 0 then [] else Flatten(bs[..|bs| - 1]) + bs[|bs| - 1].items
  }

  /** Where bucket `i` starts in the concatenation: the total length of the
      buckets before it. */
  function Offset<K, E>(bs: seq<Bucket<K, E>>, i: nat): nat
    requires i <= |bs|
  {
    if i == 0 then 0 else Offset(bs, i - 1) + |bs[i - 1].items|
  }

  /** `all_entities_of`: every entity under a predicate, bucket by bucket.
      The result is as long as all the buckets together, and each bucket's
      list sits in it, whole and in order, at that bucket's offset;
      duplicates across buckets are kept. */
  function AllEntitiesOf<P(==), K, E>(pl: PropertyList<P, K, E>, p: P): (r: seq<E>)
    ensures p !in pl.table ==> r == []
    ensures p in pl.table ==> |r| == Offset(pl.table[p], |pl.table[p]|)
    ensures p in pl.table ==> forall i :: 0 <= i < |pl.table[p]| ==>
      var o := Offset(pl.table[p], i);
      o + |pl.table[p][i].items| <= |r| && r[o..o + |pl.table[p][i].items|] == pl.table[p][i].items
    ensures p in pl.table ==> forall i, x :: 0 <= i < |pl.table[p]| && x in pl.table[p][i].items ==> x in r
    ensures forall x :: x in r ==> p in pl.table && exists i :: 0 <= i < |pl.table[p]| && x in pl.table[p][i].items
  {
    if p !in pl.table then [] else
      FlattenMembers(pl.table[p]);
      FlattenSlices(pl.table[p]);
      Flatten(pl.table[p])
  }

  /** The offsets of the first buckets do not depend on the buckets after them. */
  lemma {:induction false} OffsetPrefix<K, E>(bs: seq<Bucket<K, E>>, m: nat, i: nat)
    requires i <= m <= |bs|
    ensures Offset(bs[..m], i) == Offset(bs, i)
  {
    if i > 0 {
      OffsetPrefix(bs, m, i - 1);
      assert bs[..m][i - 1] == bs[i - 1];
    }
  }

  /** The concatenation is as long as all the buckets together. */
  lemma {:induction false} FlattenLength<K, E>(bs: seq<Bucket<K, E>>)
    ensures |Flatten(bs)| == Offset(bs, |bs|)
  {
    if |bs| > 0 {
      var n := |bs| - 1;
      FlattenLength(bs[..n]);
      OffsetPrefix(bs, n, n);
    }
  }

  /** Bucket `i`'s list is the slice of the concatenation at `Offset(bs, i)`. */
  lemma {:induction false} FlattenSlice<K, E>(bs: seq<Bucket<K, E>>, i: nat)
    requires i < |bs|
    ensures Offset(bs, i) + |bs[i].items| <= |Flatten(bs)|
    ensures Flatten(bs)[Offset(bs, i)..Offset(bs, i) + |bs[i].items|] == bs[i].items
  {
    var n := |bs| - 1;
    var front := bs[..n];
    var f := Flatten(front);
    assert Flatten(bs) == f + bs[n].items;
    OffsetPrefix(bs, n, i);
    if i < n {
      FlattenSlice(front, i);
      assert front[i] == bs[i];
    } else {
      FlattenLength(front);
      OffsetPrefix(bs, n, n);
    }
  }

  /** Both facts for every bucket. */
  lemma FlattenSlices<K, E>(bs: seq<Bucket<K, E>>)
    ensures |Flatten(bs)| == Offset(bs, |bs|)
    ensures forall i :: 0 <= i < |bs| ==>
      Offset(bs, i) + |bs[i].items| <= |Flatten(bs)|
      && Flatten(bs)[Offset(bs, i)..Offset(bs, i) + |bs[i].items|] == bs[i].items
  {
    FlattenLength(bs);
    forall i | 0 <= i < |bs|
      ensures Offset(bs, i) + |bs[i].items| <= |Flatten(bs)|
      ensures Flatten(bs)[Offset(bs, i)..Offset(bs, i) + |bs[i].items|] == bs[i].items
    {
      FlattenSlice(bs, i);
    }
  }

  lemma FlattenMembers<K, E>(bs: seq<Bucket<K, E>>)
    ensures forall i, x :: 0 <= i < |bs| && x in bs[i].items ==> x in Flatten(bs)
    ensures forall x :: x in Flatten(bs) ==> exists i :: 0 <= i < |bs| && x in bs[i].items
  {
    if |bs| > 0 {
      FlattenMembers(bs[..|bs| - 1]);
    }
  }

  /** `has_entities_of`: the predicate has at least one type bucket (even an empty one). */
  function HasEntitiesOf<P(==), K, E>(pl: PropertyList<P, K, E>, p: P): (r: bool) {
    p in pl.table && |pl.table[p]| > 0
  }

  /** `entities_of`: the bucket in insertion order, `[]` for an unknown
      predicate, and a raise for a known predicate without this type key. */
  function EntitiesOf<P(==), K(==), E>(pl: PropertyList<P, K, E>, p: P, k: K): (r: Result<seq<E>>)
    ensures p !in pl.table ==> r == Ok([])
    ensures p in pl.table ==> (r.Ok? <==> Lookup(pl, p, k).Some?)
    ensures r.Ok? && p in pl.table ==> r.value == Lookup(pl, p, k).value
  {
    if p !in pl.table then Ok([])
    else match FindBucket(pl.table[p], k)
      case None => Err(MissingKey)
      case Some(i) => Ok(pl.table[p][i].items)
  }

  /** Once a predicate has a bucket, removals never make `has_entities_of` false. */
  lemma RemoveKeepsHasEntities<P, K, E(!new)>(pl: PropertyList<P, K, E>, p: P, k: K, e: E)
    requires HasEntitiesOf(pl, p)
    requires Remove(pl, p, k, e).Ok?
    ensures HasEntitiesOf(Remove(pl, p, k, e).value.1, p)
  {
  }

  /** Removing the only entity empties the bucket but leaves it in place. */
  lemma RemoveLastStillHasEntities<P, K, E(!new)>(p: P, k: K, e: E)
    ensures var pl := Append(Empty<P, K, E>(), p, k, e).value;
      && HasEntitiesOf(pl, p)
      && EntitiesOf(pl, p, k) == Ok([e])
      && Remove(pl, p, k, e).Ok?
      && Remove(pl, p, k, e).value.0
      && EntitiesOf(Remove(pl, p, k, e).value.1, p, k) == Ok([])
      && HasEntitiesOf(Remove(pl, p, k, e).value.1, p)
  {
    var pl := Append(Empty<P, K, E>(), p, k, e).value;
    assert FindBucket(pl.table[p], k) == Some(0);
  }
}
