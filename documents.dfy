/**
 * Documents as the association proxies see them: an identity fixed when the
 * object is built, the name of its class, a mutable map of attribute values and
 * the `new?` flag that stays set until the document is first persisted.
 */
module Documents {

  /** Document identities (`_id`). */
  type Id = nat

  /** The attribute values the proxies read and write. */
  datatype Value =
    | Nil
    | Str(s: string)
    | Num(n: int)
    | Ref(id: Id)
    | Arr(items: seq<Value>)

  type Attrs = map<string, Value>

  /** `doc[key]`: an attribute that was never set reads as nil. */
  function Get(a: Attrs, key: string): Value
  {
    if key in a then a[key] else Nil
  }

  /** The elements of an `Array` key; unset or nil reads as the empty array. */
  function Elements(a: Attrs, key: string): seq<Value>
  {
    if Get(a, key).Arr? then Get(a, key).items else []
  }

  predicate NoDups(xs: seq<Value>)
  {
    forall i, j :: 0 <= i < j < |xs| ==> xs[i] != xs[j]
  }

  /** Ruby's `Array#delete`: every element equal to `x` is removed, the rest keep their order. */
  function Delete(xs: seq<Value>, x: Value): seq<Value>
  {
    if xs == [] then []
    else if xs[0] == x then Delete(xs[1..], x)
    else [xs[0]] + Delete(xs[1..], x)
  }

  /** Deleting removes `x` and keeps every other element; an absent `x` leaves the array as it was. */
  lemma {:induction false} DeleteContents(xs: seq<Value>, x: Value)
    ensures forall y :: y in Delete(xs, x) <==> y in xs && y != x
    ensures x !in xs ==> Delete(xs, x) == xs
  {
    if xs != [] {
      DeleteContents(xs[1..], x);
      assert forall y :: y in xs <==> y == xs[0] || y in xs[1..];
      if x !in xs {
        assert xs == [xs[0]] + xs[1..];
      }
    }
  }

  /** Deleting keeps an array free of repeats. */
  lemma {:induction false} DeleteNoDups(xs: seq<Value>, x: Value)
    requires NoDups(xs)
    ensures NoDups(Delete(xs, x))
  {
    if xs != [] {
      forall k | 0 <= k < |xs| - 1 ensures xs[1..][k] != xs[0] {
        assert xs[1..][k] == xs[k + 1];
      }
      DeleteNoDups(xs[1..], x);
      DeleteContents(xs[1..], x);
      var rest := Delete(xs[1..], x);
      if xs[0] != x {
        forall i, j | 0 <= i < j < |rest| + 1 ensures ([xs[0]] + rest)[i] != ([xs[0]] + rest)[j] {
          if i == 0 {
            assert rest[j - 1] in rest;
          }
        }
      }
    }
  }

  /** Appending through the reciprocal in-array association: `x` goes to the end unless present. */
  function Include(xs: seq<Value>, x: Value): seq<Value>
  {
    if x in xs then xs else xs + [x]
  }

  /** Including adds `x` and keeps every element, in place; the array grows only when `x` was absent. */
  lemma IncludeContents(xs: seq<Value>, x: Value)
    ensures forall y :: y in Include(xs, x) <==> y in xs || y == x
    ensures x in xs ==> Include(xs, x) == xs
    ensures x !in xs ==> |Include(xs, x)| == |xs| + 1 && Include(xs, x)[..|xs|] == xs
  {
  }

  /** Including keeps an array free of repeats. */
  lemma IncludeNoDups(xs: seq<Value>, x: Value)
    requires NoDups(xs)
    ensures NoDups(Include(xs, x))
  {
    if x !in xs {
      forall i, j | 0 <= i < j < |xs| + 1 ensures (xs + [x])[i] != (xs + [x])[j] {
        if j == |xs| {
          assert xs[i] in xs;
        }
      }
    }
  }

  /** The attributes after `x` is added to the array under `key`. */
  function Link(a: Attrs, key: string, x: Value): Attrs
  {
    a[key := Arr(Include(Elements(a, key), x))]
  }

  /** Linking puts `x` in the array under `key` and touches no other attribute. */
  lemma LinkEffect(a: Attrs, key: string, x: Value)
    ensures Elements(Link(a, key, x), key) == Include(Elements(a, key), x)
    ensures x in Elements(Link(a, key, x), key)
    ensures forall k :: k != key ==> Get(Link(a, key, x), k) == Get(a, k)
  {
    IncludeContents(Elements(a, key), x);
  }

  /** Linking twice is linking once. */
  lemma LinkIdempotent(a: Attrs, key: string, x: Value)
    ensures Link(Link(a, key, x), key, x) == Link(a, key, x)
  {
    LinkEffect(a, key, x);
  }

  /** The attributes after `x` is deleted from the array under `key`. */
  function Unlink(a: Attrs, key: string, x: Value): Attrs
  {
    a[key := Arr(Delete(Elements(a, key), x))]
  }

  /** Unlinking takes `x` out of the array under `key` and touches no other attribute. */
  lemma UnlinkEffect(a: Attrs, key: string, x: Value)
    ensures Elements(Unlink(a, key, x), key) == Delete(Elements(a, key), x)
    ensures x !in Elements(Unlink(a, key, x), key)
    ensures forall k :: k != key ==> Get(Unlink(a, key, x), k) == Get(a, k)
  {
    DeleteContents(Elements(a, key), x);
  }

  /** Deleting twice is deleting once: the two deletes `replace` makes on each array act as one. */
  lemma UnlinkIdempotent(a: Attrs, key: string, x: Value)
    ensures Unlink(Unlink(a, key, x), key, x) == Unlink(a, key, x)
  {
    var once := Unlink(a, key, x);
    UnlinkEffect(a, key, x);
    DeleteContents(Elements(once, key), x);
  }

  /** A persisted document: what the store holds for one identity. */
  datatype Record = Record(id: Id, kind: string, attrs: Attrs)

  /** An in-memory document object; several variables may alias it. */
  class Doc {
    const id: Id
    const kind: string
    var attrs: Attrs
    var isNew: bool

    /** `klass.new(attrs)` with the identity it is given. */
    constructor New(id: Id, kind: string, attrs: Attrs)
      ensures this.id == id && this.kind == kind && this.attrs == attrs && isNew
    {
      this.id := id;
      this.kind := kind;
      this.attrs := attrs;
      isNew := true;
    }

    /** A document object instantiated from a stored record. */
    constructor Load(r: Record)
      ensures Snapshot() == r && !isNew
    {
      id := r.id;
      kind := r.kind;
      attrs := r.attrs;
      isNew := false;
    }

    /** What saving this document now would write. */
    function Snapshot(): Record
      reads this`attrs
    {
      Record(id, kind, attrs)
    }
  }

  /** The records that saving each document of `ds`, in order, would write. */
  function Snapshots(ds: seq<Doc>): (r: seq<Record>)
    reads ds`attrs
    ensures |r| == |ds|
    ensures forall i :: 0 <= i < |ds| ==> r[i] == ds[i].Snapshot()
  {
    if ds == [] then [] else Snapshots(ds[..|ds| - 1]) + [ds[|ds| - 1].Snapshot()]
  }

  /** The identities of a sequence of documents. */
  function DocIds(ds: seq<Doc>): (r: seq<Id>)
    ensures |r| == |ds|
    ensures forall i :: 0 <= i < |ds| ==> r[i] == ds[i].id
  {
    if ds == [] then [] else DocIds(ds[..|ds| - 1]) + [ds[|ds| - 1].id]
  }

  /**
   * No two documents of `ds` share an identity (Ruby's `include?` compares
   * documents by id): no later document repeats the first one's, and so on.
   */
  predicate DistinctIds(ds: seq<Doc>)
    decreases |ds|
  {
    ds == [] || ((forall e :: e in ds[1..] ==> e.id != ds[0].id) && DistinctIds(ds[1..]))
  }

  /** Distinct identities, position by position. */
  lemma {:induction false} DistinctIdsPairwise(ds: seq<Doc>)
    ensures DistinctIds(ds) <==> forall i, j :: 0 <= i < j < |ds| ==> ds[i].id != ds[j].id
    decreases |ds|
  {
    if ds != [] {
      DistinctIdsPairwise(ds[1..]);
      assert forall k :: 0 <= k < |ds| - 1 ==> ds[1..][k] == ds[k + 1];
      if forall i, j :: 0 <= i < j < |ds| ==> ds[i].id != ds[j].id {
        forall e | e in ds[1..] ensures e.id != ds[0].id {
          var k :| 0 <= k < |ds[1..]| && ds[1..][k] == e;
          assert ds[k + 1] == e;
        }
      }
      if DistinctIds(ds) {
        forall i, j | 0 <= i < j < |ds| ensures ds[i].id != ds[j].id {
          if i == 0 {
            assert ds[j] in ds[1..];
          } else {
            assert ds[1..][i - 1] == ds[i] && ds[1..][j - 1] == ds[j];
          }
        }
      }
    }
  }

  /** `ds.include?(d)`: some document of `ds` has the identity of `d`. */
  predicate Includes(ds: seq<Doc>, d: Doc)
  {
    d.id in DocIds(ds)
  }
}
