/**
 * The owner side of a many-to-many relation kept in the peers' array field
 * (`many :users, :source => :lists` on List, with `many :lists, :in => :list_ids`
 * on User). The owner stores nothing; each peer lists the owners' identities in
 * its `in_key` array. The proxy caches the peers it loaded (`target`) and the
 * peers `replace` touched, which the owner's after-save hook writes back.
 */
module SourceArray {
  import opened Wrappers
  import opened Documents
  import opened DocumentStore

  /** The association as declared on the owner's class. */
  datatype Reflection = Reflection(
    name: string,             // the association name, e.g. "users"
    peerKind: string,         // the class of the peers (`klass`)
    source: string,           // the reciprocal association on the peer class
    finderOptions: Conditions // default finder conditions of the association
  )

  /** `scoped_conditions`: the relation filter, "the peer's array holds the owner's id". */
  function ScopedConditions(inKey: string, ownerId: Id): (c: Conditions)
    ensures c.Keys == {inKey} && c[inKey] == Ref(ownerId)
  {
    map[inKey := Ref(ownerId)]
  }

  /** A record is in the relation exactly when its array under `inKey` holds the owner's id (or the key is that id). */
  lemma ScopedConditionsMatch(x: Record, inKey: string, ownerId: Id)
    ensures Matches(x, ScopedConditions(inKey, ownerId)) <==> KeyMatches(Get(x.attrs, inKey), Ref(ownerId))
  {
    var c := ScopedConditions(inKey, ownerId);
    if KeyMatches(Get(x.attrs, inKey), Ref(ownerId)) {
      forall k | k in c ensures KeyMatches(Get(x.attrs, k), c[k]) {
        assert k == inKey;
      }
    }
  }

  /**
   * `scoped_options`: the association's finder options, overridden by the
   * caller's, with the relation filter merged last, so that it always wins.
   */
  function ScopedOptions(finderOptions: Conditions, options: Conditions, inKey: string, ownerId: Id): (r: Conditions)
    ensures r.Keys == finderOptions.Keys + options.Keys + {inKey}
    ensures r[inKey] == Ref(ownerId)
    ensures forall k :: k in options && k != inKey ==> r[k] == options[k]
    ensures forall k :: k in finderOptions && k !in options && k != inKey ==> r[k] == finderOptions[k]
  {
    finderOptions + options + ScopedConditions(inKey, ownerId)
  }

  /**
   * A scoped query selects exactly the stored peers whose array holds the owner's
   * id and that meet every other condition, the caller's taking precedence over
   * the association's defaults; no caller option can lift the relation filter.
   */
  lemma ScopedQueryIsRelation(rs: seq<Record>, finderOptions: Conditions, options: Conditions, inKey: string, ownerId: Id)
    ensures forall x :: x in Where(rs, ScopedOptions(finderOptions, options, inKey, ownerId)) <==>
      && x in rs
      && KeyMatches(Get(x.attrs, inKey), Ref(ownerId))
      && Matches(x, (finderOptions + options) - {inKey})
  {
    var c := ScopedOptions(finderOptions, options, inKey, ownerId);
    var rest := (finderOptions + options) - {inKey};
    forall x | x in rs
      ensures Matches(x, c) <==> KeyMatches(Get(x.attrs, inKey), Ref(ownerId)) && Matches(x, rest)
    {
      if Matches(x, c) {
        assert KeyMatches(Get(x.attrs, inKey), c[inKey]);
        forall k | k in rest ensures KeyMatches(Get(x.attrs, k), rest[k]) {
          assert KeyMatches(Get(x.attrs, k), c[k]);
        }
      }
      if KeyMatches(Get(x.attrs, inKey), Ref(ownerId)) && Matches(x, rest) {
        forall k | k in c ensures KeyMatches(Get(x.attrs, k), c[k]) {
          if k != inKey {
            assert KeyMatches(Get(x.attrs, k), rest[k]);
          }
        }
      }
    }
  }

  /** The leading argument of `find`/`find!`: a symbol, one id, or several ids. */
  datatype FindArgs = FirstDoc | LastDoc | AllDocs | ById(id: Id) | ByIds(ids: seq<Id>)

  /** What `find` returns: one document or nil, or a list of documents. */
  datatype Found = Single(doc: Option<Record>) | Several(docs: seq<Record>)

  /**
   * The documents `<<` adds to a target whose identities are `present`: each one
   * not included yet, in order, a document counting as included once it is added.
   */
  function Appended(present: seq<Id>, docs: seq<Doc>): (r: seq<Doc>)
    ensures |r| <= |docs|
    decreases |docs|
  {
    if docs == [] then []
    else if docs[0].id in present then Appended(present, docs[1..])
    else [docs[0]] + Appended(present + [docs[0].id], docs[1..])
  }

  /** What `<<` adds comes from its argument and was not in the target. */
  lemma {:induction false} AppendedFrom(present: seq<Id>, docs: seq<Doc>)
    ensures forall d :: d in Appended(present, docs) ==> d in docs && d.id !in present
    decreases |docs|
  {
    if docs != [] {
      var d := docs[0];
      assert forall e :: e in docs[1..] ==> e in docs;
      if d.id in present {
        AppendedFrom(present, docs[1..]);
      } else {
        AppendedFrom(present + [d.id], docs[1..]);
      }
    }
  }

  /** What `<<` adds holds no identity twice. */
  lemma {:induction false} AppendedDistinct(present: seq<Id>, docs: seq<Doc>)
    ensures DistinctIds(Appended(present, docs))
    decreases |docs|
  {
    if docs != [] {
      var d := docs[0];
      if d.id in present {
        AppendedDistinct(present, docs[1..]);
      } else {
        AppendedDistinct(present + [d.id], docs[1..]);
        AppendedFrom(present + [d.id], docs[1..]);
        DistinctPrepend(d, Appended(present + [d.id], docs[1..]));
      }
    }
  }

  /** After `<<` every document of the argument is included, by identity. */
  lemma {:induction false} AppendedCovers(present: seq<Id>, docs: seq<Doc>)
    ensures forall d :: d in docs ==> d.id in present || d.id in DocIds(Appended(present, docs))
    decreases |docs|
  {
    if docs != [] {
      var d := docs[0];
      assert forall e :: e in docs ==> e == d || e in docs[1..];
      if d.id in present {
        AppendedCovers(present, docs[1..]);
      } else {
        var rest := Appended(present + [d.id], docs[1..]);
        AppendedCovers(present + [d.id], docs[1..]);
        DocIdsConcat([d], rest);
      }
    }
  }

  lemma AppendedFacts(present: seq<Id>, docs: seq<Doc>)
    ensures DistinctIds(Appended(present, docs))
    ensures forall d :: d in Appended(present, docs) ==> d in docs && d.id !in present
    ensures forall d :: d in docs ==> d.id in present || d.id in DocIds(Appended(present, docs))
  {
    AppendedFrom(present, docs);
    AppendedDistinct(present, docs);
    AppendedCovers(present, docs);
  }

  /** What `<<` adds to a target without repeats leaves it without repeats, and none of it was in the target. */
  lemma AppendedToTarget(t: seq<Doc>, docs: seq<Doc>)
    requires DistinctIds(t)
    ensures DistinctIds(Appended(DocIds(t), docs)) && DistinctIds(t + Appended(DocIds(t), docs))
    ensures forall d :: d in Appended(DocIds(t), docs) ==> d in docs && d !in t
  {
    var added := Appended(DocIds(t), docs);
    AppendedFacts(DocIds(t), docs);
    DistinctConcat(t, added);
    forall d | d in t ensures d !in added {
      assert d.id in DocIds(t);
    }
  }

  /** An argument whose documents are all included already adds nothing. */
  lemma {:induction false} AppendedNothingNew(present: seq<Id>, docs: seq<Doc>)
    requires forall d :: d in docs ==> d.id in present
    ensures Appended(present, docs) == []
    decreases |docs|
  {
    if docs != [] {
      assert forall d :: d in docs[1..] ==> d in docs;
      AppendedNothingNew(present, docs[1..]);
    }
  }

  /** Pushing the same documents again adds nothing: `<<` is idempotent. */
  lemma AppendIdempotent(present: seq<Id>, docs: seq<Doc>)
    ensures Appended(present + DocIds(Appended(present, docs)), docs) == []
  {
    AppendedFacts(present, docs);
    AppendedNothingNew(present + DocIds(Appended(present, docs)), docs);
  }

  lemma DocIdsConcat(a: seq<Doc>, b: seq<Doc>)
    ensures DocIds(a + b) == DocIds(a) + DocIds(b)
  {
  }

  lemma DistinctPrepend(d: Doc, ds: seq<Doc>)
    requires DistinctIds(ds) && forall e :: e in ds ==> e.id != d.id
    ensures DistinctIds([d] + ds)
  {
    assert ([d] + ds)[1..] == ds;
  }

  /** Two distinct-id sequences with no identity in common concatenate to a distinct-id sequence. */
  lemma DistinctConcat(a: seq<Doc>, b: seq<Doc>)
    requires DistinctIds(a) && DistinctIds(b)
    requires forall d :: d in b ==> d.id !in DocIds(a)
    ensures DistinctIds(a + b)
  {
    DistinctIdsPairwise(a);
    DistinctIdsPairwise(b);
    DistinctIdsPairwise(a + b);
    forall i, j | 0 <= i < j < |a + b| ensures (a + b)[i].id != (a + b)[j].id {
      if j >= |a| {
        assert (a + b)[j] == b[j - |a|];
        assert b[j - |a|] in b;
        if i < |a| {
          assert DocIds(a)[i] == a[i].id;
        }
      }
    }
  }

  /** The peers `nullify` writes: each loaded peer without the owner's id in its array. */
  function Nullified(rs: seq<Record>, inKey: string, ownerId: Id): (r: seq<Record>)
    ensures |r| == |rs|
    ensures forall i :: 0 <= i < |rs| ==> r[i] == Record(rs[i].id, rs[i].kind, Unlink(rs[i].attrs, inKey, Ref(ownerId)))
  {
    if rs == [] then []
    else Nullified(rs[..|rs| - 1], inKey, ownerId) + [Record(rs[|rs| - 1].id, rs[|rs| - 1].kind, Unlink(rs[|rs| - 1].attrs, inKey, Ref(ownerId)))]
  }

  /** A sequence that is, position by position, the records without the owner's identity is what `Nullified` gives. */
  lemma NullifiedFrom(before: seq<Record>, after: seq<Record>, inKey: string, ownerId: Id)
    requires |after| == |before|
    requires forall i :: 0 <= i < |before| ==> after[i] == Record(before[i].id, before[i].kind, Unlink(before[i].attrs, inKey, Ref(ownerId)))
    ensures after == Nullified(before, inKey, ownerId)
  {
  }

  lemma DistinctAppend(ds: seq<Doc>, d: Doc)
    requires DistinctIds(ds) && d.id !in DocIds(ds)
    ensures DistinctIds(ds + [d])
  {
    DistinctConcat(ds, [d]);
  }

  /** Documents instantiated from stored records, one per record, in order. */
  method LoadAll(recs: seq<Record>) returns (ds: seq<Doc>)
    ensures Snapshots(ds) == recs
    ensures forall d :: d in ds ==> fresh(d) && !d.isNew
  {
    ds := [];
    var i := 0;
    while i < |recs|
      invariant 0 <= i <= |recs| && |ds| == i
      invariant forall j :: 0 <= j < i ==> ds[j].Snapshot() == recs[j]
      invariant forall d :: d in ds ==> fresh(d) && !d.isNew
    {
      var d := new Doc.Load(recs[i]);
      ds := ds + [d];
      i := i + 1;
    }
  }

  /**
   * `doc[key] << x` for each document of `added`, a selection of `docs` without
   * repeats; the documents of `kept` are not among them and keep their state.
   */
  method LinkEach(docs: seq<Doc>, added: seq<Doc>, ghost kept: seq<Doc>, key: string, x: Value)
    requires DistinctIds(added)
    requires forall d :: d in added ==> d in docs
    requires forall d :: d in kept ==> d !in added
    modifies docs`attrs
    ensures forall d :: d in docs ==> d.attrs == if d in added then Link(old(d.attrs), key, x) else old(d.attrs)
    ensures Snapshots(kept) == old(Snapshots(kept))
  {
    DistinctIdsPairwise(added);
    ghost var before := Snapshots(kept);
    var j := 0;
    while j < |added|
      invariant 0 <= j <= |added|
      invariant forall k :: 0 <= k < j ==> added[k].attrs == Link(old(added[k].attrs), key, x)
      invariant forall k :: j <= k < |added| ==> added[k].attrs == old(added[k].attrs)
      invariant forall d :: d in docs && d !in added ==> d.attrs == old(d.attrs)
      invariant forall k :: 0 <= k < |kept| ==> kept[k].attrs == old(kept[k].attrs)
    {
      assert added[j] in added;
      added[j].attrs := Link(added[j].attrs, key, x);
      j := j + 1;
    }
    forall k | 0 <= k < |kept| ensures kept[k].Snapshot() == before[k] {
    }
  }

  /** `doc.save` for each document of `ds`, in order. */
  method SaveEach(store: Store, ds: seq<Doc>)
    requires store.Valid()
    modifies store`records, store`nextId, ds`isNew
    ensures store.Valid()
    ensures store.records == SaveAll(old(store.records), old(Snapshots(ds)), store.accepts)
    ensures forall d :: d in ds ==> d.isNew == (old(d.isNew) && !store.accepts(d.Snapshot()))
  {
    ghost var writes := Snapshots(ds);
    var i := 0;
    while i < |ds|
      invariant 0 <= i <= |ds|
      invariant store.Valid()
      invariant store.records == SaveAll(old(store.records), writes[..i], store.accepts)
      invariant forall j :: 0 <= j < i ==> store.accepts(ds[j].Snapshot()) ==> !ds[j].isNew
      invariant forall d :: d in ds ==> !store.accepts(d.Snapshot()) ==> d.isNew == old(d.isNew)
    {
      var d := ds[i];
      var _ := store.Save(d);
      forall j | 0 <= j < i + 1 ensures store.accepts(ds[j].Snapshot()) ==> !ds[j].isNew {
        if ds[j] != d {
          assert ds[j] in ds;
        }
      }
      assert d.Snapshot() == writes[i];
      assert writes[..i + 1][..i] == writes[..i];
      i := i + 1;
    }
    assert writes[..|ds|] == writes;
  }

  /**
   * The reciprocal association's `<< owner` for each document of `ds`: the owner's
   * identity joins each array once, however often a document is listed.
   */
  method LinkAll(ds: seq<Doc>, key: string, x: Value)
    modifies ds`attrs
    ensures forall d :: d in ds ==> d.attrs == Link(old(d.attrs), key, x)
  {
    ghost var done: set<Doc> := {};
    for j := 0 to |ds|
      invariant forall d :: d in ds[..j] ==> d in done
      invariant forall d :: d in ds ==> d.attrs == if d in done then Link(old(d.attrs), key, x) else old(d.attrs)
    {
      var d := ds[j];
      LinkIdempotent(old(d.attrs), key, x);
      d.attrs := Link(d.attrs, key, x);
      done := done + {d};
    }
    assert ds[..|ds|] == ds;
  }

  /**
   * `doc[key].delete(owner.id)` for each document of `ds`: the owner's identity
   * leaves each array, however often a document is listed.
   */
  method UnlinkAll(ds: seq<Doc>, key: string, ownerId: Id)
    modifies ds`attrs
    ensures forall d :: d in ds ==> d.attrs == Unlink(old(d.attrs), key, Ref(ownerId))
  {
    ghost var done: set<Doc> := {};
    for j := 0 to |ds|
      invariant forall d :: d in ds[..j] ==> d in done
      invariant forall d :: d in ds ==> d.attrs == if d in done then Unlink(old(d.attrs), key, Ref(ownerId)) else old(d.attrs)
    {
      var d := ds[j];
      UnlinkIdempotent(old(d.attrs), key, Ref(ownerId));
      d.attrs := Unlink(d.attrs, key, Ref(ownerId));
      done := done + {d};
    }
    assert ds[..|ds|] == ds;
  }

  /**
   * The deletes of `replace` for each document of `ds`: the owner's identity is
   * taken out of the array once through the reciprocal association and once more
   * directly, which leaves what a single delete leaves.
   */
  method DetachEach(ds: seq<Doc>, key: string, ownerId: Id)
    modifies ds`attrs
    ensures forall d :: d in ds ==> d.attrs == Unlink(old(d.attrs), key, Ref(ownerId))
  {
    UnlinkAll(ds, key, ownerId);
    UnlinkAll(ds, key, ownerId);
    forall d | d in ds ensures d.attrs == Unlink(old(d.attrs), key, Ref(ownerId)) {
      UnlinkIdempotent(old(d.attrs), key, Ref(ownerId));
    }
  }

  /** The loop of `nullify`: each document loses `ownerId` from its array under `key` and is saved. */
  method NullifyEach(store: Store, ds: seq<Doc>, key: string, ownerId: Id)
    requires store.Valid()
    modifies (set d | d in ds)`attrs, (set d | d in ds)`isNew, store`records, store`nextId
    ensures store.Valid()
    ensures store.records == SaveAll(old(store.records), Nullified(old(Snapshots(ds)), key, ownerId), store.accepts)
    ensures forall d :: d in ds ==> d.attrs == Unlink(old(d.attrs), key, Ref(ownerId))
    ensures forall d :: d in ds ==> d.isNew == (old(d.isNew) && !store.accepts(d.Snapshot()))
  {
    ghost var before := Snapshots(ds);
    UnlinkAll(ds, key, ownerId);
    ghost var after := Snapshots(ds);
    forall i | 0 <= i < |ds| ensures after[i] == Record(before[i].id, before[i].kind, Unlink(before[i].attrs, key, Ref(ownerId))) {
      assert ds[i] in ds;
    }
    NullifiedFrom(before, after, key, ownerId);
    SaveEach(store, ds);
  }

  /** `doc.destroy` for each record of `rs`, in order. */
  method DestroyEach(store: Store, rs: seq<Record>)
    requires store.Valid()
    modifies store`records
    ensures store.Valid()
    ensures store.records == Without(old(store.records), IdSet(rs))
  {
    WithoutNone(store.records);
    ghost var gone: set<Id> := {};
    for i := 0 to |rs|
      invariant store.Valid()
      invariant gone == IdSet(rs[..i])
      invariant store.records == Without(old(store.records), gone)
    {
      WithoutTwice(old(store.records), gone, {rs[i].id});
      IdSetPrefix(rs, i);
      store.Destroy(rs[i].id);
      gone := gone + {rs[i].id};
    }
    assert rs[..|rs|] == rs;
  }

  /** A peer `create` saves carries the owner's identity in its array, so the relation finds it. */
  lemma CreatedInRelation(rs: seq<Record>, r: Record, a: Attrs, key: string, ownerId: Id)
    requires r.attrs == WithOwnerId(a, key, ownerId)
    ensures r in Where(Upsert(rs, r), ScopedConditions(key, ownerId))
  {
    WithOwnerIdJoins(a, key, ownerId, r.id, r.kind);
    UpsertContents(rs, r);
  }

  /** A target that grew by `extra` still starts with the documents whose records were `view`. */
  lemma GrownTarget(t0: seq<Doc>, view: seq<Record>, extra: seq<Doc>)
    requires Snapshots(t0) == view
    ensures |view| <= |t0 + extra|
    ensures Snapshots(t0 + extra)[..|view|] == view && (t0 + extra)[|view|..] == extra
  {
    assert (t0 + extra)[..|t0|] == t0;
  }

  /** `(attrs[in_key] ||= []) << owner.id`: the owner's identity goes last in the array, which an unset key starts empty. */
  function WithOwnerId(a: Attrs, key: string, ownerId: Id): (r: Attrs)
    ensures Elements(r, key) == Elements(a, key) + [Ref(ownerId)]
    ensures forall k :: k != key ==> Get(r, k) == Get(a, k)
  {
    a[key := Arr(Elements(a, key) + [Ref(ownerId)])]
  }

  /** A document created with the attributes `create` passes on belongs to the relation. */
  lemma WithOwnerIdJoins(a: Attrs, key: string, ownerId: Id, id: Id, kind: string)
    ensures Matches(Record(id, kind, WithOwnerId(a, key, ownerId)), ScopedConditions(key, ownerId))
  {
    var items := Elements(a, key) + [Ref(ownerId)];
    assert items[|items| - 1] in items;
  }

  /** Every record `nullify` writes is out of the relation, and every loaded peer gets one. */
  lemma NullifiedFacts(peers: seq<Record>, inKey: string, ownerId: Id)
    ensures forall w :: w in Nullified(peers, inKey, ownerId) ==> !Matches(w, ScopedConditions(inKey, ownerId))
    ensures forall x :: x in peers ==> HasId(Nullified(peers, inKey, ownerId), x.id)
  {
    var writes := Nullified(peers, inKey, ownerId);
    forall w | w in writes ensures !Matches(w, ScopedConditions(inKey, ownerId)) {
      var i :| 0 <= i < |writes| && writes[i] == w;
      UnlinkEffect(peers[i].attrs, inKey, Ref(ownerId));
    }
    forall x | x in peers ensures HasId(writes, x.id) {
      var i :| 0 <= i < |peers| && peers[i] == x;
      assert writes[i] in writes;
    }
  }

  /**
   * After `nullify` has written every loaded peer, and the validations accepted
   * them all, no stored peer still holds the owner's identity.
   */
  lemma NullifyClearsRelation(rs: seq<Record>, inKey: string, ownerId: Id, accepts: Record -> bool)
    requires UniqueIds(rs)
    requires forall w :: w in Nullified(Where(rs, ScopedConditions(inKey, ownerId)), inKey, ownerId) ==> accepts(w)
    ensures Where(SaveAll(rs, Nullified(Where(rs, ScopedConditions(inKey, ownerId)), inKey, ownerId), accepts), ScopedConditions(inKey, ownerId)) == []
  {
    var c := ScopedConditions(inKey, ownerId);
    var peers := Where(rs, c);
    var writes := Nullified(peers, inKey, ownerId);
    var after := SaveAll(rs, writes, accepts);
    SaveAllEffect(rs, writes, accepts);
    NullifiedFacts(peers, inKey, ownerId);
    forall x | x in after ensures !Matches(x, c) {
      var last := LastAccepted(writes, x.id, accepts);
      if last.Some? {
        assert x == last.value;
      } else {
        assert x in rs;
      }
    }
    WhereNone(after, c);
  }

  /**
   * The order of the after-save hook: for each identity, the store ends up with
   * the last accepted write of the prior list when there is one, and otherwise
   * the last accepted write of the new list; an identity neither list saves keeps
   * its stored record.
   */
  lemma HookOrder(rs: seq<Record>, news: seq<Record>, priors: seq<Record>, accepts: Record -> bool, id: Id)
    requires UniqueIds(rs)
    ensures UniqueIds(SaveAll(rs, news + priors, accepts))
    ensures LastAccepted(priors, id, accepts).Some? ==> LastAccepted(priors, id, accepts).value in SaveAll(rs, news + priors, accepts)
    ensures LastAccepted(priors, id, accepts).None? && LastAccepted(news, id, accepts).Some? ==>
      LastAccepted(news, id, accepts).value in SaveAll(rs, news + priors, accepts)
    ensures LastAccepted(priors, id, accepts).None? && LastAccepted(news, id, accepts).None? ==>
      forall x :: x in rs && x.id == id ==> x in SaveAll(rs, news + priors, accepts)
  {
    LastAcceptedConcat(news, priors, id, accepts);
    SaveAllEffect(rs, news + priors, accepts);
  }

  /** A peer the owner was linked to meets the relation filter; one it was unlinked from does not. */
  lemma LinkedMatches(r: Record, key: string, ownerId: Id)
    ensures Matches(Record(r.id, r.kind, Link(r.attrs, key, Ref(ownerId))), ScopedConditions(key, ownerId))
    ensures !Matches(Record(r.id, r.kind, Unlink(r.attrs, key, Ref(ownerId))), ScopedConditions(key, ownerId))
  {
    LinkEffect(r.attrs, key, Ref(ownerId));
    UnlinkEffect(r.attrs, key, Ref(ownerId));
  }

  /**
   * What `replace` followed by the owner's save leaves in the relation, identity
   * by identity: the last accepted prior-list write decides when there is one,
   * then the last accepted new-list write, and otherwise the stored record. A
   * document on both lists (a replacement that was already cached) is written
   * twice with the same attributes, so such a write may well be in the relation.
   */
  lemma ReplaceThenSave(rs: seq<Record>, news: seq<Record>, priors: seq<Record>, accepts: Record -> bool, key: string, ownerId: Id, id: Id)
    requires UniqueIds(rs)
    ensures LastAccepted(priors, id, accepts).Some? ==>
      (HasId(Where(SaveAll(rs, news + priors, accepts), ScopedConditions(key, ownerId)), id) <==>
       Matches(LastAccepted(priors, id, accepts).value, ScopedConditions(key, ownerId)))
    ensures LastAccepted(priors, id, accepts).None? && LastAccepted(news, id, accepts).Some? ==>
      (HasId(Where(SaveAll(rs, news + priors, accepts), ScopedConditions(key, ownerId)), id) <==>
       Matches(LastAccepted(news, id, accepts).value, ScopedConditions(key, ownerId)))
    ensures LastAccepted(priors, id, accepts).None? && LastAccepted(news, id, accepts).None? ==>
      (HasId(Where(SaveAll(rs, news + priors, accepts), ScopedConditions(key, ownerId)), id) <==>
       HasId(Where(rs, ScopedConditions(key, ownerId)), id))
  {
    var c := ScopedConditions(key, ownerId);
    var after := SaveAll(rs, news + priors, accepts);
    HookOrder(rs, news, priors, accepts, id);
    LastAcceptedConcat(news, priors, id, accepts);
    var last := LastAccepted(news + priors, id, accepts);
    if last.Some? {
      var v := last.value;
      assert v in after;
      if y :| y in Where(after, c) && y.id == id {
        UniqueSameId(after, y, v);
      }
      assert Matches(v, c) ==> v in Where(after, c);
    } else {
      SaveAllEffect(rs, news + priors, accepts);
      if y :| y in Where(after, c) && y.id == id {
        assert y in Where(rs, c);
      }
      if y :| y in Where(rs, c) && y.id == id {
        assert y in Where(after, c);
      }
    }
  }

  /** `nullify` deletes nothing: the store keeps exactly the identities it had when the written peers were stored ones. */
  lemma NullifyKeepsPeers(rs: seq<Record>, inKey: string, ownerId: Id, accepts: Record -> bool)
    ensures |SaveAll(rs, Nullified(Where(rs, ScopedConditions(inKey, ownerId)), inKey, ownerId), accepts)| == |rs|
    ensures forall id :: HasId(SaveAll(rs, Nullified(Where(rs, ScopedConditions(inKey, ownerId)), inKey, ownerId), accepts), id) <==> HasId(rs, id)
  {
    var peers := Where(rs, ScopedConditions(inKey, ownerId));
    var writes := Nullified(peers, inKey, ownerId);
    forall x | x in writes ensures HasId(rs, x.id) {
      var i :| 0 <= i < |writes| && writes[i] == x;
      assert peers[i] in peers;
    }
    SaveAllStoredKeepsSize(rs, writes, accepts);
  }

  class SourceArrayProxy {
    const owner: Doc
    const ownerStore: Store   // the owner's collection
    const store: Store        // the peers' collection (`klass`)
    const reflection: Reflection
    const inKey: string       // `in_key`
    var loaded: bool
    var target: seq<Doc>
    // `@new_referencing_docs` and `@prior_referencing_docs`: nil until the first
    // `replace`, and the save hooks skip a nil list, so nil is the empty list here
    var newReferencing: seq<Doc>
    var priorReferencing: seq<Doc>

    ghost predicate Valid()
      reads this`loaded, this`target, store`records, store`nextId, ownerStore`records, ownerStore`nextId
    {
      && store.Valid()
      && ownerStore.Valid()
      && store != ownerStore
      && (!loaded ==> target == [])
      && DistinctIds(target)
    }

    /**
     * The proxy of one owner; `peerInOptions` maps each association of the peer
     * class to its `:in` option, and `in_key` is that of the `:source` association.
     */
    constructor (owner: Doc, ownerStore: Store, store: Store, reflection: Reflection, peerInOptions: map<string, string>)
      requires store.Valid() && ownerStore.Valid() && store != ownerStore
      requires reflection.source in peerInOptions
      ensures Valid()
      ensures this.owner == owner && this.ownerStore == ownerStore && this.store == store && this.reflection == reflection
      ensures inKey == peerInOptions[reflection.source]
      ensures !loaded && newReferencing == [] && priorReferencing == []
    {
      this.owner := owner;
      this.ownerStore := ownerStore;
      this.store := store;
      this.reflection := reflection;
      inKey := peerInOptions[reflection.source];
      loaded := false;
      target := [];
      newReferencing := [];
      priorReferencing := [];
    }

    /** The owner's identity as the peers' arrays hold it. */
    function OwnerRef(): Value
    {
      Ref(owner.id)
    }

    function Scoped(options: Conditions): Conditions
    {
      ScopedOptions(reflection.finderOptions, options, inKey, owner.id)
    }

    /** `find_target`: the peers whose array holds the owner's id (without the association's finder options). */
    function FindTarget(rs: seq<Record>): (r: seq<Record>)
      ensures forall x :: x in r <==> x in rs && KeyMatches(Get(x.attrs, inKey), OwnerRef())
    {
      assert forall x :: Matches(x, ScopedConditions(inKey, owner.id)) <==> KeyMatches(Get(x.attrs, inKey), OwnerRef()) by {
        forall x { ScopedConditionsMatch(x, inKey, owner.id); }
      }
      Where(rs, ScopedConditions(inKey, owner.id))
    }

    /** The peers `load_target` leaves in the cache, as records. */
    ghost function LoadedView(): seq<Record>
      reads this`loaded, this`target, store`records, target`attrs
    {
      if loaded then Snapshots(target) else FindTarget(store.records)
    }

    /** The documents a pending list holds. */
    ghost function PendingDocs(): set<Doc>
      reads this`newReferencing, this`priorReferencing
    {
      set d | d in newReferencing + priorReferencing
    }

    /** What the after-save hook writes: the new-list peers, then the prior-list peers. */
    ghost function HookWrites(): seq<Record>
      reads this`newReferencing, this`priorReferencing, newReferencing`attrs, priorReferencing`attrs
    {
      Snapshots(newReferencing) + Snapshots(priorReferencing)
    }

    /** `all`: the stored peers in the relation that meet `options`. */
    function All(options: Conditions): (r: seq<Record>)
      reads store
      ensures forall x :: x in r <==>
        x in store.records && KeyMatches(Get(x.attrs, inKey), OwnerRef()) && Matches(x, (reflection.finderOptions + options) - {inKey})
    {
      ScopedQueryIsRelation(store.records, reflection.finderOptions, options, inKey, owner.id);
      Where(store.records, Scoped(options))
    }

    /** `first`. */
    function First(options: Conditions): (r: Option<Record>)
      reads store
      ensures r.Some? <==> All(options) != []
      ensures r.Some? ==> r.value in All(options) && KeyMatches(Get(r.value.attrs, inKey), OwnerRef())
      ensures r.Some? ==> r.value == All(options)[0]
    {
      FirstOf(All(options))
    }

    /** `last`. */
    function Last(options: Conditions): (r: Option<Record>)
      reads store
      ensures r.Some? <==> All(options) != []
      ensures r.Some? ==> r.value in All(options) && KeyMatches(Get(r.value.attrs, inKey), OwnerRef())
      ensures r.Some? ==> r.value == All(options)[|All(options)| - 1]
    {
      LastOf(All(options))
    }

    /** `count`. */
    function Count(options: Conditions): (r: nat)
      reads store
      ensures r <= |store.records|
      ensures r == 0 <==> forall x :: x in store.records ==> !Matches(x, Scoped(options))
      ensures r == |All(options)|
      ensures UniqueIds(store.records) ==> r == |IdSet(All(options))|
    {
      var all := All(options);
      assert all != [] ==> all[0] in all;
      assert UniqueIds(store.records) ==> |IdSet(all)| == |all| by {
        if UniqueIds(store.records) {
          IdSetSize(all);
        }
      }
      |all|
    }

    /** `paginate`: one page of the relation. */
    function Paginate(options: Conditions, page: nat, perPage: nat): (p: Page)
      requires page >= 1 && perPage >= 1
      reads store
      ensures p.totalEntries == |All(options)|
      ensures forall x :: x in p.entries ==> x in All(options)
    {
      DocumentStore.Paginate(store.records, Scoped(options), page, perPage)
    }

    /** `find`: symbols go to the scoped `first`/`last`/`all`, ids to the finder with the scoped options. */
    function Find(args: FindArgs, options: Conditions): (r: Found)
      reads store
      ensures args.FirstDoc? ==> r == Single(First(options))
      ensures args.LastDoc? ==> r == Single(Last(options))
      ensures args.AllDocs? ==> r == Several(All(options))
      ensures args.ById? ==> r.Single? && (r.doc.Some? <==> exists x :: x in All(options) && x.id == args.id)
      ensures args.ById? && r.doc.Some? ==> r.doc.value in All(options) && r.doc.value.id == args.id
      ensures args.ByIds? ==> r.Several? && forall x :: x in r.docs <==> x in All(options) && x.id in args.ids
    {
      match args
      case FirstDoc => Single(First(options))
      case LastDoc => Single(Last(options))
      case AllDocs => Several(All(options))
      case ById(id) => Single(FindById(store.records, id, Scoped(options)))
      case ByIds(ids) => Several(WhereIds(store.records, ids, Scoped(options)))
    }

    /**
     * `find!`: the same dispatch; the symbols go to the plain scoped finders and
     * never raise, while ids that are not all found in the relation raise.
     */
    function FindBang(args: FindArgs, options: Conditions): (r: Result<Found>)
      reads store
      ensures r.Failure? ==> r.error == DocumentNotFound
      ensures r.Ok? ==> r.value == Find(args, options)
      ensures r.Failure? <==>
        || (args.ById? && Find(args, options).doc.None?)
        || (args.ByIds? && exists id :: id in args.ids && id !in RecordIds(Find(args, options).docs))
    {
      match args
      case ById(id) =>
        var found := FindById(store.records, id, Scoped(options));
        if found.None? then Failure(DocumentNotFound) else Ok(Single(found))
      case ByIds(ids) =>
        var found := WhereIds(store.records, ids, Scoped(options));
        if exists id :: id in ids && id !in RecordIds(found) then Failure(DocumentNotFound) else Ok(Several(found))
      case _ => Ok(Find(args, options))
    }

    /** `load_target`: when nothing is cached, the peers whose array holds the owner's id are loaded. */
    method LoadTarget()
      requires Valid()
      modifies this`loaded, this`target
      ensures Valid() && loaded
      ensures old(loaded) ==> target == old(target)
      ensures !old(loaded) ==> forall d :: d in target ==> fresh(d) && !d.isNew
      ensures Snapshots(target) == old(LoadedView())
      ensures HookWrites() == old(HookWrites())
    {
      if !loaded {
        LoadFresh();
      }
    }

    /** The loading branch of `load_target`: the relation's records become fresh documents. */
    method LoadFresh()
      requires Valid() && !loaded
      modifies this`loaded, this`target
      ensures Valid() && loaded
      ensures forall d :: d in target ==> fresh(d) && !d.isNew
      ensures Snapshots(target) == old(FindTarget(store.records))
      ensures HookWrites() == old(HookWrites())
    {
      var recs := FindTarget(store.records);
      var ds := LoadAll(recs);
      assert HookWrites() == old(HookWrites());
      SnapshotIds(ds, recs);
      Cache(ds, recs);
    }

    /** The cache is filled with documents loaded from `recs`. */
    method Cache(ds: seq<Doc>, ghost recs: seq<Record>)
      requires Valid() && DistinctIds(ds) && Snapshots(ds) == recs
      modifies this`loaded, this`target
      ensures Valid() && loaded && target == ds
      ensures Snapshots(target) == recs
      ensures HookWrites() == old(HookWrites())
    {
      target := ds;
      loaded := true;
    }

    /**
     * `<<` (also `push`, `concat`): each document not in the target yet gets the
     * owner through its reciprocal association and joins the target; a document
     * already there (by identity) is skipped, so repeats add nothing.
     */
    method Push(docs: seq<Doc>)
      requires Valid()
      modifies this`loaded, this`target, docs`attrs
      ensures Valid() && loaded
      ensures var before := old(LoadedView());
        && |target| == |before| + |Appended(RecordIds(before), docs)|
        && Snapshots(target)[..|before|] == before
        && target[|before|..] == Appended(RecordIds(before), docs)
      ensures old(loaded) ==> target[..|old(target)|] == old(target)
      ensures forall d :: d in docs ==>
        d.attrs == if d in Appended(RecordIds(old(LoadedView())), docs) then Link(old(d.attrs), inKey, OwnerRef()) else old(d.attrs)
    {
      LoadTarget();
      ghost var t0 := target;
      SnapshotIds(t0, Snapshots(t0));
      AppendLoaded(docs);
    }

    /** The loop of `<<` over a loaded target: each document it adds is linked to the owner and joins the target. */
    method AppendLoaded(docs: seq<Doc>)
      requires Valid() && loaded
      modifies this`target, docs`attrs
      ensures Valid() && loaded
      ensures target == old(target) + Appended(DocIds(old(target)), docs)
      ensures |target| == |old(target)| + |Appended(DocIds(old(target)), docs)|
      ensures Snapshots(target)[..|old(target)|] == old(Snapshots(target))
      ensures target[|old(target)|..] == Appended(DocIds(old(target)), docs)
      ensures forall d :: d in docs ==>
        d.attrs == if d in Appended(DocIds(old(target)), docs) then Link(old(d.attrs), inKey, OwnerRef()) else old(d.attrs)
    {
      var added := Appended(DocIds(target), docs);
      AppendedToTarget(target, docs);
      ghost var t0 := target;
      LinkEach(docs, added, t0, inKey, OwnerRef());
      assert Snapshots(t0) == old(Snapshots(target));
      Extend(added);
    }

    /** Documents with identities new to the loaded target join it at its end. */
    method Extend(added: seq<Doc>)
      requires Valid() && loaded && DistinctIds(target + added)
      modifies this`target
      ensures Valid() && loaded
      ensures target == old(target) + added
      ensures |target| == |old(target)| + |added|
      ensures Snapshots(target)[..|old(target)|] == old(Snapshots(target))
      ensures target[|old(target)|..] == added
    {
      ghost var view := Snapshots(target);
      GrownTarget(target, view, added);
      target := target + added;
    }

    /** `reset`: the cache is dropped and reloads on next use; the pending lists stay as they are. */
    method Reset()
      modifies this`loaded, this`target
      ensures !loaded && target == []
    {
      loaded := false;
      target := [];
    }

    /**
     * `destroy_all`: every peer the scoped `all` finds is destroyed, one by one,
     * and the cache is reset. Peers outside the relation, or not meeting `options`,
     * stay.
     */
    method DestroyAll(options: Conditions)
      requires Valid()
      modifies this`loaded, this`target, store`records
      ensures Valid() && !loaded && target == []
      ensures store.records == Reject(old(store.records), Scoped(options))
      ensures Count(options) == 0
      ensures forall x :: x in old(store.records) && !KeyMatches(Get(x.attrs, inKey), OwnerRef()) ==> x in store.records
    {
      var doomed := All(options);
      WithoutMatchedIsReject(store.records, store.records, Scoped(options));
      DestroyEach(store, doomed);
      Reset();
    }

    /**
     * `delete_all`: one removal of the peers meeting `options` and the relation
     * filter, without the association's finder options; then the cache is reset.
     */
    method DeleteAll(options: Conditions)
      requires Valid()
      modifies this`loaded, this`target, store`records
      ensures Valid() && !loaded && target == []
      ensures store.records == Reject(old(store.records), options + ScopedConditions(inKey, owner.id))
      ensures Count(options) == 0
      ensures forall x :: x in old(store.records) && !KeyMatches(Get(x.attrs, inKey), OwnerRef()) ==> x in store.records
    {
      var c := options + ScopedConditions(inKey, owner.id);
      store.DeleteAll(c);
      forall x | x in store.records ensures !Matches(x, Scoped(options)) {
        if Matches(x, Scoped(options)) {
          MatchesSubMap(x, Scoped(options), c);
        }
      }
      Reset();
    }

    /**
     * `nullify`: the target is loaded, the owner's identity is deleted from each
     * peer's array, each peer is saved, and the cache is reset. No peer is removed.
     */
    method Nullify()
      requires Valid()
      modifies this`loaded, this`target, (set d | d in target)`attrs, (set d | d in target)`isNew, store`records, store`nextId
      ensures Valid() && !loaded && target == []
      ensures store.records == SaveAll(old(store.records), Nullified(old(LoadedView()), inKey, owner.id), store.accepts)
      ensures old(loaded) ==> forall d :: d in old(target) ==> d.attrs == Unlink(old(d.attrs), inKey, OwnerRef())
    {
      NullifyTarget();
      Reset();
    }

    /** `load_target` and the loop of `nullify`: each document of the target loses the owner's identity and is saved. */
    method NullifyTarget()
      requires Valid()
      modifies this`loaded, this`target, (set d | d in target)`attrs, (set d | d in target)`isNew, store`records, store`nextId
      ensures Valid() && loaded
      ensures old(loaded) ==> target == old(target)
      ensures store.records == SaveAll(old(store.records), Nullified(old(LoadedView()), inKey, owner.id), store.accepts)
      ensures old(loaded) ==> forall d :: d in target ==>
        && d.attrs == Unlink(old(d.attrs), inKey, OwnerRef())
        && d.isNew == (old(d.isNew) && !store.accepts(d.Snapshot()))
    {
      if !loaded {
        LoadFresh();
      }
      NullifyEach(store, target, inKey, owner.id);
    }

    /**
     * `replace` (the writer `owner.peers = docs`): the target is loaded; each of its
     * documents loses the owner through its reciprocal association and from its
     * array, and goes on the prior list; each replacement document gets the owner
     * through its reciprocal association and goes on the new list. Nothing is
     * saved, and the cache keeps the replaced documents.
     */
    method Replace(docs: seq<Doc>)
      requires Valid()
      modifies this`loaded, this`target, this`priorReferencing, this`newReferencing, (set d | d in target)`attrs, docs`attrs
      ensures Valid() && loaded
      ensures old(loaded) ==> target == old(target)
      ensures var view := old(LoadedView());
        && |target| == |view|
        && forall i :: 0 <= i < |view| ==>
          && target[i].id == view[i].id && target[i].kind == view[i].kind
          && target[i].attrs == if target[i] in docs then Link(Unlink(view[i].attrs, inKey, OwnerRef()), inKey, OwnerRef()) else Unlink(view[i].attrs, inKey, OwnerRef())
      ensures forall d :: d in docs && d !in target ==> d.attrs == Link(old(d.attrs), inKey, OwnerRef())
      ensures priorReferencing == old(priorReferencing) + target
      ensures newReferencing == old(newReferencing) + docs
      ensures store.records == old(store.records)
    {
      LoadTarget();
      ReplaceLoaded(docs);
    }

    /** `replace` once the target is loaded. */
    method ReplaceLoaded(docs: seq<Doc>)
      requires Valid() && loaded
      modifies this`priorReferencing, this`newReferencing, (set d | d in target)`attrs, docs`attrs
      ensures Valid() && loaded
      ensures var view := old(Snapshots(target));
        && |target| == |view|
        && forall i :: 0 <= i < |view| ==>
          && target[i].id == view[i].id && target[i].kind == view[i].kind
          && target[i].attrs == if target[i] in docs then Link(Unlink(view[i].attrs, inKey, OwnerRef()), inKey, OwnerRef()) else Unlink(view[i].attrs, inKey, OwnerRef())
      ensures forall d :: d in docs && d !in target ==> d.attrs == Link(old(d.attrs), inKey, OwnerRef())
      ensures priorReferencing == old(priorReferencing) + target
      ensures newReferencing == old(newReferencing) + docs
    {
      ghost var view := Snapshots(target);
      DetachTarget();
      AttachAll(docs);
      forall i | 0 <= i < |view|
        ensures target[i].attrs == if target[i] in docs then Link(Unlink(view[i].attrs, inKey, OwnerRef()), inKey, OwnerRef()) else Unlink(view[i].attrs, inKey, OwnerRef())
      {
        assert target[i] in target;
      }
    }

    /** The first loop of `replace`: the owner's identity leaves each target document's array, and the document goes on the prior list. */
    method DetachTarget()
      requires Valid() && loaded
      modifies target`attrs, this`priorReferencing
      ensures Valid() && loaded
      ensures forall d :: d in target ==> d.attrs == Unlink(old(d.attrs), inKey, OwnerRef())
      ensures priorReferencing == old(priorReferencing) + target
    {
      DetachEach(target, inKey, owner.id);
      priorReferencing := priorReferencing + target;
    }

    /** The second loop of `replace`: each replacement document gets the owner and goes on the new list. */
    method AttachAll(docs: seq<Doc>)
      modifies docs`attrs, this`newReferencing
      ensures forall d :: d in docs ==> d.attrs == Link(old(d.attrs), inKey, OwnerRef())
      ensures newReferencing == old(newReferencing) + docs
    {
      LinkAll(docs, inKey, OwnerRef());
      newReferencing := newReferencing + docs;
    }

    /** `save_referencing_docs`: each document on the new list is saved, in order; nothing when the list was never made. */
    method SaveReferencingDocs()
      requires Valid()
      modifies store`records, store`nextId, newReferencing`isNew
      ensures Valid()
      ensures store.records == SaveAll(old(store.records), old(Snapshots(newReferencing)), store.accepts)
      ensures forall d :: d in newReferencing ==> d.isNew == (old(d.isNew) && !store.accepts(d.Snapshot()))
      ensures forall d :: d in PendingDocs() ==> d.isNew == (old(d.isNew) && !(d in newReferencing && store.accepts(d.Snapshot())))
    {
      SaveEach(store, newReferencing);
    }

    /** `save_prior_referencing_docs`: each document on the prior list is saved, in order; nothing when the list was never made. */
    method SavePriorReferencingDocs()
      requires Valid()
      modifies store`records, store`nextId, priorReferencing`isNew
      ensures Valid()
      ensures store.records == SaveAll(old(store.records), old(Snapshots(priorReferencing)), store.accepts)
      ensures forall d :: d in priorReferencing ==> d.isNew == (old(d.isNew) && !store.accepts(d.Snapshot()))
      ensures forall d :: d in PendingDocs() ==> d.isNew == (old(d.isNew) && !(d in priorReferencing && store.accepts(d.Snapshot())))
    {
      SaveEach(store, priorReferencing);
    }

    /** The after-save hook `initialize` registers on the owner's class: the new list is saved, then the prior list. */
    method AfterSave()
      requires Valid()
      modifies store`records, store`nextId, PendingDocs()`isNew
      ensures Valid()
      ensures store.records == SaveAll(old(store.records), old(HookWrites()), store.accepts)
      ensures forall d :: d in PendingDocs() ==> d.isNew == (old(d.isNew) && !store.accepts(d.Snapshot()))
    {
      ghost var r0 := store.records;
      ghost var a := Snapshots(newReferencing);
      ghost var b := Snapshots(priorReferencing);
      SaveReferencingDocs();
      assert Snapshots(priorReferencing) == b;
      SavePriorReferencingDocs();
      SaveAllConcat(r0, a, b, store.accepts);
    }

    /** `owner.save`: the owner is written to its own store and, when its validations accept it, the after-save hook runs. */
    method SaveOwner() returns (ok: bool)
      requires Valid()
      modifies ownerStore`records, ownerStore`nextId, owner`isNew, store`records, store`nextId, PendingDocs()`isNew
      ensures Valid()
      ensures ok == ownerStore.accepts(old(owner.Snapshot()))
      ensures ownerStore.records == Persist(old(ownerStore.records), old(owner.Snapshot()), ownerStore.accepts)
      ensures store.records == if ok then SaveAll(old(store.records), old(HookWrites()), store.accepts) else old(store.records)
      ensures owner.isNew == (old(owner.isNew) && !ok)
      ensures forall p :: p in PendingDocs() && p != owner ==> p.isNew == (old(p.isNew) && !(ok && store.accepts(p.Snapshot())))
    {
      ghost var news := newReferencing;
      ghost var priors := priorReferencing;
      ghost var a := Snapshots(news);
      ghost var b := Snapshots(priors);
      ok := ownerStore.Save(owner);
      ghost var saved := ownerStore.records;
      if ok {
        assert newReferencing == news && priorReferencing == priors;
        assert Snapshots(news) == a;
        assert Snapshots(priors) == b;
        AfterSave();
        assert ownerStore.records == saved;
      }
    }

    /** `owner.save if owner.new?`: a new owner is saved first, as its identity is about to go into a peer. */
    method SaveOwnerIfNew()
      requires Valid()
      modifies ownerStore`records, ownerStore`nextId, owner`isNew, store`records, store`nextId, PendingDocs()`isNew
      ensures Valid()
      ensures ownerStore.records == if old(owner.isNew) then Persist(old(ownerStore.records), old(owner.Snapshot()), ownerStore.accepts) else old(ownerStore.records)
      ensures store.records == OwnerSaveEffect(old(owner.isNew), old(owner.Snapshot()), old(store.records), old(HookWrites()))
      ensures Snapshots(target) == old(Snapshots(target))
      ensures owner.isNew == (old(owner.isNew) && !OwnerSaves(old(owner.isNew), old(owner.Snapshot())))
      ensures forall p :: p in PendingDocs() && p != owner ==> p.isNew == (old(p.isNew) && !(OwnerSaves(old(owner.isNew), old(owner.Snapshot())) && store.accepts(p.Snapshot())))
    {
      if owner.isNew {
        var _ := SaveOwner();
      }
    }

    /** `owner.save if owner.new?` writes the owner, and runs its hook: the owner was new and its validations accept it. */
    ghost predicate OwnerSaves(wasNew: bool, ownerRecord: Record)
    {
      wasNew && ownerStore.accepts(ownerRecord)
    }

    /** What saving the owner when it is new leaves in the peers' store: the hook's writes when the owner's validations accept it. */
    ghost function OwnerSaveEffect(wasNew: bool, ownerRecord: Record, peers: seq<Record>, hook: seq<Record>): seq<Record>
    {
      if OwnerSaves(wasNew, ownerRecord) then SaveAll(peers, hook, store.accepts) else peers
    }

    /**
     * The part of `create` after the owner is saved: the peer is built with the
     * owner's identity in its array, saved when its validations accept it, and
     * joins the loaded target unless its identity is there (`target << doc unless
     * target.include?(doc)`).
     */
    method CreateInTarget(attrs: Attrs) returns (d: Doc)
      requires Valid() && loaded
      modifies this`target, store`records, store`nextId
      ensures Valid() && loaded
      ensures fresh(d) && d.kind == reflection.peerKind && d.attrs == WithOwnerId(attrs, inKey, owner.id)
      ensures d.isNew == !store.accepts(d.Snapshot())
      ensures store.records == Persist(old(store.records), d.Snapshot(), store.accepts)
      ensures target == old(target) + if Includes(old(target), d) then [] else [d]
      ensures Snapshots(old(target)) == old(Snapshots(target))
      ensures owner.isNew == old(owner.isNew)
    {
      d := store.Create(reflection.peerKind, WithOwnerId(attrs, inKey, owner.id));
      if !Includes(target, d) {
        DistinctAppend(target, d);
        target := target + [d];
      }
    }

    /** As `CreateInTarget`, for `create!`: a peer its validations reject is an error and joins nothing. */
    method CreateBangInTarget(attrs: Attrs) returns (r: Result<Doc>)
      requires Valid() && loaded
      modifies this`target, store`records, store`nextId
      ensures Valid() && loaded
      ensures r.Failure? <==> !store.accepts(Record(old(store.nextId), reflection.peerKind, WithOwnerId(attrs, inKey, owner.id)))
      ensures r.Failure? ==> r.error == DocumentNotValid
      ensures store.records == if r.Failure? then old(store.records) else Upsert(old(store.records), r.value.Snapshot())
      ensures r.Ok? ==> fresh(r.value) && !r.value.isNew && r.value.kind == reflection.peerKind && r.value.attrs == WithOwnerId(attrs, inKey, owner.id)
      ensures r.Ok? ==> store.accepts(r.value.Snapshot()) && r.value.id == old(store.nextId)
      ensures target == old(target) + if r.Failure? || Includes(old(target), r.value) then [] else [r.value]
      ensures Snapshots(old(target)) == old(Snapshots(target))
      ensures owner.isNew == old(owner.isNew)
    {
      r := store.CreateBang(reflection.peerKind, WithOwnerId(attrs, inKey, owner.id));
      if r.Ok? {
        var d := r.value;
        if !Includes(target, d) {
          DistinctAppend(target, d);
          target := target + [d];
        }
      }
    }

    /**
     * The first two steps of `create` and `create!`: the target is loaded, then a
     * new owner is saved (`owner.save if owner.new?`), which runs the after-save
     * hook when the owner's validations accept it.
     */
    method LoadAndSaveOwner()
      requires Valid()
      modifies this`loaded, this`target, ownerStore`records, ownerStore`nextId, owner`isNew, store`records, store`nextId, PendingDocs()`isNew
      ensures Valid() && loaded
      ensures old(loaded) ==> target == old(target)
      ensures Snapshots(target) == old(LoadedView())
      ensures ownerStore.records == if old(owner.isNew) then Persist(old(ownerStore.records), old(owner.Snapshot()), ownerStore.accepts) else old(ownerStore.records)
      ensures store.records == OwnerSaveEffect(old(owner.isNew), old(owner.Snapshot()), old(store.records), old(HookWrites()))
      ensures owner.isNew == (old(owner.isNew) && !OwnerSaves(old(owner.isNew), old(owner.Snapshot())))
      ensures forall p :: p in PendingDocs() && p != owner ==> p.isNew == (old(p.isNew) && !(OwnerSaves(old(owner.isNew), old(owner.Snapshot())) && store.accepts(p.Snapshot())))
    {
      LoadTarget();
      SaveOwnerIfNew();
    }

    /**
     * `create`: the target is loaded, a new owner is saved, the owner's identity is
     * appended to the peer's array, the peer is created (saved when its validations
     * accept it) and joins the target. A saved peer is in the relation.
     */
    method Create(attrs: Attrs) returns (d: Doc)
      requires Valid()
      modifies this`loaded, this`target, ownerStore`records, ownerStore`nextId, owner`isNew, store`records, store`nextId, PendingDocs()`isNew
      ensures Valid() && loaded
      ensures fresh(d) && d.kind == reflection.peerKind && d.attrs == WithOwnerId(attrs, inKey, owner.id)
      ensures d.isNew == !store.accepts(d.Snapshot())
      ensures ownerStore.records == if old(owner.isNew) then Persist(old(ownerStore.records), old(owner.Snapshot()), ownerStore.accepts) else old(ownerStore.records)
      ensures store.records == Persist(OwnerSaveEffect(old(owner.isNew), old(owner.Snapshot()), old(store.records), old(HookWrites())), d.Snapshot(), store.accepts)
      ensures var before := old(LoadedView());
        && |before| <= |target|
        && Snapshots(target)[..|before|] == before
        && target[|before|..] == if d.id in RecordIds(before) then [] else [d]
      ensures old(loaded) ==> target[..|old(target)|] == old(target)
      ensures owner.isNew == (old(owner.isNew) && !OwnerSaves(old(owner.isNew), old(owner.Snapshot())))
    {
      LoadAndSaveOwner();
      ghost var t0, view := target, Snapshots(target);
      SnapshotIds(t0, view);
      d := CreateInTarget(attrs);
      assert Snapshots(t0) == view;
      GrownTarget(t0, view, if Includes(t0, d) then [] else [d]);
    }

    /**
     * `create!`: as `create`, but a peer its validations reject is an error: it is
     * not written and does not join the target.
     */
    method CreateBang(attrs: Attrs) returns (r: Result<Doc>, ghost createdId: Id)
      requires Valid()
      modifies this`loaded, this`target, ownerStore`records, ownerStore`nextId, owner`isNew, store`records, store`nextId, PendingDocs()`isNew
      ensures Valid() && loaded
      ensures ownerStore.records == if old(owner.isNew) then Persist(old(ownerStore.records), old(owner.Snapshot()), ownerStore.accepts) else old(ownerStore.records)
      ensures r.Failure? ==> r.error == DocumentNotValid
      ensures store.records == if r.Failure? then OwnerSaveEffect(old(owner.isNew), old(owner.Snapshot()), old(store.records), old(HookWrites()))
        else Upsert(OwnerSaveEffect(old(owner.isNew), old(owner.Snapshot()), old(store.records), old(HookWrites())), r.value.Snapshot())
      ensures r.Ok? ==> fresh(r.value) && !r.value.isNew && r.value.kind == reflection.peerKind && r.value.attrs == WithOwnerId(attrs, inKey, owner.id)
      ensures r.Ok? ==> store.accepts(r.value.Snapshot())
      ensures r.Failure? <==> !store.accepts(Record(createdId, reflection.peerKind, WithOwnerId(attrs, inKey, owner.id)))
      ensures r.Ok? ==> r.value.id == createdId
      ensures !HasId(OwnerSaveEffect(old(owner.isNew), old(owner.Snapshot()), old(store.records), old(HookWrites())), createdId)
      ensures var before := old(LoadedView());
        && |before| <= |target|
        && Snapshots(target)[..|before|] == before
        && target[|before|..] == if r.Failure? || r.value.id in RecordIds(before) then [] else [r.value]
      ensures old(loaded) ==> target[..|old(target)|] == old(target)
      ensures owner.isNew == (old(owner.isNew) && !OwnerSaves(old(owner.isNew), old(owner.Snapshot())))
    {
      LoadAndSaveOwner();
      createdId := store.nextId;
      assert !HasId(store.records, createdId);
      ghost var t0, view := target, Snapshots(target);
      SnapshotIds(t0, view);
      r := CreateBangInTarget(attrs);
      assert Snapshots(t0) == view;
      GrownTarget(t0, view, if r.Failure? || Includes(t0, r.value) then [] else [r.value]);
    }
  }
}
