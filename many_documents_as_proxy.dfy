/**
 * The polymorphic one-to-many association (`many :comments, :as => :commentable`):
 * each peer names its owner by a pair of keys, `<as>_type` holding the owner's
 * class name and `<as>_id` its identity. Peers built while the owner is still new
 * get the type key only and wait in a queue until the owner is saved.
 */
module ManyDocumentsAs {
  import opened Documents
  import opened DocumentStore

  /** `type_key_name`. */
  function TypeKeyName(asName: string): (r: string)
    ensures |r| == |asName| + 5 && r[..|asName|] == asName && r[|asName|..] == "_type"
  {
    asName + "_type"
  }

  /** `id_key_name`. */
  function IdKeyName(asName: string): (r: string)
    ensures |r| == |asName| + 3 && r[..|asName|] == asName && r[|asName|..] == "_id"
  {
    asName + "_id"
  }

  /** The type key of one association never coincides with the id key of any association, its own included. */
  lemma KeyNamesDistinct(a: string, b: string)
    ensures TypeKeyName(a) != IdKeyName(b)
  {
    var t, i := TypeKeyName(a), IdKeyName(b);
    assert t[|t| - 1] == 'e' && i[|i| - 1] == 'd';
  }

  /** Different `:as` names give different keys. */
  lemma KeyNamesInjective(a: string, b: string)
    ensures TypeKeyName(a) == TypeKeyName(b) ==> a == b
    ensures IdKeyName(a) == IdKeyName(b) ==> a == b
  {
    if TypeKeyName(a) == TypeKeyName(b) {
      assert a == TypeKeyName(a)[..|a|] && b == TypeKeyName(b)[..|b|];
    }
    if IdKeyName(a) == IdKeyName(b) {
      assert a == IdKeyName(a)[..|a|] && b == IdKeyName(b)[..|b|];
    }
  }

  /** `scoped_conditions`: the peer names the owner's class and identity. */
  function ScopedConditions(asName: string, ownerKind: string, ownerId: Id): (c: Conditions)
    ensures c.Keys == {TypeKeyName(asName), IdKeyName(asName)}
    ensures c[TypeKeyName(asName)] == Str(ownerKind) && c[IdKeyName(asName)] == Ref(ownerId)
  {
    KeyNamesDistinct(asName, asName);
    map[TypeKeyName(asName) := Str(ownerKind), IdKeyName(asName) := Ref(ownerId)]
  }

  /** The attributes `apply_scope` leaves: the type key, then the id key, set to the owner's. */
  function Scope(a: Attrs, asName: string, ownerKind: string, ownerId: Id): (r: Attrs)
    ensures Get(r, TypeKeyName(asName)) == Str(ownerKind) && Get(r, IdKeyName(asName)) == Ref(ownerId)
    ensures forall k :: k != TypeKeyName(asName) && k != IdKeyName(asName) ==> Get(r, k) == Get(a, k)
  {
    KeyNamesDistinct(asName, asName);
    a[TypeKeyName(asName) := Str(ownerKind)][IdKeyName(asName) := Ref(ownerId)]
  }

  /**
   * A scoped peer is in the relation of exactly one owner: the one whose class
   * and identity it was given, whatever its other attributes.
   */
  lemma ScopeMatches(id: Id, kind: string, a: Attrs, asName: string, ownerKind: string, ownerId: Id, otherKind: string, otherId: Id)
    ensures Matches(Record(id, kind, Scope(a, asName, ownerKind, ownerId)), ScopedConditions(asName, otherKind, otherId))
      <==> ownerKind == otherKind && ownerId == otherId
  {
    KeyNamesDistinct(asName, asName);
    var s := Scope(a, asName, ownerKind, ownerId);
    var c := ScopedConditions(asName, otherKind, otherId);
    assert Get(s, TypeKeyName(asName)) == Str(ownerKind);
    assert Get(s, IdKeyName(asName)) == Ref(ownerId);
    if Matches(Record(id, kind, s), c) {
      assert KeyMatches(Get(s, TypeKeyName(asName)), c[TypeKeyName(asName)]);
      assert KeyMatches(Get(s, IdKeyName(asName)), c[IdKeyName(asName)]);
    }
  }

  /** The queue test of `assign_foreign_id_and_save_built_docs`: still new, and the id key still nil. */
  predicate Selected(a: Attrs, isNew: bool, asName: string): (b: bool)
    ensures b <==> isNew && (IdKeyName(asName) !in a || a[IdKeyName(asName)] == Nil)
  {
    isNew && Get(a, IdKeyName(asName)) == Nil
  }

  /** The attributes one queued document has after the flush: scoped when selected, untouched otherwise. */
  function AfterFlush(a: Attrs, isNew: bool, asName: string, ownerKind: string, ownerId: Id): (r: Attrs)
    ensures Selected(a, isNew, asName) ==> Get(r, TypeKeyName(asName)) == Str(ownerKind) && Get(r, IdKeyName(asName)) == Ref(ownerId)
    ensures !Selected(a, isNew, asName) ==> r == a
  {
    if Selected(a, isNew, asName) then Scope(a, asName, ownerKind, ownerId) else a
  }

  /** What the flush saves for one queued document: its scoped form when selected, nothing otherwise. */
  function FlushWrites(r: Record, isNew: bool, asName: string, ownerKind: string, ownerId: Id): seq<Record>
  {
    if Selected(r.attrs, isNew, asName) then [Record(r.id, r.kind, Scope(r.attrs, asName, ownerKind, ownerId))] else []
  }

  /** The records the flush saves, in queue order: each selected queued document, scoped. */
  function Flushed(rs: seq<Record>, flags: seq<bool>, asName: string, ownerKind: string, ownerId: Id): seq<Record>
    requires |flags| == |rs|
  {
    if rs == [] then []
    else
      var n := |rs| - 1;
      Flushed(rs[..n], flags[..n], asName, ownerKind, ownerId) + FlushWrites(rs[n], flags[n], asName, ownerKind, ownerId)
  }

  /**
   * The flush is selective: every selected queued document is written scoped,
   * every write is the scoped form of a selected queued document, and every write
   * is in the owner's relation. An empty queue writes nothing.
   */
  lemma {:induction false} FlushedFacts(rs: seq<Record>, flags: seq<bool>, asName: string, ownerKind: string, ownerId: Id)
    requires |flags| == |rs|
    ensures |Flushed(rs, flags, asName, ownerKind, ownerId)| <= |rs|
    ensures forall k :: 0 <= k < |rs| && Selected(rs[k].attrs, flags[k], asName) ==>
      Record(rs[k].id, rs[k].kind, Scope(rs[k].attrs, asName, ownerKind, ownerId)) in Flushed(rs, flags, asName, ownerKind, ownerId)
    ensures forall w :: w in Flushed(rs, flags, asName, ownerKind, ownerId) ==>
      exists k :: 0 <= k < |rs| && Selected(rs[k].attrs, flags[k], asName) && w == Record(rs[k].id, rs[k].kind, Scope(rs[k].attrs, asName, ownerKind, ownerId))
    ensures forall w :: w in Flushed(rs, flags, asName, ownerKind, ownerId) ==> Matches(w, ScopedConditions(asName, ownerKind, ownerId))
    ensures (forall k :: 0 <= k < |rs| ==> !Selected(rs[k].attrs, flags[k], asName)) ==> Flushed(rs, flags, asName, ownerKind, ownerId) == []
  {
    if rs != [] {
      var n := |rs| - 1;
      var pre, preFlags := rs[..n], flags[..n];
      FlushedFacts(pre, preFlags, asName, ownerKind, ownerId);
      ScopeMatches(rs[n].id, rs[n].kind, rs[n].attrs, asName, ownerKind, ownerId, ownerKind, ownerId);
      forall k | 0 <= k < n ensures pre[k] == rs[k] && preFlags[k] == flags[k] {
      }
    }
  }

  /**
   * A peer built on a new owner from attributes without the id key is picked up
   * by the flush, which leaves it scoped to the owner exactly as `build` on a
   * persisted owner would have, and saves it in the owner's relation.
   */
  lemma DeferredPeerIsFlushed(id: Id, kind: string, a: Attrs, asName: string, ownerKind: string, ownerId: Id)
    requires Get(a, IdKeyName(asName)) == Nil
    ensures var built := a[TypeKeyName(asName) := Str(ownerKind)];
      && Selected(built, true, asName)
      && AfterFlush(built, true, asName, ownerKind, ownerId) == Scope(a, asName, ownerKind, ownerId)
      && FlushWrites(Record(id, kind, built), true, asName, ownerKind, ownerId) == [Record(id, kind, Scope(a, asName, ownerKind, ownerId))]
      && Matches(Record(id, kind, AfterFlush(built, true, asName, ownerKind, ownerId)), ScopedConditions(asName, ownerKind, ownerId))
  {
    KeyNamesDistinct(asName, asName);
    var built := a[TypeKeyName(asName) := Str(ownerKind)];
    assert Get(built, IdKeyName(asName)) == Nil;
    assert Scope(built, asName, ownerKind, ownerId) == Scope(a, asName, ownerKind, ownerId);
    ScopeMatches(id, kind, a, asName, ownerKind, ownerId, ownerKind, ownerId);
  }

  /**
   * A queued peer that was given an id key, or was saved since, is skipped by the
   * flush: its attributes stay as they are and nothing is written for it.
   */
  lemma FlushSkips(r: Record, isNew: bool, asName: string, ownerKind: string, ownerId: Id)
    requires !isNew || Get(r.attrs, IdKeyName(asName)) != Nil
    ensures AfterFlush(r.attrs, isNew, asName, ownerKind, ownerId) == r.attrs
    ensures FlushWrites(r, isNew, asName, ownerKind, ownerId) == []
  {
  }

  /** The `new?` flags of a sequence of documents. */
  ghost function NewFlags(ds: seq<Doc>): (r: seq<bool>)
    reads ds`isNew
    ensures |r| == |ds|
    ensures forall i :: 0 <= i < |ds| ==> r[i] == ds[i].isNew
  {
    if ds == [] then [] else NewFlags(ds[..|ds| - 1]) + [ds[|ds| - 1].isNew]
  }

  /** The proxy of one owner for one polymorphic association. */
  class ManyDocumentsAsProxy {
    const owner: Doc
    const ownerStore: Store   // the owner's collection
    const store: Store        // the peers' collection (`klass`)
    const asName: string      // the `:as` option
    const peerKind: string    // the class of the peers
    // `@docs_to_add_foreign_id_to_later`: nil until the first `build` on a new
    // owner, and the flush reads nil as the empty list, so nil is the empty list here
    var pending: seq<Doc>

    ghost predicate Valid()
      reads this`pending, store`records, store`nextId, ownerStore`records, ownerStore`nextId
    {
      && store.Valid()
      && ownerStore.Valid()
      && store != ownerStore
      && owner !in pending
      && forall i, j :: 0 <= i < j < |pending| ==> pending[i] != pending[j]
    }

    constructor (owner: Doc, ownerStore: Store, store: Store, asName: string, peerKind: string)
      requires store.Valid() && ownerStore.Valid() && store != ownerStore
      ensures Valid()
      ensures this.owner == owner && this.ownerStore == ownerStore && this.store == store
      ensures this.asName == asName && this.peerKind == peerKind && pending == []
    {
      this.owner := owner;
      this.ownerStore := ownerStore;
      this.store := store;
      this.asName := asName;
      this.peerKind := peerKind;
      pending := [];
    }

    function TypeKey(): string
    {
      TypeKeyName(asName)
    }

    function IdKey(): string
    {
      IdKeyName(asName)
    }

    /** `ensure_owner_saved`: a new owner is saved; its validations decide whether it stays new. */
    method EnsureOwnerSaved()
      requires Valid()
      modifies owner`isNew, ownerStore`records, ownerStore`nextId
      ensures Valid()
      ensures ownerStore.records == if old(owner.isNew) then Persist(old(ownerStore.records), old(owner.Snapshot()), ownerStore.accepts) else old(ownerStore.records)
      ensures owner.isNew == (old(owner.isNew) && !ownerStore.accepts(old(owner.Snapshot())))
    {
      if owner.isNew {
        var _ := ownerStore.Save(owner);
      }
    }

    /** `apply_scope`: the owner is saved when new, then the peer gets the owner's class name and identity. */
    method ApplyScope(doc: Doc) returns (r: Doc)
      requires Valid()
      modifies doc`attrs, owner`isNew, ownerStore`records, ownerStore`nextId
      ensures Valid()
      ensures r == doc && doc.attrs == Scope(old(doc.attrs), asName, owner.kind, owner.id)
      ensures ownerStore.records == if old(owner.isNew) then Persist(old(ownerStore.records), old(owner.Snapshot()), ownerStore.accepts) else old(ownerStore.records)
      ensures owner.isNew == (old(owner.isNew) && !ownerStore.accepts(old(owner.Snapshot())))
    {
      EnsureOwnerSaved();
      doc.attrs := doc.attrs[TypeKey() := Str(owner.kind)];
      doc.attrs := doc.attrs[IdKey() := Ref(owner.id)];
      r := doc;
    }

    /**
     * `build`: a new, unsaved peer from `attrs`. For a new owner it gets the type
     * key only, its id key left as `attrs` had it, and joins the queue; for a
     * persisted owner it is scoped at once and not queued. Nothing is saved.
     */
    method Build(attrs: Attrs) returns (doc: Doc)
      requires Valid()
      modifies this`pending, store`nextId, owner`isNew, ownerStore`records, ownerStore`nextId
      ensures Valid()
      ensures fresh(doc) && doc.isNew && doc.kind == peerKind
      ensures store.records == old(store.records)
      ensures ownerStore.records == old(ownerStore.records) && owner.isNew == old(owner.isNew)
      ensures old(owner.isNew) ==> doc.attrs == attrs[TypeKey() := Str(owner.kind)] && pending == old(pending) + [doc]
      ensures old(owner.isNew) ==> Get(doc.attrs, IdKey()) == Get(attrs, IdKey())
      ensures !old(owner.isNew) ==> doc.attrs == Scope(attrs, asName, owner.kind, owner.id) && pending == old(pending)
    {
      doc := store.New(peerKind, attrs);
      if owner.isNew {
        KeyNamesDistinct(asName, asName);
        doc.attrs := doc.attrs[TypeKey() := Str(owner.kind)];
        pending := pending + [doc];
      } else {
        doc := ApplyScope(doc);
      }
    }

    /**
     * One step of `assign_foreign_id_and_save_built_docs`: a queued peer that is
     * still new and has no id key is scoped (saving a new owner first) and saved;
     * any other peer is left as it is.
     */
    method FlushOne(doc: Doc, ghost r: Record, ghost flag: bool, ghost ownerRecord: Record)
      requires Valid() && doc != owner
      requires doc.Snapshot() == r && doc.isNew == flag && owner.Snapshot() == ownerRecord
      modifies doc`attrs, doc`isNew, owner`isNew, ownerStore`records, ownerStore`nextId, store`records, store`nextId
      ensures Valid()
      ensures doc.attrs == AfterFlush(r.attrs, flag, asName, owner.kind, owner.id)
      ensures !Selected(doc.attrs, doc.isNew, asName)
      ensures doc.isNew == (flag && !(Selected(r.attrs, flag, asName) && store.accepts(doc.Snapshot())))
      ensures store.records == SaveAll(old(store.records), FlushWrites(r, flag, asName, owner.kind, owner.id), store.accepts)
      ensures ownerStore.records == (if Selected(r.attrs, flag, asName) && old(owner.isNew) then Persist(old(ownerStore.records), ownerRecord, ownerStore.accepts) else old(ownerStore.records))
      ensures owner.isNew == (old(owner.isNew) && !(Selected(r.attrs, flag, asName) && ownerStore.accepts(ownerRecord)))
    {
      if doc.isNew && Get(doc.attrs, IdKey()) == Nil {
        var d := ApplyScope(doc);
        var _ := store.Save(d);
        assert [d.Snapshot()][..0] == [];
        assert Get(d.attrs, IdKey()) == Ref(owner.id);
      }
    }

    /**
     * Where the stores and the owner stand once `writes` have been flushed,
     * starting from `records0` and an owner (`ownerRecord`) whose collection held
     * `ownerRecords0` and whose `new?` flag was `ownerNew0`: the peers' collection
     * has had `writes` saved, and the owner has been saved once if anything was written.
     */
    ghost predicate Progress(writes: seq<Record>, records0: seq<Record>, ownerRecords0: seq<Record>, ownerNew0: bool, ownerRecord: Record)
      reads store`records, ownerStore`records, owner`isNew, owner`attrs
    {
      && owner.Snapshot() == ownerRecord
      && store.records == SaveAll(records0, writes, store.accepts)
      && ownerStore.records == (if ownerNew0 && writes != [] then Persist(ownerRecords0, ownerRecord, ownerStore.accepts) else ownerRecords0)
      && owner.isNew == (ownerNew0 && !(writes != [] && ownerStore.accepts(ownerRecord)))
    }

    /**
     * The queue `ds` part-way through the flush, against the records `before` and
     * the flags `flags` it started with: the first `i` documents are flushed and
     * left unselected, the rest are as they were.
     */
    ghost predicate Staged(ds: seq<Doc>, before: seq<Record>, flags: seq<bool>, i: nat)
      reads ds`attrs, ds`isNew
    {
      && |before| == |ds| && |flags| == |ds| && i <= |ds|
      && (forall k :: 0 <= k < |ds| ==> before[k].id == ds[k].id && before[k].kind == ds[k].kind)
      && (forall k :: 0 <= k < i ==>
            && ds[k].attrs == AfterFlush(before[k].attrs, flags[k], asName, owner.kind, owner.id)
            && ds[k].isNew == (flags[k] && !(Selected(before[k].attrs, flags[k], asName) && store.accepts(ds[k].Snapshot())))
            && !Selected(ds[k].attrs, ds[k].isNew, asName))
      && (forall k :: i <= k < |ds| ==> ds[k].attrs == before[k].attrs && ds[k].isNew == flags[k])
    }

    /** The `i`-th queued document flushed, the other queued documents untouched. */
    method FlushStaged(doc: Doc, i: nat, ghost before: seq<Record>, ghost flags: seq<bool>, ghost ownerRecord: Record)
      requires Valid() && i < |pending| && doc == pending[i] && Staged(pending, before, flags, i)
      requires owner.Snapshot() == ownerRecord
      modifies doc`attrs, doc`isNew, owner`isNew, ownerStore`records, ownerStore`nextId, store`records, store`nextId
      ensures Valid() && Staged(pending, before, flags, i + 1)
      ensures store.records == SaveAll(old(store.records), FlushWrites(before[i], flags[i], asName, owner.kind, owner.id), store.accepts)
      ensures ownerStore.records == (if Selected(before[i].attrs, flags[i], asName) && old(owner.isNew) then Persist(old(ownerStore.records), ownerRecord, ownerStore.accepts) else old(ownerStore.records))
      ensures owner.isNew == (old(owner.isNew) && !(Selected(before[i].attrs, flags[i], asName) && ownerStore.accepts(ownerRecord)))
    {
      FlushOne(doc, before[i], flags[i], ownerRecord);
      forall k | 0 <= k < |pending| && k != i
        ensures pending[k].attrs == old(pending[k].attrs) && pending[k].isNew == old(pending[k].isNew)
      {
        assert pending[k] != doc;
      }
    }

    /**
     * The `i`-th step of the flush, given what the earlier steps did: the queued
     * document is flushed, its writes follow the earlier ones, and the owner has
     * been saved once some write has happened.
     */
    method FlushAt(doc: Doc, i: nat, ghost before: seq<Record>, ghost flags: seq<bool>, ghost writes: seq<Record>,
                   ghost records0: seq<Record>, ghost ownerRecords0: seq<Record>, ghost ownerNew0: bool, ghost ownerRecord: Record)
        returns (ghost writes': seq<Record>)
      requires Valid() && i < |pending| && doc == pending[i] && Staged(pending, before, flags, i)
      requires writes == Flushed(before[..i], flags[..i], asName, owner.kind, owner.id)
      requires Progress(writes, records0, ownerRecords0, ownerNew0, ownerRecord)
      modifies doc`attrs, doc`isNew, owner`isNew, ownerStore`records, ownerStore`nextId, store`records, store`nextId
      ensures Valid() && Staged(pending, before, flags, i + 1)
      ensures writes' == Flushed(before[..i + 1], flags[..i + 1], asName, owner.kind, owner.id)
      ensures Progress(writes', records0, ownerRecords0, ownerNew0, ownerRecord)
    {
      FlushStaged(doc, i, before, flags, ownerRecord);
      FlushAdvance(records0, writes, before, flags, i, asName, owner.kind, owner.id, store.accepts);
      writes' := writes + FlushWrites(before[i], flags[i], asName, owner.kind, owner.id);
    }

    /**
     * `assign_foreign_id_and_save_built_docs`: each queued peer still new and
     * without an id key is scoped and saved, in queue order; the owner, when still
     * new, is saved before the first of them. Afterwards no queued peer is left to
     * flush. The queue itself is kept.
     */
    method AssignForeignIdAndSaveBuiltDocs()
      requires Valid()
      modifies pending`attrs, pending`isNew, owner`isNew, ownerStore`records, ownerStore`nextId, store`records, store`nextId
      ensures Valid()
      ensures var writes := Flushed(old(Snapshots(pending)), old(NewFlags(pending)), asName, owner.kind, owner.id);
        && store.records == SaveAll(old(store.records), writes, store.accepts)
        && ownerStore.records == (if old(owner.isNew) && writes != [] then Persist(old(ownerStore.records), old(owner.Snapshot()), ownerStore.accepts) else old(ownerStore.records))
        && owner.isNew == (old(owner.isNew) && !(writes != [] && ownerStore.accepts(old(owner.Snapshot()))))
      ensures forall i :: 0 <= i < |pending| ==> pending[i].attrs == AfterFlush(old(pending[i].attrs), old(pending[i].isNew), asName, owner.kind, owner.id)
      ensures forall i :: 0 <= i < |pending| ==>
        pending[i].isNew == (old(pending[i].isNew) && !(Selected(old(pending[i].attrs), old(pending[i].isNew), asName) && store.accepts(pending[i].Snapshot())))
      ensures forall d :: d in pending ==> !Selected(d.attrs, d.isNew, asName)
      ensures pending == [] ==> store.records == old(store.records) && ownerStore.records == old(ownerStore.records) && owner.isNew == old(owner.isNew)
    {
      ghost var before, flags := Snapshots(pending), NewFlags(pending);
      ghost var writes := FlushQueue(before, flags, owner.Snapshot());
    }

    /** The loop of the flush: every queued document in turn, from the first. */
    method FlushQueue(ghost before: seq<Record>, ghost flags: seq<bool>, ghost ownerRecord: Record) returns (ghost writes: seq<Record>)
      requires Valid() && Staged(pending, before, flags, 0) && owner.Snapshot() == ownerRecord
      modifies pending`attrs, pending`isNew, owner`isNew, ownerStore`records, ownerStore`nextId, store`records, store`nextId
      ensures Valid() && Staged(pending, before, flags, |pending|)
      ensures writes == Flushed(before, flags, asName, owner.kind, owner.id)
      ensures Progress(writes, old(store.records), old(ownerStore.records), old(owner.isNew), ownerRecord)
    {
      writes := [];
      for i := 0 to |pending|
        invariant Valid() && Staged(pending, before, flags, i)
        invariant writes == Flushed(before[..i], flags[..i], asName, owner.kind, owner.id)
        invariant Progress(writes, old(store.records), old(ownerStore.records), old(owner.isNew), ownerRecord)
      {
        writes := FlushAt(pending[i], i, before, flags, writes, old(store.records), old(ownerStore.records), old(owner.isNew), ownerRecord);
      }
      assert before[..|pending|] == before && flags[..|pending|] == flags;
    }
  }

  /** One more queued document flushed: the writes so far, then its own, saved after the earlier ones. */
  lemma FlushAdvance(rs: seq<Record>, writes: seq<Record>, before: seq<Record>, flags: seq<bool>, i: nat, asName: string, ownerKind: string, ownerId: Id, accepts: Record -> bool)
    requires |flags| == |before| && i < |before|
    requires writes == Flushed(before[..i], flags[..i], asName, ownerKind, ownerId)
    ensures writes + FlushWrites(before[i], flags[i], asName, ownerKind, ownerId) == Flushed(before[..i + 1], flags[..i + 1], asName, ownerKind, ownerId)
    ensures SaveAll(SaveAll(rs, writes, accepts), FlushWrites(before[i], flags[i], asName, ownerKind, ownerId), accepts)
      == SaveAll(rs, writes + FlushWrites(before[i], flags[i], asName, ownerKind, ownerId), accepts)
  {
    FlushStep(before, flags, i, asName, ownerKind, ownerId);
    SaveAllConcat(rs, writes, FlushWrites(before[i], flags[i], asName, ownerKind, ownerId), accepts);
  }

  /** The flush's writes grow by the scoped `i`-th record exactly when that one is selected. */
  lemma FlushStep(rs: seq<Record>, flags: seq<bool>, i: nat, asName: string, ownerKind: string, ownerId: Id)
    requires |flags| == |rs| && i < |rs|
    ensures Flushed(rs[..i + 1], flags[..i + 1], asName, ownerKind, ownerId) ==
      Flushed(rs[..i], flags[..i], asName, ownerKind, ownerId) + FlushWrites(rs[i], flags[i], asName, ownerKind, ownerId)
  {
    assert rs[..i + 1][..i] == rs[..i] && flags[..i + 1][..i] == flags[..i];
  }
}
