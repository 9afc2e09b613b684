/**
 * The finder and persistence collaborator the proxies delegate to
 * (`klass.all/first/last/count/find/paginate/create/delete_all`, `doc.save`,
 * `doc.destroy`), as an in-memory store: the records of one peer class in
 * natural (insertion) order, filtered by a condition map.
 */
module DocumentStore {
  import opened Wrappers
  import opened Documents

  /** A finder condition map: attribute name to wanted value. */
  type Conditions = map<string, Value>

  /** One condition, as the store evaluates it: the field equals the value, or is an array holding it. */
  predicate KeyMatches(field: Value, wanted: Value)
  {
    field == wanted || (field.Arr? && wanted in field.items)
  }

  predicate Matches(r: Record, c: Conditions)
  {
    forall k :: k in c ==> KeyMatches(Get(r.attrs, k), c[k])
  }

  /** A record meeting every condition of a larger map meets those of any sub-map. */
  lemma MatchesSubMap(r: Record, big: Conditions, small: Conditions)
    requires forall k :: k in small ==> k in big && big[k] == small[k]
    requires Matches(r, big)
    ensures Matches(r, small)
  {
  }

  /** No two stored records share an identity: no later record repeats the first one's, and so on. */
  predicate UniqueIds(rs: seq<Record>)
    decreases |rs|
  {
    rs == [] || ((forall x :: x in rs[1..] ==> x.id != rs[0].id) && UniqueIds(rs[1..]))
  }

  /** Unique identities, position by position. */
  lemma {:induction false} UniqueIdsPairwise(rs: seq<Record>)
    ensures UniqueIds(rs) <==> forall i, j :: 0 <= i < j < |rs| ==> rs[i].id != rs[j].id
    decreases |rs|
  {
    if rs != [] {
      UniqueIdsPairwise(rs[1..]);
      assert forall k :: 0 <= k < |rs| - 1 ==> rs[1..][k] == rs[k + 1];
      if forall i, j :: 0 <= i < j < |rs| ==> rs[i].id != rs[j].id {
        forall x | x in rs[1..] ensures x.id != rs[0].id {
          var k :| 0 <= k < |rs[1..]| && rs[1..][k] == x;
          assert rs[k + 1] == x;
        }
      }
      if UniqueIds(rs) {
        forall i, j | 0 <= i < j < |rs| ensures rs[i].id != rs[j].id {
          if i == 0 {
            assert rs[j] in rs[1..];
          } else {
            assert rs[1..][i - 1] == rs[i] && rs[1..][j - 1] == rs[j];
          }
        }
      }
    }
  }

  /** With unique identities, a record is determined by its identity. */
  lemma {:induction false} UniqueSameId(rs: seq<Record>, x: Record, y: Record)
    requires UniqueIds(rs) && x in rs && y in rs && x.id == y.id
    ensures x == y
    decreases |rs|
  {
    assert forall z :: z in rs ==> z == rs[0] || z in rs[1..];
    if x != rs[0] && y != rs[0] {
      UniqueSameId(rs[1..], x, y);
    }
  }

  /** The identities of a sequence of records. */
  function RecordIds(rs: seq<Record>): (r: seq<Id>)
    ensures |r| == |rs|
    ensures forall i :: 0 <= i < |rs| ==> r[i] == rs[i].id
  {
    if rs == [] then [] else RecordIds(rs[..|rs| - 1]) + [rs[|rs| - 1].id]
  }

  /** Documents whose snapshots are records of unique identities have distinct identities. */
  lemma SnapshotIds(ds: seq<Doc>, rs: seq<Record>)
    requires Snapshots(ds) == rs
    ensures DocIds(ds) == RecordIds(rs)
    ensures UniqueIds(rs) ==> DistinctIds(ds)
  {
    assert forall i :: 0 <= i < |ds| ==> ds[i].Snapshot() == rs[i];
    UniqueIdsPairwise(rs);
    DistinctIdsPairwise(ds);
  }

  predicate HasId(rs: seq<Record>, id: Id)
  {
    exists x :: x in rs && x.id == id
  }

  /** The records matching `c`, in store order. */
  function Where(rs: seq<Record>, c: Conditions): (r: seq<Record>)
    ensures forall x :: x in r <==> x in rs && Matches(x, c)
    ensures |r| <= |rs|
    ensures UniqueIds(rs) ==> UniqueIds(r)
  {
    if rs == [] then []
    else
      var rest := Where(rs[1..], c);
      if Matches(rs[0], c) then [rs[0]] + rest else rest
  }

  /** Nothing matches when no record does. */
  lemma WhereNone(rs: seq<Record>, c: Conditions)
    requires forall x :: x in rs ==> !Matches(x, c)
    ensures Where(rs, c) == []
  {
  }

  /** The records that do not match `c`, in store order (what `delete_all` leaves). */
  function Reject(rs: seq<Record>, c: Conditions): (r: seq<Record>)
    ensures forall x :: x in r <==> x in rs && !Matches(x, c)
  {
    if rs == [] then []
    else (if Matches(rs[0], c) then [] else [rs[0]]) + Reject(rs[1..], c)
  }

  /** The records whose identity is not in `ids`, in store order (what destroying those leaves). */
  function Without(rs: seq<Record>, ids: set<Id>): (r: seq<Record>)
    ensures forall x :: x in r <==> x in rs && x.id !in ids
  {
    if rs == [] then []
    else (if rs[0].id in ids then [] else [rs[0]]) + Without(rs[1..], ids)
  }

  lemma {:induction false} WithoutTwice(rs: seq<Record>, ids: set<Id>, more: set<Id>)
    ensures Without(Without(rs, ids), more) == Without(rs, ids + more)
  {
    if rs != [] {
      WithoutTwice(rs[1..], ids, more);
      var head := if rs[0].id in ids then [] else [rs[0]];
      assert Without(rs, ids) == head + Without(rs[1..], ids);
      if rs[0].id !in ids {
        assert Without(rs, ids)[1..] == Without(rs[1..], ids);
      } else {
        assert Without(rs, ids) == Without(rs[1..], ids);
      }
    }
  }

  lemma {:induction false} WithoutNone(rs: seq<Record>)
    ensures Without(rs, {}) == rs
  {
    if rs != [] {
      WithoutNone(rs[1..]);
      assert rs == [rs[0]] + rs[1..];
    }
  }

  function IdSet(rs: seq<Record>): (r: set<Id>)
    ensures forall id :: id in r <==> HasId(rs, id)
  {
    set x | x in rs :: x.id
  }

  /** With unique identities there are as many identities as records. */
  lemma {:induction false} IdSetSize(rs: seq<Record>)
    requires UniqueIds(rs)
    ensures |IdSet(rs)| == |rs|
  {
    if rs != [] {
      IdSetSize(rs[1..]);
      assert IdSet(rs) == {rs[0].id} + IdSet(rs[1..]) by {
        assert forall x :: x in rs <==> x == rs[0] || x in rs[1..];
      }
      assert rs[0].id !in IdSet(rs[1..]);
    }
  }

  /** One more record of a prefix adds its identity. */
  lemma IdSetPrefix(rs: seq<Record>, i: nat)
    requires i < |rs|
    ensures IdSet(rs[..i + 1]) == IdSet(rs[..i]) + {rs[i].id}
  {
    assert forall x :: x in rs[..i + 1] <==> x in rs[..i] || x == rs[i] by {
      assert rs[..i + 1] == rs[..i] + [rs[i]];
    }
  }

  /** With unique identities, a stored record's identity is among those of the matching records iff it matches. */
  lemma MatchedIdIff(x: Record, all: seq<Record>, c: Conditions)
    requires UniqueIds(all) && x in all
    ensures x.id in IdSet(Where(all, c)) <==> Matches(x, c)
  {
    if x.id in IdSet(Where(all, c)) {
      var y :| y in Where(all, c) && y.id == x.id;
      UniqueSameId(all, x, y);
    }
  }

  /** With unique identities, removing the identities of the matching records is rejecting them. */
  lemma {:induction false} WithoutMatchedIsReject(rs: seq<Record>, all: seq<Record>, c: Conditions)
    requires UniqueIds(all)
    requires forall x :: x in rs ==> x in all
    ensures Without(rs, IdSet(Where(all, c))) == Reject(rs, c)
  {
    if rs != [] {
      var ids := IdSet(Where(all, c));
      WithoutMatchedIsReject(rs[1..], all, c);
      MatchedIdIff(rs[0], all, c);
      assert Without(rs, ids) == (if rs[0].id in ids then [] else [rs[0]]) + Without(rs[1..], ids);
      assert Reject(rs, c) == (if Matches(rs[0], c) then [] else [rs[0]]) + Reject(rs[1..], c);
    }
  }

  function FirstOf(rs: seq<Record>): Option<Record>
  {
    if rs == [] then None else Some(rs[0])
  }

  function LastOf(rs: seq<Record>): Option<Record>
  {
    if rs == [] then None else Some(rs[|rs| - 1])
  }

  /** The records of the given identities that match `c`, in store order (`find(id1, id2, ...)`). */
  function WhereIds(rs: seq<Record>, ids: seq<Id>, c: Conditions): (r: seq<Record>)
    ensures forall x :: x in r <==> x in rs && x.id in ids && Matches(x, c)
  {
    if rs == [] then []
    else (if rs[0].id in ids && Matches(rs[0], c) then [rs[0]] else []) + WhereIds(rs[1..], ids, c)
  }

  /** `find(id)`: the record of that identity if it matches `c`, else nil. */
  function FindById(rs: seq<Record>, id: Id, c: Conditions): (r: Option<Record>)
    ensures r.Some? <==> exists x :: x in rs && x.id == id && Matches(x, c)
    ensures r.Some? ==> r.value in rs && r.value.id == id && Matches(r.value, c)
  {
    var found := WhereIds(rs, [id], c);
    assert forall x :: x in rs && x.id == id && Matches(x, c) ==> x in found by {
      assert id in [id];
    }
    assert found != [] ==> found[0] in found && found[0].id in [id];
    FirstOf(found)
  }

  /** One page of the records matching `c` (pages are numbered from 1). */
  datatype Page = Page(entries: seq<Record>, totalEntries: nat, totalPages: nat)

  /** The number of entries on the pages before `page`. */
  function PageStart(page: nat, perPage: nat): nat
    requires page >= 1
  {
    (page - 1) * perPage
  }

  function Paginate(rs: seq<Record>, c: Conditions, page: nat, perPage: nat): (p: Page)
    requires page >= 1 && perPage >= 1
    ensures p.totalEntries == |Where(rs, c)|
    ensures forall x :: x in p.entries ==> x in Where(rs, c)
    ensures |p.entries| <= perPage
  {
    var all := Where(rs, c);
    var start := PageStart(page, perPage);
    var lo := if start <= |all| then start else |all|;
    var hi := if lo + perPage <= |all| then lo + perPage else |all|;
    Page(all[lo..hi], |all|, (|all| + perPage - 1) / perPage)
  }

  /** Writing one record: it replaces the record of the same identity in place, or goes last. */
  function Upsert(rs: seq<Record>, r: Record): seq<Record>
  {
    if rs == [] then [r]
    else if rs[0].id == r.id then [r] + rs[1..]
    else [rs[0]] + Upsert(rs[1..], r)
  }

  /** After a write the record is stored, every record of another identity is kept and nothing else appears. */
  lemma {:induction false} UpsertContents(rs: seq<Record>, r: Record)
    ensures r in Upsert(rs, r)
    ensures forall x :: x in rs && x.id != r.id ==> x in Upsert(rs, r)
    ensures forall x :: x in Upsert(rs, r) ==> x == r || x in rs
  {
    if rs != [] && rs[0].id != r.id {
      UpsertContents(rs[1..], r);
      assert forall x :: x in rs ==> x == rs[0] || x in rs[1..];
    } else if rs != [] {
      assert forall x :: x in rs ==> x == rs[0] || x in rs[1..];
    }
  }

  /** A write keeps identities unique, the written record being the only one of its identity. */
  lemma {:induction false} UpsertUnique(rs: seq<Record>, r: Record)
    requires UniqueIds(rs)
    ensures UniqueIds(Upsert(rs, r))
    ensures forall x :: x in Upsert(rs, r) ==> x == r || x.id != r.id
  {
    UpsertContents(rs, r);
    if rs != [] {
      if rs[0].id != r.id {
        UpsertUnique(rs[1..], r);
        UpsertContents(rs[1..], r);
      } else {
        assert Upsert(rs, r)[1..] == rs[1..];
      }
    }
  }

  /** A write adds a record exactly when its identity is new, and no other identity. */
  lemma {:induction false} UpsertIds(rs: seq<Record>, r: Record)
    ensures |Upsert(rs, r)| == if HasId(rs, r.id) then |rs| else |rs| + 1
    ensures forall id :: HasId(Upsert(rs, r), id) <==> HasId(rs, id) || id == r.id
  {
    UpsertContents(rs, r);
    if rs != [] {
      assert forall x :: x in rs ==> x == rs[0] || x in rs[1..];
      if rs[0].id != r.id {
        UpsertIds(rs[1..], r);
        assert HasId(rs, r.id) <==> HasId(rs[1..], r.id);
      } else {
        assert HasId(rs, r.id);
      }
      forall id ensures HasId(Upsert(rs, r), id) <==> HasId(rs, id) || id == r.id {
        if HasId(rs, id) && id != r.id {
          var x :| x in rs && x.id == id;
          assert x in Upsert(rs, r);
        }
        if HasId(Upsert(rs, r), id) && id != r.id {
          var x :| x in Upsert(rs, r) && x.id == id;
          assert x in rs;
        }
      }
    }
  }

  /** `doc.save`: a record the validations reject is not written. */
  function Persist(rs: seq<Record>, r: Record, accepts: Record -> bool): seq<Record>
  {
    if accepts(r) then Upsert(rs, r) else rs
  }

  /** Saving the records of `s` one after the other. */
  function SaveAll(rs: seq<Record>, s: seq<Record>, accepts: Record -> bool): seq<Record>
    decreases |s|
  {
    if s == [] then rs else Persist(SaveAll(rs, s[..|s| - 1], accepts), s[|s| - 1], accepts)
  }

  /** The last record of `s` with that identity that the validations accept: the one a run of saves leaves. */
  function LastAccepted(s: seq<Record>, id: Id, accepts: Record -> bool): (r: Option<Record>)
    ensures r.Some? ==> r.value in s && r.value.id == id && accepts(r.value)
    ensures r.None? ==> forall x :: x in s && x.id == id ==> !accepts(x)
    decreases |s|
  {
    if s == [] then None
    else if s[|s| - 1].id == id && accepts(s[|s| - 1]) then Some(s[|s| - 1])
    else
      var r := LastAccepted(s[..|s| - 1], id, accepts);
      assert forall x :: x in s ==> x in s[..|s| - 1] || x == s[|s| - 1] by {
        assert s == s[..|s| - 1] + [s[|s| - 1]];
      }
      r
  }

  /** In a run of saves split in two, a record of the second part outlasts any of the first with its identity. */
  lemma {:induction false} LastAcceptedConcat(a: seq<Record>, b: seq<Record>, id: Id, accepts: Record -> bool)
    ensures LastAccepted(a + b, id, accepts) == if LastAccepted(b, id, accepts).Some? then LastAccepted(b, id, accepts) else LastAccepted(a, id, accepts)
    decreases |b|
  {
    if b == [] {
      assert a + b == a;
    } else {
      LastAcceptedConcat(a, b[..|b| - 1], id, accepts);
      assert (a + b)[..|a + b| - 1] == a + b[..|b| - 1];
      assert (a + b)[|a + b| - 1] == b[|b| - 1];
    }
  }

  lemma {:induction false} SaveAllConcat(rs: seq<Record>, a: seq<Record>, b: seq<Record>, accepts: Record -> bool)
    ensures SaveAll(SaveAll(rs, a, accepts), b, accepts) == SaveAll(rs, a + b, accepts)
    decreases |b|
  {
    if b != [] {
      SaveAllConcat(rs, a, b[..|b| - 1], accepts);
      assert (a + b)[..|a + b| - 1] == a + b[..|b| - 1];
      assert (a + b)[|a + b| - 1] == b[|b| - 1];
    } else {
      assert a + b == a;
    }
  }

  /**
   * What a run of saves leaves, identity by identity: a record of the result is the
   * last accepted record of `s` with its identity, or, when `s` has none, the record
   * that was already there; nothing that was there disappears.
   */
  lemma {:induction false} SaveAllEffect(rs: seq<Record>, s: seq<Record>, accepts: Record -> bool)
    requires UniqueIds(rs)
    ensures UniqueIds(SaveAll(rs, s, accepts))
    ensures forall x :: x in SaveAll(rs, s, accepts) ==>
      match LastAccepted(s, x.id, accepts)
      case Some(w) => x == w
      case None => x in rs
    ensures forall x :: x in rs && LastAccepted(s, x.id, accepts).None? ==> x in SaveAll(rs, s, accepts)
    ensures forall id :: LastAccepted(s, id, accepts).Some? ==> LastAccepted(s, id, accepts).value in SaveAll(rs, s, accepts)
    ensures forall id :: HasId(rs, id) ==> HasId(SaveAll(rs, s, accepts), id)
    decreases |s|
  {
    if s != [] {
      var init := s[..|s| - 1];
      var w := s[|s| - 1];
      SaveAllEffect(rs, init, accepts);
      var mid := SaveAll(rs, init, accepts);
      assert SaveAll(rs, s, accepts) == Persist(mid, w, accepts);
      UpsertUnique(mid, w);
      UpsertContents(mid, w);
      UpsertIds(mid, w);
      forall id ensures HasId(rs, id) ==> HasId(SaveAll(rs, s, accepts), id) {
        if HasId(rs, id) {
          assert HasId(mid, id);
        }
      }
    }
  }

  /** Saves of records that are all already stored leave the number of records as it was. */
  lemma {:induction false} SaveAllStoredKeepsSize(rs: seq<Record>, s: seq<Record>, accepts: Record -> bool)
    requires forall x :: x in s ==> HasId(rs, x.id)
    ensures |SaveAll(rs, s, accepts)| == |rs|
    ensures forall id :: HasId(SaveAll(rs, s, accepts), id) <==> HasId(rs, id)
    decreases |s|
  {
    if s != [] {
      var init := s[..|s| - 1];
      assert forall x :: x in init ==> x in s;
      SaveAllStoredKeepsSize(rs, init, accepts);
      UpsertIds(SaveAll(rs, init, accepts), s[|s| - 1]);
    }
  }

  /**
   * The store behind one peer class. `accepts` stands for the class's validations:
   * `save` writes a document only when they accept it. `nextId` is the supply of
   * fresh identities for documents built in memory.
   */
  class Store {
    var records: seq<Record>
    var nextId: Id
    const accepts: Record -> bool

    ghost predicate Valid()
      reads this`records, this`nextId
    {
      UniqueIds(records) && forall x :: x in records ==> x.id < nextId
    }

    constructor (accepts: Record -> bool)
      ensures Valid() && records == [] && this.accepts == accepts
    {
      records := [];
      nextId := 0;
      this.accepts := accepts;
    }

    /** `klass.new(attrs)`: an unsaved document with a fresh identity; nothing is written. */
    method New(kind: string, attrs: Attrs) returns (d: Doc)
      requires Valid()
      modifies this`nextId
      ensures Valid() && records == old(records)
      ensures fresh(d) && d.isNew && d.kind == kind && d.attrs == attrs
      ensures d.id == old(nextId) && nextId == old(nextId) + 1 && !HasId(records, d.id)
    {
      d := new Doc.New(nextId, kind, attrs);
      nextId := nextId + 1;
    }

    /** `doc.save`: writes the document's current state when the validations accept it. */
    method Save(d: Doc) returns (ok: bool)
      requires Valid()
      modifies this`records, this`nextId, d`isNew
      ensures Valid() && nextId >= old(nextId)
      ensures ok == accepts(d.Snapshot())
      ensures records == Persist(old(records), d.Snapshot(), accepts)
      ensures d.isNew == (old(d.isNew) && !ok)
    {
      ok := accepts(d.Snapshot());
      if ok {
        UpsertUnique(records, d.Snapshot());
        UpsertContents(records, d.Snapshot());
        records := Upsert(records, d.Snapshot());
        if nextId <= d.id {
          nextId := d.id + 1;
        }
        d.isNew := false;
      }
    }

    /** `klass.create(attrs)`: a new document, saved; returned unsaved when the validations reject it. */
    method Create(kind: string, attrs: Attrs) returns (d: Doc)
      requires Valid()
      modifies this`records, this`nextId
      ensures Valid()
      ensures fresh(d) && d.kind == kind && d.attrs == attrs && d.id == old(nextId)
      ensures !HasId(old(records), d.id)
      ensures d.isNew == !accepts(d.Snapshot())
      ensures records == Persist(old(records), d.Snapshot(), accepts)
    {
      d := New(kind, attrs);
      var _ := Save(d);
    }

    /** `klass.create!(attrs)`: as `Create`, but a rejected document is an error and nothing is written. */
    method CreateBang(kind: string, attrs: Attrs) returns (r: Result<Doc>)
      requires Valid()
      modifies this`records, this`nextId
      ensures Valid()
      ensures r.Failure? <==> !accepts(Record(old(nextId), kind, attrs))
      ensures r.Failure? ==> r.error == DocumentNotValid && records == old(records)
      ensures r.Ok? ==> fresh(r.value) && !r.value.isNew && r.value.Snapshot() == Record(old(nextId), kind, attrs)
      ensures r.Ok? ==> !HasId(old(records), r.value.id) && records == Upsert(old(records), r.value.Snapshot())
    {
      var d := New(kind, attrs);
      var ok := Save(d);
      if ok {
        r := Ok(d);
      } else {
        r := Failure(DocumentNotValid);
      }
    }

    /** `doc.destroy`: the record of that identity is removed. */
    method Destroy(id: Id)
      requires Valid()
      modifies this`records
      ensures Valid()
      ensures records == Without(old(records), {id})
    {
      records := Without(records, {id});
      assert Valid() by {
        WithoutUnique(old(records), {id});
      }
    }

    /** `klass.delete_all(conditions)`: every matching record is removed at once. */
    method DeleteAll(c: Conditions)
      requires Valid()
      modifies this`records
      ensures Valid()
      ensures records == Reject(old(records), c)
    {
      RejectUnique(records, c);
      records := Reject(records, c);
    }
  }

  lemma {:induction false} WithoutUnique(rs: seq<Record>, ids: set<Id>)
    requires UniqueIds(rs)
    ensures UniqueIds(Without(rs, ids))
  {
    if rs != [] {
      WithoutUnique(rs[1..], ids);
      var rest := Without(rs[1..], ids);
      if rs[0].id !in ids {
        assert Without(rs, ids) == [rs[0]] + rest;
        assert ([rs[0]] + rest)[1..] == rest;
      } else {
        assert Without(rs, ids) == rest;
      }
    }
  }

  lemma {:induction false} RejectUnique(rs: seq<Record>, c: Conditions)
    requires UniqueIds(rs)
    ensures UniqueIds(Reject(rs, c))
  {
    if rs != [] {
      RejectUnique(rs[1..], c);
      var rest := Reject(rs[1..], c);
      if !Matches(rs[0], c) {
        assert Reject(rs, c) == [rs[0]] + rest;
        assert ([rs[0]] + rest)[1..] == rest;
      } else {
        assert Reject(rs, c) == rest;
      }
    }
  }
}
