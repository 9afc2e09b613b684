# MongoMapper association proxies

This project models two association proxies of MongoMapper, an object mapper for MongoDB, and proves properties about them.

**`SourceArrayProxy`** is the owner side of a many-to-many relation. A `List` declared with `many :users, :source => :lists` has no array of its own. It reaches its users through each user's `list_ids` array, the `in_key`.

- Queries are wrapped in a relation filter, `{in_key => owner.id}`, that no caller option can lift.
- `<<` links a peer to the owner and caches it in the proxy's target. A peer already there is skipped.
- `create` and `create!` save a new owner first. The owner's identity then goes into the array of the created peer.
- `replace` only stages writes, in two pending lists. The owner's after-save hook saves them: the new list first, then the prior list.
- `nullify` takes the owner's identity out of every peer's array and saves each peer.

**`ManyDocumentsAsProxy`** is the polymorphic one-to-many relation `many :comments, :as => :commentable`. Each peer names its owner with two keys: `<as>_type` holds the owner's class name and `<as>_id` its identity.

- `build` on an owner that is still new sets only the type key and queues the peer.
- `assign_foreign_id_and_save_built_docs` later scopes and saves every queued peer that is still new and still has no id key.

The modules are:

- `Wrappers`: an `Option` type, a `Result` type and the two errors the proxies raise.
- `Documents`:
  - attribute values and records;
  - the in-memory document objects, class `Doc`, which several variables can alias;
  - Ruby's `Array#delete`, and the reciprocal association's append, on an array attribute.
- `DocumentStore`: the finder and persistence collaborator, as an in-memory store.
  - `Store` holds one collection's records in natural order and hands out fresh identities.
  - An `accepts` predicate stands for the class's validations.
  - Queries are condition maps. A condition on a key matches an equal value, or an array that holds that value, as MongoDB does.
  - Saving is an upsert by identity, and only when `accepts` holds. A run of saves is written `SaveAll`.
- `SourceArray`:
  - the class `SourceArrayProxy`, whose fields are the cache and the two pending lists;
  - the functions that specify its operations;
  - the lemmas about them.
- `ManyDocumentsAs`:
  - the class `ManyDocumentsAsProxy`, whose field is the queue of deferred peers;
  - the functions that specify the flush;
  - the lemmas about them.

The two proxies are `class`es, because the source updates their state in place. Their loops are `while` or `for` loops over the documents, with invariants. Each state-changing method states, through specification functions, the new records of every store it writes and the new values of the proxy fields it changes:

- `Appended`: what `<<` adds.
- `Nullified`: what `nullify` writes.
- `SaveAll`: what a run of saves leaves in the store.
- `Flushed` and `AfterFlush`: what the flush writes, and what each queued document becomes.
- `OwnerSaveEffect`: what saving a new owner leaves in the peers' collection.

Where a method changes documents, it also states their new `attrs` and `new?` flags, except in the cases listed under "Left out". The identity counter of a store (`nextId`) is stated only by `DocumentStore.Store.New`; elsewhere all that is kept is `Valid`, under which every stored identity lies below the counter. Lemmas state what the source promises about those functions.

Three behaviours of the code are easy to miss, and the model keeps them:

- `replace` does not install the new documents as the cached target. It keeps the replaced documents in the cache: `SourceArrayProxy.Replace` ensures that the target keeps its documents.
- The pending lists are never emptied after they are saved.
  - Each later save of the owner writes them again.
  - Each later flush visits the same queue.
- The flush picks a queued peer only when it is still new and its id key is still nil.

## Model

| member | source | states |
|---|---|---|
| Documents.DeleteContents | lib/mongo_mapper/plugins/associations/source_array_proxy.rb:126 | `Array#delete` removes every copy of the owner's identity and keeps every other element; an absent identity leaves the array unchanged |
| Documents.DeleteNoDups | lib/mongo_mapper/plugins/associations/source_array_proxy.rb:126 | deleting from an array without repeats leaves it without repeats |
| Documents.IncludeContents | lib/mongo_mapper/plugins/associations/source_array_proxy.rb:110 | the reciprocal `<< owner` adds the owner's identity at the end unless it is present, and keeps every element in place |
| Documents.IncludeNoDups | lib/mongo_mapper/plugins/associations/source_array_proxy.rb:110 | the reciprocal append never puts an identity in an array twice |
| Documents.LinkEffect | lib/mongo_mapper/plugins/associations/source_array_proxy.rb:110 | linking puts the owner's identity in the peer's array and changes no other attribute |
| Documents.LinkIdempotent | lib/mongo_mapper/plugins/associations/source_array_proxy.rb:134 | linking a peer twice is the same as linking it once, so a replacement list may repeat a document |
| Documents.UnlinkEffect | lib/mongo_mapper/plugins/associations/source_array_proxy.rb:125-126 | unlinking takes the owner's identity out of the peer's array and changes no other attribute |
| Documents.UnlinkIdempotent | lib/mongo_mapper/plugins/associations/source_array_proxy.rb:125-126 | the two deletes `replace` makes on one array leave what a single delete leaves |
| Documents.Doc.New | lib/mongo_mapper/plugins/associations/many_documents_as_proxy.rb:6 | `klass.new(attrs)` is a new document holding exactly `attrs` |
| Documents.Doc.Load | lib/mongo_mapper/plugins/associations/source_array_proxy.rb:161-163 | a document loaded from a stored record holds that record and is not new |
| Documents.DistinctIdsPairwise | lib/mongo_mapper/plugins/associations/source_array_proxy.rb:109 | no identity twice (`include?` compares by id), stated recursively, is the same as distinct identities at every pair of positions |
| DocumentStore.Where | lib/mongo_mapper/plugins/associations/source_array_proxy.rb:50 | a query returns exactly the stored records that meet its conditions, at most all of them, and keeps identities unique |
| DocumentStore.Reject | lib/mongo_mapper/plugins/associations/source_array_proxy.rb:71 | what `delete_all` leaves: exactly the stored records that do not meet its conditions |
| DocumentStore.Without | lib/mongo_mapper/plugins/associations/source_array_proxy.rb:66 | what destroying a set of identities leaves: exactly the stored records with other identities |
| DocumentStore.IdSetSize | lib/mongo_mapper/plugins/associations/source_array_proxy.rb:61-63 | with unique identities, a list of records has as many identities as records |
| DocumentStore.UniqueIdsPairwise | lib/mongo_mapper/plugins/associations/source_array_proxy.rb:79 | a collection with unique identities, stated recursively, has distinct identities at every pair of positions |
| DocumentStore.FindById | lib/mongo_mapper/plugins/associations/source_array_proxy.rb:30 | the finder on one id gives a record when, and only when, a stored record with that id meets the conditions, and then it gives that record |
| DocumentStore.WhereIds | lib/mongo_mapper/plugins/associations/source_array_proxy.rb:30 | the finder on several ids returns exactly the stored records with one of those ids that meet the conditions |
| DocumentStore.Paginate | lib/mongo_mapper/plugins/associations/source_array_proxy.rb:85 | a page counts every match, holds only matches and at most `per_page` of them |
| DocumentStore.UpsertContents | lib/mongo_mapper/plugins/associations/source_array_proxy.rb:79 | a save stores the record and keeps every record of another identity; nothing else appears |
| DocumentStore.UpsertUnique | lib/mongo_mapper/plugins/associations/source_array_proxy.rb:79 | a save keeps identities unique: the saved record replaces any record with its identity |
| DocumentStore.UpsertIds | lib/mongo_mapper/plugins/associations/source_array_proxy.rb:79 | a save adds a record only for an identity not stored yet; the identities are the old ones plus the saved one |
| DocumentStore.LastAccepted | lib/mongo_mapper/plugins/associations/source_array_proxy.rb:139-149 | the last write with an identity that the validations accept, or none when they accept no write with that identity |
| DocumentStore.LastAcceptedConcat | lib/mongo_mapper/plugins/associations/source_array_proxy.rb:12-15 | over two lists saved one after the other, the last accepted write comes from the second list when it has one |
| DocumentStore.SaveAllConcat | lib/mongo_mapper/plugins/associations/source_array_proxy.rb:12-15 | saving one list and then another is saving their concatenation |
| DocumentStore.SaveAllEffect | lib/mongo_mapper/plugins/associations/source_array_proxy.rb:139-149 | after a run of saves each identity holds its last accepted write, or its old record when no write was accepted; no record is lost and identities stay unique |
| DocumentStore.SaveAllStoredKeepsSize | lib/mongo_mapper/plugins/associations/source_array_proxy.rb:77-80 | saving only already stored identities neither adds nor drops a record |
| DocumentStore.WithoutMatchedIsReject | lib/mongo_mapper/plugins/associations/source_array_proxy.rb:66 | destroying, one by one, the identities a query found removes exactly the records that meet the query |
| DocumentStore.WhereNone | lib/mongo_mapper/plugins/associations/source_array_proxy.rb:62 | a query that no record meets returns nothing |
| DocumentStore.MatchesSubMap | lib/mongo_mapper/plugins/associations/source_array_proxy.rb:71 | a record that meets some conditions meets every subset of them |
| DocumentStore.WithoutTwice | lib/mongo_mapper/plugins/associations/source_array_proxy.rb:66 | two rounds of destroys are one round over the union of their identities |
| DocumentStore.UniqueSameId | lib/mongo_mapper/plugins/associations/source_array_proxy.rb:79 | in a collection with unique identities, two records with the same identity are the same record |
| DocumentStore.Store.New | lib/mongo_mapper/plugins/associations/many_documents_as_proxy.rb:6 | `klass.new(attrs)`: a new document with `attrs` and a fresh identity, nothing stored |
| DocumentStore.Store.Save | lib/mongo_mapper/plugins/associations/source_array_proxy.rb:79 | `doc.save` stores the document when its validations accept it and reports whether they did; a saved document is no longer new |
| DocumentStore.Store.Create | lib/mongo_mapper/plugins/associations/source_array_proxy.rb:92 | `klass.create(attrs)`: a new document with a fresh identity, saved when its validations accept it and left new otherwise |
| DocumentStore.Store.CreateBang | lib/mongo_mapper/plugins/associations/source_array_proxy.rb:101 | `klass.create!(attrs)`: `DocumentNotValid`, with nothing written, exactly when the validations reject the document; otherwise the saved document |
| DocumentStore.Store.Destroy | lib/mongo_mapper/plugins/associations/source_array_proxy.rb:66 | `doc.destroy` removes the record with that identity and no other |
| DocumentStore.Store.DeleteAll | lib/mongo_mapper/plugins/associations/source_array_proxy.rb:71 | `klass.delete_all(conditions)` removes exactly the records that meet the conditions |
| SourceArray.ScopedOptions | lib/mongo_mapper/plugins/associations/source_array_proxy.rb:157-159 | the association's finder options, overridden by the caller's, with the relation filter on `in_key` last, so that it always wins |
| SourceArray.ScopedConditions | lib/mongo_mapper/plugins/associations/source_array_proxy.rb:152-154 | `scoped_conditions` has the one key `in_key`, mapped to the owner's identity |
| SourceArray.ScopedConditionsMatch | lib/mongo_mapper/plugins/associations/source_array_proxy.rb:152-154 | a record meets `scoped_conditions` exactly when its value under `in_key` is, or holds, the owner's identity |
| SourceArray.WithOwnerId | lib/mongo_mapper/plugins/associations/source_array_proxy.rb:91 | appending `owner.id` to `attrs[in_key]`: the array under `in_key` is the old one, an unset key reading as empty, with the owner's identity appended; no other key changes |
| SourceArray.Appended | lib/mongo_mapper/plugins/associations/source_array_proxy.rb:108-113 | what `<<` adds is at most as long as its argument |
| SourceArray.ScopedQueryIsRelation | lib/mongo_mapper/plugins/associations/source_array_proxy.rb:152-159 | a scoped query selects exactly the stored peers whose array holds the owner's id and that meet the other conditions; no caller option lifts the filter |
| SourceArray.AppendedFrom | lib/mongo_mapper/plugins/associations/source_array_proxy.rb:108-113 | what `<<` adds comes from its argument and was not in the target |
| SourceArray.AppendedDistinct | lib/mongo_mapper/plugins/associations/source_array_proxy.rb:108-113 | what `<<` adds holds no identity twice, however often the argument repeats a document |
| SourceArray.AppendedCovers | lib/mongo_mapper/plugins/associations/source_array_proxy.rb:108-113 | after `<<` every document of the argument is in the target, by identity |
| SourceArray.AppendedFacts | lib/mongo_mapper/plugins/associations/source_array_proxy.rb:108-113 | the three facts above together |
| SourceArray.AppendedToTarget | lib/mongo_mapper/plugins/associations/source_array_proxy.rb:108-113 | a target without repeats stays without repeats after `<<`, and nothing `<<` adds was in it |
| SourceArray.AppendedNothingNew | lib/mongo_mapper/plugins/associations/source_array_proxy.rb:109 | an argument whose documents are all in the target already adds nothing |
| SourceArray.AppendIdempotent | lib/mongo_mapper/plugins/associations/source_array_proxy.rb:106-114 | pushing the same documents a second time adds nothing |
| SourceArray.Nullified | lib/mongo_mapper/plugins/associations/source_array_proxy.rb:77-80 | `nullify` writes one record per loaded peer, in order: the peer without the owner's identity in its array |
| SourceArray.LoadAll | lib/mongo_mapper/plugins/associations/source_array_proxy.rb:161-163 | one fresh, persisted document per found record, holding that record, in order |
| SourceArray.LinkEach | lib/mongo_mapper/plugins/associations/source_array_proxy.rb:108-113 | the documents `<<` adds are each linked to the owner once; every other document keeps its attributes |
| SourceArray.SaveEach | lib/mongo_mapper/plugins/associations/source_array_proxy.rb:140-142 | saving each document in order leaves the store as the run of their saves; each accepted document stops being new |
| SourceArray.LinkAll | lib/mongo_mapper/plugins/associations/source_array_proxy.rb:132-136 | each replacement document is linked to the owner, once however often it is listed |
| SourceArray.UnlinkAll | lib/mongo_mapper/plugins/associations/source_array_proxy.rb:123-128 | each document loses the owner's identity from its array, however often it is listed |
| SourceArray.DetachEach | lib/mongo_mapper/plugins/associations/source_array_proxy.rb:125-126 | the reciprocal delete and the direct delete together leave each array as one delete does |
| SourceArray.NullifyEach | lib/mongo_mapper/plugins/associations/source_array_proxy.rb:77-80 | the loop of `nullify`: each document loses the owner's identity from its array, is saved, and stays new only when its validations reject it; the store is left as the run of saves of `Nullified` |
| SourceArray.DestroyEach | lib/mongo_mapper/plugins/associations/source_array_proxy.rb:66 | destroying each found record removes exactly the found identities |
| SourceArray.CreatedInRelation | lib/mongo_mapper/plugins/associations/source_array_proxy.rb:91-92 | a peer `create` stores is found by the relation |
| SourceArray.WithOwnerIdJoins | lib/mongo_mapper/plugins/associations/source_array_proxy.rb:91 | a document created with the attributes `create` passes on is in the relation |
| SourceArray.NullifiedFacts | lib/mongo_mapper/plugins/associations/source_array_proxy.rb:77-80 | every record `nullify` writes is out of the relation, and every loaded peer gets one |
| SourceArray.NullifyClearsRelation | lib/mongo_mapper/plugins/associations/source_array_proxy.rb:75-82 | when nothing was cached, so the target is loaded fresh from the relation, and the validations accept every write of `nullify`, no stored peer is in the relation any more. For a cached target, `SourceArray.SourceArrayProxy.NullifyTarget` states the store as the saves of `Nullified`; by `DocumentStore.SaveAllEffect`, each cached identity whose write is accepted then holds that write, without the owner's identity. A stored peer outside the cache keeps its record |
| SourceArray.NullifyKeepsPeers | lib/mongo_mapper/plugins/associations/source_array_proxy.rb:75-82 | when nothing was cached, `nullify` removes no peer: the store keeps its size and its identities. For a cached target of stored peers the same follows from `DocumentStore.SaveAllStoredKeepsSize` |
| SourceArray.HookOrder | lib/mongo_mapper/plugins/associations/source_array_proxy.rb:12-15 | after the hook each identity holds its last accepted prior-list write if there is one, else its last accepted new-list write, else its stored record |
| SourceArray.LinkedMatches | lib/mongo_mapper/plugins/associations/source_array_proxy.rb:125-134 | a linked peer is in the relation and an unlinked one is not |
| SourceArray.ReplaceThenSave | lib/mongo_mapper/plugins/associations/source_array_proxy.rb:118-149 | after `replace` and the owner's save, an identity is in the relation exactly when its deciding write matches the relation filter. The deciding write is the last accepted prior-list write, else the last accepted new-list write; with neither, the identity keeps its stored membership. No condition is put on the lists, so a replacement that was already cached, and so is on both lists, is covered too |
| SourceArray.SourceArrayProxy.constructor | lib/mongo_mapper/plugins/associations/source_array_proxy.rb:165-167 | a proxy with nothing loaded and nothing pending, whose `in_key` is the `:in` option of the peer class's `:source` association |
| SourceArray.SourceArrayProxy.All | lib/mongo_mapper/plugins/associations/source_array_proxy.rb:49-51 | `all` returns exactly the stored peers in the relation that meet the options |
| SourceArray.SourceArrayProxy.FindTarget | lib/mongo_mapper/plugins/associations/source_array_proxy.rb:161-163 | `find_target` returns exactly the stored peers whose array holds the owner's identity |
| SourceArray.SourceArrayProxy.First | lib/mongo_mapper/plugins/associations/source_array_proxy.rb:53-55 | `first` gives a peer exactly when `all` finds one, and then it is the first record `all` returns, in the relation |
| SourceArray.SourceArrayProxy.Last | lib/mongo_mapper/plugins/associations/source_array_proxy.rb:57-59 | `last` gives a peer exactly when `all` finds one, and then it is the last record `all` returns, in the relation |
| SourceArray.SourceArrayProxy.Count | lib/mongo_mapper/plugins/associations/source_array_proxy.rb:61-63 | `count` is the number of records `all` returns, which with unique identities is the number of their distinct identities; it is at most the size of the collection and zero exactly when no record meets the scoped options |
| SourceArray.SourceArrayProxy.Paginate | lib/mongo_mapper/plugins/associations/source_array_proxy.rb:84-86 | a page of the relation counts all of `all` and holds only peers `all` finds |
| SourceArray.SourceArrayProxy.Find | lib/mongo_mapper/plugins/associations/source_array_proxy.rb:19-32 | `:first`, `:last` and `:all` give what `first`, `last` and `all` give; an id gives a peer exactly when the relation holds one with that id; several ids give exactly the relation's peers with those ids, so ids outside the relation are dropped |
| SourceArray.SourceArrayProxy.FindBang | lib/mongo_mapper/plugins/associations/source_array_proxy.rb:34-47 | as `find`, but `DocumentNotFound` exactly when an id is not found in the relation; the symbols never raise |
| SourceArray.SourceArrayProxy.LoadTarget | lib/mongo_mapper/plugins/associations/source_array_proxy.rb:161-163 | a loaded cache is kept; otherwise the cache becomes fresh documents of the relation's records |
| SourceArray.SourceArrayProxy.LoadFresh | lib/mongo_mapper/plugins/associations/source_array_proxy.rb:161-163 | the cache becomes fresh, persisted documents holding the records `find_target` returns |
| SourceArray.SourceArrayProxy.Push | lib/mongo_mapper/plugins/associations/source_array_proxy.rb:106-114 | the target is loaded and grows by exactly `Appended`, in order; each added document is linked to the owner, and every other document keeps its attributes |
| SourceArray.SourceArrayProxy.AppendLoaded | lib/mongo_mapper/plugins/associations/source_array_proxy.rb:108-113 | the loop of `<<` over a loaded target: the target grows by `Appended` and only the added documents are linked |
| SourceArray.SourceArrayProxy.Reset | lib/mongo_mapper/plugins/associations/source_array_proxy.rb:67 | `reset` drops the cache |
| SourceArray.SourceArrayProxy.DestroyAll | lib/mongo_mapper/plugins/associations/source_array_proxy.rb:65-68 | the store loses exactly the peers the scoped `all` finds, so `count` becomes zero; peers outside the relation stay; the cache is reset |
| SourceArray.SourceArrayProxy.DeleteAll | lib/mongo_mapper/plugins/associations/source_array_proxy.rb:70-73 | the store loses exactly the peers meeting the options and the relation filter, so `count` becomes zero; peers outside the relation stay; the cache is reset |
| SourceArray.SourceArrayProxy.Nullify | lib/mongo_mapper/plugins/associations/source_array_proxy.rb:75-82 | the store is left as the saves of `Nullified` over the loaded peers; each document that was cached loses the owner's identity from its array; the cache is reset |
| SourceArray.SourceArrayProxy.NullifyTarget | lib/mongo_mapper/plugins/associations/source_array_proxy.rb:76-80 | the target is loaded, then each cached document loses the owner's identity, is saved, and stays new only when its validations reject it; the store is left as the saves of `Nullified` |
| SourceArray.SourceArrayProxy.Replace | lib/mongo_mapper/plugins/associations/source_array_proxy.rb:118-137 | every cached peer loses the owner's identity and goes on the prior list; every replacement gets the owner and goes on the new list; the cache keeps its documents; nothing is saved |
| SourceArray.SourceArrayProxy.ReplaceLoaded | lib/mongo_mapper/plugins/associations/source_array_proxy.rb:122-136 | `replace` over a loaded target, position by position |
| SourceArray.SourceArrayProxy.DetachTarget | lib/mongo_mapper/plugins/associations/source_array_proxy.rb:122-128 | each cached document loses the owner's identity and the prior list grows by the cache |
| SourceArray.SourceArrayProxy.AttachAll | lib/mongo_mapper/plugins/associations/source_array_proxy.rb:131-136 | each replacement document gets the owner and the new list grows by the replacements |
| SourceArray.SourceArrayProxy.SaveReferencingDocs | lib/mongo_mapper/plugins/associations/source_array_proxy.rb:139-143 | the store is left as the saves of the new list, in order; a document of the new list stays new only when its validations reject it, and the prior list's flags are untouched; nothing happens when the list was never made |
| SourceArray.SourceArrayProxy.SavePriorReferencingDocs | lib/mongo_mapper/plugins/associations/source_array_proxy.rb:145-149 | the store is left as the saves of the prior list, in order; a document of the prior list stays new only when its validations reject it, and the new list's flags are untouched; nothing happens when the list was never made |
| SourceArray.SourceArrayProxy.AfterSave | lib/mongo_mapper/plugins/associations/source_array_proxy.rb:12-15 | the hook saves the new list, then the prior list; each pending document stays new only when its validations reject it |
| SourceArray.SourceArrayProxy.SaveOwner | lib/mongo_mapper/plugins/associations/source_array_proxy.rb:10 | the owner is saved when its validations accept it, and the hook runs exactly then; the owner stays new only when rejected, and each other pending document stays new unless the hook ran and saved it |
| SourceArray.SourceArrayProxy.SaveOwnerIfNew | lib/mongo_mapper/plugins/associations/source_array_proxy.rb:90 | only a new owner is saved, and its hook runs when it is accepted; the owner stays new only when rejected, the pending documents' flags follow the hook, and the cache is untouched |
| SourceArray.SourceArrayProxy.CreateInTarget | lib/mongo_mapper/plugins/associations/source_array_proxy.rb:91-93 | the peer is created with the owner's identity last in its array, and joins the target unless its identity is there |
| SourceArray.SourceArrayProxy.CreateBangInTarget | lib/mongo_mapper/plugins/associations/source_array_proxy.rb:100-102 | as above, for `create!`: the result is `DocumentNotValid` exactly when the validations reject the peer; a rejected peer is not written and joins nothing; an accepted one has the next identity |
| SourceArray.SourceArrayProxy.LoadAndSaveOwner | lib/mongo_mapper/plugins/associations/source_array_proxy.rb:89-90 | the target is loaded, then a new owner is saved with its hook; the owner stays new only when rejected, and the pending documents' flags follow the hook |
| SourceArray.SourceArrayProxy.Create | lib/mongo_mapper/plugins/associations/source_array_proxy.rb:88-95 | `create`: owner saved first when new, and no longer new once accepted; then the peer created with the owner's identity in its array, new exactly when rejected, and cached unless already there |
| SourceArray.SourceArrayProxy.CreateBang | lib/mongo_mapper/plugins/associations/source_array_proxy.rb:97-104 | `create!`: as `create`, except that the result is `DocumentNotValid` exactly when the validations reject the peer with the identity it was given; a rejected peer is not written and is not cached; that identity was not stored before |
| ManyDocumentsAs.KeyNamesDistinct | lib/mongo_mapper/plugins/associations/many_documents_as_proxy.rb:35-41 | a type key never coincides with an id key |
| ManyDocumentsAs.KeyNamesInjective | lib/mongo_mapper/plugins/associations/many_documents_as_proxy.rb:35-41 | different `:as` names give different type keys and different id keys |
| ManyDocumentsAs.TypeKeyName | lib/mongo_mapper/plugins/associations/many_documents_as_proxy.rb:35-37 | `type_key_name` is the `:as` name followed by `_type` |
| ManyDocumentsAs.IdKeyName | lib/mongo_mapper/plugins/associations/many_documents_as_proxy.rb:39-41 | `id_key_name` is the `:as` name followed by `_id` |
| ManyDocumentsAs.ScopedConditions | lib/mongo_mapper/plugins/associations/many_documents_as_proxy.rb:23-25 | `scoped_conditions` has exactly the type key, mapped to the owner's class name, and the id key, mapped to the owner's identity |
| ManyDocumentsAs.Scope | lib/mongo_mapper/plugins/associations/many_documents_as_proxy.rb:29-30 | after `apply_scope` the type key holds the owner's class name and the id key its identity; every other key is as before |
| ManyDocumentsAs.Selected | lib/mongo_mapper/plugins/associations/many_documents_as_proxy.rb:18 | the flush's test holds exactly for a document that is still new and whose id key is unset or nil |
| ManyDocumentsAs.AfterFlush | lib/mongo_mapper/plugins/associations/many_documents_as_proxy.rb:18 | a selected queued document ends with the owner's class name and identity under the two keys; any other keeps its attributes |
| ManyDocumentsAs.ScopeMatches | lib/mongo_mapper/plugins/associations/many_documents_as_proxy.rb:23-32 | a peer `apply_scope` has scoped meets the scoped conditions of exactly the owner it was scoped to |
| ManyDocumentsAs.FlushedFacts | lib/mongo_mapper/plugins/associations/many_documents_as_proxy.rb:16-20 | the flush writes each selected queued peer scoped, writes nothing else, and every write is in the owner's relation; a queue with nothing selected writes nothing |
| ManyDocumentsAs.DeferredPeerIsFlushed | lib/mongo_mapper/plugins/associations/many_documents_as_proxy.rb:7-18 | a peer built on a new owner without an id key is selected by the flush and ends up exactly as `build` on a persisted owner scopes it, in the owner's relation |
| ManyDocumentsAs.FlushSkips | lib/mongo_mapper/plugins/associations/many_documents_as_proxy.rb:18 | a queued peer that is no longer new, or has an id key, is neither changed nor written |
| ManyDocumentsAs.ManyDocumentsAsProxy.constructor | lib/mongo_mapper/plugins/associations/many_documents_as_proxy.rb:17 | a proxy with an empty queue |
| ManyDocumentsAs.ManyDocumentsAsProxy.EnsureOwnerSaved | lib/mongo_mapper/plugins/associations/many_documents_as_proxy.rb:28 | only a new owner is saved, and it stays new when its validations reject it |
| ManyDocumentsAs.ManyDocumentsAsProxy.ApplyScope | lib/mongo_mapper/plugins/associations/many_documents_as_proxy.rb:27-32 | the owner is saved when new, then the peer gets the owner's class name under the type key and its identity under the id key |
| ManyDocumentsAs.ManyDocumentsAsProxy.Build | lib/mongo_mapper/plugins/associations/many_documents_as_proxy.rb:5-14 | a fresh, new peer that is never saved; on a new owner it gets the type key only, keeps its id key and is queued; on a persisted owner it is scoped and not queued |
| ManyDocumentsAs.ManyDocumentsAsProxy.FlushOne | lib/mongo_mapper/plugins/associations/many_documents_as_proxy.rb:18 | a selected peer is scoped and saved, a new owner being saved first; any other peer is left as it is |
| ManyDocumentsAs.ManyDocumentsAsProxy.AssignForeignIdAndSaveBuiltDocs | lib/mongo_mapper/plugins/associations/many_documents_as_proxy.rb:16-20 | the store is left as the saves of `Flushed`, in queue order; a new owner is saved once if anything is written; each queued peer is as `AfterFlush` says; none is left to flush; an empty queue changes nothing |
| ManyDocumentsAs.ManyDocumentsAsProxy.FlushQueue | lib/mongo_mapper/plugins/associations/many_documents_as_proxy.rb:17-19 | the loop of the flush over the queue, from the first document |

## Left out

- Nil lists: the two pending lists of `SourceArrayProxy` and the queue of `ManyDocumentsAsProxy` are nil until first used. The code treats nil as an empty list that nothing is saved from, so the model starts them empty.
- The parent classes of the two proxies are not part of this model. That covers `load_target`, `reset`, `flatten_deeper`, `ensure_owner_saved` and `Collection`.
  - `load_target` is modelled as "when nothing is cached, load the peers `find_target` returns".
  - `reset` drops the cache.
  - `ensure_owner_saved` saves a new owner without running its hooks.
  - `flatten_deeper` is not modelled: `<<` takes a flat sequence of documents.
- The reciprocal in-array association (`doc.send(options[:source])`) is not part of this model. Its `<< owner` is modelled as what it does to the peer's array: the owner's identity is appended unless present. Its `delete(owner)` removes every copy of that identity.
- `in_key`: the lookup through the peer class's associations is taken once, when the proxy is built. A missing `:source` association is excluded by the constructor's precondition; the code would fail there.
- The finder engine is abstract: conditions are equality or array membership, and results come in the collection's natural order. `:order`, other query operators, page arithmetic and dynamic finders (`find_by_*`, `find_or_create_by_*`) are left out.
- Validations are an abstract predicate `accepts` on the record being written. Persistence to MongoDB, `reload` and callbacks other than the proxy's after-save hook are left out.
- The metaprogrammed after-save hook becomes the method `SourceArrayProxy.AfterSave`, which `SourceArrayProxy.SaveOwner` calls when the owner is accepted.
- SourceArray.SourceArrayProxy.Nullify: `nullify(options)` ignores its options, as the code does, so the model has no parameter for them.
- SourceArray.SourceArrayProxy.Nullify: does not restate the `new?` flags of the documents it saves. `SourceArray.SourceArrayProxy.NullifyTarget`, which runs every step of `nullify` before the reset, states them, and the reset changes no document.
- SourceArray.SourceArrayProxy.Create: does not restate the `new?` flags of the documents on the pending lists. `SourceArray.SourceArrayProxy.LoadAndSaveOwner`, which runs first, states them, and the later steps change no flag of those documents.
- SourceArray.SourceArrayProxy.CreateBang: does not restate the pending documents' `new?` flags either, for the same reason.
- SourceArray.SourceArrayProxy.constructor: requires the owner's collection and the peers' collection to be two distinct stores. A `:source` association between documents of one class, where the owner's save and the peers' saves would go to one collection, is left out.
- SourceArray.SourceArrayProxy.Create: takes the caller's attributes by value. `(attrs[in_key] ||= []) << owner.id` also writes into the caller's hash and appends to the caller's array in place. That is not captured, so a hash or array reused by the caller does not carry the owner's identity forward.
- SourceArray.SourceArrayProxy.CreateBang: takes the caller's attributes by value in the same way, so the in-place update of the caller's hash and array by `create!` is not captured either.
- SourceArray.WithOwnerId: reads a value under `in_key` that is set but is neither nil nor an array as an empty array, so the model starts a new array holding only the owner's identity. The code's `<<` would act on that value itself, or raise.
- Documents.Unlink: reads a value under `in_key` that is unset, nil or not an array as an empty array, and writes an empty array back. The code's `doc[in_key].delete(owner.id)` raises on nil, and acts on any other value itself.
- Documents.Link: reads a value that is not an array as an empty array in the same way. The reciprocal association's `<<` is not part of this model, so its behaviour on such a value is not captured.
- ManyDocumentsAs.Flushed: its properties are stated by the lemma `ManyDocumentsAs.FlushedFacts`, not by an `ensures` of its own.
- SourceArray.SourceArrayProxy.DeleteAll: uses the caller's options and the relation filter without the association's finder options, as `delete_all` does. So it can remove peers that `all` would not show.
- ManyDocumentsAs: the owner's collection and the peers' collection are assumed to be distinct stores. A polymorphic association on documents of its own class is left out.
- The order between writes to the owner's collection and writes to the peers' collection is not modelled. Each store records only its own sequence of writes.
- Concurrency: none is modelled. Two proxies on the same owner are not modelled either.
