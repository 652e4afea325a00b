/**
 * Properties of the document router: the 404-before-403 gate, that only the
 * owner is let through, and how the handlers compose (create then get,
 * create then delete, update then get, ...).
 */
module DocumentRouteLemmas {
  import opened DocumentModel
  import opened DocumentRoutes

  /** A missing id is 404 for everyone, on every `/:id` route, and changes nothing. */
  lemma MissingIsNotFound(store: Store, requester: UserId, id: DocId, title: Field<string>, content: Field<string>)
    requires id !in store
    ensures GetDocument(store, requester, id) == Answer(NOT_FOUND, Message, store)
    ensures UpdateDocument(store, requester, id, title, content) == Answer(NOT_FOUND, Message, store)
    ensures DeleteDocument(store, requester, id) == Answer(NOT_FOUND, Message, store)
  {
  }

  /**
   * Only the owner gets through: anyone else, collaborators included, gets
   * 403 on every `/:id` route and the store is unchanged.
   */
  lemma NonOwnerIsForbidden(store: Store, requester: UserId, id: DocId, title: Field<string>, content: Field<string>)
    requires id in store && store[id].owner != requester
    ensures GetDocument(store, requester, id) == Answer(FORBIDDEN, Message, store)
    ensures UpdateDocument(store, requester, id, title, content) == Answer(FORBIDDEN, Message, store)
    ensures DeleteDocument(store, requester, id) == Answer(FORBIDDEN, Message, store)
  {
  }

  /**
   * The collaborators list is never consulted: a document with any other
   * list gets the same status from every `/:id` route.
   */
  lemma CollaboratorsGrantNothing(store: Store, requester: UserId, id: DocId, cs: seq<UserId>, title: Field<string>, content: Field<string>)
    requires id in store
    ensures var other := store[id := store[id].(collaborators := cs)];
      && GetDocument(other, requester, id).status == GetDocument(store, requester, id).status
      && UpdateDocument(other, requester, id, title, content).status == UpdateDocument(store, requester, id, title, content).status
      && DeleteDocument(other, requester, id).status == DeleteDocument(store, requester, id).status
  {
  }

  /** Every handler keeps every stored document valid under the schema. */
  lemma HandlersPreserveWellFormed(store: Store, requester: UserId, id: DocId, title: Field<string>, content: Field<string>)
    requires WellFormed(store)
    ensures WellFormed(CreateDocument(store, requester, id, title, content).store)
    ensures WellFormed(UpdateDocument(store, requester, id, title, content).store)
    ensures WellFormed(DeleteDocument(store, requester, id).store)
  {
  }

  /** No handler changes the owner of a document that survives it. */
  lemma OwnershipIsPermanent(store: Store, requester: UserId, id: DocId, title: Field<string>, content: Field<string>)
    ensures forall k :: k in store ==> CreateDocument(store, requester, id, title, content).store[k].owner == store[k].owner
    ensures forall k :: k in store ==> UpdateDocument(store, requester, id, title, content).store[k].owner == store[k].owner
    ensures forall k :: k in DeleteDocument(store, requester, id).store ==> DeleteDocument(store, requester, id).store[k].owner == store[k].owner
  {
  }

  /** Only the owner changes the store through an `/:id` route. */
  lemma OnlyOwnerMutates(store: Store, requester: UserId, id: DocId, title: Field<string>, content: Field<string>)
    ensures UpdateDocument(store, requester, id, title, content).store != store ==> id in store && store[id].owner == requester
    ensures DeleteDocument(store, requester, id).store != store ==> id in store && store[id].owner == requester
  {
  }

  /** A created document can be read back by its creator, exactly as created. */
  lemma CreateThenGet(store: Store, requester: UserId, newId: DocId, title: Field<string>, content: Field<string>)
    requires CreateDocument(store, requester, newId, title, content).status == CREATED
    ensures var created := CreateDocument(store, requester, newId, title, content);
      GetDocument(created.store, requester, newId) == Answer(OK, created.body, created.store)
  {
  }

  /** Deleting a document just created by the same user restores the store. */
  lemma CreateThenDelete(store: Store, requester: UserId, newId: DocId, title: Field<string>, content: Field<string>)
    requires CreateDocument(store, requester, newId, title, content).status == CREATED
    ensures DeleteDocument(CreateDocument(store, requester, newId, title, content).store, requester, newId).store == store
  {
  }

  /** A creation shows up in its creator's list, and in nobody else's. */
  lemma CreateThenList(store: Store, requester: UserId, other: UserId, newId: DocId, title: Field<string>, content: Field<string>)
    requires CreateDocument(store, requester, newId, title, content).status == CREATED
    requires other != requester
    ensures var created := CreateDocument(store, requester, newId, title, content);
      && ListDocuments(created.store, requester).body.docs == ListDocuments(store, requester).body.docs[newId := created.body.doc]
      && ListDocuments(created.store, other).body.docs == ListDocuments(store, other).body.docs
  {
  }

  /** After a successful update, reading the document returns the new title and content. */
  lemma UpdateThenGet(store: Store, requester: UserId, id: DocId, title: Field<string>, content: Field<string>)
    requires UpdateDocument(store, requester, id, title, content).status == OK
    ensures var got := GetDocument(UpdateDocument(store, requester, id, title, content).store, requester, id);
      && got.status == OK
      && got.body.doc == Document(title.value, ValueOr(content, DefaultContent), store[id].owner, store[id].collaborators)
  {
  }

  /** Updating twice with the same values is updating once. */
  lemma UpdateIdempotent(store: Store, requester: UserId, id: DocId, title: Field<string>, content: Field<string>)
    ensures var once := UpdateDocument(store, requester, id, title, content);
      UpdateDocument(once.store, requester, id, title, content) == once
  {
  }

  /** A deleted document is gone for everyone. */
  lemma DeleteThenGet(store: Store, requester: UserId, anyone: UserId, id: DocId)
    ensures GetDocument(DeleteDocument(store, requester, id).store, anyone, id).status ==
      (if id in store && store[id].owner != requester then (if store[id].owner == anyone then OK else FORBIDDEN) else NOT_FOUND)
  {
  }
}
