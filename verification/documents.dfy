/**
 * The document router of routes/documents.js, as pure functions from the
 * store, the requester's id (from the verified token) and the request's
 * arguments to a status code, a response body and the next store.
 *
 * The router's gate is the same on GET, PUT and DELETE of `/:id`: an id that
 * is not stored gives 404, whoever asks; then a requester other than the
 * owner gives 403 (the collaborators list is not consulted); only then does
 * the handler act. A failed schema validation on create or update gives 500
 * and leaves the store as it was.
 */
module DocumentRoutes {
  import opened DocumentModel

  /** A document's `_id`, compared as an opaque value. */
  type DocId = string

  /** The `Document` collection. */
  type Store = map<DocId, Document>

  const OK: nat := 200
  const CREATED: nat := 201
  const FORBIDDEN: nat := 403
  const NOT_FOUND: nat := 404
  const SERVER_ERROR: nat := 500

  /** A JSON response body: none (a message only), one document, or a list of them. */
  datatype Body = Message | One(doc: Document) | Many(docs: map<DocId, Document>)

  /** What a handler answers: the status, the body, and the store afterwards. */
  datatype Answer = Answer(status: nat, body: Body, store: Store)

  /** The collection's invariant: every stored document satisfies the schema. */
  ghost predicate WellFormed(store: Store) {
    forall id :: id in store ==> Valid(store[id])
  }

  /** The outcome of looking up `id` on behalf of `requester`. */
  datatype Access = Missing | Denied | Granted(doc: Document)

  /**
   * `findById`, then the ownership test: missing comes before denied, and
   * only the owner is granted access.
   */
  function Lookup(store: Store, requester: UserId, id: DocId): (a: Access)
    ensures a.Missing? <==> id !in store
    ensures a.Denied? <==> id in store && store[id].owner != requester
    ensures a.Granted? <==> id in store && store[id].owner == requester
    ensures a.Granted? ==> a.doc == store[id]
  {
    if id !in store then Missing
    else if store[id].owner != requester then Denied
    else Granted(store[id])
  }

  /** GET `/`: the documents the requester owns. */
  function ListDocuments(store: Store, requester: UserId): (r: Answer)
    ensures r.status == OK && r.store == store && r.body.Many?
    ensures forall id :: id in r.body.docs <==> id in store && store[id].owner == requester
    ensures forall id :: id in r.body.docs ==> r.body.docs[id] == store[id]
  {
    Answer(OK, Many(map id | id in store && store[id].owner == requester :: store[id]), store)
  }

  /** GET `/:id`: the document, for its owner only. */
  function GetDocument(store: Store, requester: UserId, id: DocId): (r: Answer)
    ensures r.store == store
    ensures r.status == NOT_FOUND <==> id !in store
    ensures r.status == FORBIDDEN <==> id in store && store[id].owner != requester
    ensures r.status == OK <==> id in store && store[id].owner == requester
    ensures r.status == OK ==> r.body == One(store[id])
  {
    match Lookup(store, requester, id)
    case Missing => Answer(NOT_FOUND, Message, store)
    case Denied => Answer(FORBIDDEN, Message, store)
    case Granted(doc) => Answer(OK, One(doc), store)
  }

  /**
   * POST `/`: creates a document owned by the requester from the body's
   * `title` and `content`, under the id the database assigns (`newId`).
   * A validation failure, or an id already taken (a duplicate-key error),
   * gives 500 with the store unchanged.
   */
  function CreateDocument(store: Store, requester: UserId, newId: DocId, title: Field<string>, content: Field<string>): (r: Answer)
    ensures r.status == CREATED <==> RequiredString(title) && newId !in store
    ensures r.status != CREATED ==> r.status == SERVER_ERROR && r.store == store && r.body == Message
    ensures r.status == CREATED ==>
      && r.store.Keys == store.Keys + {newId}
      && (forall id :: id in store ==> r.store[id] == store[id])
      && r.store[newId].title == title.value
      && r.store[newId].content == ValueOr(content, DefaultContent)
      && r.store[newId].owner == requester
      && r.store[newId].collaborators == []
      && r.body == One(r.store[newId])
  {
    match Build(Fields(title, content, Given(requester), Absent))
    case Rejected => Answer(SERVER_ERROR, Message, store)
    case Accepted(doc) =>
      if newId in store then Answer(SERVER_ERROR, Message, store)
      else Answer(CREATED, One(doc), store[newId := doc])
  }

  /**
   * PUT `/:id`: the owner replaces `title` and `content` with the body's
   * values and saves; an absent `content` is unset, so it reads back as the
   * schema default. The save re-validates the document.
   */
  function UpdateDocument(store: Store, requester: UserId, id: DocId, title: Field<string>, content: Field<string>): (r: Answer)
    ensures id !in store ==> r.status == NOT_FOUND && r.store == store
    ensures id in store && store[id].owner != requester ==> r.status == FORBIDDEN && r.store == store
    ensures id in store && store[id].owner == requester && !RequiredString(title) ==>
      r.status == SERVER_ERROR && r.store == store
    ensures id in store && store[id].owner == requester && RequiredString(title) ==>
      && r.status == OK
      && r.store.Keys == store.Keys
      && (forall k :: k in store && k != id ==> r.store[k] == store[k])
      && r.store[id].title == title.value
      && r.store[id].content == ValueOr(content, DefaultContent)
      && r.store[id].owner == store[id].owner
      && r.store[id].collaborators == store[id].collaborators
      && r.body == One(r.store[id])
  {
    match Lookup(store, requester, id)
    case Missing => Answer(NOT_FOUND, Message, store)
    case Denied => Answer(FORBIDDEN, Message, store)
    case Granted(doc) =>
      match Build(Fields(title, content, Given(doc.owner), Given(doc.collaborators)))
      case Rejected => Answer(SERVER_ERROR, Message, store)
      case Accepted(saved) => Answer(OK, One(saved), store[id := saved])
  }

  /** DELETE `/:id`: the owner removes the document. */
  function DeleteDocument(store: Store, requester: UserId, id: DocId): (r: Answer)
    ensures id !in store ==> r.status == NOT_FOUND && r.store == store
    ensures id in store && store[id].owner != requester ==> r.status == FORBIDDEN && r.store == store
    ensures id in store && store[id].owner == requester ==>
      && r.status == OK
      && r.store.Keys == store.Keys - {id}
      && (forall k :: k in r.store ==> r.store[k] == store[k])
  {
    match Lookup(store, requester, id)
    case Missing => Answer(NOT_FOUND, Message, store)
    case Denied => Answer(FORBIDDEN, Message, store)
    case Granted(_) => Answer(OK, Message, store - {id})
  }
}
