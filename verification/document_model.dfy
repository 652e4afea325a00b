/**
 * The `Document` schema of models/Document.js: the stored record and the
 * schema's validation and defaults, applied when a document is created or
 * saved.
 */
module DocumentModel {
  /** A user id (a Mongo ObjectId), compared as an opaque value. */
  type UserId = string

  /**
   * A stored document. `owner` is required by the schema, so every stored
   * document has one; `collaborators` is a list of user ids.
   */
  datatype Document = Document(title: string, content: string, owner: UserId, collaborators: seq<UserId>)

  /** A request value for one schema path: left out of the request, or given. */
  datatype Field<T> = Absent | Given(value: T)

  /** The value a path takes: the given one, or the path's default when it is absent. */
  function ValueOr<T>(f: Field<T>, default: T): T {
    if f.Given? then f.value else default
  }

  /** The values a request supplies for the schema's paths. */
  datatype Fields = Fields(
    title: Field<string>,
    content: Field<string>,
    owner: Field<UserId>,
    collaborators: Field<seq<UserId>>)

  /** The content a document gets when none is supplied. */
  const DefaultContent: string := ""

  /**
   * Mongoose's `required` check on a String path: the value must be present
   * and not the empty string.
   */
  predicate RequiredString(v: Field<string>) {
    v.Given? && |v.value| > 0
  }

  /** The schema's constraint on a stored document: its title is non-empty. */
  predicate Valid(d: Document) {
    |d.title| > 0
  }

  /** The outcome of casting request values against the schema. */
  datatype Cast = Rejected | Accepted(doc: Document)

  /**
   * Casting `f` to a document: fails (a validation error) when the title or
   * the owner is missing; otherwise applies the defaults of `content` ("")
   * and of `collaborators` (the empty list).
   */
  function Build(f: Fields): (r: Cast)
    ensures r.Accepted? <==> RequiredString(f.title) && f.owner.Given?
    ensures r.Accepted? ==>
      && Valid(r.doc)
      && r.doc.title == f.title.value
      && r.doc.owner == f.owner.value
      && (f.content.Given? ==> r.doc.content == f.content.value)
      && (f.content.Absent? ==> r.doc.content == DefaultContent)
      && (f.collaborators.Given? ==> r.doc.collaborators == f.collaborators.value)
      && (f.collaborators.Absent? ==> r.doc.collaborators == [])
  {
    if RequiredString(f.title) && f.owner.Given? then
      Accepted(Document(f.title.value, ValueOr(f.content, DefaultContent), f.owner.value, ValueOr(f.collaborators, [])))
    else
      Rejected
  }

  /** The fields of a stored document, as it would be cast again on save. */
  function FieldsOf(d: Document): Fields {
    Fields(Given(d.title), Given(d.content), Given(d.owner), Given(d.collaborators))
  }

  /** Casting is the inverse of taking a valid document's fields. */
  lemma BuildFieldsOf(d: Document)
    ensures Build(FieldsOf(d)) == (if Valid(d) then Accepted(d) else Rejected)
  {
  }
}
