/** The records the note service exchanges with its embedded store and with
    its HTTP clients. */
module Records {
  import opened Wrappers

  /** The metadata stored beside a note's document. The store is schemaless,
      so any of the three keys may be missing; a missing key is `None`. */
  datatype Metadata = Metadata(tags: Option<seq<string>>, createdAt: Option<int>, updatedAt: Option<int>)

  /** One record as the store returns it: the id, the stored document (title
      and content packed into one string) and the metadata. */
  datatype StoredNote = StoredNote(id: string, document: string, metadata: Metadata)

  /** The note as the service returns it to clients: every field present. */
  datatype NoteDict = NoteDict(
    id: string,
    title: string,
    content: string,
    tags: seq<string>,
    createdAt: int,
    updatedAt: int)

  /** One entry of the tag listing: a tag and the number of its occurrences. */
  datatype TagCount = TagCount(name: string, count: int)
}
