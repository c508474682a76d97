/** `update_note`: merging a partial update into a stored note. The store's
    lookup result and the two clock readings the handler takes are passed in. */
module Update {
  import opened Wrappers
  import opened PyStr
  import opened Records
  import opened Codec
  import opened Validation

  /** What an update writes back to the store (document and metadata) and
      what it returns to the client. */
  datatype Updated = Updated(document: string, metadata: Metadata, response: NoteDict)

  /** The application error an update can end in. */
  datatype AppError = NoteNotFound(noteId: string)

  /** The update of note `noteId` by `note`. `stored` is the store's record
      for that id, if any. `clock` is the time read when a stored note lacks
      `created_at`, and `now` the time read for `updated_at`. A supplied field
      replaces the stored one; an omitted title or content keeps what the stored
      document parses to, and omitted tags keep the stored tags. The creation
      time is kept and the update time becomes `now`. The stored document is
      rewritten from the merged title and content, and reading it back gives the
      response whenever the merged title survives storage. */
  method UpdateNote(noteId: string, note: NoteUpdate, stored: Option<StoredNote>, clock: int, now: int)
    returns (r: Result<Updated, AppError>)
    ensures stored.None? ==> r == Failure(NoteNotFound(noteId))
    ensures stored.Some? ==> r.Success?
    ensures r.Success? ==>
              var s, u := stored.value, r.value.response;
              var existing := ParseDocument(s.document);
              && u.id == noteId
              && (note.title.Some? ==> u.title == note.title.value)
              && (note.title.None? ==> u.title == existing.title)
              && (note.content.Some? ==> u.content == note.content.value)
              && (note.content.None? ==> u.content == existing.content)
              && (note.tags.Some? ==> u.tags == note.tags.value)
              && (note.tags.None? ==> u.tags == s.metadata.tags.GetOr([]))
              && (s.metadata.createdAt.Some? ==> u.createdAt == s.metadata.createdAt.value)
              && (s.metadata.createdAt.None? ==> u.createdAt == clock)
              && u.updatedAt == now
    ensures r.Success? ==>
              var w := r.value;
              && w.document == DocumentFromNote(Some(w.response.title), w.response.content)
              && w.metadata == Metadata(Some(w.response.tags), Some(w.response.createdAt), Some(now))
    ensures r.Success? ==>
              var w := r.value;
              var t := w.response.title;
              KeepsTitle(t) || (t == "" && !ContainsSep(w.response.content)) ==>
                NoteToDict(noteId, w.document, w.metadata) == w.response
    ensures r.Success? && note.title.None? && note.content.None? ==>
              var doc := stored.value.document;
              !StartsWith(doc, '#') && !SepAt(doc, 0) ==> r.value.document == doc
  {
    if stored.None? {
      return Failure(NoteNotFound(noteId));
    }
    var existingMetadata := stored.value.metadata;
    var createdAt := existingMetadata.createdAt.GetOr(clock);

    var newTitle := note.title;
    var newContent := note.content;
    var newTags := note.tags;

    if newTitle.None? || newContent.None? {
      var existing := ParseDocument(stored.value.document);
      if newTitle.None? {
        newTitle := Some(existing.title);
      }
      if newContent.None? {
        newContent := Some(existing.content);
      }
    }
    if newTags.None? {
      newTags := Some(existingMetadata.tags.GetOr([]));
    }

    var document := DocumentFromNote(newTitle, newContent.value);
    var metadata := Metadata(newTags, Some(createdAt), Some(now));
    var response := NoteDict(noteId, newTitle.value, newContent.value, newTags.value, createdAt, now);

    assert KeepsTitle(newTitle.value) || (newTitle.value == "" && !ContainsSep(newContent.value)) ==>
             NoteToDict(noteId, document, metadata) == response by {
      if KeepsTitle(newTitle.value) || (newTitle.value == "" && !ContainsSep(newContent.value)) {
        ReadBackWritten(noteId, newTitle.value, newContent.value, newTags.value, createdAt, now);
      }
    }
    var doc := stored.value.document;
    assert note.title.None? && note.content.None? && !StartsWith(doc, '#') && !SepAt(doc, 0) ==>
             document == doc by {
      if note.title.None? && note.content.None? && !StartsWith(doc, '#') && !SepAt(doc, 0) {
        ReencodeParsed(doc);
      }
    }
    r := Success(Updated(document, metadata, response));
  }
}
