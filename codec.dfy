/** The stored-document format of a note. The store keeps one string per note:
    the title, a blank line, then the Markdown content; a note without a title
    is stored as its content alone. Reading a document back splits it at its
    first blank line and cleans a Markdown-heading title. */
module Codec {
  import opened Wrappers
  import opened PyStr
  import opened Records

  /** `document_from_note`: a non-empty title, a blank line and the content;
      an absent or empty title (both falsy in Python) leaves the content alone.
      Either way the content is the document's tail. */
  function DocumentFromNote(title: Option<string>, content: string): (doc: string)
    ensures |content| <= |doc| && doc[|doc| - |content|..] == content
    ensures title.None? || title == Some("") ==> doc == content
    ensures title.Some? && title.value != "" ==> doc == title.value + Separator + content
  {
    if title.Some? && title.value != "" then title.value + Separator + content else content
  }

  /** A document read back: the title and the content. */
  datatype Parsed = Parsed(title: string, content: string)

  /** The title part of a document after the first split. A part that starts
      with `#` is a Markdown heading: all its leading `#` go, then the
      surrounding whitespace. The cleaned heading is strictly shorter, has no
      whitespace at either end, and starts with `#` only when whitespace
      stood between the heading's hash marks. */
  function CleanTitle(raw: string): (title: string)
    ensures !StartsWith(raw, '#') ==> title == raw
    ensures StartsWith(raw, '#') ==> exists i :: SpacePadded(LStrip(raw, '#'), i, title)
    ensures StartsWith(raw, '#') ==> |title| < |raw|
    ensures StartsWith(raw, '#') ==> title == [] || (!IsSpace(title[0]) && !IsSpace(title[|title| - 1]))
    ensures StartsWith(raw, '#') && StartsWith(title, '#') ==>
              var h := LStrip(raw, '#'); |h| > 0 && IsSpace(h[0])
  {
    if StartsWith(raw, '#') then
      var h := LStrip(raw, '#');
      StripKeepsHead(h);
      Strip(h)
    else
      raw
  }

  /** The parse that `note_to_dict` and `update_note` both perform. A document
      without a blank line is all content and has an empty title. Otherwise the
      document is the raw title, the first blank line and the content, and the
      title is the raw title cleaned. */
  function ParseDocument(doc: string): (p: Parsed)
    ensures !ContainsSep(doc) ==> p == Parsed("", doc)
    ensures ContainsSep(doc) ==> |p.content| + 2 <= |doc|
    ensures ContainsSep(doc) ==>
              var raw := doc[..|doc| - |p.content| - 2];
              && doc == raw + Separator + p.content
              && !ContainsSep(raw + "\n")
              && p.title == CleanTitle(raw)
  {
    match SplitAtFirstSep(doc)
    case None => Parsed("", doc)
    case Some((raw, content)) =>
      assert raw == doc[..|doc| - |content| - 2];
      Parsed(CleanTitle(raw), content)
  }

  /** `note_to_dict`: the parsed title and content, the id passed in, and the
      metadata with defaults for missing keys: no tags, and timestamps 0. */
  function NoteToDict(noteId: string, document: string, metadata: Metadata): (note: NoteDict)
    ensures note.id == noteId
    ensures Parsed(note.title, note.content) == ParseDocument(document)
    ensures metadata.tags.Some? ==> note.tags == metadata.tags.value
    ensures metadata.tags.None? ==> note.tags == []
    ensures metadata.createdAt.Some? ==> note.createdAt == metadata.createdAt.value
    ensures metadata.createdAt.None? ==> note.createdAt == 0
    ensures metadata.updatedAt.Some? ==> note.updatedAt == metadata.updatedAt.value
    ensures metadata.updatedAt.None? ==> note.updatedAt == 0
  {
    var p := ParseDocument(document);
    NoteDict(
      noteId,
      p.title,
      p.content,
      metadata.tags.GetOr([]),
      metadata.createdAt.GetOr(0),
      metadata.updatedAt.GetOr(0))
  }

  /** A document that is not a heading splits losslessly: the title holds no
      blank line, and title, blank line and content give the document back. */
  lemma {:induction false} PlainTitleReassembles(doc: string)
    requires ContainsSep(doc) && !StartsWith(doc, '#')
    ensures var p := ParseDocument(doc);
              && !ContainsSep(p.title)
              && p.title + Separator + p.content == doc
  {
    var p := ParseDocument(doc);
    var raw := doc[..|doc| - |p.content| - 2];
    if |raw| > 0 {
      assert raw[0] == doc[0];
    }
    assert p.title == raw;
    forall i | SepAt(raw, i) ensures SepAt(raw + "\n", i) {
      assert (raw + "\n")[i] == raw[i] && (raw + "\n")[i + 1] == raw[i + 1];
    }
  }

  /** The titles that survive storage unchanged: non-empty, not a Markdown
      heading, without a blank line, and not ending in a newline. */
  predicate KeepsTitle(t: string) {
    && t != ""
    && !StartsWith(t, '#')
    && !ContainsSep(t)
    && t[|t| - 1] != '\n'
  }

  /** `KeepsTitle` is exactly "does not start with `#`, and no blank line
      appears even after one more newline". */
  lemma KeepsTitleMeansNoSepBefore(t: string)
    requires t != ""
    ensures KeepsTitle(t) <==> !StartsWith(t, '#') && !ContainsSep(t + "\n")
  {
    var u := t + "\n";
    if ContainsSep(t) {
      var i :| 0 <= i < |t| && SepAt(t, i);
      assert u[i] == t[i] && u[i + 1] == t[i + 1];
      assert SepAt(u, i);
    }
    if t[|t| - 1] == '\n' {
      assert SepAt(u, |t| - 1);
    }
    if ContainsSep(u) {
      var i :| 0 <= i < |u| && SepAt(u, i);
      if i + 1 < |t| {
        assert SepAt(t, i);
      }
    }
  }

  /** Round trip of a titled note: storing title `t` with any content `c` and
      reading the document back gives `t` and `c` exactly when `t` is a title
      that survives storage. */
  lemma {:induction false} TitledRoundTrip(t: string, c: string)
    requires t != ""
    ensures ParseDocument(DocumentFromNote(Some(t), c)) == Parsed(t, c) <==> KeepsTitle(t)
  {
    var doc := DocumentFromNote(Some(t), c);
    assert doc == t + Separator + c;
    assert SepAt(doc, |t|);
    var p := ParseDocument(doc);
    var raw := doc[..|doc| - |p.content| - 2];
    KeepsTitleMeansNoSepBefore(t);
    if KeepsTitle(t) {
      FirstSplitUnique(doc, t, c, raw, p.content);
    }
    if p == Parsed(t, c) {
      assert |raw| == |t|;
      assert raw == t;
      assert !StartsWith(t, '#');
    }
  }

  /** Round trip of an untitled note: a note stored without a title reads back
      with an empty title and its content exactly when the content holds no
      blank line; otherwise the text before its first blank line is read as a
      title and the content comes back without it. */
  lemma UntitledRoundTrip(title: Option<string>, c: string)
    requires title.None? || title == Some("")
    ensures ParseDocument(DocumentFromNote(title, c)) == Parsed("", c) <==> !ContainsSep(c)
  {
  }

  /** Reading back a note written with every metadata key present: the
      record comes back as written whenever its title survives storage, or it
      has no title and its content holds no blank line. */
  lemma ReadBackWritten(noteId: string, title: string, content: string, tags: seq<string>, createdAt: int, updatedAt: int)
    requires KeepsTitle(title) || (title == "" && !ContainsSep(content))
    ensures NoteToDict(noteId, DocumentFromNote(Some(title), content), Metadata(Some(tags), Some(createdAt), Some(updatedAt)))
              == NoteDict(noteId, title, content, tags, createdAt, updatedAt)
  {
    if title == "" {
      UntitledRoundTrip(Some(title), content);
    } else {
      TitledRoundTrip(title, content);
    }
  }

  /** Rewriting what was read: a document that neither starts with `#` nor
      with a blank line is reproduced by storing its parsed title and content
      again. */
  lemma ReencodeParsed(doc: string)
    requires !StartsWith(doc, '#') && !SepAt(doc, 0)
    ensures var p := ParseDocument(doc); DocumentFromNote(Some(p.title), p.content) == doc
  {
  }
}
