# smart-notes: a verified model of the note store's own logic

smart-notes is a small web service that keeps Markdown notes in a vector
database. Each note is stored as one document string plus a metadata record
that holds the tags and the creation and update times. This project models the
logic that the service implements itself, in `main.py`:

- **Document codec.** `document_from_note` packs an optional title and the
  content into one document: the title, a blank line (`"\n\n"`), then the
  content. `note_to_dict` splits the document at its first blank line, cleans
  a Markdown-heading title, and fills in defaults for missing metadata.
  `update_note` repeats the same parse inline (modules `PyStr` and `Codec`).
- **Request validation.** The field bounds of `NoteCreate` and `NoteUpdate` are
  title ≤ 200 characters, content ≤ 100000 characters, at most 20 tags and each
  tag ≤ 50 characters. Errors are collected one per failing field, in field
  order (module `Validation`).
- **Partial update.** `update_note` merges a partial update into the stored
  note, keeps the creation time, stamps the update time, and rewrites the
  document and metadata (module `Update`). The store's lookup result and the
  two clock readings the handler takes are parameters.
- **Listings.** `list_notes` converts every record and sorts the notes by
  `updated_at`, newest first. `list_tags` tallies tag occurrences in a dict and
  sorts the tags by count, most used first (modules `Listing` and
  `StableSort`). Python's `list.sort(key=..., reverse=True)` is stable, so
  equal keys keep their order. The model states this as "every key's
  subsequence is unchanged" and derives from it that equally used tags stay in
  the order in which they first occur.

Python's string built-ins (`in`, `split(sep, 1)`, `startswith`, `lstrip`,
`strip`) are written out in `PyStr`. `strip()` uses CPython's table of
whitespace code points.

Results proved about the codec:

- A titled note reads back unchanged exactly when its title is non-empty,
  does not start with `#`, holds no blank line, and does not end in a newline
  (`Codec.TitledRoundTrip`).
- An untitled note reads back unchanged exactly when its content holds no
  blank line (`Codec.UntitledRoundTrip`).
- A document that starts neither with `#` nor with a blank line is reproduced
  by an update that supplies no title and no content (`Codec.ReencodeParsed`).

## Model

| member | source | states |
|---|---|---|
| PyStr.LStrip | main.py:192 | `lstrip("#")`: the result is a suffix of the input, everything removed is `#`, and the result does not start with `#` |
| PyStr.Strip | main.py:192 | `strip()`: the result is the input with whitespace padding removed on both sides and has no whitespace at either end |
| PyStr.SplitAtFirstSep | main.py:188-189 | `"\n\n" in s` / `s.split("\n\n", 1)`: no result exactly when there is no blank line; otherwise `s == a + "\n\n" + b` where the blank line is the first one, i.e. `a + "\n"` holds none |
| PyStr.FirstSplitUnique | main.py:188-189 | there is only one way to split a string at its first blank line |
| Codec.DocumentFromNote | main.py:207-211 | a non-empty title gives the title, a blank line and the content; an absent or empty title gives the content alone; either way the content is the document's tail |
| Codec.CleanTitle | main.py:190-192 | a title that is not a heading is kept; a heading becomes the text left after removing its leading `#`, with the whitespace at both of its ends removed (the result sits in that text with only whitespace around it and has no whitespace at either end); it is strictly shorter, and still starts with `#` only if whitespace stood between the hash marks |
| Codec.ParseDocument | main.py:187-195 | no blank line: empty title and the whole document as content; otherwise the document is the raw title, its first blank line and the content, and the title is the cleaned raw title |
| Codec.NoteToDict | main.py:181-204 | the id is returned unchanged; title and content are the parse of the document; missing tags default to `[]` and missing timestamps to 0, present ones are copied |
| Codec.PlainTitleReassembles | main.py:188-189 | when the raw title is not a heading, the title holds no blank line and `title + "\n\n" + content` is the document |
| Codec.KeepsTitleMeansNoSepBefore | main.py:188-211 | a title survives the split exactly when it does not start with `#` and no blank line appears in it even after one more newline |
| Codec.TitledRoundTrip | main.py:181-211 | for a non-empty title, storing and reading back gives the same title and content if and only if the title survives storage |
| Codec.UntitledRoundTrip | main.py:181-211 | for an absent or empty title, reading back gives an empty title and the same content if and only if the content holds no blank line |
| Codec.ReadBackWritten | main.py:181-211 | a note written with all metadata keys reads back as the same record whenever its title survives storage, or it has no title and its content holds no blank line |
| Codec.ReencodeParsed | main.py:380-398 | re-encoding the parsed title and content reproduces any document that starts neither with `#` nor with a blank line |
| Validation.FirstLongTag | main.py:44-46 | the position of the first tag longer than 50 characters; every earlier tag is within the bound |
| Validation.ValidateTags | main.py:40-47 | accepts exactly the lists of at most 20 tags with none over 50 characters and returns them unchanged; too many tags is reported first, otherwise the first over-long tag is named |
| Validation.ValidateOptionalTags | main.py:56-64 | `None` passes; a present list passes exactly when acceptable, and it is returned unchanged |
| Validation.OptionalTagsAgree | main.py:40-64 | on a present list the two validators give the same verdict and the same error |
| Validation.ValidateNoteCreate | main.py:34-47 | the request is accepted exactly when the title is within 200, the content is present and within 100000, and the tags (if given) are acceptable; an accepted request keeps its fields and omitted tags become `[]`; each failing field contributes its own error and passing fields none; there is at most one error per field, listed in field order (title, content, tags) |
| Validation.ValidateNoteUpdate | main.py:50-64 | as for creation, except that every field may be omitted and is then kept as omitted; errors again come at most one per field, in field order |
| Update.UpdateNote | main.py:357-426 | an unknown id is a not-found error; otherwise supplied fields replace, omitted title and content come from parsing the stored document, and omitted tags come from the stored metadata; the creation time is kept or falls back to the clock; the update time is `now`; the written document and metadata encode the response, which reads back as written whenever its title survives storage; an update with no title and no content leaves a plain document unchanged |
| Listing.ListNotes | main.py:270-280 | the result is a permutation of the converted records, sorted by `updated_at` descending, and notes with equal `updated_at` keep the store's order |
| Listing.FirstIndex | main.py:538 | specifies the key order of `tag_counts.items()` at this line (nothing in the source computes it): the position of a tag's first occurrence (the length when absent), with no earlier occurrence |
| Listing.Distinct | main.py:531-538 | specifies the keys of `tag_counts` as iterated at main.py:538 (nothing in the source computes it): a dict's keys filled from a sequence, exactly the sequence's elements, each once |
| Listing.DistinctInFirstOccurrenceOrder | main.py:535-538 | the dict's keys appear in increasing order of first occurrence |
| Listing.TagCountsAreOccurrences | main.py:531-535 | the dict filled by the counting loop has exactly the tags seen as keys, each mapped to its number of occurrences |
| Listing.TallyNote | main.py:534-535 | the inner loop over one note's tags extends the tally of the tags seen so far to the tally of those tags followed by the note's tags |
| Listing.TallyTags | main.py:531-535 | the nested loops leave the dict's keys in first-occurrence order over all notes' tags and each count equal to the tag's number of occurrences |
| Listing.TallyStep | main.py:535 | one `tag_counts[tag] = tag_counts.get(tag, 0) + 1` keeps the tally invariant: keys in insertion order, and each count equal to the number of occurrences seen so far |
| Listing.ListTags | main.py:531-539 | one entry per distinct tag over all notes, with its number of occurrences (duplicates in one note count twice), sorted by count descending, and equally used tags in first-occurrence order |
| Listing.TallyEntries | main.py:538 | after the whole tally the dict's items are exactly the distinct tags with their occurrence counts, in first-occurrence order |
| Listing.SortedEntries | main.py:539 | sorting the items by count keeps them and orders equal counts by first occurrence |
| StableSort.SortDesc | main.py:539 | `list.sort(key, reverse=True)` (also at main.py:280): a permutation of the input, sorted by descending key, and stable (every key's subsequence is unchanged) |
| StableSort.SameFiltersKeepOrder | main.py:539 | a stable reordering keeps every order that held among elements with equal keys |

## Left out

- The search endpoint's call to the database's hybrid search (full-text plus
  vector search, fused by reciprocal rank) runs inside the library, so there
  is no behaviour in this repository to model. The relevance score rounding on
  its distances is floating point and is also left out.
- Database setup and the store's `get`, `add`, `update` and `delete` calls are
  not modelled. A lookup's result is a parameter (`Option<StoredNote>`, or the
  sequence of records or metadata), and a write is the document and metadata
  that an update returns. The `where` and `limit` filters that the store applies
  in `list_notes` and `list_tags` happen before the modelled code.
- The store returns parallel lists of ids, documents and metadata. These are
  zipped into one record per note. Metadata values are typed (tag list, integer
  timestamps), whereas Python's dicts are untyped.
- FastAPI routing, the exception handlers, static files, the startup hook and
  the server entry point are HTTP and I/O plumbing.
- `create_note`, `get_note`, `delete_note`, `export_notes`, `health_check` and
  `search_notes` are handlers around store calls. Their only logic is the
  codec, which is modelled.
- `uuid.uuid4()` and `time.time()` are not modelled. `update_note` reads the
  clock twice: once for the fallback creation time and once for `now`. These
  are the two parameters `clock` and `now`, so the model does not assume that
  the two readings are equal.
- Update.UpdateNote: a failing store call, reported as `DATABASE_ERROR`, is
  not modelled, because the store is not part of this model.
- Listing.ListNotes: the in-place `list.sort` is modelled by the sequence it
  produces. That sequence is a stable insertion sort, not CPython's Timsort
  working in place.
- Listing.ListTags: likewise, the in-place sort of `tags_list` is modelled by
  its result.
- Validation.ValidateNoteCreate: pydantic's type coercion and its error-message
  text are not modelled. The errors are values naming the failing field and,
  for tags, the offending tag.
- Strings are sequences of code points. Lone surrogates and any encoding
  concerns are out of scope.
