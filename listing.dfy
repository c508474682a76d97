/** The two listing endpoints that do work of their own on what the store
    returns: `list_notes` converts every record and orders the notes by their
    update time, newest first; `list_tags` counts how often each tag is used and
    orders the tags by that count, most used first. */
module Listing {
  import opened Wrappers
  import opened Records
  import opened Codec
  import opened StableSort

  // ---------------------------------------------------------------------
  // list_notes
  // ---------------------------------------------------------------------

  /** The sort key of `list_notes`. */
  function UpdatedAt(note: NoteDict): int {
    note.updatedAt
  }

  /** The store's records converted one by one, in the store's order. */
  function NoteDicts(records: seq<StoredNote>): seq<NoteDict> {
    seq(|records|, i requires 0 <= i < |records| =>
      NoteToDict(records[i].id, records[i].document, records[i].metadata))
  }

  /** `list_notes` on the records the store returned: every record converted
      by `note_to_dict`, newest update first; notes updated at the same time
      stay in the store's order. */
  method ListNotes(records: seq<StoredNote>) returns (notes: seq<NoteDict>)
    ensures multiset(notes) == multiset(NoteDicts(records))
    ensures forall i, j :: 0 <= i < j < |notes| ==> notes[i].updatedAt >= notes[j].updatedAt
    ensures forall k :: Filter(notes, UpdatedAt, k) == Filter(NoteDicts(records), UpdatedAt, k)
  {
    var built: seq<NoteDict> := [];
    for i := 0 to |records|
      invariant |built| == i
      invariant forall j :: 0 <= j < i ==>
                  built[j] == NoteToDict(records[j].id, records[j].document, records[j].metadata)
    {
      var record := records[i];
      built := built + [NoteToDict(record.id, record.document, record.metadata)];
    }
    assert built == NoteDicts(records);
    notes := SortDesc(built, UpdatedAt);
    assert SortedDesc(notes, UpdatedAt);
  }

  // ---------------------------------------------------------------------
  // list_tags
  // ---------------------------------------------------------------------

  /** The tags of one note as `metadata.get("tags", [])` reads them. */
  function TagsOf(metadata: Metadata): seq<string> {
    metadata.tags.GetOr([])
  }

  /** Every tag of every note, note by note, in the store's order. */
  function AllTags(metadatas: seq<Metadata>): seq<string> {
    if metadatas == [] then []
    else AllTags(metadatas[..|metadatas| - 1]) + TagsOf(metadatas[|metadatas| - 1])
  }

  /** How many times `t` occurs in `s`. */
  function Occurrences(s: seq<string>, t: string): nat {
    if s == [] then 0
    else Occurrences(s[..|s| - 1], t) + (if s[|s| - 1] == t then 1 else 0)
  }

  /** The position of the first `t` in `s`, or `|s|` when there is none. */
  function FirstIndex(s: seq<string>, t: string): (k: nat)
    ensures k <= |s|
    ensures k < |s| <==> t in s
    ensures k < |s| ==> s[k] == t
    ensures forall i :: 0 <= i < k ==> s[i] != t
  {
    if s == [] then 0
    else if s[0] == t then 0
    else 1 + FirstIndex(s[1..], t)
  }

  /** The distinct elements of `s` in order of first occurrence: the key
      order of a Python dict filled from `s`. */
  function Distinct(s: seq<string>): (d: seq<string>)
    ensures forall t :: t in d <==> t in s
    ensures forall i, j :: 0 <= i < j < |d| ==> d[i] != d[j]
  {
    if s == [] then []
    else
      var init, last := s[..|s| - 1], s[|s| - 1];
      assert s == init + [last];
      var d := Distinct(init);
      if last in init then d else d + [last]
  }

  /** `Distinct` lists its elements in increasing order of first occurrence. */
  lemma {:induction false} DistinctInFirstOccurrenceOrder(s: seq<string>)
    ensures FirstOccurrenceOrdered(s, Distinct(s))
  {
    if s != [] {
      var init, last := s[..|s| - 1], s[|s| - 1];
      assert s == init + [last];
      DistinctInFirstOccurrenceOrder(init);
      DistinctStep(init, last);
    }
  }

  /** The elements of `d` occur in `s` in increasing order of first
      occurrence. */
  predicate FirstOccurrenceOrdered(s: seq<string>, d: seq<string>) {
    forall i, j :: 0 <= i < j < |d| ==> FirstIndex(s, d[i]) < FirstIndex(s, d[j])
  }

  lemma DistinctStep(init: seq<string>, last: string)
    requires FirstOccurrenceOrdered(init, Distinct(init))
    ensures FirstOccurrenceOrdered(init + [last], Distinct(init + [last]))
  {
    var s := init + [last];
    var d0 := Distinct(init);
    DistinctAppend(init, last);
    assert FirstOccurrenceOrdered(s, d0) by {
      forall i, j | 0 <= i < j < |d0| ensures FirstIndex(s, d0[i]) < FirstIndex(s, d0[j]) {
        FirstIndexOfExtension(init, last, d0[i]);
        FirstIndexOfExtension(init, last, d0[j]);
      }
    }
    if last !in init {
      NewLastKeepsOrder(init, last, d0);
    }
  }

  /** Appending an element seen for the first time to the dict's keys keeps
      them in first-occurrence order. */
  lemma NewLastKeepsOrder(init: seq<string>, last: string, d0: seq<string>)
    requires last !in init
    requires forall t :: t in d0 ==> t in init
    requires FirstOccurrenceOrdered(init + [last], d0)
    ensures FirstOccurrenceOrdered(init + [last], d0 + [last])
  {
    var s := init + [last];
    var d := d0 + [last];
    FirstIndexOfNew(init, last);
    forall i, j | 0 <= i < j < |d| ensures FirstIndex(s, d[i]) < FirstIndex(s, d[j]) {
      assert d[i] == d0[i];
      if j < |d0| {
        assert d[j] == d0[j];
      } else {
        FirstIndexOfExtension(init, last, d0[i]);
      }
    }
  }

  /** An element appended for the first time is found at the end. */
  lemma FirstIndexOfNew(s: seq<string>, x: string)
    requires x !in s
    ensures FirstIndex(s + [x], x) == |s|
  {
  }

  /** Appending to a sequence does not move the first occurrence of an
      element it already holds. */
  lemma FirstIndexOfExtension(s: seq<string>, x: string, t: string)
    requires t in s
    ensures FirstIndex(s + [x], t) == FirstIndex(s, t) < |s|
  {
    var k := FirstIndex(s, t);
    assert (s + [x])[k] == t;
    forall i | 0 <= i < k ensures (s + [x])[i] != t {
      assert (s + [x])[i] == s[i];
    }
  }

  /** The dict `tag_counts` after counting the tags `s` one by one with
      `tag_counts[tag] = tag_counts.get(tag, 0) + 1`. */
  function TagCounts(s: seq<string>): map<string, nat> {
    if s == [] then map[]
    else
      var counts, last := TagCounts(s[..|s| - 1]), s[|s| - 1];
      counts[last := (if last in counts then counts[last] else 0) + 1]
  }

  /** The dict's keys are the tags seen, and each key maps to its number of
      occurrences. */
  lemma {:induction false} TagCountsAreOccurrences(s: seq<string>)
    ensures forall t :: t in TagCounts(s) <==> t in s
    ensures forall t :: t in TagCounts(s) ==> TagCounts(s)[t] == Occurrences(s, t)
  {
    if s != [] {
      var init, last := s[..|s| - 1], s[|s| - 1];
      assert s == init + [last];
      TagCountsAreOccurrences(init);
      forall t ensures t in s <==> t in init || t == last {
      }
      forall t | t in TagCounts(s) ensures TagCounts(s)[t] == Occurrences(s, t) {
        if t == last && last !in init {
          OccurrencesOfAbsent(init, last);
        }
      }
    }
  }

  /** The state of `list_tags`'s loop after it has seen the tags `seen`:
      `names` are the dict's keys in insertion order and `counts` is the
      dict. */
  predicate Tallied(seen: seq<string>, names: seq<string>, counts: map<string, nat>) {
    names == Distinct(seen) && counts == TagCounts(seen)
  }

  /** One step of the tally: `tag_counts[tag] = tag_counts.get(tag, 0) + 1`,
      where a new key goes to the end of the dict's key order. */
  lemma TallyStep(seen: seq<string>, names: seq<string>, counts: map<string, nat>, tag: string,
                  names': seq<string>, counts': map<string, nat>)
    requires Tallied(seen, names, counts)
    requires names' == if tag in counts then names else names + [tag]
    requires counts' == counts[tag := (if tag in counts then counts[tag] else 0) + 1]
    ensures Tallied(seen + [tag], names', counts')
  {
    TallyNamesStep(seen, tag);
    TagCountsAppend(seen, tag);
  }

  /** A tag goes to the end of the dict's key order exactly when it is not
      yet a key. */
  lemma TallyNamesStep(seen: seq<string>, tag: string)
    ensures Distinct(seen + [tag]) == if tag in TagCounts(seen) then Distinct(seen) else Distinct(seen) + [tag]
  {
    TagCountsDomain(seen, tag);
    DistinctAppend(seen, tag);
  }

  lemma TagCountsAppend(s: seq<string>, x: string)
    ensures var counts := TagCounts(s);
            TagCounts(s + [x]) == counts[x := (if x in counts then counts[x] else 0) + 1]
  {
    var s' := s + [x];
    assert s'[..|s'| - 1] == s && s'[|s'| - 1] == x;
  }

  /** A tag is a key of the dict exactly when it has been seen. */
  lemma {:induction false} TagCountsDomain(s: seq<string>, t: string)
    ensures t in TagCounts(s) <==> t in s
  {
    if s != [] {
      var init := s[..|s| - 1];
      assert s == init + [s[|s| - 1]];
      TagCountsDomain(init, t);
    }
  }

  lemma DistinctAppend(s: seq<string>, x: string)
    ensures Distinct(s + [x]) == if x in s then Distinct(s) else Distinct(s) + [x]
  {
  }

  lemma {:induction false} OccurrencesOfAbsent(s: seq<string>, t: string)
    requires t !in s
    ensures Occurrences(s, t) == 0
  {
    if s != [] {
      assert s[..|s| - 1] <= s;
      OccurrencesOfAbsent(s[..|s| - 1], t);
    }
  }

  /** The tags of the first `i + 1` notes are those of the first `i` followed
      by the tags of note `i`. */
  lemma AllTagsStep(metadatas: seq<Metadata>, i: nat)
    requires i < |metadatas|
    ensures AllTags(metadatas[..i + 1]) == AllTags(metadatas[..i]) + TagsOf(metadatas[i])
  {
    assert metadatas[..i + 1][..i] == metadatas[..i];
  }

  /** The sort key of `list_tags`. */
  function Count(entry: TagCount): int {
    entry.count
  }

  /** The inner counting loop of `list_tags`, over the tags of one note:
      after tallying `seen`, tallying `noteTags` as well gives the tally of
      `seen + noteTags`. */
  method TallyNote(ghost seen: seq<string>, noteTags: seq<string>, names0: seq<string>, counts0: map<string, nat>)
    returns (names: seq<string>, counts: map<string, nat>)
    requires Tallied(seen, names0, counts0)
    ensures Tallied(seen + noteTags, names, counts)
  {
    names, counts := names0, counts0;
    ghost var acc := seen;
    var j := 0;
    while j < |noteTags|
      invariant 0 <= j <= |noteTags|
      invariant acc == seen + noteTags[..j]
      invariant Tallied(acc, names, counts)
    {
      var tag := noteTags[j];
      PrefixStep(seen, noteTags, j);
      ghost var namesBefore, countsBefore := names, counts;
      // `tag_counts[tag] = tag_counts.get(tag, 0) + 1`; a new key goes last
      var c := if tag in counts then counts[tag] else 0;
      names := if tag in counts then names else names + [tag];
      counts := counts[tag := c + 1];
      TallyStep(acc, namesBefore, countsBefore, tag, names, counts);
      acc := acc + [tag];
      j := j + 1;
    }
    assert noteTags[..j] == noteTags;
  }

  lemma PrefixStep(seen: seq<string>, s: seq<string>, j: nat)
    requires j < |s|
    ensures seen + s[..j] + [s[j]] == seen + s[..j + 1]
  {
  }

  /** The counting loops of `list_tags`: `names` are the keys of
      `tag_counts` in insertion order, i.e. the distinct tags in order of first
      occurrence, and `counts` maps each to its number of occurrences over all
      notes (a note listing a tag twice counts twice). */
  method TallyTags(metadatas: seq<Metadata>) returns (names: seq<string>, counts: map<string, nat>)
    ensures Tallied(AllTags(metadatas), names, counts)
  {
    names, counts := [], map[];
    var i := 0;
    while i < |metadatas|
      invariant 0 <= i <= |metadatas|
      invariant Tallied(AllTags(metadatas[..i]), names, counts)
    {
      names, counts := TallyNote(AllTags(metadatas[..i]), TagsOf(metadatas[i]), names, counts);
      AllTagsStep(metadatas, i);
      i := i + 1;
    }
    assert metadatas[..i] == metadatas;
  }

  /** `list_tags` on the metadata the store returned: one entry per distinct
      tag with the number of its occurrences over all notes, most used first;
      tags used equally often stay in the order in which they first occur. */
  method ListTags(metadatas: seq<Metadata>) returns (tags: seq<TagCount>)
    ensures forall i :: 0 <= i < |tags| ==> tags[i].count == Occurrences(AllTags(metadatas), tags[i].name)
    ensures forall i :: 0 <= i < |tags| ==> tags[i].name in AllTags(metadatas)
    ensures forall t :: t in AllTags(metadatas) ==> exists i :: 0 <= i < |tags| && tags[i].name == t
    ensures forall i, j :: 0 <= i < j < |tags| ==> tags[i].name != tags[j].name
    ensures forall i, j :: 0 <= i < j < |tags| ==> tags[i].count >= tags[j].count
    ensures forall i, j :: 0 <= i < j < |tags| && tags[i].count == tags[j].count ==>
              FirstIndex(AllTags(metadatas), tags[i].name) < FirstIndex(AllTags(metadatas), tags[j].name)
  {
    var names, counts := TallyTags(metadatas);
    TagCountsAreOccurrences(AllTags(metadatas));
    var tagsList := seq(|names|, k requires 0 <= k < |names| && names[k] in counts =>
                          TagCount(names[k], counts[names[k]]));
    tags := SortDesc(tagsList, Count);
    TallyEntries(AllTags(metadatas), names, counts, tagsList);
    SortedEntries(AllTags(metadatas), tagsList, tags);
  }

  /** The dict's items, in its key order, after the whole tally: one entry per
      distinct tag, with its number of occurrences, in first-occurrence order. */
  lemma TallyEntries(all: seq<string>, names: seq<string>, counts: map<string, nat>, entries: seq<TagCount>)
    requires Tallied(all, names, counts)
    requires |entries| == |names|
    requires forall k :: 0 <= k < |entries| ==>
               names[k] in counts && entries[k] == TagCount(names[k], counts[names[k]])
    ensures forall i :: 0 <= i < |entries| ==> entries[i].name in all
    ensures forall i :: 0 <= i < |entries| ==> entries[i].count == Occurrences(all, entries[i].name)
    ensures forall t :: t in all ==> exists i :: 0 <= i < |entries| && entries[i].name == t
    ensures forall i, j :: 0 <= i < j < |entries| ==> entries[i].name != entries[j].name
    ensures forall i, j :: 0 <= i < j < |entries| ==>
              FirstIndex(all, entries[i].name) < FirstIndex(all, entries[j].name)
  {
    TagCountsAreOccurrences(all);
    forall t | t in all ensures exists i :: 0 <= i < |entries| && entries[i].name == t {
      var k :| 0 <= k < |names| && names[k] == t;
      assert entries[k].name == t;
    }
    DistinctInFirstOccurrenceOrder(all);
    forall i, j | 0 <= i < j < |entries|
      ensures FirstIndex(all, entries[i].name) < FirstIndex(all, entries[j].name)
    {
      assert entries[i].name == names[i] && entries[j].name == names[j];
    }
  }

  /** Sorting the items by count, stably and most used first, keeps all of
      their properties and orders equal counts by first occurrence. */
  lemma SortedEntries(all: seq<string>, entries: seq<TagCount>, tags: seq<TagCount>)
    requires forall i :: 0 <= i < |entries| ==> entries[i].name in all
    requires forall i :: 0 <= i < |entries| ==> entries[i].count == Occurrences(all, entries[i].name)
    requires forall t :: t in all ==> exists i :: 0 <= i < |entries| && entries[i].name == t
    requires forall i, j :: 0 <= i < j < |entries| ==>
               FirstIndex(all, entries[i].name) < FirstIndex(all, entries[j].name)
    requires tags == SortDesc(entries, Count)
    ensures forall i :: 0 <= i < |tags| ==> tags[i].count == Occurrences(all, tags[i].name)
    ensures forall i :: 0 <= i < |tags| ==> tags[i].name in all
    ensures forall t :: t in all ==> exists i :: 0 <= i < |tags| && tags[i].name == t
    ensures forall i, j :: 0 <= i < j < |tags| ==> tags[i].name != tags[j].name
    ensures forall i, j :: 0 <= i < j < |tags| ==> tags[i].count >= tags[j].count
    ensures forall i, j :: 0 <= i < j < |tags| && tags[i].count == tags[j].count ==>
              FirstIndex(all, tags[i].name) < FirstIndex(all, tags[j].name)
  {
    PermutedEntries(all, entries, tags);
    StablyOrderedEntries(all, entries, tags);
  }

  /** A permutation of the items has the same items. */
  lemma PermutedEntries(all: seq<string>, entries: seq<TagCount>, tags: seq<TagCount>)
    requires forall i :: 0 <= i < |entries| ==> entries[i].name in all
    requires forall i :: 0 <= i < |entries| ==> entries[i].count == Occurrences(all, entries[i].name)
    requires forall t :: t in all ==> exists i :: 0 <= i < |entries| && entries[i].name == t
    requires multiset(tags) == multiset(entries)
    ensures forall i :: 0 <= i < |tags| ==> tags[i].count == Occurrences(all, tags[i].name)
    ensures forall i :: 0 <= i < |tags| ==> tags[i].name in all
    ensures forall t :: t in all ==> exists i :: 0 <= i < |tags| && tags[i].name == t
  {
    forall i | 0 <= i < |tags|
      ensures tags[i].name in all && tags[i].count == Occurrences(all, tags[i].name)
    {
      assert tags[i] in multiset(entries);
    }
    forall t | t in all ensures exists i :: 0 <= i < |tags| && tags[i].name == t {
      var k :| 0 <= k < |entries| && entries[k].name == t;
      assert entries[k] in multiset(tags);
    }
  }

  /** The stable sort by count puts items with equal counts in the order
      they had, here the order of first occurrence; since items naming the
      same tag have the same count, no tag is listed twice. */
  lemma StablyOrderedEntries(all: seq<string>, entries: seq<TagCount>, tags: seq<TagCount>)
    requires forall i :: 0 <= i < |entries| ==> entries[i].count == Occurrences(all, entries[i].name)
    requires forall i, j :: 0 <= i < j < |entries| ==>
               FirstIndex(all, entries[i].name) < FirstIndex(all, entries[j].name)
    requires multiset(tags) == multiset(entries)
    requires forall k :: Filter(tags, Count, k) == Filter(entries, Count, k)
    ensures forall i, j :: 0 <= i < j < |tags| ==> tags[i].name != tags[j].name
    ensures forall i, j :: 0 <= i < j < |tags| && tags[i].count == tags[j].count ==>
              FirstIndex(all, tags[i].name) < FirstIndex(all, tags[j].name)
  {
    ghost var rank := (entry: TagCount) => FirstIndex(all, entry.name);
    assert OrderedWithinKeys(entries, Count, rank);
    SameFiltersKeepOrder(tags, entries, Count, rank);
    forall i, j | 0 <= i < j < |tags| ensures tags[i].name != tags[j].name {
      // both are items, so their counts are those of their names
      assert tags[i] in multiset(entries) && tags[j] in multiset(entries);
      if Count(tags[i]) == Count(tags[j]) {
        assert rank(tags[i]) < rank(tags[j]);
      }
    }
  }
}
