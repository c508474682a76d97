/** Validation of the request bodies that create and update notes: the field
    bounds and the tag validators of `NoteCreate` and `NoteUpdate`. The
    request model is built only when every field passes; otherwise the client
    gets one error per failing field, in field order (title, content, tags). */
module Validation {
  import opened Wrappers

  const MaxTitleLength: nat := 200
  const MaxContentLength: nat := 100000
  const MaxTags: nat := 20
  const MaxTagLength: nat := 50

  /** A validated creation request. */
  datatype NoteCreate = NoteCreate(title: Option<string>, content: string, tags: seq<string>)

  /** A validated partial update: `None` marks a field the client left out. */
  datatype NoteUpdate = NoteUpdate(title: Option<string>, content: Option<string>, tags: Option<seq<string>>)

  /** Why a tag list was refused; `TagTooLong` names the offending tag. */
  datatype TagError = TooManyTags | TagTooLong(tag: string)

  /** One failing field of a request body. */
  datatype FieldError = TitleTooLong | ContentMissing | ContentTooLong | InvalidTags(reason: TagError)

  /** At most 20 tags, none longer than 50 characters. */
  predicate TagsAcceptable(tags: seq<string>) {
    |tags| <= MaxTags && forall i :: 0 <= i < |tags| ==> |tags[i]| <= MaxTagLength
  }

  /** The position of the first over-long tag, or `|tags|` when none is. */
  function FirstLongTag(tags: seq<string>): (k: nat)
    ensures k <= |tags|
    ensures forall i :: 0 <= i < k ==> |tags[i]| <= MaxTagLength
    ensures k < |tags| ==> |tags[k]| > MaxTagLength
  {
    if tags == [] then 0
    else if |tags[0]| > MaxTagLength then 0
    else 1 + FirstLongTag(tags[1..])
  }

  /** `NoteCreate.validate_tags`: the list back unchanged when acceptable; too
      many tags is reported first, otherwise the first over-long tag. */
  function ValidateTags(tags: seq<string>): (r: Result<seq<string>, TagError>)
    ensures r.Success? <==> TagsAcceptable(tags)
    ensures r.Success? ==> r.value == tags
    ensures |tags| > MaxTags ==> r == Failure(TooManyTags)
    ensures |tags| <= MaxTags && r.Failure? ==>
              exists k :: && 0 <= k < |tags|
                          && r.error == TagTooLong(tags[k])
                          && |tags[k]| > MaxTagLength
                          && forall i :: 0 <= i < k ==> |tags[i]| <= MaxTagLength
  {
    if |tags| > MaxTags then
      Failure(TooManyTags)
    else
      var k := FirstLongTag(tags);
      if k < |tags| then Failure(TagTooLong(tags[k])) else Success(tags)
  }

  /** `NoteUpdate.validate_tags`: as for creation, except that absent tags
      pass as absent. */
  function ValidateOptionalTags(tags: Option<seq<string>>): (r: Result<Option<seq<string>>, TagError>)
    ensures tags.None? ==> r == Success(None)
    ensures tags.Some? ==> (r.Success? <==> TagsAcceptable(tags.value))
    ensures r.Success? ==> r.value == tags
  {
    if tags.Some? && |tags.value| > MaxTags then
      Failure(TooManyTags)
    else if tags.Some? && FirstLongTag(tags.value) < |tags.value| then
      Failure(TagTooLong(tags.value[FirstLongTag(tags.value)]))
    else
      Success(tags)
  }

  /** The two tag validators agree on every list that is present, error
      included. */
  lemma OptionalTagsAgree(tags: Option<seq<string>>)
    ensures tags.Some? ==>
              ValidateOptionalTags(tags) ==
                match ValidateTags(tags.value)
                case Success(v) => Success(Some(v))
                case Failure(e) => Failure(e)
  {
  }

  /** The position of a field in the request body: title, content, tags. */
  function FieldRank(e: FieldError): nat {
    match e
    case TitleTooLong => 0
    case ContentMissing => 1
    case ContentTooLong => 1
    case InvalidTags(_) => 2
  }

  /** At most one error per field, listed in field order. */
  predicate OnePerFieldInOrder(errors: seq<FieldError>) {
    forall i, j :: 0 <= i < j < |errors| ==> FieldRank(errors[i]) < FieldRank(errors[j])
  }

  /** Errors of the three fields, at most one each, put together in field
      order. */
  lemma FieldErrorsInOrder(a: seq<FieldError>, b: seq<FieldError>, c: seq<FieldError>)
    requires |a| <= 1 && |b| <= 1 && |c| <= 1
    requires forall e :: e in a ==> FieldRank(e) == 0
    requires forall e :: e in b ==> FieldRank(e) == 1
    requires forall e :: e in c ==> FieldRank(e) == 2
    ensures OnePerFieldInOrder(a + b + c) && |a + b + c| <= 3
  {
    var errors := a + b + c;
    forall i, j | 0 <= i < j < |errors| ensures FieldRank(errors[i]) < FieldRank(errors[j]) {
      assert errors[i] in a || errors[i] in b || errors[i] in c;
      if i < |a| {
        assert errors[i] in a;
      } else if i < |a| + |b| {
        assert errors[i] == b[i - |a|] && errors[j] == c[j - |a| - |b|];
      }
      if j < |a| + |b| {
        assert errors[j] == b[j - |a|];
      } else {
        assert errors[j] == c[j - |a| - |b|];
      }
    }
  }

  function TitleErrors(title: Option<string>): seq<FieldError> {
    if title.Some? && |title.value| > MaxTitleLength then [TitleTooLong] else []
  }

  function ErrorsOf<T>(r: Result<T, TagError>): seq<FieldError> {
    match r
    case Success(_) => []
    case Failure(e) => [InvalidTags(e)]
  }

  /** Building a `NoteCreate` from a request body. Content is required; a
      missing tag list defaults to no tags. */
  function ValidateNoteCreate(title: Option<string>, content: Option<string>, tags: Option<seq<string>>)
    : (r: Result<NoteCreate, seq<FieldError>>)
    ensures r.Success? <==>
              && (title.None? || |title.value| <= MaxTitleLength)
              && content.Some? && |content.value| <= MaxContentLength
              && (tags.None? || TagsAcceptable(tags.value))
    ensures r.Success? ==>
              r.value == NoteCreate(title, content.value, if tags.Some? then tags.value else [])
    ensures r.Failure? ==> (TitleTooLong in r.error <==> title.Some? && |title.value| > MaxTitleLength)
    ensures r.Failure? ==> OnePerFieldInOrder(r.error) && |r.error| <= 3
    ensures r.Failure? ==> (ContentMissing in r.error <==> content.None?)
    ensures r.Failure? ==> (ContentTooLong in r.error <==> content.Some? && |content.value| > MaxContentLength)
    ensures r.Failure? && tags.Some? && !TagsAcceptable(tags.value) ==>
              InvalidTags(ValidateTags(tags.value).error) in r.error
    ensures r.Failure? && (tags.None? || TagsAcceptable(tags.value)) ==>
              forall e :: InvalidTags(e) !in r.error
  {
    var contentErrors :=
      if content.None? then [ContentMissing]
      else if |content.value| > MaxContentLength then [ContentTooLong]
      else [];
    // the tag validator does not run on the default of an omitted list
    var tagErrors := if tags.None? then [] else ErrorsOf(ValidateTags(tags.value));
    var errors := TitleErrors(title) + contentErrors + tagErrors;
    FieldErrorsInOrder(TitleErrors(title), contentErrors, tagErrors);
    if errors == [] then
      Success(NoteCreate(title, content.value, tags.GetOr([])))
    else
      Failure(errors)
  }

  /** Building a `NoteUpdate` from a request body: every field may be left
      out, and a field that is present obeys the same bounds as on creation. */
  function ValidateNoteUpdate(title: Option<string>, content: Option<string>, tags: Option<seq<string>>)
    : (r: Result<NoteUpdate, seq<FieldError>>)
    ensures r.Success? <==>
              && (title.None? || |title.value| <= MaxTitleLength)
              && (content.None? || |content.value| <= MaxContentLength)
              && (tags.None? || TagsAcceptable(tags.value))
    ensures r.Success? ==> r.value == NoteUpdate(title, content, tags)
    ensures r.Failure? ==> (TitleTooLong in r.error <==> title.Some? && |title.value| > MaxTitleLength)
    ensures r.Failure? ==> OnePerFieldInOrder(r.error) && |r.error| <= 3
    ensures r.Failure? ==> ContentMissing !in r.error
    ensures r.Failure? ==> (ContentTooLong in r.error <==> content.Some? && |content.value| > MaxContentLength)
    ensures r.Failure? && tags.Some? && !TagsAcceptable(tags.value) ==>
              InvalidTags(ValidateTags(tags.value).error) in r.error
    ensures r.Failure? && (tags.None? || TagsAcceptable(tags.value)) ==>
              forall e :: InvalidTags(e) !in r.error
  {
    var contentErrors :=
      if content.Some? && |content.value| > MaxContentLength then [ContentTooLong] else [];
    var errors := TitleErrors(title) + contentErrors + ErrorsOf(ValidateOptionalTags(tags));
    FieldErrorsInOrder(TitleErrors(title), contentErrors, ErrorsOf(ValidateOptionalTags(tags)));
    OptionalTagsAgree(tags);
    if errors == [] then Success(NoteUpdate(title, content, tags)) else Failure(errors)
  }
}
