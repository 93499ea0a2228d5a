/**
 * The blog-creation form: the draft record, its word count, validation of
 * the draft, and the form object whose handlers edit the draft, validate it,
 * save it to the browser's stored list of blogs and later reset it.
 */
module DraftForm {
  import opened Wrappers
  import opened JsText

  /** The draft post the form edits (`BlogFormData`). */
  datatype Draft = Draft(
    id: string,
    title: string,
    author: string,
    category: string,
    content: string,
    imageUrl: Option<string>,
    tags: seq<string>,
    createdAt: string)

  /** The text fields that `handleInputChange` is called with. */
  datatype TextField = Title | Author | Category | Content

  /** The property name of a field, which is also its key in the error map. */
  function FieldName(f: TextField): string {
    match f
    case Title => "title"
    case Author => "author"
    case Category => "category"
    case Content => "content"
  }

  function Get(d: Draft, f: TextField): string {
    match f
    case Title => d.title
    case Author => d.author
    case Category => d.category
    case Content => d.content
  }

  /** `{ ...prev, [name]: value }`: only field `f` changes. */
  function Set(d: Draft, f: TextField, value: string): (r: Draft)
    ensures Get(r, f) == value
    ensures forall g :: g != f ==> Get(r, g) == Get(d, g)
    ensures r.id == d.id && r.imageUrl == d.imageUrl && r.tags == d.tags && r.createdAt == d.createdAt
  {
    match f
    case Title => d.(title := value)
    case Author => d.(author := value)
    case Category => d.(category := value)
    case Content => d.(content := value)
  }

  /** The empty draft the form starts with and is reset to; the identifier
      and the timestamp are supplied by the caller. */
  function Blank(id: string, createdAt: string): (d: Draft)
    ensures d.id == id && d.createdAt == createdAt
    ensures forall f :: Get(d, f) == ""
    ensures d.imageUrl == None && d.tags == []
  {
    Draft(id, "", "", "", "", None, [], createdAt)
  }

  // ---------------------------------------------------------------
  // Word count
  // ---------------------------------------------------------------

  /** The word-count effect: `content.trim().split(/\s+/).length`, or 0 when
      the content or its trimmed form is empty. */
  function WordCount(content: string): (n: nat)
    ensures n == 0 <==> AllWs(content)
  {
    TrimEmptyIff(content);
    if content == "" then 0
    else
      var t := Trim(content);
      if t == "" then 0 else |Split(t)|
  }

  /** The word count is the number of maximal non-whitespace runs. */
  lemma WordCountIsRuns(content: string)
    ensures WordCount(content) == Runs(content)
  {
    TrimKeepsRuns(content);
    TrimEmptyIff(content);
    var t := Trim(content);
    if content != "" && t != "" {
      SplitCountsRuns(t, 0);
    } else if content != "" {
      RunsInWs(content, 0, |content|);
    }
  }

  /** Whitespace added before or after the content does not change the count. */
  lemma WordCountPadding(a: string, content: string, b: string)
    requires AllWs(a) && AllWs(b)
    ensures WordCount(a + content + b) == WordCount(content)
  {
    WordCountIsRuns(a + content + b);
    WordCountIsRuns(content);
    RunsPadded(a, content, b);
  }

  /** Appending a whitespace separator and one word adds exactly one word. */
  lemma WordCountAppendWord(content: string, sep: string, word: string)
    requires sep != [] && AllWs(sep) && word != [] && NoWs(word)
    ensures WordCount(content + sep + word) == WordCount(content) + 1
  {
    WordCountIsRuns(content + sep + word);
    WordCountIsRuns(content);
    RunsAppendWord(content, sep, word);
  }

  // ---------------------------------------------------------------
  // Validation
  // ---------------------------------------------------------------

  const TitleRequired := "Blog title is required"
  const ContentRequired := "Blog content is required"

  /** `validateForm`'s freshly built error map `newErrors`. */
  function Validate(d: Draft): (errors: map<string, string>)
    ensures "title" in errors <==> Trim(d.title) == ""
    ensures "title" in errors ==> errors["title"] == TitleRequired
    ensures "content" in errors <==> Trim(d.content) == ""
    ensures "content" in errors ==> errors["content"] == ContentRequired
    ensures errors.Keys <= {"title", "content"}
  {
    var withTitle := if Trim(d.title) == "" then map["title" := TitleRequired] else map[];
    if Trim(d.content) == "" then withTitle["content" := ContentRequired] else withTitle
  }

  /** The form is valid exactly when both title and content are non-blank. */
  lemma ValidateEmptyIff(d: Draft)
    ensures |Validate(d)| == 0 <==> Trim(d.title) != "" && Trim(d.content) != ""
  {
    var e := Validate(d);
    if Trim(d.title) == "" { assert "title" in e.Keys; }
    else if Trim(d.content) == "" { assert "content" in e.Keys; }
    else { assert e.Keys == {}; }
  }

  /** Author, category, tags and image never influence validation. */
  lemma ValidateIgnoresOtherFields(d: Draft, author: string, category: string,
                                   tags: seq<string>, imageUrl: Option<string>)
    ensures Validate(d.(author := author, category := category, tags := tags, imageUrl := imageUrl))
            == Validate(d)
  {
    var e := d.(author := author, category := category, tags := tags, imageUrl := imageUrl);
    assert e.title == d.title && e.content == d.content;
  }

  /** The error update of `handleInputChange`: a truthy error of the edited
      field becomes `''`, every other entry stays. */
  function ClearError(errors: map<string, string>, name: string): (r: map<string, string>)
    ensures r.Keys == errors.Keys
    ensures forall k :: k in errors && k != name ==> r[k] == errors[k]
    ensures name in errors ==> r[name] == ""
  {
    if name in errors && errors[name] != "" then errors[name := ""] else errors
  }

  // ---------------------------------------------------------------
  // The stored list of blogs under the key 'blogs'
  // ---------------------------------------------------------------

  /** What the browser holds under 'blogs': nothing, a serialized list of
      drafts, or text that `JSON.parse` rejects or whose parsed value the
      spread rejects. */
  datatype Stored = Missing | Saved(posts: seq<Draft>) | Corrupt

  /** `JSON.parse(localStorage.getItem('blogs') || '[]')`; `None` when it throws. */
  function Load(st: Stored): (r: Option<seq<Draft>>)
    ensures st.Missing? ==> r == Some([])
    ensures st.Saved? ==> r == Some(st.posts)
    ensures st.Corrupt? <==> r == None
  {
    match st
    case Missing => Some([])
    case Saved(posts) => Some(posts)
    case Corrupt => None
  }

  /** The save step of `handleSubmit`: the stored contents after appending `d`,
      or `None` when loading failed and nothing was written. */
  function Append(st: Stored, d: Draft): (r: Option<Stored>)
    ensures r.None? <==> Load(st).None?
    ensures r.Some? ==> Load(r.value).Some? && Load(r.value).value == Load(st).value + [d]
  {
    match Load(st)
    case None => None
    case Some(existing) => Some(Saved(existing + [d]))
  }

  /** Loading after a save yields the earlier list with the draft as its last
      element, every earlier entry unchanged. */
  lemma AppendThenLoad(st: Stored, d: Draft)
    requires Load(st).Some?
    ensures var after := Load(Append(st, d).value).value;
            |after| == |Load(st).value| + 1 && after[|after| - 1] == d
            && after[..|after| - 1] == Load(st).value
  {
  }

  // ---------------------------------------------------------------
  // The form component's state
  // ---------------------------------------------------------------

  class BlogCreationForm {
    var formData: Draft
    var errors: map<string, string>
    var isSubmitting: bool
    var isSuccess: bool
    var wordCount: nat
    /** The browser's stored list of blogs. */
    var storage: Stored

    /** The word count is always that of the current content, and no submit
        is half way through between two events. */
    ghost predicate Valid()
      reads this
    {
      wordCount == WordCount(formData.content) && !isSubmitting
    }

    constructor(id: string, createdAt: string, stored: Stored)
      ensures Valid()
      ensures formData == Blank(id, createdAt) && errors == map[]
      ensures !isSuccess && wordCount == 0 && storage == stored
    {
      formData := Blank(id, createdAt);
      errors := map[];
      isSubmitting := false;
      isSuccess := false;
      wordCount := 0;
      storage := stored;
    }

    /** `handleInputChange(name, value)` followed by the word-count effect. */
    method InputChange(f: TextField, value: string)
      requires Valid()
      modifies this
      ensures Valid()
      ensures formData == Set(old(formData), f, value)
      ensures errors == ClearError(old(errors), FieldName(f))
      ensures isSuccess == old(isSuccess) && storage == old(storage)
    {
      formData := Set(formData, f, value);
      var name := FieldName(f);
      if name in errors && errors[name] != "" {
        errors := errors[name := ""];
      }
      wordCount := WordCount(formData.content);
    }

    /** `handleTagsChange`: the draft's tags are replaced. */
    method TagsChange(tags: seq<string>)
      requires Valid()
      modifies this`formData
      ensures Valid()
      ensures formData == old(formData).(tags := tags)
    {
      formData := formData.(tags := tags);
    }

    /** `handleImageUpload`: the draft's image is replaced (`null` is `None`). */
    method ImageUpload(imageUrl: Option<string>)
      requires Valid()
      modifies this`formData
      ensures Valid()
      ensures formData == old(formData).(imageUrl := imageUrl)
    {
      formData := formData.(imageUrl := imageUrl);
    }

    /** `validateForm`: the error map is rebuilt from scratch, so no earlier
        error survives, and the draft is valid iff the new map is empty. */
    method ValidateForm() returns (ok: bool)
      requires Valid()
      modifies this`errors
      ensures Valid()
      ensures errors == Validate(formData)
      ensures ok <==> Trim(formData.title) != "" && Trim(formData.content) != ""
    {
      errors := Validate(formData);
      ValidateEmptyIff(formData);
      ok := |errors| == 0;
    }

    /** `handleSubmit`: an invalid draft is refused; a valid one is appended
        to the stored list unless loading that list fails. The delayed reset
        is the separate method `Reset`. */
    method Submit() returns (saved: bool)
      requires Valid()
      modifies this
      ensures Valid()
      ensures formData == old(formData)
      ensures errors == Validate(old(formData))
      ensures saved <==> Trim(formData.title) != "" && Trim(formData.content) != ""
                         && Load(old(storage)).Some?
      ensures storage == if saved then Append(old(storage), formData).value else old(storage)
      ensures isSuccess == (saved || old(isSuccess))
    {
      var ok := ValidateForm();
      if !ok {
        return false;
      }
      isSubmitting := true;
      var appended := Append(storage, formData);
      if appended.Some? {
        storage := appended.value;
        isSuccess := true;
        saved := true;
      } else {
        saved := false;
      }
      isSubmitting := false;
    }

    /** The reset that runs two seconds after a successful submit. */
    method Reset(id: string, createdAt: string)
      requires Valid()
      modifies this
      ensures Valid()
      ensures formData == Blank(id, createdAt) && wordCount == 0 && !isSuccess
      ensures errors == old(errors) && storage == old(storage)
    {
      formData := Blank(id, createdAt);
      wordCount := 0;
      isSuccess := false;
    }
  }
}
