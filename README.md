# bloomblog: the blog-creation form and the explore view, in Dafny

bloomblog is a blogging front end. This project models the parts of it
that carry logic rather than layout:

- **DraftForm** (`blog_form.dfy`) is the blog-creation form. It holds the
  draft record. Its word count is trim plus `split(/\s+/)`. The validator
  rebuilds the error map from scratch. Submitting either refuses the draft
  or appends it to the list of blogs the browser has stored. A later reset
  makes the draft blank again.
- **Sidebar** (`sidebar.dfy`) holds the metrics the writing sidebar
  derives from the draft:
  - reading time;
  - a preview with markup tags replaced by spaces;
  - the title, content and image flags;
  - the capped progress score;
  - the "N min(s)" label.
- **TagsEditor** (`tags_input.dfy`) is the tag editor: a key-driven state
  machine over a duplicate-free tag list and a text buffer, plus removal of
  one tag.
- **CategoryRegistry** (`category_select.dfy`) is the category picker:
  - the eight default categories;
  - custom categories, each with an id derived by the slug pipeline (trim,
    lower-case, whitespace runs to `-`, drop everything outside
    `[a-z0-9-]`);
  - the add and cancel mode.
- **Explore** (`explore.dfy`) is the explore view. It filters posts by
  category, then author, then an inclusive date range, keeping their
  order. It also builds the duplicate-free category and author dropdown
  lists, and holds the demonstration posts the view ships with.
- **FilterPanel** (`filter_section.dfy`) is the filter bar. It holds the
  three selections, and each handler replaces one of them and emits the
  whole filter record.

Three shared modules support these:

- **Wrappers** holds `Option`.
- **JsText** models the JavaScript string operations the code relies on:
  - the ECMA-262 whitespace set shared by `trim` and `\s`;
  - `trim` and `split(/\s+/)`, together with a run-counting reference
    for word counts;
  - ASCII `toLowerCase`.
- **Seqs** covers subsequences, duplicate-freedom, `Array.from(new Set(..))`
  as `Distinct`, and `Array.prototype.filter` as `Filter`.

Components that set React state in their handlers are classes. Their
fields are that state, and their methods are the handlers, with `modifies`
clauses. A parent's prop that a handler replaces through a callback
(`tags` in the tag editor, `value` in the category picker) is a field the
method assigns. It stands for the value the parent passes back on the next
render. A handler's callback argument is a method's out-parameter.
Functions model the pure computations, and lemmas relate them to
independent reference definitions.

## Model

| member | source | states |
|---|---|---|
| DraftForm.Set | src/components/blog/BlogCreationForm.tsx:57-58 | editing a field changes that field to the new value and every other field of the draft not at all |
| DraftForm.Blank | src/components/blog/BlogCreationForm.tsx:30-39 | the blank draft has empty title, author, category and content, no image, no tags, and the given id and timestamp |
| DraftForm.WordCountIsRuns | src/components/blog/BlogCreationForm.tsx:46-54 | the word count equals the number of maximal non-whitespace runs of the content |
| DraftForm.WordCount | src/components/blog/BlogCreationForm.tsx:46-54 | the word count is 0 exactly when the content is empty or all whitespace |
| DraftForm.WordCountPadding | src/components/blog/BlogCreationForm.tsx:49-50 | leading or trailing whitespace does not change the word count |
| DraftForm.WordCountAppendWord | src/components/blog/BlogCreationForm.tsx:49-50 | a whitespace separator followed by one more word raises the count by exactly one |
| DraftForm.Validate | src/components/blog/BlogCreationForm.tsx:74-82 | the title error "Blog title is required" is present iff the trimmed title is empty; the same holds for content; no other key appears |
| DraftForm.ValidateEmptyIff | src/components/blog/BlogCreationForm.tsx:85 | the error map is empty exactly when trimmed title and trimmed content are both non-empty |
| DraftForm.ValidateIgnoresOtherFields | src/components/blog/BlogCreationForm.tsx:73-86 | author, category, tags and image never affect validation |
| DraftForm.ClearError | src/components/blog/BlogCreationForm.tsx:59-61 | the edited field's error becomes `''` if present; every other entry and the key set are unchanged |
| DraftForm.Load | src/components/blog/BlogCreationForm.tsx:98 | a missing entry reads as the empty list, a saved list reads back as itself, and unparsable text fails |
| DraftForm.Append | src/components/blog/BlogCreationForm.tsx:98-100 | a save fails exactly when loading fails; otherwise the stored list becomes the old list followed by the draft |
| DraftForm.AppendThenLoad | src/components/blog/BlogCreationForm.tsx:98-100 | after a save, the list has one more entry, the last is the draft, and every earlier entry is unchanged |
| DraftForm.BlogCreationForm.constructor | src/components/blog/BlogCreationForm.tsx:30-44 | the form starts with a blank draft, no errors, word count 0 and no success flag |
| DraftForm.BlogCreationForm.InputChange | src/components/blog/BlogCreationForm.tsx:46-62 | only the edited field changes, its error is cleared, and the word count follows the new content |
| DraftForm.BlogCreationForm.TagsChange | src/components/blog/BlogCreationForm.tsx:64-66 | the draft's tags are replaced and nothing else changes |
| DraftForm.BlogCreationForm.ImageUpload | src/components/blog/BlogCreationForm.tsx:68-70 | the draft's image is replaced (`null` as `None`) and nothing else changes |
| DraftForm.BlogCreationForm.ValidateForm | src/components/blog/BlogCreationForm.tsx:73-86 | the error map is replaced by a freshly built one, so no earlier error survives; the result is true iff title and content are non-blank |
| DraftForm.BlogCreationForm.Submit | src/components/blog/BlogCreationForm.tsx:89-124 | an invalid draft leaves storage unchanged; a valid draft is appended at the end unless loading fails; success is flagged exactly when it was saved; the submitting flag is off again afterwards |
| DraftForm.BlogCreationForm.Reset | src/components/blog/BlogCreationForm.tsx:105-117 | the draft becomes blank with the given id and timestamp, the word count becomes 0, the success flag is cleared, and storage is kept |
| JsText.Trim | src/components/blog/BlogCreationForm.tsx:49 | the result has no whitespace at either end and is no longer than the input |
| JsText.TrimEmptyIff | src/components/blog/BlogCreationForm.tsx:50 | trimming gives the empty string exactly for all-whitespace strings |
| JsText.TrimPadded | src/components/blog/form/TagsInput.tsx:23 | trimming removes exactly the whitespace padding around a trimmed core |
| JsText.Split | src/components/blog/BlogCreationForm.tsx:49 | `split(/\s+/)` yields at least one piece and no piece holds whitespace |
| JsText.SplitCountsRuns | src/components/blog/BlogCreationForm.tsx:49-50 | on trimmed text, `split` started at the first character of a run yields one piece per maximal non-whitespace run from there on; so a non-empty trimmed text gives one piece per run (the empty text gives one empty piece and has no run) |
| JsText.TrimKeepsRuns | src/components/blog/BlogCreationForm.tsx:49 | trimming never changes the number of runs |
| JsText.Lower | src/components/blog/form/CategorySelect.tsx:49 | each ASCII capital becomes its small letter; every other character and the length are kept |
| JsText.LowerChar | src/components/blog/form/CategorySelect.tsx:49 | an ASCII capital becomes the small letter 32 code points above it; every other character is unchanged |
| Sidebar.ReadingTime | src/components/blog/BlogSidebar.tsx:61 | reading time is at least 1, is 1 up to 200 words, and for word count w > 0 it is the least m with w <= 200m (that is, ceil(w/200)) |
| Sidebar.StripTags | src/components/blog/BlogSidebar.tsx:65 | after replacing `<...>` tags, no `<` is followed by a `>`; the text is no longer than before, and text without `<` is unchanged |
| Sidebar.StripTagsKeeps | src/components/blog/BlogSidebar.tsx:65 | a character other than `<` at the front is kept, and the rest is processed on its own |
| Sidebar.StripTagsTag | src/components/blog/BlogSidebar.tsx:65 | a leading `<...>` with no `>` inside becomes exactly one space |
| Sidebar.StripTagsUnclosed | src/components/blog/BlogSidebar.tsx:65 | a `<` with no later `>` is kept as it is |
| Sidebar.Take | src/components/blog/BlogSidebar.tsx:65 | `substring(0, n)` is the first n characters, or the whole text when it is shorter |
| Sidebar.ContentPreview | src/components/blog/BlogSidebar.tsx:64-66 | empty content gives the placeholder; otherwise the preview is at most 153 characters |
| Sidebar.ContentPreviewShape | src/components/blog/BlogSidebar.tsx:64-65 | the preview is the first 150 characters of the tag-replaced text, followed by `...` iff the raw content is longer than 150 characters |
| Sidebar.TruncatedPreview | src/components/blog/BlogSidebar.tsx:64-66 | corrected preview: `...` is appended exactly when the tag-replaced text was cut |
| Sidebar.PreviewsAgreeWithoutMarkup | src/components/blog/BlogSidebar.tsx:64-65 | without `<` in the content, the as-written and the corrected previews are equal |
| Sidebar.EllipsisWithoutTruncation | src/components/blog/BlogSidebar.tsx:65 | a 151-character content that is a single tag previews as `" ..."` although nothing was cut |
| Sidebar.HasTitle | src/components/blog/BlogSidebar.tsx:68 | the title counts as present exactly when it is not all whitespace |
| Sidebar.HasContent | src/components/blog/BlogSidebar.tsx:69 | the content counts as present exactly when it is not all whitespace |
| Sidebar.HasImage | src/components/blog/BlogSidebar.tsx:70 | the image counts as present exactly when there is one and it is not the empty string |
| Sidebar.ContentScore | src/components/blog/BlogSidebar.tsx:76-81 | the content part is one of 10, 20, 30, 40 |
| Sidebar.Progress | src/components/blog/BlogSidebar.tsx:72-83 | progress is at most 100; the title, image and content lemmas below fix its value on every input |
| Sidebar.ProgressAtMost80 | src/components/blog/BlogSidebar.tsx:72-83 | the parts add up to at most 80, so the cap at 100 never binds |
| Sidebar.ProgressEmpty | src/components/blog/BlogSidebar.tsx:68-76 | with blank title, no image and blank content, progress is 0 |
| Sidebar.ProgressTitle | src/components/blog/BlogSidebar.tsx:68-74 | whatever the other parts are, the title adds exactly 20 when it is not blank and nothing when it is empty or all whitespace |
| Sidebar.ProgressImage | src/components/blog/BlogSidebar.tsx:70-75 | whatever the other parts are, the image adds exactly 20 when there is a non-empty one and nothing for none or the empty string |
| Sidebar.ProgressContent | src/components/blog/BlogSidebar.tsx:76-81 | blank content adds nothing; with non-blank content, the content part is 10/20/30/40 for the word-count brackets below 100 / below 300 / below 600 / 600 and above |
| Sidebar.ProgressMonotone | src/components/blog/BlogSidebar.tsx:76-81 | more words never lower the progress |
| Sidebar.NatToString | src/components/blog/BlogSidebar.tsx:125 | the decimal text is non-empty, all digits, and has no leading zero |
| Sidebar.NatToStringRoundTrip | src/components/blog/BlogSidebar.tsx:125 | reading the decimal text back gives the number |
| Sidebar.ReadingTimeLabel | src/components/blog/BlogSidebar.tsx:124-125 | the label is "N/A" exactly when the content is empty |
| Sidebar.ReadingTimeLabelShape | src/components/blog/BlogSidebar.tsx:125 | with content, the label is the reading time in decimal, then " min", ending in "s" iff the time is not 1 |
| TagsEditor.KeyDown | src/components/blog/form/TagsInput.tsx:18-36 | a key press keeps a duplicate-free list duplicate-free and well-formed tags well formed; the list is unchanged, extended by the trimmed buffer, or shortened by the last tag |
| TagsEditor.CommitKey | src/components/blog/form/TagsInput.tsx:20-28 | on Enter, comma or space, a non-blank new trimmed buffer is appended at the end and the buffer is emptied; otherwise nothing changes |
| TagsEditor.CommittedTagIsTrimmed | src/components/blog/form/TagsInput.tsx:23-25 | an appended tag is non-empty, has no whitespace at either end, and was not yet in the list |
| TagsEditor.BackspaceKey | src/components/blog/form/TagsInput.tsx:32-35 | Backspace on an empty buffer with tags drops exactly the last tag; otherwise it changes nothing |
| TagsEditor.OtherKey | src/components/blog/form/TagsInput.tsx:18-36 | any other key leaves tags and buffer unchanged |
| TagsEditor.CommitTwice | src/components/blog/form/TagsInput.tsx:24 | committing the same text again does not change the list |
| TagsEditor.BackspaceDrains | src/components/blog/form/TagsInput.tsx:32-35 | n Backspaces on an empty buffer remove exactly the last n tags |
| TagsEditor.BackspaceEmpties | src/components/blog/form/TagsInput.tsx:32-35 | as many Backspaces as there are tags empty the list |
| TagsEditor.RemoveTag | src/components/blog/form/TagsInput.tsx:38-41 | removal drops every occurrence of the tag and keeps all other tags in their original order |
| TagsEditor.RemoveTagCounts | src/components/blog/form/TagsInput.tsx:38-41 | removal keeps every copy of every other tag and no copy of the removed one |
| TagsEditor.RemoveTagWellFormed | src/components/blog/form/TagsInput.tsx:38-41 | removal keeps the list well formed and shortens it by one exactly when the tag was present |
| TagsEditor.TagsInput.constructor | src/components/blog/form/TagsInput.tsx:11-12 | the editor starts with the tags it is given and an empty buffer |
| TagsEditor.TagsInput.InputChange | src/components/blog/form/TagsInput.tsx:14-16 | typing replaces the buffer and leaves the tags alone |
| TagsEditor.TagsInput.HandleKeyDown | src/components/blog/form/TagsInput.tsx:18-36 | the new state is `KeyDown` of the old one, and the list handed to `onChange` is emitted exactly when the tags change |
| TagsEditor.TagsInput.HandleRemoveTag | src/components/blog/form/TagsInput.tsx:38-41 | the emitted list is the old list without the tag, and the buffer is untouched |
| CategoryRegistry.DefaultCategoriesWellFormed | src/components/blog/form/CategorySelect.tsx:11-20 | the eight defaults have distinct ids, each one a slug, and none equals the reserved `add-new` option |
| CategoryRegistry.AllCategories | src/components/blog/form/CategorySelect.tsx:29 | the full list is the eight defaults followed by the custom categories in insertion order |
| CategoryRegistry.KeepSlugChars | src/components/blog/form/CategorySelect.tsx:51 | only characters in `[a-z0-9-]` remain, and a string made only of them is kept as is |
| CategoryRegistry.KeepSlugCharsAppend | src/components/blog/form/CategorySelect.tsx:51 | dropping characters works piece by piece: the result for a joined string is the joined results |
| CategoryRegistry.KeepSlugCharsOne | src/components/blog/form/CategorySelect.tsx:51 | a single character is kept exactly when it is in `[a-z0-9-]` |
| CategoryRegistry.Hyphenate | src/components/blog/form/CategorySelect.tsx:50 | no whitespace remains, and text without whitespace is unchanged |
| CategoryRegistry.HyphenateRun | src/components/blog/form/CategorySelect.tsx:50 | a whitespace run after whitespace-free text becomes exactly one `-` |
| CategoryRegistry.Slug | src/components/blog/form/CategorySelect.tsx:48-51 | a slug holds only characters in `[a-z0-9-]` and no whitespace |
| CategoryRegistry.SlugIdempotent | src/components/blog/form/CategorySelect.tsx:48-51 | the slug of a slug is the slug itself |
| CategoryRegistry.SlugCanBeEmpty | src/components/blog/form/CategorySelect.tsx:48-51 | a non-blank name such as `&&` gets the empty id |
| CategoryRegistry.SlugExample | src/components/blog/form/CategorySelect.tsx:48-51 | `" My Blog "` becomes `my-blog` |
| CategoryRegistry.CategorySelect.constructor | src/components/blog/form/CategorySelect.tsx:22-25 | the picker starts outside adding mode, with an empty input, no custom categories and the given value |
| CategoryRegistry.CategorySelect.HandleChange | src/components/blog/form/CategorySelect.tsx:31-39 | "add-new" enters adding mode and keeps the selection without emitting; any other value is emitted and becomes the selection |
| CategoryRegistry.CategorySelect.HandleNewCategoryChange | src/components/blog/form/CategorySelect.tsx:41-43 | typing replaces the name being entered |
| CategoryRegistry.CategorySelect.HandleAddCategory | src/components/blog/form/CategorySelect.tsx:45-68 | a blank name changes nothing; otherwise exactly one `{id: slug, name: trimmed name}` is appended, without a duplicate check, its id is selected and emitted, the input is cleared and adding mode ends |
| CategoryRegistry.CategorySelect.HandleCancel | src/components/blog/form/CategorySelect.tsx:70-73 | cancel leaves adding mode and clears the input; the custom list and the selection are untouched |
| Explore.DateLeIsLexicographic | src/app/explore/page.tsx:109-112 | one date is at most another exactly when it is a prefix of it, or the first differing character is smaller |
| Explore.DateLeTotal | src/app/explore/page.tsx:109-112 | any two dates are comparable |
| Explore.DateLeAntisym | src/app/explore/page.tsx:109-112 | dates that are ordered both ways are equal |
| Explore.DateLeTrans | src/app/explore/page.tsx:109-112 | the date order is transitive |
| Explore.InRangeBounds | src/app/explore/page.tsx:109-112 | when the start is not after the end, both bounds belong to the range; a range holding any date has its start not after its end |
| Explore.ApplyFilters | src/app/explore/page.tsx:97-114 | the result is never longer than the post list |
| Explore.ApplyFiltersIsOnePass | src/app/explore/page.tsx:97-114 | the chain of active stages equals a single filter by the conjunction of all active criteria |
| Explore.ApplyFiltersMembership | src/app/explore/page.tsx:99-113 | a post is shown iff it is in the list and matches every active criterion: equal category, equal author, `start <= date <= end` |
| Explore.ApplyFiltersKeepsOrder | src/app/explore/page.tsx:97-114 | the shown posts form a subsequence of the list, in the same relative order |
| Explore.NoCriterionShowsAll | src/app/explore/page.tsx:99-107 | with no active category, author or complete range, every post is shown |
| Explore.SingleBoundIgnored | src/app/explore/page.tsx:107 | a range with an empty bound filters exactly as no range at all |
| Explore.CategoryAuthorCommute | src/app/explore/page.tsx:99-105 | filtering by category then author equals filtering by author then category |
| Explore.CategoryOptions | src/app/explore/page.tsx:158 | the category list is duplicate-free, holds every post's category, and holds nothing else |
| Explore.AuthorOptions | src/app/explore/page.tsx:159 | the author list is duplicate-free, holds every post's author, and holds nothing else |
| Explore.OptionsInFirstOccurrenceOrder | src/app/explore/page.tsx:158 | categories are listed in the order of their first occurrence |
| Explore.AuthorOptionsInFirstOccurrenceOrder | src/app/explore/page.tsx:159 | authors are listed in the order of their first occurrence |
| Explore.MockBlogsNewestFirst | src/app/explore/page.tsx:12-79 | the demonstration list holds six posts with ids 1 to 6, each strictly older than the one before |
| Explore.TechnologyScenario | src/app/explore/page.tsx:12-79 | on the demonstration posts, the category Technology shows posts 1 and 6 |
| Explore.DateScenario | src/app/explore/page.tsx:12-113 | on the demonstration posts, the range 2024-03-12 to 2024-03-14 shows posts 2, 3 and 4, both bounds included |
| Seqs.Filter | src/app/explore/page.tsx:100 | `filter` keeps exactly the elements passing the test |
| Seqs.FilterCounts | src/app/explore/page.tsx:100 | `filter` keeps every copy of a passing element and no copy of a failing one |
| Seqs.FilterCommute | src/app/explore/page.tsx:99-105 | two filters may run in either order |
| Seqs.Distinct | src/app/explore/page.tsx:158-159 | `Array.from(new Set(s))` is duplicate-free and has the same members as `s` |
| Seqs.DistinctFirstOccurrenceOrder | src/app/explore/page.tsx:158-159 | distinct elements appear in the order of their first occurrence |
| Seqs.DistinctIsSubseq | src/app/explore/page.tsx:158-159 | the distinct elements form a subsequence of `s` |
| FilterPanel.Emitted | src/components/blog/FilterSection.tsx:26-30 | the emitted record carries all three selections, and an empty selection is an inactive criterion |
| FilterPanel.InitialSelectionShowsAll | src/components/blog/FilterSection.tsx:17-22 | the initial all-empty selection filters nothing out |
| FilterPanel.ClearedCategoryIgnored | src/components/blog/FilterSection.tsx:24-30 | an emitted empty category filters exactly like an absent one |
| FilterPanel.FilterSection.constructor | src/components/blog/FilterSection.tsx:17-22 | category, author and both date bounds start empty |
| FilterPanel.FilterSection.HandleCategoryChange | src/components/blog/FilterSection.tsx:24-31 | the category is replaced and emitted with the unchanged author and date range |
| FilterPanel.FilterSection.HandleAuthorChange | src/components/blog/FilterSection.tsx:33-40 | the author is replaced and emitted with the unchanged category and date range |
| FilterPanel.FilterSection.HandleDateChange | src/components/blog/FilterSection.tsx:42-50 | both bounds are replaced and emitted with the unchanged category and author |

## Left out

- Timers: the 500 ms delay before the explore result shows is left out. So are the 2000 ms form reset and the tooltip timeout. The reset is the explicit method `DraftForm.BlogCreationForm.Reset`.
- The `isLoading` flag of the explore view and the `showTooltip` flag of the picker are left out. They choose what is shown: the spinner instead of the results (src/app/explore/page.tsx:166), and the "Category added!" tooltip (src/components/blog/form/CategorySelect.tsx:143).
- The explore view's result state is left out. `Explore.ApplyFilters` computes the list it would hold.
- The unused `categories` and `authors` constants of the explore page are left out: the dropdowns get the lists derived from the posts.
- Randomness: the sidebar's rotating writing tips and quotes come from `Math.random` and `setInterval`, and are not modelled.
- `uuidv4()` and `new Date().toISOString()` become parameters of the constructor and of `Reset`.
- Storage writes: `localStorage` and JSON become the `Stored` datatype. `JSON.parse` throws on malformed text, and the spread throws on a parsed `null`, number, boolean or object. Both are `Corrupt`, and then nothing is appended. A failing `setItem`, such as a full quota, is not modelled.
- Stored values that spread without throwing are not modelled. One is a JSON string, which spreads into its characters; the draft is then appended and saved. The other is a list of values that are not drafts. `Stored` holds only a list of drafts.
- The throw and catch of a failed save are modelled as `Append` returning `None`. Its logging to the console is left out.
- Dates: `new Date(..)` comparisons become lexicographic comparisons of `YYYY-MM-DD` strings. For well-formed dates, that is chronological order. Strings that JavaScript parses to an invalid date (every comparison false) are not modelled.
- Lengths: JavaScript measures strings in UTF-16 code units, and the model measures them in Dafny characters. The two differ only for characters outside the Basic Multilingual Plane.
- `JsText.Lower`: only ASCII letters are lowered. `CategoryRegistry.Slug` is its only user, so the slug of a name with non-ASCII capitals may differ from what `toLowerCase` gives.
- Display strings: the sidebar's "Complete"/"Missing"/"Uploaded"/"No content" texts and the progress bar width are not modelled. Neither are the form's success banner and the error texts' rendering.
- Option rendering: the component rendering of the option lists is left out. The lists themselves are `AllCategories` and `CategoryOptions`/`AuthorOptions`.
- The rich-text editor, the image and author inputs, navigation, the theme toggle and share links are DOM or browser calls, and are not part of this model.
- `DraftForm.Draft`: the author is a single string, and only the title and the content are validated (src/components/blog/BlogCreationForm.tsx:18-27, 76-82).
- `DraftForm.BlogCreationForm.Submit`: the `isSubmitting` flag is set and cleared within one call. That is how the code behaves once its single submission finishes; a concurrent second submit is not modelled.

## Findings

| source | as written | input that shows it | evidently intended | confidence | as-written member | corrected member |
|---|---|---|---|---|---|---|
| src/components/blog/BlogSidebar.tsx:65 | `...` is appended when the raw content is longer than 150 characters, while the preview text is the tag-replaced content cut to 150 | a 151-character content that is one tag, `<` + 149 `x` + `>`: its tag-replaced text is `" "`, nothing is cut, yet the preview is `" ..."` | append `...` exactly when the tag-replaced text was longer than 150 characters and so was cut | medium, not executed | Sidebar.ContentPreview, Sidebar.EllipsisWithoutTruncation | Sidebar.TruncatedPreview |
