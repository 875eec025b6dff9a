# CodeLens AI: a verified model of the analysis and blog core

CodeLens AI is a web application. A signed-in user pastes code, picks a
language, and asks a generative model for the code's time and space
complexity; the analyses are kept in a personal history. Users also write
blogs in a rich-text editor and publish them to a community list.

This project models the deterministic logic inside that application, and
proves properties of it:

- **The complexity-analysis service** (`GeminiService`):
  - filling the prompt template: every language slot, then the first code slot;
  - recovering the JSON candidate from the model's reply (the first fenced
    block, an optional `json` tag, trimming);
  - building the report with per-field fallbacks;
  - the rule that every exception becomes a failure outcome.
- **The blog schema** (`BlogModel`):
  - the slug derived from the title and a timestamp;
  - the title, tag and published constraints;
  - a blog document whose setters and pre-save hook change its fields in place.
- **The request handlers** (`BlogController`, `AnalysisController`): stores
  that are classes holding a map from id to record, with one method per handler
  returning a status code and a body. They cover create-time validation and
  defaults, visibility of unpublished blogs, author-or-admin rights for blogs,
  owner-only rights for analyses, the field-by-field update merge, persisting
  only after a successful analysis, and the newest-first listings.
- **The pages**:
  - the blog renderer, which turns the editor's document into a presentation
    tree (`BlogView`);
  - the blog search filter (`BlogsPage`);
  - the history page's code preview, delete and expand toggle (`HistoryPage`);
  - the blog editor's tag list and submit checks (`BlogWrite`);
  - the analyzer page's language lookup and button gating (`AnalyzerPage`).

  The pages that change state step by step are classes whose methods change
  their fields.

Supporting modules:
- `Text` holds the JavaScript string operations the core relies on: ASCII
  `toLowerCase`, `trim`, `includes`, `indexOf`, and `replace` with a plain
  string.
- `JsonValue` holds a JSON value with JavaScript truthiness and member access.
- `Listing` specifies a filtered, newest-first selection from a map, and gives
  a method that computes it.
- `Sequences` holds an order-keeping filter.
- `Identity` holds users and the admin role.

The model follows the code as written, including these details:
- A heading without a level is rendered as an `h2` with no style, because the
  style table is looked up with the raw level.
- A complexity leaf keeps any truthy parsed value, not only strings.
- A blog created with `published` missing is unpublished (`published || false`).
- An update's `published`, when present, replaces the stored one.

## Model

| member | source | states |
|---|---|---|
| `GeminiService.BuildPromptLayout` | backend/services/geminiService.js:3-33 | with a language free of the code tag, the prompt is the template with the language verbatim in both language slots and the code verbatim in the code slot |
| `GeminiService.BuildPromptCodeInLanguage` | backend/services/geminiService.js:31-33 | languages are filled in first, so a language containing the code tag receives the code at its first tag, and the template's own code slot is sent unfilled |
| `GeminiService.FillLanguage` | backend/services/geminiService.js:32 | the global replace fills every language slot and touches nothing else in the template |
| `GeminiService.CodeSlotIsFirst` | backend/services/geminiService.js:33 | after the language is filled in, the template's code slot is the first occurrence of the code tag, so the single replace hits it |
| `GeminiService.CandidateFromFirstPair` | backend/services/geminiService.js:50-54 | with an opening fence and a later closing fence, the candidate is the trimmed text between the first such pair, with a literal lower-case `json` right after the opening fence dropped and any other tag kept |
| `GeminiService.CandidateWithoutPair` | backend/services/geminiService.js:50-54 | with no complete fence pair, the candidate is the whole reply, untrimmed |
| `GeminiService.ReportLeaves` | backend/services/geminiService.js:62-71 | each of the six complexity leaves is the parsed leaf when it is truthy and "N/A" otherwise |
| `GeminiService.ReportExplanation` | backend/services/geminiService.js:72 | the explanation is the parsed one when truthy and "No explanation provided" otherwise |
| `GeminiService.WrongShapeDefaults` | backend/services/geminiService.js:57-73 | an empty object or a non-object value (number, string, array, boolean) gives the all-defaults report and not a failure |
| `GeminiService.WellFormedReplyVerbatim` | backend/services/geminiService.js:59-75 | a reply in exactly the requested shape, with non-empty strings, is reported verbatim |
| `GeminiService.FailureMessage` | backend/services/geminiService.js:80 | a failure message is never empty: the exception's own message, else "Failed to analyze code" |
| `GeminiService.AnalyzeCode` | backend/services/geminiService.js:27-83 | success exactly when the model answers, the candidate parses and the parsed value is not null; on success `rawResponse` is the unmodified reply; a failure carries a non-empty error |
| `GeminiService.SyntaxFailsShapeDoesNot` | backend/services/geminiService.js:57-81 | a candidate that does not parse fails with the parser's message; one that parses to null fails with the null-access error; any other parsed value succeeds with the report built from it |
| `GeminiService.ModelFailure` | backend/services/geminiService.js:42-45 | a failing model call fails the analysis with its own message, whatever the parser would do |
| `Text.TrimSkipsLeadingWhitespace` | backend/services/geminiService.js:51-53 | whitespace the regular expression's `\s*` consumes before the captured group does not change the trimmed candidate |
| `Text.ReplaceFirstSpec` | backend/services/geminiService.js:33 | a string `replace` with a plain pattern leaves text without an occurrence unchanged and otherwise substitutes exactly the first occurrence |
| `Text.ReplaceAllAfter` | backend/services/geminiService.js:32 | a global replace substitutes an occurrence and continues after it |
| `Text.TrimLowerCommute` | backend/models/Blog.js:25-29 | trimming and lower-casing give the same tag in either order |
| `BlogModel.CollapseRuns` | backend/models/Blog.js:45 | the collapsed text is over `[a-z0-9-]`, has no doubled hyphen, is empty only for empty input, and begins and ends with a hyphen exactly when the input begins and ends with a character outside `[a-z0-9]` |
| `BlogModel.CollapseSeparator` | backend/models/Blog.js:45 | a non-empty run of characters outside `[a-z0-9]` between two parts that meet it with `[a-z0-9]` characters becomes exactly one hyphen, and each part collapses on its own |
| `BlogModel.ExampleSlugBase` | backend/models/Blog.js:43-46 | the title "Big O, Explained!" gets the slug base `big-o-explained` |
| `BlogModel.CollapseKeepsAlnums` | backend/models/Blog.js:45 | collapsing keeps every `[a-z0-9]` character of the text, in order |
| `BlogModel.BaseShape` | backend/models/Blog.js:43-46 | the slug base is over `[a-z0-9-]` with no doubled hyphen and no leading or trailing hyphen |
| `BlogModel.BaseKeepsAlnums` | backend/models/Blog.js:43-46 | the slug base keeps exactly the `[a-z0-9]` characters of the lower-cased title, in order |
| `BlogModel.SlugCharacters` | backend/models/Blog.js:43-47 | every character of a slug is in `[a-z0-9-]` |
| `BlogModel.NoAlnumTitle` | backend/models/Blog.js:43-47 | the base is empty exactly when the lower-cased title has no `[a-z0-9]` character, and then the slug is `-` followed by the timestamp digits |
| `BlogModel.Base36RoundTrip` | backend/models/Blog.js:47 | reading the base-36 digits of a timestamp back gives the timestamp |
| `BlogModel.SlugTimestamp` | backend/models/Blog.js:47 | the text after a slug's last hyphen is the base-36 form of its timestamp |
| `BlogModel.SlugDeterminesTimestamp` | backend/models/Blog.js:43-47 | two equal slugs come from the same timestamp and the same base, so titles saved at different instants never collide |
| `BlogModel.TitleError` | backend/models/Blog.js:10-15 | a title passes validation exactly when it is non-empty and at most 200 characters |
| `BlogModel.NormalizeTagStable` | backend/models/Blog.js:25-29 | the tag setter's trimming and lower-casing is idempotent, and is the same as lower-casing and then trimming |
| `BlogModel.NormalizeTags` | backend/models/Blog.js:25-29 | every tag of a list goes through the setter, position by position |
| `BlogModel.BlogDocument.Create` | backend/models/Blog.js:10-33 | a new document holds the trimmed title and normalized tags and counts its title as modified |
| `BlogModel.BlogDocument.Load` | backend/controllers/blogController.js:117 | a loaded document holds the stored blog with nothing modified |
| `BlogModel.BlogDocument.SetTitle` | backend/models/Blog.js:10-15 | assigning a title stores it trimmed and marks the title modified only when the stored value changes |
| `BlogModel.BlogDocument.SetContent` | backend/controllers/blogController.js:134 | assigning content changes only the content |
| `BlogModel.BlogDocument.SetTags` | backend/models/Blog.js:25-29 | assigning tags stores them trimmed and lower-cased and changes nothing else |
| `BlogModel.BlogDocument.SetPublished` | backend/controllers/blogController.js:136 | assigning `published` changes only that field |
| `BlogModel.BlogDocument.PreSave` | backend/models/Blog.js:41-49 | the hook replaces the slug with the one derived from the title and the timestamp exactly when the title was modified; otherwise nothing changes |
| `BlogModel.SavedDocumentWellFormed` | backend/models/Blog.js:10-49 | a blog that passed validation and got its slug meets the schema's invariant, and its slug is over `[a-z0-9-]` |
| `BlogController.BlogStore.CreateBlog` | backend/controllers/blogController.js:6-26 | a falsy title or content gives 400 and stores nothing; otherwise the blog with the requester as author, tags defaulting to none and `published` to false is validated, given its slug and stored with 201 |
| `BlogController.BlogStore.GetBlogs` | backend/controllers/blogController.js:31-42 | the reply lists exactly the published blogs, each once, newest first, without content |
| `BlogController.BlogStore.GetMyBlogs` | backend/controllers/blogController.js:100-110 | the reply lists exactly the requester's blogs, each once, newest first, without content |
| `BlogController.BlogStore.FindBySlug` | backend/controllers/blogController.js:49 | the lookup finds a blog with the slug exactly when one exists |
| `BlogController.BlogStore.GetBlogBySlug` | backend/controllers/blogController.js:47-69 | 200 exactly when a blog has the slug and is published or the viewer is present and its author or an administrator; every other case is the same 404, never a 403 |
| `BlogController.UnpublishedVisibility` | backend/controllers/blogController.js:56-63 | an unpublished blog is visible exactly to a present author or administrator, never to an anonymous visitor |
| `BlogController.BlogStore.GetBlogById` | backend/controllers/blogController.js:74-95 | 404 when missing, 403 unless author or administrator, the blog otherwise |
| `BlogController.BlogStore.UpdateBlog` | backend/controllers/blogController.js:115-143 | 404 or 403 leave the store unchanged; otherwise the merged blog is validated, given a new slug only if its title changed, and stored in place |
| `BlogController.BlogStore.Assign` | backend/controllers/blogController.js:131-136 | the four assignments leave the document holding the merge, with the title modified exactly when its stored value changed |
| `BlogController.MergeFields` | backend/controllers/blogController.js:131-136 | title and content are replaced only by truthy values; tags and `published` are replaced whenever present, including `[]` and `false`; author and creation time never change; the slug changes only with the title |
| `BlogController.EmptyUpdateIsIdentity` | backend/controllers/blogController.js:131-138 | an update with an empty body stores the blog unchanged |
| `BlogController.BlogStore.Save` | backend/models/Blog.js:10-49 | a title error stores nothing; otherwise the hook runs and the blog is written, unless another blog holds its slug |
| `BlogController.BlogStore.Put` | backend/models/Blog.js:16-20 | the unique slug index refuses a second blog with the same slug, and the write otherwise stores the blog under its id |
| `BlogController.BlogStore.DeleteBlog` | backend/controllers/blogController.js:148-169 | 404 when missing, 403 unless author or administrator, both with the store unchanged; otherwise exactly that blog is removed |
| `BlogController.Summaries` | backend/controllers/blogController.js:36 | a listing row is the blog without its content, in the listing's order |
| `Listing.SelectNewestFirst` | backend/controllers/blogController.js:33-35 | the selected ids are exactly the records the filter keeps, each once, ordered by creation time, newest first |
| `Listing.ListingsAgree` | backend/controllers/analysisController.js:52-53 | any two such listings have the same length and the same creation time at every position, so the order is fixed up to ties |
| `AnalysisController.AnalysisStore.CreateAnalysis` | backend/controllers/analysisController.js:7-45 | a falsy code or language gives 400, does not depend on the model and stores nothing; a failed analysis gives 500 with the service's error and stores nothing; a value the schema cannot cast to a string, or a language that trims to nothing, gives 500 with a validation message and stores nothing (the language message exactly when the values cast); otherwise the cast record is stored under a fresh id and 201 returns it without the raw reply |
| `AnalysisController.CastToString` | backend/models/Analysis.js:19-31 | a `String` path keeps null, strings and numbers, and never holds an array or an object; an array fails the cast, and an object passes exactly when its `_id` member is a non-empty string |
| `AnalysisController.CastIdempotent` | backend/models/Analysis.js:19-31 | a value the cast produced casts to itself |
| `AnalysisController.CastComplexity` | backend/models/Analysis.js:19-28 | a complexity group is stored exactly when its three leaves cast, and then holds the three cast leaves |
| `AnalysisController.CastReport` | backend/models/Analysis.js:19-34 | a report is stored exactly when both groups and the explanation cast; the stored report holds the cast values and the raw reply unchanged |
| `AnalysisController.StringReportStoredAsIs` | backend/models/Analysis.js:19-31 | a report whose seven values are strings is stored unchanged |
| `AnalysisController.StructuredExplanationRejected` | backend/models/Analysis.js:29-31 | an array explanation, or an object explanation without an `_id`, fails the cast whatever the groups hold |
| `AnalysisController.RecordKeepsRawReply` | backend/controllers/analysisController.js:23-41 | the stored record keeps the model's unmodified reply and the trimmed language, and the 201 body mirrors the code as sent |
| `AnalysisController.AnalysisStore.GetAnalysisHistory` | backend/controllers/analysisController.js:50-60 | the reply lists exactly the requester's analyses, each once, newest first, without the raw reply |
| `AnalysisController.Entries` | backend/controllers/analysisController.js:54 | a history row is the record without its raw reply, in the listing's order |
| `AnalysisController.AnalysisStore.GetAnalysis` | backend/controllers/analysisController.js:65-82 | 404 when missing, 403 for anyone but the owner (administrators included), the whole record otherwise |
| `AnalysisController.AnalysisStore.DeleteAnalysis` | backend/controllers/analysisController.js:87-105 | 404 or 403 leave the store unchanged; the owner's request removes exactly that record |
| `BlogView.RenderContent` | frontend/src/pages/BlogView.jsx:53-56 | a missing document, or one without top-level content, renders nothing |
| `BlogView.RenderBlocksPointwise` | frontend/src/pages/BlogView.jsx:56-107 | top-level nodes render one to one, in order; a node of unknown type gives a null entry at its own position |
| `BlogView.RenderBlocksAppend` | frontend/src/pages/BlogView.jsx:56 | rendering distributes over concatenation, so one node's type never affects its siblings |
| `BlogView.HeadingTagLevel` | frontend/src/pages/BlogView.jsx:65 | the heading element's level is the node's level, or 2 when it is missing or zero |
| `BlogView.HeadingStyle` | frontend/src/pages/BlogView.jsx:66-72 | a heading has a style exactly when its raw level is 1, 2 or 3 |
| `BlogView.MissingHeadingLevel` | frontend/src/pages/BlogView.jsx:65-72 | a heading without a level is an `h2` with the empty style, unlike an explicit level 2 |
| `BlogView.CodeTextAppend` | frontend/src/pages/BlogView.jsx:80 | a code block shows its children's texts concatenated in order |
| `BlogView.CodeTextIgnoresMarks` | frontend/src/pages/BlogView.jsx:80 | a code block's text does not depend on its children's marks |
| `BlogView.RenderListItems` | frontend/src/pages/BlogView.jsx:84-103 | a list renders one entry per item, in order, and nothing when it has no content |
| `BlogView.NestedListRendersNulls` | frontend/src/pages/BlogView.jsx:89 | a list nested in a list item renders as a run of nulls, because its items are not text |
| `BlogView.RenderInline` | frontend/src/pages/BlogView.jsx:110-111 | missing inline content renders as null |
| `BlogView.RenderItemsPointwise` | frontend/src/pages/BlogView.jsx:112-129 | inline children render one to one, in order |
| `BlogView.RenderItem` | frontend/src/pages/BlogView.jsx:113-128 | an inline child renders as a span exactly when its type is `text` |
| `BlogView.RenderSpan` | frontend/src/pages/BlogView.jsx:114-126 | the loop over a span's marks computes the left fold of the marks over the text |
| `BlogView.WrapMark` | frontend/src/pages/BlogView.jsx:117-123 | a bold mark wraps the span in a strong element, italic in an emphasis element and code in an inline code element, each around the same text; any other mark leaves the span unchanged |
| `BlogView.MarksCompose` | frontend/src/pages/BlogView.jsx:116-124 | applying two mark lists in turn is applying their concatenation |
| `BlogView.UnknownMarksIgnored` | frontend/src/pages/BlogView.jsx:116-124 | dropping the marks other than bold, italic and code does not change the span |
| `BlogView.MarksKeepText` | frontend/src/pages/BlogView.jsx:114-126 | the marks never change the text, and each known mark adds exactly one wrapper |
| `BlogView.BoldThenItalic` | frontend/src/pages/BlogView.jsx:116-124 | `[bold, italic]` puts the bold inside the italic |
| `BlogView.CanEditMatchesServer` | frontend/src/pages/BlogView.jsx:42 | the edit actions show exactly when a user and a blog are present and the user is the author or an administrator, the rule the server applies |
| `BlogsPage.FilterBlogs` | frontend/src/pages/Blogs.jsx:29-32 | a blog is kept exactly when its lower-cased title, or one of its lower-cased tags, contains the lower-cased term; a kept blog appears as many times as it was loaded, and a dropped one not at all |
| `BlogsPage.FilterKeepsOrder` | frontend/src/pages/Blogs.jsx:29 | the result is the loaded list with some blogs deleted, never reordered |
| `BlogsPage.EmptyTermKeepsAll` | frontend/src/pages/Blogs.jsx:29-32 | the empty term keeps every blog |
| `BlogsPage.TaglessMatchesTitleOnly` | frontend/src/pages/Blogs.jsx:31 | a blog without tags matches on its title alone |
| `BlogsPage.SearchIgnoresTermCase` | frontend/src/pages/Blogs.jsx:30-31 | the term's ASCII case does not matter |
| `BlogsPage.EmptyStateNamesSearch` | frontend/src/pages/Blogs.jsx:76-78 | the empty-state heading is "No blogs found" exactly when the term is non-empty, and "No blogs yet" otherwise |
| `HistoryPage.TruncateCode` | frontend/src/pages/History.jsx:48-51 | code that fits is unchanged; longer code becomes its first `maxLength` characters and `...`, of length `maxLength + 3` |
| `HistoryPage.DefaultPreviewLength` | frontend/src/pages/History.jsx:48 | with the default limit, a long preview is 103 characters |
| `HistoryPage.WithoutId` | frontend/src/pages/History.jsx:32 | after a delete, the list holds exactly the loaded rows with another id, each as many times as it was loaded |
| `HistoryPage.WithoutIdKeepsOrder` | frontend/src/pages/History.jsx:32 | the rows kept after a delete keep their order |
| `HistoryPage.WithoutAbsentId` | frontend/src/pages/History.jsx:32 | deleting an id that is not listed leaves the list as it was |
| `HistoryPage.HistoryState.HandleDelete` | frontend/src/pages/History.jsx:27-36 | a declined confirmation changes nothing; a failed delete keeps the list and sets the error; a successful one drops the rows with that id |
| `HistoryPage.HistoryState.ToggleExpanded` | frontend/src/pages/History.jsx:105 | clicking the expanded row collapses it, and clicking any other row makes it the only expanded one |
| `BlogWrite.BlogWriteState.constructor` | frontend/src/pages/BlogWrite.jsx:110-115 | the editor opens with no tags and `published` switched on |
| `BlogWrite.BlogWriteState.AddTag` | frontend/src/pages/BlogWrite.jsx:134-140 | the trimmed, lower-cased input is appended and the input cleared, unless it is empty or already listed, in which case nothing changes; the list stays duplicate-free and normalized |
| `BlogWrite.AppendKeepsGood` | frontend/src/pages/BlogWrite.jsx:136-137 | appending a new, non-empty, normalized tag keeps the list duplicate-free and normalized |
| `BlogWrite.BlogWriteState.RemoveTag` | frontend/src/pages/BlogWrite.jsx:142-144 | every equal entry goes and the others keep their order; the list shrinks by one exactly when the tag was listed |
| `BlogWrite.SubsequenceKeepsDistinct` | frontend/src/pages/BlogWrite.jsx:143 | deleting entries keeps a list free of duplicates |
| `BlogWrite.BlogWriteState.TogglePublished` | frontend/src/pages/BlogWrite.jsx:266 | each toggle flips `published` and changes nothing else |
| `BlogWrite.BlogWriteState.BeginSubmit` | frontend/src/pages/BlogWrite.jsx:153-175 | a blank title is refused with "Title is required" before the content is looked at, and a document without top-level nodes with "Content is required"; otherwise the error is cleared, loading starts and the body is sent |
| `BlogWrite.BlogWriteState.CompleteSubmit` | frontend/src/pages/BlogWrite.jsx:176-181 | loading stops; success navigates to the new slug; failure shows the server's message or "Failed to create blog" |
| `BlogWrite.SentBodyPassesServerChecks` | frontend/src/pages/BlogWrite.jsx:156-175 | a body the editor sends passes the server's presence check, and the only title error it can still meet is the length limit |
| `AnalyzerPage.FindIndex` | frontend/src/pages/Analyzer.jsx:40 | the lookup stops at the first entry with the value, and finds none exactly when no entry has it |
| `AnalyzerPage.ListedExtension` | frontend/src/pages/Analyzer.jsx:14-20 | each listed language gets its own entry's editor support |
| `AnalyzerPage.ExtensionFallbacks` | frontend/src/pages/Analyzer.jsx:39-42 | `c` uses the C++ support and any unlisted value falls back to JavaScript |
| `AnalyzerPage.AnalyzerState.constructor` | frontend/src/pages/Analyzer.jsx:30-34 | the page opens on JavaScript with the sample code, no result, no error and not loading |
| `AnalyzerPage.AnalyzerState.SelectLanguage` | frontend/src/pages/Analyzer.jsx:89-97 | the selector only sets listed languages and changes nothing else |
| `AnalyzerPage.AnalyzerState.BeginAnalyze` | frontend/src/pages/Analyzer.jsx:44-60 | without a session the user is redirected and nothing changes; blank code is then refused with its message; otherwise the error and result are cleared, loading starts and the code and language are sent |
| `AnalyzerPage.AnalyzerState.CompleteAnalyze` | frontend/src/pages/Analyzer.jsx:59-66 | loading stops; success shows the server's body; failure shows its message or "Analysis failed. Please try again." |
| `AnalyzerPage.SentRequestPassesServerChecks` | frontend/src/pages/Analyzer.jsx:44-60 | a request the page sends passes the server's presence check, and its language survives the server's trimming unchanged |

## Left out

- The generative-model client and the network call are a parameter `generate`
  that returns the reply text or the thrown error's message. `backend/config/gemini.js`
  is not part of this model.
- `JSON.parse` is a parameter `parse` that returns a JSON value or the syntax
  error's message. The grammar itself is not modelled.
- `GeminiService.BuildPromptLayout` and `GeminiService.BuildPromptCodeInLanguage`
  take as a hypothesis that the template's text before the first language slot
  holds no `{{`. The text is a constant of 566 characters, and that fact
  about it is stated rather than proved.
- The `$` patterns of `String.prototype.replace` are not modelled. A language
  or code containing `$&`, `$$` or similar would be expanded by the runtime;
  the model substitutes it literally.
- `toLowerCase` is modelled on ASCII letters only. Other letters keep their case.
- String lengths count code points, not UTF-16 code units. This matters for
  the 200-character title limit and `truncateCode` on text outside the Basic
  Multilingual Plane.
- `response.text` being undefined (a reply with no text part) is not
  modelled. The reply is always a string.
- `AnalysisController.AnalysisStore.CreateAnalysis`: the message of a
  validation failure is stated only by its `Analysis validation failed: `
  prefix when a value does not cast. The paths and values Mongoose lists after
  it, and the combined message when the language is blank too, are not modelled.
- `AnalysisController.CastToString`: a number assigned to a `String` path is
  stored as its JavaScript text in the original. The model keeps the number,
  because JavaScript's number formatting is not modelled.
- The authentication middleware is left out: the requester is a `User`
  parameter, and an optional one where the route is public.
- Mongoose's `populate`, `select`, `timestamps` and ids are left out. The
  current time is a parameter, and ids are natural numbers handed out in order.
- A malformed id in a URL raises a cast error and a 500 in the original. Here
  every id is well formed.
- `getBlogBySlug` and `getBlogById` read the `_id` of a populated author. When
  that user was deleted, `populate` yields null, the read throws, and the
  handler answers 500. The model always has an author.
- The request body's fields are either present or left out. A `null` field,
  and a field of the wrong JSON type (a number as title, a string as tags), are
  not modelled.
- `BlogController.BlogStore.Put`: the unique slug index is the database's. The
  model checks it in the store and reports it with a fixed message; the
  driver's exact duplicate-key text is not modelled.
- `AnalysisController.AnalysisStore.CreateAnalysis`: that the analyzer is
  not called on a 400 is stated as the 400 reply and the unchanged store not
  depending on `generate` or `parse`. Calls themselves are not observable in
  the model.
- The renderer takes the document as a `Node` tree. Decoding the editor's JSON
  into that tree, and a missing `text` field (rendered like the empty string),
  are not modelled.
- The React markup is left out. This covers keys, CSS classes other than the
  heading styles, and the editors' components.
- `confirm`, navigation and the asynchronous request plumbing become
  parameters (`confirmed`, `serverOk`, a `Result` response) or return values.
  Loading the history and the blog list is left out.
- `formatDate` depends on the locale and is left out.
