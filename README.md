# what_i_do_with_ai, modelled in Dafny

The repository is a set of small scripts that call remote AI services. Under their HTTP and
SDK calls sits deterministic logic, and this project models that logic and proves properties
of it. The remote calls, the clock, the file system and the browser are parameters.

- **text_correction_with_doubao.py** (`TextCorrection`). `split_long_text` cuts long text at
  the last "。" inside a window of `max_length` characters. `main` sends each piece, wrapped in
  `<note>` tags, to the chat model, strips the tags from each reply and joins the replies.
  `split_notes` and `save_modified_notes` split a notes file on "## " headings and write the
  corrected notes back.
- **text_classification_with_doubao.py** (`TextClassification`). `split_notes` cleans notes
  with a custom strip set. `decide_category` asks the model for a category. The
  `save_organized_notes` report groups the notes by category, in order of first appearance.
- **docx2corrected_md.py** (`DocxImages`, `DocxMarkdown`, `DocxFiles`). `extract_images`
  renames images without collisions. `docx_to_markdown` renders headings and image links.
  `process_files` selects the files, skips or converts each one, and counts the results.
- **read_images_with_doubao_ocr.py** (`VolcOcr`). The Volcengine request signature, which has
  the shape of AWS Signature Version 4: the canonical request, the string to sign, the derived
  key and the Authorization header. Also the classification of the OCR reply. SHA-256, HMAC,
  hex, base64 and urlencode are opaque functions.
- **create_image_with_freepik.py** (`Freepik`). The Imagen3 payload, the task-id and status
  lookups, the polling loop over an abstract clock, and the download list with its file names.
- **removeBG_and_centerOJ.py** (`RemoveBg`). The bounding box of the visible pixels, the
  integer layout of `center_object`, and which files are converted under which names.
- **split_image_to_icons.py** (`Icons`). The grid of tile boxes and their file names.
- **genre_scraper_agentql.py** and **genre_scraper_playwright.py** (`GenreScraperAgentql`,
  `GenreScraperPlaywright`, and the shared `Genres`). Batching and the click trace. The mapping
  from detail rows to fields. The CSV and JSON files the scrapers write.

Helper modules model the Python built-ins the scripts rely on:

- `Strings`: strip, split, join and `str(n)`.
- `StrOrder`: string order and a stable `sorted`.
- `PyDict`: an insertion-ordered dict.
- `PyJson`: JSON values with `in`, `get`, `[...]`, truthiness, `repr` and `json.dump`.
- `PyList`: slices and `range`.
- `PyPath`: pathlib names.
- `Arith`: `//`, `min` and `max`.
- `Chat`: the chat-completion request shape shared by both Doubao scripts.
- `Wrappers`: Option and Result. A raised exception is a `Failure` carrying its message.

Where a script loops or fills a dict step by step, the model has a `method` with that loop.
The method is proved equal to a specification function, and the lemmas state what the source
promises about that function.

The segmenter's code has these edge behaviours, which the model keeps:

- Empty text comes back as `[""]`, not as an empty list.
- A cut with no "。" in the window takes `max_length + 1` characters, not `max_length`.
- The pieces leave out the whitespace that `lstrip` dropped after each cut, so they do not
  rejoin to the exact input.
- `main` segments with the default window of 2000 whatever `max_length` it is given.

Each of these is stated as a lemma about the model: `TextCorrection.SplitLongText`,
`TextCorrection.CutLengthStops`, `TextCorrection.UnsplitUpToDefault` and the reassembly lemmas
in the table below.

## Model

| member | source | states |
|---|---|---|
| TextCorrection.CutLength | text_correction_with_doubao.py:117-121 | a cut takes between 1 and max_length+1 characters and never more than the text holds |
| TextCorrection.CutLengthStops | text_correction_with_doubao.py:117-121 | a cut of at most max_length characters ends at a "。" with no later "。" inside the window (`rfind`); a cut of max_length+1 characters happens exactly when the window holds no "。" |
| TextCorrection.SplitLongText | text_correction_with_doubao.py:96-124 | the while loop returns exactly `LongTextSegments`, and text no longer than max_length comes back as `[text]`, `[""]` included |
| TextCorrection.SegmentsShape | text_correction_with_doubao.py:111-122 | only empty text gives no segments; every segment but the last is a cut (ends at "。" within the window, or is a forced cut of max_length+1 characters) and the last is a cut or a short remainder, so every segment is non-empty |
| TextCorrection.SegmentsNoLeadingSpace | text_correction_with_doubao.py:122 | the first segment starts with the text's first character and no later segment starts with whitespace |
| TextCorrection.SegmentsReassemble | text_correction_with_doubao.py:111-122 | interleaving the segments with runs of whitespace (what `lstrip` removed) gives back the text, so only leading whitespace of each remainder is lost |
| TextCorrection.SegmentsConcatNoSpace | text_correction_with_doubao.py:111-122 | for text without whitespace the segments concatenate back to the text |
| TextCorrection.ForcedCutExample | text_correction_with_doubao.py:118-121 | a forced cut is max_length+1 characters long: "aaa" with max_length 2 comes back as the single segment "aaa" |
| TextCorrection.TaggedLength | text_correction_with_doubao.py:145-146 | a reply that starts with `<note>` and ends with `</note>` is at least 13 characters long, so the two tags do not overlap |
| TextCorrection.StripNoteTags | text_correction_with_doubao.py:145-146 | a tagged reply is `<note>` + the result + `</note>` (6 and 7 characters dropped); any other reply is unchanged |
| TextCorrection.StripWrapped | text_correction_with_doubao.py:145-146 | stripping undoes wrapping: strip(`<note>`+x+`</note>`) = x |
| TextCorrection.MessageTextRoundTrip | text_correction_with_doubao.py:141 | the user message is the fixed instruction followed by the text in `<note>` tags, and the text can be read back from it verbatim |
| TextCorrection.RequestInjective | text_correction_with_doubao.py:139-143 | different texts give different requests |
| TextCorrection.CorrectAll | text_correction_with_doubao.py:137-147 | the run succeeds exactly when every text's call succeeds; then reply i (tags stripped) is the result for text i; otherwise the error is that of the first failing call, all before it having succeeded |
| TextCorrection.CorrectEach | text_correction_with_doubao.py:137-147 | the loop sends the texts in order and collects exactly `CorrectAll` |
| TextCorrection.CorrectNote | text_correction_with_doubao.py:127-159 | main computes `Corrected`: a note longer than max_length is split with the default window of 2000, corrected piece by piece and joined with "\n"; any other note is sent once |
| TextCorrection.UnsplitUpToDefault | text_correction_with_doubao.py:131-134 | a note longer than max_length but no longer than 2000 is still sent whole, with the same result as the short path |
| TextCorrection.EchoRoundTrip | text_correction_with_doubao.py:131-159 | with a model that echoes each text in tags, main returns the note on the short path and its segments joined by "\n" on the long path |
| TextCorrection.ModifiedPathShape | text_correction_with_doubao.py:91 | the output file sits beside the input, has suffix ".md" and stem `<input stem>_modified` |
| TextCorrection.SaveModifiedNotes | text_correction_with_doubao.py:68-94 | every note is corrected in order and the replies joined with a blank line are written to the `_modified.md` file; the first failing call ends the run |
| TextCorrection.SplitFrom | text_correction_with_doubao.py:66 | `re.split` always returns at least one piece |
| TextCorrection.SplitNotesJoins | text_correction_with_doubao.py:47-66 | joining the pieces with "## " gives back the content |
| TextCorrection.SplitNotesCount | text_correction_with_doubao.py:47-66 | there is one piece more than the content has lines starting with "## " |
| TextClassification.CleanNotesConcat | text_classification_with_doubao.py:90 | the comprehension treats each piece on its own and in place: the notes of a + b are the notes of a followed by those of b |
| TextClassification.CleanNotesSingle | text_classification_with_doubao.py:90 | a piece contributes its `strip('\- \n\t')` text when its `strip()` is non-empty, and nothing otherwise |
| TextClassification.CleanNotesFrom | text_classification_with_doubao.py:90 | every note is the trimmed text of some piece that passed the filter |
| TextClassification.DashesBecomeEmpty | text_classification_with_doubao.py:90 | a non-empty piece of hyphens and backslashes passes the filter and is trimmed to "", so split_notes can return empty notes |
| TextClassification.RegexSplitWithout | text_classification_with_doubao.py:88 | splitting text that lacks a character gives pieces that lack it |
| TextClassification.CleanNotesWithout | text_classification_with_doubao.py:90 | filtering and trimming pieces that lack a character gives notes that lack it |
| TextClassification.NotesHaveNoEmSpace | text_classification_with_doubao.py:87-92 | every U+2003 becomes a newline before the split, so no note holds one |
| TextClassification.QuestionRoundTrip | text_classification_with_doubao.py:64-70 | the user message is the question followed by the note between two "\n~~~\n" fences, and the note can be read back from it verbatim |
| TextClassification.Categories | text_classification_with_doubao.py:104-105 | the run succeeds exactly when every question succeeds; then category i is the reply for note i; otherwise the error is that of the first failing question |
| TextClassification.CategoriesFailAt | text_classification_with_doubao.py:104-105 | the run stops with the error of the first note whose question fails |
| TextClassification.CategoriesAllSucceed | text_classification_with_doubao.py:104-105 | when every question succeeds the run returns exactly the replies, in note order |
| TextClassification.IndexOf | text_classification_with_doubao.py:107 | the first occurrence of a category: it holds the category and none before it does |
| TextClassification.DistinctSpec | text_classification_with_doubao.py:107-112 | the dict's key order holds every category that occurs, each once, ordered by first appearance |
| TextClassification.DistinctSnoc | text_classification_with_doubao.py:107 | a category seen before leaves the key order alone; a new one joins its end |
| TextClassification.MembersAbsent | text_classification_with_doubao.py:107 | a category no note has holds no notes |
| TextClassification.GroupsSnoc | text_classification_with_doubao.py:107 | one `setdefault(category, []).append(note)`: the category's list, or [] when new, gains the note |
| TextClassification.GroupingValid | text_classification_with_doubao.py:103-107 | every key in the order is a key of the dict and no key is listed twice |
| TextClassification.GroupSizesTotal | text_classification_with_doubao.py:103-107 | the group sizes add up to the number of notes: each note lands in exactly one group |
| TextClassification.OrganizeStep | text_classification_with_doubao.py:104-107 | one turn of the loop: a category is a key exactly when it was seen, a new one extends the key order, and the dict gains the note under its category |
| TextClassification.OrganizeNotes | text_classification_with_doubao.py:103-107 | the loop fails exactly when a question fails, with that error; otherwise the dict is the notes grouped by category in input order, keys in order of first appearance |
| TextClassification.AppendStats | text_classification_with_doubao.py:122-125 | the statistics loop appends one line per category, in key order |
| TextClassification.AppendSection | text_classification_with_doubao.py:130-133 | a category's section is its "## " heading, each note followed by a rule, then a blank line |
| TextClassification.RenderReport | text_classification_with_doubao.py:118-133 | the content built with `+=` is the title, the statistics (total, then one line per category) and one section per category in key order |
| TextClassification.ReportCountsAddUp | text_classification_with_doubao.py:121-125 | the counts in the statistics section add up to the total the report states |
| TextClassification.SaveOrganizedNotes | text_classification_with_doubao.py:94-138 | fails exactly when a question fails; otherwise writes the report of the grouping to `organized_notes_<stamp>.md` beside the input |
| DocxImages.NumberedInjective | docx2corrected_md.py:38 | different counters give different names `<prefix>_<stem>_<counter><suffix>` |
| DocxImages.TriedSize | docx2corrected_md.py:36-41 | the counter loop tries n-1 distinct names with counters 1 .. n-1 |
| DocxImages.TriedBound | docx2corrected_md.py:36-41 | when every counter below n was taken there are at least n-1 taken names, so the `while True` loop stops by counter |taken|+1 |
| DocxImages.SmallestFree | docx2corrected_md.py:36-41 | the counter the loop stops at: its name is free and the names of all smaller counters are taken |
| DocxImages.NewNameChoice | docx2corrected_md.py:30-41 | the new name is never one the mapping already gives out; the first name `<prefix>_<stem><suffix>` is used whenever the mapping does not hold it, even if such a file exists; otherwise the smallest counter whose name is neither in the mapping nor on disk is used |
| DocxImages.NextFreeName | docx2corrected_md.py:36-41 | the loop returns the name of the smallest free counter from 1 on |
| DocxImages.ExtractImages | docx2corrected_md.py:13-52 | the loop over the relationships computes exactly `ExtractAll`: every image is written under its new name and recorded under its original name, anything else is passed over |
| DocxImages.ExtractStepImage | docx2corrected_md.py:43-50 | after an image its original name maps to a new name held by no other entry, that name is now a file, the keys gain the original name, and other entries and files are kept |
| DocxImages.ExtractKeepsSaved | docx2corrected_md.py:43-50 | every name the mapping gives out is a file in the image directory, and files only grow |
| DocxImages.ExtractKeys | docx2corrected_md.py:24-50 | the keys of the final mapping are exactly the original names of the image relationships |
| DocxMarkdown.LookupRel | docx2corrected_md.py:71-72 | `doc.part.rels[rId]` finds a relationship with that id, and None means no relationship has it |
| DocxMarkdown.ImageLinks | docx2corrected_md.py:65-76 | a paragraph gives at most one link per run |
| DocxMarkdown.ImageLinksEmpty | docx2corrected_md.py:65-76 | the runs give no link exactly when none of them resolves to an image (so `has_image` stays False) |
| DocxMarkdown.ImageLinksConcat | docx2corrected_md.py:65-76 | links come in run order |
| DocxMarkdown.ImageLinksSingle | docx2corrected_md.py:66-75 | one run gives its image's link `![n](images/n)`, or nothing |
| DocxMarkdown.Hashes | docx2corrected_md.py:62 | `'#' * level` is level hashes |
| DocxMarkdown.AllBlocksOutcome | docx2corrected_md.py:59-79 | the conversion succeeds exactly when every paragraph does, and a failure carries the error of one of the paragraphs |
| DocxMarkdown.HeadingBlock | docx2corrected_md.py:60-62 | a heading paragraph succeeds exactly when its style ends in a digit, and then gives one block: that many '#', a space, the text |
| DocxMarkdown.DigitValueRepr | docx2corrected_md.py:61 | the ValueError of `int` quotes the last style character as `repr` does: `'g'`, `"'"` for a quote, `'\\'` for a backslash |
| DocxMarkdown.BodyBlocks | docx2corrected_md.py:63-79 | any other paragraph gives its image links in run order, then its text exactly when it has no image and its text is not blank |
| DocxMarkdown.RunImageName | docx2corrected_md.py:70-74 | a run's link uses the mapped name when the original name is in the mapping and the original name otherwise |
| DocxMarkdown.DocxToMarkdown | docx2corrected_md.py:54-81 | the loop over the paragraphs computes exactly `Markdown`: all blocks joined with a blank line, or the first paragraph's error |
| DocxMarkdown.RenderParagraph | docx2corrected_md.py:60-79 | the loop body computes exactly the blocks of one paragraph |
| DocxMarkdown.RunLinks | docx2corrected_md.py:65-76 | the inner loop over the runs collects exactly their links |
| DocxMarkdown.AllBlocksFailAt | docx2corrected_md.py:59-62 | when paragraph n-1 raises after all before it succeeded, the conversion fails with that error |
| DocxMarkdown.PrefixFailure | docx2corrected_md.py:59-62 | a failing prefix makes the whole conversion fail the same way |
| DocxFiles.Select | docx2corrected_md.py:100-137 | the selection keeps at most the files listed |
| DocxFiles.SelectMembers | docx2corrected_md.py:100-137 | a file is selected exactly when it is listed and passes the filter (no "_combined" in the stem, and in docx mode no "~$" lock-file prefix) |
| DocxFiles.SelectConcat | docx2corrected_md.py:100-137 | the selection keeps the listing's order |
| DocxFiles.SelectFiles | docx2corrected_md.py:100-137 | the comprehension computes exactly `Select` |
| DocxFiles.RunAll | docx2corrected_md.py:108-168 | one outcome per selected file |
| DocxFiles.UnknownTypeFails | docx2corrected_md.py:98-170 | process_files raises ValueError exactly when the lower-cased file type is neither "docx" nor "md" |
| DocxFiles.CountsBounded | docx2corrected_md.py:105-166 | processed + skipped never exceeds the number of outcomes |
| DocxFiles.SummaryBounded | docx2corrected_md.py:102-173 | the totals printed at the end satisfy processed + skipped ≤ total ≤ the number of files listed |
| DocxFiles.RunAllAt | docx2corrected_md.py:108-168 | the k-th outcome is what the loop body does to the k-th file on the disk the files before it left |
| DocxFiles.SkippedWhen | docx2corrected_md.py:112-151 | a file is skipped exactly when `skip_existing` is on and its target (.md, or .md.bak in md mode) exists at its turn |
| DocxFiles.NoSkipsWithoutFlag | docx2corrected_md.py:112-148 | without `skip_existing` nothing is skipped |
| DocxFiles.StepGrows | docx2corrected_md.py:120-168 | files are only added and what was written stays written, whatever happens to a file (images saved before a failure stay) |
| DocxFiles.DocxDoneWrites | docx2corrected_md.py:118-131 | a converted .docx leaves, as its last write, the corrector's output for its Markdown (images first extracted into `images` beside it) under the .md name |
| DocxFiles.MdDoneWrites | docx2corrected_md.py:155-166 | a corrected .md file first moves its original text to .md.bak, then holds the corrected text |
| DocxFiles.ConvertDocxFile | docx2corrected_md.py:118-133 | the docx branch of the loop body computes exactly `ConvertDocx` |
| DocxFiles.ConvertMdFile | docx2corrected_md.py:155-168 | the md branch of the loop body computes exactly `ConvertMd` |
| DocxFiles.ProcessOne | docx2corrected_md.py:108-168 | the loop body: the skip check, then the conversion of the mode |
| DocxFiles.ProcessFiles | docx2corrected_md.py:83-173 | process_files computes exactly `ProcessResult`: the mode by the lower-cased file type, the selection, the files handled in order, and the counts |
| DocxFiles.ConvertNotSkipped | docx2corrected_md.py:120-168 | converting a file never reports it as skipped |
| VolcOcr.Utf8Ascii | read_images_with_doubao_ocr.py:47-51 | `encode('utf-8')` of ASCII text is one byte per character, that character's code |
| VolcOcr.DateStampIsXDatePrefix | read_images_with_doubao_ocr.py:72-74 | for a clock reading in range, the date stamp the key is derived from is exactly the first eight characters of the 16-character x-date header |
| VolcOcr.PadExact | read_images_with_doubao_ocr.py:73-74 | a strftime field of a value below 10^w is exactly w characters |
| VolcOcr.SigningKeyIsScopeChain | read_images_with_doubao_ocr.py:46-51 | the signing key is the secret HMAC-folded, in order, over date, region, service and b"request" |
| VolcOcr.KeyChainFour | read_images_with_doubao_ocr.py:47-51 | folding HMAC over four messages is the four nested HMACs of lines 48-51 |
| VolcOcr.ReplaceAbsent | read_images_with_doubao_ocr.py:117 | `replace` leaves a string without the pattern unchanged |
| VolcOcr.AuthorizationLayout | read_images_with_doubao_ocr.py:112-117 | with no space in the key id, date, signed names or signature, the header is `HMAC-SHA256 Credential=id/date/cn-north-1/cv/request,SignedHeaders=sh,Signature=sig` |
| VolcOcr.SortedQuery | read_images_with_doubao_ocr.py:77-93 | sorting the query parameters keeps Action before Version |
| VolcOcr.CanonicalQueryValue | read_images_with_doubao_ocr.py:77-93 | the canonical query string is `Action=OCRNormal&Version=2020-08-26` |
| VolcOcr.HeadersToSignValue | read_images_with_doubao_ocr.py:22-89 | the headers signed are content-type, host, x-date and x-content-sha256 with their values, in insertion order |
| VolcOcr.SortedHeaders | read_images_with_doubao_ocr.py:94 | sorted, the four headers put x-content-sha256 before x-date, after content-type and host |
| VolcOcr.SortedHeaderNames | read_images_with_doubao_ocr.py:95 | the sorted header names are content-type, host, x-content-sha256, x-date |
| VolcOcr.SignedHeadersValue | read_images_with_doubao_ocr.py:95 | the signed-headers string is the four sorted names joined by ";" |
| VolcOcr.CanonicalHeadersValue | read_images_with_doubao_ocr.py:94 | the header block is one sorted `k:v` line per header, each ended by a newline |
| VolcOcr.CanonicalRequestValue | read_images_with_doubao_ocr.py:92-104 | the canonical request is POST, "/", the sorted query, the four sorted header lines followed by a blank line, the sorted names and the payload hash |
| VolcOcr.SignedXDate | read_images_with_doubao_ocr.py:41 | the x-date printed into the string to sign is the request's own x-date header |
| VolcOcr.StringToSignValue | read_images_with_doubao_ocr.py:30-55 | the scope is `date/cn-north-1/cv/request`, the signed names are the four sorted ones, and the signature is the hex HMAC, under the scope key chain, of the string to sign over the request's x-date, scope and canonical request hash |
| VolcOcr.AddedHeaders | read_images_with_doubao_ocr.py:120-130 | adding authorization and then content-length appends the two after the four signed headers |
| VolcOcr.SentHeaders | read_images_with_doubao_ocr.py:87-145 | the POST carries the six headers in order, content-length equal to the body's length, the url `endpoint?Action=OCRNormal&Version=2020-08-26` and the urlencoded base64 body |
| VolcOcr.SignedNames | read_images_with_doubao_ocr.py:95-120 | the names signed are the sorted keys present at signing time; authorization and content-length are not among them |
| VolcOcr.NotSigned | read_images_with_doubao_ocr.py:120-130 | authorization and content-length differ from every signed name |
| VolcOcr.ClassifyDict | read_images_with_doubao_ocr.py:149-156 | an error in ResponseMetadata fails with its Message (default 未知错误); otherwise code 10000 succeeds with data.line_texts and exactly then, and any other code fails with the reply's message |
| VolcOcr.ClassifyScalar | read_images_with_doubao_ocr.py:149 | a reply that is null, a bool or a number makes the `in` test raise TypeError |
| VolcOcr.OutcomeSpec | read_images_with_doubao_ocr.py:128-159 | every failure, of the POST or of the classification, is re-raised with the "请求失败: " prefix, and a success is the classified reply |
| VolcOcr.ReadImageFailures | read_images_with_doubao_ocr.py:57-159 | a missing image raises FileNotFoundError with its path; otherwise the outcome is that of the signed POST, and any failure carries the "请求失败: " prefix |
| VolcOcr.ReadImage | read_images_with_doubao_ocr.py:57-159 | read_image, with the headers dict filled step by step, computes exactly `ReadImageResult` |
| Freepik.NewGenerator | create_image_with_freepik.py:98-119 | a generator is made exactly when the argument or the FREEPIK_API_KEY variable is a non-empty string, the argument winning; otherwise ValueError with its message |
| Freepik.EffectsSpec | create_image_with_freepik.py:183-188 | the effects dict has color, lightning or framing exactly when that argument is truthy, with its value, and no other key |
| Freepik.BuildPayload | create_image_with_freepik.py:170-188 | the body filled in place equals the body over the effects dict of `Effects` |
| Freepik.PayloadKeys | create_image_with_freepik.py:170-180 | whatever effects are given, the body has the same six keys in order |
| Freepik.TaskIdShapes | create_image_with_freepik.py:218-228 | the id is `data.task_id` when data holds one, else the top-level `task_id`, None when neither exists |
| Freepik.TaskIdScalarData | create_image_with_freepik.py:219 | a numeric data field makes the id lookup raise TypeError |
| Freepik.CreateImage | create_image_with_freepik.py:195-243 | create_image computes exactly `CreateImageResult`: a failing POST raises, a non-JSON body reads as {}, and a reply whose id lookup raises fails |
| Freepik.CreateImageParses | create_image_with_freepik.py:207-232 | a reply create_image returns has an id lookup that does not raise, and a body that is not JSON comes back as the empty dict |
| Freepik.Verdict | create_image_with_freepik.py:304-315 | COMPLETED ends the wait with the reply itself, FAILED or ERROR raises, any other status waits |
| Freepik.WaitForCompletion | create_image_with_freepik.py:272-317 | the polling while loop computes exactly `PollFrom` from its first check |
| Freepik.PollCompleted | create_image_with_freepik.py:286-306 | a successful wait returns a status reply with status COMPLETED, fetched by a request made while time was left |
| Freepik.PollOnlyInTime | create_image_with_freepik.py:286-317 | only status requests that can come before max_wait_time has passed affect the outcome: the j-th request follows j sleeps of poll_interval, so oracles agreeing on every j with `poll_interval * j < max_wait_time` give the same result |
| Freepik.PollNoTime | create_image_with_freepik.py:286-317 | with max_wait_time at most 0, no request is made and TimeoutError is raised |
| Freepik.ClockLower | create_image_with_freepik.py:284-315 | the check before the k-th status request comes at least k sleeps of poll_interval after the start |
| Freepik.Ext | create_image_with_freepik.py:391-399 | the extension is .jpg, .png or .webp: .jpg for a jpeg/jpg type, .png or .webp exactly when the earlier tests fail and the type names it, .jpg otherwise |
| Freepik.FileNameInjective | create_image_with_freepik.py:401 | two names `freepik_imagen3_{t}_{i+1}{ext}` that are equal come from the same position i, whatever the clock and the types |
| Freepik.SaveImage | create_image_with_freepik.py:363-412 | one pass of the loop: an entry of another type, without URL or whose download raises is passed over, otherwise it is saved (computes exactly `Attempt`) |
| Freepik.SaveAll | create_image_with_freepik.py:363-414 | the loop appends exactly the files `Downloads` lists, in order |
| Freepik.DownloadImages | create_image_with_freepik.py:319-414 | download_images computes exactly `DownloadResult`: the generated list from data, else top level, else none, and none for a result that is not a dict; it raises exactly when finding or measuring the list raises, with that error |
| Freepik.Generated | create_image_with_freepik.py:340-352 | the list found, when there is one, is a list, dict or str, the only values `len` accepts |
| Freepik.TopGenerated | create_image_with_freepik.py:346-352 | a top-level `generated` that is found is a list, dict or str, or `len` raises |
| Freepik.GeneratedFound | create_image_with_freepik.py:346-349 | a top-level `generated` (no data field) is the result when `len` accepts it, and `len`'s TypeError "object of type '…' has no len()" otherwise |
| Freepik.GeneratedNested | create_image_with_freepik.py:342-345 | a `data.generated` is the result when `len` accepts it, and `len`'s TypeError otherwise |
| Freepik.Elements | create_image_with_freepik.py:363 | `enumerate` walks as many entries as `len` counts: a list's items, a dict's keys, a str's characters |
| Freepik.DownloadsNamed | create_image_with_freepik.py:363-407 | at most one file per entry, each named for its own position |
| Freepik.DownloadNamesDistinct | create_image_with_freepik.py:363-407 | download_images never saves two files under one name |
| Freepik.GenerateAndDownload | create_image_with_freepik.py:416-465 | generate_and_download computes exactly `GenerateResult` |
| Freepik.GenerateNeedsCompletion | create_image_with_freepik.py:436-462 | files are saved only after a non-empty reply with a truthy task id whose wait completed within 300 seconds; a body that is not JSON raises "API返回空响应" |
| Genres.LimitSpec | genre_scraper_agentql.py:140-144 | without `max_count` every card is kept and counted; with a non-negative one the first min(len, max_count) cards are kept and that is the count; a negative one makes the count negative and keeps all but the last -max_count cards |
| Genres.SaveToCsv | genre_scraper_agentql.py:56-78 | the file text is the byte order mark, the header record and one record per style, built record by record, and the run stops with the AttributeError at the first style that is not a dict |
| Genres.CsvTextSpec | genre_scraper_agentql.py:73-77 | writing succeeds exactly when every style is a dict, and then the text is the byte order mark, the header record of the eight labels, and the records of the styles in data order |
| Genres.RecordRoundTrip | genre_scraper_agentql.py:74-77 | every record `csv.writer` writes (minimal quoting, quotes doubled, a lone empty field written as `""`) reads back as exactly the fields it was given |
| Genres.FieldThenRest | genre_scraper_agentql.py:77 | one written field, quoted or bare, reads back as itself and leaves what follows the field untouched |
| Genres.FieldsRoundTrip | genre_scraper_agentql.py:77 | a non-empty list of fields joined by "," reads back as that list |
| Genres.HeaderRecord | genre_scraper_agentql.py:63-75 | the header record reads back as the eight Chinese labels in the order of `headers_map` |
| GenreScraperAgentql.ProcessBatch | genre_scraper_agentql.py:80-120 | the batch is `cards[start:min(start+size, len)]`; the page sees an open click on each batch card in order, then the detail query, then (in the `finally`) a close click on each card in order; the result is `music_styles` of the response, and `[]` when the query or the lookup raised |
| GenreScraperAgentql.Extend | genre_scraper_agentql.py:152 | `extend` appends a list's items, a dict's keys or a string's characters, and raises TypeError on anything else |
| GenreScraperAgentql.ScrapeAndSave | genre_scraper_agentql.py:130-158 | the loop over the batch starts computes exactly `Scrape`, failing exactly when it does and with the same error (range's ValueError or extend's TypeError), and then writes the JSON document and the CSV text of what it collected |
| GenreScraperAgentql.BatchAt | genre_scraper_agentql.py:92-93 | a batch that starts inside the list is the slice from its start to `size` cards further or to the end |
| GenreScraperAgentql.BatchesFlatten | genre_scraper_agentql.py:92-149 | the batches starting at s, s+b, s+2b, ... taken one after another are exactly the cards from s on |
| GenreScraperAgentql.BatchesSizes | genre_scraper_agentql.py:92-149 | every batch but the last has b cards and the last has between 1 and b |
| GenreScraperAgentql.BatchesOf | genre_scraper_agentql.py:149-150 | with b > 0 there are (n+b-1)//b batch starts, start k is k*b, and the batches partition the n cards in order, all but the last of size b |
| GenreScraperAgentql.PlanSpec | genre_scraper_agentql.py:140-149 | with b > 0 and no limit or a non-negative one, main processes the first min(len, max_count) cards and the batch starts are `range(0, total, b)` |
| GenreScraperAgentql.BatchesPartition | genre_scraper_agentql.py:140-150 | the same for main's own cards: the kept cards are the first total, the number of batches is (total+b-1)//b, and the batches partition the kept cards in order |
| GenreScraperAgentql.BatchesCollect | genre_scraper_agentql.py:149-153 | when every batch returns a list, `all_genres` is the batch results concatenated in batch order and the page trace is the batch traces concatenated |
| GenreScraperAgentql.ScrapeCollects | genre_scraper_agentql.py:106-152 | when every batch returns a list (a failed query returns `[]`), main fails exactly when the batch size is 0 (`range` raises), and otherwise collects the concatenation of the batch results |
| GenreScraperPlaywright.FieldLabel | genre_scraper_playwright.py:71-86 | a title that fills a field is the label `headers_map` gives that field |
| GenreScraperPlaywright.LabelField | genre_scraper_playwright.py:33-86 | each field's label in `headers_map` fills that field |
| GenreScraperPlaywright.LabelsFill | genre_scraper_playwright.py:33-86 | every (field, label) pair of `headers_map` is a branch of the title chain |
| GenreScraperPlaywright.FieldNone | genre_scraper_playwright.py:71-86 | a title fills no field exactly when it is none of the eight labels |
| GenreScraperPlaywright.FieldOfLabel | genre_scraper_playwright.py:71-86 | a title fills field k exactly when it is k's label, so the page's titles and the CSV header agree on every column |
| GenreScraperPlaywright.ExtractGenreDetails | genre_scraper_playwright.py:50-88 | the loop over the rows builds exactly the dict of `DetailsOf`: stripped title, stripped content, each known title assigning its field |
| GenreScraperPlaywright.DetailsLookup | genre_scraper_playwright.py:65-86 | a field holds the stripped content of the last row whose stripped title is its label (a later row overwrites an earlier one), and is absent when no row has that title |
| GenreScraperPlaywright.DetailsKeys | genre_scraper_playwright.py:70-86 | rows with other titles are ignored: every key of the result is one of the eight fields |
| GenreScraperPlaywright.HandledAt | genre_scraper_playwright.py:120-136 | one position per collected entry, each a position in the card list |
| GenreScraperPlaywright.HandledAtIncreasing | genre_scraper_playwright.py:120-136 | the positions of the cards that went through are strictly increasing (card order) |
| GenreScraperPlaywright.HandledAtExactly | genre_scraper_playwright.py:120-136 | a position is listed exactly when that card's opening click and its extraction did not raise |
| GenreScraperPlaywright.CollectedAt | genre_scraper_playwright.py:120-136 | the j-th entry of `all_genres` is the details of the j-th card that went through; a card that raised adds nothing |
| GenreScraperPlaywright.VisitCards | genre_scraper_playwright.py:120-136 | the card loop computes exactly `Collected`: each card appends its details when the opening click and the extraction succeed, and nothing otherwise |
| GenreScraperPlaywright.MembersValues | genre_scraper_playwright.py:46-47 | the CSV fields of a details dict are its contents in insertion order |
| GenreScraperPlaywright.CsvOfDetails | genre_scraper_playwright.py:43-47 | the CSV never fails on what main collects: byte order mark, the header of the eight labels, and one record per collected card holding its contents in row order |
| GenreScraperPlaywright.Scrape | genre_scraper_playwright.py:100-142 | main visits exactly the first min(len, max_count) cards (`Limit`), collects `Collected` of them, and writes their JSON document and CSV text |
| RemoveBg.FirstFromSpec | removeBG_and_centerOJ.py:31-36 | the first visible column of a row from k on is visible with nothing visible before it, and there is none exactly when nothing from k on is visible |
| RemoveBg.LastBelowSpec | removeBG_and_centerOJ.py:31-37 | the last visible column before k is visible with nothing visible after it, and there is none exactly when nothing before k is visible |
| RemoveBg.RowVisible | removeBG_and_centerOJ.py:31-37 | a row has a first (last) visible column exactly when it holds a visible pixel, and that column is visible |
| RemoveBg.MinOptSpec | removeBG_and_centerOJ.py:34-36 | `min()` of the values found so far is one of them and no greater than any |
| RemoveBg.MaxOptSpec | removeBG_and_centerOJ.py:35-37 | `max()` of the values found so far is one of them and no less than any |
| RemoveBg.LeftFromSpec | removeBG_and_centerOJ.py:36 | the least visible column of the rows from y on is visible there and no visible pixel lies left of it; it is absent exactly when nothing there is visible |
| RemoveBg.RightFromSpec | removeBG_and_centerOJ.py:37 | the greatest visible column of the rows from y on is visible there and no visible pixel lies right of it; it is absent exactly when nothing there is visible |
| RemoveBg.TopFromSpec | removeBG_and_centerOJ.py:34 | the first row from y on with a visible pixel has none above it; it is absent exactly when nothing is visible |
| RemoveBg.BottomBelowSpec | removeBG_and_centerOJ.py:35 | the last row before y with a visible pixel has none below it; it is absent exactly when nothing is visible |
| RemoveBg.BoundsEmpty | removeBG_and_centerOJ.py:31-33 | with no pixel of alpha above 0 the box is the whole image `(0, 0, width, height)` |
| RemoveBg.BoundsTight | removeBG_and_centerOJ.py:22-38 | otherwise `0 <= left < right <= width`, `0 <= top < bottom <= height`, every visible pixel is inside, and rows top and bottom-1 and columns left and right-1 each hold a visible pixel |
| RemoveBg.OffsetCentred | removeBG_and_centerOJ.py:112-113 | `(canvas - obj) // 2` is non-negative exactly when the object fits, and then the object stays inside with the left margin no larger than the right and at most one smaller |
| RemoveBg.CoverCrop | removeBG_and_centerOJ.py:96-99 | the cover crop lies inside the resized object, is as wide (high) as the smaller of object and canvas, and is centred with the left (top) margin at most one smaller |
| RemoveBg.CenterPlacement | removeBG_and_centerOJ.py:52-113 | a pasted object that fits is inside the canvas and centred; it always fits except for a contain resize larger than the canvas; contain pastes `max(1, int(obj * scale))` per axis, and cover at least 1 by 1 on a non-empty canvas |
| RemoveBg.SingleFileSpec | removeBG_and_centerOJ.py:153-168 | a file is converted exactly when it exists and its suffix, in any case, is a supported format; the output is `<stem>_no_bg_centered.png` in the output directory when one is given, else beside the input, and never the input itself |
| RemoveBg.CandidatesSnoc | removeBG_and_centerOJ.py:181-184 | the set of candidates grows by each regular file whose suffix is a supported format, and by nothing else |
| RemoveBg.RunOnSkips | removeBG_and_centerOJ.py:204-213 | a file is skipped exactly when its `<stem>.png` output was on disk before the loop or was saved by an earlier file |
| RemoveBg.RunOnConverts | removeBG_and_centerOJ.py:204-213 | a file not skipped is saved exactly when its conversion succeeds |
| RemoveBg.RunOnDisk | removeBG_and_centerOJ.py:204-213 | afterwards the disk holds what it held and the outputs saved, and nothing else |
| RemoveBg.SortedList | removeBG_and_centerOJ.py:187 | `sorted(list(s))` of the set lists its names in increasing order, whatever order the set is iterated in |
| RemoveBg.RunLoop | removeBG_and_centerOJ.py:204-213 | the for loop computes exactly `RunOn` |
| RemoveBg.ProcessDirectory | removeBG_and_centerOJ.py:171-213 | process_directory computes exactly `DirectoryResult`: no directory, no image, or the loop over the de-duplicated sorted names into the given directory or `no_bg_centered` |
| StrOrder.SortedSetUnique | removeBG_and_centerOJ.py:187 | a set has exactly one increasing listing, so `sorted` of a set does not depend on its iteration order |
| StrOrder.SortDistinct | removeBG_and_centerOJ.py:187 | `sorted` of a list without repeats lists its elements, in strictly increasing order |
| Icons.Icons | split_image_to_icons.py:9-22 | `grid == 0` raises ZeroDivisionError and only then; otherwise `grid * grid` tiles for a positive grid and none for a negative one |
| Icons.SplitImageToIcons | split_image_to_icons.py:9-22 | the nested loops compute exactly `Icons` |
| Icons.RowsIndex | split_image_to_icons.py:14-15 | position k of the first m rows is tile (k / n, k % n): the order is row-major |
| Icons.IconsAt | split_image_to_icons.py:12-21 | tile (i, j) sits at position i * grid + j and is the box `(j*iw, i*ih, j*iw+iw, i*ih+ih)` with `iw = w // grid`, `ih = h // grid`, saved as `<stem>_<i>_<j>.png` |
| Icons.IconsIndex | split_image_to_icons.py:14-15 | position k holds tile (k // grid, k % grid) |
| Icons.IconsInside | split_image_to_icons.py:12-19 | every tile lies within the image, right <= w and lower <= h, and what is dropped at the right and the bottom is less than grid pixels |
| Icons.IconsDisjoint | split_image_to_icons.py:16-20 | two tiles that share a pixel are the same tile |
| Icons.IconsCover | split_image_to_icons.py:14-20 | every pixel of the first `grid * iw` columns and `grid * ih` rows is in some tile |
| Icons.IconNameInjective | split_image_to_icons.py:21 | different (row, column) pairs give different file names |
| Icons.IconsFilesDistinct | split_image_to_icons.py:21-22 | no two tiles of one image are saved to the same file |
| Strings.RFind | text_correction_with_doubao.py:117 | `rfind` returns -1 or an index holding the character, with no later index holding it |
| Strings.LStripSuffix | text_correction_with_doubao.py:122 | `lstrip()` keeps a suffix of the text, drops only whitespace and stops at the first character that is not whitespace |
| Strings.StripBlank | docx2corrected_md.py:78 | `strip()` is empty exactly when the text is all whitespace, and otherwise starts and ends with a character that is not whitespace |
| Strings.StripSetSlice | text_classification_with_doubao.py:90 | `strip(chars)` keeps the slice of the text between two runs of those characters, starts and ends outside them, and is empty exactly when every character is one of them |
| Strings.SplitOnStrJoins | text_classification_with_doubao.py:88 | joining the pieces of a split with the delimiter gives back the text |
| Strings.SplitOnStrPiecesFree | text_classification_with_doubao.py:88 | no piece of a split holds the delimiter |
| Strings.SplitJoinRoundTrip | text_classification_with_doubao.py:88 | splitting the join of pieces that do not hold a one-character delimiter gives back the pieces |
| Strings.NatToStringInjective | create_image_with_freepik.py:401 | `str(n)` of different numbers differ |
| PyDict.LookupSpec | read_images_with_doubao_ocr.py:41 | a dict lookup finds the first item with the key, and finds nothing only when no item has it |
| PyDict.PutLookup | read_images_with_doubao_ocr.py:73 | after `d[k] = v` the key k holds v and every other key keeps its value |
| PyDict.PutKeys | read_images_with_doubao_ocr.py:89 | assigning an existing key keeps the key order, a new one is appended at the end |
| PyJson.In | read_images_with_doubao_ocr.py:149 | `k in v` raises exactly when v is not a dict, list or str |
| PyJson.Len | create_image_with_freepik.py:345 | `len(v)` succeeds exactly for a list, dict or str, and otherwise raises TypeError "object of type '<type>' has no len()" |
| PyJson.Get | read_images_with_doubao_ocr.py:153 | `v.get(k, default)` raises exactly when v is not a dict |
| PyJson.IndexAgrees | read_images_with_doubao_ocr.py:154 | `v[k]` succeeds exactly when v is a dict and `k in v`, and then agrees with `get`; a missing key makes `get` return the default |
| PyJson.JsonEscapeRoundTrip | genre_scraper_playwright.py:15-24 | reading back a string `json.dump` wrote gives the string |
| PyPath.Basename | docx2corrected_md.py:30 | `Path(s).name` is a suffix of s with no "/" in it |
| PyPath.StemSuffix | docx2corrected_md.py:109 | stem and suffix are the two halves of the name; the suffix is empty or a dot followed by characters that are not dots |
| PyList.SliceNonNegative | genre_scraper_agentql.py:91-92 | with non-negative bounds `xs[i:j]` has `max(0, min(j, n) - min(i, n))` elements, element k being `xs[i + k]` |
| PyList.TakeSpec | genre_scraper_agentql.py:144 | `xs[:j]` is the first j elements, or all but the last -j for a negative j |
| PyList.Range | genre_scraper_agentql.py:149 | `range` raises exactly when the step is zero |
| PyList.RangeUpSpec | genre_scraper_agentql.py:149 | `range(start, stop, step)` with a positive step lists start, start + step, ... below stop: `ceil((stop - start) / step)` of them |
| Arith.FloorDiv | removeBG_and_centerOJ.py:112-113 | `a // b` rounds toward negative infinity for either sign of b |
| StrOrder.StrLtTotal | read_images_with_doubao_ocr.py:95 | two different strings are ordered one way or the other |
| StrOrder.StrLtTrans | read_images_with_doubao_ocr.py:95 | the string order is transitive |
| StrOrder.SortBySpec | read_images_with_doubao_ocr.py:93-95 | `sorted` returns a permutation of its input in order |
| StrOrder.SortedKeys | read_images_with_doubao_ocr.py:95 | `sorted(headers.keys())` is in order and a permutation of the keys |
| StrOrder.SortedItems | read_images_with_doubao_ocr.py:93-94 | `sorted(d.items())` is in tuple order and a permutation of the items |
| PyDict.PutNew | read_images_with_doubao_ocr.py:120 | assigning a key the dict lacks appends the item |
| PyDict.PutAt | read_images_with_doubao_ocr.py:73 | assigning a key the dict has replaces its item in place |

## Left out

- TextClassification.RegexSplit: splits on the delimiter as a literal string. It equals `re.split` only for delimiters with no regex metacharacters, such as the "%%%" the script passes.
- TextCorrection.SplitNotes: the delimiter is fixed to the default "## ", the only one the script uses; other `delimiter` arguments are not modelled.
- DocxFiles.ConvertMd: moving the original to `.md.bak` follows POSIX `rename`, which replaces an existing backup. On Windows `Path.rename` raises FileExistsError there instead.
- DocxMarkdown.DigitValue: only the ASCII digits 0-9 are accepted. Python's `int` also accepts other Unicode decimal digits, for example a full-width "１".
- DocxImages.Rel: every relationship has an internal target part. For an external relationship (a linked image) `rel.target_part` raises, and the model does not have that error.
- Network, SDK and browser calls (Ark chat completions, Volcengine and Freepik HTTP, AgentQL and Playwright pages, rembg). Each is a function parameter returning a value or an error, because that code is not visible here.
- File reads and writes, `mkdir` and `print` output. Reads are inputs. Writes are returned as values (`Written`, `Saved`, the updated disk set). The printed progress messages are not modelled.
- Each script's `main` and `__main__` block beyond the parts named above. This covers the clipboard round trip in text_correction_with_doubao.py (lines 162-176), the account file read by `read_account` in read_images_with_doubao_ocr.py (lines 162-167), and the `main` of split_image_to_icons.py with its `glob` over four patterns. It also covers the API-key and environment checks in genre_scraper_agentql.py (lines 123-125) and the configuration constants of removeBG_and_centerOJ.py's `main`.
- `time.sleep` and `time.time`. The sleep between polls only moves the clock, whose readings are given as real numbers: the first check is no earlier than the start, and each later check is at least `poll_interval` seconds after the one before. A wall clock set back during the wait is outside the model.
- The debugging prints and `.get('generated')` reads in `wait_for_completion` and `create_image`. They print status but decide nothing.
- SHA-256, HMAC, hex, base64 and urlencode are opaque functions. Their internals are cryptography and encoding, not this code's logic.
- Pixels: background removal, the LANCZOS resampling, cropping and pasting of image data, and the floating-point scale factors of `center_object`.
- RemoveBg.CenterPlacement: takes the truncated scaled size `int(obj * scale)` as a parameter, because the scale is floating point. It therefore does not state that a `contain` object fits within the 10% padding.
- RemoveBg.CenterPlacement: a negative `target_size` is not modelled, since canvas sizes are natural numbers.
- RemoveBg.SortedList: sorts names with Python's code-point order. `Path` ordering on Windows, which is case-insensitive, is not modelled.
- TextClassification.AppendStats: the `{percentage:.1f}` text is a parameter, because it is floating-point formatting.
- Genres.CsvTextSpec: numbers other than ints, and the `csv` module's formatting of floats, are not modelled; JSON values here have no floats.
- PyJson.Repr: takes every non-ASCII character to be printable. Python's `repr` escapes the non-printable ones as `\x..`, `\u....` or `\U........`.
- PyJson.JsonEscapeRoundTrip: the reading side does not decode `\u` surrogate pairs. `json.dump` with `ensure_ascii=False` never writes them.
- Strings.AsciiLower: `lower()` is modelled on ASCII letters only. Every comparison in the scripts is against an ASCII literal.
- VolcOcr.DateStampIsXDatePrefix: holds for years 1 to 9999. The `%Y` rendering of years below 1000 depends on the platform and is modelled as zero-padded to four digits.
- VolcOcr.AuthorizationLayout: assumes that no space occurs in the key id, the date stamp, the signed names or the signature, because the `.replace(" ,", ",")` only matters when one does.
- The exact layout that `json.dump(..., indent=2)` writes is modelled by `PyJson.Dump` but has no lemma of its own. Only the string escape round trip is proved.
- TextCorrection.SplitLongText: `max_length` is a natural number. With a negative `max_length` the condition `len(text) > max_length` always holds and the Python loop never ends, so that input is outside the model.
- GenreScraperAgentql.ScrapeCollects: requires every batch's `music_styles` to be a list. Other shapes go through `Extend`, whose contract states the dict, str and error cases.
- Click and extraction failures in the two scrapers are oracle inputs. The `try`/`except` that prints and moves on is modelled as the skip it causes.
- Concurrency does not arise: every script is sequential.
- edit_images_with_freepik.py, music_genre_scraper.py, read_imges_with_doubao.py and read_imges_with_zhipu.py are not part of this model. They are separate scripts of the same repository, outside the modelled logic.
