# Thinkific course downloader, modelled in Dafny

The downloader fetches a Thinkific course's syllabus and lets the user pick
chapters by number. It then creates `Downloads/<course>/<NN>_-_ <chapter>/`
directories and processes each lesson of the chosen chapters in order:

- a quiz is assembled from the quiz API's question, choice and quiz records
  and saved as an interactive HTML page;
- any other lesson gets its Wistia video (the id is scraped from the player
  page, the asset is picked by quality label, and the file is downloaded with
  yt-dlp, falling back to a streamed GET);
- it also gets its attachments, named after the lesson, and its HTML text.

Downloads can be resumed: a target that already holds a non-empty file is
skipped, and a failed streamed download removes its partial file.

This project models in Dafny the deterministic logic inside that plumbing:

- `Sanitizer`: `sanitize_filename`.
- `AssetResolver`: the text scan for the media id and the choice of asset
  by quality, applied to already-fetched inputs.
- `ChapterSelection`: the parser of the chapter answer, with `CollectSelection`
  being the loop that grows the set.
- `Quiz`: the quiz join as loops (`ProcessQuiz`, `CollectChoices`), proved
  against the specification `QuizOf`, and the card structure of the page.
- `Naming`: ordinal prefixes, the `.mp4` rule, attachment names.
- `MediaFetcher`: the resume and cleanup rules, as a class `FileStore` over a
  map from paths to contents and a set of directories.
- `Orchestrator`: `process_lesson` and `main`, as methods over the store,
  proved against the functions `LessonFiles`, `ChapterJobs`, `CourseJobs` and
  `RunJobs`.

Everything outside the process lives in one value
`Env`. That covers the API responses, the player pages, the manifests, the
configured quality, the base64 decoder and what yt-dlp or a streamed GET does
for a URL. `Wrappers`, `Strings` and `Collections` are helpers: an `Option`
type, Python string operations on `seq<char>` (`strip`, `split`, `rsplit`,
`lower`, `str(int)`), a dictionary built from records, and sorting a set.

`Quiz.NoData` and `Orchestrator.NoLessonData` are the model's definition of
Python's `not data` on a response (main.py:152-153, main.py:307-308): a failed
call or an empty JSON object. `QuizOf` and `LessonFiles` stop there.

For an attachment whose name has no dot, the code sniffs a `url_ext` from
the whole URL before `?` and appends it as a file extension, so it can
pick up a `/` from the host name. The model's attachment names use the
corrected extension of the URL's last path segment (`Naming.UrlExt`). The
code's own sniffing is modelled beside it (`Naming.UrlExtAsWritten`,
`Naming.AttachmentNameAsWritten`), and the two agree whenever the name or
that last segment has a dot; see Findings.

## Model

| member | source | states |
|---|---|---|
| Sanitizer.SanitizeFilename | utlis.py:52-67 | the result has none of `<>:"/\|?*`, no space and no dot, is at most `max_length` long, and neither starts nor ends with `_` |
| Sanitizer.RemoveChars | utlis.py:60 | every character left is outside the class and was in the input; nothing is removed when the input has none of them |
| Sanitizer.RemoveCharsAppend | utlis.py:60 | deleting from a concatenation is deleting from each side, so the kept characters stay in their order |
| Sanitizer.RemoveCharsSingle | utlis.py:60 | a single character is kept exactly when it is outside the class |
| Sanitizer.RemoveCharsCounts | utlis.py:60 | each character outside the class is kept as often as it occurs |
| Sanitizer.ReplaceChar | utlis.py:61-62 | same length; each `from` becomes `to`, every other character is kept |
| Sanitizer.Truncate | utlis.py:64-65 | a prefix of the input of at most `max_length` characters: the input itself when short enough, exactly `max_length` characters otherwise |
| Sanitizer.SanitizeFixedPoints | utlis.py:52-67 | the sanitiser leaves a string unchanged exactly when it already has the four output properties |
| Sanitizer.SanitizedUnchanged | utlis.py:52-67 | a string that already has the four output properties comes back unchanged |
| Sanitizer.SanitizeIdempotent | utlis.py:52-67 | sanitising twice gives what sanitising once gives |
| AssetResolver.AlnumRun | utlis.py:101 | the maximal `[a-zA-Z0-9]` run at an index: a slice of the text, all alphanumeric, followed by the end or a non-alphanumeric character |
| AssetResolver.MatchAt | utlis.py:101-105 | a captured id is a non-empty run of ASCII alphanumerics |
| AssetResolver.FirstMatch | utlis.py:101-105 | the leftmost matching index at or after the start, with no match before it; none means no match anywhere |
| AssetResolver.Search | utlis.py:101-105 | `re.search`: a result is the capture of some match index; no result means no index matches |
| AssetResolver.ExtractWistiaId | utlis.py:97-105 | no page or a login wall gives no id; any id is non-empty, alphanumeric and the capture of a strict or loose match; a loose match anywhere, with no login wall, always gives an id |
| AssetResolver.StrictMatchIsLooseMatch | utlis.py:101-105 | a strict match is a loose match of the same id 15 characters further on |
| AssetResolver.StrictPatternWins | utlis.py:101-102 | with a strict match, the id is that of the leftmost strict match, whatever loose matches come earlier |
| AssetResolver.LoosePatternFallback | utlis.py:104-105 | without any strict match, the id is that of the leftmost loose match |
| AssetResolver.FindLabel | utlis.py:128-135 | the first asset at or after a start with the given label; none means no asset from there has it |
| AssetResolver.SelectAsset | utlis.py:116-140 | a URL comes with a quality and the other way round; the quality is the target or `720p`; an empty id or a failed manifest gives `(None, None)`; the pair is one of the manifest's assets |
| AssetResolver.ExactQualityWins | utlis.py:128-130 | the first asset with the target label gives its URL and the target |
| AssetResolver.FallbackQualityUsed | utlis.py:132-135 | with no asset labelled with the target, the first `720p` asset gives its URL and `720p` |
| AssetResolver.NoMatchingQuality | utlis.py:128-140 | with neither label present, the result is `(None, None)` |
| AssetResolver.MissingUrlStopsSelection | utlis.py:128-140 | when the first asset with the target label has no `url`, the lookup raises and gives `(None, None)`; no later asset and no `720p` asset is tried |
| AssetResolver.FallbackMissingUrl | utlis.py:132-135 | with no asset labelled with the target, a first `720p` asset without a `url` raises and gives `(None, None)`; no later `720p` asset is tried |
| ChapterSelection.ParseInt | main.py:276 | `int()` after stripping whitespace: it succeeds exactly when the text after an optional sign is digit groups (digits with single `_` between them), and then gives the value of those digits with the `_` dropped, negated after `-`; stripped all-digit text gives its decimal value and blank text fails |
| ChapterSelection.ParseSigned | main.py:276 | on stripped text: a result exactly when the text after an optional sign is digit groups, and then the value of those digits with the `_` dropped, negated after `-`; so `d`, `-d` and `+d` for digits `d` give `d`, minus `d` and `d`, and the empty text fails |
| ChapterSelection.ParseIntNegative | main.py:276 | text that strips to `-` and digits parses to minus their value |
| ChapterSelection.ParseIntPositive | main.py:276 | text that strips to `+` and digits parses to their value |
| ChapterSelection.NegatedDigits | main.py:276 | stripped text `-` and digits parses to minus their value |
| ChapterSelection.ParseSignedRejectsOther | main.py:276 | a character other than a digit or `_` after the sign makes `int()` fail, which is the `ValueError` path |
| ChapterSelection.ParseSignedRejectsDoubleUnderscore | main.py:276 | two `_` in a row after the sign make `int()` fail |
| ChapterSelection.ParseIntGroups | main.py:276 | `int("1_0") == 10`: the `_` between digit groups is dropped |
| ChapterSelection.ParseIntOfDecimal | main.py:276 | `int(str(n)) == n` |
| ChapterSelection.RangeSet | main.py:277 | `range(a, b + 1)` holds exactly the integers from `a` to `b` |
| ChapterSelection.Parts | main.py:272-274 | one classified part per comma-separated piece, part `k` being the classification of piece `k` |
| ChapterSelection.ClassifyPart | main.py:274-279 | after stripping, a part is a range or malformed exactly when it holds a dash, and a plain number exactly when it is non-empty, dash-free and all digits, with the value of those digits |
| ChapterSelection.ClassifyStripped | main.py:275-279 | the same on stripped text, and a range has exactly two dash-separated halves whose `int()` are its bounds |
| ChapterSelection.RangeContribution | main.py:277 | a range part contributes the numbers from its lower to its upper bound, none when the upper is smaller |
| ChapterSelection.Selection | main.py:270-282 | a selection exists only when no part is malformed, and it contains every part's contribution |
| ChapterSelection.AllChapters | main.py:267-268 | `[1..n]`: length `n`, element `i` is `i + 1`, strictly increasing, membership exactly `1 <= x <= n` |
| ChapterSelection.ChosenSet | main.py:265-284 | an empty or `all` answer (any letter case) chooses every chapter number |
| ChapterSelection.MalformedPartSelectsAll | main.py:275-282 | the selection falls back exactly when some part is malformed |
| ChapterSelection.SelectionIsUnion | main.py:273-279 | otherwise a number is selected exactly when some part contributes it |
| ChapterSelection.DashSplit | main.py:276 | `left-right` with no other dash splits into its two sides |
| ChapterSelection.ClassifyRangePart | main.py:275-277 | a stripped `a-b` part with two parsing halves is the range `a..b` |
| ChapterSelection.ClassifyRawRange | main.py:274-277 | the same after stripping surrounding whitespace |
| ChapterSelection.RangePartContributes | main.py:274-277 | a range part contributes exactly `a..b`, and nothing when `b < a` |
| ChapterSelection.PlainPartContributes | main.py:278-279 | a part without a dash contributes its number when all digits, and nothing otherwise |
| ChapterSelection.CollectSelection | main.py:270-282 | the loop yields the union of the contributions, or gives up at a malformed part |
| ChapterSelection.SelectChapters | main.py:265-284 | strictly increasing (sorted, no duplicates); `[1..n]` for an empty or `all` answer and for a malformed one; otherwise exactly the selected numbers |
| Strings.Strip | main.py:273 | `strip()`: an infix of the text whose two ends are outside the stripped set, the dropped prefix and suffix consist of characters of that set, and text without such ends is unchanged |
| Collections.IndexBy | main.py:156-157 | every record's key is in the map and every key comes from a record |
| Collections.IndexByLastWins | main.py:156-157 | a record whose key no later record repeats is the one stored |
| Collections.Present | main.py:162-164 | the ids kept are those with an entry in the map |
| Collections.PresentAppend | main.py:162-164 | the ids kept from a concatenation are those kept from each side, in order |
| Collections.PresentMembers | main.py:162-164 | an id is kept exactly when it is listed and in the map |
| Collections.PresentCounts | main.py:162-164 | a kept id appears as often as it is listed |
| Collections.SortedElements | main.py:284 | `sorted(list(s))`: strictly increasing, same elements, same size |
| Quiz.IsCorrect | main.py:176-182 | a failed decode means not correct |
| Quiz.IsCorrectIgnoresCase | main.py:176-182 | correct exactly when decoding succeeds and the decoded text contains `true` in some letter case |
| Quiz.ChoicesOf | main.py:168-184 | at most one choice per choice id, exactly one each when every id has a record |
| Quiz.QuestionsOf | main.py:158-186 | at most one question per question id, exactly one each when every id has a record |
| Quiz.QuizOf | main.py:152-186 | nothing is fetched exactly when there is no data; failure exactly when some record lacks its `id`; otherwise at most one question per id of `question_ids` |
| Quiz.ChoicesFollowIds | main.py:168-184 | the choices are one per choice id with a record, in `choice_ids` order |
| Quiz.QuestionsFollowIds | main.py:158-186 | the questions are one per question id with a record, in `question_ids` order |
| Quiz.CollectChoices | main.py:170-184 | the inner loop computes the choices of the specification |
| Quiz.ProcessQuiz | main.py:152-186 | the loops compute `QuizOf`; nothing happens exactly when there is no data; failure exactly when a record lacks its `id` |
| Quiz.GenerateQuizHtml | main.py:71-118 | the title is the lesson name; one card per question, card `k` numbered `k + 1` |
| Quiz.DistinctAnchors | main.py:103 | distinct question numbers give distinct card anchors |
| Quiz.OptionFlags | main.py:107-109 | an option is flagged `true` exactly when its choice is correct, and shows the choice text |
| Strings.NatToDecimal | main.py:292 | `str(n)`: at least one digit, with value `n`, starting with `0` exactly when `n` is 0 |
| Naming.Pad2 | main.py:292 | `{n:02d}`: at least two digits whose value is `n`, exactly two below 10 |
| Naming.OrdinalName | main.py:292 | the name starts with the padded ordinal and `_-_ `, and the rest is `sanitize_filename(name)` |
| Naming.OrdinalReadBack | main.py:292 | the text before the first `_` is the padded ordinal, with value the index |
| Naming.OrdinalNamesDistinct | main.py:292 | different ordinals give different names, whatever the names are |
| Naming.WithMp4 | main.py:198-199 | the result ends in `.mp4` in some letter case and extends the name; unchanged when it already does, four characters longer otherwise |
| Naming.WithMp4Idempotent | main.py:198-199 | applying the rule twice is applying it once |
| Naming.OriginalName | main.py:326 | `file_name`, else `label`, else `attachment`, skipping missing and empty values |
| Naming.DotExt | main.py:337-338 | the `.`-piece rule on a text: nothing exactly when the text's last five characters hold no `.`; otherwise `.` followed by a dot-free suffix of the text that is all of it or follows a `.`, that is `.` plus its last `.`-piece |
| Naming.UrlExtAsWritten | main.py:336-338 | the code's extension: with `base` the URL before the first `?`, nothing exactly when the last five characters of `base` hold no `.`; otherwise `.` followed by the last `.`-piece of `base` (a dot-free suffix that is all of `base` or follows a `.`) |
| Naming.HostDotLeaks | main.py:337-338 | a URL `host.tail` with a short tail free of `.` and `?` gets the extension `.tail`, whatever `/` the tail holds |
| Naming.UrlExtCrossesSlash | main.py:337-338 | for `https://a.io/f` the code's extension is `.io/f`, which holds a `/` |
| Naming.UrlExt | main.py:336-338 | the corrected extension, from the URL's last path segment `seg` (after the last `/`, before the first `?`): nothing when `seg` has no dot; with a dot, nothing exactly when the last five characters of `seg` hold no `.`, otherwise a suffix of `seg` that is `.` and the dot-free rest; never a `/` or `?` |
| Naming.UrlExtAgrees | main.py:337-338 | when the last path segment has a dot, the corrected and the written extensions agree |
| Naming.StemAndExt | main.py:330-338 | with a dot, stem and extension make up the name and the extension is the last dot onward; without one, the name and the corrected URL extension `UrlExt` |
| Naming.StemAndExtAsWritten | main.py:330-338 | with a dot, the same split as `StemAndExt`; without one, the name and the extension sniffed as the code does |
| Naming.DotFreeSplitAsWritten | main.py:330-338 | a name without a dot is kept whole as the stem, with the code's sniffed extension |
| Naming.StemAndExtAgrees | main.py:330-338 | the corrected and the written split agree when the name or the URL's last path segment has a dot |
| Naming.AttachmentName | main.py:326-341 | the name starts with the lesson name and `_`, ends with the extension, and has a sanitised stem between |
| Naming.AttachmentNameExtends | main.py:341 | the attachment name is the full lesson name followed by the rest |
| Naming.AttachmentNameShape | main.py:326-341 | the name is exactly `lesson_` + sanitised stem + `.` + the part after the last dot, or, without a dot, `lesson_` + sanitised name + the corrected URL extension `UrlExt` |
| Naming.AttachmentKeepsExtension | main.py:330-332 | a file name with a dot keeps its own extension, whatever the URL |
| Naming.AttachmentNameAgrees | main.py:326-341 | the attachment name computed with the code's sniffing equals the model's whenever the name or the URL's last path segment has a dot |
| Naming.AttachmentNameCrossesSlash | main.py:326-341 | the code names the dot-free attachment `notes` at `https://a.io/f` with a `/` in it |
| MediaFetcher.Join | main.py:201 | `os.path.join`: an absolute name replaces the directory, otherwise the path extends the directory and ends with the name |
| MediaFetcher.JoinAppend | main.py:201 | appending to a relative name appends to the joined path |
| MediaFetcher.StreamedResult | main.py:227-253 | a non-empty file at the path means no change; a completed transfer leaves the delivered bytes; a failed one leaves no file; other paths untouched |
| MediaFetcher.StreamedRerunIsNoOp | main.py:232-234 | running a streamed download again after one that delivered bytes changes nothing |
| MediaFetcher.VideoResult | main.py:196-224 | a non-empty file at the `.mp4` path means no change; otherwise a yt-dlp success leaves its bytes at that path, and a yt-dlp failure gives the streamed download's result for the fallback URL; other paths untouched |
| MediaFetcher.FallbackRunsOnToolFailure | main.py:217-224 | when yt-dlp fails, the result is the streamed download's, and a failed fallback leaves no file |
| MediaFetcher.VideoPathEndsInMp4 | main.py:198-201 | the video path ends in `.mp4` in some letter case |
| MediaFetcher.WithDirectory | utlis.py:70-76 | the directory exists afterwards unless a file is in the way; nothing else changes |
| MediaFetcher.FileStore.CreateDirectory | utlis.py:70-76 | files unchanged, directories as `WithDirectory` |
| MediaFetcher.FileStore.SaveTextFile | utlis.py:79-83 | the file is created or overwritten |
| MediaFetcher.FileStore.DownloadFileRequests | main.py:227-253 | the store becomes `StreamedResult` |
| MediaFetcher.FileStore.WriteChunks | main.py:244-249 | the file holds the chunks concatenated |
| MediaFetcher.FileStore.DownloadWithYtdlp | main.py:196-224 | the store becomes `VideoResult` |
| Orchestrator.Dispatch | main.py:294-301 | a missing or zero `contentable_id` skips; only the type `Quiz` goes to the quiz path, with the id |
| Orchestrator.FullLessonName | main.py:289-292 | the padded index and `_-_ `, then `sanitize_filename` of the name, `Unknown Lesson` when it is missing |
| Orchestrator.ScrapedId | main.py:311-314 | no id without a `video_url`; with one, the id is `extract_wistia_id` of that URL's player page, so any id is non-empty and alphanumeric |
| Orchestrator.VideoSource | main.py:311-317 | a URL exists exactly when the page yields an id and the manifest lookup for it a non-empty URL, and it is that URL: the URL of a manifest asset labelled with the configured quality or `720p`; a URL needs a `video_url` |
| Orchestrator.QuizIgnoresLessonApi | main.py:299-302 | a quiz's outcome does not depend on the lesson API |
| Orchestrator.QuizFiles | main.py:152-189 | with no data or a record without `id`, nothing changes; otherwise the rendered page is at `<name>.html` |
| Orchestrator.QuizFilesTouchesOnlyPage | main.py:187-189 | a quiz changes no path other than `<name>.html` |
| Orchestrator.VideoFiles | main.py:311-317 | no video source, no change; with a source, the yt-dlp step with fallback (`VideoResult`) at `<name>.mp4` for that URL |
| Orchestrator.VideoFilesTouchesOnlyVideo | main.py:311-321 | the video step changes no path other than `<name>.mp4` |
| Orchestrator.AttachmentsWithoutUrlChangeNothing | main.py:323-344 | attachments that all lack a `download_url` change nothing |
| Orchestrator.AttachmentFilesTouchesOnlyAttachments | main.py:323-344 | the attachment loop changes no path other than the attachments' own names |
| Orchestrator.AttachmentStepTouchesOnly | main.py:340-344 | one attachment's download changes no path other than its own |
| Orchestrator.AttachmentFilesSnoc | main.py:340-344 | one more attachment with a `download_url` streams it to its own name on the store the earlier ones left; one without changes nothing |
| Orchestrator.HtmlFiles | main.py:347-349 | a non-empty `html_text` is saved at `<name>.html`, otherwise nothing changes |
| Orchestrator.HtmlFilesTouchesOnlyPage | main.py:347-349 | saving the HTML text changes no path other than `<name>.html` |
| Orchestrator.LessonFiles | main.py:287-349 | a lesson without a usable `contentable_id` or without details changes nothing; a quiz is the quiz path only |
| Orchestrator.StandardLessonFiles | main.py:303-349 | a lesson with details runs the video step, then the attachment loop, then the HTML text, each on the store the previous one left |
| Orchestrator.FullNameIsRelative | main.py:290-292 | the full lesson name is non-empty and relative |
| Orchestrator.UnderRoot | main.py:317-349 | a path made from the full name plus a suffix lies under the lesson's root |
| Orchestrator.StreamedFrame | main.py:344 | a streamed download under the root changes nothing outside it |
| Orchestrator.AttachmentStepFrame | main.py:329-344 | one attachment changes nothing outside the lesson's root |
| Orchestrator.AttachmentFilesFrame | main.py:323-344 | the attachments change nothing outside the lesson's root |
| Orchestrator.SameOutsideTransitive | main.py:310-349 | agreeing outside a root is transitive |
| Orchestrator.QuizFilesFrame | main.py:301 | a quiz writes only under the lesson's root |
| Orchestrator.VideoFilesFrame | main.py:311-317 | the video writes only under the lesson's root |
| Orchestrator.HtmlFilesFrame | main.py:347-349 | the HTML text writes only under the lesson's root |
| Orchestrator.StandardLessonFrame | main.py:310-349 | video, attachments and HTML text together write only under the lesson's root |
| Orchestrator.QuizRouteFrame | main.py:299-302 | a quiz lesson writes only under the lesson's root |
| Orchestrator.LessonRouteFrame | main.py:303-349 | any other lesson writes only under the lesson's root |
| Orchestrator.LessonFrame | main.py:287-349 | a lesson writes or removes only paths starting with `os.path.join(dir, full_lesson_name)` |
| Orchestrator.ProcessQuizFile | main.py:152-189 | the store becomes `QuizFiles`: the rendered page at `<name>.html` when assembled, no change otherwise |
| Orchestrator.DownloadAttachments | main.py:323-344 | the store becomes `AttachmentFiles`; directories unchanged |
| Orchestrator.DownloadVideo | main.py:310-321 | the store becomes `VideoFiles`; directories unchanged |
| Orchestrator.DownloadLessonParts | main.py:310-349 | the store becomes the video, attachment and HTML steps applied in turn; directories unchanged |
| Orchestrator.ProcessLesson | main.py:287-349 | the store becomes `LessonFiles`; directories unchanged |
| Orchestrator.ChapterDirs | main.py:377-381 | one directory per chapter |
| Orchestrator.ChapterDirsElements | main.py:377-381 | directory `k` is that of chapter number `k + 1` |
| Orchestrator.ContentsMap | main.py:366-367 | an id is a key exactly when some record of `contents` or `lessons` carries it, and a record no later one shares its id with is the one stored |
| Orchestrator.BaseDir | main.py:359-363 | the path starts with `<cwd>/Downloads` and ends with the sanitised course name |
| Orchestrator.ChapterDir | main.py:377-381 | the path starts with the base directory and ends with the ordinal name of the chapter, `Chapter <i>` when it has no name |
| Orchestrator.ChapterJobs | main.py:386-390 | every job is in the chapter's directory, at a position within the id list |
| Orchestrator.CourseJobs | main.py:374-390 | no chosen chapter, no jobs |
| Orchestrator.SkippedJobsChangeNothing | main.py:374-390 | jobs that all skip at dispatch change nothing |
| Orchestrator.RunJobsSnoc | main.py:386-390 | running one more job runs `process_lesson` on the store the earlier jobs left |
| Orchestrator.RunJobsAppend | main.py:374-390 | running two job lists in turn is running their concatenation |
| Orchestrator.ChapterJobsAreLookups | main.py:386-390 | a job is exactly an id with a record, at its 1-based position among all the ids, so missing ids leave gaps |
| Orchestrator.ChapterJobsStep | main.py:387-390 | one more content id adds its job at position `j` exactly when it has a record |
| Orchestrator.ChapterJobsInOrder | main.py:387-390 | lessons run in `content_ids` order |
| Orchestrator.CourseJobsFromChosenChapters | main.py:374-375 | every job comes from a chosen chapter |
| Orchestrator.ChosenChapterLessonsRun | main.py:374-390 | every lesson of a chosen chapter whose id has a record is run |
| Orchestrator.CourseJobsStep | main.py:374-375 | one more chapter adds its jobs exactly when it is chosen |
| Orchestrator.RunChapter | main.py:386-390 | the inner loop runs the chapter's jobs; directories unchanged |
| Orchestrator.RunContent | main.py:387-390 | one pass of the inner loop extends the run by the job of content id `j`, if it has a record |
| Orchestrator.ProcessChapter | main.py:377-390 | the chapter directory is created and the chapter's jobs run there |
| Orchestrator.RunChapters | main.py:374-390 | the loop runs the jobs of the chosen chapters; new directories are chosen chapters' directories |
| Orchestrator.RunCourse | main.py:354-392 | the store after `main` runs the course's jobs for the answer; new directories are the base or a chosen chapter's directory |

## Left out

- HTTP sessions, retries, `raise_for_status`, `.json()` and the API calls (main.py:27-68): their outcomes are the functions of `Env`, with `None` for a failure.
- yt-dlp and the tqdm progress bar: only success (with the file left) or failure is kept, as `ToolOutcome`.
- A failing yt-dlp run that leaves a partial file before the fallback is not modelled; a failed tool is taken to leave the target as it was.
- Base64 and UTF-8 decoding (main.py:179): an uninterpreted `decode` function that returns an option.
- Logging, `print`, `input` (the answer is a parameter), the chapter listing printed by `ask_user_for_chapters`, `time.sleep(1)` (main.py:351), `Config.validate` and `sys.exit`; config.py is not part of this model.
- Unicode: `isdigit`, `lower`, `strip` and `int()` are modelled on ASCII (int() with signs, surrounding whitespace and `_` digit separators).
- JSON `null` values and non-string names (`str(name)`); a record's keys are either present with a value of the expected type or absent.
- KeyError in `main` when a content record lacks `id` (main.py:367) is not modelled: every `ContentItem` has an `id`. In `process_quiz` the KeyError is modelled (`Failed`).
- OSError in `os.makedirs` and `save_text_file`, intermediate directories of `makedirs`, and parent directories of written files are not modelled: writes always succeed.
- MediaFetcher.NonEmptyAt: a directory sitting at a download target counts as no file, so the model downloads over it; the code's `os.path.getsize` on a directory (main.py:204, main.py:232) gives its size, which is usually non-zero, and then skips.
- What the network and yt-dlp deliver is a function of the URL (`Env.tool`, `Env.transfer`), so two downloads of one URL get the same outcome.
- The CSS, the script and the exact markup of the quiz page (main.py:73-99, 120-144): the page is a `QuizPage` of cards.
- `sanitize_filename` with a negative `max_length`: the model's maximum length is a `nat`.
- Sanitizer.SanitizeFilename: states the four output properties, not the exact string; SanitizeFixedPoints and SanitizeIdempotent pin it down further.
- Orchestrator.RunCourse: a 401 answer from the lesson API ends the whole run with `sys.exit(1)` (main.py:47-49); `SystemExit` is not caught by `except Exception` (main.py:52, main.py:401). `Env.lessonDetails` has no such outcome, so the model treats that lesson like any other failed call and goes on with the remaining lessons.
- Orchestrator.RunCourse: a failing syllabus fetch also ends the run (main.py:34-37); the model starts from an already fetched `Course`.
- Sanitizer.RemoveChars: its own contract states only which characters are kept; their order and number are stated by RemoveCharsAppend, RemoveCharsSingle and RemoveCharsCounts.
- Naming.StemAndExt: uses the corrected `UrlExt`, not the code's sniffing at main.py:337-338; the two differ only for a dot-free name whose URL has no dot in its last path segment (StemAndExtAgrees).
- Naming.AttachmentName: built from StemAndExt, so it has the same difference; AttachmentNameAsWritten is the code's name and AttachmentNameAgrees says when the two agree.
- Naming.AttachmentNameShape: states the shape of the corrected name, with the same difference.
- Orchestrator.AttachmentFiles: names attachments with AttachmentName, with the same difference.
- Orchestrator.DownloadAttachments: computes AttachmentName, with the same difference.
- Orchestrator.LessonFiles: runs AttachmentFiles, with the same difference.
- Orchestrator.ProcessLesson: runs DownloadAttachments, with the same difference.
- Orchestrator.RunCourse: runs ProcessLesson, with the same difference.
- Orchestrator.RunCourse: directories are bounded from above (every new one is the base or a chosen chapter's directory), not listed exactly, because `create_directory` skips a path where a file sits.

## Findings

| source | as written | input that shows it | evidently intended | confidence | as-written member | corrected member |
|---|---|---|---|---|---|---|
| main.py:337-338 | the URL extension is the last `.`-piece of the whole URL before `?` | a file name without a dot and the URL `https://a.io/f` give the extension `.io/f`, so the attachment `notes` becomes `<lesson>_notes.io/f`; the URL `abc` gives `.abc` | the extension of the URL's last path segment, none when that segment has no dot | not executed | Naming.UrlExtAsWritten, Naming.UrlExtCrossesSlash, Naming.AttachmentNameAsWritten, Naming.AttachmentNameCrossesSlash | Naming.UrlExt, Naming.UrlExtAgrees, Naming.AttachmentNameAgrees |
