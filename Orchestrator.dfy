/**
 * The driver of main.py: `process_lesson` names a lesson, dispatches it to
 * the quiz path or the standard path (video, attachments, HTML text), and
 * `main` walks the selected chapters and the content ids of each, looking
 * every id up in the course's content map. The API responses, the player
 * pages, the media manifests, the decoder and the download outcomes all come
 * from an environment `Env` of functions.
 */
module Orchestrator {
  import opened Wrappers
  import opened Strings
  import opened Collections
  import opened Sanitizer
  import opened AssetResolver
  import opened ChapterSelection
  import opened Quiz
  import opened Naming
  import opened MediaFetcher

  // ---------------------------------------------------------------------------
  // The course and lesson records

  /** One entry of `contents` or `lessons`. */
  datatype ContentItem = ContentItem(
    id: int,
    name: Option<string>,
    contentableId: Option<int>,
    contentableType: Option<string>)

  /** The `lesson` object of a lesson's details. */
  datatype LessonInfo = LessonInfo(videoUrl: Option<string>, htmlText: Option<string>)

  /** The lesson API response; `otherKeys` matters only for its truthiness. */
  datatype LessonDetail = LessonDetail(
    lesson: Option<LessonInfo>,
    downloadFiles: Option<seq<FileItem>>,
    attachments: Option<seq<FileItem>>,
    otherKeys: bool)

  datatype Chapter = Chapter(name: Option<string>, contentIds: Option<seq<int>>)

  /** The syllabus: `course.name`, `contents`, `lessons` and `chapters`. */
  datatype Course = Course(
    courseName: Option<string>,
    contents: Option<seq<ContentItem>>,
    lessons: Option<seq<ContentItem>>,
    chapters: Option<seq<Chapter>>)

  /**
   * Everything outside the model: the lesson and quiz API calls (`None` on an
   * error), the player page and manifest fetches, the configured quality, the
   * base64 decoder, and what yt-dlp and a streamed GET do for a given URL.
   */
  datatype Env = Env(
    lessonDetails: int -> Option<LessonDetail>,
    quizData: int -> Option<QuizPayload>,
    playerPage: string -> Option<string>,
    manifest: string -> Option<seq<Asset>>,
    quality: string,
    decode: string -> Option<string>,
    tool: string -> ToolOutcome,
    transfer: string -> Transfer)

  // ---------------------------------------------------------------------------
  // process_lesson

  /** Where a lesson goes: nowhere, the quiz path or the standard path. */
  datatype Route = Skip | QuizRoute(quizId: int) | LessonRoute(lessonId: int)

  /** main.py:294-301: a missing or zero `contentable_id` stops; only the type `Quiz` goes to the quiz path. */
  function Dispatch(item: ContentItem): (r: Route)
    ensures r.Skip? <==> item.contentableId.None? || item.contentableId.value == 0
    ensures r.QuizRoute? <==> !r.Skip? && item.contentableType == Some("Quiz")
    ensures r.QuizRoute? ==> r.quizId == item.contentableId.value
    ensures r.LessonRoute? ==> r.lessonId == item.contentableId.value
  {
    match item.contentableId
    case None => Skip
    case Some(cid) =>
      if cid == 0 then Skip
      else if item.contentableType.GetOr("") == "Quiz" then QuizRoute(cid)
      else LessonRoute(cid)
  }

  /** main.py:289-292: the ordinal, the separator and the sanitised name, "Unknown Lesson" when it is missing. */
  function FullLessonName(item: ContentItem, index: nat): (r: string)
    ensures IsPrefix(Pad2(index) + OrdinalSeparator, r)
    ensures r[|Pad2(index) + OrdinalSeparator|..] == SanitizeFilename(item.name.GetOr("Unknown Lesson"), DefaultMaxLength)
  {
    OrdinalName(index, item.name.GetOr("Unknown Lesson"))
  }

  /** `not lesson_data`: the call failed or returned an empty object. */
  function NoLessonData(d: Option<LessonDetail>): bool {
    d.None? ||
    (d.value.lesson.None? && d.value.downloadFiles.None? && d.value.attachments.None? && !d.value.otherKeys)
  }

  function VideoUrl(d: LessonDetail): Option<string> {
    match d.lesson
    case None => None
    case Some(info) => info.videoUrl
  }

  function HtmlText(d: LessonDetail): Option<string> {
    match d.lesson
    case None => None
    case Some(info) => info.htmlText
  }

  function AttachmentsOf(d: LessonDetail): seq<FileItem> {
    d.downloadFiles.GetOr([]) + d.attachments.GetOr([])
  }

  /** main.py:311-314: the media id scraped from the player page, when the lesson has a player URL. */
  function ScrapedId(d: LessonDetail, env: Env): (r: Option<string>)
    ensures !Truthy(VideoUrl(d)) ==> r.None?
    ensures Truthy(VideoUrl(d)) ==> r == ExtractWistiaId(env.playerPage(VideoUrl(d).value))
    ensures r.Some? ==> |r.value| > 0 && forall k :: 0 <= k < |r.value| ==> IsAsciiAlnum(r.value[k])
  {
    if Truthy(VideoUrl(d)) then ExtractWistiaId(env.playerPage(VideoUrl(d).value)) else None
  }

  /**
   * main.py:311-317: the media file URL, when the page yields an id and the
   * manifest then yields a non-empty asset URL for that id.
   */
  function VideoSource(d: LessonDetail, env: Env): (r: Option<string>)
    ensures r.Some? <==> (ScrapedId(d, env).Some? &&
      Truthy(SelectAsset(ScrapedId(d, env).value, env.manifest(ScrapedId(d, env).value), env.quality).0))
    ensures r.Some? ==> r == SelectAsset(ScrapedId(d, env).value, env.manifest(ScrapedId(d, env).value), env.quality).0
    ensures r.Some? ==> r.value != "" && Truthy(VideoUrl(d))
    ensures r.Some? ==> var assets := env.manifest(ScrapedId(d, env).value).value;
      exists k :: 0 <= k < |assets| && assets[k].url == r &&
        (assets[k].displayName == Some(env.quality) || assets[k].displayName == Some(FallbackQuality))
  {
    match ScrapedId(d, env)
    case None => None
    case Some(wistiaId) =>
      var (binUrl, _) := SelectAsset(wistiaId, env.manifest(wistiaId), env.quality);
      if Truthy(binUrl) then binUrl else None
  }

  /** `<full name>.html`, where both a quiz page and a lesson's HTML text go. */
  function PagePath(dir: string, fullName: string): string { Join(dir, fullName + ".html") }

  /**
   * The store after the quiz path: the rendered page at `<full name>.html`
   * when the response is usable, and no change at all when the fetch gave
   * nothing or building the id maps raised.
   */
  function QuizFiles(files: map<string, Content>, quizId: int, dir: string, fullName: string, env: Env)
    : (r: map<string, Content>)
    ensures NoData(env.quizData(quizId)) || !Keyed(env.quizData(quizId).value) ==> r == files
    ensures !NoData(env.quizData(quizId)) && Keyed(env.quizData(quizId).value) ==>
      PagePath(dir, fullName) in r &&
      r[PagePath(dir, fullName)] == QuizDocument(QuizPageOf(fullName, QuizOf(env.quizData(quizId), env.decode).questions))
  {
    match QuizOf(env.quizData(quizId), env.decode)
    case Assembled(questions) => files[PagePath(dir, fullName) := QuizDocument(QuizPageOf(fullName, questions))]
    case NothingFetched => files
    case Failed => files
  }

  /** The store after the video step: only the video path can change, and nothing does without a source. */
  function VideoFiles(files: map<string, Content>, d: LessonDetail, dir: string, fullName: string, env: Env)
    : (r: map<string, Content>)
    ensures VideoSource(d, env).None? ==> r == files
    ensures VideoSource(d, env).Some? ==>
      r == VideoResult(files, dir, fullName, env.tool(VideoSource(d, env).value), env.transfer(VideoSource(d, env).value))
  {
    match VideoSource(d, env)
    case None => files
    case Some(url) => VideoResult(files, dir, fullName, env.tool(url), env.transfer(url))
  }

  /** The store after the attachment loop of main.py:323-344 over `items`. */
  function AttachmentFiles(files: map<string, Content>, items: seq<FileItem>, dir: string, fullName: string, env: Env)
    : map<string, Content>
  {
    if items == [] then files
    else
      var before := AttachmentFiles(files, items[..|items| - 1], dir, fullName, env);
      var item := items[|items| - 1];
      if Truthy(item.downloadUrl) then
        StreamedResult(before, Join(dir, AttachmentName(fullName, item)), env.transfer(item.downloadUrl.value))
      else before
  }

  /** main.py:347-349: a non-empty `html_text` is saved, overwriting, at `<full name>.html`. */
  function HtmlFiles(files: map<string, Content>, d: LessonDetail, dir: string, fullName: string)
    : (r: map<string, Content>)
    ensures Truthy(HtmlText(d)) ==> PagePath(dir, fullName) in r && r[PagePath(dir, fullName)] == Text(HtmlText(d).value)
    ensures !Truthy(HtmlText(d)) ==> r == files
  {
    if Truthy(HtmlText(d)) then files[PagePath(dir, fullName) := Text(HtmlText(d).value)] else files
  }

  /** The store after `process_lesson(item, dir, index)`. */
  function LessonFiles(files: map<string, Content>, item: ContentItem, dir: string, index: nat, env: Env)
    : (r: map<string, Content>)
    ensures Dispatch(item).Skip? ==> r == files
    ensures Dispatch(item).LessonRoute? && NoLessonData(env.lessonDetails(Dispatch(item).lessonId)) ==> r == files
    ensures Dispatch(item).QuizRoute? ==> r == QuizFiles(files, Dispatch(item).quizId, dir, FullLessonName(item, index), env)
  {
    var fullName := FullLessonName(item, index);
    match Dispatch(item)
    case Skip => files
    case QuizRoute(quizId) => QuizFiles(files, quizId, dir, fullName, env)
    case LessonRoute(lessonId) =>
      var d := env.lessonDetails(lessonId);
      if NoLessonData(d) then files
      else
        var afterVideo := VideoFiles(files, d.value, dir, fullName, env);
        var afterAttachments := AttachmentFiles(afterVideo, AttachmentsOf(d.value), dir, fullName, env);
        HtmlFiles(afterAttachments, d.value, dir, fullName)
  }

  /** A lesson with details runs the video, attachment and HTML steps in turn (main.py:310-349). */
  lemma StandardLessonFiles(files: map<string, Content>, item: ContentItem, dir: string, index: nat, env: Env)
    requires Dispatch(item).LessonRoute? && !NoLessonData(env.lessonDetails(Dispatch(item).lessonId))
    ensures var d := env.lessonDetails(Dispatch(item).lessonId).value;
      var n := FullLessonName(item, index);
      LessonFiles(files, item, dir, index, env) ==
        HtmlFiles(AttachmentFiles(VideoFiles(files, d, dir, n, env), AttachmentsOf(d), dir, n, env), d, dir, n)
  {
  }

  // ---------------------------------------------------------------------------
  // What process_lesson touches

  /** The quiz path writes at most the page `<full name>.html`. */
  lemma QuizFilesTouchesOnlyPage(files: map<string, Content>, quizId: int, dir: string, fullName: string, env: Env,
                                 p: string)
    requires p != PagePath(dir, fullName)
    ensures var r := QuizFiles(files, quizId, dir, fullName, env);
      (p in r <==> p in files) && (p in r ==> r[p] == files[p])
  {
  }

  /** The video step writes or removes at most the `.mp4` path. */
  lemma VideoFilesTouchesOnlyVideo(files: map<string, Content>, d: LessonDetail, dir: string, fullName: string, env: Env,
                                   p: string)
    requires p != Join(dir, WithMp4(fullName))
    ensures var r := VideoFiles(files, d, dir, fullName, env);
      (p in r <==> p in files) && (p in r ==> r[p] == files[p])
  {
  }

  /** The attachment loop writes or removes at most the attachments' own paths. */
  lemma {:induction false} AttachmentFilesTouchesOnlyAttachments(files: map<string, Content>, items: seq<FileItem>,
                                                                 dir: string, fullName: string, env: Env, p: string)
    requires forall k :: 0 <= k < |items| ==> p != Join(dir, AttachmentName(fullName, items[k]))
    ensures var r := AttachmentFiles(files, items, dir, fullName, env);
      (p in r <==> p in files) && (p in r ==> r[p] == files[p])
  {
    if items != [] {
      var init := items[..|items| - 1];
      forall k | 0 <= k < |init|
        ensures p != Join(dir, AttachmentName(fullName, init[k]))
      {
        assert init[k] == items[k];
      }
      AttachmentFilesTouchesOnlyAttachments(files, init, dir, fullName, env, p);
      var item := items[|items| - 1];
      if Truthy(item.downloadUrl) {
        var before := AttachmentFiles(files, init, dir, fullName, env);
        AttachmentStepTouchesOnly(before, item, dir, fullName, env.transfer(item.downloadUrl.value), p);
      }
    }
  }

  lemma AttachmentStepTouchesOnly(files: map<string, Content>, item: FileItem, dir: string, fullName: string,
                                  transfer: Transfer, p: string)
    requires p != Join(dir, AttachmentName(fullName, item))
    ensures var r := StreamedResult(files, Join(dir, AttachmentName(fullName, item)), transfer);
      (p in r <==> p in files) && (p in r ==> r[p] == files[p])
  {
  }

  /** One more attachment: fetched to its own name when it has a download URL, passed over otherwise. */
  lemma AttachmentFilesSnoc(files: map<string, Content>, items: seq<FileItem>, item: FileItem, dir: string,
                            fullName: string, env: Env)
    ensures var before := AttachmentFiles(files, items, dir, fullName, env);
      var r := AttachmentFiles(files, items + [item], dir, fullName, env);
      && (Truthy(item.downloadUrl) ==>
            r == StreamedResult(before, Join(dir, AttachmentName(fullName, item)), env.transfer(item.downloadUrl.value)))
      && (!Truthy(item.downloadUrl) ==> r == before)
  {
    var all := items + [item];
    assert all[..|all| - 1] == items && all[|all| - 1] == item;
  }

  /** Attachments without a download URL are passed over: nothing changes. */
  lemma {:induction false} AttachmentsWithoutUrlChangeNothing(files: map<string, Content>, items: seq<FileItem>,
                                                              dir: string, fullName: string, env: Env)
    requires forall k :: 0 <= k < |items| ==> !Truthy(items[k].downloadUrl)
    ensures AttachmentFiles(files, items, dir, fullName, env) == files
  {
    if items != [] {
      var init := items[..|items| - 1];
      assert forall k :: 0 <= k < |init| ==> init[k] == items[k];
      AttachmentsWithoutUrlChangeNothing(files, init, dir, fullName, env);
    }
  }

  /** The HTML text writes at most the page `<full name>.html`. */
  lemma HtmlFilesTouchesOnlyPage(files: map<string, Content>, d: LessonDetail, dir: string, fullName: string, p: string)
    requires p != PagePath(dir, fullName)
    ensures var r := HtmlFiles(files, d, dir, fullName);
      (p in r <==> p in files) && (p in r ==> r[p] == files[p])
  {
  }

  /** `files` and `r` agree everywhere outside the paths that start with `root`. */
  ghost predicate SameOutside(files: map<string, Content>, r: map<string, Content>, root: string) {
    forall p :: !IsPrefix(root, p) ==> (p in r <==> p in files) && (p in r ==> r[p] == files[p])
  }

  lemma FullNameIsRelative(item: ContentItem, index: nat)
    ensures |FullLessonName(item, index)| > 0 && FullLessonName(item, index)[0] != '/'
  {
    var p := Pad2(index);
    assert FullLessonName(item, index)[0] == p[0];
  }

  /** A path built from the lesson's full name followed by `suffix` starts with the lesson's root. */
  lemma UnderRoot(dir: string, fullName: string, suffix: string)
    requires |fullName| > 0 && fullName[0] != '/'
    ensures IsPrefix(Join(dir, fullName), Join(dir, fullName + suffix))
  {
    JoinAppend(dir, fullName, suffix);
  }

  /** One streamed download under `root` leaves everything outside `root` alone. */
  lemma StreamedFrame(files: map<string, Content>, path: string, transfer: Transfer, root: string)
    requires IsPrefix(root, path)
    ensures SameOutside(files, StreamedResult(files, path, transfer), root)
  {
  }

  lemma {:induction false} AttachmentFilesFrame(files: map<string, Content>, items: seq<FileItem>, dir: string,
                                                fullName: string, env: Env)
    requires |fullName| > 0 && fullName[0] != '/'
    ensures SameOutside(files, AttachmentFiles(files, items, dir, fullName, env), Join(dir, fullName))
  {
    if items != [] {
      var init := items[..|items| - 1];
      var root := Join(dir, fullName);
      AttachmentFilesFrame(files, init, dir, fullName, env);
      var before := AttachmentFiles(files, init, dir, fullName, env);
      var item := items[|items| - 1];
      if Truthy(item.downloadUrl) {
        AttachmentStepFrame(before, item, dir, fullName, env.transfer(item.downloadUrl.value));
        SameOutsideTransitive(files, before, AttachmentFiles(files, items, dir, fullName, env), root);
      }
    }
  }

  lemma AttachmentStepFrame(files: map<string, Content>, item: FileItem, dir: string, fullName: string,
                            transfer: Transfer)
    requires |fullName| > 0 && fullName[0] != '/'
    ensures SameOutside(files, StreamedResult(files, Join(dir, AttachmentName(fullName, item)), transfer),
                        Join(dir, fullName))
  {
    var name := AttachmentName(fullName, item);
    AttachmentNameExtends(fullName, item);
    UnderRoot(dir, fullName, name[|fullName|..]);
    StreamedFrame(files, Join(dir, name), transfer, Join(dir, fullName));
  }

  lemma SameOutsideTransitive(a: map<string, Content>, b: map<string, Content>, c: map<string, Content>, root: string)
    requires SameOutside(a, b, root) && SameOutside(b, c, root)
    ensures SameOutside(a, c, root)
  {
  }

  lemma QuizFilesFrame(files: map<string, Content>, quizId: int, dir: string, fullName: string, env: Env)
    requires |fullName| > 0 && fullName[0] != '/'
    ensures SameOutside(files, QuizFiles(files, quizId, dir, fullName, env), Join(dir, fullName))
  {
    UnderRoot(dir, fullName, ".html");
  }

  lemma VideoFilesFrame(files: map<string, Content>, d: LessonDetail, dir: string, fullName: string, env: Env)
    requires |fullName| > 0 && fullName[0] != '/'
    ensures SameOutside(files, VideoFiles(files, d, dir, fullName, env), Join(dir, fullName))
  {
    var video := WithMp4(fullName);
    assert video == fullName + video[|fullName|..];
    UnderRoot(dir, fullName, video[|fullName|..]);
  }

  lemma HtmlFilesFrame(files: map<string, Content>, d: LessonDetail, dir: string, fullName: string)
    requires |fullName| > 0 && fullName[0] != '/'
    ensures SameOutside(files, HtmlFiles(files, d, dir, fullName), Join(dir, fullName))
  {
    UnderRoot(dir, fullName, ".html");
  }

  /**
   * A lesson only ever writes or removes files whose paths start with
   * `os.path.join(dir, full_lesson_name)`: its video, its attachments and its
   * HTML page.
   */
  lemma LessonFrame(files: map<string, Content>, item: ContentItem, dir: string, index: nat, env: Env)
    ensures SameOutside(files, LessonFiles(files, item, dir, index, env), Join(dir, FullLessonName(item, index)))
  {
    match Dispatch(item)
    case Skip =>
    case QuizRoute(_) => QuizRouteFrame(files, item, dir, index, env);
    case LessonRoute(_) => LessonRouteFrame(files, item, dir, index, env);
  }

  lemma QuizRouteFrame(files: map<string, Content>, item: ContentItem, dir: string, index: nat, env: Env)
    requires Dispatch(item).QuizRoute?
    ensures SameOutside(files, LessonFiles(files, item, dir, index, env), Join(dir, FullLessonName(item, index)))
  {
    FullNameIsRelative(item, index);
    QuizFilesFrame(files, Dispatch(item).quizId, dir, FullLessonName(item, index), env);
  }

  lemma LessonRouteFrame(files: map<string, Content>, item: ContentItem, dir: string, index: nat, env: Env)
    requires Dispatch(item).LessonRoute?
    ensures SameOutside(files, LessonFiles(files, item, dir, index, env), Join(dir, FullLessonName(item, index)))
  {
    var d := env.lessonDetails(Dispatch(item).lessonId);
    if !NoLessonData(d) {
      FullNameIsRelative(item, index);
      StandardLessonFrame(files, d.value, dir, FullLessonName(item, index), env);
    }
  }

  /** The video, the attachments and the HTML text together write only under the lesson's root. */
  lemma StandardLessonFrame(files: map<string, Content>, d: LessonDetail, dir: string, fullName: string, env: Env)
    requires |fullName| > 0 && fullName[0] != '/'
    ensures var afterVideo := VideoFiles(files, d, dir, fullName, env);
      var afterAttachments := AttachmentFiles(afterVideo, AttachmentsOf(d), dir, fullName, env);
      SameOutside(files, HtmlFiles(afterAttachments, d, dir, fullName), Join(dir, fullName))
  {
    var root := Join(dir, fullName);
    var afterVideo := VideoFiles(files, d, dir, fullName, env);
    var afterAttachments := AttachmentFiles(afterVideo, AttachmentsOf(d), dir, fullName, env);
    VideoFilesFrame(files, d, dir, fullName, env);
    AttachmentFilesFrame(afterVideo, AttachmentsOf(d), dir, fullName, env);
    HtmlFilesFrame(afterAttachments, d, dir, fullName);
    SameOutsideTransitive(files, afterVideo, afterAttachments, root);
    SameOutsideTransitive(files, afterAttachments, HtmlFiles(afterAttachments, d, dir, fullName), root);
  }

  /** A quiz never reaches the lesson API: its outcome depends only on the quiz response. */
  lemma QuizIgnoresLessonApi(files: map<string, Content>, item: ContentItem, dir: string, index: nat, env: Env,
                             otherDetails: int -> Option<LessonDetail>)
    requires Dispatch(item).QuizRoute?
    ensures LessonFiles(files, item, dir, index, env) ==
            LessonFiles(files, item, dir, index, env.(lessonDetails := otherDetails))
  {
  }

  // ---------------------------------------------------------------------------
  // The methods of process_lesson and process_quiz

  /** main.py:152-189 with the HTML saved as the rendered page. */
  method ProcessQuizFile(store: FileStore, quizId: int, outputDir: string, fullName: string, env: Env)
    modifies store
    ensures store.files == QuizFiles(old(store.files), quizId, outputDir, fullName, env)
    ensures store.dirs == old(store.dirs)
  {
    var result := ProcessQuiz(env.quizData(quizId), env.decode);
    if result.Assembled? {
      var page := GenerateQuizHtml(fullName, result.questions);
      store.SaveTextFile(Join(outputDir, fullName + ".html"), QuizDocument(page));
    }
  }

  /** The attachment loop of main.py:323-344. */
  method DownloadAttachments(store: FileStore, items: seq<FileItem>, outputDir: string, fullName: string, env: Env)
    modifies store
    ensures store.files == AttachmentFiles(old(store.files), items, outputDir, fullName, env)
    ensures store.dirs == old(store.dirs)
  {
    for i := 0 to |items|
      invariant store.files == AttachmentFiles(old(store.files), items[..i], outputDir, fullName, env)
      invariant store.dirs == old(store.dirs)
    {
      assert items[..i + 1][..i] == items[..i];
      var item := items[i];
      var originalName := OriginalName(item);
      if Truthy(item.downloadUrl) {
        var stem, ext;
        if '.' in originalName {
          stem := BeforeLast(originalName, '.');
          ext := "." + LastPiece(originalName, '.');
        } else {
          stem := originalName;
          ext := UrlExt(item.downloadUrl.value);
        }
        var finalName := fullName + "_" + SanitizeFilename(stem, DefaultMaxLength) + ext;
        assert finalName == AttachmentName(fullName, item);
        store.DownloadFileRequests(outputDir, finalName, env.transfer(item.downloadUrl.value));
      }
    }
    assert items[..|items|] == items;
  }

  /** Step A of main.py:310-321: scrape the id, pick the asset, download it. */
  method DownloadVideo(store: FileStore, d: LessonDetail, outputDir: string, fullName: string, env: Env)
    modifies store
    ensures store.files == VideoFiles(old(store.files), d, outputDir, fullName, env)
    ensures store.dirs == old(store.dirs)
  {
    var videoUrl := VideoUrl(d);
    if Truthy(videoUrl) {
      var wistiaId := ExtractWistiaId(env.playerPage(videoUrl.value));
      if wistiaId.Some? {
        var (binUrl, _) := SelectAsset(wistiaId.value, env.manifest(wistiaId.value), env.quality);
        if Truthy(binUrl) {
          store.DownloadWithYtdlp(outputDir, fullName, env.tool(binUrl.value), env.transfer(binUrl.value));
        }
      }
    }
  }

  /** main.py:287-349. */
  method ProcessLesson(store: FileStore, item: ContentItem, outputDir: string, index: nat, env: Env)
    modifies store
    ensures store.files == LessonFiles(old(store.files), item, outputDir, index, env)
    ensures store.dirs == old(store.dirs)
  {
    var fullName := FullLessonName(item, index);
    match Dispatch(item)
    case Skip =>
    case QuizRoute(quizId) =>
      ProcessQuizFile(store, quizId, outputDir, fullName, env);
    case LessonRoute(lessonId) =>
      var lessonData := env.lessonDetails(lessonId);
      if !NoLessonData(lessonData) {
        DownloadLessonParts(store, lessonData.value, outputDir, fullName, env);
      }
  }

  /** Steps A-C of main.py:310-349: the video, the attachments and the HTML text of a lesson. */
  method DownloadLessonParts(store: FileStore, d: LessonDetail, outputDir: string, fullName: string, env: Env)
    modifies store
    ensures var afterVideo := VideoFiles(old(store.files), d, outputDir, fullName, env);
      var afterAttachments := AttachmentFiles(afterVideo, AttachmentsOf(d), outputDir, fullName, env);
      store.files == HtmlFiles(afterAttachments, d, outputDir, fullName)
    ensures store.dirs == old(store.dirs)
  {
    DownloadVideo(store, d, outputDir, fullName, env);
    DownloadAttachments(store, AttachmentsOf(d), outputDir, fullName, env);
    var htmlText := HtmlText(d);
    if Truthy(htmlText) {
      store.SaveTextFile(Join(outputDir, fullName + ".html"), Text(htmlText.value));
    }
  }

  // ---------------------------------------------------------------------------
  // main

  /** One call of `process_lesson`: the lesson, its chapter directory and its 1-based position. */
  datatype Job = Job(lesson: ContentItem, dir: string, index: nat)

  function ContentId(item: ContentItem): int { item.id }

  /** main.py:366-367: `contents` then `lessons`, keyed by id, later records winning. */
  function ContentsMap(course: Course): (r: map<int, ContentItem>)
    ensures var all := course.contents.GetOr([]) + course.lessons.GetOr([]);
      forall id :: id in r <==> exists k :: 0 <= k < |all| && all[k].id == id
    ensures var all := course.contents.GetOr([]) + course.lessons.GetOr([]);
      forall k :: 0 <= k < |all| && (forall j :: k < j < |all| ==> all[j].id != all[k].id) ==> r[all[k].id] == all[k]
  {
    var all := course.contents.GetOr([]) + course.lessons.GetOr([]);
    assert forall k :: 0 <= k < |all| ==> ContentId(all[k]) == all[k].id;
    assert forall k :: 0 <= k < |all| && (forall j :: k < j < |all| ==> all[j].id != all[k].id) ==>
      IndexBy(all, ContentId)[all[k].id] == all[k] by {
      forall k | 0 <= k < |all| && (forall j :: k < j < |all| ==> all[j].id != all[k].id)
        ensures IndexBy(all, ContentId)[all[k].id] == all[k]
      {
        IndexByLastWins(all, ContentId, k);
      }
    }
    IndexBy(all, ContentId)
  }

  function Chapters(course: Course): seq<Chapter> { course.chapters.GetOr([]) }

  /** main.py:359-363: `Downloads/<sanitised course name>` under the working directory. */
  function BaseDir(cwd: string, course: Course): (r: string)
    ensures IsPrefix(Join(cwd, "Downloads"), r)
    ensures var name := SanitizeFilename(course.courseName.GetOr("Course"), DefaultMaxLength);
      name != [] ==> EndsWith(r, name)
  {
    Join(Join(cwd, "Downloads"), SanitizeFilename(course.courseName.GetOr("Course"), DefaultMaxLength))
  }

  /** main.py:377-381: the directory of chapter number `i`. */
  function ChapterDir(base: string, chapter: Chapter, i: nat): (r: string)
    ensures IsPrefix(base, r)
    ensures EndsWith(r, OrdinalName(i, chapter.name.GetOr("Chapter " + NatToDecimal(i))))
  {
    Join(base, OrdinalName(i, chapter.name.GetOr("Chapter " + NatToDecimal(i))))
  }

  /** The directories of all the chapters, in order. */
  function ChapterDirs(base: string, chapters: seq<Chapter>): (r: seq<string>)
    ensures |r| == |chapters|
  {
    seq(|chapters|, (k: nat) requires k < |chapters| => ChapterDir(base, chapters[k], k + 1))
  }

  /** Directory `k` is that of chapter number `k + 1`. */
  lemma ChapterDirsElements(base: string, chapters: seq<Chapter>)
    ensures forall k :: 0 <= k < |chapters| ==> ChapterDirs(base, chapters)[k] == ChapterDir(base, chapters[k], k + 1)
  {
    var dirs := ChapterDirs(base, chapters);
    forall k | 0 <= k < |chapters|
      ensures dirs[k] == ChapterDir(base, chapters[k], k + 1)
    {
    }
  }

  /** The lessons of one chapter: the ids with a record, each with its position among all the ids. */
  function ChapterJobs(ids: seq<int>, contents: map<int, ContentItem>, dir: string): (r: seq<Job>)
    ensures forall k :: 0 <= k < |r| ==> r[k].dir == dir && 1 <= r[k].index <= |ids|
  {
    if ids == [] then []
    else
      var init := ChapterJobs(ids[..|ids| - 1], contents, dir);
      var id := ids[|ids| - 1];
      if id in contents then init + [Job(contents[id], dir, |ids|)] else init
  }

  /** The lessons of the chapters whose numbers are in `chosen`, chapter by chapter; `dirs` names their directories. */
  function CourseJobs(chapters: seq<Chapter>, chosen: set<int>, contents: map<int, ContentItem>, dirs: seq<string>)
    : (r: seq<Job>)
    requires |dirs| == |chapters|
    ensures (forall i :: 1 <= i <= |chapters| ==> i !in chosen) ==> r == []
  {
    if chapters == [] then []
    else
      var n := |chapters|;
      var init := CourseJobs(chapters[..n - 1], chosen, contents, dirs[..n - 1]);
      if n in chosen then init + ChapterJobs(chapters[n - 1].contentIds.GetOr([]), contents, dirs[n - 1])
      else init
  }

  /** `process_lesson` over `jobs` in order. */
  function RunJobs(files: map<string, Content>, jobs: seq<Job>, env: Env): (r: map<string, Content>)
  {
    if jobs == [] then files
    else
      var last := jobs[|jobs| - 1];
      LessonFiles(RunJobs(files, jobs[..|jobs| - 1], env), last.lesson, last.dir, last.index, env)
  }

  /** Jobs that all stop at dispatch leave the store as it was. */
  lemma {:induction false} SkippedJobsChangeNothing(files: map<string, Content>, jobs: seq<Job>, env: Env)
    requires forall k :: 0 <= k < |jobs| ==> Dispatch(jobs[k].lesson).Skip?
    ensures RunJobs(files, jobs, env) == files
  {
    if jobs != [] {
      var init := jobs[..|jobs| - 1];
      assert forall k :: 0 <= k < |init| ==> init[k] == jobs[k];
      SkippedJobsChangeNothing(files, init, env);
    }
  }

  lemma {:induction false} RunJobsAppend(files: map<string, Content>, a: seq<Job>, b: seq<Job>, env: Env)
    ensures RunJobs(files, a + b, env) == RunJobs(RunJobs(files, a, env), b, env)
    decreases |b|
  {
    if b == [] {
      assert a + b == a;
    } else {
      assert (a + b)[..|a + b| - 1] == a + b[..|b| - 1];
      RunJobsAppend(files, a, b[..|b| - 1], env);
    }
  }

  /** A chapter's job is exactly an id with a record, at its position among the chapter's ids. */
  lemma {:induction false} ChapterJobsAreLookups(ids: seq<int>, contents: map<int, ContentItem>, dir: string, job: Job)
    ensures job in ChapterJobs(ids, contents, dir) <==>
      (job.dir == dir && 1 <= job.index <= |ids| && ids[job.index - 1] in contents &&
       job.lesson == contents[ids[job.index - 1]])
  {
    if ids != [] {
      var init := ids[..|ids| - 1];
      ChapterJobsAreLookups(init, contents, dir, job);
      if 1 <= job.index <= |init| {
        assert init[job.index - 1] == ids[job.index - 1];
      }
    }
  }

  predicate IndicesIncrease(jobs: seq<Job>) {
    forall k, l :: 0 <= k < l < |jobs| ==> jobs[k].index < jobs[l].index
  }

  /** Positions grow along a chapter's jobs: lessons run in `content_ids` order. */
  lemma {:induction false} ChapterJobsInOrder(ids: seq<int>, contents: map<int, ContentItem>, dir: string)
    ensures IndicesIncrease(ChapterJobs(ids, contents, dir))
  {
    if ids != [] {
      var init := ids[..|ids| - 1];
      ChapterJobsInOrder(init, contents, dir);
      var before := ChapterJobs(init, contents, dir);
      var jobs := ChapterJobs(ids, contents, dir);
      if ids[|ids| - 1] in contents {
        assert jobs == before + [Job(contents[ids[|ids| - 1]], dir, |ids|)];
        forall k, l | 0 <= k < l < |jobs| ensures jobs[k].index < jobs[l].index {
          assert jobs[k] == before[k];
          assert before[k].index <= |init|;
          if l < |before| {
            assert jobs[l] == before[l];
            assert before[k].index < before[l].index;
          } else {
            assert jobs[l].index == |ids|;
          }
        }
      } else {
        assert jobs == before;
      }
    }
  }

  /**
   * Only chosen chapters contribute lessons: every job belongs to a chapter
   * whose number was selected, and is a lookup of one of its ids.
   */
  lemma {:induction false} CourseJobsFromChosenChapters(chapters: seq<Chapter>, chosen: set<int>,
                                                        contents: map<int, ContentItem>, dirs: seq<string>, job: Job)
    requires |dirs| == |chapters|
    requires job in CourseJobs(chapters, chosen, contents, dirs)
    ensures exists i :: (1 <= i <= |chapters| && i in chosen &&
      job in ChapterJobs(chapters[i - 1].contentIds.GetOr([]), contents, dirs[i - 1]))
  {
    var n := |chapters|;
    var init := chapters[..n - 1];
    if job in CourseJobs(init, chosen, contents, dirs[..n - 1]) {
      CourseJobsFromChosenChapters(init, chosen, contents, dirs[..n - 1], job);
      var i :| 1 <= i <= |init| && i in chosen &&
        job in ChapterJobs(init[i - 1].contentIds.GetOr([]), contents, dirs[..n - 1][i - 1]);
      assert init[i - 1] == chapters[i - 1] && dirs[..n - 1][i - 1] == dirs[i - 1];
    } else {
      assert n in chosen;
    }
  }

  /** And every lesson of a chosen chapter whose id has a record is run. */
  lemma {:induction false} ChosenChapterLessonsRun(chapters: seq<Chapter>, chosen: set<int>,
                                                   contents: map<int, ContentItem>, dirs: seq<string>, i: nat, job: Job)
    requires |dirs| == |chapters|
    requires 1 <= i <= |chapters| && i in chosen
    requires job in ChapterJobs(chapters[i - 1].contentIds.GetOr([]), contents, dirs[i - 1])
    ensures job in CourseJobs(chapters, chosen, contents, dirs)
  {
    var n := |chapters|;
    var init := chapters[..n - 1];
    var before := CourseJobs(init, chosen, contents, dirs[..n - 1]);
    if i < n {
      assert init[i - 1] == chapters[i - 1] && dirs[..n - 1][i - 1] == dirs[i - 1];
      ChosenChapterLessonsRun(init, chosen, contents, dirs[..n - 1], i, job);
      assert job in before;
      if n in chosen {
        var last := ChapterJobs(chapters[n - 1].contentIds.GetOr([]), contents, dirs[n - 1]);
        assert CourseJobs(chapters, chosen, contents, dirs) == before + last;
      } else {
        assert CourseJobs(chapters, chosen, contents, dirs) == before;
      }
    } else {
      var last := ChapterJobs(chapters[n - 1].contentIds.GetOr([]), contents, dirs[n - 1]);
      assert CourseJobs(chapters, chosen, contents, dirs) == before + last;
    }
  }

  /** One more content id adds its job when it has a record. */
  lemma ChapterJobsStep(ids: seq<int>, contents: map<int, ContentItem>, dir: string, j: nat)
    requires 1 <= j <= |ids|
    ensures ids[j - 1] in contents ==>
      ChapterJobs(ids[..j], contents, dir) == ChapterJobs(ids[..j - 1], contents, dir) + [Job(contents[ids[j - 1]], dir, j)]
    ensures ids[j - 1] !in contents ==> ChapterJobs(ids[..j], contents, dir) == ChapterJobs(ids[..j - 1], contents, dir)
  {
    assert ids[..j][..j - 1] == ids[..j - 1];
  }

  /** Running one more job is running `process_lesson` once more. */
  lemma RunJobsSnoc(files: map<string, Content>, jobs: seq<Job>, job: Job, env: Env)
    ensures RunJobs(files, jobs + [job], env) == LessonFiles(RunJobs(files, jobs, env), job.lesson, job.dir, job.index, env)
  {
    assert (jobs + [job])[..|jobs|] == jobs;
  }

  /** The inner loop of main.py:386-390 over one chapter's content ids. */
  method RunChapter(store: FileStore, contentIds: seq<int>, contents: map<int, ContentItem>, chapterPath: string, env: Env)
    modifies store
    ensures store.files == RunJobs(old(store.files), ChapterJobs(contentIds, contents, chapterPath), env)
    ensures store.dirs == old(store.dirs)
  {
    ghost var files0 := store.files;
    for j := 1 to |contentIds| + 1
      invariant store.files == RunJobs(files0, ChapterJobs(contentIds[..j - 1], contents, chapterPath), env)
      invariant store.dirs == old(store.dirs)
    {
      RunContent(store, contentIds, contents, chapterPath, j, files0, env);
    }
    assert contentIds[..|contentIds|] == contentIds;
  }

  /** One pass of that loop: the `j`-th content id is looked up and, when it has a record, processed. */
  method RunContent(store: FileStore, contentIds: seq<int>, contents: map<int, ContentItem>, chapterPath: string,
                    j: nat, ghost files0: map<string, Content>, env: Env)
    requires 1 <= j <= |contentIds|
    requires store.files == RunJobs(files0, ChapterJobs(contentIds[..j - 1], contents, chapterPath), env)
    modifies store
    ensures store.files == RunJobs(files0, ChapterJobs(contentIds[..j], contents, chapterPath), env)
    ensures store.dirs == old(store.dirs)
  {
    ghost var before := ChapterJobs(contentIds[..j - 1], contents, chapterPath);
    ChapterJobsStep(contentIds, contents, chapterPath, j);
    var contentId := contentIds[j - 1];
    if contentId in contents {
      ProcessLesson(store, contents[contentId], chapterPath, j, env);
      RunJobsSnoc(files0, before, Job(contents[contentId], chapterPath, j), env);
    }
  }

  /** One more chapter adds its jobs when it is chosen. */
  lemma CourseJobsStep(chapters: seq<Chapter>, chosen: set<int>, contents: map<int, ContentItem>, dirs: seq<string>,
                       i: nat)
    requires |dirs| == |chapters| && 1 <= i <= |chapters|
    ensures CourseJobs(chapters[..i], chosen, contents, dirs[..i]) ==
      CourseJobs(chapters[..i - 1], chosen, contents, dirs[..i - 1]) +
      (if i in chosen then ChapterJobs(chapters[i - 1].contentIds.GetOr([]), contents, dirs[i - 1]) else [])
  {
    assert chapters[..i][..i - 1] == chapters[..i - 1];
    assert dirs[..i][..i - 1] == dirs[..i - 1];
    if i !in chosen {
      assert CourseJobs(chapters[..i - 1], chosen, contents, dirs[..i - 1]) + [] ==
        CourseJobs(chapters[..i - 1], chosen, contents, dirs[..i - 1]);
    }
  }

  /** main.py:375-390: one selected chapter, its directory and its lessons. */
  method ProcessChapter(store: FileStore, base: string, chapter: Chapter, i: nat, contents: map<int, ContentItem>,
                        env: Env)
    returns (chapterPath: string)
    modifies store
    ensures chapterPath == ChapterDir(base, chapter, i)
    ensures store.files == RunJobs(old(store.files), ChapterJobs(chapter.contentIds.GetOr([]), contents, chapterPath), env)
    ensures store.dirs == WithDirectory(old(store.files), old(store.dirs), chapterPath)
  {
    var chapterName := SanitizeFilename(chapter.name.GetOr("Chapter " + NatToDecimal(i)), DefaultMaxLength);
    chapterPath := Join(base, Pad2(i) + "_-_ " + chapterName);
    assert chapterPath == ChapterDir(base, chapter, i);
    store.CreateDirectory(chapterPath);
    RunChapter(store, chapter.contentIds.GetOr([]), contents, chapterPath, env);
  }

  /**
   * The chapter loop of main.py:374-390: chapter number `i` is processed when
   * it is in `selected`, whose elements are those of `chosen`; `dirs` are the
   * chapter directories.
   */
  method RunChapters(store: FileStore, base: string, chapters: seq<Chapter>, selected: seq<int>, ghost chosen: set<int>,
                     ghost dirs: seq<string>, contents: map<int, ContentItem>, env: Env)
    requires forall x :: x in selected <==> x in chosen
    requires |dirs| == |chapters|
    requires forall k :: 0 <= k < |chapters| ==> dirs[k] == ChapterDir(base, chapters[k], k + 1)
    modifies store
    ensures store.files == RunJobs(old(store.files), CourseJobs(chapters, chosen, contents, dirs), env)
    ensures forall d :: d in store.dirs ==>
      (d in old(store.dirs) || exists k :: 1 <= k <= |chapters| && k in chosen && d == dirs[k - 1])
  {
    ghost var files0 := store.files;
    ghost var dirs0 := store.dirs;
    for i := 1 to |chapters| + 1
      invariant store.files == RunJobs(files0, CourseJobs(chapters[..i - 1], chosen, contents, dirs[..i - 1]), env)
      invariant forall d :: d in store.dirs ==>
        (d in dirs0 || exists k :: 1 <= k < i && k in chosen && d == dirs[k - 1])
    {
      ghost var before := CourseJobs(chapters[..i - 1], chosen, contents, dirs[..i - 1]);
      CourseJobsStep(chapters, chosen, contents, dirs, i);
      if i !in selected {
        assert before + [] == before;
        continue;
      }
      ghost var dirsBefore := store.dirs;
      var chapterPath := ProcessChapter(store, base, chapters[i - 1], i, contents, env);
      assert chapterPath == dirs[i - 1];
      RunJobsAppend(files0, before, ChapterJobs(chapters[i - 1].contentIds.GetOr([]), contents, dirs[i - 1]), env);
      forall d | d in store.dirs
        ensures d in dirs0 || exists k :: 1 <= k < i + 1 && k in chosen && d == dirs[k - 1]
      {
        if d == chapterPath {
          assert 1 <= i < i + 1 && i in chosen && d == dirs[i - 1];
        } else {
          assert d in dirsBefore;
        }
      }
    }
    assert chapters[..|chapters|] == chapters;
    assert dirs[..|chapters|] == dirs;
  }

  /** main.py:354-392: the store after `main`, given the user's answer to the chapter prompt. */
  method RunCourse(store: FileStore, cwd: string, course: Course, answer: string, env: Env)
    modifies store
    ensures var chapters := Chapters(course);
      store.files == RunJobs(old(store.files),
        CourseJobs(chapters, ChosenSet(answer, |chapters|), ContentsMap(course),
                   ChapterDirs(BaseDir(cwd, course), chapters)),
        env)
    ensures var chapters := Chapters(course);
      forall d :: d in store.dirs ==>
        (d in old(store.dirs) || d == BaseDir(cwd, course) ||
         exists i :: 1 <= i <= |chapters| && i in ChosenSet(answer, |chapters|) &&
           d == ChapterDirs(BaseDir(cwd, course), chapters)[i - 1])
  {
    var base := BaseDir(cwd, course);
    store.CreateDirectory(base);
    var contents := ContentsMap(course);
    var chapters := Chapters(course);
    var selected := SelectChapters(answer, |chapters|);
    ghost var chosen := ChosenSet(answer, |chapters|);
    ghost var dirs := ChapterDirs(base, chapters);
    ChapterDirsElements(base, chapters);
    RunChapters(store, base, chapters, selected, chosen, dirs, contents, env);
  }
}
