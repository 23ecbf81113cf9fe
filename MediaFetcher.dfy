/**
 * The download rules of main.py (`download_file_requests`,
 * `download_with_ytdlp`) and the two file helpers of utlis.py
 * (`create_directory`, `save_text_file`), over an abstract file store: a map
 * from paths to contents and a set of directories. What the network and
 * yt-dlp do is an input: the chunks a streamed response delivers before it
 * ends or fails, and whether the yt-dlp call succeeds.
 */
module MediaFetcher {
  import opened Strings
  import opened Naming
  import opened Quiz

  // ---------------------------------------------------------------------------
  // Paths and contents

  /** `os.path.join(dir, name)` on POSIX: an absolute `name` replaces `dir`. */
  function Join(dir: string, name: string): (r: string)
    ensures |name| > 0 && name[0] == '/' ==> r == name
    ensures !(|name| > 0 && name[0] == '/') ==> EndsWith(r, name) && IsPrefix(dir, r)
  {
    if |name| > 0 && name[0] == '/' then name
    else if dir == "" || dir[|dir| - 1] == '/' then dir + name
    else dir + "/" + name
  }

  /** Appending to a relative name appends to the joined path. */
  lemma JoinAppend(dir: string, name: string, suffix: string)
    requires |name| > 0 && name[0] != '/'
    ensures Join(dir, name + suffix) == Join(dir, name) + suffix
  {
    assert (name + suffix)[0] == name[0];
  }

  /** What a file holds: downloaded bytes, a text file, or a rendered quiz page. */
  datatype Content = Bytes(data: seq<bv8>) | Text(text: string) | QuizDocument(page: QuizPage)

  /** `os.path.getsize(path) > 0`; a rendered quiz page is never empty. */
  predicate NonEmpty(c: Content) {
    match c
    case Bytes(data) => |data| > 0
    case Text(text) => |text| > 0
    case QuizDocument(_) => true
  }

  predicate NonEmptyAt(files: map<string, Content>, path: string) {
    path in files && NonEmpty(files[path])
  }

  function Flatten(chunks: seq<seq<bv8>>): (r: seq<bv8>)
    ensures chunks == [] ==> r == []
  {
    if chunks == [] then [] else Flatten(chunks[..|chunks| - 1]) + chunks[|chunks| - 1]
  }

  /**
   * How a streamed GET ends: all its chunks arrive, it fails before the file
   * is opened (a connection error, an HTTP error status, an unopenable path),
   * or some chunks are written and then it fails.
   */
  datatype Transfer = Delivered(chunks: seq<seq<bv8>>) | FailedBeforeOpen | FailedWhileWriting(written: seq<seq<bv8>>)

  /** Whether `ydl.download` returns normally, and the file it leaves then. */
  datatype ToolOutcome = ToolSucceeded(data: seq<bv8>) | ToolFailed

  // ---------------------------------------------------------------------------
  // The rules, as functions of the store

  /**
   * The store after `download_file_requests` to `path`: unchanged when a
   * non-empty file is there; the delivered bytes on success; on any failure
   * no file at `path` at all, since the handler removes whatever is there.
   */
  function StreamedResult(files: map<string, Content>, path: string, transfer: Transfer)
    : (r: map<string, Content>)
    ensures NonEmptyAt(files, path) ==> r == files
    ensures !NonEmptyAt(files, path) && transfer.Delivered? ==>
      path in r && r[path] == Bytes(Flatten(transfer.chunks))
    ensures !NonEmptyAt(files, path) && !transfer.Delivered? ==> path !in r
    ensures forall p :: p != path ==> (p in r <==> p in files) && (p in r ==> r[p] == files[p])
  {
    if NonEmptyAt(files, path) then files
    else match transfer
      case Delivered(chunks) => files[path := Bytes(Flatten(chunks))]
      case FailedBeforeOpen => files - {path}
      case FailedWhileWriting(_) => files - {path}
  }

  /** A second call after a download that delivered something changes nothing. */
  lemma StreamedRerunIsNoOp(files: map<string, Content>, path: string, chunks: seq<seq<bv8>>, again: Transfer)
    requires |Flatten(chunks)| > 0
    ensures var once := StreamedResult(files, path, Delivered(chunks));
      StreamedResult(once, path, again) == once
  {
  }

  /**
   * The store after `download_with_ytdlp(url, dir, filename)`: the target is
   * `filename` with the `.mp4` rule applied; a non-empty file there means
   * nothing happens; otherwise yt-dlp writes it, or on failure the streamed
   * download runs with the same name.
   */
  function VideoResult(files: map<string, Content>, dir: string, filename: string,
                       tool: ToolOutcome, fallback: Transfer): (r: map<string, Content>)
    ensures var path := Join(dir, WithMp4(filename));
      && (NonEmptyAt(files, path) ==> r == files)
      && (!NonEmptyAt(files, path) && tool.ToolSucceeded? ==> r == files[path := Bytes(tool.data)])
      && (!NonEmptyAt(files, path) && tool.ToolFailed? ==> r == StreamedResult(files, path, fallback))
      && (forall p :: p != path ==> (p in r <==> p in files) && (p in r ==> r[p] == files[p]))
  {
    var path := Join(dir, WithMp4(filename));
    if NonEmptyAt(files, path) then files
    else match tool
      case ToolSucceeded(data) => files[path := Bytes(data)]
      case ToolFailed => StreamedResult(files, path, fallback)
  }

  /** When yt-dlp fails on a missing or empty target, the outcome is the fallback's. */
  lemma FallbackRunsOnToolFailure(files: map<string, Content>, dir: string, filename: string, fallback: Transfer)
    requires !NonEmptyAt(files, Join(dir, WithMp4(filename)))
    ensures VideoResult(files, dir, filename, ToolFailed, fallback) ==
      StreamedResult(files, Join(dir, WithMp4(filename)), fallback)
    ensures !fallback.Delivered? ==>
      (Join(dir, WithMp4(filename)) !in VideoResult(files, dir, filename, ToolFailed, fallback))
  {
  }

  /** The video always lands at, or is looked for at, a path ending in `.mp4` in some letter case. */
  lemma VideoPathEndsInMp4(dir: string, filename: string)
    requires |filename| > 0 && filename[0] != '/'
    ensures EndsWith(Lower(Join(dir, WithMp4(filename))), Mp4)
  {
    var path := Join(dir, WithMp4(filename));
    var name := WithMp4(filename);
    assert path[|path| - |name|..] == name;
    assert Lower(path)[|path| - 4..] == Lower(name)[|name| - 4..];
  }

  /** `create_directory`: the directory exists afterwards unless a file is in the way. */
  function WithDirectory(files: map<string, Content>, dirs: set<string>, path: string): (r: set<string>)
    ensures path in r <==> path in dirs || path !in files
    ensures forall d :: d != path ==> (d in r <==> d in dirs)
  {
    if path in dirs || path in files then dirs else dirs + {path}
  }

  // ---------------------------------------------------------------------------
  // The store

  class FileStore {
    var files: map<string, Content>
    var dirs: set<string>

    constructor (initialFiles: map<string, Content>, initialDirs: set<string>)
      ensures files == initialFiles && dirs == initialDirs
    {
      files := initialFiles;
      dirs := initialDirs;
    }

    /** utlis.py:70-76. */
    method CreateDirectory(path: string)
      modifies this
      ensures files == old(files)
      ensures dirs == WithDirectory(old(files), old(dirs), path)
    {
      if path !in dirs && path !in files {
        dirs := dirs + {path};
      }
    }

    /** utlis.py:79-83: the file is created or overwritten. */
    method SaveTextFile(path: string, content: Content)
      modifies this
      ensures files == old(files)[path := content]
      ensures dirs == old(dirs)
    {
      files := files[path := content];
    }

    /** main.py:229-253. */
    method DownloadFileRequests(outputPath: string, filename: string, transfer: Transfer)
      modifies this
      ensures files == StreamedResult(old(files), Join(outputPath, filename), transfer)
      ensures dirs == old(dirs)
    {
      var finalPath := Join(outputPath, filename);
      if finalPath in files && NonEmpty(files[finalPath]) {
        return;
      }
      match transfer
      case FailedBeforeOpen =>
        files := files - {finalPath};
      case Delivered(chunks) =>
        WriteChunks(finalPath, chunks);
      case FailedWhileWriting(written) =>
        WriteChunks(finalPath, written);
        files := files - {finalPath};
    }

    /** `open(path, 'wb')` and one `f.write(chunk)` per chunk. */
    method WriteChunks(path: string, chunks: seq<seq<bv8>>)
      modifies this
      ensures files == old(files)[path := Bytes(Flatten(chunks))]
      ensures dirs == old(dirs)
    {
      files := files[path := Bytes([])];
      for i := 0 to |chunks|
        invariant files == old(files)[path := Bytes(Flatten(chunks[..i]))]
        invariant dirs == old(dirs)
      {
        assert chunks[..i + 1][..i] == chunks[..i];
        files := files[path := Bytes(files[path].data + chunks[i])];
      }
      assert chunks[..|chunks|] == chunks;
    }

    /** main.py:196-226. */
    method DownloadWithYtdlp(outputPath: string, filename: string, tool: ToolOutcome, fallback: Transfer)
      modifies this
      ensures files == VideoResult(old(files), outputPath, filename, tool, fallback)
      ensures dirs == old(dirs)
    {
      var name := filename;
      if !EndsWith(Lower(name), Mp4) {
        name := name + Mp4;
      }
      var finalPath := Join(outputPath, name);
      if finalPath in files && NonEmpty(files[finalPath]) {
        return;
      }
      match tool
      case ToolSucceeded(data) =>
        files := files[finalPath := Bytes(data)];
      case ToolFailed =>
        DownloadFileRequests(outputPath, name, fallback);
    }
  }
}
