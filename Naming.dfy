/**
 * How main.py names what it writes: the zero-padded ordinal prefix of chapter
 * directories and lesson files, the `.mp4` rule of `download_with_ytdlp`, and
 * the stem/extension split of attachment names in `process_lesson`.
 */
module Naming {
  import opened Wrappers
  import opened Strings
  import opened Sanitizer

  // ---------------------------------------------------------------------------
  // Ordinal prefixes

  /** `f"{n:02d}"`: the decimal digits of `n`, padded with a zero to two places. */
  function Pad2(n: nat): (r: string)
    ensures |r| >= 2 && AllDigits(r)
    ensures DecimalValue(r) == n
    ensures n >= 10 ==> |r| == |NatToDecimal(n)|
    ensures n < 10 ==> |r| == 2
  {
    if n < 10 then
      var r := "0" + NatToDecimal(n);
      assert r[..|r| - 1] == "0";
      r
    else NatToDecimal(n)
  }

  /** The separator between the ordinal and the sanitised name. */
  const OrdinalSeparator := "_-_ "

  /** `f"{i:02d}_-_ {sanitize_filename(name)}"`, the name of a chapter directory or a lesson. */
  function OrdinalName(index: nat, name: string): (r: string)
    ensures IsPrefix(Pad2(index) + OrdinalSeparator, r)
    ensures IsSanitized(r[|Pad2(index) + OrdinalSeparator|..], DefaultMaxLength)
    ensures r[|Pad2(index) + OrdinalSeparator|..] == SanitizeFilename(name, DefaultMaxLength)
  {
    var s := SanitizeFilename(name, DefaultMaxLength);
    assert IsSanitized(s, DefaultMaxLength);
    assert (Pad2(index) + OrdinalSeparator + s)[|Pad2(index) + OrdinalSeparator|..] == s;
    Pad2(index) + OrdinalSeparator + s
  }

  /** The ordinal can be read back: it is everything before the first underscore. */
  lemma OrdinalReadBack(index: nat, name: string)
    ensures FirstPiece(OrdinalName(index, name), '_') == Pad2(index)
    ensures DecimalValue(FirstPiece(OrdinalName(index, name), '_')) == index
  {
    var p := Pad2(index);
    assert '_' !in p by {
      forall k | 0 <= k < |p| ensures p[k] != '_' {
        assert IsDigit(p[k]);
      }
    }
    FirstPieceOfHead(OrdinalName(index, name), p, OrdinalSeparator, '_');
  }

  /** When `s` starts with `p + sep`, `sep` starts with `c` and `p` has no `c`, the first piece is `p`. */
  lemma FirstPieceOfHead(s: string, p: string, sep: string, c: char)
    requires IsPrefix(p + sep, s) && |sep| > 0 && sep[0] == c && c !in p
    ensures FirstPiece(s, c) == p
  {
    var head := p + sep;
    assert s[..|p|] == head[..|p|] == p;
    assert s[|p|] == head[|p|] == c;
    FirstPieceOfPrefix(s, p, c);
  }

  /** When `s` starts with `p`, has no `c` before index `|p|` and `c` there, the first piece is `p`. */
  lemma {:induction false} FirstPieceOfPrefix(s: string, p: string, c: char)
    requires |p| < |s| && s[..|p|] == p && c !in p && s[|p|] == c
    ensures FirstPiece(s, c) == p
  {
    if p != [] {
      assert s[1..][..|p| - 1] == p[1..];
      FirstPieceOfPrefix(s[1..], p[1..], c);
    }
  }

  /** Different ordinals always give different names, whatever the names sanitise to. */
  lemma OrdinalNamesDistinct(i: nat, j: nat, a: string, b: string)
    requires i != j
    ensures OrdinalName(i, a) != OrdinalName(j, b)
  {
    OrdinalReadBack(i, a);
    OrdinalReadBack(j, b);
  }

  // ---------------------------------------------------------------------------
  // The video file name

  const Mp4 := ".mp4"

  /** Lines 198-199: `.mp4` is appended unless the name already ends with it in some letter case. */
  function WithMp4(filename: string): (r: string)
    ensures EndsWith(Lower(r), Mp4)
    ensures IsPrefix(filename, r)
    ensures EndsWith(Lower(filename), Mp4) ==> r == filename
    ensures !EndsWith(Lower(filename), Mp4) ==> |r| == |filename| + 4
  {
    if EndsWith(Lower(filename), Mp4) then filename
    else
      var r := filename + Mp4;
      assert Lower(r)[|r| - 4..] == Mp4;
      r
  }

  /** Applying the rule twice is applying it once. */
  lemma WithMp4Idempotent(filename: string)
    ensures WithMp4(WithMp4(filename)) == WithMp4(filename)
  {
  }

  // ---------------------------------------------------------------------------
  // Attachment names

  /** One entry of `download_files` or `attachments`. */
  datatype FileItem = FileItem(fileName: Option<string>, labelText: Option<string>, downloadUrl: Option<string>)

  /** A string value or a missing key, as Python's `or` sees it. */
  predicate Truthy(v: Option<string>) { v.Some? && v.value != "" }

  /** `file_name or label or 'attachment'`. */
  function OriginalName(item: FileItem): (r: string)
    ensures r != ""
    ensures Truthy(item.fileName) ==> r == item.fileName.value
    ensures !Truthy(item.fileName) && Truthy(item.labelText) ==> r == item.labelText.value
    ensures !Truthy(item.fileName) && !Truthy(item.labelText) ==> r == "attachment"
  {
    if Truthy(item.fileName) then item.fileName.value
    else if Truthy(item.labelText) then item.labelText.value
    else "attachment"
  }

  /**
   * The rule of lines 337-338 on some text: `.` and the last `.`-piece when
   * that piece is shorter than five characters, nothing otherwise.
   */
  function DotExt(text: string): (r: string)
    ensures r == "" || r[0] == '.'
    ensures |r| <= 5
    ensures r == "" <==> |text| >= 5 && '.' !in text[|text| - 5..]
    ensures r != "" ==>
      EndsWith(text, r[1..]) && '.' !in r[1..] && (|r| - 1 == |text| || text[|text| - |r|] == '.')
    ensures '.' in text && r != "" ==> EndsWith(text, r)
  {
    var sniffed := LastPiece(text, '.');
    LastPieceShorter(text, '.', 5);
    if |sniffed| < 5 then
      assert ("." + sniffed)[1..] == sniffed;
      assert '.' in text ==> text[|text| - |sniffed| - 1..] == "." + sniffed by {
        if '.' in text {
          assert text[|text| - |sniffed| - 1..] == [text[|text| - |sniffed| - 1]] + text[|text| - |sniffed|..];
        }
      }
      "." + sniffed
    else ""
  }

  /** A last `.`-piece shorter than five characters is the extension, after a dot. */
  lemma ShortPieceExt(text: string)
    requires |LastPiece(text, '.')| < 5
    ensures DotExt(text) == "." + LastPiece(text, '.')
  {
  }

  /**
   * Lines 337-338 as written: the rule applied to the whole URL before `?`,
   * so the piece may run across `/` into the host name.
   */
  function UrlExtAsWritten(url: string): (r: string)
    ensures r == "" || r[0] == '.'
    ensures |r| <= 5
    ensures var base := FirstPiece(url, '?');
      r == "" <==> |base| >= 5 && '.' !in base[|base| - 5..]
    ensures var base := FirstPiece(url, '?');
      r != "" ==>
        EndsWith(base, r[1..]) && '.' !in r[1..] && (|r| - 1 == |base| || base[|base| - |r|] == '.')
  {
    DotExt(FirstPiece(url, '?'))
  }

  /**
   * A dot in the host followed by a short tail without `.` or `?` gives the
   * code's extension `.` + tail, whatever `/` the tail holds.
   */
  lemma HostDotLeaks(host: string, tail: string)
    requires '?' !in host && '?' !in tail && '.' !in tail && |tail| < 5
    ensures UrlExtAsWritten(host + "." + tail) == "." + tail
  {
    var url := host + "." + tail;
    assert '?' !in url by {
      assert url == host + ("." + tail);
    }
    FirstPieceWithout(url, '?');
    LastPieceAfter(host, tail, '.');
    ShortPieceExt(url);
  }

  /**
   * The counterexample: a dot-free file name whose URL has no dot in its last
   * path segment, but one in the host, gets an extension that contains a slash.
   */
  lemma UrlExtCrossesSlash()
    ensures UrlExtAsWritten("https://a" + "." + "io/f") == "." + "io/f"
    ensures '/' in UrlExtAsWritten("https://a" + "." + "io/f")
  {
    HostDotLeaks("https://a", "io/f");
    assert ("." + "io/f")[3] == '/';
  }

  /**
   * The evident intent: the extension of the URL's last path segment, when it
   * has one shorter than five characters (a leading `.` included, that is
   * at most four characters after it).
   */
  function UrlExt(url: string): (r: string)
    ensures r == "" || (r[0] == '.' && |r| <= 5)
    ensures '/' !in r && '?' !in r
    ensures var seg := LastPiece(FirstPiece(url, '?'), '/');
      '.' !in seg ==> r == ""
    ensures var seg := LastPiece(FirstPiece(url, '?'), '/');
      '.' in seg ==> (r == "" <==> |seg| >= 5 && '.' !in seg[|seg| - 5..])
    ensures var seg := LastPiece(FirstPiece(url, '?'), '/');
      r != "" ==> EndsWith(seg, r) && '.' !in r[1..]
  {
    var segment := LastPiece(FirstPiece(url, '?'), '/');
    if '.' in segment then
      DotExt(segment)
    else ""
  }

  /** When the last path segment has a dot, the corrected extension is the one the code computes. */
  lemma UrlExtAgrees(url: string)
    requires '.' in LastPiece(FirstPiece(url, '?'), '/')
    ensures UrlExt(url) == UrlExtAsWritten(url)
  {
    LastDotInLastSegment(FirstPiece(url, '?'));
  }

  lemma LastDotInLastSegment(path: string)
    requires '.' in LastPiece(path, '/')
    ensures LastPiece(LastPiece(path, '/'), '.') == LastPiece(path, '.')
  {
    var seg := LastPiece(path, '/');
    var k := |path| - |seg|;
    assert seg == path[k..];
    assert path == path[..k] + path[k..];
    LastPieceOfSuffix(path[..k], seg, '.');
  }

  /** `(stem, ext)` of lines 330-338, with the corrected URL sniffing. */
  function StemAndExt(originalName: string, url: string): (r: (string, string))
    ensures '.' in originalName ==> r.0 + r.1 == originalName && |r.1| >= 1 && r.1[0] == '.' && '.' !in r.1[1..]
    ensures '.' !in originalName ==> r.0 == originalName && r.1 == UrlExt(url)
  {
    if '.' in originalName then
      LastDotSplit(originalName);
      (BeforeLast(originalName, '.'), "." + LastPiece(originalName, '.'))
    else (originalName, UrlExt(url))
  }

  /** Splitting at the last dot: the stem, then a dot and a dot-free rest, give the name back. */
  lemma LastDotSplit(x: string)
    requires '.' in x
    ensures var ext := "." + LastPiece(x, '.');
      BeforeLast(x, '.') + ext == x && |ext| >= 1 && ext[0] == '.' && '.' !in ext[1..]
  {
    var ext := "." + LastPiece(x, '.');
    assert ext[1..] == LastPiece(x, '.');
    assert BeforeLast(x, '.') + ext == BeforeLast(x, '.') + "." + LastPiece(x, '.');
  }

  /** `(stem, ext)` exactly as lines 330-338 compute it, with the URL sniffing as written. */
  function StemAndExtAsWritten(originalName: string, url: string): (r: (string, string))
    ensures '.' in originalName ==> r == StemAndExt(originalName, url)
    ensures '.' !in originalName ==> r.0 == originalName && r.1 == UrlExtAsWritten(url)
  {
    if '.' in originalName then (BeforeLast(originalName, '.'), "." + LastPiece(originalName, '.'))
    else (originalName, UrlExtAsWritten(url))
  }

  /**
   * The model's split and the code's differ only for a dot-free name whose
   * URL has no dot in its last path segment.
   */
  lemma StemAndExtAgrees(originalName: string, url: string)
    requires '.' in originalName || '.' in LastPiece(FirstPiece(url, '?'), '/')
    ensures StemAndExt(originalName, url) == StemAndExtAsWritten(originalName, url)
  {
    if '.' !in originalName {
      UrlExtAgrees(url);
    }
  }

  /** Lines 326-341: `f"{full_lesson_name}_{sanitize_filename(stem)}{ext}"`. */
  function AttachmentName(fullLessonName: string, item: FileItem): (r: string)
    ensures var ext := StemAndExt(OriginalName(item), item.downloadUrl.GetOr("")).1;
      && IsPrefix(fullLessonName + "_", r)
      && EndsWith(r, ext)
      && |fullLessonName| + 1 + |ext| <= |r|
      && IsSanitized(r[|fullLessonName| + 1..|r| - |ext|], DefaultMaxLength)
  {
    var (stem, ext) := StemAndExt(OriginalName(item), item.downloadUrl.GetOr(""));
    var middle := SanitizeFilename(stem, DefaultMaxLength);
    assert IsSanitized(middle, DefaultMaxLength);
    SanitizedBetween(fullLessonName + "_", middle, ext);
    fullLessonName + "_" + middle + ext
  }

  /** A sanitised middle part can be cut back out of `head + middle + tail`. */
  lemma SanitizedBetween(head: string, middle: string, tail: string)
    requires IsSanitized(middle, DefaultMaxLength)
    ensures var r := head + middle + tail;
      && IsPrefix(head, r)
      && EndsWith(r, tail)
      && |head| + |tail| <= |r|
      && IsSanitized(r[|head|..|r| - |tail|], DefaultMaxLength)
  {
    ThreeParts(head, middle, tail);
  }

  /** An attachment name is the lesson name followed by the rest. */
  lemma AttachmentNameExtends(fullLessonName: string, item: FileItem)
    ensures var r := AttachmentName(fullLessonName, item);
      |fullLessonName| <= |r| && r == fullLessonName + r[|fullLessonName|..]
  {
    var r := AttachmentName(fullLessonName, item);
    PrefixOfPrefix(fullLessonName, "_", r);
  }

  /** The attachment name exactly as lines 326-341 compute it, with the URL sniffing as written. */
  function AttachmentNameAsWritten(fullLessonName: string, item: FileItem): string {
    var (stem, ext) := StemAndExtAsWritten(OriginalName(item), item.downloadUrl.GetOr(""));
    fullLessonName + "_" + SanitizeFilename(stem, DefaultMaxLength) + ext
  }

  /** The two names agree unless the name has no dot and the URL's last path segment has none either. */
  lemma AttachmentNameAgrees(fullLessonName: string, item: FileItem)
    requires '.' in OriginalName(item) || '.' in LastPiece(FirstPiece(item.downloadUrl.GetOr(""), '?'), '/')
    ensures AttachmentNameAsWritten(fullLessonName, item) == AttachmentName(fullLessonName, item)
  {
    StemAndExtAgrees(OriginalName(item), item.downloadUrl.GetOr(""));
  }

  /**
   * The counterexample at the level of the file name: the attachment `notes`
   * at `https://a.io/f` is given a name holding a `/`, so it lands in a
   * directory `<lesson>_notes.io` that nothing creates.
   */
  /** The code's split of the dot-free name `notes` at the sample URL. */
  lemma SampleSplitAsWritten()
    ensures StemAndExtAsWritten("notes", "https://a" + "." + "io/f") == ("notes", "." + "io/f")
  {
    DotFreeSplitAsWritten("notes", "https://a" + "." + "io/f");
    UrlExtCrossesSlash();
  }

  /** Without a dot, the code keeps the whole name as the stem and sniffs the URL. */
  lemma DotFreeSplitAsWritten(name: string, url: string)
    requires '.' !in name
    ensures StemAndExtAsWritten(name, url) == (name, UrlExtAsWritten(url))
  {
  }

  lemma AttachmentNameCrossesSlash(fullLessonName: string)
    ensures var item := FileItem(Some("notes"), None, Some("https://a" + "." + "io/f"));
      '/' in AttachmentNameAsWritten(fullLessonName, item)
  {
    var item := FileItem(Some("notes"), None, Some("https://a" + "." + "io/f"));
    SampleSplitAsWritten();
    assert OriginalName(item) == "notes";
    var stem := SanitizeFilename("notes", DefaultMaxLength);
    var r := AttachmentNameAsWritten(fullLessonName, item);
    assert r == fullLessonName + "_" + stem + ("." + "io/f");
    assert r[|r| - 2] == '/';
  }

  lemma ThreeParts(a: string, b: string, c: string)
    ensures (a + b + c)[..|a|] == a
    ensures (a + b + c)[|a|..|a| + |b|] == b
    ensures (a + b + c)[|a| + |b|..] == c
  {
    assert (a + b + c)[..|a|] == a;
    assert (a + b + c)[|a|..|a| + |b|] == b;
    assert (a + b + c)[|a| + |b|..] == c;
  }

  /**
   * The two shapes of an attachment name: with a dot in the original name,
   * the sanitised part before the last dot and the raw part after it; without
   * one, the whole sanitised name and the extension sniffed from the URL.
   */
  lemma AttachmentNameShape(fullLessonName: string, item: FileItem)
    ensures var x := OriginalName(item);
      '.' in x ==>
        AttachmentName(fullLessonName, item) ==
          fullLessonName + "_" + SanitizeFilename(BeforeLast(x, '.'), DefaultMaxLength) + "." + LastPiece(x, '.')
    ensures var x := OriginalName(item);
      '.' !in x ==>
        AttachmentName(fullLessonName, item) ==
          fullLessonName + "_" + SanitizeFilename(x, DefaultMaxLength) + UrlExt(item.downloadUrl.GetOr(""))
  {
    if '.' in OriginalName(item) {
      AttachmentNameWithDot(fullLessonName, item);
    } else {
      AttachmentNameWithoutDot(fullLessonName, item);
    }
  }

  /** The definition of `AttachmentName`, in terms of the split. */
  lemma AttachmentNameParts(fullLessonName: string, item: FileItem)
    ensures var split := StemAndExt(OriginalName(item), item.downloadUrl.GetOr(""));
      AttachmentName(fullLessonName, item) == fullLessonName + "_" + SanitizeFilename(split.0, DefaultMaxLength) + split.1
  {
  }

  lemma AttachmentNameWithDot(fullLessonName: string, item: FileItem)
    requires '.' in OriginalName(item)
    ensures var x := OriginalName(item);
      AttachmentName(fullLessonName, item) ==
        fullLessonName + "_" + SanitizeFilename(BeforeLast(x, '.'), DefaultMaxLength) + "." + LastPiece(x, '.')
  {
    var x := OriginalName(item);
    var stem := SanitizeFilename(BeforeLast(x, '.'), DefaultMaxLength);
    AttachmentNameParts(fullLessonName, item);
    assert StemAndExt(x, item.downloadUrl.GetOr("")) == (BeforeLast(x, '.'), "." + LastPiece(x, '.'));
    AppendAssociates(fullLessonName + "_" + stem, ".", LastPiece(x, '.'));
  }

  lemma AttachmentNameWithoutDot(fullLessonName: string, item: FileItem)
    requires '.' !in OriginalName(item)
    ensures AttachmentName(fullLessonName, item) ==
      fullLessonName + "_" + SanitizeFilename(OriginalName(item), DefaultMaxLength) + UrlExt(item.downloadUrl.GetOr(""))
  {
    AttachmentNameParts(fullLessonName, item);
  }

  /** A file name with a dot keeps its extension, whatever the URL. */
  lemma AttachmentKeepsExtension(fullLessonName: string, item: FileItem)
    requires '.' in OriginalName(item)
    ensures EndsWith(AttachmentName(fullLessonName, item), "." + LastPiece(OriginalName(item), '.'))
  {
  }
}
