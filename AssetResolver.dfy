/**
 * The video-host lookup of utlis.py, with the HTTP fetches and JSON parsing
 * already done: `extract_wistia_id_from_page` scans the player page's text
 * for a login wall and then for an embedded media id; `get_wistia_bin_url`
 * picks an asset URL from the media's asset list by quality label.
 */
module AssetResolver {
  import opened Wrappers
  import opened Strings

  // ---------------------------------------------------------------------------
  // Media id extraction

  /** The page is the platform's login form: it mentions both "Log In" and "password". */
  predicate LoginWall(page: string) {
    Contains(page, "Log In") && Contains(page, "password")
  }

  /** The two hosts the strict pattern `fast\.wistia\.(?:com|net)/embed/medias/` accepts. */
  const StrictPrefixCom := "fast.wistia.com/embed/medias/"
  const StrictPrefixNet := "fast.wistia.net/embed/medias/"
  /** The loose pattern's literal part. */
  const LoosePrefix := "/embed/medias/"

  /** The longest run of `[a-zA-Z0-9]` starting at index `i`. */
  function AlnumRun(s: string, i: nat): (r: string)
    requires i <= |s|
    ensures i + |r| <= |s| && r == s[i..i + |r|]
    ensures forall k :: 0 <= k < |r| ==> IsAsciiAlnum(r[k])
    ensures i + |r| == |s| || !IsAsciiAlnum(s[i + |r|])
    decreases |s| - i
  {
    if i < |s| && IsAsciiAlnum(s[i]) then
      var rest := AlnumRun(s, i + 1);
      assert s[i..i + 1 + |rest|] == [s[i]] + rest;
      [s[i]] + rest
    else []
  }

  datatype Pattern = Strict | Loose

  /**
   * The captured group when `p` matches at index `i`. A greedy `+` followed by
   * a literal `.` can only match the whole alphanumeric run, so the strict
   * pattern needs that run to be followed by a dot; the loose pattern takes
   * the whole run.
   */
  function MatchAt(p: Pattern, s: string, i: nat): (r: Option<string>)
    requires i <= |s|
    ensures r.Some? ==> |r.value| > 0 && forall k :: 0 <= k < |r.value| ==> IsAsciiAlnum(r.value[k])
  {
    match p
    case Strict =>
      if OccursAt(s, StrictPrefixCom, i) || OccursAt(s, StrictPrefixNet, i) then
        var run := AlnumRun(s, i + |StrictPrefixCom|);
        var after := i + |StrictPrefixCom| + |run|;
        if |run| > 0 && after < |s| && s[after] == '.' then Some(run) else None
      else None
    case Loose =>
      if OccursAt(s, LoosePrefix, i) then
        var run := AlnumRun(s, i + |LoosePrefix|);
        if |run| > 0 then Some(run) else None
      else None
  }

  /** The leftmost index at or after `from` where `p` matches, as `re.search` scans. */
  function FirstMatch(p: Pattern, s: string, from: nat): (r: Option<nat>)
    requires from <= |s|
    ensures r.Some? ==> from <= r.value <= |s| && MatchAt(p, s, r.value).Some?
    ensures r.Some? ==> forall k :: from <= k < r.value ==> MatchAt(p, s, k).None?
    ensures r.None? ==> forall k :: from <= k <= |s| ==> MatchAt(p, s, k).None?
    decreases |s| - from
  {
    if MatchAt(p, s, from).Some? then Some(from)
    else if from == |s| then None
    else FirstMatch(p, s, from + 1)
  }

  /** `re.search(p, s).group(1)`, or nothing. */
  function Search(p: Pattern, s: string): (r: Option<string>)
    ensures r.Some? ==> exists k :: 0 <= k <= |s| && MatchAt(p, s, k) == r
    ensures r.None? ==> forall k :: 0 <= k <= |s| ==> MatchAt(p, s, k).None?
  {
    match FirstMatch(p, s, 0)
    case Some(k) => MatchAt(p, s, k)
    case None => None
  }

  /**
   * The text-scanning part of `extract_wistia_id_from_page`; `page` is `None`
   * when fetching the player page failed.
   */
  function ExtractWistiaId(page: Option<string>): (id: Option<string>)
    ensures page.None? ==> id.None?
    ensures page.Some? && LoginWall(page.value) ==> id.None?
    ensures id.Some? ==> |id.value| > 0 && forall k :: 0 <= k < |id.value| ==> IsAsciiAlnum(id.value[k])
    ensures id.Some? ==>
      (exists k :: 0 <= k <= |page.value| &&
         (MatchAt(Strict, page.value, k) == id || MatchAt(Loose, page.value, k) == id))
    ensures (page.Some? && !LoginWall(page.value) &&
             exists k :: 0 <= k <= |page.value| && MatchAt(Loose, page.value, k).Some?) ==> id.Some?
  {
    match page
    case None => None
    case Some(content) =>
      if LoginWall(content) then None
      else
        match Search(Strict, content)
        case Some(id) => Some(id)
        case None => Search(Loose, content)
  }

  /** Every strict match is also a loose match, with the same id, 15 characters further on. */
  lemma StrictMatchIsLooseMatch(s: string, k: nat)
    requires k <= |s| && MatchAt(Strict, s, k).Some?
    ensures k + 15 <= |s| && MatchAt(Loose, s, k + 15) == MatchAt(Strict, s, k)
  {
    assert |StrictPrefixCom| == 29 && |LoosePrefix| == 14;
    assert s[k + 15..k + 29] == s[k..k + 29][15..29];
    assert StrictPrefixCom[15..29] == LoosePrefix;
    assert StrictPrefixNet[15..29] == LoosePrefix;
    assert OccursAt(s, LoosePrefix, k + 15);
  }

  /**
   * The strict pattern is tried first: when it matches anywhere, the id is the
   * one of its leftmost match, even if a loose match comes earlier in the page.
   */
  lemma StrictPatternWins(page: string, k: nat)
    requires !LoginWall(page)
    requires k <= |page| && MatchAt(Strict, page, k).Some?
    requires forall j :: 0 <= j < k ==> MatchAt(Strict, page, j).None?
    ensures ExtractWistiaId(Some(page)) == MatchAt(Strict, page, k)
  {
    var f := FirstMatch(Strict, page, 0);
    assert f == Some(k);
  }

  /** Without any strict match, the id is the one of the leftmost loose match. */
  lemma LoosePatternFallback(page: string, k: nat)
    requires !LoginWall(page)
    requires forall j :: 0 <= j <= |page| ==> MatchAt(Strict, page, j).None?
    requires k <= |page| && MatchAt(Loose, page, k).Some?
    requires forall j :: 0 <= j < k ==> MatchAt(Loose, page, j).None?
    ensures ExtractWistiaId(Some(page)) == MatchAt(Loose, page, k)
  {
    var f := FirstMatch(Loose, page, 0);
    assert f == Some(k);
  }

  // ---------------------------------------------------------------------------
  // Asset selection

  /** One entry of the manifest's `media.assets`; either key may be absent. */
  datatype Asset = Asset(displayName: Option<string>, url: Option<string>)

  /** The quality tried when the requested one is not in the manifest. */
  const FallbackQuality := "720p"

  /** The index of the first asset at or after `from` labelled `quality`. */
  function FindLabel(assets: seq<Asset>, quality: string, from: nat): (r: Option<nat>)
    requires from <= |assets|
    ensures r.Some? ==> from <= r.value < |assets| && assets[r.value].displayName == Some(quality)
    ensures r.Some? ==> forall j :: from <= j < r.value ==> assets[j].displayName != Some(quality)
    ensures r.None? ==> forall j :: from <= j < |assets| ==> assets[j].displayName != Some(quality)
    decreases |assets| - from
  {
    if from == |assets| then None
    else if assets[from].displayName == Some(quality) then Some(from)
    else FindLabel(assets, quality, from + 1)
  }

  /**
   * The asset-selection part of `get_wistia_bin_url`: `(url, quality)`.
   * `manifest` is `None` when fetching or parsing the manifest failed. An
   * asset that is picked but has no `url` key raises, which the function
   * catches, so it too gives `(None, None)`.
   */
  function SelectAsset(wistiaId: string, manifest: Option<seq<Asset>>, target: string)
    : (r: (Option<string>, Option<string>))
    ensures r.0.Some? <==> r.1.Some?
    ensures r.1.Some? ==> r.1.value == target || r.1.value == FallbackQuality
    ensures (wistiaId == "" || manifest.None?) ==> r == (None, None)
    ensures r.0.Some? ==>
      (exists k :: 0 <= k < |manifest.value| && manifest.value[k] == Asset(r.1, r.0))
  {
    if wistiaId == "" then (None, None)
    else match manifest
      case None => (None, None)
      case Some(assets) =>
        match FindLabel(assets, target, 0)
        case Some(k) =>
          if assets[k].url.Some? then (assets[k].url, Some(target)) else (None, None)
        case None =>
          match FindLabel(assets, FallbackQuality, 0)
          case Some(k) =>
            if assets[k].url.Some? then (assets[k].url, Some(FallbackQuality)) else (None, None)
          case None => (None, None)
  }

  /** An asset with exactly the requested label wins, the first such one. */
  lemma ExactQualityWins(wistiaId: string, assets: seq<Asset>, target: string, k: nat, url: string)
    requires wistiaId != ""
    requires k < |assets| && assets[k] == Asset(Some(target), Some(url))
    requires forall j :: 0 <= j < k ==> assets[j].displayName != Some(target)
    ensures SelectAsset(wistiaId, Some(assets), target) == (Some(url), Some(target))
  {
    assert FindLabel(assets, target, 0) == Some(k);
  }

  /**
   * The first asset with the requested label decides: when it has no `url`
   * the lookup raises, and neither a later asset with that label nor a
   * "720p" asset is tried.
   */
  lemma MissingUrlStopsSelection(wistiaId: string, assets: seq<Asset>, target: string, k: nat)
    requires wistiaId != ""
    requires k < |assets| && assets[k].displayName == Some(target) && assets[k].url.None?
    requires forall j :: 0 <= j < k ==> assets[j].displayName != Some(target)
    ensures SelectAsset(wistiaId, Some(assets), target) == (None, None)
  {
    assert FindLabel(assets, target, 0) == Some(k);
  }

  /** Without the requested label, the first "720p" asset is used, reported as "720p". */
  lemma FallbackQualityUsed(wistiaId: string, assets: seq<Asset>, target: string, k: nat, url: string)
    requires wistiaId != ""
    requires forall j :: 0 <= j < |assets| ==> assets[j].displayName != Some(target)
    requires k < |assets| && assets[k] == Asset(Some(FallbackQuality), Some(url))
    requires forall j :: 0 <= j < k ==> assets[j].displayName != Some(FallbackQuality)
    ensures SelectAsset(wistiaId, Some(assets), target) == (Some(url), Some(FallbackQuality))
  {
    assert FindLabel(assets, target, 0).None?;
    assert FindLabel(assets, FallbackQuality, 0) == Some(k);
  }

  /** Without the requested label, a first "720p" asset lacking a url selects nothing. */
  lemma FallbackMissingUrl(wistiaId: string, assets: seq<Asset>, target: string, k: nat)
    requires wistiaId != ""
    requires forall j :: 0 <= j < |assets| ==> assets[j].displayName != Some(target)
    requires k < |assets| && assets[k].displayName == Some(FallbackQuality) && assets[k].url.None?
    requires forall j :: 0 <= j < k ==> assets[j].displayName != Some(FallbackQuality)
    ensures SelectAsset(wistiaId, Some(assets), target) == (None, None)
  {
    assert FindLabel(assets, target, 0).None?;
    assert FindLabel(assets, FallbackQuality, 0) == Some(k);
  }

  /** Neither the requested label nor "720p": nothing is selected. */
  lemma NoMatchingQuality(wistiaId: string, assets: seq<Asset>, target: string)
    requires forall j :: 0 <= j < |assets| ==>
      assets[j].displayName != Some(target) && assets[j].displayName != Some(FallbackQuality)
    ensures SelectAsset(wistiaId, Some(assets), target) == (None, None)
  {
    if wistiaId != "" {
      assert FindLabel(assets, target, 0).None?;
      assert FindLabel(assets, FallbackQuality, 0).None?;
    }
  }
}
