/**
 * The page view controller: file-group selection for images, full texts and
 * scores, the measures of a page, measure/page conversion, the per-document
 * navigation of the multi-document view, the key of an added document, and
 * the double-page rule of the main action.
 */
module PageViewControllerModel {
  import opened Php
  import opened Document

  /** The extension configuration's comma-separated file group lists. */
  datatype ExtFiles = ExtFiles(fileGrpImages: string, fileGrpFulltext: string, fileGrpScore: string)

  // ---------------------------------------------------------------------------
  // Images and full texts

  /**
   * The image of a page: groups are taken from the end of the list until a
   * group name is "" or "0"; the first (so the highest) of those with a file
   * for the page wins.
   */
  function ImageOf(doc: Doc, conf: ExtFiles, page: int): Option<Link>
  {
    var gs := TrimExplode(',', conf.fileGrpImages);
    match LastHit(doc, page, gs, LiveBackStart(gs), |gs|)
    case Some(k) => Some(LinkOf(doc, page, gs[k]))
    case None => None
  }

  /** `getImage`: the `array_pop` loop. */
  method GetImage(doc: Doc, conf: ExtFiles, page: int) returns (image: Option<Link>)
    ensures image == ImageOf(doc, conf, page)
  {
    var gs := TrimExplode(',', conf.fileGrpImages);
    ghost var b := LiveBackStart(gs);
    var k := |gs|;
    while k > 0 && !Falsy(gs[k - 1])
      invariant b <= k <= |gs|
      invariant LastHit(doc, page, gs, b, |gs|) == LastHit(doc, page, gs, b, k)
    {
      var g := gs[k - 1];
      k := k - 1;
      if HasFile(doc, page, g) {
        return Some(LinkOf(doc, page, g));
      }
    }
    assert k == b;
    return None;
  }

  /**
   * The image is the highest group with a file among the groups after the
   * last group named "" or "0"; none exactly when none of them has one.
   */
  lemma ImageOfSpec(doc: Doc, conf: ExtFiles, page: int)
    ensures var gs := TrimExplode(',', conf.fileGrpImages);
      var b := LiveBackStart(gs);
      && (ImageOf(doc, conf, page).None? <==> NoHitIn(doc, page, gs, b, |gs|))
      && (ImageOf(doc, conf, page).Some? ==>
            exists k :: LastHitIn(doc, page, gs, b, |gs|, k) && ImageOf(doc, conf, page) == Some(LinkOf(doc, page, gs[k])))
  {
    var gs := TrimExplode(',', conf.fileGrpImages);
    LastHitSpec(doc, page, gs, LiveBackStart(gs), |gs|);
  }

  /**
   * The full text of a page: groups are taken from the front until a group
   * name is "" or "0"; the first with a file for the page wins.
   */
  function FulltextOf(doc: Doc, conf: ExtFiles, page: int): Option<Link>
  {
    var gs := TrimExplode(',', conf.fileGrpFulltext);
    match FirstHit(doc, page, gs, 0, FirstFalsy(gs))
    case Some(k) => Some(LinkOf(doc, page, gs[k]))
    case None => None
  }

  /** `getFulltext`: the `array_shift` loop. */
  method GetFulltext(doc: Doc, conf: ExtFiles, page: int) returns (fulltext: Option<Link>)
    ensures fulltext == FulltextOf(doc, conf, page)
  {
    var gs := TrimExplode(',', conf.fileGrpFulltext);
    ghost var live := FirstFalsy(gs);
    var k := 0;
    while k < |gs| && !Falsy(gs[k])
      invariant 0 <= k <= live
      invariant FirstHit(doc, page, gs, 0, live) == FirstHit(doc, page, gs, k, live)
    {
      var g := gs[k];
      k := k + 1;
      if HasFile(doc, page, g) {
        return Some(LinkOf(doc, page, g));
      }
    }
    assert k == live;
    return None;
  }

  lemma FulltextOfSpec(doc: Doc, conf: ExtFiles, page: int)
    ensures var gs := TrimExplode(',', conf.fileGrpFulltext);
      var n := FirstFalsy(gs);
      && (FulltextOf(doc, conf, page).None? <==> NoHitIn(doc, page, gs, 0, n))
      && (FulltextOf(doc, conf, page).Some? ==>
            exists k :: FirstHitIn(doc, page, gs, 0, n, k) && FulltextOf(doc, conf, page) == Some(LinkOf(doc, page, gs[k])))
  {
    var gs := TrimExplode(',', conf.fileGrpFulltext);
    FirstHitSpec(doc, page, gs, 0, FirstFalsy(gs));
  }

  // ---------------------------------------------------------------------------
  // Scores

  /** A score's location and MIME type. */
  datatype Score = Score(url: string, mimetype: string)

  /** The first group from index `k` on that is a key of `files` (`isset`); group names are not checked for emptiness. */
  function FirstPresent(gs: seq<string>, files: map<string, string>, k: nat): (r: Option<nat>)
    requires k <= |gs|
    ensures r.Some? ==> k <= r.value < |gs| && gs[r.value] in files
    decreases |gs| - k
  {
    if k == |gs| then None else if gs[k] in files then Some(k) else FirstPresent(gs, files, k + 1)
  }

  lemma {:induction false} FirstPresentSpec(gs: seq<string>, files: map<string, string>, k: nat)
    requires k <= |gs|
    ensures FirstPresent(gs, files, k).None? <==> forall j :: k <= j < |gs| ==> gs[j] !in files
    ensures FirstPresent(gs, files, k).Some? ==> forall j :: k <= j < FirstPresent(gs, files, k).value ==> gs[j] !in files
    decreases |gs| - k
  {
    if k < |gs| && gs[k] !in files {
      FirstPresentSpec(gs, files, k + 1);
    }
  }

  /**
   * The score of a page: only METS documents have one; the file id of the
   * first configured score group the page has, when it is neither "" nor "0".
   */
  function ScoreOf(doc: Doc, conf: ExtFiles, page: int): Option<Score>
  {
    if !doc.isMets then None
    else
      var gs := TrimExplode(',', conf.fileGrpScore);
      var files := FilesOf(doc, page);
      var loc := PresentFile(gs, files);
      if Falsy(loc) then None
      else Some(Score(InfoOf(doc, loc).location, InfoOf(doc, loc).mimeType))
  }

  /**
   * A score exists only for a METS document, and then exactly when the first
   * configured group the page has holds a file id other than "" and "0"; it
   * is that file's location and type.
   */
  lemma ScoreOfSpec(doc: Doc, conf: ExtFiles, page: int)
    ensures var gs := TrimExplode(',', conf.fileGrpScore);
      var files := FilesOf(doc, page);
      && (ScoreOf(doc, conf, page).Some? <==>
            doc.isMets && exists k :: 0 <= k < |gs| && gs[k] in files && !Falsy(files[gs[k]])
                                      && forall j :: 0 <= j < k ==> gs[j] !in files)
      && (forall k :: 0 <= k < |gs| && gs[k] in files && (forall j :: 0 <= j < k ==> gs[j] !in files)
                      && doc.isMets && !Falsy(files[gs[k]]) ==>
            ScoreOf(doc, conf, page) == Some(Score(InfoOf(doc, files[gs[k]]).location, InfoOf(doc, files[gs[k]]).mimeType)))
  {
    var gs := TrimExplode(',', conf.fileGrpScore);
    var files := FilesOf(doc, page);
    FirstPresentSpec(gs, files, 0);
    forall k | 0 <= k < |gs| && gs[k] in files && (forall j :: 0 <= j < k ==> gs[j] !in files)
      ensures FirstPresent(gs, files, 0) == Some(k)
    {
      var r := FirstPresent(gs, files, 0);
      assert r.Some? && gs[r.value] in files;
      assert r.value <= k;
      assert r.value >= k;
    }
  }

  /** The file id of the first configured group present on the page, or "" when none is. */
  function PresentFile(gs: seq<string>, files: map<string, string>): string
  {
    match FirstPresent(gs, files, 0) case Some(k) => files[gs[k]] case None => ""
  }

  /** The `foreach` with `break` of `getScore`: the file id of the first group the page has. */
  method FindPresentFile(gs: seq<string>, files: map<string, string>) returns (loc: string)
    ensures loc == PresentFile(gs, files)
  {
    loc := "";
    var k := 0;
    while k < |gs|
      invariant 0 <= k <= |gs|
      invariant loc == ""
      invariant FirstPresent(gs, files, 0) == FirstPresent(gs, files, k)
    {
      if gs[k] in files {
        loc := files[gs[k]];
        break;
      }
      k := k + 1;
    }
  }

  /** `getScore`. */
  method GetScore(doc: Doc, conf: ExtFiles, page: int) returns (score: Option<Score>)
    ensures score == ScoreOf(doc, conf, page)
  {
    score := None;
    if !doc.isMets {
      return;
    }
    var loc := FindPresentFile(TrimExplode(',', conf.fileGrpScore), FilesOf(doc, page));
    if !Falsy(loc) {
      score := Some(Score(InfoOf(doc, loc).location, InfoOf(doc, loc).mimeType));
    }
  }

  // ---------------------------------------------------------------------------
  // Measures

  /**
   * What `getMeasures` returns: the coordinates of the page's measures by their
   * SCORE begin id, each measure's position by counter, and for each begin id
   * the measure number its link carries.
   */
  datatype Measures = Measures(coords: map<string, string>, counterToId: map<int, string>, links: map<string, int>)

  /** Loose `==` of the page's DEFAULT file id with a measure's: a missing id (null) equals only "". */
  predicate OnPage(m: MeasureInfo, defaultFileId: string)
  {
    match m.defaultFileId
    case Some(id) => id == defaultFileId
    case None => defaultFileId == ""
  }

  /** The measures after one more step of the `foreach`, at position `k`. */
  function MeasureStep(ms: seq<MeasureInfo>, d: string, k: nat, r0: Measures): Measures
    requires k < |ms|
  {
    var m := ms[k];
    if OnPage(m, d)
    then Measures(r0.coords[m.scoreBegin := m.coords], r0.counterToId[k := m.scoreBegin], r0.links[m.scoreBegin := k])
    else r0
  }

  /** The result after the first `k` measures of the `foreach`. */
  function MeasuresUpTo(ms: seq<MeasureInfo>, defaultFileId: string, k: nat): Measures
    requires k <= |ms|
    decreases k
  {
    if k == 0 then Measures(map[], map[], map[])
    else
      MeasureStep(ms, defaultFileId, k - 1, MeasuresUpTo(ms, defaultFileId, k - 1))
  }

  /** The measures of a page: only for METS documents whose page has a DEFAULT file. */
  function MeasuresOf(doc: Doc, page: int): Measures
  {
    var files := FilesOf(doc, page);
    if doc.isMets && "DEFAULT" in files then MeasuresUpTo(doc.measures, files["DEFAULT"], |doc.measures|)
    else Measures(map[], map[], map[])
  }

  /**
   * The counter counts every measure, so the keys are global positions: a
   * position is kept exactly when its measure lies on the page, with its begin
   * id. Coordinates and links have the same keys, the begin ids of the kept
   * measures; for each, the link carries the last kept measure with that
   * begin id and the coordinates are that measure's.
   */
  lemma MeasuresUpToSpec(ms: seq<MeasureInfo>, d: string, k: nat)
    requires k <= |ms|
    ensures var r := MeasuresUpTo(ms, d, k);
      && (forall i :: i in r.counterToId <==> 0 <= i < k && OnPage(ms[i], d))
      && (forall i :: i in r.counterToId ==> r.counterToId[i] == ms[i].scoreBegin)
      && (forall b :: b in r.links <==> b in r.coords)
      && (forall i :: 0 <= i < k && OnPage(ms[i], d) ==> ms[i].scoreBegin in r.links)
      && (forall b :: b in r.links ==>
            && 0 <= r.links[b] < k && OnPage(ms[r.links[b]], d) && ms[r.links[b]].scoreBegin == b
            && r.coords[b] == ms[r.links[b]].coords
            && forall i :: r.links[b] < i < k && OnPage(ms[i], d) ==> ms[i].scoreBegin != b)
  {
    MeasureCounters(ms, d, k);
    MeasureLinks(ms, d, k);
  }

  /** The counter keys of the first `k` measures: the positions on the page, with their begin ids. */
  lemma {:induction false} MeasureCounters(ms: seq<MeasureInfo>, d: string, k: nat)
    requires k <= |ms|
    ensures var r := MeasuresUpTo(ms, d, k);
      && (forall i :: i in r.counterToId <==> 0 <= i < k && OnPage(ms[i], d))
      && (forall i :: i in r.counterToId ==> r.counterToId[i] == ms[i].scoreBegin)
    decreases k
  {
    if k > 0 {
      MeasureCounters(ms, d, k - 1);
    }
  }

  /**
   * The link of begin id `b` in `r` after the first `k` measures: it carries
   * the last measure on the page with that begin id, whose coordinates `r`
   * holds for `b`.
   */
  ghost predicate BeginLink(ms: seq<MeasureInfo>, d: string, k: nat, r: Measures, b: string)
    requires k <= |ms|
  {
    && b in r.links && b in r.coords
    && 0 <= r.links[b] < k && OnPage(ms[r.links[b]], d) && ms[r.links[b]].scoreBegin == b
    && r.coords[b] == ms[r.links[b]].coords
    && forall i :: r.links[b] < i < k && OnPage(ms[i], d) ==> ms[i].scoreBegin != b
  }

  /** The links and coordinates of `r` after the first `k` measures: one per begin id of a measure on the page. */
  ghost predicate LinksOf(ms: seq<MeasureInfo>, d: string, k: nat, r: Measures)
    requires k <= |ms|
  {
    && (forall b :: b in r.links <==> b in r.coords)
    && (forall i :: 0 <= i < k && OnPage(ms[i], d) ==> ms[i].scoreBegin in r.links)
    && (forall b :: b in r.links ==> BeginLink(ms, d, k, r, b))
  }

  /** One more step keeps the link of a begin id other than the new measure's. */
  lemma LinkStep(ms: seq<MeasureInfo>, d: string, k: nat, r0: Measures, b: string)
    requires k < |ms| && b in r0.links && BeginLink(ms, d, k, r0, b)
    requires OnPage(ms[k], d) ==> ms[k].scoreBegin != b
    ensures BeginLink(ms, d, k + 1, MeasureStep(ms, d, k, r0), b)
  {
  }

  /** One more measure keeps `LinksOf`: a measure on the page takes over the link of its begin id. */
  lemma LinksStep(ms: seq<MeasureInfo>, d: string, k: nat, r0: Measures)
    requires k < |ms| && LinksOf(ms, d, k, r0)
    ensures LinksOf(ms, d, k + 1, MeasureStep(ms, d, k, r0))
  {
    var r := MeasureStep(ms, d, k, r0);
    var m := ms[k];
    forall b | b in r.links
      ensures BeginLink(ms, d, k + 1, r, b)
    {
      if !OnPage(m, d) || b != m.scoreBegin {
        LinkStep(ms, d, k, r0, b);
      }
    }
  }

  lemma {:induction false} MeasureLinks(ms: seq<MeasureInfo>, d: string, k: nat)
    requires k <= |ms|
    ensures LinksOf(ms, d, k, MeasuresUpTo(ms, d, k))
    decreases k
  {
    if k > 0 {
      MeasureLinks(ms, d, k - 1);
      LinksStep(ms, d, k - 1, MeasuresUpTo(ms, d, k - 1));
    }
  }

  /** `getMeasures`: the `foreach` over all measures with its counter. */
  method GetMeasures(doc: Doc, page: int) returns (measures: Measures)
    ensures measures == MeasuresOf(doc, page)
  {
    measures := Measures(map[], map[], map[]);
    var files := FilesOf(doc, page);
    if doc.isMets && "DEFAULT" in files {
      var defaultFileId := files["DEFAULT"];
      var i := 0;
      while i < |doc.measures|
        invariant 0 <= i <= |doc.measures|
        invariant measures == MeasuresUpTo(doc.measures, defaultFileId, i)
      {
        var m := doc.measures[i];
        if OnPage(m, defaultFileId) {
          measures := Measures(measures.coords[m.scoreBegin := m.coords],
                               measures.counterToId[i := m.scoreBegin],
                               measures.links[m.scoreBegin := i]);
        }
        i := i + 1;
      }
    }
  }

  // ---------------------------------------------------------------------------
  // Measure <-> page

  /** The array key a request value names: an integer, or a string in canonical decimal form. */
  function ArrayKey(v: Value): Option<int>
  {
    match v
    case Null => None
    case Int(i) => Some(i)
    case Str(s) => if s != [] && AllDigits(s) && (|s| == 1 || s[0] != '0') then Some(StringToNat(s)) else None
  }

  /** Loose `==` of a request value with an integer page: a string of decimal digits compares by its value. */
  predicate LooseEqualsInt(v: Value, p: int)
  {
    match v
    case Null => p == 0
    case Int(i) => i == p
    case Str(s) => s != [] && AllDigits(s) && StringToNat(s) == p
  }

  /** `array_search($page, $measure2Page)` from index `from` on. */
  function SearchPage(pages: seq<int>, page: Value, from: nat): (r: Option<nat>)
    requires from <= |pages|
    ensures r.None? <==> forall j :: from <= j < |pages| ==> !LooseEqualsInt(page, pages[j])
    ensures r.Some? ==> from <= r.value < |pages| && LooseEqualsInt(page, pages[r.value])
                        && forall j :: from <= j < r.value ==> !LooseEqualsInt(page, pages[j])
    decreases |pages| - from
  {
    if from == |pages| then None
    else if LooseEqualsInt(page, pages[from]) then Some(from)
    else SearchPage(pages, page, from + 1)
  }

  /**
   * `convertMeasureOrPage`: a measure that is not empty gives its page (null
   * when there is no such measure); otherwise a page that is not empty gives
   * the first measure on it (false, read as null, when there is none);
   * otherwise null.
   */
  function ConvertMeasureOrPage(doc: Doc, measure: Value, page: Value): Value
  {
    if !Empty(measure) then
      match ArrayKey(measure)
      case Some(k) => if 0 <= k < |doc.measurePages| then Int(doc.measurePages[k]) else Null
      case None => Null
    else if !Empty(page) then
      match SearchPage(doc.measurePages, page, 0)
      case Some(j) => Int(j)
      case None => Null
    else Null
  }

  /**
   * Converting a page gives the first measure on it; converting that measure
   * back gives the page again, unless the measure is number 0, which reads as
   * empty and so converts to nothing. Converting a measure and back gives the
   * first measure on the same page.
   */
  lemma ConvertRoundTrip(doc: Doc, p: int, m: int)
    ensures p != 0 ==>
      var r := ConvertMeasureOrPage(doc, Null, Int(p));
      && (r == Null <==> p !in doc.measurePages)
      && (r.Int? ==> 0 <= r.i < |doc.measurePages| && doc.measurePages[r.i] == p
                     && (forall j :: 0 <= j < r.i ==> doc.measurePages[j] != p)
                     && (r.i != 0 ==> ConvertMeasureOrPage(doc, r, Null) == Int(p))
                     && (r.i == 0 ==> ConvertMeasureOrPage(doc, r, Null) == Null))
    ensures 0 < m < |doc.measurePages| && doc.measurePages[m] != 0 ==>
      var q := ConvertMeasureOrPage(doc, Null, ConvertMeasureOrPage(doc, Int(m), Null));
      q.Int? && 0 <= q.i <= m && doc.measurePages[q.i] == doc.measurePages[m]
  {
    if 0 < m < |doc.measurePages| && doc.measurePages[m] != 0 {
      assert LooseEqualsInt(Int(doc.measurePages[m]), doc.measurePages[m]);
    }
    if p != 0 {
      var r := ConvertMeasureOrPage(doc, Null, Int(p));
      if p in doc.measurePages {
        var j :| 0 <= j < |doc.measurePages| && doc.measurePages[j] == p;
        assert LooseEqualsInt(Int(p), doc.measurePages[j]);
      }
    }
  }

  // ---------------------------------------------------------------------------
  // Adding a document to the multi-document view

  /** The largest element of a non-empty set of keys. */
  ghost function MaxKey(keys: set<int>): (m: int)
    requires keys != {}
    ensures m in keys && forall k :: k in keys ==> k <= m
    decreases |keys|
  {
    assert exists y :: y in keys by {
      if forall y :: y !in keys { assert false; }
    }
    var x :| x in keys;
    assert forall k :: k in keys ==> k == x || k in keys - {x};
    if keys == {x} then x
    else
      var rest := MaxKey(keys - {x});
      if rest > x then rest else x
  }

  /** The key of the next added source: one past the largest key, or 0 when there are none. */
  ghost function NextSourceKey(keys: set<int>): int
  {
    if keys == {} then 0 else MaxKey(keys) + 1
  }

  /**
   * `addDocumentAction`: for a valid URL, the sources the redirect carries —
   * the old ones and the new location under the next key; for an invalid
   * one, no redirect.
   */
  ghost function AddDocument(validUrl: bool, sources: map<int, string>, location: string): Option<map<int, string>>
  {
    if validUrl then Some(sources[NextSourceKey(sources.Keys) := location]) else None
  }

  /** The new key is unused and above every old key; every old source is kept and exactly one is added. */
  lemma AddDocumentKeepsSources(validUrl: bool, sources: map<int, string>, location: string)
    ensures var r := AddDocument(validUrl, sources, location);
      && (r.None? <==> !validUrl)
      && (r.Some? ==>
            var k := NextSourceKey(sources.Keys);
            && k !in sources && (forall j :: j in sources ==> j < k)
            && (sources == map[] ==> k == 0)
            && r.value.Keys == sources.Keys + {k} && r.value[k] == location
            && forall j :: j in sources ==> r.value[j] == sources[j])
  {
  }

  // ---------------------------------------------------------------------------
  // Navigation of the multi-document view

  /** A next/previous pair. */
  datatype Nav = Nav(next: int, prev: int)

  /** The next and previous position within [1, count], from the current one read as an integer. */
  function Clamped(count: int, current: int): Nav
  {
    Nav(ForceIntegerInRange(current + 1, 1, count, 1), ForceIntegerInRange(current - 1, 1, count, 1))
  }

  /**
   * Next and previous stay within [1, count] and move by one where they can;
   * without positions both are `count` (the clamp's upper end wins).
   */
  lemma ClampedStaysInRange(count: int, current: int)
    ensures var n := Clamped(count, current);
      && (count >= 1 ==>
            && 1 <= n.next <= count && 1 <= n.prev <= count
            && (0 <= current < count ==> n.next == current + 1)
            && (current >= count ==> n.next == count)
            && (2 <= current <= count + 1 ==> n.prev == current - 1)
            && (current <= 1 ==> n.prev == 1))
      && (count < 1 ==> n == Nav(count, count))
  {
    ForceIntegerInRangeSpec(current + 1, 1, count, 1);
    ForceIntegerInRangeSpec(current - 1, 1, count, 1);
  }

  /** `$requestData[...][$i]`: a missing entry reads as null. */
  function Get(m: map<int, Value>, i: int): Value
  {
    if i in m then m[i] else Null
  }

  /** The page of document `i` is converted to its first measure: a page is given and no measure. */
  predicate WritesMeasure(dp: Value, dm: Value)
  {
    !Empty(dp) && Empty(dm)
  }

  /** The measure of document `i` is converted to its page: a measure and no page (or the integer 1). */
  predicate WritesPage(dp: Value, dm: Value)
  {
    !WritesMeasure(dp, dm) && (Empty(dp) || dp == Int(1)) && !Empty(dm)
  }

  /** The page of document `j` after its conversion step. */
  function PageAfter(docs: seq<Doc>, dp: map<int, Value>, dm: map<int, Value>, j: nat): Value
    requires j < |docs|
  {
    if WritesPage(Get(dp, j), Get(dm, j)) then ConvertMeasureOrPage(docs[j], Get(dm, j), Null) else Get(dp, j)
  }

  /** The measure of document `j` after its conversion step. */
  function MeasureAfter(docs: seq<Doc>, dp: map<int, Value>, dm: map<int, Value>, j: nat): Value
    requires j < |docs|
  {
    if WritesMeasure(Get(dp, j), Get(dm, j)) then ConvertMeasureOrPage(docs[j], Null, Get(dp, j)) else Get(dm, j)
  }

  /** The page parameters after the first `k` documents were visited. */
  function PagesUpTo(docs: seq<Doc>, dp: map<int, Value>, dm: map<int, Value>, k: nat): map<int, Value>
    requires k <= |docs|
    decreases k
  {
    if k == 0 then dp
    else
      var r := PagesUpTo(docs, dp, dm, k - 1);
      if WritesPage(Get(dp, k - 1), Get(dm, k - 1)) then r[k - 1 := ConvertMeasureOrPage(docs[k - 1], Get(dm, k - 1), Null)] else r
  }

  /** The measure parameters after the first `k` documents were visited. */
  function MeasuresParamUpTo(docs: seq<Doc>, dp: map<int, Value>, dm: map<int, Value>, k: nat): map<int, Value>
    requires k <= |docs|
    decreases k
  {
    if k == 0 then dm
    else
      var r := MeasuresParamUpTo(docs, dp, dm, k - 1);
      if WritesMeasure(Get(dp, k - 1), Get(dm, k - 1)) then r[k - 1 := ConvertMeasureOrPage(docs[k - 1], Null, Get(dp, k - 1))] else r
  }

  /**
   * After the first `k` visits, each visited document's parameters are those
   * its own conversion step gives, and every later document's are untouched:
   * a visit reads and writes only its own entries.
   */
  lemma {:induction false} ParamsUpTo(docs: seq<Doc>, dp: map<int, Value>, dm: map<int, Value>, k: nat)
    requires k <= |docs|
    ensures forall j :: 0 <= j < k ==>
      Get(PagesUpTo(docs, dp, dm, k), j) == PageAfter(docs, dp, dm, j)
      && Get(MeasuresParamUpTo(docs, dp, dm, k), j) == MeasureAfter(docs, dp, dm, j)
    ensures forall j :: j >= k || j < 0 ==>
      Get(PagesUpTo(docs, dp, dm, k), j) == Get(dp, j) && Get(MeasuresParamUpTo(docs, dp, dm, k), j) == Get(dm, j)
    decreases k
  {
    if k > 0 {
      ParamsUpTo(docs, dp, dm, k - 1);
    }
  }

  /**
   * What `multipageNavigation` hands to the view: per document the page
   * navigation (`navigationArray`, whose values `navigateAllPageNext`/`Prev`
   * repeat), the measure navigation of every document (`navigateAllMeasure...`),
   * the measure navigation of the documents that have measures
   * (`navigationMeasureArray`), and the page counts.
   */
  datatype Navigation = Navigation(pages: seq<Nav>, allMeasures: seq<Nav>, measures: map<int, Nav>, numPages: seq<nat>)

  /** What one visit contributes: the document's page and measure navigation and its counts. */
  datatype DocNav = DocNav(page: Nav, measure: Nav, numPages: nat, numMeasures: nat)

  /** The navigation of document `j`: its pages and measures clamped around its converted parameters. */
  function DocNavOf(docs: seq<Doc>, dp: map<int, Value>, dm: map<int, Value>, j: nat): DocNav
    requires j < |docs|
  {
    DocNav(Clamped(docs[j].numPages, IntOf(PageAfter(docs, dp, dm, j))),
           Clamped(docs[j].numMeasures, IntOf(MeasureAfter(docs, dp, dm, j))),
           docs[j].numPages, docs[j].numMeasures)
  }

  /** `[f(0), ..., f(k - 1)]`. */
  function Build<T>(k: nat, f: nat --> T): seq<T>
    requires forall j :: 0 <= j < k ==> f.requires(j)
    decreases k
  {
    if k == 0 then [] else Build(k - 1, f) + [f(k - 1)]
  }

  lemma {:induction false} BuildAt<T>(k: nat, f: nat --> T)
    requires forall j :: 0 <= j < k ==> f.requires(j)
    ensures |Build(k, f)| == k
    ensures forall j :: 0 <= j < k ==> Build(k, f)[j] == f(j)
    decreases k
  {
    if k > 0 {
      BuildAt(k - 1, f);
    }
  }

  /** `DocNavOf` as a function of the document index. */
  function DocNavFn(docs: seq<Doc>, dp: map<int, Value>, dm: map<int, Value>): nat --> DocNav
  {
    (j: nat) requires j < |docs| => DocNavOf(docs, dp, dm, j)
  }

  /** The records of the first `k` documents, in order. */
  function DocNavs(docs: seq<Doc>, dp: map<int, Value>, dm: map<int, Value>, k: nat): seq<DocNav>
    requires k <= |docs|
  {
    Build(k, DocNavFn(docs, dp, dm))
  }

  /**
   * The view's arrays built from the records in visiting order: each list gets
   * one entry per document, and the measure navigation is stored under the
   * document's index only when the document has measures.
   */
  function Assemble(ds: seq<DocNav>): Navigation
    decreases |ds|
  {
    if ds == [] then Navigation([], [], map[], [])
    else
      var n := Assemble(ds[..|ds| - 1]);
      var d := ds[|ds| - 1];
      Navigation(n.pages + [d.page], n.allMeasures + [d.measure],
                 if d.numMeasures > 0 then n.measures[|ds| - 1 := d.measure] else n.measures,
                 n.numPages + [d.numPages])
  }

  /** The navigation after the first `k` documents were visited. */
  function NavigationOf(docs: seq<Doc>, dp: map<int, Value>, dm: map<int, Value>, k: nat): Navigation
    requires k <= |docs|
  {
    Assemble(DocNavs(docs, dp, dm, k))
  }

  lemma DocNavsAt(docs: seq<Doc>, dp: map<int, Value>, dm: map<int, Value>, k: nat)
    requires k <= |docs|
    ensures |DocNavs(docs, dp, dm, k)| == k
    ensures forall j :: 0 <= j < k ==> DocNavs(docs, dp, dm, k)[j] == DocNavOf(docs, dp, dm, j)
  {
    BuildAt(k, DocNavFn(docs, dp, dm));
  }

  /**
   * Entry `j` of every list is record `j`'s, and the measure navigation holds
   * exactly the documents with measures.
   */
  lemma {:induction false} AssembleAt(ds: seq<DocNav>)
    ensures var nav := Assemble(ds);
      && |nav.pages| == |nav.allMeasures| == |nav.numPages| == |ds|
      && (forall j :: 0 <= j < |ds| ==>
            nav.pages[j] == ds[j].page && nav.allMeasures[j] == ds[j].measure && nav.numPages[j] == ds[j].numPages)
      && (forall j :: j in nav.measures <==> 0 <= j < |ds| && ds[j].numMeasures > 0)
      && (forall j :: j in nav.measures ==> 0 <= j < |ds| && nav.measures[j] == ds[j].measure)
    decreases |ds|
  {
    if ds != [] {
      AssembleAt(ds[..|ds| - 1]);
    }
  }

  /** One visit appends document `i`'s record to the navigation of the earlier ones. */
  lemma NavigationStep(docs: seq<Doc>, dp: map<int, Value>, dm: map<int, Value>, i: nat)
    requires i < |docs|
    ensures var n := NavigationOf(docs, dp, dm, i);
      var d := DocNavOf(docs, dp, dm, i);
      NavigationOf(docs, dp, dm, i + 1) ==
        Navigation(n.pages + [d.page], n.allMeasures + [d.measure],
                   if d.numMeasures > 0 then n.measures[i := d.measure] else n.measures,
                   n.numPages + [d.numPages])
  {
    var f := DocNavFn(docs, dp, dm);
    BuildAt(i, f);
    AssembleSnoc(Build(i, f), f(i));
  }

  /** Visiting one more document appends its record to the navigation. */
  lemma AssembleSnoc(ds: seq<DocNav>, d: DocNav)
    ensures var n := Assemble(ds);
      Assemble(ds + [d]) ==
        Navigation(n.pages + [d.page], n.allMeasures + [d.measure],
                   if d.numMeasures > 0 then n.measures[|ds| := d.measure] else n.measures,
                   n.numPages + [d.numPages])
  {
    assert (ds + [d])[..|ds|] == ds;
  }

  /**
   * Every document's page navigation stays within its pages, every measure
   * navigation within [1, numMeasures]; both are 0 for a document without
   * pages or measures. The measure navigation is kept exactly for the
   * documents with measures.
   */
  lemma NavigationInRange(docs: seq<Doc>, dp: map<int, Value>, dm: map<int, Value>)
    ensures var nav := NavigationOf(docs, dp, dm, |docs|);
      && |nav.pages| == |nav.allMeasures| == |nav.numPages| == |docs|
      && (forall j :: 0 <= j < |docs| ==>
            if docs[j].numPages >= 1
            then 1 <= nav.pages[j].next <= docs[j].numPages && 1 <= nav.pages[j].prev <= docs[j].numPages
            else nav.pages[j] == Nav(0, 0))
      && (forall j :: 0 <= j < |docs| ==>
            if docs[j].numMeasures >= 1
            then 1 <= nav.allMeasures[j].next <= docs[j].numMeasures && 1 <= nav.allMeasures[j].prev <= docs[j].numMeasures
            else nav.allMeasures[j] == Nav(0, 0))
      && (forall j :: j in nav.measures <==> 0 <= j < |docs| && docs[j].numMeasures > 0)
      && (forall j :: j in nav.measures ==> nav.measures[j] == nav.allMeasures[j])
  {
    DocNavsAt(docs, dp, dm, |docs|);
    AssembleAt(DocNavs(docs, dp, dm, |docs|));
    var nav := NavigationOf(docs, dp, dm, |docs|);
    forall j | 0 <= j < |docs|
      ensures if docs[j].numPages >= 1
              then 1 <= nav.pages[j].next <= docs[j].numPages && 1 <= nav.pages[j].prev <= docs[j].numPages
              else nav.pages[j] == Nav(0, 0)
      ensures if docs[j].numMeasures >= 1
              then 1 <= nav.allMeasures[j].next <= docs[j].numMeasures && 1 <= nav.allMeasures[j].prev <= docs[j].numMeasures
              else nav.allMeasures[j] == Nav(0, 0)
    {
      DocNavInRange(docs, dp, dm, j);
    }
  }

  /** Document `j`'s navigation stays within its pages and measures, and is 0 without any. */
  lemma DocNavInRange(docs: seq<Doc>, dp: map<int, Value>, dm: map<int, Value>, j: nat)
    requires j < |docs|
    ensures var d := DocNavOf(docs, dp, dm, j);
      && (if docs[j].numPages >= 1
          then 1 <= d.page.next <= docs[j].numPages && 1 <= d.page.prev <= docs[j].numPages
          else d.page == Nav(0, 0))
      && (if docs[j].numMeasures >= 1
          then 1 <= d.measure.next <= docs[j].numMeasures && 1 <= d.measure.prev <= docs[j].numMeasures
          else d.measure == Nav(0, 0))
  {
    ClampedStaysInRange(docs[j].numPages, IntOf(PageAfter(docs, dp, dm, j)));
    ClampedStaysInRange(docs[j].numMeasures, IntOf(MeasureAfter(docs, dp, dm, j)));
  }

  /** The request state of the page view controller and what it hands to the view. */
  class PageViewController {
    var page: nat                      // requestData['page'], as set before the action
    var double: Value                  // requestData['double']
    var multiview: Value               // requestData['multiview']
    var docPage: map<int, Value>       // requestData['docPage']
    var docMeasure: map<int, Value>    // requestData['docMeasure']
    var navigation: Navigation
    var images: seq<Option<Link>>
    var fulltexts: seq<Option<Link>>
    var scores: Option<Score>
    var measures: Measures

    constructor (page0: nat, double0: Value, multiview0: Value, docPage0: map<int, Value>, docMeasure0: map<int, Value>)
      ensures page == page0 && double == double0 && multiview == multiview0
      ensures docPage == docPage0 && docMeasure == docMeasure0
      ensures navigation == Navigation([], [], map[], []) && images == [] && fulltexts == []
      ensures scores == None && measures == Measures(map[], map[], map[])
    {
      page := page0;
      double := double0;
      multiview := multiview0;
      docPage := docPage0;
      docMeasure := docMeasure0;
      navigation := Navigation([], [], map[], []);
      images := [];
      fulltexts := [];
      scores := None;
      measures := Measures(map[], map[], map[]);
    }

    /** `multipageNavigation`: the parameters of every document are converted and the navigation is built. */
    method MultipageNavigation(docs: seq<Doc>)
      modifies this
      ensures docPage == PagesUpTo(docs, old(docPage), old(docMeasure), |docs|)
      ensures docMeasure == MeasuresParamUpTo(docs, old(docPage), old(docMeasure), |docs|)
      ensures navigation == NavigationOf(docs, old(docPage), old(docMeasure), |docs|)
      ensures page == old(page) && double == old(double) && multiview == old(multiview)
      ensures images == old(images) && fulltexts == old(fulltexts) && scores == old(scores) && measures == old(measures)
    {
      docPage, docMeasure, navigation := VisitDocuments(docs, docPage, docMeasure);
    }

    /**
     * `mainAction` from loading the document on: without a document of at
     * least one page nothing changes; otherwise the double switch is clamped,
     * the images and full texts of the shown pages, the score and the measures
     * of the page are collected, and in the multi-document view the navigation
     * is built.
     */
    method MainAction(doc: Option<Doc>, conf: ExtFiles, docs: seq<Doc>)
      modifies this
      ensures page == old(page) && multiview == old(multiview)
      ensures doc.None? || doc.value.numPages < 1 ==>
        double == old(double) && docPage == old(docPage) && docMeasure == old(docMeasure)
        && navigation == old(navigation) && images == old(images) && fulltexts == old(fulltexts)
        && scores == old(scores) && measures == old(measures)
      ensures doc.Some? && doc.value.numPages >= 1 ==>
        var d := ForceIntegerInRange(IntOf(old(double)), 0, 1, 0);
        var shown := ShownPages(doc.value, page, d);
        && double == Int(d)
        && |images| == |fulltexts| == |shown|
        && (forall i :: 0 <= i < |images| ==> images[i] == ImageOf(doc.value, conf, shown[i]))
        && (forall i :: 0 <= i < |fulltexts| ==> fulltexts[i] == FulltextOf(doc.value, conf, shown[i]))
        && scores == ScoreOf(doc.value, conf, page)
        && measures == MeasuresOf(doc.value, page)
        && (Empty(multiview) ==>
              docPage == old(docPage) && docMeasure == old(docMeasure) && navigation == old(navigation))
        && (!Empty(multiview) ==>
              && docPage == PagesUpTo(docs, old(docPage), old(docMeasure), |docs|)
              && docMeasure == MeasuresParamUpTo(docs, old(docPage), old(docMeasure), |docs|)
              && navigation == NavigationOf(docs, old(docPage), old(docMeasure), |docs|))
    {
      if doc.None? || doc.value.numPages < 1 {
        return;
      }
      var document := doc.value;
      double := Int(ForceIntegerInRange(IntOf(double), 0, 1, 0));
      images, fulltexts := ShownContent(document, conf, page, double.i);
      scores := GetScore(document, conf, page);
      measures := GetMeasures(document, page);
      if !Empty(multiview) {
        MultipageNavigation(docs);
      }
    }
  }

  /** The images and full texts of the shown pages, in order. */
  method ShownContent(doc: Doc, conf: ExtFiles, page: nat, double: int)
    returns (images: seq<Option<Link>>, fulltexts: seq<Option<Link>>)
    ensures |images| == |fulltexts| == |ShownPages(doc, page, double)|
    ensures forall i :: 0 <= i < |images| ==> images[i] == ImageOf(doc, conf, ShownPages(doc, page, double)[i])
    ensures forall i :: 0 <= i < |fulltexts| ==> fulltexts[i] == FulltextOf(doc, conf, ShownPages(doc, page, double)[i])
  {
    var image0 := GetImage(doc, conf, page);
    var fulltext0 := GetFulltext(doc, conf, page);
    images := [image0];
    fulltexts := [fulltext0];
    if double != 0 && page < doc.numPages {
      var image1 := GetImage(doc, conf, page + 1);
      var fulltext1 := GetFulltext(doc, conf, page + 1);
      images := [image0, image1];
      fulltexts := [fulltext0, fulltext1];
      assert ShownPages(doc, page, double) == [page, page + 1];
    } else {
      assert ShownPages(doc, page, double) == [page];
    }
  }

  /** The `foreach` of `multipageNavigation` over the documents of the multi-document view. */
  method VisitDocuments(docs: seq<Doc>, dp: map<int, Value>, dm: map<int, Value>)
    returns (docPage: map<int, Value>, docMeasure: map<int, Value>, navigation: Navigation)
    ensures docPage == PagesUpTo(docs, dp, dm, |docs|)
    ensures docMeasure == MeasuresParamUpTo(docs, dp, dm, |docs|)
    ensures navigation == NavigationOf(docs, dp, dm, |docs|)
  {
    docPage, docMeasure := dp, dm;
    navigation := Navigation([], [], map[], []);
    var i := 0;
    while i < |docs|
      invariant 0 <= i <= |docs|
      invariant docPage == PagesUpTo(docs, dp, dm, i)
      invariant docMeasure == MeasuresParamUpTo(docs, dp, dm, i)
      invariant navigation == NavigationOf(docs, dp, dm, i)
    {
      docPage, docMeasure, navigation := VisitDocument(docs, dp, dm, i, docPage, docMeasure, navigation);
      i := i + 1;
    }
  }

  /**
   * One turn of the loop in `multipageNavigation`: document `i`'s page or
   * measure is converted when only the other one is given, and its page and
   * measure navigation are added.
   */
  method VisitDocument(docs: seq<Doc>, dp: map<int, Value>, dm: map<int, Value>, i: nat,
                       docPage: map<int, Value>, docMeasure: map<int, Value>, navigation: Navigation)
    returns (newPage: map<int, Value>, newMeasure: map<int, Value>, newNav: Navigation)
    requires i < |docs|
    requires docPage == PagesUpTo(docs, dp, dm, i) && docMeasure == MeasuresParamUpTo(docs, dp, dm, i)
    requires navigation == NavigationOf(docs, dp, dm, i)
    ensures newPage == PagesUpTo(docs, dp, dm, i + 1)
    ensures newMeasure == MeasuresParamUpTo(docs, dp, dm, i + 1)
    ensures newNav == NavigationOf(docs, dp, dm, i + 1)
  {
    var document := docs[i];
    ParamsUpTo(docs, dp, dm, i);
    NavigationStep(docs, dp, dm, i);
    newPage, newMeasure := docPage, docMeasure;
    if !Empty(Get(docPage, i)) && Empty(Get(docMeasure, i)) {
      newMeasure := docMeasure[i := ConvertMeasureOrPage(document, Null, Get(docPage, i))];
    } else if (Empty(Get(docPage, i)) || Get(docPage, i) == Int(1)) && !Empty(Get(docMeasure, i)) {
      newPage := docPage[i := ConvertMeasureOrPage(document, Get(docMeasure, i), Null)];
    }
    assert Get(newPage, i) == PageAfter(docs, dp, dm, i);
    assert Get(newMeasure, i) == MeasureAfter(docs, dp, dm, i);
    var pageNav := Clamped(document.numPages, IntOf(Get(newPage, i)));
    var measureNav := Clamped(document.numMeasures, IntOf(Get(newMeasure, i)));
    newNav := Navigation(
      navigation.pages + [pageNav],
      navigation.allMeasures + [measureNav],
      if document.numMeasures > 0 then navigation.measures[i := measureNav] else navigation.measures,
      navigation.numPages + [document.numPages]);
  }
}
