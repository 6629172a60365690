/**
 * The page view plugin: which image and which full text a page shows, which
 * OCR engine a visitor may choose, how a request triggers OCR, and how the
 * requested page and the double-page switch are normalised.
 */
module PageViewPlugin {
  import opened Php
  import opened Xml
  import opened Document
  import Gen = FullTextGenerator

  /** The plugin configuration keys the viewer reads: comma-separated file group lists. */
  datatype ViewConf = ViewConf(fileGrpImages: string, fileGrpFulltext: string)

  // ---------------------------------------------------------------------------
  // Images

  /**
   * The image of a page: in mode 0 (display) the lowest configured group with a
   * file wins, in any other mode (OCR) the highest.
   */
  function ImageOf(doc: Doc, conf: ViewConf, page: int, mode: int): Option<Link>
  {
    var gs := TrimExplode(',', conf.fileGrpImages);
    var hit := if mode == 0 then FirstHit(doc, page, gs, 0, |gs|) else LastHit(doc, page, gs, 0, |gs|);
    match hit
    case Some(k) => Some(LinkOf(doc, page, gs[k]))
    case None => None
  }

  /** Both modes agree on whether a page has an image; they pick the lowest and the highest group holding one. */
  lemma ImageOfModes(doc: Doc, conf: ViewConf, page: int, mode: int)
    ensures var gs := TrimExplode(',', conf.fileGrpImages);
      && (ImageOf(doc, conf, page, mode).None? <==> NoHitIn(doc, page, gs, 0, |gs|))
      && (ImageOf(doc, conf, page, mode).Some? ==>
            exists k :: (if mode == 0 then FirstHitIn(doc, page, gs, 0, |gs|, k) else LastHitIn(doc, page, gs, 0, |gs|, k))
              && ImageOf(doc, conf, page, mode) == Some(LinkOf(doc, page, gs[k])))
  {
    var gs := TrimExplode(',', conf.fileGrpImages);
    FirstHitSpec(doc, page, gs, 0, |gs|);
    LastHitSpec(doc, page, gs, 0, |gs|);
  }

  /** `getImage`: the `$i`/`$j`/`$x` loop walks up from 0 in mode 0 and down from the end otherwise. */
  method GetImage(doc: Doc, conf: ViewConf, page: int, mode: int) returns (image: Option<Link>)
    ensures image == ImageOf(doc, conf, page, mode)
  {
    var gs := TrimExplode(',', conf.fileGrpImages);
    var count := |gs|;
    var i, j, x;
    if mode == 0 {
      i, j, x := 0, count, 1;
    } else {
      i, j, x := count - 1, -1, -1;
    }
    while i != j
      invariant (x == 1) == (mode == 0)
      invariant x == 1 ==> j == count && 0 <= i <= count && FirstHit(doc, page, gs, 0, count) == FirstHit(doc, page, gs, i, count)
      invariant x == -1 ==> j == -1 && -1 <= i < count && LastHit(doc, page, gs, 0, count) == LastHit(doc, page, gs, 0, i + 1)
      decreases (j - i) * x
    {
      if HasFile(doc, page, gs[i]) {
        return Some(LinkOf(doc, page, gs[i]));
      }
      i := i + x;
    }
    return None;
  }

  /** `["url"]` of a possibly empty image array: null prints as "". */
  function UrlOf(image: Option<Link>): string
  {
    if image.Some? then image.value.url else ""
  }

  // ---------------------------------------------------------------------------
  // Full texts

  /** A full-text link: the local fallback sets only the URL. */
  datatype FulltextLink = FulltextLink(url: string, mimetype: Option<string>)

  /** The URL under which the web server delivers a locally generated full text. */
  function LocalUrl(gcfg: Gen.Config, doc: Doc, httpHost: string, pageNum: nat): string
  {
    "http://" + httpHost + "/" + Gen.PageLocalPath(gcfg, doc, pageNum)
  }

  /**
   * What `getFulltext($page)` returns while the request's current page is
   * `currentPage`. The groups are visited in order until one is named "" or
   * "0"; the first visited group with a remote file wins with its MIME type;
   * otherwise, if any group was visited and the current page's generated file
   * exists, the local URL of the current page.
   */
  function FulltextOf(doc: Doc, conf: ViewConf, gcfg: Gen.Config, existing: set<string>, httpHost: string,
                      page: int, currentPage: nat): Option<FulltextLink>
  {
    var gs := TrimExplode(',', conf.fileGrpFulltext);
    var live := FirstFalsy(gs);
    match FirstHit(doc, page, gs, 0, live)
    case Some(k) => Some(FulltextLink(LinkOf(doc, page, gs[k]).url, Some(LinkOf(doc, page, gs[k]).mimetype)))
    case None =>
      if live > 0 && Gen.CheckLocal(gcfg, doc, currentPage, existing)
      then Some(FulltextLink(LocalUrl(gcfg, doc, httpHost, currentPage), None))
      else None
  }

  /** `getFulltext` as written: the local fallback looks at the request's current page. */
  method GetFulltext(doc: Doc, conf: ViewConf, gcfg: Gen.Config, existing: set<string>, httpHost: string,
                     page: int, currentPage: nat) returns (fulltext: Option<FulltextLink>)
    ensures fulltext == FulltextOf(doc, conf, gcfg, existing, httpHost, page, currentPage)
  {
    var gs := TrimExplode(',', conf.fileGrpFulltext);
    ghost var local := if Gen.CheckLocal(gcfg, doc, currentPage, existing)
                       then Some(FulltextLink(LocalUrl(gcfg, doc, httpHost, currentPage), None)) else None;
    fulltext := None;
    var k := 0;
    while k < |gs| && !Falsy(gs[k])
      invariant 0 <= k <= FirstFalsy(gs)
      invariant FirstHit(doc, page, gs, 0, FirstFalsy(gs)) == FirstHit(doc, page, gs, k, FirstFalsy(gs))
      invariant fulltext == if k > 0 then local else None
    {
      var g := gs[k];
      if HasFile(doc, page, g) {
        var link := LinkOf(doc, page, g);
        fulltext := Some(FulltextLink(link.url, Some(link.mimetype)));
        return;
      } else if Gen.PageLocalPath(gcfg, doc, currentPage) in existing {
        fulltext := Some(FulltextLink("http://" + httpHost + "/" + Gen.PageLocalPath(gcfg, doc, currentPage), None));
      }
      k := k + 1;
    }
    assert k == FirstFalsy(gs);
  }

  /** `getFulltext` with the local fallback looking at the page asked for. */
  function FulltextOfPage(doc: Doc, conf: ViewConf, gcfg: Gen.Config, existing: set<string>, httpHost: string,
                          page: nat): Option<FulltextLink>
  {
    FulltextOf(doc, conf, gcfg, existing, httpHost, page, page)
  }

  /**
   * A remote full text always wins; a local link names the generated file of
   * the page asked for, and appears only when that file exists and the page
   * has no remote full text in a visited group.
   */
  lemma FulltextOfPageFallback(doc: Doc, conf: ViewConf, gcfg: Gen.Config, existing: set<string>, httpHost: string,
                               page: nat)
    ensures var gs := TrimExplode(',', conf.fileGrpFulltext);
      var r := FulltextOfPage(doc, conf, gcfg, existing, httpHost, page);
      && (r.Some? && r.value.mimetype.None? ==>
            r.value.url == LocalUrl(gcfg, doc, httpHost, page) && Gen.CheckLocal(gcfg, doc, page, existing)
            && NoHitIn(doc, page, gs, 0, FirstFalsy(gs)))
      && (r.Some? && r.value.mimetype.Some? ==>
            exists k :: FirstHitIn(doc, page, gs, 0, FirstFalsy(gs), k) && r.value.url == LinkOf(doc, page, gs[k]).url)
      && (r.None? <==> NoHitIn(doc, page, gs, 0, FirstFalsy(gs))
                       && (FirstFalsy(gs) == 0 || !Gen.CheckLocal(gcfg, doc, page, existing)))
  {
    var gs := TrimExplode(',', conf.fileGrpFulltext);
    FirstHitSpec(doc, page, gs, 0, FirstFalsy(gs));
  }

  /**
   * As written, the local fallback of the second page of a double-page view
   * (asked for `current + 1` while the current page is `current`) links the
   * current page's file: whenever the second page has no remote full text, the
   * current page's generated file exists and a group is visited, the link for
   * the second page is the current page's local URL, which is not the second
   * page's.
   */
  lemma SecondPageGetsCurrentPageFile(doc: Doc, conf: ViewConf, gcfg: Gen.Config, existing: set<string>,
                                      httpHost: string, current: nat)
    requires var gs := TrimExplode(',', conf.fileGrpFulltext);
      FirstFalsy(gs) > 0 && NoHitIn(doc, current + 1, gs, 0, FirstFalsy(gs))
    requires Gen.CheckLocal(gcfg, doc, current, existing)
    ensures FulltextOf(doc, conf, gcfg, existing, httpHost, current + 1, current)
            == Some(FulltextLink(LocalUrl(gcfg, doc, httpHost, current), None))
    ensures LocalUrl(gcfg, doc, httpHost, current) != LocalUrl(gcfg, doc, httpHost, current + 1)
  {
    var gs := TrimExplode(',', conf.fileGrpFulltext);
    FirstHitSpec(doc, current + 1, gs, 0, FirstFalsy(gs));
    Gen.PagePathsDistinct(gcfg, doc, current, current + 1);
    var pre := "http://" + httpHost + "/";
    var a := Gen.PageLocalPath(gcfg, doc, current);
    var b := Gen.PageLocalPath(gcfg, doc, current + 1);
    assert LocalUrl(gcfg, doc, httpHost, current) == pre + a;
    assert LocalUrl(gcfg, doc, httpHost, current + 1) == pre + b;
    assert (pre + a)[|pre|..] == a;
    assert (pre + b)[|pre|..] == b;
  }

  // ---------------------------------------------------------------------------
  // OCR engine choice

  /**
   * `getOCRengine`: the cookie's engine when it is set and occurs in the text
   * of the active-engine list, else "default" followed by the configured engine.
   */
  function OcrEngine(cookie: Option<string>, engineList: string, confEngine: string): string
  {
    if cookie.Some? && Contains(engineList, cookie.value) then cookie.value else "default" + confEngine
  }

  /**
   * The engine is a piece of the engine list text or the default. The check is
   * a substring test on the list's text, so any fragment of it is accepted,
   * the empty cookie included.
   */
  lemma OcrEngineValidated(cookie: Option<string>, engineList: string, confEngine: string)
    ensures var e := OcrEngine(cookie, engineList, confEngine);
      Contains(engineList, e) || e == "default" + confEngine
    ensures cookie.None? ==> OcrEngine(cookie, engineList, confEngine) == "default" + confEngine
    ensures OcrEngine(Some(""), engineList, confEngine) == ""
    ensures forall a, b, c :: engineList == a + b + c ==> OcrEngine(Some(b), engineList, confEngine) == b
  {
    assert StartsWith(engineList, "");
    forall a, b, c | engineList == a + b + c
      ensures OcrEngine(Some(b), engineList, confEngine) == b
    {
      ContainsInfix(a, b, c);
    }
  }

  // ---------------------------------------------------------------------------
  // OCR requests

  /** The OCR-mode image URLs of pages 1..k, keyed by page number, as the `for` loop fills them in. */
  function BookImages(doc: Doc, conf: ViewConf, k: nat): map<int, string>
  {
    if k == 0 then map[] else BookImages(doc, conf, k - 1)[k := UrlOf(ImageOf(doc, conf, k, 1))]
  }

  /** The collected map holds pages 1..k, each with its own OCR-mode image URL. */
  lemma {:induction false} BookImagesAt(doc: Doc, conf: ViewConf, k: nat)
    ensures forall i :: i in BookImages(doc, conf, k) <==> 1 <= i <= k
    ensures forall i :: 1 <= i <= k ==> BookImages(doc, conf, k)[i] == UrlOf(ImageOf(doc, conf, i, 1))
  {
    if k > 0 {
      BookImagesAt(doc, conf, k - 1);
    }
  }

  /** The server after the requested page was handled: OCR is started for it unless it is done or under way. */
  function PageRequest(gcfg: Gen.Config, doc: Doc, conf: ViewConf, page: nat, sv: Server): Server
  {
    if Gen.Pending(gcfg, doc, page, Existing(sv))
    then Gen.PageEffect(gcfg, doc, UrlOf(ImageOf(doc, conf, page, 1)), page, 0, sv)
    else sv
  }

  /** The server after `generateFullText` for `page` with request type `requestType`. */
  function AfterGenerate(gcfg: Gen.Config, doc: Doc, conf: ViewConf, page: nat, requestType: string, sv: Server): Server
  {
    var afterPage := PageRequest(gcfg, doc, conf, page, sv);
    if requestType == "book" then Gen.BookUpTo(gcfg, doc, BookImages(doc, conf, doc.numPages), afterPage, doc.numPages)
    else afterPage
  }

  /**
   * A page request launches at most one job, for that page. In book mode
   * every page's job downloads that page's OCR-mode image, and (for a document
   * id without '/') the batch launches exactly the pages still pending after
   * the requested page was handled; with a dummy engine no page is left
   * pending.
   */
  lemma BookRequestUsesPageImages(gcfg: Gen.Config, doc: Doc, conf: ViewConf, page: nat, requestType: string, sv: Server)
    requires '/' !in doc.toplevelId
    ensures var mid := PageRequest(gcfg, doc, conf, page, sv);
      && |mid.launched| == |sv.launched| + (if Gen.Pending(gcfg, doc, page, Existing(sv)) then 1 else 0)
      && (requestType != "book" ==> AfterGenerate(gcfg, doc, conf, page, requestType, sv) == mid)
      && (requestType == "book" ==>
            AfterGenerate(gcfg, doc, conf, page, requestType, sv).launched
              == mid.launched + Gen.Launches(gcfg, doc, BookImages(doc, conf, doc.numPages), Existing(mid), doc.numPages))
    ensures requestType == "book" && Gen.DummyMode(gcfg) ==> forall i :: 1 <= i <= doc.numPages ==>
      !Gen.Pending(gcfg, doc, i, Existing(AfterGenerate(gcfg, doc, conf, page, requestType, sv)))
  {
    var mid := PageRequest(gcfg, doc, conf, page, sv);
    if Gen.Pending(gcfg, doc, page, Existing(sv)) {
      Gen.PageEffectMarksPage(gcfg, doc, UrlOf(ImageOf(doc, conf, page, 1)), page, 0, sv);
    }
    Gen.BookLaunchesPendingPages(gcfg, doc, BookImages(doc, conf, doc.numPages), mid, doc.numPages);
    if Gen.DummyMode(gcfg) {
      Gen.BookLeavesNothingPending(gcfg, doc, BookImages(doc, conf, doc.numPages), mid, doc.numPages);
    }
  }

  lemma BookImagesStep(doc: Doc, conf: ViewConf, k: nat, image: Option<Link>)
    requires k > 0 && image == ImageOf(doc, conf, k, 1)
    ensures BookImages(doc, conf, k) == BookImages(doc, conf, k - 1)[k := UrlOf(image)]
  {
  }

  /** The `for` loop of `generateFullText` collecting every page's OCR-mode image URL. */
  method CollectBookImages(doc: Doc, conf: ViewConf) returns (images: map<int, string>)
    ensures images == BookImages(doc, conf, doc.numPages)
  {
    images := map[];
    var i := 1;
    while i <= doc.numPages
      invariant 1 <= i <= doc.numPages + 1
      invariant images == BookImages(doc, conf, i - 1)
    {
      var image: Option<Link> := GetImage(doc, conf, i, 1);
      BookImagesStep(doc, conf, i, image);
      images := images[i := UrlOf(image)];
      i := i + 1;
    }
  }

  /** `generateFullText`: the page first, then in book mode every page with its OCR-mode image. */
  method GenerateFullText(host: Host, gcfg: Gen.Config, doc: Doc, conf: ViewConf, page: nat, requestType: string)
    modifies host
    ensures host.State() == AfterGenerate(gcfg, doc, conf, page, requestType, old(host.State()))
  {
    var image := GetImage(doc, conf, page, 1);
    Gen.CreatePageFullText(host, gcfg, doc, UrlOf(image), page);
    ghost var mid := host.State();
    assert mid == PageRequest(gcfg, doc, conf, page, old(host.State()));
    if requestType == "book" {
      var images := CollectBookImages(doc, conf);
      Gen.CreateBookFullText(host, gcfg, doc, images);
    }
  }

  // ---------------------------------------------------------------------------
  // Page normalisation

  /** `array_search($id, $ps)` from index `from` on: the first index holding `id`, or false. */
  function IndexOfId(ps: seq<string>, id: string, from: nat): (r: Option<nat>)
    requires from <= |ps|
    ensures r.None? <==> forall j :: from <= j < |ps| ==> ps[j] != id
    ensures r.Some? ==> from <= r.value < |ps| && ps[r.value] == id && forall j :: from <= j < r.value ==> ps[j] != id
    decreases |ps| - from
  {
    if from == |ps| then None else if ps[from] == id then Some(from) else IndexOfId(ps, id, from + 1)
  }

  /**
   * The page after normalisation: a positive or empty value is clamped to
   * [1, numPages] with default 1; anything else is looked up as a physical id,
   * and an id that is not there (false) reads as page 0.
   */
  function NormalisedPage(doc: Doc, v: Value): nat
    requires doc.numPages >= 1
  {
    if IntOf(v) > 0 || Empty(v) then ForceIntegerInRange(IntOf(v), 1, doc.numPages, 1)
    else match IndexOfId(doc.physicalStructure, StringOf(v), 0)
      case Some(k) => k
      case None => 0
  }

  lemma NormalisedPageRange(doc: Doc, v: Value)
    requires doc.numPages >= 1
    ensures IntOf(v) > 0 || Empty(v) ==> 1 <= NormalisedPage(doc, v) <= doc.numPages
    ensures 1 <= IntOf(v) <= doc.numPages ==> NormalisedPage(doc, v) == IntOf(v)
    ensures IntOf(v) > doc.numPages ==> NormalisedPage(doc, v) == doc.numPages
    ensures Empty(v) ==> NormalisedPage(doc, v) == 1
    ensures !(IntOf(v) > 0 || Empty(v)) ==>
      var p := NormalisedPage(doc, v);
      || (p < |doc.physicalStructure| && doc.physicalStructure[p] == StringOf(v)
          && forall j :: 0 <= j < p ==> doc.physicalStructure[j] != StringOf(v))
      || (p == 0 && forall j :: 0 <= j < |doc.physicalStructure| ==> doc.physicalStructure[j] != StringOf(v))
  {
    if v.Str? && v.s == "0" {
      assert NatToString(0) == "0";
      IntCastOfNatToString(0);
    }
  }

  /**
   * The images and full texts `main` collects for the template: those of the
   * shown pages, in order. As written, every full text's local fallback looks
   * at the current page `page`, so only the first agrees with the corrected
   * `FulltextOfPage`.
   */
  method ShownContent(doc: Doc, conf: ViewConf, gcfg: Gen.Config, existing: set<string>, httpHost: string,
                      page: nat, double: int) returns (images: seq<Option<Link>>, fulltexts: seq<Option<FulltextLink>>)
    ensures |images| == |fulltexts| == |ShownPages(doc, page, double)|
    ensures forall i :: 0 <= i < |images| ==> images[i] == ImageOf(doc, conf, ShownPages(doc, page, double)[i], 0)
    ensures forall i :: 0 <= i < |fulltexts| ==>
      fulltexts[i] == FulltextOf(doc, conf, gcfg, existing, httpHost, ShownPages(doc, page, double)[i], page)
    ensures fulltexts[0] == FulltextOfPage(doc, conf, gcfg, existing, httpHost, page)
  {
    ghost var shown := ShownPages(doc, page, double);
    var image0 := GetImage(doc, conf, page, 0);
    var fulltext0 := GetFulltext(doc, conf, gcfg, existing, httpHost, page, page);
    images := [image0];
    fulltexts := [fulltext0];
    if double != 0 && page < doc.numPages {
      assert shown == [page, page + 1];
      var image1 := GetImage(doc, conf, page + 1, 0);
      var fulltext1 := GetFulltext(doc, conf, gcfg, existing, httpHost, page + 1, page);
      images := [image0, image1];
      fulltexts := [fulltext0, fulltext1];
    } else {
      assert shown == [page];
    }
  }

  /** The page view plugin's request state and what `main` prepares for the template. */
  class PageView {
    var page: Value          // piVars['page']
    var logicalPage: Value   // piVars['logicalPage']
    var double: Value        // piVars['double']
    var images: seq<Option<Link>>
    var fulltexts: seq<Option<FulltextLink>>

    constructor (page0: Value, logicalPage0: Value, double0: Value)
      ensures page == page0 && logicalPage == logicalPage0 && double == double0
      ensures images == [] && fulltexts == []
    {
      page := page0;
      logicalPage := logicalPage0;
      double := double0;
      images := [];
      fulltexts := [];
    }

    /**
     * `main` from loading the document on: without a document of at least one
     * page nothing changes; otherwise the logical page (if given) replaces the
     * page, the page and the double switch are normalised, and the images and
     * full texts of the shown pages are collected. `physicalOfLogical` is what
     * the document answers for the logical page. Full texts are those of
     * `getFulltext` as written, whose local fallback looks at the current page.
     */
    method Render(doc: Option<Doc>, conf: ViewConf, gcfg: Gen.Config, existing: set<string>, httpHost: string,
                physicalOfLogical: int)
      modifies this
      ensures doc.None? || doc.value.numPages < 1 ==>
        page == old(page) && logicalPage == old(logicalPage) && double == old(double)
        && images == old(images) && fulltexts == old(fulltexts)
      ensures doc.Some? && doc.value.numPages >= 1 ==>
        var raw := if Empty(old(logicalPage)) then old(page) else Int(physicalOfLogical);
        var p := NormalisedPage(doc.value, raw);
        var d := ForceIntegerInRange(IntOf(old(double)), 0, 1, 0);
        && page == Int(p) && double == Int(d)
        && logicalPage == (if Empty(old(logicalPage)) then old(logicalPage) else Null)
        && |images| == |fulltexts| == |ShownPages(doc.value, p, d)|
        && (forall i :: 0 <= i < |images| ==> images[i] == ImageOf(doc.value, conf, ShownPages(doc.value, p, d)[i], 0))
        && (forall i :: 0 <= i < |fulltexts| ==>
              fulltexts[i] == FulltextOf(doc.value, conf, gcfg, existing, httpHost, ShownPages(doc.value, p, d)[i], p))
    {
      if doc.None? || doc.value.numPages < 1 {
        return;
      }
      var document := doc.value;
      if !Empty(logicalPage) {
        page := Int(physicalOfLogical);
        logicalPage := Null;
      }
      ghost var raw := page;
      var p: nat;
      if IntOf(page) > 0 || Empty(page) {
        p := ForceIntegerInRange(IntOf(page), 1, document.numPages, 1);
      } else {
        var found := IndexOfId(document.physicalStructure, StringOf(page), 0);
        p := if found.Some? then found.value else 0;
      }
      assert p == NormalisedPage(document, raw);
      page := Int(p);
      double := Int(ForceIntegerInRange(IntOf(double), 0, 1, 0));
      images, fulltexts := ShownContent(document, conf, gcfg, existing, httpHost, p, double.i);
    }
  }
}
