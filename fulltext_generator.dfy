/**
 * On-demand OCR: where a page's full text lives, whether it is done or in
 * progress, and the background shell job that produces it. The job itself
 * (download, OCR engine, move, clean-up) runs outside; what the model keeps is
 * the command line handed to `exec` and what is written before it.
 */
module FullTextGenerator {
  import opened Php
  import opened Xml
  import opened Document
  import FullTextXmlTools

  /** The extension configuration the generator reads. */
  datatype Config = Config(
    fulltextFolder: string,
    fulltextTempFolder: string,
    fulltextImagesFolder: string,
    ocrEngine: string,
    ocrLanguages: string,
    ocrOptions: string,
    ocrDummyText: string,
    ocrLock: bool,
    ocrDelay: nat
  )

  /** Placeholder mode is on when the configured dummy text is truthy. */
  predicate DummyMode(cfg: Config)
  {
    !Falsy(cfg.ocrDummyText)
  }

  // ---------------------------------------------------------------------------
  // Ids and paths

  function DocLocalId(doc: Doc): string
  {
    doc.toplevelId
  }

  function PageLocalId(doc: Doc, pageNum: nat): string
  {
    DocLocalId(doc) + "_" + NatToString(pageNum)
  }

  function DocLocalPath(cfg: Config, doc: Doc): string
  {
    cfg.fulltextFolder + "/" + DocLocalId(doc)
  }

  function PageLocalPath(cfg: Config, doc: Doc, pageNum: nat): string
  {
    DocLocalPath(cfg, doc) + "/" + PageLocalId(doc, pageNum) + ".xml"
  }

  /** The file the OCR engine writes while it works (it appends ".xml" to its output name). */
  function InProgressPath(cfg: Config, doc: Doc, pageNum: nat): string
  {
    cfg.fulltextTempFolder + "/" + PageLocalId(doc, pageNum) + ".xml"
  }

  function TempXmlPath(cfg: Config, doc: Doc, pageNum: nat): string
  {
    cfg.fulltextTempFolder + "/" + PageLocalId(doc, pageNum)
  }

  function ImagePath(cfg: Config, doc: Doc, pageNum: nat): string
  {
    cfg.fulltextImagesFolder + "/" + PageLocalId(doc, pageNum)
  }

  function LockFolder(cfg: Config): string
  {
    cfg.fulltextTempFolder + "/lock"
  }

  /** The page id names the document and the page, and the page number can be read back from it. */
  lemma PageLocalIdInjective(doc: Doc, i: nat, j: nat)
    ensures PageLocalId(doc, i)[..|doc.toplevelId| + 1] == doc.toplevelId + "_"
    ensures PageLocalId(doc, i)[|doc.toplevelId| + 1..] == NatToString(i)
    ensures PageLocalId(doc, i) == PageLocalId(doc, j) ==> i == j
  {
    if PageLocalId(doc, i) == PageLocalId(doc, j) {
      assert NatToString(i) == PageLocalId(doc, i)[|doc.toplevelId| + 1..];
      NatToStringInjective(i, j);
    }
  }

  /** `p + x + s == p + y + s` only when `x == y`. */
  lemma InfixCancel(p: string, x: string, y: string, s: string)
    requires p + x + s == p + y + s
    ensures x == y
  {
    assert |x| == |y|;
    assert x == (p + x + s)[|p|..|p| + |x|];
    assert y == (p + y + s)[|p|..|p| + |y|];
  }

  lemma SuffixCancel(x: string, y: string, s: string)
    requires x + s == y + s
    ensures x == y
  {
    assert x == (x + s)[..|x|];
    assert y == (y + s)[..|y|];
  }

  /** For one document, distinct page numbers give distinct files of every kind. */
  lemma PagePathsDistinct(cfg: Config, doc: Doc, i: nat, j: nat)
    requires i != j
    ensures PageLocalPath(cfg, doc, i) != PageLocalPath(cfg, doc, j)
    ensures InProgressPath(cfg, doc, i) != InProgressPath(cfg, doc, j)
    ensures ImagePath(cfg, doc, i) != ImagePath(cfg, doc, j)
  {
    PageLocalIdInjective(doc, i, j);
    var a := PageLocalId(doc, i);
    var b := PageLocalId(doc, j);
    if PageLocalPath(cfg, doc, i) == PageLocalPath(cfg, doc, j) {
      InfixCancel(DocLocalPath(cfg, doc) + "/", a, b, ".xml");
    }
    if InProgressPath(cfg, doc, i) == InProgressPath(cfg, doc, j) {
      InfixCancel(cfg.fulltextTempFolder + "/", a, b, ".xml");
    }
    if ImagePath(cfg, doc, i) == ImagePath(cfg, doc, j) {
      InfixCancel(cfg.fulltextImagesFolder + "/", a, b, "");
    }
  }

  lemma NoSlashInPageFile(doc: Doc, n: nat)
    requires '/' !in doc.toplevelId
    ensures '/' !in PageLocalId(doc, n) + ".xml"
  {
    var f := PageLocalId(doc, n) + ".xml";
    var d := NatToString(n);
    forall k | 0 <= k < |f| ensures f[k] != '/' {
      if k < |doc.toplevelId| {
        assert f[k] == doc.toplevelId[k];
      } else if |doc.toplevelId| < k < |doc.toplevelId| + 1 + |d| {
        assert f[k] == d[k - |doc.toplevelId| - 1];
      }
    }
  }

  /**
   * When the document id holds no '/', the document folder, the finished file of
   * one page and the in-progress file of another page never coincide, whatever
   * the configured folders.
   */
  lemma LocalAndTempPathsDistinct(cfg: Config, doc: Doc, i: nat, j: nat)
    requires '/' !in doc.toplevelId && i != j
    ensures PageLocalPath(cfg, doc, i) != InProgressPath(cfg, doc, j)
    ensures DocLocalPath(cfg, doc) != PageLocalPath(cfg, doc, i)
    ensures DocLocalPath(cfg, doc) != InProgressPath(cfg, doc, i)
  {
    NoSlashInPageFile(doc, i);
    NoSlashInPageFile(doc, j);
    var fi := PageLocalId(doc, i) + ".xml";
    var fj := PageLocalId(doc, j) + ".xml";
    assert PageLocalPath(cfg, doc, i) == DocLocalPath(cfg, doc) + "/" + fi;
    assert InProgressPath(cfg, doc, j) == cfg.fulltextTempFolder + "/" + fj;
    assert InProgressPath(cfg, doc, i) == cfg.fulltextTempFolder + "/" + fi;
    if PageLocalPath(cfg, doc, i) == InProgressPath(cfg, doc, j) {
      LastComponentsEqual(DocLocalPath(cfg, doc), fi, cfg.fulltextTempFolder, fj);
      SuffixCancel(PageLocalId(doc, i), PageLocalId(doc, j), ".xml");
      PageLocalIdInjective(doc, i, j);
    }
    if DocLocalPath(cfg, doc) == PageLocalPath(cfg, doc, i) {
      LastComponentsEqual(cfg.fulltextFolder, doc.toplevelId, DocLocalPath(cfg, doc), fi);
    }
    if DocLocalPath(cfg, doc) == InProgressPath(cfg, doc, i) {
      LastComponentsEqual(cfg.fulltextFolder, doc.toplevelId, cfg.fulltextTempFolder, fi);
    }
  }

  /**
   * The METS registration reads back the page number from the stored file's
   * path: its id is the page id and its page number is the page's decimal text.
   */
  lemma StoredPathParsesBack(cfg: Config, doc: Doc, n: nat)
    requires '/' !in doc.toplevelId
    ensures FullTextXmlTools.ParseAltoPath(PageLocalPath(cfg, doc, n))
            == FullTextXmlTools.AltoName(PageLocalId(doc, n) + ".xml", PageLocalId(doc, n), NatToString(n))
  {
    var d := NatToString(n);
    assert '/' !in d && '_' !in d by {
      forall k | 0 <= k < |d| ensures d[k] != '/' && d[k] != '_' {
        assert IsDigit(d[k]);
      }
    }
    assert PageLocalPath(cfg, doc, n) == DocLocalPath(cfg, doc) + "/" + doc.toplevelId + "_" + d + ".xml";
    FullTextXmlTools.ParseAltoPathOfName(DocLocalPath(cfg, doc), doc.toplevelId, d);
  }

  // ---------------------------------------------------------------------------
  // Availability

  /** `checkLocal`: the page's finished full text exists. */
  predicate CheckLocal(cfg: Config, doc: Doc, pageNum: nat, existing: set<string>)
  {
    PageLocalPath(cfg, doc, pageNum) in existing
  }

  /** `checkInProgress`: the engine's output file for the page exists. */
  predicate CheckInProgress(cfg: Config, doc: Doc, pageNum: nat, existing: set<string>)
  {
    InProgressPath(cfg, doc, pageNum) in existing
  }

  /** A page is generated only when it is neither done nor in progress. */
  predicate Pending(cfg: Config, doc: Doc, pageNum: nat, existing: set<string>)
  {
    !(CheckLocal(cfg, doc, pageNum, existing) || CheckInProgress(cfg, doc, pageNum, existing))
  }

  // ---------------------------------------------------------------------------
  // The shell command

  /** The engine call: image in, output name out, languages and options. */
  function EngineInvocation(cfg: Config, imagePath: string, outputPath: string): string
  {
    cfg.ocrEngine + " " + imagePath + " " + outputPath + " " + " -l " + cfg.ocrLanguages + " " + cfg.ocrOptions
  }

  function MoveCommand(source: string, target: string): string
  {
    " && mv -f " + source + " " + target + ";"
  }

  /** `getDummyOCRCommand`: the engine writes under the temp name, then its output is moved into place. */
  function DummyOcrCommand(cfg: Config, imagePath: string, tempXmlPath: string, xmlPath: string): string
  {
    EngineInvocation(cfg, imagePath, tempXmlPath) + MoveCommand(tempXmlPath + ".xml", xmlPath)
  }

  /** The engine part of either mode. */
  function EngineCommand(cfg: Config, doc: Doc, pageNum: nat): string
  {
    if DummyMode(cfg) then
      DummyOcrCommand(cfg, ImagePath(cfg, doc, pageNum), TempXmlPath(cfg, doc, pageNum), PageLocalPath(cfg, doc, pageNum))
    else
      EngineInvocation(cfg, ImagePath(cfg, doc, pageNum), PageLocalPath(cfg, doc, pageNum)) + ";"
  }

  /** Wait until the lock folder can be created, run `cmd`, remove the lock folder. */
  function LockBracket(cfg: Config, cmd: string): string
  {
    "while ! mkdir \"" + LockFolder(cfg) + "\"; do sleep 3; done; " + cmd + " rm -r " + LockFolder(cfg) + ";"
  }

  /** The OCR part of the job: the engine, the image removal, and the optional lock bracket. */
  function OcrCommand(cfg: Config, doc: Doc, pageNum: nat): string
  {
    var cmd := EngineCommand(cfg, doc, pageNum) + " rm " + ImagePath(cfg, doc, pageNum);
    if cfg.ocrLock then LockBracket(cfg, cmd) else cmd
  }

  function DownloadCommand(imageUrl: string, imagePath: string): string
  {
    "wget " + imageUrl + " -O " + imagePath
  }

  /** The line handed to `exec`: download, wait, OCR, all in the background with output discarded. */
  function ExecLine(cfg: Config, doc: Doc, imageUrl: string, pageNum: nat, sleep: nat): string
  {
    "(" + DownloadCommand(imageUrl, ImagePath(cfg, doc, pageNum)) + " && sleep " + NatToString(sleep)
    + " && (" + OcrCommand(cfg, doc, pageNum) + ")) > /dev/null 2>&1 &"
  }

  /**
   * In placeholder mode the engine writes under the temp name, so that its
   * output is the in-progress file, and that file is then moved onto the
   * page's final path; otherwise the engine writes to the final path directly.
   */
  lemma EngineOutputPaths(cfg: Config, doc: Doc, n: nat)
    ensures DummyMode(cfg) ==>
      EngineCommand(cfg, doc, n) == EngineInvocation(cfg, ImagePath(cfg, doc, n), TempXmlPath(cfg, doc, n))
                                    + MoveCommand(InProgressPath(cfg, doc, n), PageLocalPath(cfg, doc, n))
    ensures DummyMode(cfg) ==>
      Contains(OcrCommand(cfg, doc, n), " && mv -f " + InProgressPath(cfg, doc, n) + " " + PageLocalPath(cfg, doc, n) + ";")
    ensures !DummyMode(cfg) ==>
      EngineCommand(cfg, doc, n) == EngineInvocation(cfg, ImagePath(cfg, doc, n), PageLocalPath(cfg, doc, n)) + ";"
  {
    if DummyMode(cfg) {
      var inv := EngineInvocation(cfg, ImagePath(cfg, doc, n), TempXmlPath(cfg, doc, n));
      var mv := MoveCommand(InProgressPath(cfg, doc, n), PageLocalPath(cfg, doc, n));
      var rm := " rm " + ImagePath(cfg, doc, n);
      assert TempXmlPath(cfg, doc, n) + ".xml" == InProgressPath(cfg, doc, n);
      assert EngineCommand(cfg, doc, n) == inv + mv;
      StartsWithAppend(mv, []);
      assert mv + [] == mv;
      assert Contains(mv, mv);
      ContainsPrepend(inv, mv, mv);
      ContainsAppend(inv + mv, " rm ", mv);
      ContainsAppend(inv + mv + " rm ", ImagePath(cfg, doc, n), mv);
      var cmd := inv + mv + " rm " + ImagePath(cfg, doc, n);
      if cfg.ocrLock {
        var pre := "while ! mkdir \"" + LockFolder(cfg) + "\"; do sleep 3; done; ";
        ContainsPrepend(pre, cmd, mv);
        ContainsAppend(pre + cmd, " rm -r ", mv);
        ContainsAppend(pre + cmd + " rm -r ", LockFolder(cfg), mv);
        ContainsAppend(pre + cmd + " rm -r " + LockFolder(cfg), ";", mv);
      }
    }
  }

  /**
   * Every OCR command removes the downloaded image; with `ocrLock` it waits for
   * the lock folder first and removes it last.
   */
  lemma OcrCommandShape(cfg: Config, doc: Doc, n: nat)
    ensures !cfg.ocrLock ==> EndsWith(OcrCommand(cfg, doc, n), " rm " + ImagePath(cfg, doc, n))
    ensures cfg.ocrLock ==>
      StartsWith(OcrCommand(cfg, doc, n), "while ! mkdir \"" + LockFolder(cfg) + "\"; do sleep 3; done; ")
      && EndsWith(OcrCommand(cfg, doc, n), " rm " + ImagePath(cfg, doc, n) + " rm -r " + LockFolder(cfg) + ";")
  {
    var eng := EngineCommand(cfg, doc, n);
    var img := ImagePath(cfg, doc, n);
    var cmd := eng + " rm " + img;
    EndsWithAppend(eng, " rm ");
    EndsWithExtend(eng + " rm ", " rm ", img);
    if cfg.ocrLock {
      var lf := LockFolder(cfg);
      var pre := "while ! mkdir \"" + lf + "\"; do sleep 3; done; ";
      StartsWithAppend(pre, cmd);
      StartsWithExtend(pre + cmd, pre, " rm -r ");
      StartsWithExtend(pre + cmd + " rm -r ", pre, lf);
      StartsWithExtend(pre + cmd + " rm -r " + lf, pre, ";");
      EndsWithPrepend(pre, cmd, " rm " + img);
      EndsWithExtend(pre + cmd, " rm " + img, " rm -r ");
      EndsWithExtend(pre + cmd + " rm -r ", " rm " + img + " rm -r ", lf);
      EndsWithExtend(pre + cmd + " rm -r " + lf, " rm " + img + " rm -r " + lf, ";");
      assert OcrCommand(cfg, doc, n) == pre + cmd + " rm -r " + lf + ";";
    }
  }

  /** The job downloads the page's image, sleeps the given delay, runs the OCR command, and detaches. */
  lemma ExecLineShape(cfg: Config, doc: Doc, url: string, n: nat, sleep: nat)
    ensures StartsWith(ExecLine(cfg, doc, url, n, sleep),
                       "(" + DownloadCommand(url, ImagePath(cfg, doc, n)) + " && sleep " + NatToString(sleep) + " && (")
    ensures EndsWith(ExecLine(cfg, doc, url, n, sleep), ")) > /dev/null 2>&1 &")
    ensures Contains(ExecLine(cfg, doc, url, n, sleep), OcrCommand(cfg, doc, n))
  {
    var pre := "(" + DownloadCommand(url, ImagePath(cfg, doc, n)) + " && sleep " + NatToString(sleep) + " && (";
    var ocr := OcrCommand(cfg, doc, n);
    var post := ")) > /dev/null 2>&1 &";
    StartsWithAppend(pre, ocr);
    StartsWithExtend(pre + ocr, pre, post);
    EndsWithAppend(pre + ocr, post);
    ContainsInfix(pre, ocr, post);
  }

  // ---------------------------------------------------------------------------
  // Effects on the server

  /**
   * What `generatePageOCR` does: create the document folder when nothing exists
   * at its path, write the placeholder at the final path in placeholder mode,
   * and launch the job.
   */
  function PageEffect(cfg: Config, doc: Doc, imageUrl: string, pageNum: nat, sleep: nat, sv: Server): Server
  {
    var docPath := DocLocalPath(cfg, doc);
    var dirs := if docPath in Existing(sv) then sv.dirs else sv.dirs + {docPath};
    var files := if DummyMode(cfg)
                 then sv.files[PageLocalPath(cfg, doc, pageNum) := Alto(FullTextXmlTools.PlaceholderTree(cfg.ocrDummyText))]
                 else sv.files;
    Server(files, dirs, sv.launched + [ExecLine(cfg, doc, imageUrl, pageNum, sleep)])
  }

  /** After generation starts, the page is never pending again in placeholder mode. */
  lemma PageEffectMarksPage(cfg: Config, doc: Doc, url: string, n: nat, sleep: nat, sv: Server)
    ensures Existing(sv) <= Existing(PageEffect(cfg, doc, url, n, sleep, sv))
    ensures Existing(PageEffect(cfg, doc, url, n, sleep, sv)) <= Existing(sv) + {DocLocalPath(cfg, doc), PageLocalPath(cfg, doc, n)}
    ensures DocLocalPath(cfg, doc) in Existing(PageEffect(cfg, doc, url, n, sleep, sv))
    ensures DummyMode(cfg) ==> !Pending(cfg, doc, n, Existing(PageEffect(cfg, doc, url, n, sleep, sv)))
    ensures |PageEffect(cfg, doc, url, n, sleep, sv).launched| == |sv.launched| + 1
  {
  }

  /** `generatePageOCR`. */
  method GeneratePageOcr(host: Host, cfg: Config, doc: Doc, imageUrl: string, pageNum: nat, sleep: nat)
    modifies host
    ensures host.State() == PageEffect(cfg, doc, imageUrl, pageNum, sleep, old(host.State()))
  {
    var pageId := PageLocalId(doc, pageNum);
    var imagePath := cfg.fulltextImagesFolder + "/" + pageId;
    var docPath := DocLocalPath(cfg, doc);
    if docPath !in host.files && docPath !in host.dirs {
      host.dirs := host.dirs + {docPath};
    }
    var xmlPath := PageLocalPath(cfg, doc, pageNum);
    var tempXmlPath := cfg.fulltextTempFolder + "/" + pageId;
    var lockFolder := cfg.fulltextTempFolder + "/lock";
    var download := DownloadCommand(imageUrl, imagePath);
    var cmd;
    if !Falsy(cfg.ocrDummyText) {
      FullTextXmlTools.CreatePlaceholderFulltext(host, xmlPath, cfg.ocrDummyText);
      cmd := DummyOcrCommand(cfg, imagePath, tempXmlPath, xmlPath);
    } else {
      cmd := cfg.ocrEngine + " " + imagePath + " " + xmlPath + " " + " -l " + cfg.ocrLanguages + " " + cfg.ocrOptions + ";";
    }
    cmd := cmd + " rm " + imagePath;
    if cfg.ocrLock {
      cmd := "while ! mkdir \"" + lockFolder + "\"; do sleep 3; done; " + cmd + " rm -r " + lockFolder + ";";
    }
    host.launched := host.launched + ["(" + download + " && sleep " + NatToString(sleep) + " && (" + cmd + ")) > /dev/null 2>&1 &"];
  }

  /** `createPageFullText`: generate the page without delay unless it is done or in progress. */
  method CreatePageFullText(host: Host, cfg: Config, doc: Doc, imageUrl: string, pageNum: nat)
    modifies host
    ensures Pending(cfg, doc, pageNum, Existing(old(host.State()))) ==>
      host.State() == PageEffect(cfg, doc, imageUrl, pageNum, 0, old(host.State()))
    ensures !Pending(cfg, doc, pageNum, Existing(old(host.State()))) ==> host.State() == old(host.State())
  {
    if !CheckLocal(cfg, doc, pageNum, Existing(host.State())) && !CheckInProgress(cfg, doc, pageNum, Existing(host.State())) {
      GeneratePageOcr(host, cfg, doc, imageUrl, pageNum, 0);
    }
  }

  /** `$images_urls[$i]`; a missing entry is null, which the command line shows as "". */
  function UrlAt(urls: map<int, string>, i: int): string
  {
    if i in urls then urls[i] else ""
  }

  /** One round of the batch loop: page `i`, delayed by `i * ocrDelay`, unless done or in progress. */
  function BookStep(cfg: Config, doc: Doc, urls: map<int, string>, sv: Server, i: nat): Server
  {
    if Pending(cfg, doc, i, Existing(sv)) then PageEffect(cfg, doc, UrlAt(urls, i), i, i * cfg.ocrDelay, sv) else sv
  }

  /** The server after the batch loop has handled pages 1..k. */
  function BookUpTo(cfg: Config, doc: Doc, urls: map<int, string>, sv: Server, k: nat): Server
    decreases k
  {
    if k == 0 then sv else BookStep(cfg, doc, urls, BookUpTo(cfg, doc, urls, sv, k - 1), k)
  }

  /** `createBookFullText`: pages 1..numPages in ascending order. */
  method CreateBookFullText(host: Host, cfg: Config, doc: Doc, urls: map<int, string>)
    modifies host
    ensures host.State() == BookUpTo(cfg, doc, urls, old(host.State()), doc.numPages)
  {
    ghost var sv0 := host.State();
    var i := 1;
    while i <= doc.numPages
      invariant 1 <= i <= doc.numPages + 1
      invariant host.State() == BookUpTo(cfg, doc, urls, sv0, i - 1)
    {
      BookRound(host, cfg, doc, urls, i);
      i := i + 1;
    }
  }

  /** The body of the batch loop: page `i`, delayed by `i * ocrDelay`, unless done or in progress. */
  method BookRound(host: Host, cfg: Config, doc: Doc, urls: map<int, string>, i: nat)
    modifies host
    ensures host.State() == BookStep(cfg, doc, urls, old(host.State()), i)
  {
    var delay := i * cfg.ocrDelay;
    if !CheckLocal(cfg, doc, i, Existing(host.State())) && !CheckInProgress(cfg, doc, i, Existing(host.State())) {
      GeneratePageOcr(host, cfg, doc, UrlAt(urls, i), i, delay);
    }
  }

  /** The jobs of pages 1..k that are pending in `existing`, in page order, each delayed by its page number. */
  function Launches(cfg: Config, doc: Doc, urls: map<int, string>, existing: set<string>, k: nat): seq<string>
    decreases k
  {
    if k == 0 then []
    else Launches(cfg, doc, urls, existing, k - 1)
         + (if Pending(cfg, doc, k, existing) then [ExecLine(cfg, doc, UrlAt(urls, k), k, k * cfg.ocrDelay)] else [])
  }

  /** The final paths of pages 1..k. */
  function PagePaths(cfg: Config, doc: Doc, k: nat): set<string>
  {
    set j: nat | 1 <= j <= k :: PageLocalPath(cfg, doc, j)
  }

  /** The batch only adds the document folder and finished-page files to what exists. */
  lemma {:induction false} BookExistingBounds(cfg: Config, doc: Doc, urls: map<int, string>, sv: Server, k: nat)
    ensures Existing(sv) <= Existing(BookUpTo(cfg, doc, urls, sv, k))
    ensures Existing(BookUpTo(cfg, doc, urls, sv, k)) <= Existing(sv) + {DocLocalPath(cfg, doc)} + PagePaths(cfg, doc, k)
    decreases k
  {
    if k > 0 {
      BookExistingBounds(cfg, doc, urls, sv, k - 1);
      BookStepBounds(cfg, doc, urls, BookUpTo(cfg, doc, urls, sv, k - 1), k);
      PagePathsStep(cfg, doc, k);
    }
  }

  /** One round of the batch adds at most the document folder and the page's final file. */
  lemma BookStepBounds(cfg: Config, doc: Doc, urls: map<int, string>, sv: Server, k: nat)
    ensures Existing(sv) <= Existing(BookStep(cfg, doc, urls, sv, k))
    ensures Existing(BookStep(cfg, doc, urls, sv, k)) <= Existing(sv) + {DocLocalPath(cfg, doc), PageLocalPath(cfg, doc, k)}
  {
    PageEffectMarksPage(cfg, doc, UrlAt(urls, k), k, k * cfg.ocrDelay, sv);
  }

  lemma PagePathsStep(cfg: Config, doc: Doc, k: nat)
    requires k > 0
    ensures PagePaths(cfg, doc, k) == PagePaths(cfg, doc, k - 1) + {PageLocalPath(cfg, doc, k)}
  {
  }

  /**
   * When the document id holds no '/', what the batch writes for earlier pages
   * never makes a later page look done or in progress: the batch launches
   * exactly the pages pending before it started, in ascending order, page `i`
   * after a delay of `i * ocrDelay`.
   */
  lemma {:induction false} BookLaunchesPendingPages(cfg: Config, doc: Doc, urls: map<int, string>, sv: Server, k: nat)
    requires '/' !in doc.toplevelId
    ensures BookUpTo(cfg, doc, urls, sv, k).launched == sv.launched + Launches(cfg, doc, urls, Existing(sv), k)
    decreases k
  {
    if k > 0 {
      BookLaunchesPendingPages(cfg, doc, urls, sv, k - 1);
      var prev := BookUpTo(cfg, doc, urls, sv, k - 1);
      BookExistingBounds(cfg, doc, urls, sv, k - 1);
      PendingUnchanged(cfg, doc, Existing(sv), Existing(prev), k);
      BookStepLaunch(cfg, doc, urls, prev, k);
    }
  }

  /** One round of the batch launches the page's job exactly when the page is pending. */
  lemma BookStepLaunch(cfg: Config, doc: Doc, urls: map<int, string>, sv: Server, k: nat)
    ensures BookStep(cfg, doc, urls, sv, k).launched ==
      sv.launched + (if Pending(cfg, doc, k, Existing(sv)) then [ExecLine(cfg, doc, UrlAt(urls, k), k, k * cfg.ocrDelay)] else [])
  {
  }

  /**
   * What the first `k - 1` rounds may add (the document folder and the final
   * files of earlier pages) does not change whether page `k` is pending.
   */
  lemma PendingUnchanged(cfg: Config, doc: Doc, before: set<string>, after: set<string>, k: nat)
    requires '/' !in doc.toplevelId && k > 0
    requires before <= after <= before + {DocLocalPath(cfg, doc)} + PagePaths(cfg, doc, k - 1)
    ensures Pending(cfg, doc, k, after) == Pending(cfg, doc, k, before)
  {
    forall j: nat | 1 <= j <= k - 1
      ensures PageLocalPath(cfg, doc, j) != PageLocalPath(cfg, doc, k)
      ensures PageLocalPath(cfg, doc, j) != InProgressPath(cfg, doc, k)
    {
      PagePathsDistinct(cfg, doc, j, k);
      LocalAndTempPathsDistinct(cfg, doc, j, k);
    }
    LocalAndTempPathsDistinct(cfg, doc, k, k + 1);
  }

  /** In placeholder mode the batch leaves every page 1..k done or in progress. */
  lemma {:induction false} BookLeavesNothingPending(cfg: Config, doc: Doc, urls: map<int, string>, sv: Server, k: nat)
    requires DummyMode(cfg)
    ensures forall j :: 1 <= j <= k ==> !Pending(cfg, doc, j, Existing(BookUpTo(cfg, doc, urls, sv, k)))
    decreases k
  {
    if k > 0 {
      BookLeavesNothingPending(cfg, doc, urls, sv, k - 1);
      var prev := BookUpTo(cfg, doc, urls, sv, k - 1);
      BookStepBounds(cfg, doc, urls, prev, k);
      BookStepMarks(cfg, doc, urls, prev, k);
      forall j | 1 <= j <= k
        ensures !Pending(cfg, doc, j, Existing(BookUpTo(cfg, doc, urls, sv, k)))
      {
        if j < k {
          NotPendingGrows(cfg, doc, j, Existing(prev), Existing(BookUpTo(cfg, doc, urls, sv, k)));
        }
      }
    }
  }

  /** In placeholder mode a round leaves its page done or in progress. */
  lemma BookStepMarks(cfg: Config, doc: Doc, urls: map<int, string>, sv: Server, k: nat)
    requires DummyMode(cfg)
    ensures !Pending(cfg, doc, k, Existing(BookStep(cfg, doc, urls, sv, k)))
  {
    if Pending(cfg, doc, k, Existing(sv)) {
      PageEffectMarksPage(cfg, doc, UrlAt(urls, k), k, k * cfg.ocrDelay, sv);
    }
  }

  /** A page that is done or in progress stays so when files are only added. */
  lemma NotPendingGrows(cfg: Config, doc: Doc, j: nat, before: set<string>, after: set<string>)
    requires before <= after && !Pending(cfg, doc, j, before)
    ensures !Pending(cfg, doc, j, after)
  {
  }
}
