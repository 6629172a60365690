/**
 * The document as the page viewer sees it: pages, the files of each page by
 * file group, what a file id resolves to, and the musical structure. The
 * loading and parsing of METS or IIIF documents is not part of this model;
 * a document is given as this value.
 */
module Document {
  import opened Php

  /** `getFileInfo($id)`: where a file lives and its MIME type. */
  datatype FileInfo = FileInfo(location: string, mimeType: string)

  /**
   * One entry of `musicalStructureInfo`: the id of its DEFAULT file (null when
   * missing), its coordinates on that file, and the id of its SCORE begin.
   */
  datatype MeasureInfo = MeasureInfo(defaultFileId: Option<string>, coords: string, scoreBegin: string)

  datatype Doc = Doc(
    toplevelId: string,
    numPages: nat,
    isMets: bool,                                // a METS document rather than a IIIF manifest
    physicalStructure: seq<string>,              // page number -> physical id; index 0 is the whole object
    pageFiles: map<string, map<string, string>>, // physical id -> file group -> file id
    fileInfo: map<string, FileInfo>,             // file id -> location and MIME type
    numMeasures: nat,
    measurePages: seq<int>,                      // `array_column($musicalStructure, 'page')`
    measures: seq<MeasureInfo>                   // `musicalStructureInfo`, in order
  )

  /** `physicalStructure[$page]`; a page that is not there gives null, which PHP uses as the key "". */
  function PhysId(doc: Doc, page: int): string
  {
    if 0 <= page < |doc.physicalStructure| then doc.physicalStructure[page] else ""
  }

  /** `physicalStructureInfo[...]['files']`; a missing entry has no files. */
  function FilesOf(doc: Doc, page: int): map<string, string>
  {
    var id := PhysId(doc, page);
    if id in doc.pageFiles then doc.pageFiles[id] else map[]
  }

  /** `!empty($files[$grp])`: the group holds a file id that is not "" or "0". */
  predicate HasFile(doc: Doc, page: int, grp: string)
  {
    grp in FilesOf(doc, page) && !Falsy(FilesOf(doc, page)[grp])
  }

  /** `getFileInfo` of an id; an unknown id gives null fields, which read as "". */
  function InfoOf(doc: Doc, fileId: string): FileInfo
  {
    if fileId in doc.fileInfo then doc.fileInfo[fileId] else FileInfo("", "")
  }

  /** The `['url' => ..., 'mimetype' => ...]` array the viewer hands to its templates. */
  datatype Link = Link(url: string, mimetype: string)

  /** The link of the page's file in group `grp`. */
  function LinkOf(doc: Doc, page: int, grp: string): Link
    requires HasFile(doc, page, grp)
  {
    var info := InfoOf(doc, FilesOf(doc, page)[grp]);
    Link(info.location, info.mimeType)
  }

  // ---------------------------------------------------------------------------
  // Scans over configured file groups

  /** `k` is the lowest index in `[lo, hi)` whose group holds a file for the page. */
  predicate FirstHitIn(doc: Doc, page: int, gs: seq<string>, lo: int, hi: int, k: int)
  {
    0 <= lo <= k < hi <= |gs| && HasFile(doc, page, gs[k])
    && forall j :: lo <= j < k ==> !HasFile(doc, page, gs[j])
  }

  /** `k` is the highest index in `[lo, hi)` whose group holds a file for the page. */
  predicate LastHitIn(doc: Doc, page: int, gs: seq<string>, lo: int, hi: int, k: int)
  {
    0 <= lo <= k < hi <= |gs| && HasFile(doc, page, gs[k])
    && forall j :: k < j < hi ==> !HasFile(doc, page, gs[j])
  }

  /** No group in `[lo, hi)` holds a file for the page. */
  predicate NoHitIn(doc: Doc, page: int, gs: seq<string>, lo: int, hi: int)
    requires 0 <= lo && hi <= |gs|
  {
    forall j :: lo <= j < hi ==> !HasFile(doc, page, gs[j])
  }

  /** A scan has one answer. */
  lemma HitsUnique(doc: Doc, page: int, gs: seq<string>, lo: int, hi: int, k1: int, k2: int)
    ensures FirstHitIn(doc, page, gs, lo, hi, k1) && FirstHitIn(doc, page, gs, lo, hi, k2) ==> k1 == k2
    ensures LastHitIn(doc, page, gs, lo, hi, k1) && LastHitIn(doc, page, gs, lo, hi, k2) ==> k1 == k2
    ensures FirstHitIn(doc, page, gs, lo, hi, k1) ==> !NoHitIn(doc, page, gs, lo, hi)
  {
  }

  /**
   * Where a `while ($g = array_shift($gs))` loop stops: the index of the first
   * group name that is "" or "0", or the length when there is none.
   */
  function FirstFalsy(gs: seq<string>): (k: nat)
    ensures k <= |gs|
    ensures forall j :: 0 <= j < k ==> !Falsy(gs[j])
    ensures k < |gs| ==> Falsy(gs[k])
    decreases |gs|
  {
    if gs == [] || Falsy(gs[0]) then 0 else 1 + FirstFalsy(gs[1..])
  }

  /**
   * Where a `while ($g = array_pop($gs))` loop stops: one past the last group
   * name that is "" or "0", or 0 when there is none. Only the groups from here
   * to the end are visited.
   */
  function LiveBackStart(gs: seq<string>): (b: nat)
    ensures b <= |gs|
    ensures forall j :: b <= j < |gs| ==> !Falsy(gs[j])
    ensures b > 0 ==> Falsy(gs[b - 1])
    decreases |gs|
  {
    if gs == [] || Falsy(gs[|gs| - 1]) then |gs| else LiveBackStart(gs[..|gs| - 1])
  }

  /** The first group in `[lo, hi)` with a file for the page, if any. */
  function FirstHit(doc: Doc, page: int, gs: seq<string>, lo: nat, hi: nat): (r: Option<nat>)
    requires lo <= hi <= |gs|
    ensures r.Some? ==> lo <= r.value < hi && HasFile(doc, page, gs[r.value])
    decreases hi - lo
  {
    if lo == hi then None
    else if HasFile(doc, page, gs[lo]) then Some(lo)
    else FirstHit(doc, page, gs, lo + 1, hi)
  }

  /** The last group in `[lo, hi)` with a file for the page, if any. */
  function LastHit(doc: Doc, page: int, gs: seq<string>, lo: nat, hi: nat): (r: Option<nat>)
    requires lo <= hi <= |gs|
    ensures r.Some? ==> lo <= r.value < hi && HasFile(doc, page, gs[r.value])
    decreases hi - lo
  {
    if lo == hi then None
    else if HasFile(doc, page, gs[hi - 1]) then Some(hi - 1)
    else LastHit(doc, page, gs, lo, hi - 1)
  }

  /** `FirstHit` finds nothing exactly when no group in the range has a file, and otherwise the lowest one. */
  lemma {:induction false} FirstHitSpec(doc: Doc, page: int, gs: seq<string>, lo: nat, hi: nat)
    requires lo <= hi <= |gs|
    ensures FirstHit(doc, page, gs, lo, hi).None? <==> NoHitIn(doc, page, gs, lo, hi)
    ensures FirstHit(doc, page, gs, lo, hi).Some? ==> FirstHitIn(doc, page, gs, lo, hi, FirstHit(doc, page, gs, lo, hi).value)
    decreases hi - lo
  {
    if lo < hi && !HasFile(doc, page, gs[lo]) {
      FirstHitSpec(doc, page, gs, lo + 1, hi);
    }
  }

  /** `LastHit` finds nothing exactly when no group in the range has a file, and otherwise the highest one. */
  lemma {:induction false} LastHitSpec(doc: Doc, page: int, gs: seq<string>, lo: nat, hi: nat)
    requires lo <= hi <= |gs|
    ensures LastHit(doc, page, gs, lo, hi).None? <==> NoHitIn(doc, page, gs, lo, hi)
    ensures LastHit(doc, page, gs, lo, hi).Some? ==> LastHitIn(doc, page, gs, lo, hi, LastHit(doc, page, gs, lo, hi).value)
    decreases hi - lo
  {
    if lo < hi && !HasFile(doc, page, gs[hi - 1]) {
      LastHitSpec(doc, page, gs, lo, hi - 1);
    }
  }

  // ---------------------------------------------------------------------------
  // Double-page view

  /**
   * The pages a view shows: the current one, and the next one when the
   * double-page switch is on and there is a next page.
   */
  function ShownPages(doc: Doc, page: nat, double: int): seq<nat>
  {
    if double != 0 && page < doc.numPages then [page, page + 1] else [page]
  }

  lemma ShownPagesInRange(doc: Doc, page: nat, double: int)
    requires 1 <= page <= doc.numPages
    ensures var s := ShownPages(doc, page, double);
      && 1 <= |s| <= 2 && s[0] == page
      && (|s| == 2 <==> double != 0 && page < doc.numPages)
      && (|s| == 2 ==> s[1] == page + 1)
      && forall i :: 0 <= i < |s| ==> 1 <= s[i] <= doc.numPages
  {
  }
}
