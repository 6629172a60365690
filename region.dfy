/**
 * A search hit's highlighted region on a page, as a Solr search result
 * reports it: an upper-left and a lower-right corner, the page index and the
 * matched text. The region is built once and only read afterwards, so it is a
 * value; its width and height are derived from the corners when it is built.
 */
module SearchResultRegion {

  /** The `$region` array of a hit: `pageIdx`, `ulx`, `lrx`, `uly`, `lry` and `text`. */
  datatype Hit = Hit(pageIdx: int, ulx: int, lrx: int, uly: int, lry: int, text: string)

  /**
   * A region; each field is what the getter of the same name returns
   * (`getId`, `getPageId`, `getXBeginPosition`, ...).
   */
  datatype Region = Region(
    id: int,
    pageId: int,
    xBegin: int,
    xEnd: int,
    yBegin: int,
    yEnd: int,
    width: int,
    height: int,
    text: string
  )

  /** A region whose width and height agree with its corners. */
  predicate Consistent(r: Region)
  {
    r.xBegin + r.width == r.xEnd && r.yBegin + r.height == r.yEnd
  }

  /** The hit a region was built from. */
  function HitOf(r: Region): Hit
  {
    Hit(r.pageId, r.xBegin, r.xEnd, r.yBegin, r.yEnd, r.text)
  }

  /**
   * The constructor: the id and every corner and the text are kept as given,
   * and the width and height span exactly from the begin to the end corner.
   */
  function NewRegion(id: int, hit: Hit): (r: Region)
    ensures Consistent(r)
    ensures r.id == id && HitOf(r) == hit
  {
    Region(id, hit.pageIdx, hit.ulx, hit.lrx, hit.uly, hit.lry, hit.lrx - hit.ulx, hit.lry - hit.uly, hit.text)
  }

  /**
   * Building is one-to-one: two regions built from different ids or hits
   * differ, and every consistent region is the one built from its own id and
   * hit. So the getters give back exactly the constructor's inputs.
   */
  lemma NewRegionBijective(id1: int, hit1: Hit, id2: int, hit2: Hit, r: Region)
    ensures NewRegion(id1, hit1) == NewRegion(id2, hit2) <==> id1 == id2 && hit1 == hit2
    ensures Consistent(r) ==> NewRegion(r.id, HitOf(r)) == r
  {
    if NewRegion(id1, hit1) == NewRegion(id2, hit2) {
      assert HitOf(NewRegion(id1, hit1)) == hit1;
    }
  }

  /** A region is empty in width exactly when its corners share an x coordinate, and likewise in height. */
  lemma RegionExtent(id: int, hit: Hit)
    ensures var r := NewRegion(id, hit);
      && (r.width == 0 <==> hit.ulx == hit.lrx)
      && (r.height == 0 <==> hit.uly == hit.lry)
      && (r.width > 0 <==> hit.ulx < hit.lrx)
      && (r.height > 0 <==> hit.uly < hit.lry)
  {
  }
}
