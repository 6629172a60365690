/**
 * XML tools of the on-demand full-text subsystem: finding a document's URN in
 * its METS file, registering a generated ALTO file in a METS file (a streaming
 * copy with two kinds of injected elements), copying the METS file next to the
 * full texts, and the "work in progress" ALTO placeholder.
 */
module FullTextXmlTools {
  import opened Php
  import opened Xml

  // ---------------------------------------------------------------------------
  // URN scan

  /** `mods:identifier` or `identifier` whose `type` is "urn", with non-empty text. */
  predicate IsIdentifierUrn(n: Node)
  {
    (n.name == "mods:identifier" || n.name == "identifier")
    && Attr(n.attrs, "type") == Some("urn") && !Falsy(n.content)
  }

  /** `mods:recordIdentifier` whose `source` is "urn", with non-empty text. */
  predicate IsRecordIdentifierUrn(n: Node)
  {
    n.name == "mods:recordIdentifier" && Attr(n.attrs, "source") == Some("urn") && !Falsy(n.content)
  }

  /** The `CONTENTIDS` attribute as a string; PHP reads a missing one (null) as "". */
  function ContentIds(n: Node): string
  {
    if "CONTENTIDS" in n.attrs then n.attrs["CONTENTIDS"] else ""
  }

  /** `mets:div` whose `CONTENTIDS` has "urn" as its first three characters, with non-empty text. */
  predicate IsDivUrn(n: Node)
  {
    n.name == "mets:div" && Substr(ContentIds(n), 0, Some(3)) == "urn" && !Falsy(n.content)
  }

  predicate HoldsUrn(n: Node)
  {
    IsIdentifierUrn(n) || IsRecordIdentifierUrn(n) || IsDivUrn(n)
  }

  /** The URN a qualifying node yields: its text, or for a `mets:div` its `CONTENTIDS`. */
  function UrnOf(n: Node): string
  {
    if n.name == "mets:div" then ContentIds(n) else n.content
  }

  lemma DivUrnStartsWithUrn(n: Node)
    requires IsDivUrn(n)
    ensures StartsWith(ContentIds(n), "urn")
  {
  }

  /**
   * `getDocURN`: read the METS nodes in document order and stop at the first
   * one that carries a URN; null when none does.
   */
  method GetDocUrn(nodes: seq<Node>) returns (urn: Option<string>)
    ensures urn.None? <==> forall i :: 0 <= i < |nodes| ==> !HoldsUrn(nodes[i])
    ensures urn.Some? ==>
      exists k :: 0 <= k < |nodes| && HoldsUrn(nodes[k]) && urn.value == UrnOf(nodes[k])
                  && forall j :: 0 <= j < k ==> !HoldsUrn(nodes[j])
    ensures urn.Some? ==> urn.value != ""
  {
    var i := 0;
    while i < |nodes|
      invariant 0 <= i <= |nodes|
      invariant forall j :: 0 <= j < i ==> !HoldsUrn(nodes[j])
    {
      var n := nodes[i];
      if IsIdentifierUrn(n) {
        return Some(n.content);
      } else if IsRecordIdentifierUrn(n) {
        return Some(n.content);
      } else if IsDivUrn(n) {
        DivUrnStartsWithUrn(n);
        return Some(ContentIds(n));
      }
      i := i + 1;
    }
    return None;
  }

  // ---------------------------------------------------------------------------
  // ALTO path parsing

  /** The three names `updateMetsXML` derives from the ALTO path. */
  datatype AltoName = AltoName(filename: string, id: string, pageNum: string)

  /**
   * The file name is what follows the last '/', the id is the file name without
   * its last four characters, the page number is what follows the id's last '_'.
   */
  function ParseAltoPath(altoPath: string): AltoName
  {
    var filename := Substr(altoPath, AfterLast(altoPath, '/'), None);
    var id := Substr(filename, 0, Some(|filename| - 4));
    var pageNum := Substr(id, AfterLast(id, '_'), None);
    AltoName(filename, id, pageNum)
  }

  /**
   * For a path `dir/base_digits.xml` (no '/' in the file name, no '_' in the
   * digits) the parts are the file name, `base_digits` and the digits.
   */
  lemma ParseAltoPathOfName(dir: string, base: string, digits: string)
    requires '/' !in base && '/' !in digits && '_' !in digits
    ensures ParseAltoPath(dir + "/" + base + "_" + digits + ".xml")
            == AltoName(base + "_" + digits + ".xml", base + "_" + digits, digits)
  {
    var path := dir + "/" + base + "_" + digits + ".xml";
    var name := base + "_" + digits + ".xml";
    var id := base + "_" + digits;
    assert path == dir + ['/'] + name;
    assert '/' !in name by {
      forall k | 0 <= k < |name| ensures name[k] != '/' {
        if k < |base| { assert name[k] == base[k]; }
        else if |base| < k < |base| + 1 + |digits| { assert name[k] == digits[k - |base| - 1]; }
      }
    }
    AfterLastSplit(dir, '/', name);
    assert Substr(path, |dir| + 1, None) == name;
    assert name[..|name| - 4] == id;
    assert Substr(name, 0, Some(|name| - 4)) == id;
    assert id == base + ['_'] + digits;
    AfterLastSplit(base, '_', digits);
    assert Substr(id, |base| + 1, None) == digits;
  }

  /** A path without any '/' loses its first character: PHP turns `false + 1` into 1. */
  lemma ParseAltoPathWithoutSlash(path: string)
    requires '/' !in path && |path| >= 1
    ensures ParseAltoPath(path).filename == path[1..]
  {
  }

  // ---------------------------------------------------------------------------
  // METS rewrite

  /** Everything the rewrite needs besides the input stream. */
  datatype MetsUpdate = MetsUpdate(
    altoPath: string,
    alto: AltoName,
    datestamp: string,    // the current time, in ATOM format
    ocrScript: string,
    httpHost: string,     // `$_SERVER['HTTP_HOST']`
    fulltextPresent: bool // the METS file is updated in place: a FULLTEXT group exists already
  )

  function UpdateParams(xmlPath: string, altoPath: string, newXmlPath: string, ocrScript: string,
                        datestamp: string, httpHost: string): MetsUpdate
  {
    MetsUpdate(altoPath, ParseAltoPath(altoPath), datestamp, ocrScript, httpHost, xmlPath == newXmlPath)
  }

  /** The identifier of the registered ALTO file, shared by `mets:file ID` and `mets:fptr FILEID`. */
  function FileId(u: MetsUpdate): string
  {
    "ALTO_" + u.alto.id
  }

  /** `updateMetsNode`: one `mets:file` holding one `mets:FLocat`. */
  function FileEntry(u: MetsUpdate): seq<Event>
  {
    [ Open("mets:file", map["ID" := FileId(u), "MIMETYPE" := "text/xml", "CREATED" := u.datestamp,
                            "SOFTWARE" := "DFG-Viewer-5-OCR-" + u.ocrScript]),
      Open("mets:FLocat", map["LOCTYPE" := "URL", "xlink:href" := "http://" + u.httpHost + "/" + u.altoPath]),
      Close("mets:FLocat"),
      Close("mets:file") ]
  }

  /** A new `mets:fileGrp USE="FULLTEXT"` around the file entry. */
  function FulltextGroup(u: MetsUpdate): seq<Event>
  {
    [Open("mets:fileGrp", map["USE" := "FULLTEXT"])] + FileEntry(u) + [Close("mets:fileGrp")]
  }

  /** The `mets:fptr` that links a physical page to the ALTO file. */
  function Fptr(u: MetsUpdate): seq<Event>
  {
    [Open("mets:fptr", map["FILEID" := FileId(u)]), Close("mets:fptr")]
  }

  predicate IsFileSec(e: Event)
  {
    e.Open? && (e.name == "mets:fileSec" || e.name == "fileSec")
  }

  /** The present-branch test looks only at the `USE` attribute of the element. */
  predicate IsFulltextGroup(e: Event)
  {
    e.Open? && Attr(e.attrs, "USE") == Some("FULLTEXT")
  }

  predicate IsPageDiv(e: Event, pageNum: string)
  {
    e.Open? && e.name == "mets:div" && Attr(e.attrs, "TYPE") == Some("page") && Attr(e.attrs, "ORDER") == Some(pageNum)
  }

  /** The events written right after the copy of `e`, whose predecessor in the input is `prev`. */
  function Injection(u: MetsUpdate, prev: Option<Event>, e: Event): seq<Event>
  {
    (if IsFileSec(e) && !u.fulltextPresent then FulltextGroup(u) else [])
    + (if u.fulltextPresent && prev.Some? && IsFileSec(prev.value) && IsFulltextGroup(e) then FileEntry(u) else [])
    + (if IsPageDiv(e, u.alto.pageNum) then Fptr(u) else [])
  }

  function Prev(s: seq<Event>, i: nat): Option<Event>
    requires i <= |s|
  {
    if i == 0 then None else Some(s[i - 1])
  }

  /** The whole output stream: every input event copied, each followed by its injection. */
  function Rewrite(u: MetsUpdate, s: seq<Event>): seq<Event>
    decreases |s|
  {
    if s == [] then []
    else Rewrite(u, s[..|s| - 1]) + [s[|s| - 1]] + Injection(u, Prev(s, |s| - 1), s[|s| - 1])
  }

  /** Where the copy of input event `i` lands in the output. */
  function Pos(u: MetsUpdate, s: seq<Event>, i: nat): nat
    requires i <= |s|
  {
    |Rewrite(u, s[..i])|
  }

  lemma {:induction false} RewritePrefix(u: MetsUpdate, s: seq<Event>, j: nat)
    requires j <= |s|
    ensures |Rewrite(u, s[..j])| <= |Rewrite(u, s)|
    ensures Rewrite(u, s)[..|Rewrite(u, s[..j])|] == Rewrite(u, s[..j])
    decreases |s| - j
  {
    if j < |s| {
      var t := s[..|s| - 1];
      assert s[..j] == t[..j];
      RewritePrefix(u, t, j);
      assert Rewrite(u, s) == Rewrite(u, t) + [s[|s| - 1]] + Injection(u, Prev(s, |s| - 1), s[|s| - 1]);
    } else {
      assert s[..j] == s;
    }
  }

  lemma RewriteStep(u: MetsUpdate, s: seq<Event>, i: nat)
    requires i < |s|
    ensures Rewrite(u, s[..i + 1]) == Rewrite(u, s[..i]) + [s[i]] + Injection(u, Prev(s, i), s[i])
  {
    assert s[..i + 1][..i] == s[..i];
  }

  /**
   * The rewrite copies every input event, in order, and adds only the injections:
   * the output is `in[0]`, its injection, `in[1]`, its injection, and so on.
   */
  lemma RewriteLayout(u: MetsUpdate, s: seq<Event>, i: nat)
    requires i < |s|
    ensures Pos(u, s, 0) == 0 && Pos(u, s, |s|) == |Rewrite(u, s)|
    ensures Pos(u, s, i) < Pos(u, s, i + 1) <= |Rewrite(u, s)|
    ensures Rewrite(u, s)[Pos(u, s, i)] == s[i]
    ensures Rewrite(u, s)[Pos(u, s, i) + 1..Pos(u, s, i + 1)] == Injection(u, Prev(s, i), s[i])
  {
    assert s[..|s|] == s;
    assert s[..0] == [];
    RewriteStep(u, s, i);
    RewritePrefix(u, s, i + 1);
    PieceOfPrefix(Rewrite(u, s), Rewrite(u, s[..i]), s[i], Injection(u, Prev(s, i), s[i]));
  }

  /** When `a + [x] + inj` is a prefix of `r`, `x` and `inj` sit right after `a` in `r`. */
  lemma PieceOfPrefix<T>(r: seq<T>, a: seq<T>, x: T, inj: seq<T>)
    requires |a + [x] + inj| <= |r| && r[..|a + [x] + inj|] == a + [x] + inj
    ensures r[|a|] == x && r[|a| + 1..|a| + 1 + |inj|] == inj
  {
    var b := a + [x] + inj;
    assert r[|a|] == r[..|b|][|a|] == b[|a|];
    assert r[|a| + 1..|a| + 1 + |inj|] == r[..|b|][|a| + 1..|b|] == b[|a| + 1..|b|];
  }

  /** Without a FULLTEXT group, a new one becomes the first child of every `fileSec`. */
  lemma FulltextGroupIsFirstChild(u: MetsUpdate, s: seq<Event>, i: nat)
    requires i < |s| && IsFileSec(s[i]) && !u.fulltextPresent
    ensures Pos(u, s, i) < Pos(u, s, i + 1) <= |Rewrite(u, s)|
    ensures Rewrite(u, s)[Pos(u, s, i)] == s[i]
    ensures Rewrite(u, s)[Pos(u, s, i) + 1..Pos(u, s, i + 1)] == FulltextGroup(u)
  {
    RewriteLayout(u, s, i);
  }

  /** Each physical page `mets:div` whose ORDER is the ALTO page number gets the `mets:fptr` as its first child. */
  lemma FptrIsFirstChild(u: MetsUpdate, s: seq<Event>, i: nat)
    requires i < |s| && IsPageDiv(s[i], u.alto.pageNum) && !IsFulltextGroup(s[i])
    ensures Pos(u, s, i) < Pos(u, s, i + 1) <= |Rewrite(u, s)|
    ensures Rewrite(u, s)[Pos(u, s, i)] == s[i]
    ensures Rewrite(u, s)[Pos(u, s, i) + 1..Pos(u, s, i + 1)] == Fptr(u)
  {
    RewriteLayout(u, s, i);
  }

  /** Events that trigger nothing are copied with nothing after them. */
  lemma OtherEventsCopiedAlone(u: MetsUpdate, s: seq<Event>, i: nat)
    requires i < |s| && !IsFileSec(s[i]) && !IsFulltextGroup(s[i]) && !IsPageDiv(s[i], u.alto.pageNum)
    ensures Pos(u, s, i) < Pos(u, s, i + 1) <= |Rewrite(u, s)|
    ensures Pos(u, s, i + 1) == Pos(u, s, i) + 1
    ensures Rewrite(u, s)[Pos(u, s, i)] == s[i]
  {
    RewriteLayout(u, s, i);
  }

  /**
   * The injected entries agree with each other: the `mets:fptr` names the
   * registered file, the group holds exactly that file with its MIME type,
   * software tag and a URL locator.
   */
  lemma InjectedEntriesAgree(u: MetsUpdate)
    ensures |FulltextGroup(u)| == 6 && FulltextGroup(u)[1..5] == FileEntry(u)
    ensures FulltextGroup(u)[0] == Open("mets:fileGrp", map["USE" := "FULLTEXT"])
    ensures Attr(Fptr(u)[0].attrs, "FILEID") == Attr(FileEntry(u)[0].attrs, "ID") == Some("ALTO_" + u.alto.id)
    ensures Attr(FileEntry(u)[0].attrs, "MIMETYPE") == Some("text/xml")
    ensures Attr(FileEntry(u)[0].attrs, "SOFTWARE") == Some("DFG-Viewer-5-OCR-" + u.ocrScript)
    ensures FileEntry(u)[1].name == "mets:FLocat" && Attr(FileEntry(u)[1].attrs, "LOCTYPE") == Some("URL")
  {
  }

  /** The METS stream at `path`; a missing file reads as an empty stream. */
  function SourceEvents(files: map<string, Content>, path: string): seq<Event>
  {
    if path in files && files[path].Mets? then files[path].events else []
  }

  /** The `foreach` over the reader's nodes: each node is copied, followed by what it triggers. */
  method RewriteStream(u: MetsUpdate, source: seq<Event>) returns (out: seq<Event>)
    ensures out == Rewrite(u, source)
  {
    out := [];
    var i := 0;
    while i < |source|
      invariant 0 <= i <= |source|
      invariant out == Rewrite(u, source[..i])
    {
      var e := source[i];
      var added: seq<Event> := [];
      if IsFileSec(e) && !u.fulltextPresent {
        added := added + FulltextGroup(u);
      }
      if u.fulltextPresent && i > 0 && IsFileSec(source[i - 1]) && IsFulltextGroup(e) {
        added := added + FileEntry(u);
      }
      if IsPageDiv(e, u.alto.pageNum) {
        added := added + Fptr(u);
      }
      assert added == Injection(u, Prev(source, i), e);
      RewriteStep(u, source, i);
      out := out + [e] + added;
      i := i + 1;
    }
    assert source[..i] == source;
  }

  /**
   * `updateMETSXML`: stream the METS file at `xmlPath` into `newXmlPath + "-tmp"`,
   * then rename that file onto `newXmlPath`.
   */
  method UpdateMetsXml(host: Host, xmlPath: string, altoPath: string, newXmlPath: string,
                       ocrScript: string, datestamp: string, httpHost: string)
    modifies host
    ensures host.files == (old(host.files) - {newXmlPath + "-tmp"})[newXmlPath :=
              Mets(Rewrite(UpdateParams(xmlPath, altoPath, newXmlPath, ocrScript, datestamp, httpHost),
                           SourceEvents(old(host.files), xmlPath)))]
    ensures host.dirs == old(host.dirs) && host.launched == old(host.launched)
  {
    var source := SourceEvents(host.files, xmlPath);
    var u := UpdateParams(xmlPath, altoPath, newXmlPath, ocrScript, datestamp, httpHost);
    var tmp := newXmlPath + "-tmp";
    ghost var before := host.files;
    host.files := host.files[tmp := Mets([])];
    var out := RewriteStream(u, source);
    host.files := host.files[tmp := Mets(out)];
    DropUpdated(before[tmp := Mets([])], tmp, Mets(out));
    DropUpdated(before, tmp, Mets([]));
    host.files := (host.files - {tmp})[newXmlPath := Mets(out)];
  }

  /** Removing a key undoes every write to it. */
  lemma DropUpdated(m: map<string, Content>, k: string, v: Content)
    ensures m[k := v] - {k} == m - {k}
  {
  }

  // ---------------------------------------------------------------------------
  // Copying the METS file

  /**
   * The files after `writeMetsXML`: the METS text is written only where
   * nothing exists yet, neither a file nor a directory.
   */
  function WrittenOnce(files: map<string, Content>, dirs: set<string>, path: string, mets: seq<Event>): map<string, Content>
  {
    if path in files || path in dirs then files else files[path := Mets(mets)]
  }

  /** Writing twice is writing once, whatever the second content; an existing path is left alone. */
  lemma WriteMetsXmlIdempotent(files: map<string, Content>, dirs: set<string>, path: string, a: seq<Event>, b: seq<Event>)
    ensures WrittenOnce(WrittenOnce(files, dirs, path, a), dirs, path, b) == WrittenOnce(files, dirs, path, a)
    ensures path in dirs || path in WrittenOnce(files, dirs, path, a)
    ensures path !in dirs && path !in files ==> WrittenOnce(files, dirs, path, a)[path] == Mets(a)
    ensures path in files || path in dirs ==> WrittenOnce(files, dirs, path, a) == files
  {
  }

  /** `writeMetsXML`: create the METS copy at `xmlPath` unless something exists there already. */
  method WriteMetsXml(host: Host, mets: seq<Event>, xmlPath: string)
    modifies host
    ensures host.files == WrittenOnce(old(host.files), old(host.dirs), xmlPath, mets)
    ensures host.dirs == old(host.dirs) && host.launched == old(host.launched)
  {
    if xmlPath !in host.files && xmlPath !in host.dirs {
      host.files := host.files[xmlPath := Mets(mets)];
    }
  }

  // ---------------------------------------------------------------------------
  // Placeholder ALTO

  /** Line `k` of the placeholder: eight blank lines, then the given text. */
  function PlaceholderLine(text: string, k: nat): string
  {
    if k < 8 then "\n" else text
  }

  function TextLine(content: string): Element
  {
    Element("TextLine", map[], "", [Element("String", map["CONTENT" := content], "", [])])
  }

  function Leaf(name: string, text: string, children: seq<Element>): Element
  {
    Element(name, map[], text, children)
  }

  /** The first `k` text lines of the placeholder. */
  function PlaceholderLines(text: string, k: nat): seq<Element>
    decreases k
  {
    if k == 0 then [] else PlaceholderLines(text, k - 1) + [TextLine(PlaceholderLine(text, k - 1))]
  }

  lemma {:induction false} PlaceholderLinesAt(text: string, k: nat)
    ensures |PlaceholderLines(text, k)| == k
    ensures forall j :: 0 <= j < k ==> PlaceholderLines(text, k)[j] == TextLine(PlaceholderLine(text, j))
    decreases k
  {
    if k > 0 {
      PlaceholderLinesAt(text, k - 1);
    }
  }

  function PlaceholderTree(text: string): Element
  {
    var lines := PlaceholderLines(text, 9);
    Leaf("alto", "", [
      Leaf("Fulltext", "WIP", []),
      Leaf("Layout", "", [Leaf("Page", "", [Leaf("PrintSpace", "", [Leaf("TextBlock", "", lines)])])])])
  }

  /**
   * The placeholder's shape: `alto` holds `Fulltext` ("WIP") then `Layout`, which
   * nests `Page`, `PrintSpace` and one `TextBlock` of nine `TextLine`s, each with
   * one `String` whose CONTENT is a line break for the first eight and the text last.
   */
  lemma PlaceholderShape(text: string)
    ensures var root := PlaceholderTree(text);
      && root.name == "alto" && |root.children| == 2
      && root.children[0] == Element("Fulltext", map[], "WIP", [])
      && root.children[1].name == "Layout" && |root.children[1].children| == 1
      && var page := root.children[1].children[0];
      && page.name == "Page" && |page.children| == 1
      && page.children[0].name == "PrintSpace" && |page.children[0].children| == 1
      && var block := page.children[0].children[0];
      && block.name == "TextBlock" && |block.children| == 9
      && (forall k :: 0 <= k < 9 ==>
            block.children[k].name == "TextLine" && |block.children[k].children| == 1
            && block.children[k].children[0].name == "String"
            && Attr(block.children[k].children[0].attrs, "CONTENT") == Some(if k < 8 then "\n" else text))
  {
    PlaceholderLinesAt(text, 9);
  }

  /** The DOM building of `createPlaceholderFulltext`: one text line appended per entry. */
  method BuildPlaceholder(text: string) returns (root: Element)
    ensures root == PlaceholderTree(text)
  {
    var lines := ["\n", "\n", "\n", "\n", "\n", "\n", "\n", "\n", text];
    var block: seq<Element> := [];
    var k := 0;
    while k < |lines|
      invariant 0 <= k <= 9
      invariant block == PlaceholderLines(text, k)
    {
      assert lines[k] == PlaceholderLine(text, k);
      block := block + [TextLine(lines[k])];
      k := k + 1;
    }
    root := Leaf("alto", "", [
      Leaf("Fulltext", "WIP", []),
      Leaf("Layout", "", [Leaf("Page", "", [Leaf("PrintSpace", "", [Leaf("TextBlock", "", block)])])])]);
  }

  /** `createPlaceholderFulltext`: save the placeholder tree at `path`, replacing any file there. */
  method CreatePlaceholderFulltext(host: Host, path: string, text: string)
    modifies host
    ensures host.files == old(host.files)[path := Alto(PlaceholderTree(text))]
    ensures host.dirs == old(host.dirs) && host.launched == old(host.launched)
  {
    var root := BuildPlaceholder(text);
    host.files := host.files[path := Alto(root)];
  }
}
