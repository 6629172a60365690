# Kitodo.Presentation page viewer and on-demand OCR, in Dafny

This project models the page viewer of the Kitodo.Presentation TYPO3
extension and its on-demand full-text (OCR) add-on. It covers:

- how the viewer chooses a page's image, full text and score from the
  configured METS file groups;
- how it normalises the requested page and the double-page switch;
- the per-document navigation and measure/page conversion of the
  multi-document (music) view;
- where generated full texts are stored, when a page is done or in
  progress, and the background shell job that produces it;
- how a generated ALTO file is registered in a METS file, and the "work
  in progress" ALTO placeholder;
- a search hit's region and the ORCID API endpoint URL.

The model follows the source file by file:

| file | module |
|---|---|
| `php.dfy` | `Php`: the PHP and TYPO3 behaviour the code relies on. This covers `empty()`, the `(int)` cast, `strrpos`/`substr`, `explode`/`trimExplode` and `forceIntegerInRange`. |
| `document.dfy` | `Document`: the loaded document as the viewer reads it, and the file-group scans shared by the plugin and the controller. |
| `xml.dfy` | `Xml`: XML nodes, writer events, element trees, and the server. The server is a class holding files, directories and launched command lines. |
| `fulltext_xml_tools.dfy` | `FullTextXmlTools`: `FullTextXMLtools.php` |
| `fulltext_generator.dfy` | `FullTextGenerator`: `FullTextGenerator.php` |
| `page_view.dfy` | `PageViewPlugin`: `PageView.php` |
| `page_view_controller.dfy` | `PageViewControllerModel`: `PageViewController.php` |
| `region.dfy` | `SearchResultRegion`: `Region.php` |
| `orcid_client.dfy` | `OrcidClient`: the ORCID `Client.php` |

Loops of the source are methods with loop invariants. Each loop is proved
equal to a recursive function, and the properties are lemmas about that
function. Objects the source updates in place are classes: the server, the
page view, the controller and the ORCID client. Immutable values are
datatypes.

Some properties of the code worth knowing:

- A generated full text is stored at `<fulltextFolder>/<toplevelId>/<toplevelId>_<page>.xml`.
  The path depends on the document's `toplevelId` and the page number only,
  not on the image location or the OCR engine.
- A page is "in progress" when the engine's output file exists in the
  temporary folder.
- There is no per-image job lock, no concurrency ceiling, no timeout and no
  rollback. The only lock is the optional `mkdir` lock folder inside the
  command line.
- Registering an ALTO file in a METS file never checks for an existing entry,
  so running it twice adds a second entry.
- The OCR engine chosen by cookie is accepted when it occurs anywhere in the
  text of the engine list. This is a substring test, not a lookup in an
  allow-list.

## Model

| member | source | states |
|---|---|---|
| Php.ForceIntegerInRangeSpec | Classes/Plugin/PageView.php:432-436 | The TYPO3 clamp `ForceIntegerInRange`. A result in [lo, hi] when lo <= hi, and hi when hi < lo, because the value is raised to lo first and lowered to hi last. A value already in range is kept, unless it is 0 and a default is given, in which case the default is used. Values below lo become lo and values above hi become hi. |
| Php.IntCastOfNatToString | Classes/Plugin/PageView.php:431-432 | `(int)` of a page number printed in decimal gives that number back. |
| Php.IntCastExponent | Classes/Plugin/PageView.php:431-432 | `(int)` of digits followed by `e` and an exponent is the digits' value times that power of ten, so "2e1" is page 20. |
| Php.IntCastFraction | Classes/Controller/PageViewController.php:185 | `(int)` of digits, a point and fraction digits is the value of the leading digits: the fraction is truncated. |
| Php.TrimExplodeParts | Classes/Plugin/PageView.php:195 | Every piece of `trimExplode` holds no delimiter and neither starts nor ends with white space. |
| Document.FirstFalsy | Classes/Controller/PageViewController.php:435 | Where a `while ($g = array_shift($gs))` loop stops: every earlier group name is truthy, and the one it stops at is "" or "0". |
| Document.LiveBackStart | Classes/Controller/PageViewController.php:630 | Where a `while ($g = array_pop($gs))` loop stops: every later group name is truthy, and the one before is "" or "0". |
| Document.FirstHitSpec | Classes/Plugin/PageView.php:253-269 | The forward scan finds nothing exactly when no group in the range has a non-empty file for the page. Otherwise it finds the lowest such group. |
| Document.LastHitSpec | Classes/Controller/PageViewController.php:630-670 | The backward scan finds nothing exactly when no group in the range has a file. Otherwise it finds the highest such group. |
| Document.ShownPagesInRange | Classes/Plugin/PageView.php:444-448 | A view shows the current page, and the next one exactly when the double switch is on and a next page exists. All shown pages lie in [1, numPages]. |
| FullTextXmlTools.GetDocUrn | Classes/Plugin/FullTextXMLtools.php:42-58 | The URN is null exactly when no node qualifies. Otherwise it comes from the first qualifying node in document order: the text of an `identifier`/`mods:identifier` with type "urn" or a `mods:recordIdentifier` with source "urn", or the `CONTENTIDS` of a `mets:div` starting with "urn". The node's text must be non-empty. The URN is never "". |
| FullTextXmlTools.DivUrnStartsWithUrn | Classes/Plugin/FullTextXMLtools.php:53-54 | A `mets:div` that qualifies yields a `CONTENTIDS` value starting with "urn". |
| FullTextXmlTools.ParseAltoPathOfName | Classes/Plugin/FullTextXMLtools.php:117-119 | For `dir/base_digits.xml`, the file name is `base_digits.xml`, the id is `base_digits` and the page number is `digits`. |
| FullTextXmlTools.ParseAltoPathWithoutSlash | Classes/Plugin/FullTextXMLtools.php:117 | A path without '/' loses its first character: `strrpos` gives false and false + 1 is 1. |
| FullTextXmlTools.RewriteLayout | Classes/Plugin/FullTextXMLtools.php:122-163 | The rewrite copies every input event in order. Each copy is followed only by that event's injection. |
| FullTextXmlTools.RewriteStream | Classes/Plugin/FullTextXMLtools.php:122-163 | The read/write loop produces exactly the rewrite of the source stream. |
| FullTextXmlTools.FulltextGroupIsFirstChild | Classes/Plugin/FullTextXMLtools.php:124-145 | When the METS file is copied to a new path, a new FULLTEXT `mets:fileGrp` directly follows the start of every `fileSec`. |
| FullTextXmlTools.FptrIsFirstChild | Classes/Plugin/FullTextXMLtools.php:150-160 | Every physical page `mets:div` whose ORDER equals the ALTO page number is directly followed by the `mets:fptr`. |
| FullTextXmlTools.OtherEventsCopiedAlone | Classes/Plugin/FullTextXMLtools.php:162 | Events that trigger no injection are copied with nothing added after them. |
| FullTextXmlTools.InjectedEntriesAgree | Classes/Plugin/FullTextXMLtools.php:168-179 | The group holds exactly one `mets:file`. The file has ID `ALTO_` plus the ALTO id, MIME type text/xml and software tag `DFG-Viewer-5-OCR-` plus the script. Its `FLocat` has LOCTYPE URL. The `mets:fptr`'s FILEID equals the file's ID. |
| FullTextXmlTools.UpdateMetsXml | Classes/Plugin/FullTextXMLtools.php:104-166 | Streams into `newXmlPath-tmp` and then renames that file onto `newXmlPath`. Afterwards `newXmlPath` holds the rewrite of the source stream, the temporary file is gone, and nothing else changes. |
| FullTextXmlTools.WriteMetsXmlIdempotent | Classes/Plugin/FullTextXMLtools.php:70-77 | Writing the METS copy twice is the same as writing it once. An existing path is left alone. A new path receives the document's METS. |
| FullTextXmlTools.WriteMetsXml | Classes/Plugin/FullTextXMLtools.php:70-77 | Creates the file only when nothing exists at the path. |
| FullTextXmlTools.PlaceholderShape | Classes/Plugin/FullTextXMLtools.php:191-220 | `alto` holds `Fulltext` "WIP" and then `Layout`. Layout nests `Page`, `PrintSpace` and one `TextBlock` of nine `TextLine`s, each with one `String`. The CONTENT is a line break for the first eight lines and the text for the last. |
| FullTextXmlTools.BuildPlaceholder | Classes/Plugin/FullTextXMLtools.php:202-210 | The `foreach` appending text lines builds exactly the placeholder tree. |
| FullTextXmlTools.PlaceholderLinesAt | Classes/Plugin/FullTextXMLtools.php:202-210 | The block holds k text lines, and line j carries the placeholder content of line j. |
| FullTextXmlTools.CreatePlaceholderFulltext | Classes/Plugin/FullTextXMLtools.php:191-220 | Saves the placeholder at the path, replacing what was there. Nothing else changes. |
| FullTextGenerator.PageLocalIdInjective | Classes/Plugin/FullTextGenerator.php:44-47 | The page id is the document id, "_" and the page number. The page number can be read back from it, so distinct pages have distinct ids. |
| FullTextGenerator.PagePathsDistinct | Classes/Plugin/FullTextGenerator.php:78-82 | For one document, distinct page numbers give distinct final, in-progress and image paths. |
| FullTextGenerator.LocalAndTempPathsDistinct | Classes/Plugin/FullTextGenerator.php:112-116 | For a document id without '/', the document folder, one page's final file and another page's in-progress file never coincide. |
| FullTextGenerator.StoredPathParsesBack | Classes/Plugin/FullTextGenerator.php:59-82 | The METS registration parses a stored page path back into the page id and the page number. |
| FullTextGenerator.EngineOutputPaths | Classes/Plugin/FullTextGenerator.php:193-214 | In placeholder mode the engine writes under the temp name, and its output (the in-progress file) is moved onto the final path. Otherwise the engine writes the final path directly. |
| FullTextGenerator.OcrCommandShape | Classes/Plugin/FullTextGenerator.php:203-207 | Every OCR command ends by removing the image. With `ocrLock` it first waits on `mkdir` of the lock folder and ends by removing that folder. |
| FullTextGenerator.ExecLineShape | Classes/Plugin/FullTextGenerator.php:208 | The job downloads the image, sleeps the delay, runs the OCR command, and detaches with its output discarded. |
| FullTextGenerator.PageEffectMarksPage | Classes/Plugin/FullTextGenerator.php:175-209 | Generation only adds to what exists, including the document folder, and launches exactly one job. In placeholder mode the page is no longer pending afterwards. |
| FullTextGenerator.GeneratePageOcr | Classes/Plugin/FullTextGenerator.php:175-209 | The server afterwards is the page effect: the folder is created if missing, the placeholder is written in placeholder mode, and the command line is launched. |
| FullTextGenerator.CreatePageFullText | Classes/Plugin/FullTextGenerator.php:152-159 | Generates the page without delay exactly when it is neither done nor in progress. Otherwise nothing changes. |
| FullTextGenerator.CreateBookFullText | Classes/Plugin/FullTextGenerator.php:129-139 | The `for` loop handles pages 1..numPages in order. Each pending page i is generated with delay i * ocrDelay. |
| FullTextGenerator.BookExistingBounds | Classes/Plugin/FullTextGenerator.php:133-138 | The batch adds only the document folder and final page files to what exists. |
| FullTextGenerator.BookRound | Classes/Plugin/FullTextGenerator.php:133-138 | One turn starts page i's job, with delay i * ocrDelay, exactly when the page is neither done nor under way. |
| FullTextGenerator.BookStepBounds | Classes/Plugin/FullTextGenerator.php:133-138 | One turn adds at most the document folder and page i's final file to what exists. |
| FullTextGenerator.BookStepLaunch | Classes/Plugin/FullTextGenerator.php:133-138 | One turn launches one job line exactly when page i is pending, and none otherwise. |
| FullTextGenerator.PendingUnchanged | Classes/Plugin/FullTextGenerator.php:133-138 | Files written for earlier pages and the document folder do not change whether page i is pending. |
| FullTextGenerator.BookLaunchesPendingPages | Classes/Plugin/FullTextGenerator.php:133-138 | For a document id without '/', the batch launches exactly the pages that were pending before it started, in ascending order, page i with delay i * ocrDelay. |
| FullTextGenerator.BookLeavesNothingPending | Classes/Plugin/FullTextGenerator.php:133-138 | In placeholder mode no page 1..numPages is pending after the batch. |
| PageViewPlugin.ImageOfModes | Classes/Plugin/PageView.php:191-234 | Both modes agree on whether the page has an image. Mode 0 takes the lowest group with a non-empty file, any other mode the highest. |
| PageViewPlugin.GetImage | Classes/Plugin/PageView.php:191-234 | The `$i`/`$j`/`$x` loop returns the image the scan direction of the mode selects. |
| PageViewPlugin.GetFulltext | Classes/Plugin/PageView.php:245-286 | As written: the first visited group with a remote file wins, with its MIME type. Otherwise, when a group was visited and the generated file of the request's current page exists, the result is that file's local URL without a MIME type. |
| PageViewPlugin.FulltextOfPageFallback | Classes/Plugin/PageView.php:253-273 | Corrected fallback. A remote full text always wins. A local link names the asked page's own generated file and appears only when that file exists and no visited group has a remote file. There is no link exactly when neither applies. |
| PageViewPlugin.SecondPageGetsCurrentPageFile | Classes/Plugin/PageView.php:271-272 | As written, page p+1 without a remote full text gets page p's local URL whenever p's file exists, and that URL is not page p+1's. |
| PageViewPlugin.OcrEngineValidated | Classes/Plugin/PageView.php:373-385 | The engine is the cookie when it occurs in the engine list, otherwise "default" plus the configured engine. Any fragment of the list is accepted, including "". |
| PageViewPlugin.BookImagesAt | Classes/Plugin/PageView.php:356-359 | The collected map has exactly the keys 1..numPages, each holding that page's OCR-mode image URL. |
| PageViewPlugin.CollectBookImages | Classes/Plugin/PageView.php:356-359 | The `for` loop builds exactly that map. |
| PageViewPlugin.BookRequestUsesPageImages | Classes/Plugin/PageView.php:352-362 | A page request launches one job if the page is pending and none otherwise. In book mode the batch then launches exactly the pages still pending, each with its own OCR-mode image. With placeholders, no page is left pending. |
| PageViewPlugin.GenerateFullText | Classes/Plugin/PageView.php:352-362 | The server afterwards is the page request, followed by the batch in book mode. |
| PageViewPlugin.IndexOfId | Classes/Plugin/PageView.php:434 | `array_search` gives the first index holding the id, or nothing when no index does. |
| PageViewPlugin.NormalisedPageRange | Classes/Plugin/PageView.php:431-435 | A positive or empty page is clamped to [1, numPages], with empty giving 1. Anything else becomes the first index of that physical id, or 0 when the id is absent. |
| PageViewPlugin.ShownContent | Classes/Plugin/PageView.php:441-448 | One image and one full text for each shown page, in order. Each full text is `getFulltext` of that page as written, so its local fallback looks at the current page. The first one equals the corrected `FulltextOfPage`. |
| PageViewPlugin.PageView.Render | Classes/Plugin/PageView.php:410-456 | Without a document of at least one page nothing changes. Otherwise the logical page replaces the page and is cleared, the page is normalised, `double` is clamped to [0, 1], and the images and full texts of the shown pages are collected. The full texts are those of `getFulltext` as written. |
| PageViewControllerModel.GetImage | Classes/Controller/PageViewController.php:625-675 | The `array_pop` loop returns the image the backward scan over the live groups selects. |
| PageViewControllerModel.ImageOfSpec | Classes/Controller/PageViewController.php:630-670 | The image is the highest group with a file after the last group named "" or "0". There is none exactly when no such group has a file. |
| PageViewControllerModel.GetFulltext | Classes/Controller/PageViewController.php:430-454 | The `array_shift` loop returns the full text the forward scan selects. |
| PageViewControllerModel.FulltextOfSpec | Classes/Controller/PageViewController.php:435-449 | The full text is the first group with a file before the first group named "" or "0". There is none exactly when no such group has a file. |
| PageViewControllerModel.FirstPresentSpec | Classes/Controller/PageViewController.php:385-390 | The score group found is the first one present among the page's files. There is none exactly when no group is present. |
| PageViewControllerModel.ScoreOfSpec | Classes/Controller/PageViewController.php:370-419 | A score exists exactly for a METS document whose first present score group holds a file id other than "" and "0". It is that file's location and MIME type. |
| PageViewControllerModel.FindPresentFile | Classes/Controller/PageViewController.php:385-390 | The `foreach` with `break` returns the first present group's file id, or "" when no group is present. |
| PageViewControllerModel.GetScore | Classes/Controller/PageViewController.php:370-419 | Returns the score of the page as characterised above. |
| PageViewControllerModel.MeasuresUpToSpec | Classes/Controller/PageViewController.php:317-350 | The counter counts every measure, so the keys are global positions. A position is kept exactly when its DEFAULT file id loosely equals the page's, with its SCORE begin id. Coordinates and links share keys. Each link carries the last kept measure with that begin id. |
| PageViewControllerModel.MeasureCounters | Classes/Controller/PageViewController.php:323-350 | The counter keys are the positions of the measures on the page, each with its SCORE begin id. |
| PageViewControllerModel.MeasureLinks | Classes/Controller/PageViewController.php:323-350 | Links and coordinates are keyed by the begin ids of the measures on the page. Each comes from the last such measure with that id. |
| PageViewControllerModel.LinksStep | Classes/Controller/PageViewController.php:324-348 | One more measure keeps that invariant. A measure on the page takes over the link of its begin id, and all other links stay. |
| PageViewControllerModel.GetMeasures | Classes/Controller/PageViewController.php:306-358 | The loop computes the measures of the page, and nothing unless the document is METS and the page has a DEFAULT file. |
| PageViewControllerModel.SearchPage | Classes/Controller/PageViewController.php:266 | `array_search` with loose `==` returns the first index whose page equals the value, or false when none does. |
| PageViewControllerModel.ConvertRoundTrip | Classes/Controller/PageViewController.php:259-270 | A page converts to its first measure, or to null when it has none. That measure converts back to the page unless it is measure 0, which reads as empty. A measure converted to a page and back gives the first measure on the same page. |
| PageViewControllerModel.MaxKey | Classes/Controller/PageViewController.php:281 | The largest key is one of the keys and no key exceeds it. |
| PageViewControllerModel.AddDocumentKeepsSources | Classes/Controller/PageViewController.php:276-297 | Only for a valid URL, the new source gets a key above every existing key, or 0 when there are none. Every old source is kept. |
| PageViewControllerModel.ClampedStaysInRange | Classes/Controller/PageViewController.php:183-206 | Next and previous lie in [1, count] and move by one where they can. With count < 1 both are count, so (0, 0) for a document without pages or measures. |
| PageViewControllerModel.ParamsUpTo | Classes/Controller/PageViewController.php:175-181 | After visiting the first k documents, each visited document's page and measure are its own conversion's result. Later documents are untouched. |
| PageViewControllerModel.NavigationStep | Classes/Controller/PageViewController.php:183-236 | One visit appends the document's record: its page and measure navigation and its page count. It records a measure navigation only when the document has measures. |
| PageViewControllerModel.NavigationInRange | Classes/Controller/PageViewController.php:163-250 | Page navigation stays within each document's pages. Measure navigation stays within [1, numMeasures], or is (0, 0) without measures. Page navigation is (0, 0) for a document without pages. Per-document measure navigation exists exactly for documents with measures. |
| PageViewControllerModel.VisitDocuments | Classes/Controller/PageViewController.php:173-238 | The `foreach` computes exactly the converted parameters and the navigation of all documents. |
| PageViewControllerModel.VisitDocument | Classes/Controller/PageViewController.php:174-236 | One turn converts only the current document's page or measure and appends its navigation, so the loop state after i turns is that of the first i documents. |
| PageViewControllerModel.AssembleAt | Classes/Controller/PageViewController.php:183-236 | The navigation of a sequence of document records has one entry per document, equal to that document's record. A measure entry exists exactly for the documents with measures. |
| PageViewControllerModel.DocNavInRange | Classes/Controller/PageViewController.php:183-236 | A single document's page navigation lies within its pages. Its measure navigation lies within its measures. Each is (0, 0) when the document has none. |
| PageViewControllerModel.PageViewController.MultipageNavigation | Classes/Controller/PageViewController.php:163-250 | Replaces the document parameters and the navigation by their converted values. Nothing else changes. |
| PageViewControllerModel.PageViewController.MainAction | Classes/Controller/PageViewController.php:94-157 | Without a document of at least one page nothing changes. Otherwise `double` is clamped, the shown pages' images and full texts, the score and the measures are collected, and the navigation is built in the multi-document view. |
| PageViewControllerModel.ShownContent | Classes/Controller/PageViewController.php:124-131 | One image and one full text for each shown page, in order. |
| SearchResultRegion.NewRegion | Classes/Common/Solr/SearchResult/Region.php:90-101 | xBegin + width = xEnd and yBegin + height = yEnd. The id and every corner, the page and the text are kept as given. |
| SearchResultRegion.NewRegionBijective | Classes/Common/Solr/SearchResult/Region.php:110-209 | The getters give back exactly the constructor's inputs. Different inputs give different regions. Every consistent region is built from its own fields. |
| SearchResultRegion.RegionExtent | Classes/Common/Solr/SearchResult/Region.php:98-99 | The width is zero or positive exactly when the x corners are equal or ordered, and the same holds for the height. |
| OrcidClient.EndpointUrlParts | Classes/Api/Orcid/Client.php:118-125 | The URL starts with `https://` plus the level plus `.orcid.org/v3.0/`. The iD follows verbatim, and the URL ends with "/" and the endpoint. |
| OrcidClient.EndpointUrlInjective | Classes/Api/Orcid/Client.php:118-125 | Different iDs, or different endpoints without '/', never give the same URL. |
| OrcidClient.Client.constructor | Classes/Api/Orcid/Client.php:78-83 | The iD is stored unchanged. The endpoint is "record" and the level is "pub". |
| OrcidClient.Client.SetEndpoint | Classes/Api/Orcid/Client.php:92-94 | Only the endpoint changes. |
| OrcidClient.Client.GetApiEndpoint | Classes/Api/Orcid/Client.php:118-125 | The concatenation builds the endpoint URL of the current fields. |
| OrcidClient.DefaultUrl | Classes/Api/Orcid/Client.php:51-57 | A fresh client asks for `https://pub.orcid.org/v3.0/<iD>/record`. |

## Findings

| source | as written | input that shows it | evidently intended | confidence | as-written member | corrected member |
|---|---|---|---|---|---|---|
| Classes/Plugin/PageView.php:271-272 | The local fallback of `getFulltext($page)` checks and links the generated file of the request's current page (`piVars['page']`), not of `$page`. | A double-page view of page p < numPages, where page p+1 has no remote full text and page p's generated file exists. `fulltexts[1]` links page p's file. | The fallback looks at `$page`, so each shown page links its own generated file. | not executed | PageViewPlugin.SecondPageGetsCurrentPageFile | PageViewPlugin.FulltextOfPageFallback |

`PageViewPlugin.GetFulltext`, `ShownContent` and `PageView.Render` keep the code as written. `FulltextOfPage` is the corrected lookup, with the local fallback on the page asked for.

## Left out

- Loading and parsing METS or IIIF documents is not modelled. A document is a value holding its pages, files by group, file infos and measures. `getPhysicalPage` for a logical page is a parameter of `Render`.
- Proxy URL building (`typoLink_URL`, `hmac`, `configureProxyUrl`) is left out: URLs are the files' locations. With `useInternalProxy` on, the real URLs are proxy links instead.
- Logging, `view->assign`, templates, `addViewerJS`, `addInteraction`, `addBasketForm` and the map controls are presentation only.
- IIIF annotation containers and the verovio annotations are left out. They depend on a foreign IIIF library.
- `mainAction`'s redirect for `multiViewType` and the controller's `setPage` are not part of this model, because they live in the abstract controller. `page` is taken as already set. `isDocMissingOrEmpty` is read as "no document or fewer than one page".
- `getScore`'s `pagebeginning` is left out. It comes from a foreign document method.
- The variants of `getImage`, `getScore` and `getMeasures` that take a specific document are left out. So is the measure link URI; the model keeps the measure number the link carries.
- `addDocumentAction` takes URL validity as a parameter. Its redirect is not modelled. Source keys are integers.
- Shell execution, `wget`, the OCR engine and `mkdir`/`rm` of folders run outside. Only the command lines and the files written before `exec` are modelled. No mutual exclusion is claimed for the lock folder.
- The cookie, `$_POST`, `HTTP_HOST`, the engine-list file (`parseOCRengines`), `setcookie`, the extension configuration and the current date are parameters.
- XML reader and writer mechanics are abstracted. Indentation, whitespace nodes and the reader positioning in the branch where a FULLTEXT group is present become event streams. In that branch, "a FULLTEXT group directly after the `fileSec` start" is what triggers the new file entry.
- Writing the METS text over a directory (`fopen` fails and the script dies) is not modelled; the write is skipped whenever the path exists.
- The extra engine argument `generateFullText` passes to `createPageFullText` is dropped, because PHP ignores it. The return value of `createPageFullText` is unused and not modelled.
- `generateFullText` runs in `main` before the document check, with the raw page. It is modelled on its own, for a page number, and `Render` starts from the document check.
- PHP integers are 64-bit; page, measure and delay numbers are unbounded here.
- `FullTextGenerator.Config`: `ocrDelay` is a natural number. The code multiplies the configured value as given, so a fractional delay such as 1.5 seconds is not modelled.
- `PageViewPlugin.PageView.Render`: a physical id that is not found is stored as page 0. PHP stores `false`, which indexes and compares like 0 but prints as "". The local fallback's path for it is then `<id>_.xml` in PHP and `<id>_0.xml` here.
- `forceIntegerInRange` and `trimExplode` are TYPO3 library calls. They are written out with the behaviour the code relies on. The clamp replaces a zero by the default, raises to the minimum, then lowers to the maximum, so an empty range gives the maximum.
- `Php.IntCast`: the value of a fractional or exponent numeral is exact here. PHP converts it through a float, so it rounds beyond 2^53, and an infinite or out-of-range result such as "1e400" becomes 0; other results outside the 64-bit range are unspecified in PHP.
- Loose `==` on request values covers null, integers, and strings of decimal digits. Numeric strings with white space, signs, decimals or exponents are not modelled.
- `IndexOfId` compares physical ids as plain strings. PHP would compare two numeric strings by value.
- `Region` takes integer coordinates and a string text. PHP does not type them.
- The ORCID iD is a string; null is not modelled. `getData`, the logger and the request factory are network plumbing.
- `PageViewPlugin.PageView.Render` and `PageViewControllerModel.PageViewController.MainAction` state what the shown pages receive, but not the annotation containers.
