# pdfvert in Dafny

A model of the core of pdfvert, a small Flask site of file converters. It covers:

- the `TOOLS` registry of eleven converters;
- the `/tool/<slug>` handler: registry lookup, the upload form on GET, the
  upload size limit, the check for an empty selection, the loop that saves
  the uploads under `uploads/`, the dispatch on the slug, and the `finally`
  loop that removes the saved files again;
- the text layout of the word-to-pdf converter: a cursor that moves down the
  page 14 points per line and starts a new page below the 60-point margin;
- the generated `robots.txt` and `sitemap.xml`;
- the `MAX_CONTENT_LENGTH` arithmetic and the text of the 413 response.

Modules, one per part of `app.py`:

| module | file | form |
|---|---|---|
| `Text` | `text.dfy` | functions with Python's meaning of `strip`, `split`, `join`, `rstrip` and slicing |
| `Registry` | `registry.dfy` | the `TOOLS` constants, lookup, and the dispatch chain as a function from slug to mimetype, download name and inputs read |
| `Limits` | `limits.dfy` | the megabyte arithmetic and the decimal rendering of the 413 message |
| `SiteText` | `site_text.dfy` | `robots()` as a function and `sitemap()` as a method with its append loop |
| `Layout` | `layout.dfy` | a `Canvas` class with `drawString`/`showPage`, the word-to-pdf loops as methods proved against the functions `Paragraphs` and `Layout`, and lemmas about placement, content and pagination |
| `FileStore` | `file_store.dfy` | the upload folder as a `FileSystem` class holding a map from path to bytes; `save`, `exists`, `remove` and the cleanup loop |
| `Pipeline` | `pipeline.dfy` | the handler: `Tool` is a method on a `FileSystem`, proved equal to the function `Handle`, and the lemmas about `Handle` |

The handler calls code whose source is not part of this model: werkzeug's
`secure_filename` and `FileStorage.save`, whether `os.remove` succeeds, the
conversion libraries, python-docx, and reportlab's PDF writer. Each is a
field of the `Pipeline.Env` datatype, a total function the proofs know
nothing about. Every property below therefore holds for any behaviour of
those libraries that depends only on the arguments of the call: a second
`os.remove` of a path gets the same answer as the first, and saving the
same bytes to the same path has the same outcome each time. A conversion
or a document reader that raises is a `None` result. A save outcome is `Written`, `Refused` (raised before the file was
created) or `Interrupted` (raised after part of the file was written).

Four behaviours of the code are worth stating:

- Once every upload is saved, the response is a download of exactly the
  bytes the slug's conversion produced, under its branch's mimetype and
  name (`Pipeline.SuccessDownloads`). A conversion that raises leaves the
  handler through the `finally` block as a server error (500); past the
  early exits, a 500 means that a save or the conversion raised and
  nothing else (`Pipeline.ServerErrorExactly`). The closing `abort(400)` is
  never reached:
  `Pipeline.NeverBadRequest` proves that every slug which passes the lookup
  has a branch in the dispatch chain.
- The sitemap has `len(TOOLS) + 5` lines: the XML declaration, the opening
  `urlset` tag, `len(TOOLS) + 2` entries and the closing tag.
- HEAD requests, which Flask accepts on every GET route, fail the test
  `request.method == 'GET'` and take the upload path. Without files they
  are redirected instead of receiving the form (`Pipeline.HeadRedirects`).
- A save that raises after creating its file leaves a partial file in the
  upload folder when no earlier upload of the request was saved under the
  same path. That path never reached `saved`, so the `finally` loop does not
  remove it (`Pipeline.InterruptedSaveLeaks`, for the first upload). When an
  earlier upload was written to the same path, the path is in `saved` and
  the loop removes it, partial file and all
  (`Pipeline.CollidingInterruptedSaveRemoved`).

## Model

| member | source | states |
|---|---|---|
| Text.IsSpace | app.py:137 | the characters `strip()` removes are those for which `str.isspace()` holds: blank, tab, newline and carriage return among them, no visible ASCII character |
| Text.TrimStart | app.py:137 | the result is a suffix of the input, everything cut off is white space, and it does not start with white space |
| Text.TrimEnd | app.py:137 | the result is a prefix of the input, everything cut off is white space, and it does not end with white space |
| Text.Strip | app.py:137 | `strip()` is never longer than the text, and returns it unchanged exactly when it neither starts nor ends with white space |
| Text.StripIsTrimmedSlice | app.py:137 | `strip()` returns a contiguous slice of the paragraph text |
| Text.StripEndsNotSpace | app.py:137 | a non-empty stripped text neither starts nor ends with white space |
| Text.StripEmptyIffBlank | app.py:137-138 | `not text` holds exactly when the paragraph is all white space |
| Text.Split | app.py:143 | `split('\n')` yields at least one piece and no piece holds the separator |
| Text.JoinSplit | app.py:143 | joining the pieces of a split with the separator gives the text back |
| Text.SplitNoSep | app.py:143 | a text without the separator splits into itself alone |
| Text.SplitAppend | app.py:143 | splitting `a + sep + b` gives `a` followed by the pieces of `b` |
| Text.SplitJoin | app.py:50 | splitting a `"\n".join` gives back the joined parts when none holds a newline |
| Text.Join | app.py:50 | `"\n".join(lines)` starts with the first line, has the separator right after it when there are two lines or more, and so holds no separator only for at most one line; the sitemap at app.py:62 joins the same way |
| Text.RStrip | app.py:48 | `rstrip('/')` keeps a prefix that does not end with `/` and removes only `/` characters |
| Text.Prefix | app.py:144 | `line[:110]` is a prefix of the line: the whole line when it has at most 110 characters, otherwise exactly its first 110 |
| Registry.Slugs | app.py:21-33 | the registry has one slug per descriptor |
| Registry.SlugsListed | app.py:21-33 | the slugs are the eleven keys of `TOOLS` in insertion order, as the constant `Registry.Keys` lists them |
| Registry.SlugsSingleLine | app.py:21-33 | no slug holds a line break |
| Registry.SlugsDistinct | app.py:21-33 | no two entries share a slug |
| Registry.IndexOf | app.py:92 | the search finds a position holding the slug exactly when the slug is present, and no earlier position holds it |
| Registry.Lookup | app.py:92-94 | the lookup fails exactly for slugs not in `TOOLS`; otherwise it returns a descriptor registered under that slug |
| Registry.LookupRegistered | app.py:94 | `TOOLS[slug]` is the descriptor listed under that slug in the constant `Registry.Values`, which holds the title, accept, multiple and desc entries of app.py:22-32 in key order |
| Registry.Dispatch | app.py:113-211 | the `if slug == …` chain gives a mimetype, a download name and the files read for a slug exactly when the slug is one of the keys of `TOOLS` (app.py:22-32); otherwise it falls through to `abort(400)` |
| Registry.DispatchCoversRegistry | app.py:114-211 | the dispatch chain has a branch for a slug exactly when the slug is registered |
| Registry.AllInputsOnlyForMergeAndPngToPdf | app.py:114-211 | only `merge-pdf` and `png-to-pdf` read every saved file; every other branch reads `saved[0]` |
| Registry.DownloadNameSplits | app.py:114-211 | every download name is a stem, a dot and an extension whose conventional media type is the branch's mimetype |
| Registry.MimetypeMatchesExtension | app.py:114-211 | the mimetype of every download is the conventional media type of its name's extension |
| Limits.MaxContentLength | app.py:19 | `MAX_FILE_SIZE_MB * 1024 * 1024` is a whole number of mebibytes, exactly `MAX_FILE_SIZE_MB` of them |
| Limits.FloorDiv | app.py:225 | Python's `//` by a positive divisor gives the floor of the quotient |
| Limits.ReportedMegabytes | app.py:225 | `limit // 1024 // 1024` is the number of whole mebibytes in the limit |
| Limits.LimitRoundTrip | app.py:19 | the megabyte figure of the 413 message equals the configured `MAX_FILE_SIZE_MB`, for every integer setting |
| Limits.DigitChar | app.py:225 | a digit below ten becomes the decimal digit character of that value |
| Limits.NatDecimal | app.py:225 | an integer is rendered as a non-empty run of decimal digits with no leading zero |
| Limits.NatDecimalValue | app.py:225 | the digits of a natural number read back as that number |
| Limits.DecimalString | app.py:225 | `str(n)` starts with a minus sign exactly when `n` is negative, and the rest is a non-empty run of decimal digits whose first digit is a zero only for zero itself |
| Limits.LeadingDigitPositive | app.py:225 | a digit run that does not start with a zero reads as a positive number |
| Limits.NatDecimalOfDigits | app.py:225 | a digit run with no leading zero is the decimal text of the number it reads as |
| Limits.DecimalStringUnique | app.py:225 | `str(n)` is the only text of `n` in that form: any figure with at most a minus sign, no leading zero and value `n` is `str(n)` |
| Limits.DecimalRoundTrip | app.py:225 | the decimal text of any integer, sign included, reads back as that integer |
| Limits.TooLargeMessage | app.py:225 | the 413 body is `File too large. Max is <figure> MB` with a figure in the form `str` gives, reading back as the limit in whole megabytes; by `DecimalStringUnique` the figure is `str` of that number |
| Limits.TooLargeMessageNamesLimit | app.py:223-225 | the 413 body is `File too large. Max is <figure> MB`, the figure reads back as the configured megabytes, and it is `str(MAX_FILE_SIZE_MB)` |
| SiteText.Base | app.py:56 | the base URL does not end with `/`, and it has no line break when the site URL has none |
| SiteText.RobotsLines | app.py:45-49 | `robots.txt` has three lines, each without a line break when the site URL has none |
| SiteText.Robots | app.py:45-50 | the body opens with `User-agent: *`, `Allow: /` and `Sitemap: ` on their own lines and ends with `/sitemap.xml` |
| SiteText.RobotsShape | app.py:43-52 | `robots.txt` reads back as exactly three lines, the last being `Sitemap: <base>/sitemap.xml` with the base a prefix of the site URL that does not end with `/`, so the path has no doubled slash |
| SiteText.SitePaths | app.py:57 | the listed paths are `/`, `/how-to-use`, then `/tool/<slug>` for each slug in registry order |
| SiteText.Sitemap | app.py:54-64 | the body is the header, one `<url><loc>` entry per path, and the closing tag, joined with newlines |
| SiteText.UrlLine | app.py:60 | an entry is the page URL, base followed by path, between `<url><loc>` and `</loc></url>` |
| SiteText.SitemapLines | app.py:58-61 | the parts are the two header lines, then the entry for the k-th path at position k + 2, then `</urlset>` last: `len(urls) + 3` parts |
| SiteText.SitemapParts | app.py:58-61 | the append loop builds the header followed by one entry per path and the closing tag |
| SiteText.UrlLineSingle | app.py:60 | an entry is one line when its base and path have no line break |
| SiteText.XmlDeclarationSingleLine | app.py:58 | the XML declaration is one line |
| SiteText.UrlsetOpeningSingleLine | app.py:58 | the opening `urlset` tag is one line |
| SiteText.SitemapLinesSingle | app.py:58-61 | no part of the sitemap holds a line break |
| SiteText.SitemapShape | app.py:56-62 | the sitemap reads back as `len(slugs) + 5` lines: the header, `/`, `/how-to-use`, each tool page in order, and the closing tag |
| SiteText.RegistrySitemapShape | app.py:56-62 | the sitemap of the real registry has `len(TOOLS) + 5` lines |
| Layout.Start | app.py:133-135 | a fresh canvas has one open page with nothing drawn, and the cursor starts on the top line `height - 40` |
| Layout.Advance | app.py:139-141 | a step draws nothing: it either keeps the open page as it is, or closes it and opens an empty one |
| Layout.DrawLine | app.py:144-147 | the line cut to 110 characters is drawn at x = 40 at the cursor height, on the open page or on the page the following step closes |
| Layout.DrawLines | app.py:143-147 | the inner loop never reopens or alters a closed page |
| Layout.Paragraph | app.py:137-147 | one paragraph never reopens or alters a closed page |
| Layout.StrippedParagraph | app.py:138-147 | the text of one paragraph after `strip()`, blank or not, never reopens or alters a closed page |
| Layout.Paragraphs | app.py:136-147 | the outer loop never reopens or alters a closed page |
| Layout.Layout | app.py:133-148 | the PDF writer receives one page more than the loop closed, the open page included, so always at least one |
| Layout.Canvas.constructor | app.py:133 | a new canvas has no closed pages and an empty open page |
| Layout.Canvas.DrawString | app.py:144 | a draw is appended to the open page and nothing else changes |
| Layout.Canvas.ShowPage | app.py:141 | the open page is closed and a new empty page opens |
| Layout.Step | app.py:145-147 | `y -= 14`, then a new page and `y = height - 40` when `y < 60` |
| Layout.DrawParagraphLines | app.py:143-147 | the inner loop leaves canvas and cursor as `DrawLines` says: each line is drawn at the cursor, cut to 110 characters, and followed by a step |
| Layout.RenderParagraph | app.py:137-147 | one pass of the loop: a blank paragraph moves the cursor one step, any other has each of its lines drawn, as `Paragraph` says |
| Layout.ParagraphsSnoc | app.py:136 | the outer loop over one more paragraph is one more pass |
| Layout.RenderParagraphs | app.py:133-148 | the word-to-pdf loop produces exactly the pages of `Layout`: a blank paragraph steps once, any other draws its lines |
| Layout.AdvancePlaced | app.py:139-141 | a cursor step keeps the cursor in its band and the pages well placed |
| Layout.DrawLinePlaced | app.py:144-147 | drawing a line and stepping keeps the pages well placed |
| Layout.DrawLinesPlaced | app.py:143-147 | the inner loop keeps the pages well placed |
| Layout.ParagraphsPlaced | app.py:136-147 | from the start of the document, the outer loop keeps the pages well placed |
| Layout.LayoutWellPlaced | app.py:135-147 | every draw is at x = 40, within the cursor band, at most 110 characters long, and at least 14 points below the previous draw on its page |
| Layout.LayoutWithinMargins | app.py:135-147 | on a page at least 100 points tall, every draw lies between y = 60 and `height - 40` |
| Layout.CursorWithinMargins | app.py:135-147 | on a page at least 100 points tall, the cursor stays between y = 60 and `height - 40` |
| Layout.AdvanceKeepsTexts | app.py:139-141 | a cursor step, with or without a new page, draws nothing |
| Layout.BlankParagraphDrawsNothing | app.py:137-142 | a blank paragraph moves the cursor one step and draws nothing |
| Layout.DrawLinesTexts | app.py:143-145 | the inner loop draws the paragraph's lines in order, each cut to 110 characters |
| Layout.ParagraphsTexts | app.py:136-145 | the outer loop draws the expected lines, paragraph by paragraph |
| Layout.LayoutDrawsExpectedLines | app.py:136-147 | the pages, read in order, hold exactly the lines of the non-blank paragraphs, each cut to 110 characters |
| Layout.PageCapacity | app.py:139-141 | the number of cursor steps that fit on a page: the last step on a page is at or above y = 60, and one more step falls below it |
| Layout.AdvanceStep | app.py:139-141 | after `n` steps the cursor has closed `n / C` pages and stands `n % C` lines below the top line; one more step keeps this |
| Layout.DrawLinesSteps | app.py:143-147 | drawing `k` lines takes `k` steps |
| Layout.StartAtStep | app.py:135 | a fresh cursor is at step zero |
| Layout.ParagraphStep | app.py:136-147 | a paragraph takes one step when blank and one per line otherwise |
| Layout.ParagraphsSteps | app.py:136-147 | after the outer loop the cursor is at the document's total step count |
| Layout.LayoutPageCount | app.py:135-148 | the document has `steps / C + 1` pages, and the cursor ends `steps % C` lines below the top line |
| FileStore.AfterSave | app.py:110 | a refused save leaves the folder alone; any other save creates the path; a full save stores the upload; no other path changes |
| FileStore.RemoveEach | app.py:215-219 | the removal loop only deletes, never changes a file it keeps, and keeps every path it was not given; the same loop is `cleanup` at app.py:83-88 |
| FileStore.RemoveEachIsDifference | app.py:83-88 | the removal loop removes exactly the listed paths whose removal succeeds; a failure does not stop it and a repeated path is harmless |
| FileStore.FileSystem.Exists | app.py:86 | `os.path.exists(p)` holds exactly when `p` is in the folder |
| FileStore.FileSystem.Save | app.py:110 | the folder after `f.save(path)` is `AfterSave`, and the call returns normally only for a full write |
| FileStore.FileSystem.Remove | app.py:85-88 | a successful removal deletes exactly that path; a failed one changes nothing |
| FileStore.FileSystem.Cleanup | app.py:83-88 | afterwards the folder is the old folder minus the removable listed paths |
| Pipeline.UploadPath | app.py:108-109 | every upload path lies inside `uploads/` and is named by the sanitised file name |
| Pipeline.SaveAll | app.py:105-111 | `saved` holds one path per upload saved so far, in upload order, each `uploads/<sanitised name>` and fully written; the loop stops early exactly when a save raises; every saved path exists |
| Pipeline.SaveAllFailsOnRaise | app.py:106-111 | when the loop stops early, it stopped on the first upload whose save raised |
| Pipeline.SaveAllKeepsFiles | app.py:107-111 | the save loop removes no file |
| Pipeline.SaveAllFrame | app.py:107-111 | the save loop touches only the upload paths of the request |
| Pipeline.SaveAllInterruptedLeaves | app.py:110-111 | a save that raises after creating its file leaves that file behind |
| Pipeline.SaveOne | app.py:108-111 | one pass touches no path but the upload's, `saved` grows by at most one path, the loop stops exactly when `saved` did not grow, and when it goes on the path appended is the upload's path |
| Pipeline.SaveOneExtends | app.py:110-111 | one pass appends the path exactly when the save went through and keeps every saved path present |
| Pipeline.SaveOneInOrder | app.py:108-111 | a pass appends the next upload's path only when its save went through, keeping `saved` in upload order |
| Pipeline.SaveAllStep | app.py:107-111 | while no save has raised, each pass extends the loop by one upload |
| Pipeline.FailedSaveStops | app.py:106-111 | once a save raises, the remaining uploads are not looked at |
| Pipeline.SaveUploads | app.py:105-111 | the loop leaves `saved`, the error flag and the folder as `SaveAll` says |
| Pipeline.WordToPdf | app.py:130-149 | a document that cannot be read gives no PDF; otherwise the PDF is the writer's output for pages holding exactly the cut lines of the non-blank paragraphs, in order |
| Pipeline.ReadInputs | app.py:115-203 | a conversion reads `saved[0]` alone, or every saved file in `saved` order, and each input is the current content of its path |
| Pipeline.ConversionBody | app.py:113-211 | word-to-pdf runs its routine on the first saved file; every other tool hands its converter the inputs its branch reads |
| Pipeline.Convert | app.py:113-211 | the dispatch answers 400 exactly when no branch matches the slug; otherwise a server error exactly when the conversion raises, and a download of the conversion's bytes under the branch's mimetype and name |
| Pipeline.RunConversion | app.py:113-211 | the dispatch produces the response `Convert` describes: the branch's mimetype and name around the converter's bytes, or a server error |
| Pipeline.Handle | app.py:90-221 | the handler answers 404 exactly for a slug that is not in `TOOLS`, and the form exactly for a GET of one that is |
| Pipeline.Process | app.py:105-219 | the `try`/`finally` part ends in a download, a server error or the 400; a download needs every upload saved; the folder afterwards holds only paths present after the save loop |
| Pipeline.Tool | app.py:90-221 | the handler returns the response and leaves the folder as `Handle` says |
| Pipeline.UnknownSlugIsNotFound | app.py:92-93 | an unknown slug is a 404 and leaves the folder alone |
| Pipeline.GetRendersDescriptor | app.py:94-99 | a GET renders the registry's title, accept filter, multiple flag and description unchanged, and writes nothing |
| Pipeline.TooLargeWritesNothing | app.py:223-225 | a body over the limit is answered by the 413 message naming the configured megabytes, and nothing is written |
| Pipeline.EmptySelectionRedirects | app.py:102-104 | no files, or a first file with an empty name, redirects to the same URL and writes nothing |
| Pipeline.HeadRedirects | app.py:98-104 | HEAD is not `'GET'`, so a HEAD of a registered tool with no files is redirected instead of seeing the form, and writes nothing |
| Pipeline.EarlyExit | app.py:92-104 | a request that stops before the save loop gets a 404, the form, a 413 or a redirect, and the folder is unchanged |
| Pipeline.ReachesProcess | app.py:92-111 | a request that passes every check goes through the save loop, the dispatch and the cleanup |
| Pipeline.CleanupOnEveryExit | app.py:213-219 | on every exit path the folder afterwards is the folder after the save loop minus every removable saved path |
| Pipeline.NoSavedPathSurvives | app.py:213-219 | no saved path survives the request unless its removal fails |
| Pipeline.OtherFilesUntouched | app.py:105-219 | a path that no upload of the request maps to is left as it was, present or absent |
| Pipeline.InterruptedSaveLeaks | app.py:106-219 | a first save that raises after creating its file yields a server error and leaves that file in the folder |
| Pipeline.CollidingInterruptedSaveRemoved | app.py:106-219 | when an earlier upload was written to the same path, an interrupted save does not leak: the path is in `saved`, so the `finally` loop removes it with the partial file |
| Pipeline.WrittenThenInterrupted | app.py:107-111 | a written upload followed by an interrupted one ends the loop as failed with the first path alone in `saved` |
| Pipeline.SuccessDownloads | app.py:105-211 | when every upload is saved and the conversion produces bytes, the response is a download of exactly those bytes under the branch's mimetype and name |
| Pipeline.ServerErrorExactly | app.py:105-219 | past the early exits, the response is a 500 exactly when a save raised or the conversion raised |
| Pipeline.NeverBadRequest | app.py:221 | the handler never answers 400 |
| Pipeline.DownloadMatchesDispatch | app.py:114-211 | a download happens only when every upload was saved, and it carries the mimetype and name of the slug's branch |
| Pipeline.DistinctPathsReadUploads | app.py:122-125 | when the uploads map to distinct paths, a tool reading all inputs receives the uploaded contents in upload order |
| Pipeline.DistinctSavesKeepContents | app.py:107-111 | when the uploads map to distinct paths, each saved path holds its own upload |
| Pipeline.CollidingPathsReadLatest | app.py:107-111 | two uploads whose names sanitise to the same path leave only the second, so a tool reading all inputs gets it twice |

## Left out

- Conversion internals: pikepdf, `PdfMerger`, PIL, rembg, moviepy and reportlab's rendering are foreign libraries. They are `Env.convert`, `Env.readDocument` and `Env.writePdf`, which return bytes or fail.
- `secure_filename` is werkzeug code. It is `Env.sanitize`, an arbitrary function from names to names. The upload path is `uploads/` followed by its result; the case where `os.path.join` drops the folder for an absolute name is not modelled.
- `FileStorage.save` is `Env.save`: its outcome is a parameter, because its failures depend on the operating system.
- Whether `os.remove` succeeds is the predicate `Env.removable`.
- Scratch temporary files of the audio and video converters are not modelled. They are OS I/O, and the code removes them only when the conversion succeeds.
- Floating point: the A4 page height is an integer parameter. The clip duration `min(10, clip.duration or 10)` of video-to-gif belongs to the converter.
- reportlab's treatment of an empty last page: the layout hands every page to `Env.writePdf`, including an empty open page.
- Library calls that answer differently to the same arguments, such as an `os.remove` that fails once and succeeds on a second try, are not modelled: each `Env` field is a function of its arguments.
- Concurrency between requests sharing the upload folder is not modelled; the model handles one request at a time.
- Flask plumbing is not modelled: templates, `send_file`/`send_bytesio`, `redirect`, `make_response`, response headers, the context processor and `app.run`. Responses are the `Pipeline.Response` datatype.
- The routes `/`, `/how-to-use` and `/favicon.ico` only render templates or send a static file, and are not modelled.
- The page title and description strings of the tool page and of the index and guide pages are presentation text, and are not modelled.
- `config.py` is constants only. `SITE_URL` and `MAX_FILE_SIZE_MB` are parameters; the ad settings are not modelled.
- Pipeline.TooLargeWritesNothing: werkzeug raises the 413 when the form is parsed (app.py:102), by comparing the declared body length with `MAX_CONTENT_LENGTH`. The model makes that comparison at the same point, on `Request.contentLength`. A streamed body without a declared length is not modelled.
- `os.makedirs(UPLOAD_FOLDER)` at start-up is not modelled: the folder is a map from paths to contents and has no directories.
- Registry.Slugs: its contract states only the length. The slugs themselves are stated by `Registry.SlugsListed`.
