/** The `/tool/<slug>` handler: registry lookup, the form on GET, the upload
    size limit, validation of the file list, the save loop, the dispatch on
    the slug and the `finally` cleanup of the saved uploads.

    Everything the handler delegates to code outside this file (werkzeug's
    `secure_filename` and `FileStorage.save`, whether `os.remove` succeeds,
    the conversion libraries, python-docx and reportlab's PDF writer) is a
    field of `Env`: a total function the model knows nothing about. */
module Pipeline {

  import opened Wrappers
  import opened FileStore
  import Registry
  import Limits
  import Layout

  const UploadFolder: string := "uploads"

  /** The methods the route answers: Flask adds HEAD to every rule that
      lists GET, and the view then sees `request.method == 'HEAD'`. */
  datatype HttpMethod = Get | Head | Post

  /** One part of the `file` form field: the client's file name and the
      uploaded bytes. */
  datatype Upload = Upload(filename: string, content: Bytes)

  /** What the handler reads of a request: its method, its own URL, the
      declared body size and `request.files.getlist('file')`. */
  datatype Request = Request(httpMethod: HttpMethod, url: string, contentLength: nat, uploads: seq<Upload>)

  datatype Response =
    | NotFound                      // abort(404)
    | Form(slug: string, title: string, accept: string, multiple: bool, desc: string)
    | Redirect(location: string)
    | TooLarge(message: string)     // the 413 handler's body
    | Download(mimetype: string, filename: string, body: Bytes)
    | ServerError                   // an exception escaping the handler
    | BadRequest                    // abort(400)

  datatype Env = Env(
    sanitize: string -> string,
    save: (Path, Bytes) -> SaveOutcome,
    removable: Path -> bool,
    convert: (string, seq<Bytes>) -> Option<Bytes>,
    readDocument: Bytes -> Option<seq<string>>,
    writePdf: seq<Layout.Page> -> Option<Bytes>,
    pageHeight: int)

  /** `os.path.join(UPLOAD_FOLDER, secure_filename(name))`: a path inside
      the upload folder, named by the sanitised file name. */
  function UploadPath(name: string, env: Env): (path: Path)
    ensures |path| > |UploadFolder| && path[..|UploadFolder| + 1] == UploadFolder + "/"
    ensures path[|UploadFolder| + 1..] == env.sanitize(name)
  {
    UploadFolder + "/" + env.sanitize(name)
  }

  /** The paths the uploads of a request are saved under. */
  function UploadPaths(uploads: seq<Upload>, env: Env): set<Path> {
    set u | u in uploads :: UploadPath(u.filename, env)
  }

  /** The state of the save loop: the folder, `saved`, and whether a save
      raised. */
  datatype Saving = Saving(files: FileMap, saved: seq<Path>, failed: bool)

  /** The save loop: each upload in order is saved under its path and its
      path appended to `saved`; the first save that raises ends the loop. */
  function SaveAll(files: FileMap, uploads: seq<Upload>, env: Env): (s: Saving)
    ensures |s.saved| <= |uploads|
    ensures !s.failed <==> |s.saved| == |uploads|
    ensures forall k :: 0 <= k < |s.saved| ==>
              s.saved[k] == UploadPath(uploads[k].filename, env)
              && env.save(s.saved[k], uploads[k].content) == Written
    ensures forall p :: p in s.saved ==> p in s.files
    decreases |uploads|
  {
    if uploads == [] then Saving(files, [], false)
    else
      var init := uploads[..|uploads| - 1];
      var u := uploads[|uploads| - 1];
      var s := SaveAll(files, init, env);
      if s.failed then
        assert forall k :: 0 <= k < |init| ==> uploads[k] == init[k];
        s
      else
        var r := SaveOne(s, u, env);
        assert r.failed == (env.save(UploadPath(u.filename, env), u.content) != Written)
               && r.saved == (if r.failed then s.saved else s.saved + [UploadPath(u.filename, env)])
               && forall p :: p in r.saved ==> p in r.files by {
          SaveOneExtends(s, u, env);
        }
        assert forall k :: 0 <= k < |r.saved| ==>
                 r.saved[k] == UploadPath(uploads[k].filename, env)
                 && env.save(r.saved[k], uploads[k].content) == Written by {
          SaveOneInOrder(s, init, u, env);
          assert uploads == init + [u];
        }
        r
  }

  /** When the loop stops early, it is on an upload whose save raised. */
  lemma {:induction false} SaveAllFailsOnRaise(files: FileMap, uploads: seq<Upload>, env: Env)
    requires SaveAll(files, uploads, env).failed
    ensures var u := uploads[|SaveAll(files, uploads, env).saved|];
      env.save(UploadPath(u.filename, env), u.content) != Written
    decreases |uploads|
  {
    var init := uploads[..|uploads| - 1];
    var s := SaveAll(files, init, env);
    if s.failed {
      SaveAllFailsOnRaise(files, init, env);
      assert uploads[|s.saved|] == init[|s.saved|];
    }
  }

  /** The save loop only adds files. */
  lemma {:induction false} SaveAllKeepsFiles(files: FileMap, uploads: seq<Upload>, env: Env)
    ensures forall p :: p in files ==> p in SaveAll(files, uploads, env).files
    decreases |uploads|
  {
    if uploads != [] {
      SaveAllKeepsFiles(files, uploads[..|uploads| - 1], env);
    }
  }

  /** The save loop writes only under the request's upload paths. */
  lemma {:induction false} SaveAllFrame(files: FileMap, uploads: seq<Upload>, env: Env, p: Path)
    requires p !in UploadPaths(uploads, env)
    ensures p in SaveAll(files, uploads, env).files <==> p in files
    ensures p in files ==> SaveAll(files, uploads, env).files[p] == files[p]
    decreases |uploads|
  {
    if uploads != [] {
      var init := uploads[..|uploads| - 1];
      var u := uploads[|uploads| - 1];
      assert UploadPaths(uploads, env) == UploadPaths(init, env) + {UploadPath(u.filename, env)} by {
        assert uploads == init + [u];
      }
      SaveAllFrame(files, init, env, p);
    }
  }

  /** A save interrupted after creating its file ends the loop with that
      file in the folder. */
  lemma {:induction false} SaveAllInterruptedLeaves(files: FileMap, uploads: seq<Upload>, env: Env)
    requires SaveAll(files, uploads, env).failed
    ensures var u := uploads[|SaveAll(files, uploads, env).saved|];
      env.save(UploadPath(u.filename, env), u.content).Interrupted?
      ==> UploadPath(u.filename, env) in SaveAll(files, uploads, env).files
    decreases |uploads|
  {
    var init := uploads[..|uploads| - 1];
    var s0 := SaveAll(files, init, env);
    if s0.failed {
      SaveAllInterruptedLeaves(files, init, env);
      assert uploads[|s0.saved|] == init[|s0.saved|];
    }
  }

  /** One pass of the save loop: save the upload under its path and, if
      that went through, append the path to `saved`. The pass touches no
      other path, and it stops the loop exactly when `saved` did not grow. */
  function SaveOne(s: Saving, u: Upload, env: Env): (r: Saving)
    ensures forall p :: p in r.files && p != UploadPath(u.filename, env) ==> p in s.files
    ensures forall p :: p in s.files && p != UploadPath(u.filename, env) ==> p in r.files && r.files[p] == s.files[p]
    ensures s.saved <= r.saved && |r.saved| <= |s.saved| + 1
    ensures r.failed <==> r.saved == s.saved
    ensures !r.failed ==> r.saved == s.saved + [UploadPath(u.filename, env)]
  {
    var path := UploadPath(u.filename, env);
    var outcome := env.save(path, u.content);
    Saving(AfterSave(s.files, path, u.content, outcome),
           if outcome.Written? then s.saved + [path] else s.saved,
           !outcome.Written?)
  }

  /** A pass of the loop keeps every saved path present. */
  lemma SaveOneExtends(s: Saving, u: Upload, env: Env)
    requires forall p :: p in s.saved ==> p in s.files
    ensures var r, path := SaveOne(s, u, env), UploadPath(u.filename, env);
      && r.failed == (env.save(path, u.content) != Written)
      && r.saved == (if r.failed then s.saved else s.saved + [path])
      && forall p :: p in r.saved ==> p in r.files
  {
  }

  /** A pass of the loop keeps `saved` in upload order. */
  lemma SaveOneInOrder(s: Saving, init: seq<Upload>, u: Upload, env: Env)
    requires |s.saved| == |init|
    requires forall k :: 0 <= k < |s.saved| ==>
               s.saved[k] == UploadPath(init[k].filename, env)
               && env.save(s.saved[k], init[k].content) == Written
    ensures var r, uploads := SaveOne(s, u, env), init + [u];
      forall k :: 0 <= k < |r.saved| ==>
        r.saved[k] == UploadPath(uploads[k].filename, env)
        && env.save(r.saved[k], uploads[k].content) == Written
  {
  }

  lemma SaveAllStep(files: FileMap, uploads: seq<Upload>, i: nat, env: Env)
    requires i < |uploads|
    requires !SaveAll(files, uploads[..i], env).failed
    ensures SaveAll(files, uploads[..i + 1], env) == SaveOne(SaveAll(files, uploads[..i], env), uploads[i], env)
  {
    assert uploads[..i + 1][..i] == uploads[..i];
  }

  /** Once a save has raised, the rest of the uploads are not looked at. */
  lemma {:induction false} FailedSaveStops(files: FileMap, uploads: seq<Upload>, i: nat, env: Env)
    requires i <= |uploads|
    requires SaveAll(files, uploads[..i], env).failed
    ensures SaveAll(files, uploads, env) == SaveAll(files, uploads[..i], env)
    decreases |uploads| - i
  {
    if i == |uploads| {
      assert uploads[..i] == uploads;
    } else {
      assert uploads[..i + 1][..i] == uploads[..i];
      FailedSaveStops(files, uploads, i + 1, env);
    }
  }

  /** What a conversion reads: the first saved file, or every saved file in
      `saved` order. */
  function ReadInputs(files: FileMap, saved: seq<Path>, how: Registry.Inputs): (r: seq<Bytes>)
    requires |saved| >= 1
    requires forall p :: p in saved ==> p in files
    ensures |r| == (if how.FirstOnly? then 1 else |saved|)
    ensures forall k :: 0 <= k < |r| ==> r[k] == files[saved[k]]
  {
    match how
    case FirstOnly => [files[saved[0]]]
    case AllInOrder => seq(|saved|, k requires 0 <= k < |saved| => files[saved[k]])
  }

  /** The word-to-pdf routine: read the paragraphs of the document, lay
      them out, write the pages. A document that cannot be read gives no
      PDF; otherwise the writer receives pages holding exactly the cut
      lines of the non-blank paragraphs. */
  function WordToPdf(document: Bytes, env: Env): (pdf: Option<Bytes>)
    ensures env.readDocument(document).None? ==> pdf.None?
    ensures env.readDocument(document).Some? ==>
              exists pages :: pdf == env.writePdf(pages)
                              && Layout.AllTexts(pages) == Layout.ExpectedLines(env.readDocument(document).value)
  {
    match env.readDocument(document)
    case None => None
    case Some(paragraphs) =>
      var pages := Layout.Layout(paragraphs, env.pageHeight);
      Layout.LayoutDrawsExpectedLines(paragraphs, env.pageHeight);
      env.writePdf(pages)
  }

  /** What the branch for `slug` produces from the saved files, `None`
      when the conversion raises: word-to-pdf runs its own routine on the
      first saved file, every other tool hands the files its branch reads,
      in `saved` order, to its converter. */
  function ConversionBody(files: FileMap, saved: seq<Path>, slug: string, env: Env): (body: Option<Bytes>)
    requires |saved| >= 1
    requires forall p :: p in saved ==> p in files
    requires Registry.Dispatch(slug).Some?
    ensures slug == "word-to-pdf" ==> body == WordToPdf(files[saved[0]], env)
    ensures slug != "word-to-pdf" ==>
              body == env.convert(slug, ReadInputs(files, saved, Registry.Dispatch(slug).value.inputs))
  {
    var inputs := ReadInputs(files, saved, Registry.Dispatch(slug).value.inputs);
    if slug == "word-to-pdf" then WordToPdf(inputs[0], env) else env.convert(slug, inputs)
  }

  /** The dispatch chain after a complete save loop: 400 exactly when no
      branch matches; otherwise the conversion's bytes downloaded under the
      branch's mimetype and name, or a server error when it raises. */
  function Convert(files: FileMap, saved: seq<Path>, slug: string, env: Env): (resp: Response)
    requires |saved| >= 1
    requires forall p :: p in saved ==> p in files
    ensures resp == BadRequest <==> Registry.Dispatch(slug).None?
    ensures resp.Download? || resp.ServerError? || resp.BadRequest?
    ensures Registry.Dispatch(slug).Some? ==>
              var out := Registry.Dispatch(slug).value;
              (resp == ServerError <==> ConversionBody(files, saved, slug, env).None?)
              && (resp.Download? ==> resp == Download(out.mimetype, out.filename, ConversionBody(files, saved, slug, env).value))
  {
    match Registry.Dispatch(slug)
    case None => BadRequest
    case Some(out) =>
      match ConversionBody(files, saved, slug, env)
      case None => ServerError
      case Some(bytes) => Download(out.mimetype, out.filename, bytes)
  }

  /** The whole handler: the response and the upload folder afterwards,
      given the folder before, with `MAX_FILE_SIZE_MB` set to `maxMb`. It
      answers 404 exactly for an unknown slug and the form exactly for a GET
      of a known one. */
  function Handle(files: FileMap, slug: string, req: Request, env: Env, maxMb: int): (r: (Response, FileMap))
    ensures r.0 == NotFound <==> slug !in Registry.Slugs()
    ensures r.0.Form? <==> slug in Registry.Slugs() && req.httpMethod == Get
  {
    match Registry.Lookup(slug)
    case None => (NotFound, files)
    case Some(cfg) =>
      if req.httpMethod == Get then
        (Form(slug, cfg.title, cfg.accept, cfg.multiple, cfg.desc), files)
      else if req.contentLength > Limits.MaxContentLength(maxMb) then
        (TooLarge(Limits.TooLargeMessage(Limits.MaxContentLength(maxMb))), files)
      else if req.uploads == [] || req.uploads[0].filename == "" then
        (Redirect(req.url), files)
      else
        Process(files, slug, req.uploads, env)
  }

  /** The `try`/`finally` part of the handler, for a non-empty selection:
      the save loop, the dispatch if every save went through, then the
      removal of `saved`. */
  function Process(files: FileMap, slug: string, uploads: seq<Upload>, env: Env): (r: (Response, FileMap))
    requires uploads != []
    ensures r.0.Download? || r.0.ServerError? || r.0.BadRequest?
    ensures r.0.Download? ==> |SaveAll(files, uploads, env).saved| == |uploads|
    ensures forall p :: p in r.1 ==> p in SaveAll(files, uploads, env).files
  {
    var s := SaveAll(files, uploads, env);
    var resp := if s.failed then ServerError else Convert(s.files, s.saved, slug, env);
    (resp, s.files - Removable(s.saved, env.removable))
  }

  /** The save loop of the handler: saves each upload in order under its
      path, appending the path to `saved`, until a save raises. */
  method SaveUploads(fs: FileSystem, uploads: seq<Upload>, env: Env) returns (saved: seq<Path>, failed: bool)
    modifies fs
    ensures Saving(fs.files, saved, failed) == SaveAll(old(fs.files), uploads, env)
  {
    saved, failed := [], false;
    var i := 0;
    while i < |uploads| && !failed
      invariant 0 <= i <= |uploads|
      invariant Saving(fs.files, saved, failed) == SaveAll(old(fs.files), uploads[..i], env)
      decreases |uploads| - i
    {
      SaveAllStep(old(fs.files), uploads, i, env);
      var path := UploadPath(uploads[i].filename, env);
      var ok := fs.Save(path, uploads[i].content, env.save(path, uploads[i].content));
      if ok {
        saved := saved + [path];
      } else {
        failed := true;
      }
      i := i + 1;
    }
    if failed {
      FailedSaveStops(old(fs.files), uploads, i, env);
    } else {
      assert uploads[..i] == uploads;
    }
  }

  /** The `if slug == ...` chain run on the saved files; word-to-pdf lays
      its pages out on a canvas. */
  method RunConversion(files: FileMap, saved: seq<Path>, slug: string, env: Env) returns (resp: Response)
    requires |saved| >= 1
    requires forall p :: p in saved ==> p in files
    ensures resp == Convert(files, saved, slug, env)
  {
    var out := Registry.Dispatch(slug);
    if out.None? {
      return BadRequest;
    }
    var inputs := ReadInputs(files, saved, out.value.inputs);
    var body: Option<Bytes>;
    if slug == "word-to-pdf" {
      var document := env.readDocument(inputs[0]);
      if document.None? {
        body := None;
      } else {
        var pages := Layout.RenderParagraphs(document.value, env.pageHeight);
        body := env.writePdf(pages);
      }
    } else {
      body := env.convert(slug, inputs);
    }
    resp := if body.None? then ServerError else Download(out.value.mimetype, out.value.filename, body.value);
  }

  /** `tool(slug)` on an upload folder. */
  method Tool(fs: FileSystem, slug: string, req: Request, env: Env, maxMb: int) returns (resp: Response)
    modifies fs
    ensures (resp, fs.files) == Handle(old(fs.files), slug, req, env, maxMb)
  {
    var found := Registry.Lookup(slug);
    if found.None? {
      return NotFound;
    }
    var cfg := found.value;
    if req.httpMethod == Get {
      return Form(slug, cfg.title, cfg.accept, cfg.multiple, cfg.desc);
    }
    var limit := Limits.MaxContentLength(maxMb);
    if req.contentLength > limit {
      return TooLarge(Limits.TooLargeMessage(limit));
    }
    var uploads := req.uploads;
    if |uploads| == 0 || uploads[0].filename == "" {
      return Redirect(req.url);
    }

    var saved, failed := SaveUploads(fs, uploads, env);
    if failed {
      resp := ServerError;
    } else {
      resp := RunConversion(fs.files, saved, slug, env);
    }
    fs.Cleanup(saved, env.removable);
    ReachesProcess(old(fs.files), slug, req, env, maxMb);
  }

  // ---------------------------------------------------------------------
  // What each early exit yields.

  /** An unknown slug is a 404 that leaves the folder alone. */
  lemma UnknownSlugIsNotFound(files: FileMap, slug: string, req: Request, env: Env, maxMb: int)
    requires slug !in Registry.Slugs()
    ensures Handle(files, slug, req, env, maxMb) == (NotFound, files)
  {
  }

  /** A GET of a registered tool renders the registry's descriptor
      unchanged and touches nothing. */
  lemma GetRendersDescriptor(files: FileMap, k: nat, req: Request, env: Env, maxMb: int)
    requires k < |Registry.Slugs()| && req.httpMethod == Get
    ensures var slug, d := Registry.Slugs()[k], Registry.Values[k];
      Handle(files, slug, req, env, maxMb) == (Form(slug, d.title, d.accept, d.multiple, d.desc), files)
  {
    Registry.LookupRegistered(k);
  }

  /** A body over the limit is refused before anything is saved, with a
      message naming the configured megabytes. */
  lemma TooLargeWritesNothing(files: FileMap, slug: string, req: Request, env: Env, maxMb: int)
    requires slug in Registry.Slugs() && req.httpMethod != Get
    requires req.contentLength > Limits.MaxContentLength(maxMb)
    ensures Handle(files, slug, req, env, maxMb).1 == files
    ensures exists figure :: Handle(files, slug, req, env, maxMb).0 == TooLarge("File too large. Max is " + figure + " MB")
                             && Limits.ParseDecimal(figure) == Some(maxMb)
  {
    Limits.TooLargeMessageNamesLimit(maxMb);
  }

  /** An empty selection redirects back to the form and writes nothing. */
  lemma EmptySelectionRedirects(files: FileMap, slug: string, req: Request, env: Env, maxMb: int)
    requires slug in Registry.Slugs() && req.httpMethod != Get
    requires req.contentLength <= Limits.MaxContentLength(maxMb)
    requires req.uploads == [] || req.uploads[0].filename == ""
    ensures Handle(files, slug, req, env, maxMb) == (Redirect(req.url), files)
  {
  }

  /** HEAD is not `'GET'`, so it takes the upload path; a HEAD without a
      body has no files and is redirected instead of seeing the form. */
  lemma HeadRedirects(files: FileMap, slug: string, req: Request, env: Env, maxMb: int)
    requires slug in Registry.Slugs() && req.httpMethod == Head && req.uploads == []
    requires req.contentLength <= Limits.MaxContentLength(maxMb)
    ensures Handle(files, slug, req, env, maxMb) == (Redirect(req.url), files)
  {
    EmptySelectionRedirects(files, slug, req, env, maxMb);
  }

  // ---------------------------------------------------------------------
  // The `finally` block.

  /** Whether a request gets as far as the save loop. */
  predicate Saves(slug: string, req: Request, maxMb: int) {
    && slug in Registry.Slugs()
    && req.httpMethod != Get
    && req.contentLength <= Limits.MaxContentLength(maxMb)
    && req.uploads != []
    && req.uploads[0].filename != ""
  }

  /** A request that stops before the save loop gets one of the early
      responses and leaves the folder alone. */
  lemma EarlyExit(files: FileMap, slug: string, req: Request, env: Env, maxMb: int)
    requires !Saves(slug, req, maxMb)
    ensures Handle(files, slug, req, env, maxMb).1 == files
    ensures var r := Handle(files, slug, req, env, maxMb).0;
      r.NotFound? || r.Form? || r.TooLarge? || r.Redirect?
  {
    var found := Registry.Lookup(slug);
    if found.None? {
      assert Handle(files, slug, req, env, maxMb) == (NotFound, files);
    } else if req.httpMethod == Get {
      var cfg := found.value;
      assert Handle(files, slug, req, env, maxMb) == (Form(slug, cfg.title, cfg.accept, cfg.multiple, cfg.desc), files);
    } else if req.contentLength > Limits.MaxContentLength(maxMb) {
      var limit := Limits.MaxContentLength(maxMb);
      assert Handle(files, slug, req, env, maxMb) == (TooLarge(Limits.TooLargeMessage(limit)), files);
    } else {
      assert Handle(files, slug, req, env, maxMb) == (Redirect(req.url), files);
    }
  }

  /** A request that passes every check is handled by the save loop, the
      dispatch and the `finally` block. */
  lemma ReachesProcess(files: FileMap, slug: string, req: Request, env: Env, maxMb: int)
    requires Saves(slug, req, maxMb)
    ensures Handle(files, slug, req, env, maxMb) == Process(files, slug, req.uploads, env)
  {
  }

  /** Whatever the response (a download, a conversion error, a save error),
      the folder afterwards is the folder after the save loop minus every
      saved path that can be removed; a request that never reaches the loop
      changes nothing. */
  lemma CleanupOnEveryExit(files: FileMap, slug: string, req: Request, env: Env, maxMb: int)
    ensures var s := SaveAll(files, req.uploads, env);
      Handle(files, slug, req, env, maxMb).1
      == if Saves(slug, req, maxMb) then s.files - Removable(s.saved, env.removable) else files
  {
    if Saves(slug, req, maxMb) {
      ReachesProcess(files, slug, req, env, maxMb);
    } else {
      EarlyExit(files, slug, req, env, maxMb);
    }
  }

  /** No saved upload survives the request unless removing it fails. */
  lemma NoSavedPathSurvives(files: FileMap, slug: string, req: Request, env: Env, maxMb: int, p: Path)
    requires Saves(slug, req, maxMb)
    requires p in SaveAll(files, req.uploads, env).saved && env.removable(p)
    ensures p !in Handle(files, slug, req, env, maxMb).1
  {
    ReachesProcess(files, slug, req, env, maxMb);
  }

  /** Files whose paths no upload of the request maps to are left as they
      were, present or absent. */
  lemma OtherFilesUntouched(files: FileMap, slug: string, req: Request, env: Env, maxMb: int, p: Path)
    requires p !in UploadPaths(req.uploads, env)
    ensures p in Handle(files, slug, req, env, maxMb).1 <==> p in files
    ensures p in files ==> Handle(files, slug, req, env, maxMb).1[p] == files[p]
  {
    CleanupOnEveryExit(files, slug, req, env, maxMb);
    SaveAllFrame(files, req.uploads, env, p);
  }

  /** A save that raises after creating its file leaves that partial file
      behind: its path never reached `saved`, so the `finally` loop does not
      know about it. */
  lemma InterruptedSaveLeaks(files: FileMap, slug: string, req: Request, env: Env, maxMb: int, kept: nat)
    requires Saves(slug, req, maxMb)
    requires env.save(UploadPath(req.uploads[0].filename, env), req.uploads[0].content) == Interrupted(kept)
    ensures Handle(files, slug, req, env, maxMb).0 == ServerError
    ensures UploadPath(req.uploads[0].filename, env) in Handle(files, slug, req, env, maxMb).1
  {
    ReachesProcess(files, slug, req, env, maxMb);
    var s := SaveAll(files, req.uploads, env);
    assert |s.saved| == 0;
    SaveAllInterruptedLeaves(files, req.uploads, env);
    assert Removable(s.saved, env.removable) == {};
  }

  /** The leak needs a path no earlier upload was saved under: when an
      earlier upload of the request was written to the same path, that path
      is in `saved`, and the `finally` loop removes it with the partial
      file of the later one. */
  lemma CollidingInterruptedSaveRemoved(files: FileMap, slug: string, req: Request, env: Env, maxMb: int,
                                        a: Upload, b: Upload, kept: nat)
    requires Saves(slug, req, maxMb) && req.uploads == [a, b]
    requires UploadPath(a.filename, env) == UploadPath(b.filename, env)
    requires env.save(UploadPath(a.filename, env), a.content) == Written
    requires env.save(UploadPath(b.filename, env), b.content) == Interrupted(kept)
    requires env.removable(UploadPath(a.filename, env))
    ensures Handle(files, slug, req, env, maxMb).0 == ServerError
    ensures UploadPath(a.filename, env) !in Handle(files, slug, req, env, maxMb).1
  {
    var path := UploadPath(a.filename, env);
    var s := SaveAll(files, [a, b], env);
    WrittenThenInterrupted(files, a, b, env, kept);
    assert Removable(s.saved, env.removable) == {path};
    ReachesProcess(files, slug, req, env, maxMb);
  }

  /** The save loop over a written upload followed by an interrupted one
      fails with the first path alone in `saved`. */
  lemma WrittenThenInterrupted(files: FileMap, a: Upload, b: Upload, env: Env, kept: nat)
    requires env.save(UploadPath(a.filename, env), a.content) == Written
    requires env.save(UploadPath(b.filename, env), b.content) == Interrupted(kept)
    ensures var s := SaveAll(files, [a, b], env);
      s.failed && s.saved == [UploadPath(a.filename, env)]
  {
    assert [a, b][..0] == [];
    SaveAllStep(files, [a, b], 0, env);
    assert SaveAll(files, [a, b][..1], env).saved == [UploadPath(a.filename, env)];
    SaveAllStep(files, [a, b], 1, env);
    assert [a, b][..2] == [a, b];
  }

  // ---------------------------------------------------------------------
  // Dispatch.

  /** A request whose uploads all save, and whose conversion produces
      bytes, downloads exactly those bytes under its branch's mimetype and
      name. */
  lemma SuccessDownloads(files: FileMap, slug: string, req: Request, env: Env, maxMb: int, bytes: Bytes)
    requires Saves(slug, req, maxMb) && Registry.Dispatch(slug).Some?
    requires var s := SaveAll(files, req.uploads, env);
      !s.failed && ConversionBody(s.files, s.saved, slug, env) == Some(bytes)
    ensures var out := Registry.Dispatch(slug).value;
      Handle(files, slug, req, env, maxMb).0 == Download(out.mimetype, out.filename, bytes)
  {
    ReachesProcess(files, slug, req, env, maxMb);
  }

  /** Past the early exits, the handler answers 500 exactly when a save
      raised or, every save having gone through, the conversion raised. */
  lemma ServerErrorExactly(files: FileMap, slug: string, req: Request, env: Env, maxMb: int)
    requires Saves(slug, req, maxMb) && Registry.Dispatch(slug).Some?
    ensures var s := SaveAll(files, req.uploads, env);
      Handle(files, slug, req, env, maxMb).0 == ServerError
      <==> s.failed || ConversionBody(s.files, s.saved, slug, env).None?
  {
    ReachesProcess(files, slug, req, env, maxMb);
  }

  /** The fall-through `abort(400)` is unreachable: every slug that passes
      the lookup has a branch. */
  lemma NeverBadRequest(files: FileMap, slug: string, req: Request, env: Env, maxMb: int)
    ensures Handle(files, slug, req, env, maxMb).0 != BadRequest
  {
    if Saves(slug, req, maxMb) {
      ReachesProcess(files, slug, req, env, maxMb);
      Registry.DispatchCoversRegistry(slug);
      assert Registry.Dispatch(slug).Some?;
    } else {
      EarlyExit(files, slug, req, env, maxMb);
    }
  }

  /** A download carries the mimetype and file name the slug's branch
      fixes, and only a fully saved request downloads anything. */
  lemma DownloadMatchesDispatch(files: FileMap, slug: string, req: Request, env: Env, maxMb: int)
    requires Handle(files, slug, req, env, maxMb).0.Download?
    ensures Saves(slug, req, maxMb)
    ensures !SaveAll(files, req.uploads, env).failed
    ensures Registry.Dispatch(slug).Some?
    ensures var d := Handle(files, slug, req, env, maxMb).0;
      d.mimetype == Registry.Dispatch(slug).value.mimetype && d.filename == Registry.Dispatch(slug).value.filename
  {
    if Saves(slug, req, maxMb) {
      ReachesProcess(files, slug, req, env, maxMb);
    } else {
      EarlyExit(files, slug, req, env, maxMb);
    }
  }

  /** When every upload is saved under a path of its own, a tool that reads
      all inputs receives exactly the uploaded contents in upload order. */
  lemma DistinctPathsReadUploads(files: FileMap, uploads: seq<Upload>, env: Env)
    requires uploads != []
    requires !SaveAll(files, uploads, env).failed
    requires forall i, j :: 0 <= i < j < |uploads| ==> UploadPath(uploads[i].filename, env) != UploadPath(uploads[j].filename, env)
    ensures var s := SaveAll(files, uploads, env);
      ReadInputs(s.files, s.saved, Registry.AllInOrder) == seq(|uploads|, k requires 0 <= k < |uploads| => uploads[k].content)
  {
    DistinctSavesKeepContents(files, uploads, env);
  }

  lemma {:induction false} DistinctSavesKeepContents(files: FileMap, uploads: seq<Upload>, env: Env)
    requires !SaveAll(files, uploads, env).failed
    requires forall i, j :: 0 <= i < j < |uploads| ==> UploadPath(uploads[i].filename, env) != UploadPath(uploads[j].filename, env)
    ensures var s := SaveAll(files, uploads, env);
      forall k :: 0 <= k < |uploads| ==> s.files[s.saved[k]] == uploads[k].content
    decreases |uploads|
  {
    if uploads != [] {
      var init := uploads[..|uploads| - 1];
      var u := uploads[|uploads| - 1];
      var s0 := SaveAll(files, init, env);
      var s := SaveAll(files, uploads, env);
      assert !s0.failed;
      DistinctSavesKeepContents(files, init, env);
      forall k | 0 <= k < |uploads| ensures s.files[s.saved[k]] == uploads[k].content {
        if k < |init| {
          assert s.saved[k] == s0.saved[k];
          assert uploads[k] == init[k];
          assert s.saved[k] != UploadPath(u.filename, env);
        }
      }
    }
  }

  /** Two uploads whose names sanitise to the same path: the second save
      overwrites the first, so a tool reading all inputs gets the second
      file twice. */
  lemma CollidingPathsReadLatest(files: FileMap, a: Upload, b: Upload, env: Env)
    requires UploadPath(a.filename, env) == UploadPath(b.filename, env)
    requires !SaveAll(files, [a, b], env).failed
    ensures var s := SaveAll(files, [a, b], env);
      ReadInputs(s.files, s.saved, Registry.AllInOrder) == [b.content, b.content]
  {
    assert [a, b][..1] == [a];
    assert [a][..0] == [];
  }
}
