/** The tool registry (`TOOLS`) and the per-slug dispatch table of the
    upload handler: which output type and download name each slug yields
    and which of the saved uploads its conversion reads. */
module Registry {

  import opened Wrappers

  /** One registry entry's metadata: the form title, the `accept` filter of
      the upload field, whether several files may be chosen, the blurb. */
  datatype Descriptor = Descriptor(title: string, accept: string, multiple: bool, desc: string)

  /** The keys of `TOOLS`, in insertion order (the order `TOOLS.keys()`
      yields). */
  const Keys: seq<string> := [
    "compress-pdf", "merge-pdf", "word-to-pdf", "png-to-pdf", "png-to-jpg",
    "jpg-to-png", "image-compressor", "remove-bg", "mp4-to-mp3", "video-compressor", "video-to-gif"
  ]

  /** The values of `TOOLS`: `Values[k]` is the entry under `Keys[k]`. */
  const Values: seq<Descriptor> := [
    Descriptor("Compress PDF", ".pdf", false,
      "Reduce PDF size by optimizing content and structure. Perfect for email or uploads."),
    Descriptor("Merge PDF", ".pdf", true,
      "Combine multiple PDF files into one in the order you upload them."),
    Descriptor("Word → PDF", ".docx", false,
      "Convert DOCX into a simple, shareable PDF."),
    Descriptor("PNG → PDF", ".png", true,
      "Convert one or multiple PNG images into a single PDF document."),
    Descriptor("PNG → JPG", ".png", false,
      "Convert transparent PNG into JPG for smaller file size."),
    Descriptor("JPG → PNG", ".jpg,.jpeg", false,
      "Convert JPG to PNG (supports transparency)."),
    Descriptor("Image Compressor", ".jpg,.jpeg,.png", false,
      "Compress images to reduce size with minimal quality loss."),
    Descriptor("Background Remover", ".jpg,.jpeg,.png", false,
      "Remove background from photos using AI."),
    Descriptor("MP4 → MP3", ".mp4", false,
      "Extract audio from video into MP3 format."),
    Descriptor("Video Compressor", "video/*", false,
      "Compress video to a shareable size with good quality."),
    Descriptor("Video → GIF", "video/*", false,
      "Create a short animated GIF from your video.")
  ]

  /** `TOOLS.keys()`. */
  function Slugs(): (r: seq<string>)
    ensures |r| == |Values|
  {
    Keys
  }

  lemma SlugsListed()
    ensures Slugs() == ["compress-pdf", "merge-pdf", "word-to-pdf", "png-to-pdf", "png-to-jpg",
                        "jpg-to-png", "image-compressor", "remove-bg", "mp4-to-mp3",
                        "video-compressor", "video-to-gif"]
  {
  }

  /** No slug holds a line break, so each fits on one line of a generated
      text file. */
  lemma SlugsSingleLine()
    ensures forall k :: 0 <= k < |Slugs()| ==> '\n' !in Slugs()[k]
  {
  }

  /** A dictionary has one entry per key. */
  lemma SlugsDistinct()
    ensures forall i, j :: 0 <= i < j < |Slugs()| ==> Slugs()[i] != Slugs()[j]
  {
  }

  /** The position of the first occurrence of `slug` in `keys`, if any. */
  function IndexOf(keys: seq<string>, slug: string): (r: Option<nat>)
    ensures r.None? <==> slug !in keys
    ensures r.Some? ==> r.value < |keys| && keys[r.value] == slug
    ensures r.Some? ==> forall j :: 0 <= j < r.value ==> keys[j] != slug
  {
    if keys == [] then None
    else if keys[0] == slug then Some(0)
    else
      match IndexOf(keys[1..], slug)
      case None => None
      case Some(i) => Some(i + 1)
  }

  /** `slug in TOOLS` and `TOOLS[slug]`. */
  function Lookup(slug: string): (r: Option<Descriptor>)
    ensures r.None? <==> slug !in Slugs()
    ensures r.Some? ==> exists k :: 0 <= k < |Slugs()| && Slugs()[k] == slug && Values[k] == r.value
  {
    match IndexOf(Slugs(), slug)
    case None => None
    case Some(k) => Some(Values[k])
  }

  /** Because the slugs are distinct, the descriptor found is the one the
      registry lists under that slug. */
  lemma LookupRegistered(k: nat)
    requires k < |Slugs()|
    ensures Lookup(Slugs()[k]) == Some(Values[k])
  {
    SlugsDistinct();
    var i := IndexOf(Slugs(), Slugs()[k]).value;
    assert i == k;
  }

  /** Which of the saved uploads a conversion reads. */
  datatype Inputs = FirstOnly | AllInOrder

  /** What one branch of the dispatch chain fixes: the response's mimetype,
      the download name and the inputs the conversion reads. */
  datatype Output = Output(mimetype: string, filename: string, inputs: Inputs)

  /** The `if slug == ...` chain of the upload handler; `None` is falling
      through to `abort(400)`. The chain has a branch for exactly the keys
      of `TOOLS`. */
  function Dispatch(slug: string): (out: Option<Output>)
    ensures out.Some? <==> slug in Slugs()
  {
    if slug == "compress-pdf" then Some(Output("application/pdf", "compressed.pdf", FirstOnly))
    else if slug == "merge-pdf" then Some(Output("application/pdf", "merged.pdf", AllInOrder))
    else if slug == "word-to-pdf" then Some(Output("application/pdf", "document.pdf", FirstOnly))
    else if slug == "png-to-pdf" then Some(Output("application/pdf", "images.pdf", AllInOrder))
    else if slug == "png-to-jpg" then Some(Output("image/jpeg", "image.jpg", FirstOnly))
    else if slug == "jpg-to-png" then Some(Output("image/png", "image.png", FirstOnly))
    else if slug == "image-compressor" then Some(Output("image/jpeg", "compressed.jpg", FirstOnly))
    else if slug == "remove-bg" then Some(Output("image/png", "no-bg.png", FirstOnly))
    else if slug == "mp4-to-mp3" then Some(Output("audio/mpeg", "audio.mp3", FirstOnly))
    else if slug == "video-compressor" then Some(Output("video/mp4", "compressed.mp4", FirstOnly))
    else if slug == "video-to-gif" then Some(Output("image/gif", "clip.gif", FirstOnly))
    else None
  }

  /** The dispatch chain covers exactly the registered slugs, so a slug that
      passed the lookup never falls through to `abort(400)`. */
  lemma DispatchCoversRegistry(slug: string)
    ensures Dispatch(slug).Some? <==> slug in Slugs()
  {
    SlugsListed();
  }

  /** Only `merge-pdf` and `png-to-pdf` read every upload; all other tools
      read the first one. */
  lemma AllInputsOnlyForMergeAndPngToPdf(slug: string)
    requires Dispatch(slug).Some?
    ensures Dispatch(slug).value.inputs == AllInOrder <==> slug == "merge-pdf" || slug == "png-to-pdf"
  {
  }

  /** The text after the last `.` of a file name. */
  function Extension(name: string): (r: string)
    ensures |r| <= |name| && r == name[|name| - |r|..]
    ensures '.' !in r
  {
    if name == [] || name[|name| - 1] == '.' then []
    else
      var r := Extension(name[..|name| - 1]);
      assert name[..|name| - 1][|name| - 1 - |r|..] + [name[|name| - 1]] == name[|name| - 1 - |r|..];
      r + [name[|name| - 1]]
  }

  /** The conventional media type of an extension, independently of the
      dispatch chain. */
  function MediaTypeOf(ext: string): Option<string> {
    if ext == "pdf" then Some("application/pdf")
    else if ext == "jpg" then Some("image/jpeg")
    else if ext == "png" then Some("image/png")
    else if ext == "mp3" then Some("audio/mpeg")
    else if ext == "mp4" then Some("video/mp4")
    else if ext == "gif" then Some("image/gif")
    else None
  }

  /** Every download name is a stem, a dot and an extension whose
      conventional media type is the response's mimetype. */
  lemma DownloadNameSplits(slug: string)
    requires Dispatch(slug).Some?
    ensures exists stem, ext :: Dispatch(slug).value.filename == stem + "." + ext && '.' !in ext
                                && MediaTypeOf(ext) == Some(Dispatch(slug).value.mimetype)
  {
    var out := Dispatch(slug).value;
    if slug == "compress-pdf" { NameParts(out, "compressed", "pdf"); }
    else if slug == "merge-pdf" { NameParts(out, "merged", "pdf"); }
    else if slug == "word-to-pdf" { NameParts(out, "document", "pdf"); }
    else if slug == "png-to-pdf" { NameParts(out, "images", "pdf"); }
    else if slug == "png-to-jpg" { NameParts(out, "image", "jpg"); }
    else if slug == "jpg-to-png" { NameParts(out, "image", "png"); }
    else if slug == "image-compressor" { NameParts(out, "compressed", "jpg"); }
    else if slug == "remove-bg" { NameParts(out, "no-bg", "png"); }
    else if slug == "mp4-to-mp3" { NameParts(out, "audio", "mp3"); }
    else if slug == "video-compressor" { NameParts(out, "compressed", "mp4"); }
    else { NameParts(out, "clip", "gif"); }
  }

  lemma NameParts(out: Output, stem: string, ext: string)
    requires out.filename == stem + "." + ext && '.' !in ext && MediaTypeOf(ext) == Some(out.mimetype)
    ensures exists stem, ext :: out.filename == stem + "." + ext && '.' !in ext && MediaTypeOf(ext) == Some(out.mimetype)
  {
  }

  /** Every download is labelled with the media type its name's extension
      conventionally has. */
  lemma MimetypeMatchesExtension(slug: string)
    requires Dispatch(slug).Some?
    ensures MediaTypeOf(Extension(Dispatch(slug).value.filename)) == Some(Dispatch(slug).value.mimetype)
  {
    DownloadNameSplits(slug);
    var stem, ext :| Dispatch(slug).value.filename == stem + "." + ext && '.' !in ext
                     && MediaTypeOf(ext) == Some(Dispatch(slug).value.mimetype);
    ExtensionAfterDot(stem, ext);
  }

  lemma {:induction false} ExtensionAfterDot(stem: string, ext: string)
    requires '.' !in ext
    ensures Extension(stem + "." + ext) == ext
  {
    var name := stem + "." + ext;
    if ext == [] {
      assert name[|name| - 1] == '.';
    } else {
      var init, last := ext[..|ext| - 1], ext[|ext| - 1];
      assert '.' !in init && last != '.' by {
        assert ext == init + [last];
        assert forall c :: c in init ==> c in ext;
        assert last in ext;
      }
      ExtensionAfterDot(stem, init);
      assert name[..|name| - 1] == stem + "." + init;
    }
  }

}
