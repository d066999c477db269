/** The per-image decisions of cbzxl.py: which files are candidates, how a
    wrong extension is corrected, which colour fix runs before encoding, and
    what one image contributes to an archive's savings. The external tools
    (`file`, `identify`, `magick`, `cjxl`) are represented by their answers. */
module Images {
  import opened Wrappers
  import opened Text
  import opened PathNames

  const JPEG := "image/jpeg"
  const PNG := "image/png"
  const WEBP := "image/webp"
  const AVIF := "image/avif"

  /** The extracted archive: every regular file with its size in bytes. */
  type Tree = map<FilePath, nat>

  /** The fixed MIME-to-extension table of `correct_extension`. */
  function ExtensionFor(mime: string): (r: Option<string>)
    ensures r.Some? <==> mime in {JPEG, PNG, WEBP, AVIF}
    ensures r.Some? ==> IsExtension(r.value) && Lower(r.value) == r.value
  {
    if mime == JPEG then LowerOfLowercase(".jpg"); Some(".jpg")
    else if mime == PNG then LowerOfLowercase(".png"); Some(".png")
    else if mime == WEBP then LowerOfLowercase(".webp"); Some(".webp")
    else if mime == AVIF then LowerOfLowercase(".avif"); Some(".avif")
    else None
  }

  /** Whether `correct_extension` renames a file of this name and sniffed type. */
  predicate NeedsRename(name: string, mime: string)
  {
    ExtensionFor(mime).Some? && Lower(Suffix(name)) != ExtensionFor(mime).value
  }

  /** The path `correct_extension` returns: the mapped extension replaces the
      suffix when the lower-cased suffix differs from it; otherwise the path is kept. */
  function CorrectedPath(p: FilePath, mime: string): (r: FilePath)
    requires p.name != ""
    ensures r.name != "" && r.dir == p.dir && StemKey(r) == StemKey(p)
    ensures !NeedsRename(p.name, mime) ==> r == p
    ensures NeedsRename(p.name, mime) ==>
              Suffix(r.name) == ExtensionFor(mime).value && Stem(r.name) == Stem(p.name)
  {
    if NeedsRename(p.name, mime) then
      var ext := ExtensionFor(mime).value;
      SuffixOfWithSuffix(p.name, ext);
      FilePath(p.dir, WithSuffix(p.name, ext))
    else p
  }

  /** Correcting an extension a second time changes nothing. */
  lemma CorrectedPathIdempotent(p: FilePath, mime: string)
    requires p.name != ""
    ensures CorrectedPath(CorrectedPath(p, mime), mime) == CorrectedPath(p, mime)
  {
    var q := CorrectedPath(p, mime);
    if NeedsRename(p.name, mime) {
      assert Lower(Suffix(q.name)) == ExtensionFor(mime).value;
    }
  }

  /** `.jpeg` becomes `.jpg`. */
  lemma JpegBecomesJpg()
    ensures CorrectedPath(FilePath("ch1", "p01.jpeg"), JPEG) == FilePath("ch1", "p01.jpg")
  {
    LastDotAt("p01.jpeg", 3);
    assert Suffix("p01.jpeg") == ".jpeg";
    assert Lower(".jpeg")[2] == 'p';
  }

  /** `.JPG` is kept: only its lower-cased form is compared. */
  lemma UpperCaseJpgKept()
    ensures CorrectedPath(FilePath("ch1", "p01.JPG"), JPEG) == FilePath("ch1", "p01.JPG")
  {
    LastDotAt("p01.JPG", 3);
    assert Suffix("p01.JPG") == ".JPG";
    assert Lower(".JPG") == ".jpg";
  }

  /** A PNG that was named `.jpg` is renamed to `.png`. */
  lemma MislabelledPngRenamed()
    ensures CorrectedPath(FilePath("ch1", "p01.jpg"), PNG) == FilePath("ch1", "p01.png")
  {
    LastDotAt("p01.jpg", 3);
    assert Suffix("p01.jpg") == ".jpg";
    assert Lower(".jpg")[1] == 'j';
  }

  /** Only JPEG and PNG images are handed to the encoder. */
  predicate IsConvertible(mime: string)
  {
    mime == JPEG || mime == PNG
  }

  /** The colour fix applied before encoding. */
  datatype Prep = StripProfile | ToSrgb | NoPrep

  /** PNGs have their embedded profile stripped; a JPEG is converted to sRGB
      only when `identify` reports exactly `CMYK`. */
  function Preprocessing(mime: string, colorspace: string): (r: Prep)
    ensures r == StripProfile <==> mime == PNG
    ensures r == ToSrgb <==> mime == JPEG && colorspace == "CMYK"
    ensures !IsConvertible(mime) ==> r == NoPrep
  {
    if mime == PNG then StripProfile
    else if mime == JPEG && colorspace == "CMYK" then ToSrgb
    else NoPrep
  }

  /** What one `cjxl` run left behind: its exit code and, when the target
      `.jxl` file exists afterwards, that file's size. */
  datatype EncoderRun = EncoderRun(exitCode: int, output: Option<nat>)

  /** The branch `convert_single_image` takes after encoding. */
  predicate Succeeded(e: EncoderRun)
  {
    e.exitCode == 0 && e.output.Some?
  }

  /** The answers of the external tools for one candidate file. */
  datatype ToolAnswers = ToolAnswers(mime: string, colorspace: string, encoder: EncoderRun)

  /** The bytes one image saves: nothing unless it is a JPEG or PNG that the
      encoder converted; otherwise the original size minus the `.jxl` size,
      which is negative when the encoded file is larger. */
  function ImageSavings(mime: string, origSize: nat, e: EncoderRun): (r: int)
    ensures !IsConvertible(mime) || !Succeeded(e) ==> r == 0
    ensures IsConvertible(mime) && Succeeded(e) ==> r + e.output.value == origSize
  {
    if IsConvertible(mime) && Succeeded(e) then origSize - e.output.value else 0
  }

  /** A negative contribution happens exactly when the encoded file grew. */
  lemma SavingsSign(mime: string, origSize: nat, e: EncoderRun)
    ensures ImageSavings(mime, origSize, e) < 0 <==>
              IsConvertible(mime) && Succeeded(e) && e.output.value > origSize
    ensures ImageSavings(mime, origSize, e) <= origSize
  {
  }

  /** `Path.rename` on POSIX: the target, if present, is silently replaced. */
  function Rename(t: Tree, src: FilePath, dst: FilePath): (r: Tree)
    requires src in t
    ensures dst in r && r[dst] == t[src]
    ensures src != dst ==> src !in r
    ensures forall k :: k != src && k != dst ==> (k in r <==> k in t) && (k in r ==> r[k] == t[k])
  {
    if src == dst then t else (t - {src})[dst := t[src]]
  }

  /** The outcome of `convert_single_image` for one file. */
  datatype StepResult = StepResult(tree: Tree, saved: int, prep: Prep)

  /** The path `cjxl` writes to: the corrected path with suffix `.jxl`. */
  function JxlPath(q: FilePath): (r: FilePath)
    requires q.name != ""
    ensures StemKey(r) == StemKey(q) && Suffix(r.name) == ".jxl"
  {
    StemKeyWithSuffix(q, ".jxl");
    SuffixOfWithSuffix(q.name, ".jxl");
    FilePath(q.dir, WithSuffix(q.name, ".jxl"))
  }

  /** The directory after `cjxl` ran: the target file exists with the reported
      size, or is absent; nothing else changes. */
  function AfterEncoder(t: Tree, jxl: FilePath, output: Option<nat>): (r: Tree)
    ensures output.Some? ==> jxl in r && r[jxl] == output.value
    ensures output.None? ==> jxl !in r
    ensures forall k :: k != jxl ==> (k in r <==> k in t) && (k in r ==> r[k] == t[k])
  {
    match output
    case Some(size) => t[jxl := size]
    case None => t - {jxl}
  }

  /** The directory after the encoder ran on the file `q`: the `.jxl` as the
      encoder left it, and `q` removed when the encoder succeeded. */
  function AfterConversion(t: Tree, q: FilePath, e: EncoderRun): (r: Tree)
    requires q.name != ""
    ensures forall k :: k != q && k != JxlPath(q) ==> (k in r <==> k in t) && (k in r ==> r[k] == t[k])
  {
    var encoded := AfterEncoder(t, JxlPath(q), e.output);
    if Succeeded(e) then encoded - {q} else encoded
  }

  /** `convert_single_image` as a function of the directory before and the
      tool answers. A missing file is something `file` reports as no image. */
  function ConvertStep(t: Tree, p: FilePath, a: ToolAnswers): StepResult
    requires p.name != ""
  {
    if p !in t || !IsConvertible(a.mime) then StepResult(t, 0, NoPrep)
    else
      var q := CorrectedPath(p, a.mime);
      StepResult(AfterConversion(Rename(t, p, q), q, a.encoder),
                 ImageSavings(a.mime, t[p], a.encoder),
                 Preprocessing(a.mime, a.colorspace))
  }

  /** A present JPEG or PNG: renamed, encoded, and credited with `ImageSavings`;
      the saving is the size as found minus the encoder's output when it succeeded. */
  lemma ConvertStepAt(t: Tree, p: FilePath, a: ToolAnswers)
    requires p.name != "" && p in t && IsConvertible(a.mime)
    ensures var q := CorrectedPath(p, a.mime);
      ConvertStep(t, p, a) == StepResult(AfterConversion(Rename(t, p, q), q, a.encoder),
                                         ImageSavings(a.mime, t[p], a.encoder),
                                         Preprocessing(a.mime, a.colorspace))
    ensures ConvertStep(t, p, a).saved == if Succeeded(a.encoder) then t[p] - a.encoder.output.value else 0
  {
  }

  /** What one image saves is `ImageSavings` of the file's size as found;
      an absent file or one that is not a JPEG/PNG is left alone. */
  lemma ConvertStepSavings(t: Tree, p: FilePath, a: ToolAnswers)
    requires p.name != ""
    ensures p in t ==> ConvertStep(t, p, a).saved == ImageSavings(a.mime, t[p], a.encoder)
    ensures p !in t ==> ConvertStep(t, p, a).saved == 0
    ensures p !in t || !IsConvertible(a.mime) ==>
              ConvertStep(t, p, a).tree == t && ConvertStep(t, p, a).prep == NoPrep
    ensures p in t && IsConvertible(a.mime) ==>
              ConvertStep(t, p, a).prep == Preprocessing(a.mime, a.colorspace)
  {
  }

  /** No candidate name has the suffix `.jxl`: the last character tells them apart. */
  lemma CandidateIsNotJxl(name: string)
    requires IsCandidateName(name)
    ensures Suffix(name) != ".jxl"
  {
  }

  /** The corrected path of a JPEG or PNG never has the suffix `.jxl`. */
  lemma CorrectedIsNotJxl(p: FilePath, mime: string)
    requires IsCandidateName(p.name) && IsConvertible(mime)
    ensures Suffix(CorrectedPath(p, mime).name) != ".jxl"
  {
    CandidateIsNotJxl(p.name);
    LowerOfLowercase(".jxl");
    if NeedsRename(p.name, mime) {
      assert Suffix(CorrectedPath(p, mime).name) == ExtensionFor(mime).value;
    }
  }

  /** For a candidate JPEG/PNG that is present: the source (under its corrected
      name) is removed exactly when the encoder succeeded, the original name is
      gone after a rename, and the `.jxl` next to it holds what the encoder produced. */
  lemma ConvertStepFiles(t: Tree, p: FilePath, a: ToolAnswers)
    requires IsCandidateName(p.name) && p in t && IsConvertible(a.mime)
    ensures var r := ConvertStep(t, p, a).tree; var q := CorrectedPath(p, a.mime);
      && (q in r <==> !Succeeded(a.encoder))
      && (p != q ==> p !in r)
      && (!Succeeded(a.encoder) ==> r[q] == t[p])
      && (a.encoder.output.Some? ==> JxlPath(q) in r && r[JxlPath(q)] == a.encoder.output.value)
  {
    var q := CorrectedPath(p, a.mime);
    CorrectedIsNotJxl(p, a.mime);
    CandidateIsNotJxl(p.name);
    assert JxlPath(q) != p;
    var renamed := Rename(t, p, q);
    assert ConvertStep(t, p, a).tree == AfterConversion(renamed, q, a.encoder);
    AfterConversionFiles(renamed, q, a.encoder);
  }

  /** The encoder's run on `q`, whose suffix is not `.jxl`: `q` stays iff the
      run failed, and then as it was; the `.jxl` holds the output, if any. */
  lemma AfterConversionFiles(u: Tree, q: FilePath, e: EncoderRun)
    requires q.name != "" && q in u && Suffix(q.name) != ".jxl"
    ensures var r := AfterConversion(u, q, e);
      && (q in r <==> !Succeeded(e))
      && (!Succeeded(e) ==> r[q] == u[q])
      && (e.output.Some? ==> JxlPath(q) in r && r[JxlPath(q)] == e.output.value)
  {
    var jxl := JxlPath(q);
    assert jxl != q;
    var encoded := AfterEncoder(u, jxl, e.output);
    assert q in encoded && encoded[q] == u[q];
  }

  /** One image step changes only the files sharing the image's stem key. */
  lemma ConvertStepFrame(t: Tree, p: FilePath, a: ToolAnswers, k: FilePath)
    requires p.name != "" && StemKey(k) != StemKey(p)
    ensures var r := ConvertStep(t, p, a).tree; (k in r <==> k in t) && (k in r ==> r[k] == t[k])
  {
    if p in t && IsConvertible(a.mime) {
      var q := CorrectedPath(p, a.mime);
      assert k != p && k != q && k != JxlPath(q);
    }
  }

  /** The glob patterns of `convert_images`, matched case-sensitively. */
  predicate IsCandidateName(name: string)
  {
    EndsWith(name, ".jpg") || EndsWith(name, ".jpeg") || EndsWith(name, ".png")
    || EndsWith(name, ".webp") || EndsWith(name, ".avif")
  }

  /** The files `convert_images` hands to the worker pool. */
  function Candidates(t: Tree): (c: set<FilePath>)
    ensures forall p :: p in c <==> p in t && IsCandidateName(p.name)
    ensures forall p :: p in c ==> p.name != ""
  {
    set p | p in t && IsCandidateName(p.name)
  }

  /** The working directory after `process_cbz` deletes `*.converted` leftovers. */
  function WithoutLeftovers(t: Tree): (r: Tree)
    ensures forall k :: k in r <==> k in t && !EndsWith(k.name, ".converted")
    ensures forall k :: k in r ==> r[k] == t[k]
  {
    map k | k in t && !EndsWith(k.name, ".converted") :: t[k]
  }
}
