/** Names on the asset filesystem: the extension allow-list and the campaign
    folder (api/utils.py), and the per-type image file name
    (api/uploads.py). */
module FileNames {
  import opened Values
  import opened Strings
  import opened Dates

  /** `ALLOWED_EXTENSIONS`. */
  const AllowedExtensions: set<string> := {"png", "jpg", "jpeg"}

  /** `filename.rsplit(".", 1)[1]` when `"." in filename`: the text after
      the last dot. */
  function Extension(filename: string): (e: Option<string>)
    ensures e.None? <==> '.' !in filename
    ensures e.Some? ==> '.' !in e.value && |e.value| < |filename|
    ensures e.Some? ==> filename == filename[..|filename| - |e.value| - 1] + "." + e.value
  {
    if |filename| == 0 then None
    else
      var last := filename[|filename| - 1];
      if last == '.' then Some("")
      else
        var init := filename[..|filename| - 1];
        match Extension(init)
        case None => None
        case Some(e) => assert init + [last] == filename; Some(e + [last])
  }

  /** `allowed_file(filename, allowed)`. */
  predicate AllowedFile(filename: string, allowed: set<string>) {
    Extension(filename).Some? && Lower(Extension(filename).value) in allowed
  }

  /** The extension of `front + "." + e` is `e` whenever `e` has no dot. */
  lemma {:induction false} ExtensionOfSuffix(front: string, e: string)
    requires '.' !in e
    ensures Extension(front + "." + e) == Some(e)
    decreases |e|
  {
    var f := front + "." + e;
    if |e| > 0 {
      var init := e[..|e| - 1];
      assert f[..|f| - 1] == front + "." + init;
      ExtensionOfSuffix(front, init);
      assert init + [e[|e| - 1]] == e;
    }
  }

  /** The verdict depends only on the text after the last dot, compared
      lower-cased. */
  lemma AllowedFileBySuffix(front: string, e: string, allowed: set<string>)
    requires '.' !in e
    ensures AllowedFile(front + "." + e, allowed) <==> Lower(e) in allowed
  {
    ExtensionOfSuffix(front, e);
  }

  /** A name without a dot is never allowed. */
  lemma NoDotNotAllowed(filename: string, allowed: set<string>)
    requires '.' !in filename
    ensures !AllowedFile(filename, allowed)
  {
  }

  /** Allowing more extensions never rejects a file allowed before. */
  lemma AllowedFileMonotone(filename: string, a: set<string>, b: set<string>)
    requires a <= b
    ensures AllowedFile(filename, a) ==> AllowedFile(filename, b)
  {
  }

  /** The default allow-list ignores case: "a.PNG" passes. */
  lemma DefaultAllowsUpperCase()
    ensures AllowedFile("a.PNG", AllowedExtensions)
  {
    assert "a.PNG" == "a" + "." + "PNG";
    AllowedFileBySuffix("a", "PNG", AllowedExtensions);
    assert Lower("PNG") == "png";
  }

  /** Mixed case passes too: "b.JpEg". */
  lemma DefaultAllowsMixedCase()
    ensures AllowedFile("b.JpEg", AllowedExtensions)
  {
    assert "b.JpEg" == "b" + "." + "JpEg";
    AllowedFileBySuffix("b", "JpEg", AllowedExtensions);
    assert Lower("JpEg") == "jpeg";
  }

  /** Only the last extension counts: "a.png.exe" is rejected. */
  lemma DefaultAllowListLastExtension()
    ensures !AllowedFile("a.png.exe", AllowedExtensions)
  {
    assert "a.png.exe" == "a.png" + "." + "exe";
    AllowedFileBySuffix("a.png", "exe", AllowedExtensions);
    assert Lower("exe") == "exe";
  }

  /** A name that is only a dot and an extension is judged like any other:
      the stem may be empty. */
  lemma EmptyStemAllowed(e: string, allowed: set<string>)
    requires '.' !in e
    ensures AllowedFile("." + e, allowed) <==> Lower(e) in allowed
  {
    assert "." + e == "" + "." + e;
    AllowedFileBySuffix("", e, allowed);
  }

  /** A bare ".png" passes. */
  lemma DefaultAllowsEmptyStem()
    ensures AllowedFile(".png", AllowedExtensions)
  {
    EmptyStemAllowed("png", AllowedExtensions);
    assert "." + "png" == ".png";
    assert Lower("png") == "png";
  }

  /** An empty extension ("x.") or none ("png") is rejected. */
  lemma DefaultRejectsMissingExtension()
    ensures !AllowedFile("x.", AllowedExtensions)
    ensures !AllowedFile("png", AllowedExtensions)
  {
    assert "x." == "x" + "." + "";
    AllowedFileBySuffix("x", "", AllowedExtensions);
    NoDotNotAllowed("png", AllowedExtensions);
  }

  /** `os.path.join(base, name)` for a relative `name`. */
  function JoinPath(base: string, name: string): string {
    if base == "" || base[|base| - 1] == '/' then base + name else base + "/" + name
  }

  /** The path `create_campaign_folder` computes (and creates) under the
      `UPLOAD_FOLDER` setting. */
  function CampaignFolder(uploadFolder: string, start: Date): string
    requires Valid(start)
  {
    JoinPath(uploadFolder, IsoFormat(start))
  }

  /** Under one upload folder, two campaigns share a folder exactly when
      they start on the same day; the folder name is the start date. */
  lemma CampaignFolderByStartDate(uploadFolder: string, a: Date, b: Date)
    requires Valid(a) && Valid(b)
    ensures CampaignFolder(uploadFolder, a) == CampaignFolder(uploadFolder, b) <==> a == b
    ensures var f := CampaignFolder(uploadFolder, a);
      |f| >= 10 && f[|f| - 10..] == IsoFormat(a)
  {
    var fa, fb := CampaignFolder(uploadFolder, a), CampaignFolder(uploadFolder, b);
    assert fa[|fa| - 10..] == IsoFormat(a);
    assert fb[|fb| - 10..] == IsoFormat(b);
    IsoFormatInjective(a, b);
  }

  /** The file-name suffix `_get_image_filename` uses for an image type. */
  function TypeSuffix(imageType: string): string {
    if imageType == "background" then "bkg"
    else if imageType == "logo" then "logo"
    else if imageType == "screensaver" then "screensaver_bkg"
    else imageType
  }

  /** `_get_image_filename(start, image_type)`. */
  function ImageFilename(start: Date, imageType: string): string
    requires Valid(start)
  {
    IsoFormat(start) + TypeSuffix(imageType) + ".png"
  }

  /** The file name is the ISO start date, the type's suffix and `.png`,
      whatever extension the upload had. */
  lemma ImageFilenameShape(start: Date, imageType: string)
    requires Valid(start)
    ensures var f := ImageFilename(start, imageType);
      && StartsWith(f, IsoFormat(start))
      && |f| >= 14 && f[|f| - 4..] == ".png"
      && f[10..|f| - 4] == TypeSuffix(imageType)
  {
    var f := ImageFilename(start, imageType);
    assert f[..10] == IsoFormat(start);
  }

  /** The three known types get the suffixes bkg, logo and screensaver_bkg,
      hence three different files for one start date; any other type uses
      its own name, so a type literally named "bkg" would collide with
      "background". */
  lemma KnownTypesDistinctFiles(start: Date)
    requires Valid(start)
    ensures TypeSuffix("background") == "bkg"
    ensures TypeSuffix("logo") == "logo"
    ensures TypeSuffix("screensaver") == "screensaver_bkg"
    ensures ImageFilename(start, "background") != ImageFilename(start, "logo")
    ensures ImageFilename(start, "background") != ImageFilename(start, "screensaver")
    ensures ImageFilename(start, "logo") != ImageFilename(start, "screensaver")
    ensures ImageFilename(start, "bkg") == ImageFilename(start, "background")
  {
    ImageFilenameShape(start, "background");
    ImageFilenameShape(start, "logo");
    ImageFilenameShape(start, "screensaver");
  }
}
