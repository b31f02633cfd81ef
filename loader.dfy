/**
 * The loader's driver: dispatch on the lowercased extension, the RAW path
 * (decode, reject non-integer payloads, record Make and Model, demosaic,
 * wrap the bytes as an RGB image) and the standard path.  The decoders,
 * the clock and the per-channel conditioning are parameters.
 */
module Loader {
  import opened Wrappers
  import opened Paths
  import opened Demosaic

  /**
   * A decoded image (the image crate's `DynamicImage`): the RGB buffer the
   * RAW path builds, or whatever other variant the standard decoder returns.
   */
  datatype DynamicImage =
    | ImageRgb8(width: nat, height: nat, data: seq<byte>)
    | OtherVariant(width: nat, height: nat)

  /** The `HashMap<String, String>` of metadata. */
  type Metadata = map<string, string>

  /** `LoadedImage`; `loadTime` is the elapsed time read from the clock, in whatever unit it reports. */
  datatype LoadedImage = LoadedImage(image: DynamicImage, exif: Metadata, loadTime: nat)

  /** rawloader's `RawImageData`: integer samples, or floating-point ones (kept as bit patterns). */
  datatype RawImageData = Integer(samples: seq<u16>) | Float(values: seq<F32>)

  /** The fields of rawloader's `RawImage` that `load_raw` reads. */
  datatype RawImage = RawImage(
    make: string, model: string,
    width: nat, height: nat,
    cfaName: string,
    whitelevels: seq<u16>, blacklevels: seq<u16>, wbCoeffs: seq<F32>,
    data: RawImageData)

  /**
   * What a decoded RAW image must satisfy for `load_raw` to run without a
   * panic: rawloader's four-entry calibration arrays and, for an integer
   * payload (the only one that reaches the demosaic loop), a frame the loop
   * can walk and samples that cover it.
   */
  predicate WellFormed(raw: RawImage)
  {
    |raw.whitelevels| == 4 && |raw.blacklevels| == 4 && |raw.wbCoeffs| == 4 &&
    (raw.data.Integer? ==>
      raw.height >= 1 && (raw.width >= 1 || raw.height <= 2) &&
      |raw.data.samples| >= raw.width * raw.height)
  }

  const RAW_EXTENSIONS: set<string> := {"nef", "cr2", "dng", "arw"}

  const UNSUPPORTED_RAW := "Unsupported raw data format"
  const BUFFER_FAILED := "Failed to create image buffer"

  /** The extension, lowercased, or "" when the path has none. */
  function LowercaseExtension(path: Path): string
  {
    match Extension(path)
    case None => ""
    case Some(ext) => LowerAscii(ext)
  }

  /** The dispatch of `load_image`: the RAW decoder for nef, cr2, dng and arw, in any case. */
  predicate TakesRawPath(path: Path)
  {
    LowercaseExtension(path) in RAW_EXTENSIONS
  }

  const U32_LIMIT: nat := 0x1_0000_0000

  /** `ImageBuffer::from_raw` for RGB: accepted when the container holds at least width * height * 3 bytes. */
  function FromRaw(width: nat, height: nat, buf: seq<byte>): Option<DynamicImage>
    requires width < U32_LIMIT && height < U32_LIMIT
  {
    if width * height * 3 <= |buf| then Some(ImageRgb8(width, height, buf)) else None
  }

  /** `load_standard`: the standard decoder's image with an empty metadata map, or its error. */
  function LoadStandard(outcome: Result<DynamicImage>): (r: Result<(DynamicImage, Metadata)>)
    ensures r.Ok? <==> outcome.Ok?
    ensures r.Ok? ==> r.value.0 == outcome.value && r.value.1 == map[]
    ensures r.Err? ==> r.error == outcome.error
  {
    match outcome
    case Err(e) => Err(e)
    case Ok(img) => Ok((img, map[]))
  }

  lemma MulMonotone(a: nat, b: nat, c: nat, d: nat)
    requires a <= c && b <= d
    ensures a * b <= c * d
  {
    assert a * b <= c * b by {
      assert (c - a) * b >= 0;
    }
    assert c * b <= c * d by {
      assert c * (d - b) >= 0;
    }
  }

  /**
   * The outcome `load_raw` produces from the decoder's outcome: the
   * decoder's error; the unsupported-payload error for floating-point
   * samples; otherwise the demosaiced buffer under the `as u32` dimensions,
   * with metadata holding exactly Make and Model.  The buffer always fits,
   * so the buffer error is never produced.
   */
  function RawLoadSpec(decoded: Result<RawImage>, tone: ToneCurve): (r: Result<(DynamicImage, Metadata)>)
    requires decoded.Ok? ==> WellFormed(decoded.value)
    ensures r.Ok? <==> decoded.Ok? && decoded.value.data.Integer?
    ensures decoded.Err? ==> r == Err(decoded.error)
    ensures decoded.Ok? && decoded.value.data.Float? ==> r == Err(UNSUPPORTED_RAW)
    ensures r.Ok? ==>
      var raw := decoded.value;
      r.value.1 == map["Make" := raw.make, "Model" := raw.model] &&
      r.value.1.Keys == {"Make", "Model"} &&
      r.value.0 == ImageRgb8(raw.width % U32_LIMIT, raw.height % U32_LIMIT,
        Demosaiced(Mosaic(raw.data.samples, raw.width, raw.height, raw.cfaName),
                   Levels(raw.whitelevels, raw.blacklevels, raw.wbCoeffs), tone))
  {
    match decoded
    case Err(e) => Err(e)
    case Ok(raw) =>
      if raw.data.Float? then Err(UNSUPPORTED_RAW)
      else
        var buf := Demosaiced(Mosaic(raw.data.samples, raw.width, raw.height, raw.cfaName),
                              Levels(raw.whitelevels, raw.blacklevels, raw.wbCoeffs), tone);
        var w, h := raw.width % U32_LIMIT, raw.height % U32_LIMIT;
        MulMonotone(w, h, raw.width, raw.height);
        match FromRaw(w, h, buf)
        case None => Err(BUFFER_FAILED)
        case Some(image) => Ok((image, map["Make" := raw.make, "Model" := raw.model]))
  }

  /** `load_raw`, with rawloader's `decode_file` as a parameter. */
  method LoadRaw(path: Path, decodeFile: Path -> Result<RawImage>, tone: ToneCurve)
    returns (r: Result<(DynamicImage, Metadata)>)
    requires decodeFile(path).Ok? ==> WellFormed(decodeFile(path).value)
    ensures r == RawLoadSpec(decodeFile(path), tone)
  {
    var decoded := decodeFile(path);
    if decoded.Err? {
      return Err(decoded.error);
    }
    var raw := decoded.value;
    var width, height := raw.width, raw.height;

    var exifMap: Metadata := map[];
    exifMap := exifMap["Make" := raw.make];
    exifMap := exifMap["Model" := raw.model];

    if !raw.data.Integer? {
      return Err(UNSUPPORTED_RAW);
    }
    var dataU16 := raw.data.samples;

    var rgbU8 := DemosaicBilinear(dataU16, width, height, raw.cfaName,
                                  raw.whitelevels, raw.blacklevels, raw.wbCoeffs, tone);

    var buffer := FromRaw(width % U32_LIMIT, height % U32_LIMIT, rgbU8);
    if buffer.None? {
      return Err(BUFFER_FAILED);
    }
    return Ok((buffer.value, exifMap));
  }

  /**
   * `load_image`: the RAW path exactly when the lowercased extension is
   * nef, cr2, dng or arw, the standard path otherwise (also for a path
   * without extension); on success the record carries the clock's elapsed
   * time.  The decoder of the path not taken is never consulted.
   */
  method LoadImage(path: Path, openImage: Path -> Result<DynamicImage>, decodeFile: Path -> Result<RawImage>,
                   tone: ToneCurve, elapsed: nat)
    returns (r: Result<LoadedImage>)
    requires TakesRawPath(path) && decodeFile(path).Ok? ==> WellFormed(decodeFile(path).value)
    ensures TakesRawPath(path) ==>
      var d := RawLoadSpec(decodeFile(path), tone);
      r == if d.Ok? then Ok(LoadedImage(d.value.0, d.value.1, elapsed)) else Err(d.error)
    ensures !TakesRawPath(path) ==>
      r == if openImage(path).Ok? then Ok(LoadedImage(openImage(path).value, map[], elapsed)) else Err(openImage(path).error)
  {
    var extension := LowercaseExtension(path);
    var loaded: Result<(DynamicImage, Metadata)>;
    if extension in RAW_EXTENSIONS {
      loaded := LoadRaw(path, decodeFile, tone);
    } else {
      loaded := LoadStandard(openImage(path));
    }
    if loaded.Err? {
      return Err(loaded.error);
    }
    var (image, exif) := loaded.value;
    return Ok(LoadedImage(image, exif, elapsed));
  }

  /**
   * For a file named stem.ext (non-empty stem, dot-free ext) in any
   * directory, the RAW path is taken exactly when ext, lowercased, is one
   * of nef, cr2, dng, arw.
   */
  lemma DispatchByFileName(dir: seq<Component>, stem: string, ext: string)
    requires stem != [] && '.' !in ext && stem + "." + ext != ".."
    ensures TakesRawPath(Path(dir + [Normal(stem + "." + ext)])) <==> LowerAscii(ext) in RAW_EXTENSIONS
  {
    NameExtensionSplits(stem, ext);
  }

  lemma LowerNef()
    ensures LowerAscii("NEF") == "nef"
  {
    var lower := LowerAscii("NEF");
    assert lower[0] == 'n' && lower[1] == 'e' && lower[2] == 'f';
  }

  lemma LowerJpg()
    ensures LowerAscii("jpg") == "jpg"
  {
    var lower := LowerAscii("jpg");
    assert lower[0] == 'j' && lower[1] == 'p' && lower[2] == 'g';
  }

  /** Extensions are matched without regard to case. */
  lemma UpperCaseRawExtension()
    ensures TakesRawPath(Path([Normal("DSC_0001.NEF")]))
  {
    var name := "DSC_0001.NEF";
    assert name == "DSC_0001" + "." + "NEF";
    NameExtensionSplits("DSC_0001", "NEF");
    var path := Path([Normal(name)]);
    assert FileName(path) == Some(name);
    assert Extension(path) == Some("NEF");
    LowerNef();
    assert LowercaseExtension(path) == "nef";
  }

  /** A file named ".nef" has no extension (its only dot starts the name), so it takes the standard path. */
  lemma DotFileIsStandard()
    ensures !TakesRawPath(Path([Normal(".nef")]))
  {
    var path := Path([Normal(".nef")]);
    assert FileName(path) == Some(".nef");
    NameWithoutStemHasNoExtension(".nef");
    assert Extension(path) == None;
    assert LowercaseExtension(path) == "";
  }

  /** Only the last extension counts. */
  lemma LastExtensionDecides()
    ensures !TakesRawPath(Path([Normal("photo.nef.jpg")]))
  {
    var name := "photo.nef.jpg";
    assert name == "photo.nef" + "." + "jpg";
    NameExtensionSplits("photo.nef", "jpg");
    var path := Path([Normal(name)]);
    assert FileName(path) == Some(name);
    assert Extension(path) == Some("jpg");
    LowerJpg();
    assert LowercaseExtension(path) == "jpg";
  }
}
