/**
 * Upload checks and image preprocessing for the classifier.
 *
 * ImageValidator: two predicates on file metadata (size, extension) and the
 * info record of a decoded image. ImagePreprocessor: the fixed pipeline
 * load -> resize -> force RGB -> optional scaling by 1/255 -> batch dimension.
 *
 * The image library (file reading, decoding, Lanczos resampling) is foreign
 * code; it is passed in as an ImageLibrary value. Resampling is known here only
 * through its output dimensions and the 8-bit range of its output values.
 */
module Preprocessing {
  import opened Wrappers

  /** One 8-bit channel value of a decoded image. */
  type Channel = v: int | 0 <= v <= 255

  /** One byte of an encoded image file. */
  type Byte = b: int | 0 <= b <= 255

  /** The colour modes modelled: grey, grey with alpha, RGB, RGB with alpha. */
  datatype ColorMode = L | LA | RGB | RGBA

  function ChannelCount(mode: ColorMode): nat {
    match mode
    case L => 1
    case LA => 2
    case RGB => 3
    case RGBA => 4
  }

  /** A decoded raster image; pixels[y][x] holds one value per channel of the mode. */
  datatype Image = Image(width: nat, height: nat, mode: ColorMode, format: Option<string>,
                         pixels: seq<seq<seq<Channel>>>)

  /** The pixel grid matches the declared size and mode. */
  predicate WellFormed(image: Image) {
    |image.pixels| == image.height &&
    forall y :: 0 <= y < image.height ==>
      |image.pixels[y]| == image.width &&
      forall x :: 0 <= x < image.width ==> |image.pixels[y][x]| == ChannelCount(image.mode)
  }

  /** The representations `load_image` is handed: a decoded image, a path, raw bytes, an in-memory stream, or anything else. */
  datatype ImageSource =
    | Decoded(image: Image)
    | FilePath(path: string)
    | RawBytes(data: seq<Byte>)
    | ByteStream(data: seq<Byte>)
    | Unsupported(typeName: string)

  /**
   * The exceptions loading raises: ValueError, FileNotFoundError,
   * UnidentifiedImageError, and the OSError of pixel data that turns out
   * broken when it is first read.
   */
  datatype LoadError =
    | UnsupportedSourceType(typeName: string)
    | FileNotFound(path: string)
    | UnidentifiedImage
    | BrokenPixelData

  /**
   * Lanczos resampling: given the source image, the target width and height and
   * a target position x, y and channel c, the value the filter computes there.
   */
  type Resampler = (Image, nat, nat, int, int, int) -> int

  /**
   * The foreign image library: reading a file, decoding bytes, reading pixel
   * data, resampling. Opening decodes only the header; the pixel data is read
   * on first access, which pixelsLoad tells the outcome of.
   */
  datatype ImageLibrary = ImageLibrary(
    readFile: string -> Option<seq<Byte>>,
    decode: seq<Byte> -> Option<Image>,
    pixelsLoad: Image -> bool,
    lanczos: Resampler)

  /** A target width or height: the image library refuses sizes below one. */
  type Dimension = n: nat | 1 <= n witness 1

  /** The defaults of ImagePreprocessor: input_size (300, 300) and normalize on. */
  const DefaultInputSize: (Dimension, Dimension) := (300, 300)
  const DefaultNormalize: bool := true

  // ---------------------------------------------------------------------------
  // Tensors
  // ---------------------------------------------------------------------------

  /** A (height, width, channels) array of floats. */
  type Array3 = seq<seq<seq<real>>>

  /** A (batch, height, width, channels) array of floats. */
  type Tensor = seq<Array3>

  predicate HasShape3(a: Array3, h: nat, w: nat, c: nat) {
    |a| == h &&
    forall y :: 0 <= y < h ==>
      |a[y]| == w && forall x :: 0 <= x < w ==> |a[y][x]| == c
  }

  predicate HasShape4(t: Tensor, b: nat, h: nat, w: nat, c: nat) {
    |t| == b && forall i :: 0 <= i < b ==> HasShape3(t[i], h, w, c)
  }

  predicate Within3(a: Array3, lo: real, hi: real) {
    forall y, x, c :: 0 <= y < |a| && 0 <= x < |a[y]| && 0 <= c < |a[y][x]| ==>
      lo <= a[y][x][c] <= hi
  }

  predicate Within4(t: Tensor, lo: real, hi: real) {
    forall i :: 0 <= i < |t| ==> Within3(t[i], lo, hi)
  }

  // ---------------------------------------------------------------------------
  // ImageValidator
  // ---------------------------------------------------------------------------

  /** validate_file_size: a file is small enough when its size does not exceed the limit. */
  function ValidateFileSize(fileSize: int, maxSize: int): (ok: bool)
    ensures ok <==> fileSize <= maxSize
  {
    fileSize <= maxSize
  }

  /** The limit itself is accepted, one byte more is not, and smaller files stay accepted. */
  lemma FileSizeLimitIsInclusive(fileSize: int, maxSize: int)
    ensures ValidateFileSize(maxSize, maxSize)
    ensures !ValidateFileSize(maxSize + 1, maxSize)
    ensures ValidateFileSize(fileSize, maxSize) ==>
              forall smaller :: smaller <= fileSize ==> ValidateFileSize(smaller, maxSize)
  {
  }

  /** Position of the last occurrence of ch in s. */
  function LastIndexOf(s: string, ch: char): (r: Option<nat>)
    ensures r.None? <==> ch !in s
    ensures r.Some? ==> r.value < |s| && s[r.value] == ch
    ensures r.Some? ==> forall j :: r.value < j < |s| ==> s[j] != ch
  {
    if s == [] then None
    else if s[|s| - 1] == ch then Some(|s| - 1)
    else
      assert s == s[..|s| - 1] + [s[|s| - 1]];
      LastIndexOf(s[..|s| - 1], ch)
  }

  /** A suffix holds no '.' exactly when no position from k on holds one. */
  lemma DotFreeSuffix(s: string, k: nat)
    requires k <= |s|
    ensures ('.' !in s[k..]) <==> forall j :: k <= j < |s| ==> s[j] != '.'
  {
    forall j | k <= j < |s| ensures s[j] == s[k..][j - k] { }
  }

  /** ASCII lower-casing of one character. */
  function LowerChar(c: char): char {
    if 'A' <= c <= 'Z' then (c as int + 32) as char else c
  }

  function Lower(s: string): string {
    seq(|s|, i requires 0 <= i < |s| => LowerChar(s[i]))
  }

  function LowerAll(names: seq<string>): seq<string> {
    seq(|names|, i requires 0 <= i < |names| => Lower(names[i]))
  }

  /** The text after the last '.', which is what `rsplit('.', 1)[-1]` yields. */
  function ExtensionOf(filename: string): string {
    match LastIndexOf(filename, '.')
    case None => filename
    case Some(i) => filename[i + 1..]
  }

  /** validate_extension: an empty name or one without '.' is refused; otherwise the lower-cased extension must be among the lower-cased allowed ones. */
  function ValidateExtension(filename: string, allowed: seq<string>): (ok: bool)
    ensures ok <==> '.' in filename && AllowedUpToCase(ExtensionOf(filename), allowed)
    ensures ok ==> filename != "" && allowed != []
  {
    LowerAllMembership(Lower(ExtensionOf(filename)), allowed);
    if filename == "" || '.' !in filename then false
    else Lower(ExtensionOf(filename)) in LowerAll(allowed)
  }

  lemma LowerAllMembership(s: string, allowed: seq<string>)
    ensures s in LowerAll(allowed) <==> exists a :: a in allowed && Lower(a) == s
  {
    if s in LowerAll(allowed) {
      var i :| 0 <= i < |allowed| && LowerAll(allowed)[i] == s;
      assert allowed[i] in allowed;
    }
    if exists a :: a in allowed && Lower(a) == s {
      var a :| a in allowed && Lower(a) == s;
      var i :| 0 <= i < |allowed| && allowed[i] == a;
      assert LowerAll(allowed)[i] == s;
    }
  }

  /** i is the position of the last '.' of the filename. */
  predicate LastDotAt(filename: string, i: int) {
    0 <= i < |filename| && filename[i] == '.' && '.' !in filename[i + 1..]
  }

  /** ext equals one of the allowed extensions up to case. */
  predicate AllowedUpToCase(ext: string, allowed: seq<string>) {
    exists a :: a in allowed && Lower(a) == Lower(ext)
  }

  /**
   * A filename passes exactly when it has a last '.' and the text after it
   * equals an allowed extension up to case.
   */
  lemma ValidateExtensionMeaning(filename: string, allowed: seq<string>)
    ensures ValidateExtension(filename, allowed) <==>
              exists i :: LastDotAt(filename, i) && AllowedUpToCase(filename[i + 1..], allowed)
  {
    var r := LastIndexOf(filename, '.');
    if r.Some? {
      var ext := filename[r.value + 1..];
      assert ExtensionOf(filename) == ext;
      LowerAllMembership(Lower(ext), allowed);
      DotFreeSuffix(filename, r.value + 1);
      assert LastDotAt(filename, r.value);
      if exists i :: LastDotAt(filename, i) && AllowedUpToCase(filename[i + 1..], allowed) {
        var i :| LastDotAt(filename, i) && AllowedUpToCase(filename[i + 1..], allowed);
        DotFreeSuffix(filename, i + 1);
        assert i == r.value;
      }
    }
  }

  /** Positions of '.' do not move under lower-casing, so neither does the last one. */
  lemma LastDotIgnoresCase(f: string, g: string)
    requires Lower(f) == Lower(g)
    ensures LastIndexOf(f, '.') == LastIndexOf(g, '.')
  {
    assert |f| == |Lower(f)| == |g|;
    forall i | 0 <= i < |f| ensures f[i] == '.' <==> g[i] == '.' {
      assert LowerChar(f[i]) == Lower(f)[i] == Lower(g)[i] == LowerChar(g[i]);
    }
  }

  /** The filename's case does not matter: names equal up to case are judged alike. */
  lemma ExtensionCheckIgnoresFilenameCase(f: string, g: string, allowed: seq<string>)
    requires Lower(f) == Lower(g)
    ensures ValidateExtension(f, allowed) == ValidateExtension(g, allowed)
  {
    LastDotIgnoresCase(f, g);
    var r := LastIndexOf(f, '.');
    if r.Some? {
      assert Lower(f[r.value + 1..]) == Lower(f)[r.value + 1..];
      assert Lower(g[r.value + 1..]) == Lower(g)[r.value + 1..];
    }
  }

  lemma LowerIdempotent(s: string)
    ensures Lower(Lower(s)) == Lower(s)
  {
  }

  /** The allowed list's case does not matter either. */
  lemma ExtensionCheckIgnoresAllowedCase(f: string, allowed: seq<string>)
    ensures ValidateExtension(f, allowed) == ValidateExtension(f, LowerAll(allowed))
  {
    var lowered := LowerAll(allowed);
    assert LowerAll(lowered) == lowered by {
      forall i | 0 <= i < |lowered| ensures LowerAll(lowered)[i] == lowered[i] {
        LowerIdempotent(allowed[i]);
      }
    }
  }

  /** For "name.ext" with a dot-free extension, the check is membership of the lower-cased extension. */
  lemma ExtensionOfJoinedName(base: string, ext: string, allowed: seq<string>)
    requires '.' !in ext
    ensures ValidateExtension(base + "." + ext, allowed) <==> AllowedUpToCase(ext, allowed)
  {
    var f := base + "." + ext;
    assert f[|base|] == '.';
    assert forall j :: |base| < j < |f| ==> f[j] == ext[j - |base| - 1];
    assert f[|base| + 1..] == ext;
    LowerAllMembership(Lower(ext), allowed);
  }

  /** Configured upload rules: an upper-case "PNG" passes against the lower-case list. */
  lemma UpperCaseExtensionAccepted()
    ensures ValidateExtension("test_image.PNG", ["jpg", "jpeg", "png", "bmp"])
  {
    var allowed := ["jpg", "jpeg", "png", "bmp"];
    var upper, lower := Lower("PNG"), Lower("png");
    assert upper[0] == lower[0] && upper[1] == lower[1] && upper[2] == lower[2];
    assert upper == lower;
    assert allowed[2] in allowed;
    assert AllowedUpToCase("PNG", allowed);
    ExtensionOfJoinedName("test_image", "PNG", allowed);
    assert "test_image.PNG" == "test_image" + "." + "PNG";
  }

  /** An empty name or a name without any '.' is refused, whatever the allowed list holds. */
  lemma BareNameRefused(filename: string, allowed: seq<string>)
    requires filename == "" || '.' !in filename
    ensures !ValidateExtension(filename, allowed)
  {
  }

  /** What get_image_info reports about a decoded image. */
  datatype ImageInfo = ImageInfo(width: nat, height: nat, format: string, mode: ColorMode)

  /** get_image_info: size and mode copied, format "Unknown" when the image has none (None or empty). */
  function GetImageInfo(image: Image): (info: ImageInfo)
    ensures info.width == image.width && info.height == image.height && info.mode == image.mode
    ensures image.format == Some(info.format) ||
            (info.format == "Unknown" && (image.format.None? || image.format == Some("")))
    ensures info.format != ""
  {
    ImageInfo(image.width, image.height,
              if image.format.None? || image.format.value == "" then "Unknown" else image.format.value,
              image.mode)
  }

  // ---------------------------------------------------------------------------
  // ImagePreprocessor
  // ---------------------------------------------------------------------------

  /** PIL's convert('RGB') on one pixel: grey is replicated, alpha is dropped without compositing. */
  function RgbPixel(mode: ColorMode, px: seq<Channel>): (rgb: seq<Channel>)
    requires |px| == ChannelCount(mode)
    ensures |rgb| == 3
    ensures mode == RGB ==> rgb == px
    ensures mode == RGBA ==> rgb == px[..3]
    ensures mode in {L, LA} ==> rgb[0] == rgb[1] == rgb[2] == px[0]
  {
    match mode
    case L => [px[0], px[0], px[0]]
    case LA => [px[0], px[0], px[0]]
    case RGB => px
    case RGBA => px[..3]
  }

  /** PIL's convert('RGB') on a whole image. */
  function ConvertToRgb(image: Image): (r: Image)
    requires WellFormed(image)
    ensures WellFormed(r) && r.mode == RGB
    ensures r.width == image.width && r.height == image.height
    ensures forall y, x :: 0 <= y < r.height && 0 <= x < r.width ==>
              r.pixels[y][x] == RgbPixel(image.mode, image.pixels[y][x])
  {
    Image(image.width, image.height, RGB, None,
          seq(image.height, y requires 0 <= y < image.height =>
            seq(image.width, x requires 0 <= x < image.width =>
              RgbPixel(image.mode, image.pixels[y][x]))))
  }

  /** The mode step of normalize_image: only a non-RGB image is converted. */
  function AsRgb(image: Image): (r: Image)
    requires WellFormed(image)
    ensures WellFormed(r) && r.mode == RGB
    ensures r.width == image.width && r.height == image.height
    ensures image.mode == RGB ==> r == image
  {
    if image.mode != RGB then ConvertToRgb(image) else image
  }

  /** One output row of the resampled image, each value saturated to 8 bits. */
  function ResampledRow(image: Image, w: nat, h: nat, y: int, lib: ImageLibrary): (row: seq<seq<Channel>>)
    ensures |row| == w
    ensures forall x :: 0 <= x < w ==> |row[x]| == ChannelCount(image.mode)
  {
    seq(w, x => ResampledPixel(image, w, h, x, y, lib))
  }

  function ResampledPixel(image: Image, w: nat, h: nat, x: int, y: int, lib: ImageLibrary): (px: seq<Channel>)
    ensures |px| == ChannelCount(image.mode)
  {
    // The library saturates each resampled value to the 8-bit range.
    seq(ChannelCount(image.mode), c =>
      var v := lib.lanczos(image, w, h, x, y, c);
      if v < 0 then 0 else if v > 255 then 255 else v)
  }

  /** np.array(image, dtype=float32) on an RGB image: the values unchanged, as floats. */
  function FloatArray(rgb: Image): (a: Array3)
    requires WellFormed(rgb) && rgb.mode == RGB
    ensures HasShape3(a, rgb.height, rgb.width, 3)
    ensures Within3(a, 0.0, 255.0)
    ensures forall y, x, c :: 0 <= y < rgb.height && 0 <= x < rgb.width && 0 <= c < 3 ==>
              a[y][x][c] == rgb.pixels[y][x][c] as real
  {
    seq(rgb.height, y requires 0 <= y < rgb.height =>
      seq(rgb.width, x requires 0 <= x < rgb.width =>
        seq(3, c requires 0 <= c < 3 => rgb.pixels[y][x][c] as real)))
  }

  /** The preprocessor's configuration: input_size is (width, height). */
  datatype ImagePreprocessor = ImagePreprocessor(inputSize: (Dimension, Dimension), normalize: bool) {

    /** Largest value a produced tensor can hold. */
    function Ceiling(): real {
      if normalize then 1.0 else 255.0
    }

    function Scaled(v: Channel): (f: real)
      ensures 0.0 <= f <= Ceiling()
      ensures f * (if normalize then 255.0 else 1.0) == v as real
    {
      if normalize then v as real / 255.0 else v as real
    }

    /** load_image: dispatch on the representation of the source. */
    function LoadImage(source: ImageSource, lib: ImageLibrary): (r: Result<Image, LoadError>)
      ensures source.Decoded? ==> r == Ok(source.image)
      ensures source.Unsupported? ==> r == Err(UnsupportedSourceType(source.typeName))
      ensures source.FilePath? && lib.readFile(source.path).None? ==> r == Err(FileNotFound(source.path))
      ensures source.FilePath? && lib.readFile(source.path).Some? ==> r == Open(lib.readFile(source.path).value, lib)
      ensures (source.RawBytes? || source.ByteStream?) ==> r == Open(source.data, lib)
      ensures (source.RawBytes? || source.ByteStream?) ==>
                (r.Ok? <==> lib.decode(source.data).Some?)
    {
      match source
      case Decoded(image) => Ok(image)
      case FilePath(path) =>
        (match lib.readFile(path)
         case None => Err(FileNotFound(path))
         case Some(data) => Open(data, lib))
      case RawBytes(data) => Open(data, lib)
      case ByteStream(data) => Open(data, lib)
      case Unsupported(typeName) => Err(UnsupportedSourceType(typeName))
    }

    /** Image.open on encoded bytes. */
    function Open(data: seq<Byte>, lib: ImageLibrary): (r: Result<Image, LoadError>)
      ensures r.Ok? <==> lib.decode(data).Some?
      ensures r.Ok? ==> r.value == lib.decode(data).value
      ensures r.Err? ==> r.error == UnidentifiedImage
    {
      match lib.decode(data)
      case None => Err(UnidentifiedImage)
      case Some(image) => Ok(image)
    }

    /** resize_image: exactly input_size, aspect ratio not kept, mode kept, values as resampled and saturated. */
    function ResizeImage(image: Image, lib: ImageLibrary): (r: Image)
      ensures WellFormed(r)
      ensures r.width == inputSize.0 && r.height == inputSize.1 && r.mode == image.mode
    {
      var (w, h) := inputSize;
      Image(w, h, image.mode, None, seq(h, y => ResampledRow(image, w, h, y, lib)))
    }

    /** normalize_image: force RGB, then convert to floats, scaled to [0,1] when normalize is set. */
    function NormalizeImage(image: Image): (a: Array3)
      requires WellFormed(image)
      ensures HasShape3(a, image.height, image.width, 3)
      ensures Within3(a, 0.0, Ceiling())
      ensures forall y, x, c :: 0 <= y < image.height && 0 <= x < image.width && 0 <= c < 3 ==>
                a[y][x][c] * (if normalize then 255.0 else 1.0) == AsRgb(image).pixels[y][x][c] as real
    {
      var rgb := AsRgb(image);
      seq(rgb.height, y requires 0 <= y < rgb.height =>
        seq(rgb.width, x requires 0 <= x < rgb.width =>
          seq(3, c requires 0 <= c < 3 => Scaled(rgb.pixels[y][x][c]))))
    }

    /**
     * Whether source loads and its pixel data can then be read, which resizing
     * does first.
     */
    predicate Readable(source: ImageSource, lib: ImageLibrary) {
      LoadImage(source, lib).Ok? && lib.pixelsLoad(LoadImage(source, lib).value)
    }

    /**
     * preprocess: load, resize, normalize, add a batch dimension of one.
     * Resizing reads the pixel data, so a broken image fails there.
     */
    function Preprocess(source: ImageSource, lib: ImageLibrary): (r: Result<Tensor, LoadError>)
      ensures r.Ok? <==> Readable(source, lib)
      ensures LoadImage(source, lib).Err? ==> r == Err(LoadImage(source, lib).error)
      ensures LoadImage(source, lib).Ok? && r.Err? ==> r.error == BrokenPixelData
      ensures r.Ok? ==> HasShape4(r.value, 1, inputSize.1, inputSize.0, 3)
      ensures r.Ok? ==> Within4(r.value, 0.0, Ceiling())
    {
      match LoadImage(source, lib)
      case Err(e) => Err(e)
      case Ok(image) =>
        if !lib.pixelsLoad(image) then Err(BrokenPixelData)
        else Ok([NormalizeImage(ResizeImage(image, lib))])
    }

    /** preprocess_for_model_with_rescaling: the same steps, written out, without scaling. */
    function PreprocessForModelWithRescaling(source: ImageSource, lib: ImageLibrary): (r: Result<Tensor, LoadError>)
      ensures r.Ok? <==> Readable(source, lib)
      ensures LoadImage(source, lib).Err? ==> r == Err(LoadImage(source, lib).error)
      ensures LoadImage(source, lib).Ok? && r.Err? ==> r.error == BrokenPixelData
      ensures r.Ok? ==> HasShape4(r.value, 1, inputSize.1, inputSize.0, 3) && Within4(r.value, 0.0, 255.0)
    {
      match LoadImage(source, lib)
      case Err(e) => Err(e)
      case Ok(image) =>
        if !lib.pixelsLoad(image) then Err(BrokenPixelData)
        else Ok([FloatArray(AsRgb(ResizeImage(image, lib)))])
    }

    /** The rescaling variant is preprocess with normalize switched off, so its values lie in [0,255]. */
    lemma RescalingVariantIsUnnormalized(source: ImageSource, lib: ImageLibrary)
      ensures PreprocessForModelWithRescaling(source, lib) == ImagePreprocessor(inputSize, false).Preprocess(source, lib)
      ensures PreprocessForModelWithRescaling(source, lib).Ok? ==>
                HasShape4(PreprocessForModelWithRescaling(source, lib).value, 1, inputSize.1, inputSize.0, 3) &&
                Within4(PreprocessForModelWithRescaling(source, lib).value, 0.0, 255.0)
    {
      var raw := ImagePreprocessor(inputSize, false);
      assert raw.LoadImage(source, lib) == LoadImage(source, lib);
      if Readable(source, lib) {
        var image := LoadImage(source, lib).value;
        var resized := ResizeImage(image, lib);
        assert raw.ResizeImage(image, lib) == resized;
        UnscaledIsFloatArray(resized);
      }
    }
  }

  /** Without normalize, normalize_image is the plain float conversion of the RGB image. */
  lemma UnscaledIsFloatArray(image: Image)
    requires WellFormed(image)
    ensures forall size :: ImagePreprocessor(size, false).NormalizeImage(image) == FloatArray(AsRgb(image))
  {
    var rgb := AsRgb(image);
    var b := FloatArray(rgb);
    forall size ensures ImagePreprocessor(size, false).NormalizeImage(image) == b {
      var a := ImagePreprocessor(size, false).NormalizeImage(image);
      forall y | 0 <= y < rgb.height ensures a[y] == b[y] {
        forall x | 0 <= x < rgb.width ensures a[y][x] == b[y][x] {
          assert forall c :: 0 <= c < 3 ==> a[y][x][c] == b[y][x][c];
        }
      }
    }
  }

  /** Every mode whose pixel data reads ends with three channels: RGB is left alone, the others are converted. */
  lemma ThreeChannelsForEveryMode(pre: ImagePreprocessor, image: Image, lib: ImageLibrary)
    requires lib.pixelsLoad(image)
    ensures pre.Preprocess(Decoded(image), lib).Ok?
    ensures HasShape4(pre.Preprocess(Decoded(image), lib).value, 1, pre.inputSize.1, pre.inputSize.0, 3)
    ensures var resized := pre.ResizeImage(image, lib);
            forall y, x, c :: 0 <= y < pre.inputSize.1 && 0 <= x < pre.inputSize.0 && 0 <= c < 3 ==>
              pre.Preprocess(Decoded(image), lib).value[0][y][x][c] * (if pre.normalize then 255.0 else 1.0) ==
              RgbPixel(image.mode, resized.pixels[y][x])[c] as real
  {
    var resized := pre.ResizeImage(image, lib);
    assert pre.Preprocess(Decoded(image), lib).value[0] == pre.NormalizeImage(resized);
    if image.mode == RGB {
      assert AsRgb(resized) == resized;
    }
  }
}
