/** The start-up decisions of `main` (resnet50_inference.cpp lines 147-181),
    taken on flags that are already parsed: whether to print help, whether
    the precision flags conflict, and which engine file and image to use. */
module Options {
  import opened Wrappers

  datatype Precision = Int8 | Fp16 | Fp32

  /** The parsed command line: `-h`, `-8`, `-16`, `-32` as booleans and the
      optional `-e`/`--engine` and `-i`/`--image` values. */
  datatype Flags = Flags(
    help: bool,
    int8: bool,
    fp16: bool,
    fp32: bool,
    engine: Option<string>,
    image: Option<string>)

  /** What inference then runs with. */
  datatype Settings = Settings(precision: Precision, engineFile: string, imagePath: string)

  /** How start-up ends: usage text and status 0, the precision conflict and
      status 1, or on to loading the engine. */
  datatype Startup = ShowHelp | PrecisionConflict | Proceed(settings: Settings)

  const Int8Engine := "data/ResNet50_int8.engine"
  const Fp16Engine := "data/ResNet50_fp16.engine"
  const Fp32Engine := "data/ResNet50_fp32.engine"
  const DefaultImage := "data/binoculars.jpeg"

  /** The engine file a precision uses when `--engine` is absent. */
  function DefaultEngine(p: Precision): string {
    match p
    case Int8 => Int8Engine
    case Fp16 => Fp16Engine
    case Fp32 => Fp32Engine
  }

  /** The exit status start-up ends with, or `None` when the program goes
      on. */
  function ExitStatus(s: Startup): (code: Option<int>)
    ensures code.Some? <==> !s.Proceed?
    ensures code == Some(0) <==> s.ShowHelp?
    ensures code == Some(1) <==> s.PrecisionConflict?
  {
    match s
    case ShowHelp => Some(0)
    case PrecisionConflict => Some(1)
    case Proceed(_) => None
  }

  /** Lines 147-181 in their own order: help first, then the conflict check,
      then the engine file chosen in the branch of the selected precision,
      then the image path. */
  function Start(f: Flags): (s: Startup)
    ensures s.ShowHelp? <==> f.help
    ensures s.PrecisionConflict? <==> !f.help && f.int8 && f.fp16
    ensures s.Proceed? ==>
      && (s.settings.precision == Int8 <==> f.int8)
      && (s.settings.precision == Fp16 <==> f.fp16)
      && (s.settings.precision == Fp32 <==> !f.int8 && !f.fp16)
    ensures s.Proceed? ==> s.settings.engineFile == f.engine.GetOr(DefaultEngine(s.settings.precision))
    ensures s.Proceed? ==> s.settings.imagePath == f.image.GetOr(DefaultImage)
  {
    if f.help then ShowHelp
    else if f.fp16 && f.int8 then PrecisionConflict
    else
      var precision := if f.int8 then Int8 else if f.fp16 then Fp16 else Fp32;
      var engineFile :=
        if f.int8 then (if f.engine.Some? then f.engine.value else Int8Engine)
        else if f.fp16 then (if f.engine.Some? then f.engine.value else Fp16Engine)
        else (if f.engine.Some? then f.engine.value else Fp32Engine);
      var imagePath := if f.image.Some? then f.image.value else DefaultImage;
      Proceed(Settings(precision, engineFile, imagePath))
  }

  /** The precision announced on the console (lines 172-178), which checks
      FP16 before INT8, the reverse of the selection order. */
  function Announced(f: Flags): (p: Precision)
    ensures p == Fp16 <==> f.fp16
    ensures p == Int8 <==> f.int8 && !f.fp16
    ensures p == Fp32 <==> !f.int8 && !f.fp16
  {
    if f.fp16 then Fp16
    else if f.int8 then Int8
    else Fp32
  }

  /** The announcement names the precision whose engine was chosen exactly
      when the two flags do not conflict; the conflict check is what makes
      the two orders agree. */
  lemma AnnouncedIsSelected(f: Flags)
    requires !f.help
    ensures Start(f).Proceed? ==> Announced(f) == Start(f).settings.precision
    ensures f.int8 && f.fp16 ==> Announced(f) == Fp16 && Start(f) == PrecisionConflict
  {
  }

  /** `-32` is accepted and ignored: it changes nothing. */
  lemma Fp32FlagIgnored(f: Flags)
    ensures Start(f.(fp32 := true)) == Start(f.(fp32 := false))
  {
  }

  /** With no precision flag the engine file is the FP32 artifact. */
  lemma DefaultsToFp32(f: Flags)
    requires !f.help && !f.int8 && !f.fp16 && f.engine.None?
    ensures Start(f) == Proceed(Settings(Fp32, Fp32Engine, f.image.GetOr(DefaultImage)))
  {
  }

  /** `--engine` wins whatever the precision, and `--image` likewise. */
  lemma OverridesWin(f: Flags, engine: string, image: string)
    requires !f.help && !(f.int8 && f.fp16)
    ensures var s := Start(f.(engine := Some(engine), image := Some(image)));
      s.Proceed? && s.settings.engineFile == engine && s.settings.imagePath == image
  {
  }
}
