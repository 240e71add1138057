/**
 * The arithmetic and the per-file decision of convert_to_heic.py: the
 * quality-to-CRF mapping of the ffmpeg fallback, the split of a Windows
 * FILETIME into its two 32-bit words, the destination of a converted file
 * and the skip / dry-run / convert loop of `run`.
 */
module Heic {
  import opened Wrappers
  import opened Paths

  function Max(a: int, b: int): int { if a >= b then a else b }
  function Min(a: int, b: int): int { if a <= b then a else b }

  /** `max(0, min(100, int(quality)))`. */
  function ClampQuality(quality: int): (q: int)
    ensures 0 <= q <= 100
    ensures 0 <= quality <= 100 ==> q == quality
    ensures quality < 0 ==> q == 0
    ensures quality > 100 ==> q == 100
  {
    Max(0, Min(100, quality))
  }

  /** Python's `int(x)` on a float: truncation toward zero. */
  function Trunc(x: real): int {
    if x >= 0.0 then x.Floor else -((-x).Floor)
  }

  /**
   * The CRF handed to ffmpeg for a requested quality: the clamped quality
   * mapped linearly by `int(40 - (q / 100.0) * 22)`, then clamped to
   * [18, 50]. The float expression is evaluated here in exact arithmetic.
   */
  function Crf(quality: int): int {
    var q := ClampQuality(quality);
    var crf := Trunc(40.0 - (q as real / 100.0) * 22.0);
    Max(18, Min(50, crf))
  }

  /** The floor of an integer divided by 50 is Euclidean division by 50. */
  lemma FloorOfQuotient(n: int)
    ensures (n as real / 50.0).Floor == n / 50
  {
    var k := n / 50;
    var m := n % 50;
    assert n == k * 50 + m && 0 <= m < 50;
    assert n as real / 50.0 == k as real + m as real / 50.0;
  }

  /** The linear step before the final clamp, as an integer: `(2000 - 11q) div 50`. */
  lemma LinearStep(q: int)
    requires 0 <= q <= 100
    ensures Trunc(40.0 - (q as real / 100.0) * 22.0) == (2000 - 11 * q) / 50
  {
    var x := 40.0 - (q as real / 100.0) * 22.0;
    assert (q as real / 100.0) * 22.0 == (11 * q) as real / 50.0;
    assert x == (2000 - 11 * q) as real / 50.0;
    FloorOfQuotient(2000 - 11 * q);
  }

  /**
   * For every integer quality the CRF is `40 - ceil(11q / 50)` on the
   * clamped quality `q`; it lies in [18, 40], so the final clamp to
   * [18, 50] never changes it.
   */
  lemma CrfClosedForm(quality: int)
    ensures var q := ClampQuality(quality);
      && Crf(quality) == 40 - (11 * q + 49) / 50
      && Trunc(40.0 - (q as real / 100.0) * 22.0) == Crf(quality)
      && 18 <= Crf(quality) <= 40
  {
    var q := ClampQuality(quality);
    LinearStep(q);
    assert (2000 - 11 * q) / 50 == 40 - (11 * q + 49) / 50;
  }

  /** Quality 100 gives 18, quality 0 gives 40, the default 90 gives 20, and 50 gives 29. */
  lemma CrfExamples()
    ensures Crf(100) == 18 && Crf(0) == 40 && Crf(90) == 20 && Crf(50) == 29
    ensures Crf(-5) == 40 && Crf(250) == 18
  {
    CrfClosedForm(100);
    CrfClosedForm(0);
    CrfClosedForm(90);
    CrfClosedForm(50);
    CrfClosedForm(-5);
    CrfClosedForm(250);
  }

  /** Asking for more quality never raises the CRF. */
  lemma CrfMonotone(q1: int, q2: int)
    requires q1 <= q2
    ensures Crf(q1) >= Crf(q2)
  {
    CrfClosedForm(q1);
    CrfClosedForm(q2);
    var a, b := ClampQuality(q1), ClampQuality(q2);
    assert a <= b;
    assert (11 * a + 49) / 50 <= (11 * b + 49) / 50;
  }

  const TwoTo32: int := 0x1_0000_0000

  /** `windows_ts & 0xFFFFFFFF` and `windows_ts >> 32` on a Python integer. */
  function SplitFileTime(windowsTs: int): (int, int) {
    (windowsTs % TwoTo32, windowsTs / TwoTo32)
  }

  /**
   * The low word is below 2^32, and the two words put together give the
   * timestamp back; this holds for every integer, as Python's `&` and `>>`
   * act on negative numbers as on infinite two's complement.
   */
  lemma SplitFileTimeRoundTrip(windowsTs: int)
    ensures var (low, high) := SplitFileTime(windowsTs);
      && 0 <= low < TwoTo32
      && high * TwoTo32 + low == windowsTs
      && (windowsTs >= 0 ==> high >= 0)
      && (0 <= windowsTs < TwoTo32 * TwoTo32 ==> high < TwoTo32)
  {
  }

  /** On an unsigned 64-bit value, masking with 0xFFFFFFFF and shifting by 32 are remainder and quotient by 2^32. */
  lemma MaskAndShiftBits(windowsTs: bv64)
    ensures windowsTs & 0xFFFF_FFFF == windowsTs % 0x1_0000_0000
    ensures windowsTs >> 32 == windowsTs / 0x1_0000_0000
  {
  }

  /**
   * `FILETIME(low, high)`: each field is a DWORD, and ctypes keeps the low
   * 32 bits of what it is given. The structure therefore holds the
   * timestamp modulo 2^64, and exactly the timestamp when it fits.
   */
  function FileTimeWords(windowsTs: int): (words: (int, int))
    ensures 0 <= words.0 < TwoTo32 && 0 <= words.1 < TwoTo32
  {
    var (low, high) := SplitFileTime(windowsTs);
    (low % TwoTo32, high % TwoTo32)
  }

  lemma FileTimeWordsValue(windowsTs: int)
    ensures var (low, high) := FileTimeWords(windowsTs);
      high * TwoTo32 + low == windowsTs % (TwoTo32 * TwoTo32)
    ensures 0 <= windowsTs < TwoTo32 * TwoTo32 ==> FileTimeWords(windowsTs) == SplitFileTime(windowsTs)
  {
    SplitFileTimeRoundTrip(windowsTs);
    var m := TwoTo32 * TwoTo32;
    var (l0, h0) := SplitFileTime(windowsTs);
    var h := h0 % TwoTo32;
    assert h0 == (h0 / TwoTo32) * TwoTo32 + h;
    assert windowsTs == (h0 / TwoTo32) * m + (h * TwoTo32 + l0);
    assert 0 <= h * TwoTo32 + l0 < m;
    ModUnique(windowsTs, h0 / TwoTo32, h * TwoTo32 + l0, m);
  }

  lemma ModUnique(n: int, k: int, r: int, m: int)
    requires m == 0x1_0000_0000_0000_0000 && 0 <= r < m && n == k * m + r
    ensures n % m == r
  {
  }

  /**
   * Whether `srcPath` is a file `find_images(src)` can yield: it lies
   * strictly below `src` and has a name.
   */
  predicate Convertible(src: Path, srcPath: Path) {
    src < srcPath && srcPath[|srcPath| - 1] != ""
  }

  /** `src_path.relative_to(src)`: the components below `src`, ending with the file's name. */
  function RelativePath(src: Path, srcPath: Path): (rel: Path)
    requires Convertible(src, srcPath)
    ensures src + rel == srcPath
    ensures rel != [] && rel[|rel| - 1] == srcPath[|srcPath| - 1]
  {
    srcPath[|src|..]
  }

  /**
   * `dst / rel.with_suffix('.heic')`: the source's place below `src`,
   * re-rooted at `dst`, with the file's suffix replaced by `.heic`.
   */
  function HeicDestination(src: Path, dst: Path, srcPath: Path): (r: Path)
    requires Convertible(src, srcPath)
    ensures |r| == |dst| + |srcPath| - |src| && r[..|dst|] == dst
    ensures r[|dst|..|r| - 1] == srcPath[|src|..|srcPath| - 1]
    ensures Suffix(r[|r| - 1]) == ".heic" && Stem(r[|r| - 1]) == Stem(srcPath[|srcPath| - 1])
  {
    var rel := RelativePath(src, srcPath);
    var name := rel[|rel| - 1];
    HeicRenameSuffix(name);
    var r := dst + rel[..|rel| - 1] + [WithSuffix(name, ".heic")];
    assert r[..|dst|] == dst;
    r
  }

  /** What `run` does with one source image. */
  datatype Action = Skip | Preview | Convert

  /** An existing destination is skipped unless overwriting; in a dry run nothing is converted. */
  function Decide(destinationExists: bool, overwrite: bool, dryRun: bool): (a: Action)
    ensures a == Convert <==> (!destinationExists || overwrite) && !dryRun
    ensures a == Skip <==> destinationExists && !overwrite
  {
    if destinationExists && !overwrite then Skip
    else if dryRun then Preview
    else Convert
  }

  /**
   * A conversion run's settings and collaborators: `existing` holds the
   * destination files present before the run, `convert` stands for
   * `convert_image_to_heic` (None on success, else its message).
   */
  datatype ConvertSettings = ConvertSettings(
    src: Path,
    dst: Path,
    overwrite: bool,
    dryRun: bool,
    existing: set<Path>,
    convert: (Path, Path) -> Option<string>)

  /**
   * The state of the loop: the `converted` counter, the `errors` list, the
   * destination files that exist, and the files written so far.
   */
  datatype ConvertState = ConvertState(converted: nat, errors: seq<(Path, string)>, existing: set<Path>, written: seq<Path>)

  predicate AllConvertible(cfg: ConvertSettings, images: seq<Path>) {
    forall k :: 0 <= k < |images| ==> Convertible(cfg.src, images[k])
  }

  /** One iteration of the loop of `run`. */
  function Step(cfg: ConvertSettings, st: ConvertState, srcPath: Path): ConvertState
    requires Convertible(cfg.src, srcPath)
  {
    var dstPath := HeicDestination(cfg.src, cfg.dst, srcPath);
    match Decide(dstPath in st.existing, cfg.overwrite, cfg.dryRun)
    case Skip => st
    case Preview => st
    case Convert =>
      match cfg.convert(srcPath, dstPath)
      case Some(msg) => st.(errors := st.errors + [(srcPath, msg)])
      case None => st.(converted := st.converted + 1, existing := st.existing + {dstPath}, written := st.written + [dstPath])
  }

  /** The loop of `run` over `images`, in order. */
  function RunAll(cfg: ConvertSettings, images: seq<Path>): ConvertState
    requires AllConvertible(cfg, images)
    decreases |images|
  {
    if images == [] then ConvertState(0, [], cfg.existing, [])
    else Step(cfg, RunAll(cfg, images[..|images| - 1]), images[|images| - 1])
  }

  predicate NoDuplicates(s: seq<Path>) {
    forall i, j :: 0 <= i < j < |s| ==> s[i] != s[j]
  }

  /** How one iteration changes the state: at most one file written or one error added. */
  lemma StepEffect(cfg: ConvertSettings, st: ConvertState, srcPath: Path)
    requires Convertible(cfg.src, srcPath)
    ensures var st' := Step(cfg, st, srcPath);
      var dstPath := HeicDestination(cfg.src, cfg.dst, srcPath);
      || st' == st
      || (cfg.convert(srcPath, dstPath).Some? && st' == st.(errors := st.errors + [(srcPath, cfg.convert(srcPath, dstPath).value)]))
      || (&& st' == st.(converted := st.converted + 1, existing := st.existing + {dstPath}, written := st.written + [dstPath])
          && (cfg.overwrite || dstPath !in st.existing))
    ensures cfg.dryRun ==> Step(cfg, st, srcPath) == st
  {
  }

  /**
   * Every image is converted, fails or is passed over: the counter equals
   * the number of files written, and with the errors it never exceeds the
   * number of images. A dry run converts and writes nothing.
   */
  lemma {:induction false} RunAllCounts(cfg: ConvertSettings, images: seq<Path>)
    requires AllConvertible(cfg, images)
    ensures var st := RunAll(cfg, images);
      && st.converted == |st.written|
      && st.converted + |st.errors| <= |images|
      && (cfg.dryRun ==> st.converted == 0 && st.errors == [] && st.written == [])
    decreases |images|
  {
    if images != [] {
      var n := |images| - 1;
      assert AllConvertible(cfg, images[..n]);
      RunAllCounts(cfg, images[..n]);
      StepEffect(cfg, RunAll(cfg, images[..n]), images[n]);
    }
  }

  /**
   * Without `--overwrite` no destination is written twice and none that
   * existed before the run is replaced; the files that exist afterwards are
   * the earlier ones and those written.
   */
  lemma {:induction false} RunAllNeverOverwrites(cfg: ConvertSettings, images: seq<Path>)
    requires AllConvertible(cfg, images)
    ensures var st := RunAll(cfg, images);
      && (forall p :: p in st.existing <==> p in cfg.existing || p in st.written)
      && (!cfg.overwrite ==> NoDuplicates(st.written) && forall p :: p in st.written ==> p !in cfg.existing)
    decreases |images|
  {
    if images != [] {
      var n := |images| - 1;
      assert AllConvertible(cfg, images[..n]);
      RunAllNeverOverwrites(cfg, images[..n]);
      StepEffect(cfg, RunAll(cfg, images[..n]), images[n]);
    }
  }

  /** The body of the loop of `run` for one source image. */
  method ConvertOne(cfg: ConvertSettings, srcPath: Path, converted: nat, errors: seq<(Path, string)>,
                    existing: set<Path>, ghost written: seq<Path>)
    returns (converted': nat, errors': seq<(Path, string)>, existing': set<Path>, ghost written': seq<Path>)
    requires Convertible(cfg.src, srcPath)
    ensures converted' == Step(cfg, ConvertState(converted, errors, existing, written), srcPath).converted
    ensures errors' == Step(cfg, ConvertState(converted, errors, existing, written), srcPath).errors
    ensures existing' == Step(cfg, ConvertState(converted, errors, existing, written), srcPath).existing
    ensures written' == Step(cfg, ConvertState(converted, errors, existing, written), srcPath).written
  {
    converted', errors', existing', written' := converted, errors, existing, written;
    var dstPath := HeicDestination(cfg.src, cfg.dst, srcPath);
    if dstPath in existing && !cfg.overwrite {
      return;
    }
    if cfg.dryRun {
      return;
    }
    var failure := cfg.convert(srcPath, dstPath);
    if failure.Some? {
      errors' := errors + [(srcPath, failure.value)];
      return;
    }
    existing' := existing + {dstPath};
    written' := written + [dstPath];
    converted' := converted + 1;
  }

  /**
   * The conversion loop of `run`. It returns the `converted` counter and the
   * `errors` list; `written` lists the destination files it produced.
   */
  method RunConversions(cfg: ConvertSettings, images: seq<Path>)
    returns (converted: nat, errors: seq<(Path, string)>, ghost written: seq<Path>)
    requires AllConvertible(cfg, images)
    ensures converted == RunAll(cfg, images).converted
    ensures errors == RunAll(cfg, images).errors
    ensures written == RunAll(cfg, images).written
  {
    converted, errors, written := 0, [], [];
    var existing := cfg.existing;
    var k := 0;
    while k < |images|
      invariant 0 <= k <= |images|
      invariant ConvertState(converted, errors, existing, written) == RunAll(cfg, images[..k])
    {
      assert images[..k + 1][..k] == images[..k];
      converted, errors, existing, written := ConvertOne(cfg, images[k], converted, errors, existing, written);
      k := k + 1;
    }
    assert images[..k] == images;
  }
}
