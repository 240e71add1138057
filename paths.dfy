/**
 * The parts of `pathlib` the two scripts rely on: a path is the sequence of
 * its components; `suffix`, `stem` and `with_suffix` work on the last one.
 * The extension filters of both scripts live here too.
 */
module Paths {
  import opened Wrappers
  import opened Text

  type Path = seq<string>

  /** `name.rfind('.')`. */
  function LastDot(name: string): (r: Option<nat>)
    ensures r.Some? ==> r.value < |name| && name[r.value] == '.'
    ensures r.Some? ==> forall k :: r.value < k < |name| ==> name[k] != '.'
    ensures r.None? ==> forall k :: 0 <= k < |name| ==> name[k] != '.'
    decreases |name|
  {
    if name == [] then None
    else if name[|name| - 1] == '.' then Some(|name| - 1)
    else LastDot(name[..|name| - 1])
  }

  /** Whether `name` has a suffix: a last dot that is neither the first nor the last character. */
  predicate HasSuffix(name: string) {
    var i := LastDot(name);
    i.Some? && 0 < i.value < |name| - 1
  }

  /** `PurePath.stem` of a file name: the name without its suffix, a prefix of it. */
  function Stem(name: string): (r: string)
    ensures r <= name
  {
    if HasSuffix(name) then name[..LastDot(name).value] else name
  }

  /** `PurePath.suffix` of a file name: empty, or a dot followed by at least one dot-free character. */
  function Suffix(name: string): (r: string)
    ensures Stem(name) + r == name
    ensures r == "" || (|r| >= 2 && r[0] == '.' && forall k :: 0 < k < |r| ==> r[k] != '.')
    ensures r != "" ==> Stem(name) != ""
  {
    if HasSuffix(name) then name[LastDot(name).value..] else ""
  }

  /** `PurePath.with_suffix(suffix)` on a file name; pathlib refuses an empty name. */
  function WithSuffix(name: string, suffix: string): string
    requires name != ""
  {
    Stem(name) + suffix
  }

  /** Lower-casing leaves every dot where it was. */
  lemma {:induction false} LastDotLower(name: string)
    ensures LastDot(Lower(name)) == LastDot(name)
    decreases |name|
  {
    if name != [] {
      assert Lower(name)[..|name| - 1] == Lower(name[..|name| - 1]);
      LastDotLower(name[..|name| - 1]);
    }
  }

  /** `path.suffix.lower()` is the suffix of the lower-cased name. */
  lemma SuffixLower(name: string)
    ensures Suffix(Lower(name)) == Lower(Suffix(name))
  {
    LastDotLower(name);
    if HasSuffix(name) {
      assert Lower(name)[LastDot(name).value..] == Lower(name[LastDot(name).value..]);
    }
  }

  /** Extensions the organiser scans for (organise_photos.py, IMAGE_EXTENSIONS). */
  const ImageExtensions: set<string> :=
    {".jpg", ".jpeg", ".png", ".tiff", ".tif", ".heic", ".heif", ".mp4", ".mov"}

  /** Extensions the converter takes as input (convert_to_heic.py, IMAGE_EXTS). */
  const SourceExtensions: set<string> := {".jpg", ".jpeg", ".png", ".tiff", ".tif"}

  /** `is_image_file`: the lower-cased suffix is one of the organiser's extensions. */
  function IsImageFile(name: string): (r: bool)
    ensures r ==> HasSuffix(name)
    ensures Lower(Suffix(name)) == ".heic" ==> r
  {
    Lower(Suffix(name)) in ImageExtensions
  }

  /** `is_source_image`: the lower-cased suffix is one of the converter's extensions. */
  function IsSourceImage(name: string): (r: bool)
    ensures r ==> HasSuffix(name)
    ensures r ==> IsImageFile(name)
    ensures Lower(Suffix(name)) == ".heic" ==> !r
  {
    Lower(Suffix(name)) in SourceExtensions
  }

  /** Both filters ignore letter case: `IMG.JPG` and `img.jpg` are treated alike. */
  lemma ExtensionFiltersIgnoreCase(name: string)
    ensures IsImageFile(Lower(name)) == IsImageFile(name)
    ensures IsSourceImage(Lower(name)) == IsSourceImage(name)
  {
    SuffixLower(name);
    LowerIdempotent(Suffix(name));
    assert Lower(Suffix(Lower(name))) == Lower(Suffix(name));
  }

  /**
   * Renaming a file to `.heic` gives a name whose suffix is `.heic`: the
   * organiser picks it up and the converter never takes it as input again.
   */
  lemma HeicRenameSuffix(name: string)
    requires name != ""
    ensures Suffix(WithSuffix(name, ".heic")) == ".heic"
    ensures Stem(WithSuffix(name, ".heic")) == Stem(name)
    ensures IsImageFile(WithSuffix(name, ".heic")) && !IsSourceImage(WithSuffix(name, ".heic"))
  {
    var stem := Stem(name);
    var r := stem + ".heic";
    assert r[|stem|] == '.';
    assert forall k :: |stem| < k < |r| ==> r[k] != '.';
    LastDotSkip(stem, ".heic");
    assert LastDot(r) == Some(|stem|);
    assert Lower(".heic") == ".heic";
  }

  /** The last dot of `a + b`, when `b` starts with its only dot. */
  lemma {:induction false} LastDotSkip(a: string, b: string)
    requires |b| >= 1 && b[0] == '.'
    requires forall k :: 0 < k < |b| ==> b[k] != '.'
    ensures LastDot(a + b) == Some(|a|)
    decreases |b|
  {
    if |b| > 1 {
      assert (a + b)[..|a + b| - 1] == a + b[..|b| - 1];
      LastDotSkip(a, b[..|b| - 1]);
    }
  }
}
