/**
 * Choosing a capture date and an optional coordinate from the tag map that
 * exifread produced for one file (organise_photos.py, `_dms_to_decimal` and
 * the second half of `extract_exif_date_and_gps`). Reading the file,
 * decoding HEIF and `strptime` are not modelled: the tag map is an input and
 * the date parser is a parameter.
 */
module Metadata {
  import opened Wrappers

  /** An EXIF rational; the RATIONAL type of EXIF is unsigned. */
  datatype Ratio = Ratio(num: nat, den: nat)

  /** One entry of the tag map: what `str(tag)` gives and what `tag.values` holds. */
  datatype Tag = Tag(text: string, values: seq<Ratio>)

  type Tags = map<string, Tag>

  type Year = y: int | 1 <= y <= 9999 witness 1
  type Month = m: int | 1 <= m <= 12 witness 1

  /** A naive `datetime`; its year and month ranges are those `datetime` enforces. */
  datatype DateTime = DateTime(year: Year, month: Month, day: nat, hour: nat, minute: nat, second: nat)

  /** A (latitude, longitude) pair in decimal degrees. */
  type Coordinate = (real, real)

  /** `float(r.num) / float(r.den)`, defined when the denominator is not zero. */
  function RatioValue(r: Ratio): (v: real)
    requires r.den != 0
    ensures v >= 0.0
  {
    r.num as real / r.den as real
  }

  /** Whether the three degree, minute and second components can be read. */
  predicate DmsReadable(dms: seq<Ratio>) {
    |dms| >= 3 && dms[0].den != 0 && dms[1].den != 0 && dms[2].den != 0
  }

  /** Degrees + minutes / 60 + seconds / 3600, before the hemisphere sign. */
  function DmsMagnitude(dms: seq<Ratio>): (m: real)
    requires DmsReadable(dms)
    ensures m >= RatioValue(dms[0])
  {
    RatioValue(dms[0]) + RatioValue(dms[1]) / 60.0 + RatioValue(dms[2]) / 3600.0
  }

  predicate IsSouthOrWest(ref: string) {
    ref == "S" || ref == "W"
  }

  /**
   * `_dms_to_decimal(dms, ref)`: decimal degrees, negated for the southern
   * and western hemispheres; None when a component is missing or has a zero
   * denominator (the exception the source catches).
   */
  function DmsToDecimal(dms: seq<Ratio>, ref: string): (r: Option<real>)
    ensures r.Some? <==> DmsReadable(dms)
    ensures r.Some? && IsSouthOrWest(ref) ==> r.value <= 0.0 && -r.value == DmsMagnitude(dms)
    ensures r.Some? && !IsSouthOrWest(ref) ==> r.value >= 0.0 && r.value == DmsMagnitude(dms)
  {
    if !DmsReadable(dms) then None
    else
      var dec := DmsMagnitude(dms);
      Some(if IsSouthOrWest(ref) then -dec else dec)
  }

  /**
   * The hemisphere reference only decides the sign: `S` mirrors `N`, `W`
   * mirrors `E`, and every reference other than `S` or `W` reads as `N`.
   */
  lemma DmsHemispheres(dms: seq<Ratio>, ref: string)
    requires DmsReadable(dms)
    ensures DmsToDecimal(dms, "S").value == -DmsToDecimal(dms, "N").value
    ensures DmsToDecimal(dms, "W").value == -DmsToDecimal(dms, "E").value
    ensures !IsSouthOrWest(ref) ==> DmsToDecimal(dms, ref) == DmsToDecimal(dms, "N")
  {
  }

  /**
   * Paris's latitude, 48 degrees 51' 23.76" N, is 48.8566; its longitude's
   * components 2 degrees 21' 7.92" read under `W` give -2.3522.
   */
  lemma DmsParis()
    ensures DmsToDecimal([Ratio(48, 1), Ratio(51, 1), Ratio(2376, 100)], "N") == Some(48.8566)
    ensures DmsToDecimal([Ratio(2, 1), Ratio(21, 1), Ratio(792, 100)], "W") == Some(-2.3522)
  {
  }

  /** The reference tag's text, or the default the source passes to `tags.get`. */
  function RefOf(tags: Tags, name: string, default: string): string {
    if name in tags then tags[name].text else default
  }

  const LatitudeTag := "GPS GPSLatitude"
  const LongitudeTag := "GPS GPSLongitude"

  /**
   * The coordinate of a tag map: present only when both the latitude and the
   * longitude tag are there and both convert; missing references default to
   * `N` and `E`.
   */
  function GpsOf(tags: Tags): (r: Option<Coordinate>)
    ensures r.Some? <==>
      LatitudeTag in tags && LongitudeTag in tags &&
      DmsReadable(tags[LatitudeTag].values) && DmsReadable(tags[LongitudeTag].values)
    ensures r.Some? ==>
      r.value.0 == DmsToDecimal(tags[LatitudeTag].values, RefOf(tags, "GPS GPSLatitudeRef", "N")).value &&
      r.value.1 == DmsToDecimal(tags[LongitudeTag].values, RefOf(tags, "GPS GPSLongitudeRef", "E")).value
  {
    if LatitudeTag in tags && LongitudeTag in tags then
      var lat := DmsToDecimal(tags[LatitudeTag].values, RefOf(tags, "GPS GPSLatitudeRef", "N"));
      var lon := DmsToDecimal(tags[LongitudeTag].values, RefOf(tags, "GPS GPSLongitudeRef", "E"));
      if lat.Some? && lon.Some? then Some((lat.value, lon.value)) else None
    else None
  }

  /** Without reference tags a coordinate lies in the northern and eastern hemispheres. */
  lemma GpsDefaultsNorthEast(tags: Tags)
    requires "GPS GPSLatitudeRef" !in tags && "GPS GPSLongitudeRef" !in tags
    requires GpsOf(tags).Some?
    ensures GpsOf(tags).value.0 >= 0.0 && GpsOf(tags).value.1 >= 0.0
  {
  }

  /** The date tags, in the order the source tries them. */
  const DateTagNames: seq<string> := ["EXIF DateTimeOriginal", "EXIF DateTimeDigitized", "Image DateTime"]

  /** Whether tag `name` is present and its text parses as a date. */
  predicate Parses(tags: Tags, name: string, parse: string -> Option<DateTime>) {
    name in tags && parse(tags[name].text).Some?
  }

  /** The parse of the first tag among `names` that is present and parses. */
  function FirstParsed(tags: Tags, names: seq<string>, parse: string -> Option<DateTime>): (r: Option<DateTime>)
    ensures r.None? <==> forall k :: 0 <= k < |names| ==> !Parses(tags, names[k], parse)
    ensures r.Some? ==>
      exists k :: 0 <= k < |names| && Parses(tags, names[k], parse) &&
        r == parse(tags[names[k]].text) && forall j :: 0 <= j < k ==> !Parses(tags, names[j], parse)
    decreases |names|
  {
    if names == [] then None
    else if Parses(tags, names[0], parse) then parse(tags[names[0]].text)
    else
      var r := FirstParsed(tags, names[1..], parse);
      assert forall k :: 1 <= k < |names| ==> names[k] == names[1..][k - 1];
      r
  }

  /** The capture date: the first parsing date tag, else the modification time, else `now`. */
  function CaptureDate(tags: Tags, parse: string -> Option<DateTime>, modified: Option<DateTime>, now: DateTime): DateTime {
    match FirstParsed(tags, DateTagNames, parse)
    case Some(d) => d
    case None => modified.GetOr(now)
  }

  /**
   * The date and GPS part of `extract_exif_date_and_gps`. `parse` stands for
   * `strptime` with the format `%Y:%m:%d %H:%M:%S` (None for the exception
   * it raises); `modified` is the file's modification time, None when `stat`
   * or `fromtimestamp` raises; `now` is the clock's reading.
   */
  method ExtractDateAndGps(tags: Tags, parse: string -> Option<DateTime>, modified: Option<DateTime>, now: DateTime)
    returns (date: DateTime, gps: Option<Coordinate>)
    ensures FirstParsed(tags, DateTagNames, parse).Some? ==> date == FirstParsed(tags, DateTagNames, parse).value
    ensures FirstParsed(tags, DateTagNames, parse).None? && modified.Some? ==> date == modified.value
    ensures FirstParsed(tags, DateTagNames, parse).None? && modified.None? ==> date == now
    ensures date == CaptureDate(tags, parse, modified, now)
    ensures gps == GpsOf(tags)
  {
    var found: Option<DateTime> := None;
    var k := 0;
    while k < |DateTagNames|
      invariant 0 <= k <= |DateTagNames|
      invariant found.None?
      invariant FirstParsed(tags, DateTagNames, parse) == FirstParsed(tags, DateTagNames[k..], parse)
    {
      var name := DateTagNames[k];
      if name in tags {
        found := parse(tags[name].text);
        if found.Some? {
          break;
        }
      }
      assert DateTagNames[k..][1..] == DateTagNames[k + 1..];
      k := k + 1;
    }
    if found.Some? {
      date := found.value;
    } else if modified.Some? {
      date := modified.value;
    } else {
      date := now;
    }

    gps := None;
    if LatitudeTag in tags && LongitudeTag in tags {
      var lat := DmsToDecimal(tags[LatitudeTag].values, RefOf(tags, "GPS GPSLatitudeRef", "N"));
      var lon := DmsToDecimal(tags[LongitudeTag].values, RefOf(tags, "GPS GPSLongitudeRef", "E"));
      if lat.Some? && lon.Some? {
        gps := Some((lat.value, lon.value));
      }
    }
  }
}
