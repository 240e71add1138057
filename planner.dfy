/**
 * Destination planning in organise_photos.py: `slugify_folder_name`, the
 * `YYYY-MM[-Country]` folder name and the `-{i}` collision suffix of `run`.
 */
module Planner {
  import opened Text
  import opened Paths
  import opened Metadata

  /** Characters `slugify_folder_name` keeps: alphanumerics, space, `-` and `_`. */
  predicate Kept(c: char) {
    IsAlnum(c) || c == ' ' || c == '-' || c == '_'
  }

  /**
   * The ASCII characters `str.strip()` removes: space, tab, line feed,
   * vertical tab, form feed, carriage return and the four separators
   * U+001C to U+001F.
   */
  predicate IsSpace(c: char) {
    || c == ' ' || c == '\t' || c == '\n' || c == '\r' || c == '\U{000B}' || c == '\U{000C}'
    || c == '\U{001C}' || c == '\U{001D}' || c == '\U{001E}' || c == '\U{001F}'
  }

  /** `''.join(c for c in s if keep(c))` with the slug's filter. */
  function KeepAllowed(s: string): (r: string)
    ensures forall i :: 0 <= i < |r| ==> Kept(r[i])
    ensures |r| <= |s|
    ensures (forall i :: 0 <= i < |s| ==> Kept(s[i])) ==> r == s
    decreases |s|
  {
    if s == [] then []
    else
      var rest := KeepAllowed(s[1..]);
      assert forall i :: 1 <= i < |s| ==> s[i] == s[1..][i - 1];
      if Kept(s[0]) then [s[0]] + rest else rest
  }

  /** The filter keeps a single character exactly when the slug allows it. */
  lemma KeepAllowedChar(c: char)
    ensures KeepAllowed([c]) == (if Kept(c) then [c] else [])
  {
    assert [c][1..] == [];
  }

  /** The filter works character by character: filtering a concatenation concatenates the filtered parts. */
  lemma {:induction false} KeepAllowedAppend(a: string, b: string)
    ensures KeepAllowed(a + b) == KeepAllowed(a) + KeepAllowed(b)
    decreases |a|
  {
    if a != [] {
      assert (a + b)[0] == a[0] && (a + b)[1..] == a[1..] + b;
      KeepAllowedAppend(a[1..], b);
    } else {
      assert a + b == b;
    }
  }

  /** How many whitespace characters `s` starts with. */
  function LeadingSpaces(s: string): (k: nat)
    ensures k <= |s|
    ensures forall j :: 0 <= j < k ==> IsSpace(s[j])
    ensures k == |s| || !IsSpace(s[k])
    decreases |s|
  {
    if s != [] && IsSpace(s[0]) then
      var k := LeadingSpaces(s[1..]);
      assert forall j :: 1 <= j < k + 1 ==> s[j] == s[1..][j - 1];
      k + 1
    else 0
  }

  /** Where the whitespace `s` ends with begins. */
  function TrailingStart(s: string): (k: nat)
    ensures k <= |s|
    ensures forall j :: k <= j < |s| ==> IsSpace(s[j])
    ensures k == 0 || !IsSpace(s[k - 1])
    decreases |s|
  {
    if s != [] && IsSpace(s[|s| - 1]) then TrailingStart(s[..|s| - 1]) else |s|
  }

  /**
   * `str.strip()`: the middle slice that neither starts nor ends with
   * whitespace; everything cut off on either side is whitespace.
   */
  function Strip(s: string): (r: string)
    ensures r == [] || (!IsSpace(r[0]) && !IsSpace(r[|r| - 1]))
    ensures LeadingSpaces(s) + |r| <= |s| && r == s[LeadingSpaces(s)..LeadingSpaces(s) + |r|]
    ensures forall j :: LeadingSpaces(s) + |r| <= j < |s| ==> IsSpace(s[j])
  {
    var a := LeadingSpaces(s);
    var b := TrailingStart(s);
    if a >= b then ""
    else s[a..b]
  }

  /** `slugify_folder_name`: keep alphanumerics, space, `-` and `_`, then trim. */
  function SlugifyFolderName(s: string): (r: string)
    ensures forall i :: 0 <= i < |r| ==> Kept(r[i])
    ensures r == [] || (r[0] != ' ' && r[|r| - 1] != ' ')
    ensures |r| <= |s|
  {
    var kept := KeepAllowed(s);
    var r := Strip(kept);
    assert forall i :: 0 <= i < |r| ==> r[i] in kept;
    r
  }

  /** A string that does not start or end with whitespace is its own strip. */
  lemma StripTrimmed(s: string)
    requires s == [] || (!IsSpace(s[0]) && !IsSpace(s[|s| - 1]))
    ensures Strip(s) == s
  {
  }

  /** Slugifying a slug changes nothing. */
  lemma SlugifyIdempotent(s: string)
    ensures SlugifyFolderName(SlugifyFolderName(s)) == SlugifyFolderName(s)
  {
    var r := SlugifyFolderName(s);
    assert KeepAllowed(r) == r;
    StripTrimmed(r);
  }

  /** A name made only of letters and digits is its own slug. */
  lemma SlugifyKeepsAlnum(s: string)
    requires forall i :: 0 <= i < |s| ==> IsAlnum(s[i])
    ensures SlugifyFolderName(s) == s
  {
    StripTrimmed(s);
  }

  /** A name of kept characters that neither starts nor ends with a space is its own slug. */
  lemma SlugifyKeepsTrimmed(s: string)
    requires forall i :: 0 <= i < |s| ==> Kept(s[i])
    requires s == [] || (s[0] != ' ' && s[|s| - 1] != ' ')
    ensures SlugifyFolderName(s) == s
  {
    StripTrimmed(s);
  }

  /** A country name of letters and single spaces, such as "United States", is its own slug. */
  lemma SlugUnitedStates()
    ensures SlugifyFolderName("United States") == "United States"
  {
    SlugifyKeepsTrimmed("United States");
  }

  /**
   * A character the slug does not allow is dropped and its neighbours are
   * kept in order: the slug of "Bosnia & Herzegovina" is "Bosnia  Herzegovina".
   */
  lemma SlugDropsChar(a: string, c: char, b: string)
    requires forall i :: 0 <= i < |a| ==> Kept(a[i])
    requires forall i :: 0 <= i < |b| ==> Kept(b[i])
    requires !Kept(c)
    requires a + b == [] || ((a + b)[0] != ' ' && (a + b)[|a + b| - 1] != ' ')
    ensures SlugifyFolderName(a + [c] + b) == a + b
  {
    KeepAllowedDrop(a, c, b);
    var ab := a + b;
    assert forall i :: 0 <= i < |ab| ==> Kept(ab[i]) by {
      forall i | 0 <= i < |ab|
        ensures Kept(ab[i])
      {
        if i < |a| { assert ab[i] == a[i]; } else { assert ab[i] == b[i - |a|]; }
      }
    }
    SlugifyKeepsTrimmed(ab);
  }

  /** Filtering drops a disallowed character between allowed text. */
  lemma KeepAllowedDrop(a: string, c: char, b: string)
    requires forall i :: 0 <= i < |a| ==> Kept(a[i])
    requires forall i :: 0 <= i < |b| ==> Kept(b[i])
    requires !Kept(c)
    ensures KeepAllowed(a + [c] + b) == a + b
  {
    KeepAllowedAppend(a + [c], b);
    KeepAllowedAppend(a, [c]);
    KeepAllowedChar(c);
  }

  /** `f"{date.year:04d}-{date.month:02d}"`. */
  function YearMonth(date: DateTime): (r: string)
    ensures |r| == 7 && r[4] == '-'
    ensures AllDigits(r[..4]) && DigitsValue(r[..4]) == date.year
    ensures AllDigits(r[5..]) && DigitsValue(r[5..]) == date.month
  {
    DecimalShape(date.year);
    DecimalShape(date.month);
    ZeroPadSpec(date.year, 4);
    ZeroPadSpec(date.month, 2);
    var r := ZeroPad(date.year, 4) + "-" + ZeroPad(date.month, 2);
    assert r[..4] == ZeroPad(date.year, 4) && r[5..] == ZeroPad(date.month, 2);
    r
  }

  /**
   * The folder of a file dated `date`: `YYYY-MM` in two-level mode, else
   * `YYYY-MM-` followed by the (already slugified) country.
   */
  function FolderName(date: DateTime, twoLevel: bool, country: string): (r: string)
    ensures |r| >= 7 && r[..7] == YearMonth(date)
    ensures twoLevel ==> |r| == 7
    ensures !twoLevel ==> |r| == 8 + |country| && r[7] == '-' && r[8..] == country
  {
    if twoLevel then YearMonth(date) else YearMonth(date) + "-" + country
  }

  /**
   * A July 2023 file without GPS goes to `2023-07-NoLocation` (the slug of
   * "NoLocation" is itself, by `SlugNoLocation`).
   */
  lemma NoLocationFolder(date: DateTime)
    requires date.year == 2023 && date.month == 7
    ensures FolderName(date, false, "NoLocation") == "2023-07-NoLocation"
  {
    YearMonthJuly2023(date);
  }

  lemma SlugNoLocation()
    ensures SlugifyFolderName("NoLocation") == "NoLocation"
  {
    var s := "NoLocation";
    assert forall i :: 0 <= i < |s| ==> IsAsciiLetter(s[i]);
    SlugifyKeepsAlnum(s);
  }

  lemma YearMonthJuly2023(date: DateTime)
    requires date.year == 2023 && date.month == 7
    ensures YearMonth(date) == "2023-07"
  {
    assert Decimal(2) == "2" && Decimal(0) == "0" && Decimal(3) == "3";
    assert Decimal(20) == "20";
    assert Decimal(202) == "202";
    assert Decimal(2023) == "2023";
    assert ZeroPad(2023, 4) == "2023";
    assert Decimal(7) == "7";
    assert ZeroPad(7, 2) == "07";
  }

  /** The `i`-th alternative name `f"{base}-{i}{ext}"` for a file called `name`. */
  function Candidate(name: string, i: nat): string {
    Stem(name) + "-" + Decimal(i) + Suffix(name)
  }

  /** Different counters give different names. */
  lemma CandidateInjective(name: string, i: nat, j: nat)
    requires Candidate(name, i) == Candidate(name, j)
    ensures i == j
  {
    var c := Candidate(name, i);
    var p := |Stem(name)| + 1;
    assert |Decimal(i)| == |Decimal(j)|;
    assert Decimal(i) == c[p..p + |Decimal(i)|];
    assert Decimal(j) == Candidate(name, j)[p..p + |Decimal(j)|];
    DecimalInjective(i, j);
  }

  /** If the first `i - 1` alternatives are all taken, there are at least that many taken names. */
  lemma {:induction false} TakenBound(name: string, existing: set<string>, i: nat)
    requires i >= 1
    requires forall j :: 1 <= j < i ==> Candidate(name, j) in existing
    ensures i - 1 <= |existing|
    decreases i
  {
    if i > 1 {
      var last := Candidate(name, i - 1);
      var rest := existing - {last};
      forall j | 1 <= j < i - 1
        ensures Candidate(name, j) in rest
      {
        CandidateDistinct(name, j, i - 1);
      }
      TakenBound(name, rest, i - 1);
    }
  }

  /** Different counters give different names (the contrapositive of `CandidateInjective`). */
  lemma CandidateDistinct(name: string, i: nat, j: nat)
    requires i != j
    ensures Candidate(name, i) != Candidate(name, j)
  {
    if Candidate(name, i) == Candidate(name, j) {
      CandidateInjective(name, i, j);
      assert false;
    }
  }

  /** The least counter from `i` on whose alternative is free. */
  function FreeIndexFrom(name: string, existing: set<string>, i: nat): (k: nat)
    requires i >= 1
    requires forall j :: 1 <= j < i ==> Candidate(name, j) in existing
    ensures k >= i && Candidate(name, k) !in existing
    ensures forall j :: 1 <= j < k ==> Candidate(name, j) in existing
    decreases |existing| + 1 - i
  {
    if Candidate(name, i) !in existing then i
    else
      TakenBound(name, existing, i + 1);
      FreeIndexFrom(name, existing, i + 1)
  }

  /**
   * The collision rule of `run`: the file's own name when it is free, else
   * `base-i.ext` for the least `i >= 1` that is free.
   */
  function CollisionTarget(name: string, existing: set<string>): (t: string)
    ensures t !in existing
    ensures name !in existing ==> t == name
    ensures name in existing ==>
      exists i :: i >= 1 && t == Candidate(name, i) && forall j :: 1 <= j < i ==> Candidate(name, j) in existing
  {
    if name !in existing then name else Candidate(name, FreeIndexFrom(name, existing, 1))
  }

  /**
   * The collision loop of `run`: `existing` holds the names present in the
   * target folder, read afresh by each `exists()` but fixed for the call.
   */
  method PlanTarget(name: string, existing: set<string>) returns (target: string)
    ensures target == CollisionTarget(name, existing)
    ensures target !in existing
  {
    target := name;
    if name in existing {
      var i := 1;
      while Candidate(name, i) in existing
        invariant i >= 1
        invariant forall j :: 1 <= j < i ==> Candidate(name, j) in existing
        decreases |existing| + 1 - i
      {
        TakenBound(name, existing, i + 1);
        i := i + 1;
      }
      var k := FreeIndexFrom(name, existing, 1);
      assert k == i;
      target := Candidate(name, i);
    }
  }

  /** `IMG_0001.jpg` beside an existing `IMG_0001.jpg` becomes `IMG_0001-1.jpg`; with that taken too, `IMG_0001-2.jpg`. */
  lemma CollisionExample()
    ensures CollisionTarget("IMG_0001.jpg", {"IMG_0001.jpg"}) == "IMG_0001-1.jpg"
    ensures CollisionTarget("IMG_0001.jpg", {"IMG_0001.jpg", "IMG_0001-1.jpg"}) == "IMG_0001-2.jpg"
  {
    var name := "IMG_0001.jpg";
    assert name == "IMG_0001" + ".jpg";
    LastDotSkip("IMG_0001", ".jpg");
    assert Stem(name) == "IMG_0001" && Suffix(name) == ".jpg";
    assert Decimal(1) == "1" && Decimal(2) == "2";
    assert Candidate(name, 1) == "IMG_0001-1.jpg";
    assert Candidate(name, 2) == "IMG_0001-2.jpg";
  }
}
