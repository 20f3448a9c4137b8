/** The string functions of the card image manager (`client/image-manager.js`): the
    file-name sanitiser, the image path for a size and format, and the emoji shown
    while an image is missing. Lower-casing is modelled on ASCII letters; any other
    character is left as it is and then replaced by `_`. */
module ImageManager {
  import opened Common

  /** `toLowerCase` on one character (ASCII letters only). */
  function LowerChar(c: char): char {
    if 'A' <= c <= 'Z' then (c as int + 32) as char else c
  }

  /** A character kept by the sanitiser: `[a-z0-9]`. */
  predicate IsAlnum(c: char) { 'a' <= c <= 'z' || '0' <= c <= '9' }

  /** A character a sanitised name may hold: `[a-z0-9_]`. */
  predicate SafeChar(c: char) { IsAlnum(c) || c == '_' }

  /** No two underscores in a row. */
  predicate NoDoubleUnderscore(s: string) {
    forall i :: 0 <= i < |s| - 1 ==> !(s[i] == '_' && s[i + 1] == '_')
  }

  /** The form every sanitised name has. */
  predicate Clean(s: string) {
    (forall i :: 0 <= i < |s| ==> SafeChar(s[i])) && NoDoubleUnderscore(s) &&
    (|s| > 0 ==> s[0] != '_' && s[|s| - 1] != '_')
  }

  /** The letters and digits of `s`, in order. */
  function Alnums(s: string): string {
    if s == [] then [] else (if IsAlnum(s[0]) then [s[0]] else []) + Alnums(s[1..])
  }

  /** `.toLowerCase()` */
  function ToLower(s: string): (r: string)
    ensures |r| == |s| && forall i :: 0 <= i < |s| ==> r[i] == LowerChar(s[i])
  {
    if s == [] then [] else [LowerChar(s[0])] + ToLower(s[1..])
  }

  /** `.replace(/[^a-z0-9]/g, '_')`: keeps the letters and digits and the length. */
  function ReplaceOthers(s: string): (r: string)
    ensures |r| == |s|
    ensures forall i :: 0 <= i < |s| ==> (IsAlnum(s[i]) ==> r[i] == s[i]) && (!IsAlnum(s[i]) ==> r[i] == '_')
    ensures Alnums(r) == Alnums(s)
  {
    if s == [] then [] else [if IsAlnum(s[0]) then s[0] else '_'] + ReplaceOthers(s[1..])
  }

  /** `.replace(/_+/g, '_')`: every run of underscores becomes one; the first and last
      characters and the letters and digits are kept. */
  function Collapse(s: string): (r: string)
    ensures |r| <= |s|
    ensures NoDoubleUnderscore(r)
    ensures |s| > 0 ==> |r| > 0 && r[0] == s[0]
    ensures (forall i :: 0 <= i < |s| ==> SafeChar(s[i])) ==> forall i :: 0 <= i < |r| ==> SafeChar(r[i])
    ensures Alnums(r) == Alnums(s)
  {
    if s == [] then []
    else if |s| >= 2 && s[0] == '_' && s[1] == '_' then Collapse(s[1..])
    else
      var rest := Collapse(s[1..]);
      assert Alnums([s[0]] + rest) == (if IsAlnum(s[0]) then [s[0]] else []) + Alnums(rest) by {
        assert ([s[0]] + rest)[1..] == rest;
      }
      [s[0]] + rest
  }

  /** `.replace(/^_|_$/g, '')`: one leading and one trailing underscore are dropped. */
  function Trim(s: string): (r: string)
    requires NoDoubleUnderscore(s)
    ensures |r| > 0 ==> r[0] != '_' && r[|r| - 1] != '_'
    ensures NoDoubleUnderscore(r) && Alnums(r) == Alnums(s)
    ensures forall i :: 0 <= i < |r| ==> r[i] in s
  {
    var a := if |s| > 0 && s[0] == '_' then s[1..] else s;
    assert Alnums(a) == Alnums(s) by {
      if |s| > 0 && s[0] == '_' {
        assert Alnums(s) == Alnums(s[1..]);
      }
    }
    if |a| > 0 && a[|a| - 1] == '_' then
      DropLastUnderscore(a);
      a[..|a| - 1]
    else a
  }

  /** Dropping a final underscore keeps the letters and digits. */
  lemma {:induction false} DropLastUnderscore(s: string)
    requires |s| > 0 && s[|s| - 1] == '_'
    ensures Alnums(s[..|s| - 1]) == Alnums(s)
  {
    if |s| > 1 {
      assert s[1..][..|s[1..]| - 1] == s[..|s| - 1][1..];
      DropLastUnderscore(s[1..]);
    }
  }

  /** `sanitizeFilename(name)`: the result holds only `[a-z0-9_]`, has no `__`, does
      not start or end with `_`, and keeps the lower-cased letters and digits of the
      name in order. */
  function SanitizeFilename(name: string): (r: string)
    ensures Clean(r)
    ensures Alnums(r) == Alnums(ToLower(name))
  {
    Trim(Collapse(ReplaceOthers(ToLower(name))))
  }

  /** A clean string passes through every stage unchanged. */
  lemma CleanIsFixed(s: string)
    requires Clean(s)
    ensures SanitizeFilename(s) == s
  {
    LowerOfSafe(s);
    ReplaceOfAlnumOrUnderscore(s);
    CollapseWithoutDoubles(s);
  }

  lemma {:induction false} LowerOfSafe(s: string)
    requires forall i :: 0 <= i < |s| ==> SafeChar(s[i])
    ensures ToLower(s) == s
  {
    if s != [] {
      LowerOfSafe(s[1..]);
    }
  }

  lemma {:induction false} ReplaceOfAlnumOrUnderscore(s: string)
    requires forall i :: 0 <= i < |s| ==> SafeChar(s[i])
    ensures ReplaceOthers(s) == s
  {
    if s != [] {
      ReplaceOfAlnumOrUnderscore(s[1..]);
    }
  }

  lemma {:induction false} CollapseWithoutDoubles(s: string)
    requires NoDoubleUnderscore(s)
    ensures Collapse(s) == s
  {
    if s != [] {
      CollapseWithoutDoubles(s[1..]);
    }
  }

  /** Sanitising is idempotent. */
  lemma SanitizeIdempotent(name: string)
    ensures SanitizeFilename(SanitizeFilename(name)) == SanitizeFilename(name)
  {
    CleanIsFixed(SanitizeFilename(name));
  }

  /** A name sanitises to the empty string exactly when it has no ASCII letter or
      digit. */
  lemma {:induction false} EmptyExactlyWithoutAlnums(name: string)
    ensures SanitizeFilename(name) == [] <==> Alnums(ToLower(name)) == []
  {
    var r := SanitizeFilename(name);
    if r != [] {
      CleanNonEmptyHasAlnum(r);
    }
  }

  /** A non-empty clean string holds a letter or a digit. */
  lemma CleanNonEmptyHasAlnum(s: string)
    requires Clean(s) && s != []
    ensures Alnums(s) != []
  {
    assert s[0] != '_' && SafeChar(s[0]);
  }

  /** The file dimensions of an image size; an unknown size falls back to the
      thumbnail. */
  function Dimensions(size: string): (r: string)
    ensures r in {"16x16", "64x64", "128x180", "200x280"}
    ensures size !in {"micro", "thumbnail", "preview", "full"} ==> r == "64x64"
  {
    if size == "micro" then "16x16"
    else if size == "thumbnail" then "64x64"
    else if size == "preview" then "128x180"
    else if size == "full" then "200x280"
    else "64x64"
  }

  const ImageDir := "/assets/images/cards/"

  /** The file extension: `webp` where the browser supports it, else `png`. */
  function Extension(webpSupported: bool): string { if webpSupported then "webp" else "png" }

  /** `getImagePath(cardName, size)`: a file directly inside the image directory,
      whatever the card's name, with the extension of the supported format. */
  function GetImagePath(cardName: string, size: string, webpSupported: bool): (r: string)
    ensures |r| > |ImageDir| && r[..|ImageDir|] == ImageDir
    ensures NoSlash(r[|ImageDir|..])
    ensures EndsWith(r, "." + Extension(webpSupported))
  {
    var name := SanitizeFilename(cardName);
    CleanHasNoSlash(name);
    SizesHaveNoSlash(size, webpSupported);
    FileNameHasNoSlash(name, Dimensions(size), Extension(webpSupported));
    ImagePathEndsWithExtension(name, Dimensions(size), Extension(webpSupported));
    ImagePath(name, Dimensions(size), Extension(webpSupported))
  }

  lemma CleanHasNoSlash(s: string)
    requires Clean(s)
    ensures NoSlash(s)
  {
  }

  lemma ImagePathEndsWithExtension(name: string, dims: string, ext: string)
    ensures EndsWith(ImagePath(name, dims, ext), "." + ext)
  {
    var r := ImagePath(name, dims, ext);
    assert r == (ImageDir + (name + "_" + dims)) + ("." + ext);
  }

  lemma SizesHaveNoSlash(size: string, webpSupported: bool)
    ensures NoSlash(Dimensions(size)) && NoSlash(Extension(webpSupported))
  {
    var dims := Dimensions(size);
    assert dims == "16x16" || dims == "64x64" || dims == "128x180" || dims == "200x280";
  }

  /** A name, dimensions and extension without `/` give a file name without `/`. */
  lemma FileNameHasNoSlash(name: string, dims: string, ext: string)
    requires NoSlash(name) && NoSlash(dims) && NoSlash(ext)
    ensures NoSlash(ImagePath(name, dims, ext)[|ImageDir|..])
  {
    NoSlashConcat(name, "_");
    NoSlashConcat(name + "_", dims);
    NoSlashConcat(name + "_" + dims, ".");
    NoSlashConcat(name + "_" + dims + ".", ext);
  }

  /** `s` holds no path separator. */
  predicate NoSlash(s: string) {
    forall i :: 0 <= i < |s| ==> s[i] != '/'
  }

  lemma NoSlashConcat(a: string, b: string)
    requires NoSlash(a) && NoSlash(b)
    ensures NoSlash(a + b)
  {
    forall i | 0 <= i < |a + b|
      ensures (a + b)[i] != '/'
    {
      if i >= |a| { assert (a + b)[i] == b[i - |a|]; }
    }
  }

  /** The path of an image file from its parts. */
  function ImagePath(name: string, dims: string, ext: string): (r: string)
    ensures |r| >= |ImageDir| && r[..|ImageDir|] == ImageDir && r[|ImageDir|..] == (name + "_" + dims) + "." + ext
  {
    ImageDir + ((name + "_" + dims) + "." + ext)
  }

  /** `s` ends with `suffix`. */
  predicate EndsWith(s: string, suffix: string) {
    |suffix| <= |s| && s[|s| - |suffix|..] == suffix
  }

  /** Splits `stem.webp` or `stem.png` into the stem and the format. */
  function SplitExtension(rest: string): Option<(string, bool)> {
    if EndsWith(rest, ".webp") then Some((rest[..|rest| - 5], true))
    else if EndsWith(rest, ".png") then Some((rest[..|rest| - 4], false))
    else None
  }

  /** Splits `name_dims` for the four known dimensions. */
  function SplitDimensions(stem: string): Option<(string, string)> {
    if EndsWith(stem, "_16x16") then Some((stem[..|stem| - 6], "16x16"))
    else if EndsWith(stem, "_64x64") then Some((stem[..|stem| - 6], "64x64"))
    else if EndsWith(stem, "_128x180") then Some((stem[..|stem| - 8], "128x180"))
    else if EndsWith(stem, "_200x280") then Some((stem[..|stem| - 8], "200x280"))
    else None
  }

  /** Reads a card image path back into its sanitised name, dimensions and format. */
  function ParseImagePath(path: string): Option<(string, string, bool)> {
    if |path| < |ImageDir| || path[..|ImageDir|] != ImageDir then None
    else match SplitExtension(path[|ImageDir|..])
      case None => None
      case Some((stem, webp)) =>
        match SplitDimensions(stem)
        case None => None
        case Some((name, dims)) => Some((name, dims, webp))
  }

  lemma ExtensionRoundTrip(stem: string, webpSupported: bool)
    ensures SplitExtension(stem + "." + Extension(webpSupported)) == Some((stem, webpSupported))
  {
    var rest := stem + "." + Extension(webpSupported);
    if webpSupported {
      assert rest[|rest| - 5..] == ".webp";
      assert rest[..|rest| - 5] == stem;
    } else {
      assert rest[|rest| - 4..] == ".png";
      assert rest[..|rest| - 4] == stem;
      assert !EndsWith(rest, ".webp") by {
        assert rest[|rest| - 1] == 'g';
      }
    }
  }

  /** The dimensions and the name are read back from `<name>_<dims>`. */
  lemma DimensionsRoundTrip(name: string, dims: string)
    requires dims in {"16x16", "64x64", "128x180", "200x280"}
    ensures SplitDimensions(name + "_" + dims) == Some((name, dims))
  {
    var stem := name + "_" + dims;
    var n := |dims| + 1;
    assert stem[..|stem| - n] == name;
    assert stem[|stem| - n..] == "_" + dims;
    assert stem[|stem| - 1] == dims[|dims| - 1];
    if |dims| == 7 {
      assert stem[|stem| - 6] == dims[1];
    }
  }

  /** The path names the image unambiguously: the sanitised name, the dimensions and
      the format can be read back from it. */
  lemma ImagePathRoundTrip(cardName: string, size: string, webpSupported: bool)
    ensures ParseImagePath(GetImagePath(cardName, size, webpSupported)) ==
      Some((SanitizeFilename(cardName), Dimensions(size), webpSupported))
  {
    var name := SanitizeFilename(cardName);
    var dims := Dimensions(size);
    var stem := name + "_" + dims;
    ExtensionRoundTrip(stem, webpSupported);
    DimensionsRoundTrip(name, dims);
  }

  /** The placeholder emoji of known card names and of the categories. */
  const EmojiMap: map<string, string> := map[
    "eiffelturm" := "🗼", "burj_khalifa" := "🏗️", "empire_state_building" := "🏢",
    "freiheitsstatue" := "🗽", "kolosseum" := "🏛️", "taj_mahal" := "🕌",
    "schiefer_turm_von_pisa" := "🗼", "golden_gate_bridge" := "🌉",
    "sydney_opera_house" := "🏛️", "big_ben" := "🏰",
    "giraffe" := "🦒", "mammutbaum" := "🌲", "schwarzer_panther" := "🐆",
    "sibirischer_tiger" := "🐅", "blauwal" := "🐋", "afrikanischer_elefant" := "🐘",
    "anaconda" := "🐍", "weißer_hai" := "🦈", "krokodil" := "🐊", "königspinguin" := "🐧",
    "stadtbus" := "🚌", "boeing_747" := "✈️", "fußballfeld" := "⚽", "tennisplatz" := "🎾",
    "schwimmbecken" := "🏊", "fußballtor" := "⚽",
    "building" := "🏢", "animal" := "🐾", "vehicle" := "🚗", "nature" := "🌲", "sports" := "⚽"
  ]

  const DefaultEmoji := "📦"

  /** `getCardPlaceholder(card)`: the emoji of the sanitised card name, else that of
      the card's category, else the parcel. */
  function GetCardPlaceholder(name: string, category: Option<string>): (r: string)
    ensures SanitizeFilename(name) in EmojiMap ==> r == EmojiMap[SanitizeFilename(name)]
    ensures SanitizeFilename(name) !in EmojiMap && category.Some? && category.value in EmojiMap ==>
      r == EmojiMap[category.value]
    ensures SanitizeFilename(name) !in EmojiMap && (category.None? || category.value !in EmojiMap) ==>
      r == DefaultEmoji
  {
    var key := SanitizeFilename(name);
    if key in EmojiMap then EmojiMap[key]
    else if category.Some? && category.value in EmojiMap then EmojiMap[category.value]
    else DefaultEmoji
  }

  /** The keys written with `ß` or `ö` can never be produced by the sanitiser, so
      those cards always fall back to their category. */
  lemma UnreachableEmojiKeys(name: string)
    ensures SanitizeFilename(name) !in {"weißer_hai", "fußballfeld", "königspinguin", "fußballtor"}
  {
    var r := SanitizeFilename(name);
    NotClean("weißer_hai", 3);
    NotClean("fußballfeld", 2);
    NotClean("königspinguin", 1);
    NotClean("fußballtor", 2);
  }

  lemma NotClean(key: string, i: int)
    requires 0 <= i < |key| && !SafeChar(key[i])
    ensures !Clean(key)
  {
  }
}
