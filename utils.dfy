/**
 * The two string helpers of the downloader's utility module: making a name
 * safe for the filesystem, and taking an image extension from a URL.
 */
module Utils {
  import opened Options
  import opened Strings

  /** Longest name `SanitizeFilename` means to produce. */
  const MaxNameLength: nat := 200

  /** The extensions, without their dot, that `GetFileExtension` accepts. */
  const ImageExtensions: seq<string> := ["jpg", "jpeg", "png", "gif", "webp", "bmp", "svg"]

  /** The extension used when a URL has no accepted one. */
  const DefaultExtension: string := ".png"

  /** The class `[<>:"/\\|?*]`. */
  predicate IsInvalidChar(c: char) {
    c == '<' || c == '>' || c == ':' || c == '"' || c == '/' || c == '\\' || c == '|' || c == '?' || c == '*'
  }

  /** The class `[\x00-\x1f\x7f]`. */
  predicate IsControlChar(c: char) {
    c <= '\U{1F}' || c == '\U{7F}'
  }

  /** `re.sub(class, '', s)`: the characters of `s` outside the class, in order. */
  function Without(s: string, drop: char -> bool): (r: string)
    ensures |r| <= |s|
    ensures forall i :: 0 <= i < |r| ==> !drop(r[i]) && r[i] in s
    ensures (forall i :: 0 <= i < |s| ==> !drop(s[i])) ==> r == s
    ensures |s| == 1 ==> r == if drop(s[0]) then [] else s
  {
    if s == [] then [] else (if drop(s[0]) then [] else [s[0]]) + Without(s[1..], drop)
  }

  /**
   * Removal works piece by piece: with the one-character case above this
   * says the kept characters appear in their original order.
   */
  lemma {:induction false} WithoutAppend(a: string, b: string, drop: char -> bool)
    ensures Without(a + b, drop) == Without(a, drop) + Without(b, drop)
  {
    if a != [] {
      var ab := a + b;
      assert ab[0] == a[0];
      assert ab[1..] == a[1..] + b;
      assert Without(ab, drop) == (if drop(a[0]) then [] else [a[0]]) + Without(a[1..] + b, drop);
      assert Without(a, drop) == (if drop(a[0]) then [] else [a[0]]) + Without(a[1..], drop);
      WithoutAppend(a[1..], b, drop);
    } else {
      assert a + b == b;
    }
  }

  /** The last path component has a dot after some character that is not a dot. */
  predicate DotAfterNonDot(c: string) {
    exists j :: 0 <= j < |c| && c[j] == '.' && exists i :: 0 <= i < j && c[i] != '.'
  }

  /**
   * `os.path.splitext(p)`: the extension is the part from the last '.' of
   * the last path component on, provided some character before that dot in
   * the component is not a dot; otherwise it is empty.
   */
  function SplitExt(p: string): (parts: (string, string))
    ensures parts.0 + parts.1 == p
    ensures parts.1 == [] || parts.1[0] == '.'
    ensures '/' !in parts.1
    ensures parts.1 != [] ==> '.' !in parts.1[1..]
    ensures parts.1 != [] <==> DotAfterNonDot(AfterLast(p, '/'))
  {
    var sep := LastIndex(p, '/');
    var dot := LastIndex(p, '.');
    if dot > sep && exists i :: sep + 1 <= i < dot && p[i] != '.' then
      assert p[..dot] + p[dot..] == p;
      SplitExtFound(p, sep, dot);
      (p[..dot], p[dot..])
    else
      SplitExtNone(p, sep, dot);
      (p, [])
  }

  lemma SplitExtFound(p: string, sep: int, dot: int)
    requires sep == LastIndex(p, '/') && dot == LastIndex(p, '.')
    requires dot > sep && exists i :: sep + 1 <= i < dot && p[i] != '.'
    ensures '/' !in p[dot..] && '.' !in p[dot + 1..]
    ensures DotAfterNonDot(AfterLast(p, '/'))
  {
    ExtensionTail(p, sep, dot);
    var c := AfterLast(p, '/');
    var i :| sep + 1 <= i < dot && p[i] != '.';
    assert c[i - sep - 1] == p[i];
    assert c[dot - sep - 1] == p[dot];
  }

  /** After the last dot, itself after the last '/', there is neither. */
  lemma ExtensionTail(p: string, sep: int, dot: int)
    requires sep == LastIndex(p, '/') && dot == LastIndex(p, '.')
    requires 0 <= dot && sep < dot
    ensures '/' !in p[dot..] && '.' !in p[dot + 1..]
  {
    var e := p[dot..];
    forall k | 0 <= k < |e| ensures e[k] != '/' && (k > 0 ==> e[k] != '.') {
      assert e[k] == p[dot + k];
    }
    assert e[1..] == p[dot + 1..];
  }

  lemma SplitExtNone(p: string, sep: int, dot: int)
    requires sep == LastIndex(p, '/') && dot == LastIndex(p, '.')
    requires !(dot > sep && exists i :: sep + 1 <= i < dot && p[i] != '.')
    ensures !DotAfterNonDot(AfterLast(p, '/'))
  {
  }

  /** Python's `s[:k]`, where a negative `k` counts from the end. */
  function PyPrefix(s: string, k: int): (r: string)
    ensures r == s[..if k >= 0 then (if k <= |s| then k else |s|) else (if |s| + k >= 0 then |s| + k else 0)]
  {
    if k >= 0 then (if k <= |s| then s[..k] else s)
    else if |s| + k >= 0 then s[..|s| + k]
    else []
  }

  /** The name after both removals, before truncation and stripping. */
  function Cleaned(filename: string): string {
    Without(Without(filename, IsInvalidChar), IsControlChar)
  }

  /** The truncation step: `name[:200-len(ext)] + ext` for a name longer than 200. */
  function Truncated(f: string): string {
    if |f| > MaxNameLength then
      var (name, ext) := SplitExt(f);
      PyPrefix(name, MaxNameLength - |ext|) + ext
    else f
  }

  /** Truncation keeps only characters of its input, and no more of them than 200 plus the extension. */
  lemma TruncatedFrom(f: string)
    ensures forall i :: 0 <= i < |Truncated(f)| ==> Truncated(f)[i] in f
  {
    if |f| > MaxNameLength {
      var (name, ext) := SplitExt(f);
      var p := PyPrefix(name, MaxNameLength - |ext|);
      var t := p + ext;
      assert t == Truncated(f);
      assert name + ext == f;
      forall i | 0 <= i < |t| ensures t[i] in f {
        if i < |p| {
          assert t[i] == name[i] == f[i];
        } else {
          assert t[i] == ext[i - |p|] == f[|name| + i - |p|];
        }
      }
    }
  }

  lemma StripFrom(s: string, r: string)
    requires r == Strip(s)
    ensures forall i :: 0 <= i < |r| ==> r[i] in s
  {
    var k := SpaceEnd(s, 0);
    forall i | 0 <= i < |r| ensures r[i] in s {
      assert r[i] == s[k + i];
    }
  }

  /** `sanitize_filename` */
  function SanitizeFilename(filename: string): (r: string)
    ensures forall i :: 0 <= i < |r| ==> !IsInvalidChar(r[i])
    ensures forall i :: 0 <= i < |r| ==> !IsControlChar(r[i])
    ensures r == [] || (!IsPySpace(r[0]) && !IsPySpace(r[|r| - 1]))
    ensures forall i :: 0 <= i < |r| ==> r[i] in filename
  {
    var cleaned := Cleaned(filename);
    var truncated := Truncated(cleaned);
    TruncatedFrom(cleaned);
    var r := Strip(truncated);
    StripFrom(truncated, r);
    r
  }

  /**
   * The result is the cleaned name, cut when longer than 200 characters,
   * with the white space at its ends removed and nothing else.
   */
  lemma SanitizedShape(filename: string)
    ensures exists k: nat :: StrippedAt(Truncated(Cleaned(filename)), SanitizeFilename(filename), k)
    ensures |Cleaned(filename)| <= MaxNameLength ==>
      exists k: nat :: StrippedAt(Cleaned(filename), SanitizeFilename(filename), k)
  {
    var c := Cleaned(filename);
    StripShape(Truncated(c));
    assert StrippedAt(Truncated(c), SanitizeFilename(filename), SpaceEnd(Truncated(c), 0));
    if |c| <= MaxNameLength {
      assert Truncated(c) == c;
    }
  }

  /** A name that is not too long after the removals is only stripped. */
  lemma ShortNameOnlyStripped(filename: string)
    requires |Cleaned(filename)| <= MaxNameLength
    ensures SanitizeFilename(filename) == Strip(Cleaned(filename))
  {
  }

  /**
   * The result is at most 200 characters long whenever the extension of the
   * cleaned name is; a longer name is cut to `name[:200-len(ext)] + ext`.
   */
  lemma SanitizedLength(filename: string)
    requires |SplitExt(Cleaned(filename)).1| <= MaxNameLength
    ensures |SanitizeFilename(filename)| <= MaxNameLength
    ensures |Cleaned(filename)| > MaxNameLength ==>
      var (name, ext) := SplitExt(Cleaned(filename));
      SanitizeFilename(filename) == Strip(name[..MaxNameLength - |ext|] + ext)
  {
    var c := Cleaned(filename);
    var t := Truncated(c);
    if |c| > MaxNameLength {
      var (name, ext) := SplitExt(c);
      assert |name| >= MaxNameLength - |ext|;
      assert t == name[..MaxNameLength - |ext|] + ext;
    }
  }

  /** An extension longer than 200 characters survives whole, so the name stays too long. */
  lemma LongExtensionKeptWhole(filename: string)
    requires |Cleaned(filename)| > MaxNameLength
    requires |SplitExt(Cleaned(filename)).1| > MaxNameLength
    ensures |Truncated(Cleaned(filename))| > MaxNameLength
  {
  }

  lemma {:induction false} WithoutClean(s: string, drop: char -> bool)
    requires forall i :: 0 <= i < |s| ==> !drop(s[i])
    ensures Without(s, drop) == s
  {
  }

  /** A name of at most 200 characters with nothing to remove is only stripped. */
  lemma CleanNameOnlyStripped(s: string)
    requires |s| <= MaxNameLength
    requires forall i :: 0 <= i < |s| ==> !IsInvalidChar(s[i]) && !IsControlChar(s[i])
    ensures SanitizeFilename(s) == Strip(s)
  {
    WithoutClean(s, IsInvalidChar);
    WithoutClean(s, IsControlChar);
    assert Cleaned(s) == s;
    ShortNameOnlyStripped(s);
  }

  /** Sanitizing a sanitized name of at most 200 characters changes nothing. */
  lemma SanitizeIdempotent(filename: string)
    requires |SanitizeFilename(filename)| <= MaxNameLength
    ensures SanitizeFilename(SanitizeFilename(filename)) == SanitizeFilename(filename)
  {
    var r := SanitizeFilename(filename);
    WithoutClean(r, IsInvalidChar);
    WithoutClean(r, IsControlChar);
    assert Cleaned(r) == r;
  }

  /** `[a-zA-Z0-9]+` starting right after a dot at `p`, ended by '?' or by the end of the string. */
  predicate ExtensionAt(url: string, p: nat) {
    p + 1 < |url| && url[p] == '.' && IsAsciiAlnum(url[p + 1]) &&
    var e := AlnumRunEnd(url, p + 1);
    e == |url| || url[e] == '?' || (e == |url| - 1 && url[e] == '\n')
  }

  /**
   * The leftmost match of `\.([a-zA-Z0-9]+)(?:\?|$)` at or after `from`. A
   * shorter run of characters cannot end the match, since the next
   * character would be alphanumeric; `$` also matches before a final newline.
   */
  function FindExtension(url: string, from: nat): (r: Option<nat>)
    ensures r.Some? ==> from <= r.value && ExtensionAt(url, r.value)
    ensures r.Some? ==> forall q :: from <= q < r.value ==> !ExtensionAt(url, q)
    ensures r.None? ==> forall q :: from <= q ==> !ExtensionAt(url, q)
    decreases |url| - from
  {
    if from + 1 >= |url| then None
    else if ExtensionAt(url, from) then Some(from)
    else FindExtension(url, from + 1)
  }

  /** `get_file_extension(url, fallback)` */
  function GetFileExtension(url: string, fallback: string): (r: string)
    ensures r == fallback || (|r| > 1 && r[0] == '.' && r[1..] in ImageExtensions)
  {
    match FindExtension(url, 0)
    case None => fallback
    case Some(p) =>
      var ext := PyLower(url[p + 1..AlnumRunEnd(url, p + 1)]);
      if ext in ImageExtensions then "." + ext else fallback
  }

  /**
   * Only the leftmost candidate is examined: if it names an accepted
   * extension (in any case) the result is that extension, lower-cased;
   * otherwise the fallback, whatever later candidates say.
   */
  lemma ExtensionIsLeftmost(url: string, fallback: string, p: nat)
    requires ExtensionAt(url, p)
    requires forall q: nat :: q < p ==> !ExtensionAt(url, q)
    ensures var ext := PyLower(url[p + 1..AlnumRunEnd(url, p + 1)]);
      GetFileExtension(url, fallback) == if ext in ImageExtensions then "." + ext else fallback
  {
    var r := FindExtension(url, 0);
    assert r.Some?;
    assert r.value == p;
  }

  /** A URL with no candidate at all gets the fallback. */
  lemma NoExtension(url: string, fallback: string)
    requires forall q: nat :: !ExtensionAt(url, q)
    ensures GetFileExtension(url, fallback) == fallback
  {
    assert FindExtension(url, 0).None?;
  }

  /** An upper-case extension is reported in lower case. */
  lemma UpperCaseExtension()
    ensures GetFileExtension("a.JPG", DefaultExtension) == ".jpg"
  {
    var url := "a.JPG";
    assert AlnumRunEnd(url, 2) == 5;
    assert ExtensionAt(url, 1);
    assert !ExtensionAt(url, 0);
    ExtensionIsLeftmost(url, DefaultExtension, 1);
    assert url[2..5] == "JPG";
    assert PyLower("JPG") == "jpg";
  }
}
