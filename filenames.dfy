/**
 * Where a downloaded image is stored: the name both downloaders give it
 * (`_generate_filename`), and `os.path.join` on POSIX.
 */
module Filenames {
  import opened Strings
  import opened Utils

  /** A name this short or shorter is replaced by an index-based one. */
  const MinOriginalLength: nat := 5

  /** `k` zeros and then `ds`, so that the result is at least `width` long. */
  function PadLeft(ds: string, width: nat): (r: string)
    requires AllDigits(ds)
    ensures AllDigits(r)
    ensures |r| == if |ds| >= width then |ds| else width
    ensures DecimalValue(r) == DecimalValue(ds)
  {
    var k: nat := if |ds| >= width then 0 else width - |ds|;
    LeadingZeros(k, ds);
    Zeros(k) + ds
  }

  /** Python's `f"{n:03d}"`: at least three characters, the sign counting as one. */
  function Pad3(n: int): (r: string)
  {
    if n >= 0 then PadLeft(NatToDecimal(n), 3) else "-" + PadLeft(NatToDecimal(-n), 2)
  }

  /** A non-negative number is written as digits only, and they read back as the number. */
  lemma Pad3Value(n: nat)
    ensures |Pad3(n)| >= 3 && AllDigits(Pad3(n)) && DecimalValue(Pad3(n)) == n
  {
    DecimalRoundTrip(n);
  }

  /**
   * `r` starts at `i` right after the last '/' of `url` (or at its start),
   * and ends at the first '?' after it (or at the end of `url`).
   */
  predicate NameSegment(url: string, r: string, i: nat) {
    i + |r| <= |url| && url[i..i + |r|] == r &&
    (i == 0 || url[i - 1] == '/') && '/' !in url[i..] &&
    (i + |r| == |url| || url[i + |r|] == '?')
  }

  /** The last piece of the URL path, without its query: `url.split('/')[-1].split('?')[0]`. */
  function OriginalName(url: string): (r: string)
    ensures '/' !in r && '?' !in r
    ensures exists i: nat :: OccursAt(url, r, i)
  {
    var last := AfterLast(url, '/');
    var r := BeforeFirst(last, '?');
    assert url[|url| - |last|..][..|r|] == url[|url| - |last|..|url| - |last| + |r|];
    assert OccursAt(url, r, |url| - |last|);
    r
  }

  /** The original name is exactly the query-less last segment of the URL path. */
  lemma OriginalNameShape(url: string)
    ensures NameSegment(url, OriginalName(url), LastIndex(url, '/') + 1)
  {
    var i := LastIndex(url, '/') + 1;
    var last := AfterLast(url, '/');
    var r := OriginalName(url);
    assert last == url[i..];
    assert r == last[..FirstIndexOf(last, '?')];
    assert url[i..i + |r|] == r;
  }

  /** The name built from the position of the image in its post, `image_<index:03d><ext>`. */
  function IndexName(url: string, index: int): string {
    "image_" + Pad3(index) + GetFileExtension(url, DefaultExtension)
  }

  /** `_generate_filename` */
  function GenerateFilename(url: string, index: int): (r: string)
    ensures '/' !in r
  {
    var original := OriginalName(url);
    if original != [] && |original| > MinOriginalLength then SanitizeFilename(original)
    else
      var r := IndexName(url, index);
      IndexNameHasNoSlash(url, index);
      r
  }

  /**
   * `nameOf` is `_generate_filename`. The statements about whole runs take
   * the naming function as a parameter, and the methods that perform them
   * require this of it.
   */
  ghost predicate IsGenerateFilename(nameOf: (string, int) -> string) {
    forall url, index {:trigger GenerateFilename(url, index)} :: nameOf(url, index) == GenerateFilename(url, index)
  }

  lemma IndexNameHasNoSlash(url: string, index: int)
    ensures '/' !in IndexName(url, index)
  {
    ExtensionHasNoSlash(url);
    Pad3HasNoSlash(index);
  }

  lemma ExtensionHasNoSlash(url: string)
    ensures '/' !in GetFileExtension(url, DefaultExtension)
  {
    var ext := GetFileExtension(url, DefaultExtension);
    if ext != DefaultExtension {
      assert ext[1..] in ImageExtensions;
      assert ext == "." + ext[1..];
    }
  }

  lemma Pad3HasNoSlash(n: int)
    ensures '/' !in Pad3(n)
  {
    var p := Pad3(n);
    if n >= 0 {
      Pad3Value(n);
      assert forall i :: 0 <= i < |p| ==> IsDigit(p[i]);
    } else {
      var q := PadLeft(NatToDecimal(-n), 2);
      assert p == "-" + q;
      assert forall i :: 1 <= i < |p| ==> p[i] == q[i - 1] && IsDigit(q[i - 1]);
    }
  }

  /** A sanitized original name carries none of the characters that sanitizing removes. */
  lemma OriginalNameSanitized(url: string, index: int)
    requires |OriginalName(url)| > MinOriginalLength
    ensures var r := GenerateFilename(url, index);
      forall i :: 0 <= i < |r| ==> !IsInvalidChar(r[i]) && !IsControlChar(r[i])
  {
  }

  lemma DigitsSplit(prefix: string, d1: string, r1: string, d2: string, r2: string)
    requires AllDigits(d1) && AllDigits(d2)
    requires r1 == [] || !IsDigit(r1[0])
    requires r2 == [] || !IsDigit(r2[0])
    requires prefix + d1 + r1 == prefix + d2 + r2
    ensures d1 == d2
  {
    var s := prefix + d1 + r1;
    DigitRunOf(prefix, d1, r1);
    DigitRunOf(prefix, d2, r2);
    assert d1 == s[|prefix|..|prefix| + |d1|] == d2;
  }

  /**
   * Two images of one post named by index get different names: the digits
   * of the index are followed by the dot of the extension, so the name
   * determines the index.
   */
  lemma IndexNamesDistinct(url1: string, url2: string, i: nat, j: nat)
    requires |OriginalName(url1)| <= MinOriginalLength && |OriginalName(url2)| <= MinOriginalLength
    requires i != j
    ensures GenerateFilename(url1, i) != GenerateFilename(url2, j)
  {
    Pad3Value(i);
    Pad3Value(j);
    var e1 := GetFileExtension(url1, DefaultExtension);
    var e2 := GetFileExtension(url2, DefaultExtension);
    assert e1[0] == '.';
    assert e2[0] == '.';
    if IndexName(url1, i) == IndexName(url2, j) {
      assert "image_" + Pad3(i) + e1 == IndexName(url1, i);
      DigitsSplit("image_", Pad3(i), e1, Pad3(j), e2);
      assert false;
    }
  }

  /** `posixpath.join(a, b)` for two components. */
  function JoinPath(a: string, b: string): (r: string)
    ensures |b| <= |r| && r[|r| - |b|..] == b
  {
    if b != [] && b[0] == '/' then b
    else if a == [] || a[|a| - 1] == '/' then a + b
    else a + "/" + b
  }

  /** A name without '/' is the last component of the joined path. */
  lemma JoinedName(dir: string, name: string)
    requires '/' !in name
    ensures AfterLast(JoinPath(dir, name), '/') == name
  {
    var r := JoinPath(dir, name);
    var t := AfterLast(r, '/');
    assert |r| == |name| || r[|r| - |name| - 1] == '/';
  }

  /** Different names in one directory are different paths. */
  lemma JoinInjective(dir: string, n1: string, n2: string)
    requires '/' !in n1 && '/' !in n2
    requires n1 != n2
    ensures JoinPath(dir, n1) != JoinPath(dir, n2)
  {
    JoinedName(dir, n1);
    JoinedName(dir, n2);
  }

  /** A URL whose last segment is longer than five characters keeps that segment, sanitized. */
  lemma LongOriginalNameKept(url: string, index: int)
    requires |OriginalName(url)| > MinOriginalLength
    ensures GenerateFilename(url, index) == SanitizeFilename(OriginalName(url))
  {
  }

  /** A segment of at most five characters gives way to the index name, `image_<index:03d><ext>`. */
  lemma ShortOriginalNameIndexed(url: string, index: int)
    requires |OriginalName(url)| <= MinOriginalLength
    ensures GenerateFilename(url, index) == "image_" + Pad3(index) + GetFileExtension(url, DefaultExtension)
  {
  }

  lemma OriginalNameExample(url: string)
    requires url == "h/abc.jpg?x=1"
    ensures GenerateFilename(url, 1) == "abc.jpg"
  {
    ExampleQueryDropped(url);
    LongOriginalNameKept(url, 1);
    SanitizeExample();
  }

  lemma ExampleQueryDropped(url: string)
    requires url == "h/abc.jpg?x=1"
    ensures OriginalName(url) == "abc.jpg"
  {
    QueryDropped("h", "abc.jpg", "x=1");
    assert "h" + "/" + "abc.jpg" + "?" + "x=1" == url;
  }

  /** The original name of `<dir>/<name>?<query>` is `name`, the query dropped. */
  lemma QueryDropped(dir: string, name: string, query: string)
    requires '/' !in name && '?' !in name && '/' !in query
    ensures OriginalName(dir + "/" + name + "?" + query) == name
  {
    var url := dir + "/" + name + "?" + query;
    var last := name + "?" + query;
    var p := |dir|;
    assert url[p] == '/';
    assert forall k :: p < k < |url| ==> url[k] == last[k - p - 1];
    assert LastIndex(url, '/') == p;
    assert url[p + 1..] == last;
    assert last[|name|] == '?';
    assert FirstIndexOf(last, '?') == |name|;
    assert last[..|name|] == name;
  }

  lemma SanitizeExample()
    ensures SanitizeFilename("abc.jpg") == "abc.jpg"
  {
    var n := "abc.jpg";
    assert !IsPySpace(n[0]) && !IsPySpace(n[|n| - 1]);
    CleanNameOnlyStripped(n);
  }

  /** A short last segment gives way to the index, padded to three digits, and the default extension. */
  lemma IndexNameExample()
    ensures GenerateFilename("h/x", 7) == "image_007.png"
  {
    var url := "h/x";
    assert LastIndex(url, '/') == 1;
    assert AfterLast(url, '/') == "x";
    assert OriginalName(url) == "x";
    NoExtension(url, DefaultExtension);
    assert NatToDecimal(7) == "7";
    assert Zeros(2) == "00";
    assert Pad3(7) == "007";
  }
}
