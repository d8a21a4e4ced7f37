/**
 * The HTML parser of a Kemono page. What BeautifulSoup extracts from a page
 * is given as a `Doc`: the anchors of each `<article>`, the `href` of the
 * first anchor whose text is ">", and the `href` of every anchor, in
 * document order. The parser's own logic works on those.
 */
module Parser {
  import opened Options
  import opened Strings
  import opened Seqs
  import Utils

  /** Kemono shows this many posts per listing page. */
  const PageSize: nat := 50

  /** `image_extensions` of `_is_image_url`. */
  const ImageSuffixes: seq<string> := [".jpg", ".jpeg", ".png", ".gif", ".webp", ".bmp", ".svg"]

  /** The substrings that mark an interface element rather than a content image. */
  const UiMarkers: seq<string> := ["icon", "avatar", "logo", "banner", "static"]

  /** The literal part of `/post/(\d+)`. */
  const PostMarker: string := "/post/"

  /** The literal part of `\?o=(\d+)`. */
  const OffsetMarker: string := "?o="

  /** The literal of `href=re.compile(r'/data/')`. */
  const DataMarker: string := "/data/"

  /** The host of the file servers, `n1.kemono.cr`, `n2.kemono.cr`, ... */
  const DataHost: string := "kemono.cr"

  /** What BeautifulSoup yields of one page. */
  datatype Doc = Doc(
    articles: seq<seq<string>>,  // per `<article>`, the hrefs of its anchors in order
    nextHref: Option<string>,    // the href of the first `<a>` whose text is ">", if it has one
    hrefs: seq<string>)          // the href of every `<a>` that has one, in order

  /** `any(x in s for x in needles)` */
  predicate ContainsAny(s: string, needles: seq<string>) {
    exists k :: 0 <= k < |needles| && Contains(s, needles[k])
  }

  // ---------------------------------------------------------------------
  // _is_image_url, _is_content_image

  /**
   * `_is_image_url`: the lower-cased URL contains a dot followed by one of
   * the extensions the downloaders accept.
   */
  predicate IsImageUrl(url: string): (r: bool)
    ensures r <==> exists k :: 0 <= k < |Utils.ImageExtensions| && Contains(PyLower(url), "." + Utils.ImageExtensions[k])
  {
    DottedExtensions();
    ContainsAny(PyLower(url), ImageSuffixes)
  }

  lemma DottedExtensions()
    ensures |ImageSuffixes| == |Utils.ImageExtensions|
    ensures forall k :: 0 <= k < |ImageSuffixes| ==> ImageSuffixes[k] == "." + Utils.ImageExtensions[k]
  {
    forall k | 0 <= k < |ImageSuffixes|
      ensures ImageSuffixes[k] == "." + Utils.ImageExtensions[k]
    {
      DottedExtension(k);
    }
  }

  /** The image test is blind to case: a URL and its lower case are judged alike. */
  lemma ImageUrlIgnoresCase(url: string)
    ensures IsImageUrl(PyLower(url)) <==> IsImageUrl(url)
  {
    PyLowerIdempotent(url);
  }

  /** Text appended to an image URL (a query, say) keeps it an image URL. */
  lemma ImageUrlExtended(url: string, tail: string)
    requires IsImageUrl(url)
    ensures IsImageUrl(url + tail)
  {
    var k :| 0 <= k < |ImageSuffixes| && Contains(PyLower(url), ImageSuffixes[k]);
    PyLowerConcat(url, tail);
    ContainsWithin([], PyLower(url), PyLower(tail), ImageSuffixes[k]);
    assert [] + PyLower(url) + PyLower(tail) == PyLower(url + tail);
  }

  /**
   * A URL from which the downloaders take an accepted extension passes the
   * parser's image test: the dot and the extension, lower-cased, occur in
   * the lower-cased URL.
   */
  lemma ExtensionMeansImageUrl(url: string, fallback: string)
    requires Utils.GetFileExtension(url, fallback) != fallback
    ensures IsImageUrl(url)
  {
    var p :| Utils.FindExtension(url, 0) == Some(p);
    var e := AlnumRunEnd(url, p + 1);
    var k := DottedRunIsSuffix(url, p, e);
    Split3(url, p, e);
    PyLower3(url[..p], url[p..e], url[e..]);
    ContainsWithin(PyLower(url[..p]), PyLower(url[p..e]), PyLower(url[e..]), ImageSuffixes[k]);
  }

  /** The dot and the accepted extension after it, lower-cased, are one of the suffixes. */
  lemma DottedRunIsSuffix(url: string, p: nat, e: nat) returns (k: nat)
    requires Utils.FindExtension(url, 0) == Some(p) && e == AlnumRunEnd(url, p + 1)
    requires PyLower(url[p + 1..e]) in Utils.ImageExtensions
    ensures k < |ImageSuffixes| && Contains(PyLower(url[p..e]), ImageSuffixes[k])
  {
    var ext := PyLower(url[p + 1..e]);
    k :| k < |Utils.ImageExtensions| && Utils.ImageExtensions[k] == ext;
    DottedExtension(k);
    assert url[p..e] == [url[p]] + url[p + 1..e];
    PyLowerConcat([url[p]], url[p + 1..e]);
    assert PyLower([url[p]]) == ".";
    assert OccursAt(PyLower(url[p..e]), ImageSuffixes[k], 0);
  }

  /** Each of the parser's suffixes is a dot and then the extension the downloaders accept at that place. */
  lemma DottedExtension(k: nat)
    requires k < |Utils.ImageExtensions|
    ensures k < |ImageSuffixes| && ImageSuffixes[k] == "." + Utils.ImageExtensions[k]
  {
    if k == 0 { assert ImageSuffixes[0] == "." + "jpg"; }
    else if k == 1 { assert ImageSuffixes[1] == "." + "jpeg"; }
    else if k == 2 { assert ImageSuffixes[2] == "." + "png"; }
    else if k == 3 { assert ImageSuffixes[3] == "." + "gif"; }
    else if k == 4 { assert ImageSuffixes[4] == "." + "webp"; }
    else if k == 5 { assert ImageSuffixes[5] == "." + "bmp"; }
    else { assert ImageSuffixes[6] == "." + "svg"; }
  }

  /** The lower-cased URL names an interface element. */
  predicate IsUiUrl(url: string) {
    ContainsAny(PyLower(url), UiMarkers)
  }

  /** The lower-cased URL is a file on the data servers. */
  predicate OnDataServer(url: string) {
    Contains(PyLower(url), DataMarker) && Contains(PyLower(url), DataHost)
  }

  /** `_is_content_image`: the three tests in their order. */
  function IsContentImage(url: string): (r: bool)
    ensures r ==> !IsUiUrl(url)
    ensures r ==> OnDataServer(url) || IsImageUrl(url)
  {
    var lower := PyLower(url);
    if ContainsAny(lower, UiMarkers) then false
    else if Contains(lower, DataMarker) && Contains(lower, DataHost) then true
    else IsImageUrl(url)
  }

  /**
   * The decision in full: an interface marker rejects whatever else holds,
   * and otherwise a URL is content exactly when it is on the data servers
   * or names an image.
   */
  lemma ContentImageDecision(url: string)
    ensures IsUiUrl(url) ==> !IsContentImage(url)
    ensures !IsUiUrl(url) ==> (IsContentImage(url) <==> OnDataServer(url) || IsImageUrl(url))
  {
  }

  /**
   * No marker rejects thumbnails: on a host such as `https://img.xyz`, the
   * image `thumbnail/a.jpg` has no marker in it and is taken as content.
   */
  lemma ThumbnailIsContent(host: string, url: string)
    requires AllMarkerFree(host)
    requires url == host + "/" + "thumbnail" + "/a.jpg"
    ensures Contains(PyLower(url), "thumbnail") && IsContentImage(url)
  {
    var front := host + "/" + "thumbnail";
    var tail := "/a.jpg";
    assert AllMarkerFree("/") && AllMarkerFree("thumbnail") && AllMarkerFree(tail);
    MarkerFreeConcat(host, "/");
    MarkerFreeConcat(host + "/", "thumbnail");
    MarkerFreeConcat(front, tail);
    PyLowerPlain(url);
    NoMarker(url);
    assert OccursAt("thumbnail", "thumbnail", 0);
    ContainsWithin(host + "/", "thumbnail", tail, "thumbnail");
    assert OccursAt(tail, ImageSuffixes[0], 2);
    ContainsWithin(front, tail, "", ImageSuffixes[0]);
    assert front + tail + "" == url;
    ContentImageDecision(url);
  }

  /** Every character of `s` is one of those. */
  predicate AllMarkerFree(s: string) {
    forall i :: 0 <= i < |s| ==> MarkerFree(s[i])
  }

  /** Joining two such strings gives one. */
  lemma MarkerFreeConcat(a: string, b: string)
    requires AllMarkerFree(a) && AllMarkerFree(b)
    ensures AllMarkerFree(a + b)
  {
    forall i | 0 <= i < |a + b| ensures MarkerFree((a + b)[i]) {
      if i >= |a| { assert (a + b)[i] == b[i - |a|]; }
    }
  }

  /** A lower-case letter other than 'c', 'e', 'o' and 'v', a digit, or one of `: / . - _`. */
  predicate MarkerFree(c: char) {
    ('a' <= c <= 'z' && c != 'c' && c != 'e' && c != 'o' && c != 'v') ||
    ('0' <= c <= '9') || c == ':' || c == '/' || c == '.' || c == '-' || c == '_'
  }

  /** A string of such characters holds none of the interface markers. */
  lemma NoMarker(s: string)
    requires AllMarkerFree(s)
    ensures !ContainsAny(s, UiMarkers)
  {
    assert UiMarkers[0][1] == 'c' && UiMarkers[1][1] == 'v' && UiMarkers[2][1] == 'o';
    assert UiMarkers[3][4] == 'e' && UiMarkers[4][5] == 'c';
    MissingCharNotContained(s, UiMarkers[0], 1);
    MissingCharNotContained(s, UiMarkers[1], 1);
    MissingCharNotContained(s, UiMarkers[2], 1);
    MissingCharNotContained(s, UiMarkers[3], 4);
    MissingCharNotContained(s, UiMarkers[4], 5);
  }

  /** The thumbnail on the example host, `https://img.xyz/thumbnail/a.jpg`. */
  lemma ThumbnailExample()
    ensures IsContentImage("https://img.xyz" + "/" + "thumbnail" + "/a.jpg")
  {
    assert AllMarkerFree("https://img.xyz");
    ThumbnailIsContent("https://img.xyz", "https://img.xyz" + "/" + "thumbnail" + "/a.jpg");
  }

  // ---------------------------------------------------------------------
  // extract_post_id

  /** `extract_post_id`: the digits of the leftmost match of `/post/(\d+)`. */
  function ExtractPostId(url: string): (r: Option<string>)
    ensures r.None? <==> forall q: nat :: !DigitsAt(url, PostMarker, q)
    ensures r.Some? ==> |r.value| > 0 && AllDigits(r.value) && Contains(url, PostMarker + r.value)
  {
    DigitsAfter(url, PostMarker)
  }

  /** The id is the whole run of digits after the leftmost `/post/` that a digit follows. */
  lemma PostIdLeftmost(url: string, p: nat)
    requires DigitsAt(url, PostMarker, p)
    requires forall q: nat :: q < p ==> !DigitsAt(url, PostMarker, q)
    ensures ExtractPostId(url) == Some(url[p + |PostMarker|..DigitRunEnd(url, p + |PostMarker|)])
  {
    assert FindDigits(url, PostMarker, 0) == Some(p);
  }

  /** A post URL built from an id gives that id back. */
  lemma PostIdRoundTrip(prefix: string, id: string, rest: string)
    requires !Contains(prefix, PostMarker)
    requires |id| > 0 && AllDigits(id)
    requires rest == [] || !IsDigit(rest[0])
    ensures ExtractPostId(prefix + PostMarker + id + rest) == Some(id)
  {
    DigitsAfterAt(prefix, PostMarker, id, rest);
  }

  // ---------------------------------------------------------------------
  // get_pagination_offset

  /** `int(re.search(r'\?o=(\d+)', href).group(1))`, or None when there is no match. */
  function OffsetOf(href: string): (r: Option<nat>)
    ensures r.None? <==> forall q: nat :: !DigitsAt(href, OffsetMarker, q)
  {
    match DigitsAfter(href, OffsetMarker)
    case None => None
    case Some(ds) => Some(DecimalValue(ds))
  }

  /** A listing link carrying `?o=<n>` is read back as `n`. */
  lemma OffsetRoundTrip(prefix: string, n: nat)
    requires !Contains(prefix, OffsetMarker)
    ensures OffsetOf(prefix + OffsetMarker + NatToDecimal(n)) == Some(n)
  {
    assert prefix + OffsetMarker + NatToDecimal(n) == prefix + OffsetMarker + NatToDecimal(n) + [];
    DigitsAfterAt(prefix, OffsetMarker, NatToDecimal(n), []);
    DecimalRoundTrip(n);
  }

  /** The largest of `floor` and the offsets of the links that carry one. */
  function MaxOffset(hrefs: seq<string>, floor: int): (r: int)
    ensures r >= floor
    ensures forall i :: 0 <= i < |hrefs| && OffsetOf(hrefs[i]).Some? ==> OffsetOf(hrefs[i]).value <= r
    ensures r == floor || exists i :: 0 <= i < |hrefs| && OffsetOf(hrefs[i]) == Some(r)
  {
    if hrefs == [] then floor
    else
      var m := MaxOffset(hrefs[..|hrefs| - 1], floor);
      var h := hrefs[|hrefs| - 1];
      assert forall i :: 0 <= i < |hrefs| - 1 ==> hrefs[..|hrefs| - 1][i] == hrefs[i];
      match OffsetOf(h)
      case Some(o) => if o > m then o else m
      case None => m
  }

  /** The offset named by the ">" button, if it has an href that carries one. */
  function ButtonOffset(nextHref: Option<string>): Option<nat> {
    match nextHref
    case Some(h) => OffsetOf(h)
    case None => None
  }

  /**
   * What `get_pagination_offset` returns: the button's offset when it lies
   * beyond `current`; otherwise one page on when some link reaches beyond
   * `current`; otherwise nothing.
   */
  function NextOffset(doc: Doc, current: int): (r: Option<int>)
    ensures r.Some? ==> r.value > current
  {
    var b := ButtonOffset(doc.nextHref);
    if b.Some? && b.value > current then Some(b.value)
    else if MaxOffset(doc.hrefs, current) > current then Some(current + PageSize)
    else None
  }

  /** A button that advances decides the result. */
  lemma NextOffsetFromButton(doc: Doc, current: int, n: nat)
    requires ButtonOffset(doc.nextHref) == Some(n) && n > current
    ensures NextOffset(doc, current) == Some(n)
  {
  }

  /**
   * Without an advancing button the result is one page on exactly when some
   * link carries an offset beyond `current`, and nothing exactly when none does.
   */
  lemma NextOffsetFallback(doc: Doc, current: int)
    requires ButtonOffset(doc.nextHref).None? || ButtonOffset(doc.nextHref).value <= current
    ensures NextOffset(doc, current) == Some(current + PageSize) <==>
      exists i :: 0 <= i < |doc.hrefs| && OffsetOf(doc.hrefs[i]).Some? && OffsetOf(doc.hrefs[i]).value > current
    ensures NextOffset(doc, current).None? <==>
      forall i :: 0 <= i < |doc.hrefs| && OffsetOf(doc.hrefs[i]).Some? ==> OffsetOf(doc.hrefs[i]).value <= current
  {
    var m := MaxOffset(doc.hrefs, current);
    if m > current {
      var i :| 0 <= i < |doc.hrefs| && OffsetOf(doc.hrefs[i]) == Some(m);
    }
  }

  /** `get_pagination_offset`: the button first, then the largest offset among all links. */
  method GetPaginationOffset(doc: Doc, current: int) returns (r: Option<int>)
    ensures r == NextOffset(doc, current)
  {
    if doc.nextHref.Some? {
      var m := OffsetOf(doc.nextHref.value);
      if m.Some? && m.value > current {
        return Some(m.value);
      }
    }
    var maxOffset := LargestOffset(doc.hrefs, current);
    if maxOffset > current {
      return Some(current + PageSize);
    }
    return None;
  }

  /** The fallback loop of `get_pagination_offset`, which raises `max_offset` link by link. */
  method LargestOffset(hrefs: seq<string>, current: int) returns (maxOffset: int)
    ensures maxOffset == MaxOffset(hrefs, current)
  {
    maxOffset := current;
    for i := 0 to |hrefs|
      invariant maxOffset == MaxOffset(hrefs[..i], current)
    {
      assert hrefs[..i + 1][..i] == hrefs[..i];
      var m := OffsetOf(hrefs[i]);
      if m.Some? && m.value > maxOffset {
        maxOffset := m.value;
      }
    }
    assert hrefs[..|hrefs|] == hrefs;
  }

  // ---------------------------------------------------------------------
  // parse_user_posts

  /** `re.compile(r'/post/\d+')`, searched in an href. */
  predicate IsPostHref(href: string) {
    MatchesFrom(href, PostMarker, 0)
  }

  /** An href matches exactly when a post id can be taken from it. */
  lemma PostHrefHasId(href: string)
    ensures IsPostHref(href) <==> ExtractPostId(href).Some?
  {
    MatchesFromFind(href, PostMarker, 0);
  }

  /** `article.find('a', href=...)`: the first anchor of the article whose href matches. */
  function PostLink(article: seq<string>): (r: Option<string>)
    ensures r.Some? ==> r.value in article && IsPostHref(r.value)
    ensures r.None? <==> forall i :: 0 <= i < |article| ==> !IsPostHref(article[i])
  {
    if article == [] then None
    else if IsPostHref(article[0]) then Some(article[0])
    else
      var r := PostLink(article[1..]);
      assert forall i :: 1 <= i < |article| ==> article[1..][i - 1] == article[i];
      r
  }

  /** The first matching anchor is taken, whatever follows it. */
  lemma PostLinkFirst(article: seq<string>, k: nat)
    requires k < |article| && IsPostHref(article[k])
    requires forall i :: 0 <= i < k ==> !IsPostHref(article[i])
    ensures PostLink(article) == Some(article[k])
    decreases k
  {
    if k > 0 {
      PostLinkFirst(article[1..], k - 1);
    }
  }

  /** The resolved link of every article that has one, article by article; `resolve` is `urljoin(base_url, .)`. */
  function PostUrls(articles: seq<seq<string>>, resolve: string -> string): (r: seq<string>)
    ensures |r| <= |articles|
  {
    if articles == [] then []
    else PostUrls(articles[..|articles| - 1], resolve) + ArticleUrl(articles[|articles| - 1], resolve)
  }

  /** The resolved post link of one article, if it has one. */
  function ArticleUrl(article: seq<string>, resolve: string -> string): (r: seq<string>)
    ensures |r| <= 1
  {
    match PostLink(article)
    case Some(h) => [resolve(h)]
    case None => []
  }

  lemma PostUrlsStep(articles: seq<seq<string>>, resolve: string -> string, i: nat)
    requires i < |articles|
    ensures PostUrls(articles[..i + 1], resolve) == PostUrls(articles[..i], resolve) + ArticleUrl(articles[i], resolve)
  {
    TakeStep(articles, i);
  }

  /** Every listed URL is the resolved post link of some article. */
  lemma {:induction false} PostUrlsSound(articles: seq<seq<string>>, resolve: string -> string, u: string)
    returns (j: nat)
    requires u in PostUrls(articles, resolve)
    ensures j < |articles| && PostLink(articles[j]).Some? && u == resolve(PostLink(articles[j]).value)
  {
    var n := |articles| - 1;
    var init := articles[..n];
    assert PostUrls(articles, resolve) == PostUrls(init, resolve) + ArticleUrl(articles[n], resolve);
    if u in PostUrls(init, resolve) {
      j := PostUrlsSound(init, resolve, u);
      assert init[j] == articles[j];
    } else {
      j := n;
    }
  }

  /** The post link of every article that has one is listed. */
  lemma {:induction false} PostUrlsComplete(articles: seq<seq<string>>, resolve: string -> string, j: nat)
    requires j < |articles| && PostLink(articles[j]).Some?
    ensures resolve(PostLink(articles[j]).value) in PostUrls(articles, resolve)
  {
    var n := |articles| - 1;
    var init := articles[..n];
    assert PostUrls(articles, resolve) == PostUrls(init, resolve) + ArticleUrl(articles[n], resolve);
    var u := resolve(PostLink(articles[j]).value);
    if j < n {
      assert init[j] == articles[j];
      PostUrlsComplete(init, resolve, j);
      assert u in PostUrls(init, resolve);
    } else {
      assert ArticleUrl(articles[n], resolve) == [u];
    }
  }

  /** `parse_user_posts` */
  method ParseUserPosts(doc: Doc, resolve: string -> string) returns (postUrls: seq<string>)
    ensures postUrls == Dedup(PostUrls(doc.articles, resolve))
    ensures NoDup(postUrls)
    ensures forall u :: u in postUrls <==> u in PostUrls(doc.articles, resolve)
  {
    postUrls := [];
    for i := 0 to |doc.articles|
      invariant postUrls == Onto([], PostUrls(doc.articles[..i], resolve))
    {
      PostUrlsStep(doc.articles, resolve, i);
      OntoConcat([], PostUrls(doc.articles[..i], resolve), ArticleUrl(doc.articles[i], resolve));
      var link := PostLink(doc.articles[i]);
      if link.Some? {
        OntoOne(postUrls, resolve(link.value));
      }
      if link.Some? {
        var fullUrl := resolve(link.value);
        if fullUrl !in postUrls {
          postUrls := postUrls + [fullUrl];
        }
      }
    }
    assert doc.articles[..|doc.articles|] == doc.articles;
    DedupFirstSeen(PostUrls(doc.articles, resolve));
  }

  // ---------------------------------------------------------------------
  // parse_post_images

  /** `re.compile(r'/data/')`, searched in an href. */
  predicate IsDataHref(href: string) {
    Contains(href, DataMarker)
  }

  /**
   * A link kept by `parse_post_images`: one of the `/data/` links that the
   * image test accepts (such an href is never empty, so `if href` passes).
   */
  predicate IsImageHref(href: string) {
    IsDataHref(href) && IsImageUrl(href)
  }

  /** The image links of a post page, each once, in the order of their first appearance. */
  function PostImages(hrefs: seq<string>): seq<string> {
    Dedup(Filter(IsImageHref, hrefs))
  }

  /**
   * The images of a post page: no duplicates; exactly the data links that
   * name an image; in the order of their first appearance on the page.
   */
  lemma PostImagesSpec(hrefs: seq<string>)
    ensures NoDup(PostImages(hrefs))
    ensures forall h :: h in PostImages(hrefs) <==> h in hrefs && IsImageHref(h)
    ensures forall i, j :: 0 <= i < j < |PostImages(hrefs)| ==>
      FirstIndex(hrefs, PostImages(hrefs)[i]) < FirstIndex(hrefs, PostImages(hrefs)[j])
  {
    var f := Filter(IsImageHref, hrefs);
    var r := PostImages(hrefs);
    FilterMembers(IsImageHref, hrefs);
    DedupFirstSeen(f);
    forall i, j | 0 <= i < j < |r| ensures FirstIndex(hrefs, r[i]) < FirstIndex(hrefs, r[j]) {
      DedupMember(f, r[i]);
      DedupMember(f, r[j]);
      FilterKeepsOrder(IsImageHref, hrefs, r[i], r[j]);
    }
  }

  /** `parse_post_images` */
  method ParsePostImages(doc: Doc) returns (imageUrls: seq<string>)
    ensures imageUrls == PostImages(doc.hrefs)
  {
    imageUrls := [];
    for i := 0 to |doc.hrefs|
      invariant imageUrls == Onto([], Filter(IsImageHref, doc.hrefs[..i]))
    {
      var href := doc.hrefs[i];
      DedupFilterStep(IsImageHref, doc.hrefs, i);
      if IsImageHref(href) && href !in imageUrls {
        imageUrls := imageUrls + [href];
      }
    }
    assert doc.hrefs[..|doc.hrefs|] == doc.hrefs;
  }
}
