/**
 * The crawler of `scraper.py` (`KemonoScraper`): walking the listing pages
 * of a user, and reading one post. The transport behind `_fetch_page` is a
 * parameter `site` that maps a URL to what the fetch yields.
 */
module Scraper {
  import opened Options
  import opened Strings
  import opened Seqs
  import opened Parser

  /** What `_fetch_page` yields for a URL, as the crawler sees it. */
  datatype Page =
    | NoHtml     // `_fetch_page` returned None or an empty text
    | Raised     // an exception left `_fetch_page` and was caught by the crawler's `except`
    | Html(doc: Doc)

  /** The dictionary returned by `get_post_info`. */
  datatype PostInfo = PostInfo(id: string, url: string)

  /** The id reported for a URL without one. */
  const UnknownId: string := "unknown"

  /** `f"{base_url}/patreon/user/{user_id}"` */
  function UserRoot(base: string, userId: string): string {
    base + "/patreon/user/" + userId
  }

  /** The listing page at `offset`: the query `?o=<offset>` is added only when the offset is positive. */
  function ListingUrl(base: string, userId: string, offset: nat): string {
    if offset > 0 then UserRoot(base, userId) + OffsetMarker + NatToDecimal(offset) else UserRoot(base, userId)
  }

  /**
   * The offset of a listing URL reads back out of it: none on the first
   * page, `offset` on every later one (as long as the user's root URL has
   * no `?o=` of its own).
   */
  lemma ListingUrlOffset(base: string, userId: string, offset: nat)
    requires !Contains(UserRoot(base, userId), OffsetMarker)
    ensures OffsetOf(ListingUrl(base, userId, offset)) == if offset > 0 then Some(offset) else None
  {
    var root := UserRoot(base, userId);
    if offset > 0 {
      OffsetRoundTrip(root, offset);
    } else {
      forall q: nat ensures !DigitsAt(root, OffsetMarker, q) {
        if q + |OffsetMarker| < |root| && root[q..q + |OffsetMarker|] == OffsetMarker {
          assert OccursAt(root, OffsetMarker, q);
        }
      }
    }
  }

  /** The posts a fetched listing page yields, as `parse_user_posts` lists them. */
  function PagePosts(page: Page, resolve: string -> string): seq<string> {
    match page
    case Html(doc) => Dedup(PostUrls(doc.articles, resolve))
    case _ => []
  }

  /**
   * The user has finitely many listing pages: beyond offset `bound` no page
   * yields a post. The loop of `get_user_posts` ends on every such site.
   */
  ghost predicate Finite(site: string -> Page, base: string, userId: string, resolve: string -> string, bound: nat) {
    forall offset: nat {:trigger ListingUrl(base, userId, offset)} ::
      offset > bound ==> PagePosts(site(ListingUrl(base, userId, offset)), resolve) == []
  }

  /** The measure that the offset of the loop brings down. */
  function Remaining(bound: nat, offset: nat): nat {
    if offset <= bound then bound + 1 - offset else 0
  }

  /** The offset the loop moves to after a page with posts, or None when it stops there. */
  function Advance(doc: Doc, offset: nat): (r: Option<nat>)
    ensures r.Some? ==> r.value > offset
  {
    match NextOffset(doc, offset)
    case None => None
    case Some(n) => if n == offset then None else Some(n)
  }

  /**
   * What `get_user_posts` returns when it reaches `offset` holding `acc`:
   * it stops on a failed fetch, on a page without posts, and when there is
   * no next offset; otherwise it adds the page's new posts and goes on.
   */
  function Crawl(site: string -> Page, base: string, userId: string, resolve: string -> string,
                 bound: nat, offset: nat, acc: seq<string>): seq<string>
    requires Finite(site, base, userId, resolve, bound)
    decreases Remaining(bound, offset)
  {
    var page := site(ListingUrl(base, userId, offset));
    var posts := PagePosts(page, resolve);
    if posts == [] then acc
    else
      var acc' := acc + Unseen(posts, acc);
      match Advance(page.doc, offset)
      case None => acc'
      case Some(n) => Crawl(site, base, userId, resolve, bound, n, acc')
  }

  /** Every post of every listing page the crawl reads, page after page, repeats included. */
  function Harvest(site: string -> Page, base: string, userId: string, resolve: string -> string,
                   bound: nat, offset: nat): seq<string>
    requires Finite(site, base, userId, resolve, bound)
    decreases Remaining(bound, offset)
  {
    var page := site(ListingUrl(base, userId, offset));
    var posts := PagePosts(page, resolve);
    if posts == [] then []
    else
      match Advance(page.doc, offset)
      case None => posts
      case Some(n) => posts + Harvest(site, base, userId, resolve, bound, n)
  }

  /** The offsets of the listing pages the crawl fetches, in order. */
  function Offsets(site: string -> Page, base: string, userId: string, resolve: string -> string,
                   bound: nat, offset: nat): (r: seq<nat>)
    requires Finite(site, base, userId, resolve, bound)
    ensures |r| >= 1 && r[0] == offset
    ensures forall i :: 0 <= i < |r| - 1 ==> r[i] < r[i + 1]
    ensures forall i :: 0 <= i < |r| - 1 ==> r[i] <= bound
    decreases Remaining(bound, offset)
  {
    var page := site(ListingUrl(base, userId, offset));
    if PagePosts(page, resolve) == [] then [offset]
    else
      match Advance(page.doc, offset)
      case None => [offset]
      case Some(n) =>
        var rest := Offsets(site, base, userId, resolve, bound, n);
        assert forall i :: 1 <= i < |rest| + 1 ==> ([offset] + rest)[i] == rest[i - 1];
        [offset] + rest
  }

  /** The listing pages fetched number at most `bound + 2`: the offsets strictly increase and all but the last stay within `bound`. */
  lemma {:induction false} OffsetsBounded(site: string -> Page, base: string, userId: string, resolve: string -> string,
                                          bound: nat, offset: nat)
    requires Finite(site, base, userId, resolve, bound)
    ensures |Offsets(site, base, userId, resolve, bound, offset)| <= Remaining(bound, offset) + 1
    decreases Remaining(bound, offset)
  {
    var page := site(ListingUrl(base, userId, offset));
    if PagePosts(page, resolve) != [] {
      match Advance(page.doc, offset)
      case None =>
      case Some(n) =>
        OffsetsBounded(site, base, userId, resolve, bound, n);
    }
  }

  /**
   * Keeping the posts not yet seen, page by page, is deduplicating the
   * whole harvest: the crawl's result is `acc` followed by the harvest's
   * new posts in first-seen order.
   */
  lemma {:induction false} CrawlIsOnto(site: string -> Page, base: string, userId: string, resolve: string -> string,
                                       bound: nat, offset: nat, acc: seq<string>)
    requires Finite(site, base, userId, resolve, bound)
    ensures Crawl(site, base, userId, resolve, bound, offset, acc) ==
      Onto(acc, Harvest(site, base, userId, resolve, bound, offset))
    decreases Remaining(bound, offset)
  {
    var page := site(ListingUrl(base, userId, offset));
    var posts := PagePosts(page, resolve);
    if posts != [] {
      DedupFirstSeen(PostUrls(page.doc.articles, resolve));
      OntoIsUnseen(acc, posts);
      var acc' := acc + Unseen(posts, acc);
      match Advance(page.doc, offset)
      case None =>
      case Some(n) =>
        CrawlIsOnto(site, base, userId, resolve, bound, n, acc');
        OntoConcat(acc, posts, Harvest(site, base, userId, resolve, bound, n));
    }
  }

  /**
   * What `get_user_posts` promises: every post of every page read, each once,
   * in the order in which the pages first list them.
   */
  lemma UserPostsSpec(site: string -> Page, base: string, userId: string, resolve: string -> string, bound: nat)
    requires Finite(site, base, userId, resolve, bound)
    ensures var r := Crawl(site, base, userId, resolve, bound, 0, []);
      var all := Harvest(site, base, userId, resolve, bound, 0);
      && NoDup(r)
      && (forall u :: u in r <==> u in all)
      && (forall i, j :: 0 <= i < j < |r| ==> FirstIndex(all, r[i]) < FirstIndex(all, r[j]))
  {
    CrawlIsOnto(site, base, userId, resolve, bound, 0, []);
    DedupFirstSeen(Harvest(site, base, userId, resolve, bound, 0));
  }

  /** `get_user_posts` */
  method GetUserPosts(site: string -> Page, base: string, userId: string, resolve: string -> string, ghost bound: nat)
    returns (allPosts: seq<string>)
    requires Finite(site, base, userId, resolve, bound)
    ensures allPosts == Crawl(site, base, userId, resolve, bound, 0, [])
    ensures NoDup(allPosts)
  {
    ghost var goal := Crawl(site, base, userId, resolve, bound, 0, []);
    allPosts := [];
    var offset: nat := 0;
    while true
      invariant Crawl(site, base, userId, resolve, bound, offset, allPosts) == goal
      decreases Remaining(bound, offset)
    {
      var url := UserRoot(base, userId);
      if offset > 0 {
        url := url + OffsetMarker + NatToDecimal(offset);
      }
      assert url == ListingUrl(base, userId, offset);
      var page := site(url);
      if !page.Html? {
        assert allPosts == goal;
        break;
      }
      var posts := ParseUserPosts(page.doc, resolve);
      if posts == [] {
        assert allPosts == goal;
        break;
      }
      var newPosts := Unseen(posts, allPosts);
      allPosts := allPosts + newPosts;
      var next := GetPaginationOffset(page.doc, offset);
      if next.None? || next.value == offset {
        assert allPosts == goal;
        break;
      }
      offset := next.value;
    }
    UserPostsSpec(site, base, userId, resolve, bound);
  }

  /** `get_post_images`: the post's images, or none when the fetch fails. */
  method GetPostImages(site: string -> Page, postUrl: string) returns (images: seq<string>)
    ensures site(postUrl).Html? ==> images == PostImages(site(postUrl).doc.hrefs)
    ensures !site(postUrl).Html? ==> images == []
  {
    var page := site(postUrl);
    if !page.Html? {
      return [];
    }
    images := ParsePostImages(page.doc);
  }

  /** `get_post_info` */
  function GetPostInfo(postUrl: string): (r: PostInfo)
    ensures r.url == postUrl
    ensures r.id == UnknownId <==> ExtractPostId(postUrl).None?
    ensures r.id != UnknownId ==> |r.id| > 0 && AllDigits(r.id) && Contains(postUrl, PostMarker + r.id)
  {
    var id := ExtractPostId(postUrl);
    assert id.Some? ==> id.value != UnknownId by {
      assert !IsDigit(UnknownId[0]);
    }
    PostInfo(id.GetOr(UnknownId), postUrl)
  }
}
