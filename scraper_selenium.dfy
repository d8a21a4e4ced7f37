/**
 * The crawler of `scraper_selenium.py` (`KemonoSeleniumScraper`). Its three
 * operations are the same code as in `scraper.py`, so they call the members
 * of `Scraper`; only `_fetch_page` differs (a browser instead of an HTTP
 * session, returning None on any exception), and it is the parameter `site`
 * here as there.
 */
module SeleniumScraper {
  import opened Options
  import opened Strings
  import opened Seqs
  import opened Parser
  import opened Scraper

  /** `get_user_posts`: the same crawl as `scraper.py`'s, over the browser's pages. */
  method GetUserPosts(site: string -> Page, base: string, userId: string, resolve: string -> string, ghost bound: nat)
    returns (allPosts: seq<string>)
    requires Finite(site, base, userId, resolve, bound)
    ensures allPosts == Crawl(site, base, userId, resolve, bound, 0, [])
    ensures NoDup(allPosts)
  {
    allPosts := Scraper.GetUserPosts(site, base, userId, resolve, bound);
  }

  /** `get_post_images`: the post's images, or none when the fetch fails. */
  method GetPostImages(site: string -> Page, postUrl: string) returns (images: seq<string>)
    ensures site(postUrl).Html? ==> images == PostImages(site(postUrl).doc.hrefs)
    ensures !site(postUrl).Html? ==> images == []
  {
    images := Scraper.GetPostImages(site, postUrl);
  }

  /** `get_post_info` */
  function GetPostInfo(postUrl: string): (r: PostInfo)
    ensures r.url == postUrl
    ensures r.id == UnknownId <==> ExtractPostId(postUrl).None?
    ensures r.id != UnknownId ==> |r.id| > 0 && AllDigits(r.id) && Contains(postUrl, PostMarker + r.id)
  {
    Scraper.GetPostInfo(postUrl)
  }
}
