# Kemono downloader, modelled in Dafny

This project models the core of a downloader for the Kemono content site.
Given a user, it walks the user's paginated listing of posts and collects
each post's image links. It then downloads the images into
`<output>/user_<id>/post_<post id>/<filename>` and keeps five counters:
`total`, `downloaded`, `skipped`, `failed` and `bytes`. The model has four parts:

- **Filename derivation** (`strings.dfy`, `utils.dfy`, `filenames.dfy`):
  - `sanitize_filename`;
  - `get_file_extension`, with its leftmost regular-expression search and its allowlist;
  - `_generate_filename`, which is the same in both downloaders;
  - POSIX `os.path.join`.
- **Download engines** (`jobs.dfy`, `downloader.dfy`, `downloader_async.dfy`):
  - `ImageDownloader`, the sequential engine. It has skip-if-exists and a bounded retry loop.
  - `AsyncImageDownloader`, the batched engine. It makes one attempt per image and has a rate gate on `last_download_time`.
  - Both are classes whose fields are the statistics, the files on disk as a map from path to size, and a log of requests and pauses.
  - Each of their methods is proved equal to a specification function. The accounting properties are lemmas about those functions.
- **Pagination crawl** (`scraper.dfy`, `scraper_selenium.dfy`):
  - `get_user_posts`: its `while True` loop over the offset cursor, the duplicate-avoiding accumulator and the four exits;
  - `get_post_images`;
  - `get_post_info`.
  - The page fetch is a function `site` from URL to a `Page`.
- **Parser decisions** (`parser.dfy`, `seqs.dfy`):
  - `get_pagination_offset`, `extract_post_id`, `_is_image_url` and `_is_content_image`;
  - the order-preserving dedup loops of `parse_user_posts` and `parse_post_images`.
  - What BeautifulSoup extracts from a page is given as a `Doc`: the anchors of each article, the href of the ">" anchor and every href.

## Environment and parameters

- **Network.**
  - In the sequential engine, each request attempt of a job is an `Attempt` given by an oracle indexed by job and attempt number: `Fetched(size)`, `RequestFailed(partial)` or `WriteFailed(partial)`.
  - In the batched engine, each job's single request is a `Transfer` given by an oracle indexed by job: `Completed(size, took)` or `Broken(partial, took)`.
  - A listing or post page fetch is `NoHtml`, `Raised` or `Html(doc)`.
  - `urljoin(base_url, .)` is the parameter `resolve`.
- **Filesystem.** A map from path to size. `os.path.getsize` is the size the oracle reports. A file name that is empty, `.` or `..` joins to a directory: the post directory itself or the user directory. That directory exists, and opening it for writing fails.
- **Time.** `time.sleep` in the sequential engine is a logged event. The batched engine has a logical integer clock, and each transfer reports how many ticks it took.
- **Configuration.** `MAX_RETRIES`, `SKIP_EXISTING`, `RATE_LIMIT_DELAY`, `BATCH_SIZE` and `BATCH_PAUSE` are fields of a `Config` value.
  - `MAX_RETRIES` may be 0 or negative. Then `download_image` falls off its end and returns None.
  - `BATCH_SIZE` may be 0, which makes `range` raise. A negative `BATCH_SIZE` makes an empty range.

Four behaviours of the code worth knowing:

- The batched engine makes one attempt per image and never retries.
- In the sequential engine, a skip returns `True`, so the caller also counts it as `downloaded`. After a run, `downloaded + failed == total` and `skipped <= downloaded` hold, not `downloaded + skipped + failed == total`.
- The crawl stops on a next offset that is None or equal to the current one. It does not check for "not greater". The model proves that the parser only ever returns a greater offset.
- `_is_content_image` says that it rejects thumbnails, but none of its markers (`icon`, `avatar`, `logo`, `banner`, `static`) matches a thumbnail. So `https://img.xyz/thumbnail/a.jpg` counts as content. Nothing in the repository calls `_is_content_image`, so no download depends on this.

## Model

| member | source | states |
|---|---|---|
| `Utils.SanitizeFilename` | utils.py:12-30 | The result holds none of `< > : " / \ \| ? *` and no control character U+0000–U+001F or U+007F. It has no leading or trailing Python white space, and each of its characters comes from the input. |
| `Utils.Without` | utils.py:23-25 | `re.sub` with a character class keeps only characters outside the class, keeps the whole string when nothing is in the class, and keeps a single character exactly when it is outside the class. |
| `Utils.WithoutAppend` | utils.py:23-25 | Removal works piece by piece: removing from `a + b` is removing from `a`, then from `b`, so the kept characters stay in their order. |
| `Strings.Strip` | utils.py:30 | `strip()` leaves no white space at either end of its result, and leaves a string with no white space at its ends unchanged. |
| `Strings.StripShape` | utils.py:30 | `strip()` returns a slice of its input with only white space before and after it. |
| `Utils.SanitizedShape` | utils.py:22-30 | The result is the name after both removals, truncated when over 200 characters, with only the white space at its ends removed; for a cleaned name of at most 200 characters, with no truncation. |
| `Utils.ShortNameOnlyStripped` | utils.py:26-30 | If the name after both removals has at most 200 characters, the result is that name stripped. |
| `Utils.CleanNameOnlyStripped` | utils.py:22-30 | A name of at most 200 characters with nothing to remove is only stripped. |
| `Utils.SanitizedLength` | utils.py:26-30 | The result has at most 200 characters whenever the `splitext` extension does. A longer name becomes `strip(name[:200-len(ext)] + ext)`. |
| `Utils.LongExtensionKeptWhole` | utils.py:27-29 | An extension longer than 200 characters survives truncation whole, so the name stays longer than 200. |
| `Utils.SanitizeIdempotent` | utils.py:12-30 | Sanitizing a sanitized name of at most 200 characters changes nothing. |
| `Utils.SplitExt` | utils.py:28 | `os.path.splitext`: the two parts concatenate to the input. The extension is empty or a dot followed by no other dot and no `/`. It is non-empty exactly when the last path component has a dot after some character that is not a dot. |
| `Utils.FindExtension` | utils.py:63 | The leftmost position where `\.([a-zA-Z0-9]+)(?:\?\|$)` matches: it is a match, and no earlier position is. None means no position matches. |
| `Utils.GetFileExtension` | utils.py:51-69 | The result is the default, or a dot followed by one of jpg, jpeg, png, gif, webp, bmp or svg. |
| `Utils.ExtensionIsLeftmost` | utils.py:63-69 | Only the leftmost candidate is examined. Its lower case, if allowlisted, gives the result. Otherwise the result is the default, whatever later candidates hold. |
| `Utils.NoExtension` | utils.py:63-69 | A URL with no candidate gets the default. |
| `Utils.UpperCaseExtension` | utils.py:65 | `a.JPG` gives `.jpg`. |
| `Filenames.OriginalName` | downloader.py:159 | The last `/` segment up to its first `?` has no `/` or `?` and occurs in the URL. |
| `Filenames.OriginalNameShape` | downloader.py:159 | The original name starts right after the last `/` of the URL (or at its start) and ends at the first `?` after that point, or at the end of the URL. |
| `Filenames.QueryDropped` | downloader.py:159 | The original name of `<dir>/<name>?<query>` is `name` when `name` has no `/` or `?` and the query has no `/`. |
| `Filenames.LongOriginalNameKept` | downloader.py:164-166 | When the original name is longer than 5 characters, the file name is that name sanitized. |
| `Filenames.ShortOriginalNameIndexed` | downloader.py:164-169 | When the original name has at most 5 characters, the file name is `image_` + `{index:03d}` + the URL's extension or `.png`. |
| `Filenames.GenerateFilename` | downloader.py:147-171 | The generated name never contains `/`, so it stays inside the post directory. |
| `Filenames.Pad3Value` | downloader.py:169 | `{index:03d}` of a natural number is at least three digits that read back as the number. |
| `Filenames.OriginalNameSanitized` | downloader.py:165-166 | A name taken from a segment longer than 5 characters carries no forbidden or control character. |
| `Filenames.IndexNamesDistinct` | downloader.py:167-169 | Two index-based names for different indices differ, whatever their extensions. |
| `Filenames.OriginalNameExample` | downloader.py:159-166 | `h/abc.jpg?x=1` is named `abc.jpg`. |
| `Filenames.SanitizeExample` | utils.py:12-30 | `abc.jpg` is already safe and is left unchanged. |
| `Filenames.IndexNameExample` | downloader.py:159-169 | `h/x` at index 7 is named `image_007.png`. |
| `Filenames.JoinPath` | downloader.py:103 | The joined path ends with the file name. |
| `Filenames.JoinInjective` | downloader.py:103 | Different names without `/` in one directory give different paths. |
| `Jobs.PostJobs` | downloader.py:73 | `enumerate(images, 1)`: one job per image, in order, with its 1-based index. |
| `Jobs.JobsCount` | downloader.py:54-55 | `total`, the sum of the image-list lengths, is the number of jobs the loops visit. |
| `Jobs.EmptyPostNoJobs` | downloader.py:65-66 | A post with an empty image list adds no job. |
| `Downloader.Attempts` | downloader.py:112-145 | The retry loop returns None exactly when no attempt is allowed. On None nothing changes. On False only `failed` goes up. On True the path is writable, the file exists, and only `bytes` changes, by exactly the size of the stored file. The files and the log only grow. |
| `Downloader.AttemptsLog` | downloader.py:112-145 | Whatever each attempt yields: the loop stops at the first attempt that is not a `RequestException`, or after the last allowed one. It logs one request per attempt, a pause after each but the last and nothing after the last. It returns True exactly when that last attempt wrote the file. |
| `Downloader.AttemptsUnwritable` | downloader.py:112-145 | Attempts on a path that names a directory never change the files. |
| `Downloader.DirectoryNameNeverWritten` | downloader.py:102-145 | A name that joins to a directory (empty, `.` or `..`) leaves the files unchanged, and succeeds exactly when skipping is on. |
| `Downloader.SuccessAfterRetries` | downloader.py:112-140 | After `m < MAX_RETRIES` refused attempts and a success, the log holds `m` request-and-pause pairs, then one request with no pause after it. The file is stored and its size is added to `bytes`. |
| `Downloader.AllAttemptsFail` | downloader.py:112-145 | When every attempt is refused, exactly `MAX_RETRIES` requests are made, with a pause between two of them and none after the last. `failed` goes up by one and the result is False. |
| `Downloader.WriteErrorNotRetried` | downloader.py:112-145 | An error that is not a `RequestException` ends the download after one request: `failed` goes up by one and the result is False. |
| `Downloader.RedownloadSkips` | downloader.py:106-109 | With `SKIP_EXISTING`, a second download of a stored or skipped image only counts one more skip and makes no request. |
| `Downloader.StepAccounting` | downloader.py:73-84 | One image: with `MAX_RETRIES >= 1`, exactly one of `downloaded` and `failed` goes up, and a skip also counts as downloaded. With no attempt allowed, only skips count. `bytes` changes only when `downloaded` goes up, and then by the size of the stored file. Files are never removed. |
| `Downloader.StepSkips` | downloader.py:106-109 | With `SKIP_EXISTING` and an existing path, one image counts one skip and one download, leaves `bytes` and the files unchanged, and makes no request. |
| `Downloader.RunAccounting` | downloader.py:61-84 | The counters of any run add up image by image, as `StepAccounting` says. |
| `Downloader.FreshRunAccounting` | downloader.py:36-86 | A fresh run with `MAX_RETRIES >= 1` ends with `downloaded + failed == total` and `skipped <= downloaded`. |
| `Downloader.ImageDownloader.constructor` | downloader.py:26-34 | Starts with all five counters at zero. |
| `Downloader.ImageDownloader.DownloadImage` | downloader.py:88-145 | The new state and result are those of `Download` on the old state. |
| `Downloader.ImageDownloader.SaveNamed` | downloader.py:102-110 | Tests for skip, then runs the retry loop, as `DownloadNamed` says. |
| `Downloader.ImageDownloader.Retry` | downloader.py:112-145 | The `for attempt` loop equals `Attempts` from attempt 0. |
| `Downloader.ImageDownloader.DownloadJob` | downloader.py:74-84 | One inner-loop pass: download, count any True as downloaded, then pause. |
| `Downloader.ImageDownloader.DownloadPost` | downloader.py:73-84 | The inner loop over one post's images equals `Run` over its jobs. |
| `Downloader.ImageDownloader.DownloadPosts` | downloader.py:61-84 | The loop over posts equals `Run` over `JobsOf(posts)`, with empty posts skipped. |
| `Downloader.ImageDownloader.DownloadUserImages` | downloader.py:36-86 | Sets `total` to the number of images, runs every job in order and returns the counters. |
| `AsyncDownloader.Gate` | downloader_async.py:149-154 | The start is no earlier than now and no earlier than the previous start plus `RATE_LIMIT_DELAY`, and it is one of the two. |
| `AsyncDownloader.Outcome` | downloader_async.py:156-176 | Once the request has started, only the counters and the files change. |
| `AsyncDownloader.FetchAccounting` | downloader_async.py:141-176 | Each job increments exactly one of `skipped`, `downloaded` and `failed`. A skip makes no request and leaves `last_download_time` alone. Any other job logs exactly one start. The result is False exactly when `failed` went up. `bytes` changes only with `downloaded`, and then by the completed transfer's size, stored at the joined path. |
| `AsyncDownloader.FetchRateLimited` | downloader_async.py:141-154 | A job keeps consecutive start times at least `RATE_LIMIT_DELAY` apart, with the last start equal to `last_download_time`. |
| `AsyncDownloader.RefetchSkips` | downloader_async.py:141-144 | With `SKIP_EXISTING`, a second download of a stored or skipped image only counts one more skip. |
| `AsyncDownloader.BatchEnd` | downloader_async.py:108-109 | `tasks[i:i+BATCH_SIZE]` ends after `i`, at most `BATCH_SIZE` later, and short only at the end of the list. |
| `AsyncDownloader.GatheredAccounting` | downloader_async.py:112 | Each job of a batch runs once and bumps one counter, with no pause inside the batch. |
| `AsyncDownloader.BatchesAccounting` | downloader_async.py:108-120 | Every remaining job runs once, batch after batch. |
| `AsyncDownloader.BatchesPauses` | downloader_async.py:118-120 | There is one pause between two consecutive batches and none after the last. |
| `AsyncDownloader.PauseCountClosed` | downloader_async.py:108-120 | The pause count for `n > 0` jobs is `(n - 1) // BATCH_SIZE`, that is ⌈n/B⌉−1. |
| `AsyncDownloader.FreshAccounting` | downloader_async.py:41-120 | A fresh run ends with `downloaded + skipped + failed == total` and `(total - 1) // BATCH_SIZE` pauses. |
| `AsyncDownloader.BatchesRateLimited` | downloader_async.py:108-154 | The rate-gate invariant holds across batches and pauses. |
| `AsyncDownloader.FreshRateLimited` | downloader_async.py:39-154 | From `last_download_time = 0` at a clock that is not negative, every two consecutive request starts of a run are at least `RATE_LIMIT_DELAY` apart. |
| `AsyncDownloader.AsyncImageDownloader.constructor` | downloader_async.py:29-39 | Starts with zero counters and `last_download_time` 0. |
| `AsyncDownloader.AsyncImageDownloader.DownloadImage` | downloader_async.py:122-176 | The new state and result are those of `Fetch` on the old state. |
| `AsyncDownloader.AsyncImageDownloader.SaveNamed` | downloader_async.py:138-176 | Tests for skip before the gate, then runs the gate and the single request. |
| `AsyncDownloader.AsyncImageDownloader.StartRequest` | downloader_async.py:149-154 | Waits out the gate, sets `last_download_time` to the start and logs the start. |
| `AsyncDownloader.AsyncImageDownloader.Finish` | downloader_async.py:156-176 | Success adds the size to `bytes` and counts one download. Any exception counts one failure. |
| `AsyncDownloader.AsyncImageDownloader.RunBatch` | downloader_async.py:109-112 | Runs the jobs of one slice in order. |
| `AsyncDownloader.AsyncImageDownloader.DownloadWithBatches` | downloader_async.py:98-120 | Raises exactly when `BATCH_SIZE == 0`, runs nothing for a negative size, and otherwise equals `Batches`. |
| `AsyncDownloader.AsyncImageDownloader.BatchLoop` | downloader_async.py:108-120 | The loop over `range(0, total, BATCH_SIZE)` equals `Batches` from 0. |
| `AsyncDownloader.AsyncImageDownloader.BatchStep` | downloader_async.py:109-120 | One slice, then a pause exactly when `i + BATCH_SIZE < total`. |
| `AsyncDownloader.AsyncImageDownloader.PostTasks` | downloader_async.py:89-91 | One post's tasks, in order, with their 1-based indices. |
| `AsyncDownloader.AsyncImageDownloader.BuildTasks` | downloader_async.py:77-91 | The task list is the images of the posts in order, and empty posts add none. |
| `AsyncDownloader.AsyncImageDownloader.DownloadUserImages` | downloader_async.py:41-96 | Sets `total`, runs the batches and returns `downloaded`. None stands for the `ValueError` that `range` raises when `BATCH_SIZE` is 0; the source propagates that exception to the caller. |
| `Parser.IsImageUrl` | parser.py:95-99 | A URL passes the image test exactly when its lower case contains a dot followed by one of the seven extensions the downloaders accept. |
| `Parser.ImageUrlIgnoresCase` | parser.py:95-99 | The image test gives the same answer for a URL and its lower case. |
| `Parser.ImageUrlExtended` | parser.py:95-99 | An image URL stays one when text such as a query is appended. |
| `Parser.ExtensionMeansImageUrl` | parser.py:95-99 | A URL from which `get_file_extension` takes an allowlisted extension passes `_is_image_url`. |
| `Parser.IsContentImage` | parser.py:84-93 | A content image has no interface marker and is on the data servers or names an image. |
| `Parser.ContentImageDecision` | parser.py:84-93 | An interface marker rejects. Otherwise a URL is content exactly when it contains both `/data/` and `kemono.cr`, or passes the image test. |
| `Parser.ThumbnailIsContent` | parser.py:84-93 | Thumbnails are not rejected, although the docstring says they are. For any host made only of digits, `: / . - _` and lower-case letters other than `c`, `e`, `o` and `v`, `<host>/thumbnail/a.jpg` contains `thumbnail` and is accepted as content. |
| `Parser.ThumbnailExample` | parser.py:84-93 | `https://img.xyz/thumbnail/a.jpg` is accepted as a content image. |
| `Parser.ExtractPostId` | parser.py:45-56 | None exactly when no `/post/` is followed by a digit. Otherwise a non-empty digit string that occurs after `/post/` in the URL. |
| `Parser.PostIdLeftmost` | parser.py:55-56 | The id is the whole digit run after the leftmost `/post/` that is followed by a digit. |
| `Parser.PostIdRoundTrip` | parser.py:55-56 | A post URL built from an id gives that id back. |
| `Parser.OffsetRoundTrip` | parser.py:141-143 | A link carrying `?o=<n>` reads back as `n`. |
| `Parser.MaxOffset` | parser.py:149-156 | The largest of the current offset and the offsets carried by links: an upper bound that some link attains, unless it is the current offset. |
| `Parser.NextOffset` | parser.py:125-161 | None, or a value strictly greater than the current offset. |
| `Parser.NextOffsetFromButton` | parser.py:139-146 | An advancing `?o=N` on the ">" button gives `N`. |
| `Parser.NextOffsetFallback` | parser.py:148-161 | Without an advancing button, the result is `current + 50` exactly when some link's offset exceeds current, and None exactly when none does. |
| `Parser.GetPaginationOffset` | parser.py:125-161 | The method equals `NextOffset`. |
| `Parser.LargestOffset` | parser.py:149-156 | The `max_offset` loop equals `MaxOffset`. |
| `Parser.PostLink` | parser.py:35 | `article.find`: an anchor of the article that matches `/post/\d+`, and None exactly when no anchor matches. |
| `Parser.PostLinkFirst` | parser.py:35 | The first matching anchor is the one taken. |
| `Parser.PostUrlsSound` | parser.py:34-39 | Every listed URL is the resolved post link of some article. |
| `Parser.PostUrlsComplete` | parser.py:34-39 | Every article's post link is listed. |
| `Parser.ParseUserPosts` | parser.py:18-43 | The result is the post URLs deduplicated in first-seen order. It has no duplicates and holds exactly the articles' links. |
| `Parser.PostImagesSpec` | parser.py:73-80 | The image list has no duplicates and holds exactly the `/data/` links that pass the image test, in the order in which they first appear. |
| `Parser.ParsePostImages` | parser.py:58-82 | The append-if-absent loop equals `PostImages`. |
| `Seqs.DedupFirstSeen` | parser.py:40-41 | `if x not in out: out.append(x)` gives no duplicates, the same elements, and the order of first occurrence. |
| `Seqs.OntoExtends` | scraper.py:90-92 | The accumulator only grows: it is a prefix of the result. |
| `Seqs.OntoIsUnseen` | scraper.py:91-92 | On a duplicate-free page, `extend([p for p in posts if p not in all_posts])` is the append-if-absent loop. |
| `Scraper.ListingUrlOffset` | scraper.py:72-74 | The listing URL carries `?o=` only for a positive offset, and it reads back as that offset. |
| `Scraper.Advance` | scraper.py:97-101 | The loop continues only with an offset greater than the current one. |
| `Scraper.Offsets` | scraper.py:71-107 | The fetched offsets start at 0 and strictly increase, and all but the last lie within the site's bound. |
| `Scraper.OffsetsBounded` | scraper.py:71-107 | On a finite site the crawl fetches at most `bound + 2` listing pages. |
| `Scraper.CrawlIsOnto` | scraper.py:71-107 | Keeping each page's unseen posts is deduplicating the concatenation of all pages read. |
| `Scraper.UserPostsSpec` | scraper.py:55-110 | The result has no duplicates, holds every post of every page read and nothing else, and keeps first-seen order. |
| `Scraper.GetUserPosts` | scraper.py:55-110 | The `while True` loop, with its exits on a failed fetch, an empty page, a None or unchanged offset and an exception, returns `Crawl`. |
| `Scraper.GetPostImages` | scraper.py:112-135 | A failed fetch or an exception gives `[]`. Otherwise the result is the parser's list. |
| `Scraper.GetPostInfo` | scraper.py:137-151 | The id is `unknown` exactly when the URL has no post id, and otherwise that id. The url is the input unchanged. |
| `SeleniumScraper.GetUserPosts` | scraper_selenium.py:53-108 | The same loop, proved against the same `Crawl`, with no duplicates. |
| `SeleniumScraper.GetPostImages` | scraper_selenium.py:110-133 | A failed fetch or an exception gives `[]`. Otherwise the result is the parser's list. |
| `SeleniumScraper.GetPostInfo` | scraper_selenium.py:135-149 | The id is the extracted id or `unknown`, and the url is the input. |

## Left out

- Network transport is not modelled; each fetch is an oracle result:
  - the `requests` session and its retry adapter;
  - the `aiohttp` session;
  - the Selenium driver and its `_fetch_page`, `close` and context manager;
  - the HTTP `_fetch_page`.
- BeautifulSoup and `urljoin` are not modelled. What they produce is input to the model (`Doc`, `resolve`). `has_next_page` is HTML-only and unused, so it is left out.
- Chunked writing is reduced to the final size or partial size an oracle reports. `create_directory`, `setup_logging`, logging and the tqdm progress bars are left out.
- Concurrency is not modelled. `asyncio.gather`, the semaphore and the worker pool of `main.py` are replaced by running the coroutines of a batch one after another, in list order. Under real interleaving, the read-then-write of `last_download_time` is not atomic, so two coroutines can start closer together than `RATE_LIMIT_DELAY`.
- `AsyncDownloader.AsyncImageDownloader.DownloadImage`: an exception raised outside its `try` (for example while generating the name) is not modelled.
- Wall-clock time is whole ticks of a logical clock, not floating-point seconds. The sleeps of the sequential engine (0.1 s, `RETRY_DELAY`) are log events with no duration.
- The crawl's pause between listing pages (`time.sleep(REQUEST_DELAY)`, scraper.py:103 and scraper_selenium.py:101) is not modelled. The crawl keeps no log, so the model does not say when the crawl pauses or how many times.
- `format_bytes`, the `success_rate` and `total_size` fields of `get_stats`, and `print_summary` are left out because they are floating point or output only.
- `main.py` and `config.py` are not part of this model. Configuration values are parameters.
- `Scraper.GetUserPosts` and `SeleniumScraper.GetUserPosts` require a finite site: beyond some offset, no listing page has posts. The source makes no such demand. On a site whose listing never ends, the source loops forever, and the model does not cover that run.
- `Parser.ExtractPostId` treats `\d` as the ASCII digits, while Python's `re` also matches other Unicode decimal digits. `Parser.OffsetOf` does the same.
- Python's `str.lower()` is modelled exactly only for characters whose lower case contains an ASCII letter. Those are the characters that decide containment of the ASCII needles and extensions used here.
- `Utils.SanitizedLength` proves the 200-character bound only when the extension has at most 200 characters. With a longer extension, `name[:200-len(ext)]` takes a negative slice and the name stays too long, as `Utils.LongExtensionKeptWhole` states.
