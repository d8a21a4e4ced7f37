/**
 * What both downloaders share: the statistics record, the entries of
 * `posts_data` handed over by the crawler, and the order in which the
 * images of those posts are downloaded.
 */
module Jobs {
  import opened Options
  import opened Filenames

  /** The `stats` dictionary: `total`, `downloaded`, `skipped`, `failed` and `bytes`. */
  datatype Stats = Stats(total: nat, downloaded: nat, skipped: nat, failed: nat, bytes: nat)

  /** The statistics of a downloader that has just been created. */
  const NoStats: Stats := Stats(0, 0, 0, 0, 0)

  /** One entry of `posts_data`: `{'post_id': ..., 'images': [...]}`. */
  datatype PostData = PostData(postId: string, images: seq<string>)

  /** One image to fetch: its URL, the post directory and its 1-based position in the post. */
  datatype Job = Job(url: string, dir: string, index: nat)

  /** `os.path.join(output_dir, f"user_{user_id}")` */
  function UserDir(outputDir: string, userId: string): string {
    JoinPath(outputDir, "user_" + userId)
  }

  /** `os.path.join(user_dir, f"post_{post_id}")` */
  function PostDir(userDir: string, postId: string): string {
    JoinPath(userDir, "post_" + postId)
  }

  /** `enumerate(images, 1)` inside one post directory. */
  function PostJobs(dir: string, images: seq<string>): (r: seq<Job>)
    ensures |r| == |images|
    ensures forall k :: 0 <= k < |r| ==> r[k] == Job(images[k], dir, k + 1)
  {
    if images == [] then []
    else PostJobs(dir, images[..|images| - 1]) + [Job(images[|images| - 1], dir, |images|)]
  }

  /** Every image of every post, post by post, in the order the downloaders visit them. */
  function JobsOf(userDir: string, posts: seq<PostData>): seq<Job> {
    if posts == [] then []
    else
      var last := posts[|posts| - 1];
      JobsOf(userDir, posts[..|posts| - 1]) + PostJobs(PostDir(userDir, last.postId), last.images)
  }

  /** `sum(len(post['images']) for post in posts_data)` */
  function TotalImages(posts: seq<PostData>): nat {
    if posts == [] then 0 else TotalImages(posts[..|posts| - 1]) + |posts[|posts| - 1].images|
  }

  /** The counted `total` is the number of downloads that are attempted. */
  lemma {:induction false} JobsCount(userDir: string, posts: seq<PostData>)
    ensures |JobsOf(userDir, posts)| == TotalImages(posts)
  {
    if posts != [] {
      JobsCount(userDir, posts[..|posts| - 1]);
    }
  }

  /** The jobs of the first `p + 1` posts extend those of the first `p` with the images of post `p`. */
  lemma JobsOfPrefix(userDir: string, posts: seq<PostData>, p: nat)
    requires p < |posts|
    ensures JobsOf(userDir, posts[..p + 1]) ==
      JobsOf(userDir, posts[..p]) + PostJobs(PostDir(userDir, posts[p].postId), posts[p].images)
  {
    assert posts[..p + 1][..p] == posts[..p];
  }

  /** The image at 0-based position `k` of a post comes straight after the first `k`. */
  lemma PostJobsPrefix(dir: string, images: seq<string>, k: nat)
    requires k < |images|
    ensures PostJobs(dir, images[..k + 1]) == PostJobs(dir, images[..k]) + [Job(images[k], dir, k + 1)]
  {
  }

  /** An empty images list adds no job, as the `if not images: continue` of the loops. */
  lemma EmptyPostNoJobs(userDir: string, posts: seq<PostData>, p: nat)
    requires p < |posts| && posts[p].images == []
    ensures JobsOf(userDir, posts[..p + 1]) == JobsOf(userDir, posts[..p])
  {
    JobsOfPrefix(userDir, posts, p);
  }

  /**
   * A name that, joined to an existing post directory, names a directory:
   * the empty name and "." the post directory itself, ".." the user directory.
   */
  predicate IsDirName(name: string) {
    name == [] || name == "." || name == ".."
  }

  /** `os.path.exists` on the path of a name in an existing post directory. */
  predicate Exists(disk: map<string, nat>, name: string, path: string) {
    IsDirName(name) || path in disk
  }

  /** A file opened for writing holds whatever reached it. */
  function Store(disk: map<string, nat>, path: string, partial: Option<nat>): (d: map<string, nat>)
    ensures d.Keys == disk.Keys + (if partial.Some? then {path} else {})
  {
    if partial.Some? then disk[path := partial.value] else disk
  }
}
