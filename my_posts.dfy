/** The "My Posts" page (app/my-posts/page.js): the signed-in user's posts,
    three to a page, with Previous and Next buttons. */
module MyPosts {
  import opened Lists

  /** A post as `/api/posts` returns it; only the owner matters here. */
  datatype Post = Post(id: string, userEmail: string, caption: string, imageUrl: string)

  const PostsPerPage := 3

  /** `allPosts.filter((post) => post.userEmail === session?.user?.email)`. */
  function OwnPosts(all: seq<Post>, email: string): (r: seq<Post>)
    ensures forall p :: p in r <==> p in all && p.userEmail == email
    ensures |r| <= |all|
  {
    Filter(all, (p: Post) => p.userEmail == email)
  }

  /** The owner filter keeps the posts in their original order. */
  lemma OwnPostsOrder(a: seq<Post>, b: seq<Post>, email: string)
    ensures OwnPosts(a + b, email) == OwnPosts(a, email) + OwnPosts(b, email)
  {
    FilterAppend(a, b, (p: Post) => p.userEmail == email);
  }

  /** `Math.ceil(posts.length / POSTS_PER_PAGE)`. */
  function TotalPages(len: nat): (r: nat)
    ensures r == 0 <==> len == 0
    ensures r > 0 ==> PostsPerPage * (r - 1) < len <= PostsPerPage * r
  {
    (len + PostsPerPage - 1) / PostsPerPage
  }

  /** One argument of `Array.prototype.slice`: a negative position counts
      from the end, and a position is clamped to `[0, len]`. */
  function SliceBound(pos: int, len: nat): (r: nat)
    ensures r <= len
    ensures 0 <= pos <= len ==> r == pos
  {
    if pos < 0 then (if len + pos < 0 then 0 else len + pos)
    else if pos > len then len
    else pos
  }

  /** `s.slice(start, end)`. */
  function JsSlice<T>(s: seq<T>, start: int, end: int): seq<T> {
    var b := SliceBound(start, |s|);
    var e := SliceBound(end, |s|);
    if b < e then s[b..e] else []
  }

  /** The posts shown on `page`: `posts.slice(start, start + 3)` with
      `start = (page - 1) * 3`. */
  function PageSlice(posts: seq<Post>, page: int): (r: seq<Post>)
    ensures |r| <= PostsPerPage
  {
    var start := (page - 1) * PostsPerPage;
    JsSlice(posts, start, start + PostsPerPage)
  }

  /** A page from 1 to `TotalPages` shows the posts in the positions
      `3 * (page - 1)` up to `3 * page`. */
  lemma PageSliceInRange(posts: seq<Post>, page: int)
    requires 1 <= page
    ensures PageSlice(posts, page) ==
      var start := (page - 1) * PostsPerPage;
      if start < |posts| then posts[start..if start + PostsPerPage < |posts| then start + PostsPerPage else |posts|]
      else []
  {
  }

  /** The posts of pages `1` to `k`, one after the other. */
  function Pages(posts: seq<Post>, k: nat): seq<Post> {
    if k == 0 then [] else Pages(posts, k - 1) + PageSlice(posts, k)
  }

  lemma {:induction false} PagesPrefix(posts: seq<Post>, k: nat)
    ensures Pages(posts, k) ==
      posts[..if PostsPerPage * k < |posts| then PostsPerPage * k else |posts|]
  {
    if k > 0 {
      PagesPrefix(posts, k - 1);
      PageSliceInRange(posts, k);
      var a := PostsPerPage * (k - 1);
      if a < |posts| {
        var b := if a + PostsPerPage < |posts| then a + PostsPerPage else |posts|;
        assert posts[..a] + posts[a..b] == posts[..b];
      }
    }
  }

  /** Paging through every page shows every post once, in order. */
  lemma AllPagesCoverPosts(posts: seq<Post>)
    ensures Pages(posts, TotalPages(|posts|)) == posts
  {
    PagesPrefix(posts, TotalPages(|posts|));
  }

  /** A page past the last one (left behind by a delete) is empty. */
  lemma PageBeyondEnd(posts: seq<Post>, page: int)
    requires page > TotalPages(|posts|)
    ensures PageSlice(posts, page) == []
  {
    PageSliceInRange(posts, page);
  }

  /** More than one page's worth of posts is exactly more than one page. */
  lemma ControlsIffSeveralPages(len: nat)
    ensures len > PostsPerPage <==> TotalPages(len) > 1
  {
  }

  /** The page's client state. */
  class MyPostsPage {
    var posts: seq<Post>
    var currentPage: int

    constructor ()
      ensures posts == [] && currentPage == 1
    {
      posts := [];
      currentPage := 1;
    }

    /** `fetchPosts`; `all` is what `/api/posts` returned. The current page
        is left as it is, even after a delete. */
    method FetchPosts(all: seq<Post>, email: string)
      modifies this`posts
      ensures posts == OwnPosts(all, email)
    {
      posts := OwnPosts(all, email);
    }

    /** The Previous and Next buttons are drawn only when there is more than
        one page's worth of posts. */
    predicate ShowsControls()
      reads this
    {
      |posts| > PostsPerPage
    }

    /** Previous: `Math.max(p - 1, 1)`. */
    method Previous()
      modifies this`currentPage
      ensures currentPage == if old(currentPage) - 1 > 1 then old(currentPage) - 1 else 1
      ensures currentPage >= 1
    {
      currentPage := if currentPage - 1 > 1 then currentPage - 1 else 1;
    }

    /** Next: `Math.min(p + 1, totalPages)`. */
    method Next()
      modifies this`currentPage
      ensures currentPage == if old(currentPage) + 1 < TotalPages(|posts|) then old(currentPage) + 1 else TotalPages(|posts|)
      ensures currentPage <= TotalPages(|posts|)
    {
      var total := TotalPages(|posts|);
      currentPage := if currentPage + 1 < total then currentPage + 1 else total;
    }
  }
}
