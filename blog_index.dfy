/** The public blog index (app/blog/page.jsx): the featured post, the list
    filtered by the search box and the category buttons, and six posts per
    page. */
module BlogIndex {
  import opened Text
  import opened Wrappers
  import Pagination

  /** A post as the index sees it after the `transformed` mapping. */
  datatype BlogPost = BlogPost(id: int, title: string, category: string, isFeatured: bool)

  const PostsPerPage: nat := 6

  /** `posts.find((post) => post.isFeatured)`. */
  function FeaturedPost(posts: seq<BlogPost>): Option<BlogPost>
  {
    if posts == [] then None
    else if posts[0].isFeatured then Some(posts[0])
    else FeaturedPost(posts[1..])
  }

  /** The featured post is the first post marked featured, and there is
      none exactly when no post is marked. */
  lemma {:induction false} FeaturedPostIsFirst(posts: seq<BlogPost>)
    ensures FeaturedPost(posts).None? <==> forall i :: 0 <= i < |posts| ==> !posts[i].isFeatured
    ensures FeaturedPost(posts).Some? ==>
      exists k :: 0 <= k < |posts| && posts[k] == FeaturedPost(posts).value
        && posts[k].isFeatured && forall i :: 0 <= i < k ==> !posts[i].isFeatured
  {
    if posts != [] && !posts[0].isFeatured {
      FeaturedPostIsFirst(posts[1..]);
      if FeaturedPost(posts).Some? {
        var k :| 0 <= k < |posts[1..]| && posts[1..][k] == FeaturedPost(posts).value
          && posts[1..][k].isFeatured && forall i :: 0 <= i < k ==> !posts[1..][i].isFeatured;
        assert posts[k + 1] == FeaturedPost(posts).value;
      }
    }
  }

  /** The filter callback: featured posts never appear in the list; the
      lower-cased title must contain the lower-cased query; an empty
      category selects every category, otherwise the trimmed, lower-cased
      categories must be equal. */
  predicate Matches(post: BlogPost, query: string, category: string)
  {
    && !post.isFeatured
    && Contains(LowerString(post.title), LowerString(query))
    && (category == "" || LowerString(Trim(post.category)) == LowerString(Trim(category)))
  }

  /** `filteredPosts`. */
  function FilteredPosts(posts: seq<BlogPost>, query: string, category: string): (r: seq<BlogPost>)
    ensures |r| <= |posts|
  {
    if posts == [] then []
    else
      var rest := FilteredPosts(posts[1..], query, category);
      if Matches(posts[0], query, category) then [posts[0]] + rest else rest
  }

  /** A post is listed exactly when it is one of the posts and matches. */
  lemma {:induction false} FilteredMembers(posts: seq<BlogPost>, query: string, category: string)
    ensures forall p :: p in FilteredPosts(posts, query, category) <==> p in posts && Matches(p, query, category)
  {
    if posts != [] {
      FilteredMembers(posts[1..], query, category);
      assert posts == [posts[0]] + posts[1..];
    }
  }

  /** Filtering keeps the fetched order: it distributes over concatenation. */
  lemma {:induction false} FilteredAppend(a: seq<BlogPost>, b: seq<BlogPost>, query: string, category: string)
    ensures FilteredPosts(a + b, query, category) == FilteredPosts(a, query, category) + FilteredPosts(b, query, category)
  {
    if a != [] {
      assert (a + b)[1..] == a[1..] + b;
      FilteredAppend(a[1..], b, query, category);
    } else {
      assert a + b == b;
    }
  }

  /** The featured post is never also listed. */
  lemma {:induction false} FeaturedNotListed(posts: seq<BlogPost>, query: string, category: string)
    requires FeaturedPost(posts).Some?
    ensures FeaturedPost(posts).value !in FilteredPosts(posts, query, category)
  {
    FeaturedPostIsFirst(posts);
    FilteredMembers(posts, query, category);
  }

  /** With an empty search and the "All" category every post that is not
      featured is listed. */
  lemma {:induction false} NoFilterListsAllOthers(posts: seq<BlogPost>)
    ensures forall p :: p in FilteredPosts(posts, "", "") <==> p in posts && !p.isFeatured
  {
    FilteredMembers(posts, "", "");
    forall p | p in posts && !p.isFeatured
      ensures Matches(p, "", "")
    {
      assert OccursAt(LowerString(p.title), LowerString(""), 0);
    }
  }

  /** The search is case-insensitive: a query and its lower-cased form list
      the same posts. */
  lemma {:induction false} SearchIgnoresCase(posts: seq<BlogPost>, query: string, category: string)
    ensures FilteredPosts(posts, query, category) == FilteredPosts(posts, LowerString(query), category)
  {
    LowerStringFixedPoints(query);
    if posts != [] {
      SearchIgnoresCase(posts[1..], query, category);
    }
  }

  /** `Math.ceil(filteredPosts.length / postsPerPage)`. */
  function TotalPages(count: nat): (r: nat)
  {
    (count + PostsPerPage - 1) / PostsPerPage
  }

  /** The page count is the least number of six-post pages that hold every
      listed post. */
  lemma {:induction false} TotalPagesIsCeiling(count: nat)
    ensures TotalPages(count) * PostsPerPage >= count
    ensures TotalPages(count) == 0 || (TotalPages(count) - 1) * PostsPerPage < count
  {
  }

  /** `Array.prototype.slice`'s treatment of one index: a negative index
      counts from the end, and the result is clamped to `[0, len]`. */
  function SliceIndex(i: int, len: nat): (r: nat)
    ensures r <= len
  {
    if i < 0 then (if len + i < 0 then 0 else len + i)
    else if i > len then len
    else i
  }

  /** `s.slice(start, end)`. */
  function JsSlice<T>(s: seq<T>, start: int, end: int): seq<T>
  {
    var a := SliceIndex(start, |s|);
    var b := SliceIndex(end, |s|);
    if a < b then s[a..b] else []
  }

  /** `displayedPosts` for the current page. */
  function DisplayedPosts(filtered: seq<BlogPost>, currentPage: int): seq<BlogPost>
  {
    var startIndex := (currentPage - 1) * PostsPerPage;
    JsSlice(filtered, startIndex, startIndex + PostsPerPage)
  }

  function Min(a: int, b: int): int { if a < b then a else b }

  /** Page `p` (from 1) shows the posts at positions `6(p-1)` to `6p - 1`
      that exist: at most six, and some exactly when `p` is one of the
      listed pages. */
  lemma {:induction false} DisplayedPostsSpec(filtered: seq<BlogPost>, currentPage: int)
    requires currentPage >= 1
    ensures DisplayedPosts(filtered, currentPage) ==
      filtered[Min((currentPage - 1) * PostsPerPage, |filtered|)..Min(currentPage * PostsPerPage, |filtered|)]
    ensures |DisplayedPosts(filtered, currentPage)| <= PostsPerPage
    ensures DisplayedPosts(filtered, currentPage) != [] <==> currentPage <= TotalPages(|filtered|)
  {
  }

  /** The posts of pages 1 to k, one page after the other. */
  function PagesUpTo(filtered: seq<BlogPost>, k: nat): seq<BlogPost>
  {
    if k == 0 then [] else PagesUpTo(filtered, k - 1) + DisplayedPosts(filtered, k)
  }

  lemma {:induction false} PagesUpToIsPrefix(filtered: seq<BlogPost>, k: nat)
    ensures PagesUpTo(filtered, k) == filtered[..Min(k * PostsPerPage, |filtered|)]
  {
    if k > 0 {
      PagesUpToIsPrefix(filtered, k - 1);
      DisplayedPostsSpec(filtered, k);
    }
  }

  /** Reading pages 1 to `TotalPages` in turn shows every listed post once,
      in order. */
  lemma {:induction false} PagesPartitionList(filtered: seq<BlogPost>)
    ensures PagesUpTo(filtered, TotalPages(|filtered|)) == filtered
  {
    PagesUpToIsPrefix(filtered, TotalPages(|filtered|));
  }

  /** The page's state: the fetched posts, the search text, the selected
      category and the current page. `loading` is left out. */
  class BlogIndexPage {
    var posts: seq<BlogPost>
    var searchQuery: string
    var selectedCategory: string
    var currentPage: int

    /** The current page is always a page number, 1 or more. */
    predicate Valid()
      reads this
    {
      currentPage >= 1
    }

    function Filtered(): seq<BlogPost>
      reads this
    {
      FilteredPosts(posts, searchQuery, selectedCategory)
    }

    function Displayed(): seq<BlogPost>
      reads this
    {
      DisplayedPosts(Filtered(), currentPage)
    }

    /** What the pagination component renders for this state. */
    function PaginationView(): Option<seq<Pagination.PageButton>>
      reads this
    {
      Pagination.Render(currentPage, TotalPages(|Filtered()|))
    }

    /** The initial state: no posts, empty search, "All", page 1. */
    constructor ()
      ensures Valid()
      ensures posts == [] && searchQuery == "" && selectedCategory == "" && currentPage == 1
    {
      posts := [];
      searchQuery := "";
      selectedCategory := "";
      currentPage := 1;
    }

    /** The fetch on mount: on success the rows (already ordered newest
        first by the query) replace the list; on error nothing changes. */
    method LoadPosts(fetched: Option<seq<BlogPost>>)
      requires Valid()
      modifies this
      ensures Valid()
      ensures fetched.Some? ==> posts == fetched.value
      ensures fetched.None? ==> posts == old(posts)
      ensures searchQuery == old(searchQuery) && selectedCategory == old(selectedCategory)
      ensures currentPage == old(currentPage)
    {
      if fetched.Some? {
        posts := fetched.value;
      }
    }

    /** `handleSearch(val)`: a new query always goes back to page 1. */
    method HandleSearch(val: string)
      requires Valid()
      modifies this
      ensures Valid()
      ensures searchQuery == val && currentPage == 1
      ensures posts == old(posts) && selectedCategory == old(selectedCategory)
      ensures Displayed() == Filtered()[..Min(PostsPerPage, |Filtered()|)]
    {
      searchQuery := val;
      currentPage := 1;
      DisplayedPostsSpec(Filtered(), 1);
    }

    /** `handleCategoryChange(cat)`: a new category always goes back to page 1. */
    method HandleCategoryChange(cat: string)
      requires Valid()
      modifies this
      ensures Valid()
      ensures selectedCategory == cat && currentPage == 1
      ensures posts == old(posts) && searchQuery == old(searchQuery)
      ensures Displayed() == Filtered()[..Min(PostsPerPage, |Filtered()|)]
    {
      selectedCategory := cat;
      currentPage := 1;
      DisplayedPostsSpec(Filtered(), 1);
    }

    /** `onPageChange={setCurrentPage}`, reached from a pagination button,
        which only offers the pages 1 to `TotalPages`; the chosen page then
        shows some posts and its button is the active one. */
    method OnPageChange(page: int)
      requires Valid()
      requires PaginationView().Some?
      requires exists i :: 0 <= i < |PaginationView().value| && PaginationView().value[i].onClickPage == page
      modifies this
      ensures Valid()
      ensures currentPage == page
      ensures posts == old(posts) && searchQuery == old(searchQuery) && selectedCategory == old(selectedCategory)
      ensures Displayed() != []
      ensures PaginationView().Some? && PaginationView().value[page - 1].active
    {
      Pagination.ClicksReachEveryPage(currentPage, TotalPages(|Filtered()|));
      currentPage := page;
      DisplayedPostsSpec(Filtered(), page);
      Pagination.ClicksReachEveryPage(currentPage, TotalPages(|Filtered()|));
    }
  }
}
