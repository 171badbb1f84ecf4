/**
 * The Pinia `blog` store: its state, the getters that filter, sort and
 * page the loaded posts, the search-parameter actions, and what the CRUD
 * actions do to the local state once their request has settled. The
 * awaited response of each request is a parameter.
 */
module BlogStore {
  import opened Wrappers
  import opened Text
  import opened Seqs
  import opened Paging
  import opened Js

  datatype CategoryRef = CategoryRef(id: int, name: string)
  datatype TagRef = TagRef(id: int, name: string)
  datatype CommentView = CommentView(id: int, content: string)

  /** A post as the API returns it. */
  datatype PostView = PostView(
    id: int,
    title: string,
    excerpt: string,
    content: string,
    published: bool,
    views: int,
    likes: int,
    createdAt: int,
    category: Option<CategoryRef>,
    tags: Option<seq<TagRef>>,
    comments: Option<seq<CommentView>>)

  // ---------------------------------------------------------------------
  // Getters as functions of the state

  /** `title`, `excerpt` or `content` contains the query, all lower-cased. */
  predicate MatchesQuery(p: PostView, query: string) {
    var q := ToLower(query);
    Contains(ToLower(p.title), q) || Contains(ToLower(p.excerpt), q) || Contains(ToLower(p.content), q)
  }

  predicate InCategory(p: PostView, category: int) {
    p.category.Some? && p.category.value.id == category
  }

  predicate HasTag(p: PostView, tag: int) {
    p.tags.Some? && exists i :: 0 <= i < |p.tags.value| && p.tags.value[i].id == tag
  }

  predicate IsPublished(p: PostView) {
    p.published
  }

  /**
   * `filteredPosts`: the published posts, then each active criterion in
   * turn; an empty query and a falsy (`null` or `0`) category or tag are
   * not criteria.
   */
  function FilteredPosts(posts: seq<PostView>, query: string, category: Option<int>, tag: Option<int>): seq<PostView> {
    TagStage(CategoryStage(SearchStage(Filter(posts, IsPublished), query), category), tag)
  }

  function SearchStage(s: seq<PostView>, query: string): seq<PostView> {
    if query != "" then Filter(s, (p: PostView) => MatchesQuery(p, query)) else s
  }

  function CategoryStage(s: seq<PostView>, category: Option<int>): seq<PostView> {
    if TruthyNumber(category) then Filter(s, (p: PostView) => InCategory(p, category.value)) else s
  }

  function TagStage(s: seq<PostView>, tag: Option<int>): seq<PostView> {
    if TruthyNumber(tag) then Filter(s, (p: PostView) => HasTag(p, tag.value)) else s
  }

  /** Whether a post passes every active criterion. */
  predicate Keeps(p: PostView, query: string, category: Option<int>, tag: Option<int>) {
    && p.published
    && (query != "" ==> MatchesQuery(p, query))
    && (TruthyNumber(category) ==> InCategory(p, category.value))
    && (TruthyNumber(tag) ==> HasTag(p, tag.value))
  }

  lemma {:induction false} SearchStageIsFilter(s: seq<PostView>, query: string)
    ensures SearchStage(s, query) == Filter(s, (p: PostView) => query != "" ==> MatchesQuery(p, query))
  {
    if s != [] {
      SearchStageIsFilter(s[1..], query);
      assert s == [s[0]] + s[1..];
    }
  }

  lemma {:induction false} CategoryStageIsFilter(s: seq<PostView>, category: Option<int>)
    ensures CategoryStage(s, category) == Filter(s, (p: PostView) => TruthyNumber(category) ==> InCategory(p, category.value))
  {
    if s != [] {
      CategoryStageIsFilter(s[1..], category);
      assert s == [s[0]] + s[1..];
    }
  }

  lemma {:induction false} TagStageIsFilter(s: seq<PostView>, tag: Option<int>)
    ensures TagStage(s, tag) == Filter(s, (p: PostView) => TruthyNumber(tag) ==> HasTag(p, tag.value))
  {
    if s != [] {
      TagStageIsFilter(s[1..], tag);
      assert s == [s[0]] + s[1..];
    }
  }

  /**
   * The chain of filters is one filter by the conjunction: the result keeps
   * exactly the passing posts, in their original relative order.
   */
  lemma FilteredIsOneFilter(posts: seq<PostView>, query: string, category: Option<int>, tag: Option<int>)
    ensures FilteredPosts(posts, query, category, tag) == Filter(posts, (p: PostView) => Keeps(p, query, category, tag))
  {
    var k1 := (p: PostView) => IsPublished(p) && (query != "" ==> MatchesQuery(p, query));
    var k2 := (p: PostView) => k1(p) && (TruthyNumber(category) ==> InCategory(p, category.value));
    var keeps := (p: PostView) => Keeps(p, query, category, tag);
    SearchAfter(posts, IsPublished, query, k1);
    CategoryAfter(posts, k1, category, k2);
    forall x ensures keeps(x) == (k2(x) && (TruthyNumber(tag) ==> HasTag(x, tag.value))) {
      assert IsPublished(x) == x.published;
    }
    TagAfter(posts, k2, tag, keeps);
  }

  lemma SearchAfter(posts: seq<PostView>, before: PostView -> bool, query: string, after: PostView -> bool)
    requires forall x :: after(x) == (before(x) && (query != "" ==> MatchesQuery(x, query)))
    ensures SearchStage(Filter(posts, before), query) == Filter(posts, after)
  {
    SearchStageIsFilter(Filter(posts, before), query);
    FilterFilter(posts, before, (p: PostView) => query != "" ==> MatchesQuery(p, query), after);
  }

  lemma CategoryAfter(posts: seq<PostView>, before: PostView -> bool, category: Option<int>, after: PostView -> bool)
    requires forall x :: after(x) == (before(x) && (TruthyNumber(category) ==> InCategory(x, category.value)))
    ensures CategoryStage(Filter(posts, before), category) == Filter(posts, after)
  {
    CategoryStageIsFilter(Filter(posts, before), category);
    FilterFilter(posts, before, (p: PostView) => TruthyNumber(category) ==> InCategory(p, category.value), after);
  }

  lemma TagAfter(posts: seq<PostView>, before: PostView -> bool, tag: Option<int>, after: PostView -> bool)
    requires forall x :: after(x) == (before(x) && (TruthyNumber(tag) ==> HasTag(x, tag.value)))
    ensures TagStage(Filter(posts, before), tag) == Filter(posts, after)
  {
    TagStageIsFilter(Filter(posts, before), tag);
    FilterFilter(posts, before, (p: PostView) => TruthyNumber(tag) ==> HasTag(p, tag.value), after);
  }

  /** Without criteria, `filteredPosts` is every published post. */
  lemma NoCriteria(posts: seq<PostView>)
    ensures FilteredPosts(posts, "", None, None) == Filter(posts, IsPublished)
  {
  }

  /** A post is in `filteredPosts` exactly when it is loaded and passes every active criterion. */
  lemma FilteredMembership(posts: seq<PostView>, query: string, category: Option<int>, tag: Option<int>, p: PostView)
    ensures p in FilteredPosts(posts, query, category, tag) <==> p in posts && Keeps(p, query, category, tag)
  {
    FilteredIsOneFilter(posts, query, category, tag);
    if p in posts && Keeps(p, query, category, tag) {
      var i :| 0 <= i < |posts| && posts[i] == p;
    }
  }

  /** One page of the filtered posts: `slice((currentPage - 1) * pageSize, start + pageSize)`. */
  function PaginatedPosts(filtered: seq<PostView>, currentPage: int, pageSize: int): seq<PostView> {
    var start := (currentPage - 1) * pageSize;
    JsSlice(filtered, start, start + pageSize)
  }

  /** From page 1 on, a page is the window at `(page - 1) * size` clipped to the list. */
  lemma PaginatedWindow(filtered: seq<PostView>, currentPage: int, pageSize: int)
    requires currentPage >= 1 && pageSize >= 1
    ensures var start := (currentPage - 1) * pageSize;
      && PaginatedPosts(filtered, currentPage, pageSize) ==
         (if start < |filtered| then filtered[start..if start + pageSize < |filtered| then start + pageSize else |filtered|] else [])
      && |PaginatedPosts(filtered, currentPage, pageSize)| <= pageSize
  {
    var start := (currentPage - 1) * pageSize;
    JsSliceWindow(filtered, start, start + pageSize);
  }

  /**
   * `totalPages`: `Math.ceil(length / pageSize)`, the least page count
   * whose pages hold every filtered post; exactly the pages 1 to
   * `totalPages` are non-empty.
   */
  lemma TotalPagesSpec(filtered: seq<PostView>, pageSize: int, page: int)
    requires pageSize >= 1
    ensures CeilDiv(|filtered|, pageSize) * pageSize >= |filtered|
    ensures 1 <= page <= CeilDiv(|filtered|, pageSize) <==> 1 <= page && PaginatedPosts(filtered, page, pageSize) != []
  {
    CeilDivLeast(|filtered|, pageSize, CeilDiv(|filtered|, pageSize));
    if page >= 1 {
      CeilDivLeast(|filtered|, pageSize, page - 1);
      PaginatedWindow(filtered, page, pageSize);
    }
  }

  function Views(p: PostView): int {
    p.views
  }

  function CreatedAt(p: PostView): int {
    p.createdAt
  }

  /** `featuredPosts`: the five most viewed published posts. */
  function FeaturedPosts(posts: seq<PostView>): seq<PostView> {
    JsSlice(SortDesc(Filter(posts, IsPublished), Views), 0, 5)
  }

  /** `recentPosts`: the five newest published posts. */
  function RecentPosts(posts: seq<PostView>): seq<PostView> {
    JsSlice(SortDesc(Filter(posts, IsPublished), CreatedAt), 0, 5)
  }

  /**
   * The first five of a ranking by `key`: at most five published posts,
   * all of them if there are no more, listed by descending key, and none
   * of the published posts left out ranks above any chosen one.
   */
  predicate TopFive(r: seq<PostView>, posts: seq<PostView>, key: PostView -> int) {
    var published := Filter(posts, IsPublished);
    && |r| == (if |published| < 5 then |published| else 5)
    && multiset(r) <= multiset(published)
    && SortedDesc(r, key)
    && forall i, p | 0 <= i < |r| && p in multiset(published) - multiset(r) :: key(r[i]) >= key(p)
  }

  lemma TopFiveOfRanking(posts: seq<PostView>, key: PostView -> int)
    ensures TopFive(JsSlice(SortDesc(Filter(posts, IsPublished), key), 0, 5), posts, key)
  {
    var published := Filter(posts, IsPublished);
    var sorted := SortDesc(published, key);
    assert |sorted| == |published| by {
      assert |multiset(sorted)| == |multiset(published)|;
    }
    RankingPrefix(sorted, 5, key);
  }

  /** The first `n` of a list sorted by `key`, and how they rank against the rest. */
  lemma RankingPrefix<T>(sorted: seq<T>, n: nat, key: T -> int)
    requires SortedDesc(sorted, key)
    ensures var r := JsSlice(sorted, 0, n);
      && |r| == (if |sorted| < n then |sorted| else n)
      && multiset(r) <= multiset(sorted)
      && SortedDesc(r, key)
      && forall i, x | 0 <= i < |r| && x in multiset(sorted) - multiset(r) :: key(r[i]) >= key(x)
  {
    var k := if n < |sorted| then n else |sorted|;
    JsSliceWindow(sorted, 0, n);
    assert JsSlice(sorted, 0, n) == sorted[..k];
    SortedSplit(sorted, k, key);
  }

  /** `featuredPosts` are the top five by views. */
  lemma FeaturedAreTop(posts: seq<PostView>)
    ensures TopFive(FeaturedPosts(posts), posts, Views)
  {
    TopFiveOfRanking(posts, Views);
  }

  /** `recentPosts` are the top five by creation time. */
  lemma RecentAreNewest(posts: seq<PostView>)
    ensures TopFive(RecentPosts(posts), posts, CreatedAt)
  {
    TopFiveOfRanking(posts, CreatedAt);
  }

  // ---------------------------------------------------------------------
  // The store

  /** The fallbacks of `error.response?.data?.message || ...` per action. */
  const FetchPostsFailed := "获取博客列表失败"
  const FetchPostFailed := "获取博客详情失败"
  const CreateFailed := "创建博客失败"
  const UpdateFailed := "更新博客失败"
  const DeleteFailed := "删除博客失败"
  const LikeFailed := "点赞失败"
  const CommentFailed := "评论发表失败"

  /** `posts.filter(post => post.id !== target)`, the target being `parseInt(id)`. */
  function WithoutId(posts: seq<PostView>, target: Option<int>): (r: seq<PostView>)
    ensures forall i | 0 <= i < |r| :: target != Some(r[i].id) && r[i] in posts
    ensures forall i | 0 <= i < |posts| && target != Some(posts[i].id) :: posts[i] in r
  {
    Filter(posts, (p: PostView) => target != Some(p.id))
  }

  /** `findIndex(post => post.id === target)`; `NaN` matches nothing. */
  function IndexOfId(posts: seq<PostView>, target: Option<int>): (i: int)
    ensures -1 <= i < |posts|
    ensures i >= 0 ==> target == Some(posts[i].id) && forall j | 0 <= j < i :: target != Some(posts[j].id)
    ensures i == -1 ==> forall j | 0 <= j < |posts| :: target != Some(posts[j].id)
  {
    if posts == [] then -1
    else if target == Some(posts[0].id) then 0
    else
      var i := IndexOfId(posts[1..], target);
      if i == -1 then -1 else i + 1
  }

  /** Deleting by the rendering of an id removes every post with that id and keeps the rest in order. */
  lemma {:induction false} DeleteRemovesId(posts: seq<PostView>, n: int)
    ensures WithoutId(posts, ParseInt(IntToString(n))) == Filter(posts, (p: PostView) => p.id != n)
  {
    ParseIntToString(n);
    DeleteRemovesTarget(posts, n);
  }

  lemma {:induction false} DeleteRemovesTarget(posts: seq<PostView>, n: int)
    ensures WithoutId(posts, Some(n)) == Filter(posts, (p: PostView) => p.id != n)
  {
    if posts != [] {
      DeleteRemovesTarget(posts[1..], n);
    }
  }

  class BlogStore {
    var posts: seq<PostView>
    var currentPost: Option<PostView>
    var categories: seq<CategoryRef>
    var tags: seq<TagRef>
    var loading: bool
    var error: Option<string>
    var totalPosts: int
    var currentPage: int
    /** Never reassigned by any action. */
    const pageSize: int
    var searchQuery: string
    var selectedCategory: Option<int>
    var selectedTag: Option<int>

    /** The initial `state()`. */
    constructor ()
      ensures posts == [] && currentPost.None? && categories == [] && tags == []
      ensures !loading && error.None? && totalPosts == 0
      ensures currentPage == 1 && pageSize == 10
      ensures searchQuery == "" && selectedCategory.None? && selectedTag.None?
    {
      posts := [];
      currentPost := None;
      categories := [];
      tags := [];
      loading := false;
      error := None;
      totalPosts := 0;
      currentPage := 1;
      pageSize := 10;
      searchQuery := "";
      selectedCategory := None;
      selectedTag := None;
    }

    function GetPostById(id: string): (r: Option<PostView>)
      reads this
      ensures r.None? <==> forall i | 0 <= i < |posts| :: ParseInt(id) != Some(posts[i].id)
      ensures r.Some? ==> r.value in posts && ParseInt(id) == Some(r.value.id)
      ensures r.Some? ==> IndexOfId(posts, ParseInt(id)) >= 0 && r.value == posts[IndexOfId(posts, ParseInt(id))]
    {
      var target := ParseInt(id);
      var r := FindFirst(posts, (p: PostView) => target == Some(p.id));
      if r.Some? then
        var i :| 0 <= i < |posts| && posts[i] == r.value && target == Some(posts[i].id) && forall j :: 0 <= j < i ==> target != Some(posts[j].id);
        var k := IndexOfId(posts, target);
        assert k == i;
        r
      else r
    }

    function Filtered(): seq<PostView>
      reads this
    {
      FilteredPosts(posts, searchQuery, selectedCategory, selectedTag)
    }

    function Paginated(): seq<PostView>
      reads this
    {
      PaginatedPosts(Filtered(), currentPage, pageSize)
    }

    function TotalPages(): nat
      reads this
      requires pageSize >= 1
    {
      CeilDiv(|Filtered()|, pageSize)
    }

    /**
     * `setSearchParams(params)`: a field is set only when supplied
     * (`None` stands for `undefined`); the page returns to 1 unless given.
     */
    method SetSearchParams(query: Option<string>, category: Option<Option<int>>, tag: Option<Option<int>>, page: Option<int>)
      modifies this`searchQuery, this`selectedCategory, this`selectedTag, this`currentPage
      ensures searchQuery == (if query.Some? then query.value else old(searchQuery))
      ensures selectedCategory == (if category.Some? then category.value else old(selectedCategory))
      ensures selectedTag == (if tag.Some? then tag.value else old(selectedTag))
      ensures currentPage == (if page.Some? then page.value else 1)
    {
      if query.Some? {
        searchQuery := query.value;
      }
      if category.Some? {
        selectedCategory := category.value;
      }
      if tag.Some? {
        selectedTag := tag.value;
      }
      if page.Some? {
        currentPage := page.value;
      } else {
        currentPage := 1;
      }
    }

    /** `resetSearchParams()`: back to no criteria, on the first page. */
    method ResetSearchParams()
      modifies this`searchQuery, this`selectedCategory, this`selectedTag, this`currentPage
      ensures searchQuery == "" && selectedCategory.None? && selectedTag.None? && currentPage == 1
      ensures Filtered() == Filter(posts, IsPublished)
    {
      NoCriteria(posts);
      searchQuery := "";
      selectedCategory := None;
      selectedTag := None;
      currentPage := 1;
    }

    /** `fetchPosts`: the list is replaced by the answer and counted. */
    method FetchPosts(response: ApiResponse<seq<PostView>>)
      modifies this`posts, this`totalPosts, this`loading, this`error
      ensures !loading
      ensures response.Ok? ==> posts == response.data && totalPosts == |response.data| && error.None?
      ensures response.Err? ==>
        posts == old(posts) && totalPosts == old(totalPosts) && error == Some(OrDefault(response.message, FetchPostsFailed))
    {
      loading := true;
      error := None;
      match response
      case Ok(data) =>
        posts := data;
        totalPosts := |data|;
        loading := false;
      case Err(_, message) =>
        error := Some(OrDefault(message, FetchPostsFailed));
        loading := false;
    }

    /** `fetchPostById`: the answer becomes the current post and is returned; a failure returns nothing. */
    method FetchPostById(response: ApiResponse<PostView>) returns (r: Option<PostView>)
      modifies this`currentPost, this`loading, this`error
      ensures !loading
      ensures response.Ok? ==> currentPost == Some(response.data) && r == currentPost && error.None?
      ensures response.Err? ==>
        currentPost == old(currentPost) && r.None? && error == Some(OrDefault(response.message, FetchPostFailed))
    {
      loading := true;
      error := None;
      match response
      case Ok(data) =>
        currentPost := Some(data);
        loading := false;
        r := Some(data);
      case Err(_, message) =>
        error := Some(OrDefault(message, FetchPostFailed));
        loading := false;
        r := None;
    }

    /** `fetchCategories`: replaced on success, a failure is only logged. */
    method FetchCategories(response: ApiResponse<seq<CategoryRef>>)
      modifies this`categories
      ensures categories == (if response.Ok? then response.data else old(categories))
    {
      if response.Ok? {
        categories := response.data;
      }
    }

    /** `fetchTags`: replaced on success, a failure is only logged. */
    method FetchTags(response: ApiResponse<seq<TagRef>>)
      modifies this`tags
      ensures tags == (if response.Ok? then response.data else old(tags))
    {
      if response.Ok? {
        tags := response.data;
      }
    }

    /** `createPost`: the created post is pushed onto the list. */
    method CreatePost(response: ApiResponse<PostView>) returns (r: ActionResult<PostView>)
      modifies this`posts, this`loading, this`error
      ensures !loading
      ensures response.Ok? ==>
        posts == old(posts) + [response.data] && error.None? && r == ActionResult(true, Some(response.data), None)
      ensures response.Err? ==>
        && posts == old(posts)
        && error == Some(OrDefault(response.message, CreateFailed))
        && r == ActionResult(false, None, error)
    {
      loading := true;
      error := None;
      match response
      case Ok(data) =>
        posts := posts + [data];
        loading := false;
        r := ActionResult(true, Some(data), None);
      case Err(_, message) =>
        error := Some(OrDefault(message, CreateFailed));
        loading := false;
        r := ActionResult(false, None, error);
    }

    /** `updatePost`: the first post with the id is replaced, and the answer becomes the current post. */
    method UpdatePost(id: string, response: ApiResponse<PostView>) returns (r: ActionResult<PostView>)
      modifies this`posts, this`currentPost, this`loading, this`error
      ensures !loading
      ensures response.Ok? ==>
        && (IndexOfId(old(posts), ParseInt(id)) >= 0 ==> posts == old(posts)[IndexOfId(old(posts), ParseInt(id)) := response.data])
        && (IndexOfId(old(posts), ParseInt(id)) == -1 ==> posts == old(posts))
        && currentPost == Some(response.data) && error.None?
        && r == ActionResult(true, Some(response.data), None)
      ensures response.Err? ==>
        && posts == old(posts) && currentPost == old(currentPost)
        && error == Some(OrDefault(response.message, UpdateFailed))
        && r == ActionResult(false, None, error)
    {
      loading := true;
      error := None;
      match response
      case Ok(data) =>
        var target := ParseInt(id);
        var before := posts;
        var index := IndexOfId(before, target);
        posts := if index != -1 then before[index := data] else before;
        currentPost := Some(data);
        loading := false;
        r := ActionResult(true, Some(data), None);
      case Err(_, message) =>
        error := Some(OrDefault(message, UpdateFailed));
        loading := false;
        r := ActionResult(false, None, error);
    }

    /** `deletePost`: every post with the id leaves the list, the others keep their order. */
    method DeletePost(id: string, response: ApiResponse<()>) returns (r: ActionResult<PostView>)
      modifies this`posts, this`loading, this`error
      ensures !loading
      ensures response.Ok? ==> posts == WithoutId(old(posts), ParseInt(id)) && error.None? && r == ActionResult(true, None, None)
      ensures response.Err? ==>
        && posts == old(posts)
        && error == Some(OrDefault(response.message, DeleteFailed))
        && r == ActionResult(false, None, error)
    {
      loading := true;
      error := None;
      match response
      case Ok(_) =>
        posts := WithoutId(posts, ParseInt(id));
        loading := false;
        r := ActionResult(true, None, None);
      case Err(_, message) =>
        error := Some(OrDefault(message, DeleteFailed));
        loading := false;
        r := ActionResult(false, None, error);
    }

    /**
     * `likePost`: the new like count goes to the first post with the id and
     * to the current post when it has that id. The action touches neither
     * `loading` nor `error`.
     */
    method LikePost(id: string, response: ApiResponse<int>) returns (r: ActionResult<PostView>)
      modifies this`posts, this`currentPost
      ensures response.Ok? ==>
        && (IndexOfId(old(posts), ParseInt(id)) >= 0 ==>
              posts == old(posts)[IndexOfId(old(posts), ParseInt(id)) := old(posts)[IndexOfId(old(posts), ParseInt(id))].(likes := response.data)])
        && (IndexOfId(old(posts), ParseInt(id)) == -1 ==> posts == old(posts))
        && (old(currentPost).Some? && ParseInt(id) == Some(old(currentPost).value.id) ==>
              currentPost == Some(old(currentPost).value.(likes := response.data)))
        && (!(old(currentPost).Some? && ParseInt(id) == Some(old(currentPost).value.id)) ==> currentPost == old(currentPost))
        && r == ActionResult(true, None, None)
      ensures response.Err? ==>
        posts == old(posts) && currentPost == old(currentPost) && r == ActionResult(false, None, Some(OrDefault(response.message, LikeFailed)))
    {
      match response
      case Ok(likes) =>
        var index := IndexOfId(posts, ParseInt(id));
        if index != -1 {
          posts := posts[index := posts[index].(likes := likes)];
        }
        if currentPost.Some? && ParseInt(id) == Some(currentPost.value.id) {
          currentPost := Some(currentPost.value.(likes := likes));
        }
        r := ActionResult(true, None, None);
      case Err(_, message) =>
        r := ActionResult(false, None, Some(OrDefault(message, LikeFailed)));
    }
  
    /**
     * `addComment`: the new comment is appended to the current post's
     * comments (started when missing) when that post has the id; the
     * loaded list is not touched.
     */
    method AddComment(postId: string, response: ApiResponse<CommentView>) returns (r: ActionResult<CommentView>)
      modifies this`currentPost
      ensures response.Ok? && old(currentPost).Some? && ParseInt(postId) == Some(old(currentPost).value.id) ==>
        var before := old(currentPost).value;
        currentPost == Some(before.(comments := Some(
          (if before.comments.Some? then before.comments.value else []) + [response.data])))
      ensures !(response.Ok? && old(currentPost).Some? && ParseInt(postId) == Some(old(currentPost).value.id)) ==>
        currentPost == old(currentPost)
      ensures response.Ok? ==> r == ActionResult(true, Some(response.data), None)
      ensures response.Err? ==> r == ActionResult(false, None, Some(OrDefault(response.message, CommentFailed)))
    {
      match response
      case Ok(comment) =>
        if currentPost.Some? && ParseInt(postId) == Some(currentPost.value.id) {
          var existing := if currentPost.value.comments.Some? then currentPost.value.comments.value else [];
          currentPost := Some(currentPost.value.(comments := Some(existing + [comment])));
        }
        r := ActionResult(true, Some(comment), None);
      case Err(_, message) =>
        r := ActionResult(false, None, Some(OrDefault(message, CommentFailed)));
    }
  }
}
