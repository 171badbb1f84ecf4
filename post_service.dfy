/**
 * `PostServiceImpl`. The listings are functions of the selected rows (the
 * database does the selecting and ordering, see `PostRepository`); the
 * tag listing pages a tag's published posts by hand; the writes update the
 * stored `Post` objects in place and keep both sides of the post-tag
 * association in step.
 */
module PostService {
  import opened Wrappers
  import opened Text
  import opened Seqs
  import opened Errors
  import opened Paging
  import opened Entities
  import opened Store
  import opened PostRepository

  /** `PostFilter` with its field initialisers. */
  datatype PostFilter = PostFilter(
    keyword: Option<string>,
    categoryId: Option<Id>,
    authorId: Option<Id>,
    published: Option<bool>,
    sortBy: string,
    sortDirection: Option<string>,
    page: int,
    size: int)

  const DefaultFilter := PostFilter(None, None, None, None, "createdAt", Some("desc"), 0, 10)

  datatype PostCreateRequest = PostCreateRequest(
    title: string,
    excerpt: Option<string>,
    content: string,
    coverImage: Option<string>,
    categoryId: Option<Id>,
    tagIds: Option<set<Id>>,
    published: bool)

  /** `PostUpdateRequest`: every field nullable; null means "leave as is". */
  datatype PostUpdateRequest = PostUpdateRequest(
    title: Option<string>,
    excerpt: Option<string>,
    content: Option<string>,
    coverImage: Option<string>,
    categoryId: Option<Id>,
    tagIds: Option<set<Id>>,
    published: Option<bool>)

  // ---------------------------------------------------------------------
  // getPageable

  datatype Direction = ASC | DESC

  /** `"desc".equalsIgnoreCase(sortDirection)`: DESC for any casing of "desc", ASC otherwise, null included. */
  function SortDirection(d: Option<string>): (r: Direction)
    ensures r == DESC <==> d.Some? && EqualsIgnoreCase("desc", d.value)
  {
    if d.Some? && EqualsIgnoreCase("desc", d.value) then DESC else ASC
  }

  lemma SortDirectionExamples()
    ensures SortDirection(Some("desc")) == DESC && SortDirection(Some("DESC")) == DESC && SortDirection(Some("DeSc")) == DESC
    ensures SortDirection(None) == ASC && SortDirection(Some("asc")) == ASC && SortDirection(Some("")) == ASC
    ensures SortDirection(Some("descending")) == ASC
    // Java folds LATIN SMALL LETTER LONG S to 'S', so this spelling sorts descending too.
    ensures SortDirection(Some("de\U{017F}c")) == DESC
  {
    assert CharEqualsIgnoreCase('s', '\U{017F}');
    assert !CharEqualsIgnoreCase('d', 'a');
  }

  /** Rows in the order `dir` asks for on the integer-valued column `key`. */
  predicate InOrder(rows: seq<PostRow>, key: PostRow -> int, dir: Direction) {
    if dir == DESC then SortedDesc(rows, key)
    else forall i, j :: 0 <= i < j < |rows| ==> key(rows[i]) <= key(rows[j])
  }

  /** `Sort.by(direction, sortBy)` on an integer-valued column `key`, ties kept in scan order. */
  function Ordered(rows: seq<PostRow>, key: PostRow -> int, dir: Direction): (r: seq<PostRow>)
    ensures multiset(r) == multiset(rows)
    ensures InOrder(r, key, dir)
  {
    if dir == DESC then SortDesc(rows, key)
    else
      var r := SortDesc(rows, (p: PostRow) => -key(p));
      assert forall i, j :: 0 <= i < j < |r| ==> -key(r[i]) >= -key(r[j]);
      r
  }

  // ---------------------------------------------------------------------
  // getAllPosts

  /**
   * `getAllPosts`: any non-null `published` flag, `false` included,
   * restricts the listing to published posts.
   */
  function GetAllPosts(rows: seq<PostRow>, filter: PostFilter, key: PostRow -> int): Result<PageResponse<PostRow>, Exception> {
    var selected := if filter.published.Some? then FindByPublishedTrue(rows) else rows;
    SpringPage(Ordered(selected, key, SortDirection(filter.sortDirection)), filter.page, filter.size)
  }

  /**
   * The listing fails exactly on a bad page request; otherwise the page holds
   * rows of the selection (published ones whenever the flag is given), in
   * the requested order, and counts the whole selection.
   */
  lemma GetAllPostsSpec(rows: seq<PostRow>, filter: PostFilter, key: PostRow -> int)
    ensures GetAllPosts(rows, filter, key).Failure? <==> filter.page < 0 || filter.size < 1
    ensures GetAllPosts(rows, filter, key).Success? ==>
      var r := GetAllPosts(rows, filter, key).value;
      && (forall i :: 0 <= i < |r.content| ==> r.content[i] in rows)
      && (filter.published.Some? ==> forall i :: 0 <= i < |r.content| ==> r.content[i].published)
      && r.totalElements == (if filter.published.Some? then |FindByPublishedTrue(rows)| else |rows|)
      && InOrder(r.content, key, SortDirection(filter.sortDirection))
  {
    var selected := if filter.published.Some? then FindByPublishedTrue(rows) else rows;
    var dir := SortDirection(filter.sortDirection);
    var ordered := Ordered(selected, key, dir);
    assert GetAllPosts(rows, filter, key) == SpringPage(ordered, filter.page, filter.size);
    SpringPageSpec(ordered, filter.page, filter.size);
    if filter.page >= 0 && filter.size >= 1 {
      if filter.published.Some? {
        PageKeeps(ordered, selected, filter.page, filter.size, (p: PostRow) => p.published && p in rows);
      } else {
        PageKeeps(ordered, selected, filter.page, filter.size, (p: PostRow) => p in rows);
      }
      PageInOrder(ordered, filter.page, filter.size, key, dir);
    }
  }

  /** A page of ordered rows is in the same order. */
  lemma PageInOrder(ordered: seq<PostRow>, page: int, size: int, key: PostRow -> int, dir: Direction)
    requires InOrder(ordered, key, dir) && page >= 0 && size >= 1
    ensures SpringPage(ordered, page, size).Success?
    ensures InOrder(SpringPage(ordered, page, size).value.content, key, dir)
  {
    SpringPageSpec(ordered, page, size);
    var c := SpringPage(ordered, page, size).value.content;
    forall i, j | 0 <= i < j < |c|
      ensures if dir == DESC then key(c[i]) >= key(c[j]) else key(c[i]) <= key(c[j])
    {
      assert c[i] == ordered[page * size + i] && c[j] == ordered[page * size + j];
    }
  }

  // ---------------------------------------------------------------------
  // getRecentPosts / getPopularPosts

  /** `getRecentPosts(limit)`: the first `limit` published rows, newest first. */
  function GetRecentPosts(rows: seq<PostRow>, limit: int): Result<seq<PostRow>, Exception> {
    var page :- SpringPage(FindRecentPosts(rows), 0, limit);
    Success(page.content)
  }

  /** `getPopularPosts(limit)`: the first `limit` published rows, most viewed first. */
  function GetPopularPosts(rows: seq<PostRow>, limit: int): Result<seq<PostRow>, Exception> {
    var page :- SpringPage(FindPopularPosts(rows), 0, limit);
    Success(page.content)
  }

  /**
   * The first `limit` published rows of the newest-first ordering (all of
   * them when there are fewer); none of the published rows left out is
   * newer than a returned one. A page size below one is refused.
   */
  lemma RecentPostsSpec(rows: seq<PostRow>, limit: int)
    ensures GetRecentPosts(rows, limit).Failure? <==> limit < 1
    ensures limit >= 1 ==>
      var all := FindRecentPosts(rows);
      var r := GetRecentPosts(rows, limit).value;
      && r == all[..if limit < |all| then limit else |all|]
      && |r| <= limit && SortedDesc(r, (p: PostRow) => p.createdAt)
      && (forall i :: 0 <= i < |r| ==> r[i].published && r[i] in rows)
      && (forall i, x | 0 <= i < |r| && x in multiset(FindByPublishedTrue(rows)) - multiset(r) :: r[i].createdAt >= x.createdAt)
  {
    var all := FindRecentPosts(rows);
    SpringPageSpec(all, 0, limit);
    if limit >= 1 {
      var k := if limit < |all| then limit else |all|;
      assert GetRecentPosts(rows, limit).value == all[..k];
      SortedSplit(all, k, (p: PostRow) => p.createdAt);
    }
  }

  /**
   * The first `limit` published rows of the most-viewed-first ordering;
   * none of the published rows left out has more views than a returned
   * one. A page size below one is refused.
   */
  lemma PopularPostsSpec(rows: seq<PostRow>, limit: int)
    ensures GetPopularPosts(rows, limit).Failure? <==> limit < 1
    ensures limit >= 1 ==>
      var all := FindPopularPosts(rows);
      var r := GetPopularPosts(rows, limit).value;
      && r == all[..if limit < |all| then limit else |all|]
      && |r| <= limit && SortedDesc(r, (p: PostRow) => p.views)
      && (forall i :: 0 <= i < |r| ==> r[i].published && r[i] in rows)
      && (forall i, x | 0 <= i < |r| && x in multiset(FindByPublishedTrue(rows)) - multiset(r) :: r[i].views >= x.views)
  {
    var all := FindPopularPosts(rows);
    SpringPageSpec(all, 0, limit);
    if limit >= 1 {
      var k := if limit < |all| then limit else |all|;
      assert GetPopularPosts(rows, limit).value == all[..k];
      SortedSplit(all, k, (p: PostRow) => p.views);
    }
  }

  // ---------------------------------------------------------------------
  // getPostsByTag: paging by hand

  /** `(int) Math.ceil((double) n / size)`, including a zero or negative page size. */
  function CeilPages(n: nat, size: int): int {
    if size > 0 then CeilDiv(n, size)
    else if size == 0 then (if n == 0 then 0 else 0x7fff_ffff)  // NaN -> 0, Infinity -> Integer.MAX_VALUE
    else -(n / -size)                                          // ceil of a non-positive quotient
  }

  /**
   * The in-memory page of `getPostsByTag` over the tag's published posts in
   * iteration order, with `List.subList`'s exceptions for bad bounds.
   */
  function TagPage<T>(posts: seq<T>, page: int, size: int): Result<PageResponse<T>, Exception> {
    var n := |posts|;
    var start := page * size;
    var end := if start + size < n then start + size else n;
    if start >= n then
      Success(PageResponse([], page, size, n, CeilPages(n, size), true))
    else if start < 0 then
      Failure(IndexOutOfBounds("fromIndex = " + IntToString(start)))
    else if start > end then
      Failure(IllegalArgument("fromIndex(" + IntToString(start) + ") > toIndex(" + IntToString(end) + ")"))
    else
      Success(PageResponse(posts[start..end], page, size, n, CeilPages(n, size), end >= n))
  }

  /** The slice bounds, the ceiling page count and the `last` flag of the tag listing. */
  lemma TagPageSpec<T>(posts: seq<T>, page: int, size: int)
    requires page >= 0 && size > 0
    ensures TagPage(posts, page, size).Success?
    ensures
      var r := TagPage(posts, page, size).value;
      var start := page * size;
      var end := if start + size < |posts| then start + size else |posts|;
      && r.totalElements == |posts|
      && r.totalPages == CeilDiv(|posts|, size)
      && (start >= |posts| ==> r.content == [] && r.last)
      && (start < |posts| ==> r.content == posts[start..end] && (r.last <==> end >= |posts|))
  {
    assert page * size >= 0;
  }

  /** For a valid request the hand-made page is exactly the page Spring Data would build. */
  lemma TagPageIsSpringPage<T>(posts: seq<T>, page: int, size: int)
    requires page >= 0 && size > 0
    ensures TagPage(posts, page, size) == SpringPage(posts, page, size)
  {
    var n := |posts|;
    assert page * size >= 0;
    CeilDivLeast(n, size, page + 1);
    CeilDivLeast(n, size, page);
    assert (page + 1) * size == page * size + size;
  }

  lemma TagPageBadBounds<T>(posts: seq<T>, page: int, size: int)
    ensures page * size < 0 && page * size < |posts| ==> TagPage(posts, page, size).Failure?
    ensures size == 0 && |posts| > 0 ==> TagPage(posts, page, size).Success? && TagPage(posts, page, size).value.totalPages == 0x7fff_ffff
  {
  }

  // ---------------------------------------------------------------------
  // createPost as written (see README, Findings)

  /** The JDK's message for `tags.add(tag)` in `Post.addTag` while `tags` is null. */
  const TagsNullMessage := "Cannot invoke \"java.util.Set.add(Object)\" because \"this.tags\" is null"

  /** The members of a sequence. */
  function Elements<T>(ts: seq<T>): (r: set<T>)
    ensures forall i | 0 <= i < |ts| :: ts[i] in r
    ensures forall x | x in r :: x in ts
  {
    set i | 0 <= i < |ts| :: ts[i]
  }

  /** `post.addTag(tag)` where `tags` may be null, as Lombok's builder leaves it. */
  function AddTagAsBuilt<T>(tags: Option<set<T>>, t: T): (r: Result<Option<set<T>>, Exception>)
    ensures r.Failure? <==> tags.None?
    ensures r.Failure? ==> r.error == NullPointer(TagsNullMessage)
    ensures r.Success? ==> r.value.Some? && t in r.value.value && r.value.value - {t} == tags.value - {t}
  {
    if tags.None? then Failure(NullPointer(TagsNullMessage)) else Success(Some(tags.value + {t}))
  }

  /** The `for (Tag tag : tags) post.addTag(tag)` loop, in iteration order. */
  function AddTagsAsBuilt<T>(tags: Option<set<T>>, ts: seq<T>): (r: Result<Option<set<T>>, Exception>)
    ensures tags.None? && ts != [] ==> r == Failure(NullPointer(TagsNullMessage))
    ensures tags.Some? ==> r.Success? && r.value.Some? && tags.value <= r.value.value
    ensures tags.Some? ==> forall i | 0 <= i < |ts| :: ts[i] in r.value.value
    decreases |ts|
  {
    if ts == [] then Success(tags)
    else
      var next :- AddTagAsBuilt(tags, ts[0]);
      AddTagsAsBuilt(next, ts[1..])
  }

  /** The JDK's message for `post.getTags().stream()` in `mapToPostDto` while the post's tags are null. */
  const TagsStreamMessage := "Cannot invoke \"java.util.Set.stream()\" because the return value of \"com.zxyspace.model.Post.getTags()\" is null"

  /**
   * `post.getTags().stream().map(this::mapToTagDto)` in `mapToPostDto`:
   * a null tag set throws; otherwise every tag is mapped.
   */
  function TagDtosAsBuilt<T>(tags: Option<set<T>>): (r: Result<set<T>, Exception>)
    ensures r.Success? <==> tags.Some?
    ensures tags.Some? ==> r.value == tags.value
    ensures tags.None? ==> r.error == NullPointer(TagsStreamMessage)
  {
    if tags.None? then Failure(NullPointer(TagsStreamMessage)) else Success(tags.value)
  }

  /**
   * The tag part of `createPost` after the builder: the `addTag` loop over
   * the resolved tags, `save` (which hands back the same instance, so the
   * tag set is unchanged), then `mapToPostDto`'s tags. `start` is the
   * tag set the built post begins with.
   */
  function CreatePostTags<T>(start: Option<set<T>>, ts: seq<T>): (r: Result<set<T>, Exception>)
    ensures start.None? ==> r.Failure? && r.error.NullPointer?
    ensures start.Some? ==> r.Success? && start.value <= r.value
    ensures start.Some? ==> forall i | 0 <= i < |ts| :: ts[i] in r.value
  {
    var tags :- AddTagsAsBuilt(start, ts);
    TagDtosAsBuilt(tags)
  }

  /**
   * A built post has `tags == null`, so `createPost` throws on every call
   * and rolls back: in `addTag` when a tag resolves, and in `mapToPostDto`
   * when none does.
   */
  lemma {:induction false} CreatePostAsWrittenFails<T>(ts: seq<T>)
    ensures ts != [] ==> AddTagsAsBuilt(None, ts) == Failure(NullPointer(TagsNullMessage))
    ensures ts == [] ==> AddTagsAsBuilt(None, ts) == Success(None)
    ensures CreatePostTags(None, ts).Failure?
    ensures CreatePostTags(None, ts).error == NullPointer(if ts == [] then TagsStreamMessage else TagsNullMessage)
  {
  }

  /** Starting from an empty tag set, `createPost` reports exactly the resolved tags. */
  lemma CreatePostFromEmptySucceeds<T>(ts: seq<T>)
    ensures CreatePostTags(Some({}), ts) == Success(Elements(ts))
  {
    AddTagsFromEmpty({}, ts);
    assert {} + Elements(ts) == Elements(ts);
  }

  /** Starting from an empty set instead, the loop yields exactly the resolved tags. */
  lemma {:induction false} AddTagsFromEmpty<T>(start: set<T>, ts: seq<T>)
    ensures AddTagsAsBuilt(Some(start), ts) == Success(Some(start + Elements(ts)))
    decreases |ts|
  {
    var whole := Elements(ts);
    if ts != [] {
      AddTagsFromEmpty(start + {ts[0]}, ts[1..]);
      var tail := Elements(ts[1..]);
      assert whole == {ts[0]} + tail by {
        forall x | x in whole ensures x in {ts[0]} + tail {
          var i :| 0 <= i < |ts| && ts[i] == x;
          if i > 0 {
            assert ts[1..][i - 1] == x;
          }
        }
        forall x | x in tail ensures x in whole {
          var i :| 0 <= i < |ts[1..]| && ts[1..][i] == x;
          assert ts[i + 1] == x;
        }
        assert ts[0] in whole;
      }
      assert (start + {ts[0]}) + tail == start + whole;
    } else {
      assert whole == {};
      assert start + whole == start;
      assert AddTagsAsBuilt(Some(start), ts) == Success(Some(start));
    }
  }

  // ---------------------------------------------------------------------
  // The service object

  class PostServiceImpl {
    const db: Database

    constructor (db: Database)
      ensures this.db == db
    {
      this.db := db;
    }

    /** `getPostById`: every successful read counts one view. */
    method GetPostById(id: Id) returns (r: Result<Post, Exception>)
      modifies Stored(db.posts)`views
      ensures id !in db.posts ==> r == Failure(NotFoundById("Post", id))
      ensures id in db.posts ==> r == Success(db.posts[id]) && db.posts[id].views == old(db.posts[id].views) + 1
      ensures forall p | p in Stored(db.posts) && (id !in db.posts || p != db.posts[id]) :: p.views == old(p.views)
    {
      if id !in db.posts {
        return Failure(NotFoundById("Post", id));
      }
      var post := db.posts[id];
      post.IncrementViews();
      r := Success(post);
    }

    method IncrementViews(id: Id) returns (r: Result<Post, Exception>)
      modifies Stored(db.posts)`views
      ensures id !in db.posts ==> r == Failure(NotFoundById("Post", id))
      ensures id in db.posts ==> r == Success(db.posts[id]) && db.posts[id].views == old(db.posts[id].views) + 1
      ensures forall p | p in Stored(db.posts) && (id !in db.posts || p != db.posts[id]) :: p.views == old(p.views)
    {
      if id !in db.posts {
        return Failure(NotFoundById("Post", id));
      }
      var post := db.posts[id];
      post.IncrementViews();
      r := Success(post);
    }

    method LikePost(id: Id) returns (r: Result<Post, Exception>)
      modifies Stored(db.posts)`likes
      ensures id !in db.posts ==> r == Failure(NotFoundById("Post", id))
      ensures id in db.posts ==> r == Success(db.posts[id]) && db.posts[id].likes == old(db.posts[id].likes) + 1
      ensures forall p | p in Stored(db.posts) && (id !in db.posts || p != db.posts[id]) :: p.likes == old(p.likes)
    {
      if id !in db.posts {
        return Failure(NotFoundById("Post", id));
      }
      var post := db.posts[id];
      post.Like();
      r := Success(post);
    }

    /** `unlikePost`: floors at zero, so non-negative like counts stay non-negative. */
    method UnlikePost(id: Id) returns (r: Result<Post, Exception>)
      modifies Stored(db.posts)`likes
      ensures id !in db.posts ==> r == Failure(NotFoundById("Post", id))
      ensures id in db.posts ==>
        && r == Success(db.posts[id])
        && db.posts[id].likes == (if old(db.posts[id].likes) > 0 then old(db.posts[id].likes) - 1 else old(db.posts[id].likes))
        && (old(db.posts[id].likes) >= 0 ==> db.posts[id].likes >= 0)
      ensures forall p | p in Stored(db.posts) && (id !in db.posts || p != db.posts[id]) :: p.likes == old(p.likes)
    {
      if id !in db.posts {
        return Failure(NotFoundById("Post", id));
      }
      var post := db.posts[id];
      post.Unlike();
      r := Success(post);
    }

    /**
     * `getPostsByTag`: the tag's published posts, in the (unspecified)
     * iteration order of its `posts` set, paged by `TagPage`.
     */
    method GetPostsByTag(tagId: Id, filter: PostFilter) returns (r: Result<PageResponse<Post>, Exception>, ghost published: seq<Post>)
      ensures tagId !in db.tags ==> r == Failure(NotFoundById("Tag", tagId))
      ensures tagId in db.tags ==>
        && (forall p :: p in published <==> p in db.tags[tagId].posts && p.published)
        && (forall i, j :: 0 <= i < j < |published| ==> published[i] != published[j])
        && r == TagPage(published, filter.page, filter.size)
    {
      published := [];
      if tagId !in db.tags {
        r := Failure(NotFoundById("Tag", tagId));
        return;
      }
      var tag := db.tags[tagId];
      var allTagPosts: seq<Post> := [];
      var remaining := tag.posts;
      while remaining != {}
        invariant remaining <= tag.posts
        invariant forall p :: p in allTagPosts <==> p in tag.posts && p !in remaining && p.published
        invariant forall i, j :: 0 <= i < j < |allTagPosts| ==> allTagPosts[i] != allTagPosts[j]
        decreases |remaining|
      {
        var p := Pick(remaining);
        if p.published {
          allTagPosts := allTagPosts + [p];
        }
        remaining := remaining - {p};
      }
      published := allTagPosts;
      r := TagPage(allTagPosts, filter.page, filter.size);
    }

    /** The `for (Tag tag : tags) post.addTag(tag)` loop. */
    method AddTags(post: Post, tags: set<Tag>, ghost allPosts: set<Post>)
      requires TagLinks(allPosts, Stored(db.tags))
      modifies post`tags, tags`posts
      ensures post.tags == old(post.tags) + tags
      ensures forall t | t in tags :: t.posts == old(t.posts) + {post}
      ensures TagLinks(allPosts, Stored(db.tags))
    {
      var remaining := tags;
      while remaining != {}
        invariant remaining <= tags
        invariant post.tags == old(post.tags) + (tags - remaining)
        invariant forall t | t in tags - remaining :: t.posts == old(t.posts) + {post}
        invariant forall t | t in remaining :: t.posts == old(t.posts)
        invariant TagLinks(allPosts, Stored(db.tags))
        decreases |remaining|
      {
        var t := Pick(remaining);
        post.AddTag(t, allPosts, Stored(db.tags));
        remaining := remaining - {t};
      }
    }

    /** The `for (Tag tag : new HashSet<>(post.getTags())) post.removeTag(tag)` loop. */
    method RemoveAllTags(post: Post, ghost allPosts: set<Post>)
      requires TagLinks(allPosts, Stored(db.tags))
      modifies post`tags, post.tags`posts
      ensures post.tags == {}
      ensures forall t | t in old(post.tags) :: t.posts == old(t.posts) - {post}
      ensures TagLinks(allPosts, Stored(db.tags))
    {
      var current := post.tags;
      var remaining := current;
      while remaining != {}
        invariant remaining <= current
        invariant post.tags == remaining
        invariant forall t | t in current - remaining :: t.posts == old(t.posts) - {post}
        invariant forall t | t in remaining :: t.posts == old(t.posts)
        invariant TagLinks(allPosts, Stored(db.tags))
        decreases |remaining|
      {
        var t := Pick(remaining);
        post.RemoveTag(t, allPosts, Stored(db.tags));
        remaining := remaining - {t};
      }
    }

    /**
     * `createPost`, with the post built the way the method evidently means
     * it (an empty tag set; see README, Findings): the author and the
     * category must exist, unknown tag ids are dropped, and the new post is
     * linked from both sides.
     */
    method CreatePost(req: PostCreateRequest, authorId: Id, now: int) returns (r: Result<Post, Exception>)
      requires db.Valid()
      modifies db, Stored(db.tags)`posts
      ensures db.Valid()
      ensures db.users == old(db.users) && db.categories == old(db.categories)
      ensures db.tags == old(db.tags) && db.comments == old(db.comments)
      ensures authorId !in db.users ==>
        r == Failure(NotFoundById("User", authorId)) && db.posts == old(db.posts) && db.nextId == old(db.nextId)
        && forall t | t in Stored(db.tags) :: t.posts == old(t.posts)
      ensures authorId in db.users && req.categoryId.Some? && req.categoryId.value !in db.categories ==>
        r == Failure(NotFoundById("Category", req.categoryId.value)) && db.posts == old(db.posts) && db.nextId == old(db.nextId)
        && forall t | t in Stored(db.tags) :: t.posts == old(t.posts)
      ensures authorId in db.users && (req.categoryId.None? || req.categoryId.value in db.categories) ==>
        && r.Success? && fresh(r.value)
        && old(db.nextId) !in old(db.posts)
        && db.posts == old(db.posts)[old(db.nextId) := r.value]
        && var p := r.value;
        && p.title == Some(req.title) && p.excerpt == req.excerpt && p.content == Some(req.content)
        && p.coverImage == req.coverImage && p.author == Some(authorId) && p.category == req.categoryId
        && p.published == req.published && p.views == 0 && p.likes == 0 && p.comments == [] && p.createdAt == now
        && p.tags == (if req.tagIds.Some? && req.tagIds.value != {} then db.TagsByIds(req.tagIds.value) else {})
        && forall t | t in Stored(db.tags) :: t.posts == old(t.posts) + (if t in p.tags then {p} else {})
    {
      if authorId !in db.users {
        return Failure(NotFoundById("User", authorId));
      }
      if req.categoryId.Some? && req.categoryId.value !in db.categories {
        return Failure(NotFoundById("Category", req.categoryId.value));
      }
      var tags: set<Tag> := {};
      if req.tagIds.Some? && req.tagIds.value != {} {
        tags := db.TagsByIds(req.tagIds.value);
      }
      var post := new Post.Built(Some(req.title), req.excerpt, Some(req.content), req.coverImage,
                                 authorId, req.categoryId, req.published, now);
      LinkNewPost(post, tags);
      r := Success(post);
    }

    /** Links a post no stored tag knows yet to `tags` and saves it. */
    method LinkNewPost(post: Post, tags: set<Tag>)
      requires db.Valid() && post.tags == {} && tags <= Stored(db.tags)
      requires forall t | t in Stored(db.tags) :: post !in t.posts
      modifies db, tags`posts, post`tags
      ensures db.Valid()
      ensures db.users == old(db.users) && db.categories == old(db.categories)
      ensures db.tags == old(db.tags) && db.comments == old(db.comments)
      ensures old(db.nextId) !in old(db.posts) && db.posts == old(db.posts)[old(db.nextId) := post]
      ensures post.tags == tags
      ensures forall t | t in Stored(db.tags) :: t.posts == old(t.posts) + (if t in tags then {post} else {})
    {
      ghost var allPosts := Stored(db.posts) + {post};
      assert TagLinks(allPosts, Stored(db.tags));
      AddTags(post, tags, allPosts);
      SavePost(post);
    }

    /** `postRepository.save(post)` for a new post: it takes the next id. */
    method SavePost(post: Post)
      requires db.Valid() && TagLinks(Stored(db.posts) + {post}, Stored(db.tags))
      modifies db
      ensures db.Valid()
      ensures db.users == old(db.users) && db.categories == old(db.categories)
      ensures db.tags == old(db.tags) && db.comments == old(db.comments)
      ensures old(db.nextId) !in old(db.posts) && db.posts == old(db.posts)[old(db.nextId) := post]
    {
      db.FreshId();
      InsertStored(db.posts, db.nextId, post);
      var id := db.NextId();
      db.posts := db.posts[id := post];
    }

    /** The five `if (request.getX() != null) post.setX(...)` steps and the category step. */
    method ApplyFields(post: Post, req: PostUpdateRequest)
      modifies post`title, post`excerpt, post`content, post`coverImage, post`published, post`category
      ensures post.title == (if req.title.Some? then req.title else old(post.title))
      ensures post.excerpt == (if req.excerpt.Some? then req.excerpt else old(post.excerpt))
      ensures post.content == (if req.content.Some? then req.content else old(post.content))
      ensures post.coverImage == (if req.coverImage.Some? then req.coverImage else old(post.coverImage))
      ensures post.published == (if req.published.Some? then req.published.value else old(post.published))
      ensures post.category == (if req.categoryId.Some? then req.categoryId else old(post.category))
    {
      post.title := if req.title.Some? then req.title else post.title;
      post.excerpt := if req.excerpt.Some? then req.excerpt else post.excerpt;
      post.content := if req.content.Some? then req.content else post.content;
      post.coverImage := if req.coverImage.Some? then req.coverImage else post.coverImage;
      post.published := if req.published.Some? then req.published.value else post.published;
      post.category := if req.categoryId.Some? then req.categoryId else post.category;
    }

    /** Drops every tag of a stored post, then links it to the stored tags among `ids`. */
    method ReplaceTags(post: Post, ids: set<Id>)
      requires db.Valid() && post in Stored(db.posts)
      modifies post`tags, post.tags`posts, Stored(db.tags)`posts
      ensures db.Valid()
      ensures post.tags == db.TagsByIds(ids)
      ensures forall t | t in old(post.tags) + Stored(db.tags) :: t.posts == (old(t.posts) - {post}) + (if t in post.tags then {post} else {})
    {
      assert TagLinks(Stored(db.posts), Stored(db.tags));
      assert forall t | t in Stored(db.tags) && t !in post.tags :: post !in t.posts;
      RemoveAllTags(post, Stored(db.posts));
      assert forall t | t in old(post.tags) + Stored(db.tags) :: t.posts == old(t.posts) - {post};
      var newTags := db.TagsByIds(ids);
      AddTags(post, newTags, Stored(db.posts));
      assert db.IdsIssued() && db.NamesUnique();
    }

    /** The writes `updatePost` makes to a stored post once its category has been found. */
    method UpdateStored(post: Post, req: PostUpdateRequest)
      requires db.Valid() && post in Stored(db.posts)
      modifies post`title, post`excerpt, post`content, post`coverImage, post`published, post`category, post`tags
      modifies Stored(db.tags)`posts, post.tags`posts
      ensures db.Valid()
      ensures post.title == (if req.title.Some? then req.title else old(post.title))
      ensures post.excerpt == (if req.excerpt.Some? then req.excerpt else old(post.excerpt))
      ensures post.content == (if req.content.Some? then req.content else old(post.content))
      ensures post.coverImage == (if req.coverImage.Some? then req.coverImage else old(post.coverImage))
      ensures post.published == (if req.published.Some? then req.published.value else old(post.published))
      ensures post.category == (if req.categoryId.Some? then req.categoryId else old(post.category))
      ensures post.author == old(post.author) && post.views == old(post.views) && post.likes == old(post.likes)
      ensures post.comments == old(post.comments) && post.createdAt == old(post.createdAt)
      ensures req.tagIds.Some? && req.tagIds.value != {} ==>
        && post.tags == db.TagsByIds(req.tagIds.value)
        && forall t | t in old(post.tags) + Stored(db.tags) :: t.posts == (old(t.posts) - {post}) + (if t in post.tags then {post} else {})
      ensures !(req.tagIds.Some? && req.tagIds.value != {}) ==>
        post.tags == old(post.tags) && forall t | t in old(post.tags) + Stored(db.tags) :: t.posts == old(t.posts)
    {
      ApplyFields(post, req);
      ReplaceTagsIfGiven(post, req.tagIds);
      assert db.IdsIssued() && db.NamesUnique();
    }

    /** `if (request.getTagIds() != null && !request.getTagIds().isEmpty())`: replace the tags. */
    method ReplaceTagsIfGiven(post: Post, tagIds: Option<set<Id>>)
      requires db.Valid() && post in Stored(db.posts)
      modifies post`tags, Stored(db.tags)`posts, post.tags`posts
      ensures db.Valid()
      ensures tagIds.Some? && tagIds.value != {} ==>
        && post.tags == db.TagsByIds(tagIds.value)
        && forall t | t in old(post.tags) + Stored(db.tags) :: t.posts == (old(t.posts) - {post}) + (if t in post.tags then {post} else {})
      ensures !(tagIds.Some? && tagIds.value != {}) ==>
        post.tags == old(post.tags) && forall t | t in old(post.tags) + Stored(db.tags) :: t.posts == old(t.posts)
    {
      if tagIds.Some? && tagIds.value != {} {
        ReplaceTags(post, tagIds.value);
      }
    }

    /**
     * `updatePost`: each non-null request field overwrites its column, a
     * null one leaves it; a non-null category id must exist (there is no
     * way to clear the category); a non-null, non-empty tag id set
     * replaces the post's tags by the stored tags among those ids.
     */
    method UpdatePost(id: Id, req: PostUpdateRequest) returns (r: Result<Post, Exception>)
      requires db.Valid()
      modifies Stored(db.posts), Stored(db.tags)`posts, db.LinkedTags()`posts
      ensures db.Valid()
      ensures id !in db.posts ==> r == Failure(NotFoundById("Post", id))
      ensures id in db.posts && req.categoryId.Some? && req.categoryId.value !in db.categories ==>
        r == Failure(NotFoundById("Category", req.categoryId.value))
      ensures r.Failure? ==>
        && (forall p | p in Stored(db.posts) :: unchanged(p))
        && (forall t | t in Stored(db.tags) + old(db.LinkedTags()) :: t.posts == old(t.posts))
      ensures id in db.posts && (req.categoryId.None? || req.categoryId.value in db.categories) ==>
        && r == Success(db.posts[id])
        && var p := db.posts[id];
        && p.title == (if req.title.Some? then req.title else old(p.title))
        && p.excerpt == (if req.excerpt.Some? then req.excerpt else old(p.excerpt))
        && p.content == (if req.content.Some? then req.content else old(p.content))
        && p.coverImage == (if req.coverImage.Some? then req.coverImage else old(p.coverImage))
        && p.published == (if req.published.Some? then req.published.value else old(p.published))
        && p.category == (if req.categoryId.Some? then req.categoryId else old(p.category))
        && p.author == old(p.author) && p.views == old(p.views) && p.likes == old(p.likes)
        && p.comments == old(p.comments) && p.createdAt == old(p.createdAt)
        && (if req.tagIds.Some? && req.tagIds.value != {} then
              && p.tags == db.TagsByIds(req.tagIds.value)
              && (forall t | t in old(p.tags) + Stored(db.tags) :: t.posts == (old(t.posts) - {p}) + (if t in p.tags then {p} else {}))
            else
              p.tags == old(p.tags) && forall t | t in old(p.tags) + Stored(db.tags) :: t.posts == old(t.posts))
        && forall t | t in old(db.LinkedTags()) - old(p.tags) - Stored(db.tags) :: t.posts == old(t.posts)
      ensures forall p | p in Stored(db.posts) && (id !in db.posts || p != db.posts[id]) :: unchanged(p)
    {
      if id !in db.posts {
        return Failure(NotFoundById("Post", id));
      }
      if req.categoryId.Some? && req.categoryId.value !in db.categories {
        return Failure(NotFoundById("Category", req.categoryId.value));
      }
      var post := db.posts[id];
      UpdateStored(post, req);
      r := Success(post);
    }
  }
}
