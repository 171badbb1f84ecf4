/**
 * The queries of `PostRepository`, as functions of the `posts` rows in the
 * order the database scans them. The derived finders keep published rows
 * with the given author or category; the JPQL search matches the lower-cased
 * title or content against `LOWER(CONCAT('%', :query, '%'))`; the two
 * ordered queries sort the published rows by creation time or by views.
 */
module PostRepository {
  import opened Wrappers
  import opened Text
  import opened Seqs
  import opened Entities

  /** One row of the `posts` table. */
  datatype PostRow = PostRow(
    id: Id,
    title: Option<string>,
    excerpt: Option<string>,
    content: Option<string>,
    author: Option<Id>,
    category: Option<Id>,
    published: bool,
    views: int,
    likes: int,
    createdAt: int)

  function FindByPublishedTrue(rows: seq<PostRow>): (r: seq<PostRow>)
    ensures forall i :: 0 <= i < |r| ==> r[i].published && r[i] in rows
    ensures forall i :: 0 <= i < |rows| && rows[i].published ==> rows[i] in r
  {
    Filter(rows, (p: PostRow) => p.published)
  }

  function FindByAuthorAndPublishedTrue(rows: seq<PostRow>, author: Id): (r: seq<PostRow>)
    ensures forall i :: 0 <= i < |r| ==> r[i].published && r[i].author == Some(author) && r[i] in rows
    ensures forall i :: 0 <= i < |rows| && rows[i].published && rows[i].author == Some(author) ==> rows[i] in r
  {
    Filter(rows, (p: PostRow) => p.published && p.author == Some(author))
  }

  function FindByCategoryAndPublishedTrue(rows: seq<PostRow>, category: Id): (r: seq<PostRow>)
    ensures forall i :: 0 <= i < |r| ==> r[i].published && r[i].category == Some(category) && r[i] in rows
    ensures forall i :: 0 <= i < |rows| && rows[i].published && rows[i].category == Some(category) ==> rows[i] in r
  {
    Filter(rows, (p: PostRow) => p.published && p.category == Some(category))
  }

  /** `LOWER(column) LIKE LOWER(CONCAT('%', :query, '%'))`; a NULL column or query matches nothing. */
  predicate ColumnMatches(column: Option<string>, query: Option<string>) {
    column.Some? && query.Some? && Like(ToLower(column.value), ToLower("%" + query.value + "%"))
  }

  /** The `WHERE` clause of `searchPosts`: the excerpt is not consulted. */
  predicate SearchMatch(p: PostRow, query: Option<string>) {
    p.published && (ColumnMatches(p.title, query) || ColumnMatches(p.content, query))
  }

  function SearchPosts(rows: seq<PostRow>, query: Option<string>): (r: seq<PostRow>)
    ensures forall i :: 0 <= i < |r| ==> r[i].published && SearchMatch(r[i], query) && r[i] in rows
    ensures forall i :: 0 <= i < |rows| && SearchMatch(rows[i], query) ==> rows[i] in r
  {
    Filter(rows, (p: PostRow) => SearchMatch(p, query))
  }

  /**
   * For a query free of `%` and `_` the search is case-insensitive substring
   * search over title and content.
   */
  lemma SearchIsSubstring(p: PostRow, q: string)
    requires NoWildcards(q)
    ensures SearchMatch(p, Some(q)) <==>
      p.published
      && ((p.title.Some? && Contains(ToLower(p.title.value), ToLower(q)))
          || (p.content.Some? && Contains(ToLower(p.content.value), ToLower(q))))
  {
    LowerPattern(q);
    if p.title.Some? {
      LikeIsContains(ToLower(p.title.value), ToLower(q));
    }
    if p.content.Some? {
      LikeIsContains(ToLower(p.content.value), ToLower(q));
    }
  }

  /** `findRecentPosts`: the published rows, newest first. */
  function FindRecentPosts(rows: seq<PostRow>): (r: seq<PostRow>)
    ensures SortedDesc(r, (p: PostRow) => p.createdAt)
    ensures multiset(r) == multiset(FindByPublishedTrue(rows))
    ensures forall i :: 0 <= i < |r| ==> r[i].published && r[i] in rows
  {
    var r := SortDesc(FindByPublishedTrue(rows), (p: PostRow) => p.createdAt);
    assert forall i :: 0 <= i < |r| ==> r[i] in multiset(FindByPublishedTrue(rows));
    r
  }

  /** `findPopularPosts`: the published rows, most viewed first. */
  function FindPopularPosts(rows: seq<PostRow>): (r: seq<PostRow>)
    ensures SortedDesc(r, (p: PostRow) => p.views)
    ensures multiset(r) == multiset(FindByPublishedTrue(rows))
    ensures forall i :: 0 <= i < |r| ==> r[i].published && r[i] in rows
  {
    var r := SortDesc(FindByPublishedTrue(rows), (p: PostRow) => p.views);
    assert forall i :: 0 <= i < |r| ==> r[i] in multiset(FindByPublishedTrue(rows));
    r
  }
}
