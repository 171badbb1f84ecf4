/**
 * `CommentServiceImpl`: creating a comment under a post, changing its text
 * and its like counter, deleting it from its post and from the table,
 * counting a post's comments, and the two listings paged by creation time.
 */
module CommentService {
  import opened Wrappers
  import opened Errors
  import opened Seqs
  import opened Paging
  import opened Entities
  import opened Store

  /** The message the JVM gives when `deleteComment` meets a comment whose post is null. */
  /** The JDK's message for `post.removeComment(comment)` in `deleteComment` while the comment's post is null. */
  const PostNullMessage := "Cannot invoke \"com.zxyspace.model.Post.removeComment(com.zxyspace.model.Comment)\" because \"post\" is null"

  // ---------------------------------------------------------------------
  // countByPost

  /** The keys of a table whose entry is `v`. */
  function KeysTo<K, V(==)>(m: map<K, V>, v: V): set<K> {
    set k | k in m && m[k] == v
  }

  lemma KeysToInsert<K, V>(m: map<K, V>, k: K, q: V, v: V)
    requires k !in m
    ensures KeysTo(m[k := q], v) == if q == v then KeysTo(m, v) + {k} else KeysTo(m, v)
  {
  }

  lemma KeysToRemove<K, V>(m: map<K, V>, k: K, v: V)
    requires k in m
    ensures KeysTo(m, v) == if m[k] == v then KeysTo(m - {k}, v) + {k} else KeysTo(m - {k}, v)
  {
  }

  lemma NoneReferencing(m: map<Id, Post?>, v: Post)
    ensures |KeysTo(m, v)| == 0 <==> forall k | k in m :: m[k] != v
  {
    if KeysTo(m, v) == {} {
      forall k | k in m ensures m[k] != v {
        assert k !in KeysTo(m, v);
      }
    } else {
      var k := Witness(KeysTo(m, v));
      assert k in m && m[k] == v;
      assert |KeysTo(m, v) - {k}| == |KeysTo(m, v)| - 1;
    }
  }

  lemma SubsetCard<T>(a: set<T>, b: set<T>)
    requires a <= b
    ensures |a| <= |b|
  {
    if a != {} {
      var x := Witness(a);
      SubsetCard(a - {x}, b - {x});
    }
  }

  lemma Witness<T>(s: set<T>) returns (x: T)
    requires s != {}
    ensures x in s
  {
    x :| x in s;
  }

  /** `commentRepository.countByPost(post)`: the comments whose `post` is `p`. */
  function CountReferencing(refs: map<Id, Post?>, p: Post): (n: nat)
    ensures n <= |refs|
    ensures n == 0 <==> forall k | k in refs :: refs[k] != p
  {
    SubsetCard(KeysTo(refs, p), refs.Keys);
    NoneReferencing(refs, p);
    |KeysTo(refs, p)|
  }

  /** A new comment row under a new id counts for its own post and for no other. */
  lemma CountInsert(refs: map<Id, Post?>, k: Id, q: Post?, p: Post)
    requires k !in refs
    ensures CountReferencing(refs[k := q], p) == CountReferencing(refs, p) + (if q == p then 1 else 0)
  {
    KeysToInsert(refs, k, q, p);
  }

  /** Deleting a comment row uncounts it for its own post and for no other. */
  lemma CountRemove(refs: map<Id, Post?>, k: Id, p: Post)
    requires k in refs
    ensures CountReferencing(refs - {k}, p) + (if refs[k] == p then 1 else 0) == CountReferencing(refs, p)
  {
    KeysToRemove(refs, k, p);
  }

  // ---------------------------------------------------------------------
  // The paged listings

  /** One row of the `comments` table as the paged queries see it. */
  datatype CommentRow = CommentRow(
    id: Id,
    content: string,
    post: Option<Id>,
    user: Option<Id>,
    likes: int,
    createdAt: int)

  /**
   * `getCommentsByPostId(postId, page, size)`: the post must exist; then
   * `findByPost` with `PageRequest.of(page, size, Sort.by("createdAt").descending())`.
   */
  function CommentsByPost(postIds: set<Id>, rows: seq<CommentRow>, postId: Id, page: int, size: int)
    : Result<PageResponse<CommentRow>, Exception>
  {
    if postId !in postIds then Failure(NotFoundById("Post", postId))
    else SpringPage(SortDesc(Filter(rows, (c: CommentRow) => c.post == Some(postId)), (c: CommentRow) => c.createdAt), page, size)
  }

  /** `getCommentsByUserId(userId, page, size)`: the same over `findByUser`. */
  function CommentsByUser(userIds: set<Id>, rows: seq<CommentRow>, userId: Id, page: int, size: int)
    : Result<PageResponse<CommentRow>, Exception>
  {
    if userId !in userIds then Failure(NotFoundById("User", userId))
    else SpringPage(SortDesc(Filter(rows, (c: CommentRow) => c.user == Some(userId)), (c: CommentRow) => c.createdAt), page, size)
  }

  /**
   * The post listing: an unknown post wins over a bad page request; a
   * page holds only that post's comments, newest first, and counts all of them.
   */
  lemma CommentsByPostSpec(postIds: set<Id>, rows: seq<CommentRow>, postId: Id, page: int, size: int)
    ensures postId !in postIds ==> CommentsByPost(postIds, rows, postId, page, size) == Failure(NotFoundById("Post", postId))
    ensures postId in postIds ==> (CommentsByPost(postIds, rows, postId, page, size).Failure? <==> page < 0 || size < 1)
    ensures CommentsByPost(postIds, rows, postId, page, size).Success? ==>
      var r := CommentsByPost(postIds, rows, postId, page, size).value;
      && (forall i :: 0 <= i < |r.content| ==> r.content[i].post == Some(postId) && r.content[i] in rows)
      && SortedDesc(r.content, (c: CommentRow) => c.createdAt)
      && r.totalElements == |Filter(rows, (c: CommentRow) => c.post == Some(postId))|
  {
    var mine := Filter(rows, (c: CommentRow) => c.post == Some(postId));
    var sorted := SortDesc(mine, (c: CommentRow) => c.createdAt);
    SpringPageSpec(sorted, page, size);
    if postId in postIds && page >= 0 && size >= 1 {
      PageKeeps(sorted, mine, page, size, (c: CommentRow) => c.post == Some(postId) && c in rows);
      PageSortedDesc(sorted, page, size, (c: CommentRow) => c.createdAt);
    }
  }

  /** The user listing, likewise. */
  lemma CommentsByUserSpec(userIds: set<Id>, rows: seq<CommentRow>, userId: Id, page: int, size: int)
    ensures userId !in userIds ==> CommentsByUser(userIds, rows, userId, page, size) == Failure(NotFoundById("User", userId))
    ensures userId in userIds ==> (CommentsByUser(userIds, rows, userId, page, size).Failure? <==> page < 0 || size < 1)
    ensures CommentsByUser(userIds, rows, userId, page, size).Success? ==>
      var r := CommentsByUser(userIds, rows, userId, page, size).value;
      && (forall i :: 0 <= i < |r.content| ==> r.content[i].user == Some(userId) && r.content[i] in rows)
      && SortedDesc(r.content, (c: CommentRow) => c.createdAt)
      && r.totalElements == |Filter(rows, (c: CommentRow) => c.user == Some(userId))|
  {
    var mine := Filter(rows, (c: CommentRow) => c.user == Some(userId));
    var sorted := SortDesc(mine, (c: CommentRow) => c.createdAt);
    SpringPageSpec(sorted, page, size);
    if userId in userIds && page >= 0 && size >= 1 {
      PageKeeps(sorted, mine, page, size, (c: CommentRow) => c.user == Some(userId) && c in rows);
      PageSortedDesc(sorted, page, size, (c: CommentRow) => c.createdAt);
    }
  }

  // ---------------------------------------------------------------------
  // The service object

  class CommentServiceImpl {
    const db: Database

    constructor (db: Database)
      ensures this.db == db
    {
      this.db := db;
    }

    method GetCommentById(id: Id) returns (r: Result<Comment, Exception>)
      ensures id in db.comments ==> r == Success(db.comments[id])
      ensures id !in db.comments ==> r == Failure(NotFoundById("Comment", id))
    {
      if id in db.comments {
        r := Success(db.comments[id]);
      } else {
        r := Failure(NotFoundById("Comment", id));
      }
    }

    /**
     * `createComment`: the post is looked up before the user; the new
     * comment points at the post, is appended to the post's comments and
     * takes the next id.
     */
    method CreateComment(content: string, postId: Id, userId: Id, now: int) returns (r: Result<Comment, Exception>)
      requires db.Valid()
      modifies db, Stored(db.posts)`comments
      ensures db.Valid()
      ensures db.users == old(db.users) && db.categories == old(db.categories)
      ensures db.tags == old(db.tags) && db.posts == old(db.posts)
      ensures postId !in db.posts ==>
        r == Failure(NotFoundById("Post", postId)) && db.comments == old(db.comments) && db.nextId == old(db.nextId)
      ensures postId in db.posts && userId !in db.users ==>
        r == Failure(NotFoundById("User", userId)) && db.comments == old(db.comments) && db.nextId == old(db.nextId)
      ensures r.Failure? ==> forall p | p in Stored(db.posts) :: p.comments == old(p.comments)
      ensures postId in db.posts && userId in db.users ==>
        && r.Success? && fresh(r.value)
        && var c := r.value;
        && var post := db.posts[postId];
        && c.content == content && c.post == post && c.user == Some(userId) && c.likes == 0 && c.createdAt == now
        && post.comments == old(post.comments) + [c]
        && (forall p | p in Stored(db.posts) && p != post :: p.comments == old(p.comments))
        && old(db.nextId) !in old(db.comments)
        && db.comments == old(db.comments)[old(db.nextId) := c]
    {
      if postId !in db.posts {
        return Failure(NotFoundById("Post", postId));
      }
      if userId !in db.users {
        return Failure(NotFoundById("User", userId));
      }
      var post := db.posts[postId];
      var c := new Comment.Built(content, post, userId, now);
      post.AddComment(c);
      var id := db.SaveNewComment(c);
      r := Success(c);
    }

    /** `updateComment`: only the text changes. */
    method UpdateComment(id: Id, content: string) returns (r: Result<Comment, Exception>)
      modifies Stored(db.comments)`content
      ensures id !in db.comments ==> r == Failure(NotFoundById("Comment", id))
      ensures id in db.comments ==>
        && r == Success(db.comments[id])
        && db.comments[id].content == content
        && db.comments[id].likes == old(db.comments[id].likes)
        && db.comments[id].post == old(db.comments[id].post)
        && db.comments[id].user == old(db.comments[id].user)
      ensures forall c | c in Stored(db.comments) && (id !in db.comments || c != db.comments[id]) :: c.content == old(c.content)
    {
      if id !in db.comments {
        return Failure(NotFoundById("Comment", id));
      }
      var c := db.comments[id];
      c.content := content;
      r := Success(c);
    }

    /**
     * `deleteComment`: the comment leaves its post's list (and forgets the
     * post) and the table. A comment whose post is null makes
     * `post.removeComment` throw, and the transaction changes nothing.
     */
    method DeleteComment(id: Id) returns (r: Result<(), Exception>)
      requires db.Valid()
      modifies db`comments, Stored(db.comments)`post, Stored(db.PostRefs())`comments
      ensures db.Valid()
      ensures db.users == old(db.users) && db.categories == old(db.categories)
      ensures db.tags == old(db.tags) && db.posts == old(db.posts) && db.nextId == old(db.nextId)
      ensures id !in old(db.comments) ==> r == Failure(NotFoundById("Comment", id)) && db.comments == old(db.comments)
      ensures id in old(db.comments) && old(db.comments[id].post) == null ==>
        r == Failure(NullPointer(PostNullMessage)) && db.comments == old(db.comments)
      ensures r.Failure? ==> forall c | c in old(Stored(db.comments)) :: c.post == old(c.post)
      ensures r.Failure? ==> forall p | p in old(Stored(db.PostRefs())) && p != null :: p.comments == old(p.comments)
      ensures id in old(db.comments) && old(db.comments[id].post) != null ==>
        && var c := old(db.comments[id]);
        && var post := old(c.post);
        && r == Success(())
        && db.comments == old(db.comments) - {id}
        && post.comments == RemoveFirst(old(post.comments), c)
        && c.post == null
        && (forall p | p in old(Stored(db.PostRefs())) && p != null && p != post :: p.comments == old(p.comments))
        && (forall k | k in db.comments && db.comments[k] != c :: db.comments[k].post == old(db.comments[k].post))
    {
      if id !in db.comments {
        return Failure(NotFoundById("Comment", id));
      }
      var c := db.comments[id];
      var post := c.GetPost();
      if post == null {
        return Failure(NullPointer(PostNullMessage));
      }
      Unlink(id);
      r := Success(());
    }

    /** The success path of `deleteComment`: `post.removeComment(comment)`, then the row goes. */
    method Unlink(id: Id)
      requires db.Valid() && id in db.comments && db.comments[id].post != null
      modifies db`comments, Stored(db.comments)`post, Stored(db.PostRefs())`comments
      ensures db.Valid()
      ensures db.users == old(db.users) && db.categories == old(db.categories)
      ensures db.tags == old(db.tags) && db.posts == old(db.posts) && db.nextId == old(db.nextId)
      ensures
        && var c := old(db.comments[id]);
        && var post := old(c.post);
        && db.comments == old(db.comments) - {id}
        && post.comments == RemoveFirst(old(post.comments), c)
        && c.post == null
        && (forall p | p in old(Stored(db.PostRefs())) && p != null && p != post :: p.comments == old(p.comments))
        && (forall k | k in db.comments && db.comments[k] != c :: db.comments[k].post == old(db.comments[k].post))
    {
      var c := db.comments[id];
      var post := c.post;
      assert db.PostRefs()[id] == post;
      post.RemoveComment(c);
      db.comments := db.comments - {id};
      assert db.IdsIssued();
    }

    method LikeComment(id: Id) returns (r: Result<Comment, Exception>)
      modifies Stored(db.comments)`likes
      ensures id !in db.comments ==> r == Failure(NotFoundById("Comment", id))
      ensures id in db.comments ==> r == Success(db.comments[id]) && db.comments[id].likes == old(db.comments[id].likes) + 1
      ensures forall c | c in Stored(db.comments) && (id !in db.comments || c != db.comments[id]) :: c.likes == old(c.likes)
    {
      if id !in db.comments {
        return Failure(NotFoundById("Comment", id));
      }
      var c := db.comments[id];
      c.Like();
      r := Success(c);
    }

    method UnlikeComment(id: Id) returns (r: Result<Comment, Exception>)
      modifies Stored(db.comments)`likes
      ensures id !in db.comments ==> r == Failure(NotFoundById("Comment", id))
      ensures id in db.comments ==>
        && r == Success(db.comments[id])
        && db.comments[id].likes == (if old(db.comments[id].likes) > 0 then old(db.comments[id].likes) - 1 else old(db.comments[id].likes))
      ensures forall c | c in Stored(db.comments) && (id !in db.comments || c != db.comments[id]) :: c.likes == old(c.likes)
    {
      if id !in db.comments {
        return Failure(NotFoundById("Comment", id));
      }
      var c := db.comments[id];
      c.Unlike();
      r := Success(c);
    }

    /** `countCommentsByPostId`: the stored comments pointing at the post, or NotFound. */
    method CountCommentsByPostId(postId: Id) returns (r: Result<nat, Exception>)
      ensures postId !in db.posts ==> r == Failure(NotFoundById("Post", postId))
      ensures postId in db.posts ==>
        && r.Success?
        && r.value == CountReferencing(db.PostRefs(), db.posts[postId])
        && (r.value == 0 <==> forall k | k in db.comments :: db.comments[k].post != db.posts[postId])
        && r.value <= |db.comments|
    {
      if postId !in db.posts {
        return Failure(NotFoundById("Post", postId));
      }
      var refs := db.PostRefs();
      var n := CountReferencing(refs, db.posts[postId]);
      r := Success(n);
    }
  }
}
