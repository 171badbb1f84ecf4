/**
 * The JPA entities. `Post`, `Comment` and `Tag` are classes because
 * `Post.java` and `Comment.java` change their fields and collections in
 * place (and `Post.addTag` changes `tag.posts`); `User` and `Category`
 * are only ever replaced as a whole by the services, so they are values.
 * Associations to users and categories are kept as their ids.
 */
module Entities {
  import opened Wrappers

  /** Database ids (`Long`). */
  type Id = int

  datatype UserRole = USER | ADMIN {
    /** `role.name()` */
    function Name(): string {
      match this
      case USER => "USER"
      case ADMIN => "ADMIN"
    }
  }

  datatype User = User(
    username: string,
    email: string,
    password: string,
    firstName: Option<string>,
    lastName: Option<string>,
    avatarUrl: Option<string>,
    bio: Option<string>,
    role: UserRole)

  datatype Category = Category(name: string, description: Option<string>)

  class Tag {
    var name: string
    /** `@ManyToMany(mappedBy = "tags")`: the inverse side, kept by `Post.addTag`/`removeTag`. */
    var posts: set<Post>

    /** `Tag.builder().name(name).build()`; the posts set starts empty. */
    constructor (name: string)
      ensures this.name == name && posts == {}
    {
      this.name := name;
      posts := {};
    }
  }

  /** Both sides of the Post-Tag association agree, for the posts and tags considered. */
  ghost predicate TagLinks(posts: set<Post>, tags: set<Tag>)
    reads posts`tags, tags`posts
  {
    forall p, t | p in posts && t in tags :: t in p.tags <==> p in t.posts
  }

  /** `List.indexOf(Object)`: the first index holding `x`, or -1. */
  function IndexOf<T(==)>(s: seq<T>, x: T): (i: int)
    ensures -1 <= i < |s|
    ensures i == -1 <==> x !in s
    ensures i >= 0 ==> s[i] == x && x !in s[..i]
  {
    if s == [] then -1
    else if s[0] == x then 0
    else
      var j := IndexOf(s[1..], x);
      assert s == [s[0]] + s[1..];
      if j < 0 then -1
      else (assert s[..j + 1] == [s[0]] + s[1..][..j]; j + 1)
  }

  /** `List.remove(Object)`: drops the first occurrence, keeping the order of the rest. */
  function RemoveFirst<T(==)>(s: seq<T>, x: T): (r: seq<T>)
    ensures x !in s ==> r == s
    ensures x in s ==> |r| == |s| - 1 && multiset(r) == multiset(s) - multiset{x}
    ensures x in s ==> exists i :: 0 <= i < |s| && s[i] == x && x !in s[..i] && r == s[..i] + s[i + 1..]
  {
    var i := IndexOf(s, x);
    if i < 0 then s
    else
      assert s == s[..i] + [s[i]] + s[i + 1..];
      s[..i] + s[i + 1..]
  }

  class Post {
    var title: Option<string>
    var excerpt: Option<string>
    var content: Option<string>
    var coverImage: Option<string>
    var author: Option<Id>
    var category: Option<Id>
    var tags: set<Tag>
    var comments: seq<Comment>
    var published: bool
    var views: int
    var likes: int
    /** The auditing timestamp of `BaseEntity`, set when the row is first saved. */
    var createdAt: int

    /** `new Post()`: the field initialisers apply. */
    constructor ()
      ensures published && views == 0 && likes == 0 && tags == {} && comments == []
      ensures title.None? && excerpt.None? && content.None? && coverImage.None?
      ensures author.None? && category.None? && createdAt == 0
    {
      title, excerpt, content, coverImage := None, None, None, None;
      author, category := None, None;
      tags, comments := {}, [];
      published, views, likes := true, 0, 0;
      createdAt := 0;
    }

    /**
     * A post as `createPost` means to build it: the given fields, no tags
     * or comments yet and zeroed counters (see README, Findings, for what
     * the Lombok builder actually leaves in `tags`).
     */
    constructor Built(title: Option<string>, excerpt: Option<string>, content: Option<string>,
                      coverImage: Option<string>, author: Id, category: Option<Id>,
                      published: bool, createdAt: int)
      ensures this.title == title && this.excerpt == excerpt && this.content == content
      ensures this.coverImage == coverImage && this.author == Some(author) && this.category == category
      ensures this.published == published && this.createdAt == createdAt
      ensures tags == {} && comments == [] && views == 0 && likes == 0
    {
      this.title, this.excerpt, this.content, this.coverImage := title, excerpt, content, coverImage;
      this.author, this.category := Some(author), category;
      tags, comments := {}, [];
      this.published, views, likes := published, 0, 0;
      this.createdAt := createdAt;
    }

    /** `addTag`: both sides of the association gain the link; nothing else changes. */
    method AddTag(t: Tag, ghost allPosts: set<Post>, ghost allTags: set<Tag>)
      requires TagLinks(allPosts, allTags)
      modifies this`tags, t`posts
      ensures tags == old(tags) + {t}
      ensures t.posts == old(t.posts) + {this}
      ensures TagLinks(allPosts, allTags)
    {
      tags := tags + {t};
      t.posts := t.posts + {this};
    }

    /** `removeTag`: both sides lose the link; no other tag's post set is touched. */
    method RemoveTag(t: Tag, ghost allPosts: set<Post>, ghost allTags: set<Tag>)
      requires TagLinks(allPosts, allTags)
      modifies this`tags, t`posts
      ensures tags == old(tags) - {t}
      ensures t.posts == old(t.posts) - {this}
      ensures TagLinks(allPosts, allTags)
    {
      tags := tags - {t};
      t.posts := t.posts - {this};
    }

    /** `addComment`: appended at the end, and the comment points back at this post. */
    method AddComment(c: Comment)
      modifies this`comments, c`post
      ensures comments == old(comments) + [c]
      ensures c.post == this
    {
      comments := comments + [c];
      c.post := this;
    }

    /** `removeComment`: the first occurrence goes, the rest keep their order; the comment is detached. */
    method RemoveComment(c: Comment)
      modifies this`comments, c`post
      ensures comments == RemoveFirst(old(comments), c)
      ensures c !in old(comments) ==> comments == old(comments)
      ensures c.post == null
    {
      comments := RemoveFirst(comments, c);
      c.post := null;
    }

    method IncrementViews()
      modifies this`views
      ensures views == old(views) + 1
    {
      views := views + 1;
    }

    method Like()
      modifies this`likes
      ensures likes == old(likes) + 1
      ensures old(likes) >= 0 ==> likes > 0
    {
      likes := likes + 1;
    }

    /** `unlike`: one less, but never below zero. */
    method Unlike()
      modifies this`likes
      ensures likes == if old(likes) > 0 then old(likes) - 1 else old(likes)
      ensures old(likes) >= 0 ==> likes >= 0
      ensures old(likes) == 0 ==> likes == 0
    {
      if likes > 0 {
        likes := likes - 1;
      }
    }
  }

  class Comment {
    var content: string
    var post: Post?
    var user: Option<Id>
    var likes: int
    var createdAt: int

    /** `Comment.builder().content(..).post(..).user(..).build()`; `likes` is the primitive default 0. */
    constructor Built(content: string, post: Post?, user: Id, createdAt: int)
      ensures this.content == content && this.post == post && this.user == Some(user)
      ensures likes == 0 && this.createdAt == createdAt
    {
      this.content, this.post, this.user := content, post, Some(user);
      likes := 0;
      this.createdAt := createdAt;
    }

    function GetPost(): Post?
      reads this
    {
      post
    }

    method SetPost(p: Post?)
      modifies this`post
      ensures GetPost() == p
    {
      post := p;
    }

    method Like()
      modifies this`likes
      ensures likes == old(likes) + 1
      ensures old(likes) >= 0 ==> likes > 0
    {
      likes := likes + 1;
    }

    /** `unlike`: one less, but never below zero. */
    method Unlike()
      modifies this`likes
      ensures likes == if old(likes) > 0 then old(likes) - 1 else old(likes)
      ensures old(likes) >= 0 ==> likes >= 0
      ensures old(likes) == 0 ==> likes == 0
    {
      if likes > 0 {
        likes := likes - 1;
      }
    }
  }
}
