# zxyspace blog core in Dafny

This project is a Dafny model of the core of zxyspace, a blog. The backend is a Spring Boot service. The frontend is a Vue application whose state lives in Pinia stores. The model covers these parts:

- **The JPA entities** `Post`, `Comment` and `Tag`, as classes whose methods change their fields in place. `Post.addTag`/`removeTag` keep both sides of the post-tag association in step.
- **One in-memory database** (`Store.Database`) with a map per table and the id sequence. Its invariant `Valid()` says:
  - every id was issued by the sequence;
  - category and tag names are unique;
  - the post-tag links agree on both sides.
- **The services** `PostServiceImpl`, `CommentServiceImpl`, `CategoryServiceImpl`, `TagServiceImpl` and `UserServiceImpl`, and the registration endpoint of `AuthController`. Each is a class over the shared database, with methods that state their whole effect. The read-only listings are functions of the rows the database returns:
  - the `PostRepository` queries;
  - Spring Data's `PageRequest` paging;
  - the hand-made paging of `getPostsByTag`.
- **The JWT token provider** as pure functions of the parsed claims and a clock value. **The authentication filter** is a method that sets a security context and always continues the chain.
- **`GlobalExceptionHandler`**: how each exception becomes a status, an error code and a message.
- **The frontend**:
  - the `blog` store's getters (filter, sort, slice, page count) and its actions' effect on local state;
  - the lookups of `utils/common.js`;
  - the `user` store's session state, kept in step with `localStorage` and the default `Authorization` header.

  JavaScript semantics the stores rely on are written out in `Js`: `parseInt`, truthiness, `a || b` and template rendering of `null`/`undefined`.

Clocks, password encoding, JWT parsing, user loading, JSON encoding and every HTTP answer are parameters of the operations that use them.

## Model

| member | source | states |
|---|---|---|
| Entities.Post.constructor | backend/src/main/java/com/zxyspace/model/Post.java:63-72 | `new Post()` is published, has zero views and likes, no tags, no comments, and nulls elsewhere |
| Entities.Post.AddTag | backend/src/main/java/com/zxyspace/model/Post.java:75-78 | the tag joins `post.tags` and the post joins `tag.posts`; nothing else is written; the two-sided link invariant `TagLinks` holds afterwards whenever it held before |
| Entities.Post.RemoveTag | backend/src/main/java/com/zxyspace/model/Post.java:81-84 | both directions of the link go; no other tag's post set is touched; `TagLinks` is preserved |
| Entities.Post.AddComment | backend/src/main/java/com/zxyspace/model/Post.java:87-90 | the comment is appended at the end of `comments` and points back at this post |
| Entities.Post.RemoveComment | backend/src/main/java/com/zxyspace/model/Post.java:93-96 | `comments` loses exactly the first occurrence of the comment; the rest keep their order; an absent comment leaves the list as it was; the comment's `post` becomes null |
| Entities.RemoveFirst | backend/src/main/java/com/zxyspace/model/Post.java:94 | `List.remove(Object)`: one copy fewer (length and multiset), the elements before the removed one do not contain it, the rest are kept in order; identity when the element is absent |
| Entities.IndexOf | backend/src/main/java/com/zxyspace/model/Post.java:94 | the first index holding the value, or -1 exactly when the value is absent |
| Entities.Post.IncrementViews | backend/src/main/java/com/zxyspace/model/Post.java:99-101 | views grow by exactly one and no other field is written |
| Entities.Post.Like | backend/src/main/java/com/zxyspace/model/Post.java:104-106 | likes grow by exactly one and stay positive from a non-negative start |
| Entities.Post.Unlike | backend/src/main/java/com/zxyspace/model/Post.java:109-113 | likes drop by one only when positive; zero stays zero, so a non-negative count stays non-negative |
| Entities.Post.Built | backend/src/main/java/com/zxyspace/service/impl/PostServiceImpl.java:233-241 | the post `createPost` builds: the request's fields, the author and the category, zero counters and empty collections (the intended form; see Findings) |
| Entities.Tag.constructor | backend/src/main/java/com/zxyspace/service/impl/TagServiceImpl.java:69-71 | a new tag has the given name and no posts |
| Entities.Comment.Built | backend/src/main/java/com/zxyspace/service/impl/CommentServiceImpl.java:112-116 | a new comment has the given content, post and user, and zero likes |
| Entities.Comment.SetPost | backend/src/main/java/com/zxyspace/model/Comment.java:53-59 | `getPost()` returns exactly the post last passed to `setPost` |
| Entities.Comment.Like | backend/src/main/java/com/zxyspace/model/Comment.java:41-43 | likes grow by exactly one; content, post and user are not written |
| Entities.Comment.Unlike | backend/src/main/java/com/zxyspace/model/Comment.java:46-50 | likes drop by one only when positive, so they never become negative |
| Errors.NotFoundById | backend/src/main/java/com/zxyspace/service/impl/PostServiceImpl.java:60-61 | `ResourceNotFoundException(resource, "id", id)` is a not-found error naming that resource and the `id` field |
| Store.Database.TagsByIds | backend/src/main/java/com/zxyspace/service/impl/PostServiceImpl.java:230 | `findByIdIn(ids)`: every stored tag whose id was asked for, and only such tags |
| Store.Database.FreshId | backend/src/main/java/com/zxyspace/service/impl/PostServiceImpl.java:248 | the sequence's next id is unused in every table |
| Store.Database.SaveNewTag | backend/src/main/java/com/zxyspace/service/impl/TagServiceImpl.java:73 | saving a fresh tag whose name is free takes the next id and keeps the database invariant |
| Store.Database.SaveNewComment | backend/src/main/java/com/zxyspace/service/impl/CommentServiceImpl.java:119 | saving a new comment takes the next id and keeps the database invariant |
| Store.Database.PostRefs | backend/src/main/java/com/zxyspace/service/impl/CommentServiceImpl.java:178 | the `post_id` column: each stored comment's post, under the comment's id |
| Store.AllValues | backend/src/main/java/com/zxyspace/service/impl/CategoryServiceImpl.java:40-44 | `findAll()`: every value of the table exactly once, under distinct keys |
| Store.InsertStored | backend/src/main/java/com/zxyspace/service/impl/PostServiceImpl.java:248 | inserting under a new key adds exactly the new object to what the table holds |
| Text.ContainsAt | frontend/src/store/blog.js:45-47 | `includes` holds exactly when some window of the string equals the query |
| Text.ToLower | frontend/src/store/blog.js:43 | lower-casing keeps the length and maps each character |
| Text.LikeLiteralPrefix | backend/src/main/java/com/zxyspace/repository/PostRepository.java:25-26 | a `LIKE` pattern made of a literal and `%` matches exactly the strings with that prefix |
| Text.LikeIsContains | backend/src/main/java/com/zxyspace/repository/PostRepository.java:25-26 | for a query without `%` or `_`, `LIKE '%q%'` is substring search |
| Text.LowerPattern | backend/src/main/java/com/zxyspace/repository/PostRepository.java:25-26 | `LOWER(CONCAT('%', q, '%'))` is `'%' + lower(q) + '%'`, still free of wildcards when `q` is |
| Seqs.Filter | frontend/src/store/blog.js:40 | `filter`: only satisfying elements, each of them kept, no more than the input |
| Seqs.FilterConcat | frontend/src/store/blog.js:40 | filtering distributes over concatenation, so it never reorders what it keeps |
| Seqs.FilterFilter | frontend/src/store/blog.js:40-61 | filtering twice is filtering once by the conjunction |
| Seqs.FilterMultiset | frontend/src/store/blog.js:40 | a filter keeps no element more often than the input has it |
| Seqs.FindFirst | frontend/src/store/blog.js:22 | `find`: none exactly when no element passes; otherwise the first passing element |
| Seqs.JsSliceWindow | frontend/src/store/blog.js:69 | `slice(start, end)` with non-negative bounds is the window `[start, min(end, n))`, empty when it starts past the end |
| Seqs.SortDesc | frontend/src/store/blog.js:28 | the sort by a descending key yields a sorted permutation of its input |
| Seqs.InsertDesc | frontend/src/store/blog.js:28 | inserting into a descending list keeps it sorted and adds exactly one copy of the element |
| Paging.CeilDivLeast | backend/src/main/java/com/zxyspace/service/impl/PostServiceImpl.java:161 | `ceil(n / d)` is the least page count whose pages of `d` hold `n` items |
| Paging.SpringPageSpec | backend/src/main/java/com/zxyspace/service/impl/PostServiceImpl.java:416-424 | `PageRequest.of(page, size)` fails exactly for a negative page or a size below one. Otherwise the page holds the rows from offset `page * size`, at most `size` of them, and exactly `size` when enough follow. It counts every row and is `last` exactly when no row lies past it |
| Paging.PageKeeps | backend/src/main/java/com/zxyspace/service/impl/PostServiceImpl.java:75-79 | a page of a reordering of the selection holds only selected rows and counts all of them |
| Paging.PageSortedDesc | backend/src/main/java/com/zxyspace/service/impl/CommentServiceImpl.java:64-65 | a page of rows sorted by a descending key is sorted the same way |
| PostRepository.FindByPublishedTrue | backend/src/main/java/com/zxyspace/repository/PostRepository.java:18 | the published rows, every one of them |
| PostRepository.FindByAuthorAndPublishedTrue | backend/src/main/java/com/zxyspace/repository/PostRepository.java:20 | exactly the published rows of that author |
| PostRepository.FindByCategoryAndPublishedTrue | backend/src/main/java/com/zxyspace/repository/PostRepository.java:22 | exactly the published rows of that category |
| PostRepository.SearchPosts | backend/src/main/java/com/zxyspace/repository/PostRepository.java:24-27 | exactly the published rows whose title or content matches the pattern; the excerpt is not consulted |
| PostRepository.SearchIsSubstring | backend/src/main/java/com/zxyspace/repository/PostRepository.java:24-26 | for a query free of `%`/`_`, a row matches exactly when it is published and its lower-cased title or content contains the lower-cased query |
| PostRepository.FindRecentPosts | backend/src/main/java/com/zxyspace/repository/PostRepository.java:29-30 | the published rows, each once, newest first |
| PostRepository.FindPopularPosts | backend/src/main/java/com/zxyspace/repository/PostRepository.java:32-33 | the published rows, each once, most viewed first |
| PostService.SortDirection | backend/src/main/java/com/zxyspace/service/impl/PostServiceImpl.java:416-421 | DESC exactly when the direction equals `"desc"` ignoring case; anything else, null included, is ASC |
| PostService.SortDirectionExamples | backend/src/main/java/com/zxyspace/service/impl/PostServiceImpl.java:418 | `"desc"`, `"DESC"`, `"DeSc"` and the long-s spelling sort descending; null, `"asc"`, `""` and `"descending"` sort ascending |
| PostService.Ordered | backend/src/main/java/com/zxyspace/service/impl/PostServiceImpl.java:417-423 | `Sort.by(direction, column)` on an integer column yields a permutation of the rows in the requested order |
| PostService.GetAllPostsSpec | backend/src/main/java/com/zxyspace/service/impl/PostServiceImpl.java:71-93 | `getAllPosts` fails exactly on a bad page request. Otherwise it pages rows of the table in the requested order. Any non-null `published` flag, `false` included, restricts the page and its total to published rows |
| PostService.PageInOrder | backend/src/main/java/com/zxyspace/service/impl/PostServiceImpl.java:85-92 | a page of ordered rows keeps their order |
| PostService.RecentPostsSpec | backend/src/main/java/com/zxyspace/service/impl/PostServiceImpl.java:201-206 | `getRecentPosts(limit)` refuses a limit below one. Otherwise it returns the first `min(limit, n)` rows of the newest-first listing of the published posts, and no published row left out is newer than a returned one |
| PostService.PopularPostsSpec | backend/src/main/java/com/zxyspace/service/impl/PostServiceImpl.java:209-214 | `getPopularPosts(limit)` refuses a limit below one. Otherwise it returns the first `min(limit, n)` rows of the most-viewed-first listing of the published posts, and no published row left out has more views than a returned one |
| PostService.TagPageSpec | backend/src/main/java/com/zxyspace/service/impl/PostServiceImpl.java:152-177 | for `page >= 0` and `size > 0`: the content is `[page*size, min(page*size+size, n))` of the tag's published posts, `totalElements = n`, `totalPages = ceil(n/size)`, and `last` is `end >= n`. A start past the end gives empty content with `last` set |
| PostService.TagPageIsSpringPage | backend/src/main/java/com/zxyspace/service/impl/PostServiceImpl.java:152-177 | for a valid request the hand-made page equals the page Spring Data would build |
| PostService.TagPageBadBounds | backend/src/main/java/com/zxyspace/service/impl/PostServiceImpl.java:152-166 | a negative start below the list length makes `subList` throw; size zero reports `Integer.MAX_VALUE` pages |
| PostService.CreatePostAsWrittenFails | backend/src/main/java/com/zxyspace/service/impl/PostServiceImpl.java:233-249 | as written, the built post's tag set is null, so `createPost` throws a `NullPointerException` on every call: in `addTag` when a tag resolves, and in `mapToPostDto`'s `getTags().stream()` when none does |
| PostService.AddTagAsBuilt | backend/src/main/java/com/zxyspace/model/Post.java:75-76 | `tags.add(tag)` throws a `NullPointerException` exactly when the tag set is null; otherwise the tag is added and nothing else changes |
| PostService.AddTagsAsBuilt | backend/src/main/java/com/zxyspace/service/impl/PostServiceImpl.java:244-246 | on a null tag set the loop throws as soon as one tag resolves; on a set it succeeds with every resolved tag added to the start set |
| PostService.TagDtosAsBuilt | backend/src/main/java/com/zxyspace/service/impl/PostServiceImpl.java:359 | `mapToPostDto` throws on a null tag set and otherwise maps every tag |
| PostService.CreatePostTags | backend/src/main/java/com/zxyspace/service/impl/PostServiceImpl.java:243-249 | the tag part of `createPost` through `save` and `mapToPostDto`: a null start set always ends in a `NullPointerException`; a set start yields a DTO tag set holding the start set and every resolved tag |
| PostService.CreatePostFromEmptySucceeds | backend/src/main/java/com/zxyspace/service/impl/PostServiceImpl.java:244-249 | starting from an empty tag set, the loop, `save` and `mapToPostDto` report exactly the resolved tags |
| PostService.AddTagsFromEmpty | backend/src/main/java/com/zxyspace/service/impl/PostServiceImpl.java:244-246 | starting from a set instead, the loop leaves the post with exactly the resolved tags |
| PostService.PostServiceImpl.GetPostById | backend/src/main/java/com/zxyspace/service/impl/PostServiceImpl.java:59-68 | an unknown id is not found; otherwise that post is returned with one more view, and no other post's views change |
| PostService.PostServiceImpl.IncrementViews | backend/src/main/java/com/zxyspace/service/impl/PostServiceImpl.java:315-323 | an unknown id is not found; otherwise exactly that post gains one view |
| PostService.PostServiceImpl.LikePost | backend/src/main/java/com/zxyspace/service/impl/PostServiceImpl.java:327-335 | an unknown id is not found; otherwise exactly that post gains one like |
| PostService.PostServiceImpl.UnlikePost | backend/src/main/java/com/zxyspace/service/impl/PostServiceImpl.java:339-347 | an unknown id is not found; otherwise that post loses a like only when it has one, a non-negative count stays non-negative, and no other post changes |
| PostService.PostServiceImpl.GetPostsByTag | backend/src/main/java/com/zxyspace/service/impl/PostServiceImpl.java:142-178 | an unknown tag is not found; otherwise the result is `TagPage` over a duplicate-free listing of exactly the tag's published posts |
| PostService.PostServiceImpl.AddTags | backend/src/main/java/com/zxyspace/service/impl/PostServiceImpl.java:244-246 | the loop adds every tag to the post and the post to every tag, keeping `TagLinks` |
| PostService.PostServiceImpl.RemoveAllTags | backend/src/main/java/com/zxyspace/service/impl/PostServiceImpl.java:289-291 | the loop over a copy of the tags leaves the post with none, removes the post from each former tag, and keeps `TagLinks` |
| PostService.PostServiceImpl.CreatePost | backend/src/main/java/com/zxyspace/service/impl/PostServiceImpl.java:218-250 | `createPost` in its intended form, where the built post starts with an empty tag set (see Findings): the author is looked up first, then the category; either missing is not found and nothing is written. Otherwise the new post takes the next id with the request's fields, zero counters and no comments. Its tags are the stored ones among the ids (none for a null or empty set), and both sides are linked. The database invariant holds |
| PostService.PostServiceImpl.LinkNewPost | backend/src/main/java/com/zxyspace/service/impl/PostServiceImpl.java:244-248 | a new post is linked with the given tags from both sides and saved under the next id |
| PostService.PostServiceImpl.SavePost | backend/src/main/java/com/zxyspace/service/impl/PostServiceImpl.java:248 | `save` of a new post takes the next id and keeps the invariant |
| PostService.PostServiceImpl.ApplyFields | backend/src/main/java/com/zxyspace/service/impl/PostServiceImpl.java:259-284 | each non-null request field overwrites its column, and a null one leaves it as it was |
| PostService.PostServiceImpl.ReplaceTags | backend/src/main/java/com/zxyspace/service/impl/PostServiceImpl.java:287-298 | all the post's tags go, and the post is then linked with exactly the stored tags among the ids; other tags' sets only lose or gain this post |
| PostService.PostServiceImpl.ReplaceTagsIfGiven | backend/src/main/java/com/zxyspace/service/impl/PostServiceImpl.java:287-298 | tags are replaced only for a non-null, non-empty id set; otherwise no link changes |
| PostService.PostServiceImpl.UpdateStored | backend/src/main/java/com/zxyspace/service/impl/PostServiceImpl.java:259-298 | the field rule and the tag rule together; author, counters, comments and creation time are untouched |
| PostService.PostServiceImpl.UpdatePost | backend/src/main/java/com/zxyspace/service/impl/PostServiceImpl.java:254-302 | an unknown post, or a non-null category id that does not exist, is not found and changes no post and no tag's post set. Otherwise: partial update of the fields, no way to clear the category, tags replaced only for a non-empty id set (unknown ids dropped), every other post unchanged, no tag outside the old and new tag sets touched, and the invariant kept |
| CommentService.CountReferencing | backend/src/main/java/com/zxyspace/service/impl/CommentServiceImpl.java:178 | `countByPost`: the number of comment rows pointing at the post, zero exactly when none does |
| CommentService.CountInsert | backend/src/main/java/com/zxyspace/service/impl/CommentServiceImpl.java:174-179 | a new comment row under a new id counts for its own post and no other |
| CommentService.CountRemove | backend/src/main/java/com/zxyspace/service/impl/CommentServiceImpl.java:174-179 | deleting a comment row uncounts it for its own post and no other |
| CommentService.CommentsByPostSpec | backend/src/main/java/com/zxyspace/service/impl/CommentServiceImpl.java:60-79 | an unknown post is not found, and that is checked before the page request. Otherwise the page fails exactly on bad bounds, holds only that post's comments newest first, and counts all of them |
| CommentService.CommentsByUserSpec | backend/src/main/java/com/zxyspace/service/impl/CommentServiceImpl.java:82-101 | the same for a user's comments |
| CommentService.CommentServiceImpl.GetCommentById | backend/src/main/java/com/zxyspace/service/impl/CommentServiceImpl.java:43-47 | the stored comment, or not found |
| CommentService.CommentServiceImpl.CreateComment | backend/src/main/java/com/zxyspace/service/impl/CommentServiceImpl.java:105-122 | the post is checked before the user, and either missing is not found with nothing stored. Otherwise the new comment has the content, post and user and zero likes. It is appended to that post's comments only and takes the next id |
| CommentService.CommentServiceImpl.UpdateComment | backend/src/main/java/com/zxyspace/service/impl/CommentServiceImpl.java:126-134 | only the text of that comment changes; likes, post and user stay |
| CommentService.CommentServiceImpl.DeleteComment | backend/src/main/java/com/zxyspace/service/impl/CommentServiceImpl.java:138-147 | an unknown id is not found. A comment whose post is null throws, and no comment, post link or post's comment list changes. Otherwise the comment leaves its post's list (first occurrence, order kept) and the table, and forgets its post; other posts and comments are untouched |
| CommentService.CommentServiceImpl.Unlink | backend/src/main/java/com/zxyspace/service/impl/CommentServiceImpl.java:143-146 | the success path of `deleteComment`, with the same effect and the invariant kept |
| CommentService.CommentServiceImpl.LikeComment | backend/src/main/java/com/zxyspace/service/impl/CommentServiceImpl.java:151-159 | exactly that comment gains one like, or not found |
| CommentService.CommentServiceImpl.UnlikeComment | backend/src/main/java/com/zxyspace/service/impl/CommentServiceImpl.java:163-171 | that comment loses a like only when it has one, or not found |
| CommentService.CommentServiceImpl.CountCommentsByPostId | backend/src/main/java/com/zxyspace/service/impl/CommentServiceImpl.java:174-179 | an unknown post is not found; otherwise the number of stored comments pointing at it, zero exactly when none does, never above the table size |
| CategoryService.ToDto | backend/src/main/java/com/zxyspace/service/impl/CategoryServiceImpl.java:97-103 | the DTO carries the id and exactly the stored name and description |
| CategoryService.CategoryServiceImpl.GetCategoryById | backend/src/main/java/com/zxyspace/service/impl/CategoryServiceImpl.java:26-30 | the stored category under that id, or not found by id |
| CategoryService.CategoryServiceImpl.GetCategoryByName | backend/src/main/java/com/zxyspace/service/impl/CategoryServiceImpl.java:33-37 | not found by name exactly when no category has that exact name; otherwise one that has it |
| CategoryService.CategoryServiceImpl.GetAllCategories | backend/src/main/java/com/zxyspace/service/impl/CategoryServiceImpl.java:40-44 | every stored category exactly once |
| CategoryService.CategoryServiceImpl.CreateCategory | backend/src/main/java/com/zxyspace/service/impl/CategoryServiceImpl.java:48-61 | a taken name fails and writes nothing; otherwise exactly the given name and description are stored under the next id, and `existsByName` then holds |
| CategoryService.CategoryServiceImpl.UpdateCategory | backend/src/main/java/com/zxyspace/service/impl/CategoryServiceImpl.java:65-80 | an unknown id is not found. Keeping its own name is allowed, and a different name that is taken fails with no change. Otherwise name and description are replaced and no other category changes |
| CategoryService.CategoryServiceImpl.DeleteCategory | backend/src/main/java/com/zxyspace/service/impl/CategoryServiceImpl.java:84-89 | an unknown id is not found; otherwise exactly that category goes |
| CategoryService.CategoryServiceImpl.ExistsByName | backend/src/main/java/com/zxyspace/service/impl/CategoryServiceImpl.java:92-94 | true exactly when a stored category carries that exact name |
| TagService.TagServiceImpl.GetTagById | backend/src/main/java/com/zxyspace/service/impl/TagServiceImpl.java:27-31 | the stored tag under that id, or not found by id |
| TagService.TagServiceImpl.GetTagByName | backend/src/main/java/com/zxyspace/service/impl/TagServiceImpl.java:34-38 | not found by name exactly when no tag has that exact name; otherwise one that has it |
| TagService.TagServiceImpl.GetTagsByIds | backend/src/main/java/com/zxyspace/service/impl/TagServiceImpl.java:48-52 | exactly the stored tags whose ids were asked for; unknown ids are dropped |
| TagService.TagServiceImpl.CreateTag | backend/src/main/java/com/zxyspace/service/impl/TagServiceImpl.java:63-75 | a taken name fails and writes nothing; otherwise a fresh tag with that name and no posts takes the next id, and `existsByName` then holds |
| TagService.TagServiceImpl.UpdateTag | backend/src/main/java/com/zxyspace/service/impl/TagServiceImpl.java:79-93 | an unknown id is not found. Keeping its own name is allowed, and a different name that is taken fails with the tag unchanged. Otherwise only its name changes, and no other tag's name |
| TagService.TagServiceImpl.DeleteTag | backend/src/main/java/com/zxyspace/service/impl/TagServiceImpl.java:97-102 | an unknown id is not found; otherwise exactly that tag goes |
| TagService.TagServiceImpl.ExistsByName | backend/src/main/java/com/zxyspace/service/impl/TagServiceImpl.java:105-107 | true exactly when a stored tag carries that exact name |
| UserService.MapToUserDto | backend/src/main/java/com/zxyspace/service/impl/UserServiceImpl.java:91-104 | the DTO copies the profile fields and the role's name |
| UserService.DtoHidesPassword | backend/src/main/java/com/zxyspace/service/impl/UserServiceImpl.java:91-104 | the DTO does not depend on the password |
| UserService.RoleNameInjective | backend/src/main/java/com/zxyspace/service/impl/UserServiceImpl.java:101 | role names tell the roles apart |
| UserService.UpdatedUser | backend/src/main/java/com/zxyspace/service/impl/UserServiceImpl.java:62-68 | the five profile fields come from the request, nulls included; username, password and role stay |
| UserService.UpdatedUserIdempotent | backend/src/main/java/com/zxyspace/service/impl/UserServiceImpl.java:62-68 | applying the same update twice is applying it once |
| UserService.UserServiceImpl.GetUserById | backend/src/main/java/com/zxyspace/service/impl/UserServiceImpl.java:25-29 | the user's DTO, or not found by id |
| UserService.UserServiceImpl.GetUserByUsername | backend/src/main/java/com/zxyspace/service/impl/UserServiceImpl.java:32-36 | not found by `username` exactly when no user has it; otherwise that user's DTO |
| UserService.UserServiceImpl.GetUserByEmail | backend/src/main/java/com/zxyspace/service/impl/UserServiceImpl.java:39-43 | not found by `email` exactly when no user has it; otherwise that user's DTO |
| UserService.UserServiceImpl.UpdateUser | backend/src/main/java/com/zxyspace/service/impl/UserServiceImpl.java:58-71 | an unknown id is not found; otherwise the stored user becomes `UpdatedUser`, with no email uniqueness check, and nothing else changes |
| UserService.UserServiceImpl.DeleteUser | backend/src/main/java/com/zxyspace/service/impl/UserServiceImpl.java:74-78 | an unknown id is not found; otherwise exactly that user goes |
| AuthController.MessagesDistinct | backend/src/main/java/com/zxyspace/controller/AuthController.java:75-97 | the three registration outcomes have different messages |
| AuthController.NewUser | backend/src/main/java/com/zxyspace/controller/AuthController.java:85-92 | the new user has the request's username, email and names, the encoded password, no avatar or bio, and role USER |
| AuthController.RegisterUser | backend/src/main/java/com/zxyspace/controller/AuthController.java:71-98 | a taken username is reported first and saves nothing; then a taken email, saving nothing; otherwise exactly one user, `NewUser`, is added under the next id |
| JwtTokenProvider.GetAllClaimsFromToken | backend/src/main/java/com/zxyspace/security/JwtTokenProvider.java:46-48 | the parsed token's claims, or the parser's exception |
| JwtTokenProvider.GetUsernameFromToken | backend/src/main/java/com/zxyspace/security/JwtTokenProvider.java:30-32 | the subject of a parsed token, possibly null |
| JwtTokenProvider.IsTokenExpired | backend/src/main/java/com/zxyspace/security/JwtTokenProvider.java:51-54 | expired exactly when the expiration is strictly before now; a missing expiration throws |
| JwtTokenProvider.DoGenerateToken | backend/src/main/java/com/zxyspace/security/JwtTokenProvider.java:64-75 | the subject, issued now, expiring `jwtExpiration` ms later, and the given claims |
| JwtTokenProvider.GenerateToken | backend/src/main/java/com/zxyspace/security/JwtTokenProvider.java:57-61 | the principal's username as subject and no custom claim |
| JwtTokenProvider.ValidateToken | backend/src/main/java/com/zxyspace/security/JwtTokenProvider.java:78-81 | true exactly when the token parses, its subject is the user's name, and now is not after its expiration. A parse failure or a null subject throws, and so does a missing expiration for the matching user |
| JwtTokenProvider.GeneratedTokenValid | backend/src/main/java/com/zxyspace/security/JwtTokenProvider.java:57-81 | a generated token validates for its user up to and including its expiration instant, and never for another user |
| JwtTokenProvider.FormatMessagesDistinct | backend/src/main/java/com/zxyspace/security/JwtTokenProvider.java:88-97 | the five caught parse failures have five different messages |
| JwtTokenProvider.ValidateTokenFormat | backend/src/main/java/com/zxyspace/security/JwtTokenProvider.java:84-99 | never false: true exactly when the token parses. A caught failure becomes `JwtAuthenticationException` with its message, and any other `JwtException` escapes unchanged |
| JwtFilter.GetJwtFromRequest | backend/src/main/java/com/zxyspace/security/JwtAuthenticationFilter.java:59-65 | a token exactly when the header has text and starts with the case-sensitive `"Bearer "`, and the header is then that prefix plus the token |
| JwtFilter.BearerRoundTrip | backend/src/main/java/com/zxyspace/security/JwtAuthenticationFilter.java:61-62 | the header `"Bearer " + t` yields `t` back |
| JwtFilter.AuthenticatedUser | backend/src/main/java/com/zxyspace/security/JwtAuthenticationFilter.java:37-41 | the user an authenticating request names is the parsed token's subject |
| JwtFilter.AuthenticatedMeansValid | backend/src/main/java/com/zxyspace/security/JwtAuthenticationFilter.java:36-49 | an authenticated request carried a `"Bearer "` token whose subject is the principal and whose expiration is not before now |
| JwtFilter.AnonymousWithoutToken | backend/src/main/java/com/zxyspace/security/JwtAuthenticationFilter.java:36 | no `"Bearer "` header, or only blanks after it, leaves the request anonymous |
| JwtFilter.TryAuthenticate | backend/src/main/java/com/zxyspace/security/JwtAuthenticationFilter.java:31-50 | the `try` block yields a user exactly when every check passes, and that user is the one loaded for the subject |
| JwtFilter.DoFilterInternal | backend/src/main/java/com/zxyspace/security/JwtAuthenticationFilter.java:29-56 | the chain runs exactly once. The context is set to the loaded user's authentication exactly when every check passes; otherwise it stays as it was, never partly set |
| JwtFilter.FilterChain.DoFilter | backend/src/main/java/com/zxyspace/security/JwtAuthenticationFilter.java:55 | one more invocation of the chain |
| JwtFilter.SecurityContext.constructor | backend/src/main/java/com/zxyspace/security/JwtAuthenticationFilter.java:48 | a fresh context holds no authentication |
| ExceptionHandler.FieldMap | backend/src/main/java/com/zxyspace/exception/GlobalExceptionHandler.java:37-42 | every reported field has an entry, and there is no other entry |
| ExceptionHandler.FieldMapLastWins | backend/src/main/java/com/zxyspace/exception/GlobalExceptionHandler.java:37-42 | a field's entry is the message of its last error |
| ExceptionHandler.BuildFieldMap | backend/src/main/java/com/zxyspace/exception/GlobalExceptionHandler.java:37-42 | the `forEach` loop builds exactly `FieldMap` |
| ExceptionHandler.Handle | backend/src/main/java/com/zxyspace/exception/GlobalExceptionHandler.java:19-80 | 404 exactly for not-found, 400 exactly for validation and business errors, 500 otherwise. The body carries the timestamp and the request description, and the exception's own message whenever it is not a validation failure |
| ExceptionHandler.HandleMethodArgumentNotValidException | backend/src/main/java/com/zxyspace/exception/GlobalExceptionHandler.java:33-52 | 400, `VALIDATION_FAILED`, the fixed message and the field map |
| ExceptionHandler.ErrorCodeClassifies | backend/src/main/java/com/zxyspace/exception/GlobalExceptionHandler.java:19-80 | each error code names exactly one handler |
| ExceptionHandler.DuplicateNameIsServerError | backend/src/main/java/com/zxyspace/exception/GlobalExceptionHandler.java:69-80 | the duplicate category or tag name is a 500 that shows its message |
| Js.OrDefault | frontend/src/store/blog.js:88 | `message \|\| fallback`: the message when it is a non-empty string, else the fallback |
| Js.TrimStart | frontend/src/store/blog.js:22 | drops leading white space only: a suffix of the input that does not start with white space |
| Js.DigitPrefix | frontend/src/store/blog.js:22 | the longest prefix made of digits of the radix |
| Js.DecimalValue | frontend/src/store/blog.js:22 | the digits of `String(n)` have the value `n` |
| Js.ParseIntToString | frontend/src/store/blog.js:22 | `parseInt(String(n))` is `n` for every integer, negative ones included |
| CommonUtils.GetPostById | frontend/src/utils/common.js:140-142 | none exactly when no post's id equals `parseInt(id)`; otherwise the first such post |
| CommonUtils.GetPostByRenderedId | frontend/src/utils/common.js:140-142 | looking up the rendering of `n` finds a post exactly when one has id `n`, and it has that id |
| CommonUtils.FindIndexBy | frontend/src/utils/common.js:153 | `findIndex`: the first index with the key, or -1 exactly when none has it |
| CommonUtils.KeepFirstBySpec | frontend/src/utils/common.js:152-154 | the first-occurrence filter keeps distinct keys. The first element of every key is kept, and each kept element is the first of its key |
| CommonUtils.SetOrder | frontend/src/utils/common.js:146 | spreading a `Set`: every element present, nothing else, no duplicates |
| CommonUtils.GetCategories | frontend/src/utils/common.js:145-147 | every post's category is listed, nothing else, and no category twice |
| CommonUtils.PostCategories | frontend/src/utils/common.js:146 | `map(post => post.category)`: the categories in post order |
| CommonUtils.SetOrderIsFirstOccurrences | frontend/src/utils/common.js:146 | a `Set` iterates in first-insertion order: the spread equals the first-occurrence filter |
| CommonUtils.GetCategoriesOrder | frontend/src/utils/common.js:146 | the categories come in the order of their first occurrence |
| CommonUtils.AllTagsContains | frontend/src/utils/common.js:151 | every tag of every post appears in the flattened list |
| CommonUtils.AllTagsSkipsUntagged | frontend/src/utils/common.js:151 | a post without tags adds nothing to the flattened list |
| CommonUtils.GetTagsSpec | frontend/src/utils/common.js:150-155 | no two tags share an id. For every tag of every post, the first tag with its id is in the list, and the list holds nothing else |
| BlogStore.FilteredIsOneFilter | frontend/src/store/blog.js:39-64 | the chain of filters is one filter by `Keeps`, so the published posts that pass every active criterion stay in their original order |
| BlogStore.FilteredMembership | frontend/src/store/blog.js:39-64 | a post is in `filteredPosts` exactly when it is loaded and published, matches the query in title, excerpt or content when the query is non-empty, has the selected category when that is truthy, and has the selected tag when that is truthy |
| BlogStore.SearchStageIsFilter | frontend/src/store/blog.js:42-49 | the search step keeps exactly the posts matching a non-empty query, and an empty query keeps all |
| BlogStore.CategoryStageIsFilter | frontend/src/store/blog.js:51-55 | the category step keeps exactly the posts of a truthy category, and a falsy one keeps all |
| BlogStore.TagStageIsFilter | frontend/src/store/blog.js:57-61 | the tag step keeps exactly the posts having a truthy tag, and a falsy one keeps all |
| BlogStore.NoCriteria | frontend/src/store/blog.js:40 | without criteria, `filteredPosts` is the published posts |
| BlogStore.PaginatedWindow | frontend/src/store/blog.js:66-70 | from page 1 on, a page is the window at `(page - 1) * size`, clipped to the list, at most `size` long |
| BlogStore.TotalPagesSpec | frontend/src/store/blog.js:72-74 | `totalPages * pageSize` covers the list, and the pages 1 to `totalPages` are exactly the non-empty ones |
| BlogStore.FeaturedAreTop | frontend/src/store/blog.js:25-30 | `featuredPosts` are five published posts (all if fewer), most viewed first. None of the published posts left out has more views than a chosen one |
| BlogStore.RecentAreNewest | frontend/src/store/blog.js:32-37 | `recentPosts` are the five newest published posts in the same sense |
| BlogStore.RankingPrefix | frontend/src/store/blog.js:29 | the first `n` of a sorted list are sorted, come from the list, and rank at least as high as every element left out |
| BlogStore.WithoutId | frontend/src/store/blog.js:173 | exactly the posts whose id is not the target, each of them kept |
| BlogStore.IndexOfId | frontend/src/store/blog.js:152 | `findIndex` by id: the first match, or -1 exactly when none |
| BlogStore.DeleteRemovesId | frontend/src/store/blog.js:173 | deleting by the rendering of an id removes every post with that id and keeps the others in order |
| BlogStore.BlogStore.constructor | frontend/src/store/blog.js:5-18 | the initial state |
| BlogStore.BlogStore.GetPostById | frontend/src/store/blog.js:21-23 | none exactly when no loaded post has id `parseInt(id)`; otherwise the first loaded post with that id |
| BlogStore.BlogStore.SetSearchParams | frontend/src/store/blog.js:223-229 | each supplied field is set and the others stay; the page is reset to 1 unless given |
| BlogStore.BlogStore.ResetSearchParams | frontend/src/store/blog.js:231-236 | empty query, no category or tag, page 1, so `filteredPosts` becomes the published posts |
| BlogStore.BlogStore.FetchPosts | frontend/src/store/blog.js:78-92 | the answer replaces the list and is counted; a failure keeps the list and records the message or the fallback |
| BlogStore.BlogStore.FetchPostById | frontend/src/store/blog.js:94-109 | the answer becomes the current post and is returned; a failure returns nothing and records the error |
| BlogStore.BlogStore.FetchCategories | frontend/src/store/blog.js:111-118 | replaced on success, kept on failure |
| BlogStore.BlogStore.FetchTags | frontend/src/store/blog.js:120-127 | replaced on success, kept on failure |
| BlogStore.BlogStore.CreatePost | frontend/src/store/blog.js:129-144 | the created post is appended; a failure changes the list not at all |
| BlogStore.BlogStore.UpdatePost | frontend/src/store/blog.js:146-165 | the first post with id `parseInt(id)` is replaced by the answer (none replaced when none matches), and the answer becomes the current post |
| BlogStore.BlogStore.DeletePost | frontend/src/store/blog.js:167-182 | every post with that id leaves the list and the others keep their order; a failure keeps the list |
| BlogStore.BlogStore.LikePost | frontend/src/store/blog.js:184-202 | the new count goes to the first post with the id and to the current post when it has the id |
| BlogStore.BlogStore.AddComment | frontend/src/store/blog.js:204-221 | the comment is appended to the current post's comments (started when missing) when that post has the id |
| UserStore.AuthorizationHeader | frontend/src/store/user.js:23 | the header the store sets yields the token back through the backend filter's extraction |
| UserStore.InitialToken | frontend/src/store/user.js:6 | a token exactly when a non-empty one is stored |
| UserStore.InitialUserInfo | frontend/src/store/user.js:7 | a missing entry is no user; otherwise whatever parsing the stored JSON gives |
| UserStore.TokenSurvivesReload | frontend/src/store/user.js:20-24 | after `setToken(t)`, a reload restores `t` unless it is empty |
| UserStore.UserInfoSurvivesReload | frontend/src/store/user.js:26-29 | after `setUserInfo(u)`, a reload restores `u` when JSON round-trips it |
| UserStore.LogoutSurvivesReload | frontend/src/store/user.js:79-85 | after `logout()`, a reload restores no session |
| UserStore.ChangePassword | frontend/src/store/user.js:100-110 | success exactly when the request succeeds; otherwise the message or the fallback |
| UserStore.UserStore.constructor | frontend/src/store/user.js:5-8 | the state read back from storage; the header is not restored |
| UserStore.UserStore.IsLoggedIn | frontend/src/store/user.js:11 | `!!state.token`: true exactly when a non-empty token is held |
| UserStore.UserStore.IsAdmin | frontend/src/store/user.js:12 | true exactly when there is a user whose role is `ADMIN` |
| UserStore.UserStore.UserFullName | frontend/src/store/user.js:13-16 | empty without a user; otherwise the rendered first name, one space, then the rendered last name |
| UserStore.UserStore.SetToken | frontend/src/store/user.js:20-24 | token, stored copy and header set together, keeping the session `Synced`; the header yields the token back |
| UserStore.UserStore.SetUserInfo | frontend/src/store/user.js:26-29 | the user and its JSON copy |
| UserStore.UserStore.Logout | frontend/src/store/user.js:79-85 | no token, no user, neither stored, no header, so logged out and not admin |
| UserStore.UserStore.SignIn | frontend/src/store/user.js:31-59 | a successful answer sets token and user with their copies; a failure changes nothing and reports the message or the fallback |
| UserStore.UserStore.Login | frontend/src/store/user.js:31-44 | `SignIn` with the login fallback message |
| UserStore.UserStore.Register | frontend/src/store/user.js:46-59 | `SignIn` with the registration fallback message |
| UserStore.UserStore.FetchUserInfo | frontend/src/store/user.js:61-77 | without a token nothing happens and nothing is returned. Otherwise the answer becomes the user, a 401 logs out, and any other failure changes nothing |
| UserStore.UserStore.UpdateProfile | frontend/src/store/user.js:87-98 | the answer becomes the user and its copy; a failure changes nothing |

## Left out

- Java's `String.toLowerCase` and JavaScript's `toLowerCase` are modelled on ASCII letters only (`Text.ToLower`). Unicode case mapping and locales are not modelled.
- `Text.Like` has no escape character. The JPQL search treats `%` and `_` in a query as wildcards, and `PostRepository.SearchIsSubstring` states substring search only for queries free of them.
- DTO mapping to `PostDto`/`PostSummaryDto`/`CommentDto`/`TagDto`: the services return the stored objects, or row values for the listings. Of the mappings, only `mapToCategoryDto` and `mapToUserDto` are modelled.
- `deletePost`, `getPostsByAuthor`, `getPostsByCategory` and `searchPosts` of `PostServiceImpl` are not separate members. Their selections are `PostRepository.FindByAuthorAndPublishedTrue`, `FindByCategoryAndPublishedTrue` and `SearchPosts`, paged as in `Paging.SpringPage`. The author/category lookup before them and `deletePost` follow the same lookup-or-not-found pattern as the modelled methods.
- `getAllTags` and `getTagsByNames` of `TagServiceImpl`, `getAllUsers`, `createUser`, `existsByUsername` and `existsByEmail` of `UserServiceImpl`, and the unpaged `getCommentsByPostId`: plain repository pass-throughs.
- `AuthController.authenticateUser`: login goes through Spring Security's `AuthenticationManager`, a foreign component.
- Password encoding, `UserDetailsService` loading, and jjwt parsing and signing are function parameters. Token strings are opaque, and which exception jjwt raises for a given token is an input (`ParseOutcome`). jjwt writes `iat` and `exp` in whole seconds and its parser itself throws `ExpiredJwtException` once the current time is past `exp`, so the real acceptance window of `GeneratedTokenValid` ends at the last whole second not after `issued + jwtExpiration`, and after it `validateToken` throws instead of returning false; the model keeps millisecond instants and leaves that exception to the parser input.
- PostService.TagPageSpec: `start = page * size` and `start + size` are unbounded integers here. The source computes them in 32-bit `int` (`PostServiceImpl.java` lines 152-153), so for `page * size >= 2^31` they wrap. With `page = size = 65536` the source's start is 0 and it returns the first posts with `last` set. With `page = size = 46341` the start is negative and `subList` throws. In both cases the model returns an empty last page.
- PostService.TagPageIsSpringPage: holds for the unbounded arithmetic only. Spring Data's offset is a `long`, so at the wrapping inputs above the source's hand-made page and Spring's page differ.
- PostService.Ordered: sorts by an integer-valued key the caller supplies. `sortBy` is a free request string, so sorting on a string column such as `title` (lexicographic order), and Spring Data's failure on an unknown property, are not modelled. `PostService.GetAllPostsSpec` inherits this.
- Errors.Exception.Message: the text of `ResourceNotFoundException` (`"<resource> not found with <field> : '<value>'"`) is assumed. That exception class is not part of this model.
- Counters and ids are unbounded integers. Java's 32-bit `int` wrap-around of `views`/`likes`, the `long` addition `now + jwtExpiration`, and the `(int)` casts of page counts beyond `Integer.MAX_VALUE` (other than the size-zero case) are not modelled.
- JPA cascades, orphan removal, foreign-key constraints (deleting a category, tag or user that is still referenced), flush order and `HashSet` iteration order are not modelled. Iteration order is an arbitrary choice of `Store.Pick`, and `getPostsByTag`'s order is that choice.
- `@Transactional` methods are modelled as changing nothing when they fail. `PostService.PostServiceImpl.UpdatePost` therefore checks the category before applying the setters. The source runs the setters first and relies on the rollback.
- `Entities.Tag.constructor` gives a new tag an empty post set. `Tag.builder()` leaves that field null, but no modelled operation reads the set of a tag created in the same request.
- Time: `createdAt` is an integer the caller passes (`now`). The frontend's `new Date(createdAt)` comparison is modelled as comparing those integers.
- `Seqs.SortDesc` is a stable insertion sort, and stability is not stated as a property. The featured/recent lemmas state ranking, not tie order.
- Asynchrony in the stores: each action takes the settled answer of its request. The intermediate `loading = true` state is written but observed by nothing. A request that throws without a response is an `Err` with no status.
- `BlogStore.BlogStore.LikePost` and `AddComment` model posts as values. In JavaScript, `currentPost` and an element of `posts` may be the same object, so appending a comment to one shows in the other. The value model does not capture that sharing.
- `BlogStore.MatchesQuery` assumes `title`, `excerpt` and `content` are strings. In the source, a post without them makes `toLowerCase()` throw.
- The frontend's truthiness is modelled for the value kinds the state holds (strings and numbers, or null). Other JSON values are not.
- `UserStore.UserStore.constructor` requires the stored `userInfo` JSON to parse. A malformed entry makes the store's `state()` throw in the source.
- The restored session does not set the `Authorization` header, which is faithful to `user.js`. Whether another file re-establishes it is outside this model (`App.vue` is not part of it).
- `JSON.parse`/`JSON.stringify` are parameters, and `UserStore.UserInfoSurvivesReload` assumes they round-trip.
- `performanceMonitor.js`, the router, `main.js`, the controllers and `JwtAuthenticationEntryPoint`: configuration, HTTP binding and timing code outside the core.

## Findings

| source | as written | input that shows it | evidently intended | confidence | as-written member | corrected member |
|---|---|---|---|---|---|---|
| backend/src/main/java/com/zxyspace/service/impl/PostServiceImpl.java:233-249 | `Post.builder()` ignores the field initialiser `tags = new HashSet<>()` (`Post.java` line 63) because `Post.java` has `@Builder` without `@Builder.Default`, so the built post's `tags` is null: `post.addTag(tag)` throws a `NullPointerException` for the first resolved tag, and with no resolved tag `save` returns the same post and `mapToPostDto` (line 359, `post.getTags().stream()`) throws one instead, so every call rolls back | any `createPost` call whose author and category exist, with or without `tagIds` | the post starts with an empty tag set, ends with exactly the resolved tags and is returned as a DTO | not executed | PostService.CreatePostAsWrittenFails | PostService.CreatePostFromEmptySucceeds |
