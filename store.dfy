/**
 * The persistent state behind the Spring Data repositories: one table per
 * entity, keyed by the generated id, and the id sequence.
 */
module Store {
  import opened Wrappers
  import opened Entities

  class Database {
    var users: map<Id, User>
    var categories: map<Id, Category>
    var tags: map<Id, Tag>
    var posts: map<Id, Post>
    var comments: map<Id, Comment>
    /** The next value of the identity sequence. */
    var nextId: Id

    /** An empty schema. */
    constructor ()
      ensures users == map[] && categories == map[] && tags == map[]
      ensures posts == map[] && comments == map[] && nextId == 1
      ensures Valid()
    {
      users, categories, tags, posts, comments := map[], map[], map[], map[], map[];
      nextId := 1;
    }

    /**
     * The store's invariant: every id was handed out by the sequence, the
     * `unique = true` name columns of `categories` and `tags` hold, and the
     * two sides of the post-tag association agree.
     */
    ghost predicate Valid()
      reads this, Stored(tags)`name, Stored(tags)`posts, Stored(posts)`tags
    {
      IdsIssued() && NamesUnique() && TagLinks(Stored(posts), Stored(tags))
    }

    /** Every id in every table was handed out by the sequence. */
    ghost predicate IdsIssued()
      reads this
    {
      && (forall id | id in users :: id < nextId)
      && (forall id | id in categories :: id < nextId)
      && (forall id | id in tags :: id < nextId)
      && (forall id | id in posts :: id < nextId)
      && (forall id | id in comments :: id < nextId)
    }

    /** The `unique = true` name columns of `categories` and `tags`. */
    ghost predicate NamesUnique()
      reads this`categories, this`tags, Stored(tags)`name
    {
      && (forall i, j | i in categories && j in categories && i != j :: categories[i].name != categories[j].name)
      && (forall i, j | i in tags && j in tags && i != j :: tags[i].name != tags[j].name)
    }

    /** `categoryRepository.existsByName(name)` */
    predicate CategoryExistsByName(name: string)
      reads this
    {
      exists id | id in categories :: categories[id].name == name
    }

    /** `tagRepository.existsByName(name)` */
    predicate TagExistsByName(name: string)
      reads this, Stored(tags)`name
    {
      exists id | id in tags :: tags[id].name == name
    }

    /** `userRepository.existsByUsername(username)` */
    predicate UsernameTaken(username: string)
      reads this
    {
      exists id | id in users :: users[id].username == username
    }

    /** `userRepository.existsByEmail(email)` */
    predicate EmailTaken(email: string)
      reads this
    {
      exists id | id in users :: users[id].email == email
    }

    /** `tagRepository.findByIdIn(ids)`: the stored tags among the given ids; unknown ids are dropped. */
    function TagsByIds(ids: set<Id>): (r: set<Tag>)
      reads this
      ensures forall id | id in ids && id in tags :: tags[id] in r
      ensures forall t | t in r :: exists id :: id in ids && id in tags && tags[id] == t
    {
      set id | id in ids && id in tags :: tags[id]
    }

    /** Every tag any stored post links to, stored or not. */
    ghost function LinkedTags(): set<Tag>
      reads this, Stored(posts)`tags
    {
      set p, t | p in Stored(posts) && t in p.tags :: t
    }

    /** The next id of the sequence is not yet used by any table. */
    lemma FreshId()
      requires Valid()
      ensures nextId !in users && nextId !in categories && nextId !in tags
      ensures nextId !in posts && nextId !in comments
    {
      assert IdsIssued();
      assert forall id | id in users :: id < nextId;
      assert forall id | id in categories :: id < nextId;
      assert forall id | id in tags :: id < nextId;
      assert forall id | id in posts :: id < nextId;
      assert forall id | id in comments :: id < nextId;
    }

    /** `tagRepository.save(tag)` for a new tag whose name is free: it takes the next id. */
    method SaveNewTag(tag: Tag) returns (id: Id)
      requires Valid() && tag.posts == {} && !TagExistsByName(tag.name)
      requires forall p | p in Stored(posts) :: tag !in p.tags
      modifies this`tags, this`nextId
      ensures Valid()
      ensures id == old(nextId) && id !in old(tags) && tags == old(tags)[id := tag]
    {
      FreshId();
      InsertStored(tags, nextId, tag);
      id := NextId();
      tags := tags[id := tag];
      assert IdsIssued() && NamesUnique();
    }

    /** `commentRepository.save(comment)` for a new comment: it takes the next id. */
    method SaveNewComment(c: Comment) returns (id: Id)
      requires Valid()
      modifies this`comments, this`nextId
      ensures Valid()
      ensures id == old(nextId) && id !in old(comments) && comments == old(comments)[id := c]
    {
      FreshId();
      id := NextId();
      comments := comments[id := c];
      assert IdsIssued();
    }

    /** The `post_id` column of the `comments` table: the post each stored comment points to. */
    function PostRefs(): (r: map<Id, Post?>)
      reads this, Stored(comments)`post
      ensures r.Keys == comments.Keys
      ensures forall k | k in comments :: r[k] == comments[k].post
    {
      map k | k in comments :: comments[k].post
    }

    /** Hands out the next id of the sequence. */
    method NextId() returns (id: Id)
      modifies this`nextId
      ensures id == old(nextId) && nextId == id + 1
    {
      id := nextId;
      nextId := nextId + 1;
    }
  }

  /**
   * `findAll()`: every value of a table exactly once, in the order the
   * database returns them (any order of the keys).
   */
  method AllValues<V>(table: map<Id, V>) returns (r: seq<V>, ghost keys: seq<Id>)
    ensures |r| == |keys| == |table|
    ensures forall i :: 0 <= i < |keys| ==> keys[i] in table && r[i] == table[keys[i]]
    ensures forall i, j :: 0 <= i < j < |keys| ==> keys[i] != keys[j]
    ensures forall id :: id in table ==> id in keys
    ensures forall k | k in table :: table[k] in r
    ensures forall i | 0 <= i < |r| :: r[i] in Stored(table)
  {
    r, keys := [], [];
    var remaining := table.Keys;
    while remaining != {}
      invariant remaining <= table.Keys
      invariant |r| == |keys|
      invariant forall i :: 0 <= i < |keys| ==> keys[i] in table && keys[i] !in remaining && r[i] == table[keys[i]]
      invariant forall i, j :: 0 <= i < j < |keys| ==> keys[i] != keys[j]
      invariant forall id :: id in table ==> id in keys || id in remaining
      invariant |keys| + |remaining| == |table|
      decreases |remaining|
    {
      var k := Pick(remaining);
      r, keys := r + [table[k]], keys + [k];
      remaining := remaining - {k};
    }
  }

  /** The objects a table holds. */
  function Stored<V>(table: map<Id, V>): (r: set<V>)
    ensures forall k | k in table :: table[k] in r
    ensures forall x | x in r :: exists k :: k in table && table[k] == x
  {
    set k | k in table :: table[k]
  }

  /** Inserting under a new key adds exactly the new value to what the table holds. */
  lemma InsertStored<V>(table: map<Id, V>, k: Id, v: V)
    requires k !in table
    ensures Stored(table[k := v]) == Stored(table) + {v}
  {
    forall x | x in Stored(table[k := v]) ensures x in Stored(table) + {v} {
      var j :| j in table[k := v] && table[k := v][j] == x;
      if j != k {
        assert table[j] == x;
      }
    }
    forall x | x in Stored(table) ensures x in Stored(table[k := v]) {
      var j :| j in table && table[j] == x;
      assert table[k := v][j] == x;
    }
    assert table[k := v][k] == v;
  }

  /** Some element of a non-empty set (the order a `HashSet` or a table scan yields is not specified). */
  method Pick<T>(s: set<T>) returns (x: T)
    requires s != {}
    ensures x in s
  {
    x :| x in s;
  }
}
