/**
 * `TagServiceImpl`: lookups and the name-guarded writes on the `tags`
 * table. Tags are objects (their `posts` set is the inverse side of the
 * post-tag association), so a rename updates the stored object in place.
 */
module TagService {
  import opened Wrappers
  import opened Errors
  import opened Entities
  import opened Store

  datatype TagDto = TagDto(id: Id, name: string)

  /** The exception a duplicate name raises. */
  function DuplicateTag(name: string): Exception {
    IllegalArgument("Tag with name '" + name + "' already exists")
  }

  class TagServiceImpl {
    const db: Database

    constructor (db: Database)
      ensures this.db == db
    {
      this.db := db;
    }

    method GetTagById(id: Id) returns (r: Result<TagDto, Exception>)
      ensures id in db.tags ==> r == Success(TagDto(id, db.tags[id].name))
      ensures id !in db.tags ==> r == Failure(NotFoundById("Tag", id))
    {
      if id in db.tags {
        r := Success(TagDto(id, db.tags[id].name));
      } else {
        r := Failure(NotFoundById("Tag", id));
      }
    }

    method GetTagByName(name: string) returns (r: Result<TagDto, Exception>)
      ensures r.Failure? <==> !db.TagExistsByName(name)
      ensures r.Failure? ==> r.error == ResourceNotFound("Tag", "name", name)
      ensures r.Success? ==> r.value.name == name && r.value.id in db.tags && db.tags[r.value.id].name == name
    {
      if db.TagExistsByName(name) {
        var id := FindByName(name);
        r := Success(TagDto(id, name));
      } else {
        r := Failure(ResourceNotFound("Tag", "name", name));
      }
    }

    /** The id of a tag with the given name. */
    method FindByName(name: string) returns (id: Id)
      requires db.TagExistsByName(name)
      ensures id in db.tags && db.tags[id].name == name
    {
      id :| id in db.tags && db.tags[id].name == name;
    }

    /** `findByIdIn(ids)`: exactly the stored tags whose id was asked for; unknown ids are dropped. */
    method GetTagsByIds(ids: set<Id>) returns (r: set<TagDto>)
      ensures forall d :: d in r <==> d.id in ids && d.id in db.tags && d.name == db.tags[d.id].name
      ensures forall id :: id in ids && id !in db.tags ==> forall d :: d in r ==> d.id != id
    {
      r := set id | id in ids && id in db.tags :: TagDto(id, db.tags[id].name);
    }

    method CreateTag(name: string) returns (r: Result<TagDto, Exception>)
      requires db.Valid()
      modifies db
      ensures db.Valid()
      ensures db.users == old(db.users) && db.categories == old(db.categories)
      ensures db.posts == old(db.posts) && db.comments == old(db.comments)
      ensures old(db.TagExistsByName(name)) ==>
        r == Failure(DuplicateTag(name)) && db.tags == old(db.tags) && db.nextId == old(db.nextId)
      ensures !old(db.TagExistsByName(name)) ==>
        && r == Success(TagDto(old(db.nextId), name))
        && old(db.nextId) !in old(db.tags)
        && db.tags.Keys == old(db.tags.Keys) + {old(db.nextId)}
        && (forall id | id in old(db.tags) :: db.tags[id] == old(db.tags[id]))
        && fresh(db.tags[old(db.nextId)])
        && db.tags[old(db.nextId)].name == name && db.tags[old(db.nextId)].posts == {}
        && db.TagExistsByName(name)
    {
      if db.TagExistsByName(name) {
        return Failure(DuplicateTag(name));
      }
      var tag := new Tag(name);
      var id := db.SaveNewTag(tag);
      r := Success(TagDto(id, name));
      assert db.tags[id].name == name;
    }

    method UpdateTag(id: Id, name: string) returns (r: Result<TagDto, Exception>)
      requires db.Valid()
      modifies Stored(db.tags)`name
      ensures db.Valid()
      ensures id !in db.tags ==> r == Failure(NotFoundById("Tag", id))
      ensures id in db.tags && old(db.tags[id].name) != name && old(db.TagExistsByName(name)) ==>
        r == Failure(DuplicateTag(name)) && db.tags[id].name == old(db.tags[id].name)
      ensures id in db.tags && (old(db.tags[id].name) == name || !old(db.TagExistsByName(name))) ==>
        r == Success(TagDto(id, name)) && db.tags[id].name == name
      ensures forall k | k in db.tags && k != id :: db.tags[k].name == old(db.tags[k].name)
    {
      if id !in db.tags {
        return Failure(NotFoundById("Tag", id));
      }
      var tag := db.tags[id];
      if tag.name != name && db.TagExistsByName(name) {
        return Failure(DuplicateTag(name));
      }
      tag.name := name;
      r := Success(TagDto(id, name));
    }

    method DeleteTag(id: Id) returns (r: Result<(), Exception>)
      requires db.Valid()
      modifies db
      ensures db.Valid()
      ensures db.users == old(db.users) && db.categories == old(db.categories) && db.posts == old(db.posts)
      ensures db.comments == old(db.comments) && db.nextId == old(db.nextId)
      ensures id !in old(db.tags) ==> r == Failure(NotFoundById("Tag", id)) && db.tags == old(db.tags)
      ensures id in old(db.tags) ==> r == Success(()) && db.tags == old(db.tags) - {id}
    {
      if id !in db.tags {
        return Failure(NotFoundById("Tag", id));
      }
      db.tags := db.tags - {id};
      r := Success(());
    }

    /** `existsByName`: some stored tag carries exactly this name. */
    method ExistsByName(name: string) returns (b: bool)
      ensures b <==> exists id :: id in db.tags && db.tags[id].name == name
    {
      b := db.TagExistsByName(name);
    }
  }
}
