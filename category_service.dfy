/**
 * `CategoryServiceImpl`: lookups and the name-guarded writes on the
 * `categories` table. Names are compared with exact, case-sensitive
 * equality; a failed write changes nothing.
 */
module CategoryService {
  import opened Wrappers
  import opened Errors
  import opened Entities
  import opened Store

  datatype CategoryDto = CategoryDto(id: Id, name: string, description: Option<string>)

  /** `mapToCategoryDto` for the category stored under `id`. */
  function ToDto(id: Id, c: Category): (d: CategoryDto)
    ensures d.id == id && Category(d.name, d.description) == c
  {
    CategoryDto(id, c.name, c.description)
  }

  /** The exception a duplicate name raises. */
  function DuplicateCategory(name: string): Exception {
    IllegalArgument("Category with name '" + name + "' already exists")
  }

  /** The categories table mapped to DTOs under the same ids. */
  function DtoTable(cats: map<Id, Category>): (dtos: map<Id, CategoryDto>)
    ensures dtos.Keys == cats.Keys
    ensures forall id | id in cats :: dtos[id] == ToDto(id, cats[id])
  {
    map id | id in cats :: ToDto(id, cats[id])
  }

  /** A listing of the DTO table with each entry once is a listing of every category once. */
  lemma DtoListing(cats: map<Id, Category>, r: seq<CategoryDto>)
    requires |r| == |cats|
    requires forall id | id in cats :: DtoTable(cats)[id] in r
    requires forall i | 0 <= i < |r| :: r[i] in Stored(DtoTable(cats))
    ensures forall i :: 0 <= i < |r| ==> r[i].id in cats && r[i] == ToDto(r[i].id, cats[r[i].id])
    ensures forall id :: id in cats ==> exists i :: 0 <= i < |r| && r[i].id == id
  {
    var dtos := DtoTable(cats);
    forall i | 0 <= i < |r| ensures r[i].id in cats && r[i] == ToDto(r[i].id, cats[r[i].id]) {
      var k :| k in dtos && dtos[k] == r[i];
    }
    forall id | id in cats ensures exists i :: 0 <= i < |r| && r[i].id == id {
      var i :| 0 <= i < |r| && r[i] == dtos[id];
    }
  }

  class CategoryServiceImpl {
    const db: Database

    constructor (db: Database)
      ensures this.db == db
    {
      this.db := db;
    }

    method GetCategoryById(id: Id) returns (r: Result<CategoryDto, Exception>)
      ensures id in db.categories ==> r.Success? && r.value.id == id && Category(r.value.name, r.value.description) == db.categories[id]
      ensures id !in db.categories ==> r == Failure(NotFoundById("Category", id))
    {
      if id in db.categories {
        r := Success(ToDto(id, db.categories[id]));
      } else {
        r := Failure(NotFoundById("Category", id));
      }
    }

    method GetCategoryByName(name: string) returns (r: Result<CategoryDto, Exception>)
      ensures r.Failure? <==> !db.CategoryExistsByName(name)
      ensures r.Failure? ==> r.error == ResourceNotFound("Category", "name", name)
      ensures r.Success? ==> r.value.name == name && r.value.id in db.categories && db.categories[r.value.id] == Category(name, r.value.description)
    {
      if db.CategoryExistsByName(name) {
        var id := FindByName(name);
        r := Success(ToDto(id, db.categories[id]));
      } else {
        r := Failure(ResourceNotFound("Category", "name", name));
      }
    }

    /** The id of a category with the given name. */
    method FindByName(name: string) returns (id: Id)
      requires db.CategoryExistsByName(name)
      ensures id in db.categories && db.categories[id].name == name
    {
      id :| id in db.categories && db.categories[id].name == name;
    }

    /** `findAll()` mapped to DTOs: every stored category exactly once. */
    method GetAllCategories() returns (r: seq<CategoryDto>)
      ensures |r| == |db.categories|
      ensures forall i :: 0 <= i < |r| ==> r[i].id in db.categories && r[i] == ToDto(r[i].id, db.categories[r[i].id])
      ensures forall i, j :: 0 <= i < j < |r| ==> r[i].id != r[j].id
      ensures forall id :: id in db.categories ==> exists i :: 0 <= i < |r| && r[i].id == id
    {
      var dtos := DtoTable(db.categories);
      ghost var keys;
      r, keys := AllValues(dtos);
      assert forall i :: 0 <= i < |r| ==> r[i].id == keys[i];
      DtoListing(db.categories, r);
    }

    method CreateCategory(name: string, description: Option<string>) returns (r: Result<CategoryDto, Exception>)
      requires db.Valid()
      modifies db
      ensures db.Valid()
      ensures db.users == old(db.users) && db.tags == old(db.tags) && db.posts == old(db.posts) && db.comments == old(db.comments)
      ensures old(db.CategoryExistsByName(name)) ==>
        r == Failure(DuplicateCategory(name)) && db.categories == old(db.categories) && db.nextId == old(db.nextId)
      ensures !old(db.CategoryExistsByName(name)) ==>
        && r == Success(CategoryDto(old(db.nextId), name, description))
        && old(db.nextId) !in old(db.categories)
        && db.categories == old(db.categories)[old(db.nextId) := Category(name, description)]
        && db.CategoryExistsByName(name)
    {
      if db.CategoryExistsByName(name) {
        return Failure(DuplicateCategory(name));
      }
      var id := db.NextId();
      db.categories := db.categories[id := Category(name, description)];
      r := Success(CategoryDto(id, name, description));
      assert db.categories[id].name == name;
    }

    method UpdateCategory(id: Id, name: string, description: Option<string>) returns (r: Result<CategoryDto, Exception>)
      requires db.Valid()
      modifies db
      ensures db.Valid()
      ensures db.users == old(db.users) && db.tags == old(db.tags) && db.posts == old(db.posts)
      ensures db.comments == old(db.comments) && db.nextId == old(db.nextId)
      ensures id !in old(db.categories) ==> r == Failure(NotFoundById("Category", id)) && db.categories == old(db.categories)
      ensures id in old(db.categories) && old(db.categories[id].name) != name && old(db.CategoryExistsByName(name)) ==>
        r == Failure(DuplicateCategory(name)) && db.categories == old(db.categories)
      ensures id in old(db.categories) && (old(db.categories[id].name) == name || !old(db.CategoryExistsByName(name))) ==>
        r == Success(CategoryDto(id, name, description)) && db.categories == old(db.categories)[id := Category(name, description)]
    {
      if id !in db.categories {
        return Failure(NotFoundById("Category", id));
      }
      var category := db.categories[id];
      if category.name != name && db.CategoryExistsByName(name) {
        return Failure(DuplicateCategory(name));
      }
      db.categories := db.categories[id := Category(name, description)];
      r := Success(CategoryDto(id, name, description));
    }

    method DeleteCategory(id: Id) returns (r: Result<(), Exception>)
      requires db.Valid()
      modifies db
      ensures db.Valid()
      ensures db.users == old(db.users) && db.tags == old(db.tags) && db.posts == old(db.posts)
      ensures db.comments == old(db.comments) && db.nextId == old(db.nextId)
      ensures id !in old(db.categories) ==> r == Failure(NotFoundById("Category", id)) && db.categories == old(db.categories)
      ensures id in old(db.categories) ==> r == Success(()) && db.categories == old(db.categories) - {id}
    {
      if id !in db.categories {
        return Failure(NotFoundById("Category", id));
      }
      db.categories := db.categories - {id};
      r := Success(());
    }

    /** `existsByName`: some stored category carries exactly this name. */
    method ExistsByName(name: string) returns (b: bool)
      ensures b <==> exists id :: id in db.categories && db.categories[id].name == name
    {
      b := db.CategoryExistsByName(name);
    }
  }
}
