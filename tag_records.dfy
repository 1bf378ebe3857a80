/** The tags and tag_categories tables (backend/app/models/tag.py and
    tag_category.py).  The video_tag association table is the links set of
    Records.Catalog. */
module TagRecords {
  import opened Common

  datatype Tag = Tag(id: int, name: string, categoryId: Option<int>, createdAt: int, updatedAt: int)

  datatype Category = Category(
    id: int,
    name: string,
    color: string,
    sortOrder: int,
    description: Option<string>,
    createdAt: int,
    updatedAt: int)

  /** Positive ids in insertion order and a unique name column. */
  predicate TagsValid(ts: seq<Tag>)
  {
    && (forall i, j :: 0 <= i < j < |ts| ==> ts[i].id < ts[j].id && ts[i].name != ts[j].name)
    && (forall i :: 0 <= i < |ts| ==> ts[i].id > 0)
  }

  predicate CategoriesValid(cs: seq<Category>)
  {
    && (forall i, j :: 0 <= i < j < |cs| ==> cs[i].id < cs[j].id && cs[i].name != cs[j].name)
    && (forall i :: 0 <= i < |cs| ==> cs[i].id > 0)
  }

  function TagWithId(ts: seq<Tag>, id: int): int { IndexWhere(ts, (t: Tag) => t.id == id) }
  function TagNamed(ts: seq<Tag>, name: string): int { IndexWhere(ts, (t: Tag) => t.name == name) }
  function CategoryWithId(cs: seq<Category>, id: int): int { IndexWhere(cs, (c: Category) => c.id == id) }
  function CategoryNamed(cs: seq<Category>, name: string): int { IndexWhere(cs, (c: Category) => c.name == name) }

  function NextTagId(ts: seq<Tag>): (id: int)
    ensures TagsValid(ts) ==> id > 0 && forall i :: 0 <= i < |ts| ==> ts[i].id < id
  {
    if |ts| == 0 then 1 else ts[|ts| - 1].id + 1
  }

  function NextCategoryId(cs: seq<Category>): (id: int)
    ensures CategoriesValid(cs) ==> id > 0 && forall i :: 0 <= i < |cs| ==> cs[i].id < id
  {
    if |cs| == 0 then 1 else cs[|cs| - 1].id + 1
  }

  class TagTables {
    var tags: seq<Tag>
    var categories: seq<Category>

    ghost predicate Valid()
      reads this
    {
      TagsValid(tags) && CategoriesValid(categories)
    }

    constructor ()
      ensures Valid() && tags == [] && categories == []
    {
      tags := [];
      categories := [];
    }
  }
}
