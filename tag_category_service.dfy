/** Tag categories (backend/app/services/tag_category_service.py): the
    ordered listing with tag counts, create and partial update under the
    unique-name rule, and delete, which first un-categorises the tags. */
module TagCategoryService {
  import opened Common
  import opened TagRecords
  import opened TagService

  const DefaultColor: string := "#409EFF"

  /** get_all_categories: every category in (sort_order, name) order with
      the number of tags that name it. */
  method AllCategories(tt: TagTables) returns (r: seq<(Category, nat)>)
    ensures multiset(Firsts(r)) == multiset(tt.categories)
    ensures forall i, j :: 0 <= i < j < |r| ==> CategoryLe(r[i].0, r[j].0)
    ensures forall k :: 0 <= k < |r| ==> r[k].1 == |TagsInCategory(tt.tags, Some(r[k].0.id))|
  {
    var cats := SortedCategories(tt.categories);
    SortedCategoriesOrdered(tt.categories);
    r := [];
    var k := 0;
    while k < |cats|
      invariant 0 <= k <= |cats| && |r| == k
      invariant Firsts(r) == cats[..k]
      invariant forall j :: 0 <= j < k ==> r[j].1 == |TagsInCategory(tt.tags, Some(r[j].0.id))|
    {
      r := r + [(cats[k], |TagsInCategory(tt.tags, Some(cats[k].id))|)];
      assert cats[..k + 1] == cats[..k] + [cats[k]];
      k := k + 1;
    }
    assert cats[..k] == cats;
  }

  function Firsts(r: seq<(Category, nat)>): (cs: seq<Category>)
    ensures |cs| == |r| && forall k :: 0 <= k < |r| ==> cs[k] == r[k].0
  {
    if |r| == 0 then [] else Firsts(r[..|r| - 1]) + [r[|r| - 1].0]
  }

  // ---------------------------------------------------------------- create

  datatype CategoryCreate = CategoryExists | Created(category: Category)

  /** The row create_category inserts: a falsy color becomes the default
      blue, a missing sort order 0. */
  function NewCategory(id: int, name: string, color: Option<string>, sortOrder: Option<int>,
                       description: Option<string>, now: int): (c: Category)
    ensures c.id == id && c.name == name && c.description == description
    ensures c.color == (if color.Some? && color.value != "" then color.value else DefaultColor)
    ensures c.sortOrder == (if sortOrder.Some? then sortOrder.value else 0)
    ensures c.createdAt == now && c.updatedAt == now
  {
    Category(id, name,
             if color.Some? && color.value != "" then color.value else DefaultColor,
             if sortOrder.Some? && sortOrder.value != 0 then sortOrder.value else 0,
             description, now, now)
  }

  /** create_category: refused when the name is taken; otherwise inserted
      with the next id. */
  method CreateCategory(tt: TagTables, name: string, color: Option<string>, sortOrder: Option<int>,
                        description: Option<string>, now: int)
    returns (r: CategoryCreate)
    requires tt.Valid()
    modifies tt
    ensures tt.Valid() && tt.tags == old(tt.tags)
    ensures r == CategoryExists <==> CategoryNamed(old(tt.categories), name) != -1
    ensures r == CategoryExists ==> tt.categories == old(tt.categories)
    ensures r.Created? ==>
      && r.category == NewCategory(NextCategoryId(old(tt.categories)), name, color, sortOrder, description, now)
      && tt.categories == old(tt.categories) + [r.category]
  {
    if CategoryNamed(tt.categories, name) != -1 {
      return CategoryExists;
    }
    var c := NewCategory(NextCategoryId(tt.categories), name, color, sortOrder, description, now);
    tt.categories := tt.categories + [c];
    r := Created(c);
  }

  // ---------------------------------------------------------------- update

  datatype CategoryUpdate = NoSuchCategory | CategoryNameTaken | Changed(category: Category)

  /** The fields update_category writes: each given one, and updated_at. */
  function Patched(c: Category, name: Option<string>, color: Option<string>, sortOrder: Option<int>,
                   description: Option<string>, now: int): (p: Category)
    ensures p.id == c.id && p.createdAt == c.createdAt && p.updatedAt == now
    ensures p.name == (if name.Some? then name.value else c.name)
    ensures p.color == (if color.Some? then color.value else c.color)
    ensures p.sortOrder == (if sortOrder.Some? then sortOrder.value else c.sortOrder)
    ensures p.description == (if description.Some? then description else c.description)
  {
    var c1 := if name.Some? then c.(name := name.value) else c;
    var c2 := if color.Some? then c1.(color := color.value) else c1;
    var c3 := if sortOrder.Some? then c2.(sortOrder := sortOrder.value) else c2;
    var c4 := if description.Some? then c3.(description := description) else c3;
    c4.(updatedAt := now)
  }

  /** Applying the same patch twice is applying it once (but for the time). */
  lemma PatchedIdempotent(c: Category, name: Option<string>, color: Option<string>, sortOrder: Option<int>,
                          description: Option<string>, now: int, later: int)
    ensures Patched(Patched(c, name, color, sortOrder, description, now), name, color, sortOrder, description, later)
         == Patched(c, name, color, sortOrder, description, later)
  {
  }

  /** A field of a JSON request body: left out, sent as null, or sent with
      a value. */
  datatype Field<T> = Absent | Null | Given(value: T)

  /** The arguments the service receives from a TagCategoryUpdate body. */
  datatype UpdateArgs = UpdateArgs(name: Option<string>, color: Option<string>, sortOrder: Option<int>,
                                   description: Option<string>)

  function Read<T>(f: Field<T>): Option<T> { if f.Given? then Some(f.value) else None }

  /** TagCategoryUpdate as written: it makes the name optional but inherits
      the defaults of TagCategoryBase, so a colour or sort order left out
      reads as '#409EFF' or 0 rather than as None. */
  function UpdateArgsAsWritten(name: Field<string>, color: Field<string>, sortOrder: Field<int>,
                               description: Field<string>): (a: UpdateArgs)
    ensures a.name == Read(name) && a.description == Read(description)
    ensures color.Absent? ==> a.color == Some(DefaultColor)
    ensures sortOrder.Absent? ==> a.sortOrder == Some(0)
    ensures !color.Absent? ==> a.color == Read(color)
    ensures !sortOrder.Absent? ==> a.sortOrder == Read(sortOrder)
  {
    UpdateArgs(Read(name), if color.Absent? then Some(DefaultColor) else Read(color),
               if sortOrder.Absent? then Some(0) else Read(sortOrder), Read(description))
  }

  /** A body with only a name resets the colour and the sort order. */
  lemma NameOnlyUpdateResets(c: Category, n: string, now: int)
    ensures var a := UpdateArgsAsWritten(Given(n), Absent, Absent, Absent);
      var p := Patched(c, a.name, a.color, a.sortOrder, a.description, now);
      p.name == n && p.color == DefaultColor && p.sortOrder == 0
  {
  }

  /** The partial update intended: a field left out is None, so the service
      leaves its column alone. */
  function UpdateArgsIntended(name: Field<string>, color: Field<string>, sortOrder: Field<int>,
                              description: Field<string>): (a: UpdateArgs)
    ensures a.name.Some? <==> name.Given?
    ensures a.color.Some? <==> color.Given?
    ensures a.sortOrder.Some? <==> sortOrder.Given?
    ensures a.description.Some? <==> description.Given?
  {
    UpdateArgs(Read(name), Read(color), Read(sortOrder), Read(description))
  }

  /** With the intended reading, every column whose field is left out keeps
      its value, and every given field is written. */
  lemma AbsentFieldsKept(c: Category, name: Field<string>, color: Field<string>, sortOrder: Field<int>,
                         description: Field<string>, now: int)
    ensures var a := UpdateArgsIntended(name, color, sortOrder, description);
      var p := Patched(c, a.name, a.color, a.sortOrder, a.description, now);
      && (name.Given? ==> p.name == name.value) && (!name.Given? ==> p.name == c.name)
      && (color.Given? ==> p.color == color.value) && (!color.Given? ==> p.color == c.color)
      && (sortOrder.Given? ==> p.sortOrder == sortOrder.value) && (!sortOrder.Given? ==> p.sortOrder == c.sortOrder)
      && (!description.Given? ==> p.description == c.description)
  {
  }

  /** update_category: None for an unknown id; refused only when the new
      name belongs to a different category. */
  method UpdateCategory(tt: TagTables, id: int, name: Option<string>, color: Option<string>,
                        sortOrder: Option<int>, description: Option<string>, now: int)
    returns (r: CategoryUpdate)
    requires tt.Valid()
    modifies tt
    ensures tt.Valid() && tt.tags == old(tt.tags)
    ensures r == NoSuchCategory <==> CategoryWithId(old(tt.categories), id) == -1
    ensures CategoryWithId(old(tt.categories), id) != -1 ==>
      (r == CategoryNameTaken <==>
         (name.Some? && CategoryNamed(old(tt.categories), name.value) != -1
          && old(tt.categories)[CategoryNamed(old(tt.categories), name.value)].id != id))
    ensures r.Changed? ==> var i := CategoryWithId(old(tt.categories), id);
      && r.category == Patched(old(tt.categories)[i], name, color, sortOrder, description, now)
      && tt.categories == old(tt.categories)[i := r.category]
    ensures !r.Changed? ==> tt.categories == old(tt.categories)
  {
    var i := CategoryWithId(tt.categories, id);
    if i == -1 {
      return NoSuchCategory;
    }
    if name.Some? {
      var j := CategoryNamed(tt.categories, name.value);
      if j != -1 && tt.categories[j].id != id {
        return CategoryNameTaken;
      }
      assert forall k :: 0 <= k < |tt.categories| && k != i ==> tt.categories[k].name != name.value;
    }
    var c := Patched(tt.categories[i], name, color, sortOrder, description, now);
    tt.categories := tt.categories[i := c];
    r := Changed(c);
  }

  /** Keeping its own name is never a conflict. */
  lemma OwnNameAllowed(cs: seq<Category>, i: nat)
    requires CategoriesValid(cs) && i < |cs|
    ensures var j := CategoryNamed(cs, cs[i].name); j != -1 && cs[j].id == cs[i].id
  {
  }

  // ---------------------------------------------------------------- delete

  /** The bulk UPDATE: every tag of the category loses it (and its
      updated_at moves); the other tags stay as they are. */
  function Uncategorise(ts: seq<Tag>, id: int, now: int): (r: seq<Tag>)
    ensures |r| == |ts|
    ensures forall k :: 0 <= k < |r| ==> r[k].categoryId != Some(id)
    ensures forall k :: 0 <= k < |r| ==> r[k].id == ts[k].id && r[k].name == ts[k].name
    ensures forall k :: 0 <= k < |r| && ts[k].categoryId != Some(id) ==> r[k] == ts[k]
    ensures forall k :: 0 <= k < |r| && ts[k].categoryId == Some(id) ==> r[k].categoryId.None?
  {
    if |ts| == 0 then []
    else
      var t := ts[0];
      [if t.categoryId == Some(id) then t.(categoryId := None, updatedAt := now) else t]
        + Uncategorise(ts[1..], id, now)
  }

  /** delete_category: false for an unknown id; otherwise its tags become
      uncategorised and the row goes. */
  method DeleteCategory(tt: TagTables, id: int, now: int) returns (ok: bool)
    requires tt.Valid()
    modifies tt
    ensures tt.Valid()
    ensures ok <==> CategoryWithId(old(tt.categories), id) != -1
    ensures ok ==> tt.tags == Uncategorise(old(tt.tags), id, now)
                   && tt.categories == Records.RemoveAt(old(tt.categories), CategoryWithId(old(tt.categories), id))
    ensures !ok ==> tt.tags == old(tt.tags) && tt.categories == old(tt.categories)
  {
    var i := CategoryWithId(tt.categories, id);
    if i == -1 {
      return false;
    }
    var cs := Records.RemoveAt(tt.categories, i);
    forall a, b | 0 <= a < b < |cs| ensures cs[a].id < cs[b].id && cs[a].name != cs[b].name {
      var a' := if a < i then a else a + 1;
      var b' := if b < i then b else b + 1;
      assert cs[a] == tt.categories[a'] && cs[b] == tt.categories[b'] && a' < b';
    }
    var ts := Uncategorise(tt.tags, id, now);
    tt.tags := ts;
    tt.categories := cs;
    ok := true;
  }

  /** After the delete no tag names the category, and the uncategorised
      listing gained exactly its former tags. */
  lemma DeleteMovesTagsToUncategorised(ts: seq<Tag>, id: int, now: int)
    ensures TagsInCategory(Uncategorise(ts, id, now), Some(id)) == []
    ensures forall k :: 0 <= k < |ts| ==>
      (Uncategorise(ts, id, now)[k].categoryId.None? <==> ts[k].categoryId.None? || ts[k].categoryId == Some(id))
  {
  }
}
