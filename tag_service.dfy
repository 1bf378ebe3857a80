/** Tag bookkeeping (backend/app/services/tag_service.py): get-or-create
    by name, rename, delete, category assignment, the grouped listing, and
    the video_tag links. */
module TagService {
  import opened Common
  import opened Records
  import opened TagRecords

  // ----------------------------------------------------------- counting

  /** The number of video_tag rows for the tag. */
  function LinkCount(links: set<(int, int)>, tagId: int): nat
  {
    |set l | l in links && l.1 == tagId|
  }

  /** Adding a link to a tag raises its count by one, unless it was there. */
  lemma LinkCountAdd(links: set<(int, int)>, videoId: int, tagId: int)
    ensures LinkCount(links + {(videoId, tagId)}, tagId)
         == LinkCount(links, tagId) + (if (videoId, tagId) in links then 0 else 1)
  {
    var before := set l | l in links && l.1 == tagId;
    var after := set l | l in links + {(videoId, tagId)} && l.1 == tagId;
    assert after == before + {(videoId, tagId)};
    if (videoId, tagId) !in links {
      assert (videoId, tagId) !in before;
    }
  }

  /** Removing a link lowers the count by one if it was there. */
  lemma LinkCountRemove(links: set<(int, int)>, videoId: int, tagId: int)
    ensures LinkCount(links - {(videoId, tagId)}, tagId)
         == LinkCount(links, tagId) - (if (videoId, tagId) in links then 1 else 0)
  {
    var before := set l | l in links && l.1 == tagId;
    var after := set l | l in links - {(videoId, tagId)} && l.1 == tagId;
    assert after == before - {(videoId, tagId)};
    if (videoId, tagId) in links {
      assert (videoId, tagId) in before;
    }
  }

  /** get_all_tags: every tag with its tags_count, in table order. */
  method TagsWithCounts(tt: TagTables, links: set<(int, int)>) returns (r: seq<(Tag, nat)>)
    ensures |r| == |tt.tags|
    ensures forall k :: 0 <= k < |r| ==> r[k] == (tt.tags[k], LinkCount(links, tt.tags[k].id))
  {
    r := [];
    var k := 0;
    while k < |tt.tags|
      invariant 0 <= k <= |tt.tags| && |r| == k
      invariant forall j :: 0 <= j < k ==> r[j] == (tt.tags[j], LinkCount(links, tt.tags[j].id))
    {
      r := r + [(tt.tags[k], LinkCount(links, tt.tags[k].id))];
      k := k + 1;
    }
  }

  // ------------------------------------------------------------ lookups

  /** In a valid table get_tag_by_name finds the one tag with that name. */
  lemma TagNamedIsUnique(ts: seq<Tag>, name: string)
    requires TagsValid(ts)
    ensures forall k :: 0 <= k < |ts| ==> (ts[k].name == name <==> k == TagNamed(ts, name))
  {
  }

  // ------------------------------------------------------- create/update

  /** create_tag: an existing tag of that name is returned unchanged;
      otherwise a new one is inserted with the next id. */
  method CreateTag(tt: TagTables, name: string, categoryId: Option<int>, now: int) returns (t: Tag)
    requires tt.Valid()
    modifies tt
    ensures tt.Valid() && tt.categories == old(tt.categories)
    ensures t.name == name
    ensures TagNamed(old(tt.tags), name) != -1 ==>
      t == old(tt.tags)[TagNamed(old(tt.tags), name)] && tt.tags == old(tt.tags)
    ensures TagNamed(old(tt.tags), name) == -1 ==>
      t == Tag(NextTagId(old(tt.tags)), name, categoryId, now, now) && tt.tags == old(tt.tags) + [t]
    // afterwards exactly one tag has the name, and it is the one returned
    ensures forall k :: 0 <= k < |tt.tags| ==> (tt.tags[k].name == name <==> tt.tags[k] == t)
  {
    var i := TagNamed(tt.tags, name);
    if i != -1 {
      t := tt.tags[i];
      return;
    }
    t := Tag(NextTagId(tt.tags), name, categoryId, now, now);
    tt.tags := tt.tags + [t];
  }

  datatype TagUpdate = NoSuchTag | NameTaken | Updated(tag: Tag)

  /** update_tag: None for an unknown id; a name another tag holds breaks
      the unique constraint at commit and nothing changes. */
  method UpdateTag(tt: TagTables, id: int, name: string, now: int) returns (r: TagUpdate)
    requires tt.Valid()
    modifies tt
    ensures tt.Valid() && tt.categories == old(tt.categories)
    ensures r == NoSuchTag <==> TagWithId(old(tt.tags), id) == -1
    ensures var i := TagWithId(old(tt.tags), id);
      i != -1 ==>
        && (r == NameTaken <==> exists k :: 0 <= k < |old(tt.tags)| && k != i && old(tt.tags)[k].name == name)
        && (r.Updated? ==> r.tag == old(tt.tags)[i].(name := name, updatedAt := now)
                           && tt.tags == old(tt.tags)[i := r.tag])
    ensures !r.Updated? ==> tt.tags == old(tt.tags)
  {
    var i := TagWithId(tt.tags, id);
    if i == -1 {
      return NoSuchTag;
    }
    if exists k :: 0 <= k < |tt.tags| && k != i && tt.tags[k].name == name {
      return NameTaken;
    }
    var t := tt.tags[i].(name := name, updatedAt := now);
    tt.tags := tt.tags[i := t];
    r := Updated(t);
  }

  /** delete_tag: removes the tag and, with it, its video_tag rows. */
  method DeleteTag(tt: TagTables, cat: Catalog, id: int) returns (ok: bool)
    requires tt.Valid()
    modifies tt, cat`links
    ensures tt.Valid() && tt.categories == old(tt.categories)
    ensures ok <==> TagWithId(old(tt.tags), id) != -1
    ensures ok ==> tt.tags == RemoveAt(old(tt.tags), TagWithId(old(tt.tags), id))
                   && cat.links == set l | l in old(cat.links) && l.1 != id
    ensures !ok ==> tt.tags == old(tt.tags) && cat.links == old(cat.links)
    // no tag with that id and no link to it remain
    ensures TagWithId(tt.tags, id) == -1 && forall l :: l in cat.links ==> l.1 != id || !ok
  {
    var i := TagWithId(tt.tags, id);
    if i == -1 {
      return false;
    }
    var ts := RemoveAt(tt.tags, i);
    forall a, b | 0 <= a < b < |ts| ensures ts[a].id < ts[b].id && ts[a].name != ts[b].name {
      var a' := if a < i then a else a + 1;
      var b' := if b < i then b else b + 1;
      assert ts[a] == tt.tags[a'] && ts[b] == tt.tags[b'] && a' < b';
    }
    forall k | 0 <= k < |ts| ensures ts[k].id != id {
      var k' := if k < i then k else k + 1;
      assert ts[k] == tt.tags[k'];
    }
    tt.tags := ts;
    cat.links := set l | l in cat.links && l.1 != id;
    ok := true;
  }

  // --------------------------------------------------------- categories

  /** get_tags_by_category, and the uncategorised listing for None. */
  function TagsInCategory(ts: seq<Tag>, categoryId: Option<int>): (r: seq<Tag>)
    ensures forall t :: t in r <==> t in ts && t.categoryId == categoryId
  {
    Filter(ts, (t: Tag) => t.categoryId == categoryId)
  }

  /** assign_tag_to_category: fails for an unknown tag or an unknown
      category id; None makes the tag uncategorised. */
  method AssignTagToCategory(tt: TagTables, tagId: int, categoryId: Option<int>, now: int) returns (ok: bool)
    requires tt.Valid()
    modifies tt
    ensures tt.Valid() && tt.categories == old(tt.categories)
    ensures ok <==> TagWithId(old(tt.tags), tagId) != -1
                    && (categoryId.Some? ==> CategoryWithId(old(tt.categories), categoryId.value) != -1)
    ensures ok ==> var i := TagWithId(old(tt.tags), tagId);
      tt.tags == old(tt.tags)[i := old(tt.tags)[i].(categoryId := categoryId, updatedAt := now)]
    ensures !ok ==> tt.tags == old(tt.tags)
  {
    var i := TagWithId(tt.tags, tagId);
    if i == -1 {
      return false;
    }
    if categoryId.Some? && CategoryWithId(tt.categories, categoryId.value) == -1 {
      return false;
    }
    tt.tags := tt.tags[i := tt.tags[i].(categoryId := categoryId, updatedAt := now)];
    ok := true;
  }

  /** The order of the category listings: by sort_order, then by name. */
  predicate CategoryLe(a: Category, b: Category)
  {
    a.sortOrder < b.sortOrder || (a.sortOrder == b.sortOrder && LexLe(a.name, b.name))
  }

  function SortedCategories(cs: seq<Category>): seq<Category>
  {
    SortBy(cs, CategoryLe)
  }

  lemma CategoryLeTotalPreorder(cs: seq<Category>)
    ensures TotalPreorderOn(cs, CategoryLe)
  {
    forall a, b | a in cs && b in cs ensures CategoryLe(a, b) || CategoryLe(b, a) {
      LexLeTotal(a.name, b.name);
    }
    forall a, b, c | a in cs && b in cs && c in cs && CategoryLe(a, b) && CategoryLe(b, c)
      ensures CategoryLe(a, c)
    {
      if a.sortOrder == b.sortOrder == c.sortOrder {
        LexLeTransitive(a.name, b.name, c.name);
      }
    }
  }

  /** The listing holds every category once, ordered by (sort_order, name). */
  lemma SortedCategoriesOrdered(cs: seq<Category>)
    ensures multiset(SortedCategories(cs)) == multiset(cs)
    ensures forall i, j :: 0 <= i < j < |SortedCategories(cs)| ==>
      CategoryLe(SortedCategories(cs)[i], SortedCategories(cs)[j])
  {
    CategoryLeTotalPreorder(cs);
    SortBySorted(cs, CategoryLe);
  }

  // ----------------------------------------------------------- grouping

  datatype Group = Group(category: Option<Category>, tags: seq<Tag>)

  const UncategorisedKey: string := "未分类"

  /** result[key] = value on a Python dict: an existing key keeps its
      place and takes the new value; a new key goes last. */
  function DictPut(d: seq<(string, Group)>, key: string, value: Group): (r: seq<(string, Group)>)
    ensures (forall k :: 0 <= k < |d| ==> d[k].0 != key) ==> r == d + [(key, value)]
    ensures (exists k :: 0 <= k < |d| && d[k].0 == key) ==>
      |r| == |d| && exists k :: 0 <= k < |d| && d[k].0 == key && r == d[k := (key, value)]
  {
    var i := IndexWhere(d, (e: (string, Group)) => e.0 == key);
    if i == -1 then d + [(key, value)] else d[i := (key, value)]
  }

  /** The loop over the ordered categories, up to the n-th. */
  function GroupCategories(cats: seq<Category>, ts: seq<Tag>, n: nat): seq<(string, Group)>
    requires n <= |cats|
  {
    if n == 0 then []
    else
      var d := GroupCategories(cats, ts, n - 1);
      var c := cats[n - 1];
      var mine := TagsInCategory(ts, Some(c.id));
      if |mine| > 0 then DictPut(d, c.name, Group(Some(c), mine)) else d
  }

  /** get_tags_grouped_by_category's result. */
  function Grouped(cs: seq<Category>, ts: seq<Tag>): seq<(string, Group)>
  {
    var cats := SortedCategories(cs);
    var d := GroupCategories(cats, ts, |cats|);
    var loose := TagsInCategory(ts, None);
    if |loose| > 0 then DictPut(d, UncategorisedKey, Group(None, loose)) else d
  }

  /** get_tags_grouped_by_category. */
  method GroupedByCategory(tt: TagTables) returns (result: seq<(string, Group)>)
    ensures result == Grouped(tt.categories, tt.tags)
  {
    var cats := SortedCategories(tt.categories);
    result := [];
    var k := 0;
    while k < |cats|
      invariant 0 <= k <= |cats|
      invariant result == GroupCategories(cats, tt.tags, k)
    {
      var c := cats[k];
      var mine := TagsInCategory(tt.tags, Some(c.id));
      if |mine| > 0 {
        result := DictPut(result, c.name, Group(Some(c), mine));
      }
      k := k + 1;
    }
    var loose := TagsInCategory(tt.tags, None);
    if |loose| > 0 {
      result := DictPut(result, UncategorisedKey, Group(None, loose));
    }
  }

  /** The entry a category contributes when it has tags. */
  function CategoryEntry(c: Category, ts: seq<Tag>): (string, Group)
  {
    (c.name, Group(Some(c), TagsInCategory(ts, Some(c.id))))
  }

  /** Reference listing: one entry per category with at least one tag, in
      the given order. */
  function Entries(cats: seq<Category>, ts: seq<Tag>): (r: seq<(string, Group)>)
    ensures forall c :: c in cats && |TagsInCategory(ts, Some(c.id))| > 0 ==> CategoryEntry(c, ts) in r
    ensures forall e :: e in r ==> exists c :: c in cats && |TagsInCategory(ts, Some(c.id))| > 0 && e == CategoryEntry(c, ts)
  {
    if |cats| == 0 then []
    else
      var init := cats[..|cats| - 1];
      var c := cats[|cats| - 1];
      var rest := Entries(init, ts);
      assert forall x :: x in cats <==> x in init || x == c;
      if |TagsInCategory(ts, Some(c.id))| > 0 then rest + [CategoryEntry(c, ts)] else rest
  }

  /** Every key the loop writes is the name of a category it has visited. */
  lemma {:induction false} GroupCategoriesNames(cats: seq<Category>, ts: seq<Tag>, n: nat)
    requires n <= |cats|
    ensures forall k :: 0 <= k < |GroupCategories(cats, ts, n)| ==>
      exists i :: 0 <= i < n && GroupCategories(cats, ts, n)[k].0 == cats[i].name
  {
    if n > 0 {
      GroupCategoriesNames(cats, ts, n - 1);
      var d := GroupCategories(cats, ts, n - 1);
      var c := cats[n - 1];
      var r := GroupCategories(cats, ts, n);
      if r != d {
        DictPutKeys(d, c.name, Group(Some(c), TagsInCategory(ts, Some(c.id))));
      }
      forall k | 0 <= k < |r| ensures exists i :: 0 <= i < n && r[k].0 == cats[i].name {
        if k < |d| && r[k].0 == d[k].0 {
          var i :| 0 <= i < n - 1 && d[k].0 == cats[i].name;
          assert r[k].0 == cats[i].name;
        } else {
          assert r[k].0 == cats[n - 1].name;
        }
      }
    } else {
      assert GroupCategories(cats, ts, n) == [];
    }
  }

  /** Putting a key leaves every other slot's key as it was. */
  lemma DictPutKeys(d: seq<(string, Group)>, key: string, value: Group)
    ensures var r := DictPut(d, key, value);
      |d| <= |r| && forall k :: 0 <= k < |r| ==> r[k].0 == key || (k < |d| && r[k].0 == d[k].0)
  {
  }

  /** With distinct names the dict never overwrites: the loop builds Entries. */
  lemma {:induction false} GroupCategoriesIsEntries(cats: seq<Category>, ts: seq<Tag>, n: nat)
    requires n <= |cats|
    requires forall i, j :: 0 <= i < j < |cats| ==> cats[i].name != cats[j].name
    ensures GroupCategories(cats, ts, n) == Entries(cats[..n], ts)
  {
    if n > 0 {
      GroupCategoriesIsEntries(cats, ts, n - 1);
      GroupCategoriesNames(cats, ts, n - 1);
      var d := GroupCategories(cats, ts, n - 1);
      var c := cats[n - 1];
      assert cats[..n][..n - 1] == cats[..n - 1];
      forall k | 0 <= k < |d| ensures d[k].0 != c.name {
        var i :| 0 <= i < n - 1 && d[k].0 == cats[i].name;
      }
    }
  }

  /** Distinct categories have distinct names in the ordered listing, and
      none of them is "未分类" when none of the originals is. */
  lemma SortedNamesDistinct(cs: seq<Category>)
    requires CategoriesValid(cs)
    requires forall i :: 0 <= i < |cs| ==> cs[i].name != UncategorisedKey
    ensures var cats := SortedCategories(cs);
      (forall i, j :: 0 <= i < j < |cats| ==> cats[i].name != cats[j].name)
      && (forall i :: 0 <= i < |cats| ==> cats[i].name != UncategorisedKey)
  {
    var cats := SortedCategories(cs);
    SortedCategoriesOrdered(cs);
    assert Distinct(cs) by {
      forall i, j | 0 <= i < j < |cs| ensures cs[i] != cs[j] {
        assert cs[i].id < cs[j].id;
      }
    }
    PermutationDistinct(cs, cats);
    forall i, j | 0 <= i < j < |cats| ensures cats[i].name != cats[j].name {
      assert cats[i] in multiset(cs) && cats[j] in multiset(cs);
      var a :| 0 <= a < |cs| && cs[a] == cats[i];
      var b :| 0 <= b < |cs| && cs[b] == cats[j];
      assert a != b;
    }
    forall i | 0 <= i < |cats| ensures cats[i].name != UncategorisedKey {
      assert cats[i] in multiset(cs);
      var a :| 0 <= a < |cs| && cs[a] == cats[i];
    }
  }

  /** With distinct category names, none of them "未分类", the grouping is
      exactly: every category with at least one tag, in (sort_order, name)
      order, each with its tags, then "未分类" with the uncategorised tags
      when there are any. */
  lemma GroupedIsReference(cs: seq<Category>, ts: seq<Tag>)
    requires CategoriesValid(cs)
    requires forall i :: 0 <= i < |cs| ==> cs[i].name != UncategorisedKey
    ensures var loose := TagsInCategory(ts, None);
      Grouped(cs, ts) == Entries(SortedCategories(cs), ts)
        + (if |loose| > 0 then [(UncategorisedKey, Group(None, loose))] else [])
  {
    var cats := SortedCategories(cs);
    SortedNamesDistinct(cs);
    GroupCategoriesIsEntries(cats, ts, |cats|);
    GroupCategoriesNames(cats, ts, |cats|);
    assert cats[..|cats|] == cats;
    var d := GroupCategories(cats, ts, |cats|);
    forall k | 0 <= k < |d| ensures d[k].0 != UncategorisedKey {
      var i :| 0 <= i < |cats| && d[k].0 == cats[i].name;
    }
  }

  /** The entries of the reference listing: a category has one iff it has a tag. */
  lemma EntriesExact(cs: seq<Category>, ts: seq<Tag>, c: Category)
    requires c in cs
    ensures CategoryEntry(c, ts) in Entries(SortedCategories(cs), ts) <==> |TagsInCategory(ts, Some(c.id))| > 0
  {
    SortedCategoriesOrdered(cs);
    assert c in multiset(SortedCategories(cs));
    if CategoryEntry(c, ts) in Entries(SortedCategories(cs), ts) {
      var c' :| c' in SortedCategories(cs) && |TagsInCategory(ts, Some(c'.id))| > 0 && CategoryEntry(c, ts) == CategoryEntry(c', ts);
      assert Some(c) == Some(c');
    }
  }

  // -------------------------------------------------------- video links

  /** get_video_tags: the tags linked to the video, [] for an unknown video. */
  function VideoTags(vs: seq<Video>, links: set<(int, int)>, ts: seq<Tag>, videoId: int): (r: seq<Tag>)
    ensures IndexOfId(vs, videoId) == -1 ==> r == []
    ensures IndexOfId(vs, videoId) != -1 ==> forall t :: t in r <==> t in ts && (videoId, t.id) in links
  {
    if IndexOfId(vs, videoId) == -1 then [] else Filter(ts, (t: Tag) => (videoId, t.id) in links)
  }

  /** add_tag_to_video: idempotent; false iff the video or the tag is missing. */
  method AddTagToVideo(cat: Catalog, tt: TagTables, videoId: int, tagId: int) returns (ok: bool)
    modifies cat`links
    ensures ok <==> IndexOfId(cat.videos, videoId) != -1 && TagWithId(tt.tags, tagId) != -1
    ensures ok ==> cat.links == old(cat.links) + {(videoId, tagId)}
    ensures !ok ==> cat.links == old(cat.links)
  {
    if IndexOfId(cat.videos, videoId) == -1 || TagWithId(tt.tags, tagId) == -1 {
      return false;
    }
    if (videoId, tagId) !in cat.links {
      cat.links := cat.links + {(videoId, tagId)};
    }
    ok := true;
  }

  /** remove_tag_from_video: removes only that link; an absent link is
      still a success. */
  method RemoveTagFromVideo(cat: Catalog, tt: TagTables, videoId: int, tagId: int) returns (ok: bool)
    modifies cat`links
    ensures ok <==> IndexOfId(cat.videos, videoId) != -1 && TagWithId(tt.tags, tagId) != -1
    ensures ok ==> cat.links == old(cat.links) - {(videoId, tagId)}
    ensures !ok ==> cat.links == old(cat.links)
  {
    if IndexOfId(cat.videos, videoId) == -1 || TagWithId(tt.tags, tagId) == -1 {
      return false;
    }
    if (videoId, tagId) in cat.links {
      cat.links := cat.links - {(videoId, tagId)};
    }
    ok := true;
  }

  /** The links update_video_tags leaves: the video's old links go, one
      link per listed id that names an existing tag comes. */
  function ReplacedLinks(links: set<(int, int)>, ts: seq<Tag>, videoId: int, tagIds: seq<int>): set<(int, int)>
  {
    (set l | l in links && l.0 != videoId) + (set t | t in tagIds && TagWithId(ts, t) != -1 :: (videoId, t))
  }

  /** What update_video_tags answers: done, no such video (404), or the
      IntegrityError its commit raises (500). */
  datatype TagsUpdate = TagsReplaced | VideoMissing | LinkConflict

  /** The list collection keeps repeats, and the flush inserts one
      association row per appended tag the video was not linked to, so an
      id listed twice that names an existing tag not yet linked inserts the
      same (video_id, tag_id) pair twice, which the composite primary key
      of video_tag rejects. */
  predicate RepeatsNewLink(links: set<(int, int)>, ts: seq<Tag>, videoId: int, tagIds: seq<int>)
  {
    exists i, j :: 0 <= i < j < |tagIds| && tagIds[i] == tagIds[j]
      && TagWithId(ts, tagIds[i]) != -1 && (videoId, tagIds[i]) !in links
  }

  lemma RepeatsNewLinkSnoc(links: set<(int, int)>, ts: seq<Tag>, videoId: int, tagIds: seq<int>, t: int)
    ensures RepeatsNewLink(links, ts, videoId, tagIds + [t]) <==>
      RepeatsNewLink(links, ts, videoId, tagIds) || (t in tagIds && TagWithId(ts, t) != -1 && (videoId, t) !in links)
  {
    var xs := tagIds + [t];
    if RepeatsNewLink(links, ts, videoId, xs) {
      var i, j :| 0 <= i < j < |xs| && xs[i] == xs[j] && TagWithId(ts, xs[i]) != -1 && (videoId, xs[i]) !in links;
      if j < |tagIds| {
        assert tagIds[i] == xs[i] && tagIds[j] == xs[j];
        assert RepeatsNewLink(links, ts, videoId, tagIds);
      } else {
        assert xs[i] == tagIds[i];
        assert t in tagIds;
      }
    }
    if t in tagIds && TagWithId(ts, t) != -1 && (videoId, t) !in links {
      var i :| 0 <= i < |tagIds| && tagIds[i] == t;
      assert xs[i] == xs[|tagIds|];
    }
    if RepeatsNewLink(links, ts, videoId, tagIds) {
      var i, j :| 0 <= i < j < |tagIds| && tagIds[i] == tagIds[j] && TagWithId(ts, tagIds[i]) != -1
                  && (videoId, tagIds[i]) !in links;
      assert xs[i] == xs[j];
    }
  }

  /** update_video_tags: VideoMissing for an unknown video; LinkConflict,
      with nothing changed, when the commit fails on a repeated id. */
  method UpdateVideoTags(cat: Catalog, tt: TagTables, videoId: int, tagIds: seq<int>) returns (r: TagsUpdate)
    modifies cat`links
    ensures r == VideoMissing <==> IndexOfId(cat.videos, videoId) == -1
    ensures r == LinkConflict <==>
      IndexOfId(cat.videos, videoId) != -1 && RepeatsNewLink(old(cat.links), tt.tags, videoId, tagIds)
    ensures r == TagsReplaced ==> cat.links == ReplacedLinks(old(cat.links), tt.tags, videoId, tagIds)
    ensures r != TagsReplaced ==> cat.links == old(cat.links)
  {
    if IndexOfId(cat.videos, videoId) == -1 {
      return VideoMissing;
    }
    var added, conflict := NewLinks(cat.links, tt.tags, videoId, tagIds);
    if conflict {
      return LinkConflict;
    }
    cat.links := (set l | l in cat.links && l.0 != videoId) + added;
    r := TagsReplaced;
  }

  /** The loop of update_video_tags: the links the listed ids that name
      tags give the video, and whether the commit will find one twice. */
  method NewLinks(links: set<(int, int)>, ts: seq<Tag>, videoId: int, tagIds: seq<int>)
    returns (added: set<(int, int)>, conflict: bool)
    ensures added == set t | t in tagIds && TagWithId(ts, t) != -1 :: (videoId, t)
    ensures conflict <==> RepeatsNewLink(links, ts, videoId, tagIds)
  {
    added, conflict := {}, false;
    var k := 0;
    while k < |tagIds|
      invariant 0 <= k <= |tagIds|
      invariant added == set t | t in tagIds[..k] && TagWithId(ts, t) != -1 :: (videoId, t)
      invariant conflict <==> RepeatsNewLink(links, ts, videoId, tagIds[..k])
    {
      var t := tagIds[k];
      RepeatsNewLinkSnoc(links, ts, videoId, tagIds[..k], t);
      if TagWithId(ts, t) != -1 {
        if t in tagIds[..k] && (videoId, t) !in links {
          conflict := true;
        }
        added := added + {(videoId, t)};
      }
      assert tagIds[..k + 1] == tagIds[..k] + [t];
      k := k + 1;
    }
    assert tagIds[..k] == tagIds;
  }

  /** An id listed twice is harmless when the video already had that tag,
      and fatal when it did not. */
  lemma RepeatedIdConflict(links: set<(int, int)>, ts: seq<Tag>, videoId: int, t: int)
    requires TagWithId(ts, t) != -1
    ensures RepeatsNewLink(links, ts, videoId, [t, t]) <==> (videoId, t) !in links
  {
    var xs := [t, t];
    if (videoId, t) !in links {
      assert xs[0] == xs[1];
    }
  }

  /** After a replace the video is linked to exactly the listed existing
      tags, and other videos keep their links. */
  lemma ReplacedLinksExact(links: set<(int, int)>, ts: seq<Tag>, videoId: int, tagIds: seq<int>)
    ensures forall t :: (videoId, t) in ReplacedLinks(links, ts, videoId, tagIds)
                        <==> t in tagIds && TagWithId(ts, t) != -1
    ensures forall l: (int, int) :: l.0 != videoId ==> (l in ReplacedLinks(links, ts, videoId, tagIds) <==> l in links)
  {
  }

  /** Replacing twice with the same list is the same as replacing once. */
  lemma ReplacedLinksIdempotent(links: set<(int, int)>, ts: seq<Tag>, videoId: int, tagIds: seq<int>)
    ensures ReplacedLinks(ReplacedLinks(links, ts, videoId, tagIds), ts, videoId, tagIds)
         == ReplacedLinks(links, ts, videoId, tagIds)
  {
  }
}
