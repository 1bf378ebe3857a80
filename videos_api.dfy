/** The request handlers of backend/app/api/videos.py that do more than
    forward to the service: the list endpoint's tag parsing and page count,
    rename, and the endpoint's own delete. */
module VideosApi {
  import opened Common
  import opened Records
  import opened Paths
  import opened CatalogQuery
  import opened Reconciler

  // ------------------------------------------------------------ get_videos

  datatype TagParse = NoTagFilter | TagIds(ids: seq<int>) | BadTags

  /** Some part is not an integer literal. */
  predicate HasNonInteger(parts: seq<string>)
  {
    exists k :: 0 <= k < |parts| && PyInt(parts[k]).None?
  }

  /** int() on every element, or None when one of them is not an integer. */
  function ParseInts(parts: seq<string>): (r: Option<seq<int>>)
    ensures r.Some? ==> |r.value| == |parts| && forall k :: 0 <= k < |parts| ==> PyInt(parts[k]) == Some(r.value[k])
    ensures r.None? <==> HasNonInteger(parts)
  {
    if |parts| == 0 then Some([])
    else
      var head := PyInt(parts[0]);
      var rest := ParseInts(parts[1..]);
      assert HasNonInteger(parts) <==> head.None? || HasNonInteger(parts[1..]) by {
        if HasNonInteger(parts[1..]) {
          var k :| 0 <= k < |parts[1..]| && PyInt(parts[1..][k]).None?;
          assert PyInt(parts[k + 1]).None?;
        }
        if HasNonInteger(parts) && head.Some? {
          var k :| 0 <= k < |parts| && PyInt(parts[k]).None?;
          assert k > 0 && PyInt(parts[1..][k - 1]).None?;
        }
      }
      if head.None? || rest.None? then None
      else Some([head.value] + rest.value)
  }

  /** The tags query string: absent or empty filters nothing, otherwise
      every comma-separated part must be an integer (400 otherwise). */
  function ParseTagIds(tags: Option<string>): (r: TagParse)
    ensures tags.None? || tags.value == "" ==> r == NoTagFilter
    ensures r.TagIds? ==> var parts := Split(tags.value, ',');
      |r.ids| == |parts| && forall k :: 0 <= k < |parts| ==> PyInt(parts[k]) == Some(r.ids[k])
    ensures r == BadTags <==> (tags.Some? && tags.value != "" && HasNonInteger(Split(tags.value, ',')))
  {
    if tags.None? || tags.value == "" then NoTagFilter
    else
      var ids := ParseInts(Split(tags.value, ','));
      if ids.None? then BadTags else TagIds(ids.value)
  }

  function NatStrings(xs: seq<nat>): (r: seq<string>)
    ensures |r| == |xs|
    ensures forall k :: 0 <= k < |xs| ==> r[k] == NatToString(xs[k])
  {
    if |xs| == 0 then [] else [NatToString(xs[0])] + NatStrings(xs[1..])
  }

  lemma {:induction false} ParseIntsOfNatStrings(xs: seq<nat>)
    ensures ParseInts(NatStrings(xs)) == Some(xs)
  {
    if |xs| > 0 {
      PyIntOfNatToString(xs[0]);
      assert NatStrings(xs)[1..] == NatStrings(xs[1..]);
      ParseIntsOfNatStrings(xs[1..]);
      assert [xs[0] as int] + xs[1..] == xs;
    }
  }

  /** The ids a client writes as "3,14,15" read back as themselves. */
  lemma TagIdsRoundTrip(xs: seq<nat>)
    requires |xs| > 0
    ensures ParseTagIds(Some(Join(NatStrings(xs), ','))) == TagIds(xs)
  {
    var strs := NatStrings(xs);
    forall k | 0 <= k < |strs| ensures ',' !in strs[k] {
      assert forall i :: 0 <= i < |strs[k]| ==> IsDigit(strs[k][i]);
    }
    SplitJoin(strs, ',');
    var s := Join(strs, ',');
    assert |s| >= |strs[0]| >= 1;
    ParseIntsOfNatStrings(xs);
    assert ParseInts(Split(s, ',')) == Some(xs);
  }

  /** (total + limit - 1) // limit; None stands for the ZeroDivisionError
      (a 500) when limit is 0. */
  function TotalPages(total: nat, limit: int): (r: Option<int>)
    ensures r.None? <==> limit == 0
  {
    if limit == 0 then None else Some(FloorDiv(total + limit - 1, limit))
  }

  /** For a positive limit the page count is the ceiling of total / limit:
      the fewest pages of `limit` rows that hold all rows. */
  lemma TotalPagesIsCeiling(total: nat, limit: int)
    requires limit > 0
    ensures var p := TotalPages(total, limit).value;
      p * limit >= total && (p - 1) * limit < total
    ensures total == 0 ==> TotalPages(total, limit).value == 0
  {
    var p := TotalPages(total, limit).value;
    assert p * limit <= total + limit - 1 < p * limit + limit;
    assert (p - 1) * limit == p * limit - limit;
  }

  /** The parameters of GET /list once the endpoint's defaults are applied:
      `sort_by` is a plain string whose default is 'filename'; the other
      optional parameters default to None. */
  datatype ListParams = ListParams(
    skip: int,
    limit: int,
    keyword: Option<string>,
    favorite: Option<bool>,
    tags: Option<string>,
    duration: Option<string>,
    sortBy: string,
    seed: Option<int>)

  datatype PageReply = PageOf(total: nat, totalPages: int, items: seq<Video>) | BadTagFormat | ServerError

  /** GET /list: 400 for a malformed tag list, 500 for limit 0, otherwise
      the service's page with its page count. */
  /** The query the endpoint hands to the service: its own parameters,
      with the tag filter only when a tag list was given. */
  function QueryOf(p: ListParams): Query
    requires ParseTagIds(p.tags) != BadTags
  {
    var parsed := ParseTagIds(p.tags);
    Query(p.skip, p.limit, p.keyword, p.favorite, if parsed.TagIds? then Some(parsed.ids) else None,
          p.duration, Some(p.sortBy), p.seed)
  }

  function ListVideos(vs: seq<Video>, links: set<(int, int)>, p: ListParams, noise: int -> int,
                      setting: Option<real>): (r: PageReply)
    ensures r == BadTagFormat <==> ParseTagIds(p.tags) == BadTags
    ensures r == ServerError <==> ParseTagIds(p.tags) != BadTags && p.limit == 0
    ensures r.PageOf? ==>
      && r.total == ListVideosBy(vs, links, QueryOf(p), noise, setting).total
      && r.items == ListVideosBy(vs, links, QueryOf(p), noise, setting).items
      && (p.limit > 0 ==> r.totalPages * p.limit >= r.total && (r.totalPages - 1) * p.limit < r.total)
  {
    if ParseTagIds(p.tags) == BadTags then BadTagFormat
    else
      var listing := ListVideosBy(vs, links, QueryOf(p), noise, setting);
      var pages := TotalPages(listing.total, p.limit);
      if pages.None? then ServerError
      else if p.limit < 0 then PageOf(listing.total, pages.value, listing.items)
      else
        TotalPagesIsCeiling(listing.total, p.limit);
        PageOf(listing.total, pages.value, listing.items)
  }

  // ---------------------------------------------------------------- rename

  const MaxRenameAttempts: nat := 3

  /** Some attempt among the three succeeds. */
  predicate RenameSucceeds(attempt: nat -> bool)
  {
    attempt(0) || attempt(1) || attempt(2)
  }

  /** The retry loop around os.rename: stops at the first success, gives up
      after three failures. */
  method RenameWithRetries(attempt: nat -> bool) returns (ok: bool, tries: nat)
    ensures 1 <= tries <= MaxRenameAttempts
    ensures forall k :: 0 <= k < tries - 1 ==> !attempt(k)
    ensures ok <==> attempt(tries - 1)
    ensures !ok ==> tries == MaxRenameAttempts
    ensures ok == RenameSucceeds(attempt)
  {
    ok := false;
    tries := 0;
    while !ok && tries < MaxRenameAttempts
      invariant tries <= MaxRenameAttempts
      invariant ok ==> tries >= 1 && attempt(tries - 1)
      invariant forall k :: 0 <= k < tries && !(ok && k == tries - 1) ==> !attempt(k)
    {
      ok := attempt(tries);
      tries := tries + 1;
    }
  }

  datatype Outcome = Done | VideoNotFound | RootNotSet | FileNotFound | FileOpFailed | CommitFailed

  /** The HTTP status each outcome becomes. */
  function StatusCode(o: Outcome): (code: int)
    ensures code == 200 <==> o == Done
    ensures code == 404 <==> o == VideoNotFound || o == RootNotSet || o == FileNotFound
  {
    match o
    case Done => 200
    case VideoNotFound => 404
    case RootNotSet => 404
    case FileNotFound => 404
    case FileOpFailed => 500
    case CommitFailed => 500
  }

  /** The row after a rename: new name and path; updated_at moves when
      either changed. */
  function RenamedRow(v: Video, newName: string, rel: string, now: int): (w: Video)
    ensures w.filename == newName && w.filepath == rel
    ensures w.updatedAt == (if newName != v.filename || rel != v.filepath then Some(now) else v.updatedAt)
    ensures w.(filename := v.filename, filepath := v.filepath, updatedAt := v.updatedAt) == v
  {
    var changed := newName != v.filename || rel != v.filepath;
    v.(filename := newName, filepath := rel, updatedAt := if changed then Some(now) else v.updatedAt)
  }

  /** Another row already holds this filepath. */
  predicate PathTaken(vs: seq<Video>, i: nat, rel: string)
    requires i < |vs|
  {
    exists k :: 0 <= k < |vs| && k != i && vs[k].filepath == rel
  }

  /** PUT /{video_id}: renames the file next to itself and rewrites the
      row's filename and root-relative filepath.  The file is moved before
      the commit, so a new filepath that another row holds leaves the file
      moved and the row as it was. */
  method Rename(cat: Catalog, disk: Disk, id: int, newName: string, rootSetting: Option<string>,
                ops: PathOps, attempt: nat -> bool, now: int)
    returns (r: Outcome)
    requires cat.Valid()
    modifies cat, disk
    ensures cat.Valid() && cat.links == old(cat.links)
    ensures unchanged(disk`thumbs) && unchanged(disk`thumbDirExists)
    ensures var i := IndexOfId(old(cat.videos), id);
      && (i == -1 ==> r == VideoNotFound)
      && (i != -1 && NoRoot(rootSetting) ==> r == RootNotSet)
      && (i != -1 && !NoRoot(rootSetting) ==>
            var src := JoinPath(rootSetting.value, old(cat.videos)[i].filepath);
            var dst := JoinPath(Dirname(src), newName);
            var rel := ops.relpath(dst, rootSetting.value);
            && (ops.normalize(src) !in old(disk.files) ==> r == FileNotFound)
            && (ops.normalize(src) in old(disk.files) ==>
                  && (!RenameSucceeds(attempt) ==> r == FileOpFailed)
                  && (RenameSucceeds(attempt) ==>
                        && disk.files == (old(disk.files) - {ops.normalize(src)})[ops.normalize(dst) := old(disk.files)[ops.normalize(src)]]
                        && (PathTaken(old(cat.videos), i, rel) ==> r == CommitFailed)
                        && (!PathTaken(old(cat.videos), i, rel) ==>
                              r == Done && cat.videos == old(cat.videos)[i := RenamedRow(old(cat.videos)[i], newName, rel, now)]))))
    ensures r != Done ==> cat.videos == old(cat.videos)
    ensures r != Done && r != CommitFailed ==> disk.files == old(disk.files)
  {
    var i := IndexOfId(cat.videos, id);
    if i == -1 {
      return VideoNotFound;
    }
    if NoRoot(rootSetting) {
      return RootNotSet;
    }
    var root := rootSetting.value;
    var v := cat.videos[i];
    var src := JoinPath(root, v.filepath);
    var key := ops.normalize(src);
    if key !in disk.files {
      return FileNotFound;
    }
    var dst := JoinPath(Dirname(src), newName);
    var ok, tries := RenameWithRetries(attempt);
    if !ok {
      return FileOpFailed;
    }
    var stat := disk.files[key];
    disk.files := (disk.files - {key})[ops.normalize(dst) := stat];
    var rel := ops.relpath(dst, root);
    if PathTaken(cat.videos, i, rel) {
      return CommitFailed;
    }
    var w := RenamedRow(v, newName, rel, now);
    UpdateKeepsValid(cat.videos, i, w);
    cat.videos := cat.videos[i := w];
    r := Done;
  }

  /** A rename that succeeds keeps the row's id, its other columns, and the
      table's unique filepath column. */
  lemma RenamedRowKeepsIdentity(vs: seq<Video>, i: nat, newName: string, rel: string, now: int)
    requires ValidTable(vs) && i < |vs| && !PathTaken(vs, i, rel)
    ensures ValidTable(vs[i := RenamedRow(vs[i], newName, rel, now)])
    ensures RenamedRow(vs[i], newName, rel, now).id == vs[i].id
  {
    UpdateKeepsValid(vs, i, RenamedRow(vs[i], newName, rel, now));
  }

  // ---------------------------------------------------------------- delete

  /** DELETE /{video_id}: removes the file once (no retry), then the row
      and its tag links; the thumbnail file is left alone. */
  method DeleteEndpoint(cat: Catalog, disk: Disk, id: int, rootSetting: Option<string>, ops: PathOps,
                        removeOk: bool)
    returns (r: Outcome)
    requires cat.Valid()
    modifies cat, disk
    ensures cat.Valid()
    ensures unchanged(disk`thumbs) && unchanged(disk`thumbDirExists)
    ensures r != CommitFailed
    ensures var i := IndexOfId(old(cat.videos), id);
      && (i == -1 ==> r == VideoNotFound)
      && (i != -1 && NoRoot(rootSetting) ==> r == RootNotSet)
      && (i != -1 && !NoRoot(rootSetting) ==>
            var key := ops.normalize(JoinPath(rootSetting.value, old(cat.videos)[i].filepath));
            && (key !in old(disk.files) ==> r == FileNotFound)
            && (key in old(disk.files) && !removeOk ==> r == FileOpFailed)
            && (key in old(disk.files) && removeOk ==>
                  && r == Done
                  && disk.files == old(disk.files) - {key}
                  && cat.videos == RemoveAt(old(cat.videos), i)
                  && cat.links == set l | l in old(cat.links) && l.0 != id))
    ensures r != Done ==> unchanged(cat) && disk.files == old(disk.files)
  {
    var i := IndexOfId(cat.videos, id);
    if i == -1 {
      return VideoNotFound;
    }
    if NoRoot(rootSetting) {
      return RootNotSet;
    }
    var key := ops.normalize(JoinPath(rootSetting.value, cat.videos[i].filepath));
    if key !in disk.files {
      return FileNotFound;
    }
    if !removeOk {
      return FileOpFailed;
    }
    disk.files := disk.files - {key};
    cat.DeleteRow(i);
    r := Done;
  }
}
