/** The backend's stored entities and the abstract file system they refer to.

    A table is a sequence of rows in ascending id order, which is the order
    SQLite returns rows in when a query has no ORDER BY.  The file system is
    a map from absolute, normalised path to (mtime, size) for video files,
    plus the listing of the project's thumbnails directory. */
module Records {
  import opened Common

  /** One row of the videos table with every column the services use
      (the declared model lacks the thumbnail and watch-progress columns
      although the services read and write them). */
  datatype Video = Video(
    id: int,
    filename: string,
    filepath: string,
    size: real,                    // MiB, rounded to two decimals
    duration: real,                // seconds
    thumbnailPath: Option<string>, // relative to the project root
    thumbnailGenerated: bool,
    isFavorite: bool,
    webPlayable: bool,
    createdAt: int,
    updatedAt: Option<int>,
    lastPosition: real,
    watchProgress: Option<real>,
    lastWatchedAt: Option<int>,
    isCompleted: bool)

  datatype FileStat = FileStat(mtime: int, size: nat)

  const BytesPerMiB: nat := 1048576

  /** round(bytes / 1048576, 2), computed exactly with round-half-even. */
  function SizeMiB(bytes: nat): (mb: real)
    ensures mb >= 0.0
    ensures -0.005 <= mb - (bytes as real) / (BytesPerMiB as real) <= 0.005
  {
    var q := (bytes * 100) / BytesPerMiB;
    var rem := (bytes * 100) % BytesPerMiB;
    var up := 2 * rem > BytesPerMiB || (2 * rem == BytesPerMiB && q % 2 == 1);
    var cents := if up then q + 1 else q;
    assert (bytes * 100) as real == (q * BytesPerMiB + rem) as real;
    assert (bytes as real) / (BytesPerMiB as real)
      == (q as real) / 100.0 + (rem as real) / (100.0 * BytesPerMiB as real);
    (cents as real) / 100.0
  }

  predicate IdsAscending(vs: seq<Video>)
  {
    forall i, j :: 0 <= i < j < |vs| ==> vs[i].id < vs[j].id
  }

  /** What the table's constraints guarantee: positive ids in ascending
      (insertion) order and a unique filepath column. */
  predicate ValidTable(vs: seq<Video>)
  {
    && IdsAscending(vs)
    && (forall i :: 0 <= i < |vs| ==> vs[i].id > 0)
    && (forall i, j :: 0 <= i < j < |vs| ==> vs[i].filepath != vs[j].filepath)
  }

  /** The id SQLite gives the next inserted row: one more than the largest. */
  function NextId(vs: seq<Video>): (id: int)
    ensures IdsAscending(vs) ==> forall i :: 0 <= i < |vs| ==> vs[i].id < id
    ensures IdsAscending(vs) && (forall i :: 0 <= i < |vs| ==> vs[i].id > 0) ==> id > 0
  {
    if |vs| == 0 then 1 else vs[|vs| - 1].id + 1
  }

  /** Rewriting a row's non-key columns keeps the table's constraints. */
  lemma SameKeysValid(vs: seq<Video>, i: nat, w: Video)
    requires ValidTable(vs) && i < |vs|
    requires w.id == vs[i].id && w.filepath == vs[i].filepath
    ensures ValidTable(vs[i := w])
  {
  }

  /** Rewriting a row keeps the constraints when the id stays and no
      other row has the new filepath. */
  lemma UpdateKeepsValid(vs: seq<Video>, i: nat, w: Video)
    requires ValidTable(vs) && i < |vs| && w.id == vs[i].id
    requires forall k :: 0 <= k < |vs| && k != i ==> vs[k].filepath != w.filepath
    ensures ValidTable(vs[i := w])
  {
  }

  /** Appending a row keeps the constraints when its id is larger than
      every other, positive, and its filepath is new. */
  lemma AppendKeepsValid(vs: seq<Video>, w: Video)
    requires ValidTable(vs) && w.id > 0
    requires forall k :: 0 <= k < |vs| ==> vs[k].id < w.id && vs[k].filepath != w.filepath
    ensures ValidTable(vs + [w])
  {
  }

  /** Deleting a row keeps the constraints. */
  lemma RemoveKeepsValid(vs: seq<Video>, i: nat)
    requires ValidTable(vs) && i < |vs|
    ensures ValidTable(RemoveAt(vs, i))
  {
    var r := RemoveAt(vs, i);
    forall a, b | 0 <= a < b < |r| ensures r[a].id < r[b].id && r[a].filepath != r[b].filepath {
      var a' := if a < i then a else a + 1;
      var b' := if b < i then b else b + 1;
      assert r[a] == vs[a'] && r[b] == vs[b'] && a' < b';
    }
  }

  /** Position of the row with this id, or -1 (query(...).filter(id == i).first()). */
  function IndexOfId(vs: seq<Video>, id: int): (i: int)
    ensures -1 <= i < |vs|
    ensures i == -1 <==> forall k :: 0 <= k < |vs| ==> vs[k].id != id
    ensures i >= 0 ==> vs[i].id == id && forall k :: 0 <= k < i ==> vs[k].id != id
  {
    if |vs| == 0 then -1
    else if vs[0].id == id then 0
    else
      var j := IndexOfId(vs[1..], id);
      if j == -1 then -1 else j + 1
  }

  /** Position of the first row whose filepath is one of the two given paths, or -1. */
  function IndexOfPath(vs: seq<Video>, p: string, q: string): (i: int)
    ensures -1 <= i < |vs|
    ensures i == -1 <==> forall k :: 0 <= k < |vs| ==> vs[k].filepath != p && vs[k].filepath != q
    ensures i >= 0 ==> vs[i].filepath == p || vs[i].filepath == q
    ensures i >= 0 ==> forall k :: 0 <= k < i ==> vs[k].filepath != p && vs[k].filepath != q
  {
    if |vs| == 0 then -1
    else if vs[0].filepath == p || vs[0].filepath == q then 0
    else
      var j := IndexOfPath(vs[1..], p, q);
      if j == -1 then -1 else j + 1
  }

  /** The videos table and the video_tag association table, as
      (video id, tag id) pairs. */
  class Catalog {
    var videos: seq<Video>
    var links: set<(int, int)>

    ghost predicate Valid()
      reads this
    {
      ValidTable(videos)
    }

    constructor ()
      ensures Valid() && videos == [] && links == {}
    {
      videos := [];
      links := {};
    }

    /** An UPDATE of row i's non-key columns, committed. */
    method SetRow(i: nat, w: Video)
      requires Valid() && i < |videos| && w.id == videos[i].id && w.filepath == videos[i].filepath
      modifies this
      ensures Valid() && videos == old(videos)[i := w] && links == old(links)
    {
      SameKeysValid(videos, i, w);
      videos := videos[i := w];
    }

    /** A DELETE of row i, committed; its video_tag rows go with it. */
    method DeleteRow(i: nat)
      requires Valid() && i < |videos|
      modifies this
      ensures Valid() && videos == RemoveAt(old(videos), i)
      ensures links == set l | l in old(links) && l.0 != old(videos)[i].id
    {
      RemoveKeepsValid(videos, i);
      links := set l | l in links && l.0 != videos[i].id;
      videos := RemoveAt(videos, i);
    }
  }

  /** The video files below the library root, by absolute normalised path,
      and the project's thumbnails directory, by file name. */
  class Disk {
    var files: map<string, FileStat>
    var thumbDirExists: bool
    var thumbs: map<string, nat>

    constructor ()
      ensures files == map[] && !thumbDirExists && thumbs == map[]
    {
      files := map[];
      thumbDirExists := false;
      thumbs := map[];
    }
  }

  /** The thumbnail paths the services store are "thumbnails/<name>",
      relative to the project root; this recovers the name. */
  function ThumbDirEntry(path: string): (r: Option<string>)
    ensures r.Some? ==> path == "thumbnails/" + r.value && r.value != "" && '/' !in r.value
    ensures (exists n :: n != "" && '/' !in n && path == "thumbnails/" + n) ==> r.Some?
  {
    if StartsWith(path, "thumbnails/") && |path| > 11 && '/' !in path[11..]
    then Some(path[11..]) else None
  }

  function RemoveAt<T>(s: seq<T>, i: nat): (r: seq<T>)
    requires i < |s|
    ensures |r| == |s| - 1
    ensures forall k :: 0 <= k < i ==> r[k] == s[k]
    ensures forall k :: i <= k < |r| ==> r[k] == s[k + 1]
  {
    s[..i] + s[i + 1..]
  }
}
