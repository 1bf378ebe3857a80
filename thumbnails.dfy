/** Thumbnail naming, generation bookkeeping, upload and the orphan
    collector (VideoService.generate_thumbnail, save_thumbnail and
    cleanup_orphaned_thumbnails).  Rendering a frame is an external
    program: only whether it produced a file, and its size, reach the
    model.  md5 is an uninterpreted function from text to hex digest. */
module Thumbnails {
  import opened Common
  import opened Paths
  import opened Records

  const ThumbSuffix := "_thumb.jpg"

  /** hexdigest()[:8]. */
  function HashPrefix(h: string): (r: string)
    ensures |r| == Min(8, |h|) && StartsWith(h, r)
  {
    if |h| <= 8 then h else h[..8]
  }

  /** stem + "_" + md5(hashed)[:8] + "_thumb.jpg", the formula all three
      callers share; they differ in what they take the stem and the hash of. */
  function ThumbName(stem: string, hashed: string, md5: string -> string): (n: string)
    ensures EndsWith(n, ThumbSuffix)
    ensures StartsWith(n, stem + "_")
    ensures |n| == |stem| + 1 + Min(8, |md5(hashed)|) + |ThumbSuffix|
  {
    var n := stem + "_" + HashPrefix(md5(hashed)) + ThumbSuffix;
    assert n[|n| - |ThumbSuffix|..] == ThumbSuffix;
    assert n[..|stem + "_"|] == stem + "_";
    n
  }

  /** generate_thumbnail: the stem of the video path's base name and the
      hash of the video path. */
  function GeneratedName(videoPath: string, md5: string -> string): string
  {
    ThumbName(SplitExt(Basename(videoPath)).0, videoPath, md5)
  }

  /** save_thumbnail: the stem of the record's filename (after basename)
      and the hash of its stored filepath. */
  function SavedName(v: Video, md5: string -> string): string
  {
    ThumbName(SplitExt(Basename(v.filename)).0, v.filepath, md5)
  }

  /** cleanup_orphaned_thumbnails: the stem of the filename itself and the
      hash of the stored filepath. */
  function ExpectedName(v: Video, md5: string -> string): string
  {
    ThumbName(SplitExt(v.filename).0, v.filepath, md5)
  }

  /** The relative path the services store for a thumbnail file. */
  function StoredPath(name: string): string { "thumbnails/" + name }

  lemma BasenameOfPlainName(n: string)
    requires '/' !in n
    ensures Basename(n) == n
  {
    assert LastIndexOf(n, '/') == -1;
    assert n[0..] == n;
  }

  lemma BasenameOfStoredPath(n: string)
    requires '/' !in n
    ensures Basename(StoredPath(n)) == n
  {
    var p := StoredPath(n);
    assert p[11..] == n;
    LastIndexOfUnique(p, '/', 10);
  }

  /** A filename without directory part gets the same name from upload and
      from the collector, so an uploaded thumbnail is never collected. */
  lemma {:induction false} SavedNameIsExpected(v: Video, md5: string -> string)
    requires '/' !in v.filename
    ensures SavedName(v, md5) == ExpectedName(v, md5)
  {
    BasenameOfPlainName(v.filename);
  }

  // ------------------------------------------------------------ collector

  /** The names the collector must keep: every record's expected name and
      the base name of every non-empty stored thumbnail path. */
  function Protected(vs: seq<Video>, md5: string -> string): (ns: set<string>)
    ensures forall v :: v in vs ==> ExpectedName(v, md5) in ns
  {
    (set v | v in vs :: ExpectedName(v, md5))
    + (set v | v in vs && v.thumbnailPath.Some? && v.thumbnailPath.value != ""
         :: Basename(v.thumbnailPath.value))
  }

  /** Files of the thumbnails directory that the pattern matches and no
      record protects. */
  function Orphans(thumbs: map<string, nat>, vs: seq<Video>, md5: string -> string): (ns: set<string>)
    ensures forall n :: n in ns <==> n in thumbs && EndsWith(n, ThumbSuffix) && n !in Protected(vs, md5)
  {
    set n | n in thumbs && EndsWith(n, ThumbSuffix) && n !in Protected(vs, md5)
  }

  /** Total size of the listed files. */
  function SizeOf(m: map<string, nat>, names: seq<string>): nat
    requires forall k :: 0 <= k < |names| ==> names[k] in m
  {
    if |names| == 0 then 0 else SizeOf(m, names[..|names| - 1]) + m[names[|names| - 1]]
  }

  /** A record whose thumbnail the services stored under "thumbnails/"
      keeps that file. */
  lemma {:induction false} StoredThumbnailProtected(vs: seq<Video>, md5: string -> string, v: Video, n: string)
    requires v in vs && '/' !in n && v.thumbnailPath == Some(StoredPath(n))
    ensures n in Protected(vs, md5)
  {
    BasenameOfStoredPath(n);
  }

  /** The directory entries the collector considers. */
  function Candidates(thumbs: map<string, nat>): (ns: set<string>)
    ensures forall n :: n in ns <==> n in thumbs && EndsWith(n, ThumbSuffix)
  {
    set n | n in thumbs && EndsWith(n, ThumbSuffix)
  }

  /** What the collector has done after considering the names in visited. */
  ghost predicate CollectedSoFar(start: map<string, nat>, keep: set<string>, removeOk: string -> bool,
                                 visited: set<string>, removed: seq<string>, count: nat, size: nat,
                                 thumbs: map<string, nat>)
  {
    && (forall n :: n in removed <==> n in visited && n !in keep && removeOk(n))
    && Distinct(removed) && count == |removed|
    && (forall k :: 0 <= k < |removed| ==> removed[k] in start)
    && size == SizeOf(start, removed)
    && (forall n :: n in thumbs <==> n in start && n !in removed)
    && (forall n :: n in thumbs ==> thumbs[n] == start[n])
  }

  /** One pass of the collector's loop: the candidate n is removed unless
      a record still uses it or the removal fails. */
  method CollectEntry(start: map<string, nat>, keep: set<string>, removeOk: string -> bool, n: string,
                      ghost visited: set<string>, removed: seq<string>, count: nat, size: nat,
                      thumbs: map<string, nat>)
    returns (removed': seq<string>, count': nat, size': nat, thumbs': map<string, nat>)
    requires n in start && n !in visited
    requires CollectedSoFar(start, keep, removeOk, visited, removed, count, size, thumbs)
    ensures CollectedSoFar(start, keep, removeOk, visited + {n}, removed', count', size', thumbs')
  {
    removed', count', size', thumbs' := removed, count, size, thumbs;
    if n !in keep && removeOk(n) {
      assert (removed + [n])[..|removed|] == removed;
      size' := size + thumbs[n];
      count' := count + 1;
      removed' := removed + [n];
      thumbs' := thumbs - {n};
    }
  }

  /** The collector's loop over the candidate entries of start, skipping
      the names in keep. */
  method CollectOrphans(start: map<string, nat>, keep: set<string>, removeOk: string -> bool)
    returns (count: nat, size: nat, removed: seq<string>, thumbs: map<string, nat>)
    ensures forall n :: n in removed <==> n in Candidates(start) && n !in keep && removeOk(n)
    ensures Distinct(removed) && count == |removed|
    ensures forall k :: 0 <= k < |removed| ==> removed[k] in start
    ensures size == SizeOf(start, removed)
    ensures forall n :: n in thumbs <==> n in start && n !in removed
    ensures forall n :: n in thumbs ==> thumbs[n] == start[n]
  {
    count, size, removed := 0, 0, [];
    thumbs := start;
    var pending := Candidates(start);
    ghost var visited: set<string> := {};
    while pending != {}
      invariant pending + visited == Candidates(start) && pending !! visited
      invariant CollectedSoFar(start, keep, removeOk, visited, removed, count, size, thumbs)
      decreases pending
    {
      var n :| n in pending;
      removed, count, size, thumbs := CollectEntry(start, keep, removeOk, n, visited, removed, count, size, thumbs);
      pending := pending - {n};
      visited := visited + {n};
    }
  }

  /** cleanup_orphaned_thumbnails.  The directory listing order is the
      file system's; `removed` reports the order this run deleted in.
      removeOk says whether os.remove succeeds on a name. */
  method CleanupOrphanedThumbnails(cat: Catalog, disk: Disk, md5: string -> string, removeOk: string -> bool)
    returns (count: nat, size: nat, removed: seq<string>)
    modifies disk
    ensures disk.files == old(disk.files) && disk.thumbDirExists == old(disk.thumbDirExists)
    ensures !old(disk.thumbDirExists) ==> count == 0 && size == 0 && removed == []
    ensures old(disk.thumbDirExists) ==>
      (forall n :: n in removed <==> n in Orphans(old(disk.thumbs), cat.videos, md5) && removeOk(n))
    ensures Distinct(removed) && count == |removed|
    ensures forall k :: 0 <= k < |removed| ==> removed[k] in old(disk.thumbs)
    ensures size == SizeOf(old(disk.thumbs), removed)
    ensures forall n :: n in disk.thumbs <==> n in old(disk.thumbs) && n !in removed
    ensures forall n :: n in disk.thumbs ==> disk.thumbs[n] == old(disk.thumbs)[n]
  {
    count, size, removed := 0, 0, [];
    if !disk.thumbDirExists {
      return;
    }
    var thumbs;
    count, size, removed, thumbs := CollectOrphans(disk.thumbs, Protected(cat.videos, md5), removeOk);
    disk.thumbs := thumbs;
  }

  // ------------------------------------------------------ generate / save

  /** The entry of the thumbnails directory a stored thumbnail path names,
      when the path is set and non-empty. */
  function EntryOf(thumbPath: Option<string>): (e: Option<string>)
    ensures e.Some? ==> thumbPath.Some? && thumbPath.value == StoredPath(e.value)
  {
    if thumbPath.Some? && thumbPath.value != "" then ThumbDirEntry(thumbPath.value) else None
  }

  /** generate_thumbnail for the file `name`.  rendered says whether ffmpeg
      ran without error, renderedSize is the size of the file it wrote.  The
      answer is the stored path, or "" on failure. */
  method ProduceThumbnail(disk: Disk, name: string, force: bool, oldEntry: Option<string>,
                          removeOk: string -> bool, rendered: bool, renderedSize: nat)
    returns (path: string)
    modifies disk
    ensures disk.thumbDirExists && disk.files == old(disk.files)
    // an existing thumbnail is reused unless regeneration is forced
    ensures name in old(disk.thumbs) && !force ==> path == StoredPath(name)
    ensures path == "" || path == StoredPath(name)
    ensures path != "" ==> name in disk.thumbs
    ensures path != "" && (force || name !in old(disk.thumbs)) ==> disk.thumbs[name] == renderedSize > 0
    ensures !rendered && (force || name !in old(disk.thumbs)) ==> path == ""
    // only the old thumbnail and the target can disappear or change
    ensures forall m :: (m in old(disk.thumbs) && m != name && oldEntry != Some(m)
                         ==> m in disk.thumbs && disk.thumbs[m] == old(disk.thumbs)[m])
    ensures forall m :: m in disk.thumbs ==> m in old(disk.thumbs) || m == name
  {
    var thumbs := disk.thumbs;
    disk.thumbDirExists := true;
    if oldEntry.Some? && oldEntry.value in thumbs && oldEntry.value != name && removeOk(oldEntry.value) {
      thumbs := thumbs - {oldEntry.value};
    }
    if name in thumbs && !force {
      disk.thumbs := thumbs;
      return StoredPath(name);
    }
    if force && name in thumbs && removeOk(name) {
      thumbs := thumbs - {name};
    }
    if !rendered {
      disk.thumbs := thumbs;
      return "";
    }
    disk.thumbs := thumbs[name := renderedSize];
    path := if renderedSize == 0 then "" else StoredPath(name);
  }

  /** generate_thumbnail(video_path, force_regenerate, old_thumbnail_path). */
  method GenerateThumbnail(disk: Disk, videoPath: string, force: bool, oldThumb: Option<string>,
                           md5: string -> string, removeOk: string -> bool,
                           rendered: bool, renderedSize: nat)
    returns (path: string)
    modifies disk
    ensures disk.thumbDirExists && disk.files == old(disk.files)
    ensures GeneratedName(videoPath, md5) in old(disk.thumbs) && !force
      ==> path == StoredPath(GeneratedName(videoPath, md5))
    ensures path == "" || path == StoredPath(GeneratedName(videoPath, md5))
    ensures path != "" ==> GeneratedName(videoPath, md5) in disk.thumbs
    ensures forall m :: (m in old(disk.thumbs) && m != GeneratedName(videoPath, md5) && EntryOf(oldThumb) != Some(m)
                         ==> m in disk.thumbs && disk.thumbs[m] == old(disk.thumbs)[m])
  {
    path := ProduceThumbnail(disk, GeneratedName(videoPath, md5), force, EntryOf(oldThumb),
                             removeOk, rendered, renderedSize);
  }

  /** The directory after an upload: the old entry goes when its removal
      succeeds, then the new file is written (replacing one of that name),
      and every other entry stays as it was. */
  ghost predicate Replaced(thumbs: map<string, nat>, thumbs': map<string, nat>, previous: Option<string>,
                     name: string, contentSize: nat, removeOk: string -> bool)
  {
    && name in thumbs' && thumbs'[name] == contentSize
    && (forall n :: n != name ==>
          (n in thumbs' <==> n in thumbs && !(previous == Some(n) && removeOk(n))))
    && (forall n :: n in thumbs' && n != name ==> thumbs'[n] == thumbs[n])
  }

  method ReplaceEntry(thumbs: map<string, nat>, previous: Option<string>, name: string, contentSize: nat,
                      removeOk: string -> bool)
    returns (thumbs': map<string, nat>)
    ensures Replaced(thumbs, thumbs', previous, name, contentSize, removeOk)
  {
    thumbs' := thumbs;
    if previous.Some? && previous.value in thumbs && removeOk(previous.value) {
      thumbs' := thumbs - {previous.value};
    }
    thumbs' := thumbs'[name := contentSize];
  }

  /** save_thumbnail: an uploaded image replaces the record's thumbnail.
      None stands for the HTTP 500 the service raises, which is also what
      a missing record ends as, since its own 404 is caught and re-raised
      as 500.  The answer names the file written. */
  method SaveThumbnail(cat: Catalog, disk: Disk, id: int, contentSize: nat,
                       md5: string -> string, removeOk: string -> bool, now: int)
    returns (written: Option<string>)
    requires cat.Valid()
    modifies cat, disk
    ensures cat.Valid() && cat.links == old(cat.links)
    ensures unchanged(disk`files)
    ensures IndexOfId(old(cat.videos), id) == -1 ==>
      written.None? && cat.videos == old(cat.videos) && disk.thumbs == old(disk.thumbs)
    ensures IndexOfId(old(cat.videos), id) != -1 ==>
      var i := IndexOfId(old(cat.videos), id);
      var v := old(cat.videos)[i];
      var name := SavedName(v, md5);
      && written == Some(name)
      && disk.thumbDirExists
      && Replaced(old(disk.thumbs), disk.thumbs, EntryOf(v.thumbnailPath), name, contentSize, removeOk)
      && cat.videos == old(cat.videos)[i := v.(thumbnailPath := Some(StoredPath(name)),
                                               thumbnailGenerated := true,
                                               updatedAt := Some(now))]
  {
    var i := IndexOfId(cat.videos, id);
    if i == -1 {
      return None;
    }
    var v := cat.videos[i];
    var name := SavedName(v, md5);
    var w := v.(thumbnailPath := Some(StoredPath(name)), thumbnailGenerated := true, updatedAt := Some(now));
    cat.SetRow(i, w);
    WriteUpload(disk, EntryOf(v.thumbnailPath), name, contentSize, removeOk);
    written := Some(name);
  }

  /** The file writes of save_thumbnail: the directory is created, the
      previous file removed and the upload written. */
  method WriteUpload(disk: Disk, previous: Option<string>, name: string, contentSize: nat,
                     removeOk: string -> bool)
    modifies disk
    ensures disk.thumbDirExists && disk.files == old(disk.files)
    ensures Replaced(old(disk.thumbs), disk.thumbs, previous, name, contentSize, removeOk)
  {
    var thumbs := ReplaceEntry(disk.thumbs, previous, name, contentSize, removeOk);
    disk.thumbDirExists := true;
    disk.thumbs := thumbs;
  }
}
