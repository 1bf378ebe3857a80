/** The library scan (VideoService.scan_videos and its process_video_file):
    prune records whose file is gone, discover video files below the root,
    create or refresh their records in batches of ten, collect orphaned
    thumbnails and report progress through the scan status.  The probe,
    the clock, the outcome of each commit and of each file removal are
    parameters; the batch's files are processed one after another. */
module Reconciler {
  import opened Common
  import opened Paths
  import opened Records
  import opened Probe
  import opened ScanState
  import opened Thumbnails

  /** The suffix tuple, entries exactly as the scan lists them: three have
      no leading dot. */
  const VideoExtensions: seq<string> :=
    [".mp4", ".avi", ".mkv", ".mov", ".wmv", "3gp", "ts", ".flv", ".webm", ".m3u8", "mpeg"]

  const BatchSize: nat := 10

  /** file.lower().endswith(video_extensions). */
  predicate IsVideoName(name: string)
  {
    exists k :: 0 <= k < |VideoExtensions| && EndsWith(Lower(name), VideoExtensions[k])
  }

  /** Because "ts" has no dot, every name whose lower-cased form ends in
      "ts" is taken for a video, "Concerts" and "notes.txts" included. */
  lemma EndingInTsQualifies(name: string)
    requires EndsWith(Lower(name), "ts")
    ensures IsVideoName(name)
  {
    assert VideoExtensions[6] == "ts";
  }

  // ----------------------------------------------------------------- prune

  /** _get_abs_path: absolute paths are kept, relative ones are joined to
      the root and normalised. */
  function AbsPath(root: string, path: string, ops: PathOps): (r: string)
    ensures IsAbs(path) ==> r == path
  {
    if IsAbs(path) then path else ops.normalize(JoinPath(root, path))
  }

  /** A record survives the prune iff its resolved path exists and starts
      with the root as plain text. */
  predicate Keeps(files: map<string, FileStat>, root: string, ops: PathOps, v: Video)
  {
    AbsPath(root, v.filepath, ops) in files && StartsWith(AbsPath(root, v.filepath, ops), root)
  }

  /** The records the prune keeps, in table order. */
  function Surviving(vs: seq<Video>, files: map<string, FileStat>, root: string, ops: PathOps): seq<Video>
  {
    if |vs| == 0 then []
    else
      var last := vs[|vs| - 1];
      Surviving(vs[..|vs| - 1], files, root, ops) + (if Keeps(files, root, ops, last) then [last] else [])
  }

  /** The prune deletes exactly the records whose path is missing or lies
      outside the root, and keeps the others in order. */
  lemma {:induction false} SurvivingMembers(vs: seq<Video>, files: map<string, FileStat>, root: string, ops: PathOps)
    ensures forall w :: w in Surviving(vs, files, root, ops) <==> w in vs && Keeps(files, root, ops, w)
    ensures |Surviving(vs, files, root, ops)| <= |vs|
  {
    if |vs| > 0 {
      var init := vs[..|vs| - 1];
      SurvivingMembers(init, files, root, ops);
      assert vs == init + [vs[|vs| - 1]];
    }
  }

  /** The prefix test is textual: a file of "/media2" passes for the root
      "/media". */
  lemma SiblingDirectoryPassesPrefix(files: map<string, FileStat>, ops: PathOps, v: Video)
    requires v.filepath == "/media2/a.mp4" && v.filepath in files
    ensures Keeps(files, "/media", ops, v)
  {
    assert v.filepath[..6] == "/media";
  }

  /** The thumbnails-directory entries of the records the prune deletes. */
  function DoomedThumbs(vs: seq<Video>, files: map<string, FileStat>, root: string, ops: PathOps): set<string>
  {
    if |vs| == 0 then {}
    else
      var last := vs[|vs| - 1];
      DoomedThumbs(vs[..|vs| - 1], files, root, ops)
      + (if !Keeps(files, root, ops, last) && EntryOf(last.thumbnailPath).Some?
         then {EntryOf(last.thumbnailPath).value} else {})
  }

  /** Ids of the records the prune deletes. */
  function DoomedIds(vs: seq<Video>, files: map<string, FileStat>, root: string, ops: PathOps): set<int>
  {
    if |vs| == 0 then {}
    else
      var last := vs[|vs| - 1];
      DoomedIds(vs[..|vs| - 1], files, root, ops) + (if Keeps(files, root, ops, last) then {} else {last.id})
  }

  /** The deleted records' ids and thumbnail entries are exactly those of
      the records that fail the test. */
  lemma {:induction false} DoomedMembers(vs: seq<Video>, files: map<string, FileStat>, root: string, ops: PathOps)
    ensures forall id :: id in DoomedIds(vs, files, root, ops) <==>
      exists v :: v in vs && !Keeps(files, root, ops, v) && v.id == id
    ensures forall n :: n in DoomedThumbs(vs, files, root, ops) <==>
      exists v :: v in vs && !Keeps(files, root, ops, v) && EntryOf(v.thumbnailPath) == Some(n)
  {
    if |vs| > 0 {
      var init := vs[..|vs| - 1];
      DoomedMembers(init, files, root, ops);
      assert vs == init + [vs[|vs| - 1]];
      assert forall v :: v in vs <==> v in init || v == vs[|vs| - 1];
    }
  }

  /** Deleting a subset of the rows keeps the table's constraints. */
  lemma {:induction false} SurvivingValid(vs: seq<Video>, files: map<string, FileStat>, root: string, ops: PathOps)
    requires ValidTable(vs)
    ensures ValidTable(Surviving(vs, files, root, ops))
  {
    if |vs| > 0 {
      var init := vs[..|vs| - 1];
      var last := vs[|vs| - 1];
      var kept := Surviving(init, files, root, ops);
      assert ValidTable(init);
      SurvivingValid(init, files, root, ops);
      if Keeps(files, root, ops, last) {
        SurvivingMembers(init, files, root, ops);
        forall k | 0 <= k < |kept| ensures kept[k].id < last.id && kept[k].filepath != last.filepath {
          assert kept[k] in kept;
          var m :| 0 <= m < |init| && init[m] == kept[k];
          assert vs[m] == kept[k];
        }
        AppendKeepsValid(kept, last);
      } else {
        assert Surviving(vs, files, root, ops) == kept + [];
      }
    }
  }

  /** The three prune functions on one more record. */
  lemma PrefixStep(vs: seq<Video>, files: map<string, FileStat>, root: string, ops: PathOps, i: nat)
    requires i < |vs|
    ensures var v := vs[i];
      && Surviving(vs[..i + 1], files, root, ops)
        == Surviving(vs[..i], files, root, ops) + (if Keeps(files, root, ops, v) then [v] else [])
      && DoomedIds(vs[..i + 1], files, root, ops)
        == DoomedIds(vs[..i], files, root, ops) + (if Keeps(files, root, ops, v) then {} else {v.id})
      && DoomedThumbs(vs[..i + 1], files, root, ops)
        == DoomedThumbs(vs[..i], files, root, ops)
           + (if !Keeps(files, root, ops, v) && EntryOf(v.thumbnailPath).Some?
              then {EntryOf(v.thumbnailPath).value} else {})
  {
    assert vs[..i + 1][..i] == vs[..i];
  }

  /** The thumbnails-directory entries the prune removes: those of the
      deleted records that exist and whose removal succeeds. */
  function RemovedBy(start: map<string, nat>, doomed: set<string>, removeOk: string -> bool): (r: set<string>)
    ensures forall n :: n in r <==> n in start && n in doomed && removeOk(n)
  {
    set n | n in start && n in doomed && removeOk(n)
  }

  /** One more doomed name adds it to the removed set exactly when it
      exists, is not yet removed and its removal succeeds. */
  lemma RemovedByAdd(start: map<string, nat>, doomed: set<string>, removeOk: string -> bool, e: string)
    ensures var before := RemovedBy(start, doomed, removeOk);
      RemovedBy(start, doomed + {e}, removeOk)
        == if e in start && removeOk(e) && e !in before then before + {e} else before
  {
  }

  lemma SubtractOneMore(start: map<string, nat>, gone: set<string>, e: string)
    ensures (start - gone) - {e} == start - (gone + {e})
  {
  }

  /** The removal of one doomed record's thumbnail-directory entry e:
      the directory, the removed names and the counter follow one more
      doomed name. */
  method RemoveEntry(start: map<string, nat>, ghost doomed: set<string>, removeOk: string -> bool, e: string,
                     thumbs: map<string, nat>, ghost removed: set<string>, cleaned: nat)
    returns (thumbs': map<string, nat>, ghost removed': set<string>, cleaned': nat)
    requires removed == RemovedBy(start, doomed, removeOk)
    requires thumbs == start - removed && cleaned == |removed|
    ensures removed' == RemovedBy(start, doomed + {e}, removeOk)
    ensures thumbs' == start - removed' && cleaned' == |removed'|
  {
    RemovedByAdd(start, doomed, removeOk, e);
    thumbs', removed', cleaned' := thumbs, removed, cleaned;
    if e in thumbs && removeOk(e) {
      SubtractOneMore(start, removed, e);
      thumbs' := thumbs - {e};
      removed' := removed + {e};
      cleaned' := cleaned + 1;
    }
  }

  /** What the prune loop has computed after the first i rows. */
  ghost predicate PrunedUpTo(vs: seq<Video>, files: map<string, FileStat>, root: string, ops: PathOps,
                             removeOk: string -> bool, start: map<string, nat>, i: nat,
                             kept: seq<Video>, gone: set<int>, thumbs: map<string, nat>,
                             removed: set<string>, deleted: nat, cleaned: nat)
  {
    && i <= |vs|
    && kept == Surviving(vs[..i], files, root, ops)
    && deleted + |kept| == i
    && gone == DoomedIds(vs[..i], files, root, ops)
    && removed == RemovedBy(start, DoomedThumbs(vs[..i], files, root, ops), removeOk)
    && thumbs == start - removed
    && cleaned == |removed|
  }

  /** One iteration of the prune loop: row i is kept, or deleted together
      with its thumbnail. */
  method PruneRow(vs: seq<Video>, files: map<string, FileStat>, root: string, ops: PathOps,
                  removeOk: string -> bool, start: map<string, nat>, i: nat,
                  kept: seq<Video>, gone: set<int>, thumbs: map<string, nat>,
                  ghost removed: set<string>, deleted: nat, cleaned: nat)
    returns (kept': seq<Video>, gone': set<int>, thumbs': map<string, nat>,
             ghost removed': set<string>, deleted': nat, cleaned': nat)
    requires i < |vs|
    requires PrunedUpTo(vs, files, root, ops, removeOk, start, i, kept, gone, thumbs, removed, deleted, cleaned)
    ensures PrunedUpTo(vs, files, root, ops, removeOk, start, i + 1, kept', gone', thumbs', removed', deleted', cleaned')
  {
    var v := vs[i];
    PrefixStep(vs, files, root, ops, i);
    ghost var doomed := DoomedThumbs(vs[..i], files, root, ops);
    kept', gone', thumbs', removed', deleted', cleaned' := kept, gone, thumbs, removed, deleted, cleaned;
    if Keeps(files, root, ops, v) {
      kept' := kept + [v];
      assert DoomedThumbs(vs[..i + 1], files, root, ops) == doomed;
    } else {
      var e := EntryOf(v.thumbnailPath);
      if e.Some? {
        assert DoomedThumbs(vs[..i + 1], files, root, ops) == doomed + {e.value};
        thumbs', removed', cleaned' := RemoveEntry(start, doomed, removeOk, e.value, thumbs, removed, cleaned);
      } else {
        assert DoomedThumbs(vs[..i + 1], files, root, ops) == doomed;
      }
      deleted' := deleted + 1;
      gone' := gone + {v.id};
    }
  }

  /** The first loop of scan_videos over the rows vs and the thumbnails
      directory start: what survives, which ids go, what is left of the
      directory and the two counters. */
  method PruneLoop(vs: seq<Video>, files: map<string, FileStat>, root: string, ops: PathOps,
                   removeOk: string -> bool, start: map<string, nat>)
    returns (kept: seq<Video>, gone: set<int>, thumbs: map<string, nat>, deleted: nat, cleaned: nat)
    ensures kept == Surviving(vs, files, root, ops)
    ensures deleted == |vs| - |kept|
    ensures gone == DoomedIds(vs, files, root, ops)
    ensures thumbs == start - RemovedBy(start, DoomedThumbs(vs, files, root, ops), removeOk)
    ensures cleaned == |RemovedBy(start, DoomedThumbs(vs, files, root, ops), removeOk)|
  {
    thumbs := start;
    kept, gone := [], {};
    ghost var removed: set<string> := {};
    deleted, cleaned := 0, 0;
    for i := 0 to |vs|
      invariant PrunedUpTo(vs, files, root, ops, removeOk, start, i, kept, gone, thumbs, removed, deleted, cleaned)
    {
      kept, gone, thumbs, removed, deleted, cleaned :=
        PruneRow(vs, files, root, ops, removeOk, start, i, kept, gone, thumbs, removed, deleted, cleaned);
    }
    assert vs[..|vs|] == vs;
  }

  /** The association rows left after the prune: those of the deleted
      records go with them. */
  function PrunedLinks(links: set<(int, int)>, vs: seq<Video>, files: map<string, FileStat>, root: string,
                       ops: PathOps): set<(int, int)>
  {
    set l | l in links && l.0 !in DoomedIds(vs, files, root, ops)
  }

  /** The thumbnails directory left after the prune: the existing
      thumbnails of deleted records go where their removal succeeds. */
  function PrunedThumbs(thumbs: map<string, nat>, vs: seq<Video>, files: map<string, FileStat>, root: string,
                        ops: PathOps, removeOk: string -> bool): map<string, nat>
  {
    thumbs - RemovedBy(thumbs, DoomedThumbs(vs, files, root, ops), removeOk)
  }

  /** The prune applied to the catalog and the thumbnails directory. */
  method PruneRecords(cat: Catalog, disk: Disk, root: string, ops: PathOps, removeOk: string -> bool)
    returns (deleted: nat, cleaned: nat)
    requires cat.Valid()
    modifies cat, disk
    ensures cat.Valid()
    ensures cat.videos == Surviving(old(cat.videos), disk.files, root, ops)
    ensures deleted == |old(cat.videos)| - |cat.videos|
    // the association rows of deleted records go with them
    ensures cat.links == PrunedLinks(old(cat.links), old(cat.videos), disk.files, root, ops)
    ensures disk.files == old(disk.files) && disk.thumbDirExists == old(disk.thumbDirExists)
    // the existing thumbnails of deleted records are removed where removal succeeds
    ensures disk.thumbs == PrunedThumbs(old(disk.thumbs), old(cat.videos), disk.files, root, ops, removeOk)
    ensures cleaned == |RemovedBy(old(disk.thumbs), DoomedThumbs(old(cat.videos), disk.files, root, ops), removeOk)|
  {
    var kept, gone, thumbs;
    kept, gone, thumbs, deleted, cleaned := PruneLoop(cat.videos, disk.files, root, ops, removeOk, disk.thumbs);
    SurvivingValid(cat.videos, disk.files, root, ops);
    cat.videos := kept;
    cat.links := set l | l in cat.links && l.0 !in gone;
    disk.thumbs := thumbs;
  }

  // ------------------------------------------------------------- discovery

  /** The directory prefix every file below the root starts with. */
  function DirPrefix(root: string): string { JoinPath(root, "") }

  predicate Below(root: string, p: string)
  {
    StartsWith(p, DirPrefix(root)) && |p| > |DirPrefix(root)|
  }

  /** os.path.relpath(filepath, root_path) for a file below the root. */
  function Rel(root: string, p: string): (r: string)
    requires Below(root, p)
    ensures DirPrefix(root) + r == p && r != ""
  {
    p[|DirPrefix(root)|..]
  }

  /** What the os.walk loop collects: every file below the root whose name
      has one of the suffixes. */
  function Discovered(files: map<string, FileStat>, root: string): (ps: set<string>)
    ensures forall p :: p in ps <==> p in files && Below(root, p) && IsVideoName(Basename(p))
  {
    set p | p in files && Below(root, p) && IsVideoName(Basename(p))
  }

  /** The os.walk loop; the order of the resulting list is the file
      system's and arbitrary here. */
  method Discover(files: map<string, FileStat>, root: string) returns (order: seq<string>)
    ensures Distinct(order)
    ensures forall p :: p in order <==> p in Discovered(files, root)
  {
    var pending := Discovered(files, root);
    order := [];
    while pending != {}
      invariant pending <= Discovered(files, root)
      invariant forall p :: p in order <==> p in Discovered(files, root) && p !in pending
      invariant Distinct(order)
      decreases pending
    {
      var p :| p in pending;
      order := order + [p];
      pending := pending - {p};
    }
  }

  // ---------------------------------------------------------- one file

  /** The row process_video_file adds for a new file; the remaining
      columns take their declared defaults. */
  function NewRecord(id: int, fp: string, rel: string, st: FileStat, d: real, now: int): Video
  {
    Video(id, Basename(fp), rel, SizeMiB(st.size), d, None, false, false, true,
          now, Some(now), 0.0, None, None, false)
  }

  /** The record exists and was updated no earlier than the file changed. */
  predicate IsCurrent(vs: seq<Video>, fp: string, rel: string, st: FileStat)
  {
    var i := IndexOfPath(vs, rel, fp);
    i >= 0 && vs[i].updatedAt.Some? && vs[i].updatedAt.value >= st.mtime
  }

  /** process_video_file for the file at absolute path fp, stored as rel.
      An update that would give a second row the same filepath fails on
      the unique constraint and leaves the table as it was. */
  function ProcessOne(vs: seq<Video>, fp: string, rel: string, st: FileStat, probe: ProbeResult, now: int)
    : (r: seq<Video>)
    ensures |vs| <= |r| <= |vs| + 1
  {
    var i := IndexOfPath(vs, rel, fp);
    if IsCurrent(vs, fp, rel, st) then vs
    else
      var d := Duration(probe);
      if d <= 0.0 then vs
      else if i >= 0 then
        var j := IndexOfPath(vs, rel, rel);
        if j >= 0 && j != i then vs
        else
          vs[i := vs[i].(filepath := rel, size := SizeMiB(st.size), duration := d, updatedAt := Some(now))]
      else
        vs + [NewRecord(NextId(vs), fp, rel, st, d, now)]
  }

  /** The step keeps the table's constraints: a new row takes the next id
      and a path no row has, an updated row keeps its id and takes a path
      no other row has. */
  lemma ProcessOneValid(vs: seq<Video>, fp: string, rel: string, st: FileStat, probe: ProbeResult, now: int)
    ensures ValidTable(vs) ==> ValidTable(ProcessOne(vs, fp, rel, st, probe, now))
  {
    var i := IndexOfPath(vs, rel, fp);
    var j := IndexOfPath(vs, rel, rel);
    var d := Duration(probe);
    if ValidTable(vs) && !IsCurrent(vs, fp, rel, st) && d > 0.0 {
      if i >= 0 {
        if j == -1 || j == i {
          UpdateKeepsValid(vs, i, vs[i].(filepath := rel, size := SizeMiB(st.size), duration := d, updatedAt := Some(now)));
        }
      } else {
        AppendKeepsValid(vs, NewRecord(NextId(vs), fp, rel, st, d, now));
      }
    }
  }

  /** A current record is skipped whatever the probe would say: the file is
      not probed and nothing is written. */
  lemma CurrentRecordSkipped(vs: seq<Video>, fp: string, rel: string, st: FileStat, now: int)
    requires IsCurrent(vs, fp, rel, st)
    ensures forall probe :: ProcessOne(vs, fp, rel, st, probe, now) == vs
  {
  }

  /** No positive duration, no write. */
  lemma NoDurationNoWrite(vs: seq<Video>, fp: string, rel: string, st: FileStat, probe: ProbeResult, now: int)
    requires Duration(probe) <= 0.0
    ensures ProcessOne(vs, fp, rel, st, probe, now) == vs
  {
  }

  /** A file without a record gets one, with no thumbnail yet, exactly when
      its duration is positive. */
  lemma NewFileRecord(vs: seq<Video>, fp: string, rel: string, st: FileStat, probe: ProbeResult, now: int)
    requires IndexOfPath(vs, rel, fp) == -1 && Duration(probe) > 0.0
    ensures var r := ProcessOne(vs, fp, rel, st, probe, now);
      && |r| == |vs| + 1 && r[..|vs|] == vs
      && r[|vs|].filepath == rel && r[|vs|].filename == Basename(fp)
      && r[|vs|].size == SizeMiB(st.size) && r[|vs|].duration == Duration(probe)
      && r[|vs|].thumbnailPath.None? && !r[|vs|].thumbnailGenerated
  {
    var r := ProcessOne(vs, fp, rel, st, probe, now);
    assert r == vs + [r[|vs|]];
  }

  /** An existing, outdated record is rewritten in place: its filepath
      becomes the root-relative path, size, duration and updated_at are
      refreshed and every other row stays as it was. */
  lemma OutdatedRecordRefreshed(vs: seq<Video>, fp: string, rel: string, st: FileStat, probe: ProbeResult, now: int)
    requires !IsCurrent(vs, fp, rel, st) && Duration(probe) > 0.0
    requires IndexOfPath(vs, rel, fp) >= 0
    requires forall k :: 0 <= k < |vs| && k != IndexOfPath(vs, rel, fp) ==> vs[k].filepath != rel
    ensures var i := IndexOfPath(vs, rel, fp);
      var r := ProcessOne(vs, fp, rel, st, probe, now);
      && |r| == |vs|
      && r[i] == vs[i].(filepath := rel, size := SizeMiB(st.size), duration := Duration(probe), updatedAt := Some(now))
      && forall k :: 0 <= k < |vs| && k != i ==> r[k] == vs[k]
  {
    var i := IndexOfPath(vs, rel, fp);
    var j := IndexOfPath(vs, rel, rel);
    assert j == -1 || j == i;
  }

  /** Every row of the result is an input row or the row of this file,
      carrying its positive duration. */
  lemma ProcessOneProvenance(vs: seq<Video>, fp: string, rel: string, st: FileStat, probe: ProbeResult, now: int)
    ensures forall w :: w in ProcessOne(vs, fp, rel, st, probe, now) ==>
      w in vs || (w.filepath == rel && w.duration == Duration(probe) > 0.0)
  {
  }

  /** process_video_file as written. `thumbnail_generated` is not a column
      of the Video model (models/video.py:7-22), so the constructor call
      for a file without a record raises TypeError. Its text is not a
      unique-constraint failure, so the handler returns None and no row is
      added. The update of an existing row names mapped columns only and
      is as in ProcessOne. */
  function ProcessOneAsWritten(vs: seq<Video>, fp: string, rel: string, st: FileStat, probe: ProbeResult, now: int)
    : (r: seq<Video>)
    ensures |r| == |vs|
    ensures IndexOfPath(vs, rel, fp) == -1 ==> r == vs
  {
    if IndexOfPath(vs, rel, fp) == -1 then vs else ProcessOne(vs, fp, rel, st, probe, now)
  }

  /** A new file with a positive duration: as written it gets no row,
      while ProcessOne appends one. */
  lemma NewFileDroppedAsWritten(vs: seq<Video>, fp: string, rel: string, st: FileStat, probe: ProbeResult, now: int)
    requires IndexOfPath(vs, rel, fp) == -1 && Duration(probe) > 0.0
    ensures ProcessOneAsWritten(vs, fp, rel, st, probe, now) == vs
    ensures |ProcessOne(vs, fp, rel, st, probe, now)| == |vs| + 1
  {
    NewFileRecord(vs, fp, rel, st, probe, now);
  }

  // ------------------------------------------------------------ batches

  /** Every scanned file is in the file map and below the root. */
  predicate Scannable(order: seq<string>, files: map<string, FileStat>, root: string)
  {
    forall k :: 0 <= k < |order| ==> order[k] in files && Below(root, order[k])
  }

  /** process_video_file for the file at position k of the walk order (a
      position past the end, which the scan never reaches, changes nothing). */
  function ScanFile(order: seq<string>, files: map<string, FileStat>, root: string,
                    probe: string -> ProbeResult, now: int, vs: seq<Video>, k: nat): seq<Video>
  {
    if k < |order| && order[k] in files && Below(root, order[k])
    then ProcessOne(vs, order[k], Rel(root, order[k]), files[order[k]], probe(order[k]), now)
    else vs
  }

  /** ScanFile as the step function the batch functions take. */
  function ScanStep(order: seq<string>, files: map<string, FileStat>, root: string,
                    probe: string -> ProbeResult, now: int): (seq<Video>, nat) -> seq<Video>
  {
    (vs: seq<Video>, k: nat) => ScanFile(order, files, root, probe, now, vs, k)
  }

  /** step processes the files of this walk.  The batch methods are stated
      for any such step, so only the one that processes a file needs to
      look inside it. */
  ghost predicate Scans(step: (seq<Video>, nat) -> seq<Video>, order: seq<string>, files: map<string, FileStat>,
                        root: string, probe: string -> ProbeResult, now: int)
  {
    forall vs: seq<Video>, k: nat {:trigger ScanFile(order, files, root, probe, now, vs, k)} ::
      step(vs, k) == ScanFile(order, files, root, probe, now, vs, k)
  }

  /** The files at positions lo .. hi-1, processed in order. */
  function RunFiles(vs: seq<Video>, lo: nat, hi: nat, step: (seq<Video>, nat) -> seq<Video>): seq<Video>
    requires lo <= hi
    decreases hi - lo
  {
    if hi == lo then vs else step(RunFiles(vs, lo, hi - 1, step), hi - 1)
  }

  /** The batches from position lo of total on: consecutive slices of ten,
      each kept when its commit succeeds and rolled back to the state after
      the previous commit otherwise. */
  function RunBatches(vs: seq<Video>, lo: nat, total: nat, step: (seq<Video>, nat) -> seq<Video>,
                      commitOk: nat -> bool, batch: nat): seq<Video>
    requires lo <= total
    decreases total - lo
  {
    if lo == total then vs
    else
      var hi := lo + Min(BatchSize, total - lo);
      RunBatches(if commitOk(batch) then RunFiles(vs, lo, hi, step) else vs, hi, total, step, commitOk, batch + 1)
  }

  /** One batch of RunBatches, unfolded. */
  lemma RunBatchesStep(vs: seq<Video>, lo: nat, total: nat, step: (seq<Video>, nat) -> seq<Video>,
                       commitOk: nat -> bool, batch: nat)
    requires lo < total
    ensures var hi := lo + Min(BatchSize, total - lo);
      RunBatches(vs, lo, total, step, commitOk, batch)
        == RunBatches(if commitOk(batch) then RunFiles(vs, lo, hi, step) else vs, hi, total, step, commitOk, batch + 1)
  {
  }

  ghost predicate KeepsTable(step: (seq<Video>, nat) -> seq<Video>)
  {
    forall vs, k :: ValidTable(vs) ==> ValidTable(step(vs, k))
  }

  lemma ScanStepKeepsTable(order: seq<string>, files: map<string, FileStat>, root: string,
                           probe: string -> ProbeResult, now: int)
    ensures KeepsTable(ScanStep(order, files, root, probe, now))
  {
    var step := ScanStep(order, files, root, probe, now);
    forall vs, k: nat | ValidTable(vs) ensures ValidTable(step(vs, k)) {
      if k < |order| && order[k] in files && Below(root, order[k]) {
        ProcessOneValid(vs, order[k], Rel(root, order[k]), files[order[k]], probe(order[k]), now);
      }
    }
  }

  lemma {:induction false} RunFilesValid(vs: seq<Video>, lo: nat, hi: nat, step: (seq<Video>, nat) -> seq<Video>)
    requires lo <= hi && ValidTable(vs) && KeepsTable(step)
    ensures ValidTable(RunFiles(vs, lo, hi, step))
    decreases hi - lo
  {
    if hi > lo {
      RunFilesValid(vs, lo, hi - 1, step);
    }
  }

  /** The batches keep the table's constraints, whichever commits fail. */
  lemma {:induction false} RunBatchesValid(vs: seq<Video>, lo: nat, total: nat, step: (seq<Video>, nat) -> seq<Video>,
                                           commitOk: nat -> bool, batch: nat)
    requires lo <= total && ValidTable(vs) && KeepsTable(step)
    ensures ValidTable(RunBatches(vs, lo, total, step, commitOk, batch))
    decreases total - lo
  {
    if lo < total {
      var hi := lo + Min(BatchSize, total - lo);
      RunFilesValid(vs, lo, hi, step);
      RunBatchesValid(if commitOk(batch) then RunFiles(vs, lo, hi, step) else vs, hi, total, step, commitOk, batch + 1);
    }
  }

  /** ScanStep with process_video_file as written. */
  function ScanStepAsWritten(order: seq<string>, files: map<string, FileStat>, root: string,
                             probe: string -> ProbeResult, now: int): (seq<Video>, nat) -> seq<Video>
  {
    (vs: seq<Video>, k: nat) =>
      if k < |order| && order[k] in files && Below(root, order[k])
      then ProcessOneAsWritten(vs, order[k], Rel(root, order[k]), files[order[k]], probe(order[k]), now)
      else vs
  }

  ghost predicate KeepsCount(step: (seq<Video>, nat) -> seq<Video>)
  {
    forall vs, k :: |step(vs, k)| == |vs|
  }

  lemma {:induction false} RunFilesKeepsCount(vs: seq<Video>, lo: nat, hi: nat, step: (seq<Video>, nat) -> seq<Video>)
    requires lo <= hi && KeepsCount(step)
    ensures |RunFiles(vs, lo, hi, step)| == |vs|
    decreases hi - lo
  {
    if hi > lo {
      RunFilesKeepsCount(vs, lo, hi - 1, step);
    }
  }

  lemma {:induction false} RunBatchesKeepsCount(vs: seq<Video>, lo: nat, total: nat, step: (seq<Video>, nat) -> seq<Video>,
                                                commitOk: nat -> bool, batch: nat)
    requires lo <= total && KeepsCount(step)
    ensures |RunBatches(vs, lo, total, step, commitOk, batch)| == |vs|
    decreases total - lo
  {
    if lo < total {
      var hi := lo + Min(BatchSize, total - lo);
      RunFilesKeepsCount(vs, lo, hi, step);
      RunBatchesKeepsCount(if commitOk(batch) then RunFiles(vs, lo, hi, step) else vs, hi, total, step,
                           commitOk, batch + 1);
    }
  }

  /** As written, the batches of a scan never add a row: the table after
      them has as many videos as before, whatever the files. */
  lemma ScanAddsNothingAsWritten(vs: seq<Video>, order: seq<string>, files: map<string, FileStat>, root: string,
                                 probe: string -> ProbeResult, now: int, commitOk: nat -> bool)
    ensures |RunBatches(vs, 0, |order|, ScanStepAsWritten(order, files, root, probe, now), commitOk, 0)| == |vs|
  {
    RunBatchesKeepsCount(vs, 0, |order|, ScanStepAsWritten(order, files, root, probe, now), commitOk, 0);
  }

  /** w is the row the file at position k wrote: its relative path and a
      positive probe duration. */
  predicate WrittenBy(w: Video, order: seq<string>, k: nat, root: string, probe: string -> ProbeResult)
  {
    k < |order| && Below(root, order[k])
    && w.filepath == Rel(root, order[k]) && w.duration == Duration(probe(order[k])) > 0.0
  }

  /** Every row a step leaves is a row it was given or the row of its file. */
  ghost predicate WritesOwnRow(step: (seq<Video>, nat) -> seq<Video>, order: seq<string>, root: string,
                               probe: string -> ProbeResult)
  {
    forall vs, k, w :: w in step(vs, k) ==> w in vs || WrittenBy(w, order, k, root, probe)
  }

  lemma ScanStepWritesOwnRow(order: seq<string>, files: map<string, FileStat>, root: string,
                             probe: string -> ProbeResult, now: int)
    ensures WritesOwnRow(ScanStep(order, files, root, probe, now), order, root, probe)
  {
    var step := ScanStep(order, files, root, probe, now);
    forall vs, k: nat, w | w in step(vs, k) ensures w in vs || WrittenBy(w, order, k, root, probe) {
      if k < |order| && order[k] in files && Below(root, order[k]) {
        ProcessOneProvenance(vs, order[k], Rel(root, order[k]), files[order[k]], probe(order[k]), now);
      }
    }
  }

  /** A row that one of the files at positions lo .. hi-1 wrote. */
  predicate FromPositiveProbe(w: Video, order: seq<string>, lo: nat, hi: nat, root: string,
                              probe: string -> ProbeResult)
  {
    exists k :: lo <= k < hi && WrittenBy(w, order, k, root, probe)
  }

  lemma {:induction false} RunFilesProvenance(vs: seq<Video>, lo: nat, hi: nat, step: (seq<Video>, nat) -> seq<Video>,
                                              order: seq<string>, root: string, probe: string -> ProbeResult)
    requires lo <= hi && WritesOwnRow(step, order, root, probe)
    ensures forall w :: w in RunFiles(vs, lo, hi, step) ==> w in vs || FromPositiveProbe(w, order, lo, hi, root, probe)
    decreases hi - lo
  {
    if hi > lo {
      RunFilesProvenance(vs, lo, hi - 1, step, order, root, probe);
      var prev := RunFiles(vs, lo, hi - 1, step);
      forall w | w in RunFiles(vs, lo, hi, step)
        ensures w in vs || FromPositiveProbe(w, order, lo, hi, root, probe)
      {
        if w !in prev {
          assert WrittenBy(w, order, hi - 1, root, probe);
        } else if w !in vs {
          var k :| lo <= k < hi - 1 && WrittenBy(w, order, k, root, probe);
          assert lo <= k < hi;
        }
      }
    }
  }

  /** Whatever the commits do, every row after the batches is a row from
      before them or the row of a scanned file with a positive duration:
      a file whose probe fails never gets a record. */
  lemma {:induction false} RunBatchesProvenance(vs: seq<Video>, lo: nat, total: nat,
                                                step: (seq<Video>, nat) -> seq<Video>, commitOk: nat -> bool,
                                                batch: nat, order: seq<string>, root: string,
                                                probe: string -> ProbeResult)
    requires lo <= total && WritesOwnRow(step, order, root, probe)
    ensures forall w :: w in RunBatches(vs, lo, total, step, commitOk, batch) ==>
      w in vs || FromPositiveProbe(w, order, lo, total, root, probe)
    decreases total - lo
  {
    if lo < total {
      var hi := lo + Min(BatchSize, total - lo);
      RunFilesProvenance(vs, lo, hi, step, order, root, probe);
      var next := if commitOk(batch) then RunFiles(vs, lo, hi, step) else vs;
      RunBatchesProvenance(next, hi, total, step, commitOk, batch + 1, order, root, probe);
      forall w | w in RunBatches(vs, lo, total, step, commitOk, batch)
        ensures w in vs || FromPositiveProbe(w, order, lo, total, root, probe)
      {
        if w !in next {
          var k :| hi <= k < total && WrittenBy(w, order, k, root, probe);
          assert lo <= k < total;
        } else if w !in vs {
          var k :| lo <= k < hi && WrittenBy(w, order, k, root, probe);
          assert lo <= k < total;
        }
      }
    }
  }

  // ------------------------------------------------------------- progress

  /** processed / total, the value written after each file. */
  function Ratio(k: nat, t: nat): real
    requires 0 < t
  {
    k as real / t as real
  }

  lemma RatioInUnit(k: nat, t: nat)
    requires 0 < t && k <= t
    ensures 0.0 <= Ratio(k, t) <= 1.0
  {
    assert Ratio(k, t) * (t as real) == k as real;
  }

  /** The values written after files lo+1 .. hi. */
  function Fractions(lo: nat, hi: nat, t: nat): (r: seq<real>)
    requires lo <= hi && 0 < t
    ensures |r| == hi - lo
    decreases hi - lo
  {
    if hi == lo then [] else Fractions(lo, hi - 1, t) + [Ratio(hi, t)]
  }

  lemma {:induction false} FractionsAt(lo: nat, hi: nat, t: nat, i: nat)
    requires lo <= i < hi && 0 < t
    ensures Fractions(lo, hi, t)[i - lo] == Ratio(i + 1, t)
    decreases hi - lo
  {
    if i + 1 < hi {
      FractionsAt(lo, hi - 1, t, i);
    }
  }

  /** One more value at the end of a log that ends in Fractions(lo, hi, t). */
  lemma FractionsStep(log: seq<real>, lo: nat, hi: nat, t: nat)
    requires lo <= hi && 0 < t
    ensures (log + Fractions(lo, hi, t)) + [Ratio(hi + 1, t)] == log + Fractions(lo, hi + 1, t)
  {
    AppendAssoc(log, Fractions(lo, hi, t), [Ratio(hi + 1, t)]);
  }

  lemma FractionsExtend(log: seq<real>, lo: nat, mid: nat, hi: nat, t: nat)
    requires lo <= mid <= hi && 0 < t
    ensures (log + Fractions(lo, mid, t)) + Fractions(mid, hi, t) == log + Fractions(lo, hi, t)
  {
    FractionsSplit(lo, mid, hi, t);
    AppendAssoc(log, Fractions(lo, mid, t), Fractions(mid, hi, t));
  }

  lemma {:induction false} FractionsSplit(lo: nat, mid: nat, hi: nat, t: nat)
    requires lo <= mid <= hi && 0 < t
    ensures Fractions(lo, hi, t) == Fractions(lo, mid, t) + Fractions(mid, hi, t)
    decreases hi - mid
  {
    if hi > mid {
      FractionsSplit(lo, mid, hi - 1, t);
    }
  }



  /** The scan-status entries the batch loop never writes. */
  function Counters(st: ScanStatus): (bool, int, int)
    reads st
  {
    (st.completed, st.totalFiles, st.processedFiles)
  }

  /** The state of the batch loop over t files once the files lo .. k-1
      are processed by step, for a slice that started from the rows vs0,
      the association rows links0, the progress log log0 and the
      counters counters0. */
  ghost predicate Midway(cat: Catalog, st: ScanStatus, step: (seq<Video>, nat) -> seq<Video>, t: nat,
                         vs0: seq<Video>, links0: set<(int, int)>, log0: seq<real>, counters0: (bool, int, int),
                         lo: nat, k: nat)
    reads cat, st
  {
    && lo <= k <= t && 0 < t
    && cat.Valid() && st.Valid() && cat.links == links0 && Counters(st) == counters0
    && cat.videos == RunFiles(vs0, lo, k, step)
    && st.progressLog == log0 + Fractions(lo, k, t)
    && (lo < k ==> st.progress == Ratio(k, t) && st.status == Processing(k, t))
  }

  /** One file of the batch loop: the file at position k processed, then
      the counter and the message advanced to k + 1. */
  method ProcessFile(cat: Catalog, files: map<string, FileStat>, st: ScanStatus, order: seq<string>,
                     root: string, probe: string -> ProbeResult, now: int,
                     ghost step: (seq<Video>, nat) -> seq<Video>, ghost vs0: seq<Video>,
                     ghost links0: set<(int, int)>, ghost log0: seq<real>, ghost counters0: (bool, int, int),
                     lo: nat, k: nat)
    requires k < |order| && Scannable(order, files, root) && Scans(step, order, files, root, probe, now)
    requires Midway(cat, st, step, |order|, vs0, links0, log0, counters0, lo, k)
    modifies cat, st
    ensures Midway(cat, st, step, |order|, vs0, links0, log0, counters0, lo, k + 1)
  {
    var p := order[k];
    ghost var before := cat.videos;
    ProcessOneValid(cat.videos, p, Rel(root, p), files[p], probe(p), now);
    cat.videos := ProcessOne(cat.videos, p, Rel(root, p), files[p], probe(p), now);
    assert cat.videos == ScanFile(order, files, root, probe, now, before, k);
    RatioInUnit(k + 1, |order|);
    st.UpdateProgress(Ratio(k + 1, |order|), Some(Processing(k + 1, |order|)), None);
    FractionsStep(log0, lo, k, |order|);
  }

  /** One slice order[i..i+n], file after file. */
  method ProcessBatch(cat: Catalog, files: map<string, FileStat>, st: ScanStatus, order: seq<string>,
                      root: string, probe: string -> ProbeResult, now: int,
                      ghost step: (seq<Video>, nat) -> seq<Video>, i: nat, n: nat)
    requires cat.Valid() && st.Valid() && 0 < n && i + n <= |order|
    requires Scannable(order, files, root) && Scans(step, order, files, root, probe, now)
    modifies cat, st
    ensures Midway(cat, st, step, |order|, old(cat.videos), old(cat.links), old(st.progressLog), old(Counters(st)), i, i + n)
  {
    ghost var vs0, links0, log0, counters0 := cat.videos, cat.links, st.progressLog, Counters(st);
    var k := i;
    while k < i + n
      invariant k <= i + n
      invariant Midway(cat, st, step, |order|, vs0, links0, log0, counters0, i, k)
    {
      ProcessFile(cat, files, st, order, root, probe, now, step, vs0, links0, log0, counters0, i, k);
      k := k + 1;
    }
  }

  /** One batch and its commit: the slice's rows are kept when the commit
      succeeds and rolled back otherwise; the progress stays advanced. */
  method CommitBatch(cat: Catalog, files: map<string, FileStat>, st: ScanStatus, order: seq<string>,
                     root: string, probe: string -> ProbeResult, now: int, commitOk: nat -> bool,
                     ghost step: (seq<Video>, nat) -> seq<Video>, i: nat, b: nat)
    returns (n: nat)
    requires cat.Valid() && st.Valid() && i < |order|
    requires Scannable(order, files, root) && Scans(step, order, files, root, probe, now)
    modifies cat, st
    ensures n == Min(BatchSize, |order| - i) && 0 < n
    ensures cat.Valid() && cat.links == old(cat.links)
    ensures RunBatches(old(cat.videos), i, |order|, step, commitOk, b)
      == RunBatches(cat.videos, i + n, |order|, step, commitOk, b + 1)
    ensures st.Valid() && st.progressLog == old(st.progressLog) + Fractions(i, i + n, |order|)
    ensures st.progress == Ratio(i + n, |order|) && st.status == Processing(i + n, |order|)
    ensures Counters(st) == old(Counters(st))
  {
    n := Min(BatchSize, |order| - i);
    var committed := cat.videos;
    RunBatchesStep(committed, i, |order|, step, commitOk, b);
    ProcessBatch(cat, files, st, order, root, probe, now, step, i, n);
    if !commitOk(b) {
      cat.videos := committed;
    }
  }

  /** The state of the batch loop before the file at position i, the
      first of batch b. */
  ghost predicate Batched(cat: Catalog, st: ScanStatus, step: (seq<Video>, nat) -> seq<Video>,
                          commitOk: nat -> bool, t: nat, vs0: seq<Video>, links0: set<(int, int)>,
                          log0: seq<real>, counters0: (bool, int, int), i: nat, b: nat)
    reads cat, st
  {
    && i <= t && 0 < t
    && cat.Valid() && st.Valid() && cat.links == links0 && Counters(st) == counters0
    && RunBatches(vs0, 0, t, step, commitOk, 0) == RunBatches(cat.videos, i, t, step, commitOk, b)
    && st.progressLog == log0 + Fractions(0, i, t)
    && (i > 0 ==> st.progress == Ratio(i, t) && st.status == Processing(i, t))
  }

  /** One pass of the batch loop, from file i to the next batch boundary. */
  method NextBatch(cat: Catalog, files: map<string, FileStat>, st: ScanStatus, order: seq<string>,
                   root: string, probe: string -> ProbeResult, now: int, commitOk: nat -> bool,
                   ghost step: (seq<Video>, nat) -> seq<Video>, ghost vs0: seq<Video>,
                   ghost links0: set<(int, int)>, ghost log0: seq<real>, ghost counters0: (bool, int, int),
                   i: nat, b: nat)
    returns (i': nat)
    requires i < |order| && Scannable(order, files, root) && Scans(step, order, files, root, probe, now)
    requires Batched(cat, st, step, commitOk, |order|, vs0, links0, log0, counters0, i, b)
    modifies cat, st
    ensures i < i'
    ensures Batched(cat, st, step, commitOk, |order|, vs0, links0, log0, counters0, i', b + 1)
  {
    var n := CommitBatch(cat, files, st, order, root, probe, now, commitOk, step, i, b);
    FractionsExtend(log0, 0, i, i + n, |order|);
    i' := i + n;
  }

  /** The batch loop with its per-file progress updates and per-batch
      commits.  Every file advances the counter once, in order. */
  method ProcessBatches(cat: Catalog, files: map<string, FileStat>, st: ScanStatus, order: seq<string>,
                        root: string, probe: string -> ProbeResult, now: int, commitOk: nat -> bool,
                        ghost step: (seq<Video>, nat) -> seq<Video>)
    requires cat.Valid() && st.Valid() && |order| > 0
    requires Scannable(order, files, root) && Scans(step, order, files, root, probe, now)
    modifies cat, st
    ensures cat.Valid() && cat.links == old(cat.links)
    ensures cat.videos == RunBatches(old(cat.videos), 0, |order|, step, commitOk, 0)
    ensures st.Valid() && st.progressLog == old(st.progressLog) + Fractions(0, |order|, |order|)
    ensures st.progress == 1.0 && st.status == Processing(|order|, |order|)
    ensures Counters(st) == old(Counters(st))
  {
    var t := |order|;
    ghost var log0 := st.progressLog;
    ghost var vs0 := cat.videos;
    ghost var links0 := cat.links;
    ghost var counters0 := Counters(st);
    var i := 0;
    var b: nat := 0;
    while i < t
      invariant Batched(cat, st, step, commitOk, t, vs0, links0, log0, counters0, i, b)
      decreases t - i
    {
      i := NextBatch(cat, files, st, order, root, probe, now, commitOk, step, vs0, links0, log0, counters0, i, b);
      b := b + 1;
    }
    assert RunBatches(cat.videos, i, t, step, commitOk, b) == cat.videos;
    assert Ratio(t, t) == 1.0;
  }

  // ----------------------------------------------------------------- scan

  predicate NoRoot(rootSetting: Option<string>) { rootSetting.None? || rootSetting.value == "" }

  /** The progress values the prune phase writes. */
  function PruneLog(pruned: bool): seq<real>
  {
    [0.0] + (if pruned then [0.0] else [])
  }

  /** The progress values the batches and the cleanup write for this many files. */
  function BatchLog(files: nat): seq<real>
    requires files > 0
  {
    Fractions(0, files, files) + [0.95, 1.0]
  }

  /** The progress values the scan writes from the discovery on. */
  function FileLog(files: nat): seq<real>
  {
    [0.0] + (if files == 0 then [1.0] else BatchLog(files))
  }

  /** The progress values a scan with a root writes, in order. */
  function ScanLog(pruned: bool, files: nat): seq<real>
  {
    PruneLog(pruned) + FileLog(files)
  }

  /** Progress is not monotone: after the last file it falls from 1.0 back
      to 0.95 before the thumbnail cleanup. */
  lemma ProgressFallsBack(pruned: bool, files: nat)
    requires files > 0
    ensures var log := ScanLog(pruned, files);
      exists i, j :: 0 <= i < j < |log| && log[i] == 1.0 && log[j] == 0.95
  {
    var log := ScanLog(pruned, files);
    var off := if pruned then 3 else 2;
    FractionsAt(0, files, files, files - 1);
    assert log[off + files - 1] == Fractions(0, files, files)[files - 1];
    assert Ratio(files, files) == 1.0;
    assert log[off + files] == 0.95;
  }

  /** The first phase of a scan with a root: the prune and its two or
      three status updates.  The deletions are committed only when there
      are some; when that commit fails (`commitOk` false) the exception
      escapes: the deleted rows come back, the thumbnails already removed
      stay removed, and the status stays at the prune message. */
  method PrunePhase(cat: Catalog, disk: Disk, st: ScanStatus, root: string, ops: PathOps,
                    removeOk: string -> bool, commitOk: bool)
    returns (pruned: bool, escaped: bool)
    requires cat.Valid() && st.Valid()
    modifies cat, disk, st
    ensures cat.Valid() && st.Valid()
    ensures escaped <==> |Surviving(old(cat.videos), old(disk.files), root, ops)| < |old(cat.videos)| && !commitOk
    ensures cat.videos == if escaped then old(cat.videos) else Surviving(old(cat.videos), disk.files, root, ops)
    ensures cat.links == if escaped then old(cat.links) else PrunedLinks(old(cat.links), old(cat.videos), disk.files, root, ops)
    ensures pruned <==> |cat.videos| < |old(cat.videos)|
    ensures st.progressLog == old(st.progressLog) + PruneLog(pruned)
    ensures escaped ==> st.progress == 0.0 && st.status == PruningRecords
    ensures st.completed == old(st.completed)
    ensures st.totalFiles == old(st.totalFiles) && st.processedFiles == old(st.processedFiles)
    ensures disk.files == old(disk.files) && disk.thumbDirExists == old(disk.thumbDirExists)
    // thumbnails removed before a failed commit stay removed
    ensures disk.thumbs == PrunedThumbs(old(disk.thumbs), old(cat.videos), disk.files, root, ops, removeOk)
  {
    var videos0, links0 := cat.videos, cat.links;
    st.UpdateProgress(0.0, Some(PruningRecords), None);
    var deleted, cleaned := PruneRecords(cat, disk, root, ops, removeOk);
    SurvivingMembers(old(cat.videos), disk.files, root, ops);
    escaped := deleted > 0 && !commitOk;
    if escaped {
      cat.videos, cat.links := videos0, links0;
      pruned := false;
      return;
    }
    pruned := deleted > 0;
    if pruned {
      st.UpdateProgress(0.0, Some(Pruned(deleted, cleaned)), None);
    }
  }

  /** The last phase of a scan that found files: the batches, the orphan
      cleanup and the final status. */
  method FilePhase(cat: Catalog, disk: Disk, st: ScanStatus, order: seq<string>, root: string,
                   probe: string -> ProbeResult, md5: string -> string, removeOk: string -> bool,
                   commitOk: nat -> bool, now: int, ghost step: (seq<Video>, nat) -> seq<Video>)
    returns (orphans: seq<string>)
    requires cat.Valid() && st.Valid() && |order| > 0
    requires Scannable(order, disk.files, root) && Scans(step, order, disk.files, root, probe, now)
    modifies cat, disk, st
    ensures cat.Valid() && st.Valid()
    ensures Counters(st) == (true, old(st.totalFiles), old(st.processedFiles))
    ensures disk.files == old(disk.files)
    ensures cat.videos == RunBatches(old(cat.videos), 0, |order|, step, commitOk, 0)
    ensures cat.links == old(cat.links)
    ensures st.progress == 1.0 && st.status == Finished(|orphans|)
    ensures st.progressLog == old(st.progressLog) + BatchLog(|order|)
    // the cleanup removes exactly the unprotected thumbnails the remover accepts
    ensures !old(disk.thumbDirExists) ==> orphans == []
    ensures old(disk.thumbDirExists) ==>
      forall n :: n in orphans <==> n in Orphans(old(disk.thumbs), cat.videos, md5) && removeOk(n)
    ensures disk.thumbDirExists == old(disk.thumbDirExists)
    ensures forall n :: n in disk.thumbs <==> n in old(disk.thumbs) && n !in orphans
    ensures forall n :: n in disk.thumbs ==> disk.thumbs[n] == old(disk.thumbs)[n]
  {
    ProcessBatches(cat, disk.files, st, order, root, probe, now, commitOk, step);
    st.UpdateProgress(0.95, Some(CleaningThumbnails), None);
    var count, size, removed := CleanupOrphanedThumbnails(cat, disk, md5, removeOk);
    orphans := removed;
    st.UpdateProgress(1.0, Some(Finished(count)), Some(true));
    AppendAssoc(old(st.progressLog), Fractions(0, |order|, |order|), [0.95, 1.0]);
  }

  /** scan_videos.  `order` is the walk order used and `orphans` the
      thumbnails the final cleanup deleted; `escaped` says that the prune
      commit failed (`pruneCommitOk` false) and its exception ended the
      scan before the handler around the discovery was entered. */
  method Scan(cat: Catalog, disk: Disk, st: ScanStatus, rootSetting: Option<string>, ops: PathOps,
              probe: string -> ProbeResult, md5: string -> string, removeOk: string -> bool,
              pruneCommitOk: bool, commitOk: nat -> bool, now: int)
    returns (order: seq<string>, orphans: seq<string>, escaped: bool)
    requires cat.Valid() && st.Valid()
    modifies cat, disk, st
    ensures cat.Valid() && st.Valid()
    ensures st.totalFiles == old(st.totalFiles) && st.processedFiles == old(st.processedFiles)
    ensures !escaped ==> st.completed
    ensures disk.files == old(disk.files)
    ensures forall n :: n in disk.thumbs ==> n in old(disk.thumbs)
    ensures NoRoot(rootSetting) ==>
      && !escaped
      && st.progress == 0.0 && st.status == NoRootSet
      && st.progressLog == old(st.progressLog) + [0.0]
      && cat.videos == old(cat.videos) && cat.links == old(cat.links)
      && disk.thumbs == old(disk.thumbs) && order == [] && orphans == []
    // a failed prune commit leaves the records, the progress at 0 and the
    // scan not completed
    ensures !NoRoot(rootSetting) ==>
      var root := ops.normalize(rootSetting.value);
      escaped <==> !pruneCommitOk && |Surviving(old(cat.videos), old(disk.files), root, ops)| < |old(cat.videos)|
    ensures escaped ==>
      && st.progress == 0.0 && st.status == PruningRecords && st.completed == old(st.completed)
      && st.progressLog == old(st.progressLog) + [0.0]
      && cat.videos == old(cat.videos) && cat.links == old(cat.links)
      && order == [] && orphans == []
    ensures !NoRoot(rootSetting) && !escaped ==>
      var root := ops.normalize(rootSetting.value);
      var pruned := Surviving(old(cat.videos), old(disk.files), root, ops);
      && Distinct(order)
      && (forall p :: p in order <==> p in Discovered(old(disk.files), root))
      && Scannable(order, old(disk.files), root)
      && cat.videos == RunBatches(pruned, 0, |order|, ScanStep(order, old(disk.files), root, probe, now), commitOk, 0)
      && st.progress == 1.0
      && st.progressLog == old(st.progressLog) + ScanLog(|pruned| < |old(cat.videos)|, |order|)
      && (order == [] ==> st.status == NoVideos && orphans == [])
      && (order != [] ==> st.status == Finished(|orphans|))
      // the cleanup never deletes a name the final catalog protects
      && (forall n :: n in orphans ==> n in old(disk.thumbs) && n !in disk.thumbs && n !in Protected(cat.videos, md5))
    // links: only those of deleted records go
    ensures !NoRoot(rootSetting) && !escaped ==>
      cat.links == PrunedLinks(old(cat.links), old(cat.videos), old(disk.files), ops.normalize(rootSetting.value), ops)
    // thumbnails: the prune's removals, then exactly the orphans the cleanup removed
    ensures disk.thumbDirExists == old(disk.thumbDirExists)
    ensures !NoRoot(rootSetting) ==>
      var pt := PrunedThumbs(old(disk.thumbs), old(cat.videos), old(disk.files), ops.normalize(rootSetting.value), ops, removeOk);
      && (forall n :: n in disk.thumbs <==> n in pt && n !in orphans)
      && (forall n :: n in disk.thumbs ==> disk.thumbs[n] == pt[n])
      && (order != [] && old(disk.thumbDirExists) ==>
            forall n :: n in orphans <==> n in Orphans(pt, cat.videos, md5) && removeOk(n))
  {
    order, orphans, escaped := [], [], false;
    if NoRoot(rootSetting) {
      st.UpdateProgress(0.0, Some(NoRootSet), Some(true));
      return;
    }
    var root := ops.normalize(rootSetting.value);
    ghost var log0 := st.progressLog;
    var pruned;
    pruned, escaped := PrunePhase(cat, disk, st, root, ops, removeOk, pruneCommitOk);
    if escaped {
      return;
    }
    ghost var log1 := st.progressLog;
    st.UpdateProgress(0.0, Some(Scanning), None);
    order := Discover(disk.files, root);
    if |order| == 0 {
      st.UpdateProgress(1.0, Some(NoVideos), Some(true));
      AppendAssoc(log1, [0.0], [1.0]);
    } else {
      forall k | 0 <= k < |order| ensures order[k] in disk.files && Below(root, order[k]) {
        assert order[k] in Discovered(disk.files, root);
      }
      orphans := FilePhase(cat, disk, st, order, root, probe, md5, removeOk, commitOk, now,
                           ScanStep(order, disk.files, root, probe, now));
      AppendAssoc(log1, [0.0], BatchLog(|order|));
    }
    AppendAssoc(log0, PruneLog(pruned), FileLog(|order|));
  }

  /** The handler around the discovery and the batches: whatever was
      raised, the scan ends complete at progress 1 with the error text. */
  method ReportScanError(st: ScanStatus, error: string)
    requires st.Valid()
    modifies st
    ensures st.Valid()
    ensures st.progress == 1.0 && st.completed
    ensures Text(st.status) == "扫描出错: " + error
    ensures st.totalFiles == old(st.totalFiles) && st.processedFiles == old(st.processedFiles)
  {
    st.UpdateProgress(1.0, Some(Other("扫描出错: " + error)), Some(true));
  }
}
