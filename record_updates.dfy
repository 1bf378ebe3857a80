/** The per-record service operations of the backend: the retried file
    removal, record deletion, the favourite and playable flags, and the
    watch-progress columns (services/video_service.py). */
module RecordUpdates {
  import opened Common
  import opened Records
  import opened Paths
  import opened Thumbnails
  import opened Reconciler

  // ------------------------------------------------------------ _safe_remove

  /** What one os.remove call does when the file exists. */
  datatype RemoveAttempt =
    | Gone          // the file was removed
    | Busy          // PermissionError with winerror 32: the file is in use
    | Denied        // any other PermissionError
    | Broken        // any other exception

  const MaxAttempts: nat := 3

  /** Whether _safe_remove succeeds, as a function of the outcomes: the
      first attempt that is not Busy, within three, must remove the file. */
  function RemoveSucceeds(onDisk: bool, attempt: nat -> RemoveAttempt): bool
  {
    !onDisk || attempt(0) == Gone
      || (attempt(0) == Busy && (attempt(1) == Gone || (attempt(1) == Busy && attempt(2) == Gone)))
  }

  /** _safe_remove on a path; `onDisk` is os.path.exists, `attempt(k)` the
      outcome of the k-th os.remove.  Answers whether the file is gone and
      how many attempts were made. */
  method SafeRemove(onDisk: bool, attempt: nat -> RemoveAttempt) returns (ok: bool, tries: nat)
    // a missing file is a success without any removal
    ensures !onDisk ==> ok && tries == 1
    ensures onDisk ==> 1 <= tries <= MaxAttempts
    // only an in-use file is retried, and only while attempts remain
    ensures onDisk ==> forall k :: 0 <= k < tries - 1 ==> attempt(k) == Busy
    ensures onDisk ==> (ok <==> attempt(tries - 1) == Gone)
    ensures onDisk && !ok && tries < MaxAttempts ==> attempt(tries - 1) != Busy
    ensures ok == RemoveSucceeds(onDisk, attempt)
  {
    if !onDisk {
      return true, 1;
    }
    var k := 0;
    while true
      invariant 0 <= k < MaxAttempts
      invariant forall j :: 0 <= j < k ==> attempt(j) == Busy
      decreases MaxAttempts - k
    {
      var outcome := attempt(k);
      if outcome == Gone {
        return true, k + 1;
      } else if outcome == Busy && k < MaxAttempts - 1 {
        k := k + 1;
      } else {
        return false, k + 1;
      }
    }
  }

  /** A file that stays in use is given up after exactly three attempts. */
  lemma AlwaysBusyFails(attempt: nat -> RemoveAttempt)
    requires forall k :: attempt(k) == Busy
    ensures !RemoveSucceeds(true, attempt)
  {
    assert attempt(0) == Busy && attempt(1) == Busy && attempt(2) == Busy;
  }

  // ------------------------------------------------------------ delete_video

  /** _get_abs_path when the root may be missing: os.path.join(None, p)
      raises for a relative p. */
  function ResolvedPath(root: Option<string>, path: string, ops: PathOps): (r: Option<string>)
    ensures IsAbs(path) ==> r == Some(path)
    ensures !IsAbs(path) ==> (r.Some? <==> root.Some?)
  {
    if IsAbs(path) then Some(path)
    else if root.None? then None
    else Some(AbsPath(root.value, path, ops))
  }

  /** The absolute path delete_video removes for the record `id`, if the
      record exists and its path can be resolved. */
  function TargetPath(vs: seq<Video>, id: int, rootSetting: Option<string>, ops: PathOps): Option<string>
  {
    var i := IndexOfId(vs, id);
    if i == -1 then None
    else
      var root := if rootSetting.Some? then Some(ops.normalize(rootSetting.value)) else None;
      ResolvedPath(root, vs[i].filepath, ops)
  }

  /** The thumbnail directory entry of the record `id`, when it stores a
      non-empty thumbnail path that names one. */
  function ThumbEntry(vs: seq<Video>, id: int): Option<string>
  {
    var i := IndexOfId(vs, id);
    if i == -1 then None else EntryOf(vs[i].thumbnailPath)
  }

  /** VideoService.delete_video.  The record goes only when both the video
      file and, if one is stored, the thumbnail are gone; the video file can
      be gone while the record stays, when the thumbnail removal fails
      afterwards. */
  method DeleteVideo(cat: Catalog, disk: Disk, id: int, rootSetting: Option<string>, ops: PathOps,
                     videoAttempt: nat -> RemoveAttempt, thumbAttempt: nat -> RemoveAttempt)
    returns (ok: bool)
    requires cat.Valid()
    modifies cat, disk
    ensures cat.Valid()
    ensures unchanged(disk`thumbDirExists)
    ensures IndexOfId(old(cat.videos), id) == -1 ==> !ok && unchanged(cat) && unchanged(disk)
    // the record goes when its file is gone and so is its stored thumbnail, if any
    ensures var target := TargetPath(old(cat.videos), id, rootSetting, ops);
      var entry := ThumbEntry(old(cat.videos), id);
      ok <==>
        && target.Some? && RemoveSucceeds(target.value in old(disk.files), videoAttempt)
        && (entry.Some? && entry.value in old(disk.thumbs) ==> RemoveSucceeds(true, thumbAttempt))
    // on success the row and its tag links are gone and nothing else changes
    ensures ok ==>
      var i := IndexOfId(old(cat.videos), id);
      && cat.videos == RemoveAt(old(cat.videos), i)
      && cat.links == set l | l in old(cat.links) && l.0 != id
    ensures !ok ==> unchanged(cat)
    // exactly the video file and the thumbnail that were removed leave the disk
    ensures var target := TargetPath(old(cat.videos), id, rootSetting, ops);
      var fileGone := target.Some? && RemoveSucceeds(target.value in old(disk.files), videoAttempt);
      var entry := ThumbEntry(old(cat.videos), id);
      var thumbGone := fileGone && entry.Some? && entry.value in old(disk.thumbs) && RemoveSucceeds(true, thumbAttempt);
      && disk.files == (if fileGone then old(disk.files) - {target.value} else old(disk.files))
      && disk.thumbs == (if thumbGone then old(disk.thumbs) - {entry.value} else old(disk.thumbs))
    // the video file gone but the thumbnail kept: the record stays
    ensures var target := TargetPath(old(cat.videos), id, rootSetting, ops);
      var entry := ThumbEntry(old(cat.videos), id);
      target.Some? && RemoveSucceeds(target.value in old(disk.files), videoAttempt)
      && entry.Some? && entry.value in old(disk.thumbs) && !RemoveSucceeds(true, thumbAttempt)
      ==> !ok && unchanged(cat) && target.value !in disk.files && entry.value in disk.thumbs
  {
    var target := TargetPath(cat.videos, id, rootSetting, ops);
    var entry := ThumbEntry(cat.videos, id);
    if target.None? {
      return false;
    }
    var removed, tries := SafeRemove(target.value in disk.files, videoAttempt);
    if !removed {
      return false;
    }
    disk.files := disk.files - {target.value};
    if entry.Some? {
      var present := entry.value in disk.thumbs;
      var thumbRemoved, thumbTries := SafeRemove(present, thumbAttempt);
      if !thumbRemoved {
        return false;
      }
      if present {
        disk.thumbs := disk.thumbs - {entry.value};
      }
    }
    cat.DeleteRow(IndexOfId(cat.videos, id));
    ok := true;
  }

  // ---------------------------------------------------- update_video_status

  /** The row after update_video_status: each given flag is written; the
      updated_at column moves only when a value actually changed (the
      column's onupdate fires for a real UPDATE only). */
  function WithFlags(v: Video, favorite: Option<bool>, playable: Option<bool>, now: int): (w: Video)
    ensures w.isFavorite == (if favorite.Some? then favorite.value else v.isFavorite)
    ensures w.webPlayable == (if playable.Some? then playable.value else v.webPlayable)
    ensures w.updatedAt == (if w.isFavorite != v.isFavorite || w.webPlayable != v.webPlayable
                            then Some(now) else v.updatedAt)
    ensures w.(isFavorite := v.isFavorite, webPlayable := v.webPlayable, updatedAt := v.updatedAt) == v
  {
    var fav := if favorite.Some? then favorite.value else v.isFavorite;
    var play := if playable.Some? then playable.value else v.webPlayable;
    var changed := fav != v.isFavorite || play != v.webPlayable;
    v.(isFavorite := fav, webPlayable := play, updatedAt := if changed then Some(now) else v.updatedAt)
  }

  /** Setting the same flags again changes nothing, not even updated_at. */
  lemma WithFlagsIdempotent(v: Video, favorite: Option<bool>, playable: Option<bool>, now: int, later: int)
    ensures WithFlags(WithFlags(v, favorite, playable, now), favorite, playable, later)
         == WithFlags(v, favorite, playable, now)
  {
  }

  /** update_video_status: false for an unknown id (its 404 is caught). */
  method UpdateVideoStatus(cat: Catalog, id: int, favorite: Option<bool>, playable: Option<bool>, now: int)
    returns (ok: bool)
    requires cat.Valid()
    modifies cat
    ensures cat.Valid() && cat.links == old(cat.links)
    ensures ok <==> IndexOfId(old(cat.videos), id) != -1
    ensures ok ==> var i := IndexOfId(old(cat.videos), id);
      cat.videos == old(cat.videos)[i := WithFlags(old(cat.videos)[i], favorite, playable, now)]
    ensures !ok ==> cat.videos == old(cat.videos)
  {
    var i := IndexOfId(cat.videos, id);
    if i == -1 {
      return false;
    }
    cat.SetRow(i, WithFlags(cat.videos[i], favorite, playable, now));
    ok := true;
  }

  // -------------------------------------------------- update_video_progress

  const CompletedPercent: real := 95.0

  /** min(100.0, last_position / duration * 100). */
  function AutoProgress(lastPosition: real, duration: real): (p: real)
    requires duration > 0.0
    ensures p <= 100.0
    ensures 0.0 <= lastPosition ==> 0.0 <= p
    ensures p < 100.0 ==> p == lastPosition / duration * 100.0
    ensures lastPosition >= duration ==> p == 100.0
  {
    var raw := lastPosition / duration * 100.0;
    assert lastPosition >= duration ==> raw >= 100.0 by {
      if lastPosition >= duration {
        assert lastPosition / duration >= 1.0;
      }
    }
    if raw < 100.0 then raw else 100.0
  }

  /** Whether `w` agrees with `v` on every column other than the four watch
      columns and updated_at. */
  predicate OtherColumnsKept(v: Video, w: Video)
  {
    && w.id == v.id && w.filename == v.filename && w.filepath == v.filepath
    && w.size == v.size && w.duration == v.duration && w.thumbnailPath == v.thumbnailPath
    && w.thumbnailGenerated == v.thumbnailGenerated && w.isFavorite == v.isFavorite
    && w.webPlayable == v.webPlayable && w.createdAt == v.createdAt
  }

  /** Whether a row differs from another in one of the four watch columns. */
  predicate WatchChanged(v: Video, w: Video)
  {
    w.lastPosition != v.lastPosition || w.lastWatchedAt != v.lastWatchedAt
    || w.watchProgress != v.watchProgress || w.isCompleted != v.isCompleted
  }

  /** The watch progress update_video_progress writes: the explicit one,
      else the automatic one when the duration is known, else the stored one. */
  function ProgressAfter(v: Video, lastPosition: real, watch: Option<real>): (p: Option<real>)
    ensures watch.Some? ==> p == watch
    ensures watch.None? && v.duration > 0.0 ==> p == Some(AutoProgress(lastPosition, v.duration))
    ensures watch.None? && v.duration <= 0.0 ==> p == v.watchProgress
  {
    if watch.Some? then watch
    else if v.duration > 0.0 then Some(AutoProgress(lastPosition, v.duration))
    else v.watchProgress
  }

  /** The row after update_video_progress, or None when the completion test
      compares a watch progress that was never set (a TypeError the service
      catches, rolling back).  last_watched_at is read from the local clock
      `clock`, updated_at from the UTC clock `now`; the latter moves only when
      a column actually changed. */
  function Watched(v: Video, lastPosition: real, watch: Option<real>, completed: Option<bool>,
                   clock: int, now: int)
    : (r: Option<Video>)
    ensures r.None? <==> watch.None? && completed.None? && v.duration <= 0.0 && v.watchProgress.None?
    ensures r.Some? ==> var w := r.value;
      && w.lastPosition == lastPosition && w.lastWatchedAt == Some(clock)
      && w.watchProgress == ProgressAfter(v, lastPosition, watch)
      && w.isCompleted == (if completed.Some? then completed.value
                           else w.watchProgress.Some? && w.watchProgress.value >= CompletedPercent)
      && w.updatedAt == (if WatchChanged(v, w) then Some(now) else v.updatedAt)
      && OtherColumnsKept(v, w)
  {
    var progress := ProgressAfter(v, lastPosition, watch);
    if completed.None? && progress.None? then None
    else
      var done := if completed.Some? then completed.value else progress.value >= CompletedPercent;
      var changed := lastPosition != v.lastPosition || Some(clock) != v.lastWatchedAt
                     || progress != v.watchProgress || done != v.isCompleted;
      Some(v.(lastPosition := lastPosition, lastWatchedAt := Some(clock), watchProgress := progress,
              isCompleted := done, updatedAt := if changed then Some(now) else v.updatedAt))
  }

  /** A progress update read at a new local time always stamps updated_at. */
  lemma WatchedStamps(v: Video, lastPosition: real, watch: Option<real>, completed: Option<bool>,
                      clock: int, now: int)
    requires v.lastWatchedAt != Some(clock)
    ensures var r := Watched(v, lastPosition, watch, completed, clock, now);
      r.Some? ==> r.value.updatedAt == Some(now)
  {
  }

  /** Repeating the same update at the same local time changes nothing more,
      not even updated_at. */
  lemma WatchedIdempotent(v: Video, lastPosition: real, watch: Option<real>, completed: Option<bool>,
                          clock: int, now: int, later: int)
    requires Watched(v, lastPosition, watch, completed, clock, now).Some?
    ensures var w := Watched(v, lastPosition, watch, completed, clock, now).value;
      Watched(w, lastPosition, watch, completed, clock, later) == Some(w)
  {
    var w := Watched(v, lastPosition, watch, completed, clock, now).value;
    if watch.None? && v.duration <= 0.0 {
      assert w.watchProgress == v.watchProgress;
    }
  }

  /** Without an explicit progress, a position at or past 95% of a known
      duration marks the video completed, and an earlier one does not. */
  lemma CompletedNearTheEnd(v: Video, lastPosition: real, clock: int, now: int)
    requires v.duration > 0.0 && 0.0 <= lastPosition
    ensures var r := Watched(v, lastPosition, None, None, clock, now);
      r.Some? && 0.0 <= r.value.watchProgress.value <= 100.0
      && (r.value.isCompleted <==> lastPosition >= v.duration * 0.95)
  {
    ProgressThreshold(lastPosition, v.duration);
  }

  /** The automatic progress reaches 95 exactly when the position reaches
      95% of the duration. */
  lemma ProgressThreshold(lastPosition: real, duration: real)
    requires duration > 0.0 && 0.0 <= lastPosition
    ensures AutoProgress(lastPosition, duration) >= CompletedPercent <==> lastPosition >= duration * 0.95
  {
    var q := lastPosition / duration;
    assert lastPosition == q * duration;
    ScaleByPositive(q, 0.95, duration);
    if AutoProgress(lastPosition, duration) < 100.0 {
      assert AutoProgress(lastPosition, duration) == q * 100.0;
    } else {
      assert q * 100.0 >= 100.0;
    }
  }

  lemma ScaleByPositive(a: real, b: real, d: real)
    requires d > 0.0
    ensures a >= b <==> a * d >= b * d
  {
    if a >= b {
      assert a * d - b * d == (a - b) * d;
    } else {
      assert b * d - a * d == (b - a) * d;
    }
  }

  /** update_video_progress: false for an unknown id or a failed completion test. */
  method UpdateVideoProgress(cat: Catalog, id: int, lastPosition: real, watch: Option<real>,
                             completed: Option<bool>, clock: int, now: int)
    returns (ok: bool)
    requires cat.Valid()
    modifies cat
    ensures cat.Valid() && cat.links == old(cat.links)
    ensures ok <==> var i := IndexOfId(old(cat.videos), id);
      i != -1 && Watched(old(cat.videos)[i], lastPosition, watch, completed, clock, now).Some?
    ensures ok ==> var i := IndexOfId(old(cat.videos), id);
      cat.videos == old(cat.videos)[i := Watched(old(cat.videos)[i], lastPosition, watch, completed, clock, now).value]
    ensures !ok ==> cat.videos == old(cat.videos)
  {
    var i := IndexOfId(cat.videos, id);
    if i == -1 {
      return false;
    }
    var r := Watched(cat.videos[i], lastPosition, watch, completed, clock, now);
    if r.None? {
      return false;
    }
    cat.SetRow(i, r.value);
    ok := true;
  }

  // --------------------------------------------------- clear_video_progress

  /** The row after clear_video_progress; updated_at moves to `now` when
      one of the four columns actually changed. */
  function Cleared(v: Video, now: int): (w: Video)
    ensures w.lastPosition == 0.0 && w.watchProgress == Some(0.0)
    ensures w.lastWatchedAt.None? && !w.isCompleted
    ensures w.updatedAt == (if WatchChanged(v, w) then Some(now) else v.updatedAt)
    ensures OtherColumnsKept(v, w)
  {
    var changed := v.lastPosition != 0.0 || v.watchProgress != Some(0.0) || v.lastWatchedAt.Some? || v.isCompleted;
    v.(lastPosition := 0.0, watchProgress := Some(0.0), lastWatchedAt := None, isCompleted := false,
       updatedAt := if changed then Some(now) else v.updatedAt)
  }

  /** After a clear, a progress update can always evaluate its completion test. */
  lemma UpdateAfterClearSucceeds(v: Video, cleared: int, lastPosition: real, watch: Option<real>,
                                 completed: Option<bool>, clock: int, now: int)
    ensures Watched(Cleared(v, cleared), lastPosition, watch, completed, clock, now).Some?
  {
  }

  /** Clearing is idempotent: a second clear changes nothing, not even
      updated_at. */
  lemma ClearedIdempotent(v: Video, now: int, later: int)
    ensures Cleared(Cleared(v, now), later) == Cleared(v, now)
  {
  }

  /** clear_video_progress: false for an unknown id. */
  method ClearVideoProgress(cat: Catalog, id: int, now: int) returns (ok: bool)
    requires cat.Valid()
    modifies cat
    ensures cat.Valid() && cat.links == old(cat.links)
    ensures ok <==> IndexOfId(old(cat.videos), id) != -1
    ensures ok ==> var i := IndexOfId(old(cat.videos), id);
      cat.videos == old(cat.videos)[i := Cleared(old(cat.videos)[i], now)]
    ensures !ok ==> cat.videos == old(cat.videos)
  {
    var i := IndexOfId(cat.videos, id);
    if i == -1 {
      return false;
    }
    cat.SetRow(i, Cleared(cat.videos[i], now));
    ok := true;
  }

  // ------------------------------------------ progress writes as written

  /** update_video_progress as written. The four watch columns are not
      columns of the Video model (models/video.py:7-22): the assignments set
      plain attributes of the loaded object, so the commit writes no column
      and updated_at does not move. The completion test reads the attribute
      only when no flag is given, and the attribute exists then only when
      this call set it; with neither a progress nor a known duration the read
      raises AttributeError and the call answers false. */
  function ProgressUpdateAsWritten(vs: seq<Video>, id: int, lastPosition: real, watch: Option<real>,
                                   completed: Option<bool>): (r: (bool, seq<Video>))
    ensures r.1 == vs
    ensures r.0 <==> var i := IndexOfId(vs, id);
      i != -1 && (completed.Some? || watch.Some? || vs[i].duration > 0.0)
  {
    var i := IndexOfId(vs, id);
    if i == -1 then (false, vs)
    else if completed.None? && watch.None? && vs[i].duration <= 0.0 then (false, vs)
    else (true, vs)
  }

  /** clear_video_progress as written: true for a known id, and no column
      changes. */
  function ClearAsWritten(vs: seq<Video>, id: int): (r: (bool, seq<Video>))
    ensures r.1 == vs
    ensures r.0 <==> IndexOfId(vs, id) != -1
  {
    (IndexOfId(vs, id) != -1, vs)
  }

  /** Whenever the update as written answers true, the corrected update
      succeeds too, yet only the corrected one stores the position. */
  lemma ProgressNotStoredAsWritten(vs: seq<Video>, id: int, lastPosition: real, watch: Option<real>,
                                   completed: Option<bool>, clock: int, now: int)
    requires ProgressUpdateAsWritten(vs, id, lastPosition, watch, completed).0
    requires vs[IndexOfId(vs, id)].lastPosition != lastPosition
    ensures var i := IndexOfId(vs, id);
      && ProgressUpdateAsWritten(vs, id, lastPosition, watch, completed).1[i].lastPosition != lastPosition
      && Watched(vs[i], lastPosition, watch, completed, clock, now).Some?
      && Watched(vs[i], lastPosition, watch, completed, clock, now).value.lastPosition == lastPosition
  {
  }

  /** For a video of unknown duration, a clear followed by an update that
      gives neither a progress nor a flag: as written the clear answers true
      and the update false; with the columns stored the update succeeds. */
  lemma UpdateAfterClearFailsAsWritten(vs: seq<Video>, id: int, lastPosition: real, cleared: int,
                                       clock: int, now: int)
    requires IndexOfId(vs, id) != -1 && vs[IndexOfId(vs, id)].duration <= 0.0
    ensures ClearAsWritten(vs, id).0
    ensures !ProgressUpdateAsWritten(ClearAsWritten(vs, id).1, id, lastPosition, None, None).0
    ensures Watched(Cleared(vs[IndexOfId(vs, id)], cleared), lastPosition, None, None, clock, now).Some?
  {
    UpdateAfterClearSucceeds(vs[IndexOfId(vs, id)], cleared, lastPosition, None, None, clock, now);
  }

  /** As written a clear of a completed video answers true and leaves it
      completed; the corrected clear resets the flag. */
  lemma ClearNotStoredAsWritten(vs: seq<Video>, id: int, now: int)
    requires IndexOfId(vs, id) != -1 && vs[IndexOfId(vs, id)].isCompleted
    ensures ClearAsWritten(vs, id).0 && ClearAsWritten(vs, id).1[IndexOfId(vs, id)].isCompleted
    ensures !Cleared(vs[IndexOfId(vs, id)], now).isCompleted
  {
  }
}
