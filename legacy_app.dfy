/** The legacy Flask application (app.py): the directory listing that
    creates a record for each video whose cover is missing, the tag
    replacement of `update`, `delete_video`, and the sweep that removes
    every tag no video carries. The database is three tables (videos, tags,
    and the video_tags link set); the two folders are sets of file names. */
module LegacyApp {
  import opened Common
  import Records

  /** The suffix tuple of `index`, entries exactly as written: "ts" appears
      twice and "ts", "mpeg" and "wmv" have no leading dot. */
  const LegacySuffixes: seq<string> := [".mp4", ".avi", ".mkv", "ts", "mpeg", "ts", "wmv"]

  /** f.lower().endswith(<the tuple>). */
  predicate IsLegacyVideoName(f: string)
  {
    exists k :: 0 <= k < |LegacySuffixes| && EndsWith(Lower(f), LegacySuffixes[k])
  }

  /** The dotless entries accept names with no extension at all, such as
      "shorts", "mpeg" or "Fwmv". */
  lemma DotlessSuffixesQualify(f: string)
    requires EndsWith(Lower(f), "ts") || EndsWith(Lower(f), "mpeg") || EndsWith(Lower(f), "wmv")
    ensures IsLegacyVideoName(f)
  {
    assert LegacySuffixes[3] == "ts" && LegacySuffixes[4] == "mpeg" && LegacySuffixes[6] == "wmv";
  }

  // ----------------------------------------------------------------- tables

  datatype LVideo = LVideo(id: int, filename: string, cover: Option<string>)
  datatype LTag = LTag(id: int, name: string)

  /** Integer primary keys handed out in ascending order. */
  predicate VideosOk(vs: seq<LVideo>)
  {
    && (forall i, j :: 0 <= i < j < |vs| ==> vs[i].id < vs[j].id)
    && (forall i :: 0 <= i < |vs| ==> vs[i].id > 0)
  }

  /** As VideosOk, and the name column is unique. */
  predicate TagsOk(ts: seq<LTag>)
  {
    && (forall i, j :: 0 <= i < j < |ts| ==> ts[i].id < ts[j].id && ts[i].name != ts[j].name)
    && (forall i :: 0 <= i < |ts| ==> ts[i].id > 0)
  }

  predicate HasVideo(vs: seq<LVideo>, id: int) { exists k :: 0 <= k < |vs| && vs[k].id == id }
  predicate HasTag(ts: seq<LTag>, id: int) { exists k :: 0 <= k < |ts| && ts[k].id == id }

  /** Every (video id, tag id) row of video_tags names an existing video and
      an existing tag. */
  predicate LinksOk(links: set<(int, int)>, vs: seq<LVideo>, ts: seq<LTag>)
  {
    forall l: (int, int) :: l in links ==> HasVideo(vs, l.0) && HasTag(ts, l.1)
  }

  /** The three tables together: keys in order, names unique, links sound. */
  predicate TablesOk(vs: seq<LVideo>, ts: seq<LTag>, links: set<(int, int)>)
  {
    VideosOk(vs) && TagsOk(ts) && LinksOk(links, vs, ts)
  }

  /** filter_by(filename=f).first(): the first row in table order, or -1. */
  function VideoNamed(vs: seq<LVideo>, f: string): int
  {
    IndexWhere(vs, (v: LVideo) => v.filename == f)
  }

  function TagNamed(ts: seq<LTag>, name: string): int
  {
    IndexWhere(ts, (t: LTag) => t.name == name)
  }

  function NextVideoId(vs: seq<LVideo>): (id: int)
    ensures id > 0 && forall k :: 0 <= k < |vs| && VideosOk(vs) ==> vs[k].id < id
  {
    if |vs| == 0 then 1 else Max(vs[|vs| - 1].id + 1, 1)
  }

  function NextTagId(ts: seq<LTag>): (id: int)
    ensures id > 0 && forall k :: 0 <= k < |ts| && TagsOk(ts) ==> ts[k].id < id
  {
    if |ts| == 0 then 1 else Max(ts[|ts| - 1].id + 1, 1)
  }

  /** The cover's name inside COVERS_FOLDER, and the reference stored in the
      record. */
  function CoverFile(f: string): string { f + ".jpg" }
  function CoverRef(f: string): string { "covers/" + f + ".jpg" }

  /** A tag is in use when some video_tags row names it. */
  predicate Used(links: set<(int, int)>, id: int)
  {
    exists l: (int, int) :: l in links && l.1 == id
  }

  /** The names of the tags a video carries. */
  function VideoTagNames(ts: seq<LTag>, links: set<(int, int)>, vid: int): (r: set<string>)
    ensures forall n :: n in r <==> exists k :: 0 <= k < |ts| && ts[k].name == n && (vid, ts[k].id) in links
  {
    set k | 0 <= k < |ts| && (vid, ts[k].id) in links :: ts[k].name
  }

  /** The names of the tags a video carries as `index` lists them, in table
      order. */
  function TagNameList(ts: seq<LTag>, links: set<(int, int)>, vid: int): (r: seq<string>)
    ensures |r| <= |ts|
    ensures forall n :: n in r <==> n in VideoTagNames(ts, links, vid)
  {
    if |ts| == 0 then []
    else
      var init := TagNameList(ts[..|ts| - 1], links, vid);
      var t := ts[|ts| - 1];
      assert forall k :: 0 <= k < |ts| - 1 ==> ts[..|ts| - 1][k] == ts[k];
      if (vid, t.id) in links then init + [t.name] else init
  }

  // --------------------------------------------------------- unused tags

  /** cleanup_unused_tags as a function: the tags still in use, in order. */
  function UsedTags(ts: seq<LTag>, links: set<(int, int)>): seq<LTag>
  {
    Filter(ts, (t: LTag) => Used(links, t.id))
  }

  /** The sweep keeps the table valid, leaves no tag without a video and
      removes no tag a video carries. */
  lemma {:induction false} UsedTagsExact(ts: seq<LTag>, links: set<(int, int)>)
    requires TagsOk(ts)
    ensures TagsOk(UsedTags(ts, links))
    ensures forall t :: t in UsedTags(ts, links) <==> t in ts && Used(links, t.id)
  {
    if |ts| > 0 {
      var rest := UsedTags(ts[1..], links);
      assert TagsOk(ts[1..]) by {
        forall i, j | 0 <= i < j < |ts[1..]| ensures ts[1..][i].id < ts[1..][j].id && ts[1..][i].name != ts[1..][j].name {
          assert ts[1..][i] == ts[i + 1] && ts[1..][j] == ts[j + 1];
        }
      }
      UsedTagsExact(ts[1..], links);
      if Used(links, ts[0].id) {
        assert UsedTags(ts, links) == [ts[0]] + rest;
        forall j | 0 <= j < |rest| ensures ts[0].id < rest[j].id && ts[0].name != rest[j].name {
          assert rest[j] in ts[1..];
        }
        TagsOkCons(ts[0], rest);
      } else {
        assert UsedTags(ts, links) == rest;
      }
    }
  }

  /** A tag with a smaller id and a new name can head a valid table. */
  lemma TagsOkCons(t: LTag, rest: seq<LTag>)
    requires TagsOk(rest) && t.id > 0
    requires forall j :: 0 <= j < |rest| ==> t.id < rest[j].id && t.name != rest[j].name
    ensures TagsOk([t] + rest)
  {
    var s := [t] + rest;
    forall i, j | 0 <= i < j < |s| ensures s[i].id < s[j].id && s[i].name != s[j].name {
      assert s[j] == rest[j - 1];
      if i > 0 { assert s[i] == rest[i - 1]; }
    }
  }

  /** Carried tags survive the sweep, so a video's tag names do not change. */
  lemma SweepKeepsVideoTags(ts: seq<LTag>, links: set<(int, int)>, vid: int)
    requires TagsOk(ts)
    ensures VideoTagNames(UsedTags(ts, links), links, vid) == VideoTagNames(ts, links, vid)
  {
    UsedTagsExact(ts, links);
    var u := UsedTags(ts, links);
    forall n | n in VideoTagNames(ts, links, vid) ensures n in VideoTagNames(u, links, vid) {
      var k :| 0 <= k < |ts| && ts[k].name == n && (vid, ts[k].id) in links;
      assert Used(links, ts[k].id);
      assert ts[k] in u;
      var j :| 0 <= j < |u| && u[j] == ts[k];
    }
    forall n | n in VideoTagNames(u, links, vid) ensures n in VideoTagNames(ts, links, vid) {
      var j :| 0 <= j < |u| && u[j].name == n && (vid, u[j].id) in links;
      assert u[j] in ts;
      var k :| 0 <= k < |ts| && ts[k] == u[j];
    }
  }

  // ------------------------------------------------------------- index

  /** One directory entry `index` lists: its tag names and cover, or no tags
      and "" when it has no record (a record created by `update` may have
      no cover, which is listed as None). */
  datatype Card = Card(filename: string, tagNames: seq<string>, cover: Option<string>)

  /** The listing loop's state: the table, the covers folder, the cards so
      far, and whether a cover grab has raised (the request then answers
      500 and the loop goes no further). */
  datatype IndexState = IndexState(videos: seq<LVideo>, covers: set<string>, cards: seq<Card>, failed: bool)

  /** Whether the step for `f` lists a card: a video name, met before any
      failure, whose cover exists or is grabbed (`grabOk`: moviepy opens the
      file and saves its first frame). */
  predicate Lists(st: IndexState, f: string, grabOk: string -> bool)
  {
    !st.failed && IsLegacyVideoName(f) && (CoverFile(f) in st.covers || grabOk(f))
  }

  /** One iteration of the listing loop. A missing cover is generated; a
      record is created only when the cover was missing and no record has
      the name; a grab that raises ends the loop. */
  function IndexStep(st: IndexState, f: string, ts: seq<LTag>, links: set<(int, int)>, grabOk: string -> bool)
    : IndexState
  {
    if st.failed || !IsLegacyVideoName(f) then st
    else if !Lists(st, f, grabOk) then st.(failed := true)
    else
      var i := VideoNamed(st.videos, f);
      var missing := CoverFile(f) !in st.covers;
      var vs := if missing && i == -1 then st.videos + [LVideo(NextVideoId(st.videos), f, Some(CoverRef(f)))] else st.videos;
      var j := if missing && i == -1 then |st.videos| else i;
      var card := if j == -1 then Card(f, [], Some("")) else Card(f, TagNameList(ts, links, vs[j].id), vs[j].cover);
      IndexState(vs, st.covers + {CoverFile(f)}, st.cards + [card], false)
  }

  /** The covers of the listed videos. */
  function CoversFor(fs: seq<string>): set<string>
  {
    set k | 0 <= k < |fs| && IsLegacyVideoName(fs[k]) :: CoverFile(fs[k])
  }

  /** `index` over the listing fs, from the state st.  The records created
      before a failure stay: each was committed on its own. */
  function IndexRun(st: IndexState, fs: seq<string>, ts: seq<LTag>, links: set<(int, int)>, grabOk: string -> bool)
    : (r: IndexState)
    ensures |st.videos| <= |r.videos| && r.videos[..|st.videos|] == st.videos
    ensures st.failed ==> r.failed
  {
    if |fs| == 0 then st
    else
      var mid := IndexRun(st, fs[..|fs| - 1], ts, links, grabOk);
      var r := IndexStep(mid, fs[|fs| - 1], ts, links, grabOk);
      assert r.videos[..|st.videos|] == mid.videos[..|st.videos|];
      r
  }

  /** The run over a listing extended by one name is one more step. */
  lemma IndexRunSnoc(st: IndexState, fs: seq<string>, f: string, ts: seq<LTag>, links: set<(int, int)>,
                     grabOk: string -> bool)
    ensures IndexRun(st, fs + [f], ts, links, grabOk) == IndexStep(IndexRun(st, fs, ts, links, grabOk), f, ts, links, grabOk)
  {
    assert (fs + [f])[..|fs|] == fs;
    assert (fs + [f])[|fs|] == f;
  }

  /** One step adds the cover of a listed video and nothing else, and fails
      exactly when a missing cover cannot be grabbed. */
  lemma IndexStepCovers(st: IndexState, f: string, ts: seq<LTag>, links: set<(int, int)>, grabOk: string -> bool)
    ensures var r := IndexStep(st, f, ts, links, grabOk);
      && r.covers == st.covers + (if Lists(st, f, grabOk) then {CoverFile(f)} else {})
      && (r.failed <==> st.failed || (IsLegacyVideoName(f) && CoverFile(f) !in st.covers && !grabOk(f)))
  {
  }

  /** One step appends one card for a listed video and none otherwise. */
  lemma IndexStepCards(st: IndexState, f: string, ts: seq<LTag>, links: set<(int, int)>, grabOk: string -> bool)
    ensures var r := IndexStep(st, f, ts, links, grabOk);
      |r.cards| == |st.cards| + (if Lists(st, f, grabOk) then 1 else 0) && r.cards[..|st.cards|] == st.cards
  {
  }

  lemma CoversForSnoc(fs: seq<string>, f: string)
    ensures CoversFor(fs + [f]) == CoversFor(fs) + (if IsLegacyVideoName(f) then {CoverFile(f)} else {})
  {
    var gs := fs + [f];
    forall c | c in CoversFor(gs) ensures c in CoversFor(fs) || (IsLegacyVideoName(f) && c == CoverFile(f)) {
      var k :| 0 <= k < |gs| && IsLegacyVideoName(gs[k]) && c == CoverFile(gs[k]);
      if k < |fs| { assert gs[k] == fs[k]; }
    }
    forall c | c in CoversFor(fs) ensures c in CoversFor(gs) {
      var k :| 0 <= k < |fs| && IsLegacyVideoName(fs[k]) && c == CoverFile(fs[k]);
      assert gs[k] == fs[k];
    }
    if IsLegacyVideoName(f) {
      assert gs[|fs|] == f;
      assert CoverFile(gs[|fs|]) in CoversFor(gs);
    }
  }

  /** The run keeps the ids ascending. */
  lemma {:induction false} IndexRunValid(st: IndexState, fs: seq<string>, ts: seq<LTag>, links: set<(int, int)>,
                                         grabOk: string -> bool)
    requires VideosOk(st.videos)
    ensures VideosOk(IndexRun(st, fs, ts, links, grabOk).videos)
  {
    if |fs| > 0 {
      IndexRunValid(st, fs[..|fs| - 1], ts, links, grabOk);
    }
  }

  /** A run that does not fail gives every listed video its cover, and no
      run makes any other cover appear. */
  lemma {:induction false} IndexRunCovers(st: IndexState, fs: seq<string>, ts: seq<LTag>, links: set<(int, int)>,
                                          grabOk: string -> bool)
    ensures var r := IndexRun(st, fs, ts, links, grabOk);
      && st.covers <= r.covers <= st.covers + CoversFor(fs)
      && (!r.failed ==> r.covers == st.covers + CoversFor(fs))
  {
    if |fs| == 0 {
      assert CoversFor(fs) == {};
    } else {
      var init := fs[..|fs| - 1];
      var f := fs[|fs| - 1];
      assert fs == init + [f];
      IndexRunCovers(st, init, ts, links, grabOk);
      IndexRunSnoc(st, init, f, ts, links, grabOk);
      IndexStepCovers(IndexRun(st, init, ts, links, grabOk), f, ts, links, grabOk);
      CoversForSnoc(init, f);
    }
  }

  /** Cards are appended in listing order; a run that does not fail lists
      one card per video name. */
  lemma {:induction false} IndexRunCards(st: IndexState, fs: seq<string>, ts: seq<LTag>, links: set<(int, int)>,
                                         grabOk: string -> bool)
    ensures var r := IndexRun(st, fs, ts, links, grabOk);
      && |st.cards| <= |r.cards| && r.cards[..|st.cards|] == st.cards
      && (!r.failed ==> |r.cards| == |st.cards| + |Filter(fs, IsLegacyVideoName)|)
  {
    if |fs| > 0 {
      var init := fs[..|fs| - 1];
      var f := fs[|fs| - 1];
      assert fs == init + [f];
      IndexRunCards(st, init, ts, links, grabOk);
      FilterConcat(init, [f], IsLegacyVideoName);
      FilterSingleton(f, IsLegacyVideoName);
      var mid := IndexRun(st, init, ts, links, grabOk);
      IndexRunSnoc(st, init, f, ts, links, grabOk);
      IndexStepCards(mid, f, ts, links, grabOk);
      IndexStepCovers(mid, f, ts, links, grabOk);
      assert IndexRun(st, fs, ts, links, grabOk).cards[..|st.cards|] == mid.cards[..|mid.cards|][..|st.cards|];
    }
  }

  /** Each record the run creates is for a listed video that had neither a
      cover nor a record when the run began, whose cover was grabbed, and
      carries the cover reference. */
  lemma {:induction false} IndexRunNewRecords(st: IndexState, fs: seq<string>, ts: seq<LTag>, links: set<(int, int)>,
                                              grabOk: string -> bool)
    ensures var r := IndexRun(st, fs, ts, links, grabOk);
      forall k :: |st.videos| <= k < |r.videos| ==>
        && r.videos[k].filename in fs && IsLegacyVideoName(r.videos[k].filename)
        && CoverFile(r.videos[k].filename) !in st.covers
        && VideoNamed(st.videos, r.videos[k].filename) == -1
        && grabOk(r.videos[k].filename)
        && r.videos[k].cover == Some(CoverRef(r.videos[k].filename))
  {
    if |fs| > 0 {
      var init := fs[..|fs| - 1];
      var f := fs[|fs| - 1];
      IndexRunNewRecords(st, init, ts, links, grabOk);
      IndexRunCovers(st, init, ts, links, grabOk);
      var mid := IndexRun(st, init, ts, links, grabOk);
      var r := IndexRun(st, fs, ts, links, grabOk);
      NoRecordInPrefix(st.videos, mid.videos, f);
      forall k | |st.videos| <= k < |mid.videos| ensures r.videos[k] == mid.videos[k] && mid.videos[k].filename in fs {
        assert mid.videos[k].filename in init;
      }
      if |r.videos| > |mid.videos| {
        assert r.videos[|mid.videos|].filename == f;
      }
    }
  }

  /** No record with the name in a table means none in its prefix. */
  lemma NoRecordInPrefix(prefix: seq<LVideo>, vs: seq<LVideo>, f: string)
    requires |prefix| <= |vs| && vs[..|prefix|] == prefix
    ensures VideoNamed(vs, f) == -1 ==> VideoNamed(prefix, f) == -1
  {
    if VideoNamed(vs, f) == -1 {
      forall k | 0 <= k < |prefix| ensures prefix[k].filename != f {
        assert vs[k] == prefix[k];
      }
      IndexWhereIs(prefix, (v: LVideo) => v.filename == f, -1);
    }
  }

  /** A file whose cover already exists, or whose name already has a
      record, never gets a new record, however often it is listed. */
  lemma ExistingCoverNoRecord(st: IndexState, fs: seq<string>, ts: seq<LTag>, links: set<(int, int)>,
                              grabOk: string -> bool, f: string)
    requires CoverFile(f) in st.covers || VideoNamed(st.videos, f) != -1
    ensures forall k :: |st.videos| <= k < |IndexRun(st, fs, ts, links, grabOk).videos| ==>
      IndexRun(st, fs, ts, links, grabOk).videos[k].filename != f
  {
    IndexRunNewRecords(st, fs, ts, links, grabOk);
  }

  /** When every cover can be grabbed, the listing never fails. */
  lemma {:induction false} IndexRunSucceeds(st: IndexState, fs: seq<string>, ts: seq<LTag>, links: set<(int, int)>,
                                            grabOk: string -> bool)
    requires !st.failed && forall k :: 0 <= k < |fs| ==> grabOk(fs[k])
    ensures !IndexRun(st, fs, ts, links, grabOk).failed
  {
    if |fs| > 0 {
      IndexRunSucceeds(st, fs[..|fs| - 1], ts, links, grabOk);
    }
  }

  /** Once a grab has failed, the rest of the listing changes nothing. */
  lemma {:induction false} IndexRunStopsAtFailure(st: IndexState, fs: seq<string>, k: nat, ts: seq<LTag>,
                                                  links: set<(int, int)>, grabOk: string -> bool)
    requires k <= |fs| && IndexRun(st, fs[..k], ts, links, grabOk).failed
    ensures IndexRun(st, fs, ts, links, grabOk) == IndexRun(st, fs[..k], ts, links, grabOk)
    decreases |fs|
  {
    if k < |fs| {
      var init := fs[..|fs| - 1];
      assert init[..k] == fs[..k];
      IndexRunStopsAtFailure(st, init, k, ts, links, grabOk);
    } else {
      assert fs[..k] == fs;
    }
  }

  // ------------------------------------------------------------- update

  /** The get-or-create loop over the distinct names: each name is looked up
      before a tag is made, and the ids are collected in the loop's order. */
  function EnsureTags(ts: seq<LTag>, names: seq<string>): (r: (seq<LTag>, seq<int>))
    ensures |ts| <= |r.0| && r.0[..|ts|] == ts && |r.1| == |names|
  {
    if |names| == 0 then (ts, [])
    else
      var n := names[|names| - 1];
      var mid := EnsureTags(ts, names[..|names| - 1]);
      var i := TagNamed(mid.0, n);
      if i != -1 then (mid.0, mid.1 + [mid.0[i].id])
      else
        var r := (mid.0 + [LTag(NextTagId(mid.0), n)], mid.1 + [NextTagId(mid.0)]);
        assert r.0[..|ts|] == mid.0[..|ts|];
        r
  }

  /** Names stay unique, and every tag made has one of the names. */
  lemma {:induction false} EnsureTagsValid(ts: seq<LTag>, names: seq<string>)
    requires TagsOk(ts)
    ensures TagsOk(EnsureTags(ts, names).0)
    ensures forall j :: |ts| <= j < |EnsureTags(ts, names).0| ==> EnsureTags(ts, names).0[j].name in names
  {
    if |names| > 0 {
      var init := names[..|names| - 1];
      var n := names[|names| - 1];
      EnsureTagsValid(ts, init);
      var mid := EnsureTags(ts, init);
      var r := EnsureTags(ts, names);
      forall j | |ts| <= j < |mid.0| ensures mid.0[j].name in names {
        assert mid.0[j].name in init;
      }
      if TagNamed(mid.0, n) == -1 {
        assert forall k :: 0 <= k < |mid.0| ==> mid.0[k].name != n;
        assert r.0 == mid.0 + [LTag(NextTagId(mid.0), n)];
      }
    }
  }

  /** The k-th id is that of a tag with the k-th name. */
  lemma {:induction false} EnsureTagsNamesIds(ts: seq<LTag>, names: seq<string>)
    ensures var r := EnsureTags(ts, names);
      forall k :: 0 <= k < |names| ==> LTag(r.1[k], names[k]) in r.0
  {
    if |names| > 0 {
      var init := names[..|names| - 1];
      var n := names[|names| - 1];
      EnsureTagsNamesIds(ts, init);
      var mid := EnsureTags(ts, init);
      var r := EnsureTags(ts, names);
      var i := TagNamed(mid.0, n);
      forall k | 0 <= k < |names| ensures LTag(r.1[k], names[k]) in r.0 {
        if k < |init| {
          assert names[k] == init[k] && r.1[k] == mid.1[k];
          assert LTag(mid.1[k], init[k]) in mid.0;
        } else if i != -1 {
          assert mid.0[i] == LTag(mid.0[i].id, n);
        } else {
          assert r.0[|mid.0|] == LTag(r.1[k], n);
        }
      }
    }
  }

  /** video.tags = tags: the video's rows are replaced by one per id. */
  function Relinked(links: set<(int, int)>, vid: int, ids: seq<int>): (r: set<(int, int)>)
    ensures forall l: (int, int) :: l in r <==> (l in links && l.0 != vid) || (l.0 == vid && l.1 in ids)
  {
    (set l | l in links && l.0 != vid) + (set k | 0 <= k < |ids| :: (vid, ids[k]))
  }

  /** Relinking a video to ids that name the given names in a valid table
      gives it exactly those names. */
  lemma NamesOfRelinked(t2: seq<LTag>, ids: seq<int>, names: seq<string>, links: set<(int, int)>, vid: int)
    requires TagsOk(t2) && |ids| == |names|
    requires forall k :: 0 <= k < |names| ==> LTag(ids[k], names[k]) in t2
    ensures VideoTagNames(t2, Relinked(links, vid, ids), vid) == set n | n in names
  {
    var l2 := Relinked(links, vid, ids);
    forall n | n in VideoTagNames(t2, l2, vid) ensures n in names {
      var j :| 0 <= j < |t2| && t2[j].name == n && (vid, t2[j].id) in l2;
      var k :| 0 <= k < |ids| && ids[k] == t2[j].id;
      var j2 :| 0 <= j2 < |t2| && t2[j2] == LTag(ids[k], names[k]);
      assert j2 == j;
    }
    forall n | n in names ensures n in VideoTagNames(t2, l2, vid) {
      var k :| 0 <= k < |names| && names[k] == n;
      var j :| 0 <= j < |t2| && t2[j] == LTag(ids[k], names[k]);
      assert (vid, t2[j].id) in l2;
    }
  }

  /** After the replacement the video carries exactly the names given. */
  lemma EnsureTagsNames(ts: seq<LTag>, links: set<(int, int)>, vid: int, names: seq<string>)
    requires TagsOk(ts)
    ensures var r := EnsureTags(ts, names);
      VideoTagNames(r.0, Relinked(links, vid, r.1), vid) == set n | n in names
  {
    var r := EnsureTags(ts, names);
    EnsureTagsValid(ts, names);
    EnsureTagsNamesIds(ts, names);
    NamesOfRelinked(r.0, r.1, names, links, vid);
  }

  datatype Reply = Ok | NoSuchVideo | Failed

  /** The HTTP status of each reply. */
  function StatusOf(r: Reply): (code: int)
    ensures code == 200 <==> r == Ok
    ensures r == NoSuchVideo <==> code == 404
  {
    match r
    case Ok => 200
    case NoSuchVideo => 404
    case Failed => 500
  }

  /** The get-or-create of `update` on the video: the first row with the
      name, or a new row without a cover; the cover reference is written
      when a cover came with the request. Returns the table and the row. */
  function WithVideo(vs: seq<LVideo>, f: string, cover: bool): (r: (seq<LVideo>, nat))
    ensures r.1 < |r.0| && r.0[r.1].filename == f
    ensures |r.0| == |vs| + (if VideoNamed(vs, f) == -1 then 1 else 0)
    ensures forall k :: 0 <= k < |vs| ==> r.0[k].id == vs[k].id && r.0[k].filename == vs[k].filename
    ensures forall k :: 0 <= k < |vs| && k != r.1 ==> r.0[k] == vs[k]
    ensures VideoNamed(vs, f) == -1 ==> r.1 == |vs| && r.0[r.1].id == NextVideoId(vs)
    ensures VideoNamed(vs, f) != -1 ==> r.1 == VideoNamed(vs, f)
    ensures r.0[r.1].cover == (if cover then Some(CoverRef(f)) else if VideoNamed(vs, f) == -1 then None else vs[r.1].cover)
  {
    var i := VideoNamed(vs, f);
    var vs1 := if i == -1 then vs + [LVideo(NextVideoId(vs), f, None)] else vs;
    var j := if i == -1 then |vs| else i;
    (if cover then vs1[j := vs1[j].(cover := Some(CoverRef(f)))] else vs1, j)
  }

  /** The row WithVideo picks is the one filter_by(filename=f).first()
      finds afterwards, and the ids stay ascending. */
  lemma WithVideoFound(vs: seq<LVideo>, f: string, cover: bool)
    requires VideosOk(vs)
    ensures var r := WithVideo(vs, f, cover); VideoNamed(r.0, f) == r.1 && VideosOk(r.0)
  {
    var r := WithVideo(vs, f, cover);
    if VideoNamed(vs, f) == -1 {
      assert forall k :: 0 <= k < |vs| ==> vs[k].filename != f;
    }
    IndexWhereIs(r.0, (v: LVideo) => v.filename == f, r.1);
  }

  /** The database state after a successful `update`, before its sweep. */
  function Updated(vs: seq<LVideo>, ts: seq<LTag>, links: set<(int, int)>, f: string,
                   names: Option<seq<string>>, cover: bool): (r: (seq<LVideo>, seq<LTag>, set<(int, int)>))
    ensures r.0 == WithVideo(vs, f, cover).0
    ensures names.None? ==> r.1 == ts && r.2 == links
    ensures names.Some? ==> var e := EnsureTags(ts, Dedupe(names.value));
      r.1 == e.0 && r.2 == Relinked(links, r.0[WithVideo(vs, f, cover).1].id, e.1)
  {
    var (vs2, j) := WithVideo(vs, f, cover);
    if names.None? then (vs2, ts, links)
    else
      var e := EnsureTags(ts, Dedupe(names.value));
      (vs2, e.0, Relinked(links, vs2[j].id, e.1))
  }

  /** Link rows stay valid when the tables only grow (by id). */
  lemma LinksOkExtend(links: set<(int, int)>, vs: seq<LVideo>, ts: seq<LTag>, vs2: seq<LVideo>, ts2: seq<LTag>)
    requires LinksOk(links, vs, ts)
    requires |vs| <= |vs2| && forall k :: 0 <= k < |vs| ==> vs2[k].id == vs[k].id
    requires |ts| <= |ts2| && ts2[..|ts|] == ts
    ensures LinksOk(links, vs2, ts2)
  {
    forall l: (int, int) | l in links ensures HasVideo(vs2, l.0) && HasTag(ts2, l.1) {
      var p :| 0 <= p < |vs| && vs[p].id == l.0;
      var m :| 0 <= m < |ts| && ts[m].id == l.1;
      assert ts2[m] == ts[m];
    }
  }

  /** The pre-sweep state of `update` keeps the tables valid. */
  lemma UpdatedValid(vs: seq<LVideo>, ts: seq<LTag>, links: set<(int, int)>, f: string,
                     names: Option<seq<string>>, cover: bool)
    requires VideosOk(vs) && TagsOk(ts) && LinksOk(links, vs, ts)
    ensures var u := Updated(vs, ts, links, f, names, cover);
      VideosOk(u.0) && TagsOk(u.1) && LinksOk(u.2, u.0, u.1)
    ensures var u := Updated(vs, ts, links, f, names, cover); TablesOk(u.0, u.1, u.2)
  {
    var u := Updated(vs, ts, links, f, names, cover);
    var (vs2, j) := WithVideo(vs, f, cover);
    WithVideoFound(vs, f, cover);
    if names.Some? {
      var e := EnsureTags(ts, Dedupe(names.value));
      EnsureTagsValid(ts, Dedupe(names.value));
      EnsureTagsNamesIds(ts, Dedupe(names.value));
      LinksOkExtend(links, vs, ts, vs2, e.0);
      forall l: (int, int) | l in u.2 ensures HasVideo(vs2, l.0) && HasTag(e.0, l.1) {
        if l.0 == vs2[j].id && l.1 in e.1 {
          var k :| 0 <= k < |e.1| && e.1[k] == l.1;
          assert LTag(e.1[k], Dedupe(names.value)[k]) in e.0;
        }
        else {
          assert l in links;
        }
      }
    } else {
      LinksOkExtend(links, vs, ts, vs2, ts);
    }
  }

  /** After a successful `update` with tag names, the first record with the
      name carries exactly the distinct names given, and every tag left is
      carried by some video. */
  lemma UpdateSetsTags(vs: seq<LVideo>, ts: seq<LTag>, links: set<(int, int)>, f: string,
                       names: seq<string>, cover: bool)
    requires VideosOk(vs) && TagsOk(ts)
    ensures var u := Updated(vs, ts, links, f, Some(names), cover);
      var i := VideoNamed(u.0, f);
      && 0 <= i < |u.0|
      && VideoTagNames(UsedTags(u.1, u.2), u.2, u.0[i].id) == set n | n in names
      && forall t :: t in UsedTags(u.1, u.2) ==> Used(u.2, t.id)
  {
    var u := Updated(vs, ts, links, f, Some(names), cover);
    var j := WithVideo(vs, f, cover).1;
    WithVideoFound(vs, f, cover);
    var e := EnsureTags(ts, Dedupe(names));
    EnsureTagsValid(ts, Dedupe(names));
    EnsureTagsNames(ts, links, u.0[j].id, Dedupe(names));
    assert (set n | n in Dedupe(names)) == set n | n in names;
    SweepKeepsVideoTags(e.0, u.2, u.0[j].id);
    UsedTagsExact(e.0, u.2);
  }

  /** delete_video's change to the tables: the row goes with its
      video_tags rows. */
  function WithoutVideo(vs: seq<LVideo>, links: set<(int, int)>, i: nat): (r: (seq<LVideo>, set<(int, int)>))
    requires i < |vs|
    ensures r.0 == Records.RemoveAt(vs, i)
    ensures forall l: (int, int) :: l in r.1 <==> l in links && l.0 != vs[i].id
  {
    (Records.RemoveAt(vs, i), set l | l in links && l.0 != vs[i].id)
  }

  lemma WithoutVideoValid(vs: seq<LVideo>, ts: seq<LTag>, links: set<(int, int)>, i: nat)
    requires i < |vs| && VideosOk(vs) && LinksOk(links, vs, ts)
    ensures var r := WithoutVideo(vs, links, i); VideosOk(r.0) && LinksOk(r.1, r.0, ts)
  {
    var r := WithoutVideo(vs, links, i);
    var ws := r.0;
    forall l: (int, int) | l in r.1 ensures HasVideo(ws, l.0) {
      var j :| 0 <= j < |vs| && vs[j].id == l.0;
      if j < i { assert ws[j] == vs[j]; } else { assert ws[j - 1] == vs[j]; }
    }
    forall a, b | 0 <= a < b < |ws| ensures ws[a].id < ws[b].id {
      var a' := if a < i then a else a + 1;
      var b' := if b < i then b else b + 1;
      assert ws[a] == vs[a'] && ws[b] == vs[b'];
    }
  }

  /** The sweep keeps link rows valid: no row names a swept tag. */
  lemma SweepKeepsLinks(vs: seq<LVideo>, ts: seq<LTag>, links: set<(int, int)>)
    requires TagsOk(ts) && LinksOk(links, vs, ts)
    ensures LinksOk(links, vs, UsedTags(ts, links))
  {
    UsedTagsExact(ts, links);
    var u := UsedTags(ts, links);
    forall l: (int, int) | l in links ensures HasTag(u, l.1) {
      var j :| 0 <= j < |ts| && ts[j].id == l.1;
      assert Used(links, ts[j].id);
      assert ts[j] in u;
      var i :| 0 <= i < |u| && u[i] == ts[j];
    }
  }

  /** One pass of the listing loop of `index`: generate a missing cover,
      create the record when the cover was missing and no record has the
      name, and list the card; a cover grab that raises fails the request. */
  method IndexEntry(st: IndexState, f: string, ts: seq<LTag>, links: set<(int, int)>, grabOk: string -> bool)
    returns (r: IndexState)
    ensures r == IndexStep(st, f, ts, links, grabOk)
  {
    if st.failed || !IsLegacyVideoName(f) {
      return st;
    }
    var vs, cs := st.videos, st.covers;
    var i := VideoNamed(vs, f);
    if CoverFile(f) !in cs {
      if !grabOk(f) {
        return st.(failed := true);
      }
      if i == -1 {
        vs := vs + [LVideo(NextVideoId(vs), f, Some(CoverRef(f)))];
        i := |vs| - 1;
      }
    }
    cs := cs + {CoverFile(f)};
    var card := if i == -1 then Card(f, [], Some("")) else Card(f, TagNameList(ts, links, vs[i].id), vs[i].cover);
    r := IndexState(vs, cs, st.cards + [card], false);
  }

  class Library {
    var videos: seq<LVideo>
    var tags: seq<LTag>
    var links: set<(int, int)>
    /** The names in COVERS_FOLDER and in VIDEO_FOLDER. */
    var covers: set<string>
    var files: set<string>

    ghost predicate Valid()
      reads this
    {
      TablesOk(videos, tags, links)
    }

    constructor (files: set<string>, covers: set<string>)
      ensures Valid() && this.files == files && this.covers == covers
      ensures videos == [] && tags == [] && links == {}
    {
      this.files := files;
      this.covers := covers;
      videos := [];
      tags := [];
      links := {};
    }

    /** cleanup_unused_tags: one pass over the tags, deleting each that no
        row of video_tags names. */
    method CleanupUnusedTags()
      requires Valid()
      modifies this`tags
      ensures Valid()
      ensures tags == UsedTags(old(tags), links)
    {
      var ts, ls := tags, links;
      var kept: seq<LTag> := [];
      var k := 0;
      while k < |ts|
        invariant 0 <= k <= |ts|
        invariant kept == UsedTags(ts[..k], ls)
      {
        FilterConcat(ts[..k], [ts[k]], (t: LTag) => Used(ls, t.id));
        FilterSingleton(ts[k], (t: LTag) => Used(ls, t.id));
        assert ts[..k + 1] == ts[..k] + [ts[k]];
        if Used(ls, ts[k].id) {
          kept := kept + [ts[k]];
        }
        k := k + 1;
      }
      assert ts[..k] == ts;
      UsedTagsExact(ts, ls);
      SweepKeepsLinks(videos, ts, ls);
      tags := kept;
    }

    /** index: walks the listing, generating each missing cover and
        creating a record for a video that had neither cover nor record.
        A cover grab that raises stops the walk and answers 500 (None);
        the records committed before it stay. */
    method Index(listing: seq<string>, grabOk: string -> bool) returns (page: Option<seq<Card>>)
      requires Valid()
      modifies this`videos, this`covers
      ensures Valid()
      ensures var r := IndexRun(IndexState(old(videos), old(covers), [], false), listing, tags, links, grabOk);
        && videos == r.videos && covers == r.covers
        && page == if r.failed then None else Some(r.cards)
    {
      var st0 := IndexState(videos, covers, [], false);
      var cur := st0;
      var k := 0;
      while k < |listing| && !cur.failed
        invariant 0 <= k <= |listing|
        invariant cur == IndexRun(st0, listing[..k], tags, links, grabOk)
      {
        assert listing[..k + 1] == listing[..k] + [listing[k]];
        IndexRunSnoc(st0, listing[..k], listing[k], tags, links, grabOk);
        cur := IndexEntry(cur, listing[k], tags, links, grabOk);
        k := k + 1;
      }
      if cur.failed {
        IndexRunStopsAtFailure(st0, listing, k, tags, links, grabOk);
      } else {
        assert listing[..k] == listing;
      }
      IndexRunValid(st0, listing, tags, links, grabOk);
      LinksOkExtend(links, st0.videos, tags, cur.videos, tags);
      videos, covers := cur.videos, cur.covers;
      page := if cur.failed then None else Some(cur.cards);
    }

    /** update: get-or-create the video by name, replace its tags by the
        distinct names given, write the cover, commit, sweep. A cover that
        does not decode fails the request after its file was opened for
        writing, and nothing reaches the database. */
    method Update(f: string, names: Option<seq<string>>, cover: Option<string>, decodes: bool)
      returns (r: Reply)
      requires Valid()
      modifies this`videos, this`tags, this`links, this`covers
      ensures Valid()
      ensures r != NoSuchVideo
      ensures covers == old(covers) + (if cover.Some? then {CoverFile(f)} else {})
      ensures r == Failed <==> cover.Some? && !decodes
      ensures r == Failed ==> videos == old(videos) && tags == old(tags) && links == old(links)
      ensures r == Ok ==>
        var u := Updated(old(videos), old(tags), old(links), f, names, cover.Some?);
        videos == u.0 && links == u.2 && tags == UsedTags(u.1, u.2)
    {
      if cover.Some? {
        covers := covers + {CoverFile(f)};
        if !decodes {
          return Failed;
        }
      }
      CommitUpdate(f, names, cover.Some?);
      r := Ok;
    }

    /** The database part of a successful update: the get-or-create, the
        new tag set, the commit and the sweep. */
    method CommitUpdate(f: string, names: Option<seq<string>>, withCover: bool)
      requires Valid()
      modifies this`videos, this`tags, this`links
      ensures Valid()
      ensures var u := Updated(old(videos), old(tags), old(links), f, names, withCover);
        videos == u.0 && links == u.2 && tags == UsedTags(u.1, u.2)
    {
      var u := Updated(videos, tags, links, f, names, withCover);
      UpdatedValid(videos, tags, links, f, names, withCover);
      Commit(u.0, u.1, u.2);
    }

    /** db.session.commit() of new tables, followed by the sweep. */
    method Commit(vs: seq<LVideo>, ts: seq<LTag>, ls: set<(int, int)>)
      requires TablesOk(vs, ts, ls)
      modifies this`videos, this`tags, this`links
      ensures Valid()
      ensures videos == vs && links == ls && tags == UsedTags(ts, ls)
    {
      videos, tags, links := vs, ts, ls;
      CleanupUnusedTags();
    }

    /** delete_video: 404 for an unknown name. A cover that cannot be
        removed fails with 500 and changes nothing else; a video file that
        cannot be removed is ignored and the record still goes, with its
        video_tags rows, before the sweep. */
    method DeleteVideo(f: string, coverRemoveOk: bool, videoRemoveOk: bool) returns (r: Reply)
      requires Valid()
      modifies this
      ensures Valid()
      ensures r == NoSuchVideo <==> VideoNamed(old(videos), f) == -1
      ensures r == Failed <==> VideoNamed(old(videos), f) != -1 && CoverFile(f) in old(covers) && !coverRemoveOk
      ensures r != Ok ==> videos == old(videos) && tags == old(tags) && links == old(links)
                          && covers == old(covers) && files == old(files)
      ensures r == Ok ==>
        var w := WithoutVideo(old(videos), old(links), VideoNamed(old(videos), f));
        && videos == w.0 && links == w.1 && tags == UsedTags(old(tags), w.1)
        && covers == old(covers) - {CoverFile(f)}
        && files == (if videoRemoveOk then old(files) - {f} else old(files))
    {
      var i := VideoNamed(videos, f);
      if i == -1 {
        return NoSuchVideo;
      }
      if CoverFile(f) in covers && !coverRemoveOk {
        return Failed;
      }
      var w := WithoutVideo(videos, links, i);
      WithoutVideoValid(videos, tags, links, i);
      // a missing cover or video file is simply not removed
      covers := covers - {CoverFile(f)};
      if videoRemoveOk {
        files := files - {f};
      }
      videos, links := w.0, w.1;
      CleanupUnusedTags();
      r := Ok;
    }
  }
}
