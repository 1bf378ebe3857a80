/** The filtered, sorted and paged video listing (get_videos_by_filters in
    backend/app/services/video_service.py).

    The SQL query becomes functions on the table: a match predicate, a
    stable sort by the requested key, and SQLite's OFFSET/LIMIT. */
module CatalogQuery {
  import opened Common
  import opened Records

  /** The query parameters, as the service receives them; None stands for
      Python's None. */
  datatype Query = Query(
    skip: int,
    limit: int,
    keyword: Option<string>,
    favorite: Option<bool>,
    tags: Option<seq<int>>,
    duration: Option<string>,
    sortBy: Option<string>,
    seed: Option<int>)

  datatype Listing = Listing(items: seq<Video>, total: nat)

  /** The short-video threshold in minutes when no setting row exists. */
  const DefaultShortMinutes: real := 5.0

  /** The threshold: the stored short_video_duration value, or 5.0. */
  function ShortMinutes(setting: Option<real>): real
  {
    if setting.Some? then setting.value else DefaultShortMinutes
  }

  /** The duration filter: "short" is at most the threshold, "long" above
      it; any other value, or none, filters nothing. */
  predicate DurationOk(duration: real, filter: Option<string>, minutes: real)
  {
    if filter == Some("short") then duration <= minutes * 60.0
    else if filter == Some("long") then duration > minutes * 60.0
    else true
  }

  /** Every filter of the query at once: the keyword as a case-insensitive
      substring of the file name, the favourite flag, every listed tag
      linked to the row, and the duration class. */
  predicate Matches(v: Video, links: set<(int, int)>, q: Query, minutes: real)
  {
    && (q.keyword.Some? && q.keyword.value != "" ==> Contains(Lower(v.filename), Lower(q.keyword.value)))
    && (q.favorite.Some? ==> v.isFavorite == q.favorite.value)
    && (q.tags.Some? ==> forall t :: t in q.tags.value ==> (v.id, t) in links)
    && DurationOk(v.duration, q.duration, minutes)
  }

  function Matching(vs: seq<Video>, links: set<(int, int)>, q: Query, minutes: real): seq<Video>
  {
    Filter(vs, v => Matches(v, links, q, minutes))
  }

  // ------------------------------------------------------------- ordering

  datatype SortKey = ByFilename | ByDuration | BySize | ByCreated | Seeded(seed: int) | Unseeded | Unordered

  /** Which ORDER BY the query gets; an empty or unknown sort_by gets none. */
  function SortKeyOf(sortBy: Option<string>, seed: Option<int>): SortKey
  {
    match sortBy
    case None => Unordered
    case Some(s) =>
      if s == "filename" then ByFilename
      else if s == "duration" then ByDuration
      else if s == "size" then BySize
      else if s == "created_at" then ByCreated
      else if s == "random" then (if seed.Some? then Seeded(seed.value) else Unseeded)
      else Unordered
  }

  const TwoTo63: nat := 0x8000_0000_0000_0000
  const Multiplier: nat := 2654435761
  const Addend: nat := 1103515245
  const FinalMod: nat := 2147483647

  /** (abs(seed) % 2**63 * 1103515245) % 2147483647, in Python arithmetic. */
  function SeedScramble(seed: int): (r: nat)
    ensures r < FinalMod
  {
    (Abs(seed) % TwoTo63 * Addend) % FinalMod
  }

  /** abs((id * 2654435761 + scramble) % 2147483647), with SQLite's
      remainder, which takes the sign of the dividend. */
  function ShuffleKey(id: int, seed: int): (k: nat)
    ensures k < FinalMod
  {
    Abs(TruncMod(id * Multiplier + SeedScramble(seed), FinalMod))
  }

  /** Only the seed's magnitude matters. */
  lemma ShuffleKeySign(id: int, seed: int)
    ensures ShuffleKey(id, -seed) == ShuffleKey(id, seed)
  {
    assert Abs(-seed) == Abs(seed);
  }

  /** For the positive ids the table holds, the key is the plain remainder. */
  lemma ShuffleKeyOfPositiveId(id: int, seed: int)
    requires id > 0
    ensures ShuffleKey(id, seed) == (id * Multiplier + SeedScramble(seed)) % FinalMod
  {
    assert id * Multiplier >= 0;
  }

  /** a may come before b under the key; ties keep table order. The
      unseeded random order uses `noise`, a per-row random value. */
  predicate Precedes(k: SortKey, noise: int -> int, a: Video, b: Video)
  {
    match k
    case ByFilename => LexLe(a.filename, b.filename)
    case ByDuration => a.duration >= b.duration
    case BySize => a.size >= b.size
    case ByCreated => a.createdAt >= b.createdAt
    case Seeded(s) => ShuffleKey(a.id, s) <= ShuffleKey(b.id, s)
    case Unseeded => noise(a.id) <= noise(b.id)
    case Unordered => true
  }

  function Ordered(vs: seq<Video>, k: SortKey, noise: int -> int): seq<Video>
  {
    SortBy(vs, (a, b) => Precedes(k, noise, a, b))
  }

  lemma PrecedesTotalPreorder(vs: seq<Video>, k: SortKey, noise: int -> int)
    ensures TotalPreorderOn(vs, (a, b) => Precedes(k, noise, a, b))
  {
    if k == ByFilename {
      forall a, b | a in vs && b in vs ensures Precedes(k, noise, a, b) || Precedes(k, noise, b, a) {
        LexLeTotal(a.filename, b.filename);
      }
      forall a, b, c | a in vs && b in vs && c in vs && Precedes(k, noise, a, b) && Precedes(k, noise, b, c)
        ensures Precedes(k, noise, a, c)
      {
        LexLeTransitive(a.filename, b.filename, c.filename);
      }
    }
  }

  /** The ordered rows are the input rows, ascending under the key. */
  lemma OrderedSorted(vs: seq<Video>, k: SortKey, noise: int -> int)
    ensures multiset(Ordered(vs, k, noise)) == multiset(vs)
    ensures forall i, j :: 0 <= i < j < |Ordered(vs, k, noise)| ==>
      Precedes(k, noise, Ordered(vs, k, noise)[i], Ordered(vs, k, noise)[j])
  {
    PrecedesTotalPreorder(vs, k, noise);
    SortBySorted(vs, (a, b) => Precedes(k, noise, a, b));
  }

  /** Without ORDER BY the rows come in table (ascending id) order. */
  lemma UnorderedKeepsTableOrder(vs: seq<Video>, noise: int -> int)
    ensures Ordered(vs, Unordered, noise) == vs
  {
    SortByTrivial(vs, (a, b) => Precedes(Unordered, noise, a, b));
  }

  /** A seeded shuffle is reproducible: it does not depend on the random source. */
  lemma SeededIgnoresNoise(vs: seq<Video>, seed: int, n1: int -> int, n2: int -> int)
    ensures Ordered(vs, Seeded(seed), n1) == Ordered(vs, Seeded(seed), n2)
  {
    var le1 := (a: Video, b: Video) => Precedes(Seeded(seed), n1, a, b);
    var le2 := (a: Video, b: Video) => Precedes(Seeded(seed), n2, a, b);
    forall a: Video, b: Video ensures le1(a, b) == le2(a, b) {
      assert le1(a, b) == (ShuffleKey(a.id, seed) <= ShuffleKey(b.id, seed)) == le2(a, b);
    }
    SortByAgree(vs, le1, le2);
  }

  /** Seeds of equal magnitude give the same shuffle. */
  lemma SeededIgnoresSign(vs: seq<Video>, seed: int, noise: int -> int)
    ensures Ordered(vs, Seeded(seed), noise) == Ordered(vs, Seeded(-seed), noise)
  {
    var le1 := (a: Video, b: Video) => Precedes(Seeded(seed), noise, a, b);
    var le2 := (a: Video, b: Video) => Precedes(Seeded(-seed), noise, a, b);
    forall a: Video, b: Video ensures le1(a, b) == le2(a, b) {
      ShuffleKeySign(a.id, seed);
      ShuffleKeySign(b.id, seed);
      assert le1(a, b) == (ShuffleKey(a.id, seed) <= ShuffleKey(b.id, seed));
      assert le2(a, b) == (ShuffleKey(a.id, -seed) <= ShuffleKey(b.id, -seed));
    }
    SortByAgree(vs, le1, le2);
  }

  // --------------------------------------------------------------- paging

  /** SQLite's OFFSET skip LIMIT limit: a negative offset counts as 0 and a
      negative limit means no limit. */
  function Window<T>(s: seq<T>, skip: int, limit: int): (r: seq<T>)
    ensures limit >= 0 ==> |r| == Min(limit, Max(0, |s| - Max(skip, 0)))
    ensures limit < 0 ==> |r| == Max(0, |s| - Max(skip, 0))
    ensures forall k :: 0 <= k < |r| ==> r[k] == s[Max(skip, 0) + k]
  {
    var from := if skip <= 0 then 0 else Min(skip, |s|);
    var to := if limit < 0 then |s| else Min(from + limit, |s|);
    s[from..to]
  }

  /** Consecutive pages tile the listing. */
  lemma WindowsTile<T>(s: seq<T>, skip: nat, n: nat, m: nat)
    ensures Window(s, skip, n) + Window(s, skip + n, m) == Window(s, skip, n + m)
  {
    var a := Window(s, skip, n);
    var b := Window(s, skip + n, m);
    var c := Window(s, skip, n + m);
    assert |a + b| == |c|;
    forall k | 0 <= k < |c| ensures (a + b)[k] == c[k] {
      if k >= |a| {
        assert (a + b)[k] == b[k - |a|];
      }
    }
  }

  // ------------------------------------------------------------- the query

  /** get_videos_by_filters: the page of matching rows in the requested
      order, and the number of matching rows before paging. */
  function ListVideosBy(vs: seq<Video>, links: set<(int, int)>, q: Query, noise: int -> int,
                        setting: Option<real>): (r: Listing)
    ensures r.total <= |vs|
    ensures forall v :: v in r.items ==> v in vs && Matches(v, links, q, ShortMinutes(setting))
    ensures q.limit >= 0 ==> |r.items| == Min(q.limit, Max(0, r.total - Max(q.skip, 0)))
  {
    var minutes := ShortMinutes(setting);
    var rows := Matching(vs, links, q, minutes);
    var sorted := Ordered(rows, SortKeyOf(q.sortBy, q.seed), noise);
    assert |sorted| == |rows| by {
      assert |multiset(sorted)| == |multiset(rows)|;
    }
    var page := Window(sorted, q.skip, q.limit);
    assert forall v :: v in page ==> v in sorted;
    assert forall v :: v in sorted ==> v in rows by {
      forall v | v in sorted ensures v in rows {
        assert v in multiset(sorted);
      }
    }
    Listing(page, |rows|)
  }

  /** The total counts the distinct matching rows of the table. */
  lemma TotalCountsMatchingRows(vs: seq<Video>, links: set<(int, int)>, q: Query, noise: int -> int,
                                setting: Option<real>)
    requires ValidTable(vs)
    ensures ListVideosBy(vs, links, q, noise, setting).total
         == |set v | v in vs && Matches(v, links, q, ShortMinutes(setting))|
  {
    var minutes := ShortMinutes(setting);
    var rows := Matching(vs, links, q, minutes);
    assert Distinct(vs) by {
      forall i, j | 0 <= i < j < |vs| ensures vs[i] != vs[j] {
        assert vs[i].id < vs[j].id;
      }
    }
    FilterDistinct(vs, v => Matches(v, links, q, minutes));
    DistinctCard(rows);
    assert (set v | v in rows) == (set v | v in vs && Matches(v, links, q, minutes));
  }

  /** The page is the slice [skip, skip + limit) of all matching rows in
      order, and that order is ascending under the sort key. */
  lemma PageIsSortedSlice(vs: seq<Video>, links: set<(int, int)>, q: Query, noise: int -> int,
                          setting: Option<real>)
    ensures var sorted := Ordered(Matching(vs, links, q, ShortMinutes(setting)), SortKeyOf(q.sortBy, q.seed), noise);
      && ListVideosBy(vs, links, q, noise, setting).items == Window(sorted, q.skip, q.limit)
      && forall i, j :: 0 <= i < j < |sorted| ==>
           Precedes(SortKeyOf(q.sortBy, q.seed), noise, sorted[i], sorted[j])
  {
    OrderedSorted(Matching(vs, links, q, ShortMinutes(setting)), SortKeyOf(q.sortBy, q.seed), noise);
  }

  /** "short" and "long" split the rows the other filters keep: a failed
      probe's -1 duration counts as short. */
  lemma ShortAndLongPartition(vs: seq<Video>, links: set<(int, int)>, q: Query, noise: int -> int,
                              setting: Option<real>)
    ensures ListVideosBy(vs, links, q.(duration := Some("short")), noise, setting).total
          + ListVideosBy(vs, links, q.(duration := Some("long")), noise, setting).total
         == ListVideosBy(vs, links, q.(duration := None), noise, setting).total
  {
    var m := ShortMinutes(setting);
    var all := q.(duration := None);
    var short := q.(duration := Some("short"));
    var long := q.(duration := Some("long"));
    var p := v => Matches(v, links, all, m);
    var ps := v => Matches(v, links, short, m);
    var pl := v => Matches(v, links, long, m);
    forall v: Video ensures (p(v) <==> ps(v) || pl(v)) && !(ps(v) && pl(v)) {
      assert ps(v) <==> p(v) && v.duration <= m * 60.0;
      assert pl(v) <==> p(v) && v.duration > m * 60.0;
    }
    FilterPartition(vs, p, ps, pl);
    assert ListVideosBy(vs, links, all, noise, setting).total == |Filter(vs, p)|;
    assert ListVideosBy(vs, links, short, noise, setting).total == |Filter(vs, ps)|;
    assert ListVideosBy(vs, links, long, noise, setting).total == |Filter(vs, pl)|;
  }

  /** With the default threshold a record whose probe failed (-1) is short. */
  lemma FailedProbeIsShort(v: Video, links: set<(int, int)>, q: Query)
    requires v.duration == -1.0
    ensures DurationOk(v.duration, Some("short"), ShortMinutes(None))
    ensures !DurationOk(v.duration, Some("long"), ShortMinutes(None))
  {
  }
}
