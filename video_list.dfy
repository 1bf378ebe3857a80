/** The useVideoList composable of the Vue client
    (frontend/src/composables/useVideoList.js): the list request it sends
    and the way it drops empty parameters, the route query it writes and
    reads back, the page count, the page resets of the handlers and the
    list update after a delete. The reactive refs are fields of one class;
    each request or route write is returned or stored as data. */
module VideoList {
  import opened Common
  import opened JsText
  import VideosApi
  import CatalogQuery

  // ------------------------------------------------------------ values

  /** The values the request parameters take. */
  datatype JsValue = JStr(s: string) | JBool(b: bool) | JNum(n: int) | JArr(items: seq<string>)

  /** A JavaScript number as Number() leaves it: an integer or NaN. */
  datatype Num = Num(value: int) | NaN

  function NumText(x: Num): (t: string)
    ensures |t| > 0 && ',' !in t
  {
    assert !IsDigit(',');
    if x.NaN? then "NaN" else IntToString(x.value)
  }

  function NumTexts(xs: seq<Num>): (r: seq<string>)
    ensures |r| == |xs| && forall k :: 0 <= k < |xs| ==> r[k] == NumText(xs[k])
  {
    if |xs| == 0 then [] else [NumText(xs[0])] + NumTexts(xs[1..])
  }

  /** `selectedTagIds.join(',')`. */
  function TagsText(ids: seq<Num>): string
  {
    Join(NumTexts(ids), ',')
  }

  /** The filter refs: keyword, favourites switch, tag ids, duration and sort. */
  datatype Filters = Filters(search: string, favorites: bool, tagIds: seq<Num>, duration: string, sort: string)

  /** The starting filters when no props are given. */
  const NoFilters: Filters := Filters("", false, [], "", "random")

  // --------------------------------------------------------- the request

  /** The keys of the params object of loadVideos, in its order. */
  datatype ParamKey = Skip | Limit | Keyword | Favorite | TagsParam | DurationParam | SortBy | Seed

  function ParamName(k: ParamKey): string
  {
    match k
    case Skip => "skip"
    case Limit => "limit"
    case Keyword => "keyword"
    case Favorite => "favorite"
    case TagsParam => "tags"
    case DurationParam => "duration"
    case SortBy => "sort_by"
    case Seed => "seed"
  }

  /** A params object; the order of its keys plays no part in the request. */
  type Params = map<ParamKey, JsValue>

  /** cleanParams' test: '' , false and an empty array are left out. */
  predicate Dropped(v: JsValue)
  {
    v == JStr("") || v == JBool(false) || (v.JArr? && |v.items| == 0)
  }

  /** cleanParams: the entries whose value is not dropped; every number,
      0 included, is kept. */
  function CleanParams(params: Params): (r: Params)
    ensures forall k :: k in r <==> k in params && !Dropped(params[k])
    ensures forall k :: k in r ==> r[k] == params[k]
    ensures forall k :: k in params && params[k].JNum? ==> k in r
  {
    map k | k in params && !Dropped(params[k]) :: params[k]
  }

  /** Cleaning cleaned parameters changes nothing. */
  lemma CleanParamsIdempotent(params: Params)
    ensures CleanParams(CleanParams(params)) == CleanParams(params)
  {
  }

  /** The params of loadVideos, before cleaning. */
  function LoadParams(f: Filters, page: int, pageSize: int, seed: int): Params
  {
    map[Skip := JNum((page - 1) * pageSize),
        Limit := JNum(pageSize),
        Keyword := JStr(f.search),
        Favorite := JBool(f.favorites),
        TagsParam := JStr(TagsText(f.tagIds)),
        DurationParam := JStr(f.duration),
        SortBy := JStr(f.sort),
        Seed := JNum(seed)]
  }

  function Lookup(params: Params, key: ParamKey): Option<JsValue>
  {
    if key in params then Some(params[key]) else None
  }

  function IntOr(v: Option<JsValue>, default: int): int
  {
    if v.Some? && v.value.JNum? then v.value.n else default
  }

  function IntOpt(v: Option<JsValue>): Option<int>
  {
    if v.Some? && v.value.JNum? then Some(v.value.n) else None
  }

  function StrOr(v: Option<JsValue>, default: string): string
  {
    if v.Some? && v.value.JStr? then v.value.s else default
  }

  function StrOpt(v: Option<JsValue>): Option<string>
  {
    if v.Some? && v.value.JStr? then Some(v.value.s) else None
  }

  function BoolOpt(v: Option<JsValue>): Option<bool>
  {
    if v.Some? && v.value.JBool? then Some(v.value.b) else None
  }

  /** The query parameters the list endpoint reads from a request; the
      absent ones take the endpoint's defaults (skip 0, limit 12,
      sort_by 'filename', None for the rest). */
  function Received(entries: Params): VideosApi.ListParams
  {
    VideosApi.ListParams(
      IntOr(Lookup(entries, Skip), 0),
      IntOr(Lookup(entries, Limit), 12),
      StrOpt(Lookup(entries, Keyword)),
      BoolOpt(Lookup(entries, Favorite)),
      StrOpt(Lookup(entries, TagsParam)),
      StrOpt(Lookup(entries, DurationParam)),
      StrOr(Lookup(entries, SortBy), "filename"),
      IntOpt(Lookup(entries, Seed)))
  }

  function NonEmpty(s: string): Option<string> { if s == "" then None else Some(s) }

  /** The sort the endpoint reads: an empty sort is not sent, so the
      endpoint's default 'filename' applies. */
  function SortReceived(sort: string): string { if sort == "" then "filename" else sort }

  /** The request loadVideos sends. */
  function Request(f: Filters, page: int, pageSize: int, seed: int): Params
  {
    CleanParams(LoadParams(f, page, pageSize, seed))
  }

  /** What the endpoint receives for a page: it skips the rows of the
      earlier pages and takes one page; an empty keyword, tag list or
      duration and an unchecked favourites switch send no filter at all,
      and an empty sort leaves the endpoint's 'filename'. */
  lemma RequestSent(f: Filters, page: int, pageSize: int, seed: int)
    ensures Received(CleanParams(LoadParams(f, page, pageSize, seed)))
         == VideosApi.ListParams((page - 1) * pageSize, pageSize, NonEmpty(f.search),
                                 if f.favorites then Some(true) else None,
                                 if |f.tagIds| == 0 then None else Some(TagsText(f.tagIds)),
                                 NonEmpty(f.duration), SortReceived(f.sort), Some(seed))
  {
    ReceivedOfLoad(LoadParams(f, page, pageSize, seed), (page - 1) * pageSize, pageSize, f.search,
                   f.favorites, TagsText(f.tagIds), f.duration, f.sort, seed);
    if |f.tagIds| > 0 {
      assert |TagsText(f.tagIds)| >= |NumText(f.tagIds[0])| > 0;
    }
  }

  lemma ReceivedOfLoad(p: Params, skip: int, limit: int, keyword: string, favorite: bool, tags: string,
                       duration: string, sortBy: string, seed: int)
    requires p == map[Skip := JNum(skip), Limit := JNum(limit), Keyword := JStr(keyword),
                      Favorite := JBool(favorite), TagsParam := JStr(tags), DurationParam := JStr(duration),
                      SortBy := JStr(sortBy), Seed := JNum(seed)]
    ensures Received(CleanParams(p))
         == VideosApi.ListParams(skip, limit, NonEmpty(keyword), if favorite then Some(true) else None,
                                 NonEmpty(tags), NonEmpty(duration), SortReceived(sortBy), Some(seed))
  {
  }

  function Nums(xs: seq<nat>): (r: seq<Num>)
    ensures |r| == |xs| && forall k :: 0 <= k < |xs| ==> r[k] == Num(xs[k])
  {
    if |xs| == 0 then [] else [Num(xs[0])] + Nums(xs[1..])
  }

  /** The tag ids the client selects are the tag filter the endpoint
      parses: none for an empty selection, the same ids otherwise. */
  lemma RequestTagFilter(f: Filters, xs: seq<nat>, page: int, pageSize: int, seed: int)
    requires f.tagIds == Nums(xs)
    ensures VideosApi.ParseTagIds(Received(CleanParams(LoadParams(f, page, pageSize, seed))).tags)
         == if |xs| == 0 then VideosApi.NoTagFilter else VideosApi.TagIds(xs)
  {
    RequestSent(f, page, pageSize, seed);
    if |xs| > 0 {
      NumTextsOfNats(xs);
      VideosApi.TagIdsRoundTrip(xs);
    }
  }

  /** A list loaded with an empty sort comes back ordered by file name: the
      sort is cleaned out of the request and the endpoint's default holds. */
  lemma EmptySortOrdersByFilename(f: Filters, xs: seq<nat>, page: int, pageSize: int, seed: int)
    requires f.tagIds == Nums(xs) && f.sort == ""
    ensures var p := Received(Request(f, page, pageSize, seed));
      && VideosApi.ParseTagIds(p.tags) != VideosApi.BadTags
      && CatalogQuery.SortKeyOf(VideosApi.QueryOf(p).sortBy, VideosApi.QueryOf(p).seed) == CatalogQuery.ByFilename
  {
    RequestTagFilter(f, xs, page, pageSize, seed);
  }

  lemma NumTextsOfNats(xs: seq<nat>)
    ensures NumTexts(Nums(xs)) == VideosApi.NatStrings(xs)
  {
    var a := NumTexts(Nums(xs));
    var b := VideosApi.NatStrings(xs);
    forall k | 0 <= k < |xs| ensures a[k] == b[k] {
      assert a[k] == IntToString(xs[k]);
    }
  }

  // --------------------------------------------------------- page count

  /** Math.ceil(total / pageSize); None stands for the Infinity or NaN of a
      zero page size. */
  function ClientTotalPages(total: int, pageSize: int): (r: Option<int>)
    ensures r.None? <==> pageSize == 0
  {
    if pageSize == 0 then None else Some(-FloorDiv(-total, pageSize))
  }

  /** For a positive page size it is the fewest pages that hold all rows. */
  lemma ClientTotalPagesIsCeiling(total: int, pageSize: int)
    requires pageSize > 0
    ensures var p := ClientTotalPages(total, pageSize).value;
      p * pageSize >= total && (p - 1) * pageSize < total
  {
    var q := FloorDiv(-total, pageSize);
    assert q * pageSize <= -total < q * pageSize + pageSize;
    assert (-q) * pageSize == -(q * pageSize);
    assert (-q - 1) * pageSize == -(q * pageSize) - pageSize;
  }

  /** The client's page count is the one the endpoint reports. */
  lemma ClientAgreesWithServer(total: nat, pageSize: int)
    requires pageSize > 0
    ensures ClientTotalPages(total, pageSize) == VideosApi.TotalPages(total, pageSize)
  {
    ClientTotalPagesIsCeiling(total, pageSize);
    VideosApi.TotalPagesIsCeiling(total, pageSize);
    var a := ClientTotalPages(total, pageSize).value;
    var b := VideosApi.TotalPages(total, pageSize).value;
    if a < b {
      MulMono(a, b - 1, pageSize);
    } else if b < a {
      MulMono(b, a - 1, pageSize);
    }
  }

  lemma MulMono(x: int, y: int, m: int)
    requires x <= y && m > 0
    ensures x * m <= y * m
  {
    assert y * m - x * m == (y - x) * m;
  }

  // --------------------------------------------------------- the route

  /** A key of the route query: the six the composable writes and reads,
      and any other key (kept under its name). */
  datatype RouteKey = SearchKey | FavoritesKey | TagsKey | DurationKey | SortKey | PageKey | OtherKey(name: string)

  function RouteKeyName(k: RouteKey): string
  {
    match k
    case SearchKey => "search"
    case FavoritesKey => "favorites"
    case TagsKey => "tags"
    case DurationKey => "duration"
    case SortKey => "sort"
    case PageKey => "page"
    case OtherKey(n) => n
  }

  type Query = map<RouteKey, string>

  function Get(q: Query, k: RouteKey): Option<string> { if k in q then Some(q[k]) else None }

  /** The keys the composable writes and reads. */
  const ManagedKeys: set<RouteKey> := {SearchKey, FavoritesKey, TagsKey, DurationKey, SortKey, PageKey}

  /** The value updateRouteParams gives each of its keys, None for
      undefined: the search and duration when not empty, favourites when
      on, the tag ids when any, the sort unless random, the page after the
      first. */
  function RouteValue(f: Filters, page: int, k: RouteKey): Option<string>
  {
    match k
    case SearchKey => NonEmpty(f.search)
    case FavoritesKey => if f.favorites then Some("true") else None
    case TagsKey => if |f.tagIds| > 0 then Some(TagsText(f.tagIds)) else None
    case DurationKey => NonEmpty(f.duration)
    case SortKey => if f.sort != "random" then Some(f.sort) else None
    case PageKey => if page > 1 then Some(IntToString(page)) else None
    case OtherKey(_) => None
  }

  /** The queryParams of updateRouteParams without the undefined ones. */
  function RouteParams(f: Filters, page: int): (m: Query)
    ensures forall k :: Get(m, k) == RouteValue(f, page, k)
  {
    map k | k in ManagedKeys && RouteValue(f, page, k).Some? :: RouteValue(f, page, k).value
  }

  /** updateRouteParams as written: the defined parameters are spread over
      the current query, so a key it leaves out keeps its old value. */
  function UpdatedQuery(q: Query, f: Filters, page: int): (r: Query)
    ensures var m := RouteParams(f, page);
      && r.Keys == q.Keys + m.Keys
      && (forall k :: k in q && k !in m ==> r[k] == q[k])
      && (forall k :: k in m ==> r[k] == m[k])
  {
    q + RouteParams(f, page)
  }

  /** The route update the reload logic needs: the composable's own keys
      are replaced as a group, every other key is kept. */
  function CorrectedQuery(q: Query, f: Filters, page: int): (r: Query)
    ensures var m := RouteParams(f, page);
      && r.Keys == (set k | k in q && k.OtherKey?) + m.Keys
      && (forall k :: k in q && k.OtherKey? ==> r[k] == q[k])
      && (forall k :: k in m ==> r[k] == m[k])
  {
    (map k | k in q && k.OtherKey? :: q[k]) + RouteParams(f, page)
  }

  /** What initializeFromRoute takes from the query: the filters and the page. */
  datatype RouteState = RouteState(filters: Filters, page: int)

  function NumberOf(s: string): Num
  {
    match JsNumber(s)
    case None => NaN
    case Some(n) => Num(n)
  }

  function NumbersOf(parts: seq<string>): (r: seq<Num>)
    ensures |r| == |parts| && forall k :: 0 <= k < |parts| ==> r[k] == NumberOf(parts[k])
  {
    if |parts| == 0 then [] else [NumberOf(parts[0])] + NumbersOf(parts[1..])
  }

  /** initializeFromRoute: `|| ''` for the texts, favourites only for
      'true', the tag ids through Number, sort `|| 'random'` and the page
      through `parseInt(...) || 1`. */
  function FromRoute(q: Query): (r: RouteState)
    ensures r.page != 0 && r.filters.sort != ""
    ensures r.filters.favorites <==> Get(q, FavoritesKey) == Some("true")
    ensures Get(q, TagsKey).None? || Get(q, TagsKey) == Some("") ==> r.filters.tagIds == []
  {
    RouteState(
      Filters(
        OrEmpty(Get(q, SearchKey)),
        Get(q, FavoritesKey) == Some("true"),
        TagsFrom(Get(q, TagsKey)),
        OrEmpty(Get(q, DurationKey)),
        SortOrRandom(Get(q, SortKey))),
      PageOrOne(Get(q, PageKey)))
  }

  /** `x || ''` on a query value. */
  function OrEmpty(x: Option<string>): string { if x.Some? then x.value else "" }

  /** `x || 'random'`. */
  function SortOrRandom(x: Option<string>): string { if x.Some? && x.value != "" then x.value else "random" }

  /** `x ? x.split(',').map(Number) : []`. */
  function TagsFrom(x: Option<string>): seq<Num>
  {
    if x.Some? && x.value != "" then NumbersOf(Split(x.value, ',')) else []
  }

  /** The states the composable can write: a page from 1 on and a sort. */
  predicate Writable(f: Filters, page: int)
  {
    page >= 1 && f.sort != ""
  }

  /** Number reads back every tag id written, NaN included. */
  lemma NumbersOfTexts(xs: seq<Num>)
    ensures NumbersOf(NumTexts(xs)) == xs
  {
    forall k | 0 <= k < |xs| ensures NumberOf(NumText(xs[k])) == xs[k] {
      NumberOfText(xs[k]);
    }
  }

  lemma NumberOfText(x: Num)
    ensures NumberOf(NumText(x)) == x
  {
    if x.Num? {
      JsNumberOfIntToString(x.value);
    } else {
      JsNumberOfNaN();
    }
  }

  lemma TagsTextRoundTrip(xs: seq<Num>)
    requires |xs| > 0
    ensures TagsText(xs) != ""
    ensures NumbersOf(Split(TagsText(xs), ',')) == xs
  {
    SplitJoin(NumTexts(xs), ',');
    NumbersOfTexts(xs);
    assert |TagsText(xs)| >= |NumText(xs[0])|;
  }

  /** A query that agrees with the written parameters on the six keys
      reads back as the state that wrote them. */
  lemma RouteReadsBack(r: Query, f: Filters, page: int)
    requires Writable(f, page)
    requires forall k :: k in ManagedKeys ==> Get(r, k) == RouteValue(f, page, k)
    ensures FromRoute(r) == RouteState(f, page)
  {
    assert Get(r, SearchKey) == RouteValue(f, page, SearchKey);
    assert Get(r, FavoritesKey) == RouteValue(f, page, FavoritesKey);
    assert Get(r, TagsKey) == RouteValue(f, page, TagsKey);
    assert Get(r, DurationKey) == RouteValue(f, page, DurationKey);
    assert Get(r, SortKey) == RouteValue(f, page, SortKey);
    assert Get(r, PageKey) == RouteValue(f, page, PageKey);
    ValuesReadBack(f, page);
  }

  /** Each written value reads back as the field that wrote it. */
  lemma ValuesReadBack(f: Filters, page: int)
    requires Writable(f, page)
    ensures OrEmpty(RouteValue(f, page, SearchKey)) == f.search
    ensures (RouteValue(f, page, FavoritesKey) == Some("true")) == f.favorites
    ensures TagsFrom(RouteValue(f, page, TagsKey)) == f.tagIds
    ensures OrEmpty(RouteValue(f, page, DurationKey)) == f.duration
    ensures SortOrRandom(RouteValue(f, page, SortKey)) == f.sort
    ensures PageOrOne(RouteValue(f, page, PageKey)) == page
  {
    if |f.tagIds| > 0 {
      TagsTextRoundTrip(f.tagIds);
    }
    if page > 1 {
      PageOrOneRoundTrip(page);
    }
  }

  /** The corrected route update reads back as the state that wrote it,
      whatever the query held before. */
  lemma CorrectedRouteRoundTrip(q: Query, f: Filters, page: int)
    requires Writable(f, page)
    ensures FromRoute(CorrectedQuery(q, f, page)) == RouteState(f, page)
  {
    RouteReadsBack(CorrectedQuery(q, f, page), f, page);
  }

  /** As written, the round trip holds only when the old query carries
      none of the composable's keys. */
  lemma UpdatedRouteRoundTrip(q: Query, f: Filters, page: int)
    requires Writable(f, page)
    requires forall k :: k in q ==> k.OtherKey?
    ensures FromRoute(UpdatedQuery(q, f, page)) == RouteState(f, page)
  {
    RouteReadsBack(UpdatedQuery(q, f, page), f, page);
  }

  /** As written, going back to page 1 leaves the old page in the URL: the
      query `page=3` updated for page 1 reads back as page 3. */
  lemma StaleRoutePage()
    ensures var q := map[PageKey := NatToString(3)];
      FromRoute(UpdatedQuery(q, NoFilters, 1)) == RouteState(NoFilters, 3)
  {
    var q := map[PageKey := NatToString(3)];
    assert forall k :: k in ManagedKeys ==> RouteValue(NoFilters, 1, k).None?;
    assert RouteParams(NoFilters, 1) == map[];
    assert UpdatedQuery(q, NoFilters, 1) == q;
    PageOrOneRoundTrip(3);
  }

  // ------------------------------------------------------- the list

  /** A video of the current page, by its id and file name. */
  datatype Item = Item(id: int, filename: string)

  predicate HasId(id: int, v: Item) { v.id == id }

  function FirstWithId(vs: seq<Item>, id: int): int
  {
    IndexWhere(vs, (v: Item) => HasId(id, v))
  }

  /** `videos.splice(findIndex(v => v.id === id), 1)` when found. */
  function WithoutFirst(vs: seq<Item>, id: int): (r: seq<Item>)
    ensures |r| == |vs| - (if FirstWithId(vs, id) == -1 then 0 else 1)
  {
    var i := FirstWithId(vs, id);
    if i == -1 then vs else vs[..i] + vs[i + 1..]
  }

  /** The removal takes out one video with the id, the first one, and
      keeps the others in their order; without one nothing changes. */
  lemma WithoutFirstRemovesOne(vs: seq<Item>, id: int)
    ensures (forall k :: 0 <= k < |vs| ==> vs[k].id != id) ==> WithoutFirst(vs, id) == vs
    ensures (exists k :: 0 <= k < |vs| && vs[k].id == id) ==>
      var i := FirstWithId(vs, id);
      && 0 <= i < |vs| && vs[i].id == id
      && (forall k :: 0 <= k < i ==> vs[k].id != id)
      && multiset(WithoutFirst(vs, id)) + multiset{vs[i]} == multiset(vs)
      && WithoutFirst(vs, id)[..i] == vs[..i]
  {
    var i := FirstWithId(vs, id);
    if i == -1 {
      assert WithoutFirst(vs, id) == vs;
      forall k | 0 <= k < |vs|
        ensures vs[k].id != id
      {
        assert !HasId(id, vs[k]);
      }
    } else {
      assert HasId(id, vs[i]);
      forall k | 0 <= k < i
        ensures vs[k].id != id
      {
        assert !HasId(id, vs[k]);
      }
      SpliceParts(vs, i);
    }
  }

  lemma SpliceParts(vs: seq<Item>, i: nat)
    requires i < |vs|
    ensures var r := vs[..i] + vs[i + 1..];
            multiset(r) + multiset{vs[i]} == multiset(vs) && r[..i] == vs[..i]
  {
    var r := vs[..i] + vs[i + 1..];
    assert r[..i] == vs[..i];
    assert vs == vs[..i] + [vs[i]] + vs[i + 1..];
    assert multiset(vs) == multiset(vs[..i]) + multiset{vs[i]} + multiset(vs[i + 1..]);
  }

  /** The optional props the composable is called with; an absent one is
      None. */
  datatype Props = Props(searchKeyword: Option<string>, onlyFavorites: Option<bool>,
                         selectedTagIds: Option<seq<Num>>, durationFilter: Option<string>,
                         sortFilter: Option<string>, viewMode: Option<string>)

  /** The initial filters: each prop `|| ''`, `|| false`, `|| []` and
      `|| 'random'`; an empty text falls back, an empty array does not. */
  function FiltersOf(p: Props): (f: Filters)
    ensures f.sort != "" && Writable(f, 1)
    ensures f.search == OrEmpty(p.searchKeyword) && f.duration == OrEmpty(p.durationFilter)
    ensures f.favorites <==> p.onlyFavorites == Some(true)
    ensures p.selectedTagIds.Some? ==> f.tagIds == p.selectedTagIds.value
    ensures p.sortFilter.Some? && p.sortFilter.value != "" ==> f.sort == p.sortFilter.value
    ensures p.sortFilter.None? || p.sortFilter == Some("") ==> f.sort == "random"
  {
    Filters(OrEmpty(p.searchKeyword), p.onlyFavorites == Some(true),
            if p.selectedTagIds.Some? then p.selectedTagIds.value else [],
            OrEmpty(p.durationFilter), SortOrRandom(p.sortFilter))
  }

  /** The state of one list view. */
  class VideoListView {
    var videos: seq<Item>
    var total: int
    var currentPage: int
    var pageSize: int
    var filters: Filters
    var seed: int
    var viewMode: string
    var route: Query

    /** The refs at start: no videos, page 1, the configured page size, the
        filters and view mode the props give (with their `||` defaults) and
        the current route. */
    constructor (pageSize0: int, props: Props, seed0: int, route0: Query)
      ensures videos == [] && total == 0 && currentPage == 1 && pageSize == pageSize0
      ensures filters == FiltersOf(props) && seed == seed0 && route == route0
      ensures viewMode == if props.viewMode.Some? && props.viewMode.value != "" then props.viewMode.value else "grid"
    {
      videos := [];
      total := 0;
      currentPage := 1;
      pageSize := pageSize0;
      filters := FiltersOf(props);
      seed := seed0;
      viewMode := if props.viewMode.Some? && props.viewMode.value != "" then props.viewMode.value else "grid";
      route := route0;
    }

    /** initializeFromRoute, with the stored view mode (None when unset). */
    method InitializeFromRoute(storedViewMode: Option<string>)
      modifies this`filters, this`currentPage, this`viewMode
      ensures RouteState(filters, currentPage) == FromRoute(route)
      ensures viewMode == if storedViewMode.Some? && storedViewMode.value != "" then storedViewMode.value else "grid"
    {
      var st := FromRoute(route);
      filters := st.filters;
      currentPage := st.page;
      viewMode := if storedViewMode.Some? && storedViewMode.value != "" then storedViewMode.value else "grid";
    }

    /** loadVideos: sends the cleaned params; a reply (the page's videos and
        the total) replaces the list and updates the route, a failed request
        changes nothing. */
    method LoadVideos(reply: Option<(seq<Item>, int)>) returns (sent: Params)
      modifies this`videos, this`total, this`route
      ensures sent == Request(filters, currentPage, pageSize, seed)
      ensures reply.Some? ==> videos == reply.value.0 && total == reply.value.1
                              && route == UpdatedQuery(old(route), filters, currentPage)
      ensures reply.None? ==> videos == old(videos) && total == old(total) && route == old(route)
    {
      if reply.Some? {
        videos := reply.value.0;
        total := reply.value.1;
        UpdateRouteParams();
      }
      sent := Request(filters, currentPage, pageSize, seed);
    }

    /** updateRouteParams: router.replace with the merged query. */
    method UpdateRouteParams()
      modifies this`route
      ensures route == UpdatedQuery(old(route), filters, currentPage)
    {
      route := UpdatedQuery(route, filters, currentPage);
    }

    /** handleSearch: back to page 1, then load. */
    method HandleSearch(reply: Option<(seq<Item>, int)>) returns (sent: Params)
      modifies this`currentPage, this`videos, this`total, this`route
      ensures currentPage == 1
      ensures sent == Request(filters, 1, pageSize, seed)
      ensures reply.Some? ==> videos == reply.value.0 && total == reply.value.1
                              && route == UpdatedQuery(old(route), filters, currentPage)
      ensures reply.None? ==> videos == old(videos) && total == old(total) && route == old(route)
    {
      currentPage := 1;
      sent := LoadVideos(reply);
    }

    /** handleSortChange: a new seed for the random order, page 1, load. */
    method HandleSortChange(newSeed: int, reply: Option<(seq<Item>, int)>) returns (sent: Params)
      modifies this`seed, this`currentPage, this`videos, this`total, this`route
      ensures currentPage == 1
      ensures seed == if filters.sort == "random" then newSeed else old(seed)
      ensures sent == Request(filters, 1, pageSize, seed)
      ensures reply.Some? ==> videos == reply.value.0 && total == reply.value.1
                              && route == UpdatedQuery(old(route), filters, currentPage)
      ensures reply.None? ==> videos == old(videos) && total == old(total) && route == old(route)
    {
      if filters.sort == "random" {
        seed := newSeed;
      }
      currentPage := 1;
      sent := LoadVideos(reply);
    }

    /** handleSizeChange: the new page size, page 1, load. */
    method HandleSizeChange(size: int, reply: Option<(seq<Item>, int)>) returns (sent: Params)
      modifies this`pageSize, this`currentPage, this`videos, this`total, this`route
      ensures pageSize == size && currentPage == 1
      ensures sent == Request(filters, 1, size, seed)
      ensures reply.Some? ==> videos == reply.value.0 && total == reply.value.1
                              && route == UpdatedQuery(old(route), filters, currentPage)
      ensures reply.None? ==> videos == old(videos) && total == old(total) && route == old(route)
    {
      pageSize := size;
      currentPage := 1;
      sent := LoadVideos(reply);
    }

    /** handleCurrentChange: the chosen page, load. */
    method HandleCurrentChange(page: int, reply: Option<(seq<Item>, int)>) returns (sent: Params)
      modifies this`currentPage, this`videos, this`total, this`route
      ensures currentPage == page
      ensures sent == Request(filters, page, pageSize, seed)
      ensures reply.Some? ==> videos == reply.value.0 && total == reply.value.1
                              && route == UpdatedQuery(old(route), filters, currentPage)
      ensures reply.None? ==> videos == old(videos) && total == old(total) && route == old(route)
    {
      currentPage := page;
      sent := LoadVideos(reply);
    }

    /** deleteVideo: nothing happens unless the dialog is confirmed and the
        delete request succeeds. Then the first video with the id leaves
        the list and total drops by one if there was one; an empty page
        after page 1 steps back one page and reloads. */
    method DeleteVideo(id: int, confirmed: bool, deleteOk: bool, reply: Option<(seq<Item>, int)>)
      returns (reloaded: bool)
      modifies this`videos, this`total, this`currentPage, this`route
      ensures !(confirmed && deleteOk) ==>
        !reloaded && videos == old(videos) && total == old(total) && currentPage == old(currentPage)
        && route == old(route)
      ensures confirmed && deleteOk ==>
        var left := WithoutFirst(old(videos), id);
        var found := FirstWithId(old(videos), id) != -1;
        && (reloaded <==> |left| == 0 && old(currentPage) > 1)
        && currentPage == (if reloaded then old(currentPage) - 1 else old(currentPage))
        && (!reloaded || reply.None? ==>
              videos == left && total == (if found then old(total) - 1 else old(total)) && route == old(route))
        && (reloaded && reply.Some? ==>
              videos == reply.value.0 && total == reply.value.1
              && route == UpdatedQuery(old(route), filters, currentPage))
    {
      reloaded := false;
      if !(confirmed && deleteOk) {
        return;
      }
      var index := FirstWithId(videos, id);
      if index != -1 {
        videos := videos[..index] + videos[index + 1..];
        total := total - 1;
      }
      if |videos| == 0 && currentPage > 1 {
        currentPage := currentPage - 1;
        var _ := LoadVideos(reply);
        reloaded := true;
      }
    }
  }
}
