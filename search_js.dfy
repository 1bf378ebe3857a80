/** The VideoSearch class of static/js/search.js: the pagination bar it
    renders after each search and the way it restores the search state
    from the URL or from the saved state. Each rendered button is a
    `Control`; the name input, the tag selection and the page number are
    fields of the class. */
module SearchScript {
  import opened Common
  import opened JsText

  // ------------------------------------------------------ pagination

  /** One element of the pagination bar. Prev, LastPage and Next carry the
      page their click searches for; FirstPage searches page 1. */
  datatype Control =
    | Prev(target: int)
    | FirstPage
    | LeadingEllipsis
    | PageButton(n: int, active: bool)
    | TrailingEllipsis
    | LastPage(target: int)
    | Next(target: int)

  /** Up to six numbered pages on each side of the current one. */
  const Radius: int := 6

  function WindowStart(cur: int): int { Max(cur - Radius, 1) }
  function WindowEnd(cur: int, total: int): int { Min(cur + Radius, total) }

  /** Left-to-right position of each kind of control in the bar. */
  function Rank(c: Control): nat
  {
    match c
    case Prev(_) => 0
    case FirstPage => 1
    case LeadingEllipsis => 2
    case PageButton(_, _) => 3
    case TrailingEllipsis => 4
    case LastPage(_) => 5
    case Next(_) => 6
  }

  /** a comes strictly before b: an earlier kind, or a lower page number. */
  predicate Before(a: Control, b: Control)
  {
    Rank(a) < Rank(b) || (a.PageButton? && b.PageButton? && a.n < b.n)
  }

  /** When each control is in the bar of a multi-page result. */
  predicate Shown(c: Control, cur: int, total: int)
  {
    var start := WindowStart(cur);
    var end := WindowEnd(cur, total);
    match c
    case Prev(t) => cur > 1 && t == cur - 1
    case FirstPage => start > 1
    case LeadingEllipsis => start > 2
    case PageButton(n, a) => start <= n <= end && (a <==> n == cur)
    case TrailingEllipsis => end < total - 1
    case LastPage(t) => end < total && t == total
    case Next(t) => cur < total && t == cur + 1
  }

  /** The numbered buttons lo..hi, the current page marked active. */
  function PageButtons(lo: int, hi: int, cur: int): (r: seq<Control>)
    ensures |r| == if lo > hi then 0 else hi - lo + 1
    ensures forall k :: 0 <= k < |r| ==> r[k] == PageButton(lo + k, lo + k == cur)
    decreases hi - lo + 1
  {
    if lo > hi then [] else [PageButton(lo, lo == cur)] + PageButtons(lo + 1, hi, cur)
  }

  function PrevPart(cur: int): seq<Control> { if cur > 1 then [Prev(cur - 1)] else [] }

  function FirstPart(start: int): seq<Control>
  {
    if start > 1 then [FirstPage] + (if start > 2 then [LeadingEllipsis] else []) else []
  }

  function LastPart(end: int, total: int): seq<Control>
  {
    if end < total then (if end < total - 1 then [TrailingEllipsis] else []) + [LastPage(total)] else []
  }

  function NextPart(cur: int, total: int): seq<Control> { if cur < total then [Next(cur + 1)] else [] }

  /** The bar updatePagination renders for a page of a result. */
  function Pagination(cur: int, total: int): (r: seq<Control>)
    ensures total <= 1 ==> r == []
  {
    if total <= 1 then []
    else
      var start := WindowStart(cur);
      var end := WindowEnd(cur, total);
      PrevPart(cur) + FirstPart(start) + PageButtons(start, end, cur) + LastPart(end, total) + NextPart(cur, total)
  }

  /** A multi-page bar holds exactly the controls whose condition holds:
      previous and next when they exist, the first-page jump past page 1,
      the last-page jump before the last page, the ellipses when a gap is
      left, and the numbered pages of the window. */
  lemma PaginationShown(cur: int, total: int)
    requires total > 1
    ensures forall c :: c in Pagination(cur, total) <==> Shown(c, cur, total)
  {
    var start := WindowStart(cur);
    var end := WindowEnd(cur, total);
    var p, f, m, l, n := PrevPart(cur), FirstPart(start), PageButtons(start, end, cur), LastPart(end, total), NextPart(cur, total);
    assert Pagination(cur, total) == p + f + m + l + n;
    forall c ensures c in Pagination(cur, total) <==> Shown(c, cur, total) {
      assert c in p + f + m + l + n <==> c in p || c in f || c in m || c in l || c in n;
      InPartsShown(c, cur, total);
    }
  }

  /** One control against the five parts of the bar, kind by kind. */
  lemma InPartsShown(c: Control, cur: int, total: int)
    ensures var start := WindowStart(cur);
            var end := WindowEnd(cur, total);
            c in PrevPart(cur) || c in FirstPart(start) || c in PageButtons(start, end, cur)
            || c in LastPart(end, total) || c in NextPart(cur, total)
            <==> Shown(c, cur, total)
  {
    var start := WindowStart(cur);
    var end := WindowEnd(cur, total);
    var pages := PageButtons(start, end, cur);
    if c.PageButton? && Shown(c, cur, total) {
      assert pages[c.n - start] == c;
    }
  }

  predicate Ordered(s: seq<Control>)
  {
    forall i, j :: 0 <= i < j < |s| ==> Before(s[i], s[j])
  }

  lemma OrderedConcat(a: seq<Control>, b: seq<Control>)
    requires Ordered(a) && Ordered(b)
    requires forall i, j :: 0 <= i < |a| && 0 <= j < |b| ==> Before(a[i], b[j])
    ensures Ordered(a + b)
  {
    var r := a + b;
    forall i, j | 0 <= i < j < |r| ensures Before(r[i], r[j]) {
      if j < |a| {
        assert r[i] == a[i] && r[j] == a[j];
      } else if i >= |a| {
        assert r[i] == b[i - |a|] && r[j] == b[j - |a|];
      } else {
        assert r[i] == a[i] && r[j] == b[j - |a|];
      }
    }
  }

  /** The bar is laid out in the order previous, first, leading ellipsis,
      pages ascending, trailing ellipsis, last, next; no kind but the
      numbered pages occurs twice. */
  lemma PaginationOrdered(cur: int, total: int)
    ensures Ordered(Pagination(cur, total))
  {
    if total > 1 {
      var start := WindowStart(cur);
      var end := WindowEnd(cur, total);
      var a := PrevPart(cur) + FirstPart(start);
      var p := PageButtons(start, end, cur);
      var z := LastPart(end, total) + NextPart(cur, total);
      assert Pagination(cur, total) == a + p + z;
      HeadOrdered(cur, start);
      PagesOrdered(start, end, cur);
      TailOrdered(end, total, cur);
      OrderedConcat(a, p);
      OrderedConcat(a + p, z);
    }
  }

  lemma HeadOrdered(cur: int, start: int)
    ensures var a := PrevPart(cur) + FirstPart(start);
      Ordered(a) && forall k :: 0 <= k < |a| ==> Rank(a[k]) < 3
  {
  }

  lemma PagesOrdered(lo: int, hi: int, cur: int)
    ensures var p := PageButtons(lo, hi, cur);
      Ordered(p) && forall k :: 0 <= k < |p| ==> Rank(p[k]) == 3
  {
  }

  lemma TailOrdered(end: int, total: int, cur: int)
    ensures var z := LastPart(end, total) + NextPart(cur, total);
      Ordered(z) && forall k :: 0 <= k < |z| ==> Rank(z[k]) > 3
  {
  }

  /** On a page within the result exactly one numbered button is active,
      and it is the current page's. */
  lemma PaginationOneActive(cur: int, total: int)
    requires total > 1 && 1 <= cur <= total
    ensures PageButton(cur, true) in Pagination(cur, total)
    ensures var r := Pagination(cur, total);
      forall i, j ::
        (0 <= i < |r| && 0 <= j < |r| && r[i].PageButton? && r[i].active && r[j].PageButton? && r[j].active)
        ==> i == j
  {
    PaginationShown(cur, total);
    PaginationOrdered(cur, total);
    assert Shown(PageButton(cur, true), cur, total);
    var r := Pagination(cur, total);
    forall k | 0 <= k < |r| && r[k].PageButton? && r[k].active ensures r[k].n == cur {
      assert r[k] in r;
    }
  }

  // --------------------------------------------------- restoring state

  /** What the search remembers: the page, the name query and the tags. */
  datatype SearchState = SearchState(currentPage: int, nameQuery: string, selectedTags: seq<string>)

  /** The parsed saved state: Object.assign copies only the keys present. */
  datatype SavedState = SavedState(
    currentPage: Option<int>,
    nameQuery: Option<string>,
    selectedTags: Option<seq<string>>)

  function Assign(s: SearchState, saved: SavedState): (r: SearchState)
    ensures saved.currentPage.None? ==> r.currentPage == s.currentPage
    ensures saved.nameQuery.None? ==> r.nameQuery == s.nameQuery
    ensures saved.selectedTags.None? ==> r.selectedTags == s.selectedTags
  {
    SearchState(
      if saved.currentPage.Some? then saved.currentPage.value else s.currentPage,
      if saved.nameQuery.Some? then saved.nameQuery.value else s.nameQuery,
      if saved.selectedTags.Some? then saved.selectedTags.value else s.selectedTags)
  }

  /** The state restoreState settles on. The URL parameters are page and
      name (None when absent) and the values of tags[] (none when the key
      is absent); the saved state is consulted only when the URL carries
      none of the three. */
  function Restored(pageParam: Option<string>, nameParam: Option<string>, tagParams: seq<string>,
                    saved: Option<SavedState>): (r: SearchState)
    ensures (pageParam.Some? || nameParam.Some? || |tagParams| > 0 || saved.None?) ==>
      r.currentPage == PageOrOne(pageParam) && r.selectedTags == tagParams
      && r.nameQuery == (if nameParam.Some? then nameParam.value else "")
  {
    var fromUrl := SearchState(PageOrOne(pageParam), if nameParam.Some? then nameParam.value else "", tagParams);
    if pageParam.None? && nameParam.None? && |tagParams| == 0 && saved.Some? then Assign(fromUrl, saved.value)
    else fromUrl
  }

  /** A search runs at start-up iff there is a name, a tag or a later page. */
  predicate ShouldSearch(s: SearchState)
  {
    s.nameQuery != "" || |s.selectedTags| > 0 || s.currentPage > 1
  }

  /** The state saveState writes into the URL (page, name and one tags[]
      per tag) is the state restoreState reads back, whatever was saved. */
  lemma RestoreAfterSave(s: SearchState, saved: Option<SavedState>)
    requires s.currentPage >= 1
    ensures Restored(Some(NatToString(s.currentPage)), Some(s.nameQuery), s.selectedTags, saved) == s
  {
    PageOrOneRoundTrip(s.currentPage);
  }

  /** With a bare URL the saved state, written in full, comes back whole. */
  lemma RestoreSaved(s: SearchState)
    ensures Restored(None, None, [], Some(SavedState(Some(s.currentPage), Some(s.nameQuery), Some(s.selectedTags)))) == s
  {
  }

  /** A first visit, with nothing in the URL and nothing saved, shows page
      1 of everything and does not search. */
  lemma FirstVisitDoesNotSearch()
    ensures Restored(None, None, [], None) == SearchState(1, "", [])
    ensures !ShouldSearch(Restored(None, None, [], None))
  {
  }

  // ----------------------------------------------------------- the page

  /** updatePagination's html string: the bar built piece by piece, the
      numbered pages in a loop. */
  method RenderPagination(cur: int, total: int) returns (html: seq<Control>)
    ensures html == Pagination(cur, total)
  {
    if total <= 1 {
      return [];
    }
    var start := Max(cur - 6, 1);
    var end := Min(cur + 6, total);
    html := [];
    if cur > 1 {
      html := html + [Prev(cur - 1)];
    }
    if start > 1 {
      html := html + [FirstPage];
      if start > 2 {
        html := html + [LeadingEllipsis];
      }
    }
    ghost var head := html;
    assert head == PrevPart(cur) + FirstPart(start);
    var i := start;
    while i <= end
      invariant start <= i <= Max(start, end + 1)
      invariant html + PageButtons(i, end, cur) == head + PageButtons(start, end, cur)
      decreases end - i + 1
    {
      assert PageButtons(i, end, cur) == [PageButton(i, i == cur)] + PageButtons(i + 1, end, cur);
      html := html + [PageButton(i, i == cur)];
      i := i + 1;
    }
    assert html == head + PageButtons(start, end, cur);
    if end < total {
      if end < total - 1 {
        html := html + [TrailingEllipsis];
      }
      html := html + [LastPage(total)];
    }
    if cur < total {
      html := html + [Next(cur + 1)];
    }
  }

  class VideoSearch {
    var currentPage: int
    var nameValue: string
    var selectedTags: seq<string>
    var pagination: seq<Control>

    /** The fields before init() runs: the constructor's call to init()
        (restoreState and the event bindings) is modelled by RestoreState,
        which the page calls on this state. */
    constructor ()
      ensures currentPage == 1 && nameValue == "" && selectedTags == [] && pagination == []
    {
      currentPage := 1;
      nameValue := "";
      selectedTags := [];
      pagination := [];
    }

    /** updatePagination: the bar rendered into the container. */
    method UpdatePagination(cur: int, total: int)
      modifies this`pagination
      ensures pagination == Pagination(cur, total)
    {
      pagination := RenderPagination(cur, total);
    }

    /** restoreState: the URL parameters, or when there are none the saved
        state key by key, set the page, the name input and the tag
        selection; the result says whether the initial search runs. */
    method RestoreState(pageParam: Option<string>, nameParam: Option<string>, tagParams: seq<string>,
                        saved: Option<SavedState>)
      returns (searched: bool)
      modifies this`currentPage, this`nameValue, this`selectedTags
      ensures SearchState(currentPage, nameValue, selectedTags) == Restored(pageParam, nameParam, tagParams, saved)
      ensures searched == ShouldSearch(Restored(pageParam, nameParam, tagParams, saved))
    {
      var state := SearchState(PageOrOne(pageParam), if nameParam.Some? then nameParam.value else "", tagParams);
      if pageParam.None? && nameParam.None? && |tagParams| == 0 {
        if saved.Some? {
          var v := saved.value;
          if v.currentPage.Some? {
            state := state.(currentPage := v.currentPage.value);
          }
          if v.nameQuery.Some? {
            state := state.(nameQuery := v.nameQuery.value);
          }
          if v.selectedTags.Some? {
            state := state.(selectedTags := v.selectedTags.value);
          }
        }
      }
      currentPage := state.currentPage;
      nameValue := state.nameQuery;
      selectedTags := state.selectedTags;
      searched := state.nameQuery != "" || |state.selectedTags| > 0 || state.currentPage > 1;
    }
  }
}
