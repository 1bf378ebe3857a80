/** The tag helpers of the legacy page scripts (static/js/tags.js and the
    TagManager class of static/js/tagManager.js): the comma-separated tag
    input clean-up, the name and tag match rules and the card visibility
    they drive, the option-list sync after an update, and the paged option
    loader. Each `<option>` is its value; each video card is its file name,
    the text of its tag input and the flags the scripts store on it. */
module TagScripts {
  import opened Common
  import opened JsText

  // ------------------------------------------------ tag input clean-up

  function TrimAll(xs: seq<string>): (r: seq<string>)
    ensures |r| == |xs| && forall k :: 0 <= k < |xs| ==> r[k] == JsTrim(xs[k])
  {
    if |xs| == 0 then [] else [JsTrim(xs[0])] + TrimAll(xs[1..])
  }

  predicate NonEmpty(t: string) { |t| > 0 }

  /** removeDuplicatesFromString: split on ',', trim each piece, drop the
      empty ones and keep the first occurrence of each. */
  function DedupeTags(input: string): (r: seq<string>)
    ensures Distinct(r)
    ensures forall x :: x in r <==> x != "" && x in TrimAll(Split(input, ','))
  {
    Dedupe(Filter(TrimAll(Split(input, ',')), NonEmpty))
  }

  /** Every cleaned tag is trimmed and holds no ','. */
  lemma DedupeTagsClean(input: string)
    ensures forall k :: 0 <= k < |DedupeTags(input)| ==>
      JsTrim(DedupeTags(input)[k]) == DedupeTags(input)[k] && ',' !in DedupeTags(input)[k]
  {
    var parts := Split(input, ',');
    var pieces := TrimAll(parts);
    var r := DedupeTags(input);
    forall k | 0 <= k < |r| ensures JsTrim(r[k]) == r[k] && ',' !in r[k] {
      assert r[k] in pieces;
      var j :| 0 <= j < |pieces| && pieces[j] == r[k];
      assert r[k] == JsTrim(parts[j]);
      JsTrimIdempotent(parts[j]);
      assert ',' !in parts[j];
    }
  }

  /** Writing the cleaned list back into the input (`uniqueTags.join(',')`)
      and cleaning it again gives the same list. */
  lemma DedupeTagsIdempotent(input: string)
    ensures DedupeTags(Join(DedupeTags(input), ',')) == DedupeTags(input)
  {
    var r := DedupeTags(input);
    DedupeTagsClean(input);
    forall k | 0 <= k < |r| ensures r[k] != "" {
      assert r[k] in r;
    }
    CleanListFixed(r);
  }

  /** A list of distinct, trimmed, non-empty tags without ',' is its own
      clean-up once joined. */
  lemma CleanListFixed(r: seq<string>)
    requires Distinct(r)
    requires forall k :: 0 <= k < |r| ==> JsTrim(r[k]) == r[k] && ',' !in r[k] && r[k] != ""
    ensures DedupeTags(Join(r, ',')) == r
  {
    if |r| == 0 {
      EmptyInputClean();
    } else {
      SplitJoin(r, ',');
      TrimAllFixed(r);
      FilterAll(r, NonEmpty);
      DedupeDistinct(r);
    }
  }

  lemma EmptyInputClean()
    ensures DedupeTags("") == []
  {
    assert Split("", ',') == [""];
    assert TrimAll([""]) == [""];
    FilterSingleton("", NonEmpty);
  }

  lemma {:induction false} TrimAllFixed(r: seq<string>)
    requires forall k :: 0 <= k < |r| ==> JsTrim(r[k]) == r[k]
    ensures TrimAll(r) == r
  {
    if |r| > 0 {
      TrimAllFixed(r[1..]);
      assert [r[0]] + r[1..] == r;
    }
  }

  // ------------------------------------------------------- match rules

  /** searchByFilename's test: an empty trimmed query matches every card,
      otherwise the lower-cased name must contain the lower-cased query. */
  predicate NameMatches(filename: string, query: string)
  {
    var q := Lower(JsTrim(query));
    q == "" || Contains(Lower(filename), q)
  }

  /** filterVideoCards' test on the trimmed pieces of the card's tag input. */
  predicate TagMatches(tagsValue: string, selected: seq<string>)
  {
    |selected| == 0 || forall t :: t in selected ==> t in TrimAll(Split(tagsValue, ','))
  }

  /** integrateSearchResults trims and lower-cases the query before
      searchByFilename does the same: doing it twice changes nothing. */
  lemma NormalisedQueryMatchesAlike(filename: string, query: string)
    ensures NameMatches(filename, Lower(JsTrim(query))) == NameMatches(filename, query)
  {
    var t := JsTrim(query);
    var q := Lower(t);
    assert Lower(q) == q;
    if |q| > 0 {
      LowerCharKeepsWhitespace(t[0]);
      LowerCharKeepsWhitespace(t[|t| - 1]);
    }
    assert JsTrim(q) == q;
  }

  /** A card whose input was cleaned matches any selection of its own tags. */
  lemma CleanedCardMatchesOwnTags(input: string, selected: seq<string>)
    requires forall t :: t in selected ==> t in DedupeTags(input)
    ensures TagMatches(Join(DedupeTags(input), ','), selected)
  {
    var r := DedupeTags(input);
    DedupeTagsClean(input);
    if |r| > 0 {
      SplitJoin(r, ',');
      assert TrimAll(r) == r;
    }
  }

  // --------------------------------------------------------- the page

  datatype CardView = CardView(filename: string, tagsValue: string, nameMatch: bool, tagMatch: bool, visible: bool)

  /** The state tags.js keeps: the options of the tag select, the global
      page counter, the cards and the no-results message. */
  class TagsPage {
    var options: seq<string>
    var currentPage: int
    var cards: seq<CardView>
    var noResultsShown: bool

    constructor (cards: seq<CardView>)
      ensures this.cards == cards && options == [] && currentPage == 1 && !noResultsShown
    {
      this.cards := cards;
      options := [];
      currentPage := 1;
      noResultsShown := false;
    }

    /** searchByFilename: stores each card's name match. */
    method SearchByFilename(query: string)
      modifies this`cards
      ensures |cards| == |old(cards)|
      ensures forall k :: 0 <= k < |cards| ==>
        cards[k] == old(cards)[k].(nameMatch := NameMatches(old(cards)[k].filename, query))
    {
      var k := 0;
      ghost var cs := cards;
      while k < |cards|
        invariant 0 <= k <= |cards| == |cs|
        invariant forall j :: 0 <= j < k ==> cards[j] == cs[j].(nameMatch := NameMatches(cs[j].filename, query))
        invariant forall j :: k <= j < |cards| ==> cards[j] == cs[j]
      {
        cards := cards[k := cards[k].(nameMatch := NameMatches(cards[k].filename, query))];
        k := k + 1;
      }
    }

    /** filterVideoCards: stores each card's tag match. */
    method FilterVideoCards(selected: seq<string>)
      modifies this`cards
      ensures |cards| == |old(cards)|
      ensures forall k :: 0 <= k < |cards| ==>
        cards[k] == old(cards)[k].(tagMatch := TagMatches(old(cards)[k].tagsValue, selected))
    {
      var k := 0;
      ghost var cs := cards;
      while k < |cards|
        invariant 0 <= k <= |cards| == |cs|
        invariant forall j :: 0 <= j < k ==> cards[j] == cs[j].(tagMatch := TagMatches(cs[j].tagsValue, selected))
        invariant forall j :: k <= j < |cards| ==> cards[j] == cs[j]
      {
        cards := cards[k := cards[k].(tagMatch := TagMatches(cards[k].tagsValue, selected))];
        k := k + 1;
      }
    }

    /** integrateSearchResults: a card is shown iff it matches by name and
        by tag, and the no-results message iff no card is shown. A missing
        selection (`$(tagSearch).val() || []`) selects nothing. */
    method IntegrateSearchResults(nameInput: string, selection: Option<seq<string>>)
      modifies this`cards, this`noResultsShown
      ensures |cards| == |old(cards)|
      ensures forall k :: 0 <= k < |cards| ==>
        var c := old(cards)[k];
        var selected := if selection.Some? then selection.value else [];
        && cards[k].filename == c.filename && cards[k].tagsValue == c.tagsValue
        && cards[k].nameMatch == NameMatches(c.filename, nameInput)
        && cards[k].tagMatch == TagMatches(c.tagsValue, selected)
        && cards[k].visible == (cards[k].nameMatch && cards[k].tagMatch)
      ensures noResultsShown <==> forall k :: 0 <= k < |cards| ==> !cards[k].visible
    {
      var nameQuery := Lower(JsTrim(nameInput));
      var selected := if selection.Some? then selection.value else [];
      ghost var cs := cards;
      SearchByFilename(nameQuery);
      FilterVideoCards(selected);
      forall k | 0 <= k < |cs| ensures NameMatches(cs[k].filename, nameQuery) == NameMatches(cs[k].filename, nameInput) {
        NormalisedQueryMatchesAlike(cs[k].filename, nameInput);
      }
      var anyVisible := false;
      var k := 0;
      ghost var flagged := cards;
      while k < |cards|
        invariant 0 <= k <= |cards| == |flagged|
        invariant forall j :: 0 <= j < k ==> cards[j] == flagged[j].(visible := flagged[j].nameMatch && flagged[j].tagMatch)
        invariant forall j :: k <= j < |cards| ==> cards[j] == flagged[j]
        invariant anyVisible <==> exists j :: 0 <= j < k && cards[j].visible
      {
        var shown := cards[k].nameMatch && cards[k].tagMatch;
        cards := cards[k := cards[k].(visible := shown)];
        if shown {
          anyVisible := true;
        }
        k := k + 1;
      }
      noResultsShown := !anyVisible;
    }

    /** updateTagSearch: adds the server's tags the select lacks, then
        removes the options the server no longer has, one option per stale
        entry, each time the first with that value. */
    method UpdateTagSearch(serverTags: seq<string>)
      modifies this`options
      ensures options == Filter(old(options), (t: string) => t in serverTags)
                         + Filter(serverTags, (t: string) => t !in old(options))
    {
      var current := options;
      var toAdd := Filter(serverTags, (t: string) => t !in current);
      var toRemove := Filter(current, (t: string) => t !in serverTags);
      var k := 0;
      while k < |toAdd|
        invariant 0 <= k <= |toAdd| && options == current + toAdd[..k]
      {
        options := options + [toAdd[k]];
        k := k + 1;
      }
      assert toAdd[..k] == toAdd;
      k := 0;
      while k < |toRemove|
        invariant 0 <= k <= |toRemove|
        invariant RemoveEach(options, toRemove[k..]) == RemoveEach(current + toAdd, toRemove)
      {
        var tag := toRemove[k];
        assert toRemove[k..][0] == tag && toRemove[k..][1..] == toRemove[k + 1..];
        if tag in options {
          var i := FirstIndex(options, tag);
          options := options[..i] + options[i + 1..];
        }
        k := k + 1;
      }
      RemoveStale(current, serverTags, toAdd);
    }

    /** The forEach of loadTags: one option per fetched tag, in order. */
    method AppendOptions(tags: seq<string>)
      modifies this`options
      ensures options == old(options) + tags
    {
      var k := 0;
      while k < |tags|
        invariant 0 <= k <= |tags| && options == old(options) + tags[..k]
      {
        options := options + [tags[k]];
        k := k + 1;
      }
      assert tags[..k] == tags;
    }

    /** loadTags(page): appends each fetched page's tags and asks for the
        next page, numbered from the global counter, iff the page held
        exactly 50 tags. `fuel` bounds the number of requests. */
    method LoadTags(page: int, fetch: int -> seq<string>, fuel: nat) returns (requested: seq<int>)
      modifies this`options, this`currentPage
      ensures PagedLoad(page, old(currentPage), fetch, fuel, requested)
      ensures options == old(options) + PagesText(fetch, requested)
      ensures currentPage == old(currentPage) + FullPages(fetch, requested)
    {
      ghost var options0, counter := options, currentPage;
      requested := [];
      var p := page;
      var more := true;
      while more && |requested| < fuel
        invariant |requested| <= fuel && Loading(page, counter, fetch, requested, more, p)
        invariant more ==> FullPages(fetch, requested) == |requested|
        invariant options == options0 + PagesText(fetch, requested)
        invariant currentPage == counter + FullPages(fetch, requested)
        decreases fuel - |requested|, more
      {
        var tags := fetch(p);
        PagesSnoc(fetch, requested, p);
        LoadingStep(page, counter, fetch, requested, p);
        requested := requested + [p];
        AppendOptions(tags);
        if |tags| == LoaderPageSize {
          currentPage := currentPage + 1;
          p := currentPage;
        } else {
          more := false;
        }
      }
      LoadingDone(page, counter, fetch, fuel, requested, more, p);
    }
  }

  // ------------------------------------------------- option sync proof

  /** Removing the first option with the value, if there is one. */
  function RemoveFirst(xs: seq<string>, x: string): (r: seq<string>)
    ensures x !in xs ==> r == xs
  {
    if x in xs then xs[..FirstIndex(xs, x)] + xs[FirstIndex(xs, x) + 1..] else xs
  }

  function RemoveEach(xs: seq<string>, ys: seq<string>): seq<string>
  {
    if |ys| == 0 then xs else RemoveEach(RemoveFirst(xs, ys[0]), ys[1..])
  }

  lemma RemoveFirstCons(c: string, xs: seq<string>, y: string)
    requires y != c
    ensures RemoveFirst([c] + xs, y) == [c] + RemoveFirst(xs, y)
  {
    var s := [c] + xs;
    assert s[0] == c && s[1..] == xs;
    if y in xs {
      var i := FirstIndex(xs, y);
      assert FirstIndex(s, y) == i + 1;
      assert s[..i + 1] == [c] + xs[..i];
      assert s[i + 2..] == xs[i + 1..];
      calc {
        RemoveFirst(s, y);
        s[..i + 1] + s[i + 2..];
        ([c] + xs[..i]) + xs[i + 1..];
        [c] + (xs[..i] + xs[i + 1..]);
      }
    } else {
      assert y !in s;
    }
  }

  lemma {:induction false} RemoveEachCons(c: string, xs: seq<string>, ys: seq<string>)
    requires c !in ys
    ensures RemoveEach([c] + xs, ys) == [c] + RemoveEach(xs, ys)
  {
    if |ys| > 0 {
      RemoveFirstCons(c, xs, ys[0]);
      RemoveEachCons(c, RemoveFirst(xs, ys[0]), ys[1..]);
    }
  }

  /** The removal pass leaves the surviving old options, in their order,
      followed by the added ones. */
  lemma {:induction false} RemoveStale(current: seq<string>, server: seq<string>, added: seq<string>)
    ensures RemoveEach(current + added, Filter(current, (t: string) => t !in server))
         == Filter(current, (t: string) => t in server) + added
  {
    var stale := (t: string) => t !in server;
    var live := (t: string) => t in server;
    if |current| == 0 {
      assert current + added == added;
    } else {
      var c := current[0];
      var rest := current[1..];
      assert current + added == [c] + (rest + added);
      RemoveStale(rest, server, added);
      if c in server {
        assert Filter(current, stale) == Filter(rest, stale);
        RemoveEachCons(c, rest + added, Filter(rest, stale));
      } else {
        assert Filter(current, stale) == [c] + Filter(rest, stale);
        assert ([c] + (rest + added))[1..] == rest + added;
        assert RemoveFirst([c] + (rest + added), c) == rest + added;
        assert Filter(current, stale)[1..] == Filter(rest, stale);
      }
    }
  }

  /** After the sync the select offers exactly the server's tags. */
  lemma SyncedOptions(old_options: seq<string>, serverTags: seq<string>)
    ensures var o := Filter(old_options, (t: string) => t in serverTags)
                     + Filter(serverTags, (t: string) => t !in old_options);
      forall t :: t in o <==> t in serverTags
  {
  }

  // ---------------------------------------------------- paged loading

  const LoaderPageSize: nat := 50

  /** The tags the requested pages returned, in request order. */
  function PagesText(fetch: int -> seq<string>, ps: seq<int>): seq<string>
  {
    if |ps| == 0 then [] else PagesText(fetch, ps[..|ps| - 1]) + fetch(ps[|ps| - 1])
  }

  /** The number of requested pages that came back full. */
  function FullPages(fetch: int -> seq<string>, ps: seq<int>): (n: nat)
    ensures n <= |ps|
  {
    if |ps| == 0 then 0
    else FullPages(fetch, ps[..|ps| - 1]) + (if |fetch(ps[|ps| - 1])| == LoaderPageSize then 1 else 0)
  }

  lemma PagesSnoc(fetch: int -> seq<string>, ps: seq<int>, p: int)
    ensures PagesText(fetch, ps + [p]) == PagesText(fetch, ps) + fetch(p)
    ensures FullPages(fetch, ps + [p]) == FullPages(fetch, ps) + (if |fetch(p)| == LoaderPageSize then 1 else 0)
  {
    assert (ps + [p])[..|ps|] == ps;
  }

  /** The request sequence of the recursive loader: the first request asks
      for `page`, the k-th further one for the counter's start plus k; a
      request follows exactly when the previous page held 50 tags, until the
      fuel runs out. */
  ghost predicate PagedLoad(page: int, counter: int, fetch: int -> seq<string>, fuel: nat, requested: seq<int>)
  {
    && |requested| <= fuel
    && (fuel > 0 ==> |requested| > 0 && requested[0] == page)
    && (forall k :: 0 < k < |requested| ==> requested[k] == counter + k)
    && (forall k :: 0 <= k < |requested| - 1 ==> |fetch(requested[k])| == LoaderPageSize)
    && (0 < |requested| < fuel ==> |fetch(requested[|requested| - 1])| != LoaderPageSize)
  }

  /** The request sequence is determined by the page replies. */
  lemma PagedLoadUnique(page: int, counter: int, fetch: int -> seq<string>, fuel: nat, r1: seq<int>, r2: seq<int>)
    requires PagedLoad(page, counter, fetch, fuel, r1) && PagedLoad(page, counter, fetch, fuel, r2)
    ensures r1 == r2
  {
    forall k | 0 <= k < |r1| && k < |r2| ensures r1[k] == r2[k] {
    }
  }

  /** The loader's state between requests: what has been requested so far
      follows the loader's rule, and `more` says that the last page was
      full (or nothing was requested yet), with `p` the next page to ask. */
  ghost predicate Loading(page: int, counter: int, fetch: int -> seq<string>, requested: seq<int>, more: bool, p: int)
  {
    && (more ==> p == (if |requested| == 0 then page else counter + |requested|))
    && (|requested| > 0 ==> (|fetch(requested[|requested| - 1])| == LoaderPageSize <==> more))
    && (!more ==> |requested| > 0)
    && (|requested| > 0 ==> requested[0] == page)
    && (forall k :: 0 < k < |requested| ==> requested[k] == counter + k)
    && (forall k :: 0 <= k < |requested| - 1 ==> |fetch(requested[k])| == LoaderPageSize)
  }

  /** Asking for page p keeps the rule; the next page is the counter after
      its increment. */
  lemma LoadingStep(page: int, counter: int, fetch: int -> seq<string>, requested: seq<int>, p: int)
    requires Loading(page, counter, fetch, requested, true, p)
    ensures var full := |fetch(p)| == LoaderPageSize;
            Loading(page, counter, fetch, requested + [p], full, if full then counter + |requested| + 1 else p)
  {
    RequestsSnoc(page, counter, fetch, requested, p);
    var r := requested + [p];
    assert r[|r| - 1] == p;
  }

  /** The request rule, extended by one more request for the next page. */
  lemma RequestsSnoc(page: int, counter: int, fetch: int -> seq<string>, requested: seq<int>, p: int)
    requires p == (if |requested| == 0 then page else counter + |requested|)
    requires |requested| > 0 ==> requested[0] == page
    requires forall k :: 0 < k < |requested| ==> requested[k] == counter + k
    requires forall k :: 0 <= k < |requested| ==> |fetch(requested[k])| == LoaderPageSize
    ensures var r := requested + [p];
            && r[0] == page
            && (forall k :: 0 < k < |r| ==> r[k] == counter + k)
            && (forall k :: 0 <= k < |r| - 1 ==> |fetch(r[k])| == LoaderPageSize)
  {
    var r := requested + [p];
    assert r[|requested|] == p;
    forall k | 0 < k < |r|
      ensures r[k] == counter + k
    {
      if k < |requested| {
        assert r[k] == requested[k];
      }
    }
    forall k | 0 <= k < |r| - 1
      ensures |fetch(r[k])| == LoaderPageSize
    {
      assert r[k] == requested[k];
    }
  }

  /** Once the loader stops, for a short page or for want of fuel, the
      requests are those of the rule. */
  lemma LoadingDone(page: int, counter: int, fetch: int -> seq<string>, fuel: nat, requested: seq<int>, more: bool, p: int)
    requires Loading(page, counter, fetch, requested, more, p) && |requested| <= fuel
    requires !(more && |requested| < fuel)
    ensures PagedLoad(page, counter, fetch, fuel, requested)
  {
  }

  /** The TagManager class: the same options, its own page counter. */
  class TagManager {
    var options: seq<string>
    var currentPage: int

    /** The fields the constructor sets before its call to init(); the
        first load init() starts is modelled by LoadTags. */
    constructor ()
      ensures options == [] && currentPage == 1
    {
      options := [];
      currentPage := 1;
    }

    /** updateTagOptions: one option per tag, in order. */
    method UpdateTagOptions(tags: seq<string>)
      modifies this`options
      ensures options == old(options) + tags
    {
      var k := 0;
      while k < |tags|
        invariant 0 <= k <= |tags| && options == old(options) + tags[..k]
      {
        options := options + [tags[k]];
        k := k + 1;
      }
      assert tags[..k] == tags;
    }

    /** loadTags(page): as the page script's loader, on this.currentPage. */
    method LoadTags(page: int, fetch: int -> seq<string>, fuel: nat) returns (requested: seq<int>)
      modifies this`options, this`currentPage
      ensures PagedLoad(page, old(currentPage), fetch, fuel, requested)
      ensures options == old(options) + PagesText(fetch, requested)
      ensures currentPage == old(currentPage) + FullPages(fetch, requested)
    {
      ghost var options0, counter := options, currentPage;
      requested := [];
      var p := page;
      var more := true;
      while more && |requested| < fuel
        invariant |requested| <= fuel && Loading(page, counter, fetch, requested, more, p)
        invariant more ==> FullPages(fetch, requested) == |requested|
        invariant options == options0 + PagesText(fetch, requested)
        invariant currentPage == counter + FullPages(fetch, requested)
        decreases fuel - |requested|, more
      {
        var tags := fetch(p);
        PagesSnoc(fetch, requested, p);
        LoadingStep(page, counter, fetch, requested, p);
        requested := requested + [p];
        UpdateTagOptions(tags);
        if |tags| == LoaderPageSize {
          currentPage := currentPage + 1;
          p := currentPage;
        } else {
          more := false;
        }
      }
      LoadingDone(page, counter, fetch, fuel, requested, more, p);
    }

    /** updateTagSearch: empties the select, resets the counter to 1 and
        loads from page 1, so the pages asked for are 1, 2, 3, ... */
    method UpdateTagSearch(fetch: int -> seq<string>, fuel: nat) returns (requested: seq<int>)
      modifies this`options, this`currentPage
      ensures PagedLoad(1, 1, fetch, fuel, requested)
      ensures forall k :: 0 <= k < |requested| ==> requested[k] == k + 1
      ensures options == PagesText(fetch, requested)
      ensures currentPage == 1 + FullPages(fetch, requested)
    {
      options := [];
      currentPage := 1;
      requested := LoadTags(1, fetch, fuel);
    }
  }
}
