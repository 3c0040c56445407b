/**
 * `SearchResultSetsRenderer` (src/Renderer/SearchResultSetsRenderer.php): the markup of one
 * result set and of a list of them. The markup of a set is described as a sequence of fragments
 * (back link, header, one item per result, footer, pagination, "see all" link, closing tag);
 * `Concat` writes a fragment sequence out as the literal markup the PHP code concatenates.
 */
module ResultSetsRenderer {
  import opened Wrappers
  import opened Php
  import opened Snippet
  import opened Foreign

  // ---------------------------------------------------------------------------------------------
  // Data

  /** A search result; a `None` field is a getter the result object does not have. */
  datatype SearchResult = SearchResult(title: Option<string>, content: Option<string>, link: Option<string>)

  /** One result set: a machine name, a display label, the current page of results and the total count. */
  datatype SearchResultSet = SearchResultSet(name: string, displayLabel: string, collection: seq<SearchResult>, totalCount: int)

  /** The `$opts` array; a `None` field is an unset key. */
  datatype Opts = Opts(
    view: Option<string>,
    limit: Option<int>,
    page: Option<int>,
    cssClass: Option<string>,
    searchService: Option<string>)

  /** The array `buildBaseQuery` returns: keys `s`, `t` and `v`. */
  datatype BaseQuery = BaseQuery(s: string, t: Option<string>, v: string)

  datatype Fragment =
    | BackLink(search: string)                 // getBackButtonMarkup
    | Header(viewClass: string, slug: string, total: int, displayLabel: string, cssClass: string)
    | Item(res: SearchResult, query: string)   // "<li>" . getSingleResultMarkup($res, $query) . "</li>"
    | Footer                                   // getFooterSingleResultMarkup
    | Pagination(args: PaginationArgs)         // the pagination component's markup
    | SeeAll(base: BaseQuery)                  // the "see all results" link
    | Close                                    // the closing "</div>"

  // ---------------------------------------------------------------------------------------------
  // Small builders

  /** `isset($opts['view']) && $opts['view'] === 'list'`. */
  predicate IsListView(opts: Opts) { opts.view == Some("list") }

  /** `!isset($opts['limit']) || $totalCount > $opts['limit']`. */
  predicate ShowSeeAll(totalCount: int, opts: Opts) {
    opts.limit.None? || totalCount > opts.limit.value
  }

  /** `buildBaseQuery($query, $opts)`. */
  function BuildBaseQuery(query: string, opts: Opts, env: Env): (b: BaseQuery)
    ensures b.s == env.urlencode(query) && b.t == opts.searchService && b.v == "list"
  {
    BaseQuery(env.urlencode(query), opts.searchService, "list")
  }

  function BaseParams(b: BaseQuery): Params {
    [("s", Some(b.s)), ("t", b.t), ("v", Some(b.v))]
  }

  /** The arguments handed to the pagination component. */
  function PaginationArgsFor(totalCount: int, opts: Opts, base: BaseQuery, env: Env): (a: PaginationArgs)
    ensures a.nbObjects == totalCount && a.perPage == opts.limit && a.currentPage == opts.page
    ensures a.paginationUrl == "/?" + env.httpBuildQuery(BaseParams(base) + [("pageno", Some("{pageno}"))])
  {
    PaginationArgs(totalCount, opts.limit,
      "/?" + env.httpBuildQuery(BaseParams(base) + [("pageno", Some("{pageno}"))]), opts.page)
  }

  /** The view part of the wrapper's CSS class: `!empty($opts['view']) ? $opts['view'] : 'extrait'`. */
  function ViewClass(opts: Opts): string {
    match opts.view
    case Some(v) => if Falsy(v) then "extrait" else v
    case None => "extrait"
  }

  /** `getHeaderSingleResultMarkup($set, $totalCount, $opts)` as a fragment. */
  function HeaderFragment(resultSet: SearchResultSet, totalCount: int, opts: Opts, env: Env): Fragment {
    Header(ViewClass(opts), env.sanitizeTitle(resultSet.name), totalCount, resultSet.displayLabel, opts.cssClass.GetOr(""))
  }

  const Indent: string := "\n                "

  /** The literal markup of the header: the wrapper's opening tag, the count, the displayLabel and the list's opening tag. */
  function HeaderMarkup(viewClass: string, slug: string, total: int, displayLabel: string, cssClass: string): (r: string)
    ensures |r| > 0 && r[0] == '<'
  {
    "<" + ("div class=\"search-result-set search-result-set-" + viewClass + " search-result-set-" + slug + "\">"
    + Indent + "<div class=\"seat-head\"> "
    + "<span class=\"set-total\">" + IntToString(total) + "</span> "
    + "<span class=\"set-title\">" + displayLabel + "</span>"
    + Indent + "</div>"
    + Indent + "<ul class=\"set-results " + cssClass + "\">")
  }

  /** `getBackButtonMarkup($search)`. */
  function BackButtonMarkup(search: string, env: Env): (r: string)
    ensures |r| > 0 && r[0] == '<'
  {
    var open := "<a href=\"/?s=";
    assert open[0] == '<';
    open + (search + "\" class=\"search-go-back\">" + env.translate("back.to.results") + "</a>")
  }

  /** `getFooterSingleResultMarkup()`. */
  function FooterMarkup(): string { "</ul>" }

  /** The "see all" link: to the base query's parameters, labelled with the translated text. */
  function SeeAllMarkup(base: BaseQuery, env: Env): (r: string)
    ensures "<a href=\"/?" + env.httpBuildQuery(BaseParams(base)) + "\"" <= r
    ensures EndsWith(r, ">" + env.translate("see.all.results") + "</a>")
  {
    "<a href=\"/?" + env.httpBuildQuery(BaseParams(base)) + "\" class=\"search-all-res-in-cat\">"
    + env.translate("see.all.results") + "</a>"
  }

  /** `getNoResultMarkup($opts)`, with the `wwp.search.noresult` filter as the identity. */
  function NoResultMarkup(opts: Opts): string { "No result" }

  /** `getMeaningFulContent($content, $query)`: the window around the match, highlighted. */
  function MeaningfulContent(content: string, query: string, env: Env): string {
    var text := Normalise(content, env);
    HighlightSearchTerm(Window(text, MatchPosition(text, query)), query, env)
  }

  /**
   * With a literal query the snippet is the window around the first match, in the text stripped
   * of tags and with line ends turned into spaces, with its occurrences marked by the scan of
   * `highlightSearchTerm` (so `HighlightHitsMatch` and `HighlightComplete` apply to it), and
   * nothing else changed.
   */
  lemma MeaningfulContentMarksWindow(content: string, query: string, env: Env)
    requires IsLiteralPattern(query)
    ensures var text := LineEndsToSpaces(env.stripTags(content));
            MeaningfulContent(content, query, env) == RenderPieces(HighlightPieces(Window(text, MatchPosition(text, query)), query))
    ensures var text := LineEndsToSpaces(env.stripTags(content));
            Erase(HighlightPieces(Window(text, MatchPosition(text, query)), query)) == Window(text, MatchPosition(text, query))
  {
    var text := Normalise(content, env);
    NormaliseLineEnds(content, env);
    HighlightSearchTermMarksText(Window(text, MatchPosition(text, query)), query, env);
  }

  predicate HasLink(res: SearchResult) { res.link.Some? && !Falsy(res.link.value) }
  predicate HasContent(res: SearchResult) { res.content.Some? && !Falsy(res.content.value) }

  /** The anchor opened around an item whose result has a non-empty link, and its closing tag. */
  function AnchorOpen(res: SearchResult): string {
    if HasLink(res) then "<a href=\"" + res.link.value + "\">" else ""
  }

  function AnchorClose(res: SearchResult): string {
    if HasLink(res) then "</a>" else ""
  }

  /** The title line of an item: the title, highlighted. */
  function TitleMarkup(title: string, query: string, env: Env): string {
    "<span class=\"res-title\">" + HighlightSearchTerm(title, query, env) + "</span>"
  }

  /** The content block of an item: the snippet of the content around the match. */
  function ContentMarkup(content: string, query: string, env: Env): string {
    "<div class=\"res-content\">" + MeaningfulContent(content, query, env) + "</div>"
  }

  /**
   * `getSingleResultMarkup($res, $query)`: an anchor around the whole item when the result has a
   * non-empty link, the highlighted title when it has one, the snippet when its content is non-empty.
   */
  function SingleResultMarkup(res: SearchResult, query: string, env: Env): (r: string)
    ensures r == "" <==> !HasLink(res) && res.title.None? && !HasContent(res)
    ensures HasLink(res) ==> "<a href=\"" + res.link.value + "\">" <= r
    ensures HasLink(res) ==> EndsWith(r, "</a>")
  {
    var title := if res.title.Some? then TitleMarkup(res.title.value, query, env) else "";
    var content := if HasContent(res) then ContentMarkup(res.content.value, query, env) else "";
    var r := AnchorOpen(res) + title + content + AnchorClose(res);
    assert AnchorOpen(res) <= r;
    r
  }

  /** An item of a result with a title holds the highlighted title right after the anchor. */
  lemma ItemTitle(res: SearchResult, query: string, env: Env)
    requires res.title.Some?
    ensures AnchorOpen(res) + TitleMarkup(res.title.value, query, env) <= SingleResultMarkup(res, query, env)
  {
    var head := AnchorOpen(res) + TitleMarkup(res.title.value, query, env);
    var content := if HasContent(res) then ContentMarkup(res.content.value, query, env) else "";
    assert SingleResultMarkup(res, query, env) == head + content + AnchorClose(res);
  }

  /** An item of a result with non-empty content ends with the snippet, then the anchor's closing tag. */
  lemma ItemContent(res: SearchResult, query: string, env: Env)
    requires HasContent(res)
    ensures EndsWith(SingleResultMarkup(res, query, env), ContentMarkup(res.content.value, query, env) + AnchorClose(res))
  {
    var head := AnchorOpen(res) + if res.title.Some? then TitleMarkup(res.title.value, query, env) else "";
    var content, close := ContentMarkup(res.content.value, query, env), AnchorClose(res);
    assert SingleResultMarkup(res, query, env) == head + content + close;
    AppendAssoc(head, content, close);
    EndsWithAppend(head, content + close);
  }

  /** The literal markup of one fragment. */
  function FragmentMarkup(f: Fragment, env: Env): string {
    match f
    case BackLink(search) => BackButtonMarkup(search, env)
    case Header(viewClass, slug, total, displayLabel, cssClass) => HeaderMarkup(viewClass, slug, total, displayLabel, cssClass)
    case Item(res, query) => "<li>" + SingleResultMarkup(res, query, env) + "</li>"
    case Footer => FooterMarkup()
    case Pagination(args) => env.pagination(args)
    case SeeAll(base) => SeeAllMarkup(base, env)
    case Close => "</div>"
  }

  /** `FragmentMarkup` with the environment fixed, as a value that `Concat` applies. */
  function MarkupOf(env: Env): Fragment -> string {
    f => FragmentMarkup(f, env)
  }

  /** The markup of a fragment sequence: each fragment's markup under `markup`, in order. */
  function Concat(fs: seq<Fragment>, markup: Fragment -> string): string {
    if fs == [] then "" else markup(fs[0]) + Concat(fs[1..], markup)
  }

  // ---------------------------------------------------------------------------------------------
  // getSetMarkup and getMarkup, as specifications

  /** One item per result, in collection order. */
  function Items(collection: seq<SearchResult>, query: string): (r: seq<Fragment>)
    ensures |r| == |collection|
    ensures forall k :: 0 <= k < |r| ==> r[k] == Item(collection[k], query)
  {
    seq(|collection|, k requires 0 <= k < |collection| => Item(collection[k], query))
  }

  /** Taking one more result adds its item at the end. */
  lemma ItemsSnoc(collection: seq<SearchResult>, i: nat, query: string)
    requires i < |collection|
    ensures Items(collection[..i + 1], query) == Items(collection[..i], query) + [Item(collection[i], query)]
  {
    var a, b := Items(collection[..i + 1], query), Items(collection[..i], query) + [Item(collection[i], query)];
    assert |a| == |b|;
    forall k | 0 <= k < |a| ensures a[k] == b[k] {
      assert collection[..i + 1][k] == collection[k];
      if k < i { assert collection[..i][k] == collection[k]; }
    }
  }

  /**
   * The fragments of `getSetMarkup($set, $query, $opts)`: nothing for a set with no positive count
   * or no results; otherwise, in list view, back link, header, items, footer, pagination, back
   * link and closing tag, and in any other view header, items, footer, the "see all" link when
   * the limit is unset or exceeded, and the closing tag.
   */
  function SetFragments(resultSet: SearchResultSet, query: string, opts: Opts, env: Env): (r: seq<Fragment>)
    ensures r == [] <==> resultSet.totalCount <= 0 || resultSet.collection == []
    ensures r != [] ==> r[0].BackLink? || r[0].Header?
  {
    if resultSet.totalCount <= 0 || resultSet.collection == [] then []
    else
      var base := BuildBaseQuery(query, opts, env);
      LeadFragments(opts, base)
      + [HeaderFragment(resultSet, resultSet.totalCount, opts, env)]
      + Items(resultSet.collection, query)
      + [Footer]
      + TailFragments(resultSet.totalCount, opts, base, env)
      + [Close]
  }

  /** What comes before the header: the back button in list view, nothing otherwise. */
  function LeadFragments(opts: Opts, base: BaseQuery): (r: seq<Fragment>)
    ensures |r| == if IsListView(opts) then 1 else 0
    ensures forall i :: 0 <= i < |r| ==> r[i].BackLink?
  {
    if IsListView(opts) then [BackLink(base.s)] else []
  }

  /**
   * What comes after the footer: pagination and the back button in list view, otherwise the
   * "see all" link when there are more results than the limit shows.
   */
  function TailFragments(total: int, opts: Opts, base: BaseQuery, env: Env): (r: seq<Fragment>)
    ensures forall i :: 0 <= i < |r| ==> !r[i].Item?
    ensures (exists i :: 0 <= i < |r| && r[i].Pagination?) <==> IsListView(opts)
    ensures (exists i :: 0 <= i < |r| && r[i].SeeAll?) <==> !IsListView(opts) && ShowSeeAll(total, opts)
    ensures IsListView(opts) ==>
      |r| == 2 && r[0] == Pagination(PaginationArgsFor(total, opts, base, env)) && r[1] == BackLink(base.s)
    ensures !IsListView(opts) ==> r == if ShowSeeAll(total, opts) then [SeeAll(base)] else []
  {
    if IsListView(opts) then
      var r := [Pagination(PaginationArgsFor(total, opts, base, env)), BackLink(base.s)];
      assert r[0].Pagination?;
      r
    else if ShowSeeAll(total, opts) then
      var r := [SeeAll(base)];
      assert r[0].SeeAll?;
      r
    else []
  }

  /** The markup `getSetMarkup` returns for one set. */
  function SetMarkup(resultSet: SearchResultSet, query: string, opts: Opts, env: Env): string {
    Concat(SetFragments(resultSet, query, opts, env), MarkupOf(env))
  }

  /** The markup of the sets, each set's markup after the previous one's. */
  function SetsMarkup(sets: seq<SearchResultSet>, query: string, opts: Opts, env: Env): string
    decreases |sets|
  {
    if sets == [] then ""
    else SetsMarkup(sets[..|sets| - 1], query, opts, env) + SetMarkup(sets[|sets| - 1], query, opts, env)
  }

  /** `getMarkup($results, $query, $opts)`: the fallback text for no sets, else the sets' markup. */
  function Markup(sets: seq<SearchResultSet>, query: string, opts: Opts, env: Env): string {
    if sets == [] then NoResultMarkup(opts) else SetsMarkup(sets, query, opts, env)
  }

  // ---------------------------------------------------------------------------------------------
  // The renderer object

  class SearchResultSetsRenderer {
    var sets: seq<SearchResultSet>
    const env: Env

    constructor (env: Env)
      ensures this.env == env && sets == []
    {
      this.env := env;
      sets := [];
    }

    /** `getSets()`. */
    method GetSets() returns (r: seq<SearchResultSet>)
      ensures r == sets
    {
      r := sets;
    }

    /** `setSets($sets)`. */
    method SetSets(s: seq<SearchResultSet>)
      modifies this
      ensures sets == s
    {
      sets := s;
    }

    /** `getMarkup($results, $query, $opts)`: stores the sets, then concatenates their markup. */
    method GetMarkup(results: seq<SearchResultSet>, query: string, opts: Opts) returns (markup: string)
      modifies this
      ensures sets == results
      ensures markup == Markup(results, query, opts, env)
    {
      SetSets(results);
      markup := "";
      if sets != [] {
        var i := 0;
        while i < |sets|
          invariant 0 <= i <= |sets| && sets == results
          invariant markup == SetsMarkup(sets[..i], query, opts, env)
        {
          var frags := GetSetMarkup(sets[i], query, opts);
          assert sets[..i + 1][..i] == sets[..i];
          markup := markup + Concat(frags, MarkupOf(env));
          i := i + 1;
        }
        assert sets[..i] == sets;
      } else {
        markup := NoResultMarkup(opts);
      }
    }

    /** `getSetMarkup($set, $query, $opts)`, appending fragment after fragment. */
    method GetSetMarkup(resultSet: SearchResultSet, query: string, opts: Opts) returns (markup: seq<Fragment>)
      ensures markup == SetFragments(resultSet, query, opts, env)
    {
      var totalCount := resultSet.totalCount;
      if totalCount <= 0 {
        return [];
      }
      markup := [];
      var results := resultSet.collection;
      if results != [] {
        var isListView := IsListView(opts);
        var baseQueryComponents := BuildBaseQuery(query, opts, env);
        if isListView {
          markup := markup + [BackLink(baseQueryComponents.s)];
        }
        markup := markup + [HeaderFragment(resultSet, totalCount, opts, env)];
        ghost var head := markup;
        var i := 0;
        while i < |results|
          invariant 0 <= i <= |results|
          invariant markup == head + Items(results[..i], query)
        {
          ItemsSnoc(results, i, query);
          markup := markup + [Item(results[i], query)];
          i := i + 1;
        }
        assert results[..i] == results;
        assert markup == head + Items(results, query);
        markup := markup + [Footer];
        if isListView {
          markup := markup + [Pagination(PaginationArgsFor(totalCount, opts, baseQueryComponents, env))];
          markup := markup + [BackLink(baseQueryComponents.s)];
        } else {
          if opts.limit.None? || totalCount > opts.limit.value {
            markup := markup + [SeeAll(baseQueryComponents)];
          }
        }
        markup := markup + [Close];
      }
    }

    /**
     * `getMeaningFulContent($content, $query)` step by step: the source's window arithmetic, in
     * which the second `substr` argument is a length clamped to `$size`, gives the window centred
     * on the match that `Window` describes.
     */
    method GetMeaningfulContent(content: string, query: string) returns (text: string)
      ensures text == MeaningfulContent(content, query, env)
    {
      text := Normalise(content, env);
      var testpos: int := MatchPosition(text, query);
      var size: int, half: int := Size, Half;
      var mindif := testpos - half;
      var maxdif := testpos + half;
      var minbound: nat, pre: string;
      if mindif < 0 {
        minbound, pre := 0, "";
      } else {
        minbound, pre := mindif, "...";
      }
      var maxbound: nat, sr: string;
      if maxdif > size {
        maxbound, sr := size, "...";
      } else {
        maxbound, sr := maxdif, "...";
      }
      WindowIsLengthBased(text, testpos);
      var snippet := pre + Substr(text, minbound, maxbound) + sr;
      if snippet == "..." {
        snippet := "";
      }
      assert snippet == Window(text, testpos);
      text := HighlightSearchTerm(snippet, query, env);
    }
  }
}
