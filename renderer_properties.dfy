/** What the markup of `SearchResultSetsRenderer` promises, proved about its specification functions. */
module RendererProperties {
  import opened Wrappers
  import opened Php
  import opened Foreign
  import opened ResultSetsRenderer

  function CountItems(fs: seq<Fragment>): nat {
    if fs == [] then 0 else (if fs[0].Item? then 1 else 0) + CountItems(fs[1..])
  }

  predicate HasPagination(fs: seq<Fragment>) { exists i :: 0 <= i < |fs| && fs[i].Pagination? }
  predicate HasSeeAll(fs: seq<Fragment>) { exists i :: 0 <= i < |fs| && fs[i].SeeAll? }

  /** A set is left out of the markup altogether. */
  predicate Elided(resultSet: SearchResultSet) { resultSet.totalCount <= 0 || resultSet.collection == [] }

  lemma {:induction false} CountItemsAppend(a: seq<Fragment>, b: seq<Fragment>)
    ensures CountItems(a + b) == CountItems(a) + CountItems(b)
  {
    if a == [] {
      assert a + b == b;
    } else {
      assert (a + b)[0] == a[0] && (a + b)[1..] == a[1..] + b;
      CountItemsAppend(a[1..], b);
    }
  }

  lemma {:induction false} CountItemsAll(fs: seq<Fragment>)
    requires forall i :: 0 <= i < |fs| ==> fs[i].Item?
    ensures CountItems(fs) == |fs|
  {
    if fs != [] {
      CountItemsAll(fs[1..]);
    }
  }

  lemma {:induction false} CountItemsNone(fs: seq<Fragment>)
    requires forall i :: 0 <= i < |fs| ==> !fs[i].Item?
    ensures CountItems(fs) == 0
  {
    if fs != [] {
      CountItemsNone(fs[1..]);
    }
  }

  /** A set with a positive count and results has exactly one item per result; any other set has none. */
  lemma SetItemCount(resultSet: SearchResultSet, query: string, opts: Opts, env: Env)
    ensures CountItems(SetFragments(resultSet, query, opts, env)) == if resultSet.totalCount <= 0 then 0 else |resultSet.collection|
  {
    if !Elided(resultSet) {
      var base := BuildBaseQuery(query, opts, env);
      var head := LeadFragments(opts, base) + [HeaderFragment(resultSet, resultSet.totalCount, opts, env)];
      var items := Items(resultSet.collection, query);
      var rest := [Footer] + TailFragments(resultSet.totalCount, opts, base, env) + [Close];
      assert SetFragments(resultSet, query, opts, env) == head + items + rest;
      assert forall i :: 0 <= i < |rest| ==> !rest[i].Item?;
      CountItemsNone(head);
      CountItemsAll(items);
      CountItemsNone(rest);
      CountItemsAppend(head, items);
      CountItemsAppend(head + items, rest);
    }
  }

  /**
   * The layout of a set that is not elided: the header (after the back link in list view), then
   * one item per result in collection order, then the footer; no item anywhere else.
   */
  lemma SetLayout(resultSet: SearchResultSet, query: string, opts: Opts, env: Env)
    requires !Elided(resultSet)
    ensures var fs := SetFragments(resultSet, query, opts, env);
            var h := if IsListView(opts) then 1 else 0;
            var n := |resultSet.collection|;
            && h + 1 + n < |fs|
            && fs[h] == HeaderFragment(resultSet, resultSet.totalCount, opts, env)
            && fs[h + 1..h + 1 + n] == Items(resultSet.collection, query)
            && fs[h + 1 + n] == Footer
            && (forall i :: 0 <= i < |fs| ==> (fs[i].Item? <==> h < i <= h + n))
  {
    var base := BuildBaseQuery(query, opts, env);
    var lead := LeadFragments(opts, base);
    var header := HeaderFragment(resultSet, resultSet.totalCount, opts, env);
    var items := Items(resultSet.collection, query);
    var tail := TailFragments(resultSet.totalCount, opts, base, env);
    var fs := SetFragments(resultSet, query, opts, env);
    assert fs == lead + [header] + items + [Footer] + tail + [Close];
    Layout(lead, header, items, tail);
  }

  /** Positions in `lead + [header] + items + [Footer] + tail + [Close]` when only `items` holds items. */
  lemma Layout(lead: seq<Fragment>, header: Fragment, items: seq<Fragment>, tail: seq<Fragment>)
    requires !header.Item?
    requires forall i :: 0 <= i < |lead| ==> !lead[i].Item?
    requires forall i :: 0 <= i < |items| ==> items[i].Item?
    requires forall i :: 0 <= i < |tail| ==> !tail[i].Item?
    ensures var fs := lead + [header] + items + [Footer] + tail + [Close];
            var h := |lead|;
            && h + 1 + |items| < |fs|
            && fs[h] == header
            && fs[h + 1..h + 1 + |items|] == items
            && fs[h + 1 + |items|] == Footer
            && (forall i :: 0 <= i < |fs| ==> (fs[i].Item? <==> h < i <= h + |items|))
  {
    var fs := lead + [header] + items + [Footer] + tail + [Close];
    var head := lead + [header];
    var rest := [Footer] + tail + [Close];
    assert fs == head + items + rest;
    assert fs[|head|..|head| + |items|] == items;
    assert forall i :: 0 <= i < |rest| ==> !rest[i].Item?;
    ItemsOnlyInMiddle(head, items, rest);
  }

  /** In `head + items + rest`, where only `items` holds items, the items sit exactly at the middle positions. */
  lemma ItemsOnlyInMiddle(head: seq<Fragment>, items: seq<Fragment>, rest: seq<Fragment>)
    requires forall i :: 0 <= i < |head| ==> !head[i].Item?
    requires forall i :: 0 <= i < |items| ==> items[i].Item?
    requires forall i :: 0 <= i < |rest| ==> !rest[i].Item?
    ensures var fs := head + items + rest;
            forall i :: 0 <= i < |fs| ==> (fs[i].Item? <==> |head| <= i < |head| + |items|)
  {
    var fs := head + items + rest;
    forall i | 0 <= i < |fs| ensures fs[i].Item? <==> |head| <= i < |head| + |items| {
      if i < |head| {
        assert fs[i] == head[i];
      } else if i < |head| + |items| {
        assert fs[i] == items[i - |head|];
      } else {
        assert fs[i] == rest[i - |head| - |items|];
      }
    }
  }

  /**
   * A kind of fragment that the lead, the header, the items, the footer and the closing tag never
   * are occurs in a set's fragments exactly when it occurs in the tail.
   */
  lemma OnlyInTail(kind: Fragment -> bool, lead: seq<Fragment>, header: Fragment, items: seq<Fragment>, tail: seq<Fragment>)
    requires !kind(header) && !kind(Footer) && !kind(Close)
    requires forall i :: 0 <= i < |lead| ==> !kind(lead[i])
    requires forall i :: 0 <= i < |items| ==> !kind(items[i])
    ensures var fs := lead + [header] + items + [Footer] + tail + [Close];
            (exists i :: 0 <= i < |fs| && kind(fs[i])) <==> (exists i :: 0 <= i < |tail| && kind(tail[i]))
  {
    var fs := lead + [header] + items + [Footer] + tail + [Close];
    var before := lead + [header] + items + [Footer];
    assert fs == before + tail + [Close];
    forall i | 0 <= i < |fs| && !(|before| <= i < |before| + |tail|) ensures !kind(fs[i]) {
      if i < |lead| {
        assert fs[i] == lead[i];
      } else if i == |lead| {
        assert fs[i] == header;
      } else if i <= |lead| + |items| {
        assert fs[i] == items[i - |lead| - 1];
      } else if i == |before| - 1 {
        assert fs[i] == Footer;
      } else {
        assert fs[i] == Close;
      }
    }
    forall i | 0 <= i < |tail| ensures fs[|before| + i] == tail[i] {
    }
  }

  /** Pagination appears exactly for a set that is not elided and is shown in list view. */
  lemma PaginationIff(resultSet: SearchResultSet, query: string, opts: Opts, env: Env)
    ensures HasPagination(SetFragments(resultSet, query, opts, env)) <==> !Elided(resultSet) && IsListView(opts)
  {
    if !Elided(resultSet) {
      var base := BuildBaseQuery(query, opts, env);
      var lead := LeadFragments(opts, base);
      var header := HeaderFragment(resultSet, resultSet.totalCount, opts, env);
      var items := Items(resultSet.collection, query);
      var tail := TailFragments(resultSet.totalCount, opts, base, env);
      assert SetFragments(resultSet, query, opts, env) == lead + [header] + items + [Footer] + tail + [Close];
      OnlyInTail((f: Fragment) => f.Pagination?, lead, header, items, tail);
    }
  }

  /** The "see all" link appears exactly for a set that is not elided, outside list view, whose limit is unset or exceeded. */
  lemma SeeAllIff(resultSet: SearchResultSet, query: string, opts: Opts, env: Env)
    ensures HasSeeAll(SetFragments(resultSet, query, opts, env))
        <==> !Elided(resultSet) && !IsListView(opts) && (opts.limit.None? || resultSet.totalCount > opts.limit.value)
  {
    if !Elided(resultSet) {
      var base := BuildBaseQuery(query, opts, env);
      var lead := LeadFragments(opts, base);
      var header := HeaderFragment(resultSet, resultSet.totalCount, opts, env);
      var items := Items(resultSet.collection, query);
      var tail := TailFragments(resultSet.totalCount, opts, base, env);
      assert SetFragments(resultSet, query, opts, env) == lead + [header] + items + [Footer] + tail + [Close];
      OnlyInTail((f: Fragment) => f.SeeAll?, lead, header, items, tail);
    }
  }

  /** Pagination and the "see all" link never appear in the same set's markup. */
  lemma PaginationExcludesSeeAll(resultSet: SearchResultSet, query: string, opts: Opts, env: Env)
    ensures !(HasPagination(SetFragments(resultSet, query, opts, env)) && HasSeeAll(SetFragments(resultSet, query, opts, env)))
  {
    PaginationIff(resultSet, query, opts, env);
    SeeAllIff(resultSet, query, opts, env);
  }

  /**
   * Outside list view with a limit of 10: a set counting 15 gets the "see all" link, a set counting
   * 5 (with three results on the page) gets its header with count 5 and label "Articles", exactly
   * three items and no "see all" link.
   */
  lemma SeeAllExamples(results: seq<SearchResult>, env: Env)
    requires |results| == 3
    ensures var opts := Opts(Some("extract"), Some(10), None, None, None);
            var five := SearchResultSet("post-set", "Articles", results, 5);
            var fs := SetFragments(five, "cafe", opts, env);
            && fs[0].Header? && fs[0].total == 5 && fs[0].displayLabel == "Articles"
            && CountItems(fs) == 3
            && !HasSeeAll(fs)
            && HasSeeAll(SetFragments(SearchResultSet("post-set", "Articles", results, 15), "cafe", opts, env))
  {
    var opts := Opts(Some("extract"), Some(10), None, None, None);
    var five := SearchResultSet("post-set", "Articles", results, 5);
    assert !IsListView(opts);
    SetLayout(five, "cafe", opts, env);
    SetItemCount(five, "cafe", opts, env);
    SeeAllIff(five, "cafe", opts, env);
    SeeAllIff(SearchResultSet("post-set", "Articles", results, 15), "cafe", opts, env);
  }

  /** The markup of fragments put one after the other is the markup of each part, in order. */
  lemma {:induction false} ConcatAppend(a: seq<Fragment>, b: seq<Fragment>, m: Fragment -> string)
    ensures Concat(a + b, m) == Concat(a, m) + Concat(b, m)
    decreases |a|
  {
    if a == [] {
      assert a + b == b;
    } else {
      assert (a + b)[0] == a[0] && (a + b)[1..] == a[1..] + b;
      ConcatAppend(a[1..], b, m);
      AppendAssoc(m(a[0]), Concat(a[1..], m), Concat(b, m));
    }
  }

  /**
   * The markup of a set that is not elided, in the order the source appends it: the back button
   * in list view, the header, the items, the footer `</ul>`, then pagination and the back button
   * in list view or the "see all" link when the limit is unset or exceeded, and the closing tag.
   */
  lemma SetMarkupShape(resultSet: SearchResultSet, query: string, opts: Opts, env: Env)
    requires !Elided(resultSet)
    ensures var base := BuildBaseQuery(query, opts, env);
            var total := resultSet.totalCount;
            SetMarkup(resultSet, query, opts, env)
              == (if IsListView(opts) then BackButtonMarkup(base.s, env) else "")
               + HeaderMarkup(ViewClass(opts), env.sanitizeTitle(resultSet.name), total, resultSet.displayLabel, opts.cssClass.GetOr(""))
               + Concat(Items(resultSet.collection, query), MarkupOf(env))
               + FooterMarkup()
               + (if IsListView(opts) then env.pagination(PaginationArgsFor(total, opts, base, env)) + BackButtonMarkup(base.s, env)
                  else if ShowSeeAll(total, opts) then SeeAllMarkup(base, env) else "")
               + "</div>"
  {
    SetShapeUnder(resultSet, query, opts, env, MarkupOf(env));
  }

  /** `m` marks up every fragment other than an item as `FragmentMarkup` does. */
  ghost predicate AgreesBesideItems(m: Fragment -> string, env: Env) {
    forall f: Fragment :: !f.Item? ==> m(f) == FragmentMarkup(f, env)
  }

  /**
   * `SetMarkupShape` for any markup function that agrees with `FragmentMarkup` beside items, so
   * that the proof never looks into the markup of a single result.
   */
  lemma SetShapeUnder(resultSet: SearchResultSet, query: string, opts: Opts, env: Env, m: Fragment -> string)
    requires !Elided(resultSet)
    requires AgreesBesideItems(m, env)
    ensures var base := BuildBaseQuery(query, opts, env);
            var total := resultSet.totalCount;
            Concat(SetFragments(resultSet, query, opts, env), m)
              == (if IsListView(opts) then BackButtonMarkup(base.s, env) else "")
               + HeaderMarkup(ViewClass(opts), env.sanitizeTitle(resultSet.name), total, resultSet.displayLabel, opts.cssClass.GetOr(""))
               + Concat(Items(resultSet.collection, query), m)
               + FooterMarkup()
               + (if IsListView(opts) then env.pagination(PaginationArgsFor(total, opts, base, env)) + BackButtonMarkup(base.s, env)
                  else if ShowSeeAll(total, opts) then SeeAllMarkup(base, env) else "")
               + "</div>"
  {
    var base := BuildBaseQuery(query, opts, env);
    var lead := LeadFragments(opts, base);
    var header := HeaderFragment(resultSet, resultSet.totalCount, opts, env);
    var items := Items(resultSet.collection, query);
    var tail := TailFragments(resultSet.totalCount, opts, base, env);
    assert SetFragments(resultSet, query, opts, env) == lead + [header] + items + [Footer] + tail + [Close];
    ConcatLayout(lead, header, items, tail, m);
    LeadMarkup(opts, base, env, m);
    TailMarkup(resultSet.totalCount, opts, base, env, m);
    assert m(header) == FragmentMarkup(header, env);
    assert m(Footer) == FooterMarkup() && m(Close) == "</div>";
  }

  /** The markup of the fragment layout of a set, part by part. */
  lemma ConcatLayout(lead: seq<Fragment>, header: Fragment, items: seq<Fragment>, tail: seq<Fragment>, m: Fragment -> string)
    ensures Concat(lead + [header] + items + [Footer] + tail + [Close], m)
         == Concat(lead, m) + m(header) + Concat(items, m) + m(Footer) + Concat(tail, m) + m(Close)
  {
    ConcatAppend(lead, [header], m);
    ConcatSingle(header, m);
    ConcatThenOne(lead + [header], items, Footer, m);
    ConcatThenOne(lead + [header] + items + [Footer], tail, Close, m);
  }

  /** The markup of two runs of fragments and one more fragment. */
  lemma ConcatThenOne(x: seq<Fragment>, y: seq<Fragment>, f: Fragment, m: Fragment -> string)
    ensures Concat(x + y + [f], m) == Concat(x, m) + Concat(y, m) + m(f)
  {
    ConcatAppend(x + y, [f], m);
    ConcatAppend(x, y, m);
    ConcatSingle(f, m);
  }

  /** The markup before the header: the back button in list view, nothing otherwise. */
  lemma LeadMarkup(opts: Opts, base: BaseQuery, env: Env, m: Fragment -> string)
    requires AgreesBesideItems(m, env)
    ensures Concat(LeadFragments(opts, base), m) == if IsListView(opts) then BackButtonMarkup(base.s, env) else ""
  {
    if IsListView(opts) {
      ConcatSingle(BackLink(base.s), m);
      assert m(BackLink(base.s)) == FragmentMarkup(BackLink(base.s), env);
    }
  }

  /** The markup after the footer: pagination and the back button in list view, else the "see all" link when shown. */
  lemma TailMarkup(total: int, opts: Opts, base: BaseQuery, env: Env, m: Fragment -> string)
    requires AgreesBesideItems(m, env)
    ensures Concat(TailFragments(total, opts, base, env), m)
         == if IsListView(opts) then env.pagination(PaginationArgsFor(total, opts, base, env)) + BackButtonMarkup(base.s, env)
            else if ShowSeeAll(total, opts) then SeeAllMarkup(base, env) else ""
  {
    var tail := TailFragments(total, opts, base, env);
    if IsListView(opts) {
      var p, b := Pagination(PaginationArgsFor(total, opts, base, env)), BackLink(base.s);
      assert tail == [p] + [b];
      ConcatAppend([p], [b], m);
      ConcatSingle(p, m);
      ConcatSingle(b, m);
      assert m(p) == FragmentMarkup(p, env) && m(b) == FragmentMarkup(b, env);
    } else if ShowSeeAll(total, opts) {
      ConcatSingle(SeeAll(base), m);
      assert m(SeeAll(base)) == FragmentMarkup(SeeAll(base), env);
    }
  }

  lemma ConcatSingle(f: Fragment, m: Fragment -> string)
    ensures Concat([f], m) == m(f)
  {
    assert [f][1..] == [];
  }

  /** The markup of a set is empty or starts with a tag. */
  lemma SetMarkupStartsWithTag(resultSet: SearchResultSet, query: string, opts: Opts, env: Env)
    ensures var m := Concat(SetFragments(resultSet, query, opts, env), MarkupOf(env));
            m == "" || m[0] == '<'
  {
    var fs := SetFragments(resultSet, query, opts, env);
    if fs != [] {
      var first := FragmentMarkup(fs[0], env);
      assert Concat(fs, MarkupOf(env)) == first + Concat(fs[1..], MarkupOf(env));
      assert |first| > 0 && first[0] == '<';
    }
  }

  /** The concatenated markup of several sets is empty or starts with a tag. */
  lemma {:induction false} SetsMarkupStartsWithTag(sets: seq<SearchResultSet>, query: string, opts: Opts, env: Env)
    ensures var m := SetsMarkup(sets, query, opts, env);
            m == "" || m[0] == '<'
    decreases |sets|
  {
    if sets != [] {
      SetsMarkupStartsWithTag(sets[..|sets| - 1], query, opts, env);
      SetMarkupStartsWithTag(sets[|sets| - 1], query, opts, env);
    }
  }

  /** With no sets at all the markup is the fallback text `No result` (the filter on it taken as the identity). */
  lemma NoSetsText(query: string, opts: Opts, env: Env)
    ensures Markup([], query, opts, env) == "No result"
  {
  }

  /** `getMarkup` gives the "No result" text exactly when there are no sets at all. */
  lemma FallbackIffNoSets(sets: seq<SearchResultSet>, query: string, opts: Opts, env: Env)
    ensures Markup(sets, query, opts, env) == NoResultMarkup(opts) <==> sets == []
  {
    if sets != [] {
      SetsMarkupStartsWithTag(sets, query, opts, env);
      assert NoResultMarkup(opts)[0] == 'N';
    }
  }

  /** When every set is elided the markup is empty, not the fallback text. */
  lemma {:induction false} AllElidedIsEmpty(sets: seq<SearchResultSet>, query: string, opts: Opts, env: Env)
    requires forall i :: 0 <= i < |sets| ==> Elided(sets[i])
    ensures SetsMarkup(sets, query, opts, env) == ""
    decreases |sets|
  {
    if sets != [] {
      AllElidedIsEmpty(sets[..|sets| - 1], query, opts, env);
      assert Elided(sets[|sets| - 1]);
    }
  }

  /** Adding a set at the end appends its markup. */
  lemma SetsMarkupSnoc(sets: seq<SearchResultSet>, last: SearchResultSet, query: string, opts: Opts, env: Env)
    ensures SetsMarkup(sets + [last], query, opts, env) == SetsMarkup(sets, query, opts, env) + SetMarkup(last, query, opts, env)
  {
    var s := sets + [last];
    assert s[..|s| - 1] == sets;
    assert s[|s| - 1] == last;
  }

  /** The sets' markup is the markup of the first sets followed by that of the rest, in input order. */
  lemma {:induction false} SetsMarkupAppend(a: seq<SearchResultSet>, b: seq<SearchResultSet>, query: string, opts: Opts, env: Env)
    ensures SetsMarkup(a + b, query, opts, env) == SetsMarkup(a, query, opts, env) + SetsMarkup(b, query, opts, env)
    decreases |b|
  {
    if b == [] {
      assert a + b == a;
    } else {
      var b', last := b[..|b| - 1], b[|b| - 1];
      assert b == b' + [last];
      assert a + b == (a + b') + [last];
      SetsMarkupAppend(a, b', query, opts, env);
      SetsMarkupSnoc(a + b', last, query, opts, env);
      SetsMarkupSnoc(b', last, query, opts, env);
      var x, y, z := SetsMarkup(a, query, opts, env), SetsMarkup(b', query, opts, env), SetMarkup(last, query, opts, env);
      AppendAssoc(x, y, z);
    }
  }
}
