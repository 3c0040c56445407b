/**
 * The query side of `AbstractPostSearchService` (src/Service/AbstractPostSearchService.php): the
 * query descriptor `getQueryBuilder` assembles, the SQL text `computeQueryFromBuilder` writes
 * from it, the set name and the count read back from a COUNT query's rows. `$wpdb->posts`, the
 * posts table's name, is a parameter; the `apply_filters` hooks are the identity.
 */
module PostSearchService {
  import opened Wrappers
  import opened Php

  /** `SEARCH_MODIFIER`. */
  const SearchModifier: string := "IN BOOLEAN MODE"

  /** The `$query` array: the `select`, `from`, `where` and `orderby` lists (the initial `1` written as `"1"`). */
  datatype QueryBuilder = QueryBuilder(select: seq<string>, from: seq<string>, where: seq<string>, orderby: seq<string>)

  /** The descriptor for a falsy search text: no select, no from, the bare condition `1`. */
  const FilterOnly: QueryBuilder := QueryBuilder([], [], ["1"], [])

  /** `giveSetName()`: the post type followed by `-set`. */
  function GiveSetName(postType: string): (r: string)
    ensures |r| == |postType| + 4 && r[..|postType|] == postType && r[|postType|..] == "-set"
  {
    postType + "-set"
  }

  /** `getIndexedFields()`: the four columns of the full-text index, in index order. */
  function IndexedFields(): (r: seq<string>)
    ensures |r| == 4 && r[0] == "post_title" && r[1] == "post_content"
    ensures forall i :: 0 <= i < |r| ==> "post_" <= r[i]
    ensures forall i, j :: 0 <= i < j < |r| ==> r[i] != r[j]
  {
    ["post_title", "post_content", "post_excerpt", "post_name"]
  }

  /** `'*' . trim($searchText, '*') . '*'`: the text with exactly one wildcard at each end. */
  function Wildcard(text: string): (r: string)
    ensures |r| >= 2 && r[0] == '*' && r[|r| - 1] == '*'
    ensures r[1..|r| - 1] == [] || (r[1] != '*' && r[|r| - 2] != '*')
    ensures r[1..|r| - 1] == Trim(text, '*')
  {
    var t := Trim(text, '*');
    var r := "*" + t + "*";
    assert r[1..|r| - 1] == t;
    r
  }

  /** The rewrite keeps the text: between the two wildcards stands a slice of it, and only `*` characters were cut off its ends. */
  lemma WildcardKeepsText(text: string)
    ensures exists i, j :: 0 <= i <= j <= |text| && Wildcard(text) == "*" + text[i..j] + "*"
                && AllChar(text[..i], '*') && AllChar(text[j..], '*')
  {
    TrimIsSlice(text, '*');
    var i, j :| 0 <= i <= j <= |text| && Trim(text, '*') == text[i..j] && AllChar(text[..i], '*') && AllChar(text[j..], '*');
    var r := Wildcard(text);
    assert r == "*" + r[1..|r| - 1] + "*";
  }

  /** Rewriting an already rewritten text changes nothing. */
  lemma WildcardIdempotent(text: string)
    ensures Wildcard(Wildcard(text)) == Wildcard(text)
  {
    var w := Wildcard(text);
    var t := Trim(text, '*');
    assert w == ['*'] + t + ['*'];
    TrimWrapped(t, '*');
  }

  /** `MATCH (<indexed fields>) AGAINST ('<text>' IN BOOLEAN MODE)`. */
  function MatchAgainst(text: string): string {
    "MATCH (" + Implode(",", IndexedFields()) + ") AGAINST ('" + text + "' " + SearchModifier + ")"
  }

  /** `$searchablePostStatus` (the filter taken as the identity): published and private, plus inherited for attachments. */
  function SearchablePostStatus(postTypes: seq<string>): (r: seq<string>)
    ensures |r| >= 2 && r[..2] == ["publish", "private"]
    ensures |r| == if "attachment" in postTypes then 3 else 2
    ensures "inherit" in r <==> "attachment" in postTypes
  {
    ["publish", "private"] + if "attachment" in postTypes then ["inherit"] else []
  }

  function StatusCondition(postsTable: string, statuses: seq<string>): string {
    "AND " + postsTable + ".post_status IN ('" + Implode("','", statuses) + "')"
  }

  /** The post-type condition: the types joined with `,` inside ONE quoted literal, followed by the source's line break and indentation. */
  function TypeCondition(postsTable: string, postTypes: seq<string>): string {
    "AND " + postsTable + ".post_type IN ('" + Implode(",", postTypes) + "')\n            "
  }

  /**
   * The descriptor `getQueryBuilder` returns, in one expression: the filter-only query for a falsy
   * search text; otherwise the count or the posts with their score, from the posts table, under
   * the status, type and MATCH conditions, ordered by score for a SELECT.
   */
  function QueryBuilderOf(postsTable: string, searchText: string, postTypes: seq<string>, action: string): QueryBuilder {
    if Falsy(searchText) then FilterOnly
    else
      var text := Wildcard(searchText);
      QueryBuilder(
        if action == "COUNT" then ["COUNT(*) as cpt"] else [postsTable + ".*", MatchAgainst(text) + " as score"],
        [postsTable],
        ["1", StatusCondition(postsTable, SearchablePostStatus(postTypes))]
          + (if postTypes != [] then [TypeCondition(postsTable, postTypes)] else [])
          + ["AND " + MatchAgainst(text)],
        if action == "SELECT" then ["score DESC"] else [])
  }

  /** The descriptor list by list. */
  lemma QueryBuilderOfParts(postsTable: string, searchText: string, postTypes: seq<string>, action: string)
    ensures var q := QueryBuilderOf(postsTable, searchText, postTypes, action);
      && (Falsy(searchText) ==> q == FilterOnly)
      && (!Falsy(searchText) ==>
            q.select == if action == "COUNT" then ["COUNT(*) as cpt"]
                        else [postsTable + ".*", MatchAgainst(Wildcard(searchText)) + " as score"])
      && (!Falsy(searchText) ==> q.from == [postsTable])
      && (!Falsy(searchText) ==>
            q.where == ["1", StatusCondition(postsTable, SearchablePostStatus(postTypes))]
                       + (if postTypes != [] then [TypeCondition(postsTable, postTypes)] else [])
                       + ["AND " + MatchAgainst(Wildcard(searchText))])
      && q.orderby == if !Falsy(searchText) && action == "SELECT" then ["score DESC"] else []
  {
  }

  /** `getQueryBuilder($searchText, $postTypes, $action)`, growing the four lists one entry at a time. */
  method GetQueryBuilder(postsTable: string, searchText: string, postTypes: seq<string>, action: string) returns (query: QueryBuilder)
    ensures Falsy(searchText) ==> query == FilterOnly
    ensures !Falsy(searchText) ==>
      query.select == if action == "COUNT" then ["COUNT(*) as cpt"]
                      else [postsTable + ".*", MatchAgainst(Wildcard(searchText)) + " as score"]
    ensures !Falsy(searchText) ==> query.from == [postsTable]
    ensures !Falsy(searchText) ==>
      query.where == ["1", StatusCondition(postsTable, SearchablePostStatus(postTypes))]
                     + (if postTypes != [] then [TypeCondition(postsTable, postTypes)] else [])
                     + ["AND " + MatchAgainst(Wildcard(searchText))]
    ensures query.orderby == if !Falsy(searchText) && action == "SELECT" then ["score DESC"] else []
    ensures query == QueryBuilderOf(postsTable, searchText, postTypes, action)
  {
    query := QueryBuilder([], [], ["1"], []);
    if !Falsy(searchText) {
      var text := "*" + Trim(searchText, '*') + "*";
      assert text == Wildcard(searchText);
      if action == "COUNT" {
        query := query.(select := query.select + ["COUNT(*) as cpt"]);
      } else {
        query := query.(select := query.select + [postsTable + ".*"]);
        query := query.(select := query.select + [MatchAgainst(text) + " as score"]);
      }
      query := query.(from := query.from + [postsTable]);

      var searchablePostStatus := ["publish", "private"];
      if "attachment" in postTypes {
        searchablePostStatus := searchablePostStatus + ["inherit"];
      }
      assert searchablePostStatus == SearchablePostStatus(postTypes);
      if searchablePostStatus != [] {
        query := query.(where := query.where + [StatusCondition(postsTable, searchablePostStatus)]);
      }
      ghost var filters := ["1", StatusCondition(postsTable, SearchablePostStatus(postTypes))];
      assert query.where == filters;
      if postTypes != [] {
        query := query.(where := query.where + [TypeCondition(postsTable, postTypes)]);
      }
      filters := filters + if postTypes != [] then [TypeCondition(postsTable, postTypes)] else [];
      assert query.where == filters;
      query := query.(where := query.where + ["AND " + MatchAgainst(text)]);
      if action == "SELECT" {
        query := query.(orderby := query.orderby + ["score DESC"]);
      }
    }
    QueryBuilderOfParts(postsTable, searchText, postTypes, action);
  }

  /** A clause keyword followed by the joined parts, or nothing when there are no parts. */
  function Clause(keyword: string, sep: string, parts: seq<string>): (r: string)
    ensures parts == [] ==> r == ""
    ensures parts != [] ==> keyword <= r
  {
    if parts == [] then "" else keyword + Implode(sep, parts)
  }

  /** The SQL text of a query: SELECT and FROM always, WHERE and ORDER BY only for non-empty lists, in that order. */
  function Sql(query: QueryBuilder): string {
    "SELECT " + Implode(",", query.select) + " FROM " + Implode(" ", query.from)
    + Clause(" WHERE ", " ", query.where) + Clause(" ORDER BY ", ",", query.orderby)
  }

  /** `computeQueryFromBuilder($query)`, appending each clause in turn. */
  method ComputeQueryFromBuilder(query: QueryBuilder) returns (queryStr: string)
    ensures queryStr == Sql(query)
  {
    queryStr := "SELECT " + Implode(",", query.select) + " FROM " + Implode(" ", query.from);
    if query.where != [] {
      queryStr := queryStr + " WHERE " + Implode(" ", query.where);
    }
    if query.orderby != [] {
      queryStr := queryStr + " ORDER BY " + Implode(",", query.orderby);
    }
  }

  /** The filter-only query reads `SELECT  FROM  WHERE 1`: no columns, no table, no ordering. */
  lemma FilterOnlySql()
    ensures Sql(FilterOnly) == "SELECT  FROM  WHERE 1"
    ensures !EndsWith(Sql(FilterOnly), " ORDER BY score DESC")
  {
    var sql := Sql(FilterOnly);
    assert sql == "SELECT  FROM  WHERE 1";
    assert sql[|sql| - 1] != 'C';
  }

  /** The MATCH condition ends with its closing parenthesis. */
  lemma MatchConditionEnds(text: string)
    ensures var m := "AND " + MatchAgainst(text); |m| > 0 && m[|m| - 1] == ')'
  {
    LastOfAppend("MATCH (" + Implode(",", IndexedFields()) + ") AGAINST ('" + text + "' " + SearchModifier, ")");
    LastOfAppend("AND ", MatchAgainst(text));
  }

  /** A WHERE clause whose last condition ends with a parenthesis ends with that parenthesis too. */
  lemma WhereClauseEnds(where: seq<string>)
    requires where != [] && |where[|where| - 1]| > 0 && where[|where| - 1][|where[|where| - 1]| - 1] == ')'
    ensures var c := Clause(" WHERE ", " ", where); |c| > 0 && c[|c| - 1] == ')'
  {
    var last := where[|where| - 1];
    if |where| == 1 {
      LastOfAppend(" WHERE ", last);
    } else {
      assert where[..|where| - 1] + [last] == where;
      ImplodeSnoc(" ", where[..|where| - 1], last);
      LastOfAppend(Implode(" ", where[..|where| - 1]) + " ", last);
      LastOfAppend(" WHERE ", Implode(" ", where));
    }
  }

  /** The ORDER BY clause of a SELECT: the relevance ordering. */
  lemma ScoreOrderClause()
    ensures Clause(" ORDER BY ", ",", ["score DESC"]) == " ORDER BY score DESC"
  {
    assert Implode(",", ["score DESC"]) == "score DESC";
  }

  /**
   * A query whose last condition ends with a parenthesis (as the MATCH condition does) ends with
   * the relevance ordering exactly when it has an ORDER BY entry.
   */
  lemma OrderingSuffix(query: QueryBuilder)
    requires query.where != []
    requires var last := query.where[|query.where| - 1]; |last| > 0 && last[|last| - 1] == ')'
    requires query.orderby == [] || query.orderby == ["score DESC"]
    ensures EndsWith(Sql(query), " ORDER BY score DESC") <==> query.orderby != []
  {
    var head := "SELECT " + Implode(",", query.select) + " FROM " + Implode(" ", query.from);
    var whereClause := Clause(" WHERE ", " ", query.where);
    var orderClause := Clause(" ORDER BY ", ",", query.orderby);
    assert Sql(query) == head + whereClause + orderClause;
    WhereClauseEnds(query.where);
    if query.orderby != [] {
      ScoreOrderClause();
      EndsWithAppend(head + whereClause, orderClause);
    } else {
      assert head + whereClause + orderClause == head + whereClause;
      LastOfAppend(head, whereClause);
    }
  }

  /**
   * `getQuerySql($searchText, $postTypes, $action)`. A falsy text gives the same filter-only query
   * whatever the action and types; otherwise the query ends with the relevance ordering exactly
   * for a SELECT.
   */
  method GetQuerySql(postsTable: string, searchText: string, postTypes: seq<string>, action: string) returns (sql: string)
    ensures Falsy(searchText) ==> sql == "SELECT  FROM  WHERE 1"
    ensures EndsWith(sql, " ORDER BY score DESC") <==> !Falsy(searchText) && action == "SELECT"
    ensures sql == Sql(QueryBuilderOf(postsTable, searchText, postTypes, action))
  {
    var query := GetQueryBuilder(postsTable, searchText, postTypes, action);
    sql := ComputeQueryFromBuilder(query);
    if Falsy(searchText) {
      FilterOnlySql();
    } else {
      MatchConditionEnds(Wildcard(searchText));
      OrderingSuffix(query);
    }
  }

  /** One row of a COUNT query's result: its `cpt` column, `None` when absent. */
  datatype CountRow = CountRow(cpt: Option<nat>)

  /** The count `giveSetTotalCount` extracts: the first row's `cpt` when there is a row and it is non-empty, else 0. */
  function TotalCountOf(rows: seq<CountRow>): (count: nat)
    ensures count == 0 <==> rows == [] || rows[0].cpt.None? || rows[0].cpt == Some(0)
    ensures count != 0 ==> rows[0].cpt == Some(count)
  {
    if rows != [] && rows[0].cpt.Some? && rows[0].cpt.value != 0 then rows[0].cpt.value else 0
  }
}
