# wonderwp Search: result-set rendering and post search queries, in Dafny

This project models the core of the wonderwp Search component:

- **`SearchResultSetsRenderer`** turns a list of search result sets into markup. Each set that has a
  positive total count and at least one result becomes one block. The block holds a header with the
  count and the set's label, then one `<li>` per result, then the footer. It ends with either
  pagination and a back button (list view) or a "see all" link (any other view, when the limit is
  unset or exceeded). Each result shows its highlighted title and a snippet of its content. The
  snippet is a window of about 140 characters around the first accent- and case-insensitive
  occurrence of the query.
- **`AbstractPostSearchService`** (query side) builds the query descriptor (`select`, `from`,
  `where` and `orderby` lists) for a MySQL boolean full-text search over posts. It writes the SQL
  text from that descriptor, names the result set and reads the total count back from a COUNT
  query's rows.

Files:

- `wrappers.dfy`: `Option`.
- `php.dfy`: the PHP built-ins the core relies on, on `seq<char>`. These are `empty()` on strings
  (`""` and `"0"` are falsy), `implode`, `substr` with a length, `str_replace`, `trim` with a
  character list of one, and `(int)`-to-string.
- `foreign.dfy`: the collaborators the core calls but that are not part of it. They are function
  values in an `Env` record: translation, `sanitize_title`, `urlencode`, `http_build_query`, the
  pagination component, `strip_tags`, and PCRE for non-literal patterns.
- `snippet.dfy`: `removeAccents`, the match position, the window, and `highlightSearchTerm`.
- `renderer.dfy`: the markup of one result, of one set and of all sets. Each is given as a
  specification function, plus the `SearchResultSetsRenderer` class whose methods build the same
  markup step by step and are proved equal to those functions. The markup of a set is a sequence of
  `Fragment` tokens (back link, header, item, footer, pagination, see-all, closing tag); an item
  holds its result and the query. `Concat` writes a token sequence with a given markup function,
  and `MarkupOf(env)` is the literal markup of each token.
- `renderer_properties.dfy`: what the set markup promises: its layout, the item count, when
  pagination and "see all" appear, and the fallback text.
- `post_search_service.dfy`: the query descriptor, its SQL text and the set's count.

Points where the code is followed as written:

- A set whose count is positive but whose collection is empty produces no markup, like a set with
  a count of 0 (`SearchResultSetsRenderer.php:73-79`).
- `getMarkup` returns the "No result" text only when the list of sets is empty. When every set
  produces no markup it returns `""` (`RendererProperties.AllElidedIsEmpty`).
- The match position comes from the accent-folded text and query, but the highlight runs the raw
  query over the unfolded snippet. So "cafe" locates "café" in "Le café du coin", yet nothing is
  highlighted there, because "é" does not match "e" case-insensitively
  (`Snippet.HighlightSearchTermNoOccurrence`).
- The window's second `substr` argument is a length clamped to 140 from a start of `pos - 70`. For
  any position this ends at `pos + 70`, so the snippet is the window centred on the match
  (`Snippet.WindowIsLengthBased`).
- The post-type condition joins the types with `,` inside one quoted literal
  (`IN ('post,page')`). The status condition, by contrast, quotes each status on its own. The
  service itself only ever passes its single `POST_TYPE`.

## Model

| member | source | states |
|---|---|---|
| Snippet.AccentEntry | src/Renderer/SearchResultSetsRenderer.php:240-246 | the table maps only non-ASCII characters, each to a non-empty ASCII replacement |
| Snippet.FoldAccent | src/Renderer/SearchResultSetsRenderer.php:240-248 | a character outside the table is kept as it is; a table entry is replaced by a non-empty string with no table character in it |
| Snippet.RemoveAccents | src/Renderer/SearchResultSetsRenderer.php:238-249 | every character becomes one or more characters, so the folded text is at least as long as the input |
| Snippet.RemoveAccentsAppend | src/Renderer/SearchResultSetsRenderer.php:248 | `strtr` with single-character keys folds a concatenation part by part |
| Snippet.RemoveAccentsUnchanged | src/Renderer/SearchResultSetsRenderer.php:238-249 | a text with no character from the table comes back unchanged |
| Snippet.AsciiUnchanged | src/Renderer/SearchResultSetsRenderer.php:238-249 | in particular an ASCII text comes back unchanged |
| Snippet.RemoveAccentsClean | src/Renderer/SearchResultSetsRenderer.php:238-249 | the folded text contains no character from the table |
| Snippet.RemoveAccentsIdempotent | src/Renderer/SearchResultSetsRenderer.php:238-249 | folding twice is the same as folding once |
| Snippet.IndexOfCI | src/Renderer/SearchResultSetsRenderer.php:188 | `mb_stripos` gives a position exactly when a case-insensitive occurrence exists, and that position is the first occurrence |
| Snippet.Normalise | src/Renderer/SearchResultSetsRenderer.php:185 | after replacing `\r\n` and `\r` by spaces, no carriage return is left |
| Snippet.LineEndsToSpaces | src/Renderer/SearchResultSetsRenderer.php:185 | the line-end rule one character at a time: a `\r\n` pair or a lone `\r` becomes one space and every other character is kept; no `\r` is left and the text does not grow |
| Snippet.LineEndsToSpacesNoCR | src/Renderer/SearchResultSetsRenderer.php:185 | a text without carriage returns is kept as it is |
| Snippet.ReplaceLineEnds | src/Renderer/SearchResultSetsRenderer.php:185 | the two `str_replace` passes (`\r\n`, then `\r`) give exactly the line-end rule |
| Snippet.NormaliseLineEnds | src/Renderer/SearchResultSetsRenderer.php:185 | the text the snippet is cut from is the tag-stripped content under the line-end rule |
| Snippet.MatchPosition | src/Renderer/SearchResultSetsRenderer.php:186-188 | a falsy query gives position 0; a positive position is an occurrence of the folded query in the folded text, and no occurrence starts before it |
| Snippet.MatchPositionFound | src/Renderer/SearchResultSetsRenderer.php:186-188 | a non-falsy query whose folded form occurs in the folded text is found: the position is an occurrence, and no later than any occurrence |
| Snippet.NoMatchPosition | src/Renderer/SearchResultSetsRenderer.php:188-193 | when the folded query does not occur, `mb_stripos`'s `false` acts as position 0 |
| Snippet.Window | src/Renderer/SearchResultSetsRenderer.php:190-213 | from position 70 on, the snippet has `...` at both ends and at most 146 characters; before position 70 it is the text's prefix up to `pos + 70` followed by `...`, and `""` exactly for an empty text; it is always `""` or ends with `...` |
| Snippet.WindowIsLengthBased | src/Renderer/SearchResultSetsRenderer.php:190-213 | the source's `substr($text, $minbound, $maxbound)`, with its length clamped to 140, gives exactly the centred window |
| Snippet.NoMatchWindow | src/Renderer/SearchResultSetsRenderer.php:188-213 | a falsy or unmatched query gives exactly the text's first 70 characters (all of a shorter text) followed by `...`, or `""` for an empty text |
| Snippet.HighlightErase | src/Renderer/SearchResultSetsRenderer.php:229-232 | deleting the highlight markers gives back exactly the text that was highlighted |
| Snippet.HighlightHitsMatch | src/Renderer/SearchResultSetsRenderer.php:229-232 | every highlighted stretch is a case-insensitive occurrence of the query, of the query's length |
| Snippet.HighlightComplete | src/Renderer/SearchResultSetsRenderer.php:229-232 | no character left unmarked starts an occurrence of a non-empty query in the rest of the text, so with the two rows above the marked stretches are exactly the leftmost non-overlapping occurrences |
| Snippet.HighlightSearchTermMarksText | src/Renderer/SearchResultSetsRenderer.php:229-232 | with a literal query, `highlightSearchTerm` returns the rendering of the occurrence scan, whose hits are the leftmost non-overlapping case-insensitive occurrences (`HighlightHitsMatch`, `HighlightComplete`); removing the markers gives the input back |
| Snippet.HighlightNoOccurrence | src/Renderer/SearchResultSetsRenderer.php:231 | a text in which a non-empty literal query does not occur is returned unchanged |
| Snippet.HighlightSearchTermNoOccurrence | src/Renderer/SearchResultSetsRenderer.php:229-232 | the same for `highlightSearchTerm` as a whole |
| ResultSetsRenderer.BuildBaseQuery | src/Renderer/SearchResultSetsRenderer.php:54-60 | `s` is the URL-encoded query, `t` the search service option, `v` is `list` |
| ResultSetsRenderer.PaginationArgsFor | src/Renderer/SearchResultSetsRenderer.php:100-105 | the pagination component gets the count, the limit as the page size, the current page and a URL of the base query's parameters plus `pageno={pageno}` |
| ResultSetsRenderer.HeaderMarkup | src/Renderer/SearchResultSetsRenderer.php:121-137 | the header markup is non-empty and opens with a tag |
| ResultSetsRenderer.BackButtonMarkup | src/Renderer/SearchResultSetsRenderer.php:139-141 | the back button markup is non-empty and opens with a tag |
| ResultSetsRenderer.SeeAllMarkup | src/Renderer/SearchResultSetsRenderer.php:109 | the "see all" link points at `/?` and the base query's parameters and ends with the translated `see.all.results` label and `</a>` |
| ResultSetsRenderer.MeaningfulContentMarksWindow | src/Renderer/SearchResultSetsRenderer.php:183-219 | with a literal query the snippet is the occurrence scan of `highlightSearchTerm` rendered over the window around the first match of the tag-stripped, line-end-normalised content; removing the markers gives that window back |
| ResultSetsRenderer.SingleResultMarkup | src/Renderer/SearchResultSetsRenderer.php:147-166 | a result's markup is empty exactly when it has no link, no title and no non-empty content; with a non-empty link it starts with the anchor's opening tag and ends with `</a>` |
| ResultSetsRenderer.ItemTitle | src/Renderer/SearchResultSetsRenderer.php:153-155 | a result with a title shows, right after the optional anchor, the title run through `highlightSearchTerm` inside `<span class="res-title">` |
| ResultSetsRenderer.ItemContent | src/Renderer/SearchResultSetsRenderer.php:157-163 | a result with non-empty content ends with the snippet `getMeaningFulContent` gives, inside `<div class="res-content">`, then the anchor's closing tag when there is a link |
| ResultSetsRenderer.Items | src/Renderer/SearchResultSetsRenderer.php:90-92 | one item per result, in collection order, each holding that result and the query |
| ResultSetsRenderer.ItemsSnoc | src/Renderer/SearchResultSetsRenderer.php:90-92 | one more result adds its item at the end |
| ResultSetsRenderer.SetFragments | src/Renderer/SearchResultSetsRenderer.php:69-119 | a set yields nothing exactly when its count is not positive or its collection is empty; otherwise it opens with the back link or the header |
| ResultSetsRenderer.LeadFragments | src/Renderer/SearchResultSetsRenderer.php:84-86 | exactly one back link before the header in list view, nothing otherwise |
| ResultSetsRenderer.TailFragments | src/Renderer/SearchResultSetsRenderer.php:96-111 | after the footer: in list view exactly pagination with the count, limit, page and URL of `PaginationArgsFor`, then the back link to the search; outside list view exactly the "see all" link when the limit is unset or exceeded, else nothing; never an item |
| ResultSetsRenderer.SearchResultSetsRenderer.constructor | src/Renderer/SearchResultSetsRenderer.php:15 | a new renderer holds no sets |
| ResultSetsRenderer.SearchResultSetsRenderer.GetSets | src/Renderer/SearchResultSetsRenderer.php:20-23 | returns the stored sets |
| ResultSetsRenderer.SearchResultSetsRenderer.SetSets | src/Renderer/SearchResultSetsRenderer.php:30-35 | replaces the stored sets |
| ResultSetsRenderer.SearchResultSetsRenderer.GetMarkup | src/Renderer/SearchResultSetsRenderer.php:38-52 | stores the sets, and its loop returns the fallback text for no sets and otherwise each set's markup concatenated in input order |
| ResultSetsRenderer.SearchResultSetsRenderer.GetSetMarkup | src/Renderer/SearchResultSetsRenderer.php:69-119 | the step-by-step construction, with its loop over the results, yields exactly the set's fragments |
| ResultSetsRenderer.SearchResultSetsRenderer.GetMeaningfulContent | src/Renderer/SearchResultSetsRenderer.php:183-219 | the source's bound arithmetic (`mindif`, `maxdif`, `minbound`, `maxbound`) gives the highlighted centred window |
| RendererProperties.SetItemCount | src/Renderer/SearchResultSetsRenderer.php:69-119 | a set with a positive count has exactly one item per result; any other set has none |
| RendererProperties.SetLayout | src/Renderer/SearchResultSetsRenderer.php:77-94 | in a set that is not elided, the header comes at position 0 (1 in list view), the items for the collection follow in order, then the footer, and there are no items anywhere else |
| RendererProperties.PaginationIff | src/Renderer/SearchResultSetsRenderer.php:96-106 | pagination appears exactly for a set that is not elided, in list view |
| RendererProperties.SeeAllIff | src/Renderer/SearchResultSetsRenderer.php:107-111 | "see all" appears exactly for a set that is not elided, outside list view, whose limit is unset or below the count |
| RendererProperties.PaginationExcludesSeeAll | src/Renderer/SearchResultSetsRenderer.php:96-111 | pagination and "see all" never appear together |
| RendererProperties.SeeAllExamples | src/Renderer/SearchResultSetsRenderer.php:69-119 | with limit 10 outside list view, a set of count 5 with 3 results shows count 5, label "Articles", 3 items and no "see all"; a set of count 15 shows "see all" |
| RendererProperties.LeadMarkup | src/Renderer/SearchResultSetsRenderer.php:84-86 | before the header: the back button markup in list view, nothing otherwise |
| RendererProperties.TailMarkup | src/Renderer/SearchResultSetsRenderer.php:96-111 | after the footer: the pagination component's markup then the back button in list view; otherwise the "see all" link when shown, else nothing |
| RendererProperties.SetMarkupShape | src/Renderer/SearchResultSetsRenderer.php:69-119 | a set's markup is, in order: the back button (list view), the header, each result as `<li>` markup, the footer `</ul>` of `getFooterSingleResultMarkup`, pagination and back button (list view) or the "see all" link when shown, and `</div>` |
| RendererProperties.NoSetsText | src/Renderer/SearchResultSetsRenderer.php:173-176 | with no sets `getMarkup` returns the text `No result` |
| RendererProperties.FallbackIffNoSets | src/Renderer/SearchResultSetsRenderer.php:42-51 | `getMarkup` returns "No result" exactly when there are no sets |
| RendererProperties.AllElidedIsEmpty | src/Renderer/SearchResultSetsRenderer.php:42-51 | when every set is elided, the sets' markup is `""` rather than the fallback |
| RendererProperties.SetsMarkupAppend | src/Renderer/SearchResultSetsRenderer.php:44-46 | the markup of two runs of sets is the first run's markup followed by the second's |
| PostSearchService.GiveSetName | src/Service/AbstractPostSearchService.php:31-34 | the set name is the post type followed by `-set` |
| PostSearchService.IndexedFields | src/Service/AbstractPostSearchService.php:141-149 | four distinct `post_` columns, starting with `post_title` and `post_content` |
| PostSearchService.Wildcard | src/Service/AbstractPostSearchService.php:91 | the text gets exactly one `*` at each end: the interior is `trim($searchText, '*')` and neither starts nor ends with `*` |
| Php.TrimIsSlice | src/Service/AbstractPostSearchService.php:91 | `trim($s, $c)` keeps a contiguous slice of `$s` and cuts only `$c` characters off its two ends |
| PostSearchService.WildcardKeepsText | src/Service/AbstractPostSearchService.php:91 | between the two wildcards stands a slice of the search text, with only `*` characters cut off either end |
| PostSearchService.WildcardIdempotent | src/Service/AbstractPostSearchService.php:91 | rewriting an already rewritten text changes nothing |
| PostSearchService.SearchablePostStatus | src/Service/AbstractPostSearchService.php:101-105 | `publish` and `private` come first; `inherit` is added exactly when `attachment` is among the types |
| PostSearchService.GetQueryBuilder | src/Service/AbstractPostSearchService.php:79-124 | a falsy text gives the filter-only descriptor; otherwise the full descriptor: select for COUNT or SELECT, the posts table, the conditions `1`, status, type (when there are types) and MATCH in that order, and `score DESC` exactly for SELECT; the result is the descriptor `QueryBuilderOf` describes in one expression |
| PostSearchService.Clause | src/Service/AbstractPostSearchService.php:131-136 | an empty list gives no clause; a non-empty one starts with its keyword |
| PostSearchService.ComputeQueryFromBuilder | src/Service/AbstractPostSearchService.php:126-139 | appending clause by clause writes the descriptor's SQL text |
| PostSearchService.FilterOnlySql | src/Service/AbstractPostSearchService.php:126-139 | the filter-only descriptor reads `SELECT  FROM  WHERE 1` and has no ordering |
| PostSearchService.OrderingSuffix | src/Service/AbstractPostSearchService.php:126-139 | with the MATCH condition last, the SQL ends with the relevance ordering exactly when there is an ORDER BY entry |
| PostSearchService.GetQuerySql | src/Service/AbstractPostSearchService.php:72-77 | a falsy text gives `SELECT  FROM  WHERE 1` whatever the action and types; the SQL ends with ` ORDER BY score DESC` exactly for a SELECT with a non-falsy text; the SQL is that of `QueryBuilderOf`'s descriptor |
| PostSearchService.TotalCountOf | src/Service/AbstractPostSearchService.php:43 | the count is 0 exactly when there is no row or the first row's `cpt` is empty; otherwise it is that `cpt` |

## Left out

- Database access (`$wpdb->get_results`), `giveSetResults` with its `LIMIT`/`OFFSET` suffix, and `mapToRes` (thumbnails, permalinks, the `the_content` filter): these need WordPress and a database. `TotalCountOf` takes the rows as a parameter.
- Translation (`__`), `sanitize_title`, `urlencode`, `http_build_query`, `strip_tags` and the pagination component's markup are parameters in `Env`, not modelled.
- The `apply_filters` hooks (searchable statuses, the query descriptor, the no-result text) are taken as the identity.
- Byte offsets: `substr` counts bytes while `mb_stripos` counts characters, so on multibyte text the source's window is shifted and can cut a character in half. The model counts characters throughout.
- Invalid UTF-8 snippets: when `substr` cuts a multibyte character in half, the window is not valid UTF-8, `preg_replace` with `/u` returns `null` and the snippet comes out empty. This happens even at position 0, when a two-byte character spans bytes 69 and 70 of the text. The model's window never splits a character, so it never gives this empty snippet.
- Unicode case folding: case-insensitive matching (`mb_stripos`, PCRE's `/iu`) is modelled for ASCII and Latin-1 letters only, not full Unicode case folding.
- PCRE patterns: a query containing a PCRE metacharacter or the `#` delimiter is handed to `Env.pregHighlight` unmodelled. This includes the case where PCRE fails on it and `preg_replace` returns `null`. Only literal queries are modelled.
- `ceil($size / 2)` is a float in PHP; the model uses the integer 70 it always equals.
- `setSets` returning `$this` for chaining is not modelled; `SetSets` only stores the sets.
- PHP 7's `substr` returning `false` for a start past the end is not modelled; `Substr` follows PHP 8 and gives `""`. This changes no output: `'...' . false . '...'` and `'...' . '' . '...'` are both `......`.
- PostSearchService.IndexedFields: the contract pins the first two column names, their shared prefix and their distinctness, not the full literal list.
- `$wpdb->posts`, the table name, is a parameter (`postsTable`).
