/**
 * The collaborators the search component calls but does not define: WordPress's translation
 * lookup `__()`, `sanitize_title`, PHP's `urlencode`, `http_build_query` and `strip_tags`, the
 * theme's pagination component, and PCRE for a highlight pattern that is not a plain literal.
 * They are carried as function values in one record, so the model says nothing about what
 * they return beyond being functions of their arguments.
 */
module Foreign {
  import opened Wrappers

  /** The key/value pairs handed to `http_build_query`; a `None` value is an unset (null) entry. */
  type Params = seq<(string, Option<string>)>

  /** The argument array given to the pagination component's `getMarkup`. */
  datatype PaginationArgs = PaginationArgs(
    nbObjects: int,
    perPage: Option<int>,
    paginationUrl: string,
    currentPage: Option<int>)

  datatype Env = Env(
    translate: string -> string,              // __($key, WWP_THEME_TEXTDOMAIN)
    sanitizeTitle: string -> string,          // sanitize_title
    urlencode: string -> string,              // urlencode
    httpBuildQuery: Params -> string,         // http_build_query
    pagination: PaginationArgs -> string,     // PaginationComponent::getMarkup
    stripTags: string -> string,              // strip_tags
    pregHighlight: (string, string) -> string // preg_replace('#'.$q.'#iu', ..., $text) for a non-literal $q
  )
}
