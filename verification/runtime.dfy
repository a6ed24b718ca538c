/**
 * The PHP values the core passes around, and the PHP library functions it
 * calls but does not define (parse_url, parse_str, http_build_query,
 * json_encode, json_decode). Those are not re-implemented: every operation
 * that needs one receives it as a function-valued parameter.
 */
module Runtime {
  import opened Wrappers

  /** A PHP array used as a query string or form payload. */
  type Query = map<string, string>

  /** What a message body may hold: `null|string|array`. */
  datatype Body = Null | String(text: string) | Array(entries: Query)

  /** The components of parse_url() the Uri reads; `false` from parse_url is all None. */
  datatype UrlParts = UrlParts(
    scheme: Option<string>,
    host: Option<string>,
    path: Option<string>,
    query: Option<string>,
    fragment: Option<string>)

  /** The foreign functions, left uninterpreted. */
  datatype Library = Library(
    parseUrl: string -> UrlParts,
    parseStr: string -> Query,
    buildQuery: Query -> string,
    jsonEncode: Body -> string,
    jsonDecode: string -> Body)

  /** What `$text .= $body` appends: nothing for null, the string itself, "Array" for an array. */
  function BodyText(b: Body): string {
    match b
    case Null => ""
    case String(t) => t
    case Array(_) => "Array"
  }
}
