# http-simple, modelled in Dafny

This project models the message core of the PHP library medusaphp/http-simple:

- **MessageTrait header store and body.** Header names map to lists of `;`-separated, trimmed segments. The store is an ordered PHP array in which a write replaces an existing key in place or appends a new one. It supports remove, boundary-segment filtering and flattened wire lines. The parsed body is cached.
- **Request.** Its constructor, method and Uri setters, and their copying `with*` forms. Cloning rebuilds the Uri from its string form. `toString()` produces HTTP/1.1 wire text. Class `Uri` declares no interface, while Request types its Uri as `UriInterface`; as written, `getUri()` therefore always throws, and with it `toString()` and every clone. That failure is modelled separately (see Findings), and class `Request` models the code as it works once `Uri` declares `UriInterface`.
- **Response.** Its constructor and `createFromRawResponse()`, which cuts raw response text at the first blank line, splits the head into lines and finds the status code. It also covers the Response-specific part of `getHeaders()`.
- **Uri.** Five fields, each with an in-place `set*` and a copying `with*`. Its constructors parse a string or another Uri, and `__toString()` composes the fields.

Modules, one per file:

- **Wrappers.** The `Option` and `Result` types.
- **Text.** The PHP string built-ins the core uses: `trim`, `explode`, `implode`, `strtolower`, `str_contains`, `stripos`, `str_replace`, decimal rendering, and the `/(\d{3})/` match.
- **Runtime.** PHP values (`Body`, `Query`). It also holds the foreign library functions, bundled as one `Library` parameter.
- **HeaderStore.** The header array as a sequence of entries with distinct names, with the array operations the trait performs.
- **Messages.** The trait's fields and methods, as class `Message`.
- **Uris.** Class `Uri`.
- **Requests.** Class `Request` and the specification `Serialize` of `toString()`.
- **Responses.** Class `Response` and the specification `Decode` of `createFromRawResponse()`.

PHP traits have no Dafny counterpart. Request and Response each hold a `Message` object (`msg`), and the trait's methods are that object's methods. Methods that change state are proved against specification functions. For example, `AddHeaders` ends with `headers == AddAll(old(headers), entries)`, `ToString` returns `Serialize(...)`, and `CreateFromRawResponse` builds its response from `Decode(...)`. The properties of those functions are proved as lemmas.

The model follows the code in these easily misread points:

- **`hasHeader()` lower-cases only its argument.** `addHeaders()` stores names exactly as given. A key stored as `Content-Length` is therefore invisible to `hasHeader('Content-Length')`, and `toString()` then writes a second Content-Length line (`Requests.MixedCaseContentLengthRepeated`).
- **`__toString()` always writes `://`**, even with no scheme or host, so a request target starts with `://`.
- **`createFromRawResponse()` always sets the reason phrase to `OK`.** There is no status-phrase table.
- **There is no port.** There is no default-port table, no leading-colon shorthand and no `100 Continue` handling.

## Model

| member | source | states |
|---|---|---|
| HeaderStore.LineWithoutColonSkipped | src/Traits/MessageTrait.php:165-169 | a positional entry without `:` leaves the header array unchanged |
| HeaderStore.PositionalEntry | src/Traits/MessageTrait.php:170 | a positional `name:value` entry is cut at the first `:` only, so later colons stay in the value |
| Text.SplitOnce | src/Traits/MessageTrait.php:170 | `explode(d, s, 2)` gives one piece when `d` is absent; otherwise two pieces that rebuild `s` around the leftmost `d` |
| Text.FindAfterClean | src/Traits/MessageTrait.php:170 | in `x + d + y` with no first character of `d` in `x`, the leftmost `d` starts right after `x` |
| HeaderStore.SegmentsSpec | src/Traits/MessageTrait.php:173-174 | a string value becomes one more segment than it has `;`, each trimmed and free of `;` |
| Text.Split | src/Traits/MessageTrait.php:174 | `explode()` yields at least one piece and no piece contains the delimiter |
| Text.SplitCount | src/Traits/MessageTrait.php:174 | `explode(';', s)` has exactly (number of `;` in `s`) + 1 pieces |
| Text.Trim | src/Traits/MessageTrait.php:174 | `trim()` leaves no blank at either end and does not change an already trimmed string |
| HeaderStore.NormalizeNameSpec | src/Traits/MessageTrait.php:177 | the stored name has no `_`, and a name without `_` is stored unchanged, case included |
| HeaderStore.PutSpec | src/Traits/MessageTrait.php:178 | a write sets that key's list and leaves every other key's list as it was; keys stay distinct; an existing key keeps its place and a new one is appended |
| HeaderStore.ApplyDistinct | src/Traits/MessageTrait.php:163-179 | one pass of the `addHeaders()` loop keeps the keys distinct |
| HeaderStore.AddAllDistinct | src/Traits/MessageTrait.php:161-182 | `addHeaders()` keeps the keys distinct |
| HeaderStore.AddAllCons | src/Traits/MessageTrait.php:163 | entries are applied first to last: adding `[e] + es` is adding `e`, then `es` |
| HeaderStore.HasAfterPut | src/Traits/MessageTrait.php:96-98 | after a write of key `k`, `hasHeader(n)` holds iff `strtolower(n) == k` or it held before |
| HeaderStore.GetAndHasSpec | src/Traits/MessageTrait.php:220-222 | `getHeader(n)` is the stored list of exactly `n`, or `[]` when `n` is not a key; `hasHeader(n)` holds iff the lower-cased `n` is a key |
| HeaderStore.LookupAt | src/Traits/MessageTrait.php:221 | looking up a stored name finds that entry's list |
| HeaderStore.RemoveSpec | src/Traits/MessageTrait.php:82-85 | `unset` removes exactly that key and changes no other; the remaining keys keep their order (the result is the array with that one entry cut out); an absent key leaves the array as it was |
| HeaderStore.StripBoundary | src/Traits/MessageTrait.php:88-91 | the filter keeps each segment without `boundary=` (any case) as often as it occurs, drops the others, and keeps their order |
| HeaderStore.RemoveValueSpec | src/Traits/MessageTrait.php:87-94 | `removeHeaderValue()` writes the filtered list under the name, which is present afterwards, and changes no other key |
| HeaderStore.SegmentsOfJoin | src/Traits/MessageTrait.php:118 | splitting an imploded list of trimmed, `;`-free segments gives the list back |
| HeaderStore.ReadBackLine | src/Traits/MessageTrait.php:118 | feeding a flattened `name:seg1;seg2` line back to `addHeaders()` writes the same entry |
| HeaderStore.ReadBackFlattened | src/Traits/MessageTrait.php:115-120 | the flattened lines of a header array, given back to `addHeaders()` on an empty array, rebuild that array, order included |
| HeaderStore.SingleEntry | src/Traits/MessageTrait.php:152-153 | starting from an empty array, one line adds exactly one header if it has a `:` and none otherwise |
| Messages.Message.constructor | src/Traits/MessageTrait.php:28-34 | the trait's defaults: no headers, null body, HTTP/1.1, nothing parsed |
| Messages.Message.Copy | src/Traits/MessageTrait.php:48 | `clone` gives a new object with the same field values |
| Messages.Message.AddHeaders | src/Traits/MessageTrait.php:161-182 | the loop leaves the header array equal to the entries applied in order, keys distinct |
| Messages.Message.RemoveHeader | src/Traits/MessageTrait.php:82-85 | the header array afterwards is the old one with that key removed |
| Messages.Message.RemoveHeaderValue | src/Traits/MessageTrait.php:87-94 | the key's list is replaced by its filtered list; the second argument is not used |
| Messages.Message.GetHeaders | src/Traits/MessageTrait.php:111-120 | `getHeaders(true)` gives one `name:seg1;seg2` line per key, in order |
| Messages.Message.WithHeader | src/Traits/MessageTrait.php:146-155 | a fresh copy whose only header comes from the one line, everything else equal; the receiver is untouched |
| Messages.Message.WithAddedHeader | src/Traits/MessageTrait.php:189-197 | a fresh copy with the line added to the existing headers; the receiver is untouched |
| Messages.Message.WithBody | src/Traits/MessageTrait.php:47-59 | a fresh copy with the new body, marked parsed (with the body as its parsed value) iff the body is an array; `hasBody()` holds iff the body is not null |
| Messages.Message.GetParsedBody | src/Traits/MessageTrait.php:203-218 | the first call fixes the parsed body (JSON-decoded when Content-Type lists `application/json`), and later calls return the cached value; with that Content-Type a null or array body is a TypeError from `json_decode()`, after which the flag stays set and the property unchanged, so a later call on a never-assigned property fails on the uninitialised read |
| Requests.PrepareFailure | src/Request.php:142-153 | `toString()` fails exactly when a non-string body is neither encoded nor covered by a Content-Length header, so `strlen()` rejects it |
| Requests.PrepareBody | src/Request.php:140-148 | a string body is written verbatim; a non-string body is JSON-encoded when there is no Content-Type or it lists `application/json`, and is otherwise written as PHP would print it |
| Requests.PrepareLines | src/Request.php:139-153 | the stored header lines come first, in order; then `Content-Type: application/json` iff a non-string body met no Content-Type; then a Content-Length line iff `hasHeader('Content-Length')` is false |
| Requests.ContentLengthIsBodyLength | src/Request.php:151-153 | the added Content-Length line is the last line, and its number reads back as the length of the body written |
| Requests.MixedCaseContentLengthRepeated | src/Request.php:151-153 | a key stored as `Content-Length` is written as a line and is followed by a second, appended Content-Length line |
| Requests.TargetIgnoresAuthority | src/Request.php:155-158 | the request target is `://` + path + (`?` + encoded query if the query is non-empty); scheme, host and fragment do not affect it |
| Requests.OutgoingLinesSafe | src/Request.php:139-153 | there is at least one header line; each is non-empty and holds no CR when the stored lines hold none |
| Requests.JoinRequestHead | src/Request.php:162-165 | the request line, the Host line and the header lines are joined by CRLF |
| Requests.WireLayout | src/Request.php:160-166 | the text is the request line, the Host line and the header lines joined by CRLF, then a blank line and the body; that blank line is the first one; splitting the head at CRLF gives back exactly those lines |
| Requests.ToStringAsWrittenFails | src/Request.php:138-169 | as written, `toString()` never succeeds; whenever `strlen()` does not fail first, it fails in `getUri()` |
| Requests.ToStringOnceDeclared | src/Request.php:138-169 | once `Uri` declares `UriInterface`, `toString()` is `Serialize` |
| Requests.CloneAsWrittenFails | src/Request.php:95-98 | as written, `__clone()` fails in `getUri()`; once `Uri` declares `UriInterface` it parses the Uri's string form, as `Requests.Request.Clone` does |
| Requests.UriObjectNeverKept | src/Request.php:30-45 | as written, a Uri object passed to the constructor or `setUri()` is never kept: a strict-types caller gets a TypeError, any other caller's object becomes its string form |
| Requests.Request.constructor | src/Request.php:30-45 | protocol and body as given; a Uri object is kept (once `Uri` declares `UriInterface`) and a string is parsed; method and remote address are set; the headers go through `addHeaders()` |
| Requests.Request.Clone | src/Request.php:95-98 | with `getUri()` returning the stored Uri: a clone has equal message state, method and remote address, and a fresh Uri parsed from the old Uri's string form |
| Requests.Request.SetUri | src/Request.php:112-115 | a Uri object (once `Uri` declares `UriInterface`) is stored as it is, shared; a string becomes a fresh parsed Uri |
| Requests.Request.WithUri | src/Request.php:122-126 | with `getUri()` returning the stored Uri: a fresh clone carries the new Uri; the receiver keeps its own |
| Requests.Request.SetMethod | src/Request.php:175-178 | only the method changes, in place |
| Requests.Request.WithMethod | src/Request.php:184-189 | with `getUri()` returning the stored Uri: a fresh clone with the new method and a rebuilt Uri; the receiver is unchanged |
| Requests.Request.ToString | src/Request.php:138-169 | with `getUri()` returning the stored Uri: the step-by-step build yields exactly `Serialize` of the message state, method and Uri |
| Text.NoBlankLineInside | src/Request.php:162 | lines that are non-empty and hold no CR, joined by CRLF, contain no blank line |
| Text.FirstBlankLineAfterLines | src/Response.php:37 | after such lines, the first blank line is the one that ends them |
| Text.JoinSplit | src/Response.php:38 | joining the pieces of an `explode()` with the delimiter gives the text back |
| Text.SplitJoin | src/Response.php:38 | exploding a join of pieces that hold no first character of the delimiter gives the pieces back |
| Text.SplitAfterClean | src/Response.php:38 | exploding `x + d + y`, where `x` holds no first character of `d`, gives `x` followed by the pieces of `y` |
| Text.Decimal | src/Request.php:152 | the decimal text of a number is a non-empty string of digits |
| Text.DecimalRoundTrip | src/Request.php:152 | reading back the decimal text of `n` gives `n` |
| Text.DecimalOfThreeDigits | src/Response.php:40 | a number from 100 to 999 has three digits |
| Text.FirstDigitRun | src/Response.php:40 | the match starts at the leftmost position holding three digits in a row, or there is none anywhere |
| Responses.DecodeFails | src/Response.php:37 | parsing fails exactly when the raw text has no `\r\n\r\n` |
| Responses.DecodeCutsAtFirstBlankLine | src/Response.php:37-38 | the body is everything after the first `\r\n\r\n`, later blank lines included; the head lines joined by CRLF are everything before it |
| Responses.ExplicitStatusWins | src/Response.php:39 | a status code given by the caller is used and the status line is not consulted |
| Responses.StatusFromLineRange | src/Response.php:40-44 | a code read from line 0 is between 0 and 999, and is 200 when there are no three digits in a row |
| Responses.FirstRunAfterSpace | src/Response.php:40 | after a prefix with no three digits in a row and a space, three digits are the leftmost match |
| Responses.StatusOfStatusLine | src/Response.php:40-41 | a status line `protocol code phrase` with a three-digit code is read back to that code, when the protocol has no three digits in a row |
| Responses.StatusLineAddsNoHeader | src/Response.php:47 | the status line, having no `:`, adds no header when the lines are given to the constructor |
| Responses.WireLinesSafe | src/Response.php:38 | the status line and the flattened header lines are non-empty and hold no CR |
| Responses.RawRoundTrip | src/Response.php:35-48 | a response written in wire order (status line, flattened headers, blank line, body) parses back to the same header array, body and status code |
| Responses.Response.constructor | src/Response.php:24-28 | the protocol is set, the headers go through `addHeaders()`, and the body, status code and reason phrase are stored |
| Responses.Response.CreateFromRawResponse | src/Response.php:35-48 | fails iff `Decode` fails; otherwise a fresh response with `Decode`'s lines as headers, its body and its status code, reason phrase `OK` and HTTP/1.1 |
| Responses.Response.GetHeaders | src/Traits/MessageTrait.php:122-129 | a Response's flattened headers are its header lines followed by `protocol code phrase` as the last line |
| Responses.Response.StructuredHeaders | src/Traits/MessageTrait.php:130-135 | `getHeaders()` of a Response sets `Status` to protocol, code and phrase and leaves every other key as it was |
| Uris.FragmentReadBack | src/Uri.php:186-193 | when no other part holds a `#`, the string form holds a `#` iff the fragment is truthy, and then everything after the first `#` is the fragment; `""` and `"0"` leave no trace |
| Uris.QueryReadBack | src/Uri.php:186-191 | when scheme, host and path hold no `?`, a non-empty query makes the first `?` the end of scheme, `://`, host and path, followed by the encoded query; an empty query with a `?`-free fragment leaves no `?` |
| Uris.Uri.constructor | src/Uri.php:17-25 | a Uri built without an argument has every field empty |
| Uris.Uri.FromString | src/Uri.php:33-40 | the fields are the parsed components, each defaulting to `""` (the query to the parse of `""`) |
| Uris.Uri.FromUri | src/Uri.php:29-31 | building from a Uri is building from its string form |
| Uris.Uri.Clone | src/Uri.php:66 | `clone` gives a fresh Uri with equal fields |
| Uris.Uri.SetScheme | src/Uri.php:55-58 | only the scheme changes, in place, and the same object is returned |
| Uris.Uri.WithScheme | src/Uri.php:65-69 | a fresh Uri that differs only in the scheme; the receiver is unchanged |
| Uris.Uri.SetHost | src/Uri.php:83-86 | only the host changes, in place, and the same object is returned |
| Uris.Uri.WithHost | src/Uri.php:93-97 | a fresh Uri that differs only in the host; the receiver is unchanged |
| Uris.Uri.SetPath | src/Uri.php:111-114 | only the path changes, in place, and the same object is returned |
| Uris.Uri.WithPath | src/Uri.php:121-125 | a fresh Uri that differs only in the path; the receiver is unchanged |
| Uris.Uri.SetQuery | src/Uri.php:139-142 | only the query changes, in place, and the same object is returned |
| Uris.Uri.WithQuery | src/Uri.php:149-153 | a fresh Uri that differs only in the query, held by value; the receiver is unchanged |
| Uris.Uri.SetFragment | src/Uri.php:167-170 | only the fragment changes, in place, and the same object is returned |
| Uris.Uri.WithFragment | src/Uri.php:177-181 | a fresh Uri that differs only in the fragment; the receiver is unchanged |

Getters are field reads: `getScheme()`, `getHost()`, `getPath()`, `getQuery()`, `getFragment()`, `getMethod()`, `getProtocolVersion()`, `getBody()`, `getStatusCode()` and `getReasonPhrase()`. `getHeader()`, `hasHeader()` and `hasBody()` are the functions `Message.GetHeader`, `Message.HasHeader` and `Message.HasBody`. `getUri()` is read as the field `uri`, which is what it returns once `Uri` declares `UriInterface`; as written it throws, which `Requests.GetUriChecked` models. The client methods `Messages.ParsedBodyIsCached`, `Messages.ParsedBodyAfterTypeError`, `Uris.WithQueryIsolated`, `Requests.SetUriShares`, `Requests.RequestDefaults`, `Requests.WithMethodKeepsReceiver` and `Responses.ResponseDefaults` exercise these contracts. They show caching, the failed read after a failed parse, copy isolation, Uri sharing after `setUri()`, and the constructor defaults.

## Left out

- **Library functions.** `parse_url`, `parse_str`, `http_build_query` and `json_encode`/`json_decode` are not re-implemented. They are uninterpreted function parameters (`Runtime.Library`), and `json_encode` is taken to always return a string, so its `false` result is not modelled.
- **JSON errors.** `json_decode`'s `JsonException` for malformed JSON in `getParsedBody()` is not modelled. Its TypeError for a null or array body is modelled.
- **Curl.** `src/Curl.php` is network I/O, including its `X-Forwarded-For` header.
- **Globals.** `Request::createFromGlobals()` and `createUriFromGlobals()` read the PHP superglobals, `php://input` and `getallheaders()`.
- **Interfaces and exception.** The interface files declare methods without logic, including port accessors and status setters that nothing implements. The exception class is empty.
- **Conflicting declarations.** `MessageInterface` declares `setUri(string)` and `getUri(): string`, which Response does not implement, and `RequestInterface` redeclares `getUri()` with the incompatible return type `UriInterface`. As written, PHP refuses to declare Request and Response at all. The model reads the method bodies as if these declarations fitted together.
- **Array keys after filtering.** `array_filter()` in `removeHeaderValue()` keeps the original keys, so a later `getHeader()` can return a list with gaps in its numbering. `HeaderStore.StripBoundary` renumbers the kept segments from 0; their values and order are as in PHP.
- **Nested arrays and array order.** Query arrays and array bodies are flat string-to-string maps; nested PHP arrays are not modelled. PHP arrays are ordered, and `http_build_query()` and `json_encode()` write pairs in insertion order, but a map does not keep that order. So `['a'=>'1','b'=>'2']` and `['b'=>'2','a'=>'1']` are one value in the model, though `__toString()` and `toString()` write them differently.
- **Header keys and values.** A header name that PHP would turn into an integer array key (such as `"123"`) is kept as a string. Header values are strings or lists of strings; other PHP values (null, numbers) are not modelled.
- **Strings.** Strings are sequences of characters, one per byte, so `strlen()` is the sequence length.
- **`getUri()`.** Its `??= new Uri()` is not modelled, because the constructor always sets a Uri.
- **Other `UriInterface` objects.** An object that implements `UriInterface` but is not a `Uri` fails in `new Uri($uri)` under strict types. The model's object argument is always a `Uri`.
- **`__toString()`.** Request's `__toString()` only calls `toString()` and has no separate member.
- **Request and Response `with*` forms.** The trait's `withHeader()`, `withAddedHeader()` and `withBody()` are modelled on the `Message` object. On a Request, the surrounding clone also rebuilds the Uri, as `Requests.Request.Clone` does once `Uri` declares `UriInterface`; as written, that clone throws (`Requests.CloneAsWrittenFails`).
- Requests.Request.constructor: keeps a Uri object only once `Uri` declares `UriInterface`; as written, such an object is refused or turned into its string form (`Requests.UriObjectNeverKept`).
- Requests.Request.SetUri: the shared-object branch needs `Uri` to declare `UriInterface`; as written, a Uri object never reaches it (`Requests.UriObjectNeverKept`).
- Requests.SetUriShares: shows sharing that, as written, cannot happen with a `Uri` object, for the same reason.
- Requests.Request.Clone: reads `getUri()` as returning the stored Uri; as written, `__clone()` throws a TypeError (`Requests.CloneAsWrittenFails`).
- Requests.Request.WithUri: clones through `Requests.Request.Clone`; as written, the clone throws.
- Requests.Request.WithMethod: clones through `Requests.Request.Clone`; as written, the clone throws.
- Requests.Request.ToString: reads `getUri()` as returning the stored Uri; as written, every call fails (`Requests.ToStringAsWrittenFails`).
- Responses.Response.StructuredHeaders: the `Status` entry holds the status code as its decimal text, whereas PHP stores the integer itself in the list.
- Requests.WireLayout: requires that no line of the request holds a CR. With a CR inside a header value, the first blank line could come earlier.
- Responses.RawRoundTrip: covered only for three-digit codes, a protocol without three digits in a row, and headers whose flattened form `addHeaders()` reads back unchanged (no `:` or `_` in the name; segments trimmed and free of `;` and CR). The status line is placed first. Response's own `getHeaders(true)` places it last, and then a header line holding three digits in a row would be read as the status.

## Findings

| source | as written | input that shows it | evidently intended | confidence | as-written member | corrected member |
|---|---|---|---|---|---|---|
| src/Uri.php:14, src/Request.php:34, 96, 103-105, 112, 155 | `class Uri` declares no interface, yet `getUri()` must return a `UriInterface` and the constructor and `setUri()` accept only `string` or `UriInterface`; every `getUri()` call throws a TypeError, so `toString()`, `__clone()`, `withUri()` and `withMethod()` always fail, and a Uri object is never stored as it is | `(new Request([], 'x', 'GET', 'http://h/p', ''))->toString()`, which throws at `getUri()` | `class Uri implements UriInterface` (which also needs the port accessors) | not executed; follows from PHP's return and parameter type checks | Requests.ToStringAsWrittenFails, Requests.CloneAsWrittenFails, Requests.UriObjectNeverKept | Requests.Request.ToString, Requests.Request.Clone, Requests.Request.SetUri, Requests.ToStringOnceDeclared |
