/**
 * Request: a message with a method, a remote address and a Uri, and the
 * serialisation toString() that turns it into HTTP/1.1 wire text.
 *
 * The wire text is specified by Serialize over the message state; the
 * lemmas below say what that text holds: the stored header lines first, the
 * Content-Type and Content-Length lines toString() adds, the body after the
 * first blank line, and a request target that ignores scheme, host and
 * fragment.
 */
module Requests {
  import opened Wrappers
  import opened Text
  import opened Runtime
  import opened HeaderStore
  import opened Messages
  import opened Uris

  /** The `string|UriInterface $uri` argument of the constructor, setUri() and withUri(). */
  datatype UriArg = UriObject(obj: Uri) | UriString(text: string)

  /** The header lines and the body text toString() writes after the Host line. */
  datatype Outgoing = Outgoing(lines: seq<string>, body: string)

  const ContentTypeJson := "Content-Type: application/json"

  /** What strict_types makes of strlen() on a body that is not a string. */
  const StrlenTypeError := "strlen(): Argument #1 ($string) must be of type string"

  function ContentLengthLine(n: nat): string {
    "Content-Length: " + Decimal(n)
  }

  function RequestLine(httpMethod: string, target: string, protocol: string): string {
    httpMethod + " " + target + " " + protocol
  }

  function HostLine(host: string): string {
    "Host: " + host
  }

  /**
   * The header and body steps of toString(): a body that is not a string is
   * JSON-encoded when no Content-Type is set (and that header is added) or when
   * the Content-Type list holds "application/json"; a Content-Length line is
   * added when hasHeader('Content-Length') is false, which needs a string body.
   */
  function Prepare(h: HeaderList, body: Body, lib: Library): Result<Outgoing> {
    var flat := Flatten(h);
    var (b, lines) :=
      if body.String? then (body, flat)
      else if !Has(h, "Content-Type") then (String(lib.jsonEncode(body)), flat + [ContentTypeJson])
      else if "application/json" in Get(h, "Content-Type") then (String(lib.jsonEncode(body)), flat)
      else (body, flat);
    if Has(h, "Content-Length") then Ok(Outgoing(lines, BodyText(b)))
    else if b.String? then Ok(Outgoing(lines + [ContentLengthLine(|b.text|)], b.text))
    else Err(StrlenTypeError)
  }

  /** The request target: a fresh Uri holding only the path and the query, as a string. */
  function Target(u: UriFields, lib: Library): string {
    Compose(UriFields("", "", u.path, u.query, ""), lib.buildQuery)
  }

  /** toString() of a request in state `s` with method `httpMethod` and Uri fields `u`. */
  function Serialize(s: MessageState, httpMethod: string, u: UriFields, lib: Library): Result<string> {
    match Prepare(s.headers, s.body, lib)
    case Err(e) => Err(e)
    case Ok(o) =>
      Ok(RequestLine(httpMethod, Target(u, lib), s.protocolVersion) + "\r\n"
         + HostLine(u.host) + "\r\n"
         + Join("\r\n", o.lines) + "\r\n\r\n"
         + o.body)
  }

  // ------------------------------------------------------------------ lemmas

  /** toString() fails exactly when a body that is not a string reaches strlen(). */
  lemma PrepareFailure(h: HeaderList, body: Body, lib: Library)
    ensures Prepare(h, body, lib).Err? <==>
              !body.String? && Has(h, "Content-Type") && "application/json" !in Get(h, "Content-Type")
              && !Has(h, "Content-Length")
  {
  }

  /** The body written: a string body verbatim, otherwise its JSON encoding or, left unencoded, its PHP string form. */
  lemma PrepareBody(h: HeaderList, body: Body, lib: Library)
    requires Prepare(h, body, lib).Ok?
    ensures Prepare(h, body, lib).value.body ==
              if body.String? then body.text
              else if !Has(h, "Content-Type") || "application/json" in Get(h, "Content-Type") then lib.jsonEncode(body)
              else BodyText(body)
  {
  }

  /**
   * The stored headers come first, one line each and in order; then
   * "Content-Type: application/json" when a non-string body was encoded for
   * lack of a Content-Type; then the Content-Length line when hasHeader() did
   * not see one.
   */
  lemma PrepareLines(h: HeaderList, body: Body, lib: Library)
    requires Prepare(h, body, lib).Ok?
    ensures var o := Prepare(h, body, lib).value;
            && |o.lines| >= |h|
            && o.lines[..|h|] == Flatten(h)
            && o.lines[|h|..] ==
                 (if !body.String? && !Has(h, "Content-Type") then [ContentTypeJson] else [])
                 + (if !Has(h, "Content-Length") then [ContentLengthLine(|o.body|)] else [])
  {
    var o := Prepare(h, body, lib).value;
    var extra := (if !body.String? && !Has(h, "Content-Type") then [ContentTypeJson] else [])
                 + (if !Has(h, "Content-Length") then [ContentLengthLine(|o.body|)] else []);
    assert o.lines == Flatten(h) + extra;
  }

  /** The Content-Length line that toString() adds states the length of the body it writes. */
  lemma ContentLengthIsBodyLength(h: HeaderList, body: Body, lib: Library)
    requires Prepare(h, body, lib).Ok? && !Has(h, "Content-Length")
    ensures var o := Prepare(h, body, lib).value;
            && |o.lines| >= 1
            && o.lines[|o.lines| - 1] == "Content-Length: " + Decimal(|o.body|)
            && DigitsValue(o.lines[|o.lines| - 1][16..]) == |o.body|
  {
    var o := Prepare(h, body, lib).value;
    PrepareLines(h, body, lib);
    assert o.lines[|o.lines| - 1] == ContentLengthLine(|o.body|);
    assert ContentLengthLine(|o.body|)[16..] == Decimal(|o.body|);
    DecimalRoundTrip(|o.body|);
  }

  /**
   * A Content-Length key stored with capitals is not seen by hasHeader(), so
   * toString() writes the stored line and appends a second Content-Length line.
   */
  lemma MixedCaseContentLengthRepeated(h: HeaderList, text: string, lib: Library)
    requires Lookup(h, "Content-Length").Some? && Lookup(h, "content-length").None?
    ensures Prepare(h, String(text), lib).Ok?
    ensures var o := Prepare(h, String(text), lib).value;
            var i := Index(h, "Content-Length").value;
            && i < |o.lines| - 1
            && o.lines[i] == "Content-Length:" + Join(";", h[i].segments)
            && o.lines[|o.lines| - 1] == "Content-Length: " + Decimal(|text|)
  {
    assert Lower("Content-Length") == "content-length";
    assert !Has(h, "Content-Length");
    PrepareLines(h, String(text), lib);
  }

  /** The request target keeps only path and query: scheme, host and fragment never reach it. */
  lemma TargetIgnoresAuthority(u: UriFields, lib: Library, scheme: string, host: string, fragment: string)
    ensures Target(u, lib) == Target(u.(scheme := scheme, host := host, fragment := fragment), lib)
    ensures Target(u, lib) == "://" + u.path + (if u.query != map[] then "?" + lib.buildQuery(u.query) else "")
  {
  }

  /** Every line toString() writes after the Host line is non-empty, and holds no CR when the stored ones hold none. */
  lemma OutgoingLinesSafe(h: HeaderList, body: Body, lib: Library)
    requires Prepare(h, body, lib).Ok?
    requires forall i :: 0 <= i < |h| ==> '\r' !in WireLine(h[i])
    ensures var o := Prepare(h, body, lib).value;
            && |o.lines| >= 1
            && forall k :: 0 <= k < |o.lines| ==> o.lines[k] != [] && '\r' !in o.lines[k]
  {
    var o := Prepare(h, body, lib).value;
    PrepareLines(h, body, lib);
    assert |o.lines| >= 1 by {
      if Has(h, "Content-Length") {
        assert Index(h, Lower("Content-Length")).Some?;
      }
    }
    forall k | 0 <= k < |o.lines|
      ensures o.lines[k] != [] && '\r' !in o.lines[k]
    {
      var line := o.lines[k];
      if k < |h| {
        assert line == o.lines[..|h|][k] == WireLine(h[k]);
        assert line[|h[k].name|] == ':';
      } else if line != ContentTypeJson {
        assert line == ContentLengthLine(|o.body|);
        var digits := Decimal(|o.body|);
        assert forall j :: 0 <= j < |digits| ==> digits[j] != '\r';
        assert line == "Content-Length: " + digits;
      }
    }
  }

  /** The request line, the Host line and the header lines are joined by CRLF. */
  lemma JoinRequestHead(rl: string, hl: string, lines: seq<string>)
    requires |lines| >= 1
    ensures Join("\r\n", [rl, hl] + lines) == rl + "\r\n" + hl + "\r\n" + Join("\r\n", lines)
  {
    JoinTwo("\r\n", rl, hl, lines);
  }

  /**
   * The request text is CRLF-separated lines (request line, Host line, header
   * lines) and a blank line, then the body; when no line holds a CR, the first
   * blank line is that one, and splitting what precedes it at CRLF gives the
   * lines back.
   */
  lemma WireLayout(s: MessageState, httpMethod: string, u: UriFields, lib: Library)
    requires Serialize(s, httpMethod, u, lib).Ok?
    requires '\r' !in RequestLine(httpMethod, Target(u, lib), s.protocolVersion) && '\r' !in u.host
    requires forall i :: 0 <= i < |s.headers| ==> '\r' !in WireLine(s.headers[i])
    ensures var o := Prepare(s.headers, s.body, lib).value;
            var parts := [RequestLine(httpMethod, Target(u, lib), s.protocolVersion), HostLine(u.host)] + o.lines;
            var wire := Serialize(s, httpMethod, u, lib).value;
            && wire == Join("\r\n", parts) + "\r\n\r\n" + o.body
            && Find(wire, "\r\n\r\n") == Some(|Join("\r\n", parts)|)
            && Split(Join("\r\n", parts), "\r\n") == parts
  {
    var o := Prepare(s.headers, s.body, lib).value;
    var rl := RequestLine(httpMethod, Target(u, lib), s.protocolVersion);
    var hl := HostLine(u.host);
    var parts := [rl, hl] + o.lines;
    OutgoingLinesSafe(s.headers, s.body, lib);
    JoinRequestHead(rl, hl, o.lines);
    assert rl[|httpMethod|] == ' ';
    assert forall k :: 0 <= k < |parts| ==> parts[k] != [] && '\r' !in parts[k] by {
      assert forall k :: 2 <= k < |parts| ==> parts[k] == o.lines[k - 2];
    }
    FirstBlankLineAfterLines(parts, o.body);
    SplitJoin("\r\n", parts);
  }

  // ------------------------------------------------- getUri() as written

  /** The interfaces class Uri declares: none. */
  const UriDeclares: set<string> := {}

  /** What PHP reports when getUri() returns an object whose class does not declare UriInterface. */
  const GetUriTypeError := "Request::getUri(): Return value must be of type UriInterface, Uri returned"

  /** What a strict-types caller gets for passing a Uri to a `string|UriInterface` parameter. */
  const UriArgTypeError := "Argument #1 ($uri) must be of type UriInterface|string, Uri given"

  /** getUri() with its declared return type checked: the stored Uri passes only if its class declares UriInterface. */
  function GetUriChecked(u: UriFields, declares: set<string>): Result<UriFields> {
    if "UriInterface" in declares then Ok(u) else Err(GetUriTypeError)
  }

  /** toString() with that check: the header and body steps run first, then getUri() for the Host line. */
  function SerializeChecked(s: MessageState, httpMethod: string, u: UriFields, declares: set<string>, lib: Library)
    : Result<string>
  {
    match Prepare(s.headers, s.body, lib)
    case Err(e) => Err(e)
    case Ok(_) =>
      match GetUriChecked(u, declares)
      case Err(e) => Err(e)
      case Ok(v) => Serialize(s, httpMethod, v, lib)
  }

  /** __clone() with that check: the Uri's string form is read through getUri(), then parsed into a new Uri. */
  function CloneUriChecked(u: UriFields, declares: set<string>, lib: Library): Result<UriFields> {
    match GetUriChecked(u, declares)
    case Err(e) => Err(e)
    case Ok(v) => Ok(FromText(Compose(v, lib.buildQuery), lib))
  }

  /** How a `string|UriInterface` parameter receives a Uri object: kept as the object, or turned into its string form. */
  datatype Admitted = AsObject | AsText(text: string)

  /**
   * Passing a Uri object with fields `u` to the constructor or setUri(): it is
   * taken as it is when Uri declares UriInterface; otherwise a strict-types
   * caller gets a TypeError and any other caller has it converted to its
   * string form.
   */
  function AdmitUriObject(u: UriFields, declares: set<string>, strictCaller: bool, lib: Library): Result<Admitted> {
    if "UriInterface" in declares then Ok(AsObject)
    else if strictCaller then Err(UriArgTypeError)
    else Ok(AsText(Compose(u, lib.buildQuery)))
  }

  /**
   * As written, toString() never succeeds: when strlen() does not fail first,
   * getUri() does, on exactly the requests for which Serialize gives the text.
   */
  lemma ToStringAsWrittenFails(s: MessageState, httpMethod: string, u: UriFields, lib: Library)
    ensures SerializeChecked(s, httpMethod, u, UriDeclares, lib).Err?
    ensures Serialize(s, httpMethod, u, lib).Ok? <==>
              SerializeChecked(s, httpMethod, u, UriDeclares, lib) == Err(GetUriTypeError)
  {
  }

  /** Once Uri declares UriInterface, toString() is Serialize. */
  lemma ToStringOnceDeclared(s: MessageState, httpMethod: string, u: UriFields, declares: set<string>, lib: Library)
    requires "UriInterface" in declares
    ensures SerializeChecked(s, httpMethod, u, declares, lib) == Serialize(s, httpMethod, u, lib)
  {
  }

  /**
   * As written, __clone() always fails, and with it withUri(), withMethod()
   * and the trait's `with*` forms on a Request; once Uri declares UriInterface
   * it parses the Uri's string form, as Request.Clone does.
   */
  lemma CloneAsWrittenFails(u: UriFields, lib: Library)
    ensures CloneUriChecked(u, UriDeclares, lib) == Err(GetUriTypeError)
    ensures CloneUriChecked(u, {"UriInterface"}, lib) == Ok(FromText(Compose(u, lib.buildQuery), lib))
  {
  }

  /**
   * As written, the constructor and setUri() never keep a Uri object: a
   * strict-types caller gets a TypeError, any other passes its string form,
   * which is parsed into a new Uri.
   */
  lemma UriObjectNeverKept(u: UriFields, strictCaller: bool, lib: Library)
    ensures AdmitUriObject(u, UriDeclares, strictCaller, lib) != Ok(AsObject)
    ensures AdmitUriObject(u, UriDeclares, strictCaller, lib).Err? <==> strictCaller
    ensures !strictCaller ==> AdmitUriObject(u, UriDeclares, strictCaller, lib) == Ok(AsText(Compose(u, lib.buildQuery)))
    ensures AdmitUriObject(u, {"UriInterface"}, strictCaller, lib) == Ok(AsObject)
  {
  }

  /**
   * The Request as it works once Uri declares UriInterface: getUri() returns
   * the stored Uri, and a Uri object passed in is kept. The functions above
   * model the code as written, where both fail.
   */
  class Request {
    var msg: Message
    var httpMethod: string
    var remoteAddress: string
    var uri: Uri

    ghost predicate Valid()
      reads this, msg
    {
      msg.Valid()
    }

    /** The constructor: protocol version and body as given, the Uri set, then the headers added. */
    constructor (lib: Library, headers: seq<HeaderInput>, body: Body, httpMethod: string, uriArg: UriArg,
                 remoteAddress: string, protocolVersion: string := "HTTP/1.1")
      ensures fresh(msg) && Valid()
      ensures msg.State() == MessageState(AddAll([], headers), body, protocolVersion, None, false)
      ensures this.httpMethod == httpMethod && this.remoteAddress == remoteAddress
      ensures uriArg.UriObject? ==> uri == uriArg.obj
      ensures uriArg.UriString? ==> fresh(uri) && uri.Value() == FromText(uriArg.text, lib)
    {
      var m := new Message();
      m.protocolVersion := protocolVersion;
      m.body := body;
      if uriArg.UriObject? {
        uri := uriArg.obj;
      } else {
        uri := new Uri.FromString(uriArg.text, lib);
      }
      this.httpMethod := httpMethod;
      this.remoteAddress := remoteAddress;
      var _ := m.AddHeaders(headers);
      msg := m;
    }

    /** `clone $this` followed by __clone(): the Uri is rebuilt from its own string form. */
    constructor Clone(other: Request, lib: Library)
      requires other.Valid()
      ensures fresh(msg) && Valid() && msg.State() == other.msg.State()
      ensures httpMethod == other.httpMethod && remoteAddress == other.remoteAddress
      ensures fresh(uri) && uri.Value() == FromText(other.uri.Text(lib), lib)
    {
      var m := other.msg.Copy();
      msg := m;
      httpMethod := other.httpMethod;
      remoteAddress := other.remoteAddress;
      uri := new Uri.FromString(other.uri.Text(lib), lib);
    }

    /** setUri(): a Uri object is shared as it is; a string is parsed into a new Uri. */
    method SetUri(arg: UriArg, lib: Library) returns (self: Request)
      modifies this`uri
      ensures self == this
      ensures arg.UriObject? ==> uri == arg.obj
      ensures arg.UriString? ==> fresh(uri) && uri.Value() == FromText(arg.text, lib)
    {
      if arg.UriObject? {
        uri := arg.obj;
      } else {
        uri := new Uri.FromString(arg.text, lib);
      }
      self := this;
    }

    /** withUri(): a clone with the new Uri; the receiver keeps its own. */
    method WithUri(arg: UriArg, lib: Library) returns (r: Request)
      requires Valid()
      ensures fresh(r) && fresh(r.msg) && r.Valid() && r.msg.State() == msg.State()
      ensures r.httpMethod == httpMethod && r.remoteAddress == remoteAddress
      ensures arg.UriObject? ==> r.uri == arg.obj
      ensures arg.UriString? ==> fresh(r.uri) && r.uri.Value() == FromText(arg.text, lib)
    {
      r := new Request.Clone(this, lib);
      var _ := r.SetUri(arg, lib);
    }

    method SetMethod(m: string) returns (self: Request)
      modifies this`httpMethod
      ensures self == this && httpMethod == m
    {
      httpMethod := m;
      self := this;
    }

    /** withMethod(): a clone (with its Uri rebuilt by __clone()) carrying the new method. */
    method WithMethod(m: string, lib: Library) returns (r: Request)
      requires Valid()
      ensures fresh(r) && fresh(r.msg) && r.Valid() && r.msg.State() == msg.State()
      ensures r.httpMethod == m && r.remoteAddress == remoteAddress
      ensures fresh(r.uri) && r.uri.Value() == FromText(uri.Text(lib), lib)
    {
      r := new Request.Clone(this, lib);
      r.httpMethod := m;
    }

    /** toString(). */
    method ToString(lib: Library) returns (r: Result<string>)
      ensures r == Serialize(msg.State(), httpMethod, uri.Value(), lib)
    {
      var headers := msg.GetHeaders();
      var body := msg.body;
      if !body.String? {
        if !msg.HasHeader("Content-Type") {
          body := String(lib.jsonEncode(body));
          headers := headers + [ContentTypeJson];
        } else if "application/json" in msg.GetHeader("Content-Type") {
          body := String(lib.jsonEncode(body));
        }
      }
      if !msg.HasHeader("Content-Length") {
        if !body.String? {
          assert Prepare(msg.headers, msg.body, lib) == Err(StrlenTypeError);
          return Err(StrlenTypeError);
        }
        headers := headers + ["Content-Length: " + Decimal(|body.text|)];
      }
      assert Prepare(msg.headers, msg.body, lib) == Ok(Outgoing(headers, BodyText(body)));
      var host := uri.host;
      var target := new Uri();
      var _ := target.SetPath(uri.path);
      var _ := target.SetQuery(uri.query);
      var path := target.Text(lib);
      var request := RequestLine(httpMethod, path, msg.protocolVersion) + "\r\n";
      request := request + HostLine(host) + "\r\n";
      request := request + Join("\r\n", headers) + "\r\n\r\n";
      request := request + BodyText(body);
      r := Ok(request);
    }
  }

  /** A Uri object given to setUri() is shared: changing it afterwards changes the request's Uri. */
  method SetUriShares(req: Request, u: Uri, path: string, lib: Library)
    modifies req, u
  {
    var _ := req.SetUri(UriObject(u), lib);
    var _ := u.SetPath(path);
    assert req.uri.path == path;
  }

  /** Without a protocol argument the constructor uses HTTP/1.1; the headers go through addHeaders(). */
  method RequestDefaults(lib: Library, headers: seq<HeaderInput>, body: Body, httpMethod: string, target: string)
  {
    var req := new Request(lib, headers, body, httpMethod, UriString(target), "127.0.0.1");
    assert req.msg.protocolVersion == "HTTP/1.1";
    assert req.msg.headers == AddAll([], headers);
    assert req.uri.Value() == FromText(target, lib);
  }

  /** withMethod() leaves the receiver's method and Uri object as they were. */
  method WithMethodKeepsReceiver(req: Request, m: string, lib: Library)
    requires req.Valid()
  {
    var before := req.httpMethod;
    var u := req.uri;
    var copy := req.WithMethod(m, lib);
    assert req.httpMethod == before && req.uri == u;
    assert copy.httpMethod == m && copy.uri != u;
  }
}
