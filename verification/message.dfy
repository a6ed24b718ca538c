/**
 * MessageTrait: the state and operations Request and Response share. The
 * trait's fields live in a Message object that each of them holds, and the
 * trait's methods are methods of that object: the in-place ones change it,
 * the `with*` ones clone it and change the clone.
 */
module Messages {
  import opened Wrappers
  import opened Text
  import opened Runtime
  import opened HeaderStore

  /** All fields of the trait, as one value. */
  datatype MessageState = MessageState(
    headers: HeaderList,
    body: Body,
    protocolVersion: string,
    parsedBody: Option<Body>,
    bodyIsParsed: bool)

  /** What strict types make of json_decode() on a body that is not a string. */
  const JsonDecodeTypeError := "json_decode(): Argument #1 ($json) must be of type string"

  /** What PHP reports when the typed `$parsedBody` is read before anything was assigned to it. */
  const ParsedBodyUninitialised := "Typed property $parsedBody must not be accessed before initialization"

  /** The argument of withHeader() / withAddedHeader(): a line, or a name joined to its value by `:`. */
  function HeaderLine(nameOrLine: string, value: Option<string>): string {
    if value.Some? then nameOrLine + ":" + value.value else nameOrLine
  }

  class Message {
    var headers: HeaderList
    var body: Body
    var protocolVersion: string
    /** None while the typed property has not been assigned: it has no default. */
    var parsedBody: Option<Body>
    var bodyIsParsed: bool

    /** The header array never holds a key twice. */
    ghost predicate Valid()
      reads this
    {
      Distinct(headers)
    }

    function State(): MessageState
      reads this
    {
      MessageState(headers, body, protocolVersion, parsedBody, bodyIsParsed)
    }

    /** The trait's field defaults; `$parsedBody` is left uninitialised. */
    constructor ()
      ensures Valid()
      ensures State() == MessageState([], Null, "HTTP/1.1", None, false)
    {
      headers := [];
      body := Null;
      protocolVersion := "HTTP/1.1";
      parsedBody := None;
      bodyIsParsed := false;
    }

    /** `clone $this`: a new object with the same field values (PHP arrays are copied by value). */
    method Copy() returns (c: Message)
      ensures fresh(c) && c.State() == State()
    {
      c := new Message();
      c.headers, c.body, c.protocolVersion := headers, body, protocolVersion;
      c.parsedBody, c.bodyIsParsed := parsedBody, bodyIsParsed;
    }

    /** hasBody(). */
    predicate HasBody()
      reads this
    {
      !body.Null?
    }

    /** getHeader(). */
    function GetHeader(name: string): seq<string>
      reads this
    {
      Get(headers, name)
    }

    /** hasHeader(). */
    predicate HasHeader(name: string)
      reads this
    {
      Has(headers, name)
    }

    /** addHeaders(): every entry is written into the header array in turn. */
    method AddHeaders(entries: seq<HeaderInput>) returns (self: Message)
      requires Valid()
      modifies this`headers
      ensures self == this && Valid()
      ensures headers == AddAll(old(headers), entries)
    {
      var i := 0;
      while i < |entries|
        invariant 0 <= i <= |entries|
        invariant Distinct(headers)
        invariant headers == AddAll(old(headers), entries[..i])
      {
        ghost var before := headers;
        match entries[i] {
          case Positional(line) =>
            if Contains(line, ":") {
              var parts := SplitOnce(line, ":");
              headers := Put(headers, Replace(parts[0], '_', '-'), Segments(parts[1]));
            }
          case Named(name, Raw(text)) =>
            headers := Put(headers, Replace(name, '_', '-'), Segments(text));
          case Named(name, List(items)) =>
            headers := Put(headers, Replace(name, '_', '-'), items);
        }
        ApplyDistinct(before, entries[i]);
        assert entries[..i + 1][..i] == entries[..i];
        i := i + 1;
      }
      assert entries[..i] == entries;
      self := this;
    }

    /** removeHeader(): unset the key given, exactly as spelled. */
    method RemoveHeader(name: string) returns (self: Message)
      requires Valid()
      modifies this`headers
      ensures self == this && Valid()
      ensures headers == Remove(old(headers), name)
    {
      RemoveSpec(headers, name);
      headers := Remove(headers, name);
      self := this;
    }

    /** removeHeaderValue(): drops the boundary segments of `name`; `valueName` is not used. */
    method RemoveHeaderValue(name: string, valueName: string) returns (self: Message)
      requires Valid()
      modifies this`headers
      ensures self == this && Valid()
      ensures headers == RemoveValue(old(headers), name)
    {
      RemoveValueSpec(headers, name);
      headers := Put(headers, name, StripBoundary(Get(headers, name)));
      self := this;
    }

    /** getHeaders(true) of a message that is not a Response: one flattened line per key, in order. */
    method GetHeaders() returns (lines: seq<string>)
      ensures lines == Flatten(headers)
    {
      lines := [];
      var i := 0;
      while i < |headers|
        invariant 0 <= i <= |headers|
        invariant |lines| == i
        invariant forall k :: 0 <= k < i ==> lines[k] == WireLine(headers[k])
      {
        var hd := headers[i];
        lines := lines + [hd.name + ":" + Join(";", hd.segments)];
        i := i + 1;
      }
    }

    /** withHeader(): a copy whose header array holds only the one new header; the receiver is untouched. */
    method WithHeader(nameOrLine: string, value: Option<string>) returns (r: Message)
      ensures fresh(r) && r.Valid()
      ensures r.State() == State().(headers := AddAll([], [Positional(HeaderLine(nameOrLine, value))]))
      ensures |r.headers| <= 1
    {
      r := Copy();
      r.headers := [];
      var _ := r.AddHeaders([Positional(HeaderLine(nameOrLine, value))]);
      SingleEntry(HeaderLine(nameOrLine, value));
    }

    /** withAddedHeader(): a copy with the one header added to the existing ones. */
    method WithAddedHeader(nameOrLine: string, value: Option<string>) returns (r: Message)
      requires Valid()
      ensures fresh(r) && r.Valid()
      ensures r.State() == State().(headers := AddAll(headers, [Positional(HeaderLine(nameOrLine, value))]))
    {
      r := Copy();
      var _ := r.AddHeaders([Positional(HeaderLine(nameOrLine, value))]);
    }

    /** withBody(): a copy with the new body; only an array body counts as already parsed. */
    method WithBody(b: Body) returns (r: Message)
      requires Valid()
      ensures fresh(r) && r.Valid()
      ensures r.State() == State().(body := b, bodyIsParsed := b.Array?, parsedBody := Some(if b.Array? then b else Null))
      ensures r.HasBody() <==> !b.Null?
    {
      r := Copy();
      r.body := b;
      r.bodyIsParsed := !(b.Null? || b.String?);
      if r.bodyIsParsed {
        r.parsedBody := Some(r.body);
      } else {
        r.parsedBody := Some(Null);
      }
    }

    /**
     * getParsedBody(): the first call fixes the parsed body (decoded when the
     * Content-Type list holds "application/json") and every later call returns
     * it. json_decode() takes only a string, so under strict types a null or
     * array body with that Content-Type is a TypeError. The flag is already set
     * by then, so a later call reads `$parsedBody` as it was, which fails when
     * nothing was ever assigned to it.
     */
    method GetParsedBody(lib: Library) returns (r: Result<Body>)
      modifies this`bodyIsParsed, this`parsedBody
      ensures bodyIsParsed
      ensures r.Ok? ==> parsedBody == Some(r.value)
      ensures r.Err? ==> parsedBody == old(parsedBody)
      ensures old(bodyIsParsed) ==>
                r == if old(parsedBody).Some? then Ok(old(parsedBody).value) else Err(ParsedBodyUninitialised)
      ensures !old(bodyIsParsed) ==>
                r == if "application/json" !in Get(headers, "Content-Type") then Ok(body)
                     else if body.String? then Ok(lib.jsonDecode(body.text))
                     else Err(JsonDecodeTypeError)
    {
      if bodyIsParsed {
        if parsedBody.None? {
          return Err(ParsedBodyUninitialised);
        }
        return Ok(parsedBody.value);
      }
      bodyIsParsed := true;
      if "application/json" in GetHeader("Content-Type") {
        if !body.String? {
          return Err(JsonDecodeTypeError);
        }
        parsedBody := Some(lib.jsonDecode(body.text));
      } else {
        parsedBody := Some(body);
      }
      r := Ok(parsedBody.value);
    }
  }

  /** A successful getParsedBody() is cached: the next call returns the same value. */
  method ParsedBodyIsCached(m: Message, lib: Library)
    modifies m
  {
    var first := m.GetParsedBody(lib);
    var second := m.GetParsedBody(lib);
    assert first.Ok? ==> second == first;
  }

  /**
   * On a message whose `$parsedBody` was never assigned, a JSON Content-Type
   * with a body that is not a string makes the first call fail in json_decode()
   * and the second fail on reading the still uninitialised property.
   */
  method ParsedBodyAfterTypeError(m: Message, lib: Library)
    requires !m.bodyIsParsed && m.parsedBody.None?
    requires "application/json" in Get(m.headers, "Content-Type") && !m.body.String?
    modifies m
  {
    var first := m.GetParsedBody(lib);
    var second := m.GetParsedBody(lib);
    assert first == Err(JsonDecodeTypeError);
    assert second == Err(ParsedBodyUninitialised);
  }
}
