/**
 * Response: a message with a status code and a reason phrase, the parser
 * createFromRawResponse() that builds one from raw response text, and the
 * Response-specific part of getHeaders().
 *
 * Decode is the parse as a function of the raw text; the lemmas say where it
 * cuts the text, where the status code comes from, and that a response laid
 * out in wire order (status line first, then one line per header, a blank
 * line and the body) is read back to the same headers, body and code.
 */
module Responses {
  import opened Wrappers
  import opened Text
  import opened Runtime
  import opened HeaderStore
  import opened Messages

  /** What createFromRawResponse() passes to the constructor. */
  datatype RawResponse = RawResponse(lines: seq<string>, body: string, statusCode: int)

  /** Without a blank line `$body` is null, which the string-typed constructor parameter refuses. */
  const BodyMissing := "Response::__construct(): Argument #2 ($body) must be of type string, null given"

  /** The status code found by `preg_match('/(\d{3})/')` in a line: the leftmost three digits, else 200. */
  function StatusFromLine(line: string): int {
    match FirstDigitRun(line)
    case Some(i) =>
      assert DigitRunAt(line, i);
      DigitsValue(line[i..i + 3])
    case None => 200
  }

  /** createFromRawResponse(): the head before the first blank line is split into lines, the rest is the body. */
  function Decode(raw: string, statusCode: Option<int>): Result<RawResponse> {
    var halves := SplitOnce(raw, "\r\n\r\n");
    if |halves| == 1 then Err(BodyMissing)
    else
      var lines := Split(halves[0], "\r\n");
      Ok(RawResponse(lines, halves[1], if statusCode.Some? then statusCode.value else StatusFromLine(lines[0])))
  }

  /** `sprintf('%s %d %s', …)`. */
  function StatusLine(protocol: string, code: int, phrase: string): string {
    protocol + " " + IntText(code) + " " + phrase
  }

  // ------------------------------------------------------------------ lemmas

  /** Parsing fails exactly when the text has no blank line. */
  lemma DecodeFails(raw: string, statusCode: Option<int>)
    ensures Decode(raw, statusCode).Err? <==> !Contains(raw, "\r\n\r\n")
  {
  }

  /**
   * The text is cut at its first blank line: the body is everything after it,
   * verbatim, and the lines joined by CRLF give back everything before it.
   */
  lemma DecodeCutsAtFirstBlankLine(raw: string, statusCode: Option<int>, k: nat)
    requires Find(raw, "\r\n\r\n") == Some(k)
    ensures Decode(raw, statusCode).Ok?
    ensures var p := Decode(raw, statusCode).value;
            && p.body == raw[k + 4..]
            && Join("\r\n", p.lines) == raw[..k]
            && !Contains(raw[..k], "\r\n\r\n")
  {
    PrefixHasNoOccurrence(raw, "\r\n\r\n", k);
    JoinSplit(raw[..k], "\r\n");
  }

  /** A status code given by the caller is used as it is. */
  lemma ExplicitStatusWins(raw: string, code: int)
    requires Contains(raw, "\r\n\r\n")
    ensures Decode(raw, Some(code)).Ok? && Decode(raw, Some(code)).value.statusCode == code
  {
  }

  /** A status code read from the text has at most three digits; a line without three digits in a row gives 200. */
  lemma StatusFromLineRange(line: string)
    ensures 0 <= StatusFromLine(line) <= 999
    ensures (forall j: nat :: !DigitRunAt(line, j)) ==> StatusFromLine(line) == 200
  {
    var f := FirstDigitRun(line);
    if f.Some? {
      var s := line[f.value..f.value + 3];
      assert s[..2][..1] == s[..1];
      assert DigitsValue(s[..1]) <= 9;
      assert DigitsValue(s[..2]) <= 99;
    }
  }

  /** After a prefix with no three digits in a row and a space, three digits are the leftmost match. */
  lemma FirstRunAfterSpace(prefix: string, digits: string, rest: string)
    requires forall j: nat :: !DigitRunAt(prefix, j)
    requires |digits| == 3 && forall k :: 0 <= k < 3 ==> IsDigit(digits[k])
    ensures FirstDigitRun(prefix + " " + digits + rest) == Some(|prefix| + 1)
  {
    var line := prefix + " " + digits + rest;
    var p := |prefix|;
    assert line[p] == ' ';
    assert line[p + 1] == digits[0] && line[p + 2] == digits[1] && line[p + 3] == digits[2];
    assert DigitRunAt(line, p + 1);
    forall j: nat | j < p + 1
      ensures !DigitRunAt(line, j)
    {
      if j + 3 <= p {
        assert !DigitRunAt(prefix, j);
        assert line[j] == prefix[j] && line[j + 1] == prefix[j + 1] && line[j + 2] == prefix[j + 2];
      } else {
        assert j <= p < j + 3;
      }
    }
  }

  /** The status line a response writes is read back to its code, when the protocol holds no three digits in a row. */
  lemma StatusOfStatusLine(protocol: string, code: int, phrase: string)
    requires 100 <= code <= 999
    requires forall j: nat :: !DigitRunAt(protocol, j)
    ensures StatusFromLine(StatusLine(protocol, code, phrase)) == code
  {
    var digits := Decimal(code);
    var p := |protocol|;
    DecimalOfThreeDigits(code);
    var line := protocol + " " + digits + (" " + phrase);
    assert StatusLine(protocol, code, phrase) == line;
    FirstRunAfterSpace(protocol, digits, " " + phrase);
    assert line[p + 1..p + 4] == digits;
    DecimalRoundTrip(code);
  }

  /** The status line, having no `:`, adds no header: the headers are those of the other lines. */
  lemma StatusLineAddsNoHeader(status: string, lines: seq<string>)
    requires ':' !in status
    ensures AddAll([], Positionals([status] + lines)) == AddAll([], Positionals(lines))
  {
    assert Positionals([status] + lines) == [Positional(status)] + Positionals(lines);
    AddAllCons([], Positional(status), Positionals(lines));
    NoFirstCharNoOccurrence(status, ":");
    LineWithoutColonSkipped([], status);
  }

  /** The lines of a response in wire order are non-empty and hold no CR. */
  lemma WireLinesSafe(status: string, h: HeaderList)
    requires status != [] && '\r' !in status
    requires forall i :: 0 <= i < |h| ==> '\r' !in WireLine(h[i])
    ensures forall k :: 0 <= k < |[status] + Flatten(h)| ==>
              ([status] + Flatten(h))[k] != [] && '\r' !in ([status] + Flatten(h))[k]
  {
    forall k | 1 <= k < |[status] + Flatten(h)|
      ensures ([status] + Flatten(h))[k] != []
    {
      assert ([status] + Flatten(h))[k] == WireLine(h[k - 1]);
      assert WireLine(h[k - 1])[|h[k - 1].name|] == ':';
    }
  }

  /**
   * Round trip: a response written in wire order (status line, one
   * `name:seg1;seg2` line per header, a blank line, the body) is parsed back
   * to the same header array, order included, the same body and the same
   * status code.
   */
  lemma RawRoundTrip(protocol: string, code: int, phrase: string, h: HeaderList, body: string)
    requires 100 <= code <= 999
    requires forall j: nat :: !DigitRunAt(protocol, j)
    requires ':' !in protocol && ':' !in phrase && '\r' !in protocol && '\r' !in phrase
    requires Distinct(h)
    requires forall i :: 0 <= i < |h| ==> WireSafe(h[i]) && '\r' !in WireLine(h[i])
    ensures var lines := [StatusLine(protocol, code, phrase)] + Flatten(h);
            var raw := Join("\r\n", lines) + "\r\n\r\n" + body;
            && Decode(raw, None) == Ok(RawResponse(lines, body, code))
            && AddAll([], Positionals(lines)) == h
  {
    var status := StatusLine(protocol, code, phrase);
    var lines := [status] + Flatten(h);
    var head := Join("\r\n", lines);
    var raw := head + "\r\n\r\n" + body;
    var digits := Decimal(code);
    assert status == protocol + " " + digits + " " + phrase;
    assert ':' !in status && '\r' !in status by {
      assert forall j :: 0 <= j < |digits| ==> IsDigit(digits[j]);
    }
    WireLinesSafe(status, h);
    FirstBlankLineAfterLines(lines, body);
    assert raw[..|head|] == head;
    assert raw[|head| + 4..] == body;
    SplitJoin("\r\n", lines);
    StatusOfStatusLine(protocol, code, phrase);
    StatusLineAddsNoHeader(status, Flatten(h));
    ReadBackFlattened(h);
  }

  class Response {
    var msg: Message
    var statusCode: int
    var reasonPhrase: string

    ghost predicate Valid()
      reads this, msg
    {
      msg.Valid()
    }

    /** The constructor: protocol version set, the headers added, then the body. */
    constructor (headers: seq<HeaderInput>, body: string, statusCode: int := 200, reasonPhrase: string := "OK",
                 protocolVersion: string := "HTTP/1.1")
      ensures fresh(msg) && Valid()
      ensures msg.State() == MessageState(AddAll([], headers), String(body), protocolVersion, None, false)
      ensures this.statusCode == statusCode && this.reasonPhrase == reasonPhrase
    {
      var m := new Message();
      m.protocolVersion := protocolVersion;
      var _ := m.AddHeaders(headers);
      m.body := String(body);
      msg := m;
      this.statusCode := statusCode;
      this.reasonPhrase := reasonPhrase;
    }

    /** createFromRawResponse(): the reason phrase and protocol version are always the defaults. */
    static method CreateFromRawResponse(raw: string, statusCode: Option<int>) returns (r: Result<Response>)
      ensures r.Err? <==> Decode(raw, statusCode).Err?
      ensures r.Err? ==> r.reason == BodyMissing
      ensures r.Ok? ==>
                var p := Decode(raw, statusCode).value;
                && fresh(r.value) && fresh(r.value.msg) && r.value.Valid()
                && r.value.msg.State() == MessageState(AddAll([], Positionals(p.lines)), String(p.body), "HTTP/1.1", None, false)
                && r.value.statusCode == p.statusCode
                && r.value.reasonPhrase == "OK"
    {
      var halves := SplitOnce(raw, "\r\n\r\n");
      if |halves| == 1 {
        return Err(BodyMissing);
      }
      var headers := Split(halves[0], "\r\n");
      var code: int;
      if statusCode.None? {
        var run := FirstDigitRun(headers[0]);
        if run.Some? {
          code := DigitsValue(headers[0][run.value..run.value + 3]);
        } else {
          code := 200;
        }
      } else {
        code := statusCode.value;
      }
      var resp := new Response(Positionals(headers), halves[1], code);
      r := Ok(resp);
    }

    /** getHeaders(true): the flattened header lines, then the status line last. */
    method GetHeaders() returns (lines: seq<string>)
      ensures |lines| == |msg.headers| + 1
      ensures lines[..|msg.headers|] == Flatten(msg.headers)
      ensures lines[|msg.headers|] == StatusLine(msg.protocolVersion, statusCode, reasonPhrase)
    {
      lines := msg.GetHeaders();
      lines := lines + [StatusLine(msg.protocolVersion, statusCode, reasonPhrase)];
    }

    /** getHeaders(false): the header array with a "Status" entry of protocol, code and phrase. */
    function StructuredHeaders(): (r: HeaderList)
      requires Valid()
      reads this, msg
      ensures Distinct(r)
      ensures Lookup(r, "Status") == Some([msg.protocolVersion, IntText(statusCode), reasonPhrase])
      ensures forall n :: n != "Status" ==> Lookup(r, n) == Lookup(msg.headers, n)
    {
      PutSpec(msg.headers, "Status", [msg.protocolVersion, IntText(statusCode), reasonPhrase]);
      Put(msg.headers, "Status", [msg.protocolVersion, IntText(statusCode), reasonPhrase])
    }
  }

  /** The constructor's defaults: status 200, reason phrase "OK", protocol HTTP/1.1. */
  method ResponseDefaults(headers: seq<HeaderInput>, body: string)
  {
    var resp := new Response(headers, body);
    assert resp.statusCode == 200 && resp.reasonPhrase == "OK";
    assert resp.msg.protocolVersion == "HTTP/1.1" && resp.msg.body == String(body);
  }
}
