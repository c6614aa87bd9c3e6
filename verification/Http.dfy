/** libhttp.c: HTTP requests and responses as text. */
module Http {
  import opened Common
  import opened CStrings

  const MESSAGE_MAX: nat := 8192

  /** What the parsers see of the bytes read: one read's worth, up to the first NUL. */
  function Received(data: string): (b: string)
    ensures IsCString(b)
  {
    CStrAt(data[..if |data| < MESSAGE_MAX then |data| else MESSAGE_MAX], 0)
  }

  lemma ReceivesAll(text: string)
    requires IsCString(text) && |text| <= MESSAGE_MAX
    ensures Received(text) == text
  {
    var n := StrLen(text, 0);
    assert text[..|text|] == text;
    EndsAt(text, n);
  }

  // ----- requests

  datatype HttpRequest = HttpRequest(method_: string, path: string)

  /** http_is_valid_method: any prefix of a method will do. */
  predicate IsValidMethod(b: string, len: nat) {
    StrNCmp(b, 0, "GET", 0, len) || StrNCmp(b, 0, "PUT", 0, len) || StrNCmp(b, 0, "DELETE", 0, len) || StrNCmp(b, 0, "POST", 0, len)
  }

  /** Which methods are let through. */
  lemma MethodsLetThrough(b: string, len: nat)
    requires IsCString(b) && len <= |b|
    ensures IsValidMethod(b, len) <==> exists m :: m in VALID_METHODS && b[..len] <= m
  {
    assert b[0..len] == b[..len];
    StrNCmpIsPrefix(b, 0, "GET", len);
    StrNCmpIsPrefix(b, 0, "PUT", len);
    StrNCmpIsPrefix(b, 0, "DELETE", len);
    StrNCmpIsPrefix(b, 0, "POST", len);
    hide StrNCmp;
    assert VALID_METHODS == ["GET", "PUT", "DELETE", "POST"];
    assert "GET" in VALID_METHODS && "PUT" in VALID_METHODS && "DELETE" in VALID_METHODS && "POST" in VALID_METHODS;
    if m :| m in VALID_METHODS && b[..len] <= m {
      assert m == "GET" || m == "PUT" || m == "DELETE" || m == "POST";
    }
  }

  /** A method of one letter is parsed, and so is none. */
  lemma ShortMethods()
    ensures ParsedRequest("P / ") == Some(HttpRequest("P", "/"))
    ensures ParsedRequest(" / ") == Some(HttpRequest("", "/"))
  {
    assert "P / "[2..3] == "/" && " / "[1..2] == "/" && "P / "[..1] == "P" && StrNCmp("P / ", 0, "PUT", 0, 1);
  }

  /** Where the path ends; None if the message ends first. */
  function PathEnd(b: string, i: nat): (r: Option<nat>)
    ensures r.Some? ==> i <= r.value < |b| && ' ' !in b[i..r.value] && '\n' !in b[i..r.value]
    ensures r.Some? ==> b[r.value] == ' ' || b[r.value] == '\n'
    decreases |b| - i
  {
    if i >= |b| then None
    else if b[i] == ' ' || b[i] == '\n' then Some(i)
    else PathEnd(b, i + 1)
  }

  function ParsedRequest(b: string): Option<HttpRequest> {
    match StrChr(b, 0, ' ')
    case None => None
    case Some(s) =>
      if !IsValidMethod(b, s) || CharAt(b, s + 1) != '/' then None
      else
        match PathEnd(b, s + 2)
        case None => None
        case Some(e) => Some(HttpRequest(b[..s], b[s + 1..e]))
  }

  /** http_request_parse. */
  method HttpRequestParse(data: string) returns (req: Option<HttpRequest>)
    ensures req == ParsedRequest(Received(data))
  {
    var b := Received(data);
    req := None;
    var space := StrChr(b, 0, ' ');
    if space.None? || !IsValidMethod(b, space.value) {
      return;
    }
    var readStart := space.value + 1;
    if CharAt(b, readStart) != '/' {
      return;
    }
    var readEnd := readStart + 1;
    while CharAt(b, readEnd) != ' ' && CharAt(b, readEnd) != '\n'
      invariant readStart < readEnd <= |b| && PathEnd(b, readEnd) == PathEnd(b, readStart + 1)
      decreases |b| - readEnd
    {
      EndsAt(b, readEnd);
      if CharAt(b, readEnd) == NUL {
        return;
      }
      readEnd := readEnd + 1;
    }
    req := Some(HttpRequest(b[..space.value], b[readStart..readEnd]));
  }

  const VALID_METHODS: seq<string> := ["GET", "PUT", "DELETE", "POST"]

  /** The message http_start_request and http_end_headers build. */
  function RequestText(method_: string, url: string): string {
    method_ + " " + url + " HTTP/1.1\r\n" + "\r\n"
  }

  lemma {:induction false} PathEndIs(b: string, i: nat, e: nat)
    requires i <= e < |b| && (b[e] == ' ' || b[e] == '\n') && ' ' !in b[i..e] && '\n' !in b[i..e]
    ensures PathEnd(b, i) == Some(e)
    decreases e - i
  {
    if i < e {
      assert b[i..e][0] == b[i] && b[i + 1..e] == b[i..e][1..];
      PathEndIs(b, i + 1, e);
    }
  }

  /** A URL that a request line can carry. */
  predicate IsPath(url: string) {
    url != "" && url[0] == '/' && IsWord(url)
  }

  predicate IsWord(s: string) {
    ' ' !in s && '\n' !in s && IsCString(s)
  }

  lemma WordsJoin(s: string, t: string)
    requires IsWord(s) && IsWord(t)
    ensures IsWord(s + t)
  {
  }

  lemma RequestRoundTrip(method_: string, url: string)
    requires method_ in VALID_METHODS && IsPath(url)
    ensures ParsedRequest(RequestText(method_, url)) == Some(HttpRequest(method_, url))
  {
    var b, s := RequestText(method_, url), |method_|;
    var e := s + 1 + |url|;
    assert ' ' !in method_;
    RequestCuts(b, method_, url);
    StrChrIs(b, 0, ' ', s);
    StrNCmpSame(b, 0, method_, 0, s);
    PathEndIs(b, s + 2, e);
  }

  lemma RequestCuts(b: string, m: string, url: string)
    requires b == RequestText(m, url) && IsPath(url)
    ensures var s, e := |m|, |m| + 1 + |url|;
            && e < |b| && b[0..s] == m == m[0..s] == b[..s] && b[s] == ' ' && b[s + 1] == '/' && b[s + 1..e] == url && b[e] == ' '
            && ' ' !in b[s + 2..e] && '\n' !in b[s + 2..e]
  {
    var s, e := |m|, |m| + 1 + |url|;
    assert b[s + 1..e] == url;
    assert b[s + 1] == b[s + 1..e][0];
    assert b[s + 2..e] == url[1..];
  }

  /** No space and no line feed gets through a request line. */
  lemma ParsedPathIsPlain(b: string)
    ensures var r := ParsedRequest(b); r.Some? ==> ' ' !in r.value.path && '\n' !in r.value.path
  {
    var s := StrChr(b, 0, ' ');
    if s.Some? && PathEnd(b, s.value + 2).Some? && CharAt(b, s.value + 1) == '/' {
      var e := PathEnd(b, s.value + 2).value;
      assert b[s.value + 1..e] == "/" + b[s.value + 2..e];
    }
  }

  // ----- responses

  /** `Undefined`: strncmp was handed a NULL message, or a cursor went past the terminator. */
  datatype HttpResponse = Parsed(status: int, contentLength: int, body: string) | Malformed | Undefined

  function ResponseMessage(code: int): Option<string> {
    match code
    case 100 => Some("Continue")
    case 200 => Some("OK")
    case 201 => Some("Created")
    case 202 => Some("Accepted")
    case 204 => Some("No Content")
    case 301 => Some("Moved Permanently")
    case 302 => Some("Found")
    case 304 => Some("Not Modified")
    case 400 => Some("Bad Request")
    case 401 => Some("Unauthorized")
    case 403 => Some("Forbidden")
    case 404 => Some("Not Found")
    case 405 => Some("Method Not Allowed")
    case 500 => Some("Internal Server Error")
    case _ => None
  }

  const CRLF: string := "\r\n"

  /** Where the line ends: at the next CRLF if there is one at all, else at the next line feed. */
  function LineEnd(b: string, i: nat): (r: Option<nat>)
    ensures r.Some? ==> i <= r.value < |b|
  {
    match StrStr(b, i, CRLF)
    case Some(e) => Some(e)
    case None => StrStr(b, i, "\n")
  }

  function SkipBlanks(b: string, i: nat): (e: nat)
    requires i <= |b|
    ensures i <= e <= |b|
    decreases |b| - i
  {
    if i < |b| && b[i] == ' ' then SkipBlanks(b, i + 1) else i
  }

  predicate HeadersEnd(b: string, at: nat) {
    StrNCmp(b, at, "\n\n", 0, 2) || StrNCmp(b, at, "\r\n\r\n", 0, 4)
  }

  /** The header that starts two characters behind `at`: None if it is malformed, else its end and the length it gives. */
  function HeaderAt(b: string, at: nat, length: int): (r: Option<(nat, int)>)
    requires at + 2 <= |b|
    ensures r.Some? ==> at + 2 <= r.value.0 < |b|
  {
    var start := at + 2;
    match LineEnd(b, start)
    case None => None
    case Some(limit) =>
      match StrStr(b, start, ": ")
      case None => None
      case Some(colon) =>
        if colon > limit then None
        else if !StrNCmp(b, start, "Content-Length", 0, colon - start) then Some((limit, length))
        else
          var (value, e) := Strtol(b, colon + 2);
          if SkipBlanks(b, e) != limit then None else Some((limit, value))
  }

  function HeadersFrom(b: string, at: nat, status: int, length: int): HttpResponse
    decreases |b| - at
  {
    if HeadersEnd(b, at) then
      if at + 4 > |b| then Undefined else Parsed(status, length, b[at + 4..])
    else if at + 2 > |b| then Undefined
    else
      match HeaderAt(b, at, length)
      case None => Malformed
      case Some((limit, value)) => HeadersFrom(b, limit, status, value)
  }

  /** The status and the end of the status line, if the line is well formed so far. */
  function StatusAt(b: string): (r: Option<int>)
    ensures r.Some? ==> |b| > 12
  {
    if StrChr(b, 0, ' ') != Some(8) then None
    else if !StrNCmp(b, 0, "HTTP/1.1", 0, 8) && !StrNCmp(b, 0, "HTTP/1.0", 0, 8) then None
    else
      var (status, e) := Strtol(b, 9);
      if status == 0 || e != 12 || CharAt(b, 12) != ' ' then None else Some(status)
  }

  function ParsedResponse(b: string): HttpResponse {
    match StatusAt(b)
    case None => Malformed
    case Some(status) =>
      match LineEnd(b, 13)
      case None => Malformed
      case Some(e) =>
        match ResponseMessage(status)
        case None => Undefined
        case Some(message) => if !StrNCmp(b, 13, message, 0, e - 13) then Malformed else HeadersFrom(b, e, status, -1)
  }

  /** http_response_parse. */
  method HttpResponseParse(data: string) returns (res: HttpResponse)
    ensures res == ParsedResponse(Received(data))
  {
    var b := Received(data);
    var status := StatusAt(b);
    if status.None? {
      return Malformed;
    }
    var end := LineEnd(b, 13);
    if end.None? {
      return Malformed;
    }
    var message := ResponseMessage(status.value);
    if message.None? {
      return Undefined;
    }
    if !StrNCmp(b, 13, message.value, 0, end.value - 13) {
      return Malformed;
    }
    var readEnd: nat, contentLength := end.value, -1;
    hide HeaderAt, HeadersEnd, StatusAt, ResponseMessage, StrNCmp;
    while !HeadersEnd(b, readEnd)
      invariant readEnd < |b| && HeadersFrom(b, readEnd, status.value, contentLength) == ParsedResponse(b)
      decreases |b| - readEnd
    {
      if readEnd + 2 > |b| {
        return Undefined;
      }
      var header := HeaderAt(b, readEnd, contentLength);
      if header.None? {
        return Malformed;
      }
      readEnd, contentLength := header.value.0, header.value.1;
    }
    if readEnd + 4 > |b| {
      return Undefined;
    }
    res := Parsed(status.value, contentLength, b[readEnd + 4..]);
  }

  // ----- round trip of responses

  const LENGTH_HEADER: string := "Content-Length: "

  /** The message kvresponse_send has built by http_start_response, http_add_header, http_end_headers and http_add_string. */
  function ResponseText(code: int, message: string, body: string): string {
    "HTTP/1.1 " + Decimal(code) + " " + message + CRLF + LENGTH_HEADER + Decimal(|body|) + CRLF + CRLF + body
  }

  lemma SuccessMessagesAreLines(code: int)
    requires code < 400
    ensures var m := ResponseMessage(code); m.Some? ==> '\r' !in m.value && IsCString(m.value) && 100 <= code <= 500
  {
  }

  lemma ErrorMessagesAreLines(code: int)
    requires code >= 400
    ensures var m := ResponseMessage(code); m.Some? ==> '\r' !in m.value && IsCString(m.value) && 100 <= code <= 500
  {
  }

  lemma MessagesAreLines(code: int)
    ensures var m := ResponseMessage(code); m.Some? ==> '\r' !in m.value && IsCString(m.value) && 100 <= code <= 500
  {
    hide ResponseMessage;
    if code < 400 {
      SuccessMessagesAreLines(code);
    } else {
      ErrorMessagesAreLines(code);
    }
  }

  lemma ThreeDigits(code: int)
    requires 100 <= code <= 999
    ensures |Decimal(code)| == 3
  {
    assert |Digits(code / 100)| == 1;
    assert |Digits(code / 10)| == 2;
  }

  /** A line ends at its CRLF. */
  lemma LineEndIs(b: string, i: nat, line: string)
    requires '\r' !in line && StartsAt(b, i, line) && StartsAt(b, i + |line|, CRLF)
    ensures LineEnd(b, i) == Some(i + |line|)
  {
    assert b[i..i + |line|] == line;
    StrStrIs(b, i, CRLF, i + |line|);
  }

  /** Both versions that a status line may start with. */
  predicate IsVersion(v: string) {
    v == "HTTP/1.1" || v == "HTTP/1.0"
  }

  lemma VersionIs(b: string, v: string)
    requires IsVersion(v) && StartsAt(b, 0, v + " ")
    ensures StrChr(b, 0, ' ') == Some(8) && (StrNCmp(b, 0, "HTTP/1.1", 0, 8) || StrNCmp(b, 0, "HTTP/1.0", 0, 8))
  {
    assert b[0..9] == v + " " && b[0..8] == b[0..9][..8] == v == v[0..8] && b[8] == b[0..9][8];
    assert ' ' !in v;
    StrChrIs(b, 0, ' ', 8);
    StrNCmpSame(b, 0, v, 0, 8);
  }

  /** The status line as http_start_response prints it, or in the older version. */
  lemma StatusLineIs(b: string, code: int, v: string)
    requires IsVersion(v) && 100 <= code <= 999 && StartsAt(b, 0, v + " ") && StartsAt(b, 9, Decimal(code)) && CharAt(b, 12) == ' '
    ensures StatusAt(b) == Some(code)
  {
    ThreeDigits(code);
    VersionIs(b, v);
    hide Decimal, DigitsEnd, Strtol;
    StrtolDecimal(b, 9, code);
  }

  /** Nothing else starts a status line. */
  lemma StatusNeeds(b: string)
    requires IsCString(b) && StatusAt(b).Some?
    ensures b[..9] == "HTTP/1.1 " || b[..9] == "HTTP/1.0 "
    ensures b[12] == ' '
  {
    StrNCmpIsPrefix(b, 0, "HTTP/1.1", 8);
    StrNCmpIsPrefix(b, 0, "HTTP/1.0", 8);
    hide StrNCmp, Strtol, StrChr;
    var v := b[0..8];
    assert b[..9] == v + " ";
    assert v <= "HTTP/1.1" ==> v == "HTTP/1.1";
    assert v <= "HTTP/1.0" ==> v == "HTTP/1.0";
  }

  /** A header is not taken for the end of the headers. */
  lemma HeaderIsNoEnd(b: string, at: nat)
    requires at + 2 < |b| && StartsAt(b, at, CRLF) && b[at + 2] != '\r'
    ensures !HeadersEnd(b, at)
  {
    assert b[at] == b[at..at + 2][0] == '\r' && b[at + 1] == b[at..at + 2][1] == '\n';
    assert !StrNCmp(b, at + 2, "\r\n\r\n", 2, 2);
    assert !StrNCmp(b, at + 1, "\r\n\r\n", 1, 3);
  }

  lemma EndIsEnd(b: string, at: nat)
    requires StartsAt(b, at, CRLF) && StartsAt(b, at + 2, CRLF)
    ensures HeadersEnd(b, at)
  {
    assert b[at..at + 4] == b[at..at + 2] + b[at + 2..at + 4] == "\r\n\r\n"[0..4];
    StrNCmpSame(b, at, "\r\n\r\n", 0, 4);
  }

  lemma HeaderIs(b: string, at: nat, limit: nat, n: int, length: int)
    requires at + 18 <= |b| && LineEnd(b, at + 2) == Some(limit) && limit < |b| && b[limit] != ' '
    requires StrStr(b, at + 2, ": ") == Some(at + 16) && StrNCmp(b, at + 2, "Content-Length", 0, 14) && at + 16 <= limit
    requires Strtol(b, at + 18) == (n, limit)
    ensures HeaderAt(b, at, length) == Some((limit, n))
  {
    hide LineEnd, StrStr, StrNCmp, Strtol;
  }

  lemma DecimalDigits(n: nat)
    ensures forall i :: 0 <= i < |Decimal(n)| ==> IsDigit(Decimal(n)[i])
  {
  }

  lemma HeaderLine(b: string, at: nat, d: string)
    requires StartsAt(b, at + 2, LENGTH_HEADER) && StartsAt(b, at + 18, d) && StartsAt(b, at + 18 + |d|, CRLF)
    requires forall i :: 0 <= i < |d| ==> IsDigit(d[i])
    ensures StartsAt(b, at + 2, LENGTH_HEADER + d) && '\r' !in LENGTH_HEADER + d && |LENGTH_HEADER| == 16
    ensures var limit := at + 18 + |d|;
            limit + 2 <= |b| && b[at + 2] == 'C' && b[limit] == '\r' && !IsDigit(CharAt(b, limit))
  {
    var limit := at + 18 + |d|;
    assert b[at + 2] == b[at + 2..at + 18][0] && b[limit] == b[limit..limit + 2][0];
    assert b[at + 2..limit] == b[at + 2..at + 18] + b[at + 18..limit];
  }

  /** The length header is found and read. */
  lemma LengthHeaderIs(b: string, at: nat, n: nat, length: int)
    requires StartsAt(b, at, CRLF) && StartsAt(b, at + 2, LENGTH_HEADER) && StartsAt(b, at + 18, Decimal(n))
    requires StartsAt(b, at + 18 + |Decimal(n)|, CRLF)
    ensures !HeadersEnd(b, at) && HeaderAt(b, at, length) == Some((at + 18 + |Decimal(n)|, n as int))
  {
    hide *;
    var d, limit := Decimal(n), at + 18 + |Decimal(n)|;
    DecimalDigits(n);
    HeaderLine(b, at, d);
    HeaderIsNoEnd(b, at);
    LineEndIs(b, at + 2, LENGTH_HEADER + d);
    ColonIs(b, at + 2);
    StrtolDecimal(b, at + 18, n);
    HeaderIs(b, at, limit, n, length);
  }

  lemma ColonIs(b: string, start: nat)
    requires StartsAt(b, start, LENGTH_HEADER)
    ensures StrStr(b, start, ": ") == Some(start + 14) && StrNCmp(b, start, "Content-Length", 0, 14)
  {
    assert b[start..start + 14] == LENGTH_HEADER[..14] == "Content-Length" == "Content-Length"[0..14];
    assert b[start + 14..start + 16] == LENGTH_HEADER[14..] == ": ";
    assert ':' !in b[start..start + 14];
    StrStrIs(b, start, ": ", start + 14);
    StrNCmpSame(b, start, "Content-Length", 0, 14);
  }

  lemma ParsesTo(b: string, code: int, message: string, e: nat, at: nat, n: int)
    requires StatusAt(b) == Some(code) && ResponseMessage(code) == Some(message)
    requires LineEnd(b, 13) == Some(e) && e >= 13 && StrNCmp(b, 13, message, 0, e - 13)
    requires e + 2 <= |b| && !HeadersEnd(b, e) && HeaderAt(b, e, -1) == Some((at, n)) && e < at
    requires HeadersEnd(b, at) && at + 4 <= |b|
    ensures ParsedResponse(b) == Parsed(code, n, b[at + 4..])
  {
    hide StatusAt, ResponseMessage, LineEnd, StrNCmp, HeadersEnd, HeaderAt;
    assert HeadersFrom(b, at, code, n) == Parsed(code, n, b[at + 4..]);
  }

  lemma AppendKeeps(x: string, z: string)
    ensures StartsAt(x + z, |x|, z)
    ensures forall i: nat, t :: StartsAt(x, i, t) ==> StartsAt(x + z, i, t)
  {
    assert (x + z)[|x|..|x| + |z|] == z;
    forall i: nat, t | StartsAt(x, i, t) ensures StartsAt(x + z, i, t) {
      assert (x + z)[i..i + |t|] == x[i..i + |t|];
    }
  }

  /** Where the pieces of a response text are. */
  lemma Cuts(b: string, h: string, d: string, s: string, m: string, c: string, l: string, n: string, body: string)
    requires b == h + d + s + m + c + l + n + c + c + body
    ensures StartsAt(b, 0, h) && StartsAt(b, |h|, d) && StartsAt(b, |h| + |d|, s) && StartsAt(b, |h| + |d| + |s|, m)
    ensures var e := |h| + |d| + |s| + |m|;
            && StartsAt(b, e, c) && StartsAt(b, e + |c|, l) && StartsAt(b, e + |c| + |l|, n)
            && var at := e + |c| + |l| + |n|;
               StartsAt(b, at, c) && StartsAt(b, at + |c|, c) && at + 2 * |c| <= |b| && b[at + 2 * |c|..] == body
  {
    assert StartsAt(h, 0, h);
    assert (h + d + s + m + c + l + n + c + c + body)[|h + d + s + m + c + l + n + c + c|..] == body;
    hide StartsAt;
    AppendKeeps(h, d);
    AppendKeeps(h + d, s);
    AppendKeeps(h + d + s, m);
    AppendKeeps(h + d + s + m, c);
    AppendKeeps(h + d + s + m + c, l);
    AppendKeeps(h + d + s + m + c + l, n);
    AppendKeeps(h + d + s + m + c + l + n, c);
    AppendKeeps(h + d + s + m + c + l + n + c, c);
    AppendKeeps(h + d + s + m + c + l + n + c + c, body);
  }

  /** A response of this form parses, in either version and whatever length it announces. */
  lemma AnyResponseParses(b: string, v: string, code: int, message: string, n: nat, body: string)
    requires IsVersion(v) && ResponseMessage(code) == Some(message)
    requires b == v + " " + Decimal(code) + " " + message + CRLF + LENGTH_HEADER + Decimal(n) + CRLF + CRLF + body
    ensures ParsedResponse(b) == Parsed(code, n, body)
  {
    hide ResponseMessage, Decimal, ParsedResponse, StartsAt;
    MessagesAreLines(code);
    ThreeDigits(code);
    Cuts(b, v + " ", Decimal(code), " ", message, CRLF, LENGTH_HEADER, Decimal(n), body);
    SpaceThere(b, 12);
    ResponseParses(b, code, message, n, v);
  }

  lemma SpaceThere(b: string, i: nat)
    requires StartsAt(b, i, " ")
    ensures CharAt(b, i) == ' '
  {
    assert b[i] == b[i..i + 1][0];
  }

  /** What kvresponse_send wrote parses to the status, the length and the body it was given. */
  lemma ResponseRoundTrip(code: int, message: string, body: string)
    requires ResponseMessage(code) == Some(message)
    ensures ParsedResponse(ResponseText(code, message, body)) == Parsed(code, |body|, body)
  {
    hide ResponseMessage, Decimal, ParsedResponse;
    assert "HTTP/1.1" + " " == "HTTP/1.1 ";
    AnyResponseParses(ResponseText(code, message, body), "HTTP/1.1", code, message, |body|, body);
  }

  lemma ResponseParses(b: string, code: int, message: string, n: nat, v: string)
    requires ResponseMessage(code) == Some(message) && '\r' !in message && 100 <= code <= 999 && IsVersion(v)
    requires StartsAt(b, 0, v + " ") && StartsAt(b, 9, Decimal(code)) && CharAt(b, 12) == ' ' && StartsAt(b, 13, message)
    requires var e := 13 + |message|;
             StartsAt(b, e, CRLF) && StartsAt(b, e + 2, LENGTH_HEADER) && StartsAt(b, e + 18, Decimal(n))
    requires var at := 13 + |message| + 18 + |Decimal(n)|;
             StartsAt(b, at, CRLF) && StartsAt(b, at + 2, CRLF) && at + 4 <= |b|
    ensures ParsedResponse(b) == Parsed(code, n, b[13 + |message| + 18 + |Decimal(n)| + 4..])
  {
    hide *;
    var e := 13 + |message|;
    StatusLineIs(b, code, v);
    LineEndIs(b, 13, message);
    MessageIs(b, 13, message);
    LengthHeaderIs(b, e, n, -1);
    EndIsEnd(b, e + 18 + |Decimal(n)|);
    EndsInside(b, e);
    ParsesTo(b, code, message, e, e + 18 + |Decimal(n)|, n);
  }

  lemma MessageIs(b: string, i: nat, s: string)
    requires StartsAt(b, i, s)
    ensures StrNCmp(b, i, s, 0, |s|)
  {
    assert b[i..i + |s|] == s == s[0..|s|];
    StrNCmpSame(b, i, s, 0, |s|);
  }

  lemma EndsInside(b: string, i: nat)
    requires StartsAt(b, i, CRLF)
    ensures i + 2 <= |b|
  {
  }

  // ----- when the response parser goes past what it has read

  /** The loop over the headers ends here. */
  predicate BlankLine(b: string, at: nat) {
    StartsAt(b, at, "\n\n") || StartsAt(b, at, "\r\n\r\n")
  }

  /** A header that starts two characters behind `at` and ends at `next`. */
  predicate IsHeader(b: string, at: nat, next: nat) {
    && at + 2 <= |b| && LineEnd(b, at + 2) == Some(next)
    && var colon := StrStr(b, at + 2, ": ");
       && colon.Some? && colon.value <= next
       && (b[at + 2..colon.value] <= "Content-Length" ==> SkipBlanks(b, Strtol(b, colon.value + 2).1) == next)
  }

  /** Stepping over the end of a line or of the headers here goes past the terminator. */
  predicate Overruns(b: string, at: nat) {
    (at + 1 == |b| && b[at] == '\n') || (StartsAt(b, at, "\n\n") && |b| < at + 4)
  }

  /** The line ends that the loop comes to, from the end of the status line on. */
  ghost predicate Walk(b: string, cuts: seq<nat>) {
    forall i :: 0 <= i < |cuts| - 1 ==> !BlankLine(b, cuts[i]) && IsHeader(b, cuts[i], cuts[i + 1])
  }

  ghost predicate WalksOff(b: string, at: nat) {
    exists cuts :: Walk(b, cuts) && cuts != [] && cuts[0] == at && Overruns(b, cuts[|cuts| - 1])
  }

  lemma BlankLineEndsHeaders(b: string, at: nat)
    requires IsCString(b) && at <= |b|
    ensures HeadersEnd(b, at) <==> BlankLine(b, at)
  {
    StrNCmpWhole(b, at, "\n\n", 0);
    StrNCmpWhole(b, at, "\r\n\r\n", 0);
    assert "\n\n"[0..] == "\n\n" && "\r\n\r\n"[0..] == "\r\n\r\n";
    hide StrNCmp, StartsAt;
  }

  lemma HeaderEnds(b: string, at: nat, length: int)
    requires IsCString(b) && at + 2 <= |b|
    ensures var h := HeaderAt(b, at, length);
            && (h.Some? ==> IsHeader(b, at, h.value.0))
            && (h.None? ==> forall next :: !IsHeader(b, at, next))
  {
    hide Strtol, SkipBlanks, LineEnd;
    var colon := StrStr(b, at + 2, ": ");
    if colon.Some? {
      StrNCmpIsPrefix(b, at + 2, "Content-Length", colon.value - (at + 2));
    }
  }

  /** The first step of a walk. */
  lemma WalkStep(b: string, at: nat)
    ensures WalksOff(b, at) <==>
              Overruns(b, at) || (!BlankLine(b, at) && exists next :: IsHeader(b, at, next) && WalksOff(b, next))
  {
    hide BlankLine, IsHeader, Overruns;
    if Overruns(b, at) {
      assert Walk(b, [at]);
    } else if WalksOff(b, at) {
      var cuts :| Walk(b, cuts) && cuts != [] && cuts[0] == at && Overruns(b, cuts[|cuts| - 1]);
      assert Walk(b, cuts[1..]) && cuts[1..] != [] && cuts[1..][|cuts| - 2] == cuts[|cuts| - 1];
      assert IsHeader(b, at, cuts[1]);
    }
    if !BlankLine(b, at) && exists next :: IsHeader(b, at, next) && WalksOff(b, next) {
      var next :| IsHeader(b, at, next) && WalksOff(b, next);
      var cuts :| Walk(b, cuts) && cuts != [] && cuts[0] == next && Overruns(b, cuts[|cuts| - 1]);
      assert Walk(b, [at] + cuts) && ([at] + cuts)[0] == at;
    }
  }

  predicate AtLineEnd(b: string, at: nat) {
    at < |b| && (b[at] == '\n' || StartsAt(b, at, CRLF))
  }

  lemma LineEndsThere(b: string, i: nat)
    ensures LineEnd(b, i).Some? ==> AtLineEnd(b, LineEnd(b, i).value)
  {
  }

  /** One turn of the loop, and what it can overrun. */
  lemma LastTurn(b: string, at: nat)
    requires IsCString(b) && AtLineEnd(b, at)
    ensures Overruns(b, at) <==> if HeadersEnd(b, at) then at + 4 > |b| else at + 2 > |b|
  {
    BlankLineEndsHeaders(b, at);
    hide HeadersEnd;
  }

  lemma {:induction false} WalkDecides(b: string, at: nat, status: int, length: int)
    requires IsCString(b) && AtLineEnd(b, at)
    ensures HeadersFrom(b, at, status, length) == Undefined <==> WalksOff(b, at)
    decreases |b| - at
  {
    hide HeadersEnd, HeaderAt, BlankLine, IsHeader, Overruns, WalksOff, AtLineEnd;
    InsideAtLineEnd(b, at);
    WalkStep(b, at);
    LastTurn(b, at);
    BlankLineEndsHeaders(b, at);
    if !HeadersEnd(b, at) && at + 2 <= |b| {
      HeaderEnds(b, at, length);
      var h := HeaderAt(b, at, length);
      if h.Some? {
        HeaderIsUnique(b, at, h.value.0);
        WalkDecides(b, h.value.0, status, h.value.1);
      }
    }
  }

  lemma InsideAtLineEnd(b: string, at: nat)
    requires AtLineEnd(b, at)
    ensures at < |b|
  {
  }

  lemma HeaderIsUnique(b: string, at: nat, next: nat)
    requires IsHeader(b, at, next)
    ensures AtLineEnd(b, next) && forall other :: IsHeader(b, at, other) ==> other == next
  {
    LineEndsThere(b, at + 2);
  }

  /**
   * The parser is undefined exactly for a status line that is well formed but for a status it does
   * not know, or for a known one whose headers are well formed up to an end that is too short.
   */
  lemma UndefinedIff(b: string)
    requires IsCString(b)
    ensures ParsedResponse(b) == Undefined <==>
              && StatusAt(b).Some? && LineEnd(b, 13).Some?
              && var message, e := ResponseMessage(StatusAt(b).value), LineEnd(b, 13).value;
                 message.None? || (b[13..e] <= message.value && WalksOff(b, e))
  {
    hide StatusAt, LineEnd, HeadersFrom, ResponseMessage, WalksOff, AtLineEnd, StrNCmp;
    if StatusAt(b).Some? && LineEnd(b, 13).Some? && ResponseMessage(StatusAt(b).value).Some? {
      var status, e := StatusAt(b).value, LineEnd(b, 13).value;
      MessagesAreLines(status);
      StrNCmpIsPrefix(b, 13, ResponseMessage(status).value, e - 13);
      LineEndsThere(b, 13);
      WalkDecides(b, e, status, -1);
    }
  }

  lemma StatusIs(b: string, code: int, rest: string)
    requires 100 <= code <= 999 && b == "HTTP/1.1 " + Decimal(code) + " " + rest
    ensures StatusAt(b) == Some(code) && |b| == 13 + |rest| && b[13..] == rest
  {
    ThreeDigits(code);
    Pieces("HTTP/1.1 ", Decimal(code), " ", rest);
    hide StatusAt, Decimal;
    assert CharAt(b, 12) == b[12..13][0];
    assert "HTTP/1.1" + " " == "HTTP/1.1 ";
    StatusLineIs(b, code, "HTTP/1.1");
  }

  lemma Pieces(h: string, d: string, s: string, rest: string)
    ensures var b := h + d + s + rest;
            && StartsAt(b, 0, h) && StartsAt(b, |h|, d) && StartsAt(b, |h| + |d|, s)
            && b[|h| + |d| + |s|..] == rest
  {
    var b := h + d + s + rest;
    assert b[0..|h|] == h && b[|h|..|h| + |d|] == d && b[|h| + |d|..|h| + |d| + |s|] == s;
  }

  /** Any status that is not known, on a line of its own, is enough. */
  lemma UnknownStatus(code: int, line: string)
    requires 100 <= code <= 999 && ResponseMessage(code).None? && '\r' !in line
    ensures ParsedResponse("HTTP/1.1 " + Decimal(code) + " " + (line + CRLF)) == Undefined
  {
    var b, rest := "HTTP/1.1 " + Decimal(code) + " " + (line + CRLF), line + CRLF;
    StatusIs(b, code, rest);
    assert b[13..13 + |line|] == rest[..|line|] == line && b[13 + |line|..13 + |line| + 2] == rest[|line|..] == CRLF;
    LineEndIs(b, 13, line);
    hide StatusAt, LineEnd, ResponseMessage, Decimal;
  }

  lemma BareLine(b: string, rest: string)
    requires b == "HTTP/1.1 " + Decimal(200) + " " + rest && |rest| >= 3 && rest[..2] == "OK" && rest[2] == '\n' && '\r' !in rest
    requires IsCString(b)
    ensures ParsedResponse(b) == Undefined <==> WalksOff(b, 15)
    ensures |b| == 13 + |rest| && b[15..] == rest[2..]
  {
    StatusIs(b, 200, rest);
    hide StatusAt, WalksOff, Decimal;
    assert b[13..15] == rest[..2] && b[15] == rest[2];
    StrStrNowhere(b, 13, CRLF);
    StrStrIs(b, 13, "\n", 15);
    UndefinedIff(b);
  }

  lemma OffTheEnd(b: string, at: nat, end: string)
    requires end == "\n" || end == "\n\n"
    requires |b| == at + |end| && b[at..] == end
    ensures WalksOff(b, at)
  {
    assert b[at] == b[at..][0];
    assert end == "\n\n" ==> b[at..at + 2] == b[at..];
    assert Walk(b, [at]) && Overruns(b, [at][0]);
  }

  lemma OkLineIsText(end: string)
    requires end == "\n" || end == "\n\n"
    ensures var rest := "OK" + end;
            && |rest| >= 3 && rest[..2] == "OK" && rest[2] == '\n' && '\r' !in rest && rest[2..] == end
            && IsCString("HTTP/1.1 " + Decimal(200) + " " + rest)
  {
    DecimalDigits(200);
    hide Decimal;
    assert IsCString(Decimal(200)) && IsCString("HTTP/1.1 ") && IsCString(" ");
  }

  /** A line feed that ends the message, and two that do. */
  lemma ShortEnds(end: string)
    requires end == "\n" || end == "\n\n"
    ensures ParsedResponse("HTTP/1.1 " + Decimal(200) + " " + ("OK" + end)) == Undefined
  {
    hide *;
    OkLineIsText(end);
    var b := "HTTP/1.1 " + Decimal(200) + " " + ("OK" + end);
    BareLine(b, "OK" + end);
    OffTheEnd(b, 15, end);
  }
}
