/** kvmessage.c: requests and responses on the wire. */
module KvMessage {
  import opened Common
  import opened CStrings
  import opened Messages
  import opened UrlCodec
  import opened Http

  /** kvrequest_t. */
  datatype KvRequest = KvRequest(typ: MsgType, key: Option<string>, val: Option<string>)

  const REGISTER_PATH: string := "register"
  const COMMIT_PATH: string := "commit"
  const ABORT_PATH: string := "abort"

  // ----- the mappings of types to methods, paths and codes

  function MethodFor(typ: MsgType): Option<string> {
    match typ
    case GETREQ => Some("GET")
    case PUTREQ => Some("PUT")
    case DELREQ => Some("DELETE")
    case REGISTER => Some("POST")
    case COMMIT => Some("POST")
    case ABORT => Some("POST")
    case _ => None
  }

  function PathFor(typ: MsgType): Option<string> {
    match typ
    case REGISTER => Some(REGISTER_PATH)
    case COMMIT => Some(COMMIT_PATH)
    case ABORT => Some(ABORT_PATH)
    case _ => None
  }

  function CodeFor(typ: MsgType): int {
    match typ
    case GETRESP => 200
    case SUCCESS => 201
    case ERROR => 500
    case VOTE => 202
    case ACK => 204
    case _ => -1
  }

  function TypeFor(status: int): MsgType {
    match status
    case 200 => GETRESP
    case 201 => SUCCESS
    case 500 => ERROR
    case 202 => VOTE
    case 204 => ACK
    case _ => EMPTY
  }

  // ----- the message being built

  /** struct http_outbound. */
  class Outbound {
    const body: array<char>
    var end: nat

    ghost predicate Valid()
      reads this
    {
      body.Length == MESSAGE_MAX + 1 && end <= MESSAGE_MAX
    }

    function Text(): string
      requires Valid()
      reads this, body
    {
      body[..end]
    }

    constructor ()
      ensures Valid() && Text() == "" && fresh(body)
    {
      body := new char[MESSAGE_MAX + 1];
      end := 0;
    }

    /** sprintf or memcpy at the end of the message. */
    method Add(s: string)
      requires Valid() && end + |s| <= MESSAGE_MAX
      modifies this, body
      ensures Valid() && Text() == old(Text()) + s
    {
      forall i | 0 <= i < |s| { body[end + i] := s[i]; }
      end := end + |s|;
    }

    /** http_send_and_free. `writes` is what the calls of write return, all they are asked for once it runs out. */
    method Send(writes: seq<int>) returns (ret: int, sent: string)
      requires Valid()
      modifies body
      ensures if ret < 0 then sent <= old(Text()) else ret == |sent| && sent == old(Text())
    {
      ghost var text := Text();
      body[end] := NUL;
      var send: nat, bytesLeft, i := 0, end, 0;
      sent := "";
      while bytesLeft > 0
        invariant 0 <= bytesLeft && send + bytesLeft == end && 0 <= i <= |writes|
        invariant sent == text[..send] && body[..end] == text
        decreases |writes| - i, bytesLeft
      {
        var bytesSent := bytesLeft;
        if i < |writes| {
          bytesSent := if writes[i] < bytesLeft then writes[i] else bytesLeft;
          i := i + 1;
        }
        if bytesSent < 0 {
          return bytesSent, sent;
        }
        sent := sent + body[..end][send..send + bytesSent];
        bytesLeft := bytesLeft - bytesSent;
        send := send + bytesSent;
      }
      ret := end;
    }
  }

  // ----- requests

  function UrlOf(req: KvRequest): string {
    Encoded(Params(PathFor(req.typ), req.key, req.val))
  }

  /** The text of a request; None where kvrequest_send returns -1. */
  function RequestWire(req: KvRequest): Option<string> {
    match MethodFor(req.typ)
    case None => None
    case Some(method_) => Some(RequestText(method_, UrlOf(req)))
  }

  /** The buffers of url_encode and http_start_request are large enough. */
  predicate RequestFits(req: KvRequest) {
    |Printed(Params(PathFor(req.typ), req.key, req.val))| < URL_BUFFER
  }

  /** What fits the URL buffer fits the message buffer. */
  lemma FitsInMessage(req: KvRequest)
    requires RequestFits(req)
    ensures RequestWire(req).Some? ==> |RequestWire(req).value| <= MESSAGE_MAX
  {
  }

  /** kvrequest_send. */
  method KvRequestSend(req: KvRequest, writes: seq<int>) returns (ret: int, sent: string)
    requires RequestFits(req)
    ensures RequestWire(req).None? ==> ret == -1 && sent == ""
    ensures RequestWire(req).Some? ==>
      if ret < 0 then sent <= RequestWire(req).value else ret == |sent| && sent == RequestWire(req).value
  {
    var method_ := MethodFor(req.typ);
    if method_.None? {
      return -1, "";
    }
    var url := UrlEncode(Params(PathFor(req.typ), req.key, req.val));
    hide Encoded;
    var valid := IsValidMethodName(method_.value);
    assert valid;
    var msg := new Outbound();
    msg.Add(method_.value + " " + url + " HTTP/1.1\r\n");
    msg.Add("\r\n");
    assert msg.Text() == RequestWire(req).value;
    ret, sent := msg.Send(writes);
  }

  /** is_valid_method. */
  method IsValidMethodName(method_: string) returns (valid: bool)
    ensures valid <==> method_ in VALID_METHODS
  {
    for i := 0 to |VALID_METHODS|
      invariant method_ !in VALID_METHODS[..i]
    {
      if method_ == VALID_METHODS[i] {
        return true;
      }
    }
    assert VALID_METHODS[..|VALID_METHODS|] == VALID_METHODS;
    valid := false;
  }

  /** The type of a request with this method and these parameters; EMPTY is an error. */
  function ReceivedType(method_: string, p: Params): (typ: MsgType)
    ensures typ == INDEX || typ == EMPTY || Complete(KvRequest(typ, p.key, p.val))
  {
    if method_ == "GET" then (if p.key.None? then INDEX else GETREQ)
    else if method_ == "PUT" then (if p.key.None? || p.val.None? then EMPTY else PUTREQ)
    else if method_ == "DELETE" then (if p.key.None? then EMPTY else DELREQ)
    else if method_ == "POST" then
      if p.path == Some(REGISTER_PATH) then (if p.key.None? || p.val.None? then EMPTY else REGISTER)
      else if p.path == Some(COMMIT_PATH) then COMMIT
      else if p.path == Some(ABORT_PATH) then ABORT
      else EMPTY
    else EMPTY
  }

  lemma PathIsCString(b: string)
    requires IsCString(b)
    ensures var r := ParsedRequest(b); r.Some? ==> IsCString(r.value.path) && forall c :: c in r.value.path ==> c in b
  {
  }

  /** What kvrequest_recieve makes of the bytes it reads; None is NULL. */
  function ReceivedRequest(data: string): (r: Option<KvRequest>)
    ensures r.Some? ==> r.value.typ == INDEX || Complete(r.value)
  {
    match ParsedRequest(Received(data))
    case None => None
    case Some(r) =>
      PathIsCString(Received(data));
      var p := Decoded(r.path);
      var typ := ReceivedType(r.method_, p);
      if typ == EMPTY then None else Some(KvRequest(typ, p.key, p.val))
  }

  /** kvrequest_recieve. */
  method KvRequestReceive(data: string) returns (req: Option<KvRequest>)
    ensures req == ReceivedRequest(data)
  {
    hide ParsedRequest, Received, Decoded;
    var r := HttpRequestParse(data);
    if r.None? {
      return None;
    }
    PathIsCString(Received(data));
    var params := UrlDecode(r.value.path);
    var typ := EMPTY;
    if r.value.method_ == "GET" {
      if params.key.None? {
        typ := INDEX;
      } else {
        typ := GETREQ;
      }
    } else if r.value.method_ == "PUT" {
      if params.key.None? || params.val.None? {
        return None;
      }
      typ := PUTREQ;
    } else if r.value.method_ == "DELETE" {
      if params.key.None? {
        return None;
      }
      typ := DELREQ;
    } else if r.value.method_ == "POST" {
      if params.path.None? {
        return None;
      }
      if params.path.value == REGISTER_PATH {
        if params.key.None? || params.val.None? {
          return None;
        }
        typ := REGISTER;
      } else if params.path.value == COMMIT_PATH {
        typ := COMMIT;
      } else if params.path.value == ABORT_PATH {
        typ := ABORT;
      }
    }
    if typ == EMPTY {
      return None;
    }
    req := Some(KvRequest(typ, params.key, params.val));
  }

  /** The fields the type of a request needs. */
  predicate Complete(req: KvRequest) {
    match req.typ
    case GETREQ => req.key.Some?
    case PUTREQ => req.key.Some? && req.val.Some?
    case DELREQ => req.key.Some?
    case REGISTER => req.key.Some? && req.val.Some?
    case COMMIT => true
    case ABORT => true
    case _ => false
  }

  /** Text a URL can carry; there is no escaping. */
  predicate Clean(s: Option<string>) {
    s.Some? ==> '&' !in s.value && ' ' !in s.value && '\n' !in s.value
  }

  predicate IsField(s: Option<string>) {
    s.Some? ==> IsCString(s.value)
  }

  lemma ParamsAreWords(p: Params)
    requires p.path.Some? ==> IsWord(p.path.value)
    requires p.key.Some? ==> IsWord(p.key.value)
    requires p.val.Some? ==> IsWord(p.val.value)
    ensures IsPath(Encoded(p))
  {
    EncodedText(p);
    assert IsWord("/") && IsWord("?") && IsWord("&") && IsWord(KEY) && IsWord(VAL) && IsWord("");
    hide Encoded, IsWord;
    var front := "/" + PathText(p);
    WordsJoin("/", PathText(p));
    WordsJoin(front, "?");
    if p.key.Some? {
      WordsJoin(KEY, p.key.value);
      WordsJoin(front + "?", KEY + p.key.value);
      WordsJoin(front + "?" + (KEY + p.key.value), "&");
    }
    if p.val.Some? {
      WordsJoin(VAL, p.val.value);
      WordsJoin(front + "?", VAL + p.val.value);
      if p.key.Some? {
        WordsJoin(front + "?" + (KEY + p.key.value) + "&", VAL + p.val.value);
      }
    }
  }

  lemma UrlIsPath(req: KvRequest)
    requires Complete(req) && Clean(req.key) && Clean(req.val) && IsField(req.key) && IsField(req.val)
    ensures IsPath(UrlOf(req)) && PlainPath(PathFor(req.typ)) && IsCString(UrlOf(req))
  {
    ParamsAreWords(Params(PathFor(req.typ), req.key, req.val));
    hide Encoded;
  }

  lemma TypeComesBack(req: KvRequest)
    requires Complete(req)
    ensures MethodFor(req.typ).Some? && MethodFor(req.typ).value in VALID_METHODS && req.typ != EMPTY
    ensures ReceivedType(MethodFor(req.typ).value, Params(PathFor(req.typ), req.key, req.val)) == req.typ
    ensures RequestWire(req) == Some(RequestText(MethodFor(req.typ).value, UrlOf(req)))
  {
    hide Encoded, RequestText;
    assert VALID_METHODS[0] == "GET" && VALID_METHODS[1] == "PUT" && VALID_METHODS[2] == "DELETE" && VALID_METHODS[3] == "POST";
  }

  lemma Receives(data: string, method_: string, path: string, p: Params, typ: MsgType)
    requires ParsedRequest(Received(data)) == Some(HttpRequest(method_, path)) && IsCString(path) && Decoded(path) == p
    requires ReceivedType(method_, p) == typ && typ != EMPTY
    ensures ReceivedRequest(data) == Some(KvRequest(typ, p.key, p.val))
  {
    hide ParsedRequest, Received, Decoded, ReceivedType;
  }

  lemma PlainUrl(req: KvRequest)
    requires Clean(req.key) && Clean(req.val) && IsField(req.key) && IsField(req.val)
    ensures Plain(req.key) && Plain(req.val) && UrlOf(req) == Encoded(Params(PathFor(req.typ), req.key, req.val))
  {
    hide Encoded;
  }

  /** A request that a URL can carry is received as it was written, whoever wrote it, if one read takes it in. */
  lemma TextArrives(req: KvRequest)
    requires Complete(req) && Clean(req.key) && Clean(req.val) && IsField(req.key) && IsField(req.val)
    requires RequestWire(req).Some? ==> |RequestWire(req).value| <= MESSAGE_MAX
    ensures RequestWire(req).Some? && ReceivedRequest(RequestWire(req).value) == Some(req)
  {
    hide *;
    TypeComesBack(req);
    PlainUrl(req);
    var p, text := Params(PathFor(req.typ), req.key, req.val), RequestWire(req).value;
    UrlIsPath(req);
    UrlRoundTrip(p);
    RequestRoundTrip(MethodFor(req.typ).value, UrlOf(req));
    RequestIsCString(MethodFor(req.typ).value, UrlOf(req));
    ReceivesAll(text);
    Receives(text, MethodFor(req.typ).value, UrlOf(req), p, req.typ);
  }

  /** So is one that the program sends, within the buffer of url_encode. */
  lemma CleanRequestArrives(req: KvRequest)
    requires Complete(req) && Clean(req.key) && Clean(req.val) && IsField(req.key) && IsField(req.val) && RequestFits(req)
    ensures RequestWire(req).Some? && ReceivedRequest(RequestWire(req).value) == Some(req)
  {
    FitsInMessage(req);
    hide *;
    TextArrives(req);
  }

  /** Exactly these writes fit the buffer. */
  lemma PutFits(key: string, value: string)
    ensures RequestFits(Wire(Put(key, value))) <==> |key| + |value| <= 115
  {
  }

  /** The others can reach the leader all the same, and do not fit when it sends them on. */
  lemma LongPutIsReceived(key: string, value: string)
    requires Clean(Some(key)) && Clean(Some(value)) && IsField(Some(key)) && IsField(Some(value))
    requires 115 < |key| + |value| <= 8000
    ensures RequestWire(Wire(Put(key, value))).Some?
    ensures var data := RequestWire(Wire(Put(key, value))).value;
            && ClientRequest(data) == Some(Put(key, value))
            && ReceivedRequest(data).Some? && !RequestFits(ReceivedRequest(data).value)
  {
    PutFits(key, value);
    hide ReceivedRequest, RequestFits;
    TextArrives(Wire(Put(key, value)));
  }

  lemma RequestIsCString(method_: string, url: string)
    requires method_ in VALID_METHODS && IsPath(url)
    ensures IsCString(RequestText(method_, url))
  {
  }

  /** Whatever arrives, its key and value are clean. */
  lemma ReceivedIsClean(data: string)
    ensures var r := ReceivedRequest(data); r.Some? ==> Clean(r.value.key) && Clean(r.value.val)
  {
    var b := Received(data);
    var r := ParsedRequest(b);
    if r.Some? {
      PathIsCString(b);
      ParsedPathIsPlain(b);
      DecodedIsPlain(r.value.path);
    }
  }

  /** A complete request that fits the URL buffer survives the wire exactly when its key and value are clean. */
  lemma RequestArrivesIffClean(req: KvRequest)
    requires Complete(req) && IsField(req.key) && IsField(req.val) && RequestFits(req)
    ensures RequestWire(req).Some?
    ensures ReceivedRequest(RequestWire(req).value) == Some(req) <==> Clean(req.key) && Clean(req.val)
  {
    hide ReceivedRequest, RequestWire, RequestFits;
    TypeComesBack(req);
    if Clean(req.key) && Clean(req.val) {
      CleanRequestArrives(req);
    } else {
      ReceivedIsClean(RequestWire(req).value);
    }
  }

  /** A request as the handlers take it, put into the fields of a kvrequest_t. */
  function Wire(r: Request): KvRequest {
    match r
    case Index => KvRequest(INDEX, None, None)
    case Get(key) => KvRequest(GETREQ, Some(key), None)
    case Put(key, value) => KvRequest(PUTREQ, Some(key), Some(value))
    case Del(key) => KvRequest(DELREQ, Some(key), None)
    case Register(host, port) => KvRequest(REGISTER, Some(host), Some(port))
    case Commit => KvRequest(COMMIT, None, None)
    case Abort => KvRequest(ABORT, None, None)
  }

  /** What the handlers make of a received request; a value sent along with a GET or DELETE is ignored. */
  function RequestOf(req: KvRequest): (r: Request)
    requires req.typ == INDEX || Complete(req)
  {
    match req.typ
    case GETREQ => Get(req.key.value)
    case PUTREQ => Put(req.key.value, req.val.value)
    case DELREQ => Del(req.key.value)
    case REGISTER => Register(req.key.value, req.val.value)
    case COMMIT => Commit
    case ABORT => Abort
    case _ => Index
  }

  /** The request in a message as it comes from the socket; None where the handler is given NULL. */
  function ClientRequest(data: string): Option<Request> {
    match ReceivedRequest(data)
    case None => None
    case Some(req) => Some(RequestOf(req))
  }

  lemma WireComesBack(r: Request)
    requires r != Index
    ensures Complete(Wire(r)) && RequestOf(Wire(r)) == r
  {
  }

  /** What one handler sends is what the other handles, whenever a URL can carry it. */
  lemma HandlerRequestArrives(r: Request)
    requires r != Index && Clean(Wire(r).key) && Clean(Wire(r).val) && IsField(Wire(r).key) && IsField(Wire(r).val)
    requires RequestFits(Wire(r))
    ensures RequestWire(Wire(r)).Some? && ReceivedRequest(RequestWire(Wire(r)).value) == Some(Wire(r))
    ensures ClientRequest(RequestWire(Wire(r)).value) == Some(r)
    ensures forall q :: Wire(q) == Wire(r) ==> q == r
  {
    hide RequestWire, ReceivedRequest, RequestFits;
    WireComesBack(r);
    CleanRequestArrives(Wire(r));
  }

  lemma ReceivedIsComplete(data: string)
    requires ReceivedRequest(data).Some? && ReceivedRequest(data).value.typ != INDEX
    ensures var req := ReceivedRequest(data).value;
            Complete(req) && IsField(req.key) && IsField(req.val) && Clean(req.key) && Clean(req.val)
  {
    ReceivedIsClean(data);
    var b := Received(data);
    hide Received, ParsedRequest, Decoded;
    var path := ParsedRequest(b).value.path;
    PathIsCString(b);
    DecodedIsPlain(path);
  }

  /** What the leader received from a client reaches a follower unchanged when it is sent on, if it fits the URL buffer. */
  lemma ForwardedArrives(data: string)
    requires ReceivedRequest(data).Some? && ReceivedRequest(data).value.typ != INDEX
    requires RequestFits(ReceivedRequest(data).value)
    ensures var req := ReceivedRequest(data).value;
            && RequestWire(req).Some? && ReceivedRequest(RequestWire(req).value) == Some(req)
            && ClientRequest(RequestWire(req).value) == ClientRequest(data)
  {
    hide *;
    var req := ReceivedRequest(data).value;
    ReceivedIsComplete(data);
    CleanRequestArrives(req);
    SameRequest(data, RequestWire(req).value);
  }

  lemma SameRequest(data: string, other: string)
    requires ReceivedRequest(data) == ReceivedRequest(other)
    ensures ClientRequest(data) == ClientRequest(other)
  {
  }

  /** The decisions of the second phase always fit, and arrive. */
  lemma DecisionArrives(r: Request)
    requires r == Commit || r == Abort
    ensures RequestFits(Wire(r)) && RequestWire(Wire(r)).Some?
    ensures ClientRequest(RequestWire(Wire(r)).value) == Some(r)
  {
    assert RequestFits(Wire(r));
    hide RequestWire, ReceivedRequest, RequestFits;
    HandlerRequestArrives(r);
  }

  // ----- which messages are requests at all

  /** A method of the four, a space and a path that ends at `e`. */
  predicate IsRequestLine(b: string, method_: string, e: nat) {
    var s := |method_|;
    && method_ in VALID_METHODS && s + 1 < e < |b| && b[..s] == method_ && b[s] == ' ' && b[s + 1] == '/'
    && ' ' !in b[s + 1..e] && '\n' !in b[s + 1..e] && (b[e] == ' ' || b[e] == '\n')
  }

  /** The parameters that the method asks for. */
  predicate HasFields(method_: string, p: Params) {
    || method_ == "GET"
    || (method_ == "PUT" && p.key.Some? && p.val.Some?)
    || (method_ == "DELETE" && p.key.Some?)
    || (method_ == "POST" && p.path in {Some(COMMIT_PATH), Some(ABORT_PATH)})
    || (method_ == "POST" && p.path == Some(REGISTER_PATH) && p.key.Some? && p.val.Some?)
  }

  predicate IsRequest(b: string, method_: string, e: nat)
    requires IsCString(b)
  {
    IsRequestLine(b, method_, e) && HasFields(method_, Decoded(b[|method_| + 1..e]))
  }

  lemma FieldsDecide(method_: string, p: Params)
    ensures ReceivedType(method_, p) != EMPTY <==> HasFields(method_, p)
    ensures HasFields(method_, p) ==> method_ in VALID_METHODS
  {
    assert VALID_METHODS[0] == "GET" && VALID_METHODS[1] == "PUT" && VALID_METHODS[2] == "DELETE" && VALID_METHODS[3] == "POST";
  }

  lemma ParsedLine(b: string)
    requires ParsedRequest(b).Some? && ParsedRequest(b).value.method_ in VALID_METHODS
    ensures var r := ParsedRequest(b).value;
            var e := |r.method_| + 1 + |r.path|;
            IsRequestLine(b, r.method_, e) && r.path == b[|r.method_| + 1..e]
  {
    var s := StrChr(b, 0, ' ').value;
    var e := PathEnd(b, s + 2).value;
    assert b[s + 1..e] == ['/'] + b[s + 2..e];
  }

  lemma LineParses(b: string, method_: string, e: nat)
    requires IsRequestLine(b, method_, e)
    ensures ParsedRequest(b) == Some(HttpRequest(method_, b[|method_| + 1..e]))
  {
    var s := |method_|;
    assert ' ' !in method_ && b[0..s] == method_ == method_[0..s];
    StrChrIs(b, 0, ' ', s);
    StrNCmpSame(b, 0, method_, 0, s);
    assert b[s + 2..e] == b[s + 1..e][1..];
    PathEndIs(b, s + 2, e);
  }

  /** A message is a request iff it starts with a method and a path and its path has the parameters the method asks for. */
  lemma DecodedIffRequest(data: string)
    ensures ReceivedRequest(data).Some? <==> exists method_, e: nat :: IsRequest(Received(data), method_, e)
  {
    hide Received, ParsedRequest, Decoded, HasFields, ReceivedType;
    var b := Received(data);
    if ReceivedRequest(data).Some? {
      var r := ParsedRequest(b).value;
      PathIsCString(b);
      FieldsDecide(r.method_, Decoded(r.path));
      ParsedLine(b);
      assert IsRequest(b, r.method_, |r.method_| + 1 + |r.path|);
    }
    if method_, e: nat :| IsRequest(b, method_, e) {
      LineParses(b, method_, e);
      PathIsCString(b);
      FieldsDecide(method_, Decoded(b[|method_| + 1..e]));
    }
  }

  /** A client that connects and sends nothing is one that the parser answers with NULL. */
  lemma NothingIsNoRequest()
    ensures ReceivedRequest("") == None
  {
  }

  // ----- the messages spelled out

  /** Text that stands for itself in a URL. */
  predicate Spells(s: string) {
    '&' !in s && ' ' !in s && '\n' !in s && IsCString(s)
  }

  /** What a message with this request line is decoded to. */
  lemma LineDecodes(text: string, method_: string, url: string, p: Params)
    requires method_ in ["GET", "PUT", "DELETE", "POST"] && IsPath(url) && |text| <= MESSAGE_MAX
    requires text == method_ + " " + url + " HTTP/1.1\r\n\r\n" && IsCString(url) && Decoded(url) == p
    ensures var typ := ReceivedType(method_, p);
            typ != EMPTY ==> ReceivedRequest(text) == Some(KvRequest(typ, p.key, p.val))
  {
    hide Decoded, IsWord;
    assert text == RequestText(method_, url);
    RequestIsCString(method_, url);
    RequestRoundTrip(method_, url);
    ReceivesAll(text);
    hide ReceivedRequest, RequestText, ReceivedType, IsPath;
    if ReceivedType(method_, p) != EMPTY {
      Receives(text, method_, url, p, ReceivedType(method_, p));
    }
  }

  lemma ItemsArePath(path: string, items: string)
    requires Spells(path) && IsWord(items)
    ensures IsPath("/" + path + "?" + items)
  {
  }

  /** A request line with parameters. */
  lemma ItemsDecode(text: string, method_: string, path: string, items: seq<string>, p: Params)
    requires method_ in ["GET", "PUT", "DELETE", "POST"] && Spells(path) && '?' !in path && |text| <= MESSAGE_MAX
    requires items != [] && AreItems(items) && IsWord(Joined(items))
    requires text == method_ + " " + ("/" + path + "?" + Joined(items)) + " HTTP/1.1\r\n\r\n"
    requires p == Params(if path == "" then None else Some(path), KeyIn(items), ValIn(items))
    ensures var typ := ReceivedType(method_, p);
            typ != EMPTY ==> ReceivedRequest(text) == Some(KvRequest(typ, p.key, p.val))
  {
    hide *;
    SpellsIsText(path);
    DecodedIs(path, items);
    ItemsArePath(path, Joined(items));
    LineDecodes(text, method_, "/" + path + "?" + Joined(items), p);
  }

  lemma SpellsIsText(s: string)
    requires Spells(s)
    ensures IsCString(s) && Plain(Some(s))
  {
  }

  /** The items of a key and a value are words. */
  lemma ItemsAreWords(key: string, val: string)
    requires Spells(key) && Spells(val)
    ensures IsWord("key=" + key) && IsWord("key=" + key + "&" + ("val=" + val)) && IsWord("val=" + val + "&" + ("key=" + key))
  {
  }

  lemma NothingSpells()
    ensures Spells("") && Spells("register")
  {
  }

  lemma OneField(text: string, method_: string, key: string)
    requires method_ in ["GET", "PUT", "DELETE", "POST"] && Spells(key) && |text| <= MESSAGE_MAX
    requires text == method_ + " " + ("/" + "" + "?" + ("key=" + key)) + " HTTP/1.1\r\n\r\n"
    ensures var typ := ReceivedType(method_, Params(None, Some(key), None));
            typ != EMPTY ==> ReceivedRequest(text) == Some(KvRequest(typ, Some(key), None))
  {
    hide *;
    SpellsIsText(key);
    KeyAndValue(key, key);
    ItemsAreWords(key, key);
    NothingSpells();
    ItemsDecode(text, method_, "", ["key=" + key], Params(None, Some(key), None));
  }

  lemma TwoFields(text: string, other: string, method_: string, path: string, key: string, val: string)
    requires method_ in ["GET", "PUT", "DELETE", "POST"] && Spells(path) && '?' !in path && Spells(key) && Spells(val)
    requires |text| <= MESSAGE_MAX && |other| <= MESSAGE_MAX
    requires text == method_ + " " + ("/" + path + "?" + ("key=" + key + "&" + ("val=" + val))) + " HTTP/1.1\r\n\r\n"
    requires other == method_ + " " + ("/" + path + "?" + ("val=" + val + "&" + ("key=" + key))) + " HTTP/1.1\r\n\r\n"
    ensures var typ := ReceivedType(method_, Params(if path == "" then None else Some(path), Some(key), Some(val)));
            typ != EMPTY ==> ReceivedRequest(text) == ReceivedRequest(other) == Some(KvRequest(typ, Some(key), Some(val)))
  {
    hide *;
    SpellsIsText(key);
    SpellsIsText(val);
    KeyAndValue(key, val);
    ItemsAreWords(key, val);
    var k, v, p := "key=" + key, "val=" + val, Params(if path == "" then None else Some(path), Some(key), Some(val));
    ItemsDecode(text, method_, path, [k, v], p);
    ItemsDecode(other, method_, path, [v, k], p);
  }

  /** Reads and deletes, byte for byte. */
  lemma ReadAndDeleteSpelledOut(key: string)
    requires Spells(key) && |key| <= 8000
    ensures ClientRequest("GET /?key=" + key + " HTTP/1.1\r\n\r\n") == Some(Get(key))
    ensures ClientRequest("DELETE /?key=" + key + " HTTP/1.1\r\n\r\n") == Some(Del(key))
  {
    hide *;
    KeyStarts();
    ThreeParts("GET ", "/" + "" + "?", "key=", key, " HTTP/1.1\r\n\r\n");
    ThreeParts("DELETE ", "/" + "" + "?", "key=", key, " HTTP/1.1\r\n\r\n");
    OneField("GET /?key=" + key + " HTTP/1.1\r\n\r\n", "GET", key);
    OneField("DELETE /?key=" + key + " HTTP/1.1\r\n\r\n", "DELETE", key);
    KeyTypes(key);
    Handled("GET /?key=" + key + " HTTP/1.1\r\n\r\n");
    Handled("DELETE /?key=" + key + " HTTP/1.1\r\n\r\n");
  }

  lemma KeyStarts()
    ensures "GET /?key=" == "GET " + ("/" + "" + "?") + "key=" && "DELETE /?key=" == "DELETE " + ("/" + "" + "?") + "key="
    ensures "GET" + " " == "GET " && "DELETE" + " " == "DELETE " && MESSAGE_MAX == 8192 && |" HTTP/1.1\r\n\r\n"| == 13
  {
  }

  lemma ThreeParts(a: string, b: string, n: string, v: string, tail: string)
    ensures (a + b + n) + v + tail == a + (b + (n + v)) + tail
  {
  }

  lemma KeyTypes(key: string)
    ensures ReceivedType("GET", Params(None, Some(key), None)) == GETREQ && RequestOf(KvRequest(GETREQ, Some(key), None)) == Get(key)
    ensures ReceivedType("DELETE", Params(None, Some(key), None)) == DELREQ && RequestOf(KvRequest(DELREQ, Some(key), None)) == Del(key)
  {
  }

  lemma Handled(text: string)
    requires ReceivedRequest(text).Some?
    ensures ClientRequest(text) == Some(RequestOf(ReceivedRequest(text).value))
  {
    hide ReceivedRequest;
  }

  /** Writes and registrations, byte for byte, whichever of the two parameters comes first. */
  lemma WriteSpelledOut(key: string, val: string)
    requires Spells(key) && Spells(val) && |key| + |val| <= 8000
    ensures ClientRequest("PUT /?key=" + key + "&val=" + val + " HTTP/1.1\r\n\r\n") == Some(Put(key, val))
    ensures ClientRequest("PUT /?val=" + val + "&key=" + key + " HTTP/1.1\r\n\r\n") == Some(Put(key, val))
  {
    var text := "PUT /?key=" + key + "&val=" + val + " HTTP/1.1\r\n\r\n";
    var other := "PUT /?val=" + val + "&key=" + key + " HTTP/1.1\r\n\r\n";
    NothingSpells();
    hide ReceivedRequest, Spells;
    WriteLine("key=", key, "&", "val=", val, " HTTP/1.1\r\n\r\n");
    WriteLine("val=", val, "&", "key=", key, " HTTP/1.1\r\n\r\n");
    WriteStarts();
    TwoFields(text, other, "PUT", "", key, val);
  }

  lemma WriteStarts()
    ensures "PUT /?key=" == "PUT /?" + "key=" && "PUT /?val=" == "PUT /?" + "val="
    ensures "&val=" == "&" + "val=" && "&key=" == "&" + "key="
  {
  }

  lemma WriteLine(n: string, v: string, c: string, m: string, w: string, tail: string)
    ensures ("PUT /?" + n) + v + (c + m) + w + tail == "PUT" + " " + ("/" + "" + "?" + (n + v + c + (m + w))) + tail
  {
    assert "PUT /?" == "PUT" + " " + ("/" + "" + "?");
    FourParts("PUT" + " ", "/" + "" + "?", n, v, c, m, w, tail);
  }

  lemma RegistrationSpelledOut(host: string, port: string)
    requires Spells(host) && Spells(port) && |host| + |port| <= 8000
    ensures ClientRequest("POST /register?key=" + host + "&val=" + port + " HTTP/1.1\r\n\r\n") == Some(Register(host, port))
    ensures ClientRequest("POST /register?val=" + port + "&key=" + host + " HTTP/1.1\r\n\r\n") == Some(Register(host, port))
  {
    var text := "POST /register?key=" + host + "&val=" + port + " HTTP/1.1\r\n\r\n";
    var other := "POST /register?val=" + port + "&key=" + host + " HTTP/1.1\r\n\r\n";
    NothingSpells();
    hide ReceivedRequest, Spells;
    RegisterLine("key=", host, "&", "val=", port, " HTTP/1.1\r\n\r\n");
    RegisterLine("val=", port, "&", "key=", host, " HTTP/1.1\r\n\r\n");
    RegisterStarts();
    TwoFields(text, other, "POST", "register", host, port);
  }

  lemma RegisterStarts()
    ensures "POST /register?key=" == "POST /register?" + "key=" && "POST /register?val=" == "POST /register?" + "val="
    ensures "&val=" == "&" + "val=" && "&key=" == "&" + "key="
  {
  }

  lemma RegisterLine(n: string, v: string, c: string, m: string, w: string, tail: string)
    ensures ("POST /register?" + n) + v + (c + m) + w + tail
         == "POST" + " " + ("/" + "register" + "?" + (n + v + c + (m + w))) + tail
  {
    assert "POST /register?" == "POST" + " " + ("/" + "register" + "?");
    FourParts("POST" + " ", "/" + "register" + "?", n, v, c, m, w, tail);
  }

  lemma FourParts(a: string, b: string, n: string, v: string, c: string, m: string, w: string, tail: string)
    ensures (a + b + n) + v + (c + m) + w + tail == a + (b + (n + v + c + (m + w))) + tail
  {
  }

  lemma DecisionsSpelledOut()
    ensures ClientRequest("POST /commit HTTP/1.1\r\n\r\n") == Some(Commit)
    ensures ClientRequest("POST /abort HTTP/1.1\r\n\r\n") == Some(Abort)
    ensures ClientRequest("GET / HTTP/1.1\r\n\r\n") == Some(Index)
  {
    hide ReceivedRequest;
    IndexLine("GET / HTTP/1.1\r\n\r\n");
    DecisionLine("POST /commit HTTP/1.1\r\n\r\n", "commit");
    DecisionLine("POST /abort HTTP/1.1\r\n\r\n", "abort");
  }

  lemma IndexLine(text: string)
    requires text == "GET" + " " + "/" + " HTTP/1.1\r\n\r\n"
    ensures ReceivedRequest(text) == Some(KvRequest(INDEX, None, None))
  {
    ReadsPathOnly(None);
    assert "/" + "" == "/" && IsPath("/");
    hide ReceivedRequest, Decoded, IsPath, IsCString;
    LineDecodes(text, "GET", "/", Params(None, None, None));
  }

  lemma DecisionLine(text: string, path: string)
    requires path == "commit" || path == "abort"
    requires text == "POST" + " " + ("/" + path) + " HTTP/1.1\r\n\r\n"
    ensures ReceivedRequest(text) == Some(KvRequest(if path == "commit" then COMMIT else ABORT, None, None))
  {
    ReadsPathOnly(Some(path));
    PathIsWord(path);
    hide ReceivedRequest, Decoded, IsPath, IsCString;
    LineDecodes(text, "POST", "/" + path, Params(Some(path), None, None));
  }

  lemma PathIsWord(path: string)
    requires path == "commit" || path == "abort"
    ensures IsPath("/" + path) && PlainPath(Some(path))
  {
  }

  /** And what is printed for each request, within the buffer or not. */
  lemma ReadAndDeletePrinted(key: string)
    ensures RequestWire(Wire(Get(key))) == Some("GET /?key=" + key + " HTTP/1.1\r\n\r\n")
    ensures RequestWire(Wire(Del(key))) == Some("DELETE /?key=" + key + " HTTP/1.1\r\n\r\n")
  {
    hide RequestWire;
    PrintedOne(Get(key), "GET", key);
    PrintedOne(Del(key), "DELETE", key);
    assert "GET /?key=" + key + " HTTP/1.1\r\n\r\n" == "GET" + " " + ("/" + "" + "?" + ("key=" + key)) + " HTTP/1.1\r\n\r\n";
    assert "DELETE /?key=" + key + " HTTP/1.1\r\n\r\n" == "DELETE" + " " + ("/" + "" + "?" + ("key=" + key)) + " HTTP/1.1\r\n\r\n";
  }

  lemma WritePrinted(key: string, val: string)
    ensures RequestWire(Wire(Put(key, val))) == Some("PUT /?key=" + key + "&val=" + val + " HTTP/1.1\r\n\r\n")
  {
    hide RequestWire;
    PrintedTwo(Put(key, val), "PUT", "", key, val);
    assert "PUT /?key=" + key + "&val=" + val + " HTTP/1.1\r\n\r\n"
        == "PUT" + " " + ("/" + "" + "?" + ("key=" + key + "&" + ("val=" + val))) + " HTTP/1.1\r\n\r\n";
  }

  lemma RegistrationPrinted(host: string, port: string)
    ensures RequestWire(Wire(Register(host, port))) == Some("POST /register?key=" + host + "&val=" + port + " HTTP/1.1\r\n\r\n")
  {
    hide RequestWire;
    PrintedTwo(Register(host, port), "POST", "register", host, port);
    RegisterStarts();
    RegisterLine("key=", host, "&", "val=", port, " HTTP/1.1\r\n\r\n");
  }

  lemma PrintedOne(r: Request, method_: string, key: string)
    requires (r == Get(key) && method_ == "GET") || (r == Del(key) && method_ == "DELETE")
    ensures RequestWire(Wire(r)) == Some(method_ + " " + ("/" + "" + "?" + ("key=" + key)) + " HTTP/1.1\r\n\r\n")
  {
    EncodedText(Params(None, Some(key), None));
    hide Encoded;
    TailIs(method_, UrlOf(Wire(r)));
  }

  lemma PrintedTwo(r: Request, method_: string, path: string, key: string, val: string)
    requires (r == Put(key, val) && method_ == "PUT" && path == "") || (r == Register(key, val) && method_ == "POST" && path == "register")
    ensures RequestWire(Wire(r)) == Some(method_ + " " + ("/" + path + "?" + ("key=" + key + "&" + ("val=" + val))) + " HTTP/1.1\r\n\r\n")
  {
    EncodedText(Params(PathFor(Wire(r).typ), Some(key), Some(val)));
    hide Encoded;
    var front := "/" + path;
    assert front + "?" + ("key=" + key) + "&" + ("val=" + val) == front + "?" + ("key=" + key + "&" + ("val=" + val));
    TailIs(method_, UrlOf(Wire(r)));
  }

  lemma TailIs(method_: string, url: string)
    ensures RequestText(method_, url) == method_ + " " + url + " HTTP/1.1\r\n\r\n"
  {
    assert " HTTP/1.1\r\n" + "\r\n" == " HTTP/1.1\r\n\r\n";
  }

  // ----- responses

  /** The text of a response; None where kvresponse_send returns -1. */
  function ResponseWire(res: Response): Option<string> {
    match ResponseMessage(CodeFor(res.typ))
    case None => None
    case Some(message) => Some(ResponseText(CodeFor(res.typ), message, if res.body.Some? then res.body.value else ""))
  }

  /** kvresponse_send. */
  method KvResponseSend(res: Response, writes: seq<int>) returns (ret: int, sent: string)
    requires ResponseWire(res).Some? ==> |ResponseWire(res).value| <= MESSAGE_MAX
    ensures ResponseWire(res).None? ==> ret == -1 && sent == ""
    ensures ResponseWire(res).Some? ==>
      if ret < 0 then sent <= ResponseWire(res).value else ret == |sent| && sent == ResponseWire(res).value
  {
    var code := CodeFor(res.typ);
    if code < 0 {
      return -1, "";
    }
    var status := ResponseMessage(code);
    if status.None? {
      return -1, "";
    }
    var body := if res.body.Some? then res.body.value else "";
    ghost var text := ResponseText(code, status.value, body);
    var lenbuf := "0";
    if res.body.Some? {
      lenbuf := Decimal(|res.body.value|);
    }
    ZeroIsZero();
    var line := "HTTP/1.1 " + Decimal(code) + " " + status.value + CRLF;
    var header := LENGTH_HEADER + lenbuf + CRLF;
    Regroup("HTTP/1.1 " + Decimal(code) + " " + status.value + CRLF, LENGTH_HEADER, lenbuf, CRLF, body);
    assert text == line + header + CRLF + body;
    ret, sent := SendParts(line, header, CRLF, body, writes);
  }

  lemma Regroup(a: string, l: string, n: string, c: string, body: string)
    ensures a + l + n + c + c + body == a + (l + n + c) + c + body
  {
  }

  /** http_start_response, http_add_header, http_end_headers, http_add_string, http_send_and_free. */
  method SendParts(line: string, header: string, blank: string, body: string, writes: seq<int>) returns (ret: int, sent: string)
    requires |line| + |header| + |blank| + |body| <= MESSAGE_MAX
    ensures var text := line + header + blank + body;
            if ret < 0 then sent <= text else ret == |sent| && sent == text
  {
    var msg := new Outbound();
    msg.Add(line);
    msg.Add(header);
    msg.Add(blank);
    msg.Add(body);
    assert msg.Text() == line + header + blank + body;
    ret, sent := msg.Send(writes);
  }

  lemma ZeroIsZero()
    ensures Decimal(0) == "0"
  {
  }

  datatype Receipt = Answer(res: Response) | NoAnswer | Crash

  /** What kvresponse_recieve makes of the bytes it reads. */
  function ReceivedResponse(data: string): Receipt {
    match ParsedResponse(Received(data))
    case Malformed => NoAnswer
    case Undefined => Crash
    case Parsed(status, _, body) =>
      if TypeFor(status) == EMPTY then NoAnswer else Answer(Response(TypeFor(status), Some(body)))
  }

  /** kvresponse_recieve. */
  method KvResponseReceive(data: string) returns (r: Receipt)
    ensures r == ReceivedResponse(data)
  {
    hide ParsedResponse, Received;
    var res := HttpResponseParse(data);
    match res {
      case Malformed => r := NoAnswer;
      case Undefined => r := Crash;
      case Parsed(status, length, body) =>
        var typ := TypeFor(status);
        if typ == EMPTY {
          r := NoAnswer;
        } else {
          r := Answer(Response(typ, Some(body)));
        }
    }
  }

  lemma CodesMatch(res: Response)
    requires CodeFor(res.typ) >= 0
    ensures CodeFor(res.typ) in {200, 201, 202, 204, 500}
    ensures ResponseMessage(CodeFor(res.typ)).Some? && TypeFor(CodeFor(res.typ)) == res.typ && res.typ != EMPTY
    ensures ResponseWire(res) == Some(ResponseText(CodeFor(res.typ), ResponseMessage(CodeFor(res.typ)).value,
                                                   if res.body.Some? then res.body.value else ""))
  {
    hide ResponseText;
  }

  lemma Answers(data: string, status: int, length: int, body: string)
    requires ParsedResponse(Received(data)) == Parsed(status, length, body) && TypeFor(status) != EMPTY
    ensures ReceivedResponse(data) == Answer(Response(TypeFor(status), Some(body)))
  {
    hide ParsedResponse, Received, TypeFor;
  }

  /** A response arrives with its type and body, a missing body as an empty one; its length header is its body's length. */
  lemma ResponseArrives(res: Response)
    requires CodeFor(res.typ) >= 0 && IsField(res.body)
    requires ResponseWire(res).Some? && |ResponseWire(res).value| <= MESSAGE_MAX
    ensures var body := if res.body.Some? then res.body.value else "";
            && ReceivedResponse(ResponseWire(res).value) == Answer(Response(res.typ, Some(body)))
            && ParsedResponse(ResponseWire(res).value) == Parsed(CodeFor(res.typ), |body|, body)
  {
    var body, code := if res.body.Some? then res.body.value else "", CodeFor(res.typ);
    assert IsCString(body);
    hide *;
    CodesMatch(res);
    var message := ResponseMessage(code).value;
    ResponseIsCString(code, message, body);
    ResponseRoundTrip(code, message, body);
    ReceivesAll(ResponseText(code, message, body));
    Answers(ResponseText(code, message, body), code, |body|, body);
  }

  lemma ResponseIsCString(code: int, message: string, body: string)
    requires ResponseMessage(code) == Some(message) && code in {200, 201, 202, 204, 500} && IsCString(body)
    ensures IsCString(ResponseText(code, message, body))
  {
    MessagesAreLines(code);
    hide ResponseMessage, Decimal;
    assert IsCString(Decimal(code)) && IsCString(Decimal(|body|)) by {
      DecimalIsCString(code);
      DecimalIsCString(|body|);
    }
  }

  lemma DecimalIsCString(n: nat)
    ensures IsCString(Decimal(n))
  {
  }

  // ----- the responses spelled out

  /** The code and the words that stand for each type of answer. */
  predicate Stands(typ: MsgType, line: string) {
    || (typ == GETRESP && line == "200 OK")
    || (typ == SUCCESS && line == "201 Created")
    || (typ == VOTE && line == "202 Accepted")
    || (typ == ACK && line == "204 No Content")
    || (typ == ERROR && line == "500 Internal Server Error")
  }

  lemma CodeIs(a: nat, b: nat, c: nat)
    requires 0 < a < 10 && b < 10 && c < 10
    ensures Decimal(100 * a + 10 * b + c) == ["0123456789"[a], "0123456789"[b], "0123456789"[c]]
  {
    DecimalNotation(0, a);
    DecimalNotation(a, b);
    DecimalNotation(10 * a + b, c);
    hide Digits;
  }

  lemma CodesAreText()
    ensures Decimal(200) == "200" && Decimal(201) == "201" && Decimal(202) == "202" && Decimal(204) == "204" && Decimal(500) == "500"
  {
    hide Decimal;
    CodeIs(2, 0, 0);
    CodeIs(2, 0, 1);
    CodeIs(2, 0, 2);
    CodeIs(2, 0, 4);
    CodeIs(5, 0, 0);
  }

  lemma MessagesAre()
    ensures ResponseMessage(200) == Some("OK") && ResponseMessage(201) == Some("Created") && ResponseMessage(202) == Some("Accepted")
    ensures ResponseMessage(204) == Some("No Content") && ResponseMessage(500) == Some("Internal Server Error")
  {
  }

  lemma LineIs(typ: MsgType, line: string) returns (code: int, message: string)
    requires Stands(typ, line)
    ensures code == CodeFor(typ) >= 0 && TypeFor(code) == typ != EMPTY
    ensures ResponseMessage(code) == Some(message) && Decimal(code) + " " + message == line
  {
    CodesAreText();
    MessagesAre();
    hide Decimal, ResponseMessage;
    code := CodeFor(typ);
    message := ResponseMessage(code).value;
    Spaced(typ);
  }

  lemma Spaced(typ: MsgType)
    ensures typ == GETRESP ==> "200" + " " + "OK" == "200 OK"
    ensures typ == SUCCESS ==> "201" + " " + "Created" == "201 Created"
    ensures typ == VOTE ==> "202" + " " + "Accepted" == "202 Accepted"
    ensures typ == ACK ==> "204" + " " + "No Content" == "204 No Content"
    ensures typ == ERROR ==> "500" + " " + "Internal Server Error" == "500 Internal Server Error"
  {
  }

  /** How each answer is printed. */
  lemma ResponsePrinted(typ: MsgType, line: string, body: string)
    requires Stands(typ, line)
    ensures ResponseWire(Response(typ, Some(body))) ==
              Some("HTTP/1.1 " + line + "\r\n" + "Content-Length: " + Decimal(|body|) + "\r\n" + "\r\n" + body)
    ensures ResponseWire(Response(typ, None)) == ResponseWire(Response(typ, Some("")))
  {
    var code, message := LineIs(typ, line);
    hide Stands, CodeFor, TypeFor, ResponseMessage, Decimal;
    assert "HTTP/1.1 " + Decimal(code) + " " + message == "HTTP/1.1 " + (Decimal(code) + " " + message);
  }

  /** And what bytes are taken for it, from either version and whatever length they announce. */
  lemma ResponseDecoded(text: string, typ: MsgType, line: string, v: string, n: nat, body: string)
    requires Stands(typ, line) && (v == "HTTP/1.1" || v == "HTTP/1.0") && IsCString(body) && |text| <= MESSAGE_MAX
    requires text == v + " " + line + "\r\n" + "Content-Length: " + Decimal(n) + "\r\n" + "\r\n" + body
    ensures ReceivedResponse(text) == Answer(Response(typ, Some(body)))
  {
    var code, message := LineIs(typ, line);
    hide *;
    StandsIsText(typ, line);
    DecimalIsCString(n);
    ResponseBytes(v, line, Decimal(n), body);
    LineJoins(v, Decimal(code), message, Decimal(n), body);
    VersionAndNames(v);
    AnyResponseParses(text, v, code, message, n, body);
    ReceivesAll(text);
    Answers(text, code, n, body);
  }

  lemma LineJoins(v: string, code: string, message: string, n: string, body: string)
    ensures v + " " + (code + " " + message) + "\r\n" + "Content-Length: " + n + "\r\n" + "\r\n" + body
         == v + " " + code + " " + message + "\r\n" + "Content-Length: " + n + "\r\n" + "\r\n" + body
  {
    assert v + " " + (code + " " + message) == v + " " + code + " " + message;
  }

  lemma VersionAndNames(v: string)
    ensures v == "HTTP/1.1" || v == "HTTP/1.0" ==> IsVersion(v)
    ensures CRLF == "\r\n" && LENGTH_HEADER == "Content-Length: "
  {
  }

  lemma StandsIsText(typ: MsgType, line: string)
    requires Stands(typ, line)
    ensures IsCString(line)
  {
  }

  lemma ResponseBytes(v: string, line: string, n: string, body: string)
    requires (v == "HTTP/1.1" || v == "HTTP/1.0") && IsCString(line) && IsCString(n) && IsCString(body)
    ensures IsCString(v + " " + line + "\r\n" + "Content-Length: " + n + "\r\n" + "\r\n" + body)
  {
  }
}
