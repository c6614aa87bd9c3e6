/** liburl.c: the path and the two parameters of a request, as a URL. */
module UrlCodec {
  import opened Common
  import opened CStrings

  /** struct url_params. */
  datatype Params = Params(path: Option<string>, key: Option<string>, val: Option<string>)

  const URL_BUFFER: nat := 128

  // ----- encoding

  const KEY: string := "key="
  const VAL: string := "val="

  function Optional(name: string, value: Option<string>): string {
    if value.Some? then name + value.value + "&" else ""
  }

  function PathText(p: Params): string {
    if p.path.Some? then p.path.value else ""
  }

  /** Everything url_encode prints; the last character is then cut off. */
  function Printed(p: Params): (s: string)
    ensures s != []
  {
    "/" + PathText(p) + "?" + Optional(KEY, p.key) + Optional(VAL, p.val)
  }

  function Encoded(p: Params): string {
    Printed(p)[..|Printed(p)| - 1]
  }

  /** url_encode. */
  method UrlEncode(params: Params) returns (url: string)
    requires |Printed(params)| < URL_BUFFER
    ensures url == Encoded(params)
    ensures PlainPath(params.path) && Plain(params.key) && Plain(params.val) ==> IsCString(url) && Decoded(url) == params
  {
    hide Optional, Decoded, PlainPath, Plain;
    if PlainPath(params.path) && Plain(params.key) && Plain(params.val) {
      UrlRoundTrip(params);
    }
    NothingOptional(KEY);
    NothingOptional(VAL);
    var buf: string;
    if params.path.Some? {
      buf := "/" + params.path.value + "?";
    } else {
      buf := "/?";
    }
    assert buf == "/" + PathText(params) + "?";
    if params.key.Some? {
      SomeOptional(KEY, params.key.value);
      buf := buf + (KEY + params.key.value + "&");
    }
    assert buf == "/" + PathText(params) + "?" + Optional(KEY, params.key);
    if params.val.Some? {
      SomeOptional(VAL, params.val.value);
      buf := buf + (VAL + params.val.value + "&");
    }
    assert buf == Printed(params);
    url := buf[..|buf| - 1];
  }

  lemma NothingOptional(name: string)
    ensures Optional(name, None) == ""
  {
  }

  lemma SomeOptional(name: string, value: string)
    ensures Optional(name, Some(value)) == name + value + "&"
  {
  }

  // ----- decoding

  datatype Slot = KeySlot | ValSlot | NoSlot

  function NameOf(slot: Slot): (s: string)
    requires slot != NoSlot
    ensures |s| == 4
  {
    if slot == KeySlot then KEY else VAL
  }

  /** param_ptr: any prefix of a name will do for it. */
  function ParamPtr(b: string, at: nat, keylen: nat): Slot {
    if StrNCmp(b, at, "key", 0, keylen) then KeySlot
    else if StrNCmp(b, at, "val", 0, keylen) then ValSlot
    else NoSlot
  }

  /** Which names are taken for which parameter: the prefixes of its name, and the empty name for a key. */
  lemma ParamNames(b: string, at: nat, keylen: nat)
    requires IsCString(b) && at + keylen <= |b|
    ensures ParamPtr(b, at, keylen) == KeySlot <==> b[at..at + keylen] <= "key"
    ensures ParamPtr(b, at, keylen) == ValSlot <==> keylen != 0 && b[at..at + keylen] <= "val"
  {
    StrNCmpIsPrefix(b, at, "key", keylen);
    StrNCmpIsPrefix(b, at, "val", keylen);
    if keylen != 0 {
      var name := b[at..at + keylen];
      assert name <= "key" ==> name[0] == 'k';
      assert name <= "val" ==> name[0] == 'v';
    }
  }

  /** So `k` and nothing at all will do for the name of the key. */
  lemma ShortNames()
    ensures Decoded("/?k=x") == Decoded("/?=x") == Params(None, Some("x"), None)
  {
    assert "/?k=x"[4..5] == "x" && "/?=x"[3..4] == "x";
  }

  function Store(p: Params, slot: Slot, value: string): Params {
    match slot
    case KeySlot => p.(key := Some(value))
    case ValSlot => p.(val := Some(value))
    case NoSlot => p
  }

  /** Where the parameter at `at` ends. */
  function ParamEnd(b: string, at: nat): (e: nat)
    requires at <= |b|
    ensures at <= e <= |b| && '&' !in b[at..e] && (e < |b| ==> b[e] == '&')
  {
    match StrChr(b, at, '&')
    case None => |b|
    case Some(i) => i
  }

  lemma NameHasNoAmpersand(b: string, at: nat, keyEnd: nat, name: string)
    requires IsCString(b) && IsCString(name) && at <= keyEnd <= |b| && StrNCmp(b, at, name, 0, keyEnd - at)
    requires '&' !in name
    ensures forall j :: at <= j < keyEnd ==> b[j] != '&'
  {
    StrNCmpText(b, at, name, 0, keyEnd - at, keyEnd - at);
    forall j | at <= j < keyEnd ensures b[j] != '&' {
      assert b[j] == b[at..keyEnd][j - at] == name[j - at];
    }
  }

  /** The length handed to malloc and strncpy is never negative: a known name has its `=` before the next `&`. */
  lemma KnownNameEndsFirst(b: string, at: nat, keyEnd: nat)
    requires IsCString(b) && StrChr(b, at, '=') == Some(keyEnd) && ParamPtr(b, at, keyEnd - at) != NoSlot
    ensures keyEnd < ParamEnd(b, at)
  {
    NameHasNoAmpersand(b, at, keyEnd, if ParamPtr(b, at, keyEnd - at) == KeySlot then "key" else "val");
  }

  /** The loop of url_decode, from the parameter at `at`. */
  function DecodedFrom(b: string, at: nat, p: Params): Params
    requires IsCString(b) && at <= |b|
    decreases |b| - at
  {
    match StrChr(b, at, '=')
    case None => p
    case Some(keyEnd) =>
      var readEnd := ParamEnd(b, at);
      var slot := ParamPtr(b, at, keyEnd - at);
      var q :=
        if slot == NoSlot then p
        else (KnownNameEndsFirst(b, at, keyEnd); Store(p, slot, b[keyEnd + 1..readEnd]));
      if readEnd == |b| then q else DecodedFrom(b, readEnd + 1, q)
  }

  /** One turn of the loop. */
  lemma DecodesOne(b: string, at: nat, p: Params)
    requires IsCString(b) && at <= |b|
    ensures StrChr(b, at, '=').None? ==> DecodedFrom(b, at, p) == p
    ensures StrChr(b, at, '=').Some? ==>
      var keyEnd, readEnd := StrChr(b, at, '=').value, ParamEnd(b, at);
      var slot := ParamPtr(b, at, keyEnd - at);
      && (slot != NoSlot ==> keyEnd < readEnd)
      && var q := if slot == NoSlot then p else Store(p, slot, b[keyEnd + 1..readEnd]);
         DecodedFrom(b, at, p) == if readEnd == |b| then q else DecodedFrom(b, readEnd + 1, q)
  {
    hide ParamPtr, ParamEnd, Store;
    var eq := StrChr(b, at, '=');
    if eq.Some? && ParamPtr(b, at, eq.value - at) != NoSlot {
      KnownNameEndsFirst(b, at, eq.value);
    }
  }

  /** What url_decode makes of a URL. */
  function Decoded(b: string): Params
    requires IsCString(b)
  {
    match StrChr(b, 0, '?')
    case None => Params(if |b| > 1 then Some(b[1..]) else None, None, None)
    case Some(q) => DecodedFrom(b, q + 1, Params(if q > 1 then Some(b[1..q]) else None, None, None))
  }

  /** url_decode. */
  method UrlDecode(url: string) returns (params: Params)
    requires IsCString(url)
    ensures params == Decoded(url)
  {
    params := Params(None, None, None);
    var question := StrChr(url, 0, '?');
    if question.None? {
      if |url| > 1 {
        params := params.(path := Some(url[1..]));
      }
      return;
    }
    var readEnd := question.value;
    if readEnd > 1 {
      params := params.(path := Some(url[1..readEnd]));
    }
    params := DecodeLoop(url, readEnd, params);
  }

  /** The loop over the parameters, from the question mark on. */
  method DecodeLoop(url: string, question: nat, params0: Params) returns (params: Params)
    requires IsCString(url) && question < |url|
    ensures params == DecodedFrom(url, question + 1, params0)
  {
    hide *;
    params := params0;
    var readEnd: nat, at: nat := question, question + 1;
    EndsAt(url, readEnd);
    while CharAt(url, readEnd) != NUL
      invariant readEnd <= |url| && at == readEnd + 1 && (CharAt(url, readEnd) == NUL <==> readEnd == |url|)
      invariant DecodedFrom(url, question + 1, params0) == if readEnd < |url| then DecodedFrom(url, at, params) else params
      decreases |url| - readEnd
    {
      DecodesOne(url, at, params);
      var keyEnd := StrChr(url, at, '=');
      if keyEnd.None? {
        break;
      }
      readEnd := ParamEnd(url, at);
      EndsAt(url, readEnd);
      var slot := ParamPtr(url, at, keyEnd.value - at);
      if slot == NoSlot {
        EndsAt(url, at);
        if CharAt(url, at) == NUL {
          return;
        }
        at := readEnd + 1;
        continue;
      }
      params := Store(params, slot, url[keyEnd.value + 1..readEnd]);
      at := readEnd + 1;
    }
  }

  // ----- round trip

  /** Text that ends neither a parameter nor a C string. */
  predicate Plain(s: Option<string>) {
    s.Some? ==> IsCString(s.value) && '&' !in s.value
  }

  /** A path url_decode can give back. */
  predicate PlainPath(s: Option<string>) {
    s.Some? ==> IsCString(s.value) && s.value != [] && '?' !in s.value
  }

  lemma NameSlot(b: string, at: nat, slot: Slot)
    requires slot != NoSlot && StartsAt(b, at, NameOf(slot))
    ensures ParamPtr(b, at, 3) == slot
  {
    var n := if slot == KeySlot then "key" else "val";
    assert b[at..at + 3] == b[at..at + 4][..3] == n;
    StrNCmpSame(b, at, n, 0, 3);
    if slot == ValSlot {
      assert b[at] == b[at..at + 3][0] == 'v';
    }
  }

  lemma Slices(x: string, t: string, z: string)
    ensures (x + t + z)[|x|..|x| + |t|] == t && (x + t + z)[|x| + |t|..] == z
  {
  }

  /** Where a parameter url_encode wrote is found. */
  lemma FindsParam(x: string, slot: Slot, value: string, z: string)
    requires slot != NoSlot && '&' !in value && (z == "" || z[0] == '&')
    ensures var b, at, e := x + (NameOf(slot) + value) + z, |x|, |x| + 4 + |value|;
            && StrChr(b, at, '=') == Some(at + 3) && ParamPtr(b, at, 3) == slot
            && ParamEnd(b, at) == e && b[at + 4..e] == value
  {
    var name := NameOf(slot);
    assert '&' !in name && '=' !in name[..3] && name[3] == '=';
    FindsText(x, name, value, z);
    NameSlot(x + (name + value) + z, |x|, slot);
  }

  lemma FindsText(x: string, name: string, value: string, z: string)
    requires |name| == 4 && '&' !in name && '=' !in name[..3] && name[3] == '='
    requires '&' !in value && (z == "" || z[0] == '&')
    ensures var b, at, e := x + (name + value) + z, |x|, |x| + 4 + |value|;
            && StrChr(b, at, '=') == Some(at + 3) && StartsAt(b, at, name)
            && ParamEnd(b, at) == e && b[at + 4..e] == value
  {
    hide StrChr;
    var text := name + value;
    var b, at, e := x + text + z, |x|, |x| + 4 + |value|;
    Slices(x, text, z);
    assert b[at..at + 4] == text[..4] == name;
    assert b[at..at + 3] == name[..3];
    assert b[at + 3] == text[3];
    StrChrIs(b, at, '=', at + 3);
    assert b[at + 4..e] == text[4..] == value;
    if z != "" {
      assert b[e] == z[0];
      StrChrIs(b, at, '&', e);
    } else {
      assert b[at..] == text;
    }
  }

  /** A parameter url_encode wrote is read back. */
  lemma ReadsParam(x: string, slot: Slot, value: string, z: string, p: Params)
    requires slot != NoSlot && IsCString(x + (NameOf(slot) + value) + z) && '&' !in value && (z == "" || z[0] == '&')
    ensures var b, q := x + (NameOf(slot) + value) + z, Store(p, slot, value);
            DecodedFrom(b, |x|, p) == if z == "" then q else DecodedFrom(b, |x| + 5 + |value|, q)
  {
    hide *;
    FindsParam(x, slot, value, z);
    DecodesOne(x + (NameOf(slot) + value) + z, |x|, p);
  }

  lemma DropLast(s: string, t: string, c: string)
    requires s == t + c && |c| == 1
    ensures s[..|s| - 1] == t
  {
  }

  /** The URL without its cut-off last character. */
  lemma EncodedText(p: Params)
    ensures var front := "/" + PathText(p);
            Encoded(p) ==
              if p.key.None? && p.val.None? then front
              else if p.val.None? then front + "?" + (KEY + p.key.value)
              else if p.key.None? then front + "?" + (VAL + p.val.value)
              else front + "?" + (KEY + p.key.value) + "&" + (VAL + p.val.value)
  {
    var front := "/" + PathText(p);
    if p.key.None? && p.val.None? {
      DropLast(Printed(p), front, "?");
    } else if p.val.None? {
      DropLast(Printed(p), front + "?" + (KEY + p.key.value), "&");
    } else if p.key.None? {
      DropLast(Printed(p), front + "?" + (VAL + p.val.value), "&");
    } else {
      DropLast(Printed(p), front + "?" + (KEY + p.key.value) + "&" + (VAL + p.val.value), "&");
    }
  }

  /** What stands before the first question mark is the path. */
  lemma ReadsPath(path: Option<string>, rest: string)
    requires IsCString(rest) && PlainPath(path)
    ensures var front := "/" + (if path.Some? then path.value else "");
            && IsCString(front + "?" + rest)
            && Decoded(front + "?" + rest) == DecodedFrom(front + "?" + rest, |front| + 1, Params(path, None, None))
  {
    var front := "/" + (if path.Some? then path.value else "");
    var b := front + "?" + rest;
    assert b[0..|front|] == front && '?' !in front;
    StrChrIs(b, 0, '?', |front|);
    assert b[1..|front|] == front[1..];
  }

  /** Text of the form that url_encode writes, however long and whoever wrote it, url_decode reads, whatever `=` and `?` the parameters hold. */
  lemma UrlRoundTrip(p: Params)
    requires PlainPath(p.path) && Plain(p.key) && Plain(p.val)
    ensures IsCString(Encoded(p)) && Decoded(Encoded(p)) == p
  {
    hide Encoded, DecodedFrom, Decoded, Printed, Optional, Store, IsCString, Plain, PlainPath;
    EncodedText(p);
    PlainTexts(p.key, p.val);
    ReadsPathOnly(p.path);
    StoresAre(p.path, p.key, p.val);
    var q := Params(p.path, None, None);
    if p.key.None? && p.val.None? {
      assert PathText(p) == if p.path.Some? then p.path.value else "";
    } else if p.val.None? {
      ReadsPath(p.path, KEY + p.key.value);
      ReadsLast("/" + PathText(p) + "?", KeySlot, p.key.value, q);
    } else if p.key.None? {
      ReadsPath(p.path, VAL + p.val.value);
      ReadsLast("/" + PathText(p) + "?", ValSlot, p.val.value, q);
    } else {
      ReadsPath(p.path, (KEY + p.key.value) + "&" + (VAL + p.val.value));
      Regroup("/" + PathText(p) + "?", KEY + p.key.value, "&", VAL + p.val.value);
      ReadsBoth("/" + PathText(p) + "?", p.key.value, p.val.value, q);
    }
  }

  lemma Regroup(x: string, k: string, c: string, v: string)
    ensures x + (k + c + v) == x + k + c + v
  {
  }

  lemma PlainTexts(key: Option<string>, val: Option<string>)
    requires Plain(key) && Plain(val)
    ensures key.Some? ==> '&' !in key.value && IsCString(KEY + key.value)
    ensures val.Some? ==> '&' !in val.value && IsCString(VAL + val.value)
    ensures key.Some? && val.Some? ==> IsCString((KEY + key.value) + "&" + (VAL + val.value))
  {
  }

  lemma StoresAre(path: Option<string>, key: Option<string>, val: Option<string>)
    ensures key.Some? ==> Store(Params(path, None, None), KeySlot, key.value) == Params(path, key, None)
    ensures val.Some? ==> Store(Params(path, None, None), ValSlot, val.value) == Params(path, None, val)
    ensures key.Some? && val.Some? ==>
      Store(Store(Params(path, None, None), KeySlot, key.value), ValSlot, val.value) == Params(path, key, val)
  {
  }

  lemma ReadsLast(x: string, slot: Slot, value: string, q: Params)
    requires slot != NoSlot && '&' !in value && IsCString(x + (NameOf(slot) + value))
    ensures DecodedFrom(x + (NameOf(slot) + value), |x|, q) == Store(q, slot, value)
  {
    hide *;
    assert x + (NameOf(slot) + value) + "" == x + (NameOf(slot) + value);
    ReadsParam(x, slot, value, "", q);
  }

  lemma ReadsBoth(x: string, key: string, val: string, q: Params)
    requires '&' !in key && '&' !in val && IsCString(x + (KEY + key) + "&" + (VAL + val))
    ensures DecodedFrom(x + (KEY + key) + "&" + (VAL + val), |x|, q) == Store(Store(q, KeySlot, key), ValSlot, val)
  {
    ReadsTwo(x, KeySlot, key, "&", NameOf(ValSlot) + val, q);
    hide DecodedFrom, Store;
    ReadsLast(x + (KEY + key) + "&", ValSlot, val, Store(q, KeySlot, key));
  }

  lemma ReadsTwo(x: string, slot: Slot, value: string, c: string, rest: string, q: Params)
    requires slot != NoSlot && '&' !in value && c == "&" && IsCString(x + (NameOf(slot) + value) + c + rest)
    ensures var b := x + (NameOf(slot) + value) + c + rest;
            DecodedFrom(b, |x|, q) == DecodedFrom(b, |x + (NameOf(slot) + value) + c|, Store(q, slot, value))
  {
    hide *;
    var k, z := NameOf(slot) + value, c + rest;
    assert z[0] == '&';
    assert x + k + c + rest == x + k + z;
    ReadsParam(x, slot, value, z, q);
  }

  lemma ReadsPathOnly(path: Option<string>)
    requires PlainPath(path)
    ensures var b := "/" + (if path.Some? then path.value else "");
            IsCString(b) && Decoded(b) == Params(path, None, None)
  {
  }

  // ----- what can be read at all

  /** Parameter text comes from the URL and holds no `&`. */
  predicate From(s: Option<string>, b: string) {
    s.Some? ==> '&' !in s.value && forall c :: c in s.value ==> c in b
  }

  lemma ValueIsPlain(b: string, at: nat, keyEnd: nat, p: Params, slot: Slot)
    requires at <= keyEnd <= |b| && keyEnd < ParamEnd(b, at) && From(p.key, b) && From(p.val, b)
    ensures var q := Store(p, slot, b[keyEnd + 1..ParamEnd(b, at)]); From(q.key, b) && From(q.val, b)
  {
    var e := ParamEnd(b, at);
    assert b[keyEnd + 1..e] == b[at..e][keyEnd + 1 - at..];
  }

  lemma {:induction false} DecodedFromIsPlain(b: string, at: nat, p: Params)
    requires IsCString(b) && at <= |b| && From(p.key, b) && From(p.val, b)
    ensures From(DecodedFrom(b, at, p).key, b) && From(DecodedFrom(b, at, p).val, b)
    decreases |b| - at
  {
    hide *;
    DecodesOne(b, at, p);
    var eq := StrChr(b, at, '=');
    if eq.Some? {
      var slot, q := ParamPtr(b, at, eq.value - at), p;
      if slot != NoSlot {
        ValueIsPlain(b, at, eq.value, p, slot);
        q := Store(p, slot, b[eq.value + 1..ParamEnd(b, at)]);
      }
      if ParamEnd(b, at) < |b| {
        DecodedFromIsPlain(b, ParamEnd(b, at) + 1, q);
      }
    }
  }

  lemma DecodedIsPlain(b: string)
    requires IsCString(b)
    ensures From(Decoded(b).key, b) && From(Decoded(b).val, b)
  {
    var q := StrChr(b, 0, '?');
    if q.Some? {
      DecodedFromIsPlain(b, q.value + 1, Params(if q.value > 1 then Some(b[1..q.value]) else None, None, None));
    }
  }

  // ----- what url_decode computes, without its loop: split at every ampersand, the last value of a name counts

  /** Items with an ampersand between them. */
  function Joined(items: seq<string>): string {
    if items == [] then ""
    else if |items| == 1 then items[0]
    else items[0] + "&" + Joined(items[1..])
  }

  datatype NameValue = NameValue(name: string, value: string)

  /** What stands before the first `=` of an item, and what behind it. */
  function SplitItem(item: string): Option<NameValue> {
    match StrChr(item, 0, '=')
    case None => None
    case Some(i) => Some(NameValue(item[..i], item[i + 1..]))
  }

  /** The last value whose name is a prefix of "key". */
  function KeyIn(items: seq<string>): Option<string> {
    if items == [] then None
    else if KeyIn(items[1..]).Some? then KeyIn(items[1..])
    else
      match SplitItem(items[0])
      case Some(item) => if item.name <= "key" then Some(item.value) else None
      case None => None
  }

  /** The last value whose name is a prefix of "val" and not empty. */
  function ValIn(items: seq<string>): Option<string> {
    if items == [] then None
    else if ValIn(items[1..]).Some? then ValIn(items[1..])
    else
      match SplitItem(items[0])
      case Some(item) => if item.name != "" && item.name <= "val" then Some(item.value) else None
      case None => None
  }

  predicate AreItems(items: seq<string>) {
    forall i :: 0 <= i < |items| ==> '&' !in items[i] && IsCString(items[i])
  }

  function OrElse(a: Option<string>, b: Option<string>): Option<string> {
    if a.Some? then a else b
  }

  /** What stands behind the first item. */
  function RestOf(items: seq<string>): string
    requires items != []
  {
    if |items| == 1 then "" else "&" + Joined(items[1..])
  }

  lemma JoinedFirst(items: seq<string>)
    requires items != []
    ensures Joined(items) == items[0] + RestOf(items)
  {
  }

  lemma {:induction false} JoinedIsCString(items: seq<string>)
    requires AreItems(items)
    ensures IsCString(Joined(items))
    decreases |items|
  {
    if |items| > 1 {
      JoinedIsCString(items[1..]);
    }
  }

  /** Without an `=` anywhere there are no names. */
  lemma {:induction false} NoNames(items: seq<string>)
    requires '=' !in Joined(items)
    ensures KeyIn(items) == None && ValIn(items) == None
    decreases |items|
  {
    if items != [] {
      JoinedFirst(items);
      assert '=' !in items[0];
      assert |items| == 1 ==> items[1..] == [];
      assert |items| > 1 ==> forall c :: c in Joined(items[1..]) ==> c in RestOf(items);
      NoNames(items[1..]);
    }
  }

  /** `item` stands at `at`, and nothing, or an ampersand, behind it. */
  predicate ItemAt(b: string, at: nat, item: string) {
    var e := at + |item|;
    e <= |b| && b[at..e] == item && '&' !in item && (e < |b| ==> b[e] == '&')
  }

  lemma ItemParts(b: string, at: nat, item: string, n: nat)
    requires ItemAt(b, at, item) && n < |item|
    ensures b[at..at + n] == item[..n] == item[0..n] && b[at + n] == item[n] && b[at + n + 1..at + |item|] == item[n + 1..]
  {
    assert b[at..at + n] == b[at..at + |item|][..n];
    assert b[at + n] == b[at..at + |item|][n];
    assert b[at + n + 1..at + |item|] == b[at..at + |item|][n + 1..];
  }

  /** Where an item is found. */
  lemma FindsItem(b: string, at: nat, item: string)
    requires ItemAt(b, at, item)
    ensures ParamEnd(b, at) == at + |item| <= |b|
    ensures SplitItem(item).Some? ==>
              var n := |SplitItem(item).value.name|;
              && StrChr(b, at, '=') == Some(at + n) && n < |item|
              && b[at..at + n] == SplitItem(item).value.name
              && b[at + n + 1..at + |item|] == SplitItem(item).value.value
  {
    hide StrChr, IsCString;
    var e := at + |item|;
    if e < |b| {
      StrChrIs(b, at, '&', e);
    } else {
      assert b[at..] == item;
    }
    if SplitItem(item).Some? {
      var n := StrChr(item, 0, '=').value;
      ItemParts(b, at, item, n);
      StrChrIs(b, at, '=', at + n);
    }
  }

  /** An item without an `=` has no name the loop knows: what it takes for a name holds the next ampersand. */
  lemma NamelessItem(b: string, at: nat, item: string)
    requires ItemAt(b, at, item) && SplitItem(item).None? && IsCString(b)
    ensures StrChr(b, at, '=').None? ==> '=' !in b[at + |item|..]
    ensures StrChr(b, at, '=').Some? ==> ParamPtr(b, at, StrChr(b, at, '=').value - at) == NoSlot
  {
    hide StrChr, ParamPtr;
    var e := at + |item|;
    assert item[0..] == item;
    if StrChr(b, at, '=').Some? {
      var j := StrChr(b, at, '=').value;
      assert forall k :: at <= k < e ==> b[k] == item[k - at] && b[k] in item;
      ParamNames(b, at, j - at);
      assert b[at..j][e - at] == '&';
      SlotKinds(b, at, j - at);
    } else {
      assert forall k :: e <= k < |b| ==> b[k] == b[at..][k - at];
    }
  }

  lemma SlotKinds(b: string, at: nat, n: nat)
    requires at + n <= |b| && '&' in b[at..at + n]
    ensures !(b[at..at + n] <= "key") && !(b[at..at + n] <= "val")
  {
    var name := b[at..at + n];
    assert name <= "key" ==> forall c :: c in name ==> c in "key";
    assert name <= "val" ==> forall c :: c in name ==> c in "val";
  }

  /** The loop stores an item or passes it over, and goes on behind it. */
  predicate Goes(b: string, at: nat, item: string, p: Params)
    requires IsCString(b) && at + |item| <= |b|
  {
    var e := at + |item|;
    DecodedFrom(b, at, p) == if e == |b| then Stored(p, item) else DecodedFrom(b, e + 1, Stored(p, item))
  }

  lemma GoesIs(b: string, at: nat, item: string, p: Params)
    requires IsCString(b) && at + |item| <= |b|
    ensures Goes(b, at, item, p) <==>
              DecodedFrom(b, at, p) == if at + |item| == |b| then Stored(p, item) else DecodedFrom(b, at + |item| + 1, Stored(p, item))
  {
    hide DecodedFrom, Stored;
  }

  /** That is what happens unless no name follows. */
  lemma FirstDecoded(b: string, at: nat, item: string, p: Params)
    requires ItemAt(b, at, item) && IsCString(b)
    ensures var e := at + |item|;
            && e <= |b|
            && (!Goes(b, at, item, p) ==> SplitItem(item).None? && '=' !in b[e..] && DecodedFrom(b, at, p) == p)
            && (Goes(b, at, item, p) ==>
                  DecodedFrom(b, at, p) == if e == |b| then Stored(p, item) else DecodedFrom(b, e + 1, Stored(p, item)))
  {
    hide *;
    FindsItem(b, at, item);
    GoesIs(b, at, item, p);
    DecodesOne(b, at, p);
    if SplitItem(item).None? {
      NamelessItem(b, at, item);
      NothingStored(p, item);
    } else {
      ParamNames(b, at, |SplitItem(item).value.name|);
      StoredIs(p, item, ParamPtr(b, at, |SplitItem(item).value.name|));
    }
  }

  predicate ItemsAt(b: string, at: nat, items: seq<string>) {
    at <= |b| && b[at..] == Joined(items) && items != [] && AreItems(items)
  }

  lemma {:induction false} DecodesItems(b: string, at: nat, items: seq<string>, p: Params)
    requires ItemsAt(b, at, items) && IsCString(b)
    ensures at <= |b| && items != []
    ensures DecodedFrom(b, at, p) == Params(p.path, OrElse(KeyIn(items), p.key), OrElse(ValIn(items), p.val))
    decreases |items|
  {
    hide *;
    ItemsCut(b, at, items);
    var item := items[0];
    FirstDecoded(b, at, item, p);
    StoredThenRest(p, items);
    if !Goes(b, at, item, p) {
      NamelessEnd(items);
    } else if |items| > 1 {
      DecodesItems(b, at + |item| + 1, items[1..], Stored(p, item));
    }
  }

  lemma ItemsCut(b: string, at: nat, items: seq<string>)
    requires ItemsAt(b, at, items)
    ensures items != [] && at + |items[0]| <= |b| && ItemAt(b, at, items[0]) && b[at + |items[0]|..] == RestOf(items)
    ensures |items| == 1 <==> at + |items[0]| == |b|
    ensures |items| > 1 ==> ItemsAt(b, at + |items[0]| + 1, items[1..])
  {
    JoinedFirst(items);
    var text := b[at..];
    var n := |items[0]|;
    hide Joined, IsCString;
    SliceOfSlice(b, at, n);
    assert text[..n] == items[0] && text[n..] == RestOf(items);
    if |items| > 1 {
      assert b[at + n] == text[n] == RestOf(items)[0];
      SliceOfSlice(b, at + n, 1);
      assert RestOf(items)[1..] == Joined(items[1..]);
    }
  }

  lemma SliceOfSlice(b: string, at: nat, n: nat)
    requires at <= |b| && n <= |b[at..]|
    ensures b[at..][..n] == b[at..at + n] && b[at..][n..] == b[at + n..]
  {
  }

  lemma OneItem(item: string)
    ensures SplitItem(item).None? ==> KeyIn([item]) == None && ValIn([item]) == None
    ensures SplitItem(item).Some? ==>
      var NameValue(name, value) := SplitItem(item).value;
      && KeyIn([item]) == (if name <= "key" then Some(value) else None)
      && ValIn([item]) == (if name != "" && name <= "val" then Some(value) else None)
  {
    hide SplitItem;
    assert [item][1..] == [] && [item][0] == item;
    assert KeyIn([]) == None && ValIn([]) == None;
  }

  lemma NothingStored(p: Params, item: string)
    requires SplitItem(item).None?
    ensures Stored(p, item) == p
  {
    OneItem(item);
    hide SplitItem, KeyIn, ValIn;
  }

  lemma StoredThenRest(p: Params, items: seq<string>)
    requires items != []
    ensures var q, rest := Stored(p, items[0]), items[1..];
            && q.path == p.path
            && OrElse(KeyIn(items), p.key) == OrElse(KeyIn(rest), q.key)
            && OrElse(ValIn(items), p.val) == OrElse(ValIn(rest), q.val)
            && (|items| == 1 ==> OrElse(KeyIn(items), p.key) == q.key && OrElse(ValIn(items), p.val) == q.val)
            && OrElse(None, p.key) == p.key && OrElse(None, p.val) == p.val
  {
    hide SplitItem;
    var item := items[0];
    assert [item][1..] == [] && KeyIn([]) == None && ValIn([]) == None;
    assert |items| == 1 ==> items == [item];
  }

  /** The parameters with one more item. */
  function Stored(p: Params, item: string): Params {
    Params(p.path, OrElse(KeyIn([item]), p.key), OrElse(ValIn([item]), p.val))
  }

  lemma NamelessEnd(items: seq<string>)
    requires items != [] && SplitItem(items[0]).None? && '=' !in RestOf(items)
    ensures KeyIn(items) == None && ValIn(items) == None
  {
    assert items[0][0..] == items[0];
    JoinedFirst(items);
    NoNames(items);
  }

  lemma StoredIs(p: Params, item: string, slot: Slot)
    requires SplitItem(item).Some?
    requires slot == KeySlot <==> SplitItem(item).value.name <= "key"
    requires slot == ValSlot <==> SplitItem(item).value.name != "" && SplitItem(item).value.name <= "val"
    ensures Stored(p, item) == if slot == NoSlot then p else Store(p, slot, SplitItem(item).value.value)
  {
    OneItem(item);
    hide SplitItem, KeyIn, ValIn;
  }

  /**
   * url_decode on any URL with parameters: the path is what stands before the question mark, the rest
   * is split at the ampersands, and for each of the two names the last item that carries it counts.
   * Items without an `=` and items of other names are passed over.
   */
  lemma DecodedIs(path: string, items: seq<string>)
    requires IsCString(path) && '?' !in path && items != [] && AreItems(items)
    ensures IsCString("/" + path + "?" + Joined(items))
    ensures Decoded("/" + path + "?" + Joined(items)) == Params(if path == "" then None else Some(path), KeyIn(items), ValIn(items))
  {
    JoinedIsCString(items);
    var o, rest := if path == "" then None else Some(path), Joined(items);
    hide Decoded, Joined, KeyIn, ValIn, DecodedFrom;
    ReadsPath(o, rest);
    assert "/" + (if o.Some? then o.value else "") == "/" + path;
    var front := "/" + path;
    assert (front + "?" + rest)[|front| + 1..] == rest;
    DecodesItems(front + "?" + rest, |front| + 1, items, Params(o, None, None));
  }

  lemma {:induction false} InBoth(xs: seq<string>, ys: seq<string>)
    ensures KeyIn(xs + ys) == OrElse(KeyIn(ys), KeyIn(xs)) && ValIn(xs + ys) == OrElse(ValIn(ys), ValIn(xs))
    decreases |xs|
  {
    hide SplitItem;
    if xs == [] {
      assert xs + ys == ys;
    } else {
      assert (xs + ys)[0] == xs[0] && (xs + ys)[1..] == xs[1..] + ys;
      InBoth(xs[1..], ys);
    }
  }

  /** An item that names neither parameter. */
  predicate Foreign(item: string) {
    match SplitItem(item)
    case None => true
    case Some(i) => !(i.name <= "key") && !(i.name <= "val")
  }

  /** Wherever it stands, such an item makes no difference. */
  lemma ForeignIsPassedOver(xs: seq<string>, item: string, ys: seq<string>)
    requires Foreign(item)
    ensures KeyIn(xs + [item] + ys) == KeyIn(xs + ys) && ValIn(xs + [item] + ys) == ValIn(xs + ys)
  {
    OneItem(item);
    hide SplitItem, KeyIn, ValIn;
    InBoth(xs + [item], ys);
    InBoth(xs, [item]);
    InBoth(xs, ys);
  }

  /** Nor does the order of two neighbours, unless both give the key or both the value. */
  lemma OrderIsIrrelevant(xs: seq<string>, a: string, b: string, ys: seq<string>)
    requires KeyIn([a]).None? || KeyIn([b]).None?
    requires ValIn([a]).None? || ValIn([b]).None?
    ensures KeyIn(xs + [a, b] + ys) == KeyIn(xs + [b, a] + ys) && ValIn(xs + [a, b] + ys) == ValIn(xs + [b, a] + ys)
  {
    hide SplitItem, KeyIn, ValIn;
    InBoth(xs + [a, b], ys);
    InBoth(xs + [b, a], ys);
    InBoth(xs, [a, b]);
    InBoth(xs, [b, a]);
    assert [a, b] == [a] + [b] && [b, a] == [b] + [a];
    InBoth([a], [b]);
    InBoth([b], [a]);
  }

  lemma NamedItem(name: string, value: string)
    requires '=' !in name
    ensures SplitItem(name + "=" + value) == Some(NameValue(name, value))
  {
    var item := name + "=" + value;
    assert item[0..|name|] == name && item[..|name|] == name && item[|name| + 1..] == value;
    StrChrIs(item, 0, '=', |name|);
  }

  lemma KeyItem(key: string)
    ensures KeyIn(["key=" + key]) == Some(key) && ValIn(["key=" + key]) == None
  {
    NamedItem("key", key);
    OneItem("key=" + key);
    assert "key" + "=" + key == "key=" + key;
    assert !("key" <= "val") by { assert "key"[0] == 'k'; }
    hide SplitItem, KeyIn, ValIn;
  }

  lemma ValItem(val: string)
    ensures KeyIn(["val=" + val]) == None && ValIn(["val=" + val]) == Some(val)
  {
    NamedItem("val", val);
    OneItem("val=" + val);
    assert "val" + "=" + val == "val=" + val;
    assert !("val" <= "key") by { assert "val"[0] == 'v'; }
    hide SplitItem, KeyIn, ValIn;
  }

  /** The items of a key and a value, in either order. */
  lemma KeyAndValue(key: string, val: string)
    requires Plain(Some(key)) && Plain(Some(val))
    ensures var k, v := "key=" + key, "val=" + val;
            && AreItems([k]) && Joined([k]) == k && KeyIn([k]) == Some(key) && ValIn([k]) == None
            && AreItems([k, v]) && Joined([k, v]) == k + "&" + v && KeyIn([k, v]) == Some(key) && ValIn([k, v]) == Some(val)
            && AreItems([v, k]) && Joined([v, k]) == v + "&" + k && KeyIn([v, k]) == Some(key) && ValIn([v, k]) == Some(val)
  {
    var k, v := "key=" + key, "val=" + val;
    KeyItem(key);
    ValItem(val);
    assert '&' !in k && IsCString(k) && '&' !in v && IsCString(v);
    assert [k, v][1..] == [v] && [v, k][1..] == [k] && [k, v] == [k] + [v] && [v, k] == [v] + [k];
    hide KeyIn, ValIn, SplitItem, IsCString;
    InBoth([k], [v]);
    InBoth([v], [k]);
  }
}
