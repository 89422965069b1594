/**
 * The browser's side of the HTTP API (frontend/src/api.js): how request URLs
 * are built, how the admin token travels in the query string, how PHP reads
 * the query string back into `$_GET`, the message a failed request throws,
 * and the session and admin-token entries kept in `localStorage`.
 */
module ApiClient {
  import opened Wrappers
  import opened Text
  import opened Sequences
  import AdminAuth

  // ------------------------------------------------------------ url(path)

  /** `API_BASE.replace(/\/$/, '')`: at most one trailing slash is removed. */
  function StripTrailingSlash(base: string): (b: string)
    ensures base == b || base == b + "/"
  {
    if |base| > 0 && base[|base| - 1] == '/' then base[..|base| - 1] else base
  }

  /** `url(path)`: the base without its trailing slash, then the path with a leading slash. */
  function Url(base: string, path: string): string {
    var p := if |path| > 0 && path[0] == '/' then path else "/" + path;
    StripTrailingSlash(base) + p
  }

  /**
   * Base and path are joined by exactly one slash, whether or not the base
   * ends with one and whether or not the path starts with one.
   */
  lemma UrlJoinsWithOneSlash(base: string, path: string, b: string, p: string)
    requires b == [] || b[|b| - 1] != '/'
    requires p == [] || p[0] != '/'
    requires base == b || base == b + "/"
    requires path == p || path == "/" + p
    ensures Url(base, path) == b + "/" + p
  {
    if base == b + "/" {
      assert base[..|base| - 1] == b;
    }
  }

  /** Only one trailing slash is removed: a base ending in "//" keeps one of them. */
  lemma UrlStripsOnlyOneSlash(b: string, p: string)
    requires p == [] || p[0] != '/'
    ensures Url(b + "//", p) == b + "//" + p
  {
    var base := b + "//";
    assert base[..|base| - 1] == b + "/";
  }

  /** A query string written into the path passes through `url` unchanged. */
  lemma UrlKeepsQuery(base: string, page: string, query: string)
    requires |page| > 0 && page[0] != '/'
    ensures Url(base, page + query) == Url(base, page) + query
  {
    assert (page + query)[0] == page[0];
  }

  // --------------------------------------------------- encodeURIComponent

  /** The characters `encodeURIComponent` leaves alone: A-Z a-z 0-9 - _ . ! ~ * ' ( ). */
  predicate IsUnreserved(c: char) {
    ('A' <= c <= 'Z') || ('a' <= c <= 'z') || ('0' <= c <= '9') || c in "-_.!~*'()"
  }

  /** Text made only of unreserved characters and '%' (the escapes' hex digits are unreserved). */
  predicate UriSafe(s: string) {
    forall i :: 0 <= i < |s| ==> IsUnreserved(s[i]) || s[i] == '%'
  }

  predicate IsAscii(s: string) {
    forall i :: 0 <= i < |s| ==> s[i] as int < 0x80
  }

  /** The UTF-8 encoding of one Unicode scalar value. */
  function Utf8(c: char): (bytes: seq<nat>)
    ensures 1 <= |bytes| <= 4
    ensures forall i :: 0 <= i < |bytes| ==> bytes[i] < 256
    ensures c as int < 0x80 ==> bytes == [c as int]
  {
    var n := c as int;
    if n < 0x80 then [n]
    else if n < 0x800 then [0xC0 + n / 64, 0x80 + n % 64]
    else if n < 0x10000 then [0xE0 + n / 4096, 0x80 + (n / 64) % 64, 0x80 + n % 64]
    else [0xF0 + n / 262144, 0x80 + (n / 4096) % 64, 0x80 + (n / 64) % 64, 0x80 + n % 64]
  }

  const UpperHex := "0123456789ABCDEF"

  /** "%XY" with X, Y upper-case hexadecimal digits of the byte. */
  function PercentByte(b: nat): (r: string)
    requires b < 256
    ensures |r| == 3 && UriSafe(r) && r[0] == '%'
  {
    ['%', UpperHex[b / 16], UpperHex[b % 16]]
  }

  function PercentBytes(bytes: seq<nat>): (r: string)
    requires forall i :: 0 <= i < |bytes| ==> bytes[i] < 256
    ensures |r| == 3 * |bytes| && UriSafe(r)
  {
    if bytes == [] then [] else PercentByte(bytes[0]) + PercentBytes(bytes[1..])
  }

  function EncodeChar(c: char): (r: string)
    ensures UriSafe(r) && |r| > 0
    ensures IsUnreserved(c) ==> r == [c]
  {
    if IsUnreserved(c) then [c] else PercentBytes(Utf8(c))
  }

  /**
   * `encodeURIComponent(s)`: unreserved characters are kept, every other one
   * becomes the %XX escapes of its UTF-8 bytes. The output never holds '&',
   * '=', '?', '#' or '+', so it can sit inside a query parameter.
   */
  function EncodeURIComponent(s: string): (r: string)
    ensures UriSafe(r) && |r| >= |s|
    ensures (forall i :: 0 <= i < |s| ==> IsUnreserved(s[i])) ==> r == s
  {
    if s == [] then [] else EncodeChar(s[0]) + EncodeURIComponent(s[1..])
  }

  // ------------------------------------------- PHP's reading of the query

  predicate IsHexDigit(c: char) {
    ('0' <= c <= '9') || ('a' <= c <= 'f') || ('A' <= c <= 'F')
  }

  function HexValue(c: char): (v: nat)
    requires IsHexDigit(c)
    ensures v < 16
  {
    if '0' <= c <= '9' then c as int - '0' as int
    else if 'a' <= c <= 'f' then c as int - 'a' as int + 10
    else c as int - 'A' as int + 10
  }

  /**
   * PHP's `urldecode`, which fills `$_GET`: '+' is a space, '%' with two hex
   * digits is that byte, anything else is copied. Bytes are modelled as the
   * characters with the same code.
   */
  function UrlDecode(s: string): string
    decreases |s|
  {
    if s == [] then []
    else if s[0] == '+' then " " + UrlDecode(s[1..])
    else if s[0] == '%' && |s| >= 3 && IsHexDigit(s[1]) && IsHexDigit(s[2]) then
      [(HexValue(s[1]) * 16 + HexValue(s[2])) as char] + UrlDecode(s[3..])
    else [s[0]] + UrlDecode(s[1..])
  }

  lemma {:induction false} UrlDecodePlain(s: string)
    requires forall i :: 0 <= i < |s| ==> s[i] != '%' && s[i] != '+'
    ensures UrlDecode(s) == s
  {
    if s != [] {
      UrlDecodePlain(s[1..]);
    }
  }

  lemma HexOfUpperHex(d: nat)
    requires d < 16
    ensures IsHexDigit(UpperHex[d]) && HexValue(UpperHex[d]) == d
  {
  }

  lemma DecodeEncodedChar(c: char, rest: string)
    requires c as int < 0x80
    ensures UrlDecode(EncodeChar(c) + rest) == [c] + UrlDecode(rest)
  {
    var e := EncodeChar(c) + rest;
    if IsUnreserved(c) {
      assert e[0] == c && e[1..] == rest;
    } else {
      var n := c as int;
      assert Utf8(c) == [n];
      assert PercentBytes([n]) == PercentByte(n) + PercentBytes([]);
      HexOfUpperHex(n / 16);
      HexOfUpperHex(n % 16);
      assert e[0] == '%' && e[1] == UpperHex[n / 16] && e[2] == UpperHex[n % 16];
      assert e[3..] == rest;
      assert HexValue(e[1]) * 16 + HexValue(e[2]) == n;
    }
  }

  /** What the browser encodes, PHP decodes back, for ASCII text (tokens, phones). */
  lemma {:induction false} DecodeEncoded(s: string)
    requires IsAscii(s)
    ensures UrlDecode(EncodeURIComponent(s)) == s
  {
    if s != [] {
      DecodeEncodedChar(s[0], EncodeURIComponent(s[1..]));
      DecodeEncoded(s[1..]);
      assert s == [s[0]] + s[1..];
    }
  }

  /** `s` up to the first `c`, and what follows it when there is one. */
  function Cut(s: string, c: char): (r: (string, Option<string>))
    ensures c !in r.0
    ensures r.1.None? ==> r.0 == s
    ensures r.1.Some? ==> s == r.0 + [c] + r.1.value
  {
    if s == [] then (s, None)
    else if s[0] == c then ([], Some(s[1..]))
    else
      var t := Cut(s[1..], c);
      ([s[0]] + t.0, t.1)
  }

  lemma {:induction false} CutAt(k: string, v: string, c: char)
    requires c !in k
    ensures Cut(k + [c] + v, c) == (k, Some(v))
  {
    if k != [] {
      assert (k + [c] + v)[0] == k[0] && k[0] != c;
      assert (k + [c] + v)[1..] == k[1..] + [c] + v;
      CutAt(k[1..], v, c);
      assert [k[0]] + k[1..] == k;
    }
  }

  lemma {:induction false} CutAppend(a: string, b: string, c: char)
    requires c in a
    ensures Cut(a + b, c) == (Cut(a, c).0, Some(Cut(a, c).1.value + b))
  {
    assert |a| > 0 && (a + b)[0] == a[0];
    if a[0] != c {
      assert c in a[1..];
      assert (a + b)[1..] == a[1..] + b;
      CutAppend(a[1..], b, c);
    } else {
      assert (a + b)[1..] == a[1..] + b;
    }
  }

  /** `explode(sep, s)`: the pieces between the separators. */
  function Split(s: string, sep: char): (parts: seq<string>)
    ensures |parts| >= 1
    ensures forall i :: 0 <= i < |parts| ==> sep !in parts[i]
    ensures sep !in s ==> parts == [s]
    decreases |s|
  {
    if s == [] then [""]
    else if s[|s| - 1] == sep then Split(s[..|s| - 1], sep) + [""]
    else
      var p := Split(s[..|s| - 1], sep);
      assert sep !in s ==> s[..|s| - 1] + [s[|s| - 1]] == s;
      p[..|p| - 1] + [p[|p| - 1] + [s[|s| - 1]]]
  }

  /** `implode(sep, parts)`. */
  function Join(parts: seq<string>, sep: char): string
    requires |parts| >= 1
  {
    if |parts| == 1 then parts[0] else Join(parts[..|parts| - 1], sep) + [sep] + parts[|parts| - 1]
  }

  /** Splitting loses nothing: joining the pieces gives the text back. */
  lemma {:induction false} JoinSplit(s: string, sep: char)
    ensures Join(Split(s, sep), sep) == s
    decreases |s|
  {
    if s != [] {
      var init := s[..|s| - 1];
      var last := s[|s| - 1];
      JoinSplit(init, sep);
      var p := Split(init, sep);
      if last != sep {
        var q := p[..|p| - 1] + [p[|p| - 1] + [last]];
        assert Split(s, sep) == q;
        if |p| > 1 {
          assert q[..|q| - 1] == p[..|p| - 1];
          assert Join(p, sep) == Join(p[..|p| - 1], sep) + [sep] + p[|p| - 1];
        }
      } else {
        assert Split(s, sep) == p + [""];
        assert (p + [""])[..|p|] == p;
      }
      assert init + [last] == s;
    }
  }

  lemma {:induction false} SplitAppend(a: string, b: string, sep: char)
    requires sep !in b
    ensures Split(a + [sep] + b, sep) == Split(a, sep) + [b]
    decreases |b|
  {
    var s := a + [sep] + b;
    if b == [] {
      assert s[..|s| - 1] == a;
    } else {
      var b' := b[..|b| - 1];
      assert s[..|s| - 1] == a + [sep] + b';
      SplitAppend(a, b', sep);
      assert b' + [b[|b| - 1]] == b;
    }
  }

  type Param = (string, string)

  /** One `key=value` piece of the query, both halves decoded; a piece with no '=' has an empty value. */
  function ParsePair(piece: string): Param {
    var t := Cut(piece, '=');
    (UrlDecode(t.0), if t.1.Some? then UrlDecode(t.1.value) else "")
  }

  function Params(query: string): seq<Param> {
    Map(Split(query, '&'), ParsePair)
  }

  /** `$_GET[key]`: a key given more than once takes its last value. */
  function Lookup(ps: seq<Param>, key: string): (r: Option<string>)
    ensures r.None? <==> forall i :: 0 <= i < |ps| ==> ps[i].0 != key
    ensures r.Some? ==> exists i :: 0 <= i < |ps| && ps[i] == (key, r.value)
  {
    if ps == [] then None
    else if ps[|ps| - 1].0 == key then Some(ps[|ps| - 1].1)
    else
      var r := Lookup(ps[..|ps| - 1], key);
      assert forall i :: 0 <= i < |ps| - 1 ==> ps[..|ps| - 1][i] == ps[i];
      r
  }

  /** The text after the first '?', if there is one. */
  function QueryOf(u: string): Option<string> {
    Cut(u, '?').1
  }

  /** The query parameter `key` as a PHP endpoint reads it from the request URL. */
  function QueryParam(u: string, key: string): Option<string> {
    var q := QueryOf(u);
    if q.None? then None else Lookup(Params(q.value), key)
  }

  /** A parameter name that decodes to itself and holds no separator. */
  predicate PlainKey(key: string) {
    key != "" && forall i :: 0 <= i < |key| ==> IsUnreserved(key[i]) && key[i] != '%'
  }

  /** `key=<encodeURIComponent(value)>`. */
  function Piece(key: string, value: string): string {
    key + "=" + EncodeURIComponent(value)
  }

  /** A piece decodes to its key and value, and holds no '&' or '?'. */
  lemma PieceFacts(key: string, value: string)
    requires PlainKey(key) && IsAscii(value)
    ensures ParsePair(Piece(key, value)) == (key, value)
    ensures '&' !in Piece(key, value) && '?' !in Piece(key, value)
  {
    PieceKey(key, value);
    DecodeEncoded(value);
  }

  lemma PlainKeyChars(key: string)
    requires PlainKey(key)
    ensures '=' !in key && '&' !in key && '?' !in key && '%' !in key && '+' !in key
  {
    forall i | 0 <= i < |key|
      ensures key[i] != '=' && key[i] != '&' && key[i] != '?' && key[i] != '+'
    {
      assert IsUnreserved(key[i]);
    }
  }

  lemma UriSafeChars(e: string)
    requires UriSafe(e)
    ensures '=' !in e && '&' !in e && '?' !in e
  {
    forall i | 0 <= i < |e| ensures e[i] != '=' && e[i] != '&' && e[i] != '?' {
      assert IsUnreserved(e[i]) || e[i] == '%';
    }
  }

  /** Whatever the value, the piece's key is `key`. */
  lemma PieceKey(key: string, value: string)
    requires PlainKey(key)
    ensures Cut(Piece(key, value), '=') == (key, Some(EncodeURIComponent(value)))
    ensures ParsePair(Piece(key, value)).0 == key
    ensures '&' !in Piece(key, value) && '?' !in Piece(key, value)
  {
    var e := EncodeURIComponent(value);
    assert Piece(key, value) == key + ['='] + e;
    PlainKeyChars(key);
    UriSafeChars(e);
    CutAt(key, e, '=');
    UrlDecodePlain(key);
  }

  lemma ParamsAppend(q: string, piece: string)
    requires '&' !in piece
    ensures Params(q + "&" + piece) == Params(q) + [ParsePair(piece)]
  {
    SplitAppend(q, piece, '&');
  }

  lemma ParamsSingle(piece: string)
    requires '&' !in piece
    ensures Params(piece) == [ParsePair(piece)]
  {
  }

  lemma LookupAppend(ps: seq<Param>, p: Param, key: string)
    ensures Lookup(ps + [p], key) == if p.0 == key then Some(p.1) else Lookup(ps, key)
  {
    assert (ps + [p])[..|ps|] == ps;
  }

  /** What a URL with one more piece appended carries as its query. */
  lemma QueryOfAppended(u: string, piece: string)
    requires '?' !in piece
    ensures '?' in u ==> QueryOf(u + ['&'] + piece) == Some(QueryOf(u).value + "&" + piece)
    ensures '?' !in u ==> QueryOf(u + ['?'] + piece) == Some(piece)
  {
    if '?' in u {
      CutAppend(u, ['&'] + piece, '?');
      assert u + ['&'] + piece == u + (['&'] + piece);
      assert QueryOf(u).value + (['&'] + piece) == QueryOf(u).value + "&" + piece;
    } else {
      CutAt(u, piece, '?');
    }
  }

  /** The parameters of `u` followed by a piece: those of `u`, then the piece's. */
  lemma ParamsOfAppended(u: string, piece: string)
    requires '?' !in piece && '&' !in piece
    ensures '?' in u ==> Params(QueryOf(u + ['&'] + piece).value) == Params(QueryOf(u).value) + [ParsePair(piece)]
    ensures '?' !in u ==> Params(QueryOf(u + ['?'] + piece).value) == [ParsePair(piece)]
  {
    QueryOfAppended(u, piece);
    if '?' in u {
      ParamsAppend(QueryOf(u).value, piece);
    } else {
      ParamsSingle(piece);
    }
  }

  /** The URL `prefix?piece`, as the endpoint reads it. */
  lemma SingleParam(prefix: string, key: string, value: string)
    requires '?' !in prefix && PlainKey(key) && IsAscii(value)
    ensures QueryParam(prefix + "?" + Piece(key, value), key) == Some(value)
  {
    PieceFacts(key, value);
    assert prefix + "?" + Piece(key, value) == prefix + ['?'] + Piece(key, value);
    ParamsOfAppended(prefix, Piece(key, value));
    LookupAppend([], ParsePair(Piece(key, value)), key);
  }

  // ----------------------------------------------------------- adminUrl

  lemma {:induction false} ContainsChar(s: string, c: char)
    ensures Contains(s, [c]) <==> c in s
    decreases |s|
  {
    if s != [] {
      ContainsChar(s[1..], c);
      assert s == [s[0]] + s[1..];
    }
  }

  /** The query parameter the admin pages add to every request. */
  const TokenParam := "admin_token"

  /** `u + sep + key + '=' + encodeURIComponent(value)`, where `sep` is '&' if `u` already has a '?', else '?'. */
  function AppendParam(u: string, key: string, value: string): string {
    var sep := if Contains(u, "?") then '&' else '?';
    u + [sep] + Piece(key, value)
  }

  /** `adminUrl(path)`, for the stored token `token`. */
  function AdminUrl(base: string, path: string, token: string): string {
    AppendParam(Url(base, path), TokenParam, token)
  }

  lemma AppendParamShape(u: string, key: string, value: string)
    ensures '?' in u ==> AppendParam(u, key, value) == u + ['&'] + Piece(key, value)
    ensures '?' !in u ==> AppendParam(u, key, value) == u + ['?'] + Piece(key, value)
  {
    ContainsChar(u, '?');
  }

  /** The appended value reaches `$_GET[key]` intact, whatever query the URL already had. */
  lemma AppendParamCarries(u: string, key: string, value: string)
    requires PlainKey(key) && IsAscii(value)
    ensures QueryParam(AppendParam(u, key, value), key) == Some(value)
  {
    PieceFacts(key, value);
    AppendParamShape(u, key, value);
    ParamsOfAppended(u, Piece(key, value));
    if '?' in u {
      LookupAppend(Params(QueryOf(u).value), ParsePair(Piece(key, value)), key);
    } else {
      LookupAppend([], ParsePair(Piece(key, value)), key);
    }
  }

  /** Appending one parameter leaves every other parameter as it was. */
  lemma AppendParamKeepsOthers(u: string, key: string, value: string, other: string)
    requires PlainKey(key) && other != key
    ensures QueryParam(AppendParam(u, key, value), other) == QueryParam(u, other)
  {
    PieceKey(key, value);
    AppendParamShape(u, key, value);
    ParamsOfAppended(u, Piece(key, value));
    if '?' in u {
      LookupAppend(Params(QueryOf(u).value), ParsePair(Piece(key, value)), other);
    } else {
      LookupAppend([], ParsePair(Piece(key, value)), other);
    }
  }

  lemma TokenParamIsPlain()
    ensures PlainKey(TokenParam)
  {
  }

  /** The stored token reaches `$_GET['admin_token']`, whatever path is requested. */
  lemma AdminUrlCarriesToken(base: string, path: string, token: string)
    requires IsAscii(token)
    ensures QueryParam(AdminUrl(base, path, token), TokenParam) == Some(token)
  {
    TokenParamIsPlain();
    AppendParamCarries(Url(base, path), TokenParam, token);
  }

  /** The path's own query parameters reach the endpoint unchanged. */
  lemma AdminUrlKeepsOtherParams(base: string, path: string, token: string, key: string)
    requires key != TokenParam
    ensures QueryParam(AdminUrl(base, path, token), key) == QueryParam(Url(base, path), key)
  {
    TokenParamIsPlain();
    AppendParamKeepsOthers(Url(base, path), TokenParam, token, key);
  }

  /** A base and a page without '?' give a URL without one. */
  lemma UrlHasNoQuery(base: string, page: string)
    requires '?' !in base && '?' !in page
    ensures '?' !in Url(base, page)
  {
    var b := StripTrailingSlash(base);
    assert forall i :: 0 <= i < |b| ==> b[i] == base[i];
  }

  /** `url(page + '?' + key + '=' + encodeURIComponent(value))` hands `value` to `$_GET[key]`. */
  lemma PageQueryCarries(base: string, page: string, key: string, value: string)
    requires '?' !in base && '?' !in page && |page| > 0 && page[0] != '/'
    requires PlainKey(key) && IsAscii(value)
    ensures QueryParam(Url(base, page + "?" + Piece(key, value)), key) == Some(value)
  {
    var query := "?" + Piece(key, value);
    var u := page + "?" + Piece(key, value);
    var prefix := Url(base, page);
    assert u == page + query;
    UrlKeepsQuery(base, page, query);
    assert Url(base, u) == prefix + query;
    assert prefix + query == prefix + "?" + Piece(key, value);
    UrlHasNoQuery(base, page);
    SingleParam(prefix, key, value);
  }

  /** `getUserDetail(phone)`: admin-user-detail receives both the phone and the token. */
  lemma DetailUrlCarries(base: string, phone: string, token: string, page: string, key: string)
    requires page == "admin-user-detail.php" && key == "phone"
    requires '?' !in base && IsAscii(phone) && IsAscii(token)
    ensures QueryParam(AdminUrl(base, page + "?" + Piece(key, phone), token), key) == Some(phone)
    ensures QueryParam(AdminUrl(base, page + "?" + Piece(key, phone), token), TokenParam) == Some(token)
  {
    PageQueryCarries(base, page, key, phone);
    AdminUrlKeepsOtherParams(base, page + "?" + Piece(key, phone), token, key);
    AdminUrlCarriesToken(base, page + "?" + Piece(key, phone), token);
  }

  /** `api.historyList(phone)`: history-list receives the phone as typed. */
  lemma HistoryListUrlCarriesPhone(base: string, phone: string, page: string, key: string)
    requires page == "history-list.php" && key == "user_phone"
    requires '?' !in base && IsAscii(phone)
    ensures QueryParam(Url(base, page + "?" + Piece(key, phone)), key) == Some(phone)
  {
    PageQueryCarries(base, page, key, phone);
  }

  /** The credentials an admin request carries: the `X-Admin-Token` header and the query parameter. */
  function AdminRequest(base: string, path: string, token: string): AdminAuth.AuthRequest {
    AdminAuth.AuthRequest(None, None, Some(AdminAuth.Bearer + token), QueryParam(AdminUrl(base, path, token), TokenParam))
  }

  lemma LowerHexIsAscii(t: string)
    requires AdminAuth.IsLowerHex(t)
    ensures IsAscii(t)
  {
    forall i | 0 <= i < |t| ensures t[i] as int < 0x80 {
      assert t[i] in "0123456789abcdef";
    }
  }

  /** Once logged in, every admin page request passes `require_admin_auth`, whatever the path. */
  lemma AdminRequestsPassTheGate(cfg: AdminAuth.Config, username: string, password: string, base: string, path: string)
    requires AdminAuth.Login(cfg, username, password).Ok?
    requires AdminAuth.IsLowerHex(AdminAuth.ExpectedToken(cfg))
    requires AdminAuth.ExpectedToken(cfg) != "" && AdminAuth.ExpectedToken(cfg) != "0"
    ensures AdminAuth.Authorized(cfg, AdminRequest(base, path, AdminAuth.Login(cfg, username, password).value))
  {
    var t := AdminAuth.ExpectedToken(cfg);
    LowerHexIsAscii(t);
    AdminUrlCarriesToken(base, path, t);
    assert AdminRequest(base, path, t) == AdminAuth.ClientRequest(t);
    AdminAuth.LoginTokenIsAccepted(cfg, username, password);
  }

  // --------------------------------------------------- failed requests

  /**
   * `new Error(data.error || 'Request failed')`, where `error` is the reply's
   * `error` field (`None` when it is absent or the body is not JSON). Every
   * endpoint sends its message as a string.
   */
  function ThrownMessage(error: Option<string>): (m: string)
    ensures m != ""
    ensures error.Some? && error.value != "" ==> m == error.value
    ensures error.None? || error.value == "" ==> m == "Request failed"
  {
    if error.Some? && error.value != "" then error.value else "Request failed"
  }

  // ------------------------------------------------------ localStorage

  const PhoneKey := "biztools_user_phone"
  const VerifiedAtKey := "biztools_last_verified_at"
  const AdminTokenKey := "biztools_admin_token"

  /** `7 * 24 * 60 * 60 * 1000` milliseconds. */
  const SevenDays := 7 * 24 * 60 * 60 * 1000

  /** `localStorage.getItem(key) || ''`. */
  function ItemOrEmpty(items: map<string, string>, key: string): (v: string)
    ensures key !in items ==> v == ""
    ensures key in items ==> v == items[key]
  {
    if key in items then items[key] else ""
  }

  /**
   * `isSessionValid()` at clock reading `now`: false without a timestamp,
   * else `now - Number(at) < sevenDays` (a comparison with NaN is false).
   */
  predicate SessionValid(items: map<string, string>, now: int) {
    ItemOrEmpty(items, VerifiedAtKey) != "" &&
    match JsNumber(items[VerifiedAtKey])
    case None => false
    case Some(at) => now - at < SevenDays
  }

  /** A timestamp written with `String(Date.now())` keeps the session for seven days, and no longer. */
  lemma SessionWindow(items: map<string, string>, t: nat, now: int)
    requires VerifiedAtKey in items && items[VerifiedAtKey] == NatToString(t)
    ensures SessionValid(items, now) <==> now - t < SevenDays
  {
    NumberOfNatToString(t);
  }

  /** The three entries the pages keep in `window.localStorage`. */
  class BrowserStorage {
    var items: map<string, string>

    constructor ()
      ensures items == map[]
    {
      items := map[];
    }

    /** `getUserPhone()`. */
    function UserPhone(): string
      reads this
    {
      ItemOrEmpty(items, PhoneKey)
    }

    /** `getAdminToken()`. */
    function AdminToken(): string
      reads this
    {
      ItemOrEmpty(items, AdminTokenKey)
    }

    predicate IsSessionValid(now: int)
      reads this
    {
      SessionValid(items, now)
    }

    /** `isAdminLoggedIn()`: `!!getAdminToken()`. */
    predicate IsAdminLoggedIn()
      reads this
    {
      AdminToken() != ""
    }

    /** `setUserSession(phone)` at clock reading `now`. */
    method SetUserSession(phone: string, now: nat)
      modifies this
      ensures items == old(items)[PhoneKey := phone][VerifiedAtKey := NatToString(now)]
      ensures UserPhone() == phone
      ensures IsSessionValid(now)
      ensures forall later :: IsSessionValid(later) <==> later - now < SevenDays
      ensures AdminToken() == old(AdminToken())
    {
      items := items[PhoneKey := phone];
      items := items[VerifiedAtKey := NatToString(now)];
      forall later ensures IsSessionValid(later) <==> later - now < SevenDays {
        SessionWindow(items, now, later);
      }
    }

    /** `clearSession()`. */
    method ClearSession()
      modifies this
      ensures items == old(items) - {PhoneKey, VerifiedAtKey}
      ensures UserPhone() == ""
      ensures forall now :: !IsSessionValid(now)
      ensures AdminToken() == old(AdminToken())
    {
      items := items - {PhoneKey, VerifiedAtKey};
    }

    /** `setAdminToken(token)`. */
    method SetAdminToken(token: string)
      modifies this
      ensures items == old(items)[AdminTokenKey := token]
      ensures AdminToken() == token
      ensures IsAdminLoggedIn() <==> token != ""
      ensures UserPhone() == old(UserPhone())
      ensures forall now :: IsSessionValid(now) <==> old(IsSessionValid(now))
    {
      items := items[AdminTokenKey := token];
    }

    /** `clearAdminToken()`. */
    method ClearAdminToken()
      modifies this
      ensures items == old(items) - {AdminTokenKey}
      ensures !IsAdminLoggedIn()
      ensures UserPhone() == old(UserPhone())
      ensures forall now :: IsSessionValid(now) <==> old(IsSessionValid(now))
    {
      items := items - {AdminTokenKey};
    }
  }
}
