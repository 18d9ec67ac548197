/**
  The visitor identity resolver (src/common/identity/identity.ts).

  A request is attributed to an authenticated user, to a returning
  visitor carrying a signed `__vid` cookie, or to a freshly minted
  visitor id; every identity also carries a fingerprint of the client's
  IP address and user agent.

  SHA-256 is the `sha256` field of `Config`: any function returning 64
  lowercase hex digits. `randomUUID()` is the `uuid` parameter of the
  methods that may mint a cookie: the value the call would return.
 */
module Identity {
  import opened Wrappers
  import opened JsString

  predicate IsHexDigit(c: char) {
    '0' <= c <= '9' || 'a' <= c <= 'f'
  }

  predicate IsHex(s: string) {
    forall k :: 0 <= k < |s| ==> IsHexDigit(s[k])
  }

  /** What `createHash('sha256').update(…).digest('hex')` returns. */
  type HexDigest = s: string | |s| == 64 && IsHex(s)
    witness seq(64, _ => '0')

  /** What `randomUUID()` returns: 36 characters in the 8-4-4-4-12 layout. */
  predicate IsUuid(s: string) {
    && |s| == 36
    && forall k :: 0 <= k < 36 ==>
         if k == 8 || k == 13 || k == 18 || k == 23 then s[k] == '-' else IsHexDigit(s[k])
  }

  type Uuid = s: string | IsUuid(s)
    witness seq(36, k => if k == 8 || k == 13 || k == 18 || k == 23 then '-' else '0')

  /** The service's configuration: the signing secret, whether NODE_ENV is
      "production", and the hash function. */
  datatype Config = Config(secret: string, isProduction: bool, sha256: string -> HexDigest)

  /** The constructor: `getOrThrow` fails when the secret is not configured. */
  function NewConfig(secret: Option<string>, nodeEnv: Option<string>, sha256: string -> HexDigest)
    : (r: Result<Config, string>)
    ensures r.Ok? <==> secret.Some?
    ensures r.Ok? ==> r.value.secret == secret.value
                      && (r.value.isProduction <==> nodeEnv == Some("production"))
  {
    if secret.None? then Err("VISITOR_COOKIE_SECRET")
    else Ok(Config(secret.value, nodeEnv == Some("production"), sha256))
  }

  const CookieName: string := "__vid"
  const OneYearMs: int := 365 * 24 * 60 * 60 * 1000

  /** The `x-forwarded-for` header as Node hands it over. */
  datatype ForwardedFor =
    | NoForwardedFor
    | ForwardedString(value: string)
    | ForwardedList(first: string, rest: seq<string>)

  /** `req.cookies['__vid']`: undefined, a value that is not a string, or a string. */
  datatype CookieField = NoCookie | NonStringCookie | CookieString(value: string)

  /** The parts of an incoming request the resolver reads. */
  datatype Request = Request(
    forwardedFor: ForwardedFor,
    ip: Option<string>,
    remoteAddress: Option<string>,
    userAgent: Option<string>,
    visitorCookie: CookieField)

  /** JavaScript truthiness of an optional string: present and not "". */
  predicate IsTruthy(s: Option<string>) {
    s.Some? && s.value != ""
  }

  /** `getIp`: the first hop of a string `x-forwarded-for`, the first entry of a
      list one, else `req.ip`, else the socket's address, else "unknown". */
  function GetIp(req: Request): (r: string)
    ensures req.forwardedFor.ForwardedString? ==>
              var v := req.forwardedFor.value;
              var k := IndexOf(v, ',');
              r == Trim(if k == -1 then v else v[..k])
    ensures req.forwardedFor.ForwardedList? ==> r == Trim(req.forwardedFor.first)
    ensures req.forwardedFor.NoForwardedFor? ==>
              r == if IsTruthy(req.ip) then req.ip.value
                   else if IsTruthy(req.remoteAddress) then req.remoteAddress.value
                   else "unknown"
  {
    match req.forwardedFor
    case ForwardedString(v) =>
      SplitFirst(v, ',');
      Trim(Split(v, ',')[0])
    case ForwardedList(first, _) => Trim(first)
    case NoForwardedFor =>
      if IsTruthy(req.ip) then req.ip.value
      else if IsTruthy(req.remoteAddress) then req.remoteAddress.value
      else "unknown"
  }

  /** A forwarded address never contains a comma and is trimmed. */
  lemma GetIpForwardedIsOneTrimmedHop(req: Request)
    requires req.forwardedFor.ForwardedString?
    ensures ',' !in GetIp(req) && IsTrimmed(GetIp(req))
  {
    var v := req.forwardedFor.value;
    var k := IndexOf(v, ',');
    var seg := if k == -1 then v else v[..k];
    assert GetIp(req) == Trim(seg);
    TrimKeepsAbsent(seg, ',');
  }

  /** `req.headers['user-agent'] ?? 'unknown'`. */
  function UserAgentOf(req: Request): string {
    req.userAgent.GetOr("unknown")
  }

  /** `fingerprint`: the first 32 hex digits of SHA-256 over "ip::ua::secret". */
  function Fingerprint(cfg: Config, ip: string, ua: string): (r: string)
    ensures |r| == 32 && IsHex(r)
    ensures r == cfg.sha256(ip + "::" + ua + "::" + cfg.secret)[..32]
  {
    cfg.sha256(ip + "::" + ua + "::" + cfg.secret)[..32]
  }

  /** `sign`: the first 16 hex digits of SHA-256 over "value::secret"; a
      signature never contains a dot. */
  function Sign(cfg: Config, value: string): (r: string)
    ensures |r| == 16 && IsHex(r) && '.' !in r
    ensures Utf16Length(r) == 16
  {
    var d := cfg.sha256(value + "::" + cfg.secret)[..16];
    assert forall k :: 0 <= k < |d| ==> d[k] != '.' && d[k] as int < 0x80;
    d
  }

  /** The cookie value `createVisitorCookie` writes: "<id>.<sign(id)>". */
  function SignedValue(cfg: Config, id: string): string {
    id + "." + Sign(cfg, id)
  }

  /** `getVisitorId`: the id of a well-signed cookie, else none. The comparison of
      signatures is string equality here (the source compares bytes in constant
      time); a signature whose bytes do not match the expected one is not valid. */
  function GetVisitorId(cfg: Config, cookie: CookieField): (r: Option<string>)
    ensures r.Some? ==> cookie == CookieString(SignedValue(cfg, r.value))
    ensures !cookie.CookieString? || cookie.value == "" ==> r.None?
    ensures cookie.CookieString? && '.' !in cookie.value ==> r.None?
    ensures (cookie.CookieString? && '.' in cookie.value
             && |cookie.value| - LastIndexOf(cookie.value, '.') - 1 != 16) ==> r.None?
    ensures (cookie.CookieString? && '.' in cookie.value
             && Utf16Length(cookie.value[LastIndexOf(cookie.value, '.') + 1..]) != 16) ==> r.None?
  {
    match cookie
    case CookieString(raw) =>
      if raw == "" then None
      else
        var dot := LastIndexOf(raw, '.');
        if dot == -1 then None
        else
          var id := raw[..dot];
          var sig := raw[dot + 1..];
          var expected := Sign(cfg, id);
          if Utf16Length(sig) != Utf16Length(expected) then None
          else if sig == expected then
            assert raw == raw[..dot] + "." + raw[dot + 1..];
            Some(id)
          else None
    case _ => None
  }

  /** Parsing looks for the LAST dot, so splitting "<id>.<sig>" there gives back
      `id` whenever `sig` holds no dot, whatever dots `id` holds. */
  lemma {:induction false} LastDotOfSigned(id: string, sig: string)
    requires '.' !in sig
    ensures var raw := id + "." + sig;
            LastIndexOf(raw, '.') == |id| && raw[..|id|] == id && raw[|id| + 1..] == sig
  {
    var raw := id + "." + sig;
    LastIndexOfNotInSuffix(id + ".", sig, '.');
    assert raw == (id + ".") + sig;
    assert (id + ".")[|id|] == '.';
  }

  /** Round trip: the value written for `id` parses back to `id`. */
  lemma VisitorCookieRoundTrip(cfg: Config, id: string)
    ensures GetVisitorId(cfg, CookieString(SignedValue(cfg, id))) == Some(id)
  {
    LastDotOfSigned(id, Sign(cfg, id));
  }

  /** A cookie is accepted exactly when it is "<id>.<sign(id)>" for some id. */
  lemma VisitorCookieAcceptedIff(cfg: Config, raw: string)
    ensures GetVisitorId(cfg, CookieString(raw)).Some?
            <==> exists id :: raw == SignedValue(cfg, id)
  {
    if exists id :: raw == SignedValue(cfg, id) {
      var id :| raw == SignedValue(cfg, id);
      VisitorCookieRoundTrip(cfg, id);
    }
  }

  /** A tampered signature is treated as no cookie at all. */
  lemma TamperedSignatureRejected(cfg: Config, id: string, sig: string)
    requires '.' !in sig && sig != Sign(cfg, id)
    ensures GetVisitorId(cfg, CookieString(id + "." + sig)) == None
  {
    LastDotOfSigned(id, sig);
  }

  // ----- The signature comparison as written -----

  /** Bytes of the UTF-8 encoding of `c` (what `Buffer.from` produces). */
  function Utf8Width(c: char): nat {
    if c as int < 0x80 then 1
    else if c as int < 0x800 then 2
    else if c as int < 0x10000 then 3
    else 4
  }

  function Utf8Length(s: string): (n: nat)
    ensures n >= |s|
    ensures n == |s| <==> forall k :: 0 <= k < |s| ==> s[k] as int < 0x80
  {
    if s == [] then 0 else Utf8Width(s[0]) + Utf8Length(s[1..])
  }

  /** A string's UTF-8 encoding is never shorter than its UTF-16 one, and is
      exactly as long when every character is ASCII. */
  lemma {:induction false} Utf8AtLeastUtf16(s: string)
    ensures Utf8Length(s) >= Utf16Length(s)
    ensures Utf8Length(s) == Utf16Length(s) <==> forall k :: 0 <= k < |s| ==> s[k] as int < 0x80
  {
    if s != [] {
      Utf8AtLeastUtf16(s[1..]);
      assert forall k :: 1 <= k < |s| ==> s[k] == s[1..][k - 1];
    }
  }

  /** Outcome of `getVisitorId` as written: `timingSafeEqual` throws a
      RangeError when its two buffers differ in length. */
  datatype CookieCheck = Verified(id: string) | Rejected | RangeError

  /** `getVisitorId` as written: the length guard compares UTF-16 lengths, but
      `timingSafeEqual` compares the UTF-8 byte buffers. */
  function GetVisitorIdAsWritten(cfg: Config, cookie: CookieField): (r: CookieCheck)
    ensures !cookie.CookieString? || cookie.value == "" || '.' !in cookie.value ==> r == Rejected
    ensures r.Verified? ==> cookie == CookieString(SignedValue(cfg, r.id))
  {
    match cookie
    case CookieString(raw) =>
      if raw == "" then Rejected
      else
        var dot := LastIndexOf(raw, '.');
        if dot == -1 then Rejected
        else
          var id := raw[..dot];
          var sig := raw[dot + 1..];
          var expected := Sign(cfg, id);
          if Utf16Length(sig) != Utf16Length(expected) then Rejected
          else if Utf8Length(sig) != Utf8Length(expected) then RangeError
          else if sig == expected then
            assert raw == raw[..dot] + "." + raw[dot + 1..];
            Verified(id)
          else Rejected
    case _ => Rejected
  }

  /** As written, `getVisitorId` throws exactly when the text after the last dot
      is sixteen UTF-16 code units long and one of its characters is not ASCII. */
  lemma AsWrittenThrowsIff(cfg: Config, cookie: CookieField)
    ensures GetVisitorIdAsWritten(cfg, cookie).RangeError? <==>
              && cookie.CookieString? && cookie.value != ""
              && var raw := cookie.value;
                 var dot := LastIndexOf(raw, '.');
                 && dot != -1 && Utf16Length(raw[dot + 1..]) == 16
                 && exists k :: dot < k < |raw| && raw[k] as int >= 0x80
  {
    if cookie.CookieString? && cookie.value != "" {
      var raw := cookie.value;
      var dot := LastIndexOf(raw, '.');
      if dot != -1 {
        var sig := raw[dot + 1..];
        var expected := Sign(cfg, raw[..dot]);
        Utf8AtLeastUtf16(sig);
        Utf8AtLeastUtf16(expected);
        assert forall j :: 0 <= j < |expected| ==> expected[j] as int < 0x80;
        if exists k :: dot < k < |raw| && raw[k] as int >= 0x80 {
          var k :| dot < k < |raw| && raw[k] as int >= 0x80;
          assert sig[k - dot - 1] == raw[k];
        } else {
          forall j | 0 <= j < |sig| ensures sig[j] as int < 0x80 {
            assert sig[j] == raw[dot + 1 + j];
          }
        }
      }
    }
  }

  /** The discrepancy: a cookie whose signature is sixteen non-ASCII characters
      makes `getVisitorId` throw instead of rejecting the cookie, whatever the
      configuration. */
  lemma NonAsciiSignatureThrows(cfg: Config)
    ensures GetVisitorIdAsWritten(cfg, CookieString("x." + seq(16, _ => '\U{00E9}'))).RangeError?
  {
    var sig := seq(16, _ => '\U{00E9}');
    var raw := "x." + sig;
    forall k | 0 <= k < |sig| ensures sig[k] != '.' && sig[k] as int < 0x10000 { }
    LastDotOfSigned("x", sig);
    assert raw == "x" + "." + sig;
    assert raw[2] as int >= 0x80;
    AsWrittenThrowsIff(cfg, CookieString(raw));
  }

  /** Characters above U+FFFF count twice in a string's `length`. */
  lemma {:induction false} Utf16LengthOfAstral(s: string)
    requires forall k :: 0 <= k < |s| ==> s[k] as int >= 0x10000
    ensures Utf16Length(s) == 2 * |s|
  {
    if s != [] {
      Utf16LengthOfAstral(s[1..]);
    }
  }

  /** Signatures made of characters above U+FFFF: eight of them are sixteen
      code units long and get past the length guard, so the check throws;
      sixteen of them are thirty-two units long and are rejected by it. */
  lemma AstralSignatureLengths(cfg: Config)
    ensures GetVisitorIdAsWritten(cfg, CookieString("x." + seq(8, _ => '\U{1F600}'))).RangeError?
    ensures GetVisitorIdAsWritten(cfg, CookieString("x." + seq(16, _ => '\U{1F600}'))) == Rejected
  {
    var short := seq(8, _ => '\U{1F600}');
    var long := seq(16, _ => '\U{1F600}');
    Utf16LengthOfAstral(short);
    Utf16LengthOfAstral(long);
    LastDotOfSigned("x", short);
    LastDotOfSigned("x", long);
    assert "x." + short == "x" + "." + short;
    assert "x." + long == "x" + "." + long;
    assert ("x." + short)[2] as int >= 0x80;
    AsWrittenThrowsIff(cfg, CookieString("x." + short));
  }

  /** Where the as-written comparison does not throw, it agrees with the model's. */
  lemma AsWrittenAgreesUnlessItThrows(cfg: Config, cookie: CookieField)
    requires !GetVisitorIdAsWritten(cfg, cookie).RangeError?
    ensures GetVisitorIdAsWritten(cfg, cookie).Verified?
            <==> GetVisitorId(cfg, cookie).Some?
    ensures GetVisitorId(cfg, cookie).Some? ==>
              GetVisitorIdAsWritten(cfg, cookie) == Verified(GetVisitorId(cfg, cookie).value)
  {
  }

  // ----- Writing the cookie -----

  datatype CookieOptions = CookieOptions(
    httpOnly: bool, secure: bool, sameSite: string, maxAge: int, path: string)

  /** One `res.cookie(name, value, options)` call. */
  datatype CookieWrite = CookieWrite(name: string, value: string, options: CookieOptions)

  /** The options of a minted visitor cookie: http-only, SameSite=Lax, one year,
      the whole site, and `Secure` only in production. */
  function VisitorCookieOptions(cfg: Config): (o: CookieOptions)
    ensures o.httpOnly && o.sameSite == "lax" && o.path == "/"
    ensures o.maxAge == 31536000000
    ensures o.secure <==> cfg.isProduction
  {
    CookieOptions(true, cfg.isProduction, "lax", OneYearMs, "/")
  }

  function VisitorCookie(cfg: Config, id: string): CookieWrite {
    CookieWrite(CookieName, SignedValue(cfg, id), VisitorCookieOptions(cfg))
  }

  /** The outgoing response, reduced to the cookies written on it, in order. */
  class Response {
    var cookies: seq<CookieWrite>

    constructor ()
      ensures cookies == []
    {
      cookies := [];
    }
  }

  /** `createVisitorCookie`: mint an id, write its signed cookie, return the id. */
  method CreateVisitorCookie(cfg: Config, res: Response, uuid: Uuid) returns (id: string)
    modifies res
    ensures id == uuid
    ensures res.cookies == old(res.cookies) + [VisitorCookie(cfg, id)]
    ensures GetVisitorId(cfg, CookieString(res.cookies[|res.cookies| - 1].value)) == Some(id)
  {
    id := uuid;
    var signed := id + "." + Sign(cfg, id);
    res.cookies := res.cookies + [CookieWrite(CookieName, signed, VisitorCookieOptions(cfg))];
    VisitorCookieRoundTrip(cfg, id);
  }

  /** `ensureVisitorCookie`: mint a cookie unless the request carries a valid,
      non-empty visitor id. */
  method EnsureVisitorCookie(cfg: Config, req: Request, res: Response, uuid: Uuid)
    modifies res
    ensures res.cookies == old(res.cookies)
              + if IsTruthy(GetVisitorId(cfg, req.visitorCookie)) then []
                else [VisitorCookie(cfg, uuid)]
  {
    if !IsTruthy(GetVisitorId(cfg, req.visitorCookie)) {
      var _ := CreateVisitorCookie(cfg, res, uuid);
    }
  }

  datatype IdentityType = Authenticated | Visitor | Anonymous

  datatype ResolvedIdentity = ResolvedIdentity(
    identityType: IdentityType,
    identifier: string,
    userId: Option<int>,
    visitorId: Option<string>,
    fingerprintHash: string,
    ipAddress: string,
    userAgent: string)

  /** A numeric id is truthy (`user?.id`, `identity.userId`): present and not 0. */
  predicate IsTruthyId(id: Option<int>) {
    id.Some? && id.value != 0
  }

  /** `resolve`: authenticated user first, then a valid visitor cookie, then a
      freshly minted visitor id. `user` is the authenticated user's id, if any. */
  method Resolve(cfg: Config, req: Request, res: Response, user: Option<int>, uuid: Uuid)
    returns (identity: ResolvedIdentity)
    modifies res
    ensures identity.ipAddress == GetIp(req) && identity.userAgent == UserAgentOf(req)
    ensures identity.fingerprintHash == Fingerprint(cfg, GetIp(req), UserAgentOf(req))
    ensures identity.identityType != Anonymous
    ensures identity.identityType == Authenticated <==> IsTruthyId(user)
    ensures IsTruthyId(user) ==>
              && identity.identifier == IntToString(user.value)
              && identity.userId == user
              && identity.visitorId == GetVisitorId(cfg, req.visitorCookie)
    ensures !IsTruthyId(user) ==>
              && identity.userId == None
              && identity.visitorId == Some(identity.identifier)
              && identity.identifier ==
                   if IsTruthy(GetVisitorId(cfg, req.visitorCookie))
                   then GetVisitorId(cfg, req.visitorCookie).value else uuid
    ensures res.cookies == old(res.cookies)
              + if IsTruthy(GetVisitorId(cfg, req.visitorCookie)) then []
                else [VisitorCookie(cfg, uuid)]
  {
    var ipAddress := GetIp(req);
    var userAgent := UserAgentOf(req);
    var fingerprintHash := Fingerprint(cfg, ipAddress, userAgent);

    if IsTruthyId(user) {
      EnsureVisitorCookie(cfg, req, res, uuid);
      identity := ResolvedIdentity(Authenticated, IntToString(user.value), user,
                                   GetVisitorId(cfg, req.visitorCookie),
                                   fingerprintHash, ipAddress, userAgent);
      return;
    }

    var visitorId := GetVisitorId(cfg, req.visitorCookie);
    if !IsTruthy(visitorId) {
      var minted := CreateVisitorCookie(cfg, res, uuid);
      visitorId := Some(minted);
    }

    if IsTruthy(visitorId) {
      identity := ResolvedIdentity(Visitor, visitorId.value, None, visitorId,
                                   fingerprintHash, ipAddress, userAgent);
    } else {
      identity := ResolvedIdentity(Anonymous, fingerprintHash, None, None,
                                   fingerprintHash, ipAddress, userAgent);
    }
  }
}
