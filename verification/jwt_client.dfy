/** The browser-side token helpers (campaign-manager-frontend/src/utils/jwt.js):
    splitting a compact JWS (section 7.1 of RFC 7515) into its three
    segments, restoring the base64 padding its unpadded encoding (section 2
    of RFC 7515) drops, and reading the claims without checking the
    signature.

    `atob` and `JSON.parse` are outside the model and arrive as function
    parameters: `atob` yields `None` when it throws; `parse` yields `None`
    when it throws or the JSON value is falsy (`null`, `false`, `0`, `""`),
    and otherwise the value's own properties. */
module JwtClient {
  import opened Values
  import opened Strings

  type Base64Decoder = string -> Option<string>
  type JsonParser = string -> Option<map<string, Value>>

  /** `payload + '==='.slice((payload.length + 3) % 4)`. */
  function Pad(payload: string): string {
    payload + "==="[(|payload| + 3) % 4..]
  }

  /** The padded text is the payload followed by just enough `=` to reach
      a multiple of four: none, three, two or one for a length of 0, 1, 2
      or 3 modulo 4. */
  lemma PadSpec(payload: string)
    ensures var p := Pad(payload);
      && |p| % 4 == 0
      && p[..|payload|] == payload
      && |p| - |payload| == (4 - |payload| % 4) % 4
      && forall i :: |payload| <= i < |p| ==> p[i] == '='
  {
    var n := |payload|;
    var k := (n + 3) % 4;
    PadArithmetic(n);
    var pad := "==="[k..];
    assert |pad| == 3 - k;
    var p := payload + pad;
    assert p == Pad(payload);
    assert |p| == n + 3 - k;
    assert p[..n] == payload;
    forall i | n <= i < |p| ensures p[i] == '=' {
      assert p[i] == pad[i - n];
    }
  }

  /** The number of `=` is `3 - (n + 3) % 4`, which tops `n` up to a
      multiple of four. */
  lemma PadArithmetic(n: nat)
    ensures 3 - (n + 3) % 4 == (4 - n % 4) % 4
    ensures (n + 3 - (n + 3) % 4) % 4 == 0
  {
    var q, r := n / 4, n % 4;
    assert n == 4 * q + r;
    if r == 0 { assert n + 3 == 4 * q + 3; }
    else { assert n + 3 == 4 * (q + 1) + (r - 1); }
  }

  /** Padding is idempotent on text whose length is already a multiple
      of four. */
  lemma PadAligned(payload: string)
    requires |payload| % 4 == 0
    ensures Pad(payload) == payload
  {
    assert "==="[3..] == "";
  }

  /** `decodeJWT(token)`: `None` for the caught exception (wrong number of
      segments, `atob` or `JSON.parse` failing) and for a falsy result. */
  function DecodeJwt(token: string, atob: Base64Decoder, parse: JsonParser): (r: Option<map<string, Value>>)
    ensures CountChar(token, '.') != 2 ==> r.None?
  {
    var parts := Split(token, '.');
    if |parts| != 3 then None
    else
      match atob(Pad(parts[1]))
      case None => None
      case Some(text) => parse(text)
  }

  /** Only the middle segment is read: the claims of
      `header.payload.signature` are those of the payload whatever the
      header and signature are. */
  lemma DecodeReadsOnlyPayload(header: string, payload: string, signature: string, atob: Base64Decoder, parse: JsonParser)
    requires '.' !in header && '.' !in payload && '.' !in signature
    ensures DecodeJwt(header + "." + payload + "." + signature, atob, parse) ==
      (match atob(Pad(payload)) case None => None case Some(text) => parse(text))
  {
    var parts := [header, payload, signature];
    assert Join(parts, '.') == header + "." + payload + "." + signature by {
      assert Join(parts[2..], '.') == signature;
      assert Join(parts[1..], '.') == payload + "." + signature;
    }
    SplitJoin(parts, '.');
  }

  /** A token with fewer or more than two dots never decodes. */
  lemma MalformedTokens(atob: Base64Decoder, parse: JsonParser)
    ensures DecodeJwt("abc", atob, parse).None?
    ensures DecodeJwt("a.b.c.d", atob, parse).None?
  {
    assert CountChar("abc", '.') == 0;
    assert CountChar("a.b.c.d", '.') == 3;
  }

  /** `isTokenExpired(token)` at the instant `nowMs` (`Date.now()`).
      JavaScript's number coercion of a non-numeric `exp` is outside the
      model and arrives as `toNumber` (`None` for NaN). */
  function IsTokenExpired(
    token: string, nowMs: int, atob: Base64Decoder, parse: JsonParser,
    toNumber: Value -> Option<int>): (r: bool)
    ensures DecodeJwt(token, atob, parse).None? ==> r
    ensures DecodeJwt(token, atob, parse).Some? && !JsTruthy(Prop(DecodeJwt(token, atob, parse).value, "exp")) ==> r
    ensures (DecodeJwt(token, atob, parse).Some? && Prop(DecodeJwt(token, atob, parse).value, "exp").Num?
             && Prop(DecodeJwt(token, atob, parse).value, "exp").n != 0) ==>
      (r <==> nowMs >= Prop(DecodeJwt(token, atob, parse).value, "exp").n * 1000)
  {
    match DecodeJwt(token, atob, parse)
    case None => true
    case Some(claims) =>
      var exp := Prop(claims, "exp");
      if !JsTruthy(exp) then true
      else
        var seconds := if exp.Num? then Some(exp.n) else if exp.Bool? then Some(1) else toNumber(exp);
        // A comparison with NaN is false.
        seconds.Some? && nowMs >= seconds.value * 1000
  }

  /** Once expired, a token stays expired. */
  lemma ExpiryMonotone(
    token: string, t1: int, t2: int, atob: Base64Decoder, parse: JsonParser,
    toNumber: Value -> Option<int>)
    requires t1 <= t2
    ensures IsTokenExpired(token, t1, atob, parse, toNumber) ==> IsTokenExpired(token, t2, atob, parse, toNumber)
  {
  }

  /** The boundary is inclusive: at exactly `exp` seconds the token has
      expired, one millisecond earlier it has not. */
  lemma ExpiryBoundary(token: string, atob: Base64Decoder, parse: JsonParser, toNumber: Value -> Option<int>, exp: int)
    requires exp != 0
    requires DecodeJwt(token, atob, parse).Some?
    requires Prop(DecodeJwt(token, atob, parse).value, "exp") == Num(exp)
    ensures IsTokenExpired(token, exp * 1000, atob, parse, toNumber)
    ensures !IsTokenExpired(token, exp * 1000 - 1, atob, parse, toNumber)
  {
  }

  /** The object `getUserFromToken` builds. */
  datatype TokenUser = TokenUser(id: Value, iat: Value, exp: Value, jti: Value)

  /** `getUserFromToken(token)`: `None` exactly when decoding fails; the id
      is the `sub` claim and `iat`, `exp`, `jti` are copied. */
  function GetUserFromToken(token: string, atob: Base64Decoder, parse: JsonParser): (r: Option<TokenUser>)
    ensures r.None? <==> DecodeJwt(token, atob, parse).None?
    ensures r.Some? ==> var claims := DecodeJwt(token, atob, parse).value;
      r.value == TokenUser(Prop(claims, "sub"), Prop(claims, "iat"), Prop(claims, "exp"), Prop(claims, "jti"))
  {
    match DecodeJwt(token, atob, parse)
    case None => None
    case Some(claims) => Some(TokenUser(Prop(claims, "sub"), Prop(claims, "iat"), Prop(claims, "exp"), Prop(claims, "jti")))
  }

  /** The user built from a token and the expiry test agree: a token that
      yields no user counts as expired, and for a user with a numeric
      non-zero `exp` the token is expired exactly from `exp` seconds on. */
  lemma TokenUserAgreesWithExpiry(
    token: string, nowMs: int, atob: Base64Decoder, parse: JsonParser, toNumber: Value -> Option<int>)
    ensures GetUserFromToken(token, atob, parse).None? ==> IsTokenExpired(token, nowMs, atob, parse, toNumber)
    ensures var u := GetUserFromToken(token, atob, parse);
      u.Some? && !JsTruthy(u.value.exp) ==> IsTokenExpired(token, nowMs, atob, parse, toNumber)
    ensures var u := GetUserFromToken(token, atob, parse);
      u.Some? && u.value.exp.Num? && u.value.exp.n != 0 ==>
        (IsTokenExpired(token, nowMs, atob, parse, toNumber) <==> nowMs >= u.value.exp.n * 1000)
  {
  }
}
