/** `valid_user` (src/middlewares/users.rs): checks the `authorization`
    header, takes the second space-separated piece as the token, reads its
    claims without verifying the signature, and rejects the token once it is
    a whole day or more past its `expires` time. */
module Middleware {
  import opened Wrappers
  import opened Text
  import opened Utils

  /** The header value; `NonPrintable` is a value `to_str` refuses. */
  datatype HeaderValue = Printable(text: string) | NonPrintable

  /** What reading the token's claims gives (`raw::split_token`,
      `raw::decode_json_token_slice`, `from_value::<JWTData>` and the parse of
      `expires`, taken together; the signature is never checked). */
  datatype TokenClaims =
    | DecodeFailed                        // split_token or decode_json_token_slice failed
    | NotJwtData                          // no string `id`/`expires`: the from_value unwrap panics
    | ExpiresUnparsable                   // not "%Y-%m-%d %H:%M:%S": the datetime unwrap panics
    | JwtData(id: string, expires: int)   // `expires` in seconds

  datatype JwtError = DecodeError | TokenExpiredAt(code: int)

  /** `ValidResponse`: the caller's identity, or the response to return at once. */
  datatype ValidResponse = Id(id: string) | Respo(response: Response)

  /** Everything `valid_user` looks at: the header, the claims decoder and the clock. */
  datatype AuthContext = AuthContext(authorization: Option<HeaderValue>, decode: string -> TokenClaims, now: int)

  const SecondsPerDay := 86400

  /** chrono's `Duration::num_days`: whole days, truncated toward zero. */
  function NumDays(seconds: int): (days: int)
    ensures seconds >= 0 ==> days >= 0 && days * SecondsPerDay <= seconds < (days + 1) * SecondsPerDay
    ensures seconds < 0 ==> days <= 0 && -days * SecondsPerDay <= -seconds < (-days + 1) * SecondsPerDay
  {
    if seconds >= 0 then seconds / SecondsPerDay else -((-seconds) / SecondsPerDay)
  }

  /** `(now - expires).num_days() >= 1`. */
  predicate Expired(now: int, expires: int)
  {
    NumDays(now - expires) >= 1
  }

  /** The early checks on the header: present, printable, at least two
      characters, and split by " " into at least two pieces; the token is
      the second piece. */
  function BearerToken(authorization: Option<HeaderValue>): (r: Result<string, Response>)
    ensures r.Err? ==> r.error.status == 400
  {
    match authorization
    case None => Err(ErrorResponse("token is necessary", None))
    case Some(NonPrintable) => Err(ErrorResponse("", None))
    case Some(Printable(bearer)) =>
      if |bearer| < 2 then Err(ErrorResponse("token is necessary", None))
      else
        var splited := Split(bearer, ' ');
        if |splited| < 2 then Err(ErrorResponse("token is necessary", None))
        else Ok(splited[1])
  }

  /** The two `unwrap`s of `valid_user` succeed on this request. */
  predicate Decodable(ctx: AuthContext)
  {
    match BearerToken(ctx.authorization)
    case Ok(token) => !ctx.decode(token).NotJwtData? && !ctx.decode(token).ExpiresUnparsable?
    case Err(_) => true
  }

  function ValidUser(ctx: AuthContext): (r: Result<ValidResponse, JwtError>)
    requires Decodable(ctx)
    ensures r.Ok? && r.value.Respo? <==> BearerToken(ctx.authorization).Err?
    ensures r.Ok? && r.value.Id? <==>
      BearerToken(ctx.authorization).Ok? &&
      ctx.decode(BearerToken(ctx.authorization).value).JwtData? &&
      ctx.now - ctx.decode(BearerToken(ctx.authorization).value).expires < SecondsPerDay
    ensures r.Ok? && r.value.Id? ==> r.value.id == ctx.decode(BearerToken(ctx.authorization).value).id
  {
    match BearerToken(ctx.authorization)
    case Err(response) => Ok(Respo(response))
    case Ok(token) =>
      match ctx.decode(token)
      case DecodeFailed => Err(DecodeError)
      case JwtData(id, expires) =>
        if Expired(ctx.now, expires) then Err(TokenExpiredAt(13)) else Ok(Id(id))
  }

  /** What every authenticated handler does with `valid_user`'s result:
      continue with the identity, return the prepared response, or answer
      the generic error for a token error. */
  function Authenticate(ctx: AuthContext): (r: Result<string, Response>)
    requires Decodable(ctx)
    ensures r.Err? ==> r.error.status == 400 && r.error.body.ErrorJson?
    ensures r.Ok? <==> ValidUser(ctx).Ok? && ValidUser(ctx).value.Id?
    ensures r.Ok? ==> r.value == ValidUser(ctx).value.id
    ensures ValidUser(ctx).Ok? && ValidUser(ctx).value.Respo? ==> r == Err(ValidUser(ctx).value.response)
    ensures ValidUser(ctx).Err? ==> r == Err(ErrorResponse("", None))
  {
    match ValidUser(ctx)
    case Ok(Id(id)) => Ok(id)
    case Ok(Respo(response)) => Err(response)
    case Err(_) => Err(ErrorResponse("", None))
  }

  /** The token is expired exactly when `now` is at least 86400 seconds past
      `expires`: a future expiry, or one less than a day old, is accepted. */
  lemma ExpiredIff(now: int, expires: int)
    ensures Expired(now, expires) <==> now - expires >= SecondsPerDay
  {
  }

  /** A missing header asks for a token. */
  lemma MissingHeader(decode: string -> TokenClaims, now: int)
    ensures ValidUser(AuthContext(None, decode, now)) == Ok(Respo(ErrorResponse("token is necessary", None)))
  {
  }

  /** A value `to_str` refuses gets the generic 400 "Internal Server Error". */
  lemma NonPrintableHeader(decode: string -> TokenClaims, now: int)
    ensures ValidUser(AuthContext(Some(NonPrintable), decode, now)) == Ok(Respo(Response(400, ErrorJson("Internal Server Error"))))
  {
  }

  /** A value shorter than two characters, or one without a space, asks
      for a token, whatever the decoder would say. */
  lemma MalformedHeader(bearer: string, decode: string -> TokenClaims, now: int)
    requires |bearer| < 2 || ' ' !in bearer
    ensures BearerToken(Some(Printable(bearer))) == Err(ErrorResponse("token is necessary", None)) &&
      ValidUser(AuthContext(Some(Printable(bearer)), decode, now)) == Ok(Respo(ErrorResponse("token is necessary", None)))
  {
    if |bearer| >= 2 {
      SplitCount(bearer, ' ');
      assert multiset(bearer)[' '] == 0;
    }
  }

  /** A value with a space and two characters or more always reaches the decoder. */
  lemma WellFormedHeader(bearer: string)
    requires |bearer| >= 2 && ' ' in bearer
    ensures BearerToken(Some(Printable(bearer))).Ok?
  {
    SplitCount(bearer, ' ');
  }

  /** The token is exactly the piece after the first space, up to the next
      space or the end; whatever follows is ignored. */
  lemma TokenIsSecondPiece(scheme: string, token: string, rest: string)
    requires ' ' !in scheme && ' ' !in token
    requires rest == [] || rest[0] == ' '
    requires |scheme + " " + token + rest| >= 2
    ensures BearerToken(Some(Printable(scheme + " " + token + rest))) == Ok(token)
  {
    var bearer := scheme + " " + token + rest;
    assert bearer == scheme + [' '] + (token + rest);
    SplitAtFirst(scheme, token + rest, ' ');
    if rest == [] {
      assert token + rest == token;
      SplitNoSeparator(token, ' ');
    } else {
      assert token + rest == token + [' '] + rest[1..];
      SplitAtFirst(token, rest[1..], ' ');
    }
  }

  /** Once the token is found, the decision depends only on its claims and
      the clock: a decode error or an expiry a day or more past gives an
      error, anything else the claims' id unchanged. */
  lemma Decision(ctx: AuthContext, token: string)
    requires BearerToken(ctx.authorization) == Ok(token)
    requires Decodable(ctx)
    ensures ctx.decode(token).DecodeFailed? ==> ValidUser(ctx) == Err(DecodeError)
    ensures ctx.decode(token).JwtData? ==>
      ValidUser(ctx) == if ctx.now - ctx.decode(token).expires >= SecondsPerDay
        then Err(TokenExpiredAt(13)) else Ok(Id(ctx.decode(token).id))
  {
    if ctx.decode(token).JwtData? {
      ExpiredIff(ctx.now, ctx.decode(token).expires);
    }
  }
}
