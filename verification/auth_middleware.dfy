/** The bearer-token middleware in front of every protected route. It
    rejects a request without an `Authorization: Bearer …` header before it
    looks at the server's secret, takes the token as the second
    space-separated piece of the header, verifies it with the access secret
    and maps each verification failure to a client-facing error.

    `jwt.verify` is the parameter `verify`; the environment's
    `JWT_ACCESS_SECRET` is the parameter `secret`. */
module AuthMiddleware {
  import opened Common
  import opened Text

  const BEARER_PREFIX: string := "Bearer "

  const AUTH_REQUIRED := AppError("Authentication required", 401)
  const SERVER_MISCONFIGURED := AppError("Server configuration error", 500)
  const TOKEN_EXPIRED := AppError("Token expired", 401)
  const INVALID_TOKEN := AppError("Invalid token", 401)
  const AUTH_FAILED := AppError("Authentication failed", 401)

  /** What `jwt.verify` yields: the payload's `userId` (absent when the
      payload has none), or the error class it throws. `NotBefore` and
      `Malformed` are both `JsonWebTokenError`s; `Unexpected` is any other
      error. */
  datatype Verification =
    | Verified(userId: Option<string>)
    | TokenExpired
    | NotBefore
    | Malformed
    | Unexpected

  /** Either the request goes on with `req.userId` set, or `next(error)`. */
  datatype Decision = Authenticated(userId: Option<string>) | Rejected(error: AppError)

  /** A header that starts with "Bearer " splits into "Bearer" and the
      pieces of the rest. */
  lemma PrefixSplit(header: string)
    requires StartsWith(header, BEARER_PREFIX)
    ensures Split(header, ' ') == ["Bearer"] + Split(header[|BEARER_PREFIX|..], ' ')
  {
    assert header[..7] == "Bearer ";
    assert IndexOf(header, ' ') == 6 by {
      assert header[6] == ' ';
      assert forall j :: 0 <= j < 6 ==> header[j] == "Bearer "[j];
    }
    assert header[..6] == "Bearer";
  }

  /** The token: the second piece of the header split at spaces. */
  function BearerToken(header: string): string
    requires StartsWith(header, BEARER_PREFIX)
  {
    PrefixSplit(header);
    Split(header, ' ')[1]
  }

  /** The text after "Bearer " up to the next space. */
  function TokenAfterPrefix(header: string): (r: string)
    requires StartsWith(header, BEARER_PREFIX)
  {
    var rest := header[|BEARER_PREFIX|..];
    rest[..IndexOf(rest, ' ')]
  }

  /** The second piece of the split is exactly the text after the prefix up
      to the next space, so extra words after the token are ignored. */
  lemma BearerTokenIsAfterPrefix(header: string)
    requires StartsWith(header, BEARER_PREFIX)
    ensures BearerToken(header) == TokenAfterPrefix(header)
  {
    PrefixSplit(header);
  }

  /** The environment variable counts as set when present and non-empty. */
  predicate SecretSet(secret: Option<string>)
  {
    secret.Some? && secret.value != ""
  }

  function Authenticate(header: Option<string>, secret: Option<string>,
                        verify: (string, string) -> Verification): (d: Decision)
  {
    if header.None? || header.value == "" || !StartsWith(header.value, BEARER_PREFIX) then Rejected(AUTH_REQUIRED)
    else
      var token := BearerToken(header.value);
      if !SecretSet(secret) then Rejected(SERVER_MISCONFIGURED)
      else match verify(token, secret.value)
        case Verified(userId) => Authenticated(userId)
        case TokenExpired => Rejected(TOKEN_EXPIRED)
        case NotBefore => Rejected(INVALID_TOKEN)
        case Malformed => Rejected(INVALID_TOKEN)
        case Unexpected => Rejected(AUTH_FAILED)
  }

  /** A request passes exactly when it carries a Bearer header, the secret
      is set and the token verifies under it; the user id is the payload's. */
  lemma AuthenticateMeaning(header: Option<string>, secret: Option<string>, verify: (string, string) -> Verification)
    ensures var d := Authenticate(header, secret, verify);
            && (d.Authenticated? <==>
                  && header.Some? && StartsWith(header.value, BEARER_PREFIX)
                  && SecretSet(secret)
                  && verify(TokenAfterPrefix(header.value), secret.value).Verified?)
            && (d.Authenticated? ==> d.userId == verify(TokenAfterPrefix(header.value), secret.value).userId)
  {
    if header.Some? && StartsWith(header.value, BEARER_PREFIX) {
      BearerTokenIsAfterPrefix(header.value);
    }
  }

  /** Without a Bearer header the answer is 401 "Authentication required",
      whatever the server's configuration. */
  lemma HeaderCheckedFirst(header: Option<string>, secret: Option<string>, verify: (string, string) -> Verification)
    requires header.None? || !StartsWith(header.value, BEARER_PREFIX)
    ensures Authenticate(header, secret, verify) == Rejected(AUTH_REQUIRED)
  {
  }

  /** Each way of failing has its own error; only the missing secret is a
      server error. */
  lemma RejectionReasons(header: Option<string>, secret: Option<string>, verify: (string, string) -> Verification)
    requires header.Some? && StartsWith(header.value, BEARER_PREFIX)
    ensures var d := Authenticate(header, secret, verify);
            var v := verify(TokenAfterPrefix(header.value), if secret.Some? then secret.value else "");
            && (!SecretSet(secret) ==> d == Rejected(SERVER_MISCONFIGURED))
            && (SecretSet(secret) && v == TokenExpired ==> d == Rejected(TOKEN_EXPIRED))
            && (SecretSet(secret) && (v == NotBefore || v == Malformed) ==> d == Rejected(INVALID_TOKEN))
            && (SecretSet(secret) && v == Unexpected ==> d == Rejected(AUTH_FAILED))
            && (d.Rejected? ==> d.error.status == (if SecretSet(secret) then 401 else 500))
  {
    BearerTokenIsAfterPrefix(header.value);
  }

  /** A token followed by more words is verified without them. */
  lemma TrailingWordsIgnored(token: string, extra: string, secret: Option<string>,
                             verify: (string, string) -> Verification)
    requires forall j :: 0 <= j < |token| ==> token[j] != ' '
    ensures Authenticate(Some(BEARER_PREFIX + token + " " + extra), secret, verify)
              == Authenticate(Some(BEARER_PREFIX + token), secret, verify)
  {
    var long := BEARER_PREFIX + token + " " + extra;
    var short := BEARER_PREFIX + token;
    TokenBeforeSpace(token, " " + extra);
    TokenBeforeSpace(token, "");
    assert long == BEARER_PREFIX + token + (" " + extra);
    assert short == BEARER_PREFIX + token + "";
    BearerTokenIsAfterPrefix(long);
    BearerTokenIsAfterPrefix(short);
  }

  /** The token read from "Bearer " + token + tail, when the token holds no
      space and the tail is empty or starts with one. */
  lemma TokenBeforeSpace(token: string, tail: string)
    requires forall j :: 0 <= j < |token| ==> token[j] != ' '
    requires tail == [] || tail[0] == ' '
    ensures var header := BEARER_PREFIX + token + tail;
            StartsWith(header, BEARER_PREFIX) && TokenAfterPrefix(header) == token
  {
    var header := BEARER_PREFIX + token + tail;
    assert header[..7] == BEARER_PREFIX;
    var rest := header[7..];
    assert rest == token + tail;
    IndexOfAt(rest, ' ', |token|);
    assert rest[..|token|] == token;
  }
}
