/** Request signing of `CoinbaseAuth`: the message that is signed, the five authentication
    headers, and the update of an outgoing request with them. The base64 and HMAC-SHA256
    routines are the fields of `Crypto`, taken as given functions; the timestamp, read from
    the clock as `str(time.time())`, is a parameter. */
module Auth {
  import opened Wrappers

  newtype byte = x: int | 0 <= x < 256

  datatype Credentials = Credentials(apiKey: string, secretKey: string, passphrase: string)

  /** The parts of an outgoing request that signing reads or changes. */
  datatype Request = Request(verb: string, pathUrl: string, body: Option<string>, headers: map<string, string>)

  /** `base64.b64decode` (`None` where it raises), `hmac.new(key, message,
      sha256).digest()` and `base64.b64encode(...).decode('utf-8')`. */
  datatype Crypto = Crypto(
    b64decode: string -> Option<seq<byte>>,
    hmacSha256: (seq<byte>, seq<byte>) -> seq<byte>,
    b64encode: seq<byte> -> string)

  /** `message.encode('ascii')` raises on a character outside ASCII; `b64decode` raises on
      a malformed secret. */
  datatype AuthError = NonAsciiMessage | MalformedSecret

  const HeaderNames: set<string> :=
    {"Content-Type", "CB-ACCESS-SIGN", "CB-ACCESS-TIMESTAMP", "CB-ACCESS-KEY", "CB-ACCESS-PASSPHRASE"}

  /** `request.body or ''`: an absent body is signed as the empty text. */
  function BodyText(body: Option<string>): (t: string)
    ensures body.None? ==> t == ""
    ensures body.Some? ==> t == body.value
  {
    match body
    case None => ""
    case Some(b) => b
  }

  /** The signed message: the timestamp, the method, the path and the body, in that order
      and with nothing between them. */
  function SigningMessage(timestamp: string, verb: string, pathUrl: string, body: Option<string>): (m: string)
    ensures |m| == |timestamp| + |verb| + |pathUrl| + |BodyText(body)|
    ensures m[..|timestamp|] == timestamp
    ensures m[|timestamp|..|timestamp| + |verb|] == verb
    ensures m[|timestamp| + |verb|..|m| - |BodyText(body)|] == pathUrl
    ensures m[|m| - |BodyText(body)|..] == BodyText(body)
  {
    timestamp + verb + pathUrl + BodyText(body)
  }

  predicate IsAscii(s: string) {
    forall i :: 0 <= i < |s| ==> s[i] as int < 128
  }

  /** `s.encode('ascii')`: one byte per character, or nothing if a character is outside
      ASCII. */
  function AsciiEncode(s: string): (r: Option<seq<byte>>)
    ensures r.Some? <==> IsAscii(s)
    ensures r.Some? ==> |r.value| == |s| && forall i :: 0 <= i < |s| ==> r.value[i] as int == s[i] as int
  {
    if IsAscii(s) then Some(seq(|s|, i requires 0 <= i < |s| => s[i] as int as byte)) else None
  }

  /** `get_auth_headers`: encode the message, decode the secret, sign, and put the
      signature, the timestamp, the key and the passphrase in the headers. */
  function AuthHeaders(crypto: Crypto, timestamp: string, message: string,
                       apiKey: string, secretKey: string, passphrase: string): (r: Result<map<string, string>, AuthError>)
    ensures r == Failure(NonAsciiMessage) <==> !IsAscii(message)
    ensures r == Failure(MalformedSecret) <==> IsAscii(message) && crypto.b64decode(secretKey).None?
    ensures r.Success? ==>
      && r.value.Keys == HeaderNames
      && r.value["Content-Type"] == "application/json"
      && r.value["CB-ACCESS-SIGN"]
         == crypto.b64encode(crypto.hmacSha256(crypto.b64decode(secretKey).value, AsciiEncode(message).value))
      && r.value["CB-ACCESS-TIMESTAMP"] == timestamp
      && r.value["CB-ACCESS-KEY"] == apiKey
      && r.value["CB-ACCESS-PASSPHRASE"] == passphrase
  {
    match AsciiEncode(message)
    case None => Failure(NonAsciiMessage)
    case Some(bytes) =>
      match crypto.b64decode(secretKey)
      case None => Failure(MalformedSecret)
      case Some(key) =>
        var signature := crypto.b64encode(crypto.hmacSha256(key, bytes));
        Success(map[
          "Content-Type" := "application/json",
          "CB-ACCESS-SIGN" := signature,
          "CB-ACCESS-TIMESTAMP" := timestamp,
          "CB-ACCESS-KEY" := apiKey,
          "CB-ACCESS-PASSPHRASE" := passphrase])
  }

  /** `CoinbaseAuth.__call__`: build the message from the request, compute the headers with
      the same timestamp, and update the request's headers with them. */
  function Sign(creds: Credentials, crypto: Crypto, request: Request, timestamp: string): (r: Result<Request, AuthError>)
    ensures r.Success? ==>
      && r.value.verb == request.verb && r.value.pathUrl == request.pathUrl && r.value.body == request.body
      && r.value.headers.Keys == request.headers.Keys + HeaderNames
  {
    var message := SigningMessage(timestamp, request.verb, request.pathUrl, request.body);
    match AuthHeaders(crypto, timestamp, message, creds.apiKey, creds.secretKey, creds.passphrase)
    case Failure(e) => Failure(e)
    case Success(h) => Success(request.(headers := request.headers + h))
  }

  /** A signed request carries the timestamp that begins the signed message, the signature
      of exactly that message under the decoded secret, the key and the passphrase; the
      other headers it had are kept. */
  lemma SignedHeaders(creds: Credentials, crypto: Crypto, request: Request, timestamp: string)
    requires Sign(creds, crypto, request, timestamp).Success?
    ensures var message := SigningMessage(timestamp, request.verb, request.pathUrl, request.body);
      var h := Sign(creds, crypto, request, timestamp).value.headers;
      && IsAscii(message)
      && crypto.b64decode(creds.secretKey).Some?
      && h["CB-ACCESS-TIMESTAMP"] == timestamp == message[..|timestamp|]
      && h["CB-ACCESS-SIGN"]
         == crypto.b64encode(crypto.hmacSha256(crypto.b64decode(creds.secretKey).value, AsciiEncode(message).value))
      && h["CB-ACCESS-KEY"] == creds.apiKey
      && h["CB-ACCESS-PASSPHRASE"] == creds.passphrase
      && (forall k :: k in request.headers && k !in HeaderNames ==> h[k] == request.headers[k])
  {
  }

  /** Signing fails exactly when the message is not ASCII or the secret does not decode,
      and the encoding check comes first. */
  lemma SignFailures(creds: Credentials, crypto: Crypto, request: Request, timestamp: string)
    ensures var message := SigningMessage(timestamp, request.verb, request.pathUrl, request.body);
      var r := Sign(creds, crypto, request, timestamp);
      && (r == Failure(NonAsciiMessage) <==> !IsAscii(message))
      && (r == Failure(MalformedSecret) <==> IsAscii(message) && crypto.b64decode(creds.secretKey).None?)
      && (r.Success? <==> IsAscii(message) && crypto.b64decode(creds.secretKey).Some?)
  {
  }

  /** Given the timestamp, the method and the path, the signed message determines the
      body text. */
  lemma MessageDeterminesBody(timestamp: string, verb: string, pathUrl: string, b1: Option<string>, b2: Option<string>)
    requires SigningMessage(timestamp, verb, pathUrl, b1) == SigningMessage(timestamp, verb, pathUrl, b2)
    ensures BodyText(b1) == BodyText(b2)
  {
    var m := SigningMessage(timestamp, verb, pathUrl, b1);
    var prefix := |timestamp| + |verb| + |pathUrl|;
    assert m[prefix..] == BodyText(b1);
    assert SigningMessage(timestamp, verb, pathUrl, b2)[prefix..] == BodyText(b2);
  }
}
