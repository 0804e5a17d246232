/** The pure part of `NotificationListener.sendNotificationToServer`, up to the
    point where the request is handed to the HTTP client: host selection,
    signing message, signature, JSON body, URL and request. */
module Relay {
  import opened Wrappers
  import opened Decimal
  import opened Hex

  const PaymentPath := "/payment"
  const JsonMediaType := "application/json; charset=utf-8"
  /** Key of the stored environment flag in the `app_settings` preferences. */
  const IsProductionKey := "isProduction"

  /** Build-time configuration (`BuildConfig`). */
  datatype BuildConfig = BuildConfig(secretKey: string, hostDev: string, hostProd: string)

  /** The `app_settings` shared preferences, restricted to boolean entries. */
  type Preferences = map<string, bool>

  /** HMAC-SHA256 of a message under a key (RFC 2104 instantiated with SHA-256),
      as computed by `javax.crypto.Mac`; `None` stands for any exception the
      key setup or the computation throws. */
  type Mac = (string, string) -> Option<seq<SByte>>

  /** OkHttp's `String.toHttpUrl()`, which `Request.Builder.url(String)` calls:
      the parsed, canonical URL (as its text), or `None` when the text is not
      an http(s) URL and the call throws `IllegalArgumentException`. */
  type UrlParser = string -> Option<string>

  /** An outgoing HTTP request as built by `Request.Builder`; `url` is the
      parsed URL. */
  datatype Request = Request(httpMethod: string, url: string, contentType: string, body: string)

  /** The three fields of the JSON body. */
  datatype Payment = Payment(amount: string, time: Long, signature: string)

  /** `SharedPreferences.getBoolean(key, default)`. */
  function GetBoolean(prefs: Preferences, key: string, default: bool): bool
  {
    if key in prefs then prefs[key] else default
  }

  /** `getServerHost`: the production host only when the flag is stored and true. */
  function ServerHost(prefs: Preferences, config: BuildConfig): (host: string)
    ensures IsProductionKey in prefs && prefs[IsProductionKey] ==> host == config.hostProd
    ensures IsProductionKey in prefs && !prefs[IsProductionKey] ==> host == config.hostDev
    ensures IsProductionKey !in prefs ==> host == config.hostDev
  {
    if GetBoolean(prefs, IsProductionKey, false) then config.hostProd else config.hostDev
  }

  /** `"$amount$postTime"`: the amount, then the decimal text of the post time. */
  function Message(amount: string, postTime: Long): string
  {
    amount + LongToDecimal(postTime)
  }

  /** `generateHmacSha256Signature`: the lowercase hex of the MAC, or the empty
      string when the MAC computation throws. */
  function Signature(mac: Mac, secretKey: string, message: string): (sig: string)
    ensures mac(secretKey, message).None? ==> sig == ""
    ensures mac(secretKey, message).Some? ==>
      |sig| == 2 * |mac(secretKey, message).value| && AllLowerHex(sig)
  {
    match mac(secretKey, message)
    case None => ""
    case Some(hash) => EncodeHex(hash)
  }

  const AmountOpen := "{\"amount\": \""
  const TimeOpen := "\", \"time\": "
  const SignatureOpen := ", \"signature\": \""
  const BodyClose := "\"}"

  /** The interpolated JSON text: `amount` and `signature` inside quotes,
      `time` as a bare integer, keys in a fixed order, nothing escaped. */
  function Body(amount: string, postTime: Long, signature: string): string
  {
    AmountOpen + (amount + (TimeOpen + (LongToDecimal(postTime) + (SignatureOpen + (signature + BodyClose)))))
  }

  /** `"$serverHost/payment"`: the text handed to the URL parser, the host
      followed by the path. */
  function UrlText(host: string): string
  {
    host + PaymentPath
  }

  /** The request `sendNotificationToServer` builds before dispatching it, or
      `None` when the URL parser rejects the URL text: that exception is not
      caught, so no request is built or sent. */
  function SendNotificationToServer(amount: string, postTime: Long, prefs: Preferences,
                                    config: BuildConfig, mac: Mac, parseUrl: UrlParser): Option<Request>
  {
    var serverHost := ServerHost(prefs, config);
    var message := Message(amount, postTime);
    var signature := Signature(mac, config.secretKey, message);
    var body := Body(amount, postTime, signature);
    match parseUrl(UrlText(serverHost))
    case None => None
    case Some(url) => Some(Request("POST", url, JsonMediaType, body))
  }

  // ---------------------------------------------------------------------------
  // Reading a body back

  /** Text that JSON allows verbatim between quotes: no quote, no backslash and
      no control character. */
  predicate JsonSafe(s: string)
  {
    forall i :: 0 <= i < |s| ==> s[i] != '"' && s[i] != '\\' && s[i] >= ' '
  }

  predicate HasPrefix(s: string, prefix: string)
  {
    |prefix| <= |s| && s[..|prefix|] == prefix
  }

  /** Position of the first `c` in `s`, or `|s|` when there is none. */
  function IndexOf(s: string, c: char): (i: nat)
    ensures i <= |s|
    ensures forall j :: 0 <= j < i ==> s[j] != c
    ensures i < |s| ==> s[i] == c
  {
    if s == [] then 0 else if s[0] == c then 0 else 1 + IndexOf(s[1..], c)
  }

  /** A reader for the body's exact layout: each quoted field runs to the next
      '"' and must be JSON-safe (so it means itself, with no escape to undo),
      the time runs to the next ',' and must be a decimal integer. */
  function ParseBody(s: string): (r: Option<Payment>)
  {
    if !HasPrefix(s, AmountOpen) then None else ParseFromAmount(s[|AmountOpen|..])
  }

  function ParseFromAmount(s: string): Option<Payment>
  {
    var q := IndexOf(s, '"');
    if !JsonSafe(s[..q]) then None
    else
    match ParseFromTime(s[q..])
    case None => None
    case Some(timeAndSignature) => Some(Payment(s[..q], timeAndSignature.0, timeAndSignature.1))
  }

  function ParseFromTime(s: string): Option<(Long, string)>
  {
    if !HasPrefix(s, TimeOpen) then None
    else
      var rest := s[|TimeOpen|..];
      var c := IndexOf(rest, ',');
      match ParseLong(rest[..c])
      case None => None
      case Some(time) =>
        match ParseFromSignature(rest[c..])
        case None => None
        case Some(signature) => Some((time, signature))
  }

  function ParseFromSignature(s: string): Option<string>
  {
    if !HasPrefix(s, SignatureOpen) then None
    else
      var rest := s[|SignatureOpen|..];
      var q := IndexOf(rest, '"');
      if rest[q..] != BodyClose || !JsonSafe(rest[..q]) then None else Some(rest[..q])
  }

  // ---------------------------------------------------------------------------
  // Properties

  /** The first `c` in `a + b` is at `|a|` when `a` has none and `b` starts with one. */
  lemma IndexOfAfter(a: string, b: string, c: char)
    requires c !in a && |b| > 0 && b[0] == c
    ensures IndexOf(a + b, c) == |a|
  {
    assert (a + b)[|a|] == c;
  }

  /** The decimal text of a `Long` holds neither a quote nor a comma. */
  lemma DecimalHasNoDelimiters(n: Long)
    ensures '"' !in LongToDecimal(n) && ',' !in LongToDecimal(n)
  {
    LongToDecimalShape(n);
  }

  /** The signing message is the amount followed directly by the post time's
      decimal text: cutting it at `|amount|` gives both back. */
  lemma MessageSplit(amount: string, postTime: Long)
    ensures var m := Message(amount, postTime);
      |m| > |amount| && m[..|amount|] == amount && ParseLong(m[|amount|..]) == Some(postTime)
  {
    var m := Message(amount, postTime);
    assert m[|amount|..] == LongToDecimal(postTime);
    LongRoundTrip(postTime);
  }

  /** With no separator, the message alone does not fix where the amount ends:
      moving a trailing nonzero digit of the amount to the front of a
      non-negative post time leaves the message, and so the signature, unchanged. */
  lemma MessageAmbiguous(amount: string, d: nat, postTime: Long)
    requires 1 <= d < 10 && 0 <= postTime
    requires d * Pow10(|LongToDecimal(postTime)|) + postTime <= LONG_MAX
    ensures var shifted := d * Pow10(|LongToDecimal(postTime)|) + postTime;
      Message(amount + [DigitChar(d)], postTime) == Message(amount, shifted) &&
      forall mac: Mac, key: string ::
        Signature(mac, key, Message(amount + [DigitChar(d)], postTime)) == Signature(mac, key, Message(amount, shifted))
  {
    var t := NatToDecimal(postTime);
    PrependDigit(d, postTime);
    assert (amount + [DigitChar(d)]) + t == amount + ([DigitChar(d)] + t);
  }

  /** A successful MAC's hex reads back as the MAC bytes; a 32-byte HMAC-SHA256
      output gives 64 characters. A signature is always JSON-safe. */
  lemma SignatureShape(mac: Mac, secretKey: string, message: string)
    ensures var sig := Signature(mac, secretKey, message);
      JsonSafe(sig) &&
      (mac(secretKey, message).Some? ==> DecodeHex(sig) == Some(mac(secretKey, message).value)) &&
      (mac(secretKey, message).Some? && |mac(secretKey, message).value| == 32 ==> |sig| == 64)
  {
    var sig := Signature(mac, secretKey, message);
    if mac(secretKey, message).Some? {
      DecodeEncode(mac(secretKey, message).value);
    }
  }

  lemma ParseFromSignatureOf(signature: string)
    requires JsonSafe(signature)
    ensures ParseFromSignature(SignatureOpen + (signature + BodyClose)) == Some(signature)
  {
    var rest := signature + BodyClose;
    assert (SignatureOpen + rest)[|SignatureOpen|..] == rest;
    IndexOfAfter(signature, BodyClose, '"');
    assert rest[..|signature|] == signature && rest[|signature|..] == BodyClose;
  }

  lemma ParseFromTimeOf(postTime: Long, signature: string)
    requires JsonSafe(signature)
    ensures ParseFromTime(TimeOpen + (LongToDecimal(postTime) + (SignatureOpen + (signature + BodyClose))))
      == Some((postTime, signature))
  {
    var t := LongToDecimal(postTime);
    var tail := SignatureOpen + (signature + BodyClose);
    DecimalHasNoDelimiters(postTime);
    LongRoundTrip(postTime);
    ParseFromSignatureOf(signature);
    assert (TimeOpen + (t + tail))[|TimeOpen|..] == t + tail;
    IndexOfAfter(t, tail, ',');
    assert (t + tail)[..|t|] == t && (t + tail)[|t|..] == tail;
  }

  /** Reading the body back yields the fields it was built from, provided the
      two quoted fields are JSON-safe (nothing is escaped). */
  lemma BodyRoundTrip(amount: string, postTime: Long, signature: string)
    requires JsonSafe(amount) && JsonSafe(signature)
    ensures ParseBody(Body(amount, postTime, signature)) == Some(Payment(amount, postTime, signature))
  {
    var tail := TimeOpen + (LongToDecimal(postTime) + (SignatureOpen + (signature + BodyClose)));
    var b := Body(amount, postTime, signature);
    assert b[|AmountOpen|..] == amount + tail;
    ParseFromTimeOf(postTime, signature);
    IndexOfAfter(amount, tail, '"');
    assert (amount + tail)[..|amount|] == amount && (amount + tail)[|amount|..] == tail;
  }

  /** A quote inside the amount always breaks the round trip: the reader stops
      the amount at that quote. */
  lemma BodyQuoteInAmount(amount: string, postTime: Long, signature: string)
    requires '"' in amount
    ensures ParseBody(Body(amount, postTime, signature)) != Some(Payment(amount, postTime, signature))
  {
    var tail := TimeOpen + (LongToDecimal(postTime) + (SignatureOpen + (signature + BodyClose)));
    var b := Body(amount, postTime, signature);
    var afterOpen := b[|AmountOpen|..];
    assert afterOpen == amount + tail;
    var k :| 0 <= k < |amount| && amount[k] == '"';
    assert afterOpen[k] == '"';
    var q := IndexOf(afterOpen, '"');
    assert q <= k;
    assert |afterOpen[..q]| < |amount|;
  }

  /** Any amount that is not JSON-safe (a quote, a backslash or a control
      character, all interpolated unescaped) keeps the body from reading back
      as the payment it was built from. */
  lemma BodyRejectsUnsafeAmount(amount: string, postTime: Long, signature: string)
    requires !JsonSafe(amount)
    ensures ParseBody(Body(amount, postTime, signature)) != Some(Payment(amount, postTime, signature))
  {
    if '"' in amount {
      BodyQuoteInAmount(amount, postTime, signature);
    } else {
      var tail := TimeOpen + (LongToDecimal(postTime) + (SignatureOpen + (signature + BodyClose)));
      var b := Body(amount, postTime, signature);
      assert b[|AmountOpen|..] == amount + tail;
      IndexOfAfter(amount, tail, '"');
      assert (amount + tail)[..|amount|] == amount;
    }
  }

  /** The URL text is the host verbatim followed by the literal path, so
      distinct hosts give distinct texts (the parser may still map them to one
      canonical URL). */
  lemma UrlShape(host: string, other: string)
    ensures UrlText(host)[..|host|] == host && UrlText(host)[|host|..] == PaymentPath
    ensures UrlText(host) == UrlText(other) <==> host == other
  {
    if UrlText(host) == UrlText(other) {
      assert |host| == |other|;
      assert host == UrlText(host)[..|host|];
    }
  }

  /** A request is built exactly when the parser accepts the selected host
      followed by the payment path; an unparseable host sends nothing. */
  lemma RequestBuiltIffUrlParses(amount: string, postTime: Long, prefs: Preferences,
                                 config: BuildConfig, mac: Mac, parseUrl: UrlParser)
    ensures SendNotificationToServer(amount, postTime, prefs, config, mac, parseUrl).Some? <==>
      parseUrl(ServerHost(prefs, config) + PaymentPath).Some?
  {
    assert UrlText(ServerHost(prefs, config)) == ServerHost(prefs, config) + PaymentPath;
  }

  /** What the server receives: the amount, the post time, and the hex MAC of
      their concatenation under the secret key, all readable back from the body,
      in a JSON POST to the parsed URL of the selected host's payment path. */
  lemma RequestCarriesSignedPayment(amount: string, postTime: Long, prefs: Preferences,
                                    config: BuildConfig, mac: Mac, parseUrl: UrlParser)
    requires JsonSafe(amount)
    ensures var r := SendNotificationToServer(amount, postTime, prefs, config, mac, parseUrl);
      var sig := Signature(mac, config.secretKey, amount + LongToDecimal(postTime));
      r.Some? ==>
        r.value.httpMethod == "POST" && r.value.contentType == JsonMediaType &&
        Some(r.value.url) == parseUrl(ServerHost(prefs, config) + PaymentPath) &&
        ParseBody(r.value.body) == Some(Payment(amount, postTime, sig))
  {
    var message := Message(amount, postTime);
    var sig := Signature(mac, config.secretKey, message);
    var r := SendNotificationToServer(amount, postTime, prefs, config, mac, parseUrl);
    SignatureShape(mac, config.secretKey, message);
    var body := Body(amount, postTime, sig);
    BodyRoundTrip(amount, postTime, sig);
    assert UrlText(ServerHost(prefs, config)) == ServerHost(prefs, config) + PaymentPath;
    if r.Some? {
      assert r.value.body == body;
    }
  }

  /** When the MAC throws, the request is still built (if the URL parses),
      with an empty signature. */
  lemma SigningFailureStillSends(amount: string, postTime: Long, prefs: Preferences,
                                 config: BuildConfig, mac: Mac, parseUrl: UrlParser)
    requires JsonSafe(amount)
    requires mac(config.secretKey, Message(amount, postTime)).None?
    ensures var r := SendNotificationToServer(amount, postTime, prefs, config, mac, parseUrl);
      (r.Some? <==> parseUrl(UrlText(ServerHost(prefs, config))).Some?) &&
      (r.Some? ==> r.value.body == Body(amount, postTime, "") &&
                   ParseBody(r.value.body) == Some(Payment(amount, postTime, "")))
  {
    var r := SendNotificationToServer(amount, postTime, prefs, config, mac, parseUrl);
    var body := Body(amount, postTime, "");
    BodyRoundTrip(amount, postTime, "");
    if r.Some? {
      assert r.value.body == body;
    }
  }

  /** The stored flag reaches only the URL: whenever both hosts parse, method,
      content type and body (so message and signature) are the same, and equal
      hosts give the same outcome. */
  lemma HostOnlyAffectsUrl(amount: string, postTime: Long, prefs: Preferences, prefs': Preferences,
                           config: BuildConfig, mac: Mac, parseUrl: UrlParser)
    ensures var r := SendNotificationToServer(amount, postTime, prefs, config, mac, parseUrl);
      var r' := SendNotificationToServer(amount, postTime, prefs', config, mac, parseUrl);
      (r.Some? && r'.Some? ==>
        r.value.httpMethod == r'.value.httpMethod && r.value.contentType == r'.value.contentType &&
        r.value.body == r'.value.body) &&
      (ServerHost(prefs, config) == ServerHost(prefs', config) ==> r == r')
  {
  }
}
