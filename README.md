# pay_notify relay, modelled in Dafny

The Android app `pay_notify` listens to system notifications. For each
notification posted by WeChat (`com.tencent.mm`) it records a three-line summary
(time and package, title, text) in a process-wide list, newest first, and sends a signed payment report to a
server: a JSON body carrying the amount, the post time and an HMAC-SHA256
signature, POSTed to `<host>/payment`, where the host is the development or the
production server according to a stored `isProduction` flag.

This project models that pipeline from `NotificationListener.kt`:

- `decimal.dfy` (module `Decimal`): Kotlin's `Long`, its decimal text as a
  string template writes it, and a parser that inverts it.
- `hex.dfy` (module `Hex`): Kotlin's signed `Byte`, the `%02x` text of one
  byte, the `joinToString("")` hex text of a MAC output, and a decoder that
  inverts it (base16 of section 8 of RFC 4648, lowercase alphabet).
- `relay.dfy` (module `Relay`): host selection (`getServerHost`), the
  signing message, the signature with its empty-string failure case, the
  JSON body, the URL and the request (`sendNotificationToServer` up to the
  point where it is dispatched), plus a reader for the body's exact layout
  that accepts inside quotes only text JSON allows verbatim (no quote, no
  backslash, no control character), used to state what the body carries.
- `listener.dfy` (module `Listener`): a class holding the `notifications`
  log, whose `OnNotificationPosted` method filters by package, prepends the
  summary and returns the request it sends.
- `wrappers.dfy` (module `Wrappers`): the `Option` type.

Foreign inputs are parameters: the HMAC-SHA256 primitive is a function
`(key, message) -> Option<bytes>` whose `None` stands for any exception it
throws (the UTF-8 encoding of key and message is folded into it); the
`SimpleDateFormat` rendering of the post time is a function `Long -> string`;
OkHttp's parse of the URL text (`Request.Builder.url(String)`) is a function
`string -> Option<string>` giving the canonical URL, whose `None` stands for
the `IllegalArgumentException` it throws on text that is not an http(s) URL;
the `app_settings` shared preferences are a `map<string, bool>`; the build
configuration (`SECRET_KEY`, `HOST_DEV`, `HOST_PROD`) is a datatype.

On signing failure the code logs the exception, uses the empty string as the
signature and still builds and sends the request (`Relay.Signature`,
`Relay.SigningFailureStillSends`). A rejected URL, on the other hand, is not
caught: the exception leaves `onNotificationPosted` after the summary has been
logged, and no request is built (`Relay.RequestBuiltIffUrlParses`,
`Listener.NotificationListener.OnNotificationPosted`).

## Model

| member | source | states |
|---|---|---|
| `Decimal.NatToDecimal` | app/src/main/java/cn/wycode/pay_notify/NotificationListener.kt:103 | the decimal text of a magnitude is non-empty, all digits, and starts with '0' only for zero (no padding) |
| `Decimal.LongRoundTrip` | app/src/main/java/cn/wycode/pay_notify/NotificationListener.kt:103 | the text `"$postTime"` of any `Long` parses back to the same `Long` |
| `Decimal.LongToDecimalShape` | app/src/main/java/cn/wycode/pay_notify/NotificationListener.kt:107 | the time text is an optional '-' exactly for negative values followed by unpadded digits, so it is a bare JSON integer |
| `Decimal.LongToDecimalInjective` | app/src/main/java/cn/wycode/pay_notify/NotificationListener.kt:103 | distinct post times never share a decimal text |
| `Hex.Unsigned` | app/src/main/java/cn/wycode/pay_notify/NotificationListener.kt:147 | `%x` shows a negative byte as its value plus 256: the result is in 0..255 and congruent to the byte modulo 256 |
| `Hex.ByteHex` | app/src/main/java/cn/wycode/pay_notify/NotificationListener.kt:147 | `%02x` of a byte is exactly two lowercase hex digits whose value is the byte's unsigned value |
| `Hex.EncodeHex` | app/src/main/java/cn/wycode/pay_notify/NotificationListener.kt:147 | the hex text of n bytes has length 2n and only lowercase hex digits |
| `Hex.EncodeHexAt` | app/src/main/java/cn/wycode/pay_notify/NotificationListener.kt:147 | byte i, in order, becomes characters 2i and 2i+1 of the text |
| `Hex.DecodeEncode` | app/src/main/java/cn/wycode/pay_notify/NotificationListener.kt:147 | decoding the hex text of any byte sequence recovers those bytes |
| `Hex.EncodeDecode` | app/src/main/java/cn/wycode/pay_notify/NotificationListener.kt:147 | every text the decoder accepts is the encoding of what it decodes to, so the encoding is a bijection |
| `Hex.DecodeHexAccepts` | app/src/main/java/cn/wycode/pay_notify/NotificationListener.kt:147 | the texts the encoder can produce are exactly the even-length lowercase hex texts |
| `Relay.ServerHost` | app/src/main/java/cn/wycode/pay_notify/NotificationListener.kt:154-159 | the host is `HOST_PROD` when the stored flag is true, `HOST_DEV` when it is false or absent |
| `Relay.MessageSplit` | app/src/main/java/cn/wycode/pay_notify/NotificationListener.kt:103 | the signing message is the amount followed directly by the decimal post time: cutting at the amount's length gives back both |
| `Decimal.PrependDigit` | app/src/main/java/cn/wycode/pay_notify/NotificationListener.kt:103 | a nonzero digit written in front of the decimal text of t is the decimal text of d·10^k + t, k being the length of t's text |
| `Relay.MessageAmbiguous` | app/src/main/java/cn/wycode/pay_notify/NotificationListener.kt:103-104 | with no separator, moving any trailing nonzero digit d of the amount to the front of a non-negative time t (giving d·10^k + t, within `Long` range) leaves the message and the signature unchanged under any key and MAC |
| `Relay.Signature` | app/src/main/java/cn/wycode/pay_notify/NotificationListener.kt:138-152 | a throwing MAC gives the empty signature; otherwise the signature has twice the MAC's length in lowercase hex |
| `Relay.SignatureShape` | app/src/main/java/cn/wycode/pay_notify/NotificationListener.kt:144-147 | a signature decodes back to the MAC bytes, is 64 characters for a 32-byte MAC, and is always JSON-safe text |
| `Relay.BodyRoundTrip` | app/src/main/java/cn/wycode/pay_notify/NotificationListener.kt:106-107 | reading the body back gives the amount verbatim, the integer time and the signature, whenever amount and signature are JSON-safe |
| `Relay.BodyQuoteInAmount` | app/src/main/java/cn/wycode/pay_notify/NotificationListener.kt:106-107 | amount is interpolated unescaped: a quote in it always makes the body read back a shorter amount |
| `Relay.BodyRejectsUnsafeAmount` | app/src/main/java/cn/wycode/pay_notify/NotificationListener.kt:106-107 | an amount with a quote, a backslash or a control character never reads back as the payment built from it, so the round trip holds exactly for JSON-safe amounts |
| `Relay.UrlShape` | app/src/main/java/cn/wycode/pay_notify/NotificationListener.kt:111 | the URL text handed to OkHttp is the host verbatim followed by `/payment`, and distinct hosts give distinct texts |
| `Relay.RequestBuiltIffUrlParses` | app/src/main/java/cn/wycode/pay_notify/NotificationListener.kt:110-113 | a request is built exactly when the URL parser accepts host + `/payment`; otherwise nothing is sent |
| `Relay.RequestCarriesSignedPayment` | app/src/main/java/cn/wycode/pay_notify/NotificationListener.kt:97-113 | a built request is a JSON POST to the parsed URL of host + `/payment` whose body reads back as the amount, the time and the signature of amount followed by time under the secret key |
| `Relay.SigningFailureStillSends` | app/src/main/java/cn/wycode/pay_notify/NotificationListener.kt:148-150 | when the MAC throws, the request is still built whenever the URL parses, and its body reads back with an empty signature |
| `Relay.HostOnlyAffectsUrl` | app/src/main/java/cn/wycode/pay_notify/NotificationListener.kt:98-111 | the stored flag reaches only the URL: when both hosts parse, method, content type and body (message, signature) are the same, and equal hosts give the same outcome |
| `Listener.NotificationListener.constructor` | app/src/main/java/cn/wycode/pay_notify/NotificationListener.kt:23 | the log starts empty |
| `Listener.NotificationListener.OnNotificationPosted` | app/src/main/java/cn/wycode/pay_notify/NotificationListener.kt:66-94 | a notification from any package but `com.tencent.mm` leaves the log unchanged and sends nothing; one from it grows the log by one, with its summary at index 0 followed by the earlier entries in order, and sends the request for amount `11.11` and its post time, or nothing when the URL is rejected |
| `Listener.SentRequestCarriesPayment` | app/src/main/java/cn/wycode/pay_notify/NotificationListener.kt:86-94 | every request the listener sends reads back as amount `11.11`, the post time and the signature of their concatenation |

## Left out

- The HMAC-SHA256 computation itself (`javax.crypto.Mac`): a foreign library call, modelled as a function parameter that returns bytes or fails; SHA-256 is not specified.
- The UTF-8 encoding done by `String.toByteArray()` for key and message: folded into the MAC parameter.
- The HTTP call, the coroutine dispatch and the logging of its success or failure: network I/O and concurrency. The model ends with the request value that would be dispatched.
- OkHttp's URL parsing and canonicalisation (lowercasing scheme and host, trimming, dropping a default port): a parameter; only its accept-or-throw outcome and the text it is given are modelled.
- The text of the `SimpleDateFormat` timestamp: it depends on locale and time zone, so the formatter is a parameter.
- `Log`, `Toast`, the `onNotificationReceived` callback and the unused `createNotificationChannel` / `startForegroundService`: platform side effects.
- The commented-out regex that would extract the amount from the notification text: dead code; the model uses the fixed amount `11.11` the code uses.
- Preference values of a type other than boolean under `isProduction` (on which `getBoolean` throws): the app only ever stores a boolean there.
- The user interface (`MainActivity.kt`) and the boot receiver (`BootReceiver.kt`) are not part of this model.
