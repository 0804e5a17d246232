/** `NotificationListener.onNotificationPosted`: the sender filter, the
    process-wide log of summaries (newest first) and the hand-off to the relay. */
module Listener {
  import opened Wrappers
  import opened Decimal
  import opened Relay

  /** The only sender whose notifications are handled (WeChat). */
  const WeChatPackage := "com.tencent.mm"
  /** The amount relayed for every accepted notification. */
  const FixedAmount := "11.11"

  /** The parts of a `StatusBarNotification` the listener reads: the posting
      package, the post time in epoch milliseconds and the `extras` strings. */
  datatype StatusBarNotification =
    StatusBarNotification(packageName: string, postTime: Long, extras: map<string, string>)

  /** What the listener reads from its surroundings on each call: the stored
      preferences, the build configuration, the MAC primitive, OkHttp's URL
      parser and the locale-dependent `yyyy-MM-dd HH:mm:ss` formatter. */
  datatype Surroundings = Surroundings(prefs: Preferences, config: BuildConfig, mac: Mac,
                                       parseUrl: UrlParser, formatTime: Long -> string)

  /** `Bundle.getString(key, default)`. */
  function GetString(extras: map<string, string>, key: string, default: string): string
  {
    if key in extras then extras[key] else default
  }

  /** The summary: formatted time and package, then the title, then the text,
      on three lines. */
  function NotificationInfo(sbn: StatusBarNotification, formatTime: Long -> string): string
  {
    formatTime(sbn.postTime) + ": " + sbn.packageName
      + "\nTitle: " + GetString(sbn.extras, "android.title", "")
      + "\nText: " + GetString(sbn.extras, "android.text", "")
  }

  /** The listener service together with its companion object's `notifications`
      list; the companion is a process-wide singleton, so one object holds it. */
  class NotificationListener {
    var notifications: seq<string>

    constructor ()
      ensures notifications == []
    {
      notifications := [];
    }

    /** Drops any notification not posted by WeChat. Otherwise puts its summary
        at the front of the log and returns the request sent for it; when the
        URL parser rejects the host, the summary is already logged, the
        exception leaves the callback and nothing is sent (`None`). */
    method OnNotificationPosted(sbn: StatusBarNotification, env: Surroundings) returns (sent: Option<Request>)
      modifies this
      ensures sbn.packageName != WeChatPackage ==> notifications == old(notifications) && sent == None
      ensures sbn.packageName == WeChatPackage ==>
        |notifications| == |old(notifications)| + 1 &&
        notifications[0] == NotificationInfo(sbn, env.formatTime) &&
        notifications[1..] == old(notifications) &&
        sent == SendNotificationToServer(FixedAmount, sbn.postTime, env.prefs, env.config, env.mac, env.parseUrl)
    {
      if sbn.packageName != WeChatPackage {
        return None;
      }
      var info := NotificationInfo(sbn, env.formatTime);
      notifications := [info] + notifications;
      sent := SendNotificationToServer(FixedAmount, sbn.postTime, env.prefs, env.config, env.mac, env.parseUrl);
    }
  }

  /** Every request the listener sends carries the fixed amount, the post time
      and the signature of their concatenation, readable back from its body. */
  lemma SentRequestCarriesPayment(sbn: StatusBarNotification, env: Surroundings)
    ensures var r := SendNotificationToServer(FixedAmount, sbn.postTime, env.prefs, env.config, env.mac, env.parseUrl);
      r.Some? ==>
        ParseBody(r.value.body) ==
          Some(Payment(FixedAmount, sbn.postTime,
                       Signature(env.mac, env.config.secretKey, FixedAmount + LongToDecimal(sbn.postTime))))
  {
    assert JsonSafe(FixedAmount);
    RequestCarriesSignedPayment(FixedAmount, sbn.postTime, env.prefs, env.config, env.mac, env.parseUrl);
  }
}
