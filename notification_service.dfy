/** The notification service: a severity filter in front of the delivery
    channels (Telegram, Discord, e-mail; the console log is always on) and
    a bounded history of delivery records, oldest dropped first. The
    channels' network calls are an input giving each delivery's outcome. */
module Notifications {
  import opened Wrappers
  import opened Text

  datatype NotificationRecord = NotificationRecord(
    channel: string, alertType: string, severity: string, message: string,
    timestamp: real, success: bool, error: string)

  /** The longest message text a record keeps. */
  const MessageLimit: nat := 200

  /** `SEVERITY_PRIORITY.get(severity, 0)`. */
  function Priority(severity: string): (p: nat)
    ensures p <= 3
    ensures severity !in {"MEDIUM", "HIGH", "CRITICAL"} ==> p == 0
    ensures severity == "CRITICAL" <==> p == 3
  {
    if severity == "LOW" then 0
    else if severity == "MEDIUM" then 1
    else if severity == "HIGH" then 2
    else if severity == "CRITICAL" then 3
    else 0
  }

  /** The filter of `send_alert`: an alert ranked below the minimum
      severity is dropped (an unknown name ranks as LOW). */
  predicate Suppressed(severity: string, minSeverity: string)
  {
    Priority(severity) < Priority(minSeverity)
  }

  /** The filter is monotone: whatever passes, every alert at least as
      severe passes too; CRITICAL always passes, and an unknown or LOW
      minimum lets everything through. */
  lemma SeverityFilter(severity: string, stronger: string, minSeverity: string)
    ensures !Suppressed(severity, minSeverity) && Priority(stronger) >= Priority(severity) ==> !Suppressed(stronger, minSeverity)
    ensures !Suppressed("CRITICAL", minSeverity)
    ensures Priority(minSeverity) == 0 ==> !Suppressed(severity, minSeverity)
    ensures Suppressed(severity, minSeverity) ==> severity != "CRITICAL" && minSeverity in {"MEDIUM", "HIGH", "CRITICAL"}
  {
  }

  /** A constructor argument, or the environment variable when the
      argument is empty. */
  function Setting(arg: string, env: map<string, string>, name: string): (r: string)
    ensures arg != "" ==> r == arg
    ensures arg == "" ==> r == (if name in env then env[name] else "")
  {
    if arg != "" then arg else if name in env then env[name] else ""
  }

  /** The record `_record` appends: the message cut to its first 200
      characters. */
  function MakeRecord(channel: string, alertType: string, severity: string, message: string, ts: real, success: bool, error: string): (r: NotificationRecord)
    ensures |r.message| == if |message| <= MessageLimit then |message| else MessageLimit
    ensures r.message == message[..|r.message|]
    ensures r == NotificationRecord(channel, alertType, severity, r.message, ts, success, error)
  {
    NotificationRecord(channel, alertType, severity, PyPrefix(message, MessageLimit), ts, success, error)
  }

  /** Appending to a deque of maximum length `maxLen`: the newest
      `maxLen` items of the old contents plus the new one survive. */
  function Appended<T>(history: seq<T>, item: T, maxLen: nat): (r: seq<T>)
    ensures |r| == if |history| + 1 <= maxLen then |history| + 1 else maxLen
    ensures r == (history + [item])[|history| + 1 - |r|..]
    ensures maxLen > 0 ==> r[|r| - 1] == item
    ensures |history| < maxLen ==> r == history + [item]
  {
    var all := history + [item];
    if |all| <= maxLen then all else all[|all| - maxLen..]
  }

  /** Appending several records one by one keeps the newest `maxLen` of
      all of them, in order. */
  lemma {:induction false} AppendedAll<T>(history: seq<T>, items: seq<T>, maxLen: nat)
    requires |history| <= maxLen
    ensures AppendAll(history, items, maxLen) == KeepLast(history + items, maxLen)
  {
    if |items| == 0 {
      assert history + items == history;
    } else {
      var init, last := items[..|items| - 1], items[|items| - 1];
      var before := history + init;
      AppendedAll(history, init, maxLen);
      var prev := AppendAll(history, init, maxLen);
      assert prev == KeepLast(before, maxLen);
      assert AppendAll(history, items, maxLen) == Appended(prev, last, maxLen);
      KeepLastStep(before, last, maxLen);
      AppendSplit(history, items);
    }
  }

  lemma AppendSplit<T>(history: seq<T>, items: seq<T>)
    requires |items| > 0
    ensures history + items == (history + items[..|items| - 1]) + [items[|items| - 1]]
  {
    assert items == items[..|items| - 1] + [items[|items| - 1]];
  }

  /** Trimming after each append is trimming once at the end. */
  lemma KeepLastStep<T>(s: seq<T>, x: T, maxLen: nat)
    ensures Appended(KeepLast(s, maxLen), x, maxLen) == KeepLast(s + [x], maxLen)
  {
    var k := KeepLast(s, maxLen);
    var t := s + [x];
    assert k + [x] == t[|s| - |k|..];
    var a := Appended(k, x, maxLen);
    var b := KeepLast(t, maxLen);
    assert |a| == |b|;
    assert a == t[|t| - |a|..];
  }

  /** Appending one more item of a list is one more deque append. */
  lemma AppendAllStep<T>(history: seq<T>, items: seq<T>, i: int, maxLen: nat)
    requires 0 <= i < |items|
    ensures AppendAll(history, items[..i + 1], maxLen) == Appended(AppendAll(history, items[..i], maxLen), items[i], maxLen)
  {
    assert items[..i + 1][..i] == items[..i];
  }

  /** The newest `maxLen` items of a sequence. */
  function KeepLast<T>(s: seq<T>, maxLen: nat): (r: seq<T>)
    ensures |r| == if |s| <= maxLen then |s| else maxLen
    ensures r == s[|s| - |r|..]
  {
    if |s| <= maxLen then s else s[|s| - maxLen..]
  }

  function AppendAll<T>(history: seq<T>, items: seq<T>, maxLen: nat): seq<T>
  {
    if |items| == 0 then history
    else Appended(AppendAll(history, items[..|items| - 1], maxLen), items[|items| - 1], maxLen)
  }

  /** The records one alert leaves: one per configured channel, with the
      outcome `deliver` gives for it (None for success, else the error). */
  function DeliveryRecords(channels: seq<string>, alertType: string, message: string, severity: string, now: real,
                           deliver: string -> Option<string>): (r: seq<NotificationRecord>)
    ensures |r| == |channels|
    ensures forall i :: 0 <= i < |r| ==>
      r[i].channel == channels[i] && (r[i].success <==> deliver(channels[i]).None?)
  {
    seq(|channels|, i requires 0 <= i < |channels| =>
      var outcome := deliver(channels[i]);
      MakeRecord(channels[i], alertType, severity, message, now, outcome.None?, if outcome.Some? then outcome.value else ""))
  }

  /** Record i of an alert is the one `_record` makes for channel i. */
  lemma DeliveryRecordAt(channels: seq<string>, alertType: string, message: string, severity: string, now: real,
                         deliver: string -> Option<string>, i: int)
    requires 0 <= i < |channels|
    ensures var outcome := deliver(channels[i]);
      DeliveryRecords(channels, alertType, message, severity, now, deliver)[i] ==
      MakeRecord(channels[i], alertType, severity, message, now, outcome.None?, if outcome.Some? then outcome.value else "")
  {
  }

  class NotificationService {
    const telegramToken: string
    const telegramChatId: string
    const discordUrl: string
    const emailHost: string
    const emailTo: string
    const minSeverity: string
    const historySize: nat
    /** The delivery records, oldest first (the `_history` deque). */
    var history: seq<NotificationRecord>

    ghost predicate Valid()
      reads this
    {
      |history| <= historySize
    }

    /** `__init__`: each empty argument falls back to its environment
      variable. A negative history size makes the deque raise, so it is
      excluded here. */
    constructor (telegramToken: string, telegramChatId: string, discordUrl: string, emailHost: string, emailTo: string,
                 minSeverity: string, historySize: nat, env: map<string, string>)
      ensures Valid() && history == []
      ensures this.telegramToken == Setting(telegramToken, env, "TELEGRAM_BOT_TOKEN")
      ensures this.telegramChatId == Setting(telegramChatId, env, "TELEGRAM_CHAT_ID")
      ensures this.discordUrl == Setting(discordUrl, env, "DISCORD_WEBHOOK_URL")
      ensures this.emailHost == Setting(emailHost, env, "SMTP_HOST")
      ensures this.emailTo == Setting(emailTo, env, "ALERT_EMAIL_TO")
      ensures this.minSeverity == minSeverity && this.historySize == historySize
    {
      this.telegramToken := Setting(telegramToken, env, "TELEGRAM_BOT_TOKEN");
      this.telegramChatId := Setting(telegramChatId, env, "TELEGRAM_CHAT_ID");
      this.discordUrl := Setting(discordUrl, env, "DISCORD_WEBHOOK_URL");
      this.emailHost := Setting(emailHost, env, "SMTP_HOST");
      this.emailTo := Setting(emailTo, env, "ALERT_EMAIL_TO");
      this.minSeverity := minSeverity;
      this.historySize := historySize;
      history := [];
    }

    /** `get_channel_status`. */
    function ChannelStatus(): (r: map<string, bool>)
      reads this
      ensures r.Keys == {"telegram", "discord", "email", "console"}
      ensures r["telegram"] <==> telegramToken != "" && telegramChatId != ""
      ensures r["discord"] <==> discordUrl != ""
      ensures r["email"] <==> emailHost != "" && emailTo != ""
      ensures r["console"]
    {
      map["telegram" := telegramToken != "" && telegramChatId != "",
          "discord" := discordUrl != "",
          "email" := emailHost != "" && emailTo != "",
          "console" := true]
    }

    /** The external channels `_dispatch_all` sends to, in its order. */
    function DispatchChannels(): (r: seq<string>)
      reads this
      ensures forall c :: c in r <==> c in ChannelStatus() && ChannelStatus()[c] && c != "console"
      ensures Distinct(r)
    {
      (if telegramToken != "" && telegramChatId != "" then ["telegram"] else []) +
      (if discordUrl != "" then ["discord"] else []) +
      (if emailHost != "" && emailTo != "" then ["email"] else [])
    }

    /** `get_history(limit)`: `list(history)[-limit:]` — the last `limit`
      records when `limit` is positive, all of them when it is 0, and all
      but the first `-limit` when it is negative. */
    function GetHistory(limit: int): (r: seq<NotificationRecord>)
      reads this
      ensures |r| <= |history| && r == history[|history| - |r|..]
      ensures limit > 0 ==> |r| == if limit <= |history| then limit else |history|
      ensures limit == 0 ==> r == history
      ensures limit < 0 ==> |r| == if -limit <= |history| then |history| + limit else 0
    {
      PyTail(history, limit)
    }

    /** `_record`. */
    method Record(channel: string, alertType: string, severity: string, message: string, ts: real, success: bool, error: string)
      requires Valid()
      modifies this
      ensures Valid()
      ensures history == Appended(old(history), MakeRecord(channel, alertType, severity, message, ts, success, error), historySize)
    {
      history := Appended(history, MakeRecord(channel, alertType, severity, message, ts, success, error), historySize);
    }

    /** `_dispatch_all`: one delivery and one record per channel, in order. */
    method DispatchAll(channels: seq<string>, alertType: string, message: string, severity: string, now: real,
                       deliver: string -> Option<string>)
      requires Valid()
      modifies this
      ensures Valid()
      ensures history == AppendAll(old(history), DeliveryRecords(channels, alertType, message, severity, now, deliver), historySize)
    {
      var records := DeliveryRecords(channels, alertType, message, severity, now, deliver);
      ghost var start := history;
      var i := 0;
      while i < |channels|
        invariant 0 <= i <= |channels| && Valid()
        invariant history == AppendAll(start, records[..i], historySize)
      {
        var outcome := deliver(channels[i]);
        DeliveryRecordAt(channels, alertType, message, severity, now, deliver, i);
        AppendAllStep(start, records, i, historySize);
        Record(channels[i], alertType, severity, message, now, outcome.None?, if outcome.Some? then outcome.value else "");
        i := i + 1;
      }
      assert records[..i] == records;
    }

    /** `send_alert` followed by the `_dispatch_all` it starts: a suppressed
      alert leaves the history as it was; otherwise every configured
      channel gets one delivery and one record, and the history keeps the
      newest `history_size` records. */
    method SendAlert(alertType: string, message: string, severity: string, now: real, deliver: string -> Option<string>)
      returns (sentTo: seq<string>)
      requires Valid()
      modifies this
      ensures Valid()
      ensures Suppressed(severity, minSeverity) ==> sentTo == [] && history == old(history)
      ensures !Suppressed(severity, minSeverity) ==> sentTo == DispatchChannels()
      ensures history == KeepLast(old(history) + DeliveryRecords(sentTo, alertType, message, severity, now, deliver), historySize)
    {
      if Suppressed(severity, minSeverity) {
        sentTo := [];
        assert history + DeliveryRecords(sentTo, alertType, message, severity, now, deliver) == history;
        return;
      }
      sentTo := DispatchChannels();
      AppendedAll(history, DeliveryRecords(sentTo, alertType, message, severity, now, deliver), historySize);
      DispatchAll(sentTo, alertType, message, severity, now, deliver);
    }
  }
}
