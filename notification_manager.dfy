/** The expiration notification policy (`NotificationManager`): when to alert
    about the 30-day Bling refresh token, the three append-only JSON logs it
    keeps, the renewal detector and the cycle-status check. Email, SMS and the
    authorization-URL lookup are parameters. */
module Notifications {
  import opened Documents

  /** Seconds in a day; a calendar day is `t / SecondsPerDay`. */
  const SecondsPerDay := 86400
  /** Lifetime of a Bling refresh token, in days. */
  const RefreshLifetimeDays := 30
  /** At or below this many days left, the alert is an emergency. */
  const EmergencyDays := 1
  /** At or below this many days left, a regular alert is due. */
  const RegularDays := 5

  datatype Kind = Regular | Emergency

  /** One entry of `token_notifications.json`. */
  datatype NotificationEntry = NotificationEntry(date: int, kind: Kind, emailSent: bool, smsSent: bool)

  /** One entry of `token_renewals.json`. */
  datatype RenewalEntry = RenewalEntry(date: int, tokenId: Value, notificationDate: int, success: bool)

  /** One entry of `notification_cycle_control.json`. */
  datatype CycleEntry = CycleEntry(date: int, action: string, reason: string)

  /** A JSON log file: absent, not decodable, or a list of entries. */
  datatype LogFile<T> = Missing | Undecodable | Entries(items: seq<T>)

  /** The entries a reader sees: an absent or undecodable file reads as empty. */
  function Load<T>(log: LogFile<T>): seq<T> {
    if log.Entries? then log.items else []
  }

  /** Read the list (an undecodable file restarts as empty), append, write back. */
  function Append<T>(log: LogFile<T>, e: T): LogFile<T> {
    Entries(Load(log) + [e])
  }

  /** Appending keeps every entry a reader saw, in order, and adds exactly one. */
  lemma AppendOnly<T>(log: LogFile<T>, e: T)
    ensures Load(log) <= Load(Append(log, e))
    ensures |Load(Append(log, e))| == |Load(log)| + 1 && Load(Append(log, e))[|Load(log)|] == e
  {
  }

  // ---------------------------------------------------------------------------
  // The last notification

  /** The entry `sorted(log, key=date, reverse=True)[0]` picks: one with the
      greatest date; the sort being stable, the first of equal dates. */
  function LatestEntry(s: seq<NotificationEntry>): (k: Option<nat>)
    ensures k.None? <==> s == []
    ensures k.Some? ==> k.value < |s|
    ensures k.Some? ==> forall i :: 0 <= i < |s| ==> s[i].date <= s[k.value].date
    ensures k.Some? ==> forall i :: 0 <= i < k.value ==> s[i].date < s[k.value].date
  {
    if s == [] then None
    else
      var k := LatestEntry(s[..|s| - 1]);
      var last := |s| - 1;
      assert forall i :: 0 <= i < last ==> s[..last][i] == s[i];
      if k.None? || s[k.value].date < s[last].date then Some(last) else k
  }

  /** `_get_last_notification`. */
  function LastNotification(log: LogFile<NotificationEntry>): Option<NotificationEntry> {
    var s := Load(log);
    match LatestEntry(s)
    case None => None
    case Some(k) => Some(s[k])
  }

  /** An entry dated after every logged one becomes the last notification. */
  lemma {:induction false} LatestAfterAppend(s: seq<NotificationEntry>, e: NotificationEntry)
    requires forall i :: 0 <= i < |s| ==> s[i].date < e.date
    ensures LatestEntry(s + [e]) == Some(|s|)
  {
    assert (s + [e])[..|s|] == s;
  }

  lemma NewestRecordedIsLast(log: LogFile<NotificationEntry>, e: NotificationEntry)
    requires forall i :: 0 <= i < |Load(log)| ==> Load(log)[i].date < e.date
    ensures LastNotification(Append(log, e)) == Some(e)
  {
    LatestAfterAppend(Load(log), e);
  }

  // ---------------------------------------------------------------------------
  // The alert decision

  /** The calendar day of a time. */
  function Day(t: int): int {
    t / SecondsPerDay
  }

  /** Whole days left before the refresh token expires, rounded down as
      `timedelta.days` rounds. */
  function DaysRemaining(createdAt: int, now: int): int {
    (createdAt + RefreshLifetimeDays * SecondsPerDay - now) / SecondsPerDay
  }

  /** `days_remaining` is the floor of the time left, counted in days. */
  lemma DaysRemainingIsFloor(createdAt: int, now: int)
    ensures var d := DaysRemaining(createdAt, now);
            d * SecondsPerDay <= createdAt + RefreshLifetimeDays * SecondsPerDay - now < (d + 1) * SecondsPerDay
  {
  }

  /** The creation time of a token: a timestamp is taken as is, a string goes
      through `fromisoformat` (`parseIso`, None when it raises); an absent key
      or `None`, and any other type, yields no date. */
  function CreatedAtOf(token: Doc, parseIso: string -> Option<int>): Option<int> {
    match Get(token, "created_at")
    case VTime(t) => Some(t)
    case VStr(s) => parseIso(s)
    case _ => None
  }

  /** `not token_data`: no token, or an empty dictionary. */
  predicate NoToken(token: Option<Doc>) {
    token.None? || token.value == map[]
  }

  datatype Alert = NoAlert | Send(kind: Kind)

  /** The decision of `check_token_expiration`, given the token
      `get_active_token` returned and the last logged notification. */
  function ExpirationAlert(token: Option<Doc>, now: int, last: Option<NotificationEntry>, parseIso: string -> Option<int>): Alert {
    if NoToken(token) || "refresh_token" !in token.value then Send(Emergency)
    else match CreatedAtOf(token.value, parseIso)
      case None => NoAlert
      case Some(c) =>
        var days := DaysRemaining(c, now);
        if days <= EmergencyDays then
          if last.None? || last.value.kind != Emergency || Day(last.value.date) != Day(now) then Send(Emergency) else NoAlert
        else if days <= RegularDays then
          if last.None? || Day(last.value.date) < Day(now) - 1 then Send(Regular) else NoAlert
        else NoAlert
  }

  /** A usable token: present, with a refresh token and a readable creation time. */
  predicate DatedToken(token: Option<Doc>, parseIso: string -> Option<int>, c: int) {
    !NoToken(token) && "refresh_token" in token.value && CreatedAtOf(token.value, parseIso) == Some(c)
  }

  /** The decision table: no usable token is an emergency; more than five days
      left is silence; with nothing logged, one day or less is an emergency
      and two to five days a regular alert. */
  lemma AlertTable(token: Option<Doc>, now: int, last: Option<NotificationEntry>, parseIso: string -> Option<int>, c: int)
    ensures NoToken(token) || (token.Some? && "refresh_token" !in token.value) ==> ExpirationAlert(token, now, last, parseIso) == Send(Emergency)
    ensures !NoToken(token) && "refresh_token" in token.value && CreatedAtOf(token.value, parseIso).None? ==> ExpirationAlert(token, now, last, parseIso) == NoAlert
    ensures DatedToken(token, parseIso, c) && DaysRemaining(c, now) > RegularDays ==> ExpirationAlert(token, now, last, parseIso) == NoAlert
    ensures DatedToken(token, parseIso, c) && last.None? && DaysRemaining(c, now) <= EmergencyDays ==> ExpirationAlert(token, now, last, parseIso) == Send(Emergency)
    ensures DatedToken(token, parseIso, c) && last.None? && EmergencyDays < DaysRemaining(c, now) <= RegularDays ==> ExpirationAlert(token, now, last, parseIso) == Send(Regular)
  {
  }

  /** The emergency alert repeats at most once a calendar day: after one
      logged today, the check stays silent for the rest of the day; any other
      last entry lets it fire. */
  lemma EmergencyOncePerDay(token: Option<Doc>, now: int, last: NotificationEntry, parseIso: string -> Option<int>, c: int)
    requires DatedToken(token, parseIso, c) && DaysRemaining(c, now) <= EmergencyDays
    ensures ExpirationAlert(token, now, Some(last), parseIso) == NoAlert <==> (last.kind == Emergency && Day(last.date) == Day(now))
    ensures ExpirationAlert(token, now, Some(last), parseIso) != NoAlert ==> ExpirationAlert(token, now, Some(last), parseIso) == Send(Emergency)
  {
  }

  /** A regular alert fires only when the last entry, of either kind, is at
      least two calendar days old. */
  lemma RegularEveryOtherDay(token: Option<Doc>, now: int, last: NotificationEntry, parseIso: string -> Option<int>, c: int)
    requires DatedToken(token, parseIso, c) && EmergencyDays < DaysRemaining(c, now) <= RegularDays
    ensures ExpirationAlert(token, now, Some(last), parseIso) == Send(Regular) <==> Day(now) - Day(last.date) >= 2
    ensures ExpirationAlert(token, now, Some(last), parseIso) != Send(Emergency)
  {
  }

  // ---------------------------------------------------------------------------
  // Sending

  /** What `send_mail` did: returned the number of messages sent, or raised. */
  datatype Mail = MailSent(count: nat) | MailRaised

  /** `send_notification` gets through when an authorization URL resolves
      (`not auth_url` rejects None and "") and the email call does not raise. */
  predicate Delivered(authUrl: Option<string>, mail: Mail) {
    authUrl.Some? && authUrl.value != "" && mail.MailSent?
  }

  function KindOf(isEmergency: bool): Kind {
    if isEmergency then Emergency else Regular
  }

  /** The entry a delivered notification logs; SMS goes out only for an emergency. */
  function SentEntry(isEmergency: bool, now: int, mail: Mail, smsSent: bool): (e: NotificationEntry)
    requires mail.MailSent?
    ensures e.kind == Emergency <==> isEmergency
    ensures e.smsSent ==> isEmergency
    ensures e.emailSent <==> mail.count > 0
  {
    NotificationEntry(now, KindOf(isEmergency), mail.count != 0, isEmergency && smsSent)
  }

  /** The cancellation entry `_cancel_notification_cycle` writes. */
  function CancelEntry(now: int): CycleEntry {
    CycleEntry(now, "cancel_cycle", "token_renewed")
  }

  /** `token_data.get('id', 'unknown')`. */
  function TokenId(token: Doc): Value {
    if "id" in token then token["id"] else VStr("unknown")
  }

  /** The date test of `check_token_renewed`: a notification was logged, a
      token exists, and it was created after that notification. */
  function RenewalDetected(last: Option<NotificationEntry>, token: Option<Doc>, parseIso: string -> Option<int>): (r: bool)
    ensures r ==> last.Some? && !NoToken(token) && CreatedAtOf(token.value, parseIso).Some?
  {
    last.Some? && !NoToken(token) &&
    match CreatedAtOf(token.value, parseIso)
    case None => false
    case Some(c) => c > last.value.date
  }

  /** A token created after an alert that is the newest entry in the log is
      recognised as the renewal of that alert; one created at or before it is not. */
  lemma RenewalAfterAlert(log: LogFile<NotificationEntry>, alert: NotificationEntry, token: Doc, parseIso: string -> Option<int>, c: int)
    requires forall i :: 0 <= i < |Load(log)| ==> Load(log)[i].date < alert.date
    requires token != map[] && CreatedAtOf(token, parseIso) == Some(c)
    ensures RenewalDetected(LastNotification(Append(log, alert)), Some(token), parseIso) <==> c > alert.date
  {
    NewestRecordedIsLast(log, alert);
  }

  /** Only cancellation entries in the cycle-control log. */
  predicate OnlyCancellations(s: seq<CycleEntry>) {
    forall i :: 0 <= i < |s| ==> s[i].action == "cancel_cycle"
  }

  /** `is_notification_cycle_active`: the control log is non-empty, its last
      entry is not a cancellation, and a notification was logged less than a
      day ago. */
  function CycleActive(cycleLog: LogFile<CycleEntry>, notificationLog: LogFile<NotificationEntry>, now: int): (r: bool)
    ensures r <==> Load(cycleLog) != [] && Load(cycleLog)[|Load(cycleLog)| - 1].action != "cancel_cycle"
                   && LastNotification(notificationLog).Some?
                   && now - LastNotification(notificationLog).value.date < SecondsPerDay
  {
    var entries := Load(cycleLog);
    if entries == [] then false
    else if entries[|entries| - 1].action == "cancel_cycle" then false
    else match LastNotification(notificationLog)
      case None => false
      case Some(n) => (now - n.date) / SecondsPerDay < 1
  }

  /** The only writer of the control log appends cancellations, so from a
      log holding nothing else the cycle is never reported active, and the
      log stays that way. */
  lemma CycleNeverActive(cycleLog: LogFile<CycleEntry>, notificationLog: LogFile<NotificationEntry>, now: int, later: int)
    requires OnlyCancellations(Load(cycleLog))
    ensures !CycleActive(cycleLog, notificationLog, now)
    ensures OnlyCancellations(Load(Append(cycleLog, CancelEntry(later))))
  {
  }

  class NotificationManager {
    /** `token_notifications.json` */
    var notificationLog: LogFile<NotificationEntry>
    /** `token_renewals.json` */
    var renewalLog: LogFile<RenewalEntry>
    /** `notification_cycle_control.json` */
    var cycleLog: LogFile<CycleEntry>

    constructor (notifications: LogFile<NotificationEntry>, renewals: LogFile<RenewalEntry>, cycle: LogFile<CycleEntry>)
      ensures notificationLog == notifications && renewalLog == renewals && cycleLog == cycle
    {
      notificationLog := notifications;
      renewalLog := renewals;
      cycleLog := cycle;
    }

    /** `_record_notification_sent`. */
    method RecordNotificationSent(e: NotificationEntry)
      modifies this`notificationLog
      ensures notificationLog == Append(old(notificationLog), e)
    {
      var entries: seq<NotificationEntry> := [];
      if notificationLog.Entries? {
        entries := notificationLog.items;
      }
      entries := entries + [e];
      notificationLog := Entries(entries);
    }

    /** `_record_token_renewal`. */
    method RecordTokenRenewal(tokenId: Value, notificationDate: int, now: int)
      modifies this`renewalLog
      ensures renewalLog == Append(old(renewalLog), RenewalEntry(now, tokenId, notificationDate, true))
    {
      var entries: seq<RenewalEntry> := [];
      if renewalLog.Entries? {
        entries := renewalLog.items;
      }
      entries := entries + [RenewalEntry(now, tokenId, notificationDate, true)];
      renewalLog := Entries(entries);
    }

    /** `_cancel_notification_cycle`. */
    method CancelNotificationCycle(now: int)
      modifies this`cycleLog
      ensures cycleLog == Append(old(cycleLog), CancelEntry(now))
      ensures OnlyCancellations(Load(old(cycleLog))) ==> OnlyCancellations(Load(cycleLog))
    {
      var entries: seq<CycleEntry> := [];
      if cycleLog.Entries? {
        entries := cycleLog.items;
      }
      entries := entries + [CancelEntry(now)];
      cycleLog := Entries(entries);
    }

    /** `send_notification`: one entry is logged, and True returned, exactly
        when the message got through; SMS is attempted only for an emergency
        and its own failures are absorbed into `smsSent`. */
    method SendNotification(isEmergency: bool, now: int, authUrl: Option<string>, mail: Mail, smsSent: bool)
      returns (ok: bool)
      modifies this`notificationLog
      ensures ok == Delivered(authUrl, mail)
      ensures notificationLog == if ok then Append(old(notificationLog), SentEntry(isEmergency, now, mail, smsSent))
                                 else old(notificationLog)
    {
      if authUrl.None? || authUrl.value == "" {
        return false;
      }
      if mail.MailRaised? {
        return false;
      }
      var sms := false;
      if isEmergency {
        sms := smsSent;
      }
      RecordNotificationSent(NotificationEntry(now, KindOf(isEmergency), mail.count != 0, sms));
      ok := true;
    }

    /** `check_token_expiration`: True exactly when an alert was due, whether
        or not sending it succeeded. */
    method CheckTokenExpiration(token: Option<Doc>, now: int, parseIso: string -> Option<int>,
                                authUrl: Option<string>, mail: Mail, smsSent: bool)
      returns (sent: bool)
      modifies this`notificationLog
      ensures var alert := ExpirationAlert(token, now, LastNotification(old(notificationLog)), parseIso);
              sent == alert.Send?
              && notificationLog == if alert.Send? && Delivered(authUrl, mail)
                                    then Append(old(notificationLog), SentEntry(alert.kind == Emergency, now, mail, smsSent))
                                    else old(notificationLog)
    {
      if NoToken(token) || "refresh_token" !in token.value {
        var _ := SendNotification(true, now, authUrl, mail, smsSent);
        return true;
      }
      var createdAt := CreatedAtOf(token.value, parseIso);
      if createdAt.None? {
        return false;
      }
      var daysRemaining := DaysRemaining(createdAt.value, now);
      var last := LastNotification(notificationLog);
      if daysRemaining <= EmergencyDays {
        if last.None? || last.value.kind != Emergency || Day(last.value.date) != Day(now) {
          var _ := SendNotification(true, now, authUrl, mail, smsSent);
          return true;
        }
      } else if daysRemaining <= RegularDays {
        if last.None? || Day(last.value.date) < Day(now) - 1 {
          var _ := SendNotification(false, now, authUrl, mail, smsSent);
          return true;
        }
      }
      sent := false;
    }

    /** `check_token_renewed`: when the token was created after the last
        notification, log one renewal and one cancellation and answer True;
        otherwise change nothing. */
    method CheckTokenRenewed(token: Option<Doc>, now: int, parseIso: string -> Option<int>)
      returns (renewed: bool)
      modifies this`renewalLog, this`cycleLog
      ensures var last := LastNotification(notificationLog);
              renewed == RenewalDetected(last, token, parseIso)
              && renewalLog == (if renewed then Append(old(renewalLog), RenewalEntry(now, TokenId(token.value), last.value.date, true))
                                else old(renewalLog))
              && cycleLog == if renewed then Append(old(cycleLog), CancelEntry(now)) else old(cycleLog)
    {
      var last := LastNotification(notificationLog);
      if last.None? {
        return false;
      }
      if NoToken(token) {
        return false;
      }
      var createdAt := CreatedAtOf(token.value, parseIso);
      if createdAt.None? {
        return false;
      }
      if createdAt.value > last.value.date {
        RecordTokenRenewal(TokenId(token.value), last.value.date, now);
        CancelNotificationCycle(now);
        return true;
      }
      renewed := false;
    }

    /** `is_notification_cycle_active`. */
    function IsNotificationCycleActive(now: int): bool
      reads this
    {
      CycleActive(cycleLog, notificationLog, now)
    }

    /** The daily job: check expiration, and only when no alert was due look
        for a renewal. Each check reads the active token on its own, so the
        two reads are two parameters: `token` for the expiration check and
        `renewalToken` for the renewal check. */
    method DailyTokenCheck(token: Option<Doc>, renewalToken: Option<Doc>, now: int, parseIso: string -> Option<int>,
                           authUrl: Option<string>, mail: Mail, smsSent: bool)
      returns (notified: bool, renewed: bool)
      modifies this`notificationLog, this`renewalLog, this`cycleLog
      ensures var alert := ExpirationAlert(token, now, LastNotification(old(notificationLog)), parseIso);
              notified == alert.Send?
              && notificationLog == if alert.Send? && Delivered(authUrl, mail)
                                    then Append(old(notificationLog), SentEntry(alert.kind == Emergency, now, mail, smsSent))
                                    else old(notificationLog)
      ensures notified ==> !renewed && renewalLog == old(renewalLog) && cycleLog == old(cycleLog)
      ensures !notified ==>
                var last := LastNotification(old(notificationLog));
                renewed == RenewalDetected(last, renewalToken, parseIso)
                && renewalLog == (if renewed then Append(old(renewalLog), RenewalEntry(now, TokenId(renewalToken.value), last.value.date, true))
                                  else old(renewalLog))
                && cycleLog == if renewed then Append(old(cycleLog), CancelEntry(now)) else old(cycleLog)
    {
      notified := CheckTokenExpiration(token, now, parseIso, authUrl, mail, smsSent);
      renewed := false;
      if !notified {
        renewed := CheckTokenRenewed(renewalToken, now, parseIso);
      }
    }
  }
}
