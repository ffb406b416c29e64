/** The Home Assistant notifier (backup_sync/notification/ha_notifier.py): which
    service URL a notification goes to, the payload sent, the generated ID of a
    persistent notification and the lines logged for each notification.

    The HTTP call is an input: the status code the Supervisor API answers, or
    `None` when the request raises. */
module Notifier {
  import opened Common

  const DefaultService: string := "persistent_notification"
  const BaseUrl: string := "http://supervisor"

  /** A notifier as constructed: its default service and the Supervisor token
      found in the environment, if any. */
  datatype Notifier = Notifier(service: string, token: Option<string>)

  /** `HANotifier.__init__`: the given service, or the default one when none
      (or an empty one) is given. */
  function NewNotifier(service: Option<string>, token: Option<string>): (n: Notifier)
    ensures service.Some? && service.value != "" ==> n.service == service.value
    ensures !(service.Some? && service.value != "") ==> n.service == DefaultService
    ensures n.token == token
  {
    Notifier(OrDefault(service, DefaultService), token)
  }

  predicate HasToken(n: Notifier) {
    n.token.Some? && n.token.value != ""
  }

  // ---------------------------------------------------------------------------
  // Service routing

  /** Index of the first occurrence of `c` in `s`, or `|s|` when there is none. */
  function IndexOf(s: string, c: char): (i: nat)
    ensures i <= |s|
    ensures forall k :: 0 <= k < i ==> s[k] != c
    ensures i < |s| ==> s[i] == c
  {
    if s == [] then 0
    else if s[0] == c then 0
    else 1 + IndexOf(s[1..], c)
  }

  /** The domain and service name a service is called as in `_send_via_api`:
      split at the first dot, or the service itself as domain, with "create"
      as the name of the persistent notification service. */
  function SplitService(service: string): (r: (string, string))
    ensures '.' in service ==> '.' !in r.0 && r.0 + "." + r.1 == service
    ensures '.' !in service ==> r.0 == service
    ensures '.' !in service ==> r.1 == if service == DefaultService then "create" else service
  {
    var i := IndexOf(service, '.');
    if i < |service| then
      assert service == service[..i] + "." + service[i + 1..];
      (service[..i], service[i + 1..])
    else
      (service, if service == DefaultService then "create" else service)
  }

  /** The URL a notification through `service` is posted to. */
  function ServiceUrl(service: string): (r: string)
    ensures StartsWith(r, BaseUrl + "/core/api/services/")
    ensures EndsWith(r, "/" + SplitService(service).1)
  {
    var (domain, name) := SplitService(service);
    JoinAffixes(BaseUrl + "/core/api/services/", domain, "/", name);
    BaseUrl + "/core/api/services/" + domain + "/" + name
  }

  /** The URL of a dotted service is the base, the domain and the service name:
      a service "d.n" with no dot in `d` goes to ".../services/d/n". */
  lemma DottedServiceUrl(domain: string, name: string)
    requires '.' !in domain
    ensures ServiceUrl(domain + "." + name) == BaseUrl + "/core/api/services/" + domain + "/" + name
  {
    var service := domain + "." + name;
    assert service[|domain|] == '.';
    assert forall k :: 0 <= k < |domain| ==> service[k] == domain[k];
    var i := IndexOf(service, '.');
    assert i == |domain|;
    assert service[..i] == domain;
    assert service[i + 1..] == name;
  }

  /** A service without a dot is its own domain; its service name is itself,
      except for the persistent notification service, called as "create". */
  lemma UndottedServiceUrl(service: string)
    requires '.' !in service
    ensures ServiceUrl(service) ==
      BaseUrl + "/core/api/services/" + service + "/" + (if service == DefaultService then "create" else service)
  {
  }

  /** The persistent notification service is called as its "create" service. */
  lemma PersistentServiceUrl()
    ensures ServiceUrl(DefaultService) == BaseUrl + "/core/api/services/" + DefaultService + "/" + "create"
  {
    assert forall k :: 0 <= k < |DefaultService| ==> DefaultService[k] != '.';
    assert IndexOf(DefaultService, '.') == |DefaultService|;
    assert SplitService(DefaultService) == (DefaultService, "create");
  }

  // ---------------------------------------------------------------------------
  // Persistent notification IDs

  /** `re.sub(r'[^a-zA-Z0-9_]', '_', s)`. */
  function Slug(s: string): (r: string)
    ensures |r| == |s|
    ensures forall i :: 0 <= i < |s| ==> r[i] == if IsWordChar(s[i]) then s[i] else '_'
  {
    seq(|s|, i requires 0 <= i < |s| => if IsWordChar(s[i]) then s[i] else '_')
  }

  const IdPrefix: string := "backup_sync_"

  /** The ID of a persistent notification: the one supplied, or one made from
      the title. */
  function PersistentId(title: string, id: Option<string>): (r: string)
    ensures r != ""
    ensures id.Some? && id.value != "" ==> r == id.value
  {
    if id.Some? && id.value != "" then id.value else IdPrefix + Slug(Lower(title))
  }

  /** A supplied ID is kept; a generated one is the prefix followed by one
      lower-case letter, digit or underscore per character of the title, each
      letter or digit of the title kept in lower case. */
  lemma PersistentIdShape(title: string, id: Option<string>)
    ensures id.Some? && id.value != "" ==> PersistentId(title, id) == id.value
    ensures !(id.Some? && id.value != "") ==>
      var r := PersistentId(title, id);
      && |r| == |IdPrefix| + |title|
      && StartsWith(r, IdPrefix)
      && (forall i :: |IdPrefix| <= i < |r| ==> IsWordChar(r[i]) && !('A' <= r[i] <= 'Z'))
      && (forall i :: 0 <= i < |title| && IsWordChar(title[i]) ==> r[|IdPrefix| + i] == LowerChar(title[i]))
  {
    if !(id.Some? && id.value != "") {
      GeneratedIdShape(title);
    }
  }

  /** The ID generated from a title: the prefix, then the title lower-cased
      with every character other than a letter, digit or underscore replaced. */
  lemma GeneratedIdShape(title: string)
    ensures var r := IdPrefix + Slug(Lower(title));
      && |r| == |IdPrefix| + |title|
      && StartsWith(r, IdPrefix)
      && (forall i :: |IdPrefix| <= i < |r| ==> IsWordChar(r[i]) && !('A' <= r[i] <= 'Z'))
      && (forall i :: 0 <= i < |title| && IsWordChar(title[i]) ==> r[|IdPrefix| + i] == LowerChar(title[i]))
  {
    var lower := Lower(title);
    var slug := Slug(lower);
    var r := IdPrefix + slug;
    assert r[..|IdPrefix|] == IdPrefix;
    forall j | 0 <= j < |slug| ensures IsWordChar(slug[j]) && !('A' <= slug[j] <= 'Z') {
      assert lower[j] == LowerChar(title[j]);
    }
    forall i | |IdPrefix| <= i < |r| ensures IsWordChar(r[i]) && !('A' <= r[i] <= 'Z') {
      assert r[i] == slug[i - |IdPrefix|];
    }
    forall i | 0 <= i < |title| && IsWordChar(title[i]) ensures r[|IdPrefix| + i] == LowerChar(title[i]) {
      assert r[|IdPrefix| + i] == slug[i];
      assert lower[i] == LowerChar(title[i]);
    }
  }

  /** Two titles that differ only in the case of their letters or in which
      other characters they use give the same ID. */
  lemma PersistentIdFromTitle()
    ensures PersistentId("Backup OK!", None) == "backup_sync_backup_ok_"
    ensures PersistentId("backup-ok?", None) == PersistentId("Backup OK!", None)
  {
    assert Lower("Backup OK!") == "backup ok!";
    assert Lower("backup-ok?") == "backup-ok?";
    assert Slug("backup ok!") == "backup_ok_";
    assert Slug("backup-ok?") == "backup_ok_";
  }

  // ---------------------------------------------------------------------------
  // Payloads and sending

  datatype Notification = Notification(title: string, message: string, notificationId: Option<string>, level: string)

  /** The JSON body posted: title and message, then either the persistent
      notification's ID or the generic services' `data.importance`. */
  datatype Payload = Payload(title: string, message: string, notificationId: Option<string>, importance: Option<string>)

  /** `_prepare_notification_data`. */
  function PrepareData(n: Notification, service: string): (p: Payload)
    ensures p.title == n.title && p.message == n.message
    ensures service == DefaultService ==> p.importance.None?
    ensures service == DefaultService ==> (p.notificationId.Some? <==> n.notificationId.Some? && n.notificationId.value != "")
    ensures service == DefaultService && p.notificationId.Some? ==> p.notificationId == n.notificationId
    ensures service != DefaultService ==> p.notificationId.None? && p.importance == Some(n.level)
  {
    if service == DefaultService then
      Payload(n.title, n.message, if n.notificationId.Some? && n.notificationId.value != "" then n.notificationId else None, None)
    else
      Payload(n.title, n.message, None, Some(n.level))
  }

  datatype Request = Request(url: string, payload: Payload)

  /** What sending produced: the request posted, if any, and whether the
      notification counts as sent. */
  datatype SendResult = SendResult(request: Option<Request>, sent: bool)

  /** `send_notification`: the override service or the notifier's own; without
      a token nothing is posted and the result is false; otherwise the request
      is posted and the result is whether the API answered 200. */
  function SendNotification(n: Notifier, title: string, message: string, service: Option<string>,
                            level: string, id: Option<string>, status: Option<int>): (r: SendResult)
    ensures !HasToken(n) ==> r == SendResult(None, false)
    ensures HasToken(n) ==> r.request.Some? && (r.sent <==> status == Some(200))
    ensures HasToken(n) ==>
      var used := OrDefault(service, n.service);
      r.request.value.url == ServiceUrl(used) &&
      r.request.value.payload == PrepareData(Notification(title, message, id, level), used)
  {
    var used := OrDefault(service, n.service);
    if HasToken(n) then
      var notification := Notification(title, message, id, level);
      SendResult(Some(Request(ServiceUrl(used), PrepareData(notification, used))), status == Some(200))
    else
      SendResult(None, false)
  }

  /** `send_persistent_notification`: sent through the persistent notification
      service with the supplied or generated ID. */
  function SendPersistentNotification(n: Notifier, title: string, message: string, id: Option<string>,
                                      status: Option<int>): (r: SendResult)
    ensures r.sent <==> HasToken(n) && status == Some(200)
    ensures r.request.Some? <==> HasToken(n)
  {
    SendNotification(n, title, message, Some(DefaultService), "info", Some(PersistentId(title, id)), status)
  }

  /** A persistent notification always carries an ID, goes to the "create"
      service whatever the notifier's default service, and has no importance. */
  lemma PersistentNotificationRequest(n: Notifier, title: string, message: string, id: Option<string>, status: Option<int>)
    requires HasToken(n)
    ensures var r := SendPersistentNotification(n, title, message, id, status);
      && r.request.Some?
      && r.request.value.url == BaseUrl + "/core/api/services/" + DefaultService + "/" + "create"
      && r.request.value.payload == Payload(title, message, Some(PersistentId(title, id)), None)
  {
    PersistentServiceUrl();
    assert PersistentId(title, id) != "" by {
      if !(id.Some? && id.value != "") {
        PersistentIdShape(title, id);
      }
    }
  }

  // ---------------------------------------------------------------------------
  // Logging

  datatype LogLine =
    | Header(level: string, service: string, title: string)
    | MessageLine(text: string)
    | MoreLines(count: nat)

  /** The level name logged: the known levels upper-cased, anything else INFO. */
  function LevelName(level: string): (r: string)
    ensures r in {"INFO", "WARNING", "ERROR"}
    ensures level == "warning" ==> r == "WARNING"
    ensures level == "error" ==> r == "ERROR"
    ensures level != "warning" && level != "error" ==> r == "INFO"
  {
    if level == "warning" then "WARNING" else if level == "error" then "ERROR" else "INFO"
  }

  /** The line itself when it is not blank, otherwise nothing. */
  function KeptLine(line: string): (r: seq<string>)
    ensures |r| <= 1
    ensures forall l :: l in r <==> l == line && Strip(l) != ""
  {
    if Strip(line) != "" then [line] else []
  }

  /** The non-blank lines among `lines`, in order. */
  function NonBlank(lines: seq<string>): (r: seq<string>)
    ensures |r| <= |lines|
    ensures forall l :: l in r <==> l in lines && Strip(l) != ""
  {
    if lines == [] then [] else KeptLine(lines[0]) + NonBlank(lines[1..])
  }

  /** Keeping the non-blank lines distributes over concatenation, so they keep
      their relative order. */
  lemma {:induction false} NonBlankConcat(a: seq<string>, b: seq<string>)
    ensures NonBlank(a + b) == NonBlank(a) + NonBlank(b)
  {
    if a == [] {
      assert a + b == b;
    } else {
      var c := a + b;
      var h := KeptLine(a[0]);
      assert c[0] == a[0] && c[1..] == a[1..] + b;
      NonBlankConcat(a[1..], b);
      calc {
        NonBlank(c);
        h + NonBlank(a[1..] + b);
        h + (NonBlank(a[1..]) + NonBlank(b));
        (h + NonBlank(a[1..])) + NonBlank(b);
        NonBlank(a) + NonBlank(b);
      }
    }
  }

  /** The non-blank ones of the first three lines of a message. */
  function ShownLines(message: string): (r: seq<string>)
    ensures |r| <= 3
    ensures forall l :: l in r ==> Strip(l) != "" && l in SliceTo(SplitOn(message, '\n'), 3)
  {
    NonBlank(SliceTo(SplitOn(message, '\n'), 3))
  }

  /** The note of how many lines of the message were not shown, if any. */
  function Overflow(message: string): (r: seq<LogLine>)
    ensures |r| <= 1
    ensures r != [] <==> |SplitOn(message, '\n')| > 3
    ensures r != [] ==> r[0] == MoreLines(|SplitOn(message, '\n')| - 3)
  {
    var lines := SplitOn(message, '\n');
    if |lines| > 3 then [MoreLines(|lines| - 3)] else []
  }

  /** One logged line per text. */
  function AsMessageLines(texts: seq<string>): (r: seq<LogLine>)
    ensures |r| == |texts|
    ensures forall i :: 0 <= i < |r| ==> r[i] == MessageLine(texts[i])
  {
    seq(|texts|, i requires 0 <= i < |texts| => MessageLine(texts[i]))
  }

  /** The lines logged after the header: none for an empty message. */
  function MessageLog(message: string): (r: seq<LogLine>)
    ensures |r| <= 4
  {
    if message == "" then [] else AsMessageLines(ShownLines(message)) + Overflow(message)
  }

  /** `_log_notification`: a header, the non-blank ones of the message's first
      three lines, and a note of how many lines were not shown. */
  function LogNotification(n: Notification, service: string): (r: seq<LogLine>)
    ensures 1 <= |r| <= 5 && r[0] == Header(LevelName(n.level), service, n.title)
    ensures n.message == "" ==> |r| == 1
  {
    [Header(LevelName(n.level), service, n.title)] + MessageLog(n.message)
  }

  /** After the header come message lines only, except that the last line is a
      note counting the lines beyond the third exactly when there are more
      than three. */
  lemma MessageLogShape(message: string)
    ensures var r := MessageLog(message);
      && (forall i :: 0 <= i < |r| - 1 ==> r[i].MessageLine?)
      && (r != [] && r[|r| - 1].MoreLines? <==> message != "" && |SplitOn(message, '\n')| > 3)
      && (r != [] && r[|r| - 1].MoreLines? ==> r[|r| - 1].count == |SplitOn(message, '\n')| - 3)
  {
    if message != "" {
      var body := AsMessageLines(ShownLines(message));
      var more := Overflow(message);
      var r := body + more;
      assert MessageLog(message) == r;
      forall i | 0 <= i < |r| - 1 ensures r[i].MessageLine? {
        assert i < |body| && r[i] == body[i];
      }
      if more != [] {
        assert r[|r| - 1] == more[0];
      } else if body != [] {
        assert r == body;
      }
    }
  }

  /** At most five lines are logged: the header first, then message lines,
      except for the last line. */
  lemma LogIsCapped(n: Notification, service: string)
    ensures var log := LogNotification(n, service);
      && 1 <= |log| <= 5
      && log[0] == Header(LevelName(n.level), service, n.title)
      && (forall i :: 1 <= i < |log| - 1 ==> log[i].MessageLine?)
  {
    var log := LogNotification(n, service);
    var r := MessageLog(n.message);
    forall i | 1 <= i < |log| - 1 ensures log[i].MessageLine? {
      assert log[i] == r[i - 1];
      MessageLogShape(n.message);
    }
  }

  /** The last line logged is a note counting the lines beyond the third
      exactly when the message has more than three lines. */
  lemma LogEndsWithOverflowNote(n: Notification, service: string)
    ensures var log := LogNotification(n, service);
      && (log[|log| - 1].MoreLines? <==> n.message != "" && |SplitOn(n.message, '\n')| > 3)
      && (log[|log| - 1].MoreLines? ==> log[|log| - 1].count == |SplitOn(n.message, '\n')| - 3)
  {
    var log := LogNotification(n, service);
    var r := MessageLog(n.message);
    MessageLogShape(n.message);
    if r == [] {
      assert log[|log| - 1] == log[0];
    } else {
      assert log[|log| - 1] == r[|r| - 1];
    }
  }

  /** Every message line logged is a non-blank line among the first three lines
      of the message. */
  lemma LogShowsFirstNonBlankLines(n: Notification, service: string)
    ensures var log := LogNotification(n, service);
      forall i :: 0 <= i < |log| && log[i].MessageLine? ==>
        Strip(log[i].text) != "" && log[i].text in SliceTo(SplitOn(n.message, '\n'), 3)
  {
    var log := LogNotification(n, service);
    var r := MessageLog(n.message);
    forall i | 0 <= i < |log| && log[i].MessageLine?
      ensures Strip(log[i].text) != "" && log[i].text in SliceTo(SplitOn(n.message, '\n'), 3)
    {
      assert 1 <= i && log[i] == r[i - 1];
      var shown := ShownLines(n.message);
      var body := AsMessageLines(shown);
      var more := Overflow(n.message);
      assert r == body + more;
      assert i - 1 < |body| && r[i - 1] == body[i - 1];
      assert shown[i - 1] in shown;
    }
  }

  /** What follows the head of `[h] + (body + tail)` starts with `body`. */
  lemma BodyAfterHead<T>(log: seq<T>, body: seq<T>, tail: seq<T>)
    requires log != [] && log == [log[0]] + (body + tail)
    ensures |body| < |log| && log[1..|body| + 1] == body
    ensures forall k :: 0 <= k < |body| ==> log[k + 1] == body[k]
  {
    assert log[1..] == body + tail;
  }

  /** The lines logged right after the header for a non-empty message are
      exactly its shown lines, in their order. */
  lemma LogListsShownLines(n: Notification, service: string)
    ensures n.message != "" ==>
      var log := LogNotification(n, service);
      var shown := ShownLines(n.message);
      && |shown| < |log|
      && log[1..|shown| + 1] == AsMessageLines(shown)
      && forall k :: 0 <= k < |shown| ==> log[k + 1] == MessageLine(shown[k])
  {
    if n.message != "" {
      var log := LogNotification(n, service);
      var shown := ShownLines(n.message);
      var body := AsMessageLines(shown);
      assert log == [log[0]] + (body + Overflow(n.message));
      BodyAfterHead(log, body, Overflow(n.message));
    }
  }

  /** Every non-blank line among the first three of a non-empty message is
      logged. */
  lemma LogShowsEveryNonBlankLine(n: Notification, service: string)
    ensures var log := LogNotification(n, service);
      forall l :: n.message != "" && l in SliceTo(SplitOn(n.message, '\n'), 3) && Strip(l) != "" ==>
        MessageLine(l) in log
  {
    var log := LogNotification(n, service);
    var shown := ShownLines(n.message);
    forall l | n.message != "" && l in SliceTo(SplitOn(n.message, '\n'), 3) && Strip(l) != ""
      ensures MessageLine(l) in log
    {
      assert l in shown;
      var k :| 0 <= k < |shown| && shown[k] == l;
      LogListsShownLines(n, service);
      assert log[k + 1] == MessageLine(l);
    }
  }
}
