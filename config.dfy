/** The configuration loader (config/loader.py): the user's options merged over
    the defaults, converted to a typed configuration and validated.

    A decoded options file is a map from keys to JSON scalars; a file that does
    not exist is `None`. */
module Config {
  import opened Common

  datatype Value = IntV(i: int) | BoolV(b: bool) | StrV(s: string)

  type Options = map<string, Value>

  datatype Configuration = Configuration(
    usbDevice: string,
    maxCopies: int,
    waitTime: int,
    syncExistingOnStart: bool,
    maxRetries: int,
    retryDelay: int,
    logLevel: string,
    notifyService: string)

  /** The validation rules, in the order they are checked. */
  datatype Rule =
    | BadUsbDevice
    | MaxCopiesBelowOne
    | NegativeWaitTime
    | MaxRetriesBelowOne
    | NegativeRetryDelay
    | UnknownLogLevel

  function Ordinal(r: Rule): nat {
    match r
    case BadUsbDevice => 0
    case MaxCopiesBelowOne => 1
    case NegativeWaitTime => 2
    case MaxRetriesBelowOne => 3
    case NegativeRetryDelay => 4
    case UnknownLogLevel => 5
  }

  datatype LoadResult =
    | Loaded(config: Configuration)
    | Invalid(violations: seq<Rule>)
    | WrongType(key: string)

  const Defaults: Options := map[
    "usb_device" := StrV(""),
    "max_copies" := IntV(5),
    "wait_time" := IntV(300),
    "sync_existing_on_start" := BoolV(true),
    "max_retries" := IntV(3),
    "retry_delay" := IntV(30),
    "log_level" := StrV("INFO"),
    "notify_service" := StrV("notification_channel")]

  const LogLevels: seq<string> := ["OFF", "DEBUG", "INFO", "WARNING", "ERROR", "CRITICAL"]

  /** The defaults overridden key by key by the user's options; a missing file
      contributes no options. */
  function Merge(user: Option<Options>): (r: Options)
    ensures user.None? ==> r == Defaults
    ensures user.Some? ==> r.Keys == Defaults.Keys + user.value.Keys
    ensures user.Some? ==> forall k :: k in user.value ==> r[k] == user.value[k]
    ensures user.Some? ==> forall k :: k in Defaults && k !in user.value ==> r[k] == Defaults[k]
  {
    match user
    case None => Defaults
    case Some(options) => Defaults + options
  }

  // ---------------------------------------------------------------------------
  // Validation

  predicate ValidUsbDevice(device: string) {
    device == [] || StartsWith(device, "sd") || StartsWith(device, "mmc") || StartsWith(device, "nvme")
  }

  predicate ValidLogLevel(level: string) {
    Upper(level) in LogLevels
  }

  predicate Violated(rule: Rule, c: Configuration) {
    match rule
    case BadUsbDevice => !ValidUsbDevice(c.usbDevice)
    case MaxCopiesBelowOne => c.maxCopies < 1
    case NegativeWaitTime => c.waitTime < 0
    case MaxRetriesBelowOne => c.maxRetries < 1
    case NegativeRetryDelay => c.retryDelay < 0
    case UnknownLogLevel => !ValidLogLevel(c.logLevel)
  }

  const AllRules: seq<Rule> :=
    [BadUsbDevice, MaxCopiesBelowOne, NegativeWaitTime, MaxRetriesBelowOne, NegativeRetryDelay, UnknownLogLevel]

  predicate InRuleOrder(rules: seq<Rule>) {
    forall i, j :: 0 <= i < j < |rules| ==> Ordinal(rules[i]) < Ordinal(rules[j])
  }

  /** The rules of `rules` that `c` violates, in the order given. */
  function ViolatedAmong(rules: seq<Rule>, c: Configuration): (r: seq<Rule>)
    ensures forall rule :: rule in r <==> rule in rules && Violated(rule, c)
  {
    if rules == [] then []
    else Check(rules[0], c) + ViolatedAmong(rules[1..], c)
  }

  /** The rule when `c` violates it, otherwise nothing. */
  function Check(rule: Rule, c: Configuration): (r: seq<Rule>)
    ensures r == [rule] || r == []
    ensures r != [] <==> Violated(rule, c)
  {
    if Violated(rule, c) then [rule] else []
  }

  /** The rules after the first of an ordered sequence are ordered. */
  lemma TailInRuleOrder(rules: seq<Rule>)
    requires rules != [] && InRuleOrder(rules)
    ensures InRuleOrder(rules[1..])
    ensures forall x :: x in rules[1..] ==> Ordinal(rules[0]) < Ordinal(x)
  {
    var tail := rules[1..];
    forall i, j | 0 <= i < j < |tail| ensures Ordinal(tail[i]) < Ordinal(tail[j]) {
      assert tail[i] == rules[i + 1] && tail[j] == rules[j + 1];
    }
    forall x | x in tail ensures Ordinal(rules[0]) < Ordinal(x) {
      var k :| 0 <= k < |tail| && tail[k] == x;
      assert rules[k + 1] == x;
    }
  }

  /** A rule before every rule of an ordered sequence can be put in front. */
  lemma ConsInRuleOrder(x: Rule, rest: seq<Rule>)
    requires InRuleOrder(rest)
    requires forall y :: y in rest ==> Ordinal(x) < Ordinal(y)
    ensures InRuleOrder([x] + rest)
  {
    var r := [x] + rest;
    forall i, j | 0 <= i < j < |r| ensures Ordinal(r[i]) < Ordinal(r[j]) {
      assert r[j] == rest[j - 1];
      if i > 0 {
        assert r[i] == rest[i - 1];
      } else {
        assert rest[j - 1] in rest;
      }
    }
  }

  /** Keeping some of the rules keeps their order. */
  lemma {:induction false} ViolatedAmongInOrder(rules: seq<Rule>, c: Configuration)
    requires InRuleOrder(rules)
    ensures InRuleOrder(ViolatedAmong(rules, c))
  {
    if rules != [] {
      TailInRuleOrder(rules);
      ViolatedAmongInOrder(rules[1..], c);
      var rest := ViolatedAmong(rules[1..], c);
      if Check(rules[0], c) != [] {
        forall y | y in rest ensures Ordinal(rules[0]) < Ordinal(y) {
          assert y in rules[1..];
        }
        ConsInRuleOrder(rules[0], rest);
        assert ViolatedAmong(rules, c) == [rules[0]] + rest;
      } else {
        assert ViolatedAmong(rules, c) == rest;
      }
    }
  }


  /** `_validate_config`: every violated rule, collected in rule order rather
      than stopping at the first. */
  function Violations(c: Configuration): (r: seq<Rule>)
    ensures forall rule :: rule in r <==> Violated(rule, c)
    ensures InRuleOrder(r)
  {
    ViolatedAmongInOrder(AllRules, c);
    ViolatedAmong(AllRules, c)
  }

  // ---------------------------------------------------------------------------
  // Conversion

  function IntField(d: Options, key: string, default: int): Option<int> {
    if key !in d then Some(default)
    else match d[key] case IntV(i) => Some(i) case _ => None
  }

  function BoolField(d: Options, key: string, default: bool): Option<bool> {
    if key !in d then Some(default)
    else match d[key] case BoolV(b) => Some(b) case _ => None
  }

  function StrField(d: Options, key: string, default: string): Option<string> {
    if key !in d then Some(default)
    else match d[key] case StrV(s) => Some(s) case _ => None
  }

  /** The first key, in field order, whose value is not of the field's kind. */
  function FirstWrongType(d: Options): Option<string> {
    if StrField(d, "usb_device", "").None? then Some("usb_device")
    else if IntField(d, "max_copies", 5).None? then Some("max_copies")
    else if IntField(d, "wait_time", 300).None? then Some("wait_time")
    else if BoolField(d, "sync_existing_on_start", true).None? then Some("sync_existing_on_start")
    else if IntField(d, "max_retries", 3).None? then Some("max_retries")
    else if IntField(d, "retry_delay", 30).None? then Some("retry_delay")
    else if StrField(d, "log_level", "INFO").None? then Some("log_level")
    else if StrField(d, "notify_service", "notification_channel").None? then Some("notify_service")
    else None
  }

  /** The typed configuration of a well-typed options map: each field takes
      its key's value when the key is present, and its default otherwise. */
  function Convert(d: Options): (c: Configuration)
    requires FirstWrongType(d).None?
    ensures "usb_device" in d ==> c.usbDevice == d["usb_device"].s
    ensures "usb_device" !in d ==> c.usbDevice == ""
    ensures "max_copies" in d ==> c.maxCopies == d["max_copies"].i
    ensures "max_copies" !in d ==> c.maxCopies == 5
    ensures "wait_time" in d ==> c.waitTime == d["wait_time"].i
    ensures "wait_time" !in d ==> c.waitTime == 300
    ensures "sync_existing_on_start" in d ==> c.syncExistingOnStart == d["sync_existing_on_start"].b
    ensures "sync_existing_on_start" !in d ==> c.syncExistingOnStart
    ensures "max_retries" in d ==> c.maxRetries == d["max_retries"].i
    ensures "max_retries" !in d ==> c.maxRetries == 3
    ensures "retry_delay" in d ==> c.retryDelay == d["retry_delay"].i
    ensures "retry_delay" !in d ==> c.retryDelay == 30
    ensures "log_level" in d ==> c.logLevel == d["log_level"].s
    ensures "log_level" !in d ==> c.logLevel == "INFO"
    ensures "notify_service" in d ==> c.notifyService == d["notify_service"].s
    ensures "notify_service" !in d ==> c.notifyService == "notification_channel"
  {
    Configuration(
      StrField(d, "usb_device", "").value,
      IntField(d, "max_copies", 5).value,
      IntField(d, "wait_time", 300).value,
      BoolField(d, "sync_existing_on_start", true).value,
      IntField(d, "max_retries", 3).value,
      IntField(d, "retry_delay", 30).value,
      StrField(d, "log_level", "INFO").value,
      StrField(d, "notify_service", "notification_channel").value)
  }

  /** `_create_config`: the typed configuration, accepted exactly when no rule
      is violated; otherwise rejected with every violated rule. */
  function CreateConfig(d: Options): (r: LoadResult)
    ensures r.WrongType? <==> FirstWrongType(d).Some?
    ensures r.WrongType? ==> r.key == FirstWrongType(d).value
    ensures FirstWrongType(d).None? ==> (r.Loaded? <==> Violations(Convert(d)) == [])
    ensures r.Loaded? ==> FirstWrongType(d).None? && r.config == Convert(d)
    ensures r.Invalid? ==> FirstWrongType(d).None? && r.violations == Violations(Convert(d)) && r.violations != []
  {
    match FirstWrongType(d)
    case Some(key) => WrongType(key)
    case None =>
      var c := Convert(d);
      var v := Violations(c);
      if v == [] then Loaded(c) else Invalid(v)
  }

  /** `load`: merge, then convert and validate. */
  function Load(user: Option<Options>): (r: LoadResult)
    ensures r.Loaded? ==> forall rule :: !Violated(rule, r.config)
    ensures r.Invalid? ==> FirstWrongType(Merge(user)).None? && exists rule :: Violated(rule, Convert(Merge(user)))
  {
    var d := Merge(user);
    if FirstWrongType(d).None? then
      NoViolations(Convert(d));
      CreateConfig(d)
    else CreateConfig(d)
  }

  const DefaultConfiguration: Configuration :=
    Configuration("", 5, 300, true, 3, 30, "INFO", "notification_channel")

  /** A configuration has nothing to report exactly when it violates no rule. */
  lemma NoViolations(c: Configuration)
    ensures Violations(c) == [] <==> forall rule :: !Violated(rule, c)
  {
    var v := Violations(c);
    if v != [] {
      assert v[0] in v;
    }
  }

  /** A well-typed options map is accepted, as its own conversion, exactly
      when that conversion violates no rule; otherwise it is rejected with a
      violated rule. */
  lemma AcceptedIffNoRuleViolated(d: Options)
    requires FirstWrongType(d).None?
    ensures CreateConfig(d) == Loaded(Convert(d)) <==> forall rule :: !Violated(rule, Convert(d))
    ensures CreateConfig(d).Invalid? <==> exists rule :: Violated(rule, Convert(d))
  {
    NoViolations(Convert(d));
  }

  lemma DefaultsWellTyped()
    ensures FirstWrongType(Defaults) == None
    ensures StrField(Defaults, "usb_device", "") == Some("")
    ensures IntField(Defaults, "max_copies", 5) == Some(5)
    ensures IntField(Defaults, "wait_time", 300) == Some(300)
    ensures BoolField(Defaults, "sync_existing_on_start", true) == Some(true)
    ensures IntField(Defaults, "max_retries", 3) == Some(3)
    ensures IntField(Defaults, "retry_delay", 30) == Some(30)
    ensures StrField(Defaults, "log_level", "INFO") == Some("INFO")
    ensures StrField(Defaults, "notify_service", "notification_channel") == Some("notification_channel")
  {
  }

  lemma InfoIsALogLevel()
    ensures ValidLogLevel("INFO")
  {
    assert Upper("INFO") == "INFO";
  }

  /** Without an options file the defaults are loaded, and they pass validation. */
  lemma DefaultsAreValid()
    ensures Load(None) == Loaded(DefaultConfiguration)
  {
    DefaultsWellTyped();
    InfoIsALogLevel();
    NoViolations(DefaultConfiguration);
  }

  /** The user's options override the defaults: a valid maximum number of copies
      given by the user is the one loaded, the rest keep their defaults. */
  lemma UserOverridesDefault(copies: int)
    requires copies >= 1
    ensures Load(Some(map["max_copies" := IntV(copies)])) == Loaded(DefaultConfiguration.(maxCopies := copies))
  {
    var merged := Merge(Some(map["max_copies" := IntV(copies)]));
    assert merged == Defaults["max_copies" := IntV(copies)];
    assert FirstWrongType(merged) == None;
    InfoIsALogLevel();
    NoViolations(DefaultConfiguration.(maxCopies := copies));
  }

  /** The rules are checked one after the other in a fixed order, each one
      adding itself when violated. */
  lemma ViolationsSpelledOut(c: Configuration)
    ensures Violations(c) == Check(BadUsbDevice, c) + (Check(MaxCopiesBelowOne, c) + (Check(NegativeWaitTime, c)
      + (Check(MaxRetriesBelowOne, c) + (Check(NegativeRetryDelay, c) + Check(UnknownLogLevel, c)))))
  {
    var c0, c1, c2, c3, c4, c5 := Check(BadUsbDevice, c), Check(MaxCopiesBelowOne, c), Check(NegativeWaitTime, c),
      Check(MaxRetriesBelowOne, c), Check(NegativeRetryDelay, c), Check(UnknownLogLevel, c);
    var s5 := [UnknownLogLevel];
    assert s5[1..] == [];
    assert ViolatedAmong(s5, c) == c5 + [] == c5;
    var s4 := [NegativeRetryDelay, UnknownLogLevel];
    assert s4[1..] == s5;
    assert ViolatedAmong(s4, c) == c4 + c5;
    var s3 := [MaxRetriesBelowOne, NegativeRetryDelay, UnknownLogLevel];
    assert s3[1..] == s4;
    assert ViolatedAmong(s3, c) == c3 + (c4 + c5);
    var s2 := [NegativeWaitTime, MaxRetriesBelowOne, NegativeRetryDelay, UnknownLogLevel];
    assert s2[1..] == s3;
    assert ViolatedAmong(s2, c) == c2 + (c3 + (c4 + c5));
    var s1 := [MaxCopiesBelowOne, NegativeWaitTime, MaxRetriesBelowOne, NegativeRetryDelay, UnknownLogLevel];
    assert s1[1..] == s2;
    assert ViolatedAmong(s1, c) == c1 + (c2 + (c3 + (c4 + c5)));
    assert AllRules[1..] == s1;
    assert ViolatedAmong(AllRules, c) == c0 + (c1 + (c2 + (c3 + (c4 + c5))));
  }

  /** Every violation is reported, not only the first: an unknown device, zero
      copies and a negative wait are rejected together, in rule order. */
  lemma AllViolationsCollected()
    ensures Violations(DefaultConfiguration.(usbDevice := "hdb1", maxCopies := 0, waitTime := -1)) ==
      [BadUsbDevice, MaxCopiesBelowOne, NegativeWaitTime]
  {
    assert [BadUsbDevice] + ([MaxCopiesBelowOne] + ([NegativeWaitTime] + ([] + ([] + [])))) ==
      [BadUsbDevice, MaxCopiesBelowOne, NegativeWaitTime];
    var c := DefaultConfiguration.(usbDevice := "hdb1", maxCopies := 0, waitTime := -1);
    assert !ValidUsbDevice("hdb1") by {
      assert "hdb1"[..2][0] == 'h' && "hdb1"[..3][0] == 'h' && "hdb1"[..4][0] == 'h';
    }
    InfoIsALogLevel();
    assert c.maxRetries == 3 && c.retryDelay == 30 && c.logLevel == "INFO";
    ViolationsSpelledOut(c);
    assert Check(BadUsbDevice, c) == [BadUsbDevice];
    assert Check(MaxCopiesBelowOne, c) == [MaxCopiesBelowOne];
    assert Check(NegativeWaitTime, c) == [NegativeWaitTime];
    assert Check(MaxRetriesBelowOne, c) == [] && Check(NegativeRetryDelay, c) == [] && Check(UnknownLogLevel, c) == [];
  }

  /** The log level is compared after upper-casing. */
  lemma LogLevelIgnoresCase()
    ensures ValidLogLevel("debug") && ValidLogLevel("Warning") && !ValidLogLevel("verbose")
  {
    assert Upper("debug") == "DEBUG";
    assert Upper("Warning") == "WARNING";
    assert Upper("verbose") == "VERBOSE";
  }
}
