/** The configuration `src/config.ts` derives at start-up, as one pure
    function from the process environment and the values read from `.env`
    to an immutable record. */
module Config {
  import opened Options
  import opened JsParseInt
  import RegexEscape
  import Trigger
  import PosixPath

  /** Environment variables by name. */
  type Env = map<string, string>

  /** A property read on `process.env` or on the object `readEnvFile`
      returns: a missing key is `undefined`, which `||` treats exactly like
      the empty string. */
  function Get(env: Env, key: string): string {
    if key in env then env[key] else []
  }

  /** JavaScript `a || b` on strings: `a` unless it is empty. */
  function Or(a: string, b: string): string {
    if a != [] then a else b
  }

  /** JavaScript `n || fallback` on a number from `parseInt`: `NaN` and 0
      are falsy. */
  function OrNumber(n: Option<int>, fallback: int): int {
    match n
    case Some(v) => if v != 0 then v else fallback
    case None => fallback
  }

  /** The first non-empty candidate, or the empty string when there is none. */
  function FirstNonEmpty(candidates: seq<string>): (r: string)
    ensures r == [] <==> forall k :: 0 <= k < |candidates| ==> candidates[k] == []
  {
    if candidates == [] then []
    else if candidates[0] != [] then candidates[0]
    else FirstNonEmpty(candidates[1..])
  }

  /** `process.env.KEY || envConfig.KEY || fallback`. */
  function StringSetting(env: Env, dotEnv: Env, key: string, fallback: string): (r: string)
    ensures Get(env, key) != [] ==> r == Get(env, key)
    ensures Get(env, key) == [] && Get(dotEnv, key) != [] ==> r == Get(dotEnv, key)
    ensures Get(env, key) == [] && Get(dotEnv, key) == [] ==> r == fallback
  {
    Or(Or(Get(env, key), Get(dotEnv, key)), fallback)
  }

  /** `parseInt(process.env.KEY || fallback, 10)`: no fallback after the
      parse and no clamp, so a non-numeric value stays `NaN`. */
  function IntSetting(env: Env, key: string, fallback: string): (r: Option<int>)
    ensures Get(env, key) == [] ==> r == ParseInt(fallback)
    ensures Get(env, key) != [] ==> r == ParseInt(Get(env, key))
  {
    ParseInt(Or(Get(env, key), fallback))
  }

  const AssistantNameKey := "ASSISTANT_NAME"
  const TelegramBotTokenKey := "TELEGRAM_BOT_TOKEN"
  const ModelFastKey := "MODEL_FAST"
  const ModelDeepThoughtKey := "MODEL_DEEP_THOUGHT"
  const ContainerImageKey := "CONTAINER_IMAGE"
  const ContainerTimeoutKey := "CONTAINER_TIMEOUT"
  const ContainerMaxOutputSizeKey := "CONTAINER_MAX_OUTPUT_SIZE"
  const IdleTimeoutKey := "IDLE_TIMEOUT"
  const MaxConcurrentContainersKey := "MAX_CONCURRENT_CONTAINERS"
  const HomeKey := "HOME"

  /** The only keys asked of `.env`. */
  const DotEnvKeys: seq<string> := [AssistantNameKey, TelegramBotTokenKey, ModelFastKey, ModelDeepThoughtKey]

  const DefaultAssistantName := "Andy"
  const DefaultHome := "/Users/user"
  const DefaultContainerImage := "nanoclaw-agent:latest"
  const DefaultTimeoutText := "1800000"
  const DefaultMaxOutputSizeText := "10485760"
  const DefaultMaxConcurrentText := "5"
  const MaxConcurrentFallback := 5

  /** The path segments below the home directory. */
  const AllowlistSegments: seq<string> := [".config", "nanoclaw", "mount-allowlist.json"]

  /** `MAX_CONCURRENT_CONTAINERS`:
      `Math.max(1, parseInt(process.env.MAX_CONCURRENT_CONTAINERS || '5', 10) || 5)`. */
  function MaxConcurrentContainers(env: Env): (r: int)
    ensures r >= 1
    ensures Get(env, MaxConcurrentContainersKey) == [] ==> r == 5
    ensures Get(env, MaxConcurrentContainersKey) != [] ==>
      var parsed := ParseInt(Get(env, MaxConcurrentContainersKey));
      && (parsed == None ==> r == 5)
      && (parsed == Some(0) ==> r == 5)
      && (parsed.Some? && parsed.value > 0 ==> r == parsed.value)
      && (parsed.Some? && parsed.value < 0 ==> r == 1)
  {
    ParseIntUnsigned(DefaultMaxConcurrentText, []);
    assert DefaultMaxConcurrentText + [] == DefaultMaxConcurrentText;
    var parsed := IntSetting(env, MaxConcurrentContainersKey, DefaultMaxConcurrentText);
    var v := OrNumber(parsed, MaxConcurrentFallback);
    if v > 1 then v else 1
  }

  /** `HOME_DIR`: the home directory, or `/Users/user` when unset or empty. */
  function HomeDir(env: Env): (home: string)
    ensures home != []
    ensures Get(env, HomeKey) != [] ==> home == Get(env, HomeKey)
    ensures Get(env, HomeKey) == [] ==> home == DefaultHome
  {
    Or(Get(env, HomeKey), DefaultHome)
  }

  /** `MOUNT_ALLOWLIST_PATH`: `path.join(HOME_DIR, '.config', 'nanoclaw',
      'mount-allowlist.json')`. */
  function MountAllowlistPath(env: Env): string {
    PosixPath.Join([HomeDir(env)] + AllowlistSegments)
  }

  datatype Config = Config(
    assistantName: string,
    pollInterval: int,
    schedulerPollInterval: int,
    mountAllowlistPath: string,
    mainGroupFolder: string,
    containerImage: string,
    containerTimeout: Option<int>,
    containerMaxOutputSize: Option<int>,
    ipcPollInterval: int,
    idleTimeout: Option<int>,
    maxConcurrentContainers: int,
    triggerPattern: string,
    modelDeepThought: string,
    modelFast: string,
    telegramBotToken: string)

  /** Every exported constant of the module, from the process environment
      and the `.env` values. */
  function Load(env: Env, dotEnv: Env): (c: Config)
    ensures c.assistantName != []
    ensures c.maxConcurrentContainers >= 1
    ensures c.containerImage != []
    ensures c.pollInterval == 2000 && c.schedulerPollInterval == 60000
    ensures c.ipcPollInterval == 1000 && c.mainGroupFolder == "main"
    ensures c.triggerPattern == Trigger.TriggerPattern(c.assistantName)
  {
    var name := StringSetting(env, dotEnv, AssistantNameKey, DefaultAssistantName);
    Config(
      assistantName := name,
      pollInterval := 2000,
      schedulerPollInterval := 60000,
      mountAllowlistPath := MountAllowlistPath(env),
      mainGroupFolder := "main",
      containerImage := Or(Get(env, ContainerImageKey), DefaultContainerImage),
      containerTimeout := IntSetting(env, ContainerTimeoutKey, DefaultTimeoutText),
      containerMaxOutputSize := IntSetting(env, ContainerMaxOutputSizeKey, DefaultMaxOutputSizeText),
      ipcPollInterval := 1000,
      idleTimeout := IntSetting(env, IdleTimeoutKey, DefaultTimeoutText),
      maxConcurrentContainers := MaxConcurrentContainers(env),
      triggerPattern := Trigger.TriggerPattern(name),
      modelDeepThought := StringSetting(env, dotEnv, ModelDeepThoughtKey, []),
      modelFast := StringSetting(env, dotEnv, ModelFastKey, []),
      telegramBotToken := StringSetting(env, dotEnv, TelegramBotTokenKey, []))
  }

  /** `TRIGGER_PATTERN.test(msg)` for a loaded configuration. */
  predicate Triggers(c: Config, msg: string) {
    Trigger.Triggers(c.assistantName, msg)
  }

  /** A string setting is the first non-empty of the process environment,
      the `.env` value and the default. */
  lemma StringSettingIsFirstNonEmpty(env: Env, dotEnv: Env, key: string, fallback: string)
    ensures StringSetting(env, dotEnv, key, fallback)
         == FirstNonEmpty([Get(env, key), Get(dotEnv, key), fallback])
  {
    var cs := [Get(env, key), Get(dotEnv, key), fallback];
    assert cs[1..] == [Get(dotEnv, key), fallback];
    assert cs[1..][1..] == [fallback];
    assert FirstNonEmpty([fallback]) == fallback by {
      assert [fallback][1..] == [];
    }
  }

  /** `ASSISTANT_NAME`, `MODEL_*` and `TELEGRAM_BOT_TOKEN` follow the
      process environment first and `.env` second; only the name has a
      non-empty default. */
  lemma StringSettings(env: Env, dotEnv: Env)
    ensures var c := Load(env, dotEnv);
      && c.assistantName == FirstNonEmpty([Get(env, AssistantNameKey), Get(dotEnv, AssistantNameKey), "Andy"])
      && c.modelFast == FirstNonEmpty([Get(env, ModelFastKey), Get(dotEnv, ModelFastKey)])
      && c.modelDeepThought == FirstNonEmpty([Get(env, ModelDeepThoughtKey), Get(dotEnv, ModelDeepThoughtKey)])
      && c.telegramBotToken == FirstNonEmpty([Get(env, TelegramBotTokenKey), Get(dotEnv, TelegramBotTokenKey)])
      && c.containerImage == FirstNonEmpty([Get(env, ContainerImageKey), "nanoclaw-agent:latest"])
  {
    var c := Load(env, dotEnv);
    StringSettingIsFirstNonEmpty(env, dotEnv, AssistantNameKey, DefaultAssistantName);
    OptionalSetting(env, dotEnv, ModelFastKey);
    OptionalSetting(env, dotEnv, ModelDeepThoughtKey);
    OptionalSetting(env, dotEnv, TelegramBotTokenKey);
    var cs := [Get(env, ContainerImageKey), DefaultContainerImage];
    assert cs[1..] == [DefaultContainerImage];
  }

  /** A setting whose default is empty is the first non-empty of its two
      sources. */
  lemma OptionalSetting(env: Env, dotEnv: Env, key: string)
    ensures StringSetting(env, dotEnv, key, []) == FirstNonEmpty([Get(env, key), Get(dotEnv, key)])
  {
    var cs := [Get(env, key), Get(dotEnv, key)];
    assert cs[1..] == [Get(dotEnv, key)];
    assert cs[1..][1..] == [];
  }

  lemma ParseDefaultTimeout()
    ensures ParseInt(DefaultTimeoutText) == Some(1800000)
  {
    DefaultTimeoutDigits();
    ParseIntNatural(1800000, []);
    assert DefaultTimeoutText + [] == DefaultTimeoutText;
  }

  lemma DefaultTimeoutDigits()
    ensures NatDigits(1800000) == DefaultTimeoutText
  {
    assert NatDigits(18) == "18";
    assert NatDigits(180) == "180";
    assert NatDigits(1800) == "1800";
    assert NatDigits(18000) == "18000";
    assert NatDigits(180000) == "180000";
  }

  lemma ParseDefaultMaxOutputSize()
    ensures ParseInt(DefaultMaxOutputSizeText) == Some(10485760)
  {
    DefaultMaxOutputSizeDigits();
    ParseIntNatural(10485760, []);
    assert DefaultMaxOutputSizeText + [] == DefaultMaxOutputSizeText;
  }

  lemma DefaultMaxOutputSizeDigits()
    ensures NatDigits(10485760) == DefaultMaxOutputSizeText
  {
    assert NatDigits(10) == "10";
    assert NatDigits(104) == "104";
    assert NatDigits(1048) == "1048";
    assert NatDigits(10485) == "10485";
    assert NatDigits(104857) == "104857";
    assert NatDigits(1048576) == "1048576";
  }

  /** `CONTAINER_TIMEOUT` and `IDLE_TIMEOUT` default to 1800000 and
      `CONTAINER_MAX_OUTPUT_SIZE` to 10485760 when unset or empty;
      otherwise each is what `parseInt` reads, with no fallback and no
      clamp. */
  lemma NumericSettings(env: Env, dotEnv: Env)
    ensures var c := Load(env, dotEnv);
      && c.containerTimeout
         == (if Get(env, ContainerTimeoutKey) == [] then Some(1800000)
             else ParseInt(Get(env, ContainerTimeoutKey)))
      && c.idleTimeout
         == (if Get(env, IdleTimeoutKey) == [] then Some(1800000)
             else ParseInt(Get(env, IdleTimeoutKey)))
      && c.containerMaxOutputSize
         == (if Get(env, ContainerMaxOutputSizeKey) == [] then Some(10485760)
             else ParseInt(Get(env, ContainerMaxOutputSizeKey)))
  {
    ParseDefaultTimeout();
    ParseDefaultMaxOutputSize();
  }

  /** A timeout or size that does not start with a number stays `NaN`
      (`"30m"` would give 30, but `"abc"`, `"-"` and `" "` give `NaN`):
      nothing replaces it and nothing clamps it. */
  lemma NonNumericTimeoutIsNaN(env: Env, dotEnv: Env, key: string)
    requires key == ContainerTimeoutKey || key == IdleTimeoutKey || key == ContainerMaxOutputSizeKey
    requires Get(env, key) != []
    requires forall k :: 0 <= k < |Get(env, key)| ==> !IsDigit(Get(env, key)[k])
    ensures var c := Load(env, dotEnv);
      && (key == ContainerTimeoutKey ==> c.containerTimeout == None)
      && (key == IdleTimeoutKey ==> c.idleTimeout == None)
      && (key == ContainerMaxOutputSizeKey ==> c.containerMaxOutputSize == None)
  {
    NoDigitsParsesToNaN(Get(env, key));
  }

  /** A string with no digit at all parses to `NaN`. */
  lemma NoDigitsParsesToNaN(s: string)
    requires forall k :: 0 <= k < |s| ==> !IsDigit(s[k])
    ensures ParseInt(s) == None
  {
    TrimStartSpec(s);
    var t := TrimStart(s);
    assert forall k :: 0 <= k < |t| ==> !IsDigit(t[k]) by {
      forall k | 0 <= k < |t| ensures !IsDigit(t[k]) {
        assert t[k] == s[|s| - |t| + k];
      }
    }
    var body := if |t| > 0 && (t[0] == '-' || t[0] == '+') then t[1..] else t;
    if body != [] {
      assert body[0] == t[0] || body[0] == t[1];
    }
  }

  /** `MAX_CONCURRENT_CONTAINERS` for a value that starts with a number `n`
      (after optional white space is removed it reads as `Decimal(n)`):
      positive values are kept, 0 falls back to 5, negative values are
      raised to 1. */
  lemma MaxConcurrentOfNumber(env: Env, n: int, rest: string)
    requires rest == [] || !IsDigit(rest[0])
    requires Get(env, MaxConcurrentContainersKey) == Decimal(n) + rest
    ensures MaxConcurrentContainers(env) == (if n > 0 then n else if n == 0 then 5 else 1)
  {
    ParseIntDecimal(n, rest);
    assert Decimal(n) != [] by {
      if n < 0 { assert Decimal(n)[0] == '-'; }
    }
  }

  /** `MAX_CONCURRENT_CONTAINERS` is 5 for a value without any digit. */
  lemma MaxConcurrentNonNumeric(env: Env)
    requires forall k :: 0 <= k < |Get(env, MaxConcurrentContainersKey)| ==>
      !IsDigit(Get(env, MaxConcurrentContainersKey)[k])
    ensures MaxConcurrentContainers(env) == 5
  {
    NoDigitsParsesToNaN(Get(env, MaxConcurrentContainersKey));
  }

  /** The allowlist path is the normalized home directory, as a directory,
      followed by `.config/nanoclaw/mount-allowlist.json`; it is absolute
      exactly when the home directory is. */
  lemma MountAllowlistPathShape(env: Env)
    ensures MountAllowlistPath(env)
         == PosixPath.DirPrefix(HomeDir(env)) + PosixPath.JoinWith(AllowlistSegments)
    ensures var p := MountAllowlistPath(env);
      p != [] && (p[0] == '/' <==> HomeDir(env)[0] == '/')
  {
    var home := HomeDir(env);
    var parts := [home] + AllowlistSegments;
    var suffix := PosixPath.JoinWith(AllowlistSegments);
    AllowlistSegmentsNames();
    assert PosixPath.Join(parts) == PosixPath.Normalize(home + "/" + suffix) by {
      assert parts[1..] == AllowlistSegments;
      assert PosixPath.NonEmpty(parts) == parts;
      assert PosixPath.JoinWith(parts) == home + "/" + suffix;
    }
    PosixPath.NormalizeAppendNames(home, AllowlistSegments);
    var d := PosixPath.DirPrefix(home);
    assert (d + suffix)[|d|] == '.';
  }

  /** The fixed segments are plain names, none of them empty. */
  lemma AllowlistSegmentsNames()
    ensures PosixPath.AllNames(AllowlistSegments)
    ensures PosixPath.NonEmpty(AllowlistSegments) == AllowlistSegments
  {
    var s := AllowlistSegments;
    assert s[1..] == ["nanoclaw", "mount-allowlist.json"];
    assert s[1..][1..] == ["mount-allowlist.json"];
    assert s[1..][1..][1..] == [];
  }

  /** For a home directory without empty, `.` or `..` segments and without
      a trailing slash, the allowlist path is that directory followed by
      `/.config/nanoclaw/mount-allowlist.json`; with `HOME` unset or empty
      it is `/Users/user/.config/nanoclaw/mount-allowlist.json`. */
  lemma MountAllowlistPathClean(env: Env)
    requires Get(env, HomeKey) == [] || PosixPath.IsCleanAbsolute(Get(env, HomeKey))
    ensures MountAllowlistPath(env) == HomeDir(env) + "/" + PosixPath.JoinWith(AllowlistSegments)
    ensures Get(env, HomeKey) == [] ==>
      MountAllowlistPath(env) == DefaultHome + "/" + PosixPath.JoinWith(AllowlistSegments)
  {
    var home := HomeDir(env);
    if Get(env, HomeKey) == [] {
      DefaultHomeIsClean();
    }
    MountAllowlistPathShape(env);
    PosixPath.DirPrefixClean(home);
  }

  lemma DefaultHomeIsClean()
    ensures PosixPath.IsCleanAbsolute(DefaultHome)
  {
    var names := ["Users", "user"];
    DefaultHomeSpelling();
    assert PosixPath.NoSlash(names[0]) && PosixPath.NoSlash(names[1]);
    assert PosixPath.IsName(names[0]) && PosixPath.IsName(names[1]);
    PosixPath.CleanAbsoluteOfNames(names);
  }

  lemma DefaultHomeSpelling()
    ensures DefaultHome == "/" + PosixPath.JoinWith(["Users", "user"])
  {
    var names := ["Users", "user"];
    assert names[1..] == ["user"];
  }

  /** Of `.env`, only `ASSISTANT_NAME`, `TELEGRAM_BOT_TOKEN`, `MODEL_FAST`
      and `MODEL_DEEP_THOUGHT` are used: two `.env` files that agree on
      these four give the same configuration. */
  lemma LoadReadsOnlyDotEnvKeys(env: Env, d1: Env, d2: Env)
    requires forall k :: 0 <= k < |DotEnvKeys| ==> Get(d1, DotEnvKeys[k]) == Get(d2, DotEnvKeys[k])
    ensures Load(env, d1) == Load(env, d2)
  {
    assert DotEnvKeys[0] == AssistantNameKey;
    assert DotEnvKeys[1] == TelegramBotTokenKey;
    assert DotEnvKeys[2] == ModelFastKey;
    assert DotEnvKeys[3] == ModelDeepThoughtKey;
  }

  /** A loaded configuration triggers on a message exactly when the message
      is `@`, the assistant name in any ASCII case, then a word boundary. */
  lemma LoadedTrigger(env: Env, dotEnv: Env, msg: string)
    ensures var c := Load(env, dotEnv);
      Triggers(c, msg) <==> Trigger.DirectTrigger(c.assistantName, msg)
  {
    Trigger.TriggerIsDirect(Load(env, dotEnv).assistantName, msg);
  }

  /** With no name configured anywhere, `@Andy`, `@andy hi` and `@ANDY,`
      trigger, and `@Andyx`, `@And` and ` @Andy` do not. */
  lemma DefaultNameTrigger(env: Env, dotEnv: Env, msg: string)
    requires Get(env, AssistantNameKey) == [] && Get(dotEnv, AssistantNameKey) == []
    ensures Triggers(Load(env, dotEnv), msg)
        <==> (&& |msg| >= 5
              && msg[0] == '@'
              && Trigger.EqualIgnoringCase(msg[1..5], "Andy")
              && (|msg| == 5 || !Trigger.IsWordChar(msg[5])))
  {
    assert Load(env, dotEnv).assistantName == DefaultAssistantName;
    LoadedTrigger(env, dotEnv, msg);
    DirectTriggerDefaultName(msg);
  }

  /** The direct trigger for the name `Andy`, spelled out. */
  lemma DirectTriggerDefaultName(msg: string)
    ensures Trigger.DirectTrigger(DefaultAssistantName, msg)
        <==> (&& |msg| >= 5
              && msg[0] == '@'
              && Trigger.EqualIgnoringCase(msg[1..5], "Andy")
              && (|msg| == 5 || !Trigger.IsWordChar(msg[5])))
  {
    if |msg| >= 5 {
      assert Trigger.IsWordChar("Andy"[3]);
      if Trigger.EqualIgnoringCase(msg[1..5], "Andy") {
        assert Trigger.SameIgnoringCase(msg[4], 'y');
        Trigger.SameIgnoringCaseWord(msg[4], 'y');
      }
    }
  }
}
