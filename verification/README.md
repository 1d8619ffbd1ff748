# nanoclaw configuration, in Dafny

NanoClaw is a personal assistant. Its messages run through an agent that
sits in a container. At start-up, `src/config.ts` turns the process
environment and a few values from the `.env` file into a set of constants:
- the assistant's name and the pattern a message must match to reach the assistant;
- the container image, timeouts, output cap and concurrency limit;
- the location of the mount allowlist;
- the model identifiers and the Telegram token.

This project models that derivation as one pure function, `Config.Load`. It
takes two string maps, the process environment and the `.env` values, and
returns an immutable `Config` record. A missing key and an empty value
behave alike, as they do under JavaScript `||`.

The modules follow the parts of the derivation:

- `Options`: the `Option` type. `None` stands for JavaScript `NaN`.
- `JsParseInt`: `parseInt(s, 10)`. It skips the leading ECMAScript white space, reads an optional sign, then reads the longest run of decimal digits. A string with no digit there gives `NaN`.
- `RegexEscape`: `escapeRegex`. It puts a backslash before each of the fourteen characters `. * + ? ^ $ { } ( ) | [ ] \`. It comes with an unescaping inverse and a well-formedness predicate.
- `Trigger`: `TRIGGER_PATTERN`.
  - The pattern text `^@<escaped name>\b` is built the way the source builds it.
  - The model tokenizes that text and matches it the way `RegExp.prototype.test` does with the `i` flag.
  - This is proved equal to a direct predicate: `@`, then the name ignoring ASCII case, then a word boundary.
- `PosixPath`: the part of Node's `path.join` that `MOUNT_ALLOWLIST_PATH` needs. It joins the non-empty arguments with `/`, then normalizes the result like POSIX `path.normalize`:
  - empty and `.` segments are dropped;
  - `..` removes the segment before it;
  - the leading `/` and a trailing `/` are kept.
- `Config`: the settings, the `Config` record, `Load`, and the properties of each setting.

## Model

| member | source | states |
|---|---|---|
| Config.FirstNonEmpty | src/config.ts:15-16 | the resolved value is empty exactly when every candidate is empty |
| Config.StringSetting | src/config.ts:15-16 | `process.env.KEY \|\| envConfig.KEY \|\| default`: the environment value if non-empty, else the `.env` value if non-empty, else the default |
| Config.StringSettingIsFirstNonEmpty | src/config.ts:15-16 | a string setting equals the first non-empty entry of [environment, `.env`, default] |
| Config.OptionalSetting | src/config.ts:73-79 | a setting whose default is `''` is the first non-empty of its environment and `.env` values |
| Config.StringSettings | src/config.ts:73-79 | in a loaded configuration, `ASSISTANT_NAME` is the first non-empty of environment, `.env` and `Andy`. `MODEL_FAST`, `MODEL_DEEP_THOUGHT` and `TELEGRAM_BOT_TOKEN` are the first non-empty of environment and `.env`. `CONTAINER_IMAGE` is the environment value or `nanoclaw-agent:latest` |
| Config.Load | src/config.ts:15-63 | the name and the image are never empty, the concurrency limit is at least 1, and the fixed intervals are 2000, 60000 and 1000 ms. The main group folder is `main`, and the stored pattern is the pattern text built from the resolved name |
| Config.LoadReadsOnlyDotEnvKeys | src/config.ts:8-13 | two `.env` maps that agree on the four requested keys give the same configuration |
| Config.IntSetting | src/config.ts:38-50 | an unset or empty variable parses the default text; otherwise the variable's own text is parsed, with nothing after the parse |
| Config.ParseDefaultTimeout | src/config.ts:39 | the default text `'1800000'` parses to 1800000 |
| Config.ParseDefaultMaxOutputSize | src/config.ts:43 | the default text `'10485760'` parses to 10485760 |
| Config.NumericSettings | src/config.ts:38-50 | `CONTAINER_TIMEOUT` and `IDLE_TIMEOUT` are 1800000, and `CONTAINER_MAX_OUTPUT_SIZE` is 10485760, when unset or empty. Otherwise each is exactly `parseInt` of the value, with no fallback and no clamp |
| Config.NonNumericTimeoutIsNaN | src/config.ts:38-50 | a timeout or size value without any digit stays `NaN` in the configuration |
| Config.NoDigitsParsesToNaN | src/config.ts:38-41 | `parseInt` of a string with no digit is `NaN` |
| Config.MaxConcurrentContainers | src/config.ts:51-54 | the limit is at least 1 for every environment. It is 5 when unset, empty, `NaN` or 0; the parsed value when positive; and 1 when negative |
| Config.MaxConcurrentOfNumber | src/config.ts:53 | for a value that spells an integer `n` followed by a non-digit, the limit is `n` when `n > 0`, 5 when `n = 0` and 1 when `n < 0` |
| Config.MaxConcurrentNonNumeric | src/config.ts:53 | a value without any digit gives 5 |
| Config.HomeDir | src/config.ts:22 | the home directory is `HOME` whenever `HOME` is non-empty and `/Users/user` when it is unset or empty, so it is never empty |
| Config.MountAllowlistPath | src/config.ts:25-30 | `path.join(HOME_DIR, '.config', 'nanoclaw', 'mount-allowlist.json')`; MountAllowlistPathShape and MountAllowlistPathClean give its value |
| Config.MountAllowlistPathShape | src/config.ts:25-30 | the allowlist path is the normalized home directory, as a directory, followed by `.config/nanoclaw/mount-allowlist.json`; it is absolute exactly when the home directory is |
| Config.MountAllowlistPathClean | src/config.ts:22-30 | for a clean absolute `HOME`, the path is `HOME/.config/nanoclaw/mount-allowlist.json`. With `HOME` unset or empty it is `/Users/user/.config/nanoclaw/mount-allowlist.json` |
| Config.LoadedTrigger | src/config.ts:60-63 | a loaded configuration's pattern matches a message exactly when the direct trigger predicate holds for the resolved name |
| Config.DefaultNameTrigger | src/config.ts:60-63 | with no name configured, a message triggers exactly when it is `@`, then `andy` in any ASCII case, then either nothing or a non-word character |
| JsParseInt.ParseInt | src/config.ts:38-41 | `parseInt(s, 10)`, with `None` for `NaN`. ParseIntDigits gives its value when a digit follows the white space and the optional sign, and ParseIntNoDigits gives `NaN` when none does |
| JsParseInt.ParseIntDigits | src/config.ts:38-41 | white space, an optional sign, a digit run and a tail that does not start with a digit parse to the signed value of the digit run; the tail is ignored |
| JsParseInt.ParseIntNoDigits | src/config.ts:38-41 | white space and an optional sign followed by no digit parse to `NaN` |
| JsParseInt.ParseIntDecimal | src/config.ts:53 | the decimal spelling of any integer, followed by a non-digit tail, parses back to that integer |
| JsParseInt.NatDigitsValue | src/config.ts:38-41 | the canonical digits of `n` have the value `n` |
| RegexEscape.Escape | src/config.ts:56-58 | the escaped string is longer than the input by the number of syntax characters in it |
| RegexEscape.EscapeScan | src/config.ts:56-58 | a left-to-right scan builds the escaped string: a backslash before each syntax character, everything else copied, total length `\|s\| + CountMeta(s)` |
| RegexEscape.EscapeAppend | src/config.ts:57 | escaping works character by character: escaping a concatenation is the concatenation of the escapes |
| RegexEscape.UnescapeEscape | src/config.ts:57 | removing the inserted backslashes recovers the original string |
| RegexEscape.EscapeWellEscaped | src/config.ts:57 | in the escaped string, every syntax character is preceded by an inserted backslash, and every backslash escapes a syntax character |
| RegexEscape.EscapeUnescape | src/config.ts:57 | every well-escaped pattern is the escape of its unescaping, so escaping maps onto exactly the well-escaped patterns |
| RegexEscape.EscapeInjective | src/config.ts:57 | two different names never escape to the same pattern |
| RegexEscape.EscapePlain | src/config.ts:57 | a string with no syntax character is left unchanged |
| Trigger.TriggerPattern | src/config.ts:60-61 | the pattern text is `^@`, then the escaped name, then `\b`, and it is longer than the name by 4 plus the number of syntax characters in the name |
| Trigger.Triggers | src/config.ts:60-63 | `TRIGGER_PATTERN.test(msg)`: the pattern text is tokenized and matched at every start position; TriggerIsDirect equates it with the direct predicate |
| Trigger.TokenizeTriggerPattern | src/config.ts:60-62 | the pattern text for any name reads as: start anchor, `@`, one literal per character of the name, word boundary |
| Trigger.TriggerIsDirect | src/config.ts:60-63 | the pattern matches a message exactly when the message starts with `@`, then has the name ignoring ASCII case, then a word boundary |
| Trigger.TriggerIgnoresCase | src/config.ts:62 | two messages that differ only in ASCII case both trigger or both do not |
| Trigger.MentionTriggers | src/config.ts:60-63 | `@` plus the name itself plus a tail triggers exactly when the tail's first character and the name's last character fall on different sides of a word boundary |
| Trigger.PrefixedMessageDoesNotTrigger | src/config.ts:61 | a message with any character before the `@` never triggers |
| PosixPath.Join | src/config.ts:25 | `path.join`: the non-empty arguments are joined with `/` and normalized, and no arguments give `.`. NormalizeAppendNames gives the result for a base followed by plain names |
| PosixPath.NormalizeAppendNames | src/config.ts:25-30 | normalizing a base directory followed by plain names gives the base's directory prefix followed by the names unchanged |
| PosixPath.DirPrefixClean | src/config.ts:25-30 | a clean absolute path is its own directory prefix, apart from the added final `/` |

## Left out

- `src/logger.ts`: it only builds a logger and registers process-level error handlers.
- `readEnvFile`: `src/env.ts` is not part of this model. Its result is the `dotEnv` input map, and no file is read.
- `STORE_DIR`, `GROUPS_DIR` and `DATA_DIR`: these are `path.resolve` against `process.cwd()`, which depends on the host.
- `TIMEZONE`: it calls `Intl.DateTimeFormat`, a runtime service outside the program.
- The container runner, the concurrency gate, mount-allowlist checking, IPC polling, output truncation and idle reaping. These consume the constants, but their code is not part of this model.
- JsParseInt.ParseInt: digits are read into an unbounded integer. The double rounding above 2^53 and `Infinity` for very long digit runs are not modelled.
- JsParseInt.ParseInt: a value such as `"-0"` is read as 0, not as JavaScript's `-0`. The two are equal under `===` but differ under `Object.is`. This changes nothing for `MAX_CONCURRENT_CONTAINERS`, where both are falsy under `|| 5`. For `CONTAINER_TIMEOUT`, `IDLE_TIMEOUT` and `CONTAINER_MAX_OUTPUT_SIZE`, which have no guard after the parse, JavaScript keeps `-0` and the model holds 0.
- Trigger.Triggers:
  - Only the tokens this pattern can contain are recognised, rather than a general `RegExp` engine: the `^` anchor, literal and escaped characters, and `\b`.
  - Case folding under the `i` flag is ASCII only. Non-ASCII letters in a name or a message are compared exactly.
- Strings are sequences of characters. UTF-16 surrogate halves are not modelled separately.
- PosixPath.Join models the POSIX branch of Node's `path.join`. Windows path handling is left out.
