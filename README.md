# ADB sensor: a Dafny model

This project models the core of the ADB Sensor integration for Home Assistant
(`adb_sensor/sensor.py`). An ADB sensor watches an Android TV entity. On each
refresh it sends one templated `adb_command` through the `androidtv`
integration, waits, reads the `adb_response` attribute of the entity, and
publishes a status (`online`/`offline`) plus one `"on"`/`"off"` attribute per
configured keyword label.

The model has one module per part of that file:

- `Text`: the Python string builtins the code relies on. These are `str.lower`
  (ASCII range), `needle in haystack`, `str.strip()`, `sep.join`, and
  `str.split`/`str.count`, which are used to state the grep-token round trip.
  There is also a simplified `repr` of `str`.
- `Command`: the grep token (keyword keys, stripped, joined with `|`). It also
  holds the part of `str.format` a command template can use, as a parser
  (`Parse`) and a renderer (`Render`). `Unparse` is the parser's inverse.
- `Keywords`: the keyword loop. `MatchKeywords` is a method that writes each
  label into the attribute map in place. It is proved equal to the
  specification function `Flags`, and the keyword properties are lemmas about
  `Flags`.
- `Poll`: `update_adb_sensor`. `UpdateAdbSensor` is a method that builds the
  attribute map step by step and calls the `AdbService` class. That class
  records every `adb_command` call in a log. The method is proved equal to the
  specification function `Outcome`, which returns the `(status, attributes)`
  result together with the calls made. The lemmas state the decision tree.
- `Binding`: the `ADBSensor` entity, its unique id, and its `state` and
  `extra_state_attributes` accessors over the coordinator's data.
- `Setup`: the loop of `async_setup_platform`. `SetupPlatform` is a method
  proved against `Kept`, the entries that have a command, kept in order.
  Interval resolution is `ResolveInterval`.

Three inputs are parameters rather than things the model computes:

- The Android TV entity's state before the command and after the two-second
  wait.
- The exception the service call raises, if any.
- The conversion `timedelta(seconds=float(v))`.

The keyword mapping is a sequence of `(keyword, label)` pairs in dict order.
A Python dict has unique keys. The model accepts any sequence, and it agrees
with the dict whenever the keys are unique.

## Model

| member | source | states |
|---|---|---|
| `Text.Lower` | adb_sensor/sensor.py:101 | lower-casing keeps the length, turns each of A-Z into the matching a-z letter, keeps every other character, and leaves no upper-case ASCII letter |
| `Text.LowerIdempotent` | adb_sensor/sensor.py:105 | lower-casing an already lower-cased response changes nothing |
| `Text.LowerEmpty` | adb_sensor/sensor.py:105 | only the empty keyword lower-cases to the empty string |
| `Text.ContainsIff` | adb_sensor/sensor.py:105 | `keyword in response` holds exactly when the keyword occurs at some position of the response |
| `Text.ContainsEmpty` | adb_sensor/sensor.py:101-105 | the empty keyword is in every response; nothing but the empty keyword is in the empty response |
| `Text.Strip` | adb_sensor/sensor.py:82 | `strip()` yields the infix left after removing whitespace at both ends; it neither starts nor ends with whitespace |
| `Text.SplitJoin` | adb_sensor/sensor.py:82 | joining parts that hold no separator puts exactly one separator fewer than there are parts, and splitting gives the parts back |
| `Command.GrepTokenShape` | adb_sensor/sensor.py:82 | the grep token is empty for no keywords; otherwise, when no stripped key holds the separator, it has n-1 separators and splits back into the stripped keys in order |
| `Command.ParseUnparse` | adb_sensor/sensor.py:84 | every sequence of literals and `{grep_keywords}` fields is spelled by a template that formats without error and parses back to it |
| `Command.UnparseParse` | adb_sensor/sensor.py:84 | a template that formats without error is exactly the spelling of what it parses to, so every other brace use fails |
| `Command.ScanSpelling` | adb_sensor/sensor.py:84 | the format scan reads a doubled brace as one brace, `{grep_keywords}` as the field, and any other character as itself |
| `Command.FormatIff` | adb_sensor/sensor.py:84 | formatting succeeds iff the template spells some pieces, and then gives the template with each `{grep_keywords}` replaced by the token and each doubled brace halved |
| `Command.OpenInFieldName` | adb_sensor/sensor.py:84 | after any text that formats, a `{` that reappears inside a field name before it is closed makes formatting fail with "unexpected '{' in field name" |
| `Command.ErrorMessageText` | adb_sensor/sensor.py:115-117 | the error text for an unknown field is Python's: `{}` and `{n}`, n in ASCII digits, report positional index n as out of range, and any other plain name that is not ASCII digits is reported in single quotes |
| `Command.NoBracesVerbatim` | adb_sensor/sensor.py:84 | a template without braces is used verbatim |
| `Keywords.FlagsKeys` | adb_sensor/sensor.py:104-108 | the keyword loop adds exactly the labels to the keys already present |
| `Keywords.FlagsFrame` | adb_sensor/sensor.py:104-108 | a key that is not a label keeps its value |
| `Keywords.FlagsDecided` | adb_sensor/sensor.py:104-108 | a label whose last pair is pair i is "on" iff keyword i, lower-cased, is in the response, and "off" iff it is not |
| `Keywords.FlagsLabels` | adb_sensor/sensor.py:104-108 | every label ends up present with the value "on" or "off", decided by the last pair naming it |
| `Keywords.FlagsEmptyResponse` | adb_sensor/sensor.py:101-108 | against the empty response a label is "on" exactly when its deciding keyword is empty |
| `Keywords.MatchKeywords` | adb_sensor/sensor.py:104-108 | the in-place loop over `keywords.items()` produces the attribute map `Flags` describes |
| `Poll.KeysTextPlain` | adb_sensor/sensor.py:83 | `debug_keywords` is "dict_keys([])" for no keywords; for keys without quotes, backslashes or control escapes it lists each key in single quotes, separated by ", ", in mapping order |
| `Poll.AdbService.Call` | adb_sensor/sensor.py:90-93 | each service call appends its command to the call log; it raises exactly the injected failure |
| `Poll.UpdateAdbSensor` | adb_sensor/sensor.py:72-117 | the refresh returns `Outcome`'s status and attributes and appends exactly `Outcome`'s calls to the service log |
| `Poll.UnreachableNoDispatch` | adb_sensor/sensor.py:76-80 | an `unavailable` or `unknown` device gives offline with attributes exactly `{"state": str(state)}`, and no call is made |
| `Poll.MissingStateIsError` | adb_sensor/sensor.py:99-114 | a missing state before the command gives offline with only the error key and no call; a missing state after the wait gives offline with only the error key after exactly one call |
| `Poll.FailuresAreOffline` | adb_sensor/sensor.py:115-117 | a bad template or a raising service call gives offline `{"error": message}`; every offline result is an error or the down-device report |
| `Poll.OnlineIff` | adb_sensor/sensor.py:78-110 | the result is online iff the device is reachable, the command builds, the call does not raise and the state is read again |
| `Poll.AtMostOneDispatch` | adb_sensor/sensor.py:84-93 | at most one call is made, exactly when the device is reachable and the command builds, and it carries that command for the sensor's entity |
| `Poll.OnlineAttributes` | adb_sensor/sensor.py:82-110 | online attributes are the four debug keys plus all labels; each label is "on"/"off", "on" iff its deciding keyword is in the lower-cased response; `debug_command`, unless a label shadows it, is the template with the grep token substituted |
| `Poll.MissingResponse` | adb_sensor/sensor.py:101-108 | without an `adb_response` attribute every label decided by a non-empty keyword is "off" and one decided by the empty keyword is "on" |
| `Binding.PublishedData` | adb_sensor/sensor.py:136-144 | before any refresh the sensor has no state and no attributes; afterwards it shows that refresh's status and attributes, and when online every label is published as "on"/"off" |
| `Setup.ResolveInterval` | adb_sensor/sensor.py:37-47 | a `timedelta` is kept; a parsable value gives the parsed period; a missing or unparsable value gives 120 seconds |
| `Setup.Kept` | adb_sensor/sensor.py:49-51 | every kept entry has a non-empty command, and there are no more kept entries than configured ones |
| `Setup.KeptMembers` | adb_sensor/sensor.py:49-65 | an entry is kept exactly when it is configured and has a non-empty command |
| `Setup.KeptStep` | adb_sensor/sensor.py:30-65 | one more configured entry adds that entry to the kept ones exactly when it has a command |
| `Setup.KeptPositions` | adb_sensor/sensor.py:30-65 | the kept entries stand at strictly increasing positions of the configuration, so their order is kept |
| `Setup.KeptPositionsCover` | adb_sensor/sensor.py:49-65 | every entry with a command is among the kept positions |
| `Setup.SetupPlatform` | adb_sensor/sensor.py:28-70 | setup creates one sensor per kept entry, in order, with its name, entity, keywords, unique id, template and resolved interval |

## Left out

- Home Assistant plumbing is not modelled because it is framework code: the
  `DataUpdateCoordinator`, its first refresh, `async_add_entities`, the
  state-change listener and the refresh request in `async_state_changed`.
  The accessors read the coordinator's data as a given value.
- `asyncio.sleep(2)` and async scheduling are left out. The state after the
  wait is an input.
- The `androidtv.adb_command` service is opaque. Its only effect is an entry
  in `AdbService`'s call log, and whether it raises is an input.
- `timedelta(seconds=float(v))` is the abstract parameter `parse`, because it
  is floating point. Its `ValueError` is `None`. A `TypeError` or
  `OverflowError` from it is not caught in the code and is not modelled.
- `Text.Lower`: does not model Unicode case mapping. Only A-Z are lower-cased.
- `str(state)` is opaque (the `repr` field of `DeviceState`).
- `Text.Repr` is simplified: non-printable characters are not escaped.
- `Command.FormatIff`: does not model the full `str.format` language. The
  model accepts only `{grep_keywords}`, `{{` and `}}`. Python would also
  accept fields such as `{grep_keywords!s}`, `{grep_keywords:}` or
  `{grep_keywords.upper}`; the model rejects them. A field name is taken to
  end at the first brace. A field name that holds `[`, `.`, `:` or `!`
  therefore gets a different outcome or error text from Python's. Python
  skips `[...]` when it looks for the end of the name. It also reads a
  conversion and a format spec, and it looks up only the part of the name
  before `.` or `[`. An all-digit name too long for a machine-sized index
  ("Too many decimal digits in format string") is reported as an index.
  A field name made of non-ASCII decimal digits (such as `١`) is a
  positional index in Python, but the model reports it as a missing key.
- An `adb_response` attribute that is present but not a string is not
  modelled. In Python its `.lower()` raises and the refresh goes offline.
- Keys, labels and templates are strings. Other YAML value types are not
  modelled.
- Python dicts keep insertion order; the attribute maps here do not.
- Logging calls are left out.
