# WoonVeilig alarm panel driver — a Dafny model

The Homey app for WoonVeilig/Egardia alarm panels keeps a Homey device in
step with a panel on the local network. It does three things:

- It polls the panel's event history (`/action/historyGet`).
- It turns that quasi-JSON text into log records.
- From the records newer than a persisted watermark, it derives whether the
  alarm went off and which mode the panel is in now.

In the other direction, it posts mode changes (`/action/panelCondPost`),
making up to three attempts at a command.

The model covers two source files, one module per concern:

| module | file | models |
|---|---|---|
| `Text` | text.dfy | literal `replace`, global literal replacement, `includes`, `String(n)` |
| `LogDecoder` | log_decoder.dfy | the normaliser `processcrappyjson` and its key-quoting loop |
| `AlarmStates` | alarm_state.dfy | `enum AlarmState` |
| `Classifier` | classifier.dfy | `reformattime`, `defineAction`, `defineMsg`, row → `WoonVeiligLog` |
| `Sequences` | sequences.dfy | `filter` and "last element passing a test" |
| `Reconciler` | reconciler.dfy | the filters and branches of `processLastLogs` as a pure function returning facts |
| `BasicAuth` | base64.dfy | the `Authorization` header (section 2 of RFC 7617, base64 of section 4 of RFC 4648, `Buffer`'s 'binary' encoding) |
| `UriEncoding` | uri_encoding.dfy | `encodeURIComponent` and `getFormBody` |
| `Repository` | repository.dfy | class `WoonVeiligRepository`: `getUrl`, `fetchPlus`, `setState`, `processLastLogs` |
| `Device` | device.dfy | class `Device`: capability mappings, poll tick, `onAdded`, `onSettings` |

Some things are parameters rather than modelled code:

- **HTTP replies:** a `Reply` per request (a response with status and text,
  or a failed `fetch`). `setState` receives `panel: nat -> Reply`, the reply
  to its n-th attempt.
- **`JSON.parse(...).hisrows`:** the parameter `parse`.
- **`new Date(text)`:** the parameter `parseDate`, giving an integer time.
- **The current year:** the parameter `year`.
- **The answer of `login()`:** the parameter `loginOk`.

Times are integers, because the code only compares them. The settings-store
entry `lastKnownLogDate`, the interval callback's `isReadingEvents` flag and
the two capability values the device's callbacks set (`homealarm_state`,
`alarm_generic`) are fields of the `Device` class.

Several choices in the code decide much of the behaviour, and the model
keeps them as written:

- `defineAction`'s test `action == "Arm" || "Disarm" || "Home"` is always
  true. So every record's action is "Mode Changed", `defineAction` never
  produces "Timeout" or "unknown", and the timeout branch of the alarm test
  can never hold.
- The mode and the alarm comparison use the *last* element of each filtered
  list, by position in the panel's list (lines 141 and 156-158).
- The returned watermark is the time of the *first* row, even when that
  time is older than the watermark that was passed in (line 182).
- `setState` returns nothing to its caller, and its `setTimeout(3000)` is
  not awaited, so the attempts follow one another without a pause
  (lines 38-75).
- `onSettings` replaces the repository but registers no callbacks on the new
  one (device.ts line 105), so after a settings change a poll's facts reach
  no callback and the capabilities are no longer updated.

## Model

| member | source | states |
|---|---|---|
| `Text.FindFirst` | drivers/woonveilig-systeem/repositories/woonveiligrepository.ts:228-230 | the position where `replace` rewrites: the pattern occurs there and at no earlier position; none when it occurs nowhere |
| `Text.ReplaceFirst` | drivers/woonveilig-systeem/repositories/woonveiligrepository.ts:228-230 | a string-pattern `replace` rewrites only the first occurrence (the text before it and after it is kept) and returns the text unchanged when there is none |
| `Text.ReplaceFirstKeepsLater` | drivers/woonveilig-systeem/repositories/woonveiligrepository.ts:228-230 | a second `/*-secure-`, `*/` or `{\thisrows : [` survives the rewrite, only shifted |
| `Text.ContainsIff` | drivers/woonveilig-systeem/repositories/woonveiligrepository.ts:82 | `includes` holds exactly when the pattern occurs at some position |
| `Text.ReplaceAll` | drivers/woonveilig-systeem/repositories/woonveiligrepository.ts:222-224 | a text in which the pattern does not occur is returned unchanged |
| `Text.ReplaceAllAt` | drivers/woonveilig-systeem/repositories/woonveiligrepository.ts:222-224 | an occurrence that no earlier occurrence overlaps becomes the replacement, the text before it is kept, and the scan goes on after it |
| `Text.ReplaceAllKeepsNoneOf` | drivers/woonveilig-systeem/repositories/woonveiligrepository.ts:222-224 | `replaceAll` with a replacement free of some characters does not introduce them |
| `Text.NatToDecimal` | drivers/woonveilig-systeem/repositories/woonveiligrepository.ts:245 | the year and the mode code are written as non-empty decimal digits without a leading zero |
| `Text.DecimalRoundTrip` | drivers/woonveilig-systeem/repositories/woonveiligrepository.ts:245 | the decimal text of a number reads back as that number |
| `LogDecoder.StripWhitespace` | drivers/woonveilig-systeem/repositories/woonveiligrepository.ts:231 | after the whitespace pass no tab, line feed or carriage return remains, and the text does not grow |
| `LogDecoder.StripWhitespaceKeepsText` | drivers/woonveilig-systeem/repositories/woonveiligrepository.ts:231 | the pass deletes only spaces, tabs, line feeds and carriage returns: every other character survives in order |
| `LogDecoder.StripWhitespaceKeepsClean` | drivers/woonveilig-systeem/repositories/woonveiligrepository.ts:231 | text without tab, line feed, carriage return and four consecutive spaces passes unchanged: shorter runs of spaces survive |
| `LogDecoder.FourSpacesCanRemain` | drivers/woonveilig-systeem/repositories/woonveiligrepository.ts:231 | a four-space run can be created by the pass (`"  \t  "` becomes four spaces), so the pass is not idempotent |
| `LogDecoder.QuoteKeyCreatesNoBareKey` | drivers/woonveilig-systeem/repositories/woonveiligrepository.ts:234 | after replacing every `k :` by `"k":`, no `k :` is left, and no other bare key appears that was not already there |
| `LogDecoder.QuoteKeyKeepsUnquoted` | drivers/woonveilig-systeem/repositories/woonveiligrepository.ts:234 | quoting a key only adds double quotes and drops a space: every other character is kept, in order |
| `LogDecoder.QuoteKeys` | drivers/woonveilig-systeem/repositories/woonveiligrepository.ts:232-235 | the loop over the key names changes only double quotes and spaces |
| `LogDecoder.QuoteKeysWithoutBareKeys` | drivers/woonveilig-systeem/repositories/woonveiligrepository.ts:232-235 | keys that do not occur bare are left alone |
| `LogDecoder.QuoteKeysRemovesBareKeys` | drivers/woonveilig-systeem/repositories/woonveiligrepository.ts:232-235 | after the loop over the key names, none of the processed bare keys occurs |
| `LogDecoder.QuoteKeysKeepsNoneOf` | drivers/woonveilig-systeem/repositories/woonveiligrepository.ts:232-235 | the key loop does not bring back tabs, line feeds or carriage returns |
| `LogDecoder.Normalised` | drivers/woonveilig-systeem/repositories/woonveiligrepository.ts:226-235 | the text handed to `JSON.parse` has no tab, line feed or carriage return and none of `d :`, `t :`, `a :`, `s :` |
| `LogDecoder.NoBareHisrows` | drivers/woonveilig-systeem/repositories/woonveiligrepository.ts:230 | text without tabs holds no `{\thisrows : [` marker, so that rewrite leaves it alone |
| `LogDecoder.NormalisedKeepsJson` | drivers/woonveilig-systeem/repositories/woonveiligrepository.ts:226-235 | text that is already the JSON the parser expects (no markers, no tab, line feed or carriage return, no four-space run, no bare key) passes the normaliser unchanged |
| `LogDecoder.ProcessCrappyJson` | drivers/woonveilig-systeem/repositories/woonveiligrepository.ts:226-237 | the step-by-step rewrite with its loop over the key names yields exactly the normalised text, and the rows are what the parser makes of it |
| `AlarmStates.AlarmState.Code` | drivers/woonveilig-systeem/repositories/woonveiligrepository.ts:265-269 | the enum values are 0, 1 and 2 |
| `AlarmStates.FromCode` | drivers/woonveilig-systeem/repositories/woonveiligrepository.ts:265-269 | a number names a mode exactly when it is below 3, and then the mode with that value |
| `AlarmStates.CodeRoundTrip` | drivers/woonveilig-systeem/repositories/woonveiligrepository.ts:265-269 | the numeric values identify the modes |
| `Classifier.DefineAction` | drivers/woonveilig-systeem/repositories/woonveiligrepository.ts:248-254 | every action is classified "Mode Changed"; "unknown" is unreachable because `"Disarm"` is truthy |
| `Classifier.DefineMsg` | drivers/woonveilig-systeem/repositories/woonveiligrepository.ts:256-262 | "Burglar Alarm" exactly when the action contains "Burglary", "Success" exactly when it does not |
| `Classifier.SlashReplaced` | drivers/woonveilig-systeem/repositories/woonveiligrepository.ts:241 | replacing the first '/' by '-' changes that one character and nothing else |
| `Classifier.ReformatTime` | drivers/woonveilig-systeem/repositories/woonveiligrepository.ts:240-246 | the result is the year's digits, '-', the date with only its first '/' turned into '-', 'T', the time and ":00" |
| `Classifier.ToLog` | drivers/woonveilig-systeem/repositories/woonveiligrepository.ts:114-125 | a record's action is "Mode Changed", its message is "Burglar Alarm" exactly for a "Burglary" action, its mode is the raw action, and its time is the parsed reformatted date |
| `Classifier.ToLogs` | drivers/woonveilig-systeem/repositories/woonveiligrepository.ts:114 | one record per row, in row order |
| `Sequences.Filter` | drivers/woonveilig-systeem/repositories/woonveiligrepository.ts:128 | `filter` keeps exactly the elements passing the test and never grows the list |
| `Sequences.LastWhere` | drivers/woonveilig-systeem/repositories/woonveiligrepository.ts:141 | the greatest position passing a test, or none when no element passes |
| `Sequences.FilterLast` | drivers/woonveilig-systeem/repositories/woonveiligrepository.ts:158 | the last element of a filtered list is the element at the last position that passes the test |
| `Sequences.FilterTwice` | drivers/woonveilig-systeem/repositories/woonveiligrepository.ts:130-131 | filtering the mode changes for disarms is filtering once by both tests |
| `Sequences.FilterAppend` | drivers/woonveilig-systeem/repositories/woonveiligrepository.ts:128 | filtering distributes over concatenation |
| `Reconciler.ModeOf` | drivers/woonveilig-systeem/repositories/woonveiligrepository.ts:158-168 | Arm gives Armed, Home gives PartiallyArmed and Disarm gives Disarmed, each in both directions; any other mode gives no state |
| `Reconciler.ModeNameRoundTrip` | drivers/woonveilig-systeem/repositories/woonveiligrepository.ts:158-168 | every mode is recognised from its log name, and only from it |
| `Reconciler.AlarmFact` | drivers/woonveilig-systeem/repositories/woonveiligrepository.ts:135-152 | no alarm fact exactly when there is neither an alarm nor a disarm record; "on" only with an alarm record; "off" only with a disarm record, strictly later than the last alarm record when there is one |
| `Reconciler.StateFact` | drivers/woonveilig-systeem/repositories/woonveiligrepository.ts:156-169 | a state fact only when there is a mode-change record, and then the last one's mode is the state's log name |
| `Reconciler.Decide` | drivers/woonveilig-systeem/repositories/woonveiligrepository.ts:130-169 | an alarm is only raised by an alarm record, only cleared by a successful disarm, and a state only reported from a successful mode change to it |
| `Reconciler.Reconcile` | drivers/woonveilig-systeem/repositories/woonveiligrepository.ts:128-169 | the same, for records strictly newer than the watermark |
| `Reconciler.FilteredLists` | drivers/woonveilig-systeem/repositories/woonveiligrepository.ts:128-133 | the mode-change, disarm and alarm lists are the records passing "newer than the watermark" and the respective test |
| `Reconciler.ReconcileByPosition` | drivers/woonveilig-systeem/repositories/woonveiligrepository.ts:135-169 | the facts equal the ones read off the last new alarm, last new disarm and last new mode-change positions of the full list |
| `Reconciler.NoNewLogsNoFacts` | drivers/woonveilig-systeem/repositories/woonveiligrepository.ts:128 | with no record strictly newer than the watermark, no alarm fact and no state fact |
| `Reconciler.OldLogsIgnored` | drivers/woonveilig-systeem/repositories/woonveiligrepository.ts:128 | adding a record not newer than the watermark, at either end, changes no fact |
| `Reconciler.AlarmWithAlarmRecords` | drivers/woonveilig-systeem/repositories/woonveiligrepository.ts:139-148 | with a new alarm record, the alarm is off exactly when the last new disarm is strictly later than the last new alarm; equal times leave it on |
| `Reconciler.AlarmWithoutAlarmRecords` | drivers/woonveilig-systeem/repositories/woonveiligrepository.ts:149-152 | with no new alarm record, a new disarm turns the alarm off, and otherwise there is no alarm fact |
| `Reconciler.StateFromLastModeChange` | drivers/woonveilig-systeem/repositories/woonveiligrepository.ts:156-169 | the last new mode-change record alone decides the state; a mode other than Arm, Home or Disarm gives none, whatever earlier records say |
| `Reconciler.ClassifiedTests` | drivers/woonveilig-systeem/repositories/woonveiligrepository.ts:130-133 | for classified rows the timeout disjunct never holds, alarm records are exactly the new rows mentioning "Burglary", mode changes exactly the new rows without it, and disarms exactly the new "Disarm" rows |
| `BasicAuth.BinaryBytes` | drivers/woonveilig-systeem/repositories/woonveiligrepository.ts:20 | the 'binary' encoding gives at least one byte per character |
| `BasicAuth.BinaryBytesLatin1` | drivers/woonveilig-systeem/repositories/woonveiligrepository.ts:20 | Latin-1 credentials are encoded one byte per character and can be read back |
| `BasicAuth.BinaryTruncates` | drivers/woonveilig-systeem/repositories/woonveiligrepository.ts:20 | characters above U+00FF lose their high bits: "€" and "¬" encode alike |
| `BasicAuth.ValueOf` | drivers/woonveilig-systeem/repositories/woonveiligrepository.ts:20 | a base64 digit's value is below 64 and maps back to the digit |
| `BasicAuth.Base64RoundTrip` | drivers/woonveilig-systeem/repositories/woonveiligrepository.ts:20 | decoding the padded base64 encoding of any bytes gives them back |
| `BasicAuth.EncodedLength` | drivers/woonveilig-systeem/repositories/woonveiligrepository.ts:20 | four base64 digits for every started group of three bytes |
| `BasicAuth.AuthorizationHeader` | drivers/woonveilig-systeem/repositories/woonveiligrepository.ts:20 | the header is "Basic " followed by base64 text that decodes to the bytes of `user:password` |
| `BasicAuth.CredentialsRecoverable` | drivers/woonveilig-systeem/repositories/woonveiligrepository.ts:20 | the header is "Basic " and base64 text decoding to `user:password`, whose first ':' splits the two again when the user name has none |
| `UriEncoding.EncodeUriComponent` | drivers/woonveilig-systeem/repositories/woonveiligrepository.ts:215-216 | encoded text holds only unreserved characters and '%' escapes, so no '&' or '=' |
| `UriEncoding.EncodeUnreserved` | drivers/woonveilig-systeem/repositories/woonveiligrepository.ts:215-216 | text of unreserved characters (such as "mode" and the digits) is left unchanged |
| `UriEncoding.FieldSeparators` | drivers/woonveilig-systeem/repositories/woonveiligrepository.ts:217 | an encoded field holds exactly one '=', right after the key, and no '&' |
| `UriEncoding.SingleFieldBody` | drivers/woonveilig-systeem/repositories/woonveiligrepository.ts:212-220 | a one-field form of unreserved text is sent as `key=value` |
| `UriEncoding.JoinFormSafe` | drivers/woonveilig-systeem/repositories/woonveiligrepository.ts:219 | joining parts free of characters that need escaping, with `&`, keeps the text free of them |
| `UriEncoding.FormBody` | drivers/woonveilig-systeem/repositories/woonveiligrepository.ts:212-220 | every character of the body is a '%' escape, an unreserved character, '=' or '&' |
| `UriEncoding.GetFormBody` | drivers/woonveilig-systeem/repositories/woonveiligrepository.ts:212-220 | the loop that encodes and pushes each field, then joins with '&', yields the form body of the fields in order |
| `Repository.Rotate` | drivers/woonveilig-systeem/repositories/woonveiligrepository.ts:42-44 | 1 becomes 0, 0 becomes 2 and 2 becomes 1: the code goes down by one modulo 3 |
| `Repository.RotateNoFixedPoint` | drivers/woonveilig-systeem/repositories/woonveiligrepository.ts:42-44 | no mode is sent as itself |
| `Repository.RotateBijective` | drivers/woonveilig-systeem/repositories/woonveiligrepository.ts:42-44 | the rotation is injective and every mode is reached |
| `Repository.RotateThrice` | drivers/woonveilig-systeem/repositories/woonveiligrepository.ts:42-44 | rotating three times is the identity |
| `Repository.CommandBody` | drivers/woonveilig-systeem/repositories/woonveiligrepository.ts:49-52 | the command body is `mode=` and the single digit of the rotated code, and different modes give different bodies |
| `Repository.FetchPlus` | drivers/woonveilig-systeem/repositories/woonveiligrepository.ts:77-88 | true exactly for status 200 with "result : 1" somewhere in the text, false for any other response, an error when the request failed |
| `Repository.PollOutcome` | drivers/woonveilig-systeem/repositories/woonveiligrepository.ts:91-183 | a poll throws a network error exactly when the request failed and a malformed-log error exactly for a status 200 whose text does not parse; only a status 200 with at least one row moves the watermark or produces a fact |
| `Repository.PollKeepsWatermark` | drivers/woonveilig-systeem/repositories/woonveiligrepository.ts:101-111 | a status other than 200, or an empty history, returns the given watermark and no fact |
| `Repository.PollTakesFirstRow` | drivers/woonveilig-systeem/repositories/woonveiligrepository.ts:182 | otherwise the new watermark is the time of row 0 and the facts are reconciled against the old watermark |
| `Repository.WatermarkCanGoBack` | drivers/woonveilig-systeem/repositories/woonveiligrepository.ts:182 | a first row older than the watermark moves the watermark back |
| `Repository.RepeatedPollIsQuiet` | drivers/woonveilig-systeem/repositories/woonveiligrepository.ts:128 | when the newest row is listed first, polling the same history again from the returned watermark gives no fact and keeps the watermark |
| `Repository.WoonVeiligRepository.constructor` | drivers/woonveilig-systeem/repositories/woonveiligrepository.ts:12-22 | the repository keeps its settings and the Basic header of its credentials, and has no callbacks |
| `Repository.WoonVeiligRepository.On` | drivers/woonveilig-systeem/repositories/woonveiligrepository.ts:185-187 | one more callback is registered for the event, after the existing ones |
| `Repository.WoonVeiligRepository.GetUrl` | drivers/woonveilig-systeem/repositories/woonveiligrepository.ts:208-210 | the URL is `http://` followed by the panel's address and the route |
| `Repository.WoonVeiligRepository.SetState` | drivers/woonveilig-systeem/repositories/woonveiligrepository.ts:38-75 | one to three identical `mode=<rotated code>` posts; every attempt but the last was rejected; fewer than three attempts means the last was a success or a failed request; an error exactly when the last request failed |
| `Repository.WoonVeiligRepository.ProcessLastLogs` | drivers/woonveilig-systeem/repositories/woonveiligrepository.ts:91-183 | sends the history request and returns the poll outcome: an error for a failed request or unparsable text, the old watermark for a non-200 status or empty history, otherwise row 0's time and the reconciled facts |
| `Device.StateOfCapability` | drivers/woonveilig-systeem/device.ts:18-28 | 'armed', 'disarmed' and 'partially_armed' send Armed, Disarmed and PartiallyArmed, each in both directions; any other value sends nothing |
| `Device.CapabilityOf` | drivers/woonveilig-systeem/device.ts:33-43 | the value shown for a mode is the value that sends that mode back |
| `Device.CapabilityRoundTrip` | drivers/woonveilig-systeem/device.ts:33-43 | the inbound mapping composed with the outbound one is the identity on modes and on the three values |
| `Device.Device.constructor` | drivers/woonveilig-systeem/device.ts:13-49 | a fresh repository for the device's settings with the `state-changed` and `alarm-changed` callbacks registered on it, no tick running, and no capability set yet |
| `Device.Device.OnAdded` | drivers/woonveilig-systeem/device.ts:77 | the stored watermark becomes 1 January 1970 and nothing else changes |
| `Device.Device.OnCapabilityChange` | drivers/woonveilig-systeem/device.ts:16-29 | login comes first; a value naming a mode is followed by `setState` of that mode, with its one to three posts, every attempt but the last rejected, fewer than three only after a success or a failed request, and an error exactly when the last request failed; any other value is followed by nothing and throws nothing |
| `Device.Device.TickStart` | drivers/woonveilig-systeem/device.ts:54-59 | a tick that finds the flag set returns at once without reading or writing the watermark; otherwise it sets the flag and reads the watermark |
| `Device.Device.Notify` | drivers/woonveilig-systeem/device.ts:31-49 | an alarm fact sets `alarm_generic` and a state fact sets `homealarm_state` to the mode's value, each only when a callback for its event is registered on the current repository; otherwise the capability keeps its value |
| `Device.Device.TickEnd` | drivers/woonveilig-systeem/device.ts:61-67 | the watermark returned by the poll is stored, a thrown error keeps the old one, and the flag is cleared either way |
| `Device.Device.Tick` | drivers/woonveilig-systeem/device.ts:53-68 | a busy tick changes nothing; otherwise the stored watermark becomes the poll's, or stays when the poll threw, the flag ends cleared, and the poll's facts set the capabilities only through callbacks registered on the current repository |
| `Device.Device.OnSettings` | drivers/woonveilig-systeem/device.ts:96-105 | a failed trial login throws and leaves the repository in place; otherwise the repository is replaced by a fresh one for the new settings, with no callbacks registered on it |

## Left out

- HTTP: `fetch` with node-fetch-retry's own retries, the keep-alive agent, and the fixed browser-like headers of `getBasicRequestInit` (lines 189-206). A request is reduced to its verb, URL, `Authorization` header, content type and body; a reply is given.
- `login()`: a stub that always returns true. Its answer is the parameter `loginOk` of `OnSettings`, and it is a `Login` entry in the call trace of `OnCapabilityChange`.
- `JSON.parse` and the `.hisrows` lookup: the parameter `parse`. `None` stands for a parse that throws or rows that are not well-formed.
- `new Date(text)`: the parameter `parseDate`, so its Invalid-Date/NaN result, and the way NaN makes every comparison false, are not modelled. `new Date().getFullYear()` is the parameter `year`.
- `Device.FirstOfJanuary1970`: `new Date(1970, 0, 1)` is local midnight, so its value depends on the time zone. The model takes it as time 0.
- Serialisation of the watermark through the Homey settings store is not modelled; the stored value reads back unchanged.
- A registered callback is represented by its event alone. The listener calls of `processLastLogs` (lines 171-181) are made by `Device.Device.Notify` right after the poll, and each callback's effect is the capability value it sets. Calling a callback twice has the effect of calling it once.
- Homey's capability store behind `setCapabilityValue` is reduced to the two fields of `Device`; the value the user sets through the capability listener is not recorded there.
- `setInterval` and `clearInterval`, `onRenamed`, `onDeleted`, and logging, including the malformed retry message on line 62.
- `setTimeout(3000)` is never awaited (line 64), so there is no delay between attempts.
- Concurrency: the tick is modelled as `TickStart` and `TickEnd` run in sequence, not as interleaved callbacks.
- `Repository.WoonVeiligRepository.SetState`: `state` is any number in the source. The model takes one of the three modes, which are the only values the device passes.
- `UriEncoding.EncodeUriComponent`: Dafny strings hold Unicode scalar values, so the `URIError` for a lone surrogate cannot arise.
- `for…in` over the form details follows insertion order; the model takes the fields as a sequence in that order.
- drivers/woonveilig-systeem/driver.ts is not part of this model: it is pairing glue that calls `login()` and returns a constant descriptor.
