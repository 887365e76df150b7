# UV bot decision core, modelled in Dafny

The device (an ESP8266 with a VEML6070 UV sensor) samples the UV index, posts readings to a
ThingSpeak channel once an hour, warns a bounded list of Telegram subscribers once a day when the
index reaches 30, and answers a handful of chat commands. This project models the decision logic
of `main.cpp`, separated from its hardware, network and filesystem calls:

- **Registry** (`registry.dfy`): the `subscribed[MAXSUB]` array, `MAXSUB = 10`, with `""` as a
  free slot; `subscribe` and `unsubscribe` as pure functions returning the new slots and the
  outcome reported to the user; membership, no-duplicate and net-effect properties.
- **Device** (`device.dfy`): the globals `lastToday`, `last_hour_get` and `subscribed[]`, the
  actions the device performs (`Upload`, `Send`, `Persist`, `Typing`), and the configuration
  record `{today, users}` written by `createFile` and read by `readFile`.
- **Scheduler** (`scheduler.dfy`): `sendWarning` as a step function from the state and the inputs
  `(day, hour, uvIndex)` to the next state and a list of actions, with the weekday "correction"
  of line 204 exactly as written (`(day + 1) % 6 == lastToday` makes `lastToday := day`); runs of
  ticks and the once-per-hour and once-per-day laws.
- **Dispatch** (`dispatch.dfy`): ASCII upper-casing, the command chain of `handler` ("UV" anywhere
  first, then the exact commands), the handler's effect on the state, and `readTel`'s gate that
  drops texts of 100 or more characters.
- **Scenario** (`scenario.dfy`): concrete runs of subscribing and of warning days.

The sensor reading, the clock's weekday and hour, and the fetched chat messages are inputs; uploads,
chat messages, the "typing" indication and file writes are emitted as actions, in the order the
device performs them. `Persist` carries the record that would be written.

The stored weekday is compared for equality and corrected modulo 6 at line 204, while the NTP
client reports weekdays 0..6. The correction does not clear a stored day; it only moves it:

- A stored day `d` from 0 to 5 is rewritten to today on the first tick that does not warn on the
  day before `d` (Friday for a stored Sunday). A stored Monday (1) is also matched on Saturday,
  because `(6 + 1) % 6 == 1` (`Scheduler.CorrectionMovesBack`). The day the stored value moves to
  is then blocked: if its first tick reads low (the midnight tick does), every later high reading
  that day is ignored (`Scheduler.CorrectionSuppresses`). For example, after a Tuesday warning and
  a quiet week, Monday's midnight reading of 0 sets the stored day to Monday, and a noon reading
  of 40 warns nobody (`Scheduler.MondayAfterQuietWeek`). If the first tick reads high, the warning
  fires before the correction acts (`Scheduler.CorrectionPreemptedByHighFirst`).
- A stored Monday reaches Saturday before it would reach Sunday, so it moves to Saturday
  (`Scheduler.MondayStuckOnSaturday`). A stored Saturday (6) is never rewritten, because no
  weekday satisfies `(day + 1) % 6 == 6`. It stays until some other day warns: after a Saturday
  warning and a week of low readings, a high reading on the next Saturday does not warn
  (`Scheduler.SaturdayNeverRearmed`). Every stored day that drifts back through Monday therefore
  ends up stuck on Saturday.
- `Scheduler.WarningsInADay` gives the count for a whole day. There is no warning when today is
  stored or no reading is high. There is none when `(day + 1) % 6` is stored and the first reading
  is low. Otherwise exactly one warning fires.

Further facts about `main.cpp` that the model keeps:

- The warning day is a weekday index, not an absolute date.
- The correction at line 204 also rewrites the warning day on ticks that do not warn.
- A missing configuration file keeps the in-memory warning day, which is `-1` only at power-up.
- `/start` is upper-cased like every other text, so it is accepted.
- There is no sensor-failure sentinel.

## Model

| member | source | states |
|---|---|---|
| Registry.FirstIndex | main.cpp:143-144 | the upward scan finds the lowest slot holding the id, and finds none exactly when the id is absent |
| Registry.Subscribe | main.cpp:142-158 | an id already present leaves every slot unchanged and reports "already subscribed"; an absent id goes into the lowest free slot with no other slot changed; with no free slot nothing changes and the limit is reported; no duplicates are introduced |
| Registry.Unsubscribe | main.cpp:161-171 | the first slot holding the id is cleared and nothing else changes; an absent id changes nothing and is reported as not subscribed; no duplicates are introduced |
| Registry.SubscribeMembers | main.cpp:149-157 | a successful subscribe adds exactly the new id to the members, the other paths change no membership, and after any non-full outcome a non-empty id is a member |
| Registry.UnsubscribeMembers | main.cpp:162-169 | in a registry without duplicates, unsubscribing removes exactly the id from the members |
| Registry.Subscribers | main.cpp:198-200 | the fan-out list holds exactly the registered non-empty ids |
| Registry.SubscribersDistinct | main.cpp:198-200 | without duplicate slots the fan-out list names each subscriber once |
| Registry.OtherMembersUnaffected | main.cpp:142-171 | a request about one id never changes whether another id is registered |
| Registry.NetEffect | main.cpp:142-171 | over any sequence of requests the registry stays duplicate-free, and an id nobody names keeps its membership. Otherwise the id ends up subscribed exactly when the last request naming it is a subscribe that did not find the registry full, whatever requests about other ids follow |
| Registry.LastNamingDecides | main.cpp:142-171 | after the last request naming an id, the id is subscribed exactly when that request was a subscribe that did not find the registry full; requests about other ids that follow change nothing for it |
| Device.Save | main.cpp:105-119 | the written record always holds all MAXSUB slots, free ones included |
| Device.Load | main.cpp:122-139 | slots are cleared first; a missing file leaves no subscriber and writes a fresh record; a stored record supplies the warning day and only ids it lists |
| Device.SaveLoad | main.cpp:105-139 | loading a saved record restores the warning day and every slot |
| Device.FirstRun | main.cpp:58-59 | at power-up without a file the device has warning day -1 and no subscribers and writes that record |
| Scheduler.Corrected | main.cpp:204 | the warning day changes, to today, exactly when it equals `(day + 1) % 6` |
| Scheduler.Warnings | main.cpp:198-200 | one warning message per registered id, in slot order, and nothing else |
| Scheduler.Hourly | main.cpp:189-192 | one upload attempt exactly when the hour differs from the last hour seen |
| Scheduler.Daily | main.cpp:194-202 | when the daily condition holds: first a configuration write carrying today, a warning to every subscriber, last one extra upload; otherwise no action |
| Scheduler.Tick | main.cpp:183-205 | the hour becomes the last hour seen; an upload leads the actions exactly on a new hour; when the weekday differs from the stored one and the reading is at least 30 the stored day becomes today; otherwise the stored day only changes by the correction; slots never change |
| Scheduler.TickLog | main.cpp:189-202 | a tick uploads once per new hour and once per warning; it writes the configuration, carrying today, exactly when the warning fires; the warning goes to exactly the subscribers, in slot order, and the tick ends with the extra upload |
| Scheduler.RunLog | main.cpp:183-205 | over any run, configuration writes equal warnings fired and uploads equal new hours plus warnings |
| Scheduler.AlreadyWarnedToday | main.cpp:194-204 | once the stored day is today, no later tick on that day warns and the stored day stays |
| Scheduler.AtMostOneWarningPerDay | main.cpp:194-204 | any number of ticks on one day fire the warning at most once |
| Scheduler.ExactlyOneWarningPerDay | main.cpp:194-204 | on a day whose stored day is neither today nor `(day + 1) % 6` (the value for which the correction blocks today, see `Scheduler.CorrectionSuppresses`), a high reading anywhere in the day fires exactly one warning |
| Scheduler.OneUploadPerHour | main.cpp:189-192 | ticks within one hour make one hourly upload attempt if the hour is new and none otherwise, whatever the upload's outcome |
| Scheduler.SaturdayNeverRearmed | main.cpp:204 | a stored Saturday survives any run of low readings, so the next Saturday's high reading does not warn |
| Scheduler.CorrectionMovesBack | main.cpp:204 | a stored weekday `d` other than Saturday is rewritten exactly on the day before it (Friday for Sunday) and, for a stored Monday, also on Saturday; it is rewritten to that day, not cleared |
| Scheduler.MondayStuckOnSaturday | main.cpp:194-204 | a stored Monday with quiet ticks from Tuesday to Friday becomes Saturday at Saturday's midnight tick, and a Saturday noon reading of 40 warns nobody |
| Scheduler.LowReadingsNeverWarn | main.cpp:194 | a run of readings below 30, on any days, fires no warning |
| Scheduler.CorrectionPreemptedByHighFirst | main.cpp:194-204 | when `(day + 1) % 6` is stored but the day's first reading is high, the warning fires on that tick and exactly once that day |
| Scheduler.WarningsInADay | main.cpp:194-204 | the number of warnings in one day's ticks, for every stored day: 0 if today is stored or no reading is high, 0 if `(day + 1) % 6` is stored and the first reading is low, 1 otherwise |
| Scheduler.CorrectionSuppresses | main.cpp:194-204 | when the stored day is `(day + 1) % 6` and the day's first tick reads low, the stored day becomes today and no reading later that day warns |
| Scheduler.MondayAfterQuietWeek | main.cpp:194-204 | after a Tuesday warning, Monday's midnight reading of 0 blocks a noon reading of 40 |
| Dispatch.Upper | main.cpp:210 | same length, no lower-case ASCII letter left, lower-case letters shifted to upper case, other characters unchanged |
| Dispatch.UpperIdempotent | main.cpp:210 | upper-casing twice equals upper-casing once |
| Dispatch.Classify | main.cpp:210-220 | texts containing "UV" ask for the reading; exactly "SUBSCRIBE", "UNSUBSCRIBE", "/START" and "/HELP" (after upper-casing) select their commands |
| Dispatch.NoUvInCommands | main.cpp:211-219 | none of the exact commands contains "UV", so the first test shadows none of them |
| Dispatch.ClassifyIgnoresCase | main.cpp:210 | a text and its upper-cased form are dispatched alike |
| Dispatch.Commit | main.cpp:150-170 | a registry change is written to the configuration before the reply exactly on the add and remove paths; the reply goes to the requester |
| Dispatch.Handle | main.cpp:208-221 | "typing" first, then exactly one reply to the requester; only the subscribe and unsubscribe commands change the slots, as the registry functions do, and for a non-empty chat id the configuration is written exactly when the slots change; the reply matches the registry outcome, the reading, the welcome text for `/START`, the command list for `/HELP`, or "not available" |
| Dispatch.Accepted | main.cpp:234 | the accepted messages are exactly those shorter than 100 characters |
| Dispatch.ReadTel | main.cpp:224-240 | accepted texts are handled in arrival order and the replies go, one chat per accepted text, to exactly their senders; texts of MAXLEN characters or more get nothing; the warning day and hour are untouched and no duplicate slots arise |
| Dispatch.ReadTelRegistry | main.cpp:224-240 | a batch of messages changes the registry exactly as applying, in order, the subscribe and unsubscribe requests of its accepted SUBSCRIBE and UNSUBSCRIBE texts does |
| Dispatch.HandleRegistry | main.cpp:208-221 | one handled message changes the registry as its subscribe or unsubscribe request does, and not at all for other commands |
| Dispatch.LongMessagesIgnored | main.cpp:229-238 | dropping long messages beforehand gives the same state and actions |
| Scenario.FirstSubscriber | main.cpp:149-155 | from power-up, "A" is written into slot 0 |
| Scenario.SecondSubscriber | main.cpp:149-155 | "B" is then written into slot 1 |
| Scenario.RepeatedSubscriber | main.cpp:143-148 | subscribing "A" again changes nothing and reports it as subscribed already |
| Scenario.RegistryFull | main.cpp:149-157 | a full registry refuses a new id and changes nothing |
| Scenario.WarningDays | main.cpp:183-205 | a Tuesday reading of 35 warns both subscribers, a second high reading that day warns nobody, a Wednesday reading of 32 warns both again |

## Left out

- WiFi connection, NTP synchronisation, the `millis()` interval gate and the `setup`/`loop`
  wiring (main.cpp:82-102, main.cpp:242-267): hardware and time plumbing; the clock's weekday and
  hour are inputs.
- The HTTP request of `write_thingspeak` (main.cpp:62-78): socket I/O; an `Upload(v)` action is one
  upload attempt, and a failed connection is not distinguished from a successful one.
- Telegram `sendMessage`, `getUpdates` and `sendChatAction`, the certificate and TLS set-up:
  foreign library calls, represented as `Send` and `Typing` actions and as the inbox parameter.
- LittleFS and ArduinoJson (main.cpp:106-118, main.cpp:125-137): the library code is not part of
  this model, so the file is the abstract record `{today, users}` and no byte-level round trip is
  claimed; a failure to open the file for writing is not modelled (`Persist` is a write attempt).
- Device.Load: a stored user list shorter than MAXSUB is read with the missing entries as free
  slots, and a corrupt file is not modelled; what the JSON library yields for missing or
  malformed fields is not part of this model.
- The VEML6070 driver (main.cpp:175-180): the reading is an integer input; for the `UV` command it
  travels with the inbound message.
- `String::toUpperCase` beyond ASCII, and the byte length of UTF-8 texts: characters stand for
  bytes, and only `a`..`z` are upper-cased.
- Debug output on the serial port, and the sender id and name passed to `handler`, which it does
  not use.
