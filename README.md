# atv-power-state: the log watcher of atv.c

atv.c lets a host follow the power state of an Apple TV. It subscribes to
libimobiledevice device events. When the chosen device appears, it opens
the device's `syslog_relay` service and receives the device log one
character at a time. It collects each line in a 200-byte buffer and looks
for five fixed markers. Three markers announce sleep; the handler is then
called with 0. Two markers announce a Siri-remote press, which wakes the
box; the handler is then called with 1.

This project models that library in Dafny, in three modules:

- `TagMatcher` (tag_matcher.dfy) holds the matching:
  - the five markers;
  - a model of `strncmp`;
  - `FindTag`, the search `find_tag` performs, exactly as written;
  - `LineCalls`, the handler calls `process_line` makes for one line;
  - `IntendedLineCalls`, the same calls with the search as evidently
    intended (see "## Findings").
- `AtvModel` (atv_model.dfy) holds:
  - the module-level variables of atv.c as a value, `State`;
  - the invariant that holds between callbacks, `Inv`;
  - one transition function per callback or entry point: `Feed`,
    `ProcessLine`, `Start`, `Stop`, `OnEvent`, `Init`, `EndSkip`,
    `Shutdown`;
  - runs of callbacks, and the lemmas about all of the above.
- `Atv` (atv.dfy) has the class `Monitor`, which holds the same variables
  as fields. The line buffer is a 200-cell `array<char>`. Each method
  that stands for a C function (and `EndSkip`, the end of `atv_init`'s
  wait) changes the fields the way that function does, step by step, and
  is proved to keep `Valid()` and to move `Model()` exactly as the
  matching `AtvModel` function does. Two helper methods are proved
  against something else:
  - `FindTag` is the scan of `find_tag`. It returns exactly
    `TagMatcher.FindTag` of the held line and changes nothing.
  - `NotifyIfFound` is one `if` statement of `process_line`. It appends
    `Call(found, state)` and changes nothing else. It neither needs nor
    keeps `Valid()`: `ProcessLine` calls it only with the states 0 and 1.

The handler is a function pointer in the source. Here, the argument of
every handler call is appended to the field `calls`. This lets the
contracts state which calls a sequence of characters produces.

Two behaviours of the code are worth knowing. The model reproduces both.

- **The search loop stops one position early** (atv.c:78). `find_tag`
  loops while `i < line_pos - tag_len`. An occurrence that ends on the
  last character of the line is therefore never reported.
  - `TagMatcher.FindTagIgnoresLastCharacter` shows that `FindTag(line, tag)`
    holds exactly when the tag occurs in `line` minus its last character.
  - A line that consists of exactly the tvOS 12 sleep marker, or exactly
    the tvOS 16 Siri marker, produces no handler call
    (`AtvModel.SleepLineAsWritten`, `AtvModel.SiriLineAsWritten`).
  - "## Findings" records this, with the corrected search beside it.
- **`atv_init` with no device listed returns before subscribing** to
  device events (atv.c:203-206). Its message (atv.c:204) asks the
  operator to plug in a device. Device events are delivered only while
  subscribed, so a device attached later is never captured
  (`AtvModel.NoDeviceAtInitNeverCaptures`).

## Model

| member | source | states |
|---|---|---|
| TagMatcher.StrNEqualWithoutNul | atv.c:79 | when the tag holds no NUL, `strncmp(tag, p, n) == 0` holds exactly when the first n characters are equal |
| TagMatcher.TagsHaveNoNul | atv.c:68-73 | none of the five markers contains a NUL, so `strncmp` compares their full length |
| TagMatcher.FindTag | atv.c:75-85 | a reported tag is strictly shorter than the line and occurs in it |
| TagMatcher.FindTagIgnoresLastCharacter | atv.c:78 | `find_tag` reports a tag exactly when it occurs in the line without its last character |
| TagMatcher.OccurrenceAtEndIsMissed | atv.c:78 | a tag whose only occurrence ends on the last character is contained in the line but not reported |
| TagMatcher.AbsentCharacterExcludes | atv.c:75-85 | a tag with a character the line lacks is never reported |
| TagMatcher.Call | atv.c:88-90 | one `if (find_tag) update_handler(state)` statement gives one call with `state` exactly when the tag is found, and none otherwise |
| TagMatcher.TagCalls | atv.c:88-102 | a run of same-state tag tests gives at most one call per tag, all with that state, and at least one call exactly when some tag is found |
| TagMatcher.LineCalls | atv.c:87-104 | a line gives at most five calls, each 0 or 1, every 0 before every 1; a 0 exactly when a sleep marker is found; a 1 exactly when a Siri marker is found |
| TagMatcher.LineCallsAsWritten | atv.c:88-102 | the calls are the five `if` statements concatenated in source order |
| TagMatcher.NoTagNoCall | atv.c:87-104 | a line with no marker anywhere gives no call |
| TagMatcher.SleepMarkerAlone | atv.c:68 | a line that is exactly the tvOS 12 sleep marker gives no call |
| TagMatcher.SleepMarkerWithTrailer | atv.c:68 | that marker followed by one character gives exactly the call [0] |
| TagMatcher.SiriMarkerAlone | atv.c:73 | a line that is exactly the tvOS 16 Siri marker gives no call |
| TagMatcher.SiriMarkerWithTrailer | atv.c:73 | that marker followed by one character gives exactly the call [1] |
| TagMatcher.IntendedLineCalls | atv.c:87-104 | the five `if` statements with a plain substring search: at most five calls |
| TagMatcher.FindTagOneLater | atv.c:78 | the search as written on the line plus one character finds exactly what a substring search finds on the line |
| TagMatcher.IntendedIsOneCharacterLater | atv.c:78 | the intended calls for a line equal the calls as written for that line plus any one character |
| TagMatcher.IntendedFindsEveryOccurrence | atv.c:87-104 | with the intended search: each call is 0 or 1, zeros before ones; a 0 exactly when a sleep marker occurs anywhere in the line; a 1 exactly when a Siri marker does |
| TagMatcher.IntendedSleepLine | atv.c:68 | with the intended search, a line that is exactly the tvOS 12 sleep marker gives the call [0] |
| TagMatcher.IntendedSiriLine | atv.c:73 | with the intended search, a line that is exactly the tvOS 16 Siri marker gives the call [1] |
| AtvModel.Truncate | atv.c:116 | at most 199 characters of a text are kept, as a prefix |
| AtvModel.ProcessLine | atv.c:87-104 | keeps the invariant, empties the line, only appends at most five calls, and changes nothing else |
| AtvModel.Feed | atv.c:106-119 | keeps the invariant; nothing changes while `old_stuff` is set; a terminator processes the line; a character arriving when 199 are held is dropped; only the line and the calls can change |
| AtvModel.FeedAll | atv.c:106-119 | a character stream keeps the invariant and only extends the calls |
| AtvModel.FeedAllAppend | atv.c:106-119 | feeding a + b is feeding a, then b |
| AtvModel.FeedAllIgnored | atv.c:108 | while `old_stuff` is set, any stream leaves the state unchanged |
| AtvModel.FeedAllAssembles | atv.c:116-118 | non-terminator characters are appended to the line up to 199, and later ones are dropped |
| AtvModel.AssemblyFromEmptyLine | atv.c:116-118 | from an empty line, n characters leave exactly the first min(n, 199) of them |
| AtvModel.FeedLine | atv.c:110-113 | a text and a terminator empty the line and append the calls for the truncated text |
| AtvModel.FeedShortLine | atv.c:110-113 | a line of at most 199 characters fed into an empty buffer appends exactly its own calls |
| AtvModel.SleepLineAsWritten | atv.c:78 | the sleep marker followed by "\n" leaves the state unchanged: no handler call |
| AtvModel.SleepLineWithTrailingText | atv.c:88-90 | the sleep marker, one more character and "\n" give exactly one call, with 0 |
| AtvModel.SiriLineAsWritten | atv.c:78 | the Siri marker followed by "\r" gives no handler call |
| AtvModel.SiriLineWithTrailingText | atv.c:100-102 | the Siri marker, one more character and "\r" give exactly one call, with 1 |
| AtvModel.Start | atv.c:121-155 | resets the cursor and returns 0 or -1. It returns 0 exactly when all three library calls succeed, and exactly when both handles are held afterwards. On failure, neither handle is held. Nothing else changes |
| AtvModel.Stop | atv.c:157-170 | releases both handles, has no effect when idle, and changes nothing else |
| AtvModel.StopIsIdempotent | atv.c:161-169 | stopping twice is stopping once |
| AtvModel.RestartAfterStop | atv.c:121-170 | after a stop, a start whose library calls succeed captures again |
| AtvModel.OnEvent | atv.c:172-191 | See the list below the table |
| AtvModel.Init | atv.c:193-211 | with no device listed, changes nothing; otherwise it subscribes and sets `old_stuff`, and nothing else |
| AtvModel.EndSkip | atv.c:213 | clears `old_stuff` and nothing else |
| AtvModel.Shutdown | atv.c:217-225 | unsubscribes, releases both handles, and frees the udid exactly when one is remembered; line, calls and udid value are unchanged |
| AtvModel.Step | atv.c:106-191 | one callback is `syslog_callback` for a character and `device_event_cb` for a device event. An event is delivered only while subscribed and is ignored otherwise. The invariant and any remembered udid are kept |
| AtvModel.Run | atv.c:172-191 | a sequence of callbacks keeps the invariant and never changes a remembered udid |
| AtvModel.RunRemembersFirstAdded | atv.c:176-178 | while subscribed, after any run the remembered udid is that of the first ADD event of the run |
| AtvModel.UnsubscribedStaysIdle | atv.c:208 | without a subscription no run of callbacks starts a capture, subscribes or changes the udid |
| AtvModel.NoDeviceAtInitNeverCaptures | atv.c:203-206 | after `atv_init` with no device listed and the end of its wait, no run of callbacks ever starts a capture |
| AtvModel.RunCapturesFirstAdded | atv.c:174-183 | a capture running at the end of a run belongs to the first device added during it |
| AtvModel.AttachDetachScenario | atv.c:172-191 | attach ABC, attach XYZ, detach XYZ, detach ABC: only ABC is captured, and the last event stops it |
| AtvModel.DeviceNotFoundScenario | atv.c:124-128 | an ADD whose device cannot be opened leaves the session idle but remembers the udid |
| Atv.Monitor.constructor | atv.c:55-65 | the zero-initialised statics satisfy the invariant and form the initial state |
| Atv.Monitor.FindTag | atv.c:75-85 | the scan over `i < line_pos - tag_len` with `strncmp` returns exactly `TagMatcher.FindTag` of the held line |
| Atv.Monitor.NotifyIfFound | atv.c:88-90 | one `if` statement of `process_line` appends the call exactly when the tag is found, and changes nothing else |
| Atv.Monitor.ProcessLine | atv.c:87-104 | the object moves as `AtvModel.ProcessLine` and stays valid |
| Atv.Monitor.SyslogCallback | atv.c:106-119 | the object moves as `AtvModel.Feed`; a terminator writes the NUL at the old cursor, and no other buffer cell changes; while `old_stuff` is set, or when a character arrives with 199 held, no buffer cell changes at all |
| Atv.Monitor.StartLogging | atv.c:121-155 | the object and the return value are those of `AtvModel.Start` |
| Atv.Monitor.StopLogging | atv.c:157-170 | the object moves as `AtvModel.Stop` |
| Atv.Monitor.DeviceEventCb | atv.c:172-191 | the object moves as `AtvModel.OnEvent` |
| Atv.Monitor.AtvInit | atv.c:193-211 | the object moves as `AtvModel.Init` |
| Atv.Monitor.EndSkip | atv.c:213 | the object moves as `AtvModel.EndSkip` |
| Atv.Monitor.AtvStop | atv.c:217-225 | the object moves as `AtvModel.Shutdown` |

`AtvModel.OnEvent` keeps the invariant and never changes the calls. In
detail:

- An ADD while capturing has no effect.
- A REMOVE that does not match the captured device has no effect.
- Any other event kind has no effect.
- A REMOVE of the captured device is `Stop`.
- The first ADD remembers its udid, and a remembered udid never changes.
- A capture starts only on an ADD of the remembered udid.
- An ADD of another device has no effect.
- An ADD of the first or the remembered udid while idle calls
  `start_logging`. The line is reset, and the capture runs exactly when
  the three library calls succeed.

The invariant `AtvModel.Inv` (atv.c:57-65) holds between callbacks. It
says:

- the line holds at most 199 characters and no terminator;
- the device and relay handles are held together or not at all;
- a capture has a remembered udid;
- a freed udid is one that was remembered;
- every handler argument is 0 or 1.

## Left out

- atv-listener.c is not part of this model. It holds the command line, the
  HTTP requests via curl, signal handling and the main loop.
- The libimobiledevice calls are not modelled.
  - The success of `idevice_new`, `syslog_relay_client_start_service` and
    `syslog_relay_start_capture` is the parameter `StartOutcome`.
  - The device list of `idevice_get_device_list` is its length,
    `deviceCount`.
  - `idevice_event_subscribe` and `idevice_event_unsubscribe` are the flag
    `subscribed`.
  - Device and relay handles are the flags `hasDevice` and `hasSyslog`.
- The messages written by `printf`, `fprintf` and `fflush` are not
  modelled, because they have no effect on the state.
- The five-second `sleep` of `atv_init` is not modelled. The wait is split
  into `AtvInit` (up to the wait) and `EndSkip` (its end), so that
  characters delivered in between can be fed. Timing itself is not
  modelled.
- Concurrency is not modelled. The library's callbacks run on
  libimobiledevice threads; the model treats them as atomic and
  sequential. `StartOutcome` cannot express a relay whose capture starts
  delivering characters before `start_logging` returns.
- `update_handler`, the function pointer, is modelled as the record
  `calls`. What the handler does with the state is outside the library.
- An explicit target udid and the network options are not modelled. The
  `-u` option of atv-listener.c never reaches atv.c: `atv_init` takes only
  the handler (atv.c:193), and the udid is set only from an ADD event
  (atv.c:177).
- `quit_flag` is not modelled, because atv.c declares it and never uses it.
- The memory behind the remembered udid is not modelled.
  - `strdup` is the `Some` value.
  - `free` is the flag `udidFreed`. `atv_stop` does not reset the pointer,
    so a second `atv_stop` would free it twice.
  - `AtvModel.Shutdown` and `Atv.Monitor.AtvStop` therefore require that
    it has not been freed.
  - `AtvModel.OnEvent` and `Atv.Monitor.DeviceEventCb` require the same.
    `atv_stop` unsubscribes before it frees the udid, so no event is
    delivered afterwards. A later `atv_init` would subscribe again with a
    dangling udid; that use after free is not modelled.
- `AtvModel.Start`: called only while no capture runs and a udid is
  remembered, which is the only way `device_event_cb` calls
  `start_logging`.
- Strings are sequences of characters. `strcmp` of two udids is sequence
  equality, and C byte encoding is not modelled.

## Findings

| source | as written | input that shows it | evidently intended | confidence | as-written member | corrected member |
|---|---|---|---|---|---|---|
| atv.c:78 | `find_tag` tries the start positions `i < line_pos - tag_len`, so a tag that ends on the last character of the line is never found | the line "Blocking events on the way down to sleep" followed by "\n" gives no handler call | try `i <= line_pos - tag_len`, so that every occurrence is found and that line gives the call 0 | medium, not executed | AtvModel.SleepLineAsWritten | TagMatcher.IntendedSleepLine |

The rest of the model keeps the search as written, because it models the
program as it behaves. `TagMatcher.IntendedLineCalls` is the corrected
search. `TagMatcher.IntendedFindsEveryOccurrence` proves the intended
property of it: every occurrence of a marker anywhere in the line is
reported. `TagMatcher.IntendedIsOneCharacterLater` relates the two searches.
