# AI_Guard event log, notifications and gesture detectors in Dafny

This project models the core of AI_Guard, a camera-based alert system, as pure functions over immutable data. It also proves properties of those functions. The model covers four parts:

- **The event log.** This is the SQLite `logs` table and the Express handlers that use it (`AI_Guard/server/database.js`, `AI_Guard/server/index.js`):
  - `POST /api/log` validates a log entry, fills in defaults and inserts it.
  - `GET /api/logs` returns the newest 100 rows.
  - `GET /api/stats` returns the weekday histogram of the last seven days.

  The table is a sequence of rows plus the AUTOINCREMENT counter. That counter survives deletes.
- **The seeding script** (`AI_Guard/server/seed.js`). This covers:
  - `createTimestamp` formatting.
  - The 57 sample logs.
  - `clearLogs` and `insertLog`.
  - The `seed` sequence. It stops at the first failing statement.
- **The notification composable** (`AI_Guard/src/composables/useNotifications.js`). This is the random notification generator, the notification list and its remove-by-id, and the self-rescheduling timer chain behind `startNotifications` / `stopNotifications`.
  - Pending timers are explicit data. A timer firing is an explicit event.
  - `Math.random` and `Date.now` become parameters.
- **The gesture detectors.** There are three:
  - The four-gesture classifier and its change-triggered loop (`Camera.py`). Its events are buffered for `/events` and posted to `POST /api/log`.
  - The fist-only server with its `process_every` gate and rising-edge events (`main2.py`).
  - The command-line fist detector with its 120-frame counter (`main.py`).

  A hand is the sequence of its 21 landmark `y` coordinates. Geometry is exact arithmetic over `real`.

Modules follow the source files:
- `Wrappers` holds `Option` and `Result`.
- `Calendar` converts dates to epoch seconds and computes the weekday.
- `LogStore` models `database.js`.
- `LogApi` models `index.js`.
- `Seed` models `seed.js`.
- `Notifications` models `useNotifications.js`.
- `Gestures` holds the classifier and the frame and event records shared by the three scripts.
- `GestureCamera` models the `Camera.py` loop.
- `FistStream` models `main2.py`.
- `FistCli` models `main.py`.

Timestamps are whole seconds since the Unix epoch. For four-digit years, SQLite's text timestamps `YYYY-MM-DD HH:MM:SS` compare in the same order as epoch seconds. A failure of the database driver is an explicit `fault` argument that holds the driver's message.

Four facts about the code shape the model:
- `POST /api/log` answers 200.
- `GET /api/logs` has no pagination.
- The stats window has a lower bound only.
- The notification composable adds random mock notifications and does not poll the log.

## Model

| member | source | states |
|---|---|---|
| Calendar.Weekday | AI_Guard/server/index.js:59 | The day-of-week index of an instant lies in 0..6, with Sunday as 0, as `strftime('%w')` gives it |
| Calendar.WeekdayPeriodic | AI_Guard/server/index.js:59 | Two instants a whole number of weeks apart fall on the same weekday |
| Calendar.WeekdayNextDay | AI_Guard/server/index.js:59 | The same time one day later falls on the next weekday, Saturday wrapping to Sunday; with the anchors this fixes the weekday of every date |
| Calendar.WeekdayAnchors | AI_Guard/server/seed.js:95-100 | The seed's "today", 2026-01-19, is a Monday, and the epoch is a Thursday |
| LogStore.MaxId | AI_Guard/server/database.js:21 | The largest id present bounds every row's id and is attained; it is 0 for an empty table |
| LogStore.NextRowId | AI_Guard/server/database.js:21 | The next AUTOINCREMENT id exceeds both the stored sequence value and every id in the table |
| LogStore.NextRowIdOfValid | AI_Guard/server/database.js:21 | On a well-formed table, the next id is exactly one past the sequence value |
| LogStore.InitTable | AI_Guard/server/database.js:20-26 | `CREATE TABLE IF NOT EXISTS` creates an empty, well-formed table only when there is none, and leaves an existing table untouched |
| LogStore.InitTableIdempotent | AI_Guard/server/database.js:17-30 | Initialising the database a second time changes nothing |
| LogStore.InsertRow | AI_Guard/server/database.js:21-25 | A missing `event_type` fails with the NOT NULL constraint. Otherwise exactly one row is appended with the next id. A missing description or camera stays null, and a missing timestamp becomes the current time. The insert fails with SQLITE_FULL once rowids are exhausted, and well-formedness is preserved |
| LogStore.ClearAll | AI_Guard/server/seed.js:108 | `DELETE FROM logs` removes every row, reports how many rows were removed and keeps the AUTOINCREMENT value |
| LogStore.ApplyOne | AI_Guard/server/database.js:21 | A single insert or clear keeps the table well-formed and never lowers the sequence. Any id it hands out lies above the old sequence value |
| LogStore.ApplyIssuesFreshIds | AI_Guard/server/database.js:21 | Across any run of inserts and clears, the issued ids strictly increase and all lie above the starting sequence value, so an id is never reused after a delete |
| LogApi.OrElse | AI_Guard/server/index.js:25 | `v \|\| d`: a truthy string is kept; a missing or empty one becomes the default |
| LogApi.PostLog | AI_Guard/server/index.js:17-38 | A falsy `event_type` gets 400 and leaves the table unchanged. A driver error gets 500 with its message and also leaves the table unchanged. On success, exactly one row is appended with `''` and `'default'` in place of a falsy description and camera, and stamped with the current time. The response carries the new id and echoes the raw request fields |
| LogApi.PostedRowHasEventType | AI_Guard/server/index.js:20-25 | A row stored by the handler has a non-empty event type, a non-null description and a non-empty camera id |
| LogApi.InsertDesc | AI_Guard/server/index.js:43 | Inserting into a newest-first list keeps it newest-first and adds exactly that row |
| LogApi.SortDesc | AI_Guard/server/index.js:43 | `ORDER BY timestamp DESC` yields a permutation of the rows in non-increasing timestamp order |
| LogApi.PrefixIsNewest | AI_Guard/server/index.js:43 | In a newest-first list, no row left out of a prefix is newer than any row in the prefix |
| LogApi.ListLogs | AI_Guard/server/index.js:42-51 | `GET /api/logs` answers min(n, 100) of the stored rows, newest first. No omitted row is newer than a listed one. A driver error is passed through |
| LogApi.NewestRowHeadsListing | AI_Guard/server/index.js:43 | A row strictly newer than all others heads any listing that respects the order and the limit |
| LogApi.PostedRowListedFirst | AI_Guard/server/index.js:17-51 | A row posted later than every stored row is the first row `GET /api/logs` returns |
| LogApi.AppendedRowIsNewest | AI_Guard/server/index.js:24 | A row appended with a timestamp later than all others is strictly the newest in the table |
| LogApi.InWindow | AI_Guard/server/index.js:62 | The window holds exactly the rows stamped no earlier than seven days before now, each as many times as the table holds it |
| LogApi.InWindowKeepsOrder | AI_Guard/server/index.js:62 | The filter keeps table order: the window of two concatenated parts is the window of the first part followed by the window of the second |
| LogApi.GroupsFrom | AI_Guard/server/index.js:57-64 | `GROUP BY day_index` yields one row per weekday that has rows, with that weekday's count, in weekday order |
| LogApi.ApplyGroups | AI_Guard/server/index.js:86-91 | Folding the grouped rows into the stats object never adds or removes a key |
| LogApi.WeeklyStats | AI_Guard/server/index.js:55-95 | A driver error is answered with its message, and otherwise the histogram is returned |
| LogApi.DayNamesAreKeys | AI_Guard/server/index.js:75-84 | The seven day names are distinct, and they are exactly the keys of the initial stats object |
| LogApi.EmptyStatsKeys | AI_Guard/server/index.js:76-84 | The initial stats object has exactly the keys Monday to Sunday |
| LogApi.ApplyGroupsAt | AI_Guard/server/index.js:86-91 | After the fold, a day's entry is its group's count when the day has a group, and its initial value otherwise |
| LogApi.CountsPartitionRows | AI_Guard/server/index.js:57-64 | The seven weekday counts add up to the number of rows |
| LogApi.StatIsWeekdayCount | AI_Guard/server/index.js:57-91 | Each day's histogram entry is the number of windowed rows on that weekday |
| LogApi.AbsentDayStaysZero | AI_Guard/server/index.js:76-91 | A weekday with no group keeps its default 0 |
| LogApi.StatsAreWeekdayCounts | AI_Guard/server/index.js:57-91 | Every one of the seven entries is that weekday's count in the window |
| LogApi.WeeklyStatsCorrect | AI_Guard/server/index.js:55-95 | `GET /api/stats` answers exactly the keys Monday..Sunday. Each value counts the windowed rows on that weekday, and the values sum to the size of the window |
| Seed.IsoString | AI_Guard/server/seed.js:5-6 | `toISOString` of a valid date-time is 24 characters long (the `YYYY-MM-DDTHH:MM:SS.000Z` form) |
| Seed.Prefix | AI_Guard/server/seed.js:6 | `slice(0, 19)` keeps the first 19 characters, or the whole string if it is shorter |
| Seed.IndexOf | AI_Guard/server/seed.js:6 | Finds the first occurrence of a character, or -1 when it does not occur |
| Seed.ReplaceFirst | AI_Guard/server/seed.js:6 | `replace('T', ' ')` changes only the first `T` and keeps the length |
| Seed.CreateTimestamp | AI_Guard/server/seed.js:4-7 | The result is at most 19 characters long, and each character is the ISO string's own or a `T` turned into a space |
| Seed.NewDate | AI_Guard/server/seed.js:5 | `new Date(year, month - 1, ...)` keeps a date-time from year 100 on, reads a year 0..99 as 1900 + year, and rolls 29 February of year 0 into 1 March 1900; the result is always a valid date-time |
| Seed.CreateTimestampIsSqlForm | AI_Guard/server/seed.js:4-7 | `createTimestamp` yields exactly the `YYYY-MM-DD HH:MM:SS` text of the date-time its `Date` holds, which from year 100 on is the date-time it was given |
| Seed.CreateTimestampRoundTrip | AI_Guard/server/seed.js:4-7 | Parsing the `createTimestamp` text gives back the date-time its `Date` holds: the one it was built from from year 100 on, and year 1900 + y for a year y below 100 |
| Seed.GenerateSampleLogs | AI_Guard/server/seed.js:10-103 | The samples are the listed date-times in order, each with event type `Rock_FIST` |
| Seed.SampleTimesSorted | AI_Guard/server/seed.js:16-100 | The 57 sample date-times are valid calendar dates and strictly increase |
| Seed.SampleLogsWellFormed | AI_Guard/server/seed.js:16-100 | There are 57 samples, each with the non-empty type `Rock_FIST`, at valid and strictly increasing times |
| Seed.SampleDatesUnchanged | AI_Guard/server/seed.js:4-100 | Every sample lies in a year where `new Date` keeps its fields, so the `createTimestamp` text of each sample parses back to the sample's own date-time, the one its row is stamped with |
| Seed.ClearLogs | AI_Guard/server/seed.js:106-113 | Either every row is removed and the count is reported, with the sequence kept, or the driver's error is returned |
| Seed.InsertLog | AI_Guard/server/seed.js:116-124 | Appends one row with the given type and time and a null description and camera, and returns its new id. The driver's error is passed through |
| Seed.InsertLogOnValid | AI_Guard/server/seed.js:116-124 | On a well-formed table, the new row's id is the sequence value plus one |
| Seed.Seed | AI_Guard/server/seed.js:126-151 | A failing clear stops the seed before any insert |
| Seed.InsertAllStopsAtFailure | AI_Guard/server/seed.js:136-138 | The insert loop adds the samples before the first failing insert, with consecutive ids, and attempts none after it |
| Seed.InsertAllSucceeds | AI_Guard/server/seed.js:136-138 | Without failures, every sample is appended in list order with consecutive ids |
| Seed.SeededRowsOrdered | AI_Guard/server/seed.js:116-138 | Samples in increasing time order are stored with ids and timestamps that increase together |
| Seed.SampleRowsOrdered | AI_Guard/server/seed.js:134-138 | In the 57 seeded rows, id order and timestamp order agree |
| Seed.SeedSucceeds | AI_Guard/server/seed.js:126-140 | A successful seed reports the cleared count, and leaves exactly the 57 sample rows with ids following the old sequence value |
| Seed.SeedStopsAtFailure | AI_Guard/server/seed.js:128-146 | When the k-th statement fails, its message is reported. Only the samples before it are stored, and none after it is attempted |
| Notifications.RandomIndex | AI_Guard/src/composables/useNotifications.js:29-30 | `Math.floor(r * n)` for a roll in [0, 1) is an index below n |
| Notifications.GenerateNotification | AI_Guard/src/composables/useNotifications.js:28-39 | The event type and description come from the same index. The camera is one of the five, the id lies in [now, now + 1), and the timestamp is the ISO clock reading |
| Notifications.GeneratedPairing | AI_Guard/src/composables/useNotifications.js:29-35 | Every generated description is the one paired with its event type |
| Notifications.GenerateReachesEveryPair | AI_Guard/src/composables/useNotifications.js:29-36 | Every event type and camera combination can be drawn |
| Notifications.FindIndex | AI_Guard/src/composables/useNotifications.js:54 | `findIndex` answers the first position holding the id, or -1 exactly when no entry holds it |
| Notifications.RemoveNotification | AI_Guard/src/composables/useNotifications.js:53-58 | Only the first entry with the id is spliced out, and the rest keep their order. An absent id changes nothing |
| Notifications.RemoveMatchesReference | AI_Guard/src/composables/useNotifications.js:53-58 | `removeNotification` agrees with a front-to-back removal of the first match |
| Notifications.AppendThenRemove | AI_Guard/src/composables/useNotifications.js:42-58 | Removing a just-appended notification whose id is fresh restores the list |
| Notifications.SetTimeout | AI_Guard/src/composables/useNotifications.js:46-48 | Scheduling adds one pending timer and changes nothing else. When the handles in use are fresh, the new handle is held by no live timer and by no stored `intervalId`, and freshness is kept |
| Notifications.DropTimer | AI_Guard/src/composables/useNotifications.js:75 | `clearTimeout` leaves exactly the pending timers with other handles |
| Notifications.AddNotification | AI_Guard/src/composables/useNotifications.js:42-50 | One notification is appended at the end, the existing ones are unchanged, and its removal by its own id is scheduled 3000 ms ahead |
| Notifications.NextDelay | AI_Guard/src/composables/useNotifications.js:63 | The delay before the next notification lies in [7000, 10000) ms |
| Notifications.ScheduleNext | AI_Guard/src/composables/useNotifications.js:62-68 | One tick timer is scheduled after that delay, and its handle is stored as `intervalId` |
| Notifications.StartAsWritten | AI_Guard/src/composables/useNotifications.js:61-70 | `startNotifications` as written always schedules a new chain and overwrites `intervalId` |
| Notifications.Start | AI_Guard/src/composables/useNotifications.js:61-70 | The corrected start schedules a chain only when none is running |
| Notifications.Stop | AI_Guard/src/composables/useNotifications.js:73-78 | `stopNotifications` leaves the handle null and cancels exactly the timers with the handle it named. When there is no handle it changes nothing; a stored handle is always positive and so truthy |
| Notifications.StopIdempotent | AI_Guard/src/composables/useNotifications.js:73-78 | Stopping twice is the same as stopping once |
| Notifications.Fire | AI_Guard/src/composables/useNotifications.js:41-67 | Firing a handle that is not pending changes nothing. Otherwise that timer is retired, every other pending timer stays, and any added timer is newly issued. A removal timer splices out its notification. A tick appends one generated notification, schedules its removal 3000 ms later, and schedules the next tick 7000 to 10000 ms later under a new handle stored in `intervalId`. No other timer is added in either case |
| Notifications.HandlesStayFresh | AI_Guard/src/composables/useNotifications.js:46-76 | At page load, and after every add, start (corrected or as written), stop and timer firing, every live handle lies below the next one to be issued |
| Notifications.InitialIsSingleChain | AI_Guard/src/composables/useNotifications.js:3-4 | At page load, no chain is running and the invariants hold |
| Notifications.StartKeepsSingleChain | AI_Guard/src/composables/useNotifications.js:61-70 | The corrected start keeps at most one chain, named by `intervalId`, and starts one when stopped |
| Notifications.StopHaltsSingleChain | AI_Guard/src/composables/useNotifications.js:73-78 | With a single chain, stopping leaves no tick pending |
| Notifications.FireKeepsSingleChain | AI_Guard/src/composables/useNotifications.js:62-68 | Any timer firing keeps the single-chain invariant |
| Notifications.QuietAfterStop | AI_Guard/src/composables/useNotifications.js:73-78 | Once no tick is pending, firing timers never adds a notification or restarts the loop |
| Notifications.DoubleStartOutlivesStop | AI_Guard/src/composables/useNotifications.js:61-78 | Start, start, stop as written leaves the first chain's timer pending with the handle null. Firing it adds a notification and restarts the loop under a new stored handle, so only a second stop halts it |
| Notifications.DoubleStartThenStopHalts | AI_Guard/src/composables/useNotifications.js:61-78 | With the corrected start, start, start, stop leaves no tick pending |
| Notifications.AddedNotificationIsRemovedOnTime | AI_Guard/src/composables/useNotifications.js:42-58 | From any state with fresh handles, the removal timer of an added notification is due 3000 ms later, and firing it removes exactly that notification |
| Gestures.CountTrue | Camera.py:93-101 | The number of folded fingers counted never exceeds the number of fingers |
| Gestures.CountTrueAll | Camera.py:93-101 | All fingers are counted exactly when every finger passes the test |
| Gestures.FingerCurl | Camera.py:82-88 | The curl is positive exactly when the tip lies below its middle joint and negative exactly when it lies above, since the divisor is at least one pixel |
| Gestures.IsFist | Camera.py:90-101 | `is_fist` holds iff every tip lies lower than its middle joint less the margin. The margin is 2% of the height here, and 0 for the strict test of main.py and main2.py |
| Gestures.IsPaper | Camera.py:151-162 | `is_paper` holds iff all four curls are below 0.3 |
| Gestures.IsScissors | Camera.py:103-126 | Scissors means index and middle curl below 0.3, ring above 0.5 and pinky above 0.4; so index and middle count as extended, ring and pinky do not, and both are curled more than 0.1 beyond the index |
| Gestures.IsMiddleFinger | Camera.py:128-149 | `is_middle_finger` holds iff the middle curl is below 0.6 and some two of the other fingers are curled more than 0.1 beyond it |
| Gestures.ScissorsExcludesPaper | Camera.py:103-162 | No hand is both scissors and paper |
| Gestures.DetectGesture | Camera.py:164-175 | A detected gesture holds for the hand and comes with its fixed label; no gesture comes with the empty label |
| Gestures.FirstHoldingIsFirst | Camera.py:164-175 | The first holding gesture of a list holds, and every gesture before it does not. None is returned exactly when no gesture holds |
| Gestures.DetectFollowsPriority | Camera.py:164-175 | `detect_gesture` answers the first gesture that holds in the order middle finger, rock, scissors, paper, or none when none holds |
| GestureCamera.StatusOf | Camera.py:389-396 | Each `*_detected` flag equals "the current gesture is this one". Exactly one flag is up when there is a gesture and none otherwise |
| GestureCamera.EventTypesDistinct | Camera.py:361-373 | Different gestures produce different event types |
| GestureCamera.EventNamesDistinct | Camera.py:361-366 | The `gesture_names` table gives each gesture its own name and its own description |
| GestureCamera.Step | Camera.py:325-409 | Only frames at least `process_interval` after the last processed one are classified; others keep the gesture and label. A processed frame sets the gesture to the detection result, or to none without a hand. An event `<NAME> Detected` from `Camera 1` is buffered and posted exactly when a gesture is detected that differs from the current one. The status mirrors the current gesture |
| GestureCamera.HeldGestureLoggedOnce | Camera.py:360-384 | Holding one gesture over any number of frames logs it at most once, and not at all when it is already current |
| GestureCamera.GetEvents | Camera.py:271-278 | `/events` answers the buffered events in order and empties the buffer; nothing else in the loop state changes |
| GestureCamera.GetEventsDrains | Camera.py:274-278 | A second `/events` right after the first answers nothing |
| GestureCamera.PendingStaysPosted | Camera.py:375-382 | Every buffered event is also among the posted ones, in the same order, across frames and drains |
| GestureCamera.PostedEventIsStored | Camera.py:366-382 | A posted gesture event is stored by `POST /api/log` with its type, description and `Camera 1`, and answered with status 200, unless the database fails or is full. The stored time is the server's clock |
| FistStream.Step | main2.py:194-249 | Only frames whose count is a multiple of `process_every` are classified; others keep the fist state and label. A processed frame sets the fist state to "a hand and a strict fist". `Fist Detected` is buffered exactly on a false-to-true change, and the status mirrors the fist state |
| FistStream.EventsCountRises | main2.py:219-234 | A run buffers one `Fist Detected` event per rise of the fist state and keeps the earlier events |
| FistStream.StatusMirrorsState | main2.py:236-249 | After any frame, `fist_detected` and the label in the status equal the fist state and the kept label |
| FistStream.GetEvents | main2.py:138-144 | `/events` answers the buffered events and empties the buffer; nothing else in the loop state changes |
| FistCli.Step | main.py:81-107 | The fist state becomes "a hand and a strict fist", and `ROCK detected` is printed exactly on its rise. The counter advances modulo 120, with an FPS line at each wrap |
| FistCli.FramesCounterWraps | main.py:101-107 | From a counter below 120, the counter stays the frame total modulo 120, and one FPS line is printed per 120 frames |
| FistCli.FramesCounterFromStart | main.py:68-107 | After n frames from start-up, the counter reads n mod 120 and n div 120 FPS lines have been printed |
| FistCli.GuiAllowed | main.py:43 | The preview is shown only without `--no-gui` and with a non-empty `DISPLAY` |

## Left out

- Sockets, HTTP framing, JSON parsing, CORS and the Express, Flask and Vue frameworks are left out. Request bodies are modelled as their three string fields; a missing or null field is `None`. Non-string JSON values are not modelled.
- Threads and locks are left out. Each locked section of the camera scripts is one atomic step. The background HTTP send in `Camera.py` is an append to an outbox, and its reply is ignored, as the script ignores it.
- OpenCV capture, MediaPipe inference, JPEG streaming and drawing are left out. A frame is modelled as the first detected hand's landmarks, the frame height and a clock reading. The ESC key that ends `main.py` is not modelled.
- The FPS measurement of `Camera.py` and `main2.py` is left out because it is floating-point timing. Its status update rewrites the same flags from the same gesture, and the processing branch overwrites it later in the same pass.
- `is_finger_extended` in `Camera.py` is never called, so it is not modelled.
- Floating point is left out. Curls and thresholds are exact `real` arithmetic.
- `Notifications.NextDelay` and `Notifications.GenerateNotification` state half-open bounds over exact reals: a delay below 10000 ms and an id below `now + 1`. In IEEE doubles `Math.random() * 3000 + 7000` can round to exactly 10000, and `Date.now() + Math.random()` can round to `now + 1`, so the program only keeps the closed bounds.
- `GestureCamera.Step` stamps an event with the frame's clock reading. The script reads the clock a second time.
- Random numbers, `Date.now` and timers are inputs. A roll is a `real` in [0, 1), and a timer firing is an explicit `Fire` event.
- The seed's one-second start-up delay and its `process.exit(0)` are not modelled.
- `Seed.CreateTimestamp` treats the local zone as UTC. The local-to-UTC shift of `toISOString` depends on the host's zone.
- The tie order of rows with equal timestamps in `ORDER BY timestamp DESC` is unspecified in SQLite. `LogApi.ListLogs` fixes one such order and states only what holds for any of them.
- SQLite stores timestamps as text. The model uses epoch seconds, whose order matches that of the text for four-digit years.
- Admin credentials and bcrypt in `server/database.js`, `useAuth.js`, `view_data.js` and the build and routing configuration are outside the modelled core.
- `FistStream.Step` requires a non-zero `process_every`. With 0, Python's `%` raises and the camera thread dies; the model does not represent the crash.
- `Seed.SeedSucceeds` does not restate that seeded ids and timestamps increase together. `Seed.SampleRowsOrdered` states that about the same rows.
- `Seed.Seed` states only the failing-clear case in its own contract. Its other outcomes are stated by `Seed.SeedSucceeds` and `Seed.SeedStopsAtFailure`.
- `LogApi.WeeklyStats` states only the error handling in its own contract. The histogram's content is stated by `LogApi.WeeklyStatsCorrect`.

## Findings

| source | as written | input that shows it | evidently intended | confidence | as-written member | corrected member |
|---|---|---|---|---|---|---|
| AI_Guard/src/composables/useNotifications.js:61-78 | `startNotifications` always starts a new timer chain and overwrites `intervalId`. After a second start, `stopNotifications` cancels only the latest tick; the first chain's pending tick survives, fires and restarts the loop | `startNotifications(); startNotifications(); stopNotifications()`: the first chain's tick is still pending although `intervalId` is null, and when it fires it adds a notification and schedules a new tick | A second start while running does nothing, so that `stopNotifications` always halts the loop | medium, not executed | Notifications.DoubleStartOutlivesStop | Notifications.DoubleStartThenStopHalts |
