# linebot-garbage-helper core, in Dafny

A model of the logic of a LINE bot that tells users when Taipei's garbage
trucks reach the stops near them and reminds them ahead of time. Five Go files
make up the core:

- `internal/garbage/adapter.go`: the stop matcher. It turns a catalogue row's
  wall-clock arrival string (`HHMM` or `HH:MM`) into an instant today in
  Taipei, rolling a past time forward by a day. It skips rows whose
  coordinates or time do not parse, filters by distance and time window, sorts
  by distance or by ETA, and truncates. It also has three first-match lookups.
- `internal/store/firestore.go`: the reminder and user collections, modelled
  as a class over maps.
- `internal/reminder/scheduler.go`: the dispatch pass, the cleanup pass,
  cancellation and listing, over the store and a push-notification sink.
- `internal/line/handler.go`: postback data parsing and the reminder it
  creates, command splitting, text routing, the choice between the
  time-window search and the nearest-stop search, and the three-bubble cap.
- `internal/gemini/nlu.go`: rune-level substring search, district
  extraction, the handling of the language model's reply, and the `HH:MM`
  window parser.

Instants are Unix seconds (`int`). Taipei is a fixed offset of +8 h
(`Clock.TaipeiOffset`). The clock, the distance from the user to each row,
the catalogue fetch, the model's reply and geocoding are all parameters.
Store writes and pushes can fail. Methods express that as an arbitrary `ok`
outcome, and a failed write leaves the store unchanged.

Files:

- `common.dfy`: `Option`.
- `gostrings.dfy`: the Go standard-library string functions the core calls:
  `strings.Split`/`Join`/`HasPrefix`/`TrimSpace`/`ToLower`, `len` in UTF-8
  bytes, `strconv.ParseInt` and `%d`.
- `clock.dfy`: days in a zone, and `time.Parse` with the layouts `"1504"` and
  `"15:04"`.
- `garbage.dfy`, `store.dfy`, `scheduler.dfy`, `handler.dfy`, `nlu.dfy`: one
  module per core file.

Some facts the proofs bring out:

- The dispatch pass fetches only reminders with ETA after the fetch instant.
  A reminder is therefore marked expired only when its ETA falls between the
  fetch and its own evaluation (`ReminderScheduler.DispatchTransitions`).
- The cleanup pass can never expire anything; see Findings.
- `contains` first compares UTF-8 byte lengths, then searches by rune. The
  byte guard never rejects a real occurrence, so `contains` is exactly
  rune-substring containment (`Nlu.Contains`).
- `extractDistrict` returns the first district in list order, not the first
  by position in the text.
- A `/favorite` command followed by a space and nothing else is parsed as an
  `AddFavorite` with an empty name and an empty address. It is stored only
  if geocoding the empty address succeeds. Only the bare `/favorite` gets
  the usage reply (`Handler.FavoriteUsageOnlyBare`).

## Model

| member | source | states |
|---|---|---|
| Clock.DayStart | internal/garbage/adapter.go:237 | the midnight of the local day holding `now`, for a zone `offset` seconds east: at most `now`, less than a day before it, and a whole number of days in local time |
| Clock.AtClock | internal/garbage/adapter.go:237 | `hour:minute:00` on that local day lies inside the day, and its hour and minute within the day are the ones asked for |
| Clock.ParseClock | internal/garbage/adapter.go:231-246 | `time.Parse` with `"1504"` or `"15:04"` yields an hour below 24 and a minute below 60, or an error |
| Clock.ParseClockReadsPadded | internal/garbage/adapter.go:231-246 | every valid hour and minute written `HHMM` or `HH:MM` (or `H:MM` with the colon) reads back as itself |
| Clock.ParseClockShapes | internal/garbage/adapter.go:231-246 | conversely, the compact layout accepts only four digits and the colon layout only `HH:MM` or `H:MM` |
| GoStrings.ParseInt | internal/line/handler.go:346 | `strconv.ParseInt(s, 10, 64)` succeeds exactly on one or more decimal digits with an optional leading sign whose value is in int64 range, and then gives that signed value |
| GoStrings.ParseFormatInt | internal/line/handler.go:278-279 | an int64 written with `%d` parses back to itself |
| Garbage.ParseTimeToToday | internal/garbage/adapter.go:227-247 | a parsed arrival time lies on today's Taipei date, at a whole minute |
| Garbage.ParseTimeToTodayFormats | internal/garbage/adapter.go:231-246 | `HHMM` and `HH:MM` give that time today in Taipei; `H:MM` has four characters, goes to the `"1504"` layout and is an error |
| Garbage.ResolveEta | internal/garbage/adapter.go:128-131 | the ETA is the time itself, or that time plus exactly one day when it is before now; for a time on today's date the result is in `[now, now + 24h)` |
| Garbage.IsTimeInWindow | internal/garbage/adapter.go:249-263 | true exactly when `t` is not before a set `From` and not after a set `To`; both bounds are inclusive and unset bounds accept everything |
| Garbage.Candidate | internal/garbage/adapter.go:169-212 | a row yields a stop exactly when its coordinates and time parse and the query admits it (a nearest query admits every row; a window query admits a row within a positive `maxDistance` whose rolled-over ETA is in the window); the stop carries the row's location, coordinates and time, a route with the row's vehicle number and route name, the row's distance and the rolled-over ETA, which lies in `[now, now + 24h)` |
| Garbage.CollectExactly | internal/garbage/adapter.go:169-213 | a query collects a stop if and only if it is the stop of some row that parses and that the query admits |
| Garbage.CollectComplete | internal/garbage/adapter.go:169-213 | every row that parses and that the query admits is collected |
| Garbage.CollectedFromRow | internal/garbage/adapter.go:169-213 | every collected stop is the one some catalogue row yields |
| Garbage.RowCollected | internal/garbage/adapter.go:169-213 | every stop a catalogue row yields is collected |
| Garbage.CollectMembers | internal/garbage/adapter.go:169-213 | a stop is collected if and only if some row yields it |
| Garbage.CollectedStopsObeyFilter | internal/garbage/adapter.go:177-192 | every collected stop has its ETA in `[now, now + 24h)`; a window query's stops are in the window and within a positive `maxDistance` |
| Garbage.CollectNearestCount | internal/garbage/adapter.go:115-152 | the nearest query collects exactly one stop per row whose coordinates and time both parse |
| Garbage.CollectBoundedByParsing | internal/garbage/adapter.go:169-184 | any query collects at most one stop per parsing row; a malformed row never yields one |
| Garbage.UnboundedWindowKeepsAll | internal/garbage/adapter.go:177-192 | with no bounds and no distance cap, the window query keeps exactly what the nearest query keeps |
| Garbage.Insert | internal/garbage/adapter.go:154-156 | inserting into a sorted sequence keeps it sorted and adds exactly that element |
| Garbage.SortBy | internal/garbage/adapter.go:154-156 | the result is sorted by the key and is a permutation of the input; tie order is not promised |
| Garbage.PrefixHoldsSmallest | internal/garbage/adapter.go:158-160 | a prefix of a sorted sequence is a sub-multiset, and no element in it has a larger key than one left out |
| Garbage.CutKeepsSmallest | internal/garbage/adapter.go:154-160 | sorting and then cutting to `limit` keeps the order; it keeps everything when `limit <= 0`, else `min(limit, n)` elements, none farther than one dropped |
| Garbage.CollectCandidates | internal/garbage/adapter.go:115-152 | the append loop builds exactly the collected candidates, in catalogue order |
| Garbage.FindNearestStops | internal/garbage/adapter.go:111-163 | the error is always nil; the stops are sorted by distance; with `limit <= 0` they are all parsing rows' stops; with `limit <= 0` every parsing row's stop is among them; otherwise `min(limit, parsing rows)` of them, and none is farther than a stop left out |
| Garbage.FindStopsInTimeWindow | internal/garbage/adapter.go:165-220 | the error is always nil; the stops are sorted by ETA and are a permutation of the collected window stops; every row within a positive `maxDistance` whose ETA is in the window is among them |
| Garbage.GetRouteByID | internal/garbage/adapter.go:279-302 | the first row with that vehicle number and parsing coordinates, as a one-stop route; None exactly when there is no such row |
| Garbage.GetStopFromRoute | internal/garbage/adapter.go:304-311 | the first stop with that name, or None exactly when there is none |
| Garbage.GetCollectionPointByVehicleAndLocation | internal/garbage/adapter.go:313-320 | the first row with that vehicle number and location, or None exactly when there is none |
| Store.ActiveAmongMembers | internal/store/firestore.go:133-146 | a reminder is returned exactly when its document is active, decodes and matches the ETA filter, and it carries its document id |
| Store.FirestoreClient.CreateReminder | internal/store/firestore.go:114-121 | the stored reminder is active with both timestamps set to now, whatever the caller gave; on success it is added under the new id and nothing else changes |
| Store.FirestoreClient.QueryActive | internal/store/firestore.go:123-149 | on success, the loop returns the active, decodable documents matching the filter, in query order, with ids filled in |
| Store.FirestoreClient.GetActiveReminders | internal/store/firestore.go:123-149 | on success, exactly the active decodable reminders with ETA strictly after the target |
| Store.FirestoreClient.UpdateReminderStatus | internal/store/firestore.go:151-157 | a missing document fails; on success only `status` and `updatedAt` of that one document change |
| Store.FirestoreClient.GetUser | internal/store/firestore.go:60-72 | a returned user is the stored document; a missing user is an error |
| Store.FirestoreClient.UpsertUser | internal/store/firestore.go:74-82 | `UpdatedAt` is always refreshed and `CreatedAt` is set only when zero; on success the whole document is replaced |
| Store.FirestoreClient.AddFavorite | internal/store/firestore.go:84-112 | a missing user is created with exactly this favorite; an existing user gets it appended after the earlier ones, in order |
| ReminderScheduler.TruncDiv | internal/reminder/scheduler.go:104 | integer division truncating toward zero, as `int(d.Minutes())` does, for both signs |
| ReminderScheduler.MessageFor | internal/reminder/scheduler.go:102-111 | the message names the stop; it is "arriving now" exactly when less than a whole minute remains, otherwise a countdown of the whole minutes left |
| ReminderScheduler.Notifier.PushMessage | internal/reminder/scheduler.go:117-123 | every push attempt is recorded with its recipient, message and whether it was delivered |
| ReminderScheduler.FetchedDistinct | internal/store/firestore.go:133-146 | the fetched reminders have distinct ids |
| ReminderScheduler.FetchedAreFetchable | internal/store/firestore.go:133-146 | every fetched reminder is an active, matching document, and every such document is fetched |
| ReminderScheduler.PassExact | internal/reminder/scheduler.go:50-60 | after a pass, each processed document has exactly the effect of its own outcome, and unprocessed documents are unchanged |
| ReminderScheduler.DispatchLeavesUnfetched | internal/reminder/scheduler.go:40-63 | the dispatch pass changes no document it did not fetch |
| ReminderScheduler.DispatchTransitions | internal/reminder/scheduler.go:65-100 | fetched documents were active; too-early ones are untouched; an expired one had `fetchNow < ETA < evalNow` and becomes expired only if the write took; a due one becomes sent only after a delivered push and a successful write |
| ReminderScheduler.ApplyByDecision | internal/reminder/scheduler.go:73-96 | the effect of one reminder's outcome under each branch of the three-way decision |
| ReminderScheduler.SentFollowsDeliveredPush | internal/reminder/scheduler.go:88-96 | "sent" is written only for a reminder whose push was delivered |
| ReminderScheduler.AttemptsFollowDue | internal/reminder/scheduler.go:50-60 | the pass makes exactly one push attempt per due reminder, in fetch order, with that reminder's recipient and message |
| ReminderScheduler.DueMembers | internal/reminder/scheduler.go:73-88 | a reminder is due exactly when it was fetched and is neither too early nor past its ETA |
| ReminderScheduler.NoResendOnceSent | internal/store/firestore.go:126-143 | a sent reminder is never fetched again, so it is never pushed twice |
| ReminderScheduler.NoWritesNoChange | internal/reminder/scheduler.go:50-60 | a pass in which no write took leaves every document unchanged |
| ReminderScheduler.CleanupNeverExpires | internal/reminder/scheduler.go:126-144 | the cleanup pass over what `GetActiveReminders(now - 24h)` returns changes no document, whatever the writes do |
| ReminderScheduler.CleanupFixedExpiresStale | internal/reminder/scheduler.go:126-144 | with the query corrected to ETA before the cutoff, every active stale reminder is fetched and marked expired when its write takes, and all other documents are unchanged |
| ReminderScheduler.Scheduler.SendReminderNotification | internal/reminder/scheduler.go:102-124 | one push to the reminder's user with the message chosen for the time left |
| ReminderScheduler.Scheduler.ProcessReminder | internal/reminder/scheduler.go:65-100 | the outcome fits the three-way decision; the store changes only by that outcome's status write; the pushes are exactly the one attempt of a due reminder |
| ReminderScheduler.Scheduler.ProcessReminders | internal/reminder/scheduler.go:40-63 | a failed fetch writes and pushes nothing; otherwise every fetched reminder is processed once, in fetch order, and the store and pushes are exactly those outcomes' effects |
| ReminderScheduler.Scheduler.CleanupExpiredReminders | internal/reminder/scheduler.go:126-144 | as written: fetches with ETA after the cutoff, tests ETA before it, and leaves the reminders unchanged |
| ReminderScheduler.Scheduler.CleanupExpiredRemindersFixed | internal/reminder/scheduler.go:126-144 | corrected: the fetched stale reminders each get an "expired" write, and the store changes by exactly the writes that took |
| ReminderScheduler.Scheduler.CancelReminder | internal/reminder/scheduler.go:176-178 | on success the document becomes cancelled whatever its prior status, with only `updatedAt` also changed |
| ReminderScheduler.Scheduler.GetUserReminders | internal/reminder/scheduler.go:172-174 | ignores the user id and returns the active reminders with ETA after now + 24 h |
| Nlu.FindSubstring | internal/gemini/nlu.go:165-187 | the smallest rune index where `sub` occurs, and -1 exactly when it occurs nowhere; an empty `sub` gives 0 |
| Nlu.OccurrenceFitsBytes | internal/gemini/nlu.go:160-163 | an occurrence never has more UTF-8 bytes than the text holding it |
| Nlu.Contains | internal/gemini/nlu.go:160-163 | true exactly when `sub` occurs in `text` as a contiguous rune sequence |
| Nlu.FirstOccurring | internal/gemini/nlu.go:151-157 | the first name in list order that occurs in the text, and every earlier one does not occur |
| Nlu.FirstContained | internal/gemini/nlu.go:151-157 | the loop stops at the first listed name contained in the text |
| Nlu.ExtractDistrict | internal/gemini/nlu.go:143-158 | the result is the first district in the fixed list that occurs in the text, or "" |
| Nlu.DistrictOfIsFirstListed | internal/gemini/nlu.go:143-158 | "" exactly when no listed district occurs; otherwise a listed district that occurs, with every district listed before it absent |
| Nlu.AnalyzeIntent | internal/gemini/nlu.go:99-116 | a failed or empty model call is an error; an undecodable reply gives the message's own district, the whole message as keyword, the default query type and an empty window; a decoded reply is kept, with `"garbage_truck_eta"` as its query type when the reply gave none |
| Nlu.ParseTimeString | internal/gemini/nlu.go:210-219 | succeeds exactly on `HH:MM`/`H:MM`, giving a whole minute on the host's current day |
| Nlu.ParseTimeStringFormats | internal/gemini/nlu.go:210-219 | `HH:MM` reads back as that time today; `HHMM` is an error |
| Nlu.ParseTimeWindow | internal/gemini/nlu.go:189-208 | an empty bound stays unset; a non-empty bound is parsed; the call fails exactly when a non-empty bound fails, even if the other parsed |
| Handler.ParsePostbackData | internal/line/handler.go:439-451 | the loop builds exactly the map of the `&`-pieces that split on `=` into two parts, later pieces overwriting earlier ones |
| Handler.ParamsOfKeys | internal/line/handler.go:439-451 | a key is present exactly when some piece is a `key=value` pair for it |
| Handler.ParamsOfLastPair | internal/line/handler.go:439-451 | a key's value is that of the last pair for it |
| Handler.ReminderDataPieces | internal/line/handler.go:278-279 | a bubble's postback data splits on `&` into its three pieces when the route id and stop name hold no `&` |
| Handler.ReminderDataRoundTrip | internal/line/handler.go:278-279 | parsing a bubble's postback data gives back its route, stop and ETA when the id and name hold no `&` or `=` |
| Handler.PostbackActionFor | internal/line/handler.go:330-357 | non-user sources and data without "route" are ignored; a non-integer "eta" is rejected; otherwise the reminder is for that user, route and stop, with ETA the parsed "eta" and 10 minutes' advance |
| Handler.HandlePostbackEvent | internal/line/handler.go:330-368 | ignored and rejected postbacks store nothing; a valid one stores the reminder as active with its timestamps, or reports the failed write and stores nothing |
| Handler.BubbleTapCreatesReminder | internal/line/handler.go:330-357 | tapping a bubble's "remind me" creates a reminder for exactly the route, stop and ETA it shows |
| Handler.SendGarbageTruckResults | internal/line/handler.go:245-271 | the bubbles are those of the first `min(3, n)` stops, in order |
| Handler.HandleCommand | internal/line/handler.go:171-207 | help, usage and unknown commands write nothing; `/favorite` stores the geocoded favorite under the user when geocoding and the write succeed; `/list` replies with the user's favorites, "none yet", or an error |
| Handler.FavoriteCommandRoundTrip | internal/line/handler.go:193-199 | `/favorite name address...` gives back the name and the whole address, spaces and all, when the name has no space |
| Handler.FavoriteUsageOnlyBare | internal/line/handler.go:172-196 | the usage reply is given exactly for the bare `/favorite` |
| Handler.WelcomeOnlyForGreetings | internal/line/handler.go:89-109 | a text that gets the welcome reply is a greeting, in some letter case, with only white space around it |
| Handler.WelcomeExactlyForGreetings | internal/line/handler.go:89-109 | a text gets the welcome reply, and skips command handling and intent analysis, exactly when it is a greeting in any letter case padded only with white space |
| Handler.GreetingTolerance | internal/line/handler.go:96-97 | a greeting in any ASCII letter case, with any white space around it, gets the welcome reply |
| Handler.LocationQueryFor | internal/line/handler.go:118-139 | the intent's district is geocoded when it has one; otherwise the extracted location when the call succeeded and it is non-empty; otherwise the user is asked for an address |
| Handler.WindowSearch | internal/line/handler.go:218-226 | no stops when the intent sets no bound or a bound does not parse; otherwise all the window's stops within 2000 m, sorted by ETA |
| Handler.NearestSearch | internal/line/handler.go:228-235 | `min(5, parsing rows)` stops sorted by distance, none farther than a parsing row's stop left out |
| Handler.LeadingBubblesSmallest | internal/line/handler.go:245-259 | the bubbles of the first `min(3, n)` stops of such a selection show `min(3, pool size)` stops of the pool, in key order, and no stop left out is smaller |
| Handler.SearchNearbyGarbageTrucks | internal/line/handler.go:210-243 | a failed fetch is reported; "no stops" exactly when no row parses; otherwise `min(3, n)` bubbles of the `n` window stops, the ones with the earliest ETAs, in ETA order, when the window search found any; else `min(3, parsing rows)` bubbles of the nearest stops, in distance order, with no parsing row's stop nearer than a shown one |

## Left out

- I/O and wiring: the LINE webhook, signature checks, reply texts, the Flex
  bubble layout, `cmd/server/main.go`, configuration and tokens are not part
  of this model. Replies are values naming which reply is sent.
- HTTP and JSON: `FetchGarbageData` and the JSON decoding of the feed, the
  model's reply and Firestore documents are not modelled. The feed comes in
  as parsed rows, or None when the fetch failed. A reply comes in as decoded
  or undecodable. Undecodable reminder documents form a set in the store.
- Distances: `geo.CalculateDistance` is floating-point trigonometry. It is
  the parameter `dist`. `parseCoordinates` is the row's `coords: Option<Coord>`.
- Calls to the language model and to Google Maps (`AnalyzeIntent`'s call,
  `ExtractLocationFromText`, `GeocodeAddress`, `ReverseGeocode`) are
  parameters. `handleTextMessage` is modelled by its two choices,
  `TextRouteFor` and `LocationQueryFor`, and not as one method.
- `handleMessageEvent`'s source filter, and `handleLocationMessage`'s reverse
  geocoding and confirmation text, are not modelled. The search that
  `handleLocationMessage` starts is `SearchNearbyGarbageTrucks` with no intent.
- The clock: `FindNearestStops`, `FindStopsInTimeWindow` and
  `parseTimeToToday` each read the clock. The model uses one `now` per call.
  `processReminder`'s own clock read and `time.Until` are both `evalNow`.
- Time zones: Asia/Taipei is a fixed +8 h; it has had no daylight saving
  since 1979, and the code's fallback is the same fixed zone. The host zone
  of `parseTimeString` is a fixed offset `hostOffset`.
- `StartScheduler`'s ticker loop is concurrency. The model has single
  dispatch and cleanup passes.
- Firestore internals: the route-data storage (`StoreRouteData`,
  `GetRouteData`, `GetAllRoutes`), transactions, and client set-up and
  shut-down are not modelled. The id `Add` generates is the parameter
  `newId`. The order in which a query returns documents is the field `order`.
- The store's status field is a string in Go; the model uses the four values
  the code writes.
- `NearestStop.CollectionPoint`, a pointer to the loop variable, is left out.
- `FindNearestStops`'s error return is always nil, so the handler's branch
  for that error (internal/line/handler.go:225-229) is unreachable and not
  modelled.
- Unstable sort: `sort.Slice` fixes no order among ties. `Garbage.SortBy` is
  one particular sort, and every contract states only sortedness and
  permutation.
- GoStrings.ToLower: maps only A-Z and U+0130 (whose lower case is `i`). Every
  other character that Go lower-cases becomes a non-ASCII letter. The one
  exception is U+212A, the Kelvin sign, which becomes `k`, a letter no
  greeting contains. So greeting detection is exact.
- Integer widths: `strconv.ParseInt`'s int64 range is modelled. Unix seconds
  and durations are unbounded integers; `time.Duration` overflow is not
  modelled.
- Cancellation: the documented reminder life cycle allows no transition out
  of sent, expired or cancelled. `CancelReminder` writes "cancelled" whatever
  the prior status. The model follows the code.
- The `test/` directory holds manual drivers against live services and is
  not part of this model.

## Findings

| source | as written | input that shows it | evidently intended | confidence | as-written member | corrected member |
|---|---|---|---|---|---|---|
| internal/reminder/scheduler.go:126-144 | the cleanup pass fetches with `GetActiveReminders(cutoff)`, which keeps only ETA after the cutoff (internal/store/firestore.go:143), then expires only reminders with ETA before the cutoff, so it never expires anything | an active reminder with ETA 25 h before now: it is not fetched, and no fetched reminder passes the ETA-before-cutoff test | fetch the active reminders whose ETA is before the cutoff and mark them expired | not executed | ReminderScheduler.Scheduler.CleanupExpiredReminders | ReminderScheduler.Scheduler.CleanupExpiredRemindersFixed |
