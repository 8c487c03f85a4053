# VITAP Mate: the edge's protocols, the UDP mode and the calendar, in Dafny

VITAP Mate is a student app with a server side made of small objects on an edge network
(`rust/vtop-edge`), an engine that talks to VTOP (`rust/vtop-core`), and a UDP gateway in front
of the engine (`rust/vtop-gateway`) that the app's Rust half (`rust/src`) speaks to. This project
models the parts of it whose correctness cannot be read from one function and proves what they
are for, over every input and every run.

Each module follows one component. An object of the source whose methods change its fields is a
class here; the class's methods are proved against a step function of the object's state, and
invariants of all runs of those steps are proved beside it. Time, random ids, replies from the
network, mail and VTOP are inputs of the steps, so every reply and every clock reading is covered.

| modules | component |
|---|---|
| `AccountRecords`, `AccountStore`, `AccountMerging`, `RateLimit`, `LimitOverSaves` | one account's record, the three-way merge that saves it, and its rate limit, for calls one after another and for calls that overlap |
| `SessionRequests`, `SessionRuns`, `SessionOutcomes`, `SessionTakeovers`, `AccountObject` | session requests: the phone's answer, the engine's sign-in, the alarm |
| `MailWaiters`, `Mailboxes`, `MailRoutes` | waits for a code, sealed boxes and their alarm, the mail routes and the owner index |
| `KeyRotation`, `KeyAsking`, `SessionCache`, `PageFetch` | UDP mode: weekly keys, when the gateway asks for them, its session cache, a page fetch |
| `EventLog` | an install's event log and the app that catches up from it |
| `Calendar`, `DateText` | civil dates and day numbers, and the date texts VTOP's forms take |
| `SixDigits`, `Cookies` | the two code finders, and cookie headers |
| `Text`, `Options`, `Numbers`, `Lists` | splitting and trimming, decimal numbers, `Option`, tables kept as lists |

## What the proofs found

Where a promise does not hold, the lemma named says exactly when it does.

- Updating a key's row writes its label, device, outing permission and last use together. A
  request that only records a use therefore undoes what another made of the other three
  meanwhile: a permission is taken back, and a key whose phone moved asks the old install again
  (`AccountMerging.KeyFieldsSurviveUntouchedKey`, `AccountMerging.StaleUseUndoesMove`).
- A changed phone is written with `INSERT OR REPLACE`. The two handlers that rewrite a phone's row
  after a wait are `link` and `fcm-token`. A `link` repeated with the phone's own secret brings
  that secret back after another request linked the phone with a new one meanwhile, and links one
  unlinked meanwhile (`AccountMerging.PhoneFieldsSurviveUntouchedPhone`,
  `AccountMerging.UnlinkedPhoneStaysUnlinked`, `AccountMerging.RepeatedLinkUndoesLink`). A phone
  linked with a new secret while its `fcm-token` moves it to another install is left there with
  the old one (`AccountMerging.MoveDropsNewSecret`).
- A session call counts itself in its own copy of the account and saves the count after its
  network calls. Calls that overlap lose hits, any number of them being allowed at once, and can
  carry a window's hits into the next and refuse too early (`LimitOverSaves.OverlapIsUnlimited`,
  `LimitOverSaves.MixedWindowRefuses`). `LimitOverSaves.SaveCountsExactly` says exactly when a
  save counts its call; a run's stored window always counts its calls one after another exactly
  when every save does (`LimitOverSaves.CountedExactlyWhenAllCount`), and the limits then hold for
  calls saved in the order of their times, as they are where no other save of the window comes
  between a call's load and its save.
- An alarm for a takeover moves a second on for every other handler that finishes at or after the
  takeover's time before the alarm fires (`SessionTakeovers.PostponesExactly`,
  `SessionTakeovers.TakeoverCanBeLate`), and for nothing else (`SessionTakeovers.TakeoverOnTime`).
- `appLogin` reads the request again before it writes a started sign-in but not before it writes
  a failed start. When the engine's "accepted" is lost and its sign-in finishes first, the
  session it made is overwritten by the failure (`SessionRuns.OnlyOverwriteUndoesSuccess`,
  `SessionRuns.SignInCanBeLost`).
- A socket sends one page of missed events and then whatever is logged next, and the app moves
  its cursor on with each (`lib/vtop/edge/edge_events.dart:296-304`), so with more than a page
  waiting the rest is skipped for good. The comment at the page size
  (`rust/vtop-edge/src/device.ts:16`) says the app asks again from the last event; a reader that
  does so misses nothing (`EventLog.SkippedOnlyBehindStream`, `EventLog.FirstSocketSkips`,
  `EventLog.NothingIsMissed`).
- The gateway asks for keys half a minute after each rotation, unless an ask is under way at that
  instant: then the next one is up to six hours away (`KeyAsking.AskedAfterEachRotation`,
  `KeyAsking.StraddledAskWaits`, `KeyAsking.RotationCanBeMissed`).
- The limiter's minute starts at the first call after the last one ended, so two seconds can see
  119 calls allowed, and sixty seconds never more; only in the clock's first minute, whose window
  no call opened, are all 120 reached (`RateLimit.TwiceTheRateHappens`,
  `RateLimit.TwiceTheRateAtTheStart`, `RateLimit.AtMostTwiceTheRate`).
- The date parsers take numbers with a leading `+`, as Rust's `parse::<u32>` does; the proofs are
  about what they accept, signs included.

## Model

| member | source | states |
|---|---|---|
| Calendar.DaysToDateAndBack | rust/src/live_bench.rs:47-55 | Every integer day number, in negative eras too, becomes a date that exists in the leap-year and month table, and `day_number` gives that number back. |
| Calendar.DateToDaysAndBack | rust/vtop-core/src/inputs.rs:188-202 | Every date that exists, of any integer year, comes back from its day number. |
| Calendar.NextHasNextNumber | rust/vtop-core/src/inputs.rs:188-202 | The next date by the table of the parser exists and has the next number: ends of months, Februaries and eras included. |
| Calendar.PrevHasPrevNumber | rust/vtop-core/src/inputs.rs:188-202 | The same for the date before. |
| Calendar.DayNumberCountsDays | rust/vtop-core/src/inputs.rs:188-202 | The day number is the count of single calendar steps from 1970-01-01, both ways, and the days-to-date arithmetic is that walk. |
| Calendar.NumbersKeepOrder | rust/vtop-core/src/inputs.rs:188-202 | One date is before another exactly when its number is smaller. |
| Calendar.YearOfDay | rust/src/live_bench.rs:49-51 | The division with the three corrections finds the March year a day of the 400-year era is in. |
| DateText.OutingParseAccepts | rust/vtop-core/src/inputs.rs:166-181 | An outing date parses exactly when its three parts read as numbers and a month name of an existing date, in two and four bytes; it keeps its text. |
| DateText.ParsedDayNumber | rust/vtop-core/src/inputs.rs:188-202 | For a parsed outing date no default of `day_number` is reached: the number is that of the date the text names, and leads back to it. |
| DateText.PrintedDateReads | rust/vtop-core/src/inputs.rs:117-143 | A date printed as `DD/MM/YYYY` parses, as that date, exactly while its year is below 10000. |
| DateText.TodayParses | rust/src/live_bench.rs:42-57 | The text made for today parses exactly before day 2,932,897 (the year 10000), and then names today. |
| SixDigits.SplitFindsFirst | rust/vtop-edge/src/mail.ts:29-31 | Splitting at non-digits and taking the first piece of length six gives the leftmost maximal run of exactly six digits, or none when there is none. |
| SixDigits.FirstSixDigitCode | rust/vtop-core/src/gmail.rs:307-325 | The index loop gives that same run on every text, and so agrees with the split. |
| SixDigits.FirstCodeIsUnique | rust/vtop-core/src/gmail.rs:307-325 | There is only one such answer for a text. |
| Cookies.ParseCookiePairs | rust/vtop-core/src/session.rs:29-51 | Parsing gives each name once up to ASCII case, in the order first seen, with its last usable value; attributes and empty parts are dropped. |
| Cookies.CollectedIsUnique | rust/vtop-core/src/session.rs:29-51 | That description fixes the result. |
| Cookies.ParsePrintParse | rust/vtop-core/src/session.rs:29-51 | Printing what was parsed, as section 4.2.1 of RFC 6265 writes it, and parsing again gives the same pairs; their names are distinct up to ASCII case. |
| Cookies.HeaderReadsBack | rust/vtop-edge/src/account-state.ts:142-171 | `fromHeader` gives back the names and values `toHeader` wrote exactly when all are well formed; they are then numbered from one. |
| Cookies.ReadsWellFormed | rust/vtop-edge/src/account-state.ts:147-171 | Whatever `fromHeader` reads from any text is well formed, so writing and reading it once more changes nothing. |
| Cookies.NamesFoldCase | rust/vtop-core/src/session.rs:12-51 | Two names are taken for one, and a name for an attribute, exactly up to the case of their ASCII letters. |
| AccountRecords.AccountRecord.Allow | rust/vtop-edge/src/account-state.ts:482-490 | A call is counted in its minute, and allowed while the minute's count is within the rate. |
| RateLimit.WindowCountsCalls | rust/vtop-edge/src/account-state.ts:482-490 | Over every run the window's count is the number of calls since the one that opened it, all within its minute. |
| RateLimit.AllowedInWindow | rust/vtop-edge/src/account-state.ts:482-490 | A call is allowed exactly when it is among the first sixty of its window. |
| RateLimit.AtMostSixtyInWindow | rust/vtop-edge/src/account-state.ts:482-490 | No window allows more than sixty of its calls. |
| RateLimit.AtMostTwiceTheRate | rust/vtop-edge/src/account-state.ts:482-490 | Any sixty seconds of any run of calls one after another allow at most 120, and at most 119 when they begin past the clock's first minute: the call that opens a window is one of its sixty, and the next window opens a minute later. |
| RateLimit.TwiceTheRateHappens | rust/vtop-edge/src/account-state.ts:482-490 | 119 is reached: a window's opener, a burst at its last second and one a second later allow 119 calls in two seconds, whenever the window opens. |
| RateLimit.TwiceTheRateAtTheStart | rust/vtop-edge/src/account-state.ts:482-490 | 120 is reached in the clock's first minute, whose window no call opened. |
| RateLimit.RefusedIsTooMany | rust/vtop-edge/src/account-state.ts:482-490 | Of calls one after another one is refused only after sixty others in less than sixty seconds: a caller within the rate in every interval is never refused. |
| LimitOverSaves.SaveMergesWindow | rust/vtop-edge/src/account.ts:608-662 | What a save makes of the stored window from the window loaded and the one counted, column by column; a request that did not count itself leaves it. |
| LimitOverSaves.SaveCountsExactly | rust/vtop-edge/src/account.ts:798-833 | A call's save counts it as if it had loaded what it saves over exactly when both windows are open with as many hits, or both are over and its first hit is written; its answer is then the stored window's too. |
| LimitOverSaves.SessionCallsAreSaves | rust/vtop-edge/src/account.ts:798-833 | The record a session call saves, refused or not, merged into the tables, moves the stored window exactly as one save of these runs does. |
| LimitOverSaves.RunsRecordSaves | rust/vtop-edge/src/account.ts:798-833 | The times and answers of a run are those of the calls its own steps load and save, each answered by the window stored when it was loaded. |
| LimitOverSaves.CountedExactlyWhenAllCount | rust/vtop-edge/src/account.ts:798-833 | Over every run of loads and saves, the stored window counts at every point the calls saved, one after another, exactly when every save finds a window on which it counts its call. |
| LimitOverSaves.AllCountAnswers | rust/vtop-edge/src/account.ts:798-833 | In such a run every call is answered as the serial limit answers it. |
| LimitOverSaves.AllCountIsLimited | rust/vtop-edge/src/account.ts:798-833 | With calls saved in the order of their times, any sixty seconds of such a run then allow at most 120 calls, and 119 when they begin past the clock's first minute. |
| LimitOverSaves.AllCountRefusesTooMany | rust/vtop-edge/src/account.ts:798-833 | And such a run refuses a call only after sixty others in less than sixty seconds. |
| LimitOverSaves.UndisturbedIsSerial | rust/vtop-edge/src/account.ts:798-833 | A run in which no other save of the window comes between a call's load and its save is such a run, its calls saved in the order of their times. |
| LimitOverSaves.UndisturbedIsLimited | rust/vtop-edge/src/account.ts:798-833 | So it meets the bound of 120, and of 119 past the clock's first minute. |
| LimitOverSaves.UndisturbedRefusesTooMany | rust/vtop-edge/src/account.ts:798-833 | And it refuses a call only after sixty others in less than sixty seconds. |
| LimitOverSaves.OverlapIsUnlimited | rust/vtop-edge/src/account.ts:798-833 | Any number of calls that all load before one saves are all allowed, in one second, and the stored window then counts one. |
| LimitOverSaves.MixedWindowRefuses | rust/vtop-edge/src/account.ts:798-833 | A call that saves its count of the window before over a new window carries the hits along: a call is refused with as few as two others in the sixty seconds before it, by how many calls the window before had. |
| AccountRecords.EvictedAreStalest | rust/vtop-edge/src/account-state.ts:393-404 | Every phone dropped to make room was heard of no later than every phone that stayed. |
| AccountRecords.DropStalest | rust/vtop-edge/src/account-state.ts:393-404 | The loop drops one stalest phone at a time, none when there is room, and no more than it must. |
| AccountRecords.AccountRecord.AddPhone | rust/vtop-edge/src/account-state.ts:393-404 | The new phone is last, replaces its install's earlier entry, at most five stay, as many as can, and only stalest ones went. |
| AccountRecords.AccountRecord.SetKeyOutings | rust/vtop-edge/src/account-state.ts:466-471 | Changes the permission of the first key with the short id, trimmed, and nothing else; false when there is none. |
| AccountRecords.AccountRecord.RevokeKey | rust/vtop-edge/src/account-state.ts:474-479 | Takes out the first key with the short id, trimmed, and tells its hash, which no key left has; nothing for an empty id. |
| AccountRecords.AccountRecord.TouchKey | rust/vtop-edge/src/account-state.ts:442-451 | Records a use of that key only, and only when the last one written is a minute old. |
| AccountRecords.AccountRecord.AddKey | rust/vtop-edge/src/account-state.ts:458-462 | Adds the key at the end exactly when fewer than ten are there; hashes stay unique unless it has one already there. |
| AccountRecords.AccountRecord.PhoneMoved | rust/vtop-edge/src/account-state.ts:422-426 | The keys of one install, and no others, follow it to another. |
| AccountStore.RowReadsBack | rust/vtop-edge/src/account.ts:382-430 | A row reads back as the record that wrote it exactly when no number in it is negative. |
| AccountStore.AccountDb.WriteChanges | rust/vtop-edge/src/account.ts:608-662 | The tables become the three-way merge of what was loaded, what the request made of it, and what is stored now. |
| AccountStore.AccountDb.WriteAccount | rust/vtop-edge/src/account.ts:573-589 | The tables become the record. |
| AccountStore.AccountDb.SaveAccount | rust/vtop-edge/src/account.ts:510-515 | Merges when the record was loaded, else writes it whole; the saved record is what the next save starts from. |
| AccountStore.AccountDb.WriteKeys | rust/vtop-edge/src/account.ts:608-662 | The loop over the record's keys inserts new ones, updates changed ones still stored, and leaves the rest. |
| AccountStore.AccountDb.DeleteKeys | rust/vtop-edge/src/account.ts:608-662 | The loop over the loaded keys deletes exactly those the request took out. |
| AccountStore.AccountDb.WritePhones | rust/vtop-edge/src/account.ts:608-662 | The loop over the record's phones writes exactly those new or changed. |
| AccountStore.AccountDb.DeletePhones | rust/vtop-edge/src/account.ts:608-662 | The loop over the loaded phones deletes exactly those the request took out. |
| AccountMerging.Merge | rust/vtop-edge/src/account.ts:608-662 | The merged tables hold, column by column and row by row, what the merge says of the three versions. |
| AccountMerging.MergedIsUnique | rust/vtop-edge/src/account.ts:608-662 | That fixes the tables. |
| AccountMerging.SaveAloneStoresRecord | rust/vtop-edge/src/account.ts:608-662 | With no save in between, the tables become the record. |
| AccountMerging.UnchangedSaveKeepsStore | rust/vtop-edge/src/account.ts:608-662 | A request that changed nothing leaves the tables as they are now, however old what it loaded. |
| AccountMerging.DisjointSavesCommute | rust/vtop-edge/src/account.ts:608-662 | Two requests that changed no column, key or phone in common leave the same tables whichever saves last, whatever each had loaded. |
| AccountMerging.LastWriterWins | rust/vtop-edge/src/account.ts:608-662 | After any run of saves a column holds what the last request that changed it wrote, else what was there. |
| AccountMerging.RevokedKeyIsNotInserted | rust/vtop-edge/src/account.ts:608-662 | A key no longer stored is not inserted again by a save that had loaded it. |
| AccountMerging.RevokedStaysRevoked | rust/vtop-edge/src/account.ts:510-515 | Over every interleaving, from any tables, of requests that load, change and save, a key once revoked by a save is never stored again. |
| AccountMerging.KeyFieldsSurviveUntouchedKey | rust/vtop-edge/src/account.ts:591-662 | What another request made meanwhile of a key's label, device, permission or last use survives a save that left that field alone exactly when the save left all four alone; the time of creation always survives. |
| AccountMerging.PhoneFieldsSurviveUntouchedPhone | rust/vtop-edge/src/account.ts:591-662 | The same for each field of a phone still linked, exactly when the save left the phone's whole record alone. |
| AccountMerging.UnlinkedPhoneStaysUnlinked | rust/vtop-edge/src/account.ts:595-662 | A phone unlinked meanwhile stays unlinked exactly when the save left that phone's record alone. |
| AccountMerging.StaleUseUndoesMove | rust/vtop-edge/src/account.ts:798-833 | A run of two requests in which the use of a key recorded by a session call moves the key back to the install its phone left. |
| AccountMerging.RepeatedLinkUndoesLink | rust/vtop-edge/src/account.ts:1285-1345 | A run in which a `link` repeated with the phone's own secret brings back the phone's row, that secret included, after another request linked the phone again or unlinked it. |
| AccountMerging.MoveDropsNewSecret | rust/vtop-edge/src/account.ts:1385-1412 | A run in which a phone linked with a new secret while `fcm-token` moves it to another install is left on that install with the old secret; the new one is in no row. |
| AccountObject.Account.AskPhone | rust/vtop-edge/src/account.ts:891-916 | Asks each of the request's phones; no failure exactly when one logged the event, else why none could be, as the loop over the replies decides. |
| AccountObject.Account.Begin | rust/vtop-edge/src/account.ts:862-881 | A new request is offered to the engine before its phones exactly when usable credentials are always to be used, and after them when no phone is reached; it has a takeover time exactly when a phone was asked first and credentials wait; one that failed reached nobody, the engine took no sign-in, and it says why no phone was reached. |
| AccountObject.Account.BeginSession | rust/vtop-edge/src/account.ts:798-828 | `startSession` until its network calls is a step of the request machine, answered by exactly which of unknown key, rate limit, cache, live request and new request applies; the record saved has the call counted by the same window step the rate-limit theorems count, and unless it was refused the key used and a cached session that is over dropped, and nothing else changed. |
| AccountObject.Account.FinishSession | rust/vtop-edge/src/account.ts:829-835 | The rest of `startSession` is its second step: it writes only over a request still pending, and sets the alarm. |
| AccountObject.Account.BeginServerLogin | rust/vtop-edge/src/account.ts:1062-1089 | `appLogin` until the engine is asked is a step, answered by exactly which of no credentials, cache, live request and new request applies. |
| AccountObject.Account.FinishServerLogin | rust/vtop-edge/src/account.ts:1090-1098 | The rest of `appLogin`'s start is a step: it re-reads before writing a started sign-in and not before writing a failure. |
| AccountObject.Account.EngineDone | rust/vtop-edge/src/account.ts:957-1019 | `loginDone` is a step: it touches only a request still pending, which gets the session, or else waits for its phone, is sent to one, or ends with the engine's reason or the phones'; the session is cached even when nobody waits, credentials rejected or unreadable are erased, and nothing else of the record changes. |
| AccountObject.Account.PhoneAnswered | rust/vtop-edge/src/account.ts:1130-1200 | A phone's answer is a step: a pending request succeeds with the phone's own session, ends with its refusal or with what is wrong with its cookies, and stays as it is when they could not be checked; any other request is left alone; a session it sealed is cached even when it is late, and credentials it sealed are kept. |
| AccountObject.Account.Reschedule | rust/vtop-edge/src/account.ts:1449-1465 | The alarm is set at the earliest of all takeovers, drops and the credentials' expiry, or a second ahead when that is past; none when nothing is due. |
| AccountObject.Account.OnAlarm | rust/vtop-edge/src/account.ts:1467-1488 | The alarm is a step: the loop drops old requests, starts each due sign-in once, gives up a takeover that cannot start, and chooses the next alarm. |
| SessionRuns.StepKeepsInvariant | rust/vtop-edge/src/account.ts:798-1119 | Every step of every handler keeps the invariant of requests, pending pointer, alarm and sign-in count. |
| SessionRuns.RequestsAreSound | rust/vtop-edge/src/account-state.ts:549-596 | Over every run: success carries cookies and a source, error a message; a stored pending request has had a phone asked or a sign-in started; at most one is live; each has at most one sign-in the engine took. |
| SessionRuns.EndedStays | rust/vtop-edge/src/account.ts:957-1119 | One step leaves an ended request unchanged or drops it, but for a failed `appLogin` start written over it. |
| SessionRuns.EndedForever | rust/vtop-edge/src/account.ts:798-1200 | Over every run without that one write, a request that ended never changes again. |
| SessionRuns.DroppedStays | rust/vtop-edge/src/account.ts:1467-1482 | A dropped request does not come back. |
| SessionRuns.OnlyOverwriteUndoesSuccess | rust/vtop-edge/src/account.ts:1090-1096 | A succeeded request stops being one, while it is kept, exactly in the step where a failed `appLogin` start is written over it. |
| SessionRuns.SignInCanBeLost | rust/vtop-edge/src/account.ts:1090-1096 | A run of three steps in which that happens. |
| SessionRuns.AlarmIsInTime | rust/vtop-edge/src/account.ts:1449-1465 | Over every run, while a takeover is to come an alarm is set, no later than it or, when it was past, than one second after the alarm was chosen. |
| SessionOutcomes.CallsAreSaved | rust/vtop-edge/src/account.ts:798-858 | What a session call makes of the record: one more call in its minute by the window's own step, its key used once a minute, a cached session gone exactly when the engine says it is over, and nothing else. |
| SessionOutcomes.KeptForItsTime | rust/vtop-edge/src/account-state.ts:312-330 | A session saved is found for a week and no longer; credentials saved are usable until the lifetime chosen ends, for ever without one, and the alarm erases them exactly then. |
| SessionOutcomes.AsksItsInstall | rust/vtop-edge/src/account-state.ts:416-419 | A key's session request goes to the one install that holds the key if that is still linked, and to nobody else. |
| SessionOutcomes.BeginsAsPlanned | rust/vtop-edge/src/account.ts:862-916 | Who is asked first, what is started, when the takeover comes and with which reason a new request fails, for every plan, record and network. |
| SessionOutcomes.FinishStartWrites | rust/vtop-edge/src/account.ts:829-835 | The end of a session call's wait writes that over its own request while it is pending, and touches no other. |
| SessionOutcomes.FinishLoginWrites | rust/vtop-edge/src/account.ts:1090-1098 | `appLogin` writes a sign-in the engine took over a pending request only, and a failure over any. |
| SessionOutcomes.LoginSettlesItsRequest | rust/vtop-edge/src/account.ts:957-1019 | What each outcome of the engine makes of the one pending request it is for: the session, waiting on, another try at the phones, or the end with the reason named; every other request stays as it is. |
| SessionOutcomes.LoginIsRecorded | rust/vtop-edge/src/account.ts:957-1019 | What each outcome makes of the record, field by field. |
| SessionOutcomes.AnswerSettlesItsRequest | rust/vtop-edge/src/account.ts:1130-1200 | What each answer of a phone makes of the one pending request it is for; every other request stays as it is. |
| SessionOutcomes.AnswerIsRecorded | rust/vtop-edge/src/account.ts:1130-1200 | What each answer makes of the record: session and credentials each kept on their own, and nothing else changed. |
| SessionOutcomes.AlarmDropsOld | rust/vtop-edge/src/account.ts:1467-1475 | An alarm drops exactly the requests made ten minutes ago or longer. |
| SessionOutcomes.AlarmComesForAll | rust/vtop-edge/src/account.ts:1449-1465 | The alarm chosen comes in time to drop or take over every request kept and to erase credentials whose lifetime ends, and for nothing else. |
| SessionOutcomes.SuccessWasBrought | rust/vtop-edge/src/account.ts:957-1200 | Over every run, a request that succeeded shows the cookies, token and source of an engine's sign-in or a phone's answer that came for it while it was pending. |
| SessionOutcomes.SignInsAreCounted | rust/vtop-edge/src/account.ts:862-944 | The count of a request's sign-ins goes up by one exactly in the steps in which the engine takes one, by the settings, the credentials and the replies. |
| SessionOutcomes.OneSignInEach | rust/vtop-edge/src/account.ts:798-1119 | Over every run, no request has the engine take a second sign-in, whatever its handler, the alarm and the answers do. |
| SessionTakeovers.AlarmSettles | rust/vtop-edge/src/account.ts:1467-1488 | An alarm at or after a live request's takeover time starts its sign-in exactly when there are credentials and the engine takes it, counts it once, and gives the takeover up otherwise; every other live request it leaves as it is. |
| SessionTakeovers.AlarmKeepsLive | rust/vtop-edge/src/account.ts:1467-1475 | An alarm drops no live request. |
| SessionTakeovers.PostponesExactly | rust/vtop-edge/src/account.ts:1449-1465 | A handler that finishes puts the alarm past the deadline of another request's takeover exactly when it finishes at or after that deadline, and then by a second past its own time at most. |
| SessionTakeovers.TakeoverOnTime | rust/vtop-edge/src/account.ts:829-833 | Over every run where alarms fire in their second, a live request given a takeover time by its own handler has its sign-in started, or none to start, once past that time (or the second after the handler, if later) and a second for each other handler that finished at or after it. |
| SessionTakeovers.TakeoverCanBeLate | rust/vtop-edge/src/account.ts:829-833 | A run in which such a handler makes a takeover a second late. |
| MailWaiters.StepKeepsInvariant | rust/vtop-edge/src/store.ts:123-210 | Every atomic stretch of `awaitCode`, and every push, time-out, purge and wipe between them, keeps registrations, queues and parked calls consistent. |
| MailWaiters.NobodyParkedOnCodes | rust/vtop-edge/src/store.ts:159-210 | In every interleaving, where codes are queued nobody is parked: no wake-up is lost. |
| MailWaiters.CodesAreConserved | rust/vtop-edge/src/store.ts:159-210 | While a waiter lives, the codes its calls returned followed by the codes queued are the codes the run's own pushes brought since it registered, in order, each once. |
| MailWaiters.PushQueuesAndWakes | rust/vtop-edge/src/store.ts:159-167 | A push adds its code to the end of the waiter's queue and wakes exactly the calls parked on its key; without a waiter it does nothing. |
| MailWaiters.RegisterKeepsWaiters | rust/vtop-edge/src/store.ts:173-187 | A call makes an empty waiter for five minutes where its key has none, and leaves every waiter there is. |
| MailWaiters.EmptyOnlyAfterWait | rust/vtop-edge/src/store.ts:188-209 | In every interleaving, a call that comes back without a code does so in a turn after the time it asked for, thirty seconds at most, counted from its first look. |
| MailWaiters.TimedOutReturns | rust/vtop-edge/src/store.ts:196-209 | A parked call whose time runs out returns at its next turn, and disturbs no other call. |
| MailWaiters.OthersStayRegistered | rust/vtop-edge/src/store.ts:200-208 | A step leaves every parked call parked and registered, unless it is its own time-out or a push on its key: one wait's clean-up never drops another's. |
| MailWaiters.AnswersComeInOrder | rust/vtop-edge/src/store.ts:173-210 | A call returns with the oldest queued code of its key, or without one only after its deadline and with none queued. |
| MailWaiters.Mailbox.WaiterResult | rust/vtop-edge/src/store.ts:159-167 | For a registered key the code goes to the end of its queue, every call parked on it is woken and no other, and every other waiter stays; otherwise nothing changes. |
| MailWaiters.Mailbox.Waiters | rust/vtop-edge/src/store.ts:153-156 | Drops the expired waiters, and gives all the others as they were. |
| MailWaiters.Mailbox.RegisterWaiter | rust/vtop-edge/src/store.ts:173-187 | Registers an empty waiter for five minutes exactly when the key has none, so a wait made again keeps its queue. |
| MailWaiters.Mailbox.FirstLook | rust/vtop-edge/src/store.ts:188-209 | The first turn of the loop takes a code, gives up, or parks under a new token. |
| MailWaiters.Mailbox.LookAgain | rust/vtop-edge/src/store.ts:188-209 | A later turn takes back the call's own registration first. |
| Mailboxes.NextExpiryIsLast | rust/vtop-edge/src/state.ts:140-143 | The alarm time is a second after the last box's lifetime, and none when no box is stored. |
| Mailboxes.BoxesAreGuarded | rust/vtop-edge/src/store.ts:88-132 | Over every run of saves, deliveries and alarms, while any box is stored an alarm is pending at or after its expiry. |
| Mailboxes.AlarmClearsEveryBox | rust/vtop-edge/src/store.ts:128-132 | One alarm clears every box, and none of them could still be collected. |
| Mailboxes.BoxesReachInstalls | rust/vtop-edge/src/store.ts:106-120 | After a delivery the first member of each install can collect the last box for it for five minutes and no longer; every other member is as it was. |
| Mailboxes.Trimmed | rust/vtop-edge/src/state.ts:110-116 | Installs are dropped only while there is no room and no more than must be, only ones seen no later than all that stay, and the rest keep their order. |
| Mailboxes.Added | rust/vtop-edge/src/state.ts:110-116 | The new install is last; the others stay, but for its own earlier entry, quiet ones and those there is no room for. |
| Mailboxes.Fresh | rust/vtop-edge/src/state.ts:110-116 | Before that, the install's own entry and those quiet for sixty days go, and no others; the rest keep their order. |
| Mailboxes.LeastRecent | rust/vtop-edge/src/state.ts:98-105 | The position found is that of an install seen no later than every other. |
| Mailboxes.MailboxObject.SaveDoc | rust/vtop-edge/src/store.ts:88-94 | Stores the mailbox and sets the alarm a second after its last box's lifetime, or a second ahead when that is past; without a box the alarm stays. |
| Mailboxes.MailboxObject.Create | rust/vtop-edge/src/store.ts:98-102 | Stores it only when the address is free. |
| Mailboxes.MailboxObject.DeliverBoxes | rust/vtop-edge/src/store.ts:106-120 | Puts the last box for each install with its first member, changes no other member, and sets the alarm; false without a mailbox. |
| Mailboxes.MailboxObject.OnAlarm | rust/vtop-edge/src/store.ts:128-132 | Clears what can no longer be collected. |
| MailRoutes.StepKeepsInvariant | rust/vtop-edge/src/index.ts:257-416 | Every mail route keeps: the index maps a student to a mailbox exactly when that mailbox exists and names the student, and every mailbox has a member. |
| MailRoutes.IndexAndMailboxesAgree | rust/vtop-edge/src/index.ts:257-416 | So over every run no index entry dangles and no student has two live addresses. |
| MailRoutes.ClaimedIsReclaimed | rust/vtop-edge/src/index.ts:371-416 | A claim is refused exactly when the student has another live address; one that goes through is what a new phone finds again, and joins; the members stay. |
| MailRoutes.OpensForMembers | rust/vtop-edge/src/index.ts:167-176 | An id and a secret open a mailbox exactly when it is there and a member has the secret; it is the first that has, and only when it was seen changes, once an hour. |
| MailRoutes.RegisterOpens | rust/vtop-edge/src/index.ts:257-283 | A new address goes under an id nobody has, with its first member alone, whose secret opens it; none is made exactly when all the ids are taken. |
| MailRoutes.UpdateChangesOwn | rust/vtop-edge/src/index.ts:285-312 | An update changes the caller's own entry as asked and no other, and a new key drops the box sealed for the old one; nothing asked is a bad request. |
| MailRoutes.DeleteLeavesOthers | rust/vtop-edge/src/index.ts:314-329 | Leaving an address takes out the caller: their secret opens nothing, every other member is as before, in order, and opens it with their own; by the last one, or for all, the address and its index entry go and nothing else. |
| MailRoutes.RemoveTakesOther | rust/vtop-edge/src/index.ts:346-360 | Taking out an install: unknown when no member has it, refused when the caller is the first that has, else that first member goes and its secret opens nothing, with all others as before. |
| MailRoutes.ReclaimJoins | rust/vtop-edge/src/index.ts:394-416 | A student signed in joins exactly when they own a live address, that one, and the new secret opens it. |
| MailRoutes.MailIsCollected | rust/vtop-edge/src/store.ts:106-120 | A code that comes by mail for an install is what its member finds with their secret, for five minutes. |
| MailRoutes.OtherMailboxesStay | rust/vtop-edge/src/index.ts:257-416 | A route leaves every other mailbox as it is, and only a claim and leaving touch the index. |
| MailRoutes.MailWorker.MailRegister | rust/vtop-edge/src/index.ts:257-283 | The loop over three random ids makes a mailbox under the first free one, or none. |
| MailRoutes.MailWorker.MailOwner | rust/vtop-edge/src/index.ts:371-390 | Claims the address as the route says, replies included. |
| MailRoutes.MailWorker.MailReclaim | rust/vtop-edge/src/index.ts:394-416 | Joins the student's address as the route says, replies included. |
| MailRoutes.MailWorker.MailDelete | rust/vtop-edge/src/index.ts:314-329 | Takes out the caller's own member and nobody else, or the address with its index entry when asked or when the last member goes. |
| MailRoutes.MailWorker.MailRemoveDevice | rust/vtop-edge/src/index.ts:346-360 | Takes out the first member of another install and nobody else, never the caller. |
| MailRoutes.MailWorker.Open | rust/vtop-edge/src/index.ts:167-176 | The id and secret open the mailbox of that member, and the visit is recorded at most once an hour. |
| KeyRotation.RotationsAreMondays | rust/vtop-edge/src/udp-gateway.ts:28-35 | The shared number is 2024-01-07 18:30 UTC by the calendar proved above, and every instant weeks from it is a Monday 00:00 IST. |
| KeyRotation.NextMondayIsNext | rust/vtop-edge/src/udp-gateway.ts:33-35 | The next rotation is one, later than now, and within a week. |
| KeyRotation.KeysOverAnyRun | rust/vtop-edge/src/udp-gateway.ts:46-75 | Over every run of calls at times that do not go back: one or two keys, the first current until the next Monday, distinct Mondays for all, and a key ever made is held exactly until a week after its own. |
| KeyRotation.CallsKeepCurrent | rust/vtop-edge/src/udp-gateway.ts:46-75 | After every call the newest key is good until the next Monday, and what is held is it and the one before while its week after lasts. |
| KeyRotation.UdpKeys.CurrentKeys | rust/vtop-edge/src/udp-gateway.ts:64-75 | The stored keys become what the call gives, which is one step of that run. |
| KeyAsking.CheckFollowsSchedule | rust/vtop-gateway/src/lib.rs:61-65 | The gateway's own formula is the edge's schedule half a minute late, or six hours if sooner: at every time from the shared Monday on, and before it exactly when the next rotation is that far. |
| KeyAsking.CheckIsBounded | rust/vtop-gateway/src/lib.rs:61-65 | The wait is more than half a minute and at most six hours. |
| KeyAsking.AsksMoveForward | rust/vtop-gateway/src/lib.rs:125-145 | Over every run of answered asks each is later than the one before, and within six hours and a late sleep of it. |
| KeyAsking.AskedAfterEachRotation | rust/vtop-gateway/src/lib.rs:125-145 | Each rotation of the edge's schedule is asked for in the half minute after it, exactly when no ask was under way at that instant. |
| KeyAsking.StraddledAskWaits | rust/vtop-gateway/src/lib.rs:125-145 | After an ask under way at a rotation the next comes six hours after its answer, or half a minute after the following rotation if sooner. |
| KeyAsking.RotationCanBeMissed | rust/vtop-gateway/src/lib.rs:125-145 | At every rotation there is a run, with an ask sent ten seconds before it and answered five after, that asks next six hours later. |
| KeyAsking.GatewayKeyIsCurrent | rust/vtop-gateway/src/lib.rs:125-145 | With answers at once, the newest key the gateway was given is the edge's own current key, whatever other calls the edge had since, at all times but the half minute after a rotation. |
| KeyAsking.SameMondaySameKey | rust/vtop-edge/src/udp-gateway.ts:46-75 | Two calls of a run before the same rotation find the same current key. |
| SessionCache.StepKeepsInvariant | rust/vtop-gateway/src/lib.rs:477-532 | Keeping, hitting, missing and sweeping keep the cache within its bound and equal to the last session kept for each device it holds. |
| SessionCache.HitsAreLatest | rust/vtop-gateway/src/lib.rs:477-532 | Over every run a request with only a hash is served exactly the session and account the run's own steps last kept for the device, used within six hours. |
| SessionCache.KeepEvictsLeastRecent | rust/vtop-gateway/src/lib.rs:504-532 | The device just kept is present with what it was kept with; another goes only when a new device meets a full cache, used no later than all that stay; the rest are unchanged. |
| SessionCache.CachedUntilEvictedOrSwept | rust/vtop-gateway/src/lib.rs:277-280 | A device is missing only once evicted or swept after six hours unused. |
| SessionCache.SweepDropsUnused | rust/vtop-gateway/src/lib.rs:277-280 | A sweep drops exactly the devices the run's own steps kept or used last six hours ago or longer. |
| SessionCache.Gateway.Session | rust/vtop-gateway/src/lib.rs:477-502 | What is found for a request, and the step of the cache it makes: a session sent is kept under its hash, a hash alone must match. |
| SessionCache.Gateway.KeepSession | rust/vtop-gateway/src/lib.rs:504-532 | Keeping is a step of the cache, evicting the stalest only when a new device meets a full cache. |
| SessionCache.Gateway.Stalest | rust/vtop-gateway/src/lib.rs:512-521 | The device found was used no later than every other. |
| SessionCache.Gateway.SweepStale | rust/vtop-gateway/src/lib.rs:277-280 | Drops exactly what was not used for six hours, and leaves the rest as it was. |
| PageFetch.Phone.FetchPage | rust/src/api/wire.rs:96-161 | Whatever the phone remembers and the gateway forgot, replaced or evicted, a fetch with a well-formed session ends in one or two exchanges (two exactly when the phone counted on a session not found), is never refused for its session at the end, is first fetched on the session sent or on one kept under its hash, and renewed when expired with the account sent or kept; what the phone then remembers, the gateway holds. |
| PageFetch.CountedOnForFiveHours | rust/src/api/wire.rs:221-229 | A session sent is counted on for five hours, an hour less than the gateway keeps it. |
| PageFetch.ExpiredIsRenewed | rust/vtop-gateway/src/lib.rs:329-413 | Whatever the gateway holds: with an account, sent along or kept, an expired answer is followed by a sign-in, and a new session by one more fetch on it, which goes back with the answer and is kept under its hash; a refused sign-in is a 401, everything else the first answer; a session not found is asked for with nothing fetched. |
| PageFetch.PageOfRequest | rust/vtop-gateway/src/lib.rs:321-417 | On the gateway's own cache a request is answered, fetched, and the device's entry left, as a processed request is described; on whichever session and account it runs, an expired one is renewed exactly as it should be. |
| PageFetch.NextFetchNeedsOne | rust/src/api/wire.rs:221-229 | What the phone remembers is found by every fetch that still counts on it, through any run of the gateway's cache, sweeps included, in which the device is neither evicted nor kept with something else; so the fetch needs one exchange. |
| EventLog.PagesPromise | rust/vtop-edge/src/device.ts:120-127 | A page holds the stored events after the cursor in strictly increasing order, leaves none out in between, and is cut short only at a hundred. |
| EventLog.StepKeepsInvariant | rust/vtop-edge/src/device.ts:120-214 | Appends, alarms, reads and socket deliveries keep numbering, retention and the reader's order. |
| EventLog.LogOverAnyRun | rust/vtop-edge/src/device.ts:131-163 | Over every run the events stored and received are those the run's own steps log, the n-th with number n, what arrives is in strictly increasing order, and an event a day old or younger is still stored. |
| EventLog.NothingStaysTwoDays | rust/vtop-edge/src/device.ts:207-214 | With alarms on time nothing is stored longer than two days and a second; with late ones, than that and the lateness. |
| EventLog.SkippedOnlyBehindStream | rust/vtop-edge/src/device.ts:183-204 | A step makes the reader miss a stored event exactly when an event is logged while a socket is open whose first page left some behind. |
| EventLog.ReadLeaves | rust/vtop-edge/src/device.ts:120-127 | What waits after a page is what waited beyond it; a whole page leaves some behind exactly when more than a hundred waited. |
| EventLog.ConnectThenAppend | rust/vtop-edge/src/device.ts:183-204 | So the next event after a connect skips something exactly when more than a page was waiting. |
| EventLog.FirstSocketSkips | rust/vtop-edge/src/device.ts:183-204 | That happens to the first socket onto `n` events exactly for `n` above a hundred. |
| EventLog.SkippedForGood | rust/vtop-edge/src/device.ts:120-127 | A number gone past without its event never gets it later, in any run. |
| EventLog.NothingIsMissed | rust/vtop-edge/src/device.ts:120-163 | In every run without such a step, all stored events gone past have arrived; once nothing waits, so has every event of the last day. |
| EventLog.ReadingEnds | rust/vtop-edge/src/device.ts:120-127 | With nothing more logged, `k` pages deliver exactly the first `100 k` events that waited, or all of them. |
| EventLog.Device.Append | rust/vtop-edge/src/device.ts:131-163 | Stores the event with its second and text under the next number, sets an alarm a day ahead if none is pending, and gives the number; none without an install. |
| EventLog.Device.Page | rust/vtop-edge/src/device.ts:120-127 | Gives a page as promised. |
| EventLog.Device.OnAlarm | rust/vtop-edge/src/device.ts:207-214 | Drops exactly what is older than a day and comes again in a day while anything is left. |

## Left out

- HTTP, UDP sockets, Noise, push messages, Gmail and VTOP: their replies are inputs of the steps, and every reply is covered.
- Encryption, sealing, hashing and JSON: a sealed text, a secret's hash and a session's hash are values; `hashOf` and `readJson` are any functions shared by phone and gateway.
- SessionRuns.EndedForever: `startSession` and `appLogin` are two steps each, around their network calls; `loginDone`, `alarm` and `answer` are one step each, so what they write over after their own network calls is not covered.
- AccountMerging.DisjointSavesCommute: equal up to the time of saving, which every save writes; deleting an account is not modelled.
- AccountStore.AccountDb.WriteChanges: the rows of sign-in and key-use history are no part of the tables here.
- AccountStore.AccountDb.WriteAccount: nor here.
- AccountStore.AccountDb.SaveAccount: nor is the pruning of that history to its latest ten.
- AccountRecords.AccountRecord.TouchKey: the use it adds to the key's latest ten uses.
- AccountObject.Account.EngineDone: the history row it adds, and the event to all phones when a password was rejected.
- AccountObject.Account.PhoneAnswered: the history row it adds, the push token it passes on, and whether credentials could be sealed, which is an input.
- LimitOverSaves.AllCountIsLimited: a call is counted at its save; calls still waiting have been answered nothing yet.
- MailRoutes.IndexAndMailboxesAgree: each mail route is one step, though it saves its objects one after another; two routes between each other's saves are not covered.
- MailRoutes.DeleteLeavesOthers: what becomes of the others is said for members whose secrets' hashes differ, as those of random secrets do; so for RemoveTakesOther and MailIsCollected, and for a new member's own secret in ReclaimJoins.
- MailWaiters.Mailbox.RegisterWaiter: the alarm it sets for the waiter is a step of `Mailboxes`, and the empty reply without an address is not modelled.
- MailWaiters.CodesAreConserved: only while the waiter lives, as an expired waiter is dropped with its queue; matching a mail to waiters by owner and time is an input.
- KeyRotation.KeysOverAnyRun: each call is one step. The source waits for a new key's generation between reading and storing the keys; two calls that overlap at a rotation would each make one, and the later store would drop the other's.
- MailWaiters.StepKeepsInvariant: wiping an address empties the waiters here; what else it wipes is a step of `Mailboxes`.
- KeyAsking.AskedAfterEachRotation: every ask in the run is answered; one that fails is made again after a minute, and the loop before the first answer is not modelled. A sleep may end up to an hour late.
- PageFetch.Phone.FetchPage: both exchanges are processed and their answers fit; a lost packet, and the answers for a busy gateway, an unsupported request or one too large, are not modelled.
- EventLog.Device.Append: one step, though it waits for its alarm between storing the event and sending it to sockets; the push message sent last is not modelled.
- EventLog.NothingIsMissed: the app's reading through its cursor; the push message sent beside each event, which the app applies without moving the cursor, the app's list of numbers already handled, and the push token are not modelled.
- DateText.TodayParses: the clock is a number of whole days, and texts are bytes, one character a byte.
- Cookies.HeaderReadsBack: the fields a browser cookie has beside its name, value and number are constants in the source and are left out.
- Cookies.ParseCookiePairs: white space is a set of single characters on each side; texts are not normalised.
- `poll`, `expire` and the app's own operations on the record: they read, or edit the record a step takes as loaded.
- The table of error replies, the views sent to clients, checks of labels and ids, and the deadline of `appLogin`'s polling: one branch each.
- `decode_quoted_printable`, the reading of HTML mail, the captcha solver and the browser extension.
