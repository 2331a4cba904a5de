# pass-checker in Dafny

pass-checker polls the PASS booking site for an available calendar slot. It uses one script, `check_pass.py`. Each run does the following:

- logs in with a browser;
- reads the calendar text;
- decides whether days are available (the page no longer says "geen dagen gevonden" or one of its variants);
- optionally books the topmost "Schedule" slot;
- records what it saw in `state.json`;
- notifies the owner and a friend over Telegram, falling back to printing.

This project models the decision logic of that script, with the browser, the HTTP client, the clock and the disk replaced by inputs. It proves what each part promises:

- **Availability** (`availability.dfy`). The case-insensitive "no days" search. It is proved equivalent to "the text contains one of the three phrases, with whitespace runs between the words".
- **Fingerprint** (`fingerprint.dfy`). `normalize` and `calc_hash`.
  - Whitespace collapsing is modelled, and the three token-deleting `re.sub` passes are modelled as scans over the text.
  - The output never starts or ends in whitespace.
  - Replacing one whitespace-delimited clock time or date by another leaves the fingerprint unchanged.
  - `normalize` is not idempotent.
- **Resolver** (`resolver.dfy`). `first_present` and `try_click_any` as one loop. It returns the first candidate whose probe succeeds.
- **StableSort** and **Ranking** (`stablesort.dfy`, `ranking.dfy`). `find_schedule_buttons_sorted`:
  - it collects up to 50 controls per selector, selector by selector;
  - it then sorts them stably by their y coordinate, with 1e9 for a control that cannot be measured;
  - the result is proved sorted, a permutation of what was collected, and stable.
- **Booking** (`booking.dfy`). `auto_book_top_schedule`: one click on the top control, an optional confirmation click, then a success-word test on the lower-cased page body.
- **Notify** (`notify.dfy`). `notify_self`, `notify_friend` and `notify_both`: who receives which prefixed message, and when the message is printed instead.
- **Cycle** (`cycle.dfy`). `run_check`:
  - when it exits or crashes;
  - when it tries to book;
  - the state it saves, where `booked` is sticky and other keys are kept;
  - the notifications it makes. Availability is announced only on the transition from unavailable to available, with one exception: after a successful booking the friend is told there are spots even when days were already available.

The model follows the code in these details:

- a failed click on the top control is not retried;
- the confirmation step runs once;
- a Telegram call that returns any HTTP response, including an error status, counts as sent;
- the `booking_result is None` branch of `run_check` is unreachable. `Cycle.Announce` proves this with `assert false`;
- loading the state never raises, but a `state.json` holding a JSON value that is not an object makes the first `state.get` raise. The cycle then ends with an exception.

## Model

| member | source | states |
|---|---|---|
| Availability.HasAvailabilityIff | check_pass.py:33-39 | `HasAvailability(t)`, the scan that models `has_availability(t)`, is false exactly when `t` contains, ignoring case, "geen", "dagen", "gevonden"/"beschikbaar" or "no", "days", "found", with a non-empty whitespace run between the words |
| Availability.SearchFromIff | check_pass.py:38-39 | the scanning search from position `i` succeeds iff one of the phrases starts at some position at or after `i` |
| Availability.NoDaysExample | check_pass.py:33-39 | "Geen dagen gevonden." shows no availability |
| Availability.SlotsExample | check_pass.py:33-39 | "3 slots open" shows availability |
| Chars.LowerStr | check_pass.py:226 | `.lower()` keeps the length and lower-cases each ASCII letter |
| Fingerprint.Collapse | check_pass.py:79 | collapsing whitespace runs gives the empty text only for the empty text and keeps whether the text starts and ends with whitespace |
| Fingerprint.CollapseSingleSpaced | check_pass.py:79 | after collapsing, every whitespace character is a plain space and none is followed by another |
| Fingerprint.CollapseKeepsText | check_pass.py:79 | collapsing keeps every non-whitespace character, in order |
| Fingerprint.Strip | check_pass.py:83 | `strip()`, computed from the end of the leading whitespace run (`Chars.SkipSpaces`) and the start of the trailing one (`TrailStart`), gives a slice of the input with no whitespace at either end and only whitespace cut off on both sides |
| Fingerprint.MatchLen | check_pass.py:80-82 | a token pattern matches only at a word boundary, from a digit to a digit, and is followed by a word boundary |
| Fingerprint.MatchIsToken | check_pass.py:80-82 | whatever a pattern matches, and so whatever a pass deletes, is a whole time, ISO date or D/M/Y date token of that pattern (the converse of `TokenMatches`) |
| Fingerprint.TokenMatches | check_pass.py:80-82 | a whole time, ISO date or D/M/Y date followed by whitespace or the end of the text is matched in full by its pattern |
| Fingerprint.RemoveToken | check_pass.py:80-82 | such a token at the start of the text is deleted and the rest is scanned as if it were not there |
| Fingerprint.RemovePass | check_pass.py:80-82 | for `Remove`, the left-to-right scan that models one `re.sub` pass: text in which no match starts is passed through unchanged |
| Fingerprint.RemoveSplitAny | check_pass.py:80-82 | a token-deleting pass works independently on the two sides of a split just after whitespace |
| Fingerprint.RemoveDatesToken | check_pass.py:81-82 | an ISO or D/M/Y date followed by whitespace is deleted by the two date passes |
| Fingerprint.TokenVanishes | check_pass.py:80-82 | under `RemoveVolatile`, the three passes in order, a time or date between whitespace vanishes and the text on either side is processed independently |
| Fingerprint.Normalize | check_pass.py:78-83 | the normalized text has no leading or trailing whitespace |
| Fingerprint.NormalizeIgnoresToken | check_pass.py:78-83 | two texts that differ only in one whitespace-delimited time or date token normalize equally |
| Fingerprint.CalcHashIgnoresToken | check_pass.py:85-86 | `CalcHash`, the digest of the normalized text, is equal for two texts that differ only in one whitespace-delimited time or date token |
| Fingerprint.NormalizeDropsClock | check_pass.py:78-83 | "Available 14:32" normalizes to "Available" |
| Fingerprint.ClockDoesNotChangeHash | check_pass.py:85-86 | "Available 14:32" and "Available 09:05" have the same hash |
| Fingerprint.NormalizeNotIdempotent | check_pass.py:78-83 | "a 1:00 b" normalizes to "a  b", which normalizes again to "a b" |
| Fingerprint.TokenNeedsWhitespace | check_pass.py:80-83 | "5.12:30" and "5.9:05" differ in one word-bounded time token yet normalize to "" and "5." |
| Resolver.FirstSuccess | check_pass.py:99-115 | returns the first candidate whose probe succeeds, having probed exactly the candidates up to it; returns None, having probed all of them, iff every probe fails |
| Resolver.FirstSuccessUnique | check_pass.py:99-115 | the first-success condition determines the result |
| Resolver.NothingToTry | check_pass.py:99-106 | an empty candidate list finds nothing |
| Resolver.FallbacksDoNotOverride | check_pass.py:99-115 | candidates appended after a successful one do not change the result |
| StableSort.SortBySorted | check_pass.py:200 | `SortBy`, the insertion sort that models `sorted(..., key=...)`, yields non-decreasing keys |
| StableSort.SortByPermutes | check_pass.py:200 | the sorted list is a permutation of the input |
| StableSort.SortByStable | check_pass.py:200 | the elements with any one key keep their input order |
| StableSort.TopRanked | check_pass.py:200 | the first sorted element has the least key and is the earliest input element with that key |
| Ranking.YOf | check_pass.py:193-198 | the sort key is the box's y, or 1e9 when there is no box or measuring fails |
| Ranking.Taken | check_pass.py:184-190 | a selector contributes `min(count, 50)` controls, none when counting raises |
| Ranking.Matches | check_pass.py:185-188 | a selector's controls are its matches 0, 1, … in index order |
| Ranking.FindScheduleButtonsSorted | check_pass.py:169-201 | the nested collection loops build exactly the collected list, which is then stably sorted by key |
| Ranking.CollectedMember | check_pass.py:182-190 | a control is collected iff its selector is listed and its index is below what that selector contributes |
| Ranking.CollectedBound | check_pass.py:184-190 | at most 50 controls are collected per listed selector: each selector's own matches number at most 50, and the whole list at most 50 × the number of selectors |
| Ranking.CollectedOrder | check_pass.py:182-190 | for distinct selectors, collection order is by selector, then by index |
| Ranking.ScheduleCollectionOrder | check_pass.py:175-190 | the five schedule selectors are collected in that order, at most 250 controls |
| Ranking.RankedPermutes | check_pass.py:200-201 | the ranked controls are the collected ones, reordered |
| Ranking.RankedTopDown | check_pass.py:192-201 | the ranked controls go top to bottom |
| Ranking.RankedStable | check_pass.py:200 | controls at the same height keep their collection order |
| Ranking.MeasuredBeforeUnmeasured | check_pass.py:193-200 | a control whose box has y below 1e9 is ranked before every control without a usable box |
| Booking.AnyWordIn | check_pass.py:229-230 | the success test holds iff some success word is a substring of the body |
| Booking.BookTop | check_pass.py:203-231 | no buttons gives `{false, "no-schedule-buttons"}`; otherwise the attempt raises iff the top click or the wait fails, succeeds iff a success word is in the lower-cased body, and the reason is "ok" iff success |
| Booking.AutoBookTopSchedule | check_pass.py:203-231 | computes that outcome, clicks nothing without buttons, otherwise clicks the top-ranked control, and takes the first confirmation button that responds |
| Booking.UnreadBodyIsNoSuccess | check_pass.py:224-231 | a body that cannot be read gives no success and a reason other than "ok"; when there was a control to click, the reason is exactly "no-success-text" |
| Booking.SuccessIgnoresCase | check_pass.py:226 | a body is judged the same as its lower-case form |
| Booking.BookedExample | check_pass.py:224-231 | a body reading "GEBOEKT" is a success with reason "ok" |
| Notify.Prefixed | check_pass.py:56 | the sent text is always the prefix followed by the message, whether or not the prefix is empty |
| Notify.Attempt | check_pass.py:41-50 | a send goes to its recipient with the prefixed text and is delivered iff the post of that text does not raise |
| Notify.OwnerNotice | check_pass.py:64-70 | `notify_self` sends only to the owner and every effect carries the message |
| Notify.FriendNotice | check_pass.py:72-76 | `notify_friend` sends only to the friend and every effect carries the message |
| Notify.BothNotice | check_pass.py:52-62 | every effect of `notify_both` carries the message |
| Notify.NotifySelf | check_pass.py:64-70 | does what `OwnerNotice` describes |
| Notify.NotifyFriend | check_pass.py:72-76 | does what `FriendNotice` describes |
| Notify.NotifyBoth | check_pass.py:52-62 | does what `BothNotice` describes, with `any_sent` equal to "some send was delivered" |
| Notify.OwnerNoticeRouting | check_pass.py:64-70 | the owner gets the prefixed message iff configured, the friend nothing, and the bare message is printed iff no send was delivered, which is iff the owner is unconfigured or its post raises |
| Notify.FriendNoticeRouting | check_pass.py:72-76 | nothing happens when the friend is unconfigured; otherwise the friend gets the prefixed message and the bare message is printed iff that send failed, which is iff its post raises |
| Notify.BothNoticeRouting | check_pass.py:52-62 | each configured recipient gets its prefixed message whatever the other send did, and the bare message is printed iff no send was delivered, which is iff no configured recipient's post succeeds |
| Notify.BothNoticeUnconfigured | check_pass.py:52-62 | with no recipient configured, `notify_both` only prints |
| Cycle.LoadState | check_pass.py:88-94 | a missing or unreadable state file is the empty state; a JSON object loads as its own entries; a JSON document that is not an object makes the first `state.get` fail |
| Cycle.Updated | check_pass.py:290-297 | the saved state has `last_seen`, `available` and `calendar_hash` set, has `booked` true after a booking, and keeps every other entry |
| Cycle.Announce | check_pass.py:296-325 | makes the notifications `CycleNotices` describes (the decision of check_pass.py:296-325 as a function), and the no-button branch is unreachable |
| Cycle.RunCheck | check_pass.py:234-325 | exits iff user, password or base URL is missing; crashes without saving iff the state is not an object, the browser phase fails or booking raises; tries to book iff auto-booking is on, nothing is booked and days are available; otherwise saves the updated state and then notifies |
| Cycle.Conclude | check_pass.py:266-325 | once the calendar text is read: tries to book iff auto-booking is on, nothing is booked and days are available; raises iff that attempt raises; otherwise saves the updated loaded state and makes the cycle's notifications for the booking result |
| Cycle.NextCycleSees | check_pass.py:239-297 | the next cycle sees `available` as this cycle's availability, and once `booked` is set it stays set and booking is never tried again |
| Cycle.RetryAfterFailure | check_pass.py:269-297 | a cycle that did not book leaves the next cycle free to try again |
| Cycle.SuccessNotices | check_pass.py:296-301 | after a successful booking the owner gets only the booked message and the friend only the spots message, with no test ping; the booked message is printed when the owner's send is not delivered, then the spots message when the friend is configured and that send is not delivered, and nothing else is printed (no info line); no send to the friend precedes a send to the owner |
| Cycle.QuietWithoutTransition | check_pass.py:305-325 | when no booking succeeded and there is no transition to available, the only Telegram message is the test ping and the cycle ends with the info line; while days stay available nothing but the info line is produced |
| Cycle.TestPingSent | check_pass.py:305-325 | in test mode, when no booking succeeded and no days are available, each configured recipient is sent its prefix and the test ping, the ping is printed iff neither post succeeds, and the info line is printed last |
| Cycle.FailureReported | check_pass.py:312-316 | a failed booking on the transition warns the owner with the reason and tells the friend there are spots; the warning is printed when the owner's send is not delivered, then the spots message when the friend is configured and that send is not delivered |
| Cycle.BroadcastWithoutAutoBook | check_pass.py:321-323 | with auto-booking off or already booked, the transition is announced to both recipients and printed iff no send was delivered |
| Cycle.FriendHearsOnlyAvailability | check_pass.py:296-323 | the friend only ever receives the spots message, the days-available message or the test ping |

## Left out

- Browser driving is not modelled. This covers `login`, `extract_calendar_text` and `read_calendar_resilient`, the navigation to the calendar (including its `try_click_any`), browser and context setup and teardown, waits, timeouts, and the screenshot and HTML capture on failure. A cycle instead receives either a browser failure or the calendar text and the booking page. Probes, clicks, counts and measurements are inputs.
- `requests.post` is modelled as a function from recipient and text to "did not raise". The token, chat id and endpoint URL do not influence that outcome.
- SHA-256 in `calc_hash` is a digest function passed as a parameter.
- `load_dotenv` and `os.getenv` are not modelled. The configuration is a record in which an unset variable is the empty string, and the two flags are already booleans. Parsing `"true"` case-insensitively is not modelled. `HEADLESS`, `CALENDAR_URL` and `CALENDAR_SELECTOR` only steer the browser.
- `save_state` and JSON serialization are not modelled. The saved state is the `saved` field of a normal outcome. A state value is a boolean, a string, or another JSON value known only by its truthiness.
- `datetime.now()` is not modelled. `last_seen` is an opaque input string.
- The messages of `SystemExit` and `RuntimeError` are not modelled; only the reason for ending is.
- Ranking.YOf: a y coordinate is an integer. A fractional y is not modelled. As in the source, a y of exactly 1e9 ties with the sentinel, and a larger y ranks after every control without a box.
- Regex classes and case handling use ASCII semantics. `\s` is the ASCII `str.isspace` set; `\d`, `\w` and `\b` are ASCII; `re.I` and `.lower()` fold only A–Z. Unicode digits, letters and spaces are not modelled.
- Fingerprint.CalcHashIgnoresToken is weaker than "texts differing in one word-bounded token hash equally", for the same reason as NormalizeIgnoresToken below: it requires whitespace or the text's edge on both sides of the token.
- Fingerprint.NormalizeIgnoresToken is weaker than "texts differing in one word-bounded token normalize equally". It requires whitespace or the text's edge on both sides of the token. The stronger statement is false: Fingerprint.TokenNeedsWhitespace gives two texts that differ only in a word-bounded time token and still normalize differently.
- Fingerprint.RemoveSplitAny and the other token lemmas describe each pass on its own text. Time and date tokens directly adjacent to other digits or punctuation are covered only by the definitions, not by a lemma.
