# doctor-go core, modelled in Dafny

This project models the logic of the doctor-go clinic app and proves properties of it. doctor-go is a React front end with a mock service layer, plus an Express/SQL back end. Four subsystems are modelled.

- **Walk-in queue.**
  - The service layer keeps a list of queue entries and a `queueLength` counter on each doctor (`MockApi.MockStore`).
  - The back end inserts and lists rows of a `queue` table (`QueueRoute`).
  - The directory route counts a doctor's waiting rows (`DoctorsRoute`).
  - The queue display numbers the waiting list (`QueueDisplay`).
  - The counter is proved to stay equal to the number of waiting entries and never to go negative.
  - Invitation is proved FIFO by join time, with ties going to the entry stored first.
- **Appointment ledger.**
  - The service layer books, lists and re-statuses appointments and consumes a slot (`MockApi.MockStore`).
  - The back end validates input and checks ownership, in the order 400, then 404, then 403 (`AppointmentsRoute`).
  - The list component fixes the display order and which actions are shown (`AppointmentList`).
- **Keyword recommendations.**
  - Keywords of a specialty are matched as substrings of the lower-cased query (`Matching`).
  - Each doctor is scored by the rounded percentage of its keywords that matched.
  - Doctors that match nothing are dropped, and the rest are ranked by score, keeping the top three.
  - The client version falls back to a General Practice doctor (`ClientRecommendations`). The back end, which has a smaller table, has no fallback (`BackendRecommendation`).
  - The keyword table and the initial lists are in `MockData`.
- **Directory filters.** These are the service layer's `getDoctors` (`MockApi`), the SQL `LIKE` filters (`DoctorsRoute`) and the doctors page's filter effect (`DoctorsPage`).

Shared pieces:
- `Seqs` holds `filter` and `findIndex`.
- `StableSort` holds `Array.prototype.sort` with a key comparator. Because that sort is stable, it has exactly one possible result (`StableSortIsUnique`).
- `Text` holds `toLowerCase`, `includes` and `join`.
- `Store` holds the database: tables as sequences of rows, and auto-increment counters for ids.

Behaviour of the code worth knowing:
- The service layer's `getQueue` returns waiting entries in stored order and does not sort them by join time. Only `inviteNextPatient` and the back end's listing order by join time.
- The back end's join does not check that the doctor exists.
- When no doctor matches, the client suggests the *first* General Practice doctor of the roster; the back end suggests nobody.
- Keywords are matched as substrings of the query, so "I have chest pain" matches the Cardiology keyword "chest pain" and no other Cardiology keyword.
- The appointment list is sorted earliest first, although the comment above the sort says "most recent first".

## Model

| member | source | states |
|---|---|---|
| `MockData.TableSpecialties` | src/data/mockData.ts:9-15 | the keyword table has exactly the five specialties General Practice, Cardiology, Pediatrics, Dermatology, Orthopedics |
| `MockData.KeywordListSizes` | src/data/mockData.ts:10-14 | the lists have 9, 7, 8, 8, 9 keywords; every list is non-empty, so the score's denominator is never 0 |
| `MockData.KeywordsAreLowerCase` | src/data/mockData.ts:10-14 | every keyword is unchanged by lower-casing, so a lower-cased query can match it |
| `MockData.CardiologyHasHeartAndChestPain` | src/data/mockData.ts:11 | "heart" and "chest pain" are Cardiology keywords |
| `MockData.InitialListsEmpty` | src/data/mockData.ts:18-22 | the doctor, appointment and queue lists start empty |
| `Matching.MatchedKeywordsSpec` | src/services/api.ts:263-266 | a keyword is matched iff it is in the specialty's list and occurs in the query; matches keep table order |
| `Matching.EmptyQueryMatchesNothing` | backend/routes/recommendation.js:13-17 | the empty query matches no non-empty keyword |
| `Matching.MatchScore` | src/services/api.ts:269 | the score is 0 with no match, otherwise 100·matched/total rounded half up (stated as a two-sided bound, not as the formula) |
| `Matching.ScoreBounds` | backend/routes/recommendation.js:18 | any match scores between 1 and 100, and matching every keyword scores 100 |
| `Matching.TopThreeShape` | src/services/api.ts:281-282 | the ranking keeps min(n, 3) items, non-increasing by score, drawn from the input |
| `Matching.TopThreeDominates` | src/services/api.ts:281-282 | no left-out item outscores a kept one |
| `Matching.TopThreeStable` | backend/routes/recommendation.js:19 | the kept items of each score are the first ones of that score in input order |
| `StableSort.StableSortIsUnique` | src/services/api.ts:137-139 | any sorted arrangement that keeps equal keys in input order equals `SortBy`, so `SortBy` stands for every stable sort |
| `StableSort.SortByHead` | src/services/api.ts:137-139 | the head of the sorted list is the first element with the smallest key |
| `ClientRecommendations.KeywordsFor` | src/services/api.ts:263 | an unknown specialty gets the empty list; no list is longer than 9 |
| `ClientRecommendations.CandidateScores` | src/services/api.ts:262-278 | every candidate scores from 1 to 100; there are at most as many candidates as doctors |
| `ClientRecommendations.CandidatesSpec` | src/services/api.ts:262-278 | a doctor yields a candidate iff one of its keywords matched; each candidate is that doctor's scored recommendation |
| `ClientRecommendations.ScoredIsPercentage` | src/services/api.ts:268-269 | a candidate's score is the rounded percentage of its specialty's keywords found in the query |
| `ClientRecommendations.RecommendShape` | src/services/api.ts:280-298 | at most 3 results, non-increasing by score, every score from 1 to 100 (fallback included) |
| `ClientRecommendations.RecommendRanksMatches` | src/services/api.ts:280-282 | when some doctor matched: the top min(n, 3) candidates, none left out outscoring a kept one, ties in roster order |
| `ClientRecommendations.RecommendFallback` | src/services/api.ts:284-296 | with no match: the single fallback recommendation (score 50) of the first General Practice doctor in the roster if there is one, else empty |
| `ClientRecommendations.RecommendIgnoresCase` | src/services/api.ts:258 | lower-casing the query first changes nothing |
| `MockApi.GetDoctorsSpec` | src/services/api.ts:44-67 | the result is exactly the doctors passing the set (truthy) filters, case-insensitively, in roster order; no filters returns the whole roster |
| `MockApi.GetDoctorById` | src/services/api.ts:70-79 | "Doctor not found" iff no doctor has the id; otherwise a roster doctor with that id |
| `MockApi.GetQueueSpec` | src/services/api.ts:114-122 | the queue is exactly the doctor's waiting entries, in stored order |
| `MockApi.GetAppointmentsSpec` | src/services/api.ts:195-207 | a truthy doctor id keeps exactly that doctor's appointments, in order; an absent or zero id keeps all of them |
| `MockApi.MarkSlotTaken` | src/services/api.ts:185-189 | only the first slot at the time becomes unavailable, whatever it was; every other slot is untouched; no such slot leaves all unchanged |
| `MockApi.JoinKeepsCountersMatched` | src/services/api.ts:103-108 | adding a waiting entry and incrementing that doctor's counter keeps every counter equal to its waiting count |
| `MockApi.InviteKeepsCountersMatched` | src/services/api.ts:141-151 | inviting a waiting entry and decrementing the (then positive) counter keeps every counter equal to its waiting count |
| `MockApi.AfterInviteValid` | src/services/api.ts:147-151 | the guarded decrement never makes a counter negative and keeps doctor ids unique |
| `MockApi.InviteSelection` | src/services/api.ts:137-142 | the head of the sorted waiting list is `NextToInvite`, and `findIndex` by its id finds that very entry |
| `MockApi.NextToInviteIsEarliest` | src/services/api.ts:128-145 | FIFO: the invited entry is waiting for the doctor and joined no later than any other; equal join times go to the one listed first; only its status changes |
| `MockApi.MockStore.constructor` | src/data/mockData.ts:19-22 | appointments and queue start empty; the counters are consistent iff every provisioned counter is 0 |
| `MockApi.MockStore.JoinQueue` | src/services/api.ts:86-111 | an unknown doctor is an error with no change; otherwise one waiting entry with position = old counter + 1 is appended, and that counter alone grows by 1; counters stay consistent |
| `MockApi.MockStore.InviteNextPatient` | src/services/api.ts:125-154 | with nobody waiting: success with no entry and no change; otherwise the earliest waiting entry becomes invited and is returned (as mutated), and the counter drops by 1 when positive; ids stay unique, counters stay consistent and non-negative |
| `MockApi.MockStore.CreateAppointment` | src/services/api.ts:161-192 | an unknown doctor is an error with no change; otherwise one scheduled appointment is appended and the first slot at that time is marked taken, unchecked |
| `MockApi.MockStore.UpdateAppointment` | src/services/api.ts:210-223 | an unknown id is an error; otherwise that one record's status is overwritten, without a transition check, and the updated record is returned |
| `Store.UserName` | backend/routes/queue.js:30-31 | the name of the user with the id, or nothing when no user has it |
| `Store.JoinUsersSpec` | backend/routes/recommendation.js:14 | the doctor/user inner join holds exactly the doctors whose user exists, named after that user |
| `QueueRoute.Join` | backend/routes/queue.js:6-20 | a missing or zero doctor id is a 400 with no write; otherwise exactly one waiting row for the caller is inserted and its id returned |
| `QueueRoute.WithPatientNamesSpec` | backend/routes/queue.js:30-31 | a row is listed iff its patient is a known user, named after that user |
| `QueueRoute.ListSpec` | backend/routes/queue.js:23-39 | with a doctor id, the listing is exactly the doctor's waiting rows (with known patients), a permutation of them, ascending by join time |
| `QueueRoute.ListCount` | backend/routes/queue.js:29-33 | with every patient known, one listed row per waiting row |
| `QueueRoute.JoinedIsListed` | backend/routes/queue.js:12-33 | a row just joined is in that doctor's listing |
| `AppointmentsRoute.ParseStatus` | backend/routes/appointments.js:47-49 | a status is accepted iff it is one of the four valid spellings, and is read back as the status with that spelling |
| `AppointmentsRoute.ParseStatusRoundTrip` | backend/routes/appointments.js:6 | every status is accepted in its own spelling; there are four distinct valid spellings |
| `AppointmentsRoute.Create` | backend/routes/appointments.js:9-23 | a missing or falsy doctor id or time is a 400 with no write; otherwise one scheduled row for the caller is inserted and its id returned |
| `AppointmentsRoute.DoctorRowOf` | backend/routes/appointments.js:67-71 | the first doctor row with the id, or nothing when none has it |
| `AppointmentsRoute.ListOwnSpec` | backend/routes/appointments.js:26-38 | an appointment is listed iff it is the caller's and its patient, doctor and doctor's user exist |
| `AppointmentsRoute.ListOwnIsPrivate` | backend/routes/appointments.js:28-33 | nobody is shown another patient's appointment |
| `AppointmentsRoute.SetStatus` | backend/routes/appointments.js:77-80 | the UPDATE gives every row with the id the new status and leaves the other rows alone |
| `AppointmentsRoute.SetStatusOneRow` | backend/routes/appointments.js:77-80 | with unique ids the UPDATE changes exactly the one row found by id |
| `AppointmentsRoute.Update` | backend/routes/appointments.js:41-86 | an invalid status is a 400 before any lookup, then an unknown id is a 404, then a caller who is neither the patient nor the doctor's user is a 403; each error leaves the table unchanged; otherwise only that appointment's status is overwritten |
| `DoctorsRoute.WaitingRowsCounts` | backend/routes/doctors.js:8 | the sub-select count is the number of the doctor's waiting rows |
| `DoctorsRoute.GetDoctor` | backend/routes/doctors.js:17-25 | 404 iff no joined doctor has the id; otherwise a joined doctor with that id and its waiting count |
| `DoctorsRoute.ListRowsSpec` | backend/routes/doctors.js:5-15 | a doctor is listed iff it passes both set filters, and its `queueLength` is its waiting-row count |
| `DoctorsRoute.ListDoctorsSpec` | backend/routes/doctors.js:5-15 | a row is listed iff it is the profile of a doctor whose user exists, named after that user, passing both set filters, with its waiting-row count |
| `DoctorsRoute.NoFiltersListsAll` | backend/routes/doctors.js:9-12 | with neither filter set, every joined doctor is listed, in order |
| `DoctorsRoute.FiltersAreConjunctive` | backend/routes/doctors.js:11-12 | both filters together keep exactly what each keeps alone |
| `BackendRecommendation.TermsFor` | backend/routes/recommendation.js:16 | no keyword list is longer than 7 |
| `BackendRecommendation.QueryText` | backend/routes/recommendation.js:13 | the query text has no capital letters, and a missing query is the empty string |
| `BackendRecommendation.RecommendIgnoresCase` | backend/routes/recommendation.js:13 | lower-casing the query first changes nothing: the route matches on the lower-cased query |
| `BackendRecommendation.ScoreAll` | backend/routes/recommendation.js:15-18 | one scored doctor per input doctor, in order |
| `BackendRecommendation.ScoreDoctorSpec` | backend/routes/recommendation.js:16-18 | the score is 0 with an empty reason iff nothing matched; otherwise it is the rounded percentage (1 to 100) and the reason is the matches joined by ", " in table order |
| `BackendRecommendation.UnknownSpecialtyScoresZero` | backend/routes/recommendation.js:16-18 | a specialty outside the table scores 0 with an empty reason |
| `BackendRecommendation.RecommendShape` | backend/routes/recommendation.js:19 | at most 3 results, non-increasing by score, every score from 1 to 100, each the scoring of an input doctor |
| `BackendRecommendation.RecommendRanks` | backend/routes/recommendation.js:19 | the top min(n, 3) positive scores, none left out outscoring a kept one, ties in input order |
| `BackendRecommendation.NoMatchNoResult` | backend/routes/recommendation.js:13-20 | no fallback: when nothing matches, the result is empty |
| `BackendRecommendation.EmptyQueryNoResult` | backend/routes/recommendation.js:13 | a missing or empty query recommends nobody |
| `BackendRecommendation.TermsAreClientKeywords` | backend/routes/recommendation.js:4-10 | the table has the client's five specialties, and each list is drawn from the client's list |
| `BackendRecommendation.TermListSizes` | backend/routes/recommendation.js:4-10 | the lists have 7, 5, 5, 6, 6 keywords |
| `DoctorsPage.InitialFilters` | src/pages/DoctorsPage.tsx:25-26 | the name box starts from the `search` parameter (or empty); the specialty box starts empty |
| `DoctorsPage.ClearFilters` | src/pages/DoctorsPage.tsx:67-70 | clearing empties both boxes |
| `DoctorsPage.ApplyFiltersSpec` | src/pages/DoctorsPage.tsx:32-50 | a doctor is shown iff it passes both set filters (the name box matching name or specialty, the specialty box matching exactly, ignoring case); the order is kept |
| `DoctorsPage.NoFiltersShowsAll` | src/pages/DoctorsPage.tsx:34-49 | with both boxes empty, every doctor is shown |
| `DoctorsPage.NameBoxMatchesSpecialty` | src/pages/DoctorsPage.tsx:36-41 | text found in the specialty lets a doctor through the name box |
| `DoctorsPage.SpecialtyPickIsExact` | src/pages/DoctorsPage.tsx:43-47 | a specialty of a different length never matches the picked one |
| `AppointmentList.StatusColor` | src/components/appointments/AppointmentList.tsx:22-35 | each status spelling has its class; anything else gets the muted default, and only that |
| `AppointmentList.StatusColorsDistinct` | src/components/appointments/AppointmentList.tsx:22-35 | the four statuses get four different classes, none of them the default |
| `AppointmentList.StatusLabel` | src/components/appointments/AppointmentList.tsx:92 | the label is the status with its first letter upper-cased and the rest kept |
| `AppointmentList.StatusLabels` | src/components/appointments/AppointmentList.tsx:92 | the four labels are Scheduled, In-progress, Completed, Cancelled |
| `AppointmentList.SortedAppointmentsSpec` | src/components/appointments/AppointmentList.tsx:44-47 | the shown list is a permutation of the input, ascending by time, with equal times in input order |
| `AppointmentList.EarliestFirst` | src/components/appointments/AppointmentList.tsx:44-47 | the first appointment shown is the earliest |
| `AppointmentList.ActionsFor` | src/components/appointments/AppointmentList.tsx:97-122 | Complete iff scheduled, a doctor, and a complete handler is given; Cancel iff scheduled and a cancel handler is given |
| `AppointmentList.ActionsOnlyWhenScheduled` | src/components/appointments/AppointmentList.tsx:97-111 | a patient never gets Complete; an appointment that is not scheduled has no button |
| `QueueDisplay.RowsSpec` | src/components/queue/QueueDisplay.tsx:27-83 | rows are exactly the waiting entries in input order, numbered index + 1 regardless of the stored position; only row 0 is highlighted; it has "Next" only for a doctor |
| `QueueDisplay.ShowInviteButton` | src/components/queue/QueueDisplay.tsx:88 | the invite button shows iff the viewer is a doctor and some entry is waiting |
| `QueueDisplay.CountBadgeMatchesCounter` | src/components/queue/QueueDisplay.tsx:37 | given the service layer's queue, the count badge equals the doctor's `queueLength` while the counters are consistent |
| `QueueDisplay.NextBadgeIsNextInvited` | src/components/queue/QueueDisplay.tsx:77-81 | when entries are stored in join-time order, the "Next" row is the entry `inviteNextPatient` invites |
| `QueueDisplay.NextBadgeCanDifferFromInvited` | src/components/queue/QueueDisplay.tsx:77-81 | otherwise the two can differ: a concrete queue where the "Next" row is not the invited entry |

## Left out

- Network delays (`setTimeout`), HTTP plumbing, JSON encoding, rendering, toasts and navigation are not modelled. Each handler is one atomic step; interleavings between awaits are not modelled.
- Authentication is not modelled. The authenticated user's id is a parameter of the routes behind the auth middleware, so the 401 path is not modelled. The service layer's fixed current user is the constant `CurrentUserId`.
- Clocks and id generators are not modelled.
  - `Date.now()` ids and ISO timestamps are integer parameters; a timestamp stands for the instant it names, in milliseconds.
  - The service layer's methods require a fresh id, since colliding `Date.now()` ids would make `findIndex` pick the wrong record.
  - The back end's ids come from an auto-increment counter, and `joined_at` and the default statuses are taken to be column defaults. The schema itself is not part of this model.
- Database failures are not modelled: errors passed to `next(error)`, and any foreign-key rejection on insert.
- The row order of a SELECT without ORDER BY is taken to be table order. Ties under `ORDER BY q.joined_at` keep table order, although SQL leaves it unspecified.
- The clinic columns of the doctors query (a LEFT JOIN, which drops no rows), e-mail and coordinates are not carried.
- Query-string values are modelled as present or absent.
  - A present query-string `doctorId` is read as an integer. Text that is not a number is not modelled.
  - A JSON body's falsy values are modelled for numbers (0) and strings ("").
- `MockApi.GetDoctors`, `DoctorsRoute.Like`, `DoctorsPage.ApplyFilters`: lower-casing covers ASCII letters only. SQL `LIKE` is taken as a case-insensitive substring test; `%` and `_` inside the filter text are treated as plain characters, and collation rules beyond ASCII case are not modelled.
- `AppointmentList.StatusLabel`: upper-casing covers ASCII letters only.
- `ClientRecommendations.Recommend`, `BackendRecommendation.QueryText`: lower-casing of the query covers ASCII letters only. Non-ASCII case mappings are not modelled; for example, JavaScript lower-cases U+212A (Kelvin sign) to 'k', but the model keeps it. So `ScoredIsPercentage`, `RecommendRanksMatches`, `ScoreDoctorSpec` and `RecommendRanks` describe queries whose capitals are ASCII.
- Floating point is not modelled.
  - `Math.round(m / n * 100)` is integer rounding half up. For the small integers involved this agrees with the floating-point result.
  - A doctor's rating is kept in tenths.
  - Date parsing (`new Date(...).getTime()`) is replaced by integer times.
- A specialty that names a property of `Object.prototype` (such as `constructor`) is not modelled. In JavaScript its keyword lookup does not fall back to `[]`.
- `MockApi.MockStore.constructor` takes the doctor roster as a parameter. `mockDoctors` is declared empty, so every doctor operation would otherwise fail with "Doctor not found".
- Payments, slot generation and display, maps, profile storage and the other pages are outside the modelled core.
- `MockData.InitialListsEmpty`: the service layer's clinic and user lists (`mockClinics`, `mockUsers`) are not modelled; no operation of the core reads them.
- `MockApi.GetDoctors`, `MockApi.GetDoctorById`: the doctors returned are values. In JavaScript `getDoctors` copies the array shallowly and `getDoctorById` returns the stored object, so a caller holding one sees later in-place updates such as `queueLength++` from `joinQueue`. That sharing between returned and stored objects is not modelled.
