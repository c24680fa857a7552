# Hospital bed and referral backend: a Dafny model

This project models the request-handling core of a backend that tracks free
hospital beds and moves patients between hospitals. A hospital whose wards
are all full refers a patient to another hospital. The receiving hospital
accepts or rejects the referral. After accepting, it completes the referral
by admitting the patient into one of its own wards. The sending hospital may
cancel until the referral is completed.

Database tables are in-memory maps and sequences. Each handler is a pure
function from the tables and the request to an HTTP status and payload,
together with the new tables. The three stored procedures that change the
bed ledger (`create_admission`, `discharge_patient`,
`update_ward_capacity`) are not part of the source. They are modelled as
ledger operations that raise the error codes their callers match on. The
invariant they keep is proved: each ward's unavailable beds are exactly the
beds its admitted patients hold.

Modules, in the order the program is layered:

- `Base`, `Http`, `Lists`, `Numbers` and `Json` hold the JavaScript
  behaviour the handlers depend on:
  - optional values and truthiness, `||` and `trim`;
  - ASCII `toLowerCase` and `includes`;
  - `filter`, `map`, `slice`, `reduce` and the stable `sort`;
  - `parseInt(s, 10)` and `Number(s)` on decimal text, read as exact
    numbers rather than rounded to doubles.
- `Schema` is an interpreter for the part of zod the validators use.
  `Schemas` holds the request schemas written in it, with one lemma per
  schema stating what it accepts.
- `Middleware`, `Auth` and `Roles` model the error type and error
  formatter, schema validation, request ids, bearer-token authentication
  and the role gate.
- `Pagination` models the shared page/limit parsing and page metadata.
- `Ledger` models wards, admissions and the three stored procedures.
  `Admissions`, `Discharges` and `Wards` are the services and handlers that
  call them and map their error codes to HTTP answers.
- `Referrals` models the referral lifecycle. `ReferralRoutes` models the
  middleware chain and role matrix of each referral route.
- `Beds` (public bed search), `Dashboard`, `Audit`, `Users`, `Hospitals`
  and `Contact` model the remaining handlers.

Outside effects become parameters:
- the ids and timestamps the database assigns;
- the identity provider's sessions and logins;
- the mail service's answer;
- the generated request id;
- the zod UUID and e-mail format tests, passed in a `Formats` record.

## Model

| member | source | states |
|---|---|---|
| Referrals.StatusNamesDistinct | src/controllers/referralController.js:184-197 | The five statuses are stored under five distinct names, so a status test on the column is a test on the status. |
| Referrals.LifecycleShape | src/controllers/referralController.js:169-471 | Completed and cancelled allow no action. A rejected referral can only be cancelled, which makes it cancelled. Accept then complete leads from pending to completed. |
| Referrals.Guard | src/controllers/referralController.js:169-189 | The guards run in order. A missing referral is 404. An actor not on the acting side (receiver for accept, reject and complete; sender for cancel) is 403. A status the action is not allowed from is 409 carrying `current_status`. All guards pass exactly when none of these holds. |
| Referrals.SetStatus | src/controllers/referralController.js:192-197 | Only the status of that one referral changes. Other referrals, patients and the ledger are untouched. |
| Referrals.AcceptReferral | src/controllers/referralController.js:156-226 | A successful accept was pending and is now accepted. It is the generic transition with the accept action. |
| Referrals.RejectReferral | src/controllers/referralController.js:228-294 | A successful reject was pending and is now rejected. |
| Referrals.CancelReferral | src/controllers/referralController.js:430-478 | A successful cancel was pending, accepted or rejected and is now cancelled. |
| Referrals.TransitionFollowsTable | src/controllers/referralController.js:169-197 | Accept, reject and cancel succeed exactly when the referral exists, the actor is on the acting side and the table allows the action. A success has status 200, sets the status the table names and changes nothing else. A refusal to an actor on the right side is 409 with the current status. |
| Referrals.TerminalStatesStay | src/controllers/referralController.js:169-471 | No accept, reject or cancel moves a referral out of completed or cancelled. |
| Referrals.FinishCompletion | src/controllers/referralController.js:370-397 | After `create_admission`: an error containing `NO_BEDS_AVAILABLE` is 409 and changes nothing. Any other error is 500. A success marks the referral completed, keeps the procedure's tables and returns the admission. |
| Referrals.CompleteReferral | src/controllers/referralController.js:302-423 | A missing `ward_id` is 400 before any lookup. The guards follow (404, 403, 409). Then the ward checks: missing ward 404, another hospital's ward 403, no free bed 409. A referral whose patient row is gone is 500 `Internal server error`, since reading the patient's fields throws. A success means the admission procedure succeeded on the referral's patient and only the referral's status changed. |
| Referrals.CompletionFollowsTable | src/controllers/referralController.js:323-343 | A completion succeeds only for the receiving hospital, from accepted, and yields completed. |
| Referrals.NoBedsLeavesReferralAccepted | src/controllers/referralController.js:381-389 | A `NO_BEDS_AVAILABLE` failure of the procedure is answered with 409 and leaves the referral accepted. |
| Referrals.CompletionAdmitsIntoCheckedWard | src/controllers/referralController.js:352-379 | In a consistent ledger, a completion admits into the checked ward, which loses one free bed, and keeps the ledger consistent. A 409 without a status means that ward's beds are all occupied. |
| Referrals.GetReferral | src/controllers/referralController.js:104-149 | A missing referral is 404. Only the sending or the receiving hospital sees it (200). Anyone else gets 403. |
| Referrals.IsOutgoing | src/controllers/referralController.js:37 | The listing is incoming exactly when `direction` is the text `incoming`, and outgoing otherwise. |
| Referrals.ListReferrals | src/controllers/referralController.js:28-99 | The page is the window of the selected rows at the parsed offset. The metadata is built from the selected count. Every listed referral involves the actor's hospital on the named side and has the requested status. |
| Referrals.ListedReferralsAreVisible | src/controllers/referralController.js:37-143 | Every referral on a listing page is one that `getReferral` would show to the same actor. |
| Referrals.CreateReferral | src/services/referralService.js:4-83 | Any free bed in the actor's hospital gives 409, before the ward lookup. A missing ward is 404. Another hospital's ward is 403 unless the actor is an admin. A success is 201 and adds a pending referral from the actor's hospital (not the ward's) to the requested hospital. |
| Referrals.ReferralOnlyFromFullHospital | src/services/referralService.js:20-82 | In a consistent ledger, a created referral reports 0 free beds, every ward of the sending hospital is full, and the bed ledger is unchanged. |
| ReferralRoutes.Dispatch | src/routes/referralRoutes.js:19-37 | Authentication answers first. The role gate comes next (401 without a role, 403 outside the route's roles). The body schema, on create and complete only, comes next (400 with the report of failing fields). Only then is the handler reached, with the parsed body. |
| ReferralRoutes.DispatchRunsPipeline | src/routes/referralRoutes.js:19-37 | The dispatch outcome is what running the route's registered middleware chain, stage by stage, produces. |
| ReferralRoutes.NurseRouteMatrix | src/routes/referralRoutes.js:19-37 | A nurse reaches list and get. A nurse gets 403 on create, accept, reject and cancel. A nurse can reach nothing besides list, get and complete. |
| ReferralRoutes.CliniciansPassEveryGate | src/routes/referralRoutes.js:19-37 | Admins and doctors pass every route's role gate. Nurses pass exactly on list, get and complete. |
| ReferralRoutes.MiddlewareOrder | src/routes/referralRoutes.js:19-37 | Every chain is authentication, then the role gate with the route's roles, then at most one validation, then the handler. Exactly create and complete validate a body. |
| Ledger.Occupied | src/controllers/wardController.js:105 | The number of beds held by admitted patients of a ward is never negative. |
| Ledger.WardIndex | src/controllers/referralController.js:352-359 | The ward lookup finds a ward with that id, or there is none. |
| Ledger.AdmissionIndex | src/services/dischargeService.js:20-35 | The admission lookup finds an admission with that id, or there is none. |
| Ledger.CreateAdmissionProc | src/services/admissionService.js:39-55 | A missing ward raises `WARD_NOT_FOUND`. A success requires the actor's own ward with a free bed; it takes one bed and records an admitted admission. Only the three admission codes are raised. |
| Ledger.DischargeProc | src/services/dischargeService.js:20-35 | A missing admission raises `ADMISSION_NOT_FOUND`. A success requires the actor's own, still admitted admission; it marks it discharged and gives its ward a bed back. Only the three discharge codes are raised. |
| Ledger.UpdateCapacityProc | src/controllers/wardController.js:105-111 | A missing ward raises `WARD_NOT_FOUND`. A success requires the actor's own ward, sets the new total and keeps the occupied beds occupied. Only the three capacity codes are raised. |
| Ledger.CreateAdmissionPreservesConsistency | src/services/admissionService.js:39-55 | An admission keeps every ward's unavailable beds equal to its admitted patients. |
| Ledger.DischargePreservesConsistency | src/services/dischargeService.js:20-35 | A discharge keeps the ledger consistent. |
| Ledger.UpdateCapacityPreservesConsistency | src/controllers/wardController.js:105-111 | A capacity change keeps the ledger consistent. |
| Ledger.NoBedsIffWardFull | src/services/admissionService.js:8-10 | In a consistent ledger, admission raises `NO_BEDS_AVAILABLE` exactly when the actor's existing ward has every bed occupied. |
| Ledger.CapacityRefusedIffBelowOccupied | src/controllers/wardController.js:105-119 | In a consistent ledger, a capacity change raises `CAPACITY_BELOW_OCCUPIED` exactly when the actor's existing ward has more admitted patients than the new total. |
| Ledger.AdmitThenDischargeRestoresWards | src/services/dischargeService.js:20-35 | Admitting under a fresh id and then discharging that admission restores every ward's counts. |
| Ledger.InsertWard | src/controllers/wardController.js:30-40 | A new ward is appended and the admissions are unchanged. |
| Ledger.InsertWardPreservesConsistency | src/controllers/wardController.js:36-37 | A ward with a fresh id and every bed available keeps the ledger consistent. |
| Admissions.OrNull | src/services/admissionService.js:44-46 | An optional patient field is passed on when non-empty, and as `null` otherwise. |
| Admissions.ErrorText | src/services/admissionService.js:6 | The text matched is `message`, else `details`, else empty. |
| Admissions.MapAdmissionError | src/services/admissionService.js:4-17 | First match wins: `NO_BEDS_AVAILABLE` is 409, then `WARD_HOSPITAL_MISMATCH` is 403, and anything else is 500. |
| Admissions.AdmissionCodesMapFaithfully | src/services/admissionService.js:4-17 | The procedure's no-beds code gives 409 and the mismatch code gives 403. `WARD_NOT_FOUND` has no branch and gives 500. |
| Admissions.AdmissionMismatchCode | src/services/admissionService.js:12-14 | `WARD_HOSPITAL_MISMATCH` does not contain the earlier-matched code and is answered with 403. |
| Admissions.AdmissionWardNotFoundCode | src/services/admissionService.js:16 | `WARD_NOT_FOUND` falls through to 500. |
| Admissions.DetailsAreMatchedWithoutMessage | src/services/admissionService.js:6 | Without a (non-empty) message, the code in `details` is matched. With neither, the answer is 500. |
| Admissions.CreateAdmission | src/services/admissionService.js:20-67 | A missing `full_name` or `sex` is 400 before the procedure runs. Otherwise the procedure runs with absent optional fields as `null`. Its success is 201 and its error is the mapped answer. |
| Admissions.AdmissionAnswers | src/services/admissionService.js:8-55 | For a valid patient in a consistent ledger, 409 means exactly that the actor's ward is full and 403 that it is another hospital's. A success takes one bed and keeps the ledger consistent. |
| Discharges.MapDischargeError | src/services/dischargeService.js:4-18 | Only `message` is matched, first match wins: `ADMISSION_NOT_FOUND` is 404, `ALREADY_DISCHARGED` is 409, `ADMISSION_HOSPITAL_MISMATCH` is 403, and anything else is 500. |
| Discharges.DischargeCodesMapFaithfully | src/services/dischargeService.js:4-18 | Each discharge code gets its own answer. An error with no message is 500 whatever its details. |
| Discharges.AlreadyDischargedCode | src/services/dischargeService.js:10-12 | `ALREADY_DISCHARGED` is answered with 409. |
| Discharges.DischargeMismatchCode | src/services/dischargeService.js:13-15 | `ADMISSION_HOSPITAL_MISMATCH` is answered with 403. |
| Discharges.Discharge | src/services/dischargeService.js:20-46 | A procedure error becomes the mapped status and message. A success returns the discharged admission with 200. |
| Discharges.DischargeAnswers | src/services/dischargeService.js:20-46 | In a consistent ledger: 404 exactly for a missing admission, 403 exactly for another hospital's, 409 exactly for one already discharged. A success keeps the ledger consistent. |
| Wards.BedCount | src/controllers/wardController.js:12-15 | A `total_beds` value is accepted exactly when `Number` of it is a non-negative integer, and its value is that number. |
| Wards.CreateWard | src/controllers/wardController.js:4-60 | A missing name, type or `total_beds` is 400. A value that is not a non-negative integer is 400. With no `hospital_id` and no hospital of the actor's, the answer is 400 `hospital_id is required`. Naming another hospital than the actor's is 403. A complete body is created exactly when none of these holds. A success is 201 with every bed available, in the named hospital or else the actor's. |
| Wards.CreateWardPreservesConsistency | src/controllers/wardController.js:36-37 | A created ward keeps the ledger consistent. |
| Wards.MapCapacityError | src/controllers/wardController.js:113-122 | First match wins: `WARD_NOT_FOUND` is 404, `WARD_HOSPITAL_MISMATCH` is 403, `CAPACITY_BELOW_OCCUPIED` is 409, and anything else is 500. |
| Wards.CapacityCodesMapFaithfully | src/controllers/wardController.js:113-122 | Each capacity code gets its own answer. |
| Wards.CapacityMismatchCode | src/controllers/wardController.js:116 | `WARD_HOSPITAL_MISMATCH` is answered with 403. |
| Wards.CapacityBelowOccupiedCode | src/controllers/wardController.js:117-119 | `CAPACITY_BELOW_OCCUPIED` is answered with 409. |
| Wards.UpdateWardCapacity | src/controllers/wardController.js:88-137 | A missing `total_beds` is 400. A value that is not a non-negative integer is 400. Otherwise the procedure's success is 200 and its error is the mapped answer. |
| Wards.CapacityAnswers | src/controllers/wardController.js:105-122 | In a consistent ledger: 404 exactly for a missing ward, 403 exactly for another hospital's, 409 exactly when the new total is below the admitted patients. On success the free beds are the new total minus those patients. |
| Pagination.PageFrom | src/utils/pagination.js:16-17 | The page is at least 1. It is the parsed page when that is at least 1, and 1 otherwise. |
| Pagination.LimitFrom | src/utils/pagination.js:18-22 | The limit is between 1 and 100. Missing, non-numeric or 0 gives 20. A negative limit gives 1, an in-range limit is kept, and a larger one gives 100. |
| Pagination.ParsePagination | src/utils/pagination.js:15-27 | For every query, page is at least 1 and limit is between 1 and 100, each read with `parseInt`. The offset skips the `page - 1` full pages before the page. |
| Pagination.CeilDiv | src/utils/pagination.js:35 | The page count is the least `q` with `q * limit >= totalCount`. |
| Pagination.BuildPaginationMeta | src/utils/pagination.js:34-45 | Page, limit and count are echoed. `total_pages` is the ceiling of count over limit. `has_next` holds exactly when page is below `total_pages`, and `has_prev` exactly when page is above 1. |
| Pagination.HasNextIffItemsRemain | src/utils/pagination.js:35-42 | `has_next` holds exactly when items remain after the current page. |
| Pagination.EmptyResultHasNoPages | src/utils/pagination.js:35-43 | With no items there are 0 pages and no next page. |
| Pagination.PagesInRangeAreNonEmpty | src/utils/pagination.js:35 | Every page from 1 to `total_pages` starts inside the result set. |
| Pagination.ZeroLimitFallsBack | src/utils/pagination.js:18 | `limit=0` is falsy and becomes 20. |
| Pagination.NegativeLimitClamps | src/utils/pagination.js:18-22 | A negative limit such as `-5` becomes 1. |
| Pagination.DefaultPageRequest | src/utils/pagination.js:15-27 | With no parameters the request is page 1 of 20 at offset 0. |
| Numbers.ParseIntReadsTrimmed | src/utils/pagination.js:16-18 | `parseInt` skips leading white space one character at a time, which is reading what `trimStart` leaves. |
| Numbers.ParseIntNaN | src/utils/pagination.js:16-18 | `parseInt` gives `NaN` exactly when no digit follows the white space and sign. Otherwise it reads a run of digits. |
| Numbers.ParseIntOfDecimal | src/utils/pagination.js:16-18 | `parseInt` reads back a decimal number up to `Number.MAX_SAFE_INTEGER` (2^53 - 1), where no double rounding occurs, with or without a minus sign and with trailing non-digit text. |
| Numbers.StringToNumberOfDecimal | src/validators/wardSchemas.js:4 | `Number` reads back a decimal number up to `Number.MAX_SAFE_INTEGER` (2^53 - 1), where no double rounding occurs. |
| Numbers.BlankIsZero | src/controllers/wardController.js:12 | `Number` of blank text, the empty string included, is 0. |
| Beds.MinBeds | src/controllers/bedController.js:22 | `min_beds` is the parsed value, and 1 when that is missing, non-numeric or 0. |
| Beds.PageOf | src/controllers/bedController.js:81-96 | At most `limit` results. Result `i` is the projection of match `offset + i`. |
| Beds.Respond | src/controllers/bedController.js:76-111 | The summary counts and sums over all matches. The page is the window at the offset. The filters are echoed. |
| Beds.SearchBeds | src/controllers/bedController.js:15-115 | Results are at most `limit` projections of consecutive matches from the offset. `total_wards_with_beds` and `total_available_beds` are taken over all matches. The metadata uses the match count, and the filters echo the query with empty values as `null`. |
| Beds.MatchesAreWanted | src/controllers/bedController.js:41-74 | The three successive filters are one filter on the fetched rows. A ward is a match exactly when it is in the table and passes the bed minimum and every given filter. Matches keep the descending order of free beds. |
| Beds.MatchesHaveBeds | src/controllers/bedController.js:41 | Every match has at least the minimum number of free beds. |
| Beds.SearchedWardsHaveBeds | src/controllers/bedController.js:41-96 | Every returned ward reports at least the `min_beds` the response echoes. |
| Beds.AbsentFiltersKeepEverything | src/controllers/bedController.js:58-74 | With no region, district or type, nothing fetched is removed. |
| Beds.SummaryIgnoresPaging | src/controllers/bedController.js:76-78 | The summary is the same whichever page is asked for. |
| Beds.RegionFilterIgnoresCase | src/controllers/bedController.js:58-62 | The region filter is equality ignoring case, and folding the query first changes nothing. |
| Lists.FilterKeepsOrder | src/controllers/bedController.js:56-74 | A filtered list is an order-preserving subsequence of its input. |
| Lists.SortDesc | src/controllers/dashboardController.js:94-95 | The sort yields a descending permutation of its input. |
| Lists.SortDescIsStable | src/controllers/dashboardController.js:94-95 | Wards with equal free beds keep their relative order. |
| Lists.Window | src/controllers/bedController.js:81 | `slice(offset, offset + limit)` has at most `limit` consecutive elements from the offset. |
| Dashboard.OccupancyOf | src/controllers/dashboardController.js:77-79 | The occupancy is 0 exactly when there are no beds, and otherwise the share of occupied beds. |
| Dashboard.Breakdown | src/controllers/dashboardController.js:82-92 | A ward's counts default to 0. Its free beds are total minus occupied. Its occupancy is 0 exactly when its total is missing or not positive. |
| Dashboard.HospitalWards | src/controllers/dashboardController.js:15-62 | Exactly the wards of the actor's hospital are counted. |
| Dashboard.DashboardStats | src/controllers/dashboardController.js:71-112 | The totals are sums over the hospital's wards. Summary free beds are total minus occupied. The breakdown is a permutation of the wards, sorted by free beds descending. The day's counts are the corrected ones: the hospital's own admissions and discharges over the whole day. The source's queries differ, as the two dashboard rows under "## Findings" show. Missing pending counts are 0. |
| Dashboard.SummaryMatchesBreakdown | src/controllers/dashboardController.js:74-95 | The summary's free beds equal the sum of the breakdown's free beds. |
| Dashboard.NoBedsNoOccupancy | src/controllers/dashboardController.js:77-79 | With no beds the occupancy is 0. |
| Dashboard.TodayMovement | src/controllers/dashboardController.js:34-47 | The day's counts never exceed the table sizes, and `net_change` is admissions minus discharges. |
| Dashboard.TodayCountsEachOwnMovement | src/controllers/dashboardController.js:34-47 | A row counts exactly when it is the hospital's own movement on that day, at whatever second. Any other row adds nothing. |
| Dashboard.DischargesAsWrittenCountOtherHospitals | src/controllers/dashboardController.js:43-47 | As written, another hospital's discharge inside the window lowers this hospital's `net_change` by one. The intended counts ignore it. |
| Dashboard.LastSecondAsWrittenMissed | src/controllers/dashboardController.js:39-40 | As written, the hospital's admission at 23:59:59 is not counted. The intended count includes it. |
| Dashboard.GetSystemStats | src/controllers/dashboardController.js:130-189 | Non-admins get 403. Otherwise the totals are over every ward, with free beds equal to total minus occupied. The hospital and pending-referral counts default to 0. The day's admissions are the corrected whole-day count; the source's window leaves out the last second, as "## Findings" shows. |
| Dashboard.SystemLastSecondAsWrittenMissed | src/controllers/dashboardController.js:155-159 | As written, an admission at 23:59:59 is missing from the system-wide count of the day. The corrected count includes it. |
| Dashboard.SystemAvailableIsSumOfWards | src/controllers/dashboardController.js:174-189 | The system-wide free beds are the sum of every ward's free beds. |
| Dashboard.SystemAdmissionsCoverEachHospital | src/controllers/dashboardController.js:155-159 | The system-wide admissions of the day are at least any one hospital's admissions of that day. |
| Audit.WithEntityType | src/controllers/auditController.js:58-61 | The entry gains `entity_type` equal to `table_name` (left out when there is none). Every other field is unchanged. |
| Audit.EntityTypeIsIdempotent | src/controllers/auditController.js:58-98 | Adding `entity_type` twice is adding it once. Removing it gives back the row's other fields. |
| Audit.TableFilter | src/controllers/auditController.js:33-36 | `table_name` is used when given, and `entity_type` otherwise. |
| Audit.Selected | src/controllers/auditController.js:28-51 | The listing is newest first. |
| Audit.SelectedAreKept | src/controllers/auditController.js:28-48 | A row is selected exactly when it passes every given filter. |
| Audit.PageOf | src/controllers/auditController.js:51-61 | At most `limit` entries, each the selected row at its offset with `entity_type` added. |
| Audit.ListAuditLogs | src/controllers/auditController.js:16-71 | The page is the window of the selection with `entity_type` added. The metadata is the helper's, over the selected count. |
| Audit.ListedEntriesPassFilters | src/controllers/auditController.js:28-51 | A listed entry passes every filter. A next page is announced exactly when selected entries remain. |
| Audit.TableNameTakesPrecedence | src/controllers/auditController.js:33-36 | With both parameters given and different, only rows of `table_name` are listed. |
| Audit.GetAuditLog | src/controllers/auditController.js:77-107 | A missing entry is 404. Otherwise the entry is returned with `entity_type`. |
| Audit.TallyCounts | src/controllers/auditController.js:136-139 | The tally has a key for each distinct value, counting how often it occurs. |
| Audit.TallySum | src/controllers/auditController.js:136-148 | The counts of a tally add up to the number of rows. |
| Audit.GetAuditSummary | src/controllers/auditController.js:115-156 | `total_events` is the number of rows. Each action's count is the number of rows with that action, and likewise for tables. The period defaults to the last week. The rows are what the date-range query returns, so the range filter itself is an input. |
| Audit.SummaryTotalsAgree | src/controllers/auditController.js:136-148 | `total_events` is the sum of the action counts and also the sum of the table counts. |
| Audit.MetaAsWritten | src/controllers/auditController.js:66 | The listing's metadata as written has no page, limit, count or page count, and reports neither a next nor a previous page. |
| Audit.MetaAsWrittenHidesNextPage | src/controllers/auditController.js:66 | With 45 entries and pages of 20, the metadata as written reports no next page, while the helper called as intended reports three pages and a next one. |
| Auth.IndexOf | src/middleware/auth.js:5 | The index found is the first occurrence of the separator, or the length. |
| Auth.Split | src/middleware/auth.js:5 | A split has at least one part, and the first is the text before the first separator. |
| Auth.ParseBearerTokenIff | src/middleware/auth.js:3-8 | A token is returned exactly when the header is `Bearer`, one space, then a non-empty token without spaces, optionally followed by a space and anything. The scheme match is case-sensitive. |
| Auth.RequireAuth | src/middleware/auth.js:11-55 | No token is 401, an unknown token is 401, and a user without a profile is 403. Otherwise `req.auth` takes the token, the user and the profile's id, role, hospital and staff id. |
| Roles.RequireRole | src/middleware/requireRole.js:1-10 | No role is 401 and a role outside the list is 403. The gate passes exactly for a listed role. |
| Roles.RoleGateDependsOnlyOnMembership | src/middleware/requireRole.js:2-8 | The outcome depends only on which roles are listed. An empty list refuses every role. |
| Middleware.NewAppError | src/middleware/errorHandlers.js:5-15 | The status defaults to 500. `publicMessage` is the message, details are as given, and the error is operational. |
| Middleware.ErrorHandler | src/middleware/errorHandlers.js:22-42 | The status is the error's if truthy, else 500. The message is `publicMessage` if truthy, else `Internal server error`. `details` is included only when truthy. `request_id` is the request's, which is copied onto the error when present. |
| Middleware.AppErrorAnswer | src/middleware/errorHandlers.js:5-42 | An `AppError` is answered with its own status and message. Its details are included exactly when they are truthy. |
| Middleware.ErrorAnswersAreNeverBlank | src/middleware/errorHandlers.js:30-31 | Every error answer has a non-zero status and a non-empty message. |
| Middleware.NotFoundHandler | src/middleware/errorHandlers.js:17-19 | An unknown route gets 404 `Not found` with the request id. |
| Middleware.Validate | src/middleware/validate.js:1-15 | The property defaults to `body`. On failure the request is unchanged and the error is 400 `Validation error` with the report of failing fields. On success the property becomes the parsed data and the rest of the request is unchanged. |
| Middleware.ValidationFailureAnswer | src/middleware/validate.js:4-9 | A validation failure is answered with 400, `Validation error` and the report of failing fields. |
| Middleware.ValidateIdempotent | src/middleware/validate.js:3-13 | A request that passed validation passes again, unchanged. |
| Middleware.ChooseRequestId | src/middleware/requestId.js:3-9 | A text header that is not blank is used verbatim. Otherwise the generated id is used. The request's id equals the response header. |
| Schema.Parse | src/middleware/validate.js:3 | An accepted value is present exactly when the input was, and accepted text is passed through unchanged. |
| Schema.ParseFields | src/validators/admissionSchemas.js:3-14 | An object passes exactly when every declared field passes. |
| Schema.ParseFieldsKeys | src/validators/admissionSchemas.js:3-14 | The parsed object holds only declared keys, so unknown keys are stripped. |
| Schema.ParseFieldsOutput | src/validators/admissionSchemas.js:3-14 | A valid object parse keeps exactly the declared fields that are present, each with its parsed value. |
| Schema.ParseIdempotent | src/middleware/validate.js:3-13 | What a schema accepts, it accepts again unchanged. |
| Schemas.PatientAccepts | src/validators/admissionSchemas.js:3-9 | A patient is accepted exactly when `full_name` has at least 2 characters, `sex` is M, F or Other, and the optional fields are absent or text. |
| Schemas.EmptyAdmissionRejected | tests/validation.test.js:9-12 | The empty payload is rejected. |
| Schemas.ExampleAdmissionAccepted | tests/validation.test.js:14-23 | A UUID ward with patient `Ama Mensah`, sex `F` is accepted. |
| Schemas.CreateUserAccepts | src/validators/userSchemas.js:3-9 | A user is accepted exactly when the email passes the e-mail test, the password has at least 6 characters, the role is admin, doctor or nurse, the hospital is a UUID, and the staff id has at least 2 characters. |
| Schemas.UnknownRoleRejected | src/validators/userSchemas.js:6 | Any role outside admin, doctor and nurse is rejected. |
| Schemas.ClerkRejected | tests/validation.test.js:25-34 | The role `clerk` is rejected. |
| Schemas.TotalBedsAccepts | src/validators/wardSchemas.js:3-6 | `total_beds` is accepted exactly when it is a whole number of at least 0, or non-blank text whose `Number` is one. Blank text is rejected. |
| Schemas.TextBedCount | src/validators/wardSchemas.js:4 | Non-blank text is converted with `Number` before the whole-number rule. |
| Schemas.DecimalTextIsABedCount | src/validators/wardSchemas.js:3-6 | Decimal text such as `"12"`, up to `Number.MAX_SAFE_INTEGER`, is accepted and becomes the number. |
| Schemas.CreateWardAccepts | src/validators/wardSchemas.js:8-13 | A ward is accepted exactly when name and type have at least 2 characters, `total_beds` passes its rule, and `hospital_id` is absent or a UUID. |
| Schemas.UpdateWardCapacityAccepts | src/validators/wardSchemas.js:15-17 | A capacity update is checked on `total_beds` alone, by the same rule. |
| Schemas.CreateHospitalAccepts | src/validators/hospitalSchemas.js:3-7 | A hospital is accepted exactly when the name has at least 2 characters and region and district are absent or have at least 2. |
| Schemas.UpdateHospitalAccepts | src/validators/hospitalSchemas.js:9-15 | An update is accepted exactly when each field is absent or has at least 2 characters, and at least one field is present. |
| Schemas.UpdateHospitalNeedsAField | src/validators/hospitalSchemas.js:13-15 | An update with none of the three fields is rejected by the refinement alone. |
| Schemas.CreateReferralAccepts | src/validators/referralSchemas.js:3-8 | A referral is accepted exactly when the patient, ward and hospital are UUIDs and the reason is absent or has at least 3 characters. |
| Schemas.CompleteReferralAccepts | src/validators/referralSchemas.js:11-15 | A completion is accepted exactly when the ward is a UUID, the bed number is absent or non-empty, and the notes are absent or text. |
| Schemas.AuthSchemasAccept | src/validators/authSchemas.js:3-18 | Login needs an e-mail and a password of at least 6 characters. Refresh needs a non-empty token. Forgot-password needs an e-mail. Reset needs a new password of at least 6 characters. |
| Schemas.ResetPasswordThresholdsAgree | src/controllers/authController.js:132-138 | The reset-password schema and the handler's own length check refuse exactly the same passwords. |
| Schemas.SchemasAreWellFormed | src/validators/admissionSchemas.js:3-14 | Every request schema declares each key once. |
| Users.View | src/services/userService.js:62-77 | A user is shown with their login's details, which are `null` when the login is gone. |
| Users.NarrowedMembers | src/services/userService.js:42-48 | A user passes the filters exactly when they match the given role and hospital. |
| Users.ListPage | src/services/userService.js:79-88 | At most `limit` users, each the selected row at its offset. `total` is the count and `totalPages` its ceiling over the limit. |
| Users.ListUsers | src/services/userService.js:9-89 | Non-admins get 403. The offset is `(page - 1) * limit` and the page is that window of the filtered rows, newest first. An invalid range is 500. |
| Users.ListedUsersMatch | src/services/userService.js:42-51 | The selection holds exactly the rows matching both filters, newest first. |
| Users.GetUserById | src/services/userService.js:94-139 | Non-admins get 403 and a missing user 404. Otherwise the profile is returned. |
| Users.BuildProfilePatch | src/services/userService.js:169-178 | `role` is written only when it is non-empty and allowed. `hospital_id` and `staff_id` are written only when truthy. |
| Users.BuildCredentialPatch | src/services/userService.js:195-204 | A login update is sent exactly when email, password, first name or last name is given. Each part is sent exactly when given, and names go as a pair. |
| Users.UpdateUser | src/services/userService.js:144-229 | Non-admins get 403 and a missing user 404. The profile is written only when the patch is non-empty. The login update is the credential patch. The audited new row is the old row overridden by the patch. |
| Users.UpdateChangesOnlyPatchedColumns | src/services/userService.js:169-225 | The new row differs from the old one only in the patched columns. With nothing to write, the store is unchanged. |
| Users.UpdateIsIdempotent | src/services/userService.js:144-229 | Applying the same update twice is applying it once. |
| Users.DeleteUser | src/services/userService.js:234-280 | Non-admins get 403 and a missing user 404. A profile whose login the provider does not have is 500 `Failed to delete user`, and nothing is removed. Otherwise both the login and the profile are removed; this is the only case that succeeds. |
| Users.CreateUserWithProfile | src/services/userService.js:282-365 | Non-admins get 403 and a role outside admin, doctor and nurse gets 400. A failed login creation is 500. A failed profile insert deletes the new login again and is 500. A success is 201 and adds exactly the login and the profile. |
| Users.CreationIsAllOrNothingUnlessCleanupFails | src/services/userService.js:325-364 | Replaying creation's writes reaches the new store on success. On a failure it reaches the old store, except in one case: a login whose profile was refused and whose cleanup delete the provider also refused stays behind without a profile. |
| Users.RolesAgreeWithSchema | src/services/userService.js:4 | The service's allowed roles are exactly the roles the request schema admits. |
| Hospitals.OrNull | src/controllers/hospitalController.js:17-18 | A truthy value is stored as given and anything else as `null`. |
| Hospitals.CreateHospital | src/controllers/hospitalController.js:5-41 | A falsy name is 400 and changes nothing. A success is 201 and adds one row with the name, and with region and district or `null`. |
| Hospitals.CreationAddsOneHospital | src/controllers/hospitalController.js:17-18 | Creation adds exactly one hospital and leaves the others as they were. An empty region is stored as `null`. |
| Hospitals.BuildPatch | src/controllers/hospitalController.js:96-99 | The patch holds exactly the fields that are not `undefined`, with their values. |
| Hospitals.UpdateHospital | src/controllers/hospitalController.js:82-130 | Another hospital than the actor's is 403, whatever the body. No truthy field is 400. A missing hospital is 404. A success overrides exactly the patched columns. |
| Hospitals.WritesKeepHospitalsKeyed | src/controllers/hospitalController.js:5-130 | Creation and update keep every hospital stored under its own id. |
| Hospitals.UpdateIsIdempotent | src/controllers/hospitalController.js:82-130 | Sending the same update twice gives the same answer and table as sending it once. |
| Hospitals.UpdateChangesOnlyThatHospital | src/controllers/hospitalController.js:96-112 | Other hospitals are untouched, and a column absent from the body keeps its value. |
| Hospitals.NullRegionClears | src/controllers/hospitalController.js:92-99 | A `null` region alongside a name clears the region. |
| Contact.ValidEmailIffPattern | src/controllers/contactController.js:17-23 | The address check accepts exactly the addresses the regular expression matches: a non-empty plain local part, one `@`, and a plain domain with a `.` that is neither its first nor its last character. |
| Contact.SubmitContactRequest | src/controllers/contactController.js:4-56 | A missing name, e-mail or message is 400, and an invalid e-mail is 400. The request type defaults to `General Inquiry`. An error mentioning `API key` is 500 `Email service not properly configured`. Any other error is 500 with its own message, or the fallback when that is empty. |
| Contact.ContactStatuses | src/controllers/contactController.js:4-56 | Before any mail the answer is 400. After the checks it is 200 exactly when the mail was delivered, and 500 otherwise. |
| Contact.EmptyErrorFallsBack | src/controllers/contactController.js:51-55 | An empty error message gets the fallback text. |
| Contact.ExampleAddresses | src/controllers/contactController.js:17-23 | `a@b.co` passes. `a@b.` and `a@@b.co` do not. |

## Left out

- Bed reservations: the bed routes import reservation handlers that the bed controller does not define. The model follows the code, where completing a referral admits the patient directly.
- Stored-procedure bodies are not part of this model. Each procedure checks not found, then wrong hospital, then wrong state. That order is assumed, as are the effects their callers rely on.
- Database and identity-provider failures are left out: the many 500 answers given when a query or a provider call itself errors. Missing configuration keys are left out too.
- Audit logging, notifications and e-mail rendering are fire-and-forget side effects and are not modelled.
- Concurrency is not modelled. Every handler runs alone, so the read-then-write status updates and the bed pre-check before the admission procedure are sequential.
- Dashboard.OccupancyOf: keeps occupancy as the exact pair occupied/total; the floating-point percentage and its rounding are not modelled.
- Numbers.StringToNumberOfDecimal: `Number` is modelled on decimal text only. Exponents, hexadecimal, `Infinity` and arrays of several levels count as `NaN`. Decimal text is read as an exact number, so the lemma is stated only up to 2^53 - 1; past that, and for text with more than about 17 significant digits, JavaScript rounds to a double and the model does not.
- Numbers.ParseIntOfDecimal: the model's `parseInt` reads digits exactly, without rounding to a double, so the read-back is stated only up to 2^53 - 1. For `"9007199254740993"` JavaScript gives 9007199254740992 and the model gives the exact value.
- Schemas.DecimalTextIsABedCount: stated only up to 2^53 - 1, because past that JavaScript's `Number` rounds the text to a double and the model does not.
- Schemas.TotalBedsAccepts: the whole-number test is applied to the exact value of the text, not to the double `Number` yields. Text whose value is not whole but rounds to a whole double, such as `"1.0000000000000001"`, is accepted by JavaScript and rejected by the model. Integers past 2^53 are read exactly.
- Wards.BedCount: the same exact reading as `Schemas.TotalBedsAccepts`. `total_beds: "1.0000000000000001"` is accepted as 1 by JavaScript and answered with 400 by the model. Past 2^53 the model keeps the exact count where JavaScript would round it.
- Text length is counted in code points, not UTF-16 units. `toLowerCase` folds ASCII letters only.
- Query parameters are modelled as text. Repeated parameters, which arrive as arrays, are not modelled.
- Dates and "today" are inputs. The audit summary's default week and the dashboard's day are given, not computed. Times are UTC.
- The dashboard's pending-referral counts, and the hospital count of the system statistics, are inputs. They are not computed from the referral and hospital tables.
- Rows with equal sort keys are returned in table order. This applies to equal free beds in the bed search and to equal timestamps in the audit and user listings. The database does not promise any order among them.
- Validation failures report only which fields failed. Zod's per-field message lists in `error.flatten()` are not modelled.
- Users.ListUsers: an offset below 0 or a limit below 1 is assumed to make the range query fail, and is answered with 500. The database's actual answer to such a range is not modelled. `getUserById`'s fallback when the provider lookup throws is not modelled.
- Users.UpdateUser: the login update is reported, not applied to the store.
- The dashboard's selected columns are taken as given: `occupied_beds` and `ward_type` are read as the source reads them.
- `listHospitals` is left out because its order depends on the database's collation. `getWardAvailability` and the thin pass-through controllers are left out too.
- Audit.GetAuditSummary: action and table values are used as plain keys. Values that clash with `Object.prototype` names are not modelled.
- Contact.SubmitContactRequest: non-text form fields are not modelled, nor a send error without a message property.
- Hospitals.CreateHospital: the database's `NOT NULL` and type constraints on the stored columns are not modelled.
- The authentication handlers, rate limiting, environment checks and server wiring are left out, as are the other route files and the one-field discharge schema.

## Findings

| source | as written | input that shows it | evidently intended | confidence | as-written member | corrected member |
|---|---|---|---|---|---|---|
| src/controllers/auditController.js:66 | `buildPaginationMeta(count, page, limit)` passes three numbers to a helper that reads `page`, `limit` and `totalCount` from one object, so every field of the metadata is `undefined` or `NaN` and `has_next` is always false | 45 matching entries, page 1, limit 20: the response reports no next page | `buildPaginationMeta({ page, limit, totalCount: count })`, reporting 3 pages and a next page | not executed | Audit.MetaAsWrittenHidesNextPage | Audit.ListAuditLogs |
| src/controllers/dashboardController.js:43-47 | the count of today's discharges has no `hospital_id` filter, while the admissions count above it has one, so `net_change` subtracts every hospital's discharges from one hospital's admissions | hospital A has no movement today and hospital B has one discharge at 10:00: A's dashboard shows `net_change` -1 | filter the discharges on `hospital_id` as well, so A shows 0 | not executed | Dashboard.DischargesAsWrittenCountOtherHospitals | Dashboard.TodayMovement |
| src/controllers/dashboardController.js:39-40 | the day's window ends with `lt('<today>T23:59:59')`, which leaves out the last second of the day | an admission at 23:59:59.5 is not counted among that day's admissions | end the window at the next day's midnight, so every moment of the day counts | not executed | Dashboard.LastSecondAsWrittenMissed | Dashboard.TodayMovement |
| src/controllers/dashboardController.js:155-159 | the system-wide count of the day's admissions uses the same window, ending with `lt('<today>T23:59:59')` | an admission at 23:59:59.5 is missing from `today_admissions` | end the window at the next day's midnight | not executed | Dashboard.SystemLastSecondAsWrittenMissed | Dashboard.GetSystemStats |
