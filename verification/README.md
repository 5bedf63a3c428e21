# Campaign manager: a Dafny model of its rules

This project models the rule-bearing core of the campaign manager. It is a
Flask back end that keeps promotional campaigns, their images, users and an
activity log, together with a React front end. The model covers:

- **Campaigns** (`CampaignModel`, `CampaignsApi`): a campaign's status on a
  given day (scheduled, active or expired), and the create, update, delete
  and list routes over an abstract campaign table, including the ownership
  gate.
- **Dates and names** (`Dates`, `Decimal`, `FileNames`): calendar dates with
  their `YYYY-MM-DD` rendering and parsing, the campaign folder named after
  the start date, the per-type image file name, and the extension
  allow-list.
- **Image upload** (`Uploads`): the loop over the three image types. It
  accepts an allowed file, updates or creates the record for the
  (campaign, type) pair, unlinks a stale file, and answers 400 when nothing
  was accepted.
- **Users and access** (`UserModel`, `Auth`, `UsersApi`): the e-mail pattern
  check, bearer-token authentication, the admin gate, the activity-log
  append rule, and the user routes over an abstract user table.
- **Front-end logic**:
  - `LogHelpers`: action categories, colours and formatting.
  - `JwtClient`: client-side token decoding and expiry.
  - `LogQueries`: the log service's query lists and its 403 mapping.
  - `LogFilters`: the log filter state and the loader.
  - `Paging`: the page window and the page list.
  - `UploadDispatch`: the dispatch on the upload argument.

Stores are maps from ids to immutable records. A route is a function from
the store (and the request) to an outcome and a new store. An outcome is
one of three things: a returned response, an abort (`get_or_404`), or a
raised exception. JSON and JavaScript values are the `Values.Value` type,
which carries both Python and JavaScript truthiness.

Several things are outside the model and arrive as function parameters:
token decoding, the user lookup, the `is_active` flag, `atob`,
`JSON.parse`, JavaScript number coercion and the current time.

## Model

| member | source | states |
|---|---|---|
| Dates.BeforeIsStrictTotalOrder | models/campaign.py:42-44 | date comparison is irreflexive, asymmetric, transitive and total |
| Dates.IsoFormat | api/campaigns.py:20-21 | `isoformat()` is ten characters: four-digit year, two-digit month and day, separated by `-` |
| Dates.FromIsoFormat | api/campaigns.py:46-47 | `date.fromisoformat` accepts only strings that name a real calendar date |
| Dates.IsoRoundTrip | api/campaigns.py:20-21 | every valid date reads back from its ISO rendering |
| Dates.IsoRoundTripBack | api/campaigns.py:46-47 | every accepted date string is the ISO rendering of the date it denotes |
| Dates.IsoFormatInjective | api/utils.py:15 | two dates share a `%Y-%m-%d` name exactly when they are equal |
| Decimal.PaddedRoundTrip | api/utils.py:15 | a zero-padded field that is wide enough reads back as the number it renders |
| Decimal.ValueRoundTrip | api/campaigns.py:46-47 | a digit field re-rendered at its own width gives the same digits |
| Decimal.NatToStringRoundTrip | campaign-manager-frontend/src/utils/LogHelpers.js:44 | the decimal rendering of a number reads back as that number |
| Decimal.IntToStringInjective | campaign-manager-frontend/src/utils/LogHelpers.js:44 | distinct integers render as distinct strings, with a minus sign exactly for negatives |
| CampaignModel.StatusOn | models/campaign.py:40-47 | scheduled iff today is before the start; expired iff started and the end is before today; active iff start ≤ today ≤ end |
| CampaignModel.UpdateStatus | models/campaign.py:40-47 | only the status changes; id, name, dates, folder and owner are kept |
| CampaignModel.UpdateStatusIdempotent | models/campaign.py:40-47 | recomputing the status twice on one date is the same as once |
| CampaignModel.StatusMonotone | models/campaign.py:42-47 | a later date never gives an earlier stage of scheduled → active → expired |
| CampaignModel.ScheduledTakesPrecedence | models/campaign.py:42-45 | a campaign that ends before it starts is scheduled between the two dates, although its end has passed |
| FileNames.Extension | api/utils.py:24 | the extension is the dot-free text after the last dot; none exactly when the name has no dot |
| FileNames.AllowedFileBySuffix | api/utils.py:22-24 | a name is allowed iff the lower-cased text after its last dot is in the allow-set |
| FileNames.NoDotNotAllowed | api/utils.py:24 | a name without a dot is never allowed |
| FileNames.AllowedFileMonotone | api/utils.py:22-24 | enlarging the allow-set never rejects a name allowed before |
| FileNames.DefaultAllowsUpperCase | api/utils.py:10 | "a.PNG" passes the default list |
| FileNames.DefaultAllowsMixedCase | api/utils.py:10 | "b.JpEg" passes the default list |
| FileNames.DefaultAllowListLastExtension | api/utils.py:24 | "a.png.exe" is rejected: only the last extension counts |
| FileNames.EmptyStemAllowed | api/utils.py:24 | a name made of a dot and an extension is judged by that extension like any other: the stem may be empty |
| FileNames.DefaultAllowsEmptyStem | api/utils.py:24 | ".png" passes |
| FileNames.DefaultRejectsMissingExtension | api/utils.py:24 | "x." (empty extension) and "png" (no dot) are rejected |
| FileNames.CampaignFolderByStartDate | api/utils.py:13-19 | two campaigns share a folder iff they start on the same day; the folder ends in the start date's ISO text |
| FileNames.ImageFilenameShape | api/uploads.py:14-26 | the image name starts with the ISO start date, continues with the type's suffix and ends in `.png` |
| FileNames.KnownTypesDistinctFiles | api/uploads.py:19-25 | background, logo and screensaver map to bkg, logo and screensaver_bkg and get three different names; an unknown type is its own suffix, so "bkg" collides with "background" |
| Uploads.AcceptedTypes | api/uploads.py:39-41 | a type is processed iff it is one of the three and its file is present with an allowed name |
| Uploads.Entries | api/uploads.py:71-75 | one response entry per processed type, with the type, the saved path and the file name |
| Uploads.ProcessFiles | api/uploads.py:39-75 | the loop appends one entry per accepted type, in processing order |
| Uploads.ProcessImages | api/uploads.py:47-69 | after the loop every accepted type has exactly one record holding the new path; other records are untouched |
| Uploads.ProcessRemovedGrows | api/uploads.py:53-58 | the loop only appends to the list of unlinked files |
| Uploads.ProcessRemovesOnlyReplaced | api/uploads.py:51-58 | a file is unlinked only if it was the old file of an accepted type and differs from the new path |
| Uploads.ProcessKeepsDisk | api/uploads.py:44-58 | a file on disk stays unless it is unlinked |
| Uploads.ProcessRemovesStale | api/uploads.py:53-56 | an old file that exists and differs from the new path is always unlinked |
| Uploads.UploadImageOutcome | api/uploads.py:29-84 | 404 for an unknown campaign; 400 "No valid image files provided" with nothing changed when no file is accepted; otherwise 200 with the message "Images uploaded successfully" and the list of entries |
| Uploads.UploadImageRecords | api/uploads.py:46-69 | a successful upload leaves one record per accepted type with the new path and leaves other records alone |
| Uploads.UploadImageUnlinks | api/uploads.py:51-58 | the unlinked files are exactly the stale old files of accepted types |
| Uploads.ProcessReadsOnlyTypes | api/uploads.py:39-41 | forms that agree on the accepted types produce the same loop result |
| Uploads.UploadImageIgnoresOtherKeys | api/uploads.py:39-40 | form keys other than background, logo and screensaver have no effect |
| CampaignsApi.Serialize | api/campaigns.py:15-23 | the campaign's status is recomputed for today, and the dates are rendered in ISO form that parses back to them |
| CampaignsApi.ListCampaigns | api/campaigns.py:26-32 | exactly the current user's campaigns are listed, each serialized |
| CampaignsApi.CreateCampaignSpec | api/campaigns.py:35-58 | 400 "Missing fields" when a field is falsy; nothing is stored on a parse error; a stored campaign belongs to the caller, lives in its start date's folder and is answered with 201 |
| CampaignsApi.CreateAcceptsReversedDates | api/campaigns.py:46-55 | no start ≤ end check: for any two valid dates with the end before the start, the campaign is created with 201 and stored with exactly those dates |
| CampaignsApi.CreatedCampaignListedForOwnerOnly | api/campaigns.py:26-58 | a created campaign is listed for its owner and for nobody else |
| CampaignsApi.UpdateCampaignSpec | api/campaigns.py:61-76 | 404 for an unknown id and 403 for a non-owner, with nothing changed; for the owner, `ValueError` exactly when a supplied date does not parse (nothing changed), otherwise 200; on success a key present in the body replaces the old value and an absent key keeps it; the folder, owner and id never change; other campaigns are untouched |
| CampaignsApi.UpdateKeepsOldFolder | api/campaigns.py:70-75 | moving the start date leaves the folder named after the old date |
| CampaignsApi.DeleteCampaignSpec | api/campaigns.py:79-89 | 404 or 403 leave everything alone; the owner's delete removes exactly that campaign and its image records |
| UserModel.ValidateEmail | models/user.py:32-38 | accepts iff the address begins with non-`@` text, `@`, non-`@` text, `.`, non-`@` text; an accepted address is returned unchanged; otherwise "Invalid email format" |
| UserModel.LocalPartIsFirstRun | models/user.py:35-36 | in any match, the `@` is the first `@` of the address |
| UserModel.DotBeforeNextAt | models/user.py:35-36 | in any match, the dot lies between the first `@` and the next `@` |
| UserModel.TrailingTextAccepted | models/user.py:36 | the match is anchored only at the start: "a@b.c@d" is accepted |
| Auth.FirstIndexOf | auth/decorators.py:19 | the position of the first occurrence of a character, or the length when it is absent |
| Auth.BearerToken | auth/decorators.py:16-19 | no token iff the header does not start with "Bearer "; otherwise the token is everything after that prefix |
| Auth.BearerExamples | auth/decorators.py:17-19 | "Bearer a b" gives "a b"; "bearer abc" and "Bearer" give none; "Bearer " gives the empty token |
| Auth.Authenticate | auth/decorators.py:15-27 | a denial is always 401 ("Missing token", "Invalid token" or "Invalid user"); authentication succeeds iff the prefix is there, the token decodes, and its `sub` resolves to an active user, who becomes the current user |
| Auth.JwtRequired | auth/decorators.py:11-30 | a denial answers without running the view and changes nothing; otherwise the view runs with the authenticated user |
| Auth.AdminRequiredSpec | auth/decorators.py:33-44 | authentication is checked before the admin flag; an authenticated non-admin gets 403 "Forbidden" and the view does not run |
| Auth.LogActivitySpec | auth/decorators.py:47-67 | the wrapper returns the handler's outcome and store unchanged and appends exactly one row for the current user when the handler returned, none otherwise |
| Auth.JwtLoggedRoute | auth/decorators.py:11-67 | a campaign route logs one row for every authenticated request whose handler returns, 403 and 400 answers included, and none for a denied request |
| Auth.AdminLoggedRoute | auth/decorators.py:33-67 | a user route does not log a non-admin's 403, and logs one row for an admin's returned request |
| UsersApi.ListUsers | api/users.py:13-21 | every stored user is listed with id, e-mail and admin flag |
| UsersApi.DeleteUpdatesListing | api/users.py:45-55 | after a 200 from delete the listing is the old one without exactly that user; after any other answer it is unchanged |
| UsersApi.CreateUser | api/users.py:24-42 | 400 "Email required" for a falsy e-mail and 400 "User exists" for a taken one, both leaving the table alone; a stored user has the id the database assigns (one not already in the table), the e-mail unchanged, the admin flag coerced to bool and an empty hash, and is answered with 201; a store happens iff the address passes the pattern, and a non-empty, untaken string that fails it raises `ValueError`; well-formedness and unique e-mails are preserved; after a 201 the user listing is the old one plus the returned view under the new id, and after any other answer it is unchanged |
| UsersApi.CreateUsers | api/users.py:34-38 | e-mails stay unique across any sequence of create requests, and no existing user is removed |
| UsersApi.DeleteUserSpec | api/users.py:45-55 | 404 for an unknown id; 400 "Cannot delete yourself" for one's own id; a user who owns a campaign is not deleted, because the commit fails on the NOT NULL `campaigns.user_id` (models/campaign.py:30-33); otherwise exactly that user is removed and the rest kept; the table changes iff the answer is 200 |
| UsersApi.DeleteKeepsCurrentUser | api/users.py:51-52 | the acting admin is never removed by a delete request |
| Strings.Split | campaign-manager-frontend/src/utils/jwt.js:12 | `split` yields one more piece than there are separators, none containing the separator, and joining them gives the input back |
| Strings.SplitJoin | campaign-manager-frontend/src/utils/jwt.js:12-18 | splitting separator-free pieces joined by the separator gives the pieces back |
| Strings.SplitUnique | campaign-manager-frontend/src/utils/jwt.js:12 | a separator-free decomposition of a string is unique |
| Strings.Lower | api/utils.py:24 | lower-casing keeps the length and maps each character |
| JwtClient.PadSpec | campaign-manager-frontend/src/utils/jwt.js:21 | the padded payload is the payload followed by only `=`, its length a multiple of four, with 0, 3, 2 or 1 `=` for lengths 0, 1, 2, 3 mod 4 |
| JwtClient.PadAligned | campaign-manager-frontend/src/utils/jwt.js:21 | an aligned payload gets no padding |
| JwtClient.DecodeJwt | campaign-manager-frontend/src/utils/jwt.js:9-32 | a token without exactly two dots decodes to nothing |
| JwtClient.DecodeReadsOnlyPayload | campaign-manager-frontend/src/utils/jwt.js:17-27 | the claims of `header.payload.signature` depend on the payload alone |
| JwtClient.MalformedTokens | campaign-manager-frontend/src/utils/jwt.js:13-15 | "abc" and "a.b.c.d" never decode |
| JwtClient.IsTokenExpired | campaign-manager-frontend/src/utils/jwt.js:37-46 | expired when decoding fails or `exp` is falsy; for a non-zero numeric `exp`, expired iff now ≥ exp × 1000 |
| JwtClient.ExpiryMonotone | campaign-manager-frontend/src/utils/jwt.js:44-45 | once expired, a token stays expired at every later time |
| JwtClient.ExpiryBoundary | campaign-manager-frontend/src/utils/jwt.js:45 | the boundary is inclusive: expired at exactly exp × 1000 ms, not one millisecond earlier |
| JwtClient.GetUserFromToken | campaign-manager-frontend/src/utils/jwt.js:51-65 | nothing iff decoding fails; otherwise id is `sub`, and `iat`, `exp` and `jti` are copied |
| JwtClient.TokenUserAgreesWithExpiry | campaign-manager-frontend/src/utils/jwt.js:37-65 | a token that yields no user, or a user with a falsy `exp`, counts as expired; for a user with a non-zero numeric `exp`, the token is expired iff now ≥ exp × 1000 |
| LogHelpers.FirstMatch | campaign-manager-frontend/src/utils/LogHelpers.js:8-15 | the index of the first keyword rule that occurs in the action |
| LogHelpers.ActionCategoryIsFirstMatch | campaign-manager-frontend/src/utils/LogHelpers.js:8-15 | the category is that of the first matching keyword in the order create, update, edit, delete, login, logout, view, list, and other when none matches |
| LogHelpers.ActionColorByCategory | campaign-manager-frontend/src/utils/LogHelpers.js:17-34 | the colour depends only on the category; two categories share a colour iff they are equal or both are view/other |
| LogHelpers.ViewerColorAgreement | campaign-manager-frontend/src/components/logs/ActivityLogViewer.jsx:125-132 | the viewer's own colour rule agrees with the helper's except when the category comes from "edit" alone or from "logout" without "login" |
| LogHelpers.FormatLogActionSpec | campaign-manager-frontend/src/utils/LogHelpers.js:2-6 | the output has the input's length and no `_`, and it upper-cases exactly the first character of each run of word characters |
| LogHelpers.FormatLogActionIdempotent | campaign-manager-frontend/src/utils/LogHelpers.js:2-6 | formatting a formatted action changes nothing |
| LogHelpers.FormatExample | campaign-manager-frontend/src/utils/LogHelpers.js:2-6 | "add_user" becomes "Add User" |
| LogHelpers.FormatDuration | campaign-manager-frontend/src/utils/LogHelpers.js:42-46 | "" exactly for a missing or zero duration; below 1000 the decimal number followed by "ms" |
| LogHelpers.FormatDurationInjective | campaign-manager-frontend/src/utils/LogHelpers.js:44 | distinct sub-second durations render differently |
| LogHelpers.ExtractLogSummary | campaign-manager-frontend/src/utils/LogHelpers.js:62-84 | nothing exactly when there are no details; campaign fields iff the action mentions "campaign"; the user e-mail iff it mentions "user", taken from `created_user_email` or else the deleted user's e-mail; change keys copied |
| LogHelpers.SummaryReadsOnlyKnownKeys | campaign-manager-frontend/src/utils/LogHelpers.js:70-81 | the summary reads no other property of the details |
| LogQueries.ParamsContents | campaign-manager-frontend/src/services/logs.js:9-16 | every query pair is a listed key with its truthy value, and every listed key with a truthy value is in the query |
| LogQueries.ParamsReadsOnlyKeys | campaign-manager-frontend/src/services/logs.js:9-16 | filters that agree on the listed keys give the same query |
| LogQueries.ParamsOrdered | campaign-manager-frontend/src/services/logs.js:9-16 | the pairs follow the fixed key order |
| LogQueries.ParamsConcat | campaign-manager-frontend/src/services/logs.js:34-39 | the query of a concatenated key list is the concatenation of the queries |
| LogQueries.ExportIsFetchWithoutPaging | campaign-manager-frontend/src/services/logs.js:34-39 | the export query is the fetch query without `page` and `per_page` |
| LogQueries.ParamsNoDuplicates | campaign-manager-frontend/src/services/logs.js:9-16 | with distinct keys, no key appears twice |
| LogQueries.QueriesHaveNoDuplicates | campaign-manager-frontend/src/services/logs.js:55-56 | the stats query holds at most the two dates, and no query repeats a key |
| LogQueries.MapFailure | campaign-manager-frontend/src/services/logs.js:20-26 | a 403 becomes the endpoint's fixed message; any other failure passes through unchanged |
| LogQueries.MappedFailureHasNoForbiddenResponse | campaign-manager-frontend/src/services/logs.js:20-26 | no failure a caller sees carries a 403 response; a failure passes through unchanged exactly when it is not a 403 |
| LogFilters.InitialFilters | campaign-manager-frontend/src/hooks/useActivityLogs.js:9-19 | the first filters are the defaults overridden by the initial filters |
| LogFilters.UpdateFilters | campaign-manager-frontend/src/hooks/useActivityLogs.js:62-66 | new values win over old ones, old ones are kept otherwise, and the page is 1 |
| LogFilters.ChangePage | campaign-manager-frontend/src/hooks/useActivityLogs.js:68-72 | only the page changes |
| LogFilters.ResetFilters | campaign-manager-frontend/src/hooks/useActivityLogs.js:74-87 | reset gives the fixed defaults whatever the current filters |
| LogFilters.UpdateIgnoresSuppliedPage | campaign-manager-frontend/src/hooks/useActivityLogs.js:63 | a page supplied with an update is overridden |
| LogFilters.FilterTransitions | campaign-manager-frontend/src/components/logs/ActivityLogViewer.jsx:72-82 | repeating an update changes nothing more; a second page change overrides the first; after an update, going to page 1 changes nothing |
| LogFilters.ResetForgetsInitialFilters | campaign-manager-frontend/src/hooks/useActivityLogs.js:74-87 | reset returns to the first state iff the initial filters only repeat defaults |
| LogFilters.ViewerStartsFromDefaults | campaign-manager-frontend/src/components/logs/ActivityLogViewer.jsx:18-27 | the viewer's own initial filters and its reset are the hook's defaults |
| LogFilters.StatsGuardReadsThreeKeys | campaign-manager-frontend/src/hooks/useActivityLogs.js:43 | whether statistics load depends only on user, action and status |
| LogFilters.StatsQueryFromFilters | campaign-manager-frontend/src/hooks/useActivityLogs.js:45-48 | the statistics request carries the same query as the filters' own dates |
| LogFilters.ErrorText | campaign-manager-frontend/src/hooks/useActivityLogs.js:55 | the server's truthy `error` field of an HTTP failure, otherwise the fallback |
| LogFilters.LoadLogs | campaign-manager-frontend/src/hooks/useActivityLogs.js:30-60 | a failed load keeps the old data and sets the error text; a success replaces the data with defaults for falsy fields, clears the error, and takes statistics only when the guard allows and they arrive |
| LogFilters.ForbiddenShowsGenericText | campaign-manager-frontend/src/services/logs.js:22-24 | a 403 from the logs endpoint shows "Failed to load activity logs", not the admin message |
| LogFilters.StatsFailureIsSilent | campaign-manager-frontend/src/hooks/useActivityLogs.js:50-52 | a failed statistics request sets no error and keeps the old statistics |
| Paging.WindowSize | campaign-manager-frontend/src/components/logs/ActivityLogViewer.jsx:354 | five slots, or the page count when that is smaller, never negative |
| Paging.WindowStart | campaign-manager-frontend/src/components/logs/ActivityLogViewer.jsx:355 | the window starts at the larger of 1 and page − 2 |
| Paging.SlotsAreRun | campaign-manager-frontend/src/components/logs/ActivityLogViewer.jsx:354-356 | the kept slots are the consecutive run from the start, up to the last page |
| Paging.WindowSpec | campaign-manager-frontend/src/components/logs/ActivityLogViewer.jsx:354-356 | at most five consecutive buttons, and a page is shown iff it is in the window and not beyond the last page |
| Paging.WindowShowsCurrentPage | campaign-manager-frontend/src/components/logs/ActivityLogViewer.jsx:354-356 | a current page within range is always shown |
| Paging.WindowAtTheEnd | campaign-manager-frontend/src/components/logs/ActivityLogViewer.jsx:355-356 | at page 10 of 10 the window shrinks to 8, 9, 10 instead of shifting back |
| Paging.ShowNavigation | campaign-manager-frontend/src/components/logs/ActivityLogViewer.jsx:315 | navigation shows iff the page count is known and above 1 |
| Paging.Neighbour | campaign-manager-frontend/src/components/logs/ActivityLogViewer.jsx:319-332 | an arrow asks for the adjacent page only when the server says there is one |
| Paging.NavigationIffSeveralButtons | campaign-manager-frontend/src/components/logs/ActivityLogViewer.jsx:315-356 | for a current page within range, the navigation bar shows iff the numbered window holds more than one button |
| Paging.NeighbourInWindow | campaign-manager-frontend/src/components/logs/ActivityLogViewer.jsx:319-356 | when the server's `has_prev`/`has_next` flags match the page range, an enabled arrow targets a page in 1..pages that has its own numbered button |
| Paging.PageButtons | campaign-manager-frontend/src/components/common/Pagination.jsx:5-9 | nothing is rendered iff there is at most one page |
| Paging.PageButtonsSpec | campaign-manager-frontend/src/components/common/Pagination.jsx:9-25 | one button per page numbered 1..n, each clicking through to its own page, highlighted iff it is the current page; exactly one is highlighted iff 1 ≤ current ≤ n |
| Paging.ActiveCountOfRun | campaign-manager-frontend/src/components/common/Pagination.jsx:18 | in a run of numbered buttons, one is highlighted iff the current page falls inside the run |
| UploadDispatch.CollectFilesConcat | campaign-manager-frontend/src/services/campaigns.js:65-76 | collecting files distributes over concatenated property lists |
| UploadDispatch.CollectFilesMembers | campaign-manager-frontend/src/services/campaigns.js:65-76 | a (key, file) pair is collected iff it is an own property holding a File |
| UploadDispatch.UploadImages | campaign-manager-frontend/src/services/campaigns.js:53-109 | a FormData is posted as it is, or resolves with the empty-form message; an object posts its collected files or resolves with "No new files to upload."; anything else rejects; a post always goes to `/uploads/<id>` with at least one entry |
| UploadDispatch.ObjectMatchesFormData | campaign-manager-frontend/src/services/campaigns.js:62-84 | an object posts exactly what a FormData holding its collected files would |
| UploadDispatch.PostIffFiles | campaign-manager-frontend/src/services/campaigns.js:93-108 | a request goes out iff there is at least one entry; the empty-form message answers only an empty FormData; "No new files" only an object without own File properties |
| UploadDispatch.InheritedIgnored | campaign-manager-frontend/src/services/campaigns.js:66 | an inherited property never changes the result |

## Left out

- Flask wiring, the app factory, configuration and runners are not modelled. The users blueprint that api/__init__.py imports as `users_bp` is not defined by api/users.py (which names it `bp`); the model treats the user routes as registered.
- SQL persistence is not modelled: stores are maps. The database's list order is not modelled either, so `ListUsers` and `ListCampaigns` return maps.
- Foreign-key cascades are not modelled beyond the campaign's own `delete-orphan` image cascade and the failed delete of a campaign owner.
- UsersApi.DeleteUserSpec: deleting a user also sets `activity_logs.user_id` to NULL for that user's log rows (models/log.py:16-21); the user model does not hold the log table, so this is not stated.
- `os.makedirs`, saving and unlinking are abstract steps on a set of paths. An unlink that fails and is swallowed is modelled as succeeding.
- `save_image`, which api/uploads.py imports, is not defined in api/utils.py. The model takes its result to be the folder path, `/` and the file name.
- Path normalisation by `pathlib` and `os.path.join` with an absolute name are not modelled.
- PyJWT decoding, password hashing and `atob`/`JSON.parse` are parameters.
- JwtClient.DecodeJwt: the token is always a string. A `null` token (nothing stored) makes `token.split` throw, and `decodeJWT` then returns `null`, as for any other malformed token; the model cannot express that input.
- CampaignsApi.UpdateCampaignSpec: a body key present with JSON `null` or a non-string value is not modelled (fields are optional strings, `None` meaning absent). In the source, `"name": null` sets the name to `None` and the commit fails on the NOT NULL column (models/campaign.py:25), so nothing is stored; a `null` or numeric `start_date` or `end_date` makes `date.fromisoformat` raise `TypeError` (api/campaigns.py:72-74).
- Uploads.ProcessImages: image records are keyed by (campaign, type), which builds in an at-most-one-record rule that `campaign_images` does not enforce (models/campaign.py:53-62). With duplicate rows already present, `.first()` (api/uploads.py:47-49) updates only one of them; the model cannot express duplicates.
- `is_active` is not a column of `User` (models/user.py:13-22). As written, auth/decorators.py:25 would raise `AttributeError` for every user the token resolves to, so no authenticated request would get through. The model takes it as an opaque predicate parameter of `Auth.Authenticate` instead.
- A non-object JSON request body is not modelled. Request bodies are maps of own keys, and JSON values carry only their kind and, for containers, their size.
- CampaignsApi.CreateCampaignSpec: JSON `null` and non-string values for the campaign fields are not modelled (fields are optional strings).
- UsersApi.CreateUser: a truthy non-string e-mail is modelled as raising `TypeError`. The real failure depends on how the database driver treats the value.
- Dates.FromIsoFormat: models only the strict `YYYY-MM-DD` form. The extra formats Python 3.11 accepts are left out.
- Dates.IsoFormat: assumes `%Y` renders four digits, as it does for years 1000 and later. Platforms differ below that.
- Strings.Lower: case mapping covers ASCII letters only.
- LogHelpers.FormatDuration: the seconds branch (a float with one decimal) returns `None`. Floating point is out of scope. A negative duration renders as, for example, "-5ms", as the source does.
- JwtClient.IsTokenExpired: an `exp` that is neither a number nor a boolean goes through an opaque number coercion. Numbers are integers, so `exp × 1000` never loses precision as a JavaScript double would.
- JavaScript numbers of magnitude 10^21 or more (which render in exponent form) and fractional numbers are not modelled.
- URL percent-encoding of query strings is not modelled: a query is its list of pairs.
- LogFilters.LoadLogs: a response without `data` (which throws and lands in the error branch) is not modelled, and neither are the loading flag between the two awaits, React state batching and the effect that loads on mount.
- Export and CSV download (`exportLogsData`) are modelled only through their query (`LogQueries.ExportParams`).
- Paging.Neighbour: the `has_prev`/`has_next` flags come from the server and are taken as given.
- UploadDispatch.UploadImages: `for...in` enumeration order (integer-like keys first) is taken as given in the property list. A `File` is represented by its name.
- Rendering, styling, routing, time zones and `toLocaleString` are not modelled.
