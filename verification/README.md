# Ovo task manager: credentials, tasks and client state in Dafny

This project models the core of Ovo, a task manager with three parts: an
Express/Prisma backend, a React Native mobile app and a Vue web app. Every
part is written as immutable datatypes with pure transition functions, and
the properties are proved about those functions. The modelled pieces are:

- **Refresh-token lifecycle** (`AuthService`). Register, login,
  rotate-on-refresh and logout act on a store of users keyed by e-mail and
  a table of refresh tokens keyed by their value.
- **API-key manager** (`ApiKeys`). Covers the `ovo_k_` key layout and the
  12-character display prefix, hash-only storage and the ten-keys-per-user
  quota. It also covers the newest-first listing, owner-scoped revocation
  and prefix-gated validation.
- **Bearer-header gate** (`AuthMiddleware`). Covers header parsing, the
  secret check and the mapping from each JWT failure to an HTTP error.
- **Task repository** (`TaskService`). Covers:
  - the enum maps and serialisation;
  - owner-scoped get, update and delete;
  - filtering, ordering and pagination;
  - completion statistics.
- **Validation layer**. `Zod` is the subset of zod's string, enum, number,
  array, optional and default semantics that the schemas use. The request
  schemas are in `AuthSchemas` and `TaskSchemas`. The `validate` middleware
  is in `ValidateMiddleware`; it routes a parsed request and groups issues
  by field.
- **Clients**. `MobileTaskStore` is the zustand store. `WebTaskStore` is the
  Pinia store. `TaskLists` holds the list updates both stores share.
  `WebRouter` is the route table and the `beforeEach` guard.

External effects are parameters:

- bcrypt, SHA-256 and JWT signing and verification are function-typed
  parameters or results handed in (`Signer`, `verify`, `hash`,
  `passwordMatches`).
- `crypto.randomBytes` output and database ids are fresh inputs, each with
  a precondition that it is unused.
- "Now" is an integer number of milliseconds.
- zod's e-mail, URL and datetime formats and JavaScript's `Number(...)`
  coercion are predicates or functions in `Zod.Formats` and `fromText`.
- An asynchronous client action is split in two. One function gives the
  state at the call, together with the request it sends. Another gives the
  state when the request settles.

Some behaviours of the code are modelled as written and stated as lemmas:

- If `JWT_ACCESS_SECRET` is unset, register has already created the user
  before failing. Refresh has likewise already deleted the presented token
  (`AuthService.RegisterWithoutSecret`, and the contract of
  `AuthService.Refresh`).
- Length bounds are checked before `.trim()`. A title of blanks is
  therefore accepted and stored as "" (`TaskSchemas.BlankTitleAccepted`).
  A name of " a " passes the two-character minimum
  (`AuthSchemas.RegisterNameCheckedBeforeTrim`).
- The password lookaheads `(?=.*[a-z])` etc. do not look past a line
  terminator, because `.` stops there (`AuthSchemas.PasswordPatternMeaning`).
- The bearer token is the second space-separated word. Further words are
  ignored (`AuthMiddleware.TrailingWordsIgnored`).
- On mobile, an appending fetch writes back the list it read when it
  started. A task created while that fetch is in flight is lost when it
  lands (`MobileTaskStore.CreateDuringAppendIsLost`).
- On the web, `editTask` replaces only the first task with a matching id
  (`WebTaskStore.EditLeavesLaterDuplicate`). Mobile's `updateTask` replaces
  every task with that id.

## Model

| member | source | states |
|---|---|---|
| Text.Trim | apps/backend/src/shared/validation.ts:12 | The trimmed string occurs inside the input, is no longer, and neither begins nor ends with JavaScript white space (line terminators, spaces and the BOM) |
| Text.TrimMeaning | apps/backend/src/shared/validation.ts:12 | Trimming cuts only white space: the result is a slice of the input and everything cut from either end is white space |
| Text.AllBlankTrimsEmpty | apps/backend/src/shared/validation.ts:12 | A string of white space only trims to the empty string |
| Text.TrimIdempotent | apps/backend/src/shared/validation.ts:12 | Trimming a trimmed string changes nothing |
| Text.LowerMeaning | apps/backend/src/shared/validation.ts:13 | Lower-casing keeps the length, leaves no ASCII capital, turns each capital into its small letter, keeps every other character, and is idempotent |
| Text.Split | apps/backend/src/middleware/auth.ts:24 | `split(" ")` yields at least one piece, and no piece contains the separator |
| Text.SplitJoin | apps/backend/src/middleware/auth.ts:24 | Joining the pieces of a split with the separator gives back the original string |
| Text.JoinCons | apps/backend/src/middleware/auth.ts:24 | A piece in front of a non-empty list is joined to it with one separator |
| Text.IndexOf | apps/backend/src/middleware/auth.ts:24 | The first position of the character, or the length when it is absent |
| Text.IndexOfAt | apps/backend/src/middleware/auth.ts:24 | The first occurrence is the position holding the character with no occurrence before it |
| Text.NatToString | apps/backend/src/middleware/validate.ts:21 | An array index in an issue path is rendered as decimal digits that read back as the index, with no leading zero unless the index is 0 |
| Text.Join | apps/backend/src/middleware/validate.ts:21 | Joining one piece gives that piece, and joining none gives "" |
| Zod.RunChecksCons | apps/backend/src/shared/validation.ts:8-12 | A chain runs its first check, then the rest on what that check left, keeping the first check's failures ahead of the rest's |
| Zod.TrimOnlyRun | packages/shared/src/validation.ts:40-43 | `.trim()` alone never fails and yields the trimmed string |
| Zod.MaxThenTrimRun | packages/shared/src/validation.ts:40-43 | `.max(n).trim()` trims its output and fails exactly when the untrimmed length exceeds n |
| Zod.BoundsThenTrimRun | apps/backend/src/shared/validation.ts:8-12 | `.min(a).max(b).trim()` trims its output and reports the too-short and too-long messages, in that order, for the untrimmed length |
| Zod.KeepingTwoThenOneRun | apps/backend/src/shared/validation.ts:8-12 | Two checks that leave the value alone, then one that never fails such as `.trim()`, report the two checks' failures on the original value in order and yield the last check's output |
| Zod.KeepingOneThenOneRun | packages/shared/src/validation.ts:40-43 | A check that leaves the value alone, then one that never fails, report the first check's failures on the original value and yield the second check's output |
| Zod.BoundsThenMatchRun | apps/backend/src/shared/validation.ts:14-21 | `.min(a).max(b).regex(r)` leaves the value alone and reports the too-short, too-long and mismatch messages, in that order, for each check that fails |
| Zod.KeepingThreeRun | apps/backend/src/shared/validation.ts:14-21 | Three checks that leave the value alone report their failures in chain order |
| Zod.ParseString | apps/backend/src/shared/validation.ts:8-13 | A non-string gives one type issue; a string is accepted exactly when its check chain reports nothing, and the value is the chain's output |
| Zod.ParseEnum | packages/shared/src/validation.ts:45-46 | Accepted exactly when the value is one of the listed strings, and then unchanged; otherwise a single issue |
| Zod.Optional | packages/shared/src/validation.ts:68-70 | An absent field is accepted as absent; a present one is accepted exactly when the inner schema accepts it, with that value, and otherwise fails with the inner schema's issues |
| Zod.WithDefault | packages/shared/src/validation.ts:44-46 | An absent field is parsed as the default value through the inner schema; a present one as itself |
| Zod.CheckNumber | apps/backend/src/shared/validation.ts:124-125 | A number is accepted exactly when none of its checks fails, and is kept as it is |
| Zod.ParseNumber | apps/backend/src/shared/validation.ts:124-125 | Only numbers are accepted, each as itself, and a number is judged by its checks |
| Zod.ParseCoercedNumber | packages/shared/src/validation.ts:71-72 | A value that converts to no number gives the single "Expected number, received nan" issue; otherwise the converted number is checked |
| Zod.ParseItems | apps/backend/src/shared/validation.ts:114-115 | All elements are accepted exactly when each is, and the values line up with the elements |
| Zod.ParseArray | apps/backend/src/shared/validation.ts:114-117 | An array is accepted exactly when its length is within the bounds and every element is accepted, and the values line up with the elements |
| AuthSchemas.FirstLine | apps/backend/src/shared/validation.ts:19 | The longest prefix without a line terminator: what `.*` can reach |
| AuthSchemas.LookaheadMeaning | apps/backend/src/shared/validation.ts:19 | `^(?=.*[class])` matches exactly when the first line holds a character of the class |
| AuthSchemas.PasswordPatternMeaning | apps/backend/src/shared/validation.ts:18-21 | The password pattern holds exactly when the first line has an ASCII lower-case letter, an upper-case letter and a digit |
| AuthSchemas.SingleLinePassword | apps/backend/src/shared/validation.ts:18-21 | For a one-line password, the pattern holds exactly when the password has all three character kinds |
| AuthSchemas.NameChecksRun | apps/backend/src/shared/validation.ts:8-12 | The register name passes when it has 2 to 50 characters before trimming, and is trimmed |
| AuthSchemas.EmailChecksRun | apps/backend/src/shared/validation.ts:13 | The e-mail passes when the format accepts the raw text, and comes out trimmed, then lower-cased |
| AuthSchemas.PasswordChecksRun | apps/backend/src/shared/validation.ts:14-21 | The password passes when it has 8 to 128 characters and matches the pattern, and is not altered |
| AuthSchemas.ApiKeyNameChecksRun | apps/backend/src/shared/validation.ts:88-94 | An API-key name passes when it has 1 to 50 characters before trimming, and is trimmed |
| AuthSchemas.RequiredChecksRun | apps/backend/src/shared/validation.ts:26-30 | A `.min(1)` string passes exactly when it is non-empty, and is unchanged |
| AuthSchemas.RegisterSchemaMeaning | apps/backend/src/shared/validation.ts:7-22 | Register accepts exactly an object with a 2 to 50 character name, a well-formed e-mail and an acceptable password, and yields the trimmed name and the trimmed, lower-cased e-mail |
| AuthSchemas.NameFieldMeaning | apps/backend/src/shared/validation.ts:8-12 | The name field is accepted exactly when it is text of 2 to 50 characters, and yields it trimmed |
| AuthSchemas.EmailFieldMeaning | apps/backend/src/shared/validation.ts:13 | The e-mail field is accepted exactly when it is text the format check accepts, and yields it trimmed, then lower-cased |
| AuthSchemas.PasswordFieldMeaning | apps/backend/src/shared/validation.ts:14-21 | The password field is accepted exactly when it is an acceptable password, and yields it unchanged |
| AuthSchemas.LoginSchemaMeaning | apps/backend/src/shared/validation.ts:24-27 | Login accepts exactly a well-formed e-mail and a non-empty password, and normalises the e-mail |
| AuthSchemas.RefreshTokenSchemaMeaning | apps/backend/src/shared/validation.ts:29-31 | A refresh request is accepted exactly when the token is a non-empty string, which is passed on unchanged |
| AuthSchemas.CreateApiKeySchemaMeaning | apps/backend/src/shared/validation.ts:88-94 | A key request is accepted exactly when the name has 1 to 50 characters, and the name is trimmed |
| AuthSchemas.EhLoginRedirectSchemaMeaning | apps/backend/src/shared/validation.ts:99-101 | Accepted exactly when `redirect_uri` is a URL, and then unchanged; any other string gives the single "Invalid redirect URI" issue under that field |
| AuthSchemas.NotificationSettingsMeaning | apps/backend/src/shared/validation.ts:123-126 | Accepted exactly when hour is a whole number from 0 to 23 and minute a whole number from 0 to 59 |
| AuthSchemas.ClockFieldMeaning | apps/backend/src/shared/validation.ts:124-125 | An `int().min(0).max(n)` number field is accepted exactly when it is a whole number from 0 to n, and yields it unchanged |
| AuthSchemas.DailySummaryBounds | apps/backend/src/shared/validation.ts:112-120 | An accepted summary has 1 to 5 focus tasks, and an empty or over-long list is refused |
| AuthSchemas.ExamplePasswordAcceptable | apps/backend/src/shared/validation.ts:14-21 | "Passw0rd" is an acceptable password |
| AuthSchemas.OneLineAcceptable | apps/backend/src/shared/validation.ts:14-21 | A one-line password of 8 to 128 characters with a lower-case letter, an upper-case letter and a digit anywhere is acceptable |
| AuthSchemas.FirstLineOfOneLine | apps/backend/src/shared/validation.ts:19 | Text without a line terminator is its own first line, so `.*` reaches all of it |
| AuthSchemas.ExampleNameTrimmed | apps/backend/src/shared/validation.ts:12 | `" a "` trims to `"a"` |
| AuthSchemas.RegisterNameCheckedBeforeTrim | apps/backend/src/shared/validation.ts:8-12 | The name " a " passes the two-character minimum and is stored as "a" |
| TaskSchemas.ParseStatus | packages/shared/src/validation.ts:45 | Status names: only the three listed ones |
| TaskSchemas.ParsePriority | packages/shared/src/validation.ts:46 | Priority names: only the three listed ones |
| TaskSchemas.ParseSortField | packages/shared/src/validation.ts:73-75 | Sort fields: only the four listed ones |
| TaskSchemas.ParseSortOrder | packages/shared/src/validation.ts:76 | Sort orders: only "asc" and "desc" |
| TaskSchemas.TitleChecksRun | packages/shared/src/validation.ts:35-39 | A title passes when it has 1 to 200 characters before trimming, and is trimmed |
| TaskSchemas.DescriptionChecksRun | packages/shared/src/validation.ts:40-43 | A description passes when it has at most 2000 characters before trimming, and is trimmed |
| TaskSchemas.SearchChecksRun | packages/shared/src/validation.ts:70 | A search passes when it has at most 200 characters, and is not altered |
| TaskSchemas.ParseTitleMeaning | packages/shared/src/validation.ts:35-39 | A title is accepted exactly when it is a string of 1 to 200 characters, and is trimmed |
| TaskSchemas.ParseDescriptionMeaning | packages/shared/src/validation.ts:40-43 | A description is accepted exactly when it is a string of at most 2000 characters, and is trimmed |
| TaskSchemas.ParseDueDateMeaning | packages/shared/src/validation.ts:47 | A due date is accepted exactly when it is absent, null or a datetime string; these mean unchanged, cleared and that instant |
| TaskSchemas.DescriptionFieldMeaning | packages/shared/src/validation.ts:40-44 | An absent description becomes "", and a present one is checked and trimmed |
| TaskSchemas.StatusFieldMeaning | packages/shared/src/validation.ts:45 | An absent status becomes "pending"; a present one must be listed |
| TaskSchemas.PriorityFieldMeaning | packages/shared/src/validation.ts:46 | An absent priority becomes "medium"; a present one must be listed |
| TaskSchemas.CreateTaskSchemaMeaning | packages/shared/src/validation.ts:34-48 | The exact set of accepted create bodies, with trimmed text and the defaults filling what is absent |
| TaskSchemas.BlankTitleAccepted | packages/shared/src/validation.ts:35-39 | A title of three blanks is accepted and stored as "" |
| TaskSchemas.OptionalTitleMeaning | packages/shared/src/validation.ts:51-56 | An update title is absent, or a string of 1 to 200 characters, which is trimmed |
| TaskSchemas.OptionalDescriptionMeaning | packages/shared/src/validation.ts:57-61 | An update description is absent, or a string of at most 2000 characters, which is trimmed |
| TaskSchemas.UpdateTaskSchemaMeaning | packages/shared/src/validation.ts:50-65 | The exact set of accepted update bodies; a field left out stays absent and no default applies |
| TaskSchemas.ParsePageMeaning | packages/shared/src/validation.ts:71 | A page is absent (then 1) or converts to a positive whole number |
| TaskSchemas.ArrayText | packages/shared/src/validation.ts:71-72 | An array's text exists exactly when every element renders; the empty array gives the empty text and a one-element array its element's text |
| TaskSchemas.ArrayNumbers | packages/shared/src/validation.ts:71-72 | `Number([])` reads the empty text, `Number(["3"])` reads "3", and a two-element array reads the comma-joined text |
| TaskSchemas.ParseLimitMeaning | packages/shared/src/validation.ts:72 | A limit is absent (then 20) or converts to a whole number from 1 to 100 |
| TaskSchemas.TaskFiltersSchemaMeaning | packages/shared/src/validation.ts:67-77 | The exact set of accepted list queries: an object whose enumerated fields are absent or listed, whose search is absent or at most 200 characters, and whose page and limit are absent or convert to positive whole numbers, the limit at most 100 |
| TaskSchemas.TaskFiltersValues | packages/shared/src/validation.ts:67-77 | Accepted filters have a page of at least 1 and a limit of 1 to 100, each equal to the converted parameter, a search of at most 200 characters, and page 1, limit 20, no search, "createdAt" and "desc" for absent parameters |
| TaskSchemas.TaskFiltersParts | packages/shared/src/validation.ts:67-77 | Accepted filters carry each field parser's value (status, priority, search, sort field and order), page and limit floored |
| TaskSchemas.TaskFiltersChoices | packages/shared/src/validation.ts:68-76 | Accepted filters hold the given status and priority, or none when absent, and the given sort field and order, or "createdAt" and "desc" when absent |
| TaskSchemas.FilterEnumsMeaning | packages/shared/src/validation.ts:68-76 | Each enumerated filter is accepted exactly when absent or one of its options; its value is the given option, or none, "createdAt" or "desc" when absent |
| TaskSchemas.OptionalSearchMeaning | packages/shared/src/validation.ts:70 | The search parameter is accepted exactly when absent or text of at most 200 characters, and is kept as given |
| TaskSchemas.EmptyQueryDefaults | packages/shared/src/validation.ts:67-77 | An empty query means page 1 of 20, newest first, unfiltered |
| AuthService.GenerateAccessToken | apps/backend/src/services/auth.ts:15-19 | Signing fails exactly when the access secret is unset, with the 500 configuration error |
| AuthService.View | apps/backend/src/services/auth.ts:42-48 | The returned user carries id, name, e-mail and timestamps of the stored user, and its type has no password hash |
| AuthService.Register | apps/backend/src/services/auth.ts:25-70 | A taken e-mail fails with 409 and changes nothing; a success returns a user with that e-mail and the fresh refresh token |
| AuthService.Login | apps/backend/src/services/auth.ts:72-107 | A failed login changes nothing; a success is for a stored e-mail and returns that user's view |
| AuthService.Refresh | apps/backend/src/services/auth.ts:109-142 | An unknown value fails with 401 and changes nothing; success hands out the fresh token; the presented value is gone from the store afterwards either way |
| AuthService.Logout | apps/backend/src/services/auth.ts:144-148 | The value is gone afterwards, every other token keeps its record, nothing is added and the users are untouched |
| AuthService.AddsOneTokenCount | apps/backend/src/services/auth.ts:54-60 | Issuing one fresh token grows the token table by one |
| AuthService.RegisterSuccess | apps/backend/src/services/auth.ts:34-60 | A successful register was for a new e-mail, adds exactly that user and exactly one token for them that expires seven days after now |
| AuthService.RegisterDuplicate | apps/backend/src/services/auth.ts:26-32 | Registering a taken e-mail fails with 409 and leaves the store as it was |
| AuthService.RegisterWithoutSecret | apps/backend/src/services/auth.ts:36-51 | With no access secret, register still creates the user, issues no token and fails; a retry then meets the duplicate e-mail error |
| AuthService.LoginSuccess | apps/backend/src/services/auth.ts:81-95 | A successful login had a stored e-mail and a matching password, and adds exactly one token for that user |
| AuthService.LoginFailuresIndistinguishable | apps/backend/src/services/auth.ts:77-84 | An unknown e-mail and a wrong password give the same 401 error and the same unchanged store |
| AuthService.RefreshExpiryBoundary | apps/backend/src/services/auth.ts:119-122 | A token past its expiry is deleted and refused; one expiring exactly now is still accepted |
| AuthService.RefreshRotates | apps/backend/src/services/auth.ts:124-136 | A successful refresh removes the presented token and adds one for the same user, so the number of tokens stays the same |
| AuthService.RefreshReplayFails | apps/backend/src/services/auth.ts:115-125 | Presenting a rotated-out token again fails with "Invalid refresh token" |
| AuthService.RegisteredTokenRefreshable | apps/backend/src/services/auth.ts:54-60 | The token register hands out refreshes exactly until seven days after registration |
| AuthService.LogoutIdempotent | apps/backend/src/services/auth.ts:144-148 | Logging out twice is the same as logging out once |
| AuthService.RegisterKeepsValid | apps/backend/src/services/auth.ts:25-70 | Register keeps every user stored under their own e-mail, with distinct ids, and every token owned by a stored user |
| AuthService.AddUserKeepsValid | apps/backend/src/services/auth.ts:36-49 | A new user under an unused e-mail and a fresh id keeps the store valid and adds exactly that id |
| AuthService.IssueRefreshKeepsValid | apps/backend/src/services/auth.ts:54-60 | A refresh token for a stored user keeps the store valid |
| AuthService.LoginKeepsValid | apps/backend/src/services/auth.ts:72-107 | Login keeps the store well formed |
| AuthService.RefreshKeepsValid | apps/backend/src/services/auth.ts:109-142 | Refresh keeps the store well formed |
| AuthService.LogoutKeepsValid | apps/backend/src/services/auth.ts:144-148 | Logout keeps the store well formed |
| ApiKeys.GenerateRawKey | apps/backend/src/services/apiKeys.ts:9-14 | A raw key is "ovo_k_" then 64 hex characters, 70 in all |
| ApiKeys.PayloadRoundTrip | apps/backend/src/services/apiKeys.ts:12-14 | Removing the prefix from a generated key gives back the random hex |
| ApiKeys.GetPrefix | apps/backend/src/services/apiKeys.ts:20-23 | The display prefix is the first 12 characters, or the whole key if shorter |
| ApiKeys.GeneratedPrefix | apps/backend/src/services/apiKeys.ts:20-23 | A generated key's prefix is "ovo_k_" and the first six hex characters |
| ApiKeys.KeysOf | apps/backend/src/services/apiKeys.ts:27 | The keys kept are exactly the user's |
| ApiKeys.Create | apps/backend/src/services/apiKeys.ts:25-57 | At ten keys or more the call fails with 400 and changes nothing; otherwise it appends one record holding the hash and prefix of the returned raw key |
| ApiKeys.Insert | apps/backend/src/services/apiKeys.ts:69 | Inserting into a newest-first list keeps it newest first and adds exactly that row |
| ApiKeys.SortNewestFirst | apps/backend/src/services/apiKeys.ts:69 | The result is newest first and a permutation of the input |
| ApiKeys.List | apps/backend/src/services/apiKeys.ts:59-77 | The listing is newest first and holds exactly the views of the caller's keys |
| ApiKeys.RemoveId | apps/backend/src/services/apiKeys.ts:88 | Exactly the keys with another id remain |
| ApiKeys.Revoke | apps/backend/src/services/apiKeys.ts:79-89 | A missing key and another user's key fail alike with 404 and change nothing; otherwise exactly that key is removed |
| ApiKeys.FindByHash | apps/backend/src/services/apiKeys.ts:102-105 | Finds a stored key with that hash exactly when one exists |
| ApiKeys.Validate | apps/backend/src/services/apiKeys.ts:95-122 | No prefix gives null; otherwise the result is the owner of a key whose hash matches, and it is null exactly when none does |
| ApiKeys.RecordUse | apps/backend/src/services/apiKeys.ts:111-119 | Each key with the used id gets last-use time `now`; every key keeps all its other fields, and keys with another id are unchanged |
| ApiKeys.KeysOfAppend | apps/backend/src/services/apiKeys.ts:36-42 | Appending a key adds it to its owner's keys only |
| ApiKeys.KeysOfRemoveId | apps/backend/src/services/apiKeys.ts:88 | Deleting a key never raises anyone's key count |
| ApiKeys.CreateCounts | apps/backend/src/services/apiKeys.ts:27-42 | A create that succeeds found fewer than ten keys, raises the creator's count by one and no one else's |
| ApiKeys.CreateKeepsQuota | apps/backend/src/services/apiKeys.ts:27-30 | Creates never take a user past ten keys |
| ApiKeys.RevokeKeepsQuota | apps/backend/src/services/apiKeys.ts:79-89 | Revokes never take a user past ten keys |
| ApiKeys.CreateKeepsValid | apps/backend/src/services/apiKeys.ts:32-49 | Create keeps ids and hashes unique |
| ApiKeys.RemoveIdIsSubsequence | apps/backend/src/services/apiKeys.ts:88 | Deleting keys keeps ids and hashes unique |
| ApiKeys.RevokeKeepsValid | apps/backend/src/services/apiKeys.ts:79-89 | Revoke keeps ids and hashes unique |
| ApiKeys.ValidateCreated | apps/backend/src/services/apiKeys.ts:25-57 | A key just created validates to its creator |
| ApiKeys.FindAppendedHash | apps/backend/src/services/apiKeys.ts:102-105 | A freshly appended key is found by its hash |
| ApiKeys.ValidateRevoked | apps/backend/src/services/apiKeys.ts:79-122 | A revoked key no longer validates |
| ApiKeys.RecordUseKeepsValidation | apps/backend/src/services/apiKeys.ts:111-121 | Recording a use never changes what any key validates to |
| ApiKeys.RecordUseKeepsLookup | apps/backend/src/services/apiKeys.ts:111-119 | Recording a use keeps which key each hash finds |
| AuthMiddleware.PrefixSplit | apps/backend/src/middleware/auth.ts:20-24 | Splitting a "Bearer " header gives "Bearer" followed by the pieces of the rest |
| AuthMiddleware.BearerTokenIsAfterPrefix | apps/backend/src/middleware/auth.ts:24 | The second piece of the split is the text after "Bearer " up to the next space |
| AuthMiddleware.AuthenticateMeaning | apps/backend/src/middleware/auth.ts:12-45 | A request is authenticated exactly when the header starts with "Bearer ", the secret is set and the token verifies, and then the user id is the token's claim |
| AuthMiddleware.HeaderCheckedFirst | apps/backend/src/middleware/auth.ts:20-22 | A missing or non-Bearer header gives 401 "Authentication required" whatever the secret |
| AuthMiddleware.RejectionReasons | apps/backend/src/middleware/auth.ts:25-44 | A missing secret gives 500; expiry, a bad token and any other failure give their own 401 errors |
| AuthMiddleware.TrailingWordsIgnored | apps/backend/src/middleware/auth.ts:24 | Words after the token do not change the decision |
| ValidateMiddleware.FromParsed | apps/backend/src/middleware/validate.ts:10 | A parse returns the value exactly when the schema accepts, and otherwise throws a ZodError with its issues |
| ValidateMiddleware.MessagesAt | apps/backend/src/middleware/validate.ts:19-24 | The messages of the issues at one key, in order, are no more than the issues |
| ValidateMiddleware.AddMessage | apps/backend/src/middleware/validate.ts:22-23 | Appending a message changes only that key's list, which gains the message at its end (a new list when the key was absent), and adds one message in all |
| ValidateMiddleware.AddMessageKeepsShape | apps/backend/src/middleware/validate.ts:19-24 | Appending a message keeps the keys distinct and every list non-empty |
| ValidateMiddleware.LookupSome | apps/backend/src/middleware/validate.ts:22 | A key has a list exactly when some entry carries it |
| ValidateMiddleware.GroupIssues | apps/backend/src/middleware/validate.ts:19-24 | Each key lists exactly the messages of the issues at that path, in issue order; keys are distinct, lists are non-empty, and the message total is the issue count |
| ValidateMiddleware.ValidateMeaning | apps/backend/src/middleware/validate.ts:7-35 | A body parse replaces the body and a query parse fills the validated query, then the request continues; a ZodError gives 400 "Validation failed" with the grouped errors; any other error is passed on as it is |
| ValidateMiddleware.SameFieldMessagesGrouped | apps/backend/src/middleware/validate.ts:19-24 | Two password issues give one "password" entry with both messages in order |
| Ordering.Insert | apps/backend/src/services/tasks.ts:71 | Inserting into a sorted list keeps it sorted and adds exactly that element |
| Ordering.PrependSorted | apps/backend/src/services/tasks.ts:71 | An element no later than every member of a sorted list keeps it sorted when put in front |
| Ordering.NotAfterMembers | apps/backend/src/services/tasks.ts:71 | An element no later than every member of a list and than one more element is no later than any member of a rearrangement of the two |
| Ordering.LastSplit | apps/backend/src/services/tasks.ts:71 | A non-empty list holds the elements of its prefix plus its last element |
| Ordering.Sort | apps/backend/src/services/tasks.ts:71 | The result is sorted and a permutation of the input |
| Ordering.SortMembers | apps/backend/src/services/tasks.ts:71 | Sorting neither adds nor drops an element |
| TaskService.StatusMapsInverse | apps/backend/src/services/tasks.ts:10-26 | The status map and its reverse are mutual inverses |
| TaskService.PriorityMapsInverse | apps/backend/src/services/tasks.ts:16-32 | The priority map and its reverse are mutual inverses |
| TaskService.SerializeFaithful | apps/backend/src/services/tasks.ts:34-46 | Serialising keeps id, owner and text, maps the enums back to their stored values, and gives a null due date exactly when none is stored |
| TaskService.FindOwned | apps/backend/src/services/tasks.ts:88-90 | The first task with that id owned by the user, or none exactly when there is no such task |
| TaskService.Matching | apps/backend/src/services/tasks.ts:49-64 | The kept tasks are exactly the user's tasks that pass the status, priority and case-insensitive search filters |
| TaskService.MatchingCounts | apps/backend/src/services/tasks.ts:49-64 | Each task passing the filters is kept as many times as the store holds it, and every other task is dropped |
| TaskService.TextLeTotal | apps/backend/src/services/tasks.ts:71 | Any two titles are comparable |
| TaskService.TextLeTransitive | apps/backend/src/services/tasks.ts:71 | Title order is transitive |
| TaskService.OrderIsTotalPreorder | apps/backend/src/services/tasks.ts:71 | Every sort field and direction orders tasks by a total preorder |
| TaskService.CeilDivMeaning | apps/backend/src/services/tasks.ts:82 | `ceil(total/limit)` pages cover the total with no page to spare, and a page has items exactly when its number is at most that count |
| TaskService.PageSlice | apps/backend/src/services/tasks.ts:69-70 | `skip` then `take`: at most `take` items, the k-th being the list's item at `skip + k`, non-empty exactly when `skip` is within the list and `take` is positive |
| TaskService.OrderedMembers | apps/backend/src/services/tasks.ts:49-71 | Ordering the matching tasks keeps exactly those tasks |
| TaskService.OrderedSorted | apps/backend/src/services/tasks.ts:71 | The matching tasks come out in the requested order |
| TaskService.PageSliceFrom | apps/backend/src/services/tasks.ts:69-70 | Everything in a window comes from the list |
| TaskService.PageSliceItem | apps/backend/src/services/tasks.ts:69-70 | An item of the list inside a window appears in it at its offset from the window's start |
| TaskService.GetTasksMeaning | apps/backend/src/services/tasks.ts:48-85 | A page holds at most limit tasks, each a serialised matching task of the user, and the total counts every match |
| TaskService.PaginationArithmetic | apps/backend/src/services/tasks.ts:69-83 | The page count is the least number of pages covering the total, and a page has data exactly when its number is within that count |
| TaskService.PagesCover | apps/backend/src/services/tasks.ts:69-82 | With `(page - 1) * limit` rows skipped, a page shows rows exactly when its number is at most `ceil(total / limit)` |
| TaskService.ItemOnItsPage | apps/backend/src/services/tasks.ts:66-77 | Every ordered match appears, serialised, on the page that covers its position |
| TaskService.GetTaskByIdMeaning | apps/backend/src/services/tasks.ts:87-97 | Found exactly when the user owns a task with that id; otherwise 404 "Task not found" |
| TaskService.CreateTaskMeaning | apps/backend/src/services/tasks.ts:99-112 | Create appends one task for the user with the given text, mapped enums and timestamps now; the due date is null when absent, cleared or empty |
| TaskService.CreateTaskDefaults | apps/backend/src/services/tasks.ts:99-109 | A body with only a title stores a pending, medium-priority task with an empty description and no due date |
| TaskService.UpdateTaskMeaning | apps/backend/src/services/tasks.ts:114-142 | Fails with 404 and changes nothing when the user owns no such task; otherwise other users' tasks are untouched, every field given is written to the first owned row (a null due date clears it), every field not given keeps its value, `updatedAt` is now, and the answer is that row serialised |
| TaskService.UpdateTaskChangesOwnedRow | apps/backend/src/services/tasks.ts:128-141 | The owned task is replaced by its patched version, which is what is returned |
| TaskService.RemoveId | apps/backend/src/services/tasks.ts:153 | Exactly the tasks with another id remain |
| TaskService.DeleteTaskMeaning | apps/backend/src/services/tasks.ts:144-154 | Fails with 404 and changes nothing when the user owns no such task; otherwise exactly that id is removed, and other users' tasks are kept |
| TaskService.DeleteTouchesOnlyOwner | apps/backend/src/services/tasks.ts:144-154 | In a store with unique ids, another user's task survives a delete |
| TaskService.CountWhere | apps/backend/src/services/tasks.ts:157-162 | A count never exceeds the number of tasks |
| TaskService.CountsPartition | apps/backend/src/services/tasks.ts:157-168 | Pending, in-progress and completed counts add up to the total |
| TaskService.CountBoundedByTotal | apps/backend/src/services/tasks.ts:157-162 | No status count exceeds the total |
| TaskService.QuotientBetween | apps/backend/src/services/tasks.ts:169 | A quotient is fixed by the interval its dividend lies in |
| TaskService.RoundedPercentMeaning | apps/backend/src/services/tasks.ts:169 | The rounded percentage is at most 100 and within half a point of the exact ratio; all done gives 100 and none done gives 0 |
| TaskService.StatsMeaning | apps/backend/src/services/tasks.ts:156-171 | The counts partition the total, and the completion rate lies in 0..100, is 0 with no tasks, rounds the exact ratio, and is 100 when all are completed |
| TaskLists.WithoutId | apps/mobile/stores/taskStore.ts:134 | Exactly the tasks with another id remain, and no task with that id |
| TaskLists.WithoutIdCounts | apps/mobile/stores/taskStore.ts:134 | Each task with another id is kept as many times as it occurred; tasks with the id are dropped |
| TaskLists.WithoutIdAppend | apps/mobile/stores/taskStore.ts:134 | Filtering a concatenation is the concatenation of the filtered parts |
| TaskLists.WithoutAbsentId | apps/web/src/stores/tasks.ts:69 | Filtering out an id no task has leaves the list as it is |
| TaskLists.FindIndex | apps/web/src/stores/tasks.ts:61 | -1 exactly when no task has the id; otherwise the first position with that id |
| TaskLists.ReplaceFirstMeaning | apps/web/src/stores/tasks.ts:61-62 | Nothing changes when no task has the id; otherwise exactly the first such position is replaced |
| TaskLists.ReplaceFirstIsReplaceAll | apps/web/src/stores/tasks.ts:61-62 | With at most one task per id, the web and mobile edits agree |
| TaskLists.DeleteAfterReplace | apps/mobile/stores/taskStore.ts:122-136 | Deleting an id after an update under it is the same as deleting it straight away |
| MobileTaskStore.FetchQueryMeaning | apps/mobile/stores/taskStore.ts:75-83 | The query carries the filters and sort, page 1 on a reset or else the stored page, 20 per page, and an empty search as absent |
| MobileTaskStore.FetchSucceededMeaning | apps/mobile/stores/taskStore.ts:85-92 | A reset replaces the list, an append adds to the list the call read; the page numbers come from the response and both loading flags end |
| MobileTaskStore.FetchFailedMeaning | apps/mobile/stores/taskStore.ts:93-99 | A failure keeps the list, ends both loading flags and records the server's message, or "Failed to fetch tasks" when there is none |
| MobileTaskStore.SettersChangeOnlyTheirField | apps/mobile/stores/taskStore.ts:140-163 | Each setter changes only its own field, goes back to page 1 and starts a reset fetch |
| MobileTaskStore.EmptySearchSentAsAbsent | apps/mobile/stores/taskStore.ts:78 | Clearing the search sends no search parameter |
| MobileTaskStore.LoadMoreMeaning | apps/mobile/stores/taskStore.ts:165-170 | Nothing happens on the last page or while loading; otherwise the next page is requested and appended |
| MobileTaskStore.CreateDuringAppendIsLost | apps/mobile/stores/taskStore.ts:86 | A task created while an appending fetch is in flight is gone once the fetch lands |
| MobileTaskStore.RefreshSettles | apps/mobile/stores/taskStore.ts:172-175 | A refresh asks for page 1; success replaces the list, failure keeps it, and either way it stops refreshing |
| MobileTaskStore.CreateTaskDoneMeaning | apps/mobile/stores/taskStore.ts:111-120 | The new task goes first, the rest follow, and the total grows by one |
| MobileTaskStore.UpdateAndDeleteMeaning | apps/mobile/stores/taskStore.ts:122-138 | An update replaces every task with the id in place; a delete drops every such task and lowers the total by one |
| MobileTaskStore.DeleteUndoesCreate | apps/mobile/stores/taskStore.ts:111-138 | Deleting a task just created, under a new id, restores the state |
| MobileTaskStore.DeleteAfterUpdate | apps/mobile/stores/taskStore.ts:122-138 | Deleting after an update is the same as deleting |
| MobileTaskStore.StatsAndErrorMeaning | apps/mobile/stores/taskStore.ts:102-109 | Loading stats changes only the stats, a failure changes nothing, and clearing the error changes only the error |
| MobileTaskStore.ResetRestoresInitial | apps/mobile/stores/taskStore.ts:179-194 | Reset gives the initial state, is idempotent, and its first fetch asks for exactly the server's defaults |
| WebTaskStore.ExtractErrorMeaning | apps/web/src/stores/tasks.ts:93-100 | The server's non-empty message wins, then the error's own message, then "Failed to load tasks"; an empty result only comes from an empty error message |
| WebTaskStore.LoadMeaning | apps/web/src/stores/tasks.ts:29-41 | A load asks for the filters at the page with the stored size; success replaces tasks and pagination, failure keeps them and records the message, and loading ends either way |
| WebTaskStore.ListUpdatesMeaning | apps/web/src/stores/tasks.ts:51-71 | A create reloads the page shown; an edit replaces only the first task with the id, or nothing; a removal drops every such task; none touches the pagination |
| WebTaskStore.EditLeavesLaterDuplicate | apps/web/src/stores/tasks.ts:61-62 | Of two tasks with one id, an edit replaces only the first |
| WebTaskStore.SetFilterMeaning | apps/web/src/stores/tasks.ts:73-76 | The filter reads back the value, empty text as absent; the other filters are kept and page 1 is loaded |
| WebTaskStore.ClearFiltersMeaning | apps/web/src/stores/tasks.ts:78-85 | Clearing restores the initial filters whatever was set, and loads page 1 newest first |
| WebTaskStore.StatsLoadedMeaning | apps/web/src/stores/tasks.ts:43-49 | Loading stats changes only the stats, and a failure changes nothing |
| WebRouter.EditId | apps/web/src/router/index.ts:36 | An edit path's id is one non-empty segment without "/", and the path is rebuilt from it |
| WebRouter.ResolveMeaning | apps/web/src/router/index.ts:7-52 | Every page's path resolves back to that page; any other path lands on the dashboard, which needs sign-in |
| WebRouter.GuardMeaning | apps/web/src/router/index.ts:60-70 | Sign-in is demanded exactly for an auth page without a token, remembering the full path; guests are sent to the dashboard exactly when a token exists; otherwise navigation proceeds |
| WebRouter.GuardRedirectsSettle | apps/web/src/router/index.ts:60-70 | The page a redirect leads to (login with the redirect query, or "/") is let through with the same token |
| WebRouter.PagesByToken | apps/web/src/router/index.ts:12-69 | Signed out, only login and register open; signed in, everything but those opens, and they send the user to the dashboard |
| WebRouter.UnknownPathSignedOut | apps/web/src/router/index.ts:48-65 | An unknown path, signed out, asks for login with "/" plus the original query to come back to |
| WebRouter.KnownPathSignedOut | apps/web/src/router/index.ts:20-65 | A known auth page, signed out, asks for login with its own path and query to come back to |

## Left out

- bcrypt, SHA-256, JWT signing and verification, and `crypto.randomBytes` are parameters. Their outputs are assumed fresh where the database demands uniqueness.
- Prisma is replaced by in-memory maps and sequences. Read-then-write races between concurrent requests (the key quota, the e-mail check) are concurrency and are not modelled.
- Timestamps are integers in milliseconds. `toISOString` is the `Dates` parameter.
- The Event Horizon OAuth flow is not modelled, beyond its redirect-URI schema. Neither are the AI summary service, the LLM client, rate limiting, the MCP adapter, controllers, routes and UI components.
- The authentication middleware verifies JWTs only. An API-key branch is not part of it, so `ApiKeys.Validate` stands alone.
- Logout is modelled for a defined token value only. What Prisma does with an undefined filter is not modelled.
- TaskService.StatsMeaning: `Math.round(completed / total * 100)` is integer half-up rounding of the exact ratio. Floating-point artefacts at exact halves are not modelled. Because 999 of 1000 rounds to 100, "100 only when all are completed" is not claimed.
- Text.Lower: lower-cases ASCII letters only. JavaScript's full Unicode case mapping is not modelled, and neither is Prisma's case-insensitive `contains`, which `TaskService.Matching` uses.
- Lengths are counted in `char`s, as JavaScript counts UTF-16 code units. A character outside the Basic Multilingual Plane counts as one here.
- Titles are ordered by code-unit comparison. The database collation may order them differently.
- Tasks with equal sort keys come out in an order the model's sort fixes. The database promises no order for ties, so no property depends on it.
- zod's e-mail, URL and datetime checks are abstract predicates. `Number(...)` of a string, as used by `z.coerce.number()`, is the `fromText` parameter; an array goes through its comma-joined text. Numbers are `real`s, with no NaN or infinities.
- TaskSchemas.JsNumber: an array holding a number or a nested array converts to no number. JavaScript would join their decimal or nested renderings; a query string yields such arrays only for unusual bracket keys.
- The key order of the grouped validation errors is the order of first appearance. JavaScript objects keep integer-like keys first; that is not modelled.
- ApiKeys.Validate: the `lastUsedAt` update is fire-and-forget, so it is separated out as `ApiKeys.RecordUse`. Validation does not perform it.
- The stats reload after a client create, update or delete runs in the background. It is modelled as a separate `StatsLoaded` step, not sequenced.
- The mobile appending fetch does not set `isLoading`. Two `loadMore` calls before the first lands are therefore both possible; the interleaving of responses is not modelled.
- WebTaskStore.SetFilter: only the five filter keys are modelled. Setting `page` or `limit` through it is overwritten by `loadTasks`' own page and limit.
- Router paths are matched exactly. Vue Router's case-insensitive matching and trailing slash are not modelled. The query and hash are one uninterpreted suffix: their parsing, re-serialisation and the URL encoding of the login redirect are not modelled. The token is read from storage as an input.
- Token refresh and retry in the clients' HTTP layer (`services/api.ts`) is not modelled.
- The task schemas live in `packages/shared/src/validation.ts`. Its first 86 lines are identical to the backend copy, so one model serves both.
