# School pickup tokens, access backend and feed recommender — a Dafny model

This project models the decision logic of a school access-card system and of
a small social-feed recommender that lives in the same repository. Each part
is described below.

- **Pickup tokens.** The student app holds one current pickup token. A token
  is `PICKUP-<milliseconds>-<suffix>`, valid for 15 minutes, and bound to a
  fixed student, guardian and gate. At start-up the app reuses the stored
  token unless it is missing, unreadable or expired. A presented string is
  accepted only if it is the current token and has not expired. Pickups are
  logged newest first.
- **Scanner.** The security app's scanner screen is a latch. A scan, while
  the latch is open, closes it and looks the string up among the known
  students by exact QR-code match. Reset opens the latch again.
- **Backend handlers.**
  - The scan handler reads the students table and writes one access-log item
    per scan of a known student: denied for a suspended card, an entry for an
    active one.
  - The create handler inserts a new ACTIVE student, but only if the id is not
    yet taken.
  - Both tables are maps. The log table is keyed by its (`pk`, `sk`) pair.
- **Sign-in.**
  - The security app signs staff in by email, ignoring case.
  - The main app indexes a fixture record by the exact email.
  - Both providers keep a loading flag and can sign out.
- **Admin forms.** The add-staff and add-student forms do the following:
  - check their required fields;
  - for staff, check the email pattern `^[^\s@]+@[^\s@]+\.[^\s@]+$`;
  - build the new record;
  - call `onAdd`, reset the form, then call `onClose`.
- **Recommender.** The two recommenders filter and cut given rankings. The
  hybrid merge then interleaves content and collaborative candidates, fills
  from the popularity order and finally from a shuffled list of all posts. It
  never repeats a post and never includes a viewed post. The interaction log
  decides which posts count as liked and which as viewed.

Clocks, random numbers, storage and database outcomes enter as parameters.
Each event handler is one atomic step.

A check at exactly `expiresAt` still succeeds, because the code tests
`now > expiresAt` (`QRContext.ValidateQRCode`, `QRContext.IssuedTokenWindow`).

Module layout:
- `wrappers.dfy`: the Option and Result types.
- `text.dfy`: decimal printing and parsing, ASCII `\s`, and ASCII lower-casing.
- `sequences.dfy`: subsequences, filtering, and the fold behind the merge loops.
- One file per core source file:
  - `qr_context.dfy`
  - `scanner_screen.dfy`
  - `tables.dfy` plus `scan_verify.dfy` plus `student_create.dfy`
  - `recommender.dfy`
  - `security_auth.dfy`
  - `app_auth.dfy`
  - `add_staff_modal.dfy` plus `add_student_modal.dfy`, with `admin_forms.dfy` shared between the two forms
- `pickup_token.dfy`: the token format, shared by the QR provider and the add-student form.

## Model

| member | source | states |
|---|---|---|
| PickupToken.MakeToken | AccessCardApp/src/context/QRContext.tsx:44 | a token starts with `PICKUP-` and ends with the random suffix, with the decimal clock reading between them (its exact parse is `ParseMakeToken`) |
| PickupToken.ParseMakeToken | AccessCardApp/src/context/QRContext.tsx:42-44 | a token `PICKUP-<decimal ms>-<suffix>` parses back to exactly its clock reading and suffix |
| PickupToken.MakeTokenInjective | AccessCardApp/src/context/QRContext.tsx:44 | two tokens are the same string only if they were issued at the same millisecond with the same suffix |
| QRContext.NewQRCode | AccessCardApp/src/context/QRContext.tsx:40-58 | the issued record carries the token for `now` and the suffix, expires exactly 15 minutes (900000 ms) after `now`, is marked valid, and is bound to the fixed student, guardian and gate |
| QRContext.ValidateQRCode | AccessCardApp/src/context/QRContext.tsx:102-125 | a string is valid exactly when there is a current record, its token is that string, and `now <= expiresAt`; when valid the data is the current record, otherwise there is none |
| QRContext.QRProvider.constructor | AccessCardApp/src/context/QRContext.tsx:36-37 | a new provider has no current record and an empty log |
| QRContext.QRProvider.GenerateQRCode | AccessCardApp/src/context/QRContext.tsx:40-72 | the new record replaces the current one whether or not the storage write succeeds; storage holds the record only after a successful write; the log is untouched |
| QRContext.QRProvider.LoadQRCode | AccessCardApp/src/context/QRContext.tsx:74-100 | the stored record becomes current exactly when it was read, exists and has not expired; in every other case a fresh record is issued |
| QRContext.QRProvider.AddPickupLog | AccessCardApp/src/context/QRContext.tsx:127-135 | exactly one entry (the given fields, the fresh id and the clock reading) is put in front of the unchanged earlier entries, and a newest-first log stays newest first provided the old log is empty or its newest entry's timestamp is not later than the clock reading (the clock is not assumed monotone) |
| QRContext.IssuedTokenWindow | AccessCardApp/src/context/QRContext.tsx:116-121 | a freshly issued token is accepted at every time up to and including 15 minutes after issue, and at no later time |
| QRContext.SupersededTokenRejected | AccessCardApp/src/context/QRContext.tsx:111-114 | once a token issued at another time or with another suffix is current, the earlier token is rejected even before it expires |
| QRContext.NoCurrentTokenRejected | AccessCardApp/src/context/QRContext.tsx:106-109 | without a current record every string is rejected and no data is returned |
| QRContext.PrependKeepsNewestFirst | AccessCardApp/src/context/QRContext.tsx:134 | putting an entry at least as recent as the head in front keeps the log ordered newest first |
| QRContext.ExampleTokenLifecycle | AccessCardApp/src/context/QRContext.tsx:40-48 | a token issued at 1000 ms with suffix `abcd` is `PICKUP-1000-abcd`; it is accepted 10 minutes later and exactly at expiry, and rejected one second after expiry |
| ScannerScreen.FindStudent | AccessCardSecurity/src/screens/scanner/ScannerScreen.tsx:44 | a student is found exactly when some student's QR code equals the data, and the one found is the first such student |
| ScannerScreen.ResultFor | AccessCardSecurity/src/screens/scanner/ScannerScreen.tsx:46-56 | a found student gives a success carrying that student; no student gives the error 'Invalid QR Code or Student Not Found' |
| ScannerScreen.IsResultForUnique | AccessCardSecurity/src/screens/scanner/ScannerScreen.tsx:44-56 | the result described for a scan (the first matching student, or the not-found error) is unique, so the scanner contracts that use it fix the result exactly |
| ScannerScreen.Scanner.constructor | AccessCardSecurity/src/screens/scanner/ScannerScreen.tsx:12-17 | the screen opens unlatched, with no result, over the student fixture |
| ScannerScreen.Scanner.HandleBarCodeScanned | AccessCardSecurity/src/screens/scanner/ScannerScreen.tsx:38-57 | while latched nothing changes; otherwise the latch closes, and the result is a success carrying the first student whose code matches exactly, or the not-found error when none does |
| ScannerScreen.Scanner.OnBarcodeScanned | AccessCardSecurity/src/screens/scanner/ScannerScreen.tsx:70 | the camera reaches the handler only while the latch is open, so a latched screen ignores scans, and an open one produces exactly one result: the first student whose code matches, or the not-found error |
| ScannerScreen.Scanner.HandleReset | AccessCardSecurity/src/screens/scanner/ScannerScreen.tsx:59-62 | the latch opens and the result is cleared |
| ScannerScreen.ScansBetweenResets | AccessCardSecurity/src/screens/scanner/ScannerScreen.tsx:39-40 | after a reset, any non-empty series of scans yields exactly one result, and it is the result for the first scan |
| Backend.NewLogItem | AccessCardApp/backend/lambda/scan/verify.ts:59-71 | a log item carries the given student, action, reason, gate and timestamp, with `pk = LOG#<timestamp>` and `sk = STUDENT#<studentId>` |
| Backend.LogKeyInjective | AccessCardApp/backend/lambda/scan/verify.ts:64-65 | the log key determines both the timestamp and the student |
| ScanVerify.LogAttempt | AccessCardApp/backend/lambda/scan/verify.ts:59-74 | a successful put stores the new item under its derived key and changes nothing else; a failed put reports failure and changes nothing |
| ScanVerify.Handler | AccessCardApp/backend/lambda/scan/verify.ts:10-57 | **Response by case:**<br>• missing body, failed read or failed write: 500<br>• missing or empty payload: 400<br>• unknown student: 404, DENIED / 'Student not found'<br>• status not ACTIVE: one DENIED / 'Student Suspended' entry, then 403 'Card Suspended'<br>• ACTIVE: one ENTRY / 'Success' entry, then 200 with name, photo URL and grade<br>**Log writes:** a 400 or 404 writes no log entry.<br>**Students table:** never written. |
| StudentCreate.OrNull | AccessCardApp/backend/lambda/student/create.ts:28-30 | a missing or empty optional string becomes null; any other is kept |
| StudentCreate.NewStudentItem | AccessCardApp/backend/lambda/student/create.ts:23-34 | the item is ACTIVE, carries the given id, institution and name, has null photo URL or grade exactly when those were falsy, and has the given parent ids or the empty list |
| StudentCreate.Handler | AccessCardApp/backend/lambda/student/create.ts:9-55 | **Response by case:**<br>• missing body: 500<br>• a falsy id, name or institution: 400<br>• existing id or failed write: 500<br>• otherwise: 201 with the id<br>**Table:**<br>• on 201 the table gains exactly the new item under the new key<br>• on every other outcome it is unchanged<br>• an existing item is never overwritten |
| Recommender.InteractionScore | social_recommender/backend/recommender.py:253 | a like scores 5, anything else 1; the score is above 1 exactly for a like |
| Recommender.LikedPosts | social_recommender/backend/recommender.py:192-193 | a post is liked by the user exactly when one of the user's rows for it scores above 1 |
| Recommender.ViewedPosts | social_recommender/backend/recommender.py:192-194 | a post is viewed by the user exactly when the user has a row for it |
| Recommender.Quota | social_recommender/backend/recommender.py:163-165 | a top-n loop that appends before comparing keeps at most `max(top_n, 1)` items |
| Recommender.TakeUnseen | social_recommender/backend/recommender.py:159-166 | the result is the ranking without the excluded posts, cut at the quota: a subsequence of the ranking, with no excluded post, and complete when shorter than the quota |
| Recommender.TakeWithoutMeaning | social_recommender/backend/recommender.py:159-166 | the cut filtered ranking keeps ranking order, holds only non-excluded ranked posts, and holds all of them when it is shorter than the cut |
| Recommender.RoundsCover | social_recommender/backend/recommender.py:209-217 | the first r rounds offer every content and collaborative candidate below r, and nothing else |
| Recommender.AdmittedRound | social_recommender/backend/recommender.py:210-217 | in round i, `content[i]` is considered before `collab[i]` |
| Recommender.RoundGrowth | social_recommender/backend/recommender.py:210-217 | one round adds at most two posts to the feed |
| Recommender.Interleave | social_recommender/backend/recommender.py:206-220 | the feed is the admission of the first rounds, in round order; round 0 always runs when either list is non-empty, and it stops only after the first round that reaches n, or after the longer list |
| Recommender.FillFromPopular | social_recommender/backend/recommender.py:223-228 | admits popular posts in order and compares the length after each post, so the first popular post is always looked at, even on a full feed; it stops when n is reached or the list ends |
| Recommender.RandomFill | social_recommender/backend/recommender.py:231-237 | admits shuffled posts in order and compares the length before each post; it stops when n is reached or the list ends |
| Recommender.InterleaveBound | social_recommender/backend/recommender.py:219-220 | after the interleave phase the feed holds at most one post more than the quota |
| Recommender.FillBound | social_recommender/backend/recommender.py:224-237 | a fill phase that starts below n ends with at most n posts |
| Recommender.PopularOvershoot | social_recommender/backend/recommender.py:224-228 | on a feed that is already full, the popularity phase looks at most one candidate and adds at most one post |
| Recommender.RandomFillKeepsFullFeed | social_recommender/backend/recommender.py:233-235 | on a feed that is already full, the random phase adds nothing |
| Recommender.OvershootExample | social_recommender/backend/recommender.py:209-228 | with a target of one post, the interleave phase yields two posts and the popularity phase a third |
| Recommender.MergeFeed | social_recommender/backend/recommender.py:203-237 | the merged feed has no duplicate and no viewed post, at most the quota plus two posts, only posts from the four lists, and when shorter than n it holds every unviewed shuffled post |
| Recommender.SocialRecommender.constructor | social_recommender/backend/recommender.py:107-139 | the trained model exists exactly when the interaction log is not empty |
| Recommender.SocialRecommender.ContentRecommendations | social_recommender/backend/recommender.py:141-166 | empty without liked posts or when none matches a post; otherwise the ranking without liked posts cut at top_n, in ranking order and never a liked post |
| Recommender.SocialRecommender.CollaborativeRecommendations | social_recommender/backend/recommender.py:168-186 | empty for an untrained user or with no model; otherwise the user's ranking without visited posts cut at top_n, in score order and never a visited post |
| Recommender.SocialRecommender.CollaborativeAsWritten | social_recommender/backend/recommender.py:170 | with no trained model the guard raises an AttributeError; otherwise it behaves like the corrected recommender |
| Recommender.SocialRecommender.Recommend | social_recommender/backend/recommender.py:188-237 | the user's feed has no duplicate and no viewed post, at most the quota plus two posts, only ranked, popular or shuffled posts, and is short of n only when every unviewed shuffled post is in it |
| Recommender.SocialRecommender.LogInteraction | social_recommender/backend/recommender.py:251-258 | exactly one row is appended, with score 5 for a like and 1 otherwise, and the earlier rows are unchanged |
| Recommender.LoggedInteractionEffect | social_recommender/backend/recommender.py:251-258 | after logging, the post ends the user's viewed list, and also the liked list when it is a like; other users' lists are unchanged |
| Recommender.LikedAreViewed | social_recommender/backend/recommender.py:192-194 | every liked post is a viewed post, so the merge never recommends a liked post |
| SecurityAuth.FirstStaffMatchMeaning | AccessCardSecurity/src/context/AuthContext.tsx:32 | a member is found exactly when some staff address equals the email ignoring case, and it is the first such member |
| SecurityAuth.FirstStaffMatchIgnoresCase | AccessCardSecurity/src/context/AuthContext.tsx:32 | emails that agree ignoring case find the same member |
| SecurityAuth.FindStaff | AccessCardSecurity/src/context/AuthContext.tsx:32 | the linear search returns the first case-insensitive match |
| SecurityAuth.GuardSignsInIgnoringCase | AccessCardSecurity/src/context/AuthContext.tsx:32-37 | `GUARD@School.com` finds the guard of the fixture |
| SecurityAuth.UnknownAddressFindsNobody | AccessCardSecurity/src/context/AuthContext.tsx:32-41 | example: `parent@school.com`, the address of no fixture staff member, finds nobody (the general statement is `SecurityAuth.FirstStaffMatchMeaning`) |
| SecurityAuth.AuthProvider.constructor | AccessCardSecurity/src/context/AuthContext.tsx:19-20 | no user and not loading at start |
| SecurityAuth.AuthProvider.SignIn | AccessCardSecurity/src/context/AuthContext.tsx:27-42 | true exactly when some staff email matches ignoring case; then the first match becomes the user; otherwise the user is unchanged; loading is off afterwards |
| SecurityAuth.AuthProvider.SignOut | AccessCardSecurity/src/context/AuthContext.tsx:44-46 | the user becomes null and the loading flag is untouched |
| AppAuth.IndexAsWritten | AccessCardApp/src/context/AuthContext.tsx:62 | indexing the fixture yields its user for an own key, an inherited member for an `Object.prototype` name, and undefined otherwise |
| AppAuth.PrototypeKeyPassesGuard | AccessCardApp/src/context/AuthContext.tsx:62-63 | the email "constructor" passes the truthiness guard although it is no user's key |
| AppAuth.LookupUser | AccessCardApp/src/context/AuthContext.tsx:62-66 | a user is found exactly when the email is a fixture key, exact and case-sensitive, and it is that key's user |
| AppAuth.MockUsersKeyedByEmail | AccessCardApp/src/context/AuthContext.tsx:7-29 | every fixture user is stored under its own email |
| AppAuth.LookupUserMatchesEmail | AccessCardApp/src/context/AuthContext.tsx:62-63 | the user found has exactly the given email, and no `Object.prototype` name finds a user |
| AppAuth.ExactEmailMatch | AccessCardApp/src/context/AuthContext.tsx:62 | `ADMIN@school.com` finds nobody, while `admin@school.com` finds the admin |
| AppAuth.AuthProvider.constructor | AccessCardApp/src/context/AuthContext.tsx:42-43 | no user and loading at mount |
| AppAuth.AuthProvider.SessionCheckDone | AccessCardApp/src/context/AuthContext.tsx:45-51 | the mount timer ends loading and leaves the user as it is |
| AppAuth.AuthProvider.IsAuthenticated | AccessCardApp/src/context/AuthContext.tsx:90 | authenticated exactly when a user is signed in, which is exactly when there is a role |
| AppAuth.AuthProvider.Role | AccessCardApp/src/context/AuthContext.tsx:86 | the role is the user's role, or null exactly when there is no user |
| AppAuth.AuthProvider.SignIn | AccessCardApp/src/context/AuthContext.tsx:53-72 | **Outcome:** success exactly when the email is a fixture key; the password plays no part.<br>**On success:** that key's user is signed in and authenticated, with its role.<br>**Otherwise:** the error 'Invalid credentials (Try admin@school.com)', and the user is unchanged.<br>**Loading:** off afterwards on both paths. |
| AppAuth.AuthProvider.SignOut | AccessCardApp/src/context/AuthContext.tsx:74-82 | the user becomes null, so not authenticated and with no role, and loading is off |
| AdminForms.AvatarUrl | AccessCardApp/src/components/admin/AddStaffModal.tsx:39 | the avatar address is the pravatar prefix followed by the decimal digits of the avatar number |
| AddStaffModal.MatchesEmailPattern | AccessCardApp/src/components/admin/AddStaffModal.tsx:26-27 | `^[^\s@]+@[^\s@]+\.[^\s@]+$` as a split of the whole string at an `@` and a later `.` into three non-empty runs without whitespace or `@` (its meaning is `EmailPatternMeaning`) |
| AddStaffModal.EmailPatternMeaning | AccessCardApp/src/components/admin/AddStaffModal.tsx:26-27 | the email pattern accepts exactly the strings that have:<br>• no whitespace<br>• exactly one `@`<br>• a non-empty local part<br>• a `.` after the `@` with text on both sides |
| AddStaffModal.PatternSplitHasShape | AccessCardApp/src/components/admin/AddStaffModal.tsx:26 | a match of the pattern has that shape |
| AddStaffModal.ShapeGivesPatternSplit | AccessCardApp/src/components/admin/AddStaffModal.tsx:26 | a string of that shape matches the pattern |
| AddStaffModal.EmailPatternExamples | AccessCardApp/src/components/admin/AddStaffModal.tsx:26-30 | `a@b.c` is accepted; `a@bc`, `a b@c.d` and `a@@b.c` are rejected |
| AddStaffModal.StaffRecord | AccessCardApp/src/components/admin/AddStaffModal.tsx:32-45 | a new staff record is active, with all three scan counts 0, the form's fields, the clock reading for both dates, and the avatar address |
| AddStaffModal.StaffForm.constructor | AccessCardApp/src/components/admin/AddStaffModal.tsx:13-16 | the form opens empty with the role security_guard |
| AddStaffModal.StaffForm.HandleSubmit | AccessCardApp/src/components/admin/AddStaffModal.tsx:18-56 | **Rejections:**<br>• an empty name, email or phone raises 'Please fill in all required fields'<br>• an email off the pattern raises 'Please enter a valid email address'<br>• on either, the form is unchanged and `onAdd` is not called<br>**On success:**<br>• `onAdd` receives the new record<br>• the form resets to empty with role security_guard<br>• `onClose` follows |
| AddStaffModal.AddedStaffWellFormed | AccessCardApp/src/components/admin/AddStaffModal.tsx:20-45 | any record handed to `onAdd` is active, with zero scans, a non-empty name and phone, and an email of the accepted shape |
| AddStudentModal.StudentRecord | AccessCardApp/src/components/admin/AddStudentModal.tsx:27-39 | a new student has no guardians, has `class` equal to the class section and the form's fields, has a QR code that parses back to the clock reading and suffix, and has the avatar address |
| AddStudentModal.StudentForm.constructor | AccessCardApp/src/components/admin/AddStudentModal.tsx:14-18 | the five inputs start empty |
| AddStudentModal.StudentForm.HandleSubmit | AccessCardApp/src/components/admin/AddStudentModal.tsx:20-51 | **If any of the five inputs is empty:** 'Please fill in all required fields' is raised and the form is unchanged.<br>**Otherwise:**<br>• `onAdd` receives the new student<br>• all five inputs are emptied<br>• `onClose` follows |
| AddStudentModal.SubmitTwice | AccessCardApp/src/components/admin/AddStudentModal.tsx:20-51 | submitting a filled form twice in a row hands the student to `onAdd` once, closes, and the second submit only raises 'Please fill in all required fields', leaving the form empty |

## Left out

- Clock readings: `Date.now()`, `new Date()` and `datetime.now()` are parameters. Where the code reads the clock more than once in one handler, the model uses one reading for all of them:
  - `generateQRCode` reads it for the token and for the expiry;
  - the add-staff form reads it for `createdAt` and `lastActive` (`StaffRecord`);
  - the add-student form reads it for the token, `createdAt` and `updatedAt` (`StudentRecord`).
- `setMinutes(getMinutes() + 15)`: modelled as +900000 ms, so daylight-saving jumps are not modelled.
- Random values are parameters: the token suffixes, ids, avatar numbers and the shuffle. `Math.random().toString(36)` is not modelled, so a suffix is any string.
- AsyncStorage and JSON:
  - The stored record is an optional value.
  - A failed read or parse, and a failed write, are boolean parameters.
  - The `Invalid Date` produced by a malformed stored `expiresAt` is not modelled, because it would make the comparison false and reuse the record.
- The QR record's `expiresAt` is a millisecond number rather than a `Date`.
- The `useEffect` that initialises the QR context on mount is not modelled. It is router and React glue; `LoadQRCode` is the operation it calls.
- Console logging, vibration, navigation, camera permissions and all rendering are not modelled.
- The DynamoDB client, API Gateway body parsing and thrown errors are not modelled as such:
  - a body that is absent or cannot be destructured is `None`;
  - whether a get or put fails is a parameter;
  - the tables are maps.
- `ScanVerify.Handler`: an absent `gateId` is taken as a string. The JSON encoding of response bodies is a datatype.
- `StudentCreate.Handler`: the 500 body's `error.message` text is not modelled. The two `new Date().toISOString()` readings are the `createdAt` and `updatedAt` parameters.
- Recommender learned parts are not modelled: TF-IDF, cosine similarity, SVD, float scores, the popularity sums and `_generate_mock_data`. The orderings they produce are the `contentRanking`, trained-ranking, `popular` and `shuffled` inputs.
- The pandas details are not modelled:
  - a missing column of an empty frame;
  - the `iloc` lookup of an unknown post id;
  - the mapping of the final post ids to post objects with image links.
- `Recommender.SocialRecommender.Recommend` and `Recommender.MergeFeed` name only the properties of the feed: clean, bounded, drawn from the four lists, complete when short. They do not give the exact list; `Interleave`, `FillFromPopular` and `RandomFill` state the exact result of each phase.
- AppAuth.AuthProvider.SignIn: runs the corrected own-key lookup `LookupUser`, so an `Object.prototype` name such as `constructor` gets the invalid-credentials error here. The as-written guard, which lets such a name through and stores the inherited member as the user, is `IndexAsWritten` and `PrototypeKeyPassesGuard` (see Findings).
- Recommender.SocialRecommender.Recommend: calls the corrected `CollaborativeRecommendations`, so the AttributeError that the code as written raises with no trained model (`CollaborativeAsWritten`) is not modelled on this path.
- `setTimeout` delays and React's batching of state updates are not modelled: each handler is one atomic step.
- Unicode is not modelled:
  - `toLowerCase` covers ASCII letters only;
  - the regular-expression class `\s` covers the ASCII space, tab, line feed, vertical tab, form feed and carriage return.
- The input setters of the modal forms are not modelled: they are the `onChangeText` bindings of the text fields.

## Findings

| source | as written | input that shows it | evidently intended | confidence | as-written member | corrected member |
|---|---|---|---|---|---|---|
| AccessCardApp/src/context/AuthContext.tsx:62 | `if (MOCK_USERS[email])` indexes a plain object, so names inherited from `Object.prototype` are truthy | email `constructor` with any password: the guard passes, and the `Object` function is stored as the user | only the fixture's own keys sign in | not executed | AppAuth.PrototypeKeyPassesGuard | AppAuth.LookupUserMatchesEmail |
| social_recommender/backend/recommender.py:170 | the guard tests `self.predicted_scores_df is None`, but that attribute is set only when the interaction log is non-empty (`__init__` sets `predicted_scores`, not `predicted_scores_df`) | a recommender trained on an empty interaction log, asked for any user: AttributeError | answer with no collaborative recommendations | not executed | Recommender.SocialRecommender.CollaborativeAsWritten | Recommender.SocialRecommender.CollaborativeRecommendations |
