# Attendance system: a Dafny model of its core

The system is a QR-code attendance service. A teacher signs in, opens a QR
code for one of their classes and keeps it rotating. Each code is a
short-lived session token. Students redeem the code, either by posting it to
`/api/student/scan-qr` or by following the link it encodes. Each redemption
writes one attendance row per class, student and day. Teachers can list a
day's attendance and correct it by hand. A socket.io relay carries the
signalling of the built-in video calls.

This project models that core in Dafny, file by file:

- **Database tables** (`ledger.dfy`). The two tables the core writes are sequences in a class: QR sessions and attendance rows. The attendance insert fails on a repeated (class, student, date) key, and the database's invariant is that key's uniqueness. The two tables the core only reads, enrolments and class ownership, are sets.
- **Middleware and auth routes** (`auth_middleware.dfy`, `auth_routes.dfy`). These model the bearer-token gate and the role gates, and registration, login and session verification over an in-memory users table. JWT verification and bcrypt's compare are oracles passed in.
- **Attendance routes** (`student_routes.dfy`, `teacher_routes.dfy`, `qr_routes.dfy`). The route handlers are methods over the database. Each one is specified by a pure function of the old tables: `Scan`, `Issue`, `Upsert`, `Link`, the listing merge.
- **Signalling relay** (`signaling.dfy`). A class holds the connections and the room map. Each event returns the exact set of deliveries it makes, or `Crashed` when its handler throws an uncaught TypeError. A TypeError comes from reading a property of undefined or null, or from converting an object that carries its own "toString" field. One flag tells apart server.js, where room names are normalised by `toString` and message fields are logged, from server-https.js. There an id names rooms as it is, an array naming one room per element, and an empty array reaching every socket. A class call is a socket.io broadcast: it skips every member of the room named by the sender's id, so a socket that registered under that id misses it too.
- **Schema loading** (`setup_db.dfy`). It covers the comment filter, the statement splitter, the ordered execution of setup-db.js with its 42P01 skip rule, and the `/api/setupdb` route that attempts every statement.
- **Shared browser helpers** (`client_config.dfy`). It models the redirect filter, the HTML escaper, the request `apiCall` builds, and `requireAuth`/`logout` over a browser class holding localStorage and the location.
- **Page scripts** (`login_page.dfy`, `teacher_dashboard.dfy`, `video_call.dfy`).
  - The login page's destination choice and submit handler, both with the redirect filter as written and with the corrected one.
  - The teacher page's edit state machine, its save loop and its QR rotation and countdown intervals.
  - The call overlay's timer text, grid rule, room names and timer interval.
- **JavaScript semantics** (`js_strings.dfy`, `uri.dfy`, `http.dfy`, `wrappers.dfy`). These hold the JavaScript string and number behaviour the model relies on: trim, split and join, padStart, integer to string, parseInt without a radix (decimal, or hexadecimal after a "0x" prefix), and percent-encoding with UTF-8. They also hold truthiness and the reply shapes.

Clock values, fresh tokens, environment variables and server answers are
parameters. Timer intervals are sets of running handles, and each tick is an
explicit method call.

## Model

| member | source | states |
|---|---|---|
| AuthMiddleware.BearerToken | backend/middleware/auth.js:5-6 | a token is found only in a header that has a space, and it is non-empty and holds no space |
| AuthMiddleware.BearerTokenIsSecondField | backend/middleware/auth.js:6 | the token is the second space-separated field whatever the scheme word is, and any fields after it are ignored |
| AuthMiddleware.NoSecondFieldNoToken | backend/middleware/auth.js:6-8 | a header with no space, or an empty second field, gives no token |
| AuthMiddleware.AuthenticateToken | backend/middleware/auth.js:4-25 | 401 "Access token required" without a token, 403 "Invalid or expired token" when verification fails, and next() with the verified claims exactly when both succeed |
| AuthMiddleware.NoTokenNoVerification | backend/middleware/auth.js:8-15 | without a token the answer does not depend on the verifier, because verification is never reached |
| AuthMiddleware.IsTeacher | backend/middleware/auth.js:28-36 | next() exactly when the role is 'teacher', passing the same user on; otherwise 403 "Access denied. Teachers only." |
| AuthMiddleware.IsStudent | backend/middleware/auth.js:39-47 | next() exactly when the role is 'student', passing the same user on; otherwise 403 "Access denied. Students only." |
| AuthMiddleware.RoleGatesExclusive | backend/middleware/auth.js:28-47 | no user passes both role gates |
| AuthMiddleware.Authorize | backend/middleware/auth.js:4-47 | the token gate followed by a role gate passes exactly the verified users holding that role |
| AuthRoutes.ProfileOf | backend/routes/auth.js:127-134 | the user sent back at login carries every column of the row except the password hash |
| AuthRoutes.FindByEmail | backend/routes/auth.js:35-40 | the first user with that email, or none exactly when no user has it |
| AuthRoutes.FindById | backend/routes/auth.js:167-172 | the first user with that id, or none exactly when no user has it |
| AuthRoutes.RegisterCheck | backend/routes/auth.js:13-45 | the refusals in the route's order: 400 "All fields are required" when email, password, role or full name is falsy, then "Invalid role", then "Student ID required for students", then "User already exists"; no refusal exactly when all four checks pass |
| AuthRoutes.NullIfFalsy | backend/routes/auth.js:56 | an optional column is stored as null exactly when the submitted value is falsy, and as submitted otherwise |
| AuthRoutes.NewUser | backend/routes/auth.js:52-57 | the inserted row holds the new id, the submitted fields, the supplied hash, and null for falsy optional fields |
| AuthRoutes.OptionalColumnsNullWhenFalsy | backend/routes/auth.js:56 | student id and department are null exactly when they were left out or sent empty |
| AuthRoutes.Login | backend/routes/auth.js:75-135 | 400 "Email and password required" when either is falsy; login succeeds exactly when the first user with that email exists and the password matches its hash, and then the token holds that user's id, email and role for 86400 seconds with the user's profile; every other case is 401 "Invalid credentials" |
| AuthRoutes.UnknownEmailLooksLikeWrongPassword | backend/routes/auth.js:93-110 | an unknown email and a known email with a wrong password give the same answer |
| AuthRoutes.VerifySession | backend/routes/auth.js:147-183 | 401 "No token provided", 403 "Invalid token", 404 "User not found" in that order; otherwise success with the profile of the user whose id the token names |
| AuthRoutes.LoginThenVerify | backend/routes/auth.js:113-121 | with distinct user ids, the token from a successful login verifies to the same profile the login sent back |
| AuthRoutes.UserStore.constructor | backend/routes/auth.js:52-57 | the users table starts empty, with ids beginning at 1 |
| AuthRoutes.UserStore.Register | backend/routes/auth.js:8-63 | a refused request changes nothing and answers the refusal; an accepted one appends exactly one new user with the next id and answers 201 "User registered successfully", keeping emails unique and ids distinct |
| AuthRoutes.SecondRegistrationRefused | backend/routes/auth.js:35-45 | once a user holds an email, any complete registration with that email is refused |
| AuthRoutes.RegisteredCanLogIn | backend/routes/auth.js:52-135 | right after a successful registration, logging in with the same email and password succeeds with the new user's claims and profile |
| ClientConfig.GetSafeRedirect | frontend/js/config.js:16-28 | as written: a redirect passes, unchanged, exactly when it is non-empty, starts with '/' and its second character (if any) is not '/' |
| ClientConfig.WithoutTabsOrNewlines | frontend/js/config.js:27 | what the browser's URL parser reads once tabs, CR and LF are dropped: no such character is left, and text without them is unchanged |
| ClientConfig.BackslashLeavesOrigin | frontend/js/config.js:23-27 | the as-written filter accepts "/\host", which the browser resolves to another origin |
| ClientConfig.TabLeavesOrigin | frontend/js/config.js:23-27 | the as-written filter accepts '/', a tab or newline, '/', host, which the browser resolves to another origin |
| ClientConfig.SafeRedirect | frontend/js/config.js:16-28 | corrected filter: whatever passes is unchanged, starts with '/', cannot take the browser to another origin, and is also accepted by the as-written filter |
| ClientConfig.StripKeepsLeadingSlashes | frontend/js/config.js:23 | two leading characters that are not tabs or newlines survive the parser's stripping, so "//" is still seen as leaving the origin |
| ClientConfig.SafeRedirectAgreesOnPlainPaths | frontend/js/config.js:16-28 | on targets without backslashes, tabs or newlines the corrected filter and the as-written one agree exactly |
| ClientConfig.ReplaceAll | frontend/js/config.js:36-40 | a global one-character replace never shortens the text when the replacement is non-empty, and leaves text without that character unchanged |
| ClientConfig.ReplaceAllAppend | frontend/js/config.js:36-40 | a global replace distributes over concatenation |
| ClientConfig.EscapeChar | frontend/js/config.js:36-40 | the entity of one character contains no markup character, and a character is kept as it is exactly when it is neither '&' nor markup |
| ClientConfig.EscapeEach | frontend/js/config.js:35-40 | the escaped text is no shorter than the input and contains none of < > " ' |
| ClientConfig.EscapeHtml | frontend/js/config.js:30-41 | null and undefined give "", and any other value, taken as its string, is escaped character by character |
| ClientConfig.NumberEscapesToItself | frontend/js/config.js:35 | a number passes String(value) and comes out as its decimal form unchanged |
| ClientConfig.ChainOfChar | frontend/js/config.js:36-40 | the five chained replaces, '&' first, turn one character into exactly its entity, so no entity is escaped twice |
| ClientConfig.ChainAppend | frontend/js/config.js:36-40 | the chain of replaces distributes over concatenation |
| ClientConfig.ChainIsEscapeEach | frontend/js/config.js:35-40 | the chain of five replaces equals escaping each character on its own |
| ClientConfig.AmpersandsConcat | frontend/js/config.js:36 | text in which every '&' opens an entity keeps that property when two such texts are joined |
| ClientConfig.EntityOfChar | frontend/js/config.js:36-40 | every '&' in the escape of one character opens one of the five entities |
| ClientConfig.EscapedAmpersandsOpenEntities | frontend/js/config.js:35-40 | in escaped output every '&' opens one of the five entities |
| ClientConfig.PlainTextUnchanged | frontend/js/config.js:35-40 | text without '&' or markup characters comes out unchanged |
| ClientConfig.UnescapeChar | frontend/js/config.js:36-40 | reading the entities back recovers one escaped character, whatever follows it |
| ClientConfig.UnescapeEscape | frontend/js/config.js:35-40 | escaping loses nothing: reading the entities back gives the original text |
| ClientConfig.BuildRequest | frontend/js/config.js:43-61 | the request goes to origin + "/api" + endpoint with a JSON content type; it has "Bearer " + token exactly when a token is stored and non-empty, and a body exactly when there is data and the verb is POST, PUT or PATCH |
| ClientConfig.ApiOutcome | frontend/js/config.js:60-72 | the call resolves exactly when a response arrived with ok; a non-ok answer rejects with its message, or with "API request failed" when that is empty |
| ClientConfig.FetchedOf | frontend/js/config.js:61-64 | a server reply seen by fetch: ok exactly for a 2xx status, carrying the reply's message |
| ClientConfig.RefusalIsRejection | frontend/js/config.js:64-66 | a server refusal (status 400 or above, non-empty message) rejects with exactly the server's message |
| ClientConfig.AuthDecision | frontend/js/config.js:81-101 | allowed exactly with a truthy token, a stored user, and either no required role or that role; not logged in exactly without a token; no user data exactly with a token but no record |
| ClientConfig.Browser.constructor | frontend/js/config.js:3-10 | the page starts from the stored token and user record, with no navigation and no alert |
| ClientConfig.Browser.Logout | frontend/js/config.js:75-79 | both stored keys are removed and the page goes to /login.html |
| ClientConfig.Browser.RequireAuth | frontend/js/config.js:81-101 | returns true exactly when allowed, and then changes nothing; without a token it only navigates to /login.html; without a user record, or with the wrong role, it logs out; "Unauthorized access" is alerted only for the wrong role |
| JsStrings.TrimStart | backend/setup-db.js:15 | the result is a suffix of the input that does not start with whitespace, and input that does not start with whitespace is unchanged |
| JsStrings.TrimEnd | backend/setup-db.js:21 | the result is a prefix of the input that does not end with whitespace, and input that does not end with whitespace is unchanged |
| JsStrings.Trim | backend/setup-db.js:21 | the trimmed text is no longer than the input and neither starts nor ends with whitespace |
| JsStrings.TrimStartDropsWhitespace | backend/setup-db.js:15 | everything trimStart drops is whitespace |
| JsStrings.TrimStartSkips | backend/setup-db.js:15 | indentation in front of text that starts with a non-space is exactly what is removed |
| JsStrings.TrimEndKeepsPrefix | backend/setup-db.js:21 | trimming the end never cuts into a prefix that ends in a non-space |
| JsStrings.TrimKeepsCharacters | backend/setup-db.js:21 | every character of the trimmed text comes from the input |
| JsStrings.Split | backend/setup-db.js:14 | splitting on one character gives at least one piece, and no piece holds the separator |
| JsStrings.Join | backend/setup-db.js:16 | Array.prototype.join with a one-character separator |
| JsStrings.StartsWith | frontend/js/config.js:23 | String.prototype.startsWith from position 0 |
| JsStrings.JoinSplit | backend/setup-db.js:14-16 | joining the pieces of a split with the same character gives the text back |
| JsStrings.SplitAtFirst | backend/setup-db.js:20 | text before the first separator becomes the first piece |
| JsStrings.SplitWithoutSeparator | backend/setup-db.js:20 | text without the separator is one piece |
| JsStrings.SplitJoin | backend/setup-db.js:14-20 | splitting a join of separator-free pieces gives the pieces back |
| JsStrings.NatToString | backend/routes/student.js:164 | the decimal form of a number is non-empty, all digits, and has no leading zero unless the number is 0 |
| JsStrings.NatToStringValue | backend/routes/student.js:164 | reading back the decimal form of n gives n |
| JsStrings.NatToStringLength | frontend/js/video-call.js:283-284 | the decimal form has one digit exactly below 10 and at most two exactly below 100 |
| JsStrings.LeadingZero | frontend/js/video-call.js:283-284 | a leading '0' does not change the value of a digit string |
| JsStrings.IntToString | backend/routes/teacher.js:121 | the decimal form of an integer is never empty |
| JsStrings.PadStart | frontend/js/video-call.js:283-284 | padStart reaches the width (or keeps longer text), ends with the original text and fills only with the filler |
| JsStrings.LeadingDigits | backend/routes/teacher.js:108 | the digit prefix parseInt reads is the longest prefix made of digits |
| JsStrings.ParseDigitsOfNat | backend/routes/teacher.js:108 | the digits of n followed by a non-digit are read as n |
| JsStrings.ParseNegative | backend/routes/teacher.js:108 | '-' with the digits of n is read as -n, unless "0" is followed by an 'x' |
| JsStrings.ParseNonNegative | backend/routes/teacher.js:108 | the digits of n are read as n, unless "0" is followed by an 'x' |
| JsStrings.NoHexPrefix | backend/routes/teacher.js:108 | the decimal form of n starts a "0x" prefix only when n is 0 and an 'x' follows |
| JsStrings.ParseMagnitude | backend/routes/teacher.js:108 | the unsigned part parseInt reads is never negative |
| JsStrings.LeadingHexDigits | backend/routes/teacher.js:108 | after a "0x" prefix parseInt reads the longest prefix of hexadecimal digits |
| JsStrings.LeadingHexDigitsOfHex | backend/routes/teacher.js:108 | a string of hexadecimal digits is read whole |
| JsStrings.HexMagnitude | backend/routes/teacher.js:108 | "0x" or "0X" followed by hexadecimal digits is read in radix 16 |
| JsStrings.ParseHexPrefixed | backend/routes/teacher.js:108 | parseInt of "0x" or "0X" and hexadecimal digits is their value in radix 16 |
| JsStrings.ParseMinusText | backend/routes/teacher.js:108 | text starting with '-' is read as the negated value of the rest |
| JsStrings.ParseUnsignedText | backend/routes/teacher.js:108 | text starting with neither whitespace nor a sign is read by its unsigned part |
| JsStrings.MagnitudeOfNat | backend/routes/teacher.js:108 | the digits of n, not followed by a digit nor by the 'x' of a prefix, are read as n |
| JsStrings.HexSixteen | backend/routes/teacher.js:108 | the hexadecimal digits "10" denote 16 |
| JsStrings.ParseHexPrefixAlone | backend/routes/teacher.js:108 | a "0x" prefix with no hexadecimal digit after it is NaN |
| JsStrings.HexThirty | backend/routes/teacher.js:108 | parseInt("0x1E") is 30 |
| JsStrings.HexMinusSixteen | backend/routes/teacher.js:108 | parseInt("-0x10") is -16 |
| JsStrings.HexPrefixOnly | backend/routes/teacher.js:108 | parseInt("0x") is NaN |
| JsStrings.ParseIntOfIntToString | backend/routes/teacher.js:108 | parseInt reads back the decimal form of any integer, also when a non-digit follows (other than an 'x' after "0") |
| JsStrings.ParseInt | backend/routes/teacher.js:108 | parseInt without a radix: leading whitespace skipped, one sign, then after "0x" or "0X" the leading hexadecimal digits, otherwise the leading decimal digits; NaN when there are none (its properties are HexThirty, ParseHexPrefixed, ParseIntOfIntToString) |
| JsStrings.ParseIntOr | backend/routes/teacher.js:108 | `parseInt(v) \|\| fallback`: a non-zero value parseInt reads is the result; when the value is unset, NaN or 0 the fallback is |
| Ledger.InsertRow | backend/routes/student.js:111-115 | an insert fails with the unique-key violation exactly when a row with the same (class, student, date) exists, and then changes nothing; otherwise it appends the row; one row per key is kept |
| Ledger.Upsert | backend/routes/teacher.js:351-357 | after the upsert the key has a row, every row of the key is the manual row with the new status and time, other rows are untouched, and one row is added exactly when the key had none; one row per key is kept |
| Ledger.Deactivate | backend/routes/teacher.js:99-104 | the same sessions in the same order with only the active flag changed, and off exactly on the rows of that class for that day |
| Ledger.RecentScanCount | backend/routes/student.js:94-101 | the burst count never exceeds the number of rows |
| Ledger.InBurstWindow | backend/routes/student.js:94-101 | a row of the class for today marked less than two seconds before now |
| Ledger.Redeemable | backend/routes/student.js:59-66 | a session matches the token and class, is active and expires strictly after now |
| Ledger.HasValidSession | backend/routes/student.js:59-73 | some session row is redeemable for the token and class at now |
| Ledger.Database.constructor | backend/routes/student.js:111-115 | both tables start empty and satisfy the unique key |
| Ledger.Database.InsertAttendance | backend/routes/student.js:111-115 | the attendance table and the result code change exactly as the unique-key insert says, keeping one row per key |
| Ledger.Database.UpsertAttendance | backend/routes/teacher.js:351-357 | the attendance table becomes exactly the upsert of the old one, keeping one row per key |
| Ledger.Database.DeactivateSessions | backend/routes/teacher.js:99-104 | the session table becomes exactly the old one with that class's sessions for the day turned off |
| Ledger.Database.InsertSession | backend/routes/teacher.js:112-116 | the session is appended and nothing else changes |
| StudentRoutes.Scan | backend/routes/student.js:36-138 | a scan that is not marked leaves the attendance table as it was; a marked one appends exactly the 'present', 'qr' row for the class, the student and today; one row per key is kept |
| StudentRoutes.ScanReply | backend/routes/student.js:38-138 | every outcome is a JSON answer; status 200 and success exactly for a marked scan, and 403 exactly for a student not enrolled |
| StudentRoutes.ScanQr | backend/routes/student.js:36-115 | the outcome and the new table are exactly those of the redemption chain; the burst warning is raised exactly when every check passes and the recent count reaches the limit (the environment value, or 3 when it is unset, 0 or not a number); the warning changes nothing else |
| StudentRoutes.PostScanQr | backend/routes/student.js:34-145 | a request refused by the token or student gate gets that gate's answer and writes nothing; otherwise the answer and the table are those of the scan by the verified student |
| StudentRoutes.MissingFieldsIgnoreTables | backend/routes/student.js:38-43 | without a truthy token and classId the answer is 400 and nothing is read or written |
| StudentRoutes.CheckOrder | backend/routes/student.js:45-91 | each outcome happens exactly under its condition, with the checks in the route's order: enrolment, then a valid session, then no row for today |
| StudentRoutes.ExpiryIsStrict | backend/routes/student.js:59-73 | a session expiring exactly at the scan instant is refused, and one expiring a millisecond later is accepted |
| StudentRoutes.AnyExistingRowBlocks | backend/routes/student.js:78-91 | any row for the class, the student and today blocks the scan, whatever its status or method, a manual 'absent' included |
| StudentRoutes.SuccessAddsOneRow | backend/routes/student.js:111-115 | a successful scan adds exactly one row, with the student's key absent before and present after, and changes no other row |
| StudentRoutes.SecondScanAlreadyMarked | backend/routes/student.js:78-91 | after a successful scan, a second scan on the same day with any valid token is answered "already marked" and writes nothing |
| StudentRoutes.Consecutive | backend/routes/student.js:159-174 | the placeholder numbers 1..n in order |
| StudentRoutes.Placeholders | backend/routes/student.js:164-177 | the numbers of the $n placeholders of a query text, in order |
| StudentRoutes.PlainTextHasNoPlaceholders | backend/routes/student.js:152-157 | text without '$' holds no placeholder |
| StudentRoutes.LeadingDigitsConcat | backend/routes/student.js:164 | a placeholder's digits end where a non-digit follows |
| StudentRoutes.PlaceholdersConcat | backend/routes/student.js:164-177 | the placeholders of two joined texts are those of each in order, when the second does not start with a digit |
| StudentRoutes.PlaceholdersConcatAtDollar | backend/routes/student.js:164 | the same, for text that starts with a placeholder |
| StudentRoutes.PlaceholdersConcatAtOther | backend/routes/student.js:164 | the same, for text that starts with anything else |
| StudentRoutes.PlaceholderOfNumber | backend/routes/student.js:164 | '$' followed by the decimal form of n holds exactly the placeholder n |
| StudentRoutes.PlaceholderText | backend/routes/student.js:164 | a condition ending in placeholder n holds exactly that placeholder |
| StudentRoutes.AppendPlaceholder | backend/routes/student.js:163-174 | appending a condition with placeholder n appends n to the query's placeholders |
| StudentRoutes.AppendPlainText | backend/routes/student.js:177 | appending the ORDER BY text adds no placeholder |
| StudentRoutes.ConsecutiveNext | backend/routes/student.js:163 | raising the counter extends 1..n to 1..n+1 |
| StudentRoutes.PlainConcat | backend/routes/student.js:152-157 | joining two texts without '$' gives text without '$' |
| StudentRoutes.ColumnsArePlain | backend/routes/student.js:153 | the selected columns hold no '$' |
| StudentRoutes.FromIsPlain | backend/routes/student.js:154 | the FROM clause holds no '$' |
| StudentRoutes.JoinIsPlain | backend/routes/student.js:155 | the JOIN clause holds no '$' |
| StudentRoutes.WhereIsPlain | backend/routes/student.js:156 | the WHERE text before $1 holds no '$' |
| StudentRoutes.SelectIsPlain | backend/routes/student.js:152-156 | the whole fixed head of the query holds no '$' |
| StudentRoutes.OrderIsPlain | backend/routes/student.js:177 | the ORDER BY text holds no '$' and does not start with a digit |
| StudentRoutes.HeadPlaceholders | backend/routes/student.js:152-160 | the query before the optional filters holds exactly the placeholder $1 |
| StudentRoutes.FiltersArePlain | backend/routes/student.js:164-173 | the three filter texts hold no '$' and start with a space |
| StudentRoutes.PushParam | backend/routes/student.js:163-174 | one filter step raises the counter by one, appends the condition with the next placeholder and the value, and keeps the placeholders 1..n matching the parameters |
| StudentRoutes.AppendFilters | backend/routes/student.js:162-175 | the class filter adds one parameter when classId is truthy, the date range adds two only when both dates are truthy, earlier parameters are kept, and the placeholders stay 1..n matching the parameters |
| StudentRoutes.BuildHistoryQuery | backend/routes/student.js:150-177 | the student id is parameter 1, then the class id and the two dates exactly when given; the query's placeholders are exactly 1..n for the n parameters |
| TeacherRoutes.Owns | backend/routes/teacher.js:157-167 | the class lookup finds a row exactly when a class id is given and the teacher owns it |
| TeacherRoutes.ValiditySeconds | backend/routes/teacher.js:108 | never zero; a non-zero parseInt of the setting, hexadecimal included, is the validity; unset, NaN or 0 give 5 |
| TeacherRoutes.ValidityFromHex | backend/routes/teacher.js:108 | a setting of "0x1E" gives 30 seconds |
| TeacherRoutes.ValidityFromDecimal | backend/routes/teacher.js:108 | a non-zero decimal QR_VALIDITY_SECONDS is the validity as written |
| TeacherRoutes.ValidityDefaults | backend/routes/teacher.js:108 | an unset, empty, zero or non-numeric QR_VALIDITY_SECONDS falls back to 5 seconds |
| TeacherRoutes.EmptyIsNaN | backend/routes/teacher.js:108 | parseInt of the empty text is NaN |
| TeacherRoutes.ZeroIsZero | backend/routes/teacher.js:108 | parseInt of "0" is 0, which `|| 5` then replaces |
| TeacherRoutes.WordIsNaN | backend/routes/teacher.js:108 | parseInt of a word is NaN |
| TeacherRoutes.Issue | backend/routes/teacher.js:98-116 | one session is appended, for the class, today, active, expiring validity seconds after now; earlier sessions keep every field but activity, and stay active exactly when they were active and not of this class and day |
| TeacherRoutes.IssueLeavesSingleActive | backend/routes/teacher.js:98-116 | after issuance the new session is the only active one of the class for today |
| TeacherRoutes.IssuePreservesAtMostOneActive | backend/routes/teacher.js:98-116 | issuance keeps at most one active session per class and day |
| TeacherRoutes.NewSessionWindow | backend/routes/teacher.js:108-116 | the new token is redeemable for the class exactly before now + validity * 1000 ms |
| TeacherRoutes.BaseUrl | backend/routes/teacher.js:120 | the configured base URL when it is set and non-empty, else the request's protocol, "://" and host |
| TeacherRoutes.QrUrl | backend/routes/teacher.js:121 | the link starts with the base URL, the attendance page and "?token=", and holds the token and the decimal class id |
| TeacherRoutes.ReissueInvalidatesEarlierToken | backend/routes/teacher.js:98-104 | after a second issuance on the same day the earlier token has no valid session at any instant |
| TeacherRoutes.FirstValue | backend/routes/teacher.js:121 | a value found for a name comes from a field that reads name=value |
| TeacherRoutes.IntToStringPlain | backend/routes/teacher.js:121 | the decimal class id contains neither '?' nor '&' |
| TeacherRoutes.QueryStringOfQrUrl | backend/routes/teacher.js:121 | the query string of the QR link is the token field, '&', then the classId field |
| TeacherRoutes.QrQueryFields | backend/routes/teacher.js:121 | splitting that query on '&' gives exactly the two fields |
| TeacherRoutes.TokenFieldValue | backend/routes/teacher.js:121 | the token field reads back as the token |
| TeacherRoutes.ClassFieldValue | backend/routes/teacher.js:121 | the classId field reads back as the decimal class id |
| TeacherRoutes.QrUrlCarriesTokenAndClass | backend/routes/teacher.js:120-121 | for a base URL without '?' and a token without '?' or '&', the link's token and classId read back as the session token and the class id, which parses back to itself |
| TeacherRoutes.GenerateQr | backend/routes/teacher.js:81-139 | a caller who does not own the class gets 403 and the sessions are unchanged; an owner's call makes the sessions Issue of the old ones and answers with the token, expiry, validity and link; at most one active session per class and day is preserved |
| TeacherRoutes.DayRecords | backend/routes/teacher.js:182-187 | the records are exactly the rows of the class on the date |
| TeacherRoutes.LastWriteWins | backend/routes/teacher.js:190-193 | a student id is in the map exactly when some record has it, and it maps to the last such record |
| TeacherRoutes.BuildAttendanceMap | backend/routes/teacher.js:190-193 | the loop builds exactly the last-write map of the records |
| TeacherRoutes.LastWriteMap | backend/routes/teacher.js:190-193 | the object the forEach fills: each record in turn assigned under its student id, so a later record overwrites an earlier one |
| TeacherRoutes.Entry | backend/routes/teacher.js:195-200 | an entry keeps the student, shows the record's status or 'absent' when there is none or it is empty, and has marking data exactly when a record exists |
| TeacherRoutes.MergeListing | backend/routes/teacher.js:195-200 | one entry per roster student, in roster order |
| TeacherRoutes.IsRosterOf | backend/routes/teacher.js:172-180 | the enrolled-students query: each enrolled student of the class once, and no one else |
| TeacherRoutes.ListingOnePerEnrolled | backend/routes/teacher.js:172-200 | the merged listing has exactly one entry per enrolled student and none for a student who is not enrolled, whatever the day's records hold |
| TeacherRoutes.TargetDate | backend/routes/teacher.js:169 | the query date when given, else the server's UTC day |
| TeacherRoutes.ListingReflectsLedger | backend/routes/teacher.js:169-200 | under the unique key each roster entry is the student's one row for that class and day, or 'absent' with no marking data when there is none |
| TeacherRoutes.GetAttendance | backend/routes/teacher.js:151-207 | a non-owner gets 403; an owner gets the target date (the query date or today in UTC) and the merged listing of that day's records, with exactly one entry per enrolled student of the class and none for anyone else |
| TeacherRoutes.MarkManual | backend/routes/teacher.js:318-362 | ownership (403) and then enrolment (400) are checked before any write; otherwise the row for class, student and target date is upserted with the status and 'manual', and the unique key is kept |
| TeacherRoutes.ManualMarkLeavesOneRow | backend/routes/teacher.js:351-357 | after the upsert exactly one row holds the key, it is the manual row, and every row with another key is kept |
| TeacherRoutes.ManualMarkIdempotent | backend/routes/teacher.js:351-357 | marking the same key twice with the same status and time equals marking it once |
| QrRoutes.ReturnTarget | backend/routes/qr.js:19 | the return target is a mark-attendance page address |
| QrRoutes.LoginRedirect | backend/routes/qr.js:17-20 | the location is the login page with a redirect parameter made only of '%' and unreserved characters |
| QrRoutes.LoginRedirectRoundTrip | backend/routes/qr.js:19 | the redirect parameter holds no '&', '#' or '=' and decodes back to the exact return target |
| QrRoutes.StripLeading | backend/routes/qr.js:36-39 | leading whitespace that PostgreSQL ignores is removed and nothing else |
| QrRoutes.StripTrailing | backend/routes/qr.js:36-39 | trailing whitespace that PostgreSQL ignores is removed and nothing else |
| QrRoutes.PgInteger | backend/routes/qr.js:36-39 | a text PostgreSQL reads as an integer parameter gives a value within 32 bits |
| QrRoutes.NoEdgeSpace | backend/routes/qr.js:36-39 | text without edge whitespace is left as it is |
| QrRoutes.PgIntegerOfIntToString | backend/routes/qr.js:36-39 | the decimal form of a 32-bit integer reads back as that integer |
| QrRoutes.PgIntegerOfDigits | backend/routes/qr.js:36-39 | plain decimal digits within the 32-bit range read as their value |
| QrRoutes.PgIntegerOfNegative | backend/routes/qr.js:36-39 | a minus sign followed by decimal digits within range reads as the negated value |
| QrRoutes.TrailingTextRefused | backend/routes/qr.js:36-39 | "7abc" is not an integer for PostgreSQL |
| QrRoutes.Link | backend/routes/qr.js:8-109 | every outcome except a successful mark leaves the table as it was; a mark appends the 'present', 'qr' row for the parsed class id and the verified id; the unique key is kept |
| QrRoutes.LinkReply | backend/routes/qr.js:17-114 | redirects and the page file for the early exits; JSON success exactly for a mark; only the unique-key violation and the query error leave the default status 200 |
| QrRoutes.MarkAttendance | backend/routes/qr.js:8-116 | the handler over the database answers LinkReply of Link and leaves the table Link gives |
| QrRoutes.NoTokenRedirectsToLogin | backend/routes/qr.js:17-20 | without a bearer token the visitor is sent to log in with the link as return target, whatever the tables hold |
| QrRoutes.BadTokenPlainLogin | backend/routes/qr.js:23-28 | a token that fails verification redirects to the plain login page and writes nothing |
| QrRoutes.MissingFieldsServePage | backend/routes/qr.js:30-33 | after authentication a missing or empty token or classId serves the page and writes nothing |
| QrRoutes.RoleNotChecked | backend/routes/qr.js:22-25 | two identities with the same id are treated alike, whatever their role |
| QrRoutes.SameChecksAsScan | backend/routes/qr.js:35-86 | for an authenticated visitor with a token and a non-zero integer class id, the link reaches the same outcome and leaves the same table as POST /scan-qr |
| QrRoutes.AsRedemption | backend/routes/qr.js:35-86 | the scan-qr outcome a link outcome corresponds to; a duplicate insert is "already marked" as in scan-qr |
| QrRoutes.FailuresAnswer200 | backend/routes/qr.js:41-79 | the check failures answer 200 where scan-qr answers 403 or 400; the duplicate answers 400 |
| QrRoutes.NonIntegerClassIdFails | backend/routes/qr.js:36-39 | a class id that is not an integer ends in the 500 answer with nothing inserted |
| Uri.HexDigit | backend/routes/qr.js:19 | a hex digit below 16 is a hexadecimal and unreserved character |
| Uri.HexValue | backend/routes/qr.js:19 | a hexadecimal character has a value below 16 |
| Uri.HexRoundTrip | backend/routes/qr.js:19 | a hex digit reads back as its value |
| Uri.Utf8 | backend/routes/qr.js:19 | a character's UTF-8 form has one to four bytes |
| Uri.Escape | backend/routes/qr.js:19 | a byte is escaped as '%' and two hex digits |
| Uri.EscapeAll | backend/routes/qr.js:19 | escaping bytes gives three characters per byte, each '%' or unreserved |
| Uri.EncodeChar | backend/routes/qr.js:19 | an encoded character is made of '%' and unreserved characters |
| Uri.EncodeUriComponent | backend/routes/qr.js:19 | an encoded text is made of '%' and unreserved characters |
| Uri.ReadBytes | frontend/js/config.js:16-17 | n bytes read need at least 3n characters |
| Uri.ReadChar | frontend/js/config.js:16-17 | a character read consumes between one and all of the remaining characters |
| Uri.ReadEscape | frontend/js/config.js:16-17 | an escape reads back as its byte |
| Uri.ReadEscapes | frontend/js/config.js:16-17 | escaped bytes read back as those bytes |
| Uri.Utf8RoundTrip | frontend/js/config.js:16-17 | the lead byte announces the UTF-8 length and the bytes decode back to the character |
| Uri.ReadEncodedChar | frontend/js/config.js:16-17 | an encoded character reads back as itself, consuming exactly its encoding |
| Uri.DecodeEncode | frontend/js/config.js:16-17 | decodeURIComponent of encodeURIComponent of any text is that text |
| Uri.DecodeUriComponent | frontend/js/config.js:17 | decodeURIComponent: never longer than its input, None for the URIError |
| Uri.PlainTextDecodes | frontend/js/config.js:17 | text without '%' decodes to itself |
| SchemaSetup.KeepCodeLines | backend/setup-db.js:13-16 | the filter never adds lines |
| SchemaSetup.IsCommentLine | backend/setup-db.js:15 | a line whose trimmed form starts with "--" |
| SchemaSetup.StripComments | backend/setup-db.js:13-16 | the schema split into lines, the comment lines dropped, and joined back with newlines |
| SchemaSetup.KeepCodeLinesAppend | backend/setup-db.js:13-16 | the filter works line by line: filtering a concatenation is concatenating the filtered parts |
| SchemaSetup.KeepCodeLinesMembership | backend/setup-db.js:13-16 | a line survives exactly when it is in the schema and its trimmed form does not start with "--" |
| SchemaSetup.TrimmedStatements | backend/setup-db.js:19-22 | trimming and dropping empty pieces never gives more statements than pieces |
| SchemaSetup.TrimmedStatementsTrimmed | backend/setup-db.js:21-22 | every statement is non-empty, with no whitespace at either end |
| SchemaSetup.TrimmedStatementsAvoid | backend/setup-db.js:19-22 | trimming adds no character: pieces without ';' give statements without ';' |
| SchemaSetup.Statements | backend/setup-db.js:12-22 | every statement is non-empty, holds no ';' and has no whitespace at either end |
| SchemaSetup.TrimOfTrimmed | backend/setup-db.js:21 | trimming a trimmed statement leaves it as it is |
| SchemaSetup.TrimmedStatementsOfTrimmed | backend/setup-db.js:19-22 | trimmed non-empty pieces are kept exactly |
| SchemaSetup.JoinAvoids | backend/setup-db.js:16 | joining parts free of a character with another separator gives text free of it |
| SchemaSetup.SingleCodeLine | backend/setup-db.js:13-16 | a single code line goes through the comment filter unchanged |
| SchemaSetup.NotCommentWhenCodeFirst | backend/setup-db.js:15 | a line starting with code is not a comment line |
| SchemaSetup.StatementsOfJoined | backend/setup-db.js:12-22 | a schema written as trimmed one-line statements joined by ';' splits back into exactly those statements |
| SchemaSetup.JoinedIsOneCodeLine | backend/setup-db.js:13-16 | one-line statements joined by ';', the first starting with code, pass the comment filter unchanged |
| SchemaSetup.IndentedComment | backend/setup-db.js:15 | an indented "--" line is dropped too |
| SchemaSetup.TrailingCommentKept | backend/setup-db.js:15 | a code line with a trailing "--" comment is kept, comment included |
| SchemaSetup.FirstFatal | backend/setup-db.js:26-37 | the position is within range, every earlier answer is tolerated, and the answer at it is not |
| SchemaSetup.RunStatements | backend/setup-db.js:26-45 | the statements are sent in order up to and including the first error other than 42P01, which ends with exit code 1; otherwise all are sent and the exit code is 0 |
| SchemaSetup.RunSetup | backend/setup-db.js:5-51 | an unreadable schema file exits with 1 before anything is sent; otherwise the statements run as RunStatements states |
| SchemaSetup.FirstFatalIs | backend/setup-db.js:32-34 | the first answer not tolerated is the first fatal position |
| SchemaSetup.FirstFatalNone | backend/setup-db.js:32-34 | with every answer tolerated there is no fatal position |
| SchemaSetup.AttemptAll | backend/server.js:111-115 | every statement is sent in order whatever the database answers |
| SchemaSetup.SetupDbRoute | backend/server.js:100-120 | an unreadable file answers 500 with the error message and sends nothing; otherwise every statement is sent and the success text is answered |
| Signaling.Field | backend/server.js:37-60 | reading a property fails exactly on undefined and null |
| Signaling.JoinConverted | backend/server.js:38 | joined array elements fail exactly when one element's conversion fails |
| Signaling.TemplateString | backend/server.js:33 | a template literal throws exactly on an object with its own "toString" or an array holding one (ConversionThrows) |
| Signaling.ToString | backend/server.js:32 | toString() fails exactly on undefined, null and values whose conversion throws, and otherwise gives what the template literal gives |
| Signaling.RoomKeys | backend/server.js:32 | on server.js the rooms are the one room named by the id's string form, and none when toString throws; on server-https.js they are the id itself or each element of an array |
| Signaling.RoomKeysFail | backend/server.js:32 | naming rooms throws only on server.js, and there exactly for undefined, null and values whose conversion throws |
| Signaling.OwnToStringThrows | backend/server.js:32-33 | {"toString": 1} has no string form for toString() nor for a template literal, yet names a room on server-https.js |
| Signaling.ArrayIds | backend/server-https.js:48 | the array ["a","b"] names the one room "a,b" on server.js and the two rooms "a" and "b" on server-https.js |
| Signaling.Target | backend/server.js:39 | the rooms a field of the message names; none exactly when data is undefined or null or, on server.js, the field's toString throws |
| Signaling.Members | backend/server.js:39 | the sockets in a room, none for a room nobody joined |
| Signaling.Recipients | backend/server-https.js:54 | an emission reaches each member of any of the rooms once, and every connected socket when there are no rooms |
| Signaling.NumericAndStringIds | backend/server-https.js:47-49 | on server.js the number 42 and the string "42" name one room; on server-https.js two |
| Signaling.JoinRooms | backend/server.js:31-34 | the connection is added to each of the rooms and every other room is unchanged |
| Signaling.JoinRoomsIdempotent | backend/server.js:31-34 | joining rooms twice is joining them once |
| Signaling.LeaveAll | backend/server.js:63-65 | after a disconnect the socket is in no room, other members stay, and no empty room is kept |
| Signaling.JoinRoomsConsistent | backend/server.js:31-34 | a connected socket joining rooms keeps every member connected and every room non-empty |
| Signaling.JoinRoomsKeepsRoomsConnected | backend/server.js:31-34 | after a connected socket joins, no room is empty and every member is connected |
| Signaling.JoinRoomsKeepsOwnRooms | backend/server.js:31-34 | joining rooms never takes a connection out of the room named by its own id |
| Signaling.Relay.constructor | backend/server.js:13-19 | the relay starts with no connections and no rooms |
| Signaling.Relay.Connect | backend/server.js:27 | a new socket is connected and sits in the room of its own id |
| Signaling.Relay.Register | backend/server.js:31-34 | the socket joins the rooms its user id names. On server.js it crashes before joining exactly on undefined, null and values whose conversion throws. On server-https.js it joins and then crashes exactly when the logged `${userId}` throws |
| Signaling.Relay.Disconnect | backend/server.js:63-65 | the socket is removed from the connections and from every room |
| Signaling.Relay.CallUser | backend/server.js:37-44 | crashes exactly when data is undefined or null, or on server.js when the logged data.from or data.userToCall throws or data.userToCall.toString() does; otherwise incomingCall with signal, from and name goes to every socket the addressed rooms reach and to no one else |
| Signaling.Relay.AnswerCall | backend/server.js:46-48 | crashes exactly when data is undefined or null, or on server.js when data.to.toString() throws; otherwise callAccepted with the signal itself goes to every socket the addressed rooms reach and to no one else |
| Signaling.Relay.StartClassCall | backend/server.js:51-61 | crashes exactly when data is undefined or null, or on server.js when the logged data.roomId or data.teacherName throws; otherwise classCallStarted goes to exactly the connected sockets outside the room named by the sender's id, which socket.broadcast excludes |
| Signaling.RegisterTwiceIsOnce | backend/server.js:31-34 | registering one id twice leaves the rooms as one registration does |
| Signaling.EveryDeviceRings | backend/server.js:37-44 | two sockets registered under one user id both receive the call |
| Signaling.EmptyRoomDeliversNothing | backend/server.js:39 | a call to rooms nobody joined is delivered to no one |
| Signaling.EmptyArrayCallsEveryone | backend/server-https.js:53-58 | on server-https.js a call addressed to [] reaches every connected socket |
| Signaling.BroadcastSkipsSenderRoom | backend/server.js:55-60 | on a consistent relay a class call never reaches the sender, reaches every connected socket outside the sender's room, and carries exactly the four copied fields |
| Signaling.RegisteredUnderSenderIdSkipped | backend/server.js:31-60 | a socket that registered with the sender's socket id as its user id sits in the sender's room and receives no class call from that sender |
| Signaling.NumberRegisteredStringCalled | backend/server-https.js:47-54 | a socket registered with the number 42 is reached by a call to the string "42" exactly on server.js |
| LoginPage.Destination | frontend/js/auth.js:6-12 | a non-empty redirect target wins; otherwise the teacher page exactly for role 'teacher' and the student page for any other or missing role |
| LoginPage.DestinationIsFiltered | frontend/js/auth.js:1-12 | as written the page navigates to a home page or to a target getSafeRedirect let through: one starting with '/' whose second character is not '/' |
| LoginPage.BackslashDestinationLeavesOrigin | frontend/js/auth.js:1-12 | as written a redirect of "/\" followed by a host becomes the destination, whatever the role, and it leaves the origin |
| LoginPage.DestinationIsSafe | frontend/js/auth.js:1-12 | with the corrected filter the page only ever navigates to one of the two home pages or to a target that stays on the origin |
| LoginPage.PageLoad | frontend/js/auth.js:1-13 | as written: the target is read through getSafeRedirect; a logged-in visitor is sent to its destination at once, anyone else stays |
| LoginPage.PageLoadSafe | frontend/js/auth.js:1-13 | the page load with the corrected filter: the same navigation, and the location a logged-in visitor is sent to never leaves the origin |
| LoginPage.SafeDestinationStays | frontend/js/auth.js:1-12 | with the corrected filter no destination leaves the origin |
| LoginPage.SecondCharKeepsOrigin | frontend/js/auth.js:6-12 | a path whose second character is neither a slash nor a tab or newline stays on the origin |
| LoginPage.HomeStaysOnOrigin | frontend/js/auth.js:9-11 | the teacher and student home pages stay on the origin |
| LoginPage.LoggedInVisitorLeaves | frontend/js/auth.js:1-7 | as written, a logged-in student loading the page with redirect "/\" + host is sent to that address, which leaves the origin |
| LoginPage.LoggedInVisitorStays | frontend/js/auth.js:1-11 | with the corrected filter the same visit lands on the student home page |
| LoginPage.ResultOf | frontend/js/auth.js:28-30 | a successful login reaches the form with the signed token and the user's role; a refusal with status 400 or above and a message throws that message |
| LoginPage.ErrorText | frontend/js/auth.js:43 | the error text is the message, or the default text when the message is empty; it is never empty |
| LoginPage.LoginForm.constructor | frontend/js/auth.js:15-21 | the form starts enabled, reading "Sign In", with the error hidden and the target fixed at page load |
| LoginPage.LoginForm.Submit | frontend/js/auth.js:15-47 | the button is disabled and the error hidden first; success stores the token and the user and navigates by target then role; an answer without success changes nothing more; a thrown error shows its text and re-enables the button without storing or navigating |
| LoginPage.WrongCredentialsShown | frontend/js/auth.js:42-44 | an unknown email and a wrong password both end with the form throwing "Invalid credentials" |
| LoginPage.AttendanceLinkComesBack | frontend/js/auth.js:1-7 | the redirect parameter of the attendance link decodes to its return target, both filters accept it, and it wins over the role after login |
| LoginPage.ReturnTargetAccepted | frontend/js/auth.js:1 | any mark-attendance address passes both redirect filters unchanged |
| TeacherDashboard.EffectiveStatus | frontend/js/teacher.js:179-185 | a row shows its pending change when it has one; otherwise 'present' exactly when the server said 'present', and 'absent' for anything else |
| TeacherDashboard.PresentCount | frontend/js/teacher.js:179-185 | the present count never exceeds the number of rows |
| TeacherDashboard.AbsentCount | frontend/js/teacher.js:186 | present and absent always add up to the number of rows |
| TeacherDashboard.PresentCountAppend | frontend/js/teacher.js:179-185 | the count over two lists of rows is the sum of their counts |
| TeacherDashboard.MarkElsewhereKeepsCount | frontend/js/teacher.js:293-296 | a pending change for a student who has no row leaves the present count as it is |
| TeacherDashboard.FirstThrow | frontend/js/teacher.js:310-334 | the position is within range, no earlier request threw, and the one at it did |
| TeacherDashboard.SuccessCount | frontend/js/teacher.js:320-322 | the success count never exceeds the requests sent |
| TeacherDashboard.MarksFor | frontend/js/teacher.js:305-318 | one request body per student of the order, carrying the class, that student's pending status and the date |
| TeacherDashboard.AscendingKeys | frontend/js/teacher.js:305-308 | Object.keys of the pending changes: every id exactly once, in strictly ascending order |
| TeacherDashboard.Least | frontend/js/teacher.js:305 | one pass over a non-empty id set finds its smallest member |
| TeacherDashboard.AscendingOrderUnique | frontend/js/teacher.js:305-308 | two strictly ascending lists of the same ids are equal, so the request order is determined by the pending ids |
| TeacherDashboard.Dashboard.constructor | frontend/js/teacher.js:1-16 | the page starts with no class, both modals closed, no interval, no alert and nothing pending |
| TeacherDashboard.Dashboard.DisplayAttendance | frontend/js/teacher.js:169-175 | new rows replace the old, nothing is pending and edit mode is off |
| TeacherDashboard.Dashboard.ToggleEditMode | frontend/js/teacher.js:280-284 | edit mode is on and the pending changes are kept |
| TeacherDashboard.Dashboard.CancelEditMode | frontend/js/teacher.js:286-291 | edit mode is off and every pending change is dropped |
| TeacherDashboard.Dashboard.MarkForStudent | frontend/js/teacher.js:293-296 | the student's pending status is set and every other pending change is kept |
| TeacherDashboard.Dashboard.SaveManualAttendance | frontend/js/teacher.js:298-336 | with nothing pending only "No changes to save." is alerted; otherwise one request per pending student in ascending id order; the first that throws stops the loop, alerts its message and keeps the changes and edit mode; if none throws, the success count is alerted, changes and edit mode are cleared and the listing reloads |
| TeacherDashboard.Dashboard.StopRotation | frontend/js/teacher.js:77-79 | no rotation runs afterwards |
| TeacherDashboard.Dashboard.StopCountdown | frontend/js/teacher.js:107-109 | no countdown runs afterwards |
| TeacherDashboard.Dashboard.CloseQrModal | frontend/js/teacher.js:130-142 | the modal is hidden and neither interval runs |
| TeacherDashboard.Dashboard.StartTimer | frontend/js/teacher.js:102-124 | the previous countdown stops and exactly one new one runs, starting at the given seconds |
| TeacherDashboard.Dashboard.CountdownTick | frontend/js/teacher.js:114-123 | one second less is shown, and the countdown stops itself exactly when the count reaches zero or below |
| TeacherDashboard.Dashboard.FetchAndDisplayQr | frontend/js/teacher.js:86-100 | an issued code restarts the countdown at its validity with a new handle; an answer without success changes nothing; a thrown error alerts and closes the modal, stopping both intervals; the countdown value and text change only for an issued code |
| TeacherDashboard.Dashboard.GenerateQr | frontend/js/teacher.js:67-84 | as written: exactly one rotation runs afterwards even when the first fetch failed and closed the modal; an issued first code restarts the countdown, a failed one alerts and stops it; rows, pending changes, edit mode and date field are untouched |
| TeacherDashboard.Dashboard.GenerateQrWhileOpen | frontend/js/teacher.js:67-84 | corrected: the modal is open exactly when the first fetch did not fail, and a rotation runs only while it is open; the countdown and alerts follow the first fetch as in generateQR |
| TeacherDashboard.Dashboard.RotationTick | frontend/js/teacher.js:81-83 | a failed fetch alerts, stops the rotation and the countdown and closes the modal; an issued code restarts the countdown; otherwise nothing changes and the rotation keeps running |
| TeacherDashboard.Dashboard.ViewAttendance | frontend/js/teacher.js:144-152 | the class is selected and the date field is today |
| TeacherDashboard.SendAll | frontend/js/teacher.js:310-323 | the requests are sent in order up to and including the first that throws, whose message is returned; without a throw every request is sent and the successes are counted |
| TeacherDashboard.FirstThrowIs | frontend/js/teacher.js:333 | the first request that throws is at the first throwing position |
| TeacherDashboard.FirstThrowNone | frontend/js/teacher.js:325 | with no request throwing there is no throwing position |
| TeacherDashboard.FailedFirstFetchKeepsRotating | frontend/js/teacher.js:67-84 | as written, a failing first fetch leaves the modal closed with a rotation running |
| TeacherDashboard.FailedFirstFetchStopsRotating | frontend/js/teacher.js:67-84 | corrected, a failing first fetch leaves the modal closed with nothing rotating |
| VideoCall.Pad2 | frontend/js/video-call.js:283-284 | the padded text has at least two characters and never loses one |
| VideoCall.FormatClock | frontend/js/video-call.js:283-285 | the timer text is at least "mm:ss" long |
| VideoCall.Pad2KeepsValue | frontend/js/video-call.js:283-284 | padding a decimal text with zeros keeps it decimal with the same value, and leaves two digits or more as they are |
| VideoCall.MinutesPart | frontend/js/video-call.js:283 | the minutes field has at least two digits naming the whole minutes |
| VideoCall.SecondsPart | frontend/js/video-call.js:284 | the seconds field has exactly two digits naming the seconds within the minute |
| VideoCall.FieldsOf | frontend/js/video-call.js:285 | a text joined at ':' with a two-character tail splits back into its two fields |
| VideoCall.ClockReadsBack | frontend/js/video-call.js:282-285 | the text reads back as the elapsed time: ':' before two seconds digits naming 0..59, at least two minutes digits naming n / 60, and minutes * 60 + seconds == n |
| VideoCall.MinutesField | frontend/js/video-call.js:283-285 | the text before ":" and the two seconds digits |
| VideoCall.SecondsField | frontend/js/video-call.js:284-285 | the last two characters of the timer text |
| VideoCall.MinutesNotTruncated | frontend/js/video-call.js:283 | from 100 minutes on the minutes field grows to three digits or more rather than being cut |
| VideoCall.ResetTextIsZero | frontend/js/video-call.js:280 | the text shown at the start and after leaving, "00:00", is the text of zero seconds |
| VideoCall.GridLayout | frontend/js/video-call.js:259-276 | the grid records the tile count; picture-in-picture exactly up to two tiles, with the local tile's class following |
| VideoCall.PipSwitchesAtThree | frontend/js/video-call.js:266 | one tile more or less switches the layout exactly between two and three tiles |
| VideoCall.ClassRoomId | frontend/js/video-call.js:163 | a class channel starts with "class_" and ends with the start time in decimal |
| VideoCall.PrivateRoomId | frontend/js/video-call.js:185 | a direct-call channel starts with "private_" and ends with the start time in decimal |
| VideoCall.RoomKindsDiffer | frontend/js/video-call.js:163-185 | a class meeting and a direct call never share a channel |
| VideoCall.ClassRoomsDifferInTime | frontend/js/video-call.js:163 | two meetings of one class started at different milliseconds have different channels |
| VideoCall.CallOverlay.constructor | frontend/js/video-call.js:19-22 | no timer runs, the count is zero and there are no remote tiles |
| VideoCall.CallOverlay.StartTimer | frontend/js/video-call.js:278-287 | as written: the count and text reset and a new interval runs beside any that already ran |
| VideoCall.CallOverlay.StartTimerClearing | frontend/js/video-call.js:278-287 | corrected: the count and text reset and exactly the new interval runs |
| VideoCall.CallOverlay.Tick | frontend/js/video-call.js:281-286 | a tick adds one second and shows it in mm:ss |
| VideoCall.CallOverlay.TileAdded | frontend/js/video-call.js:203-229 | one remote tile more, and the layout is that of the new tile count |
| VideoCall.CallOverlay.TileRemoved | frontend/js/video-call.js:237-253 | one remote tile less, and the layout is that of the new tile count |
| VideoCall.CallOverlay.LeaveCall | frontend/js/video-call.js:289-322 | the remote tiles go, the grid returns to picture-in-picture, the text reads zero and only the interval in activeCallTimer is cleared; when only that one ran, nothing runs afterwards |
| VideoCall.JoinTwiceThenLeave | frontend/js/video-call.js:96-104 | as written, joining twice and leaving once leaves a timer interval running |
| VideoCall.JoinTwiceThenLeaveClearing | frontend/js/video-call.js:96-104 | corrected, joining twice and leaving once leaves nothing running |

## Left out

- SQL engine: the queries are modelled by their effect on in-memory tables. Joins, ordering by name and the `classes` and `courses` routes are not modelled; their logic lives in SQL.
- `/student/classes`, `/student/statistics`, `/teacher/classes` and `/teacher/classes/:classId`: these are read-only SQL aggregates with no logic in the script.
- Execution of the history query: only its text and parameters are modelled (`StudentRoutes.BuildHistoryQuery`); what PostgreSQL returns for it is not.
- Excel export (`/teacher/export/:classId`) and QR image rendering: library output.
- bcrypt, JWT signing and verification, and `uuidv4`: cryptography and randomness. They are oracles and parameters; the fresh token is assumed unused.
- Rate limiting, CORS, static serving, HTTPS certificate loading and the listening servers: configuration, not core logic.
- Concurrency: requests run one after another. Two racing scans are represented by the insert that fails on the unique key, which returns "already marked".
- Server-error paths other than the modelled ones: the 500 answers when the database is unreachable are left out. For a redemption the model keeps the unique-key violation. On the link route (`GET /mark-attendance`) it also keeps a class id PostgreSQL cannot read as an integer.
- StudentRoutes.Scan: the scan-qr body's classId is an optional integer. A non-empty string classId such as "abc" passes the route's `!classId` check, and PostgreSQL then refuses it for the integer column, so the route answers 500; that string case and its 500 are not modelled.
- Query-string arrays and URLSearchParams' lenient decoding: query values are single strings. The redirect parameter is decoded the way `decodeURIComponent` decodes, which agrees with URLSearchParams on every output of `encodeURIComponent`.
- JSON values other than strings and integers in request bodies: fields are optional strings or integers. JavaScript numbers are integers here, with no fractions, NaN or infinities.
- Object key order for ids that are not array indices: pending changes are keyed by natural numbers, whose `Object.keys` order is ascending.
- Floating-point displays are left out: the attendance percentage and the countdown's progress width.
- PostgreSQL's non-decimal integer input (hexadecimal, octal, binary, underscores): a class id is read as an optional sign and decimal digits within 32 bits.
- The mounting gap: the qr router is not mounted in `backend/server.js`. The link route is modelled as written anyway.
- Timer timing: intervals are sets of handles, and a tick is a call. No clock or ordering between different timers is modelled.
- The reload after saving: the listing reload that follows a save is the separate `DisplayAttendance` event.
- Video-call media: the Agora client, media tracks, the signalling socket and `initSignaling` are SDK and network I/O. Of the overlay only the timer, the tile count and the room names are modelled.
- Caller id fallback: in `start1on1Call` the caller id is taken from `user.id || user.student_id`. `VideoCall.PrivateRoomId` takes the resulting string.
- DOM rendering, modals, button labels other than the login form's, and innerHTML templates.
- `frontend/js/student.js`: rendering and a floating-point colour choice.
- Signaling.Relay.Register, Signaling.Relay.CallUser, Signaling.Relay.AnswerCall, Signaling.Relay.StartClassCall: a `Crashed` outcome stops at the throw. What follows is not modelled: the uncaught TypeError ends the Node process, which takes the HTTP API and every other socket with it.
- Signaling.RoomKeys: on server-https.js an object-valued id is compared structurally. A socket.io room Map compares a freshly decoded object by identity, so there two such ids never name one room.
- Signaling.JsValue: messages are JSON values with integer numbers. Fractional numbers, whose string forms have a decimal point or an exponent, and socket.io's binary attachments are not modelled.
- TeacherRoutes.GetAttendance: the roster is a parameter, not computed. It is required to hold each enrolled student of the class once, which is what the join of class_enrollments with the users it references returns. The ORDER BY full_name and the user columns are not modelled.
- TeacherRoutes.GenerateQr: the stored `session_date` is the database's `today`. The route's INSERT leaves it to the column default.

## Findings

| source | as written | input that shows it | evidently intended | confidence | as-written member | corrected member |
|---|---|---|---|---|---|---|
| frontend/js/config.js:23-27 | the filter accepts any target that starts with '/' and not with "//" | "/\evil.example", or "/" + tab + "/evil.example"; the browser's URL parser treats '\' as '/' and drops tabs and newlines, so both leave the site | only paths on the same origin pass | not executed | ClientConfig.GetSafeRedirect, ClientConfig.BackslashLeavesOrigin, ClientConfig.TabLeavesOrigin, LoginPage.PageLoad, LoginPage.LoggedInVisitorLeaves | ClientConfig.SafeRedirect, ClientConfig.SafeRedirectAgreesOnPlainPaths, LoginPage.PageLoadSafe, LoginPage.LoggedInVisitorStays |
| frontend/js/teacher.js:75-83 | after the first fetch, generateQR always starts the rotation interval | a first fetch that throws: the catch alerts and closes the modal, then a new rotation starts behind the closed modal and keeps issuing new codes every 5 s, each invalidating the one before, until a fetch fails | the rotation runs only while the modal is open | not executed | TeacherDashboard.Dashboard.GenerateQr, TeacherDashboard.FailedFirstFetchKeepsRotating | TeacherDashboard.Dashboard.GenerateQrWhileOpen, TeacherDashboard.FailedFirstFetchStopsRotating |
| frontend/js/video-call.js:278-287 | startTimer overwrites activeCallTimer without clearing the interval it held, and leaveCall clears only the last one | joinCall twice before leaveCall (a second call started while one is open): after leaveCall the first interval keeps ticking and the call timer text moves on from "00:00" | at most one timer interval runs, and none after leaving | not executed | VideoCall.CallOverlay.StartTimer, VideoCall.JoinTwiceThenLeave | VideoCall.CallOverlay.StartTimerClearing, VideoCall.JoinTwiceThenLeaveClearing |
