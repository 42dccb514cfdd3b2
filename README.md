# Beauty salon CRM: a Dafny model of its booking rules

The CRM lets a beauty salon register an account, sign in with a bearer token and
keep its own masters, price list (services), client card index and appointment
book. The server stores everything in five SQLite tables and scopes every
request to the salon its token names. The online booking page reads three public
routes without a token. The React front end adds the following:

- a stub sign-in state;
- a two-step registration form;
- an HTTP client that carries the token in its default headers;
- an environment switch between the local and the hosted server.

This project models those rules and proves what they promise.

**Server side**
- `Store` (database.dfy) is the database: a class with one `seq` per table and the last id AUTOINCREMENT handed out.
  - Its `Valid()` invariant states that ids are distinct, positive and never reused, and that salon e-mails are unique.
- Each route that writes is a module-level method that takes the `Store` as `db` and modifies it. Its postcondition states the whole new state, and that every other table is unchanged.
- Each route that only reads is a function of the tables.
- A route's reply is an `Http.Reply`: a status with a payload, or a status with one of the fixed refusal reasons.

**Request values**
- Request bodies are JavaScript values (`Js.JsValue`), with JavaScript's truthiness (`if (!x)`, `x || y`) and `String(x)`.
- How SQLite binds, stores and compares those values is modelled by module `Sql`:
  - the driver binds a string as text, a number as a number, a boolean as `1` or `0`, null and undefined as NULL, and an array or object as the text of its `String()` (`[5]` as `5`);
  - the ORDER BY and WHERE order: NULL compares with nothing and sorts first, then numbers by value, then text in BINARY collation;
  - INTEGER columns (ids and foreign keys) read a numeric text as a number: white space around it, a sign, a point, an exponent;
  - the DATE and TIME columns `appointment_date` and `start_time` have NUMERIC affinity, so a date of digits only is stored as a number while `YYYY-MM-DD` stays text;
  - TEXT columns (e-mails, names, categories) compare a number as its decimal text and a boolean as `1` or `0`.

**Parameters**
- bcrypt and jsonwebtoken are a `Crypto` value of four functions (`hash`, `compare`, `sign`, `decode`).
  - Only `Auth.Sound` is assumed of it, and only by the lemmas that need it:
    - a password matches its own hash;
    - a signed token decodes to its id;
    - a token is non-empty text without spaces.
- The server clock is a parameter: the dashboard receives `today` and `weekAgo` as `YYYY-MM-DD` texts.
- The browser environment (NODE_ENV, page host name, the stored token) is a parameter of the client modules.

The modules follow the repository:

| module | file | models |
|---|---|---|
| `Appointments` | appointments.dfy | routes/appointments.js |
| `Auth` | auth.dfy | routes/auth.js |
| `Masters`, `Services`, `Clients` | masters.dfy, services.dfy, clients.dfy | routes/masters.js, routes/services.js, routes/clients.js |
| `SalonRoutes` | salon.dfy | routes/salon.js |
| `Database`, `Http` | database.dfy | the CREATE TABLE statements of database/database.js, and the route replies |
| `Clock` | clock.dfy | the end-time arithmetic of the booking route |
| `RegisterPage` | register_page.dfy | client/src/components/Auth/Register.js |
| `AuthState` | auth_state.dfy | client/src/App.js |
| `HttpClient` | http_client.dfy | client/src/utils/api.js |
| `ApiConfig` | api_config.dfy | client/src/config/api.js |
| `Text`, `Js`, `Sql`, `Ordering` | text.dfy, js.dfy, sql.dfy, sorting.dfy | string functions, JavaScript coercions, SQLite comparison, and filtering and sorting |

## Model

| member | source | states |
|---|---|---|
| Database.Store.constructor | database/database.js:19-113 | a new database has five empty tables and satisfies the key and unique-email invariant |
| Database.FindById | routes/appointments.js:59-62 | `WHERE id = ?` finds a row whose integer id the bound value denotes, or reports that no row has it |
| Database.FindByIdKeyed | routes/appointments.js:117-120 | with unique ids, a lookup by a row's id returns exactly that row |
| Database.FindByIdSameInteger | routes/appointments.js:59-62 | two bound values that SQLite reads as the same integer find the same row |
| Database.DeleteOwned | routes/masters.js:83-93 | `DELETE ... WHERE id = ? AND salon_id = ?` removes at most one row; the table stays the same size exactly when no row of that salon has the id |
| Database.DeleteOutcome | routes/masters.js:83-93 | the route's view of the `DELETE`: a matching row of the salon exists exactly when the table shrinks by one; otherwise the table is unchanged; ids stay unique either way |
| Database.KeyedFilter | routes/masters.js:83-86 | deleting rows keeps ids distinct and within the AUTOINCREMENT bound |
| Database.FindSalon | routes/auth.js:90-93 | the salon found satisfies the WHERE condition, and none is found only when no salon does |
| Database.FindSalonByEmailUnique | routes/auth.js:90-93 | with e-mails unique as text, the lookup by any e-mail that matches a salon's as text returns that salon |
| Database.EmailsUniqueAppend | database/database.js:27 | a new salon whose e-mail matches no stored one as text keeps the UNIQUE constraint |
| Js.Or | routes/masters.js:52-56 | `a \|\| b` is `a` when `a` is truthy, otherwise `b` |
| Js.ToNumberOfSingleton | routes/appointments.js:73 | `Number([60])` is 60 |
| Sql.NumeralLeTransitive | routes/appointments.js:28 | numbers, written as a sign, digits and a power of ten, are ordered by value transitively |
| Sql.LeTransitive | routes/services.js:15 | the SQLite order of stored values is transitive |
| Sql.LeTotalPreorder | routes/services.js:15 | the ORDER BY comparison is total and transitive, so every listing has a sorted order |
| Sql.LeOnText | routes/masters.js:15 | on texts the ORDER BY comparison is BINARY collation |
| Sql.EqualOnText | routes/salon.js:51-54 | in a WHERE clause two texts are equal exactly when they are the same text, and a number is neither equal to nor at least any text |
| Sql.EqualIsAtLeast | routes/salon.js:51-60 | a value equal to one value satisfies `>=` every non-NULL value that sorts before it |
| Sql.AsInteger | routes/masters.js:83-86 | a number binds as itself, null and undefined match no id; a text goes through numeric affinity and an array or object through its text, as the lemmas below state |
| Sql.MatchesTextOfId | routes/masters.js:85 | the decimal text of an id, as it arrives in a path, selects that id |
| Sql.AsIntegerOfDecimal | routes/masters.js:83-86 | a text of decimal digits matches the integer it spells |
| Sql.AsIntegerOfSigned | routes/masters.js:83-86 | `+d` matches the value of `d` and `-d` its negation |
| Sql.AsIntegerOfSpaced | routes/masters.js:83-86 | space, tab, line feed, vertical tab, form feed and carriage return around the text do not change what it matches |
| Sql.AsIntegerOfZeroFraction | routes/masters.js:83-86 | `d.` and `d.` followed by zeros match the value of `d` |
| Sql.AsIntegerOfTenths | routes/masters.js:83-86 | `d.c` with a nonzero digit `c` is not an integer and matches no id |
| Sql.AsIntegerOfExponent | routes/masters.js:83-86 | `d` followed by `e` and a decimal `k` matches the value of `d` times 10 to the `k` |
| Sql.SingletonBoundAsElement | routes/appointments.js:59-62 | an array of one text or number is bound as that element's text, both for an INTEGER and for a NUMERIC column |
| Sql.AsIntegerOfSingleton | routes/appointments.js:59-62 | an id sent as `[5]` or `["5"]` selects the same row as the id itself |
| Sql.TextIntegerOfIntToString | routes/appointments.js:59-62 | the decimal text of any integer, negative ones included, reads back as that integer |
| Sql.AsText | database/database.js:27 | the text a value is compared as in a TEXT column: a string itself, NULL for null and undefined and no other value |
| Sql.TextMatchesEquivalence | routes/auth.js:27 | the e-mail comparison is reflexive on non-NULL values, symmetric and transitive |
| Sql.TextMatchesOfTexts | routes/auth.js:27 | two texts match exactly when they are equal |
| Sql.NumberMatchesItsText | routes/auth.js:27 | a 32-bit number and its decimal text match, in either order |
| Sql.BooleanMatchesDigit | routes/auth.js:27 | `true` matches `1` and not `true`; `false` matches `0` and not `false` |
| Sql.TextAffinity | database/database.js:41 | a value in a TEXT column is NULL exactly for null and undefined, a string is itself, and any other text is the value's text |
| Sql.TextMatchesIsEqual | routes/auth.js:27 | the e-mail comparison is exactly SQLite's `=` on the two values under TEXT affinity |
| Sql.NumericText | database/database.js:91-92 | under NUMERIC affinity a text is never NULL; it stays the same text when it is no number, and a number read from it denotes the integer the text reads as |
| Sql.NumericAffinity | database/database.js:91-92 | a value in a DATE or TIME column is NULL exactly for null and undefined, and a number is kept as that number |
| Sql.DateEqualsIsAtLeast | routes/salon.js:51-60 | a date equal to one parameter also satisfies `>=` every parameter that sorts before it |
| Sql.DashedTextStaysText | database/database.js:91 | digits followed by a dash, as in a date, are no number and are stored as the same text |
| Sql.IsoDateStaysText | routes/salon.js:46-47 | a `YYYY-MM-DD` date is stored and compared as text |
| Sql.IsoDatesCompareAsText | routes/salon.js:46-47 | two `YYYY-MM-DD` dates compare in a DATE column exactly as their texts do |
| Sql.DecimalDateIsNumber | database/database.js:91 | a date of digits only, such as `20240115`, is stored as the number it spells |
| Sql.DecimalDateBeforeText | routes/salon.js:51-60 | a date of digits only is neither equal to nor on or after a parameter that stays text |
| Clock.FormatClock | routes/appointments.js:74 | the `HH:MM` text of a minute of the day is a clock time that reads back as that minute |
| Clock.FormatOfMinuteOfDay | routes/appointments.js:74 | a five-character clock time written back from its minute is the same text |
| Clock.ParseDateTime | routes/appointments.js:72 | a text `new Date` reads yields fields in range: month 1-12, day 1-31, minute and second below 60, milliseconds below 1000, and hour 24 only with minute and second zero and every fraction digit zero |
| Clock.StoredDuration | routes/appointments.js:73 | the duration read back from the INTEGER column is the integer SQLite stored when it stored one, and otherwise the value `Number()` reads from it; there is a duration exactly when one of the two reads the value |
| Clock.EndTime | routes/appointments.js:72-74 | the stored end time is a clock time or the Invalid Date text `Inval` |
| Clock.DateThenTime | routes/appointments.js:72 | after a date form (`YYYY`, `YYYY-MM` or `YYYY-MM-DD`) and `T`, the text is read exactly when the time is, with that date's fields |
| Clock.TimeOfClock | routes/appointments.js:72 | `HH:MM` and `HH:MM:SS` read as local time with that hour and minute |
| Clock.TimeOfFraction | routes/appointments.js:72 | `HH:MM:SS.fff...` is read, the first three fraction digits giving the milliseconds |
| Clock.TimeOfUtc | routes/appointments.js:72 | `HH:MM[:SS]Z` is read as UTC |
| Clock.TimeOfOffset | routes/appointments.js:72 | `HH:MM[:SS]+HH:MM` and `-HH:MM` are read with that offset from UTC |
| Clock.TimeOfMidnight24 | routes/appointments.js:72 | `24:00` and `24:00:00` are read as hour 24; `24:00:01`, `24:30` and `24:00:00.0001` are not read |
| Clock.TimeOfMidnight24Fraction | routes/appointments.js:72 | `24:00:00.` followed by digits is midnight exactly when every digit is zero, past the third as well |
| Clock.TimeOfNonClock | routes/appointments.js:72 | a time that does not start with `HH:MM` (hours 00-23) or `24:00` is not read |
| Clock.EndMinute | routes/appointments.js:73-74 | adding whole minutes to a time value moves the local minute shown by the same amount, modulo a day, from the wall clock corrected by the text's offset and the server's zone |
| Clock.WithinDateRange | routes/appointments.js:73 | a read date moved by at most LongestDuration minutes stays within the Date range |
| Clock.EndOfMomentValue | routes/appointments.js:73-74 | for a read moment and a duration within LongestDuration, the end time is the clock text of the shown minute |
| Clock.EndTimeOfWellFormed | routes/appointments.js:72-74 | for a date form and an `HH:MM[:SS]` start, the end time's minute is start plus duration modulo 1440, whatever the server's zone |
| Clock.EndTimeElapsed | routes/appointments.js:72-74 | the end lies `duration` minutes after the start on the clock face |
| Clock.EndTimeWrapsPastMidnight | routes/appointments.js:72-74 | a booking that crosses midnight ends at an earlier clock time on the same stored date |
| Clock.EndTimeOfMidnight24 | routes/appointments.js:72-74 | a start of `24:00` is the next day's midnight, so the end minute is the duration modulo 1440 |
| Clock.EndTimeIgnoresFraction | routes/appointments.js:72-74 | fractional seconds on the start do not change the end time |
| Clock.EndTimeOfUtcStart | routes/appointments.js:72-74 | a start in UTC (`Z`) ends at start plus the server's offset plus duration, modulo 1440 |
| Clock.EndTimeOfOffsetStart | routes/appointments.js:72-74 | a start with an offset ends at start minus that offset plus the server's offset plus duration, modulo 1440 |
| Clock.EndTimeBeyondDateRange | routes/appointments.js:73 | a duration longer than the whole Date range gives `Inval` |
| Clock.EndTimeOfMalformedStart | routes/appointments.js:72-74 | after a date form, a start that does not begin with `HH:MM` (hours 00-23) or `24:00` gives `Inval` |
| Clock.EndTimeOfNaNDuration | routes/appointments.js:73 | a duration that SQLite does not store as an integer and `Number()` cannot read gives `Inval`; an array is read through its text, so `[60]` is not such a duration |
| Clock.EndTimeOfSingletonDuration | routes/appointments.js:72-74 | a duration of `[60]` or `["60"]` gives the same end time as `60` or `"60"` |
| Appointments.Admission | routes/appointments.js:9-15 | paths under `/public/` skip the token check; every other path goes through authenticateToken |
| Appointments.PublicRoutesOpen | routes/appointments.js:9-15 | a public booking path needs no token, while the appointment book without one is refused with 401 |
| Appointments.CheckBooking | routes/appointments.js:49-69 | 400 exactly when one of the five required fields is falsy; otherwise accepted exactly when a service of the caller's salon has the id as SQLite reads it (a text, a number or an array bound as its text), and 404 if none does |
| Appointments.BookingWithArrayId | routes/appointments.js:49-69 | a truthy `service_id` sent as `[x]` is checked exactly as `x` is |
| Appointments.BookedAppointment | routes/appointments.js:71-93 | the new row is confirmed and belongs to the caller's salon; it keeps the request's ids, date and start; its price is the request's if truthy, else the service's; its notes default to `''`; for a date form, an `HH:MM[:SS]` start and a duration within LongestDuration, it ends duration minutes after its start, modulo a day |
| Appointments.Create | routes/appointments.js:47-108 | a refusal leaves the table unchanged; an acceptance appends exactly one row with the next id and answers 201 with that id; other tables are unchanged |
| Appointments.DoubleBooking | routes/appointments.js:76-93 | the same master, date and start booked twice gives two confirmed rows with distinct ids: there is no overlap check |
| Appointments.View | routes/appointments.js:21-26 | each LEFT JOIN gives the name of a row whose id the stored reference denotes as SQLite reads it, arrays included, or NULL when there is none |
| Appointments.NewestFirstTotal | routes/appointments.js:28 | `ORDER BY appointment_date DESC, start_time DESC` is a total preorder |
| Appointments.NewestFirstOrder | routes/appointments.js:28 | in that order, dates never increase, and within one date start times never increase, both as the NUMERIC columns compare them |
| Appointments.Book | routes/appointments.js:20-30 | exactly the caller's appointments, as many as the salon has, newest date first and latest start first within a date, as the DATE and TIME columns compare |
| Appointments.List | routes/appointments.js:18-35 | the book with each row's joined names, row for row |
| Appointments.PublicInfo | routes/appointments.js:113-132 | the salon named by the path's id with the five public columns, or 404 exactly when there is none |
| Appointments.PublicInfoOfLink | routes/appointments.js:115-119 | a link carrying a salon's decimal id shows that salon |
| Appointments.PublicServices | routes/appointments.js:144-156 | exactly the active services of the path's salon, as the five public columns |
| Appointments.PublicMasters | routes/appointments.js:168-180 | exactly the active masters of the path's salon, as id, name and rating |
| Auth.Profile | routes/auth.js:49-52 | the returned profile carries the salon's id, name and e-mail |
| Auth.WithoutPassword | routes/auth.js:120 | the answered salon data carries the row's id, name and e-mail, and has no password field |
| Auth.CheckRegistration | routes/auth.js:15-39 | accepted exactly when name, email and password are truthy, no salon's e-mail matches it as text and the password is text; 400 for missing fields and for an e-mail that matches a stored one; 500 when bcrypt rejects a non-text password |
| Auth.Register | routes/auth.js:13-75 | a refusal leaves salons unchanged; an acceptance appends one salon storing the hash of the password with the column defaults, and answers 201 with a token for the new id and the profile without the password; e-mails stay unique as text |
| Auth.Login | routes/auth.js:78-136 | 400 without e-mail or password; 401 when no salon's e-mail matches it as text; success only for a salon whose e-mail matches and whose stored hash matches the password, answering a token for that salon and the row without its password |
| Auth.LoginRefusalsAlike | routes/auth.js:95-110 | an unknown e-mail and a wrong password get the identical 401 reply |
| Auth.LoginWithRegisteredPassword | routes/auth.js:103-126 | the password a salon registered with logs it in, under any e-mail that matches its own as text, with a token that decodes to its id |
| Auth.BearerToken | routes/auth.js:140-141 | a token exists exactly when the header holds a space; it is the text between the first space and the next space or the end, so `Bearer a b` gives `a` and `Bearer  x` gives the empty text |
| Auth.Authenticate | routes/auth.js:139-160 | 401 exactly when there is no token; 403 exactly when it fails verification; otherwise the salon id comes from the token |
| Auth.BearerTokenOfHeader | routes/auth.js:141 | `<scheme> <token>`, as in `Bearer <token>`, yields exactly that token when neither part has a space |
| Auth.AuthenticateIssuedToken | routes/auth.js:150-158 | a token the server signed for an id admits the request as that salon |
| Auth.AuthenticateWithoutScheme | routes/auth.js:141-148 | a header with no space, such as a bare token, is refused with 401 |
| Auth.Me | routes/auth.js:163-180 | the profile of the token's salon, or 404 exactly when no salon has that id |
| Masters.Create | routes/masters.js:34-78 | 400 without a truthy name and nothing inserted; otherwise one row appended with the next id and returned with 201; other tables unchanged |
| Masters.NewMasterDefaults | routes/masters.js:45-58 | a new master is active, rated 5, belongs to the caller, keeps its name, and stores `[]` for an omitted specialty list |
| Masters.List | routes/masters.js:14-16 | exactly the caller's masters, as many as the salon has, in name order as the TEXT column compares |
| Masters.CreatedMasterListed | routes/masters.js:45-63 | a created master appears in the salon's list |
| Masters.Delete | routes/masters.js:81-107 | removes exactly the rows matching both id and salon; answers 200 exactly when one existed (the table shrinks by one) and 404 with the table unchanged otherwise; other tables, including appointments, are unchanged |
| Masters.DeletedMasterUnlisted | routes/masters.js:83-86 | after the delete, the master is no longer in the salon's list |
| Services.Create | routes/services.js:34-78 | 400 when name, duration or price is falsy (0 included), nothing inserted; otherwise one row with description NULL and category `other` by default, returned with 201 |
| Services.CreatedServiceBookable | routes/services.js:45-57 | a created service can be booked by its id and shows on the salon's public price list |
| Services.ByCategoryThenNameTotal | routes/services.js:15 | `ORDER BY category, name` is a total preorder |
| Services.ByCategoryThenNameOrder | routes/services.js:15 | in that order, categories never decrease, and names never decrease within a category |
| Services.List | routes/services.js:14-16 | exactly the caller's services, grouped by category and ordered by name within one, as the TEXT columns compare |
| Services.Delete | routes/services.js:80-106 | removes exactly the salon's row with that id; 404 with the table unchanged when there is none; appointments naming it stay |
| Services.DeletedServiceUnbookable | routes/services.js:82-93 | a deleted service can no longer be booked under its id (404) |
| Clients.Create | routes/clients.js:34-77 | 400 without a truthy name and phone; otherwise one row appended with NULL defaults, no visits and nothing spent, returned with 201 |
| Clients.List | routes/clients.js:14-16 | exactly the caller's clients, in name order as the TEXT column compares |
| Clients.CreatedClientListed | routes/clients.js:45-62 | a created client is listed with no visits and nothing spent |
| Clients.Delete | routes/clients.js:80-106 | removes exactly the salon's row with that id; 404 with the table unchanged otherwise |
| Clients.ForeignClientKept | routes/clients.js:82-85 | another salon's client survives a delete by its id |
| SalonRoutes.Info | routes/salon.js:12-32 | the token's salon without its password, or 404 exactly when it does not exist |
| SalonRoutes.Stats | routes/salon.js:44-82 | today's count is the salon's appointments whose date equals `today` in the DATE column; the week's count is those on or after `weekAgo` there, any status; the client total is the salon's clients |
| SalonRoutes.RevenueAppend | routes/salon.js:63-66 | SUM over two sets of rows is the sum of the two sums |
| SalonRoutes.WeekCountsToday | routes/salon.js:51-60 | when `weekAgo` sorts no later than `today` as SQLite compares them, the week's count is at least today's |
| SalonRoutes.WeekCountsTodayOfIsoDates | routes/salon.js:46-60 | for `YYYY-MM-DD` parameters with `weekAgo` before `today` as text, the week's count is at least today's |
| SalonRoutes.DecimalDateUncounted | routes/salon.js:51-66 | an appointment whose date is digits only, stored as a number, adds nothing to any figure |
| SalonRoutes.TotalClientsIsListLength | routes/salon.js:69-72 | the client total equals the length of the salon's client list |
| SalonRoutes.RevenueWithoutCompleted | routes/salon.js:63-79 | without a completed appointment the week's revenue is 0 |
| SalonRoutes.BookingLeavesRevenue | routes/salon.js:57-66 | a new confirmed booking raises the counts whose dates it meets and leaves the revenue unchanged |
| SalonRoutes.CompletedAddsPrice | routes/salon.js:63-66 | a completed appointment of the week adds its price to the revenue |
| ApiConfig.CurrentConfig | client/src/config/api.js:2-23 | development exactly when NODE_ENV is development or the host is localhost or 127.0.0.1; production exactly otherwise; the base URL is an http(s) URL and the timeout at least 10 s |
| ApiConfig.LocalPageUsesLocalServer | client/src/config/api.js:14-20 | a page on localhost talks to `http://localhost:5000/api` whatever the build |
| ApiConfig.BuildApiUrl | client/src/config/api.js:57-59 | the URL is the base URL followed by the endpoint, with no pass-through for absolute URLs |
| ApiConfig.ByIdSegment | client/src/config/api.js:37-49 | a by-id path splits into the collection and the id's text, and that text selects the id on the server |
| ApiConfig.ByIdBuilders | client/src/config/api.js:37-49 | the four by-id builders name `masters`, `services`, `appointments` and `clients` followed by the id |
| HttpClient.WithToken | client/src/utils/api.js:14-20 | a truthy token sets `Authorization: Bearer <token>`, anything else removes it, and all other headers are kept |
| HttpClient.Merge | client/src/utils/api.js:33-36 | request headers are the defaults overlaid by the call's own, the call's winning |
| HttpClient.ApiClient.constructor | client/src/utils/api.js:5-11 | a client takes the configured base URL and timeout and sends JSON |
| HttpClient.ApiClient.SetAuthToken | client/src/utils/api.js:14-20 | only the default headers change, as WithToken says |
| HttpClient.ApiClient.BuildUrl | client/src/utils/api.js:23-26 | an endpoint that starts with `http` is used as given; any other is appended to the base URL |
| HttpClient.ApiClient.Configure | client/src/utils/api.js:29-41 | the method is upper-cased, the headers merged, and a JSON body sent exactly when the data is truthy and the method is POST, PUT or PATCH |
| HttpClient.StatusMessage | client/src/utils/api.js:55 | the fallback error text starts `HTTP error! status: ` and names the status |
| HttpClient.Settle | client/src/utils/api.js:49-58 | an ok response resolves to its body; any other rejects with an Error carrying the server's message, or the status text when it has none |
| HttpClient.HandleApiError | client/src/utils/api.js:141-149 | an AbortError gives the timeout text; any other error its message, or the generic text when the message is falsy |
| HttpClient.FailedResponseText | client/src/utils/api.js:54-56 | the user sees the server's message when it prints as text, and otherwise the status text, from which the status can be read back |
| HttpClient.Startup | client/src/utils/api.js:151-155 | the shared client starts with the stored token installed when there is one |
| HttpClient.ConfigureIgnoresCase | client/src/utils/api.js:32 | the method's letter case does not change the request |
| HttpClient.BodyByVerb | client/src/utils/api.js:66-84 | get and delete never send a body; post sends the JSON of truthy data |
| HttpClient.BuildUrlIdempotent | client/src/utils/api.js:23-26 | with an http base URL, building an already built URL changes nothing |
| HttpClient.BuildUrlAgreesWithConfig | client/src/utils/api.js:23-26 | for a relative endpoint, buildUrl and the configuration's buildApiUrl give the same URL, and buildUrl leaves that URL alone |
| HttpClient.ClearAfterSet | client/src/utils/api.js:14-20 | clearing the token after setting one leaves the headers as they were without it |
| HttpClient.IssuedTokenReachesServer | client/src/utils/api.js:14-36 | a token the server issued, installed with setAuthToken and not overridden per call, admits every request as its salon |
| AuthState.AuthProvider.constructor | client/src/App.js:19-20 | nobody is signed in and nothing is loading |
| AuthState.AuthProvider.Login | client/src/App.js:22-29 | succeeds exactly for `demo@salon.com` / `demo123`, signing in user 1 named `Demo Salon`; otherwise the user is unchanged |
| AuthState.AuthProvider.Register | client/src/App.js:31-34 | always succeeds, signing in user 1 with the form's name and e-mail |
| AuthState.AuthProvider.Logout | client/src/App.js:36-38 | signs the user out |
| AuthState.Field | client/src/App.js:32 | `data.name` is the field's text, or undefined when missing |
| AuthState.UseAuth | client/src/App.js:10-16 | the provider's value, or outside a provider a signed-out, not-loading fallback |
| AuthState.ProtectedRoute | client/src/App.js:57-69 | spinner exactly while loading; otherwise the page exactly for a signed-in user, and a redirect to `/login` for anybody else |
| AuthState.PublicRoute | client/src/App.js:72-84 | spinner exactly while loading; otherwise a redirect to `/dashboard` for a signed-in user, and the page exactly for anybody else |
| AuthState.GuardsComplementary | client/src/App.js:57-84 | once loading is over, exactly one guard shows its page, and the other redirects to the page the first guards |
| AuthState.FallbackSignedOut | client/src/App.js:10-16 | outside a provider, protected pages redirect to login and public pages show |
| AuthState.ProtectedIffAuthenticated | client/src/App.js:46-69 | a protected page shows exactly when `isAuthenticated` holds |
| AuthState.DemoSession | client/src/App.js:22-38 | signing in with the demo account shows protected pages; signing out sends them back to `/login` |
| RegisterPage.Step1Filled | client/src/components/Auth/Register.js:25-27 | step 1 passes exactly when name, address and phone each contain a character other than white space |
| RegisterPage.Step2Filled | client/src/components/Auth/Register.js:29-33 | step 2 passes exactly when the e-mail is not blank, the password has at least 6 characters and it equals its confirmation |
| RegisterPage.RegisterForm.constructor | client/src/components/Auth/Register.js:7-16 | six empty fields, step 1, not loading |
| RegisterPage.RegisterForm.HandleChange | client/src/components/Auth/Register.js:18-23 | only the named field changes, and all six fields remain |
| RegisterPage.RegisterForm.NextStep | client/src/components/Auth/Register.js:52-56 | moves to step 2 exactly when step 1 passes; otherwise the step is unchanged |
| RegisterPage.RegisterForm.PrevStep | client/src/components/Auth/Register.js:58-60 | always step 1, with the fields kept |
| RegisterPage.RegisterForm.HandleSubmit | client/src/components/Auth/Register.js:35-50 | nothing happens unless step 2 passes; otherwise loading turns on and register receives every field but the confirmation; loading turns off again only when register reports failure, which the provider never does and the fallback always does; the provider's own loading flag is never changed |
| RegisterPage.Payload | client/src/components/Auth/Register.js:44 | the data sent has the form's fields except `confirmPassword`, with their values unchanged |

## Left out

- I/O: Express, the SQLite driver, fetch, the abort timer, localStorage, logging and React rendering. A route is one sequential step over the tables. A client call ends at the RequestConfig it builds and at the parsed response it settles on.
- Concurrency: requests are not interleaved. In particular, the race between the e-mail check and the insert of `/register` is not modelled.
- The 500 replies from database errors (every route's catch block). The only 500 modelled is bcrypt's refusal of a non-text password.
- Crypto: bcrypt and jsonwebtoken are the `Crypto` parameter. Token expiry (`30d`) and the secret are not modelled.
- Time:
  - `new Date()` in the dashboard is replaced by the `today` and `weekAgo` parameters.
  - The unused `monthAgo` (routes/salon.js:48) is not modelled.
  - `created_at`, `updated_at` and `subscription_expires` are not stored.
  - The server's time zone is a fixed offset from UTC (`Clock.UtcOffset`), given as a parameter: daylight-saving changes between the start and the end are not modelled.
  - `new Date(text)` is modelled for the date-time string format: `YYYY`, `YYYY-MM` or `YYYY-MM-DD`, then `T` and `HH:mm[:ss[.fraction]]` with an optional `Z` or `±HH:mm`/`±HHmm`. Texts outside it, which V8's fallback parser may still read (a lower-case `z`, a space instead of `T`, six-digit years), are Invalid Date in the model.
  - The end-time lemmas cover durations up to `Clock.LongestDuration` minutes either way; `Clock.EndTimeBeyondDateRange` covers those beyond twice the Date range. For durations between the two the model computes the end time, but no lemma states it.
- Numbers:
  - Numbers are integers, so NaN, `-0`, fractions and REAL prices and ratings are not represented. `Number()` of a text reads only decimal digits, after trimming; an array or object is read through its text.
  - SalonRoutes.Stats: the revenue is the integer sum of the prices that read as integers. Other stored prices add 0, where SQLite would add their numeric prefix.
- SQLite types:
  - Type affinity is modelled wherever a comparison depends on it: ids against INTEGER keys, e-mails against `salons.email`, names and categories in ORDER BY (TEXT affinity), and `appointment_date` and `start_time` in WHERE and ORDER BY (NUMERIC affinity).
  - A row keeps the value the route bound, not what SQLite stores for it; every comparison goes through what SQLite stores (`Sql.TextAffinity`, `Sql.NumericAffinity`, `Sql.AsInteger`). Arrays and objects are kept as values and compared as their text.
  - Sql.NumericAffinity: a numeric text is kept as the exact decimal it spells, where SQLite keeps a 64-bit integer or a double; dates and times of more than 15 significant digits may compare differently. The affinity of `end_time` is not modelled, since nothing compares it.
  - Clock.StoredDuration: a duration that SQLite stores as a REAL (`60.5`) comes back as a fraction, which the model does not represent; it reads that duration as `Number()` of the bound text, which gives none.
  - Sql.AsText: a number outside 32 bits is bound as a REAL, whose text the model writes as its decimal digits and `.0`; SQLite prints 15 significant digits and switches to exponent form for large values, so e-mails that are numbers of 16 or more digits compare differently.
  - `JSON.stringify` output is kept as the value it encodes.
- Sql.AsInteger: a text is read as an exact decimal with exponent. SQLite reads it as a double, so texts with more than 15 significant digits or a huge exponent may round to an integer the model does not give; integers beyond 64 bits and hexadecimal texts are not modelled.
- Listings: ties in ORDER BY (equal names, dates or categories) and the row order of the three public routes, which have no ORDER BY, are left unspecified.
  - Masters.List, Services.List, Clients.List, Appointments.Book: state the members, their number and the sort order. They do not state the order of ties.
  - Appointments.PublicServices, Appointments.PublicMasters: state the members and their number, not their order.
- Foreign keys: the ON DELETE CASCADE clauses are declared, but SQLite's foreign-key enforcement is never switched on. A delete therefore leaves the appointments that name the row, and the model does the same.
- Text:
  - `toUpperCase` is modelled for ASCII letters only.
  - String length counts characters, not UTF-16 code units, so a password with characters outside the Basic Multilingual Plane is measured differently.
  - `trim` removes the white-space characters listed in `Text.IsSpace`.
- HttpClient.Settle: a response body that is JSON `null` makes `responseData.message` throw a TypeError in the client. The model reads it as a body without a message. The abort on timeout is an error named `AbortError` that HandleApiError receives.
- HttpClient: the `authAPI`, `salonAPI`, `mastersAPI`, `servicesAPI`, `appointmentsAPI`, `clientsAPI` and `systemAPI` tables are not modelled as separate members. Each entry is one `Configure` with a fixed verb and endpoint, and `BodyByVerb` and `ApiConfig.ByIdBuilders` cover their shapes.
- AuthState: the provider's `loading` flag is never set in the source. The model keeps it as a field that starts false and that no method changes. The functions of the fallback context (`login`, `register`, `logout`) do nothing and return undefined, which `RegisterForm.HandleSubmit` models for the missing provider.
- RegisterPage.RegisterForm.HandleSubmit: the `await` on register is modelled as a call that returns before the method continues. The component unmounting after the redirect is not modelled.
- Booking rules the code does not contain are not modelled:
  - the salon's `work_hours` and `settings` (slot length, booking horizon, cancellation cutoff) and the masters' `work_schedule` are stored but never consulted;
  - there is no overlap check, no free-slot computation, no status change and no update of a client's visit counters.

  The code has no overlap check: `Appointments.DoubleBooking` shows two overlapping bookings both accepted.
