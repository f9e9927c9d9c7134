# TestDataGenerator core, modelled in Dafny

TestDataGenerator is a console tool. It fills the services of a dating-app
backend with test accounts. This project models the tool's non-interactive
core:

- **The entry point.** A CI build only generates and reports one sample
  record. Otherwise any argument selects batch mode and no argument selects
  the interactive menu.
- **The batch flag loop.** It reads `--create-users <n>`, `--api`,
  `--direct`, `--user <email:password>`, `--user-service-url <url>` and
  `--create-fixed-testuser` into a configuration. It then resolves the
  creation mode and always selects the authentication database.
- **The dispatch.** Explicitly requested users are created first, then
  `<n>` random users. Each stage runs either through the services' HTTP API
  or by direct insertion into the authentication service's user table.
- **Record derivation.** This covers the `--user` record and the fixed test
  user. It also covers the avatar defaulting done before an API call, and the
  mapping of a record to a row of the user table.
- **The API pipeline.** For each record the tool registers, then logs in,
  then posts a profile. The services are an oracle that gives, for each
  record and endpoint, the response (or exception) the call gets. Each loop
  yields the trace of requests it issues.
- **The demo data set.** It has five personas and 45 generated users, plus
  the two storytelling scenarios.
- **The database table.** Keys "1" to "4" map to connections, and each key
  has a display name.

Everything the tool consults but does not compute is a parameter:

- the network (`Api.Responder`);
- the faker's draws (`Models.FakeUser`, `Demo.DemoDraw`);
- GUIDs (`Direct.Stamps`);
- the clock (`Direct.Clock`);
- the password hasher (`Direct.Hasher`);
- whether a database save succeeds;
- the `AUTH_API_URL` environment variable;
- whether the build is a CI build.

A whole batch run is `Run.RunBatch`. It yields the HTTP requests and
database-session operations it performs, in order, and whether an exception
escaped and ended the process.

Modules, one per file:

- `Wrappers`: `Option`.
- `Text`: splitting, ASCII case mapping, `int.TryParse` and `ToString` for
  32-bit integers.
- `Models`: the record shapes.
- `Targets`: the database table and `GetDbName`.
- `Records`: record derivation.
- `Direct`: rows and session operations.
- `Api`: the HTTP loops.
- `Batch`: the flag loop, mode, session and dispatch.
- `Run`: the entry point and end-to-end runs.
- `Demo`: the demo profile.

## Model

| member | source | states |
|---|---|---|
| `Targets.GetDbName` | Program.cs:426-436 | Keys "1" to "4" give the database name of their connection. Every other key gives "Custom/Unknown", and only those keys do. |
| `Text.Split` | Program.cs:67 | Splitting always gives at least one piece, and two or more exactly when the separator occurs. No piece holds the separator, and joining the pieces with it gives the text back. |
| `Text.SplitJoin` | Program.cs:67 | Splitting a join of separator-free pieces gives the pieces back. |
| `Text.SplitHead` | Program.cs:67-75 | The first piece of a split is the text before the first separator, or the whole text when there is none. It is thus a separator-free prefix that ends at a separator or at the end. |
| `Text.Upper` | Program.cs:729-731 | Upper-casing keeps the length, leaves no lower-case letter, and gives a string equal to the input up to case. |
| `Text.Lower` | Profiles/DemoProfile.cs:65 | Lower-casing keeps the length, leaves no upper-case letter, and gives a string equal to the input up to case. |
| `Text.UpperIsCaseInsensitiveKey` | Program.cs:729-731 | Two strings have equal upper-cased forms exactly when they are equal up to case. |
| `Text.AllDigitsIff` | Program.cs:51-52 | The recursive digit check holds exactly when every character is a decimal digit. |
| `Text.TrimStartFacts` | Program.cs:51-52 | Trimming the start keeps a suffix. Everything dropped is white space, and the result does not start with white space. |
| `Text.TrimEndFacts` | Program.cs:51-52 | Trimming the end keeps a prefix. Everything dropped is white space, and the result does not end with white space. |
| `Text.TrimIdempotent` | Program.cs:51-52 | Trimming twice equals trimming once. |
| `Text.ParseFormat` | Program.cs:51-55 | The integer parser reads back every 32-bit value written in decimal. |
| `Text.ParseInt32` | Program.cs:51-52 | The parser only accepts values within the 32-bit range. |
| `Text.DoubleDashIsNotNumber` | Program.cs:51-52 | A token that starts with two dashes never parses as a number. |
| `Records.UsernameOf` | Program.cs:75 | The username is a prefix of the email without any `@`, ending at the email's first `@` or at its end. |
| `Records.FromUserSpec` | Program.cs:64-81 | A record exists exactly when the spec holds a `:`. The email is the text before the first `:`. Both passwords are the text up to the next `:`. The username is the email's mailbox, the phone is the default and there is no picture. |
| `Records.UserSpecRoundTrip` | Program.cs:64-81 | Parsing `email:password` back gives that email and password, when neither holds a `:`. |
| `Records.UsernameOfAddress` | Program.cs:75 | The username of `mailbox@domain` is the mailbox. |
| `Records.WithDefaultPicture` | Program.cs:678-679 | A missing or blank picture becomes the avatar keyed by the email. A present picture is kept. No other field changes, and the result is never blank. |
| `Records.DefaultPictureIdempotent` | Program.cs:678-679 | Defaulting the picture twice equals defaulting it once. |
| `Direct.ExplicitRow` | Program.cs:723-745 | Identity fields are copied and the lookup fields normalised. Email and phone are confirmed and the password is hashed with the row's own salt. The avatar is keyed by the email and no lockout is set. |
| `Direct.ExplicitRowLookupKeys` | Program.cs:726-731 | Two explicit rows share a normalised username (email) exactly when their usernames (emails) are equal up to case. |
| `Direct.RandomRow` | Program.cs:524-545 | A faker row has normalised lookup fields, nothing confirmed, lockout enabled, the fixed password hashed with the row's own salt and the avatar keyed by the email. |
| `Direct.ExplicitDirectOps` | Program.cs:717-750 | There is one row added per user, in order, then exactly one save and nothing else. |
| `Direct.RandomDirectOps` | Program.cs:509-585 | On the authentication database there are `count` faker rows then one save. On the user database there are `count` profiles then one save. Other targets get no operation. |
| `Api.TokenOf` | Program.cs:648-656 | A token is present exactly when the login succeeded and the JSON object maps `token` to a non-null value. It is that value. |
| `Api.ProfileFor` | Program.cs:703 | The posted profile is named after the username and carries the request's picture. Its bio is the fixed "Test user bio" and its preferences the fixed "Testing, Automation". The random loop posts the same payload (Program.cs:618). |
| `Api.RandomDto` | Program.cs:599-605 | A random request has agreeing fixed passwords, the faker's name and email, and the avatar keyed by the email. |
| `Api.RandomRecordCalls` | Program.cs:606-644 | The registration is always sent. A login is sent only with seeding on and a successful registration, with the record's credentials. A profile post is sent only when that login gave a token, and carries the token. |
| `Api.RandomFrom` | Program.cs:597-644 | Each record costs one to three calls, and the first call registers the record's own faker draw. |
| `Api.CreateUsersViaApi` | Program.cs:587-596 | Nothing is sent unless the authentication database is selected and the count is positive. |
| `Api.RandomApiTrace` | Program.cs:587-645 | The loop registers exactly one fresh draw per count, in order. Calls follow register, then login, then profile. There is no login without seeding and at most one login per record. |
| `Api.ExplicitRecordRun` | Program.cs:673-715 | The registration (with its picture defaulted) is always sent. With seeding on, a login follows whatever the registration gave. A profile post follows a token. The run crashes exactly when that login or profile post throws. |
| `Api.ExplicitFrom` | Program.cs:673-715 | Each user costs at most three calls. The first call registers the next user, so that registration is sent even when the loop then crashes. Only a seeding run can crash. |
| `Api.CreateExplicitUsersViaApi` | Program.cs:671-715 | The first user's registration is always sent, and an empty list or a run without seeding never crashes. |
| `Api.ExplicitFromCrashIff` | Program.cs:673-715 | The loop from position `k` crashes exactly when seeding is on and some user from `k` on has a throwing login, or a token followed by a throwing profile post. |
| `Api.ExplicitFromStops` | Program.cs:673-715 | When the first such user is `m`, the users registered are the prepared users from `k` up to and including `m`, and no later one. |
| `Api.ExplicitApiTrace` | Program.cs:673-715 | The loop registers a prefix of the prepared users, in list order, never an empty one when there are users, and all of them unless it crashed. With seeding it logs in once per registration. It crashes exactly when seeding is on and some user's login, or profile post after a token, throws. It then stops right after registering the first such user. |
| `Api.LoginAfterFailedRegistration` | Program.cs:606-715 | After a failed registration, the random loop sends nothing more for the record, while the explicit loop still logs in. |
| `Api.PipelineOrderedAppend` | Program.cs:606-644 | Joining two pipeline-ordered traces (each starts with a registration) keeps the order. |
| `Batch.ReadFlag` | Program.cs:49-101 | A token spans one or two positions and never reads past the arguments. |
| `Batch.ReadFlagFacts` | Program.cs:49-101 | `--create-users` takes the next token only when it parses. `--user` and `--user-service-url` take any next token. A value-taking flag that reads only its own token (in last position, or before a count that does not parse) yields no count, record or URL. `--api`, `--direct` and `--create-fixed-testuser` are read exactly from their own token. |
| `Batch.UnparsableCountIsSkipped` | Program.cs:51-57 | `--create-users` before a token that does not parse, or in last position, changes nothing, and the next token is read as a flag of its own. |
| `Batch.CreateUsersReadsCount` | Program.cs:51-57 | `--create-users` followed by a written 32-bit number sets exactly that number. |
| `Batch.ApplySummary` | Program.cs:51-99 | One flag sets the count or the URL, appends its records, or raises a mode flag, field by field. |
| `Batch.ParseFromSummary` | Program.cs:47-101 | The loop from any position, flag by flag: the last count or URL read wins over the one it started with, records are appended in flag order after those it started with, and a mode flag stays set once set or read. |
| `Batch.ParseFromIsFold` | Program.cs:47-101 | The loop equals applying the flags it reads, in order. |
| `Batch.ParseArgs` | Program.cs:41-101 | The configuration holds the last effective count (0 if none) and the records in argument order. It holds the mode flags that were read, and the last service URL (else the current one). |
| `Batch.CountIsLastCreateUsers` | Program.cs:51-57 | The count is that of the last `--create-users` read, and 0 when there is none. |
| `Batch.ModeFlagsVisible` | Program.cs:58-63 | When no token can be swallowed as a value, a mode flag is read exactly when its token appears. |
| `Batch.ResolveMode` | Program.cs:102-103 | `--direct` wins over `--api` whatever their order. Without either, the prior mode stays. |
| `Batch.InitialSession` | Program.cs:25-30 | A run starts on database key "1" (AuthServiceDb) with that key's own connection string, in direct-insert mode. The authentication URL is `AUTH_API_URL` when set, else `http://localhost:8081`. The user-service URL is `http://localhost:8082`. |
| `Batch.BatchSession` | Program.cs:102-105 | Batch mode always selects the authentication database and its connection. It takes the resolved mode and the URL the flags left. |
| `Batch.ModeFromTokens` | Program.cs:47-103 | Without swallowing flags, a batch run uses API calls exactly when `--api` appears and `--direct` does not. |
| `Batch.SwallowedDirectIsIgnored` | Program.cs:64-80 | A `--direct` consumed as the value of `--user` leaves the run in API mode. |
| `Batch.DispatchPlan` | Program.cs:106-129 | At most two creations, all in the resolved mode. The explicit one comes first and only when there are records. The random one comes only for a positive count. Each carries the configuration's records or count. |
| `Run.Execute` | Program.cs:509-750 | The random stages never crash. The explicit direct stage crashes exactly when its save fails. |
| `Run.ExecutePlan` | Program.cs:106-129 | An empty plan does nothing. The first stage's effects come first. When the first stage crashes, its outcome is the whole run. The run crashes exactly when some stage does. |
| `Run.ExecuteTwo` | Program.cs:106-129 | Of two stages, the second runs, after the first, only when the first did not crash. |
| `Run.Start` | Program.Hybrid.cs:43-76 | A CI build only reports a sample record whose passwords agree. Otherwise no argument opens the menu and any argument runs batch mode. |
| `Run.CiSample` | Program.Hybrid.cs:57-65 | The CI sample has the faker's name, email and phone, and the fixed agreeing password. |
| `Run.ApiPlan` | Program.cs:106-129 | In API mode only HTTP requests are made. The explicit users are registered, then the random ones, unless a crash came first. A crash happens exactly when some explicit user's login, or profile post after a token, throws. The explicit users up to the first such one are then registered, and no later user and no random user. Without throwing logins or profile posts there is no crash. |
| `Run.DirectPlan` | Program.cs:106-129 | In direct mode the explicit rows and their save come first, then the random rows and their save. The run crashes exactly when the explicit save fails, and then nothing random follows. |
| `Run.RunBatch` | Program.cs:41-131 | A whole batch run satisfies the facts of `Run.ApiPlan` when the flags resolve to API mode, and those of `Run.DirectPlan` when they resolve to direct mode, for the configuration the flags give. |
| `Run.SingleUserArgs` | Program.cs:64-81 | `--user mailbox@domain:password --api` gives one record with username `mailbox`, the default phone, no count, API mode and the URL unchanged. |
| `Run.SingleUserViaApi` | Program.cs:41-131 | That command registers exactly that user, with the avatar picture, and only makes HTTP requests. This holds even when the login or profile post after the registration ends the process. |
| `Demo.FillPattern` | Profiles/DemoProfile.cs:69 | Each `#` of the phone format becomes a digit and every other character is kept. |
| `Demo.Personas` | Profiles/DemoProfile.cs:13-61 | There are five personas, in order (alice, bob, charlie, diana, eve), each with its `demo.<name>@example.com` email and the `<name>_demo` username. Their phones are 4155551001 to 4155551005 in that order. |
| `Demo.GeneratedUser` | Profiles/DemoProfile.cs:64-70 | A generated user has the lower-cased handle (equal up to case) with `_demo` appended, and an email at the demo domain. |
| `Demo.GetDemoUsers` | Profiles/DemoProfile.cs:8-75 | There are exactly 50 users, the five personas first, then one generated user per draw. Every one has the demo password (both agreeing), the `_demo` suffix, a 415555 phone and an avatar. |
| `Demo.GeneratedEmailIsNoPersonaEmail` | Profiles/DemoProfile.cs:16-66 | No generated email equals a persona's email, whatever the faker draws. |
| `Demo.GetDemoScenarios` | Profiles/DemoProfile.cs:77-111 | There are two scenarios. The first involves Alice and Bob with six steps, the second Charlie with five. |
| `Demo.ScenarioUsersArePersonas` | Profiles/DemoProfile.cs:77-111 | Every email a scenario names belongs to one of the first five demo users. |

## Behaviour as the code has it

- **Explicit users through the API.** The login and the profile post are
  outside the loop's exception handler. A connection failure or an
  unreadable login response therefore ends the batch run; later users and
  the random stage never happen. `Api.ExplicitFromCrashIff` and
  `Api.ExplicitFromStops` state when the crash happens and where the loop
  stops, and `Run.ApiPlan` carries both to the whole run.
- **Explicit users through direct insertion.** There is no exception
  handler, so a failed save ends the run. These rows have their email and
  phone confirmed; random rows have neither.
- **A `--direct` token is not always a mode flag.** When it follows
  `--user` or `--user-service-url`, it is consumed as that flag's value and
  has no effect on the mode (`Batch.SwallowedDirectIsIgnored`).
- **The two entry files.** Program.cs and Program.Hybrid.cs have the same
  flag loop and dispatch; the model defines them once.

## Left out

- The interactive menu, status overview, database reset, connection test,
  target selection, and swipe, match and message creation are left out. None
  of them is part of the batch core.
- Console output is left out. It has no effect on what is created.
- Program.Hybrid.cs:274-285 defines the creation routines as one-line
  placeholders that only print. The model gives batch mode the creation
  routines of Program.cs:509-750.
- Bogus, GUID generation, clocks and the ASP.NET password hasher are outside
  the model. The hasher's random per-call salt is drawn with each row's
  GUIDs (`Direct.Stamps`). They are parameters, as are HTTP transport details (status
  codes, headers, JSON serialisation) and Entity Framework. Only the order
  of requests and session operations is modelled.
- `Run.Start`: pairs the CI-build early return of Program.Hybrid.cs:43-76
  with the flag loop and the creation routines of Program.cs:41-131 and
  509-750. Neither file has both as written: Program.cs has no CI branch,
  and Program.Hybrid.cs's creation routines are placeholders.
- `Text.ParseInt32`: models `int.TryParse` with the invariant culture's
  signs. It does not model other cultures' signs or the trailing NUL
  characters .NET also accepts.
- `Text.Upper`: maps only ASCII letters. `ToUpperInvariant` also maps
  non-ASCII letters.
- `Text.Lower`: maps only ASCII letters. `ToLower()` uses the current
  culture, so it also maps non-ASCII letters and, under a Turkish culture,
  maps `I` to a dotless `ı`; neither is modelled.
- `Demo.GeneratedUser`: lower-cases only ASCII letters. `ToLower` also maps
  non-ASCII letters.
- `Direct.RandomDirectOps`: takes the count as a natural number. Batch mode
  calls it only with a positive count.
- `Direct.ExplicitRow`: does not model the `Id` or the timestamp
  arithmetic. The clock hands in "now" and "25 years ago".
- `Api.ExplicitRecordRun`: treats the picture-defaulting mutation of the
  caller's list as part of the request sent. The mutation is not observable
  after the batch run.
- Concurrency and `async` scheduling are left out. The loops await each
  request in turn.
