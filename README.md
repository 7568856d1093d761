# Account, credit and hackathon-submission core of the AI-Microtechnology portal

This project models the account logic of the portal's Flask application
(`app.py`) in Dafny and proves properties of it.

- **Username derivation** (module `Usernames`, `usernames.dfy`). It is a pure
  function. `GenerateUsername` takes the full name, lowers it and deletes its
  spaces. It then appends the birthdate with its hyphens deleted, cut to its
  first four characters. Python's `str.lower` is modelled as ASCII
  lower-casing (`LowerChar`: `'A'..'Z'` to `'a'..'z'`, every other character
  kept). `str.replace(c, '')` is `RemoveAll` and the slice `[:4]` is `Take`.
- **Tables and request handlers** (module `Accounts`, `accounts.dfy`). The
  class `Portal` holds the `users` table as `map<string, User>` keyed by
  username and the `credits` table as `map<string, int>` of points. It holds
  `hackathon_submissions` as a `seq<Submission>` with the next id to hand out,
  and the browser session as `Option<string>`. The handlers are its methods:
  `Register`, `Login`, `Home`, `Profile`, `SummaryPage` (courses, projects and
  the hackathon GET), `SubmitHackathon` (the hackathon POST) and `Logout`.
- **Whether a database commit succeeds** is decided by things this model does
  not contain: column length limits, foreign-key enforcement, the connection.
  So it is the parameter `storageOk`. Registration also fails, and is rolled
  back, when a credit row with the new key already exists. That is a
  primary-key violation on `credits`.
- **The invariants every handler keeps** are these:
  - `Valid`: each user row is stored under its own username. Submission ids
    are increasing, and the counter is the last id plus one, or 1 for an
    empty table, which is how SQLite assigns row ids.
  - `CreditsMatchUsers`: there is one credit row per user.
  - `SessionResolves`: the logged-in name is a user.
  - `SubmittersRegistered`: every submission was made by a user.
- **Missing users on the summary pages.** Courses, projects and hackathon check
  only that a session exists. Then they read `user.username` without checking
  that the user was found (app.py:176-183, 193-200, 262-270). A session naming no user
  therefore raises an exception there. The model returns `ServerError` and
  writes nothing. Home and profile check the user and redirect to the login
  page instead. Under `SessionResolves`, which every handler preserves, neither
  case can happen.
- **What `app.py` does not do.** It has no time-based credit accrual. The
  hackathon handler appends a submission row and nothing else: it writes no
  `teams` row and never checks `team_name` (app.py:272-285). New accounts
  start with a fixed 100 points (app.py:117).

`scenarios.dfy` (module `Scenarios`) holds client methods. Each one drives a
fresh `Portal` through a sequence of requests. Their results are proved from
the handlers' contracts alone.

## Model

| member | source | states |
|---|---|---|
| `Usernames.Lower` | app.py:71 | `full_name.lower()` keeps the length, and each character is the ASCII-lowered character at the same place |
| `Usernames.RemoveAll` | app.py:71 | `s.replace(c, '')` leaves no `c`, keeps the other characters of `s` as a set, and is shorter by the number of `c` in `s`. Their order is fixed by `RemoveAllAppend` and their counts by `RemoveAllMultiset` |
| `Usernames.Take` | app.py:71 | the slice `[:4]` is a prefix of its input, of length `min(4, len)` |
| `Usernames.RemoveAllAppend` | app.py:71 | deleting a character distributes over concatenation, so the characters that remain keep their order |
| `Usernames.RemoveAllAbsent` | app.py:71 | deleting a character that does not occur changes nothing |
| `Usernames.RemoveAllMultiset` | app.py:71 | as a multiset, the result of `s.replace(c, '')` is `s` with every copy of `c` taken out and every other character kept as often as it occurs |
| `Usernames.NamePartStripsThenLowers` | app.py:71 | lowering and then deleting spaces is the same as deleting spaces and then lowering |
| `Usernames.GenerateUsername` | app.py:69-71 | the model of `generate_username`: the name part followed by the birthdate part. It is a definition without a contract of its own; its properties are the rows `Usernames.UsernameShape` and `Usernames.UsernameOfIsoDate` |
| `Usernames.UsernameShape` | app.py:69-71 | for any inputs, the username is a name part with no space and no upper-case ASCII letter, whose length is the name's length minus its spaces; after it come exactly the first `min(4, n)` characters of the birthdate with its hyphens deleted, where `n` is how many remain |
| `Usernames.BirthPartOfIsoDate` | app.py:71 | for a `YYYY-MM-DD` birthdate the kept suffix is the birth year |
| `Usernames.UsernameOfIsoDate` | app.py:69-71 | for a `YYYY-MM-DD` birthdate the username is the name with spaces deleted and lowered, followed by the birth year |
| `Usernames.AliceUsername` | app.py:71 | `("Alice Smith", "2005-03-14")` gives `"alicesmith2005"` |
| `Usernames.UsernamesCollide` | app.py:69-71 | `("alice smith", "2005-11-30")` gives the same `"alicesmith2005"`: the derivation is not injective |
| `Accounts.Portal.constructor` | app.py:64-67 | a fresh database: the tables are empty, nobody is logged in, the first submission id is 1, and every invariant holds. `create_all` keeps existing rows, and the handlers accept any state satisfying `Valid`, not only states reached from this one |
| `Accounts.NewUser` | app.py:101-114 | the user row that registration builds, each column taken from the form field of the same name. It is a definition without a contract of its own; the row `Accounts.Portal.Register` states that exactly this row is stored under the derived username |
| `Accounts.Portal.Balance` | app.py:166 | the stored points of the user's credit row, or 0 without one, as read here and again at app.py:183, 200, 244 and 269. It is a definition without a contract of its own; the rows `Accounts.Portal.Home`, `Accounts.Portal.Profile` and `Accounts.Portal.SummaryPage` state that these are the points shown |
| `Accounts.Portal.Matches` | app.py:137 | the login lookup: a user row with exactly this username and password. It is a definition without a contract of its own; the row `Accounts.Portal.Login` states that login succeeds if and only if it holds |
| `Accounts.Portal.Summary` | app.py:180-184 | the user data of the courses page, built the same way for projects (app.py:197-201) and hackathon (app.py:266-270): username, full name and points. It is a definition without a contract of its own; the rows `Accounts.Portal.SummaryPage` and `Accounts.Portal.SubmitHackathon` state that it is what those pages show |
| `Accounts.Portal.Register` | app.py:77-129 | an existing derived username gives `DuplicateUsername` and changes nothing. Otherwise a successful commit adds exactly the new user row and a credit row of 100 under that username, and nothing else. A failed commit adds neither row. Submissions and the session are untouched, and every invariant is kept |
| `Accounts.Portal.Login` | app.py:131-146 | logs in if and only if a user with exactly this username and password exists, then sets the session to that username. Otherwise the session stays as it was. No table changes |
| `Accounts.Portal.Home` | app.py:148-169 | redirects to login if and only if there is no session or its user is missing. Otherwise it shows the user's fields and the stored points, or 0 without a credit row. It never raises, and it redirects only without a session when `SessionResolves` holds |
| `Accounts.Portal.Profile` | app.py:220-247 | the same guard as `Home`; shows every user field except the password, and the points (0 without a credit row) |
| `Accounts.Portal.SummaryPage` | app.py:171-203 | redirects if and only if there is no session, and raises if and only if the session's user is missing. Otherwise it shows username, full name and points. It never raises when `SessionResolves` holds |
| `Accounts.Portal.SubmitHackathon` | app.py:257-291 | after the page guard, a successful commit appends exactly one row: a fresh id, the session's username, the team name and the code. Nothing checks the team name. A failed commit, a redirect or an exception appends nothing. Users, credits and the session never change |
| `Accounts.Portal.Logout` | app.py:293-297 | empties the session and changes no table |
| `Scenarios.RegisterThenLogin` | app.py:92-169 | on a fresh portal a registration succeeds under the derived name. A second form deriving the same name is refused. A wrong password fails, the registered one logs in, and the home page shows 100 credits |
| `Scenarios.FailedRegistration` | app.py:119-127 | a registration whose commit fails leaves no account, so its password does not log in |
| `Scenarios.AnonymousSubmission` | app.py:257-260 | on a fresh portal a submission without a session is redirected and stores no row |
| `Scenarios.RepeatedSubmissions` | app.py:257-297 | after registering and logging in, the same team submitted twice gives two rows with ids 1 and 2. After logout the hackathon page redirects |

## Left out

- `Usernames.Lower`: models `str.lower` on ASCII letters only. Unicode case mapping (for example `'É'` to `'é'`, or characters whose lower case is longer) is not modelled.
- `Accounts.Portal.Register`: the reasons a commit can fail, other than an existing credit row, are the parameter `storageOk`. Examples are a value longer than its `String(n)` column on a database that enforces lengths, or a lost connection.
- `Accounts.Portal.SubmitHackathon`: the commit outcome is the parameter `storageOk`. On a database that enforces foreign keys, every submission would fail, because `team_name` references the `teams` table and nothing writes to it. Ids follow SQLite's row ids: one more per committed row, and none used by a rolled-back insert. A PostgreSQL sequence can skip ids after a rollback, and the model does not capture that.
- Flask plumbing is not modelled: routing, `render_template`, `flash` messages, `redirect` targets, the secret key and the choice of database URI (app.py:1-19, 73-75, 357-358). A missing form field, which makes Flask answer 400, is not modelled either: forms are complete values.
- The SQLAlchemy schema and `create_all` are not modelled. The tables are maps and a sequence.
- The `last_update` float column of `credits` is not modelled: no handler reads or writes it.
- The vouchers page and the `rewards` table (app.py:315-339) are not modelled: the page only reads a table that nothing writes.
- The static pages and the hard-coded curriculum (app.py:205-218, 249-255, 299-313, 341-351) are not modelled: they contain no logic.
- `static/script.js` and `DVM-hackathon-main/static/script.js` are not modelled: they are page animation code.
- Time-based credit accrual, a `Team` row per submission and team-name uniqueness are not modelled, because `app.py` does not implement them.
- Concurrent requests are not modelled. The model holds one browser's session, and requests run one after another.
