/** The account, credit and hackathon-submission tables of the portal and the
    request handlers that read and change them (app.py: register, login, home,
    profile, courses, projects, hackathon, logout). The database tables become
    maps keyed by their primary key and a sequence of rows; the browser
    session becomes an optional username. */
module Accounts {
  import opened Usernames

  datatype Option<T> = None | Some(value: T)

  /** A row of the `users` table, keyed by `username`. */
  datatype User = User(
    username: string,
    fullName: string,
    schoolName: string,
    classLevel: string,
    password: string,
    phoneNo: string,
    email: string,
    birthdate: string,
    country: string,
    state: string,
    city: string,
    address: string)

  /** A row of the `hackathon_submissions` table. */
  datatype Submission = Submission(id: nat, username: string, teamName: string, code: string)

  /** The fields of the registration form. */
  datatype RegistrationForm = RegistrationForm(
    fullName: string,
    schoolName: string,
    classLevel: string,
    password: string,
    phoneNo: string,
    email: string,
    birthdate: string,
    country: string,
    state: string,
    city: string,
    address: string)

  datatype RegisterOutcome =
    | Registered(username: string)  // committed; the browser is sent to the login page (app.py:122-124)
    | DuplicateUsername             // the username is taken; nothing is written (app.py:95-98)
    | RegistrationFailed            // the commit raised and was rolled back (app.py:125-127)

  datatype LoginOutcome = LoggedIn | InvalidCredentials

  /** What the home page shows. */
  datatype HomeView = HomeView(
    username: string,
    fullName: string,
    schoolName: string,
    classLevel: string,
    email: string,
    credits: int)

  /** What the profile (portal) page shows: every field but the password. */
  datatype ProfileView = ProfileView(
    username: string,
    fullName: string,
    schoolName: string,
    classLevel: string,
    email: string,
    phoneNo: string,
    birthdate: string,
    country: string,
    state: string,
    city: string,
    address: string,
    credits: int)

  /** What the courses, projects and hackathon pages show. */
  datatype SummaryView = SummaryView(username: string, fullName: string, credits: int)

  /** The response of a protected view: a redirect to the login page, an
      unhandled exception, or the rendered page. */
  datatype Page<V> = RedirectToLogin | ServerError | Render(view: V)

  /** The credit balance every new account starts with. */
  const StartingCredits: int := 100

  /** The `User` row that registration builds from the form. */
  function NewUser(username: string, form: RegistrationForm): User {
    User(username, form.fullName, form.schoolName, form.classLevel, form.password,
         form.phoneNo, form.email, form.birthdate, form.country, form.state,
         form.city, form.address)
  }

  /** Every user row is stored under its own username. */
  ghost predicate KeyedByUsername(users: map<string, User>) {
    forall u :: u in users ==> users[u].username == u
  }

  /** Submission ids increase along the table, and `next` is one more than
      the last id, or 1 when the table is empty. */
  ghost predicate IdsFollow(submissions: seq<Submission>, next: nat) {
    && (forall i :: 0 <= i < |submissions| ==> submissions[i].id < next)
    && (forall i, j :: 0 <= i < j < |submissions| ==> submissions[i].id < submissions[j].id)
    && next == NextId(submissions)
  }

  /** The id SQLite gives the next row: one more than the last, 1 when the
      table is empty. */
  function NextId(submissions: seq<Submission>): nat {
    if |submissions| == 0 then 1 else submissions[|submissions| - 1].id + 1
  }

  class Portal {
    var users: map<string, User>
    var credits: map<string, int>
    var submissions: seq<Submission>
    var nextId: nat
    var session: Option<string>

    /** Each user row sits under its own username; submission ids are
        increasing, and the next id is one more than the last one (1 for an
        empty table), as SQLite assigns row ids. */
    ghost predicate Valid()
      reads this
    {
      KeyedByUsername(users) && IdsFollow(submissions, nextId)
    }

    /** Every user has exactly one credit row and every credit row a user. */
    ghost predicate CreditsMatchUsers()
      reads this
    {
      credits.Keys == users.Keys
    }

    /** The logged-in username, if any, names a user. */
    ghost predicate SessionResolves()
      reads this
    {
      session.Some? ==> session.value in users
    }

    /** Every submission was made by a registered user. */
    ghost predicate SubmittersRegistered()
      reads this
    {
      forall i :: 0 <= i < |submissions| ==> submissions[i].username in users
    }

    /** The points of the user's credit row, or 0 when the user has none
        (app.py:166). */
    function Balance(username: string): int
      reads this
    {
      if username in credits then credits[username] else 0
    }

    /** Some user row has exactly this username and this password
        (app.py:137). */
    predicate Matches(username: string, password: string)
      reads this
    {
      username in users && users[username].password == password
    }

    function Summary(username: string): SummaryView
      reads this
      requires username in users
    {
      SummaryView(username, users[username].fullName, Balance(username))
    }

    /** A fresh database: empty tables and nobody logged in. The handlers
        themselves accept any state that satisfies Valid. */
    constructor ()
      ensures Valid() && CreditsMatchUsers() && SessionResolves() && SubmittersRegistered()
      ensures users == map[] && credits == map[] && submissions == [] && session == None
      ensures nextId == 1
    {
      users, credits, submissions := map[], map[], [];
      nextId := 1;
      session := None;
    }

    /** POST /register. The derived username is checked against `users`;
        when it is taken nothing is written. Otherwise the user row and a
        credit row of 100 points are added in one transaction: the commit
        fails, and both inserts are rolled back, when a credit row with
        that key already exists or when `storageOk` is false (the
        database refuses the transaction for a reason outside this model). */
    method Register(form: RegistrationForm, storageOk: bool) returns (outcome: RegisterOutcome)
      requires Valid()
      modifies this`users, this`credits
      ensures Valid()
      ensures var u := GenerateUsername(form.fullName, form.birthdate);
              && (outcome == DuplicateUsername <==> u in old(users))
              && (outcome == RegistrationFailed <==> u !in old(users) && (u in old(credits) || !storageOk))
              && (outcome.Registered? ==> outcome.username == u)
      ensures outcome.Registered? ==>
                && users == old(users)[outcome.username := NewUser(outcome.username, form)]
                && credits == old(credits)[outcome.username := StartingCredits]
      ensures !outcome.Registered? ==> users == old(users) && credits == old(credits)
      ensures old(CreditsMatchUsers()) ==> CreditsMatchUsers()
      ensures old(SessionResolves()) ==> SessionResolves()
      ensures old(SubmittersRegistered()) ==> SubmittersRegistered()
    {
      var username := GenerateUsername(form.fullName, form.birthdate);
      if username in users {
        return DuplicateUsername;
      }
      var newUser := NewUser(username, form);
      // both rows are added and committed in one transaction (app.py:119-122)
      var committed := storageOk && username !in credits;
      if !committed {
        // the transaction is rolled back: neither row is written (app.py:125-127)
        return RegistrationFailed;
      }
      users := users[username := newUser];
      credits := credits[username := StartingCredits];
      outcome := Registered(username);
    }

    /** POST /login. Logs in exactly when a user row has this username and
        this password; a failed attempt leaves the session as it was. */
    method Login(username: string, password: string) returns (outcome: LoginOutcome)
      requires Valid()
      modifies this`session
      ensures Valid()
      ensures outcome == LoggedIn <==> Matches(username, password)
      ensures session == if outcome == LoggedIn then Some(username) else old(session)
      ensures old(SessionResolves()) ==> SessionResolves()
    {
      if username in users && users[username].password == password {
        session := Some(username);
        outcome := LoggedIn;
      } else {
        outcome := InvalidCredentials;
      }
    }

    /** GET /home. Redirects to the login page without a session or when the
        session names no user; otherwise shows the user's fields and the
        stored credit points, or 0 when there is no credit row. */
    method Home() returns (page: Page<HomeView>)
      requires Valid()
      ensures page.RedirectToLogin? <==> session.None? || session.value !in users
      ensures !page.ServerError?
      ensures page.Render? ==>
                var user := users[session.value];
                page.view == HomeView(session.value, user.fullName, user.schoolName,
                                      user.classLevel, user.email, Balance(session.value))
      ensures SessionResolves() ==> (page.RedirectToLogin? <==> session.None?)
    {
      if session.None? {
        return RedirectToLogin;
      }
      var username := session.value;
      if username !in users {
        return RedirectToLogin;
      }
      var user := users[username];
      var points := if username in credits then credits[username] else 0;
      page := Render(HomeView(user.username, user.fullName, user.schoolName,
                              user.classLevel, user.email, points));
    }

    /** GET /profile: the same guard as the home page, and every field of
        the user but the password. */
    method Profile() returns (page: Page<ProfileView>)
      requires Valid()
      ensures page.RedirectToLogin? <==> session.None? || session.value !in users
      ensures !page.ServerError?
      ensures page.Render? ==>
                var user := users[session.value];
                page.view == ProfileView(session.value, user.fullName, user.schoolName,
                                         user.classLevel, user.email, user.phoneNo,
                                         user.birthdate, user.country, user.state,
                                         user.city, user.address, Balance(session.value))
      ensures SessionResolves() ==> (page.RedirectToLogin? <==> session.None?)
    {
      if session.None? {
        return RedirectToLogin;
      }
      var username := session.value;
      if username !in users {
        return RedirectToLogin;
      }
      var user := users[username];
      var points := if username in credits then credits[username] else 0;
      page := Render(ProfileView(user.username, user.fullName, user.schoolName,
                                 user.classLevel, user.email, user.phoneNo,
                                 user.birthdate, user.country, user.state,
                                 user.city, user.address, points));
    }

    /** GET /courses, /projects and /hackathon. These check only that a
        session exists; when it names no user, reading `user.username` raises
        and the request fails. */
    method SummaryPage() returns (page: Page<SummaryView>)
      requires Valid()
      ensures page.RedirectToLogin? <==> session.None?
      ensures page.ServerError? <==> session.Some? && session.value !in users
      ensures page.Render? ==> session.value in users && page.view == Summary(session.value)
      ensures SessionResolves() ==> !page.ServerError?
    {
      if session.None? {
        return RedirectToLogin;
      }
      var username := session.value;
      if username !in users {
        return ServerError;
      }
      var user := users[username];
      var points := if username in credits then credits[username] else 0;
      page := Render(SummaryView(user.username, user.fullName, points));
    }

    /** POST /hackathon. After the guard of SummaryPage, one submission row
        with a fresh id, the session's username and the form's team name and
        code is appended, whatever rows already exist for that team; when the
        commit fails (`storageOk` false) it is rolled back and nothing is
        written. The page shown is the one of SummaryPage. */
    method SubmitHackathon(teamName: string, code: string, storageOk: bool)
      returns (page: Page<SummaryView>, saved: bool)
      requires Valid()
      modifies this`submissions, this`nextId
      ensures Valid()
      ensures page.RedirectToLogin? <==> session.None?
      ensures page.ServerError? <==> session.Some? && session.value !in users
      ensures page.Render? ==> session.value in users && page.view == Summary(session.value)
      ensures saved <==> page.Render? && storageOk
      ensures saved ==>
                && submissions == old(submissions) + [Submission(old(nextId), session.value, teamName, code)]
                && (forall i :: 0 <= i < |old(submissions)| ==> old(submissions)[i].id != old(nextId))
                && nextId == old(nextId) + 1
      ensures !saved ==> submissions == old(submissions) && nextId == old(nextId)
      ensures old(SubmittersRegistered()) ==> SubmittersRegistered()
    {
      if session.None? {
        return RedirectToLogin, false;
      }
      var username := session.value;
      if username !in users {
        // reading the fields of a missing user raises before the form is read (app.py:267)
        return ServerError, false;
      }
      var user := users[username];
      var points := if username in credits then credits[username] else 0;
      page := Render(SummaryView(user.username, user.fullName, points));
      if !storageOk {
        // the insert is rolled back (app.py:287-289)
        return page, false;
      }
      submissions := submissions + [Submission(nextId, username, teamName, code)];
      nextId := nextId + 1;
      saved := true;
    }

    /** GET /logout: forgets the logged-in user and nothing else. */
    method Logout()
      requires Valid()
      modifies this`session
      ensures Valid()
      ensures session == None
      ensures SessionResolves()
    {
      session := None;
    }
  }
}
