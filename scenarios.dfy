/** Request sequences against a fresh portal, proved from the handlers'
    contracts alone. */
module Scenarios {
  import opened Usernames
  import opened Accounts

  /** A first registration succeeds; a second form whose name and birthdate
      derive the same username (UsernamesCollide gives one) is refused; a
      wrong password is refused and the registered one logs in; the home
      page then shows the new user with the starting credits. */
  method RegisterThenLogin(form: RegistrationForm, other: RegistrationForm, wrongPassword: string)
    returns (first: RegisterOutcome, second: RegisterOutcome, wrong: LoginOutcome,
             right: LoginOutcome, home: Page<HomeView>)
    requires GenerateUsername(other.fullName, other.birthdate) == GenerateUsername(form.fullName, form.birthdate)
    requires wrongPassword != form.password
    ensures var u := GenerateUsername(form.fullName, form.birthdate);
            && first == Registered(u)
            && second == DuplicateUsername
            && wrong == InvalidCredentials
            && right == LoggedIn
            && home == Render(HomeView(u, form.fullName, form.schoolName, form.classLevel,
                                       form.email, StartingCredits))
  {
    var portal := new Portal();
    first := portal.Register(form, true);
    second := portal.Register(other, true);
    var u := first.username;
    wrong := portal.Login(u, wrongPassword);
    right := portal.Login(u, form.password);
    home := portal.Home();
  }

  /** A registration whose commit fails leaves no account behind, so the
      password it carried does not log in. */
  method FailedRegistration(form: RegistrationForm) returns (outcome: RegisterOutcome, login: LoginOutcome)
    ensures outcome == RegistrationFailed
    ensures login == InvalidCredentials
  {
    var portal := new Portal();
    outcome := portal.Register(form, false);
    login := portal.Login(GenerateUsername(form.fullName, form.birthdate), form.password);
  }

  /** Submitting before logging in is redirected and stores nothing. */
  method AnonymousSubmission(team: string, code: string)
    returns (page: Page<SummaryView>, rows: seq<Submission>)
    ensures page == RedirectToLogin
    ensures rows == []
  {
    var portal := new Portal();
    var saved: bool;
    page, saved := portal.SubmitHackathon(team, code, true);
    rows := portal.submissions;
  }

  /** A fresh portal after this form's registration and login: its user is
      logged in and no submission exists yet. */
  method LogInNewUser(form: RegistrationForm) returns (portal: Portal)
    ensures fresh(portal) && portal.Valid()
    ensures var u := GenerateUsername(form.fullName, form.birthdate);
            portal.session == Some(u) && u in portal.users
    ensures portal.submissions == [] && portal.nextId == 1
  {
    portal := new Portal();
    var registered := portal.Register(form, true);
    var login := portal.Login(registered.username, form.password);
  }

  /** The same team name submitted twice gives two rows with ids 1 and 2;
      after logging out the hackathon page redirects. */
  method RepeatedSubmissions(form: RegistrationForm, team: string, code1: string, code2: string)
    returns (rows: seq<Submission>, afterLogout: Page<SummaryView>)
    ensures var u := GenerateUsername(form.fullName, form.birthdate);
            rows == [Submission(1, u, team, code1), Submission(2, u, team, code2)]
    ensures afterLogout == RedirectToLogin
  {
    var portal := LogInNewUser(form);
    var page, saved := portal.SubmitHackathon(team, code1, true);
    page, saved := portal.SubmitHackathon(team, code2, true);
    rows := portal.submissions;
    portal.Logout();
    afterLogout := portal.SummaryPage();
  }
}
