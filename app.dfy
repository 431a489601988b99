/** The top-level client component: the authentication step machine, the screen it renders
    and the user search it hands to the chat layout. Each asynchronous handler is split at
    its `await`: `BeginRequest` is what runs before it, the `Complete` methods what runs
    after. */
module App {
  import opened Wrappers
  import opened ClientTypes
  import Seqs
  import Text
  import SignUp
  import Login

  datatype AuthStep = LoginStep | SignUpStep | OtpStep | ChatStep

  const CurrentUserId: string := "currentUser"

  /** `handleSearchUsers(query)`: every user except the current one; with a query, only
      those whose name or email contains it, ignoring case. */
  predicate Found(u: ClientUser, current: Option<ClientUser>, query: string) {
    && (current.None? || u.id != current.value.id)
    && (query == "" || Text.IncludesIgnoringCase(u.userName, query) || Text.IncludesIgnoringCase(u.email, query))
  }

  function SearchUsers(users: seq<ClientUser>, current: Option<ClientUser>, query: string): (r: seq<ClientUser>)
    ensures forall u :: u in r <==> u in users && Found(u, current, query)
    ensures current.Some? ==> forall u :: u in r ==> u.id != current.value.id
    ensures Seqs.IsSubseq(r, users)
  {
    var p := (u: ClientUser) => Found(u, current, query);
    Seqs.FilterIsSubseq(users, p);
    Seqs.Filter(users, p)
  }

  /** Without a query and without a signed-in user, every user is offered. */
  lemma EmptySearchListsAll(users: seq<ClientUser>)
    ensures SearchUsers(users, None, "") == users
  {
    Seqs.FilterAll(users, (u: ClientUser) => Found(u, None, ""));
  }

  /** What `App` renders. */
  datatype Screen =
    | SignUpScreen(loading: bool)
    | LoginScreen(loading: bool)
    | OtpScreen(email: string, loading: bool)
    | ChatScreen(user: ClientUser)
    | Blank

  class AppState {
    var authStep: AuthStep
    var currentUser: Option<ClientUser>
    var pendingEmail: string
    var loading: bool

    /** The chat step is only ever entered with a signed-in user. */
    predicate Valid()
      reads this
    {
      authStep == ChatStep ==> currentUser.Some?
    }

    constructor ()
      ensures Valid()
      ensures authStep == LoginStep && currentUser.None? && pendingEmail == "" && !loading
    {
      authStep, currentUser, pendingEmail, loading := LoginStep, None, "", false;
    }

    /** The screen for the current state: the chat layout only at the chat step with a
        user, nothing when the chat step has no user. */
    function Render(): (s: Screen)
      reads this
      ensures s.ChatScreen? <==> authStep == ChatStep && currentUser.Some?
      ensures s.ChatScreen? ==> s.user == currentUser.value
      ensures s.Blank? <==> authStep == ChatStep && currentUser.None?
      ensures s.OtpScreen? ==> s.email == pendingEmail
      ensures s.SignUpScreen? <==> authStep == SignUpStep
      ensures s.LoginScreen? <==> authStep == LoginStep
    {
      match authStep
      case SignUpStep => SignUpScreen(loading)
      case LoginStep => LoginScreen(loading)
      case OtpStep => OtpScreen(pendingEmail, loading)
      case ChatStep => if currentUser.Some? then ChatScreen(currentUser.value) else Blank
    }

    /** In every reachable state something is rendered. */
    lemma NeverBlank()
      requires Valid()
      ensures !Render().Blank?
    {
    }

    /** `setLoading(true)`, the first step of each authentication handler. */
    method BeginRequest()
      requires Valid()
      modifies this
      ensures Valid()
      ensures loading
      ensures authStep == old(authStep) && currentUser == old(currentUser) && pendingEmail == old(pendingEmail)
    {
      loading := true;
    }

    /** The rest of `handleSignUp(data)`: remember the email and ask for the code. */
    method CompleteSignUp(data: SignUp.SignUpData)
      requires Valid()
      modifies this
      ensures Valid()
      ensures authStep == OtpStep && pendingEmail == data.email && !loading
      ensures currentUser == old(currentUser)
    {
      pendingEmail := data.email;
      authStep := OtpStep;
      loading := false;
    }

    /** The rest of `handleLogin(data)`: sign in a placeholder user with the entered email. */
    method CompleteLogin(data: Login.Credentials)
      requires Valid()
      modifies this
      ensures Valid()
      ensures authStep == ChatStep && !loading
      ensures currentUser == Some(ClientUser(CurrentUserId, "Current User", data.email, true))
      ensures pendingEmail == old(pendingEmail)
    {
      currentUser := Some(ClientUser(CurrentUserId, "Current User", data.email, true));
      authStep := ChatStep;
      loading := false;
    }

    /** The rest of `handleVerifyOTP(code)`: any code is accepted, and the placeholder user
        takes the email the code was sent to. */
    method CompleteVerifyOtp(code: string)
      requires Valid()
      modifies this
      ensures Valid()
      ensures authStep == ChatStep && !loading
      ensures currentUser == Some(ClientUser(CurrentUserId, "New User", old(pendingEmail), true))
      ensures pendingEmail == old(pendingEmail)
    {
      currentUser := Some(ClientUser(CurrentUserId, "New User", pendingEmail, true));
      authStep := ChatStep;
      loading := false;
    }

    /** `onSwitchToLogin`. */
    method SwitchToLogin()
      requires Valid()
      modifies this
      ensures Valid()
      ensures authStep == LoginStep
      ensures currentUser == old(currentUser) && pendingEmail == old(pendingEmail) && loading == old(loading)
    {
      authStep := LoginStep;
    }

    /** `onSwitchToSignUp`. */
    method SwitchToSignUp()
      requires Valid()
      modifies this
      ensures Valid()
      ensures authStep == SignUpStep
      ensures currentUser == old(currentUser) && pendingEmail == old(pendingEmail) && loading == old(loading)
    {
      authStep := SignUpStep;
    }
  }

  /** Signing up and then entering a code leads to the chat, signed in with the email given
      at sign-up; the buttons show the loading state while each request is pending. */
  method SignUpThenVerify(app: AppState, data: SignUp.SignUpData, code: string)
    requires app.Valid() && app.authStep == SignUpStep
    modifies app
    ensures app.Valid()
    ensures app.Render() == ChatScreen(ClientUser(CurrentUserId, "New User", data.email, true))
  {
    app.BeginRequest();
    assert app.Render() == SignUpScreen(true);
    app.CompleteSignUp(data);
    assert app.Render() == OtpScreen(data.email, false);
    app.BeginRequest();
    assert app.Render() == OtpScreen(data.email, true);
    app.CompleteVerifyOtp(code);
  }
}
