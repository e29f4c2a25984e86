/** The application shell: which screen is shown, who is logged in, and the
    session kept in the browser's local storage between visits.

    The stored value is either missing (also when it is the empty string),
    a saved user, or text that does not parse as a user. */
module Session {
  import opened Domain

  datatype View = Login | Register | PendingApproval | App

  datatype Stored = NoSession | Saved(user: User) | Corrupt

  datatype State = State(view: View, currentUser: Option<User>, stored: Stored)

  /** What is rendered. */
  datatype Surface = LoginScreen | PendingScreen | AdminSurface(admin: User) | StudentSurface(student: User)

  /** The shell before the stored session is looked at. */
  function Initial(stored: Stored): (s: State)
    ensures s.view == Login && s.currentUser.None? && s.stored == stored
  {
    State(Login, None, stored)
  }

  /** Restoring the stored session on start: a saved user becomes the
      current user and goes to the pending screen when still pending, to
      the application otherwise; unparsable text is removed and the login
      screen stays. */
  function Restore(s: State): (r: State)
    ensures s.stored == NoSession ==> r == s
    ensures s.stored == Corrupt ==> r == s.(stored := NoSession)
    ensures s.stored.Saved? ==> r.currentUser == Some(s.stored.user) && r.stored == s.stored
    ensures s.stored.Saved? ==> (r.view == PendingApproval <==> s.stored.user.status == Pending)
    ensures s.stored.Saved? ==> (r.view == App <==> s.stored.user.status != Pending)
  {
    match s.stored
    case NoSession => s
    case Corrupt => s.(stored := NoSession)
    case Saved(u) => s.(currentUser := Some(u), view := if u.status == Pending then PendingApproval else App)
  }

  /** A successful login. A pending user only sees the pending screen:
      nothing is stored and the current user stays as it was. Anyone else,
      a blocked user included, is stored, becomes the current user and
      enters the application. */
  function LogIn(s: State, u: User): (r: State)
    ensures u.status == Pending ==> r == s.(view := PendingApproval)
    ensures u.status != Pending ==> r == State(App, Some(u), Saved(u))
  {
    if u.status == Pending then s.(view := PendingApproval)
    else State(App, Some(u), Saved(u))
  }

  /** Logging out clears the stored session and the current user and
      returns to the login screen, from whatever state. */
  function LogOut(s: State): (r: State)
    ensures r == State(Login, None, NoSession)
  {
    State(Login, None, NoSession)
  }

  /** "Voltar" on the pending screen logs out. */
  function LeavePending(s: State): (r: State)
    ensures r == LogOut(s)
  {
    LogOut(s)
  }

  /** The routing of the shell's render. */
  function Render(s: State): (v: Surface)
    ensures s.view == Login || s.view == Register ==> v == LoginScreen
    ensures s.view == PendingApproval ==> v == PendingScreen
    ensures s.view == App && s.currentUser.Some? && s.currentUser.value.role == Admin ==>
              v == AdminSurface(s.currentUser.value)
    ensures s.view == App && s.currentUser.Some? && s.currentUser.value.role != Admin ==>
              v == StudentSurface(s.currentUser.value)
    ensures s.view == App && s.currentUser.None? ==> v == LoginScreen
  {
    if s.view == Login || s.view == Register then LoginScreen
    else if s.view == PendingApproval then PendingScreen
    else if s.view == App && s.currentUser.Some? then
      if s.currentUser.value.role == Admin then AdminSurface(s.currentUser.value)
      else StudentSurface(s.currentUser.value)
    else LoginScreen
  }

  /** The application view always has a current user, and it is the user
      kept in storage. */
  predicate Inv(s: State) {
    s.view == App ==> s.currentUser.Some? && s.stored == Saved(s.currentUser.value)
  }

  datatype Event = LogInEvent(user: User) | LogOutEvent | LeavePendingEvent

  function Apply(s: State, e: Event): State {
    match e
    case LogInEvent(u) => LogIn(s, u)
    case LogOutEvent => LogOut(s)
    case LeavePendingEvent => LeavePending(s)
  }

  function Run(s: State, es: seq<Event>): State
    decreases |es|
  {
    if |es| == 0 then s else Run(Apply(s, es[0]), es[1..])
  }

  lemma ApplyKeepsInv(s: State, e: Event)
    requires Inv(s)
    ensures Inv(Apply(s, e))
  {
  }

  /** From any start, after restoring and then any sequence of logins and
      logouts, the invariant holds. */
  lemma {:induction false} RunKeepsInv(s: State, es: seq<Event>)
    requires Inv(s)
    ensures Inv(Run(s, es))
    decreases |es|
  {
    if |es| > 0 {
      ApplyKeepsInv(s, es[0]);
      RunKeepsInv(Apply(s, es[0]), es[1..]);
    }
  }

  lemma StartKeepsInv(stored: Stored)
    ensures Inv(Restore(Initial(stored)))
  {
  }

  /** Every reachable state renders a real surface for the application
      view: the login fallback of the render is never reached there, and
      the surface is chosen by the current user's role. */
  lemma AppViewRendersUser(stored: Stored, es: seq<Event>)
    ensures var s := Run(Restore(Initial(stored)), es);
            s.view == App ==>
              s.currentUser.Some?
              && Render(s) == (if s.currentUser.value.role == Admin then AdminSurface(s.currentUser.value)
                               else StudentSurface(s.currentUser.value))
  {
    StartKeepsInv(stored);
    RunKeepsInv(Restore(Initial(stored)), es);
  }

  /** A login survives a reload: starting again from what it stored
      restores the same user in the application. */
  lemma LogInSurvivesReload(s: State, u: User)
    requires u.status != Pending
    ensures Restore(Initial(LogIn(s, u).stored)) == LogIn(s, u)
  {
  }

  /** A logout survives a reload: the next start finds no session and shows
      the login screen. */
  lemma LogOutSurvivesReload(s: State)
    ensures var r := Restore(Initial(LogOut(s).stored));
            r == LogOut(s) && Render(r) == LoginScreen
  {
  }

  /** A pending user never reaches the application by logging in. */
  lemma PendingLoginStaysOut(s: State, u: User)
    requires u.status == Pending
    ensures Render(LogIn(s, u)) == PendingScreen
    ensures LogIn(s, u).stored == s.stored && LogIn(s, u).currentUser == s.currentUser
  {
  }
}
