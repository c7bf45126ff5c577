/**
 * The sign-up and sign-in forms (app/screens/SignUpScreen.tsx and
 * app/screens/SignInScreen.tsx): the blank-field and password checks in
 * front of the session store's `signUp` and `signIn`.
 */
module AuthForms {
  import opened Wrappers
  import opened Text
  import opened Session

  datatype SignUpOutcome = SignUpMissingFields | PasswordMismatch | SignedUp(session: Session)

  /**
   * `handleSignUp`: name, email and password must not be blank, the
   * confirmation must equal the password exactly, and the values are then
   * passed on as typed, untrimmed.
   */
  function HandleSignUp(s: Session, name: string, email: string, password: string, confirm: string, freshId: string)
    : (r: SignUpOutcome)
    ensures r.SignUpMissingFields? <==> IsBlank(name) || IsBlank(email) || IsBlank(password)
    ensures r.PasswordMismatch? <==> !IsBlank(name) && !IsBlank(email) && !IsBlank(password) && password != confirm
    ensures r.SignedUp? ==> r.session.active == Some(SignUpUser(name, email, freshId)) && Synced(r.session)
  {
    if Trim(name) == "" || Trim(email) == "" || Trim(password) == "" then SignUpMissingFields
    else if password != confirm then PasswordMismatch
    else SignedUp(SignUp(s, name, email, password, freshId))
  }

  /** An accepted sign-up always scores 50: name and email are set, city and level are not. */
  lemma AcceptedSignUpScoresHalf(s: Session, name: string, email: string, password: string, confirm: string, freshId: string)
    ensures HandleSignUp(s, name, email, password, confirm, freshId).SignedUp? ==>
      HandleSignUp(s, name, email, password, confirm, freshId).session.active.value.profileCompleted == 50
  {
    if HandleSignUp(s, name, email, password, confirm, freshId).SignedUp? {
      assert name != "" && email != "";
    }
  }

  /** Once signed up, signing in with the same email gives back the same user, whatever password is typed. */
  lemma SignInAfterSignUp(s: Session, name: string, email: string, p1: string, p2: string, id1: string, id2: string)
    ensures SignIn(SignUp(s, name, email, p1, id1), email, p2, id2).active == Some(SignUpUser(name, email, id1))
  {
  }

  datatype SignInOutcome = SignInMissingFields | SignedIn(session: Session)

  /** `handleSignIn`: email and password must not be blank; the email is then passed on untrimmed. */
  function HandleSignIn(s: Session, email: string, password: string, freshId: string): (r: SignInOutcome)
    ensures r.SignInMissingFields? <==> IsBlank(email) || IsBlank(password)
    ensures r.SignedIn? ==> r.session == SignIn(s, email, password, freshId)
  {
    if Trim(email) == "" || Trim(password) == "" then SignInMissingFields
    else SignedIn(SignIn(s, email, password, freshId))
  }

  /**
   * The email is compared as typed: with a leading space it does not find
   * the stored account, and a new user is made up in its place, whose name
   * starts with that space.
   */
  lemma PaddedEmailMissesAccount(s: Session, email: string, password: string, freshId: string)
    requires s.stored.Some? && s.stored.value.email == email
    requires !IsBlank(email) && !IsBlank(password)
    ensures HandleSignIn(s, [' '] + email, password, freshId).SignedIn?
    ensures HandleSignIn(s, [' '] + email, password, freshId).session.active.value != s.stored.value
    ensures HandleSignIn(s, [' '] + email, password, freshId).session.active.value.name[0] == ' '
  {
    var e := [' '] + email;
    assert e != email by { assert |e| != |email|; }
    var i :| 0 <= i < |email| && !IsSpace(email[i]);
    assert e[i + 1] == email[i];
    var u := SignInUser(e, freshId);
    assert e[0] == ' ';
    assert u.name[0] == e[0];
  }

  /** Signing in with exactly the stored email activates the stored account, whatever the password. */
  lemma StoredAccountFound(s: Session, email: string, password: string, freshId: string)
    requires s.stored.Some? && s.stored.value.email == email
    requires !IsBlank(email) && !IsBlank(password)
    ensures HandleSignIn(s, email, password, freshId) == SignedIn(s.(active := s.stored))
  {
  }
}
