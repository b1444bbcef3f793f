/** The sign-in page (src/pages/Auth.tsx): the address a login is attempted with, the
    check-then-insert that gives a staff member a profile awaiting approval and the teacher
    role, and when the sign-in and sign-up handlers run it. The authentication service is
    outside the model: what it answers is an input. The two tables it writes are a
    `Database` object whose rows the inserts append. */
module Auth {
  import opened Common
  import opened Strings

  datatype LoginMode = Staff | Student

  /** `loginMode === "student" ? `${studentId}@student.local` : email` */
  function LoginEmail(mode: LoginMode, studentId: string, email: string): (r: string)
    ensures mode == Staff ==> r == email
    ensures mode == Student ==> StartsWith(r, studentId) && r[|studentId|..] == "@student.local"
  {
    if mode == Student then studentId + "@student.local" else email
  }

  /** A student's login address gives back the student id as the text before its first "@",
      so two students with different ids never share a login. */
  lemma StudentEmailRoundTrip(studentId: string)
    requires '@' !in studentId
    ensures var e := LoginEmail(Student, studentId, "");
      IndexOf(e, '@') == |studentId| && e[..IndexOf(e, '@')] == studentId
  {
    var e := LoginEmail(Student, studentId, "");
    assert e[|studentId|] == '@';
    assert forall j | 0 <= j < |studentId| :: e[j] == studentId[j];
    IndexOfFirst(e, '@', |studentId|);
  }

  /** The first occurrence of a character is where it is found after a run without it. */
  lemma IndexOfFirst(s: string, c: char, k: nat)
    requires k < |s| && s[k] == c && forall j | 0 <= j < k :: s[j] != c
    ensures IndexOf(s, c) == k
  {
  }

  /** A `profiles` row (`is_approved` may be null). */
  datatype ProfileRow = ProfileRow(id: string, userId: string, fullName: string, email: string, isApproved: Option<bool>)

  /** A `user_roles` row. */
  datatype RoleRow = RoleRow(userId: string, role: string)

  /** The number of profiles of a user. */
  function ProfileCount(ps: seq<ProfileRow>, userId: string): nat
  {
    if ps == [] then 0
    else ProfileCount(ps[..|ps| - 1], userId) + (if ps[|ps| - 1].userId == userId then 1 else 0)
  }

  /** The number of `(userId, role)` rows. */
  function RoleCount(rs: seq<RoleRow>, userId: string, role: string): nat
  {
    if rs == [] then 0
    else RoleCount(rs[..|rs| - 1], userId, role) + (if rs[|rs| - 1] == RoleRow(userId, role) then 1 else 0)
  }

  /** `.maybeSingle()` returns a row only when exactly one matches; with none, and with more
      than one (an error whose `data` is null), the code sees nothing. */
  predicate ProfileFound(ps: seq<ProfileRow>, userId: string)
  {
    ProfileCount(ps, userId) == 1
  }

  predicate TeacherRoleFound(rs: seq<RoleRow>, userId: string)
  {
    RoleCount(rs, userId, "teacher") == 1
  }

  /** The profile `ensureProfileAndRole` creates: its id is the user id and it awaits approval. */
  function NewProfile(userId: string, fullName: string, email: string): ProfileRow
  {
    ProfileRow(userId, userId, fullName, email, Some(false))
  }

  /** The profiles after the profile step. */
  function EnsureProfile(ps: seq<ProfileRow>, userId: string, fullName: string, email: string): seq<ProfileRow>
  {
    if ProfileFound(ps, userId) then ps else ps + [NewProfile(userId, fullName, email)]
  }

  /** The roles after the role step. */
  function EnsureRole(rs: seq<RoleRow>, userId: string): seq<RoleRow>
  {
    if TeacherRoleFound(rs, userId) then rs else rs + [RoleRow(userId, "teacher")]
  }

  /** Whether `ensureProfileAndRole` throws: an insert it attempts is refused. */
  predicate EnsureFails(ps: seq<ProfileRow>, rs: seq<RoleRow>, userId: string, profileRefused: bool, roleRefused: bool)
  {
    (!ProfileFound(ps, userId) && profileRefused) || (!TeacherRoleFound(rs, userId) && roleRefused)
  }

  /** The profiles `ensureProfileAndRole` leaves, whether or not it throws. */
  function ProfilesAfter(ps: seq<ProfileRow>, userId: string, fullName: string, email: string, profileRefused: bool): seq<ProfileRow>
  {
    if !ProfileFound(ps, userId) && profileRefused then ps else EnsureProfile(ps, userId, fullName, email)
  }

  /** The roles `ensureProfileAndRole` leaves, whether or not it throws. */
  function RolesAfter(ps: seq<ProfileRow>, rs: seq<RoleRow>, userId: string, profileRefused: bool, roleRefused: bool): seq<RoleRow>
  {
    if EnsureFails(ps, rs, userId, profileRefused, roleRefused) then rs else EnsureRole(rs, userId)
  }

  lemma ProfileCountSnoc(ps: seq<ProfileRow>, p: ProfileRow, userId: string)
    ensures ProfileCount(ps + [p], userId) == ProfileCount(ps, userId) + (if p.userId == userId then 1 else 0)
  {
    assert (ps + [p])[..|ps|] == ps;
  }

  lemma RoleCountSnoc(rs: seq<RoleRow>, r: RoleRow, userId: string, role: string)
    ensures RoleCount(rs + [r], userId, role) == RoleCount(rs, userId, role) + (if r == RoleRow(userId, role) then 1 else 0)
  {
    assert (rs + [r])[..|rs|] == rs;
  }

  /** What one pass does: no existing row is touched; a user with no profile gets exactly one,
      with id the user id and not approved; a user with at most one teacher row ends with
      exactly one; another user's rows are not counted differently. */
  lemma EnsureFacts(ps: seq<ProfileRow>, rs: seq<RoleRow>, userId: string, fullName: string, email: string)
    ensures var ps' := EnsureProfile(ps, userId, fullName, email);
      ps'[..|ps|] == ps && |ps'| <= |ps| + 1
      && (ProfileCount(ps, userId) <= 1 ==> ProfileCount(ps', userId) == 1)
      && (ProfileCount(ps, userId) == 0 ==> ps' == ps + [NewProfile(userId, fullName, email)])
      && (forall u | u != userId :: ProfileCount(ps', u) == ProfileCount(ps, u))
    ensures var rs' := EnsureRole(rs, userId);
      rs'[..|rs|] == rs && |rs'| <= |rs| + 1
      && (RoleCount(rs, userId, "teacher") <= 1 ==> RoleCount(rs', userId, "teacher") == 1)
      && (forall u, role | u != userId || role != "teacher" :: RoleCount(rs', u, role) == RoleCount(rs, u, role))
  {
    var p := NewProfile(userId, fullName, email);
    ProfileCountSnoc(ps, p, userId);
    forall u | u != userId ensures ProfileCount(EnsureProfile(ps, userId, fullName, email), u) == ProfileCount(ps, u) {
      ProfileCountSnoc(ps, p, u);
    }
    RoleCountSnoc(rs, RoleRow(userId, "teacher"), userId, "teacher");
    forall u, role | u != userId || role != "teacher"
      ensures RoleCount(EnsureRole(rs, userId), u, role) == RoleCount(rs, u, role)
    {
      RoleCountSnoc(rs, RoleRow(userId, "teacher"), u, role);
    }
  }

  /** A second pass inserts nothing, as long as the user did not start with duplicate rows. */
  lemma EnsureIdempotent(ps: seq<ProfileRow>, rs: seq<RoleRow>, userId: string, fullName: string, email: string,
                         fullName2: string, email2: string)
    requires ProfileCount(ps, userId) <= 1 && RoleCount(rs, userId, "teacher") <= 1
    ensures EnsureProfile(EnsureProfile(ps, userId, fullName, email), userId, fullName2, email2) == EnsureProfile(ps, userId, fullName, email)
    ensures EnsureRole(EnsureRole(rs, userId), userId) == EnsureRole(rs, userId)
  {
    EnsureFacts(ps, rs, userId, fullName, email);
  }

  /** With two profiles for the user already, the lookup sees none and every pass adds
      another: the check is "exactly one", not "at least one". */
  lemma DuplicatesGrow(userId: string)
    ensures var ps := [NewProfile(userId, "", ""), NewProfile(userId, "", "")];
      |EnsureProfile(ps, userId, "", "")| == 3
  {
    var p := NewProfile(userId, "", "");
    assert [p, p][..1] == [p];
    assert [p][..0] == [];
    assert ProfileCount([p], userId) == 1;
    assert ProfileCount([p, p], userId) == 2;
  }

  /** The two tables `ensureProfileAndRole` reads and writes. */
  class Database {
    var profiles: seq<ProfileRow>
    var roles: seq<RoleRow>

    constructor(profiles0: seq<ProfileRow>, roles0: seq<RoleRow>)
      ensures profiles == profiles0 && roles == roles0
    {
      profiles := profiles0;
      roles := roles0;
    }

    /** `ensureProfileAndRole`: insert the profile when the lookup finds none, then the
        teacher role when the lookup finds none. `profileRefused` and `roleRefused` say
        whether the database would reject that insert; a rejected insert throws, so a
        rejected profile stops the role step. */
    method EnsureProfileAndRole(userId: string, fullName: string, email: string, profileRefused: bool, roleRefused: bool)
      returns (ok: bool)
      modifies this
      ensures var profileTried := !ProfileFound(old(profiles), userId);
        var roleTried := !TeacherRoleFound(old(roles), userId);
        (profileTried && profileRefused ==> !ok && profiles == old(profiles) && roles == old(roles))
        && (!(profileTried && profileRefused) ==> profiles == EnsureProfile(old(profiles), userId, fullName, email))
        && (!(profileTried && profileRefused) && roleTried && roleRefused ==> !ok && roles == old(roles))
        && (!(profileTried && profileRefused) && !(roleTried && roleRefused) ==> ok && roles == EnsureRole(old(roles), userId))
      ensures ok == !EnsureFails(old(profiles), old(roles), userId, profileRefused, roleRefused)
      ensures profiles == ProfilesAfter(old(profiles), userId, fullName, email, profileRefused)
      ensures roles == RolesAfter(old(profiles), old(roles), userId, profileRefused, roleRefused)
    {
      if !ProfileFound(profiles, userId) {
        if profileRefused {
          return false;
        }
        profiles := profiles + [NewProfile(userId, fullName, email)];
      }
      if !TeacherRoleFound(roles, userId) {
        if roleRefused {
          return false;
        }
        roles := roles + [RoleRow(userId, "teacher")];
      }
      ok := true;
    }
  }

  /** The signed-in account the service reports. */
  datatype AuthUser = AuthUser(id: string, metadataFullName: Option<string>)

  /** What `signInWithPassword` answers: refused, or accepted and then the session lookup's
      user, if any. */
  datatype SignInAnswer = SignInRefused | SignedIn(sessionUser: Option<AuthUser>)

  /** What `signUp` answers: refused, or the new user (if any) and whether a session came with it. */
  datatype SignUpAnswer = SignUpRefused | SignedUp(user: Option<AuthUser>, session: bool)

  datatype Toast = WelcomeBack | SetupIncomplete | AccountCreatedPending | AccountCreatedVerifyEmail | ErrorToast

  /** `fullName || authedUser.user_metadata?.full_name || ""` */
  function NameForProfile(fullName: string, u: AuthUser): string
  {
    if fullName != "" then fullName
    else if u.metadataFullName.Some? then u.metadataFullName.value
    else ""
  }

  /** The page's fields. */
  class AuthPage {
    var email: string
    var password: string
    var fullName: string
    var studentId: string
    var loginMode: LoginMode
    var loading: bool

    constructor()
      ensures email == "" && password == "" && fullName == "" && studentId == ""
      ensures loginMode == Staff && !loading
    {
      email := "";
      password := "";
      fullName := "";
      studentId := "";
      loginMode := Staff;
      loading := false;
    }

    /** `handleSignIn`. `tried` is the address the login was attempted with. After an
        accepted staff sign-in with a session, the profile and role are ensured for the
        session's user; a failure there only adds a warning before the welcome. */
    method HandleSignIn(answer: SignInAnswer, db: Database, profileRefused: bool, roleRefused: bool)
      returns (tried: string, toasts: seq<Toast>)
      modifies db, this`loading
      ensures tried == LoginEmail(loginMode, studentId, email)
      ensures !loading
      ensures answer.SignInRefused? ==> toasts == [ErrorToast] && unchanged(db)
      ensures answer.SignedIn? && (answer.sessionUser.None? || loginMode == Student) ==>
        toasts == [WelcomeBack] && unchanged(db)
      ensures answer.SignedIn? && answer.sessionUser.Some? && loginMode == Staff ==>
        var u := answer.sessionUser.value;
        var name := NameForProfile(fullName, u);
        toasts == (if EnsureFails(old(db.profiles), old(db.roles), u.id, profileRefused, roleRefused)
                   then [SetupIncomplete, WelcomeBack] else [WelcomeBack])
        && db.profiles == ProfilesAfter(old(db.profiles), u.id, name, tried, profileRefused)
        && db.roles == RolesAfter(old(db.profiles), old(db.roles), u.id, profileRefused, roleRefused)
        && |old(db.profiles)| <= |db.profiles| && db.profiles[..|old(db.profiles)|] == old(db.profiles)
        && |old(db.roles)| <= |db.roles| && db.roles[..|old(db.roles)|] == old(db.roles)
        && (!profileRefused && !roleRefused ==>
              toasts == [WelcomeBack]
              && db.profiles == EnsureProfile(old(db.profiles), u.id, NameForProfile(fullName, u), tried)
              && db.roles == EnsureRole(old(db.roles), u.id))
    {
      loading := true;
      tried := LoginEmail(loginMode, studentId, email);
      if answer.SignInRefused? {
        toasts := [ErrorToast];
      } else {
        toasts := [];
        if answer.sessionUser.Some? && loginMode == Staff {
          var u := answer.sessionUser.value;
          var ok := db.EnsureProfileAndRole(u.id, NameForProfile(fullName, u), tried, profileRefused, roleRefused);
          if !ok {
            toasts := [SetupIncomplete];
          }
        }
        toasts := toasts + [WelcomeBack];
      }
      loading := false;
    }

    /** `handleSignUp`. A new user that comes with a session gets the profile and role at
        once; one without waits for the first sign-in. The fields are cleared once the
        account exists, unless ensuring its profile failed. */
    method HandleSignUp(answer: SignUpAnswer, db: Database, profileRefused: bool, roleRefused: bool)
      returns (toasts: seq<Toast>)
      modifies db, this`email, this`password, this`fullName, this`loading
      ensures !loading
      ensures answer.SignUpRefused? || (answer.SignedUp? && answer.user.None?) ==>
        unchanged(db) && email == old(email) && password == old(password) && fullName == old(fullName)
        && toasts == (if answer.SignUpRefused? then [ErrorToast] else [])
      ensures answer.SignedUp? && answer.user.Some? && !answer.session ==>
        unchanged(db) && toasts == [AccountCreatedVerifyEmail] && email == "" && password == "" && fullName == ""
      ensures answer.SignedUp? && answer.user.Some? && answer.session ==>
        var u := answer.user.value;
        var failed := EnsureFails(old(db.profiles), old(db.roles), u.id, profileRefused, roleRefused);
        db.profiles == ProfilesAfter(old(db.profiles), u.id, old(fullName), old(email), profileRefused)
        && db.roles == RolesAfter(old(db.profiles), old(db.roles), u.id, profileRefused, roleRefused)
        && |old(db.profiles)| <= |db.profiles| && db.profiles[..|old(db.profiles)|] == old(db.profiles)
        && |old(db.roles)| <= |db.roles| && db.roles[..|old(db.roles)|] == old(db.roles)
        && (failed ==> toasts == [ErrorToast] && email == old(email) && password == old(password) && fullName == old(fullName))
        && (!failed ==> toasts == [AccountCreatedPending] && email == "" && password == "" && fullName == "")
        && (!profileRefused && !roleRefused ==>
              db.profiles == EnsureProfile(old(db.profiles), u.id, old(fullName), old(email))
              && db.roles == EnsureRole(old(db.roles), u.id)
              && toasts == [AccountCreatedPending] && email == "" && password == "" && fullName == "")
    {
      loading := true;
      toasts := [];
      if answer.SignUpRefused? {
        toasts := [ErrorToast];
      } else if answer.user.Some? && answer.session {
        var ok := db.EnsureProfileAndRole(answer.user.value.id, fullName, email, profileRefused, roleRefused);
        if ok {
          toasts := [AccountCreatedPending];
          email, password, fullName := "", "", "";
        } else {
          toasts := [ErrorToast];
        }
      } else if answer.user.Some? {
        toasts := [AccountCreatedVerifyEmail];
        email, password, fullName := "", "", "";
      }
      loading := false;
    }
  }
}
