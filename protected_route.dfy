/** The approval gate every signed-in page sits behind (src/components/ProtectedRoute.tsx).
    Once the session is known, a missing user is sent to the sign-in page; for a present
    user the roles are read, admins pass at once, teachers pass only when their profile is
    approved, everyone else passes, and an exception lets the user through. The session
    and the two lookups are inputs; navigation is recorded as the list of paths visited. */
module ProtectedRoute {
  import opened Common

  /** The result of an awaited lookup: it threw, or it returned its `data` (null when the
      query failed or, for `.single()`, when not exactly one row matched). */
  datatype Lookup<T> = Threw | Returned(data: Option<T>)

  /** What the route renders. */
  datatype View = Spinner | Nothing | PendingApproval | Children

  /** `roles?.some(r => r.role === role) || false` */
  predicate HasRole(roles: Option<seq<string>>, role: string)
  {
    roles.Some? && role in roles.value
  }

  /** What the check decides: the new `isTeacher`, when it sets one, and `isApproved`. */
  datatype Decision = Decision(isTeacher: Option<bool>, isApproved: bool)

  /** The teacher who is held back: the roles came back with the teacher role and without
      the admin role, and the profile lookup did not throw and did not report approval. */
  predicate HeldBack(roles: Lookup<seq<string>>, profile: Lookup<Option<bool>>)
  {
    roles.Returned? && HasRole(roles.data, "teacher") && !HasRole(roles.data, "admin")
    && profile.Returned? && !(profile.data.Some? && profile.data.value == Some(true))
  }

  /** `checkTeacherApproval`'s flag updates. `profile` is only looked up on the teacher path. */
  function Decide(roles: Lookup<seq<string>>, profile: Lookup<Option<bool>>): (d: Decision)
    ensures d.isApproved <==> !HeldBack(roles, profile)
    ensures roles.Returned? && HasRole(roles.data, "admin") ==> d.isApproved && d.isTeacher.None?
    ensures roles.Returned? && !HasRole(roles.data, "admin") ==> d.isTeacher == Some(HasRole(roles.data, "teacher"))
    ensures roles.Threw? ==> d.isApproved && d.isTeacher.None?
  {
    match roles
    case Threw => Decision(None, true)
    case Returned(rs) =>
      if HasRole(rs, "admin") then Decision(None, true)
      else if !HasRole(rs, "teacher") then Decision(Some(false), true)
      else
        match profile
        case Threw => Decision(Some(true), true)
        case Returned(p) => Decision(Some(true), p.Some? && p.value.Some? && p.value.value)
  }

  /** The render decision, in the order the component tests it. */
  function ViewOf(loading: bool, user: Option<string>, checkingApproval: bool, isTeacher: bool, isApproved: bool): (v: View)
    ensures v == Spinner <==> loading || checkingApproval
    ensures v == PendingApproval <==> !loading && !checkingApproval && user.Some? && isTeacher && !isApproved
    ensures v == Children ==> user.Some? && !(isTeacher && !isApproved)
  {
    if loading || checkingApproval then Spinner
    else if user.None? then Nothing
    else if isTeacher && !isApproved then PendingApproval
    else Children
  }

  /** After a completed check, the pending screen shows exactly for the held-back teacher,
      whatever the flags held before; in particular never for an admin. */
  lemma {:induction false} PendingExactly(user: string, roles: Lookup<seq<string>>, profile: Lookup<Option<bool>>, wasTeacher: bool)
    ensures var d := Decide(roles, profile);
      ViewOf(false, Some(user), false, d.isTeacher.GetOr(wasTeacher), d.isApproved) == PendingApproval
      <==> HeldBack(roles, profile)
    ensures roles.Returned? && HasRole(roles.data, "admin") ==>
      ViewOf(false, Some(user), false, Decide(roles, profile).isTeacher.GetOr(wasTeacher), Decide(roles, profile).isApproved) == Children
  {
    var d := Decide(roles, profile);
    if HeldBack(roles, profile) {
      assert d.isTeacher == Some(true);
    }
  }

  class ProtectedRoute {
    var checkingApproval: bool
    var isApproved: bool
    var isTeacher: bool
    /** The paths `navigate` was asked to visit, oldest first. */
    var navigations: seq<string>

    constructor()
      ensures checkingApproval && isApproved && !isTeacher && navigations == []
    {
      checkingApproval := true;
      isApproved := true;
      isTeacher := false;
      navigations := [];
    }

    /** What the route shows for the current session. */
    function Render(user: Option<string>, loading: bool): View
      reads this
    {
      ViewOf(loading, user, checkingApproval, isTeacher, isApproved)
    }

    /** The effect, run when the session changes, with the two lookups' answers. Without a
        user once loading is over it navigates to "/auth" and changes no flag; while loading
        without a user it does nothing; with a user it applies the check's decision and ends
        the check. */
    method Effect(user: Option<string>, loading: bool, roles: Lookup<seq<string>>, profile: Lookup<Option<bool>>)
      modifies this
      ensures user.None? ==>
        checkingApproval == old(checkingApproval) && isApproved == old(isApproved) && isTeacher == old(isTeacher)
        && navigations == old(navigations) + (if loading then [] else ["/auth"])
      ensures user.Some? ==>
        !checkingApproval && navigations == old(navigations)
        && isApproved == Decide(roles, profile).isApproved
        && isTeacher == Decide(roles, profile).isTeacher.GetOr(old(isTeacher))
      ensures user.Some? && !loading ==> (Render(user, loading) == PendingApproval <==> HeldBack(roles, profile))
    {
      if !loading && user.None? {
        navigations := navigations + ["/auth"];
        return;
      }
      if user.Some? {
        if roles.Threw? {
          isApproved := true;
        } else {
          var hasAdminRole := HasRole(roles.data, "admin");
          if hasAdminRole {
            isApproved := true;
          } else {
            var hasTeacherRole := HasRole(roles.data, "teacher");
            isTeacher := hasTeacherRole;
            if hasTeacherRole {
              if profile.Threw? {
                isApproved := true;
              } else {
                var p := profile.data;
                isApproved := p.Some? && p.value.Some? && p.value.value;
              }
            } else {
              isApproved := true;
            }
          }
        }
        checkingApproval := false;
        PendingExactly(user.value, roles, profile, old(isTeacher));
      }
    }

    /** The pending screen's "Sign Out" button: the session ends (outside the model) and
        the route navigates to "/auth". */
    method SignOut()
      modifies this`navigations
      ensures navigations == old(navigations) + ["/auth"]
    {
      navigations := navigations + ["/auth"];
    }
  }

  /** A fresh route whose session turns out to have no user keeps the spinner: the check
      never ran, so `checkingApproval` is still set while it navigates to "/auth". The
      null render is reached only when a user who passed a check is later signed out. */
  method NoUserOnMount() returns (v: View, navigations: seq<string>)
    ensures v == Spinner && navigations == ["/auth"]
  {
    var route := new ProtectedRoute();
    route.Effect(None, false, Threw, Threw);
    v := route.Render(None, false);
    navigations := route.navigations;
  }
}
