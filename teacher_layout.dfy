/** The teacher pages' frame (src/components/TeacherLayout.tsx): the name shown beside the
    avatar, which an effect derives from the signed-in user, the side bar's links, the
    collapse and drawer toggles and the layout context it provides. The signed-in user is an
    input. */
module TeacherLayout {
  import opened Common
  import opened Strings
  import opened Sidebar
  import AdminLayout

  /** The value `LayoutContext.Provider` passes down. */
  datatype LayoutContextValue = LayoutContextValue(insideAdminLayout: bool, isAdmin: bool)

  /** The side bar's links, in order. */
  const TeacherLinks: seq<string> := ["/dashboard", "/gradebook", "/reports", "/analytics"]

  /** On any path at most one teacher link is highlighted. */
  lemma TeacherLinksFacts(pathname: string)
    ensures forall i, j | 0 <= i < |TeacherLinks| && 0 <= j < |TeacherLinks|
      && IsActive(pathname, TeacherLinks[i]) && IsActive(pathname, TeacherLinks[j]) :: i == j
  {
    SingleSegmentsUnnested(TeacherLinks);
    AtMostOneActive(TeacherLinks, pathname);
  }

  /** `email.split("@")[0]`: the text before the first "@". */
  function LocalPart(email: string): (r: string)
    ensures r == email[..IndexOf(email, '@')] && '@' !in r
  {
    SplitFirst(email, '@');
    SplitOn(email, '@')[0]
  }

  class TeacherLayout {
    var name: string
    var open: bool
    var collapsed: bool

    constructor()
      ensures name == "Teacher" && !open && !collapsed
    {
      name := "Teacher";
      open := false;
      collapsed := false;
    }

    /** The effect run when the user changes: the full name when there is one, else the
        e-mail address up to its "@"; with neither the name stays as it was. */
    method NameEffect(user: Option<AdminLayout.User>)
      modifies this`name
      ensures user.Some? && AdminLayout.Truthy(user.value.fullName) ==> name == user.value.fullName.value
      ensures user.Some? && !AdminLayout.Truthy(user.value.fullName) && AdminLayout.Truthy(user.value.email) ==>
        name == LocalPart(user.value.email.value) && StartsWith(user.value.email.value, name)
      ensures user.None? || (!AdminLayout.Truthy(user.value.fullName) && !AdminLayout.Truthy(user.value.email)) ==>
        name == old(name)
    {
      if user.Some? && AdminLayout.Truthy(user.value.fullName) {
        name := user.value.fullName.value;
      } else if user.Some? && AdminLayout.Truthy(user.value.email) {
        name := LocalPart(user.value.email.value);
      }
    }

    /** The avatar fallback, at most two letters of the current name. */
    function AvatarInitials(): (r: string)
      reads this
      ensures |r| <= 2 && forall c | c in r :: c in name && c != ' '
    {
      InitialsFacts(name);
      Initials(name)
    }

    /** The context the frame provides, whoever is signed in and whatever the frame shows. */
    function Context(): (c: LayoutContextValue)
      reads this
      ensures !c.insideAdminLayout && !c.isAdmin
    {
      LayoutContextValue(false, false)
    }

    function SidebarWidth(): string
      reads this
    {
      if collapsed then "w-20" else "w-72"
    }

    /** The collapse button. */
    method ToggleCollapsed()
      modifies this`collapsed
      ensures collapsed == !old(collapsed)
      ensures SidebarWidth() != old(SidebarWidth())
      ensures SidebarWidth() == (if collapsed then "w-20" else "w-72")
    {
      collapsed := !collapsed;
    }

    /** The menu button opens the drawer; the drawer reports its own open state. */
    method SetOpen(value: bool)
      modifies this`open
      ensures open == value
    {
      open := value;
    }
  }
}
