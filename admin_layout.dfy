/** The admin pages' frame (src/components/AdminLayout.tsx): the name shown beside the
    avatar, the side bar's links and the collapse and drawer toggles. The signed-in user is
    an input. */
module AdminLayout {
  import opened Common
  import opened Strings
  import opened Sidebar

  /** The parts of the signed-in user the frame reads (`user_metadata.full_name`, `email`). */
  datatype User = User(fullName: Option<string>, email: Option<string>)

  /** A JS string that is present and not empty. */
  predicate Truthy(s: Option<string>)
  {
    s.Some? && s.value != ""
  }

  /** `(user && (user.user_metadata?.full_name || user.email)) || "Admin User"` */
  function DisplayName(user: Option<User>): (name: string)
    ensures name != ""
    ensures user.Some? && Truthy(user.value.fullName) ==> name == user.value.fullName.value
    ensures user.Some? && !Truthy(user.value.fullName) && Truthy(user.value.email) ==> name == user.value.email.value
    ensures user.None? || (!Truthy(user.value.fullName) && !Truthy(user.value.email)) ==> name == "Admin User"
  {
    if user.Some? && Truthy(user.value.fullName) then user.value.fullName.value
    else if user.Some? && Truthy(user.value.email) then user.value.email.value
    else "Admin User"
  }

  /** The side bar's links, in order. */
  const AdminLinks: seq<string> := ["/dashboard", "/gradebook", "/reports", "/analytics", "/admin", "/settings"]

  /** On any path at most one admin link is highlighted, and "/admin/..." highlights the
      users link while "/adminx" highlights none. */
  lemma AdminLinksFacts(pathname: string)
    ensures forall i, j | 0 <= i < |AdminLinks| && 0 <= j < |AdminLinks|
      && IsActive(pathname, AdminLinks[i]) && IsActive(pathname, AdminLinks[j]) :: i == j
    ensures IsActive("/admin/users", "/admin") && !IsActive("/adminx", "/admin")
  {
    SingleSegmentsUnnested(AdminLinks);
    AtMostOneActive(AdminLinks, pathname);
    assert "/admin/users"[..7] == "/admin/";
    assert "/adminx"[..7][6] == 'x';
  }

  /** The frame's own state: the mobile drawer and the collapsed side bar. */
  class AdminLayout {
    var open: bool
    var collapsed: bool

    constructor()
      ensures !open && !collapsed
    {
      open := false;
      collapsed := false;
    }

    /** The side bar's width class, which follows `collapsed`. */
    function SidebarWidth(): string
      reads this
    {
      if collapsed then "w-20" else "w-72"
    }

    /** The collapse button. */
    method ToggleCollapsed()
      modifies this`collapsed
      ensures collapsed == !old(collapsed)
      ensures SidebarWidth() != old(SidebarWidth())
      ensures SidebarWidth() == (if collapsed then "w-20" else "w-72")
    {
      collapsed := !collapsed;
    }

    /** The menu button opens the drawer; the drawer reports its own open state. */
    method SetOpen(value: bool)
      modifies this`open
      ensures open == value
    {
      open := value;
    }
  }
}
