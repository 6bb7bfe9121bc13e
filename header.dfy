/** The top bar (components/layout/header.tsx): which of its two links is
    highlighted for the current path, and who sees the Admin Workspace entry. */
module Header {
  import opened Shared
  import opened Models

  datatype NavItem = NavItem(text: string, href: string)

  const HomeItem := NavItem("Home", "/")
  const CoursesItem := NavItem("Courses", "/courses")
  const NavItems: seq<NavItem> := [HomeItem, CoursesItem]

  /** `isActive(href)`: nothing is active without a path; the home link only on
      `/` itself; any other link on every path that begins with it. */
  function IsActive(pathname: Option<string>, href: string): (b: bool)
    ensures pathname.None? || pathname == Some("") ==> !b
    ensures href == "/" ==> (b <==> pathname == Some("/"))
    ensures href != "/" && pathname.Some? && pathname.value != "" ==> (b <==> StartsWith(pathname.value, href))
  {
    if pathname.None? || pathname.value == "" then false
    else if href == "/" then pathname.value == "/"
    else StartsWith(pathname.value, href)
  }

  /** The links highlighted for a path, in menu order. */
  function ActiveNavItems(pathname: Option<string>): (r: seq<NavItem>)
    ensures forall i :: 0 <= i < |r| ==> r[i] in NavItems && IsActive(pathname, r[i].href)
    ensures forall i :: 0 <= i < |NavItems| && IsActive(pathname, NavItems[i].href) ==> NavItems[i] in r
  {
    (if IsActive(pathname, HomeItem.href) then [HomeItem] else [])
      + (if IsActive(pathname, CoursesItem.href) then [CoursesItem] else [])
  }

  /** At most one top-bar link is highlighted, and matching is by prefix, not
      by path segment: `/coursesX` still highlights Courses. */
  lemma AtMostOneActive(pathname: Option<string>)
    ensures |ActiveNavItems(pathname)| <= 1
    ensures ActiveNavItems(Some("/coursesX")) == [CoursesItem]
    ensures ActiveNavItems(Some("/")) == [HomeItem]
  {
    if IsActive(pathname, "/") {
      assert pathname == Some("/");
      assert !StartsWith("/", "/courses");
    }
    assert StartsWith("/coursesX", "/courses") by {
      assert "/coursesX"[..|"/courses"|] == "/courses";
    }
  }

  /** The Admin Workspace menu entry is shown exactly to staff roles. */
  function ShowsAdminWorkspace(role: Role): (b: bool)
    ensures b <==> role != Learner
  {
    role == Admin || role == Instructor || role == Superadmin
  }
}
