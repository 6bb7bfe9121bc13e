/** The side navigation (components/layout/sidebar.tsx): who counts as staff,
    which link sections are listed, which link is highlighted, the panel width,
    the collapse toggle, and the welcome line. */
module Sidebar {
  import opened Shared
  import opened Models
  import opened Header

  /** `adminRoles`. */
  const AdminRoles: set<Role> := {Admin, Instructor, Superadmin}

  /** `isAdmin`: a signed-in user with a staff role. */
  function IsAdmin(user: Option<User>): (b: bool)
    ensures b <==> user.Some? && user.value.role != Learner
  {
    user.Some? && (StaffRoles(user.value.role); user.value.role in AdminRoles)
  }

  lemma StaffRoles(role: Role)
    ensures role in AdminRoles <==> role != Learner
  {
    match role
    case Learner =>
    case Admin =>
    case Instructor =>
    case Superadmin =>
  }

  /** The sidebar and the top bar agree on who is staff. */
  lemma IsAdminMatchesHeader(user: User)
    ensures IsAdmin(Some(user)) == ShowsAdminWorkspace(user.role)
    ensures !IsAdmin(None)
  {
  }

  const BaseNav: seq<NavItem> := [
    NavItem("Dashboard", "/dashboard"),
    NavItem("My Courses", "/modules/courses"),
    NavItem("Certificates", "/certificates")]

  const AdminNav: seq<NavItem> := [
    NavItem("Course Management", "/admin/courses"),
    NavItem("Users", "/admin/users"),
    NavItem("Reports", "/admin/reports")]

  /** `navSections`: the learner links, followed by the staff links for staff. */
  function NavSections(isAdmin: bool): (r: seq<seq<NavItem>>)
    ensures 1 <= |r| <= 2 && r[0] == BaseNav
    ensures |r| == 2 <==> isAdmin
    ensures isAdmin ==> r[1] == AdminNav
  {
    if isAdmin then [BaseNav, AdminNav] else [BaseNav]
  }

  /** A link is highlighted when the path is its target, or, for any target
      other than `/`, when the path begins with it. */
  predicate ItemActive(pathname: string, href: string) {
    pathname == href || (href != "/" && StartsWith(pathname, href))
  }

  /** The sidebar's rule is the top bar's rule on every non-empty path; they
      differ only on the empty path and the empty target. */
  lemma ItemActiveAgreesWithHeader(pathname: string, href: string)
    ensures pathname != "" || href != "" ==> (ItemActive(pathname, href) <==> IsActive(Some(pathname), href))
    ensures ItemActive("", "") && !IsActive(Some(""), "")
  {
    if pathname == href {
      StartsWithSelf(pathname);
    }
  }

  /** Two prefixes of one string are prefixes of each other. */
  lemma PrefixesNest(s: string, a: string, b: string)
    requires StartsWith(s, a) && StartsWith(s, b) && |a| <= |b|
    ensures StartsWith(b, a)
  {
    assert b[..|a|] == s[..|b|][..|a|];
  }

  /** Every sidebar link, learner and staff. */
  const AllNav: seq<NavItem> := BaseNav + AdminNav

  /** No link target begins with another one. */
  lemma TargetsPrefixFree()
    ensures forall i, j :: 0 <= i < |AllNav| && 0 <= j < |AllNav| && i != j ==> !StartsWith(AllNav[i].href, AllNav[j].href)
  {
    assert AllNav == [
      NavItem("Dashboard", "/dashboard"),
      NavItem("My Courses", "/modules/courses"),
      NavItem("Certificates", "/certificates"),
      NavItem("Course Management", "/admin/courses"),
      NavItem("Users", "/admin/users"),
      NavItem("Reports", "/admin/reports")];
    forall i, j | 0 <= i < |AllNav| && 0 <= j < |AllNav| && i != j
      ensures !StartsWith(AllNav[i].href, AllNav[j].href)
    {
      var a, b := AllNav[i].href, AllNav[j].href;
      if |b| <= |a| {
        if i >= 3 && j >= 3 {
          assert a[7] != b[7] || |b| < 8;
        } else {
          assert a[1] != b[1];
        }
      }
    }
  }

  /** Whatever the path, at most one sidebar link is highlighted. */
  lemma AtMostOneActive(pathname: string)
    ensures forall i, j :: 0 <= i < j < |AllNav| ==> !(ItemActive(pathname, AllNav[i].href) && ItemActive(pathname, AllNav[j].href))
  {
    TargetsPrefixFree();
    forall i, j | 0 <= i < j < |AllNav| && ItemActive(pathname, AllNav[i].href) && ItemActive(pathname, AllNav[j].href)
      ensures false
    {
      var a, b := AllNav[i].href, AllNav[j].href;
      assert a != "/" && b != "/";
      if pathname == a { StartsWithSelf(a); }
      if pathname == b { StartsWithSelf(b); }
      if |a| <= |b| {
        PrefixesNest(pathname, a, b);
      } else {
        PrefixesNest(pathname, b, a);
      }
    }
  }

  datatype Variant = Desktop | Mobile

  /** `width`: narrow only for a collapsed desktop panel. */
  function Width(collapsed: bool, variant: Variant): (w: int)
    ensures w == 92 <==> collapsed && variant == Desktop
    ensures w == 92 || w == 280
  {
    if collapsed && variant == Desktop then 92 else 280
  }

  /** `parts[0] ?? fallback` for the pieces of a split. */
  function FirstOr(parts: seq<string>, fallback: string): string {
    if |parts| > 0 then parts[0] else fallback
  }

  /** The desktop welcome name as written: `user.name.split(" ")[0] ?? "Learner"`,
      which is always the name's first space-separated piece. */
  function WelcomeNameAsWritten(name: string): (r: string)
    ensures r == Split(name, ' ')[0] && ' ' !in r
  {
    FirstOr(Split(name, ' '), "Learner")
  }

  /** `split` always yields a first piece, so the "Learner" fallback is never
      used: an empty name, or a name starting with a space, greets nobody. */
  lemma WelcomeFallbackUnused(name: string)
    ensures WelcomeNameAsWritten(name) == Split(name, ' ')[0]
    ensures WelcomeNameAsWritten("") == ""
    ensures WelcomeNameAsWritten(" Ada") == ""
  {
    SplitPrefix("", "Ada", ' ');
    assert " Ada" == "" + [' '] + "Ada";
  }

  /** The desktop welcome name: the first word of the name, or "Learner" when
      there is none. */
  function WelcomeName(name: string): (r: string)
    ensures r != "" && ' ' !in r
    ensures Split(name, ' ')[0] != "" ==> r == Split(name, ' ')[0]
  {
    var first := Split(name, ' ')[0];
    if first == "" then "Learner" else first
  }

  /** A name's first word is greeted; a name without one gets "Learner". */
  lemma WelcomeNameCases(first: string, rest: string)
    requires first != "" && ' ' !in first
    ensures WelcomeName(first + " " + rest) == first
    ensures WelcomeName(first) == first
    ensures WelcomeName("") == "Learner" && WelcomeName(" " + first) == "Learner"
  {
    SplitPrefix(first, rest, ' ');
    assert first + " " + rest == first + [' '] + rest;
    SplitNoSeparator(first, ' ');
    SplitPrefix("", first, ' ');
    assert " " + first == "" + [' '] + first;
  }

  /** A listed link and whether it is highlighted. */
  datatype Entry = Entry(item: NavItem, active: bool)

  function MarkActive(section: seq<NavItem>, pathname: string): (r: seq<Entry>)
    ensures |r| == |section|
    ensures forall k :: 0 <= k < |r| ==> r[k] == Entry(section[k], ItemActive(pathname, section[k].href))
    decreases |section|
  {
    if section == [] then []
    else [Entry(section[0], ItemActive(pathname, section[0].href))] + MarkActive(section[1..], pathname)
  }

  function MarkSections(sections: seq<seq<NavItem>>, pathname: string): (r: seq<seq<Entry>>)
    ensures |r| == |sections|
    ensures forall k :: 0 <= k < |r| ==> r[k] == MarkActive(sections[k], pathname)
    decreases |sections|
  {
    if sections == [] then [] else [MarkActive(sections[0], pathname)] + MarkSections(sections[1..], pathname)
  }

  /** What the sidebar draws: its width, the welcome line if any, the link
      sections with their highlighting, and whether the "Admin" badge shows. */
  datatype SidebarView = SidebarView(
    width: int,
    welcome: Option<string>,
    sections: seq<seq<Entry>>,
    adminBadge: bool)

  /** The rendered sidebar as written; nothing without a signed-in user. The
      desktop panel greets the first piece of the name unless collapsed; the
      mobile one greets the full name. The badge heads the staff section, except on a collapsed
      desktop panel. */
  function Render(user: Option<User>, variant: Variant, collapsed: bool, pathname: string): (r: Option<SidebarView>)
    ensures r.None? <==> user.None?
    ensures r.Some? ==> r.value.width == Width(collapsed, variant)
    ensures r.Some? ==> |r.value.sections| == |NavSections(IsAdmin(user))|
    ensures r.Some? ==> forall s :: 0 <= s < |r.value.sections| ==>
      |r.value.sections[s]| == |NavSections(IsAdmin(user))[s]| &&
      forall k :: 0 <= k < |r.value.sections[s]| ==>
        r.value.sections[s][k].item == NavSections(IsAdmin(user))[s][k] &&
        (r.value.sections[s][k].active <==> ItemActive(pathname, r.value.sections[s][k].item.href))
    ensures r.Some? && variant == Desktop ==> r.value.welcome == (if collapsed then None else Some(WelcomeNameAsWritten(user.value.name)))
    ensures r.Some? && variant == Mobile ==> r.value.welcome == Some(user.value.name)
    ensures r.Some? ==> (r.value.adminBadge <==> user.value.role != Learner && (variant == Mobile || !collapsed))
  {
    if user.None? then None
    else
      var welcome :=
        if variant == Mobile then Some(user.value.name)
        else if collapsed then None
        else Some(WelcomeNameAsWritten(user.value.name));
      Some(SidebarView(
        Width(collapsed, variant),
        welcome,
        MarkSections(NavSections(IsAdmin(user)), pathname),
        IsAdmin(user) && (variant == Mobile || !collapsed)))
  }

  /** As written, a user whose name is empty or starts with a space is
      greeted with nothing on the expanded desktop panel. */
  lemma RenderedGreetingCanBeEmpty(user: User, pathname: string)
    requires Split(user.name, ' ')[0] == ""
    ensures Render(Some(user), Desktop, false, pathname).value.welcome == Some("")
  {
  }

  /** The sidebar as evidently intended: the same panel, except that the
      expanded desktop panel greets "Learner" when the name has no first
      word. */
  function RenderCorrected(user: Option<User>, variant: Variant, collapsed: bool, pathname: string): (r: Option<SidebarView>)
    ensures r.None? <==> user.None?
    ensures r.Some? ==> var w := Render(user, variant, collapsed, pathname).value;
      r.value.width == w.width && r.value.sections == w.sections && r.value.adminBadge == w.adminBadge
    ensures r.Some? && variant == Desktop ==> r.value.welcome == (if collapsed then None else Some(WelcomeName(user.value.name)))
    ensures r.Some? && variant == Mobile ==> r.value.welcome == Some(user.value.name)
    ensures user.Some? && Split(user.value.name, ' ')[0] != "" ==> r == Render(user, variant, collapsed, pathname)
  {
    var v := Render(user, variant, collapsed, pathname);
    if v.Some? && variant == Desktop && !collapsed then
      Some(v.value.(welcome := Some(WelcomeName(user.value.name))))
    else v
  }

  /** In the corrected sidebar the greeting is never empty, whatever the
      user's name. */
  lemma WelcomeNeverEmpty(user: User, variant: Variant, collapsed: bool, pathname: string)
    ensures var r := RenderCorrected(Some(user), variant, collapsed, pathname).value;
      r.welcome.Some? && variant == Desktop ==> r.welcome.value != ""
  {
  }

  /** The panel's own state: whether the desktop panel is collapsed. */
  class SidebarState {
    var collapsed: bool

    constructor ()
      ensures !collapsed
    {
      collapsed := false;
    }

    /** The collapse button: `setCollapsed((prev) => !prev)`. */
    method ToggleCollapsed()
      modifies this
      ensures collapsed == !old(collapsed)
    {
      collapsed := !collapsed;
    }
  }
}
