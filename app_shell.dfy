/** The page frame (components/layout/app-shell.tsx): on which paths the
    sidebar is shown, and the open state of the mobile navigation sheet. */
module AppShell {
  import opened Shared
  import opened Models
  import Sidebar

  /** `sidebarSegments`. */
  const SidebarSegments: seq<string> := ["/dashboard", "/admin", "/modules", "/certificates"]

  /** `segments.some((segment) => pathname.startsWith(segment))`. */
  function StartsWithAny(pathname: string, segments: seq<string>): (b: bool)
    ensures b <==> exists k :: 0 <= k < |segments| && StartsWith(pathname, segments[k])
    decreases |segments|
  {
    if segments == [] then false
    else
      var rest := StartsWithAny(pathname, segments[1..]);
      assert forall k :: 1 <= k < |segments| ==> segments[k] == segments[1..][k - 1];
      StartsWith(pathname, segments[0]) || rest
  }

  /** `showSidebar`: a signed-in user on a non-empty path that begins with one of
      the workspace segments. */
  function ShowSidebar(user: Option<User>, pathname: Option<string>): (b: bool)
    ensures b <==> user.Some? && pathname.Some? && pathname.value != ""
                   && exists k :: 0 <= k < |SidebarSegments| && StartsWith(pathname.value, SidebarSegments[k])
  {
    user.Some? && pathname.Some? && pathname.value != "" && StartsWithAny(pathname.value, SidebarSegments)
  }

  /** The empty-path test adds nothing, since no segment is a prefix of the
      empty path; and the match is by prefix, so `/administrator` and
      `/dashboards` get the sidebar while `/courses` does not. */
  lemma ShowSidebarCases(user: User)
    ensures forall p :: ShowSidebar(Some(user), Some(p)) <==> StartsWithAny(p, SidebarSegments)
    ensures ShowSidebar(Some(user), Some("/administrator"))
    ensures ShowSidebar(Some(user), Some("/dashboards"))
    ensures !ShowSidebar(Some(user), Some("/courses"))
    ensures !ShowSidebar(None, Some("/dashboard"))
  {
    assert StartsWith("/administrator", SidebarSegments[1]) by {
      assert "/administrator"[..6] == "/admin";
    }
    assert StartsWith("/dashboards", SidebarSegments[0]) by {
      assert "/dashboards"[..10] == "/dashboard";
    }
    assert !StartsWith("/courses", SidebarSegments[0]) && !StartsWith("/courses", SidebarSegments[1]) &&
           !StartsWith("/courses", SidebarSegments[2]) && !StartsWith("/courses", SidebarSegments[3]) by {
      assert "/courses"[1] == 'c';
    }
  }

  /** Wherever the frame shows the sidebar, both sidebars render, since the
      frame and the sidebar agree that a user is signed in. */
  lemma ShownSidebarRenders(user: Option<User>, pathname: Option<string>, collapsed: bool)
    requires ShowSidebar(user, pathname)
    ensures Sidebar.Render(user, Sidebar.Desktop, collapsed, pathname.value).Some?
    ensures Sidebar.Render(user, Sidebar.Mobile, collapsed, pathname.value).Some?
  {
  }

  /** The frame's state: whether the mobile navigation sheet is open. */
  class ShellState {
    var sidebarOpen: bool

    constructor ()
      ensures !sidebarOpen
    {
      sidebarOpen := false;
    }

    /** The top bar's menu button: `setSidebarOpen(true)`. */
    method OpenSidebar()
      modifies this
      ensures sidebarOpen
    {
      sidebarOpen := true;
    }

    /** The sheet's `onOpenChange`. */
    method SetSidebarOpen(open: bool)
      modifies this
      ensures sidebarOpen == open
    {
      sidebarOpen := open;
    }

    /** A link followed in the mobile sidebar: `setSidebarOpen(false)`. */
    method NavigateMobile()
      modifies this
      ensures !sidebarOpen
    {
      sidebarOpen := false;
    }
  }
}
