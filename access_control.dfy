/** Which paths are public, where each role lands after signing in, which
    paths a role may open, and which navigation entries it sees. */
module AccessControl {
  import opened Wrappers
  import opened Text
  import opened Seqs
  import opened Domain

  const LOGIN_PATH := "/login"
  const STUDENTS_PATH := "/students"
  const HOME_PATH := "/"

  /** An entry of the sidebar navigation. */
  datatype NavItem = NavItem(title: string, href: string)

  const NAV_ITEMS: seq<NavItem> := [
    NavItem("Dashboard", "/"),
    NavItem("Finance", "/finance"),
    NavItem("Students", "/students"),
    NavItem("Access Management", "/access-management"),
    NavItem("AI Agents", "/agents"),
    NavItem("Settings", "/settings")
  ]

  /** The login page and everything below it. */
  predicate IsPublicPath(path: string) {
    path == LOGIN_PATH || StartsWith(path, LOGIN_PATH + "/")
  }

  function DefaultPathForRole(role: AppRole): (path: string)
    ensures role == StudentsOnly ==> path == STUDENTS_PATH
    ensures role == Admin ==> path == HOME_PATH
  {
    if role == StudentsOnly then STUDENTS_PATH else HOME_PATH
  }

  /** The student pages: "/students" and everything below it. */
  predicate IsStudentsPath(path: string) {
    path == STUDENTS_PATH || StartsWith(path, STUDENTS_PATH + "/")
  }

  predicate CanRoleAccessPath(role: AppRole, path: string) {
    if IsPublicPath(path) then true
    else if role == Admin then true
    else IsStudentsPath(path)
  }

  /** Public pages are open to every role, admins open every page, and a
      student-only account opens a non-public page exactly when it is a
      student page. */
  lemma AccessRules(role: AppRole, path: string)
    ensures IsPublicPath(path) ==> CanRoleAccessPath(role, path)
    ensures role == Admin ==> CanRoleAccessPath(role, path)
    ensures role == StudentsOnly && !IsPublicPath(path) ==>
              (CanRoleAccessPath(role, path) <==> (path == "/students" || StartsWith(path, "/students/")))
  {
  }

  /** A public path is "/login" itself or starts with "/login/"; "/loginx" is not public. */
  lemma PublicPathShape(path: string)
    ensures IsPublicPath(path) <==> (path == "/login" || (|path| >= 7 && path[..7] == "/login/"))
    ensures !IsPublicPath("/loginx")
  {
    assert !StartsWith("/loginx", "/login/") by {
      assert "/loginx"[6] != "/login/"[6];
    }
  }

  /** Every role may open the page it is sent to by default. */
  lemma DefaultPathAccessible(role: AppRole)
    ensures CanRoleAccessPath(role, DefaultPathForRole(role))
    ensures !IsPublicPath(DefaultPathForRole(role))
  {
    assert STUDENTS_PATH[1] != LOGIN_PATH[1];
  }

  /** The sidebar entries shown for a role: all of them when sign-in is
      switched off or the role is unknown, otherwise the reachable ones. */
  function FilterNavItemsByRole(items: seq<NavItem>, role: Option<AppRole>, authEnabled: bool): (r: seq<NavItem>)
    ensures !authEnabled || role.None? ==> r == items
    ensures authEnabled && role.Some? ==>
              forall item :: item in r <==> item in items && CanRoleAccessPath(role.value, item.href)
  {
    if !authEnabled || role.None? then items
    else Filter(items, (item: NavItem) => CanRoleAccessPath(role.value, item.href))
  }

  /** The filtered entries keep their sidebar order. */
  lemma FilterNavItemsKeepsOrder(items: seq<NavItem>, role: Option<AppRole>, authEnabled: bool)
    ensures IsSubsequence(FilterNavItemsByRole(items, role, authEnabled), items)
  {
    if authEnabled && role.Some? {
      FilterIsSubsequence(items, (item: NavItem) => CanRoleAccessPath(role.value, item.href));
    } else {
      SubsequenceReflexive(items);
    }
  }

  /** A path whose second character is neither that of "/login" nor the
      start of "/st…" is closed to a student-only account. */
  lemma ClosedToStudentsOnly(path: string)
    requires |path| >= 3 && path[1] != 'l' && (path[1] != 's' || path[2] != 't')
    ensures !CanRoleAccessPath(StudentsOnly, path)
  {
    assert LOGIN_PATH[1] == 'l' && (LOGIN_PATH + "/")[1] == 'l';
    assert STUDENTS_PATH[1..3] == "st" && (STUDENTS_PATH + "/")[1..3] == "st";
  }

  /** Finance, access management, agents and settings are closed to a
      student-only account. */
  lemma NavItemClosedToStudentsOnly(k: nat)
    requires k == 1 || 3 <= k <= 5
    ensures !CanRoleAccessPath(StudentsOnly, NAV_ITEMS[k].href)
  {
    if k == 1 {
      ClosedToStudentsOnly("/finance");
    } else if k == 3 {
      ClosedToStudentsOnly("/access-management");
    } else if k == 4 {
      ClosedToStudentsOnly("/agents");
    } else {
      ClosedToStudentsOnly("/settings");
    }
  }

  /** A student-only account sees only the "Students" entry. */
  lemma NavItemsForStudentsOnly()
    ensures FilterNavItemsByRole(NAV_ITEMS, Some(StudentsOnly), true) == [NavItem("Students", "/students")]
  {
    var p := (item: NavItem) => CanRoleAccessPath(StudentsOnly, item.href);
    assert !p(NAV_ITEMS[0]);
    NavItemClosedToStudentsOnly(1);
    assert p(NAV_ITEMS[2]);
    NavItemClosedToStudentsOnly(3);
    NavItemClosedToStudentsOnly(4);
    NavItemClosedToStudentsOnly(5);
    assert Filter(NAV_ITEMS[6..], p) == [];
    assert Filter(NAV_ITEMS[5..], p) == [] by { assert NAV_ITEMS[5..][1..] == NAV_ITEMS[6..]; }
    assert Filter(NAV_ITEMS[4..], p) == [] by { assert NAV_ITEMS[4..][1..] == NAV_ITEMS[5..]; }
    assert Filter(NAV_ITEMS[3..], p) == [] by { assert NAV_ITEMS[3..][1..] == NAV_ITEMS[4..]; }
    assert Filter(NAV_ITEMS[2..], p) == [NAV_ITEMS[2]] by { assert NAV_ITEMS[2..][1..] == NAV_ITEMS[3..]; }
    assert Filter(NAV_ITEMS[1..], p) == [NAV_ITEMS[2]] by { assert NAV_ITEMS[1..][1..] == NAV_ITEMS[2..]; }
  }

  /** An admin sees all six entries. */
  lemma NavItemsForAdmin()
    ensures FilterNavItemsByRole(NAV_ITEMS, Some(Admin), true) == NAV_ITEMS
  {
    FilterKeepsAll(NAV_ITEMS, (item: NavItem) => CanRoleAccessPath(Admin, item.href));
  }
}
