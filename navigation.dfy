/**
 * Who sees and reaches which page: the sidebar and header menus filtered
 * by role, the route guard and the admin-only routes, and the page title
 * the main layout derives from the path.
 */
module Navigation {
  import opened Common
  import opened Text
  import opened Entities

  /** The role as the text the checks compare. */
  function RoleName(r: Role): string {
    match r
    case Admin => "admin"
    case Staff => "staff"
    case OtherRole(n) => n
  }

  datatype NavItem = NavItem(href: string, name: string)

  /** The sidebar's entries, in order (the settings entry is commented out there). */
  const SidebarItems: seq<NavItem> := [
    NavItem("/dashboard", "Tổng quan"),
    NavItem("/pos", "Đặt bàn"),
    NavItem("/tables", "Quản lý bàn"),
    NavItem("/products", "Quản lý sản phẩm"),
    NavItem("/orders", "Quản lý đơn hàng"),
    NavItem("/customers", "Quản lý khách hàng")
  ]

  /** The pages the sidebar hides from staff. */
  const SidebarStaffHidden: seq<string> := ["/dashboard", "/tables", "/customers", "/settings"]

  /** The header menu's entries, in order. */
  const HeaderItems: seq<NavItem> := [
    NavItem("/dashboard", "Tổng quan"),
    NavItem("/pos", "Đặt bàn"),
    NavItem("/products", "Sản phẩm"),
    NavItem("/orders", "Đơn hàng"),
    NavItem("/customers", "Khách hàng"),
    NavItem("/settings", "Thiết lập")
  ]

  /** The pages the header menu hides from staff. */
  const HeaderStaffHidden: seq<string> := ["/dashboard", "/customers", "/settings"]

  /** Whether a menu shows an entry: nobody logged in sees nothing, admin everything, staff what is not hidden, other roles nothing. */
  predicate Visible(item: NavItem, user: Option<User>, staffHidden: seq<string>) {
    user.Some?
    && (RoleName(user.value.role) == "admin"
        || (RoleName(user.value.role) == "staff" && item.href !in staffHidden))
  }

  /** The menu filter's test, as a value. */
  function VisibleTo(user: Option<User>, staffHidden: seq<string>): NavItem -> bool {
    (it: NavItem) => Visible(it, user, staffHidden)
  }

  /** `filteredNavItems`: the entries the user may see, in the menu's order. */
  function FilteredNav(items: seq<NavItem>, user: Option<User>, staffHidden: seq<string>): (r: seq<NavItem>)
    ensures Subsequence(r, items)
    ensures forall it :: it in r ==> it in items && Visible(it, user, staffHidden)
    ensures forall it :: it in items ==> (it in r <==> Visible(it, user, staffHidden))
    ensures user.None? ==> r == []
  {
    var r := Filter(items, VisibleTo(user, staffHidden));
    assert |r| > 0 ==> Visible(r[0], user, staffHidden);
    r
  }

  /** The hrefs of a menu, in order. */
  function Hrefs(items: seq<NavItem>): (r: seq<string>)
    ensures |r| == |items| && forall i :: 0 <= i < |items| ==> r[i] == items[i].href
  {
    seq(|items|, i requires 0 <= i < |items| => items[i].href)
  }

  /** An admin sees every sidebar entry, in the declared order. */
  lemma SidebarAdmin(u: User)
    requires RoleName(u.role) == "admin"
    ensures FilteredNav(SidebarItems, Some(u), SidebarStaffHidden) == SidebarItems
  {
    FilterAll(SidebarItems, VisibleTo(Some(u), SidebarStaffHidden));
  }

  /** One step of the filter: the head is kept or dropped, the rest is filtered. */
  lemma FilterCons<T(!new)>(x: T, s: seq<T>, p: T -> bool)
    ensures Filter([x] + s, p) == if p(x) then [x] + Filter(s, p) else Filter(s, p)
  {
    assert ([x] + s)[1..] == s;
  }

  /** The hrefs of a three-entry menu. */
  lemma HrefsOfThree(a: NavItem, b: NavItem, c: NavItem)
    ensures Hrefs([a] + ([b] + ([c] + []))) == [a.href, b.href, c.href]
  {
  }

  /** Which sidebar entries staff see. */
  lemma SidebarStaffVisibility(u: User)
    requires u.role == Staff
    ensures var p, s := VisibleTo(Some(u), SidebarStaffHidden), SidebarItems;
            !p(s[0]) && p(s[1]) && !p(s[2]) && p(s[3]) && p(s[4]) && !p(s[5])
  {
  }

  /** Which header entries staff see. */
  lemma HeaderStaffVisibility(u: User)
    requires u.role == Staff
    ensures var p, s := VisibleTo(Some(u), HeaderStaffHidden), HeaderItems;
            !p(s[0]) && p(s[1]) && p(s[2]) && p(s[3]) && !p(s[4]) && !p(s[5])
  {
  }

  /** Staff see the sidebar's POS, products and orders entries, in that order. */
  lemma SidebarStaff(u: User)
    requires u.role == Staff
    ensures Hrefs(FilteredNav(SidebarItems, Some(u), SidebarStaffHidden)) == ["/pos", "/products", "/orders"]
  {
    var p := VisibleTo(Some(u), SidebarStaffHidden);
    var s := SidebarItems;
    SidebarStaffVisibility(u);
    assert s == [s[0]] + ([s[1]] + ([s[2]] + ([s[3]] + ([s[4]] + ([s[5]] + [])))));
    FilterCons(s[5], [], p);
    FilterCons(s[4], [s[5]] + [], p);
    FilterCons(s[3], [s[4]] + ([s[5]] + []), p);
    FilterCons(s[2], [s[3]] + ([s[4]] + ([s[5]] + [])), p);
    FilterCons(s[1], [s[2]] + ([s[3]] + ([s[4]] + ([s[5]] + []))), p);
    FilterCons(s[0], [s[1]] + ([s[2]] + ([s[3]] + ([s[4]] + ([s[5]] + [])))), p);
    var r := Filter(s, p);
    assert r == [s[1]] + ([s[3]] + ([s[4]] + []));
    HrefsOfThree(s[1], s[3], s[4]);
  }

  /** Any other role sees no sidebar entry. */
  lemma SidebarOtherRole(u: User)
    requires RoleName(u.role) != "admin" && RoleName(u.role) != "staff"
    ensures FilteredNav(SidebarItems, Some(u), SidebarStaffHidden) == []
  {
  }

  /** An admin sees all six header entries, in the declared order. */
  lemma HeaderAdmin(u: User)
    requires RoleName(u.role) == "admin"
    ensures FilteredNav(HeaderItems, Some(u), HeaderStaffHidden) == HeaderItems
  {
    FilterAll(HeaderItems, VisibleTo(Some(u), HeaderStaffHidden));
  }

  /** Staff see the header's POS, products and orders entries, in that order. */
  lemma HeaderStaff(u: User)
    requires u.role == Staff
    ensures Hrefs(FilteredNav(HeaderItems, Some(u), HeaderStaffHidden)) == ["/pos", "/products", "/orders"]
  {
    var p := VisibleTo(Some(u), HeaderStaffHidden);
    var s := HeaderItems;
    HeaderStaffVisibility(u);
    assert s == [s[0]] + ([s[1]] + ([s[2]] + ([s[3]] + ([s[4]] + ([s[5]] + [])))));
    FilterCons(s[5], [], p);
    FilterCons(s[4], [s[5]] + [], p);
    FilterCons(s[3], [s[4]] + ([s[5]] + []), p);
    FilterCons(s[2], [s[3]] + ([s[4]] + ([s[5]] + [])), p);
    FilterCons(s[1], [s[2]] + ([s[3]] + ([s[4]] + ([s[5]] + []))), p);
    FilterCons(s[0], [s[1]] + ([s[2]] + ([s[3]] + ([s[4]] + ([s[5]] + [])))), p);
    var r := Filter(s, p);
    assert r == [s[1]] + ([s[2]] + ([s[3]] + []));
    HrefsOfThree(s[1], s[2], s[3]);
  }

  /** What the route guard renders. */
  datatype Decision = Render | Redirect(to: string)

  /** `ProtectedRoute`: not logged in goes to the login page; a role outside `allowedRoles` goes to its home page. */
  function Guard(isAuthenticated: bool, user: Option<User>, allowedRoles: Option<seq<string>>): (d: Decision)
    ensures !isAuthenticated ==> d == Redirect("/login")
    ensures isAuthenticated && allowedRoles.Some? && user.Some? && RoleName(user.value.role) !in allowedRoles.value
            ==> d == Redirect(if RoleName(user.value.role) == "admin" then "/dashboard" else "/pos")
    ensures d == Render <==> isAuthenticated && (allowedRoles.None? || user.None? || RoleName(user.value.role) in allowedRoles.value)
  {
    if !isAuthenticated then Redirect("/login")
    else if allowedRoles.Some? && user.Some? && RoleName(user.value.role) !in allowedRoles.value then
      Redirect(if RoleName(user.value.role) == "admin" then "/dashboard" else "/pos")
    else Render
  }

  /** The pages behind the guard. */
  datatype Page = Root | Dashboard | Tables | Customers | Settings | Products | Orders | Pos

  function PagePath(p: Page): string {
    match p
    case Root => "/"
    case Dashboard => "/dashboard"
    case Tables => "/tables"
    case Customers => "/customers"
    case Settings => "/settings"
    case Products => "/products"
    case Orders => "/orders"
    case Pos => "/pos"
  }

  /** The dashboard, tables, customers and settings pages sit behind a second, admin-only guard. */
  predicate AdminOnly(p: Page) {
    p == Dashboard || p == Tables || p == Customers || p == Settings
  }

  /**
   * The route table: the outer guard first; then the root redirects to the
   * dashboard, the admin-only pages pass the inner guard, and the others render.
   */
  function Access(p: Page, isAuthenticated: bool, user: Option<User>): (d: Decision)
    ensures !isAuthenticated ==> d == Redirect("/login")
    ensures isAuthenticated && p == Root ==> d == Redirect("/dashboard")
    ensures isAuthenticated && !AdminOnly(p) && p != Root ==> d == Render
    ensures isAuthenticated && AdminOnly(p) ==> d == Guard(true, user, Some(["admin"]))
  {
    var outer := Guard(isAuthenticated, user, None);
    if outer != Render then outer
    else if p == Root then Redirect("/dashboard")
    else if AdminOnly(p) then Guard(isAuthenticated, user, Some(["admin"]))
    else Render
  }

  /** A logged-in staff member sent to an admin-only page lands on the POS page; an admin reaches every page. */
  lemma StaffAndAdminAccess(p: Page, u: User)
    requires p != Root
    ensures u.role == Staff && AdminOnly(p) ==> Access(p, true, Some(u)) == Redirect("/pos")
    ensures u.role == Admin ==> Access(p, true, Some(u)) == Render
  {
  }

  /** The sidebar hides every admin-only page from staff. */
  lemma AdminPagesHiddenInSidebar(p: Page)
    ensures AdminOnly(p) ==> PagePath(p) in SidebarStaffHidden
  {
    match p
    case Dashboard => assert SidebarStaffHidden[0] == PagePath(p);
    case Tables => assert SidebarStaffHidden[1] == PagePath(p);
    case Customers => assert SidebarStaffHidden[2] == PagePath(p);
    case Settings => assert SidebarStaffHidden[3] == PagePath(p);
    case _ =>
  }

  /** The header hides every admin-only page but the tables page from staff. */
  lemma AdminPagesHiddenInHeader(p: Page)
    ensures AdminOnly(p) && p != Tables ==> PagePath(p) in HeaderStaffHidden
  {
    match p
    case Dashboard => assert HeaderStaffHidden[0] == PagePath(p);
    case Customers => assert HeaderStaffHidden[1] == PagePath(p);
    case Settings => assert HeaderStaffHidden[2] == PagePath(p);
    case _ =>
  }

  /** Every sidebar entry a user sees leads to a page that user may open. */
  lemma SidebarMatchesRoutes(u: User, p: Page)
    requires p != Root
    ensures (exists it :: it in FilteredNav(SidebarItems, Some(u), SidebarStaffHidden) && it.href == PagePath(p))
            ==> Access(p, true, Some(u)) == Render
  {
    if exists it :: it in FilteredNav(SidebarItems, Some(u), SidebarStaffHidden) && it.href == PagePath(p) {
      var it :| it in FilteredNav(SidebarItems, Some(u), SidebarStaffHidden) && it.href == PagePath(p);
      AdminPagesHiddenInSidebar(p);
    }
  }

  /** The header has no entry for the tables page. */
  lemma HeaderHasNoTables(it: NavItem)
    requires it in HeaderItems
    ensures it.href != "/tables"
  {
    var i :| 0 <= i < |HeaderItems| && HeaderItems[i] == it;
  }

  /**
   * Every header entry a user sees leads to a page that user may open: the
   * header does not hide the tables page from staff, but it has no entry for it.
   */
  lemma HeaderMatchesRoutes(u: User, p: Page)
    requires p != Root
    ensures (exists it :: it in FilteredNav(HeaderItems, Some(u), HeaderStaffHidden) && it.href == PagePath(p))
            ==> Access(p, true, Some(u)) == Render
  {
    if exists it :: it in FilteredNav(HeaderItems, Some(u), HeaderStaffHidden) && it.href == PagePath(p) {
      var it :| it in FilteredNav(HeaderItems, Some(u), HeaderStaffHidden) && it.href == PagePath(p);
      HeaderHasNoTables(it);
      AdminPagesHiddenInHeader(p);
    }
  }

  /** `getTitle`: the first of the fixed prefixes the path starts with names the page; anything else is the overview. */
  function Title(path: string): (t: string)
    ensures t in {"Tổng quan", "Quản lý bàn", "Quản lý sản phẩm", "Quản lý đơn hàng", "Khách hàng", "Thiết lập"}
  {
    if StartsWith(path, "/dashboard") then "Tổng quan"
    else if StartsWith(path, "/tables") then "Quản lý bàn"
    else if StartsWith(path, "/products") then "Quản lý sản phẩm"
    else if StartsWith(path, "/orders") then "Quản lý đơn hàng"
    else if StartsWith(path, "/customers") then "Khách hàng"
    else if StartsWith(path, "/settings") then "Thiết lập"
    else "Tổng quan"
  }

  /** The six prefixes the title is chosen by, in the order they are tried. */
  const TitlePrefixes: seq<string> := ["/dashboard", "/tables", "/products", "/orders", "/customers", "/settings"]

  /** A path that starts with none of the prefixes gets the dashboard's title. */
  lemma UnmatchedIsOverview(path: string)
    requires forall i :: 0 <= i < |TitlePrefixes| ==> !StartsWith(path, TitlePrefixes[i])
    ensures Title(path) == Title("/dashboard") == "Tổng quan"
  {
    assert "/dashboard"[..10] == "/dashboard";
    assert !StartsWith(path, "/dashboard") by { assert TitlePrefixes[0] == "/dashboard"; }
    assert !StartsWith(path, "/tables") by { assert TitlePrefixes[1] == "/tables"; }
    assert !StartsWith(path, "/products") by { assert TitlePrefixes[2] == "/products"; }
    assert !StartsWith(path, "/orders") by { assert TitlePrefixes[3] == "/orders"; }
    assert !StartsWith(path, "/customers") by { assert TitlePrefixes[4] == "/customers"; }
    assert !StartsWith(path, "/settings") by { assert TitlePrefixes[5] == "/settings"; }
  }

  /** Matching is by raw prefix: anything after "/tables" still titles the tables page. */
  lemma PrefixMatch(rest: string)
    ensures Title("/tables" + rest) == "Quản lý bàn"
  {
    var path := "/tables" + rest;
    assert path[..7] == "/tables";
    assert !StartsWith(path, "/dashboard") by {
      if |path| >= 10 {
        assert path[1] == 't';
      }
    }
  }
}
