/**
 * The admin sidebar (`AdminSidebar.jsx`): hidden when closed, six links with
 * a prefix-based highlight (except for the dashboard), and a logout that asks
 * for confirmation first.
 */
module AdminSidebar {
  import opened Strings
  import opened JsValues

  datatype Link = Link(name: string, href: string, isLogout: bool)

  const Dashboard := "/admin/dashboard"

  const NavLinks: seq<Link> := [
    Link("Dashboard", Dashboard, false),
    Link("Manage Users", "/admin/users", false),
    Link("Docs", "/admin/docs", false),
    Link("Logs", "/admin/logs", false),
    Link("Settings", "/admin/settings", false),
    Link("Logout", "/admin/logout", true)
  ]

  /**
   * `pathname === href || (href !== "/admin/dashboard" && pathname?.startsWith(href))`;
   * a missing path name highlights nothing.
   */
  predicate IsActive(pathname: Option<string>, href: string) {
    pathname.Some? && (pathname.value == href || (href != Dashboard && StartsWith(pathname.value, href)))
  }

  /** A rendered link: the link and whether it is highlighted. */
  datatype Item = Item(link: Link, active: bool)

  /** The sidebar: nothing when closed, otherwise every link in order with its highlight. */
  function Render(isOpen: bool, pathname: Option<string>): (r: Option<seq<Item>>)
    ensures r.None? <==> !isOpen
    ensures r.Some? ==> |r.value| == |NavLinks|
    ensures r.Some? ==> forall i :: 0 <= i < |NavLinks| ==>
      r.value[i].link == NavLinks[i] && (r.value[i].active <==> IsActive(pathname, NavLinks[i].href))
  {
    if !isOpen then None
    else Some(seq(|NavLinks|, i requires 0 <= i < |NavLinks| => Item(NavLinks[i], IsActive(pathname, NavLinks[i].href))))
  }

  /** The dashboard is highlighted on its own page only, never on a page below it. */
  lemma DashboardExactOnly(pathname: string)
    ensures IsActive(Some(pathname), Dashboard) <==> pathname == Dashboard
  {
  }

  /** Any other link is highlighted on every path that starts with its text. */
  lemma PrefixHighlights(href: string, rest: string)
    requires href != Dashboard
    ensures IsActive(Some(href + rest), href)
  {
    assert (href + rest)[..|href|] == href;
  }

  /** So "/admin/usersX", which is not a page below "/admin/users", still highlights Manage Users. */
  lemma UsersPrefixQuirk()
    ensures IsActive(Some("/admin/usersX"), "/admin/users")
  {
    PrefixHighlights("/admin/users", "X");
  }

  /** A highlighted link fixes the path's character at every position within the link's text. */
  lemma ActiveFixes(pathname: Option<string>, href: string, k: nat)
    requires k < |href|
    ensures IsActive(pathname, href) ==> k < |pathname.value| && pathname.value[k] == href[k]
  {
    if IsActive(pathname, href) && pathname.value != href {
      assert pathname.value[..|href|][k] == href[k];
    }
  }

  /** No link's text starts another's, so whatever the path, at most one link is highlighted. */
  lemma AtMostOneActive(pathname: Option<string>, i: nat, j: nat)
    requires i < j < |NavLinks|
    ensures !(IsActive(pathname, NavLinks[i].href) && IsActive(pathname, NavLinks[j].href))
  {
    var a := NavLinks[i].href;
    var b := NavLinks[j].href;
    var k := if a[7] != b[7] then 7 else if a[8] != b[8] then 8 else 10;
    assert k < |a| && k < |b| && a[k] != b[k];
    ActiveFixes(pathname, a, k);
    ActiveFixes(pathname, b, k);
  }

  // ---------------------------------------------------------------------------
  // Logout

  /** What a click on Logout leaves: the storage and where the browser goes, if anywhere. */
  datatype AfterLogout = AfterLogout(storage: Storage, redirect: Option<string>)

  const AdminLogin := "/admin-login"

  /** `handleLogout`: with the user's confirmation, drop the admin session and go to the admin login page. */
  function Logout(storage: Storage, confirmed: bool): (r: AfterLogout)
    ensures !confirmed ==> r == AfterLogout(storage, None)
    ensures confirmed ==> r.redirect == Some(AdminLogin)
    ensures confirmed ==> "adminUser" !in r.storage && "adminToken" !in r.storage
    ensures forall k :: k in storage && k != "adminUser" && k != "adminToken" ==> k in r.storage && r.storage[k] == storage[k]
    ensures r.storage.Keys <= storage.Keys
  {
    if confirmed then AfterLogout(storage - {"adminUser", "adminToken"}, Some(AdminLogin)) else AfterLogout(storage, None)
  }

  /** Logging out of the admin area leaves the ordinary user's token in place. */
  lemma LogoutKeepsUserToken(storage: Storage, confirmed: bool)
    ensures Token(Logout(storage, confirmed).storage) == Token(storage)
  {
  }

  /** A second confirmed logout changes nothing more. */
  lemma LogoutIdempotent(storage: Storage)
    ensures Logout(Logout(storage, true).storage, true) == Logout(storage, true)
  {
  }
}
