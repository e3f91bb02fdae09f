/** Which entries of the participant sidebar are highlighted for the current
    pathname. Icons and rendering are not modelled. */
module SidebarNav {
  import opened Wrappers

  datatype NavItem = NavItem(title: string, url: string)

  const DashboardUrl := "/dashboard"

  /** The sidebar's entries, in order. */
  const Items: seq<NavItem> := [
    NavItem("Overview", DashboardUrl),
    NavItem("My Registration", "/dashboard/registration"),
    NavItem("Event Schedule", "/dashboard/schedule"),
    NavItem("Meal Ticket", "/dashboard/meals"),
    NavItem("Workshops", "/dashboard/workshops"),
    NavItem("My Group", "/dashboard/group"),
    NavItem("Submissions", "/dashboard/submissions"),
    NavItem("Settings", "/dashboard/settings")
  ]

  /** `s.startsWith(prefix)` */
  predicate StartsWith(s: string, prefix: string) {
    |prefix| <= |s| && s[..|prefix|] == prefix
  }

  /** `pathname === url || (pathname?.startsWith(url) && url !== "/dashboard")`,
      where an absent pathname (null or undefined) equals no url and its
      optional call yields a falsy `undefined`. */
  predicate IsActive(pathname: Option<string>, url: string) {
    pathname == Some(url) || (pathname.Some? && StartsWith(pathname.value, url) && url != DashboardUrl)
  }

  /** An entry is active on its own url. */
  lemma ActiveOnOwnUrl(url: string)
    ensures IsActive(Some(url), url)
  {
  }

  /** The overview entry is active only on exactly `/dashboard`. */
  lemma DashboardExactOnly(pathname: Option<string>)
    ensures IsActive(pathname, DashboardUrl) <==> pathname == Some(DashboardUrl)
  {
  }

  /** Any other entry is active exactly on the pathnames its url is a plain
      string prefix of, segment boundary or not. */
  lemma {:induction false} OtherEntriesByPrefix(pathname: string, url: string)
    requires url != DashboardUrl
    ensures IsActive(Some(pathname), url) <==> StartsWith(pathname, url)
  {
    if pathname == url {
      assert pathname[..|url|] == url;
    }
  }

  /** `/dashboard/mealsX` highlights the meal entry, though it is not a
      sub-path of it. */
  lemma {:induction false} NonSegmentPrefix()
    ensures IsActive(Some("/dashboard/mealsX"), "/dashboard/meals")
  {
    assert "/dashboard/mealsX"[..|"/dashboard/meals"|] == "/dashboard/meals";
  }

  /** Without a pathname nothing is highlighted. */
  lemma NoPathnameNothingActive(url: string)
    ensures !IsActive(None, url)
  {
  }

  /** The entries active for `pathname`, as a set of indices into `Items`. */
  function ActiveItems(pathname: Option<string>): set<nat> {
    set i: nat | i < |Items| && IsActive(pathname, Items[i].url)
  }

  /** On `/dashboard/registration/edit` exactly the registration entry is active. */
  lemma {:induction false} RegistrationEditActivatesRegistration()
    ensures ActiveItems(Some("/dashboard/registration/edit")) == {1}
  {
    var p := "/dashboard/registration/edit";
    assert StartsWith(p, Items[1].url);
    assert !StartsWith(p, Items[2].url) by { assert p[11] != Items[2].url[11]; }
    assert !StartsWith(p, Items[3].url) by { assert p[11] != Items[3].url[11]; }
    assert !StartsWith(p, Items[4].url) by { assert p[11] != Items[4].url[11]; }
    assert !StartsWith(p, Items[5].url) by { assert p[11] != Items[5].url[11]; }
    assert !StartsWith(p, Items[6].url) by { assert p[11] != Items[6].url[11]; }
    assert !StartsWith(p, Items[7].url) by { assert p[11] != Items[7].url[11]; }
    var r := ActiveItems(Some(p));
    forall i: nat | i < |Items|
      ensures i in r <==> i == 1
    {
      if i == 0 {
        assert |p| != |DashboardUrl|;
      }
    }
  }
}
