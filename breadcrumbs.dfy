/**
 * The page header's breadcrumb trail (`generateBreadcrumbs`): Home, then the
 * navigation item the current path belongs to, then the sub-page when the path
 * is one of the item's sub-links. The navigation data is a parameter.
 */
module Breadcrumbs {
  import opened Wrappers

  /** A sub-link under a navigation item. */
  datatype NavLink = NavLink(title: string, url: string)

  /** A top-level navigation item, with its optional sub-links. */
  datatype NavItem = NavItem(title: string, url: string, items: Option<seq<NavLink>>)

  /** One breadcrumb; `isCurrent` marks the page being shown. */
  datatype Crumb = Crumb(title: string, url: string, isCurrent: bool)

  /** `links.find(sub => sub.url === pathname)`, as an index. */
  function FindLink(links: seq<NavLink>, pathname: string): (k: Option<nat>)
    ensures k.None? <==> forall i :: 0 <= i < |links| ==> links[i].url != pathname
    ensures k.Some? ==> k.value < |links| && links[k.value].url == pathname
                        && forall i :: 0 <= i < k.value ==> links[i].url != pathname
  {
    if links == [] then None
    else if links[0].url == pathname then Some(0)
    else
      match FindLink(links[1..], pathname)
      case None => None
      case Some(k) => Some(k + 1)
  }

  /** An item matches when its own url is the path or one of its sub-links is (`items?.some(...)`). */
  predicate Matches(item: NavItem, pathname: string)
    ensures Matches(item, pathname) <==>
      || item.url == pathname
      || (item.items.Some? && exists j :: 0 <= j < |item.items.value| && item.items.value[j].url == pathname)
  {
    item.url == pathname || (item.items.Some? && FindLink(item.items.value, pathname).Some?)
  }

  /** `navigationData.find(...)`: the first matching item, as an index. */
  function FindItem(nav: seq<NavItem>, pathname: string): (k: Option<nat>)
    ensures k.None? <==> forall i :: 0 <= i < |nav| ==> !Matches(nav[i], pathname)
    ensures k.Some? ==> k.value < |nav| && Matches(nav[k.value], pathname)
                        && forall i :: 0 <= i < k.value ==> !Matches(nav[i], pathname)
  {
    if nav == [] then None
    else if Matches(nav[0], pathname) then Some(0)
    else
      match FindItem(nav[1..], pathname)
      case None => None
      case Some(k) => Some(k + 1)
  }

  /** `generateBreadcrumbs(pathname)` over the navigation data `nav`. */
  method GenerateBreadcrumbs(pathname: string, nav: seq<NavItem>) returns (crumbs: seq<Crumb>)
    ensures 1 <= |crumbs| <= 3
    ensures crumbs[0] == Crumb("Home", "/", pathname == "/")
    ensures pathname == "/" || FindItem(nav, pathname).None? ==> |crumbs| == 1
    ensures pathname != "/" && FindItem(nav, pathname).Some? ==>
      var item := nav[FindItem(nav, pathname).value];
      && |crumbs| >= 2 && crumbs[1] == Crumb(item.title, item.url, item.url == pathname)
      && (|crumbs| == 3 <==> item.url != pathname)
      && (item.url != pathname ==>
            && item.items.Some? && FindLink(item.items.value, pathname).Some?
            && var link := item.items.value[FindLink(item.items.value, pathname).value];
               crumbs[2] == Crumb(link.title, pathname, true))
      && crumbs[|crumbs| - 1].isCurrent
      && forall i :: 0 <= i < |crumbs| - 1 ==> !crumbs[i].isCurrent
    ensures forall i :: 0 <= i < |crumbs| && crumbs[i].isCurrent ==> crumbs[i].url == pathname
  {
    crumbs := [];
    crumbs := crumbs + [Crumb("Home", "/", pathname == "/")];
    var found := FindItem(nav, pathname);
    if found.Some? && pathname != "/" {
      var item := nav[found.value];
      crumbs := crumbs + [Crumb(item.title, item.url, item.url == pathname)];
      if item.url != pathname {
        var sub := if item.items.Some? then FindLink(item.items.value, pathname) else None;
        if sub.Some? {
          var link := item.items.value[sub.value];
          crumbs := crumbs + [Crumb(link.title, link.url, true)];
        }
      }
    }
  }
}
