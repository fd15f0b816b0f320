/**
 * The navigation bar of components/layout/navbar.tsx: six fixed links and
 * the rule that decides which of them is highlighted for the current
 * pathname.
 */
module Navbar {
  import Text

  /** A navigation link; its icon and colours are presentation and are left out. */
  datatype NavItem = NavItem(href: string, title: string)

  const NavItems: seq<NavItem> := [
    NavItem("/", "Home"),
    NavItem("/characters", "Characters"),
    NavItem("/episodes", "Episodes"),
    NavItem("/locations", "Locations"),
    NavItem("/favorites", "Favorites"),
    NavItem("/stats", "Stats")
  ]

  /** `isRouteActive`: home only on "/" itself, any other link on its own path and every path below it. */
  predicate IsRouteActive(pathname: string, href: string) {
    if href == "/" then pathname == "/"
    else pathname == href || Text.StartsWith(pathname, href + "/")
  }

  /** A top-level section link: "/" followed by a non-empty name without "/". */
  predicate IsSection(href: string) {
    |href| >= 2 && href[0] == '/' && '/' !in href[1..]
  }

  /** A section is active on its page and on every page below it, and on no other page that merely shares its spelling. */
  lemma {:induction false} SectionActive(href: string, rest: string)
    requires IsSection(href)
    ensures IsRouteActive(href, href)
    ensures IsRouteActive(href + "/" + rest, href)
    ensures rest != "" && rest[0] != '/' ==> !IsRouteActive(href + rest, href)
  {
    var p := href + "/" + rest;
    assert p[..|href + "/"|] == href + "/";
    if rest != "" && rest[0] != '/' {
      var q := href + rest;
      assert q[|href|] != (href + "/")[|href|];
    }
  }

  /** The home link is active exactly on "/". */
  lemma HomeActiveOnlyAtRoot(pathname: string)
    ensures IsRouteActive(pathname, "/") <==> pathname == "/"
  {
  }

  /** While a section is active, every other section is inactive. */
  lemma {:induction false} SectionsExclusive(pathname: string, h1: string, h2: string)
    requires IsSection(h1) && IsSection(h2) && h1 != h2
    requires IsRouteActive(pathname, h2)
    ensures !IsRouteActive(pathname, h1)
  {
    // The pathname begins with h2, and continues, if at all, with '/'.
    assert pathname[..|h2|] == h2 by {
      if pathname != h2 { assert pathname[..|h2 + "/"|] == h2 + "/"; }
    }
    if |h1| < |h2| {
      // Where h1 would need '/' after it, the pathname has a letter of h2's name.
      assert h2[1..][|h1| - 1] == h2[|h1|];
      assert pathname[|h1|] == h2[|h1|] != '/';
      assert pathname[|h1|] != (h1 + "/")[|h1|];
    } else if |h1| > |h2| {
      // Where h1 has a letter of its name, the pathname ends or has '/'.
      assert h1[1..][|h2| - 1] == h1[|h2|] != '/';
      if pathname != h2 {
        assert pathname[..|h2 + "/"|] == h2 + "/";
        assert pathname[|h2|] == '/';
        assert pathname[|h2|] != h1[|h2|];
        assert pathname[|h2|] != (h1 + "/")[|h2|];
      }
    } else {
      assert pathname[..|h1|] != h1;
    }
  }

  /** Every link but home is a section, and the six links are distinct. */
  lemma NavItemsShape()
    ensures |NavItems| == 6 && NavItems[0].href == "/"
    ensures forall i :: 1 <= i < |NavItems| ==> IsSection(NavItems[i].href)
    ensures forall i, j :: 0 <= i < j < |NavItems| ==> NavItems[i].href != NavItems[j].href
  {
    forall i | 1 <= i < |NavItems|
      ensures IsSection(NavItems[i].href)
    {
      var h := NavItems[i].href;
      assert forall k :: 1 <= k < |h| ==> h[k] != '/';
      assert forall k :: 0 <= k < |h[1..]| ==> h[1..][k] == h[k + 1];
    }
  }

  /** Whatever the pathname, at most one link in the bar is highlighted. */
  lemma {:induction false} AtMostOneActive(pathname: string)
    ensures forall i, j ::
              (0 <= i < |NavItems| && 0 <= j < |NavItems| &&
               IsRouteActive(pathname, NavItems[i].href) && IsRouteActive(pathname, NavItems[j].href)) ==> i == j
  {
    NavItemsShape();
    forall i, j | 0 <= i < j < |NavItems|
      ensures !IsRouteActive(pathname, NavItems[i].href) || !IsRouteActive(pathname, NavItems[j].href)
    {
      if IsRouteActive(pathname, NavItems[j].href) {
        if i == 0 {
          assert |pathname| >= 2;
        } else {
          SectionsExclusive(pathname, NavItems[i].href, NavItems[j].href);
        }
      }
    }
  }

  /** A character's page highlights "Characters" and nothing else. */
  lemma CharacterPageHighlightsCharacters()
    ensures forall i :: 0 <= i < |NavItems| ==>
              (IsRouteActive("/characters/42", NavItems[i].href) <==> NavItems[i].href == "/characters")
  {
    SectionActive("/characters", "42");
    assert "/characters" + "/" + "42" == "/characters/42";
    AtMostOneActive("/characters/42");
    assert NavItems[1].href == "/characters";
  }
}
