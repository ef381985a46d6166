// The navigation bar of src/components/navbar.tsx: the fixed list of links and which one is
// highlighted, the home-page test, the mobile-menu toggle, the light/dark theme flip and the
// three-way language cycle, which goes through the language provider's setter.

module Navbar {
  import opened Types
  import LanguageContext

  /** A navigation entry: the navbar dictionary key of its label and its target path. */
  datatype NavItem = NavItem(labelKey: string, href: string)

  /** The links in display order. */
  const NavItems: seq<NavItem> := [
    NavItem("home", "/"),
    NavItem("about", "/about"),
    NavItem("portfolio", "/projects"),
    NavItem("gallery", "/gallery"),
    NavItem("contact", "/contact")
  ]

  const Dark := "dark"
  const Light := "light"

  /** Position of a language in the cycle en, vi, ja. */
  function CycleIndex(l: Language): (i: nat)
    ensures i < 3
  {
    match l
    case En => 0
    case Vi => 1
    case Ja => 2
  }

  /** `cycleLanguage`'s choice: en to vi, vi to ja, anything else to en. */
  function NextLanguage(l: Language): (r: Language)
    ensures CycleIndex(r) == (CycleIndex(l) + 1) % 3
    ensures r != l
  {
    if l == En then Vi
    else if l == Vi then Ja
    else En
  }

  /** The theme the toggle sets: `light` after `dark`, `dark` after anything else (unset included). */
  function FlipTheme(theme: Option<string>): (r: string)
    ensures r == Light <==> theme == Some(Dark)
    ensures r == Dark <==> theme != Some(Dark)
  {
    if theme == Some(Dark) then Light else Dark
  }

  /** The bar is transparent exactly on the home page. */
  predicate IsHomePage(pathname: string)
  {
    pathname == "/"
  }

  /** An entry is highlighted when the path is exactly its target (desktop and mobile lists alike). */
  predicate IsActive(pathname: string, item: NavItem)
  {
    pathname == item.href
  }

  /** The highlight flags of the entries, in display order. */
  function Highlights(pathname: string): (flags: seq<bool>)
    ensures |flags| == |NavItems|
    ensures forall i :: 0 <= i < |NavItems| ==> (flags[i] <==> IsActive(pathname, NavItems[i]))
  {
    seq(|NavItems|, i requires 0 <= i < |NavItems| => IsActive(pathname, NavItems[i]))
  }

  /** The per-page state of the bar: the mobile-menu flag, the current theme and path, and the provider it uses. */
  class NavbarState {
    var isOpen: bool
    /** The theme `next-themes` reports; unset before it has resolved one. */
    var theme: Option<string>
    const pathname: string
    const provider: LanguageContext.LanguageProvider

    /** The bar starts with the mobile menu closed. */
    constructor(pathname: string, theme: Option<string>, provider: LanguageContext.LanguageProvider)
      ensures !isOpen && this.theme == theme
      ensures this.pathname == pathname && this.provider == provider
    {
      isOpen := false;
      this.theme := theme;
      this.pathname := pathname;
      this.provider := provider;
    }

    /** The menu button: open a closed menu, close an open one. */
    method ToggleMenu()
      modifies this
      ensures isOpen == !old(isOpen)
      ensures theme == old(theme)
    {
      isOpen := !isOpen;
    }

    /** Choosing a link in the mobile menu closes it. */
    method FollowMobileLink()
      modifies this
      ensures !isOpen
      ensures theme == old(theme)
    {
      isOpen := false;
    }

    /**
     * `toggleTheme`: with or without view transitions, the theme becomes the flip of the
     * current one; the transition only animates the change.
     */
    method ToggleTheme(viewTransitions: bool)
      modifies this
      ensures theme == Some(FlipTheme(old(theme)))
      ensures isOpen == old(isOpen)
    {
      if !viewTransitions {
        theme := Some(FlipTheme(theme));
        return;
      }
      // the callback handed to startViewTransition
      theme := Some(FlipTheme(theme));
    }

    /** `cycleLanguage`: move the provider to the next language, persisting it like any change. */
    method CycleLanguage()
      modifies provider
      ensures provider.language == NextLanguage(old(provider.language))
      ensures provider.isMounted == old(provider.isMounted)
      ensures provider.inBrowser ==> provider.storage == old(provider.storage)[LanguageContext.StorageKey := provider.language.Code()]
      ensures !provider.inBrowser ==> provider.storage == old(provider.storage)
    {
      if provider.language == En {
        provider.SetLanguage(Vi);
      } else if provider.language == Vi {
        provider.SetLanguage(Ja);
      } else {
        provider.SetLanguage(En);
      }
    }
  }

  // ---------------------------------------------------------------------------
  // Properties
  // ---------------------------------------------------------------------------

  /** Three presses of the language button come back to the starting language, and no fewer do. */
  lemma CycleReturnsAfterThree(l: Language)
    ensures NextLanguage(NextLanguage(NextLanguage(l))) == l
    ensures NextLanguage(NextLanguage(l)) != l
  {
  }

  /** The cycle reaches every language from every language. */
  lemma CycleReachesAll(from: Language, to: Language)
    ensures to == from || to == NextLanguage(from) || to == NextLanguage(NextLanguage(from))
  {
  }

  /** Two toggles restore a resolved theme; after any toggle the theme is one of the two. */
  lemma FlipTwiceRestores(theme: Option<string>)
    ensures theme == Some(Dark) || theme == Some(Light) ==> FlipTheme(Some(FlipTheme(theme))) == theme.value
    ensures FlipTheme(Some(FlipTheme(Some(FlipTheme(theme))))) == FlipTheme(theme)
  {
  }

  /** The targets are pairwise distinct, so at most one entry is highlighted on any page. */
  lemma AtMostOneActive(pathname: string, i: nat, j: nat)
    requires i < |NavItems| && j < |NavItems|
    requires Highlights(pathname)[i] && Highlights(pathname)[j]
    ensures i == j
  {
    assert NavItems[i].href == NavItems[j].href;
    assert forall a, b :: 0 <= a < b < |NavItems| ==> NavItems[a].href != NavItems[b].href;
  }

  /** The home entry is highlighted exactly on the home page, and then it is the only one. */
  lemma HomeHighlightsFirst(pathname: string)
    ensures Highlights(pathname)[0] <==> IsHomePage(pathname)
    ensures IsHomePage(pathname) ==> forall i :: 1 <= i < |NavItems| ==> !Highlights(pathname)[i]
  {
  }

  /** A path outside the five targets highlights nothing. */
  lemma UnknownPathHighlightsNothing(pathname: string)
    requires forall item :: item in NavItems ==> item.href != pathname
    ensures forall i :: 0 <= i < |NavItems| ==> !Highlights(pathname)[i]
  {
    forall i | 0 <= i < |NavItems| ensures !Highlights(pathname)[i] {
      assert NavItems[i] in NavItems;
    }
  }
}
