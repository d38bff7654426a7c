/**
 * The state of the `Menu` component in components/Menu.tsx: the fetched
 * navigation and languages, the error message, the language dropdown, and
 * the language switch.
 */
module MenuState {
  import opened Wrappers
  import opened Text
  import opened MenuLang
  import opened MenuPath
  import opened MenuLinks
  import opened MenuTree

  /** A record of `items/languages`. */
  datatype Language = Language(id: int, languageCode: string, displayLabel: string, flagEmoji: Option<string>)

  /** The message shown in place of the menu entries after a failed fetch. */
  const LoadError: string := "Navigation could not be loaded."

  /** `languages.map((l) => canonicalLang(l.language_code))`. */
  function SupportedLangs(languages: seq<Language>): (r: seq<string>)
    ensures |r| == |languages|
    ensures forall i :: 0 <= i < |r| ==> r[i] == CanonicalLang(languages[i].languageCode)
  {
    seq(|languages|, i requires 0 <= i < |languages| => CanonicalLang(languages[i].languageCode))
  }

  /** The decision of `handleLanguageChange`: no navigation when the
      canonical target is the current language, otherwise the path to push,
      computed from the current path (or `/{current}` when it is empty) and
      the supported list (or `["en"]` when it is empty). */
  function LanguageSwitch(targetCode: string, current: string, asPath: string,
                          supportedLangs: seq<string>): (r: Option<string>)
    ensures r.None? <==> CanonicalLang(targetCode) == current
  {
    var target := CanonicalLang(targetCode);
    if target == current then None
    else
      Some(LangPath(if asPath == [] then "/" + current else asPath, target,
                    if supportedLangs == [] then [DefaultLang] else supportedLangs))
  }

  /** A switch to another language pushes a path whose first segment is
      the target, whose other segments are those of the current path, and
      which keeps the current path's first query or hash piece. The target
      is canonicalised again inside the rewrite, so the premise asks that
      this second pass leave it alone (true of every code but `"gb"` and
      `"uk"`). */
  lemma SwitchKeepsPage(targetCode: string, current: string, asPath: string,
                        supportedLangs: seq<string>)
    requires CanonicalLang(targetCode) != current
    requires ValidSegment(CanonicalLang(targetCode))
    requires CanonicalLang(CanonicalLang(targetCode)) == CanonicalLang(targetCode)
    requires asPath != [] && asPath[0] == '/'
    ensures var r := LanguageSwitch(targetCode, current, asPath, supportedLangs);
      && r.Some?
      && PathSegments(r.value) == [CanonicalLang(targetCode)]
           + Kept(PathSegments(asPath), if supportedLangs == [] then [DefaultLang] else supportedLangs)
      && Suffix(r.value) == Suffix(asPath)
  {
    var target := CanonicalLang(targetCode);
    var supported := if supportedLangs == [] then [DefaultLang] else supportedLangs;
    LangPathShape(asPath, target, supported);
    assert LanguageSwitch(targetCode, current, asPath, supportedLangs)
      == Some(LangPath(asPath, target, supported));
  }

  /** One rendered menu link: its href and whether it opens as an external
      link. */
  datatype Link = Link(href: string, external: bool)

  /** A top-level menu entry with the links of its direct children; deeper
      descendants are attached to the tree but not rendered. */
  datatype Entry = Entry(link: Link, children: seq<Link>)

  /** `renderItem`'s href and external flag for one node. */
  function LinkOf(item: NavigationItem, lang: string, supportedLangs: seq<string>): (r: Link)
    ensures r.external ==> item.url.Some? && r.href == item.url.value
    ensures !r.external ==> r.href != [] && r.href[0] == '/'
  {
    Link(ResolveNavHref(item.url, item.slug, lang, supportedLangs), PassesThrough(item.url))
  }

  class Menu {
    /** `langCanon`, derived from the `lang` property on every render. */
    var langCanon: string
    var navigation: Tree
    var languages: seq<Language>
    var error: Option<string>
    var langOpen: bool

    predicate Valid()
      reads this
    {
      WellFormed(navigation)
    }

    constructor (lang: string)
      ensures Valid()
      ensures langCanon == CanonicalLang(lang)
      ensures navigation == Tree(map[], map[], []) && languages == [] && error == None
      ensures !langOpen
    {
      langCanon := CanonicalLang(lang);
      navigation := Tree(map[], map[], []);
      languages := [];
      error := None;
      langOpen := false;
    }

    /** The toggle button's click handler. */
    method ToggleLangMenu()
      modifies this`langOpen
      ensures langOpen == !old(langOpen)
    {
      langOpen := !langOpen;
    }

    /** The `routeChangeStart` handler. */
    method OnRouteChangeStart()
      modifies this`langOpen
      ensures !langOpen
    {
      langOpen := false;
    }

    /** The document `mousedown` handler: ignored before the language
        switcher's container is mounted (`langRef.current` is null), closes
        the dropdown when the target lies outside that container. */
    method OnMouseDown(refAttached: bool, insideRef: bool)
      modifies this`langOpen
      ensures langOpen == (old(langOpen) && !(refAttached && !insideRef))
    {
      if !refAttached {
        return;
      }
      if !insideRef {
        langOpen := false;
      }
    }

    /** The document `keydown` handler: Escape closes the dropdown. */
    method OnKeyDown(key: string)
      modifies this`langOpen
      ensures langOpen == (old(langOpen) && key != "Escape")
    {
      if key == "Escape" {
        langOpen := false;
      }
    }

    /** The navigation list's `mouseenter` handler. */
    method OnNavMouseEnter()
      modifies this`langOpen
      ensures !langOpen
    {
      langOpen := false;
    }

    /** `handleLanguageChange`: returns the path handed to `router.push`, if
        any, and always closes the dropdown. */
    method HandleLanguageChange(targetCode: string, asPath: string) returns (push: Option<string>)
      modifies this`langOpen
      ensures push == LanguageSwitch(targetCode, langCanon, asPath, SupportedLangs(languages))
      ensures !langOpen
    {
      var target := CanonicalLang(targetCode);
      var current := langCanon;
      if target == current {
        langOpen := false;
        return None;
      }
      var supported := SupportedLangs(languages);
      var nextPath := ReplaceLangInPath(if asPath == [] then "/" + current else asPath, target,
                                        if |supported| > 0 then supported else [DefaultLang]);
      push := Some(nextPath);
      langOpen := false;
    }

    /** A new `lang` property. The menu stays mounted, so its tree, languages,
        error and dropdown stay as they are; hrefs and the current language
        follow the new code at once. The fetch effect runs again exactly when
        the canonical code changed (its dependency is `[langCanon]`). */
    method SetLang(lang: string) returns (refetch: bool)
      modifies this`langCanon
      ensures langCanon == CanonicalLang(lang)
      ensures refetch <==> CanonicalLang(lang) != old(langCanon)
    {
      refetch := CanonicalLang(lang) != langCanon;
      langCanon := CanonicalLang(lang);
    }

    /** The first await of `fetchData`: the navigation response. Its tree is
        stored at once; a failure stores the error message and ends the run
        before the languages request. */
    method ReceiveNavigation(navOutcome: FetchOutcome<seq<NavigationItem>>) returns (proceed: bool)
      requires Valid()
      modifies this`navigation, this`error
      ensures Valid()
      ensures proceed <==> navOutcome.Fetched?
      ensures navOutcome.Fetched? ==> navigation == TreeOf(navOutcome.data) && error == old(error)
      ensures navOutcome.Failed? ==> navigation == old(navigation) && error == Some(LoadError)
    {
      if navOutcome.Failed? {
        error := Some(LoadError);
        return false;
      }
      var tree := BuildTree(navOutcome.data);
      TreeOfWellFormed(navOutcome.data);
      navigation := tree;
      return true;
    }

    /** The second await of `fetchData`: the languages response. Success
        stores the list and clears the error; failure stores the message and
        keeps the old list. */
    method ReceiveLanguages(langOutcome: FetchOutcome<seq<Language>>)
      requires Valid()
      modifies this`languages, this`error
      ensures Valid()
      ensures langOutcome.Fetched? ==> languages == langOutcome.data && error == None
      ensures langOutcome.Failed? ==> languages == old(languages) && error == Some(LoadError)
    {
      if langOutcome.Failed? {
        error := Some(LoadError);
        return;
      }
      languages := langOutcome.data;
      error := None;
    }

    /** `fetchData`, one run without interleaving: the navigation request is
        awaited first and its tree stored at once; the languages request is
        made only after that. Either request failing stores the error
        message, leaving what was already stored in place. */
    method FetchData(navOutcome: FetchOutcome<seq<NavigationItem>>,
                     langOutcome: FetchOutcome<seq<Language>>)
      requires Valid()
      modifies this`navigation, this`languages, this`error
      ensures Valid()
      ensures navOutcome.Failed? ==> navigation == old(navigation) && languages == old(languages)
      ensures navOutcome.Fetched? ==> navigation == TreeOf(navOutcome.data)
      ensures navOutcome.Fetched? && langOutcome.Fetched? ==>
        languages == langOutcome.data && error == None
      ensures navOutcome.Fetched? && langOutcome.Failed? ==> languages == old(languages)
      ensures navOutcome.Failed? || langOutcome.Failed? ==> error == Some(LoadError)
    {
      var proceed := ReceiveNavigation(navOutcome);
      if proceed {
        ReceiveLanguages(langOutcome);
      }
    }

    /** The entries of the navigation list: none while an error is shown,
        otherwise one per root with its direct children. */
    function Entries(): (r: seq<Entry>)
      reads this
      requires Valid()
      ensures error.Some? ==> r == []
      ensures error.None? ==> |r| == |navigation.roots|
      ensures error.None? ==> forall i :: 0 <= i < |r| ==>
        r[i] == EntryOf(navigation, navigation.roots[i], langCanon, SupportedLangs(languages))
    {
      if error.Some? then []
      else
        var nav, lang, supported := navigation, langCanon, SupportedLangs(languages);
        seq(|nav.roots|, i requires 0 <= i < |nav.roots| => EntryOf(nav, nav.roots[i], lang, supported))
    }
  }

  /** `renderItem` for the node `id`: its link and those of its children. */
  function EntryOf(nav: Tree, id: int, lang: string, supportedLangs: seq<string>): (r: Entry)
    requires WellFormed(nav) && id in nav.nodes
    ensures r.link == LinkOf(nav.nodes[id], lang, supportedLangs)
    ensures id in nav.children ==> r.children == ChildLinks(nav, nav.children[id], lang, supportedLangs)
    ensures id !in nav.children ==> r.children == []
  {
    var kids := if id in nav.children then nav.children[id] else [];
    Entry(LinkOf(nav.nodes[id], lang, supportedLangs), ChildLinks(nav, kids, lang, supportedLangs))
  }

  function ChildLinks(nav: Tree, kids: seq<int>, lang: string, supportedLangs: seq<string>): (r: seq<Link>)
    requires forall j :: 0 <= j < |kids| ==> kids[j] in nav.nodes
    ensures |r| == |kids|
    ensures forall j :: 0 <= j < |kids| ==> r[j] == LinkOf(nav.nodes[kids[j]], lang, supportedLangs)
  {
    seq(|kids|, j requires 0 <= j < |kids| && kids[j] in nav.nodes =>
      LinkOf(nav.nodes[kids[j]], lang, supportedLangs))
  }

  /** A rendered link that is not external has the language as its first
      path segment, under the premises of `InternalHrefStartsWithLanguage`. */
  lemma LinkStartsWithLanguage(item: NavigationItem, lang: string, supportedLangs: seq<string>)
    requires ValidSegment(CanonicalLang(lang))
    requires CanonicalLang(CanonicalLang(lang)) == CanonicalLang(lang)
    ensures var link := LinkOf(item, lang, supportedLangs);
      !link.external ==> PathSegments(link.href) != [] && PathSegments(link.href)[0] == CanonicalLang(lang)
  {
    if !PassesThrough(item.url) {
      InternalHrefStartsWithLanguage(item.url, item.slug, lang, supportedLangs);
    }
  }

  /** So every internal link of a rendered entry, its own and its
      children's, leads into the active language. */
  lemma EntryLinksStartWithLanguage(nav: Tree, id: int, lang: string, supportedLangs: seq<string>)
    requires WellFormed(nav) && id in nav.nodes
    requires ValidSegment(CanonicalLang(lang))
    requires CanonicalLang(CanonicalLang(lang)) == CanonicalLang(lang)
    ensures var e := EntryOf(nav, id, lang, supportedLangs);
      && (!e.link.external ==>
            PathSegments(e.link.href) != [] && PathSegments(e.link.href)[0] == CanonicalLang(lang))
      && (forall j :: 0 <= j < |e.children| && !e.children[j].external ==>
            PathSegments(e.children[j].href) != [] && PathSegments(e.children[j].href)[0] == CanonicalLang(lang))
  {
    var e := EntryOf(nav, id, lang, supportedLangs);
    var kids := if id in nav.children then nav.children[id] else [];
    LinkStartsWithLanguage(nav.nodes[id], lang, supportedLangs);
    forall j | 0 <= j < |e.children| && !e.children[j].external
      ensures PathSegments(e.children[j].href) != []
      ensures PathSegments(e.children[j].href)[0] == CanonicalLang(lang)
    {
      assert e.children[j] == LinkOf(nav.nodes[kids[j]], lang, supportedLangs);
      LinkStartsWithLanguage(nav.nodes[kids[j]], lang, supportedLangs);
    }
  }

  /** Choosing the language already shown navigates nowhere, whatever the
      path. */
  lemma SameLanguageIsNoOp(current: string, asPath: string, supportedLangs: seq<string>)
    requires IsLower(current) && current != "gb" && current != "uk"
    ensures LanguageSwitch(current, current, asPath, supportedLangs) == None
  {
    LowerOfLower(current);
  }
}
