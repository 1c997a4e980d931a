/** The navigation of `SkyFarmHeader`: the current file taken from the
    page's path, the links to Diary, Map and the Database items with the
    current one marked, the legacy-path redirect, and the auth-status label. */
module HeaderNav {
  import opened Wrappers
  import opened JsStrings
  import opened Firebase

  /** An entry of `PAGES` or `DATABASE_ITEMS`: the href and the link text
      (`label` in the script). */
  datatype Page = Page(href: string, text: string)

  /** A rendered link; `current` is the `aria-current="page"` marker. */
  datatype NavLink = NavLink(href: string, text: string, current: bool)

  /** The rendered `<nav>`: the two top-level links, the Database button's
      `aria-expanded` value and the links inside the Database menu. */
  datatype Nav = Nav(pages: seq<NavLink>, menuExpanded: bool, databaseItems: seq<NavLink>)

  const DiaryPage: Page := Page("skyfarm-diary.html", "Diary")
  const MapPage: Page := Page("skyfarm-map.html", "Map")

  /** `PAGES`, in the order `navHtml` renders them. */
  const Pages: seq<Page> := [DiaryPage, MapPage]

  const DatabaseItems: seq<Page> := [
    Page("skyfarm-livestock.html", "Livestock"),
    Page("skyfarm-chemical.html", "Chemicals"),
    Page("skyfarm-seed.html", "Seeds"),
    Page("skyfarm-barcode.html", "Barcode Scanner"),
    Page("skyfarm-admin-users.html", "Users & Roles")
  ]

  /** Every page the navigation links to, in the order it renders them. */
  const NavPages: seq<Page> := Pages + DatabaseItems

  const LegacyRedirects: map<string, string> := map["skyfarm-chemical-inventory.html" := "skyfarm-chemical.html"]

  // ---------------------------------------------------------------------
  // The current file

  /** `path.split('/').pop()`: the text after the last slash, or all of the
      path when it has none. */
  function LastSegment(path: string): (seg: string)
    ensures |seg| <= |path| && seg == path[|path| - |seg|..]
    ensures forall i :: 0 <= i < |seg| ==> seg[i] != '/'
    ensures |seg| < |path| ==> path[|path| - |seg| - 1] == '/'
    decreases |path|
  {
    if path == [] || path[|path| - 1] == '/' then []
    else LastSegment(path[..|path| - 1]) + [path[|path| - 1]]
  }

  /** `currentFile()`: the last segment of `location.pathname`, lower-cased.
      It holds no slash and no capital, and it is empty when the path ends
      in a slash. */
  function CurrentFile(path: string): (f: string)
    ensures forall i :: 0 <= i < |f| ==> f[i] != '/'
    ensures HasNoUpper(f)
    ensures path != [] && path[|path| - 1] == '/' ==> f == ""
  {
    ToLower(LastSegment(path))
  }

  /** Whatever precedes the last slash does not matter. */
  lemma {:induction false} LastSegmentAfterSlash(prefix: string, seg: string)
    requires forall i :: 0 <= i < |seg| ==> seg[i] != '/'
    ensures LastSegment(prefix + ['/'] + seg) == seg
    decreases |seg|
  {
    var path := prefix + ['/'] + seg;
    if seg != [] {
      assert path[..|path| - 1] == prefix + ['/'] + seg[..|seg| - 1];
      LastSegmentAfterSlash(prefix, seg[..|seg| - 1]);
    }
  }

  /** The current file of `dir/file` is the lower-cased file name. */
  lemma CurrentFileAfterSlash(dir: string, file: string)
    requires forall i :: 0 <= i < |file| ==> file[i] != '/'
    ensures CurrentFile(dir + "/" + file) == ToLower(file)
  {
    assert dir + "/" + file == dir + ['/'] + file;
    LastSegmentAfterSlash(dir, file);
  }

  /** Lower-casing keeps slashes where they are, so it commutes with taking
      the last segment. */
  lemma {:induction false} LastSegmentOfLower(path: string)
    ensures LastSegment(ToLower(path)) == ToLower(LastSegment(path))
    decreases |path|
  {
    if path != [] {
      var init, last := path[..|path| - 1], path[|path| - 1];
      assert path == init + [last];
      ToLowerAppend(init, [last]);
      var l := ToLower(path);
      assert l == ToLower(init) + [LowerChar(last)];
      assert l[..|l| - 1] == ToLower(init);
      assert (LowerChar(last) == '/') == (last == '/');
      if last != '/' {
        assert LastSegment(l) == LastSegment(ToLower(init)) + [LowerChar(last)];
        LastSegmentOfLower(init);
        ToLowerAppend(LastSegment(init), [last]);
      }
    }
  }

  /** `isActive(href)`: the current file equals the href ignoring ASCII
      case, so an href holding a slash is never active. */
  function IsActive(path: string, href: string): (active: bool)
    ensures (exists i :: 0 <= i < |href| && href[i] == '/') ==> !active
  {
    CurrentFile(path) == ToLower(href)
  }

  /** Whether a link is active depends neither on the case of the path nor
      on the case of the href. */
  lemma IsActiveIgnoresCase(path: string, href: string)
    ensures IsActive(path, href) == IsActive(path, ToLower(href))
    ensures IsActive(path, href) == IsActive(ToLower(path), href)
  {
    ToLowerIdempotent(href);
    LastSegmentOfLower(path);
    ToLowerIdempotent(LastSegment(path));
  }

  // ---------------------------------------------------------------------
  // The rendered links

  function RenderLink(path: string, p: Page): NavLink {
    NavLink(p.href, p.text, IsActive(path, p.href))
  }

  /** Each page rendered as a link, in order (`DATABASE_ITEMS.map(...)`). */
  function RenderLinks(path: string, items: seq<Page>): (links: seq<NavLink>)
    ensures |links| == |items|
    ensures forall i :: 0 <= i < |items| ==>
      links[i].href == items[i].href && links[i].text == items[i].text
      && (links[i].current <==> CurrentFile(path) == ToLower(items[i].href))
  {
    seq(|items|, i requires 0 <= i < |items| => RenderLink(path, items[i]))
  }

  /** `isDatabaseOpen()`: the menu is rendered closed. */
  function IsDatabaseOpen(): (open: bool)
    ensures !open
  {
    false
  }

  /** `navHtml()`. */
  function NavModel(path: string): (nav: Nav)
    ensures !nav.menuExpanded
  {
    Nav(RenderLinks(path, Pages), IsDatabaseOpen(), RenderLinks(path, DatabaseItems))
  }

  /** All rendered links in document order. */
  function Links(nav: Nav): seq<NavLink> {
    nav.pages + nav.databaseItems
  }

  /** The links render in the order Diary, Map, then the Database items in
      their listed order, each with its href and label, marked current
      exactly when it is the current file. */
  lemma LinkOrder(path: string)
    ensures var links := Links(NavModel(path));
      |links| == |NavPages| == 7
      && (forall i :: 0 <= i < |links| ==>
            links[i].href == NavPages[i].href && links[i].text == NavPages[i].text
            && (links[i].current <==> CurrentFile(path) == ToLower(NavPages[i].href)))
    ensures NavPages[0].text == "Diary" && NavPages[1].text == "Map"
    ensures NavPages[2..] == DatabaseItems
  {
    RenderLinksAppend(path, Pages, DatabaseItems);
  }

  lemma RenderLinksAppend(path: string, a: seq<Page>, b: seq<Page>)
    ensures RenderLinks(path, a) + RenderLinks(path, b) == RenderLinks(path, a + b)
  {
    var l := RenderLinks(path, a) + RenderLinks(path, b);
    forall i | 0 <= i < |l| ensures l[i] == RenderLinks(path, a + b)[i] {
      if i >= |a| {
        assert l[i] == RenderLinks(path, b)[i - |a|];
      }
    }
  }

  /** The hrefs are pairwise distinct, also when lower-cased. */
  lemma HrefsDistinct()
    ensures forall i, j :: 0 <= i < j < |NavPages| ==> ToLower(NavPages[i].href) != ToLower(NavPages[j].href)
  {
    forall i, j | 0 <= i < j < |NavPages| ensures ToLower(NavPages[i].href) != ToLower(NavPages[j].href) {
      assert |NavPages[i].href| != |NavPages[j].href|;
    }
  }

  /** At most one rendered link is marked current. */
  lemma AtMostOneCurrent(path: string)
    ensures var links := Links(NavModel(path));
      forall i, j :: 0 <= i < |links| && 0 <= j < |links| && links[i].current && links[j].current ==> i == j
  {
    LinkOrder(path);
    HrefsDistinct();
  }

  /** Some link is marked current exactly when the current file is one of the
      hrefs, and then it is the link with that href. */
  lemma CurrentIffListed(path: string)
    ensures var links := Links(NavModel(path));
      (exists i :: 0 <= i < |links| && links[i].current)
        <==> (exists k :: 0 <= k < |NavPages| && ToLower(NavPages[k].href) == CurrentFile(path))
    ensures var links := Links(NavModel(path));
      forall i :: 0 <= i < |links| && links[i].current ==> ToLower(links[i].href) == CurrentFile(path)
  {
    LinkOrder(path);
    var links := Links(NavModel(path));
    if k :| 0 <= k < |NavPages| && ToLower(NavPages[k].href) == CurrentFile(path) {
      assert links[k].current;
    }
  }

  /** On `.../SkyFarm-Map.HTML`, in whatever directory, the Map link and no
      other is current. */
  lemma MapPageIsCurrent(dir: string)
    ensures var links := Links(NavModel(dir + "/SkyFarm-Map.HTML"));
      links[1].current && forall i :: 0 <= i < |links| && i != 1 ==> !links[i].current
  {
    var path := dir + "/SkyFarm-Map.HTML";
    MapFileOf(dir);
    OnlyCurrentIsListed(path, 1);
  }

  /** The current file of `.../SkyFarm-Map.HTML` is the Map page's href. */
  lemma MapFileOf(dir: string)
    ensures CurrentFile(dir + "/SkyFarm-Map.HTML") == ToLower(NavPages[1].href)
  {
    assert dir + "/SkyFarm-Map.HTML" == dir + "/" + "SkyFarm-Map.HTML";
    CurrentFileAfterSlash(dir, "SkyFarm-Map.HTML");
    MapHrefIgnoresCase();
  }

  lemma MapHrefIgnoresCase()
    ensures ToLower("SkyFarm-Map.HTML") == ToLower(NavPages[1].href)
  {
    assert ToLower("SkyFarm-Map.HTML") == "skyfarm-map.html";
    assert HasNoUpper(NavPages[1].href);
    ToLowerFixedPoints(NavPages[1].href);
  }

  /** When the current file is the k-th href, the k-th link and no other is
      current. */
  lemma OnlyCurrentIsListed(path: string, k: int)
    requires 0 <= k < |NavPages| && CurrentFile(path) == ToLower(NavPages[k].href)
    ensures var links := Links(NavModel(path));
      links[k].current && forall i :: 0 <= i < |links| && i != k ==> !links[i].current
  {
    LinkOrder(path);
    HrefsDistinct();
  }

  // ---------------------------------------------------------------------
  // The legacy redirect

  /** `applyLegacyRedirect()`: the target to navigate to, when the lower-cased
      last segment is a key of the redirect table. */
  function LegacyRedirect(path: string): (target: Option<string>)
    ensures target.Some? ==> target.value !in LegacyRedirects
    ensures target.Some? ==> exists i :: 0 <= i < |DatabaseItems| && DatabaseItems[i].href == target.value
  {
    RedirectTable();
    var key := CurrentFile(path);
    if key in LegacyRedirects then Some(LegacyRedirects[key]) else None
  }

  /** The redirect fires exactly for the table's keys, to the listed target. */
  lemma LegacyRedirectOnlyForKeys(path: string)
    ensures LegacyRedirect(path).Some? <==> CurrentFile(path) in LegacyRedirects
    ensures LegacyRedirect(path).Some? ==> LegacyRedirect(path).value == LegacyRedirects[CurrentFile(path)]
  {
  }

  /** No target is itself a key, and every target is a Database page, so
      arriving at a target, which replaces the last segment of the path,
      never redirects again. */
  lemma NoRedirectChains(dir: string, path: string)
    ensures forall k :: k in LegacyRedirects ==> LegacyRedirects[k] !in LegacyRedirects
    ensures forall k :: k in LegacyRedirects ==> exists i :: 0 <= i < |DatabaseItems| && DatabaseItems[i].href == LegacyRedirects[k]
    ensures LegacyRedirect(path).Some? ==> LegacyRedirect(dir + "/" + LegacyRedirect(path).value) == None
  {
    var target := "skyfarm-chemical.html";
    RedirectTable();
    if LegacyRedirect(path).Some? {
      assert LegacyRedirect(path).value == target;
      CurrentFileAfterSlash(dir, target);
      assert |ToLower(target)| == |target|;
    }
  }

  /** The table's one key and its target, the Chemicals page. */
  lemma RedirectTable()
    ensures LegacyRedirects.Keys == {"skyfarm-chemical-inventory.html"}
    ensures LegacyRedirects["skyfarm-chemical-inventory.html"] == DatabaseItems[1].href == "skyfarm-chemical.html"
    ensures "skyfarm-chemical.html" !in LegacyRedirects
  {
    assert |"skyfarm-chemical.html"| != |"skyfarm-chemical-inventory.html"|;
  }

  /** What `LEGACY_REDIRECTS[path]` yields in JavaScript: an own entry's
      target, or a member every object literal inherits. */
  datatype Lookup = Target(url: string) | Inherited(name: string)

  /** The members of `Object.prototype`, all of them truthy. */
  const InheritedMembers: set<string> := {
    "constructor", "__proto__", "hasOwnProperty", "isPrototypeOf", "propertyIsEnumerable",
    "toLocaleString", "toString", "valueOf",
    "__defineGetter__", "__defineSetter__", "__lookupGetter__", "__lookupSetter__"
  }

  /** The redirect as written: a truthy property lookup on the table, which
      also finds inherited members. */
  function LegacyRedirectAsWritten(path: string): (r: Option<Lookup>)
    ensures r.Some? <==> CurrentFile(path) in LegacyRedirects || CurrentFile(path) in InheritedMembers
    ensures r.Some? && r.value.Inherited? ==> CurrentFile(path) !in LegacyRedirects && r.value.name in InheritedMembers
  {
    var key := CurrentFile(path);
    if key in LegacyRedirects then Some(Target(LegacyRedirects[key]))
    else if key in InheritedMembers then Some(Inherited(key))
    else None
  }

  /** On a page whose last segment is `constructor` (in any case) the lookup
      as written finds `Object` and navigates away, though the table has no
      such key. */
  lemma LegacyRedirectAsWrittenOnConstructor(dir: string)
    ensures CurrentFile(dir + "/Constructor") !in LegacyRedirects
    ensures LegacyRedirectAsWritten(dir + "/Constructor") == Some(Inherited("constructor"))
  {
    assert dir + "/Constructor" == dir + "/" + "Constructor";
    CurrentFileAfterSlash(dir, "Constructor");
    ConstructorIsInherited();
  }

  lemma ConstructorIsInherited()
    ensures ToLower("Constructor") == "constructor"
    ensures "constructor" in InheritedMembers && "constructor" !in LegacyRedirects
  {
    assert |"constructor"| != |"skyfarm-chemical-inventory.html"|;
  }

  /** Apart from inherited member names, the lookup as written and the own-key
      lookup agree. */
  lemma LegacyRedirectAgreesOnOtherNames(path: string)
    requires CurrentFile(path) !in InheritedMembers
    ensures LegacyRedirectAsWritten(path) ==
      match LegacyRedirect(path) case None => None case Some(t) => Some(Target(t))
  {
  }

  // ---------------------------------------------------------------------
  // The auth-status label

  const ConnectingLabel: string := "Connecting…"
  const GuestLabel: string := "Connected (guest)"
  const SignedInLabel: string := "Signed in"

  /** The label for one auth-state notification. */
  function AuthLabel(u: Option<User>): (text: string)
    ensures text == ConnectingLabel <==> u.None?
    ensures text == GuestLabel <==> u.Some? && u.value.isAnonymous
    ensures text == SignedInLabel <==> u.Some? && !u.value.isAnonymous
  {
    match u
    case None => ConnectingLabel
    case Some(user) => if user.isAnonymous then GuestLabel else SignedInLabel
  }

  /** The label after a sequence of notifications, starting from `shown`:
      each notification rewrites it. */
  function LabelReplay(shown: string, notes: seq<Option<User>>): (r: string)
    ensures notes == [] ==> r == shown
    ensures notes != [] ==> r == AuthLabel(notes[|notes| - 1])
    decreases |notes|
  {
    if notes == [] then shown else LabelReplay(AuthLabel(notes[0]), notes[1..])
  }

  /** `tryShowAuth()`: the label rendered by `headerHtml` as "Connecting…"
      is rewritten by each notification, when the SDK's auth is there to
      subscribe to; otherwise it stays. */
  function LabelAfter(subscribed: bool, notes: seq<Option<User>>): (r: string)
    ensures !subscribed || notes == [] ==> r == ConnectingLabel
    ensures subscribed && notes != [] ==> r == AuthLabel(notes[|notes| - 1])
    ensures r in {ConnectingLabel, GuestLabel, SignedInLabel}
  {
    if !subscribed then ConnectingLabel else LabelReplay(ConnectingLabel, notes)
  }
}
