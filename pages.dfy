/** Page state of the application shell: which page is shown, which nav
    button is lit, and the colour classes that the status badges use. Page
    keys are strings, since the nav items reach `navigateTo` through an
    unchecked cast from their `key` strings. */
module Pages {

  /** The four page keys the `Page` type admits. */
  const Home: string := "home"
  const Exploits: string := "exploits"
  const Frameworks: string := "frameworks"
  const Contact: string := "contact"

  /** What the main area renders. */
  datatype View = HomePage | ExploitsPage | FrameworksPage | ContactPage

  /** A button of the top navigation bar. */
  datatype NavItem = NavItem(key: string, title: string)

  /** The navigation bar, in display order; there is no nav item for home. */
  const NavItems: seq<NavItem> := [
    NavItem(Exploits, "EXPLOITS"),
    NavItem(Frameworks, "FRAMEWORKS"),
    NavItem(Contact, "CONTACT")
  ]

  /** The state `navigateTo` leaves behind: the new current page and whether
      the page-transition sound was played. */
  datatype Navigation = Navigation(currentPage: string, playedTransition: bool)

  /** `navigateTo(page)`: play the transition sound when the sound manager
      has registered it, then switch to `page`. */
  function NavigateTo(page: string, transitionRegistered: bool): (n: Navigation)
    ensures n.currentPage == page
    ensures n.playedTransition <==> transitionRegistered
  {
    Navigation(page, transitionRegistered)
  }

  /** `renderCurrentPage`: three named pages, and the home page otherwise. */
  function RenderCurrentPage(currentPage: string): (v: View)
    ensures v == ExploitsPage <==> currentPage == Exploits
    ensures v == FrameworksPage <==> currentPage == Frameworks
    ensures v == ContactPage <==> currentPage == Contact
    ensures v == HomePage <==> currentPage !in {Exploits, Frameworks, Contact}
  {
    match currentPage
    case "exploits" => ExploitsPage
    case "frameworks" => FrameworksPage
    case "contact" => ContactPage
    case _ => HomePage
  }

  /** The page each view belongs to. */
  function PageOf(v: View): string {
    match v
    case HomePage => Home
    case ExploitsPage => Exploits
    case FrameworksPage => Frameworks
    case ContactPage => Contact
  }

  /** Rendering is a bijection between the four page keys and the four views:
      every view is rendered for its own key and for no other page key. */
  lemma RenderIsBijective(v: View, page: string)
    requires page in {Home, Exploits, Frameworks, Contact}
    ensures RenderCurrentPage(PageOf(v)) == v
    ensures RenderCurrentPage(page) == v <==> page == PageOf(v)
  {
  }

  /** How a nav button is drawn. */
  datatype NavStyle = Highlighted | Plain

  /** The nav button for `key`: lit exactly when it is the current page. */
  function NavButtonStyle(currentPage: string, key: string): (s: NavStyle)
    ensures s == Highlighted <==> currentPage == key
  {
    if currentPage == key then Highlighted else Plain
  }

  /** The indices of the lit nav buttons. */
  function HighlightedItems(currentPage: string): set<nat> {
    set i: nat | i < |NavItems| && NavButtonStyle(currentPage, NavItems[i].key) == Highlighted
  }

  /** On the home page no nav button is lit; on a nav item's page exactly
      that button is lit, and the main area shows that page. */
  lemma {:induction false} NavHighlight(currentPage: string)
    ensures currentPage == Home ==> HighlightedItems(currentPage) == {}
    ensures forall i :: 0 <= i < |NavItems| && currentPage == NavItems[i].key ==>
      HighlightedItems(currentPage) == {i} && PageOf(RenderCurrentPage(currentPage)) == currentPage
    ensures |HighlightedItems(currentPage)| <= 1
  {
    var ix := HighlightedItems(currentPage);
    if currentPage == Exploits {
      assert ix == {0};
    } else if currentPage == Frameworks {
      assert ix == {1};
    } else if currentPage == Contact {
      assert ix == {2};
    } else {
      assert ix == {};
    }
  }

  /** Clicking a nav button lights it, and only it, and shows its page;
      going home lights nothing and shows the home page. */
  lemma ClickNavItem(i: nat, transitionRegistered: bool)
    requires i < |NavItems|
    ensures var n := NavigateTo(NavItems[i].key, transitionRegistered);
      HighlightedItems(n.currentPage) == {i} && PageOf(RenderCurrentPage(n.currentPage)) == NavItems[i].key
    ensures var n := NavigateTo(Home, transitionRegistered);
      HighlightedItems(n.currentPage) == {} && RenderCurrentPage(n.currentPage) == HomePage
  {
    NavHighlight(NavItems[i].key);
    NavHighlight(Home);
  }

  /** The colours that status indicators use. */
  datatype Color = Green | Yellow | Red | Blue

  /** The class of a status badge in colour `c`. */
  function BadgeClass(c: Color): string {
    match c
    case Green => "bg-green-400/20 text-green-400"
    case Yellow => "bg-yellow-400/20 text-yellow-400"
    case Red => "bg-red-400/20 text-red-400"
    case Blue => "bg-blue-400/20 text-blue-400"
  }

  /** The class of a status dot in colour `c`. */
  function DotClass(c: Color): string {
    match c
    case Green => "bg-green-400"
    case Yellow => "bg-yellow-400"
    case Red => "bg-red-400"
    case Blue => "bg-blue-400"
  }

  /** Different colours give different classes, so a class names its colour. */
  lemma ClassesNameTheirColor(c: Color, d: Color)
    ensures BadgeClass(c) == BadgeClass(d) ==> c == d
    ensures DotClass(c) == DotClass(d) ==> c == d
  {
  }

  /** The colour of an exploit's status: Active, Beta, and red for the rest. */
  function ExploitStatusColor(status: string): (c: Color)
    ensures c == Green <==> status == "Active"
    ensures c == Yellow <==> status == "Beta"
    ensures c == Red <==> status != "Active" && status != "Beta"
    ensures c != Blue
  {
    if status == "Active" then Green
    else if status == "Beta" then Yellow
    else Red
  }

  /** The exploit card's status badge classes, as the card's ternary writes them. */
  function ExploitBadgeClass(status: string): (cls: string)
    ensures cls == BadgeClass(ExploitStatusColor(status))
  {
    if status == "Active" then "bg-green-400/20 text-green-400"
    else if status == "Beta" then "bg-yellow-400/20 text-yellow-400"
    else "bg-red-400/20 text-red-400"
  }

  /** The colour of a service's status: ACTIVE, CLASSIFIED, BETA, and blue
      for the rest. */
  function ServiceStatusColor(status: string): (c: Color)
    ensures c == Green <==> status == "ACTIVE"
    ensures c == Red <==> status == "CLASSIFIED"
    ensures c == Yellow <==> status == "BETA"
    ensures c == Blue <==> status !in {"ACTIVE", "CLASSIFIED", "BETA"}
  {
    if status == "ACTIVE" then Green
    else if status == "CLASSIFIED" then Red
    else if status == "BETA" then Yellow
    else Blue
  }

  /** The service row's status dot, as its own ternary writes it. */
  function ServiceDotClass(status: string): (cls: string)
    ensures cls == DotClass(ServiceStatusColor(status))
  {
    if status == "ACTIVE" then "bg-green-400"
    else if status == "CLASSIFIED" then "bg-red-400"
    else if status == "BETA" then "bg-yellow-400"
    else "bg-blue-400"
  }

  /** The service row's status badge, as its own ternary writes it. */
  function ServiceBadgeClass(status: string): (cls: string)
    ensures cls == BadgeClass(ServiceStatusColor(status))
  {
    if status == "ACTIVE" then "bg-green-400/20 text-green-400"
    else if status == "CLASSIFIED" then "bg-red-400/20 text-red-400"
    else if status == "BETA" then "bg-yellow-400/20 text-yellow-400"
    else "bg-blue-400/20 text-blue-400"
  }

  /** The dot and the badge of a service row always show the same colour:
      whatever colour the dot's class names, the badge's class names it too. */
  lemma ServiceDotAndBadgeAgree(status: string)
    ensures forall c, d :: DotClass(c) == ServiceDotClass(status) && BadgeClass(d) == ServiceBadgeClass(status) ==> c == d
  {
    forall c, d | DotClass(c) == ServiceDotClass(status) && BadgeClass(d) == ServiceBadgeClass(status) ensures c == d {
      ClassesNameTheirColor(c, ServiceStatusColor(status));
      ClassesNameTheirColor(d, ServiceStatusColor(status));
    }
  }
}
