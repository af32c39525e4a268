/** `Application::run` of src/Application.php: turning the request path into the
    page template to render, its titles and the response code. The path is given
    (the `parse_url` of the request URI); rendering and output are not modelled. */
module Router {
  import Strings

  /** What `run` hands to the template engine and the HTTP layer. */
  datatype Page = Page(
    templateName: string,
    fullPath: string,
    statusCode: int,
    pageTitle: string,
    contentTitle: string,
    currentUser: string)

  /** The response code PHP sends when nothing sets another. */
  const DEFAULT_STATUS := 200
  const NOT_FOUND_STATUS := 404
  const GUEST := "Guest"
  const DEFAULT_ROUTE := "landing"

  predicate IsSlash(c: char) {
    c == '/'
  }

  /** PHP `empty()` on a string: true for the empty string and for `"0"`. */
  predicate PhpEmpty(s: string) {
    s == "" || s == "0"
  }

  /** Lines 32-35: `trim($uri, '/')`, falling back to `landing`. */
  function NormalizeRoute(path: string): (route: string)
    ensures !PhpEmpty(route)
    ensures route == [] || (route[0] != '/' && route[|route| - 1] != '/')
    ensures PhpEmpty(Strings.Strip(path, IsSlash)) ==> route == DEFAULT_ROUTE
    ensures !PhpEmpty(Strings.Strip(path, IsSlash)) ==> exists lo :: Strings.CutAt(path, lo, route, IsSlash)
  {
    var trimmed := Strings.Strip(path, IsSlash);
    if PhpEmpty(trimmed) then
      DefaultRouteIsPlain();
      DEFAULT_ROUTE
    else
      trimmed
  }

  /** The fallback route is a real route name with no slash at either end. */
  lemma DefaultRouteIsPlain()
    ensures !PhpEmpty(DEFAULT_ROUTE)
    ensures DEFAULT_ROUTE[0] != '/' && DEFAULT_ROUTE[|DEFAULT_ROUTE| - 1] != '/'
  {
  }

  /** The page data the switch chooses for a route it knows. */
  datatype Entry = Entry(templateName: string, pageTitle: string, contentTitle: string)

  /** Lines 41-74: the cases of the switch, each with the page it chooses. PHP
      compares a string subject with non-numeric string labels by plain string
      equality, so a switch over string labels is a lookup. */
  const ROUTES: map<string, Entry> := map[
    "landing" := Entry("landing", "Welcome", "Project Management for All Frameworks"),
    "index.php" := Entry("landing", "Welcome", "Project Management for All Frameworks"),
    "login" := Entry("login", "User Authentication", "Sign In to Your Account"),
    "dashboard" := Entry("dashboard", "Dashboard", "Your Open Tickets"),
    "tickets" := Entry("tickets", "Ticket Management List", "Manage All Tickets")
  ]

  /** The `default` branch of the switch. */
  const NOT_FOUND := Entry("404", "Page Not Found", "404 Error")

  /** Lines 41-74: the switch over the normalised route. A known route renders
      the template of its own name, except `index.php`, which renders the landing
      page; everything else gets the 404 page. */
  function Choose(route: string): (e: Entry)
    ensures e.templateName in {"landing", "login", "dashboard", "tickets", "404"}
    ensures e == NOT_FOUND <==> route !in ROUTES
    ensures e.templateName == "404" <==> route !in ROUTES
    ensures route in ROUTES ==> e.templateName == (if route == "index.php" then "landing" else route)
    ensures route == "index.php" ==> e == ROUTES["landing"]
    ensures e.templateName == "landing" ==> e.pageTitle == "Welcome" && e.contentTitle == "Project Management for All Frameworks"
    ensures e.templateName == "login" ==> e.pageTitle == "User Authentication" && e.contentTitle == "Sign In to Your Account"
    ensures e.templateName == "dashboard" ==> e.pageTitle == "Dashboard" && e.contentTitle == "Your Open Tickets"
    ensures e.templateName == "tickets" ==> e.pageTitle == "Ticket Management List" && e.contentTitle == "Manage All Tickets"
    ensures e.templateName == "404" ==> e.pageTitle == "Page Not Found" && e.contentTitle == "404 Error"
  {
    assert ROUTES.Keys == {"landing", "index.php", "login", "dashboard", "tickets"};
    if route in ROUTES then ROUTES[route] else NOT_FOUND
  }

  /** Lines 29-77: the whole route resolution. */
  function Resolve(path: string): (p: Page)
    ensures p.fullPath == "pages/" + p.templateName + ".html.twig"
    ensures p.currentUser == GUEST
    ensures p.templateName in {"landing", "login", "dashboard", "tickets", "404"}
    ensures p.statusCode == NOT_FOUND_STATUS <==> p.templateName == "404"
    ensures p.statusCode != NOT_FOUND_STATUS ==> p.statusCode == DEFAULT_STATUS
    ensures p.statusCode == NOT_FOUND_STATUS <==> NormalizeRoute(path) !in ROUTES
    ensures p.templateName == Choose(NormalizeRoute(path)).templateName
    ensures p.pageTitle == Choose(NormalizeRoute(path)).pageTitle && p.contentTitle == Choose(NormalizeRoute(path)).contentTitle
  {
    var entry := Choose(NormalizeRoute(path));
    var code := if entry == NOT_FOUND then NOT_FOUND_STATUS else DEFAULT_STATUS;
    Page(entry.templateName, "pages/" + entry.templateName + ".html.twig",
         code, entry.pageTitle, entry.contentTitle, GUEST)
  }

  /** The root path lands on the landing page with the default response code. */
  lemma RootIsLanding()
    ensures Resolve("/").templateName == "landing" && Resolve("/").statusCode == DEFAULT_STATUS
  {
    Strings.StripEmptyIff("/", IsSlash);
    assert NormalizeRoute("/") == DEFAULT_ROUTE;
    LandingPage();
  }

  /** The default route renders the landing template. */
  lemma LandingPage()
    ensures Choose(DEFAULT_ROUTE).templateName == "landing"
    ensures Choose(DEFAULT_ROUTE) != NOT_FOUND
  {
  }

  /** `/0` trims to `"0"`, which PHP's `empty()` treats as no route. */
  lemma ZeroIsLanding()
    ensures Resolve("/0").templateName == "landing"
  {
    assert Strings.Strip("/0", IsSlash) == "0" by {
      assert "/0" == "/" + "0";
      StripLeadingSlash("0");
      StripPlain("0");
    }
    assert NormalizeRoute("/0") == DEFAULT_ROUTE;
    LandingPage();
  }

  /** `/index.php` is an alias of the landing page, titles included. */
  lemma IndexPhpIsLanding()
    ensures Resolve("/index.php").templateName == "landing"
    ensures Resolve("/index.php").pageTitle == "Welcome"
    ensures Resolve("/index.php").statusCode == DEFAULT_STATUS
  {
    assert NormalizeRoute("/index.php") == "index.php" by {
      assert "/index.php" == "/" + "index.php";
      StripLeadingSlash("index.php");
      StripPlain("index.php");
    }
    assert "index.php" in ROUTES;
  }

  /** Only the outer slashes are trimmed: a nested path is not a known route. */
  lemma NestedPathIsNotFound()
    ensures Resolve("/tickets/new").statusCode == NOT_FOUND_STATUS
  {
    assert "/tickets/new" == "/" + "tickets/new";
    StripLeadingSlash("tickets/new");
    StripPlain("tickets/new");
  }

  /** One leading slash more does not change what trimming yields. */
  lemma StripLeadingSlash(s: string)
    ensures Strings.Strip("/" + s, IsSlash) == Strings.Strip(s, IsSlash)
  {
    assert ("/" + s)[1..] == s;
  }

  /** A string neither starting nor ending with a slash is its own trim. */
  lemma StripPlain(s: string)
    requires s != [] && s[0] != '/' && s[|s| - 1] != '/'
    ensures Strings.Strip(s, IsSlash) == s
  {
  }

  /** Paths that differ only in leading and trailing slashes resolve to the same page. */
  lemma SlashesDoNotMatter(path: string)
    ensures Resolve("/" + path + "/") == Resolve(path)
  {
    var p := "/" + path + "/";
    Strings.StripEmptyIff(path, IsSlash);
    Strings.StripEmptyIff(p, IsSlash);
    assert Strings.Strip(p, IsSlash) == Strings.Strip(path, IsSlash) by {
      StripSurrounded(path);
    }
  }

  /** Wrapping a path in slashes does not change what trimming yields. */
  lemma StripSurrounded(path: string)
    ensures Strings.Strip("/" + path + "/", IsSlash) == Strings.Strip(path, IsSlash)
  {
    var p := "/" + path + "/";
    var f := Strings.DropLeading(path, IsSlash);
    assert p == ['/'] + (path + "/");
    Strings.DropLeadingCons('/', path + "/", IsSlash);
    LeadingThenSlash(path);
    if f != [] {
      Strings.DropTrailingSnoc(f, '/', IsSlash);
    }
    Strings.StripIsTrimmedEnds(p, IsSlash);
    Strings.StripIsTrimmedEnds(path, IsSlash);
  }

  /** Dropping leading slashes commutes with appending a slash, unless nothing
      but slashes is left. */
  lemma {:induction false} LeadingThenSlash(s: string)
    ensures var f := Strings.DropLeading(s, IsSlash);
            Strings.DropLeading(s + "/", IsSlash) == (if f == [] then [] else f + "/")
  {
    var t := s + "/";
    if s == [] {
      assert t == ['/'] && t[1..] == [];
      assert Strings.DropLeading(t, IsSlash) == Strings.DropLeading([], IsSlash);
    } else if IsSlash(s[0]) {
      assert t[0] == s[0] && t[1..] == s[1..] + "/";
      assert Strings.DropLeading(t, IsSlash) == Strings.DropLeading(s[1..] + "/", IsSlash);
      LeadingThenSlash(s[1..]);
    } else {
      assert t[0] == s[0];
    }
  }
}
