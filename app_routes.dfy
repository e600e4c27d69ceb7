/** The application shell: which page a path shows, and whether the site
    header and footer surround it. The header is hidden on the dashboard,
    the chat and shared-headline pages; the footer is always shown. */
module AppRoutes {
  import opened Wrappers
  import opened Text

  const DashboardPath: string := "/dashboard"
  const ChatPath: string := "/chat"
  const SharePrefix: string := "/share/"

  /** `isDashboard`. */
  predicate IsDashboard(path: string) {
    path == DashboardPath || path == ChatPath
  }

  /** `isShare`. */
  predicate IsShare(path: string) {
    StartsWith(path, SharePrefix)
  }

  datatype Chrome = Chrome(header: bool, footer: bool)

  /** What surrounds the routed page. */
  function ChromeFor(path: string): (c: Chrome)
    ensures c.footer
    ensures c.header <==> path != DashboardPath && path != ChatPath
                          && !(|path| >= |SharePrefix| && path[..|SharePrefix|] == SharePrefix)
  {
    Chrome(!IsDashboard(path) && !IsShare(path), true)
  }

  /** The bare `/share` path is not a share path, so the header is shown there. */
  lemma BareShareShowsHeader()
    ensures ChromeFor("/share").header
    ensures !ChromeFor("/share/").header
  {
    assert |"/share"| < |SharePrefix|;
  }

  datatype Page = HomePage | SignUpPage | LoginPage | ForgotPasswordPage | ResetPasswordPage
                | DashboardPage | ChatPage | PricingPage | SharePage(id: string)
                | SubscriptionSuccessPage | NotFoundPage

  /** The fixed routes, in the order they are declared. */
  function StaticPage(path: string): Option<Page> {
    if path == "/" then Some(HomePage)
    else if path == "/signup" then Some(SignUpPage)
    else if path == "/login" then Some(LoginPage)
    else if path == "/forgot-password" then Some(ForgotPasswordPage)
    else if path == "/reset-password" then Some(ResetPasswordPage)
    else if path == DashboardPath then Some(DashboardPage)
    else if path == ChatPath then Some(ChatPage)
    else if path == "/pricing" then Some(PricingPage)
    else if path == "/subscription-success" then Some(SubscriptionSuccessPage)
    else if path == "/404" then Some(NotFoundPage)
    else None
  }

  /** `/share/:id` matches one non-empty segment after the prefix. */
  predicate ShareSegment(path: string) {
    IsShare(path) && |path| > |SharePrefix| && forall i :: |SharePrefix| <= i < |path| ==> path[i] != '/'
  }

  /** The page a path routes to; anything no route names is the not-found page. */
  function Route(path: string): (p: Page)
    ensures StaticPage(path).Some? ==> p == StaticPage(path).value
    ensures StaticPage(path).None? && ShareSegment(path) ==> p == SharePage(path[|SharePrefix|..])
    ensures StaticPage(path).None? && !ShareSegment(path) ==> p == NotFoundPage
  {
    match StaticPage(path)
    case Some(page) => page
    case None => if ShareSegment(path) then SharePage(path[|SharePrefix|..]) else NotFoundPage
  }

  /** The header is hidden on the dashboard and chat pages and on every
      shared headline, and shown on all other pages a route names. */
  lemma {:induction false} HeaderFollowsPage(path: string)
    ensures Route(path) == DashboardPage || Route(path) == ChatPage || Route(path).SharePage? ==> !ChromeFor(path).header
    ensures StaticPage(path).Some? && Route(path) != DashboardPage && Route(path) != ChatPage ==> ChromeFor(path).header
  {
    if StaticPage(path).Some? && Route(path) != DashboardPage && Route(path) != ChatPage {
      assert !IsShare(path) by {
        if |path| >= |SharePrefix| {
          assert path[..|SharePrefix|][6] == path[6];
        }
      }
    }
  }

  /** A share link names the headline by the rest of the path. */
  lemma ShareRoute(id: string)
    requires id != [] && forall i :: 0 <= i < |id| ==> id[i] != '/'
    ensures Route(SharePrefix + id) == SharePage(id)
    ensures !ChromeFor(SharePrefix + id).header
  {
    var path := SharePrefix + id;
    assert path[..|SharePrefix|] == SharePrefix;
    assert path[|SharePrefix|..] == id;
    assert StaticPage(path).None? by {
      assert path[1] == 's' && path[2] == 'h';
      assert |path| > 7;
    }
    forall i | |SharePrefix| <= i < |path| ensures path[i] != '/' {
      assert path[i] == id[i - |SharePrefix|];
    }
  }

  /** A nested share path routes nowhere, yet the page shown there still
      goes without the header. */
  lemma NestedShareHidesHeader()
    ensures Route("/share/a/b") == NotFoundPage
    ensures !ChromeFor("/share/a/b").header
  {
    var path := "/share/a/b";
    assert path[..|SharePrefix|] == SharePrefix;
    assert path[8] == '/';
  }
}
