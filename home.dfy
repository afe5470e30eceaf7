/** The landing page's title handling (Home.tsx): the site title is shown
    in the navigation bar with its first two characters plain and the rest
    in the accent colour. */
module Home {
  import opened Opt
  import opened Records
  import opened Text

  /** The two parts of the navigation bar title. */
  datatype NavTitle = NavTitle(plain: string, accent: string)

  /** JavaScript's `s.substring(start, end)`: both ends clamped to the
      string, and swapped when they are out of order. */
  function Substring(s: string, start: int, end: int): (r: string)
    ensures |r| <= |s|
  {
    var a := if start < 0 then 0 else if start > |s| then |s| else start;
    var b := if end < 0 then 0 else if end > |s| then |s| else end;
    if a <= b then s[a..b] else s[b..a]
  }

  /** The title `NavBar` renders for `siteTitle`: `UN` + `NET` when the
      title is empty. */
  function Split2(siteTitle: string): NavTitle
  {
    if siteTitle != "" then NavTitle(Substring(siteTitle, 0, 2), Substring(siteTitle, 2, |siteTitle|))
    else NavTitle("UN", "NET")
  }

  /** The two parts put together give back the title; an empty title
      shows `UN` plain and `NET` in the accent colour; the plain part is the first two characters, or the whole
      title when it is shorter. */
  lemma Split2Spec(siteTitle: string)
    ensures siteTitle != "" ==> Split2(siteTitle).plain + Split2(siteTitle).accent == siteTitle
    ensures siteTitle == "" ==> Split2(siteTitle) == NavTitle("UN", "NET")
    ensures |siteTitle| >= 2 ==> Split2(siteTitle).plain == siteTitle[..2]
    ensures 0 < |siteTitle| < 2 ==> Split2(siteTitle).plain == siteTitle && Split2(siteTitle).accent == ""
  {
    if |siteTitle| >= 2 {
      assert siteTitle[..2] + siteTitle[2..] == siteTitle;
    }
  }

  /** The title `Home` hands to `NavBar` and shows on the loading screen:
      `settings?.site_title || 'UNNET'`. */
  function SiteTitle(settings: map<string, string>): string
  {
    OrElse(Lookup(settings, "site_title"), "UNNET")
  }

  /** `NavBar` never receives an empty title, so the `UN`/`NET` branch is
      never taken from `Home`, and what it shows is the stored title when
      that is set. */
  lemma SiteTitleSpec(settings: map<string, string>)
    ensures SiteTitle(settings) != ""
    ensures "site_title" in settings && settings["site_title"] != "" ==> SiteTitle(settings) == settings["site_title"]
    ensures "site_title" !in settings || settings["site_title"] == "" ==> SiteTitle(settings) == "UNNET"
    ensures var t := Split2(SiteTitle(settings)); t.plain + t.accent == SiteTitle(settings)
  {
    Split2Spec(SiteTitle(settings));
  }
}
