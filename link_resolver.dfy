/**
 * resolveWaLink of server/src/api.ts: the title an invite page offers as a
 * default group name. Fetching and HTML parsing are outside the model: the
 * page arrives as what the parser extracted from it, or as a failure.
 */
module LinkResolver {
  import opened Wrappers
  import opened ApiTypes

  const MissingUrl := "URL wajib diisi"
  const FetchFailed := "Gagal mengambil data link WA"
  const UnknownGroup := "Unknown Group"

  /**
   * What the parser finds in a page: the `content` attribute of the
   * `og:title` meta tag (absent when there is no such tag or attribute) and
   * the text of `<title>` (empty when there is none).
   */
  datatype Page = Page(ogTitle: Option<string>, titleText: string)

  /** The first non-empty of og:title and `<title>`, else "Unknown Group". */
  function Title(p: Page): (t: string)
    ensures t != ""
    ensures Truthy(p.ogTitle) ==> t == p.ogTitle.value
    ensures !Truthy(p.ogTitle) && p.titleText != "" ==> t == p.titleText
    ensures t == UnknownGroup <==>
      (Truthy(p.ogTitle) && p.ogTitle.value == UnknownGroup)
      || (!Truthy(p.ogTitle) && (p.titleText == "" || p.titleText == UnknownGroup))
  {
    if Truthy(p.ogTitle) then p.ogTitle.value
    else if p.titleText != "" then p.titleText
    else UnknownGroup
  }

  /**
   * resolveWaLink: no url, 400; the fetch or the parse throwing, 500;
   * otherwise the page's title. `fetch(url)` is None when the request or
   * the parse throws; a page served with an error status is still a page.
   */
  function ResolveWaLink(url: Option<string>, fetch: string -> Option<Page>): (r: Reply)
    ensures r == Reply(400, ErrorJson(MissingUrl)) <==> !Truthy(url)
    ensures r == Reply(500, ErrorJson(FetchFailed)) <==> Truthy(url) && fetch(url.value).None?
    ensures r.code == 200 <==> Truthy(url) && fetch(url.value).Some?
    ensures r.code == 200 ==> r.body.TitleJson? && r.body.title != ""
    ensures r.code == 200 ==> r.body == TitleJson(Title(fetch(url.value).value))
  {
    if !Truthy(url) then Reply(400, ErrorJson(MissingUrl))
    else match fetch(url.value)
      case None => Reply(500, ErrorJson(FetchFailed))
      case Some(page) => Reply(200, TitleJson(Title(page)))
  }

  /** An empty og:title counts as missing. */
  lemma EmptyOgTitleIsMissing(t: string)
    ensures Title(Page(Some(""), t)) == Title(Page(None, t))
  {
  }
}
