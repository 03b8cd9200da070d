/**
 * The article acceptance rule (`process_single_news`, ML_LAB5.py:128-169).
 *
 * The parsed detail page is an abstract record of what the HTML searches
 * found. Each text is what the library's `get_text` produced (HTML-library
 * behaviour, including the removal of the noise elements from the primary
 * container, is not modelled); the paragraphs of the central column are
 * their raw `.text`, in document order, since the rule tests and strips
 * them itself.
 */
module Extractor {
  import opened Wrappers
  import opened Text
  import Fetcher

  /** The title used when the page has no `h1`. */
  const TITLE_PLACEHOLDER: string := "Без заголовка"
  /** The shortest body text accepted, and the length a fallback paragraph must exceed. */
  const MIN_BODY: nat := 30

  datatype ArticlePage = ArticlePage(
    heading: Option<string>,                 // stripped text of the first h1
    detailText: Option<string>,              // text of the first div.detail_text, noise removed
    newsDetailText: Option<string>,          // text of the first div.news-detail, noise removed
    centerParagraphs: Option<seq<string>>,   // raw text of each p inside div.page_center-column
    dateText: Option<string>)                // stripped text of div.block1__wrap__textb

  /** The dictionary `process_single_news` returns. */
  datatype Draft = Draft(title: string, description: string, url: string, publishedAt: Option<string>)

  function Title(page: ArticlePage): string {
    match page.heading
    case Some(h) => h
    case None => TITLE_PLACEHOLDER
  }

  /** The text of the primary container: `detail_text` is tried first,
      then `news-detail`; no container gives the empty text. */
  function PrimaryText(page: ArticlePage): string {
    match (if page.detailText.Some? then page.detailText else page.newsDetailText)
    case Some(t) => t
    case None => ""
  }

  /** The stripped text of each paragraph whose raw text is longer than
      30 characters, in document order. */
  function KeptParagraphs(paras: seq<string>): (r: seq<string>)
    ensures |r| <= |paras|
  {
    if paras == [] then []
    else Kept(paras[0]) + KeptParagraphs(paras[1..])
  }

  /** What one paragraph contributes to the fallback. */
  function Kept(p: string): seq<string> {
    if |p| > MIN_BODY then [Strip(p)] else []
  }

  function FallbackText(paras: seq<string>): string {
    Join(KeptParagraphs(paras), "\n")
  }

  /** The body: the primary text unless it is empty, else the fallback
      from the central column, else empty. */
  function Body(page: ArticlePage): string {
    var primary := PrimaryText(page);
    if primary != "" then primary
    else match page.centerParagraphs
      case Some(paras) => FallbackText(paras)
      case None => ""
  }

  /** The extraction applied to a page that was fetched. A page is
      rejected exactly when its body is shorter than 30 characters (the
      empty body among them); an accepted page keeps its title, body,
      link and date. */
  function Extract(link: string, page: ArticlePage): (r: Option<Draft>)
    ensures r.None? <==> |Body(page)| < MIN_BODY
    ensures r.Some? ==> (r.value.url == link && |r.value.description| >= MIN_BODY &&
                         r.value.description == Body(page) && r.value.title == Title(page) &&
                         r.value.publishedAt == page.dateText)
  {
    var body := Body(page);
    if body == "" || |body| < MIN_BODY then None
    else Some(Draft(Title(page), body, link, page.dateText))
  }

  /** `process_single_news(link)` as a specification: nothing when the
      fetch failed, else the extraction. */
  function NewsFor(link: string, server: nat -> Fetcher.Attempt<ArticlePage>): Option<Draft> {
    match Fetcher.Fetch(server, Fetcher.MAX_TRIES).page
    case None => None
    case Some(page) => Extract(link, page)
  }

  /** `process_single_news(link)` against the server that answers for `link`. */
  method ProcessSingleNews(link: string, server: nat -> Fetcher.Attempt<ArticlePage>) returns (r: Option<Draft>)
    ensures r == NewsFor(link, server)
    ensures r.Some? ==> r.value.url == link && |r.value.description| >= MIN_BODY
    ensures Fetcher.Fetch(server, Fetcher.MAX_TRIES).page.None? ==> r.None?
  {
    var fetched := Fetcher.FetchHtmlSafe(server, Fetcher.MAX_TRIES);
    if fetched.page.None? {
      return None;
    }
    r := Extract(link, fetched.page.value);
  }

  /** A page without `h1` is titled with the placeholder, one with an `h1`
      with its text, even an empty one. */
  lemma TitleChoice(page: ArticlePage)
    ensures page.heading.None? ==> Title(page) == TITLE_PLACEHOLDER
    ensures page.heading.Some? ==> Title(page) == page.heading.value
  {
  }

  /** The fallback is consulted only when the primary text is empty. */
  lemma PrimaryPreferred(page: ArticlePage)
    ensures PrimaryText(page) != "" ==> Body(page) == PrimaryText(page)
    ensures PrimaryText(page) == "" && page.centerParagraphs.None? ==> Body(page) == ""
    ensures PrimaryText(page) == "" && page.centerParagraphs.Some? ==>
      Body(page) == FallbackText(page.centerParagraphs.value)
  {
  }

  /** The kept paragraphs of a concatenation are those of each half, one after the other. */
  lemma {:induction false} KeptParagraphsAppend(a: seq<string>, b: seq<string>)
    ensures KeptParagraphs(a + b) == KeptParagraphs(a) + KeptParagraphs(b)
  {
    if a == [] {
      assert a + b == b;
    } else {
      assert (a + b)[0] == a[0];
      assert (a + b)[1..] == a[1..] + b;
      KeptParagraphsAppend(a[1..], b);
    }
  }

  /** A stripped text is kept exactly when it comes from a paragraph
      longer than 30 characters. */
  lemma {:induction false} KeptParagraphsMembers(paras: seq<string>, t: string)
    ensures t in KeptParagraphs(paras) <==>
      exists i :: 0 <= i < |paras| && |paras[i]| > MIN_BODY && Strip(paras[i]) == t
  {
    if paras != [] {
      KeptParagraphsMembers(paras[1..], t);
      if exists i :: 0 <= i < |paras[1..]| && |paras[1..][i]| > MIN_BODY && Strip(paras[1..][i]) == t {
        var i :| 0 <= i < |paras[1..]| && |paras[1..][i]| > MIN_BODY && Strip(paras[1..][i]) == t;
        assert paras[i + 1] == paras[1..][i];
      }
      if exists i :: 0 <= i < |paras| && |paras[i]| > MIN_BODY && Strip(paras[i]) == t {
        var i :| 0 <= i < |paras| && |paras[i]| > MIN_BODY && Strip(paras[i]) == t;
        if i > 0 {
          assert paras[1..][i - 1] == paras[i];
        }
      }
    }
  }

  /** A paragraph longer than 30 characters whose stripped text still has
      30 or more is enough: when the primary text is empty and the central
      column holds it, the page is accepted. */
  lemma LongParagraphAccepted(link: string, page: ArticlePage, k: nat)
    requires PrimaryText(page) == "" && page.centerParagraphs.Some?
    requires k < |page.centerParagraphs.value|
    requires |page.centerParagraphs.value[k]| > MIN_BODY
    requires |Strip(page.centerParagraphs.value[k])| >= MIN_BODY
    ensures Extract(link, page).Some?
  {
    var paras := page.centerParagraphs.value;
    var t := Strip(paras[k]);
    KeptParagraphsMembers(paras, t);
    var kept := KeptParagraphs(paras);
    var j :| 0 <= j < |kept| && kept[j] == t;
    JoinContainsPart(kept, "\n", j);
  }

  /** Paragraphs that are only whitespace but longer than 30 characters
      are kept, strip to nothing, and leave their separators behind: 31 or
      more of them, with no primary text, make a page whose accepted body
      is nothing but line breaks. */
  lemma {:induction false} BlankParagraphsAccepted(link: string, page: ArticlePage)
    requires PrimaryText(page) == "" && page.centerParagraphs.Some?
    requires |page.centerParagraphs.value| > MIN_BODY
    requires forall i :: 0 <= i < |page.centerParagraphs.value| ==>
      |page.centerParagraphs.value[i]| > MIN_BODY && AllSpace(page.centerParagraphs.value[i])
    ensures Extract(link, page).Some?
    ensures forall i :: 0 <= i < |Body(page)| ==> Body(page)[i] == '\n'
  {
    var paras := page.centerParagraphs.value;
    BlankParagraphsKeptEmpty(paras);
    var kept := KeptParagraphs(paras);
    JoinLength(kept, "\n");
    assert TotalLength(kept) == 0 by { TotalLengthOfEmpties(kept); }
    JoinOnlySeparators(kept);
  }

  lemma {:induction false} BlankParagraphsKeptEmpty(paras: seq<string>)
    requires forall i :: 0 <= i < |paras| ==> |paras[i]| > MIN_BODY && AllSpace(paras[i])
    ensures |KeptParagraphs(paras)| == |paras|
    ensures forall j :: 0 <= j < |paras| ==> KeptParagraphs(paras)[j] == ""
  {
    if paras != [] {
      StripAllSpace(paras[0]);
      BlankParagraphsKeptEmpty(paras[1..]);
    }
  }

  lemma {:induction false} TotalLengthOfEmpties(parts: seq<string>)
    requires forall j :: 0 <= j < |parts| ==> parts[j] == ""
    ensures TotalLength(parts) == 0
  {
    if parts != [] {
      TotalLengthOfEmpties(parts[1..]);
    }
  }

  lemma {:induction false} JoinOnlySeparators(parts: seq<string>)
    requires forall j :: 0 <= j < |parts| ==> parts[j] == ""
    ensures forall i :: 0 <= i < |Join(parts, "\n")| ==> Join(parts, "\n")[i] == '\n'
  {
    if |parts| > 1 {
      JoinOnlySeparators(parts[1..]);
      assert Join(parts, "\n") == "\n" + Join(parts[1..], "\n");
    }
  }
}
