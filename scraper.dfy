/**
 * The orchestrator (`start_scraping`, ML_LAB5.py:171-255): the resume
 * page, the filter that drops links already stored, the fan-in of the
 * per-link results into the store and the counter, and one iteration of
 * the `while saved_count < GOAL_TOTAL` loop.
 *
 * The thread pool is modelled by its effect: every new link is fetched
 * and extracted (which never touches the store), and the results are
 * then stored one at a time in the order the tasks completed, which the
 * caller supplies as any permutation of the new links.
 */
module Scraper {
  import opened Wrappers
  import opened Fetcher
  import opened Extractor
  import opened Store
  import opened Listing

  const GOAL_TOTAL: nat := 5000
  /** Articles per listing page, as assumed by the resume estimate. */
  const PAGE_SIZE: nat := 30

  /** The starting page: `max(1, saved_count // 30)`. Below 60 stored
      articles it is the first page; from 30 on, page p holds the
      articles numbered 30p .. 30p+29 of the count. */
  function ResumePage(saved: nat): (p: nat)
    ensures p >= 1
    ensures saved < 2 * PAGE_SIZE ==> p == 1
    ensures saved >= PAGE_SIZE ==> p * PAGE_SIZE <= saved < (p + 1) * PAGE_SIZE
  {
    if saved / PAGE_SIZE > 1 then saved / PAGE_SIZE else 1
  }

  /** A store holding 90 articles resumes at page 3. */
  lemma ResumeAfterNinety()
    ensures ResumePage(90) == 3
  {
  }

  /** `new_urls`: the found links not yet stored, in the order found. */
  function Unseen(found: seq<string>, known: set<string>): (r: seq<string>)
    ensures |r| <= |found|
  {
    if found == [] then []
    else
      var init := Unseen(found[..|found| - 1], known);
      if found[|found| - 1] in known then init else init + [found[|found| - 1]]
  }

  /** The `for check_link in found_urls` loop with its per-link lookup. */
  method FilterNew(found: seq<string>, store: ArticleStore) returns (newUrls: seq<string>)
    ensures newUrls == Unseen(found, store.rows.Keys)
  {
    newUrls := [];
    for i := 0 to |found|
      invariant newUrls == Unseen(found[..i], store.rows.Keys)
    {
      assert found[..i + 1][..i] == found[..i];
      if !store.Contains(found[i]) {
        newUrls := newUrls + [found[i]];
      }
    }
    assert found[..|found|] == found;
  }

  /** A link is dispatched exactly when it was found and is not stored. */
  lemma {:induction false} UnseenMembers(found: seq<string>, known: set<string>, u: string)
    ensures u in Unseen(found, known) <==> u in found && u !in known
  {
    if found != [] {
      var init := found[..|found| - 1];
      UnseenMembers(init, known, u);
      assert found == init + [found[|found| - 1]];
    }
  }

  /** The filter works link by link: filtering a concatenation filters
      each half and keeps them in order. */
  lemma {:induction false} UnseenAppend(a: seq<string>, b: seq<string>, known: set<string>)
    ensures Unseen(a + b, known) == Unseen(a, known) + Unseen(b, known)
  {
    if b == [] {
      assert a + b == a;
    } else {
      var init := b[..|b| - 1];
      UnseenAppend(a, init, known);
      assert (a + b)[..|a + b| - 1] == a + init;
    }
  }

  /** When none of the found links is stored, all of them are dispatched, in order. */
  lemma {:induction false} UnseenNoneKnown(found: seq<string>, known: set<string>)
    requires forall i :: 0 <= i < |found| ==> found[i] !in known
    ensures Unseen(found, known) == found
  {
    if found != [] {
      UnseenNoneKnown(found[..|found| - 1], known);
    }
  }

  /** The links one iteration dispatches from listing page `page`: none
      when the listing could not be fetched or has no links. */
  function NewUrlsOf(rows: map<string, Row>, listingSite: string -> nat -> Attempt<ListingPage>, page: nat): seq<string> {
    match Fetch(listingSite(PageUrl(page)), MAX_TRIES).page
    case None => []
    case Some(listing) =>
      var found := FoundUrls(listing.hrefs);
      if found == [] then [] else Unseen(found, rows.Keys)
  }

  /** Of the links a listing page offers, those already stored are never
      dispatched again. */
  lemma StoredNotDispatched(rows: map<string, Row>, listingSite: string -> nat -> Attempt<ListingPage>, page: nat, u: string)
    requires u in NewUrlsOf(rows, listingSite, page)
    ensures u !in rows
    ensures var listing := Fetch(listingSite(PageUrl(page)), MAX_TRIES).page;
      listing.Some? && u in FoundUrls(listing.value.hrefs)
  {
    var listing := Fetch(listingSite(PageUrl(page)), MAX_TRIES).page;
    UnseenMembers(FoundUrls(listing.value.hrefs), rows.Keys, u);
  }

  /** One finished task as the caller sees it: the link it processed, the
      server's answers to that task's own attempts (two tasks for the same
      link fetch independently and may see different answers), and what
      storing its result (if any) ran into. */
  datatype Completion = Completion(url: string, server: nat -> Attempt<ArticlePage>, write: WriteEnv)

  /** The links of the completed tasks, in completion order. */
  function Urls(cs: seq<Completion>): seq<string> {
    seq(|cs|, i requires 0 <= i < |cs| => cs[i].url)
  }

  /** What `task.result()` gave, with what storing it ran into. */
  datatype Finished = Finished(item: Option<Draft>, write: WriteEnv)

  /** The results of the completed tasks, in completion order. */
  function Results(cs: seq<Completion>): seq<Finished> {
    seq(|cs|, i requires 0 <= i < |cs| => Finished(NewsFor(cs[i].url, cs[i].server), cs[i].write))
  }

  /** The table and the number of times `store_record` reported success. */
  datatype Tally = Tally(rows: map<string, Row>, saved: nat)

  /** The body of the `for task in as_completed(...)` loop for one result. */
  function SaveResult(t: Tally, f: Finished): Tally {
    match f.item
    case None => t
    case Some(d) =>
      if f.write.fails then t
      else Tally(InsertOrIgnore(t.rows, d, f.write.guid, f.write.createdAtUtc), t.saved + 1)
  }

  /** The results stored one after the other. */
  function FanIn(rows: map<string, Row>, fs: seq<Finished>): Tally {
    if fs == [] then Tally(rows, 0)
    else SaveResult(FanIn(rows, fs[..|fs| - 1]), fs[|fs| - 1])
  }

  /** A result that is an article whose write did not fail. */
  predicate IsSaved(f: Finished) {
    f.item.Some? && !f.write.fails
  }

  /** How many of the results are saved. */
  function SavedCount(fs: seq<Finished>): (n: nat)
    ensures n <= |fs|
  {
    if fs == [] then 0
    else SavedCount(fs[..|fs| - 1]) + (if IsSaved(fs[|fs| - 1]) then 1 else 0)
  }

  /** The counter goes up once per saved result, whatever the table held:
      an article ignored as a duplicate is counted too. */
  lemma {:induction false} FanInCountsSaved(rows: map<string, Row>, fs: seq<Finished>)
    ensures FanIn(rows, fs).saved == SavedCount(fs)
  {
    if fs != [] {
      FanInCountsSaved(rows, fs[..|fs| - 1]);
    }
  }

  lemma {:induction false} SavedCountAppend(a: seq<Finished>, b: seq<Finished>)
    ensures SavedCount(a + b) == SavedCount(a) + SavedCount(b)
  {
    if b == [] {
      assert a + b == a;
    } else {
      SavedCountAppend(a, b[..|b| - 1]);
      assert (a + b)[..|a + b| - 1] == a + b[..|b| - 1];
    }
  }

  /** The number added to the counter does not depend on the order in
      which the tasks complete. */
  lemma {:induction false} SavedCountOrderFree(fs: seq<Finished>, gs: seq<Finished>)
    requires multiset(fs) == multiset(gs)
    ensures SavedCount(fs) == SavedCount(gs)
    decreases |fs|
  {
    if fs == [] {
      assert |gs| == |multiset(gs)| == 0;
    } else {
      var n := |fs| - 1;
      var f := fs[n];
      assert fs == fs[..n] + [f];
      assert f in multiset(gs);
      var j :| 0 <= j < |gs| && gs[j] == f;
      var rest := gs[..j] + gs[j + 1..];
      assert gs == gs[..j] + [f] + gs[j + 1..];
      assert multiset(rest) == multiset(gs) - multiset{f};
      assert multiset(fs[..n]) == multiset(fs) - multiset{f};
      SavedCountOrderFree(fs[..n], rest);
      SavedCountAppend(fs[..n], [f]);
      SavedCountAppend(gs[..j] + [f], gs[j + 1..]);
      SavedCountAppend(gs[..j], [f]);
      SavedCountAppend(gs[..j], gs[j + 1..]);
      assert SavedCount([f]) == (if IsSaved(f) then 1 else 0) by {
        assert [f][..0] == [];
      }
    }
  }

  lemma ResultsAppend(a: seq<Completion>, b: seq<Completion>)
    ensures Results(a + b) == Results(a) + Results(b)
  {
  }

  lemma UrlsAppend(a: seq<Completion>, b: seq<Completion>)
    ensures Urls(a + b) == Urls(a) + Urls(b)
  {
  }

  /** Reordering the tasks reorders their links: the same links are
      dispatched, each as often, whatever order they complete in. */
  lemma {:induction false} UrlsPermute(cs: seq<Completion>, ds: seq<Completion>)
    requires multiset(cs) == multiset(ds)
    ensures multiset(Urls(cs)) == multiset(Urls(ds))
    decreases |cs|
  {
    if cs == [] {
      assert |ds| == |multiset(ds)| == 0;
    } else {
      var n := |cs| - 1;
      var c := cs[n];
      assert cs == cs[..n] + [c];
      assert c in multiset(ds);
      var j :| 0 <= j < |ds| && ds[j] == c;
      var rest := ds[..j] + ds[j + 1..];
      assert ds == ds[..j] + [c] + ds[j + 1..];
      assert multiset(rest) == multiset(ds) - multiset{c};
      assert multiset(cs[..n]) == multiset(cs) - multiset{c};
      UrlsPermute(cs[..n], rest);
      UrlsAppend(cs[..n], [c]);
      UrlsAppend(ds[..j] + [c], ds[j + 1..]);
      UrlsAppend(ds[..j], [c]);
      UrlsAppend(ds[..j], ds[j + 1..]);
    }
  }

  /** Reordering the tasks reorders their results. */
  lemma {:induction false} ResultsPermute(cs: seq<Completion>, ds: seq<Completion>)
    requires multiset(cs) == multiset(ds)
    ensures multiset(Results(cs)) == multiset(Results(ds))
    decreases |cs|
  {
    if cs == [] {
      assert |ds| == |multiset(ds)| == 0;
    } else {
      var n := |cs| - 1;
      var c := cs[n];
      assert cs == cs[..n] + [c];
      assert c in multiset(ds);
      var j :| 0 <= j < |ds| && ds[j] == c;
      var rest := ds[..j] + ds[j + 1..];
      assert ds == ds[..j] + [c] + ds[j + 1..];
      assert multiset(rest) == multiset(ds) - multiset{c};
      assert multiset(cs[..n]) == multiset(cs) - multiset{c};
      ResultsPermute(cs[..n], rest);
      ResultsAppend(cs[..n], [c]);
      ResultsAppend(ds[..j] + [c], ds[j + 1..]);
      ResultsAppend(ds[..j], [c]);
      ResultsAppend(ds[..j], ds[j + 1..]);
    }
  }

  /** Whichever order the tasks of one page complete in, the counter
      gains the same amount. */
  lemma CompletionOrderFree(rows: map<string, Row>, cs: seq<Completion>, ds: seq<Completion>)
    requires multiset(cs) == multiset(ds)
    ensures FanIn(rows, Results(cs)).saved == FanIn(rows, Results(ds)).saved
  {
    ResultsPermute(cs, ds);
    SavedCountOrderFree(Results(cs), Results(ds));
    FanInCountsSaved(rows, Results(cs));
    FanInCountsSaved(rows, Results(ds));
  }

  /** Storing the results keeps every row already there and adds at most
      one row per success it reports: the table never grows faster than
      the counter. */
  lemma {:induction false} FanInGrowth(rows: map<string, Row>, fs: seq<Finished>)
    ensures var t := FanIn(rows, fs);
      (forall u :: u in rows ==> u in t.rows && t.rows[u] == rows[u]) &&
      |t.rows| <= |rows| + t.saved
  {
    if fs != [] {
      FanInGrowth(rows, fs[..|fs| - 1]);
    }
  }

  /** The urls of the saved articles. */
  function SavedUrls(fs: seq<Finished>): set<string> {
    set i | 0 <= i < |fs| && IsSaved(fs[i]) :: fs[i].item.value.url
  }

  function WriteGuids(fs: seq<Finished>): set<string> {
    set i | 0 <= i < |fs| :: fs[i].write.guid
  }

  /** Every write brings its own new `guid` (which `uuid4` makes all but
      certain). */
  ghost predicate FreshGuids(rows: map<string, Row>, fs: seq<Finished>) {
    (forall i :: 0 <= i < |fs| ==> fs[i].write.guid !in Guids(rows)) &&
    (forall i, j :: 0 <= i < j < |fs| ==> fs[i].write.guid != fs[j].write.guid)
  }

  lemma {:induction false} FanInGuids(rows: map<string, Row>, fs: seq<Finished>)
    ensures Guids(FanIn(rows, fs).rows) <= Guids(rows) + WriteGuids(fs)
  {
    if fs != [] {
      var n := |fs| - 1;
      var init := fs[..n];
      FanInGuids(rows, init);
      var t := FanIn(rows, init);
      assert WriteGuids(fs) == WriteGuids(init) + {fs[n].write.guid} by {
        assert forall i :: 0 <= i < n ==> init[i] == fs[i];
      }
      if IsSaved(fs[n]) {
        var w := fs[n].write;
        var r := InsertOrIgnore(t.rows, fs[n].item.value, w.guid, w.createdAtUtc);
        forall g | g in Guids(r) ensures g in Guids(t.rows) + {w.guid} {
          var u :| u in r && r[u].guid == g;
          if u in t.rows {
            assert t.rows[u].guid == g;
          }
        }
      }
    }
  }

  lemma SavedUrlsSnoc(fs: seq<Finished>)
    requires fs != []
    ensures var n := |fs| - 1;
      SavedUrls(fs) == SavedUrls(fs[..n]) + (if IsSaved(fs[n]) then {fs[n].item.value.url} else {})
  {
    var n := |fs| - 1;
    assert forall i :: 0 <= i < n ==> fs[..n][i] == fs[i];
  }

  /** After the fan-in the stored urls are at most those stored before
      plus the urls of the saved articles. */
  lemma {:induction false} FanInKeysBound(rows: map<string, Row>, fs: seq<Finished>)
    ensures FanIn(rows, fs).rows.Keys <= rows.Keys + SavedUrls(fs)
  {
    if fs != [] {
      var n := |fs| - 1;
      FanInKeysBound(rows, fs[..n]);
      SavedUrlsSnoc(fs);
    }
  }

  /** When every write brings a fresh `guid`, the stored urls after the
      fan-in are exactly those stored before plus the urls of the saved
      articles, so they do not depend on the completion order. */
  lemma {:induction false} FanInKeysFresh(rows: map<string, Row>, fs: seq<Finished>)
    requires FreshGuids(rows, fs)
    ensures FanIn(rows, fs).rows.Keys == rows.Keys + SavedUrls(fs)
  {
    if fs != [] {
      var n := |fs| - 1;
      FreshGuidsInit(rows, fs);
      FanInKeysFresh(rows, fs[..n]);
      SavedUrlsSnoc(fs);
      FanInGuids(rows, fs[..n]);
      SaveWithFreshGuid(FanIn(rows, fs[..n]), fs[n]);
    }
  }

  lemma SaveWithFreshGuid(t: Tally, f: Finished)
    requires f.write.guid !in Guids(t.rows)
    ensures SaveResult(t, f).rows.Keys == t.rows.Keys + (if IsSaved(f) then {f.item.value.url} else {})
  {
  }

  lemma FreshGuidsInit(rows: map<string, Row>, fs: seq<Finished>)
    requires fs != [] && FreshGuids(rows, fs)
    ensures FreshGuids(rows, fs[..|fs| - 1])
    ensures fs[|fs| - 1].write.guid !in Guids(rows) + WriteGuids(fs[..|fs| - 1])
  {
    var n := |fs| - 1;
    assert forall i :: 0 <= i < n ==> fs[..n][i] == fs[i];
  }

  /** The same link offered twice on one listing page, both copies
      extracted and written without error: the table gains one row but
      the counter goes up by two. */
  lemma DuplicateLinkCountedTwice(rows: map<string, Row>, f1: Finished, f2: Finished)
    requires IsSaved(f1) && IsSaved(f2)
    requires f1.item.value.url == f2.item.value.url && f1.item.value.url !in rows
    requires f1.write.guid !in Guids(rows)
    ensures var t := FanIn(rows, [f1, f2]);
      t.saved == 2 && |t.rows| == |rows| + 1
  {
    assert [f1, f2][..1] == [f1];
    assert [f1][..0] == [];
    var d := f1.item.value;
    var once := InsertOrIgnore(rows, d, f1.write.guid, f1.write.createdAtUtc);
    assert FanIn(rows, [f1]) == Tally(once, 1);
    assert once == rows[d.url := NewRow(d, f1.write.guid, f1.write.createdAtUtc)];
    assert |once| == |rows| + 1;
    assert FanIn(rows, [f1, f2]) == SaveResult(Tally(once, 1), f2);
  }

  /** The loop state of `start_scraping` over the store it writes to. */
  class ScrapeLoop {
    var savedCount: nat
    var currentPage: nat
    const store: ArticleStore

    /** The counter starts at the table's size and is bumped at least once
        per added row, so it never reports fewer articles than are stored. */
    ghost predicate Valid()
      reads this, store
    {
      store.Valid() && currentPage >= 1 && store.Count() <= savedCount
    }

    /** The start of `start_scraping`: count the stored articles and pick
        the page to resume from. */
    constructor Start(s: ArticleStore)
      requires s.Valid()
      ensures Valid() && store == s
      ensures savedCount == s.Count() && currentPage == ResumePage(savedCount)
    {
      store := s;
      savedCount := s.Count();
      currentPage := ResumePage(s.Count());
    }

    /** One turn of the `for task in as_completed(tasks_map)` loop: the
        task's result is stored when it is an article, and the counter goes
        up when the write reports success. */
    method StoreOne(c: Completion)
      requires store.Valid()
      modifies this, store
      ensures store.Valid() && currentPage == old(currentPage)
      ensures var f := Finished(NewsFor(c.url, c.server), c.write);
        savedCount == old(savedCount) + (if IsSaved(f) then 1 else 0) &&
        store.rows == SaveResult(Tally(old(store.rows), 0), f).rows
    {
      var item := ProcessSingleNews(c.url, c.server);
      if item.Some? {
        var ok := store.StoreRecord(item.value, c.write);
        if ok {
          savedCount := savedCount + 1;
        }
      }
    }

    /** The `for task in as_completed(tasks_map)` loop: store each result
        in completion order and count the reported successes. */
    method StoreResults(completed: seq<Completion>)
      requires Valid()
      modifies this, store
      ensures Valid() && currentPage == old(currentPage)
      ensures savedCount == old(savedCount) + FanIn(old(store.rows), Results(completed)).saved
      ensures store.rows == FanIn(old(store.rows), Results(completed)).rows
    {
      ghost var fs := Results(completed);
      for i := 0 to |completed|
        invariant store.Valid() && currentPage == old(currentPage)
        invariant savedCount == old(savedCount) + FanIn(old(store.rows), fs[..i]).saved
        invariant store.rows == FanIn(old(store.rows), fs[..i]).rows
      {
        assert fs[..i + 1][..i] == fs[..i];
        StoreOne(completed[i]);
      }
      assert fs[..|completed|] == fs;
      FanInGrowth(old(store.rows), fs);
    }

    /** One pass of the `while saved_count < GOAL_TOTAL` loop. The tasks
        for the dispatched links complete in the order `completed`. Every
        path moves on to the next page; the counter never goes down. */
    method Step(listingSite: string -> nat -> Attempt<ListingPage>, completed: seq<Completion>)
      requires Valid()
      requires savedCount < GOAL_TOTAL
      requires multiset(Urls(completed)) == multiset(NewUrlsOf(store.rows, listingSite, currentPage))
      modifies this, store
      ensures Valid()
      ensures currentPage == old(currentPage) + 1
      ensures savedCount == old(savedCount) + FanIn(old(store.rows), Results(completed)).saved
      ensures store.rows == FanIn(old(store.rows), Results(completed)).rows
    {
      var pageUrl := PageUrl(currentPage);
      var fetched := FetchHtmlSafe(listingSite(pageUrl), MAX_TRIES);
      var newUrls: seq<string> := [];
      if fetched.page.Some? {
        var found := CollectLinks(fetched.page.value.hrefs);
        if found != [] {
          newUrls := FilterNew(found, store);
        }
      }
      assert newUrls == NewUrlsOf(store.rows, listingSite, currentPage);
      if newUrls != [] {
        StoreResults(completed);
      } else {
        assert |Urls(completed)| == |multiset(Urls(completed))| == 0;
        assert Results(completed) == [];
      }
      currentPage := currentPage + 1;
    }
  }
}
