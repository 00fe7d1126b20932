/** The list state of `BaseCommitsViewModel`: the loaded commits, the
    next-page URL, the `HasMore` flag and the search text, with the two load
    commands as state transitions and `Items` as a function of the state.

    The page fetch is the one suspension point of each command. A command is
    modelled as two steps: what runs before the `await` (`BeginLoad`,
    `BeginLoadMore`) and what runs after it (`Complete`). The fetch result is a
    parameter; a failed fetch throws, so nothing after the `await` runs. */
module BaseCommits {
  import opened Wrappers
  import opened Commits
  import opened FilteredView

  /** One page of the commit listing: its commits and the URL of the next page. */
  datatype Page = Page(values: seq<Commit>, next: Option<string>)

  /** What the awaited request produced. */
  datatype Fetch = Fetched(page: Page) | FetchFailed

  /** The client's answer to a request for a next-page URL. */
  type Fetcher = Option<string> -> Fetch

  datatype State = State(commits: seq<Commit>, nextUrl: Option<string>, hasMore: bool, searchText: Option<string>)

  /** `!string.IsNullOrEmpty(next)`. */
  predicate HasCursor(next: Option<string>)
  {
    next.Some? && |next.value| > 0
  }

  /** `HasMore` only ever claims a further page when a usable next-page URL is
      stored. */
  predicate Valid(s: State)
  {
    s.hasMore ==> HasCursor(s.nextUrl)
  }

  /** The state of a freshly constructed view model. */
  function Initial(): (s: State)
    ensures s.commits == [] && !s.hasMore && Valid(s)
  {
    State([], None, false, None)
  }

  /** `LoadMoreCommand` can execute exactly when `HasMore` is set. */
  predicate CanLoadMore(s: State)
  {
    s.hasMore
  }

  /** The URL `LoadMoreCommand` requests: the stored next-page URL. */
  function RequestedCursor(s: State): Option<string>
  {
    s.nextUrl
  }

  /** `LoadCommand` up to its `await`: `HasMore` is dropped and the collection
      cleared; the stored next-page URL is left as it was. */
  function BeginLoad(s: State): (r: State)
    ensures r.commits == [] && !CanLoadMore(r) && Valid(r)
    ensures r.nextUrl == s.nextUrl && r.searchText == s.searchText
  {
    s.(hasMore := false, commits := [])
  }

  /** `LoadMoreCommand` up to its `await`: only `HasMore` is dropped, which
      disables the command while its request is in flight. */
  function BeginLoadMore(s: State): (r: State)
    ensures !CanLoadMore(r) && Valid(r)
    ensures r.commits == s.commits && r.nextUrl == s.nextUrl && r.searchText == s.searchText
  {
    s.(hasMore := false)
  }

  /** What both commands do after their `await`: append the page's commits to
      the collection as it is now, store the page's next URL, and set `HasMore`
      to whether that URL is non-empty. A failed fetch changes nothing more. */
  function Complete(s: State, f: Fetch): (r: State)
    ensures Valid(s) ==> Valid(r)
    ensures f.Fetched? ==> r.commits == s.commits + f.page.values
    ensures f.Fetched? ==> r.nextUrl == f.page.next && (r.hasMore <==> HasCursor(f.page.next))
    ensures f.FetchFailed? ==> r == s
    ensures r.searchText == s.searchText
  {
    match f
    case FetchFailed => s
    case Fetched(p) => s.(commits := s.commits + p.values, nextUrl := p.next, hasMore := HasCursor(p.next))
  }

  /** `LoadCommand`, run to completion without another command in between. */
  function Load(s: State, f: Fetch): (r: State)
    ensures Valid(r) && r.searchText == s.searchText
    ensures f.Fetched? ==> r.commits == f.page.values
    ensures f.Fetched? ==> r.nextUrl == f.page.next && (r.hasMore <==> HasCursor(f.page.next))
    ensures f.FetchFailed? ==> r.commits == [] && !r.hasMore && r.nextUrl == s.nextUrl
  {
    Complete(BeginLoad(s), f)
  }

  /** `LoadMoreCommand`, run to completion: a no-op while it cannot execute;
      otherwise it requests the stored next-page URL from `fetch`. */
  function LoadMore(s: State, fetch: Fetcher): (r: State)
    ensures Valid(s) ==> Valid(r)
    ensures !CanLoadMore(s) ==> r == s
    ensures CanLoadMore(s) && fetch(s.nextUrl).Fetched? ==>
              r.commits == s.commits + fetch(s.nextUrl).page.values
    ensures CanLoadMore(s) && fetch(s.nextUrl).Fetched? ==>
              r.nextUrl == fetch(s.nextUrl).page.next && (r.hasMore <==> HasCursor(fetch(s.nextUrl).page.next))
    ensures CanLoadMore(s) && fetch(s.nextUrl).FetchFailed? ==>
              r.commits == s.commits && !r.hasMore && r.nextUrl == s.nextUrl
    ensures r.searchText == s.searchText
  {
    if CanLoadMore(s) then Complete(BeginLoadMore(s), fetch(RequestedCursor(s))) else s
  }

  /** Setting `SearchText` touches nothing but the search text. */
  function SetSearchText(s: State, text: Option<string>): (r: State)
    ensures r.searchText == text
    ensures r.commits == s.commits && r.nextUrl == s.nextUrl && r.hasMore == s.hasMore
  {
    s.(searchText := text)
  }

  /** The filter of `Items`: a row is shown when its name or its description
      contains the search text, by the keyword test `contains`. */
  function Matches(contains: (string, Option<string>) -> bool, search: Option<string>): CommitItem -> bool
  {
    (item: CommitItem) => contains(item.name, search) || contains(item.description, search)
  }

  /** `Items`: the rows of the loaded commits that match the current search
      text, in collection order. */
  function Items(s: State, contains: (string, Option<string>) -> bool): (r: seq<CommitItem>)
    requires AllWellFormed(s.commits)
    ensures IsSubsequence(r, ToViewModels(s.commits))
    ensures forall i :: 0 <= i < |r| ==>
              contains(r[i].name, s.searchText) || contains(r[i].description, s.searchText)
    ensures forall j :: 0 <= j < |s.commits| &&
              (contains(ToViewModel(s.commits[j]).name, s.searchText) ||
               contains(ToViewModel(s.commits[j]).description, s.searchText))
              ==> ToViewModel(s.commits[j]) in r
    ensures forall x :: multiset(r)[x] ==
              if Matches(contains, s.searchText)(x) then multiset(ToViewModels(s.commits))[x] else 0
  {
    var rows := ToViewModels(s.commits);
    var keep := Matches(contains, s.searchText);
    var r := Filter(rows, keep);
    assert forall j :: 0 <= j < |s.commits| ==> rows[j] == ToViewModel(s.commits[j]);
    assert forall x :: multiset(r)[x] == if keep(x) then multiset(rows)[x] else 0 by {
      forall x ensures multiset(r)[x] == if keep(x) then multiset(rows)[x] else 0 {
        FilterCount(rows, keep, x);
      }
    }
    r
  }

  /** Right after either command starts, `LoadMoreCommand` is disabled: a
      load-more issued then does nothing. (Later in the window it can be
      enabled again; see `LoadMoreReenabledDuringLoad`.) */
  lemma LoadMoreBlockedWhileInFlight(s: State, fetch: Fetcher)
    ensures LoadMore(BeginLoad(s), fetch) == BeginLoad(s)
    ensures LoadMore(BeginLoadMore(s), fetch) == BeginLoadMore(s)
  {
  }

  /** An enabled load-more in a valid state requests the stored next-page URL,
      which is non-empty, and its outcome depends on the client's answer for
      that URL alone. */
  lemma LoadMoreRequestsStoredCursor(s: State, fetch: Fetcher, other: Fetcher)
    requires Valid(s) && CanLoadMore(s)
    requires other(s.nextUrl) == fetch(s.nextUrl)
    ensures HasCursor(RequestedCursor(s)) && RequestedCursor(s) == s.nextUrl
    ensures LoadMore(s, fetch) == LoadMore(s, other)
  {
  }

  /** A reload discards the previously loaded commits: the result of a
      successful load does not depend on what was loaded before. */
  lemma LoadDiscardsPreviousCommits(s: State, t: State, p: Page)
    requires s.searchText == t.searchText
    ensures Load(s, Fetched(p)) == Load(t, Fetched(p))
  {
  }

  /** A successful load-more appends the matching rows of the new page after
      the rows already shown; the rows already shown keep their order. */
  lemma ItemsAfterLoadMore(s: State, fetch: Fetcher, contains: (string, Option<string>) -> bool)
    requires CanLoadMore(s) && fetch(s.nextUrl).Fetched?
    requires AllWellFormed(s.commits) && AllWellFormed(fetch(s.nextUrl).page.values)
    ensures AllWellFormed(LoadMore(s, fetch).commits)
    ensures Items(LoadMore(s, fetch), contains)
         == Items(s, contains) + Filter(ToViewModels(fetch(s.nextUrl).page.values), Matches(contains, s.searchText))
  {
    var p := fetch(s.nextUrl).page;
    ToViewModelsAppend(s.commits, p.values);
    FilterAppend(ToViewModels(s.commits), ToViewModels(p.values), Matches(contains, s.searchText));
  }

  /** After a successful load the view shows exactly the matching rows of the
      first page. */
  lemma ItemsAfterLoad(s: State, p: Page, contains: (string, Option<string>) -> bool)
    requires AllWellFormed(p.values)
    ensures Items(Load(s, Fetched(p)), contains) == Filter(ToViewModels(p.values), Matches(contains, s.searchText))
  {
  }

  /** The view depends only on the collection and the search text: setting
      the search text away and back restores the same view. */
  lemma SearchTextRoundTrip(s: State, other: Option<string>, contains: (string, Option<string>) -> bool)
    requires AllWellFormed(s.commits)
    ensures Items(SetSearchText(SetSearchText(s, other), s.searchText), contains) == Items(s, contains)
  {
  }

  /** When every row's name or description matches the search text (as an
      empty search text is expected to), the view is the whole derived
      collection. */
  lemma ItemsUnfilteredWhenAllMatch(s: State, contains: (string, Option<string>) -> bool)
    requires AllWellFormed(s.commits)
    requires forall i :: 0 <= i < |s.commits| ==> Matches(contains, s.searchText)(ToViewModel(s.commits[i]))
    ensures Items(s, contains) == ToViewModels(s.commits)
  {
    FilterKeepsAll(ToViewModels(s.commits), Matches(contains, s.searchText));
  }

  /** All commits of a run of pages, in page order. */
  function Flatten(pages: seq<Page>): seq<Commit>
  {
    if |pages| == 0 then [] else Flatten(pages[..|pages| - 1]) + pages[|pages| - 1].values
  }

  /** Every page but the last names a next page. */
  predicate Chained(pages: seq<Page>)
  {
    forall i :: 0 <= i < |pages| - 1 ==> HasCursor(pages[i].next)
  }

  /** A client that answers `p` for the URL `url` and fails for any other. */
  function Serve(url: Option<string>, p: Page): Fetcher
  {
    (u: Option<string>) => if u == url then Fetched(p) else FetchFailed
  }

  /** One load session: a successful load of `pages[0]`, then a load-more for
      each later page, answered by a client that knows that page only under the
      previous page's next URL. */
  function Session(s: State, pages: seq<Page>): State
    requires |pages| > 0
  {
    if |pages| == 1 then Load(s, Fetched(pages[0]))
    else LoadMore(Session(s, pages[..|pages| - 1]), Serve(pages[|pages| - 2].next, pages[|pages| - 1]))
  }

  /** A session over chained pages holds exactly their commits in page order,
      with the last page's next URL and `HasMore` read from it. */
  lemma {:induction false} SessionCollectsPages(s: State, pages: seq<Page>)
    requires |pages| > 0 && Chained(pages)
    ensures Session(s, pages).commits == Flatten(pages)
    ensures Session(s, pages).nextUrl == pages[|pages| - 1].next
    ensures Session(s, pages).hasMore <==> HasCursor(pages[|pages| - 1].next)
  {
    var n := |pages|;
    if n == 1 {
      assert pages[..0] == [];
    } else {
      var init := pages[..n - 1];
      assert forall i :: 0 <= i < |init| - 1 ==> init[i] == pages[i];
      SessionCollectsPages(s, init);
      assert init[|init| - 1] == pages[n - 2];
    }
  }

  /** A page without a next URL ends the session: load-mores for any later
      pages change nothing. */
  lemma {:induction false} SessionEndsWithoutCursor(s: State, pages: seq<Page>, k: nat)
    requires k < |pages| && !HasCursor(pages[k].next)
    ensures Session(s, pages) == Session(s, pages[..k + 1])
  {
    var n := |pages|;
    if n - 1 > k {
      var init := pages[..n - 1];
      assert init[k] == pages[k];
      assert init[..k + 1] == pages[..k + 1];
      SessionEndsWithoutCursor(s, init, k);
      assert !Session(s, pages[..k + 1]).hasMore by {
        if k == 0 {
        } else {
          SessionLastCursor(s, pages[..k + 1]);
        }
      }
    } else {
      assert pages[..k + 1] == pages;
    }
  }

  /** Whatever the session, `HasMore` ends false when its last page names no
      next page. */
  lemma {:induction false} SessionLastCursor(s: State, pages: seq<Page>)
    requires |pages| > 0
    ensures !HasCursor(pages[|pages| - 1].next) ==> !Session(s, pages).hasMore
  {
  }

  /** The continuation scenario: a first page `[a, b]` naming `"c2"`, then a
      load-more against any client that answers `"c2"` with `[c]` and no next
      page. */
  lemma ContinuationExample(s: State, a: Commit, b: Commit, c: Commit, fetch: Fetcher)
    requires fetch(Some("c2")) == Fetched(Page([c], None))
    ensures var s1 := Load(s, Fetched(Page([a, b], Some("c2"))));
            && CanLoadMore(s1)
            && RequestedCursor(s1) == Some("c2")
            && var s2 := LoadMore(s1, fetch);
            && s2.commits == [a, b, c]
            && !s2.hasMore
  {
  }

  /** `LoadCommand` is not disabled while a load-more is in flight. If a load
      starts and finishes in that window, the late load-more page is appended
      after the fresh first page, so the collection mixes two sessions. */
  lemma LoadDuringLoadMoreMixesSessions(s: State, first: Page, late: Page)
    requires CanLoadMore(s)
    ensures var inFlight := BeginLoadMore(s);
            var reloaded := Load(inFlight, Fetched(first));
            Complete(reloaded, Fetched(late)).commits == first.values + late.values
  {
  }

  /** A load-more that completes while a reload is in flight stores its own
      next URL and sets `HasMore` again, so a further load-more can run before
      the reload's request returns. When the reload then completes, its first
      page lands after the pages of the earlier session. */
  lemma LoadMoreReenabledDuringLoad(s: State, late: Page, more: Page, first: Page)
    requires CanLoadMore(s) && HasCursor(late.next)
    ensures var loading := BeginLoad(BeginLoadMore(s));
            var reopened := Complete(loading, Fetched(late));
            && CanLoadMore(reopened)
            && var extended := LoadMore(reopened, Serve(late.next, more));
            && extended.commits == late.values + more.values
            && Complete(extended, Fetched(first)).commits == late.values + more.values + first.values
  {
  }
}
