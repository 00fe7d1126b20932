# Commit list of CodeBucket, in Dafny

This project models the core of `BaseCommitsViewModel`, the base of every
commit list in CodeBucket (a Bitbucket client). The model covers three parts:

- **Paging.** `LoadCommand` loads the first page. `LoadMoreCommand` follows the
  stored next-page URL while `HasMore` is set.
- **Row projection.** `ToViewModel` turns each commit into a list row. The row's
  name comes from the linked user or from the raw `Name <email>` author string.
  Its description is the first line of the commit message, unless the message starts with a newline, in which case it is kept whole.
- **Filtering.** `Items` is the live view of those rows that match `SearchText`.

The reactive wiring is replaced by pure functions over an immutable `State`:

- `BaseCommits.Load` and `BaseCommits.LoadMore` are the commands.
- Each command is split at its one `await`: `BeginLoad` or `BeginLoadMore` is
  the part before it, and `Complete` is the part after it.
- The awaited fetch is a parameter: either a `Page` or `FetchFailed`. For a
  load-more it is a `Fetcher`, the client's answer as a function of the URL,
  which `LoadMore` applies to the stored next-page URL. A failed
  fetch throws, so the statements before the `await` have taken effect and none
  after it run.
- `Items` is recomputed from the state on demand, so it can never be stale.

Modules:

- `Wrappers`: `Option`, which stands for C#'s nullable references; `GetOr` is `??`.
- `Text`: ordinal `IndexOf` for a one-character needle. Also the "prefix before
  the first separator, but only when its index is greater than 0" rule, which
  the description and the raw author name share.
- `Commits`: the commit, author and user records, and the row projection.
- `FilteredView`: a generic filter that keeps order, and its laws.
- `BaseCommits`: the paging state, the two commands, `SearchText` and `Items`.

Three behaviours of the code worth noting:

- A reload does not discard the stored next-page URL. `_nextUrl` is written only
  after a successful fetch, so a failed reload leaves the old URL in place
  (`Load`, failure case). `HasMore` is still false then, so the old URL cannot
  be requested.
- The filter is whatever `ContainsKeyword` decides. The model passes that test
  in as the parameter `contains` and does not assume it ignores case, nor that
  an empty search text matches every row. `ItemsUnfilteredWhenAllMatch` states
  what holds when every row does match.
- `LoadCommand` has no execution guard tied to `LoadMoreCommand`. A reload can
  therefore start and finish while a load-more request is still in flight.
  The late page is then appended after the new first page, so the collection
  mixes two load sessions (`LoadDuringLoadMoreMixesSessions`). The other way
  round works too: a load-more that completes while a reload is in flight sets
  `HasMore` again, so further load-mores can run before the reload's first page
  arrives and is appended after them (`LoadMoreReenabledDuringLoad`).

## Model

| member | source | states |
|---|---|---|
| Text.IndexOf | CodeBucket.Core/ViewModels/Commits/BaseCommitsViewModel.cs:84 | The result is -1 exactly when the character is absent. Otherwise the character sits at that index and does not occur earlier. |
| Text.LeadingSegment | CodeBucket.Core/ViewModels/Commits/BaseCommitsViewModel.cs:84-85 | The result is a prefix of the input. It is the whole input when the separator is missing or at index 0. Otherwise it is a non-empty, separator-free prefix that the separator directly follows. |
| Text.LeadingSegmentUnique | CodeBucket.Core/ViewModels/Commits/BaseCommitsViewModel.cs:84-85 | When the input does not start with the separator, a prefix is the segment if and only if it is separator-free and directly followed by the separator. |
| Commits.Description | CodeBucket.Core/ViewModels/Commits/BaseCommitsViewModel.cs:83-85 | A null message gives "". Otherwise the result is a prefix of the message. It is the whole message when the message has no newline or starts with one. Otherwise it is the newline-free text up to the first newline. |
| Commits.DescriptionNewlineOnlyWhenLeading | CodeBucket.Core/ViewModels/Commits/BaseCommitsViewModel.cs:84-85 | A description contains a newline if and only if the message starts with one. This is the index-0 boundary of `firstLine > 0`. |
| Commits.DescriptionFirstLineExample | CodeBucket.Core/ViewModels/Commits/BaseCommitsViewModel.cs:83-85 | "Fix bug\nDetails here" gives "Fix bug". |
| Commits.DescriptionLeadingNewlineExample | CodeBucket.Core/ViewModels/Commits/BaseCommitsViewModel.cs:84-85 | A message starting with a newline is kept whole. |
| Commits.DescriptionSingleLineExample | CodeBucket.Core/ViewModels/Commits/BaseCommitsViewModel.cs:84-85 | A message without a newline is kept whole. |
| Commits.DisplayName | CodeBucket.Core/ViewModels/Commits/BaseCommitsViewModel.cs:87-96 | With a linked user, the name is its display name, else its username. Without one, the name is a prefix of the raw author string. It is the whole string when '<' is missing or at index 0, else the '<'-free text up to the first '<'. |
| Commits.DisplayNameRawExample | CodeBucket.Core/ViewModels/Commits/BaseCommitsViewModel.cs:94-95 | "Jane Doe <jane@x.com>" gives "Jane Doe ". |
| Commits.DisplayNameRawBoundaryExamples | CodeBucket.Core/ViewModels/Commits/BaseCommitsViewModel.cs:94-95 | A raw author starting with '<', or without '<', is kept whole. |
| Commits.DisplayNameUserExamples | CodeBucket.Core/ViewModels/Commits/BaseCommitsViewModel.cs:88-91 | A linked user wins over the raw string. A missing display name falls back to the username. |
| Commits.ToViewModel | CodeBucket.Core/ViewModels/Commits/BaseCommitsViewModel.cs:81-99 | The row carries the display name, the description, the linked user's avatar URL (none without a user) and the commit hash. |
| Commits.ToViewModels | CodeBucket.Core/ViewModels/Commits/BaseCommitsViewModel.cs:52-53 | The derived collection has one row per commit, and row i is the projection of commit i. |
| Commits.ToViewModelsAppend | CodeBucket.Core/ViewModels/Commits/BaseCommitsViewModel.cs:52-53 | Projecting a concatenation gives the concatenation of the projections, so appended commits only append rows. |
| FilteredView.Filter | CodeBucket.Core/ViewModels/Commits/BaseCommitsViewModel.cs:55-58 | The result is a subsequence of the input, so order is kept. Every element in it passes the test, and every element of the input that passes is in it. |
| FilteredView.FilterCount | CodeBucket.Core/ViewModels/Commits/BaseCommitsViewModel.cs:55-58 | Each passing value occurs as often in the result as in the input. A failing value does not occur at all. |
| FilteredView.FilterAppend | CodeBucket.Core/ViewModels/Commits/BaseCommitsViewModel.cs:55-58 | Filtering a concatenation gives the concatenation of the filtered parts. |
| FilteredView.FilterIdempotent | CodeBucket.Core/ViewModels/Commits/BaseCommitsViewModel.cs:55-58 | Filtering the view again with the same test changes nothing. |
| FilteredView.FilterKeepsAll | CodeBucket.Core/ViewModels/Commits/BaseCommitsViewModel.cs:55-58 | The filter returns its whole input if and only if every element passes. |
| BaseCommits.Initial | CodeBucket.Core/ViewModels/Commits/BaseCommitsViewModel.cs:42-52 | A new view model has an empty collection, `HasMore` false, and a valid state. |
| BaseCommits.BeginLoad | CodeBucket.Core/ViewModels/Commits/BaseCommitsViewModel.cs:62-63 | Before its fetch, a load has emptied the collection and disabled load-more. The next-page URL is kept. |
| BaseCommits.BeginLoadMore | CodeBucket.Core/ViewModels/Commits/BaseCommitsViewModel.cs:73 | Before its fetch, a load-more has disabled itself and changed nothing else. |
| BaseCommits.Complete | CodeBucket.Core/ViewModels/Commits/BaseCommitsViewModel.cs:65-67 | After a fetch, the page's commits are appended, the page's next URL is stored, and `HasMore` holds exactly when that URL is non-empty. A failed fetch changes nothing. The step preserves validity. |
| BaseCommits.Load | CodeBucket.Core/ViewModels/Commits/BaseCommitsViewModel.cs:60-68 | On success, the collection is exactly the page's commits, with nothing merged from before. The cursor is the page's next URL, and `HasMore` holds if and only if that URL is non-empty. On failure, the collection is empty, `HasMore` is false and the old URL stays. |
| BaseCommits.LoadMore | CodeBucket.Core/ViewModels/Commits/BaseCommitsViewModel.cs:70-78 | When disabled, it is a no-op. Otherwise it asks the client for the stored next-page URL. On success, the page is appended after the existing commits, and the cursor and `HasMore` come from the page. On failure, the commits and URL are unchanged and `HasMore` is false. |
| BaseCommits.SetSearchText | CodeBucket.Core/ViewModels/Commits/BaseCommitsViewModel.cs:33-38 | Only the search text changes. |
| BaseCommits.Items | CodeBucket.Core/ViewModels/Commits/BaseCommitsViewModel.cs:52-58 | The view is a subsequence of the derived rows. Every shown row's name or description matches the search text. Every matching row is shown as many times as it occurs in the derived collection, and no other row is shown. |
| BaseCommits.LoadMoreBlockedWhileInFlight | CodeBucket.Core/ViewModels/Commits/BaseCommitsViewModel.cs:62-78 | Right after either command starts, a load-more is a no-op. |
| BaseCommits.LoadMoreRequestsStoredCursor | CodeBucket.Core/ViewModels/Commits/BaseCommitsViewModel.cs:74-78 | An enabled load-more in a valid state requests the stored next-page URL, which is non-empty. Its outcome depends only on the client's answer for that URL. |
| BaseCommits.LoadDiscardsPreviousCommits | CodeBucket.Core/ViewModels/Commits/BaseCommitsViewModel.cs:62-65 | A successful load gives the same state whatever was loaded before. |
| BaseCommits.ItemsAfterLoad | CodeBucket.Core/ViewModels/Commits/BaseCommitsViewModel.cs:52-65 | After a load, the view is the matching rows of the first page. |
| BaseCommits.ItemsAfterLoadMore | CodeBucket.Core/ViewModels/Commits/BaseCommitsViewModel.cs:52-78 | After a successful load-more, the view is the old view followed by the matching rows of the page the client returned for the stored URL. |
| BaseCommits.SearchTextRoundTrip | CodeBucket.Core/ViewModels/Commits/BaseCommitsViewModel.cs:55-58 | Setting the search text away and back restores the same view. |
| BaseCommits.ItemsUnfilteredWhenAllMatch | CodeBucket.Core/ViewModels/Commits/BaseCommitsViewModel.cs:55-58 | When every row matches, the view is the whole derived collection. |
| BaseCommits.SessionCollectsPages | CodeBucket.Core/ViewModels/Commits/BaseCommitsViewModel.cs:60-78 | A load followed by load-mores over chained pages holds all their commits in page order, when each later page is served only under the previous page's next URL. The cursor is the last page's next URL, and `HasMore` comes from that URL. |
| BaseCommits.SessionEndsWithoutCursor | CodeBucket.Core/ViewModels/Commits/BaseCommitsViewModel.cs:70-78 | Once a page has no next URL, later load-mores change nothing. |
| BaseCommits.SessionLastCursor | CodeBucket.Core/ViewModels/Commits/BaseCommitsViewModel.cs:76-77 | A session whose last page has no next URL ends with `HasMore` false. |
| BaseCommits.ContinuationExample | CodeBucket.Core/ViewModels/Commits/BaseCommitsViewModel.cs:60-78 | First page [a, b] with next "c2", then a load-more against any client that answers "c2" with [c] and no next page. The result is [a, b, c] with `HasMore` false. |
| BaseCommits.LoadMoreReenabledDuringLoad | CodeBucket.Core/ViewModels/Commits/BaseCommitsViewModel.cs:60-78 | A load-more that completes while a reload is in flight re-enables load-more. A further load-more then appends its page, and the reload's first page lands after both. |
| BaseCommits.LoadDuringLoadMoreMixesSessions | CodeBucket.Core/ViewModels/Commits/BaseCommitsViewModel.cs:60-78 | A reload that completes while a load-more is in flight is followed by the late page. |

## Left out

- ReactiveUI machinery: `ReactiveList`, `CreateDerivedCollection`, `WhenAnyValue` and `RaiseAndSetIfChanged`. Change notification is replaced by recomputing `Items` from the state.
- Command scheduling: a ReactiveCommand also refuses to start while it is already running. Within this model, a load starting during another load is not modelled. Interleavings are expressed only through the Begin/Complete steps.
- The HTTP client, the abstract `GetRequest` and the `Locator` service lookup. These are I/O and ambient wiring; pages come in as the `Fetch` parameter.
- The relative date (`Date.Humanize()`). This is a call into the Humanizer library; rows carry no date.
- The `Avatar` wrapper object beyond its URL, and the `GoToCommand` navigation to `CommitViewModel`. These are UI and navigation side channels with no logic to state.
- `ContainsKeyword`. Its implementation is not part of this model, so it is the parameter `contains`.
- `Title` and `IsEmpty`, which are constants.
- Commits.ToViewModel: a commit without an author, or without both a linked user and a raw author string, is excluded by the precondition `WellFormed`. The source dereferences null there.
- BaseCommits.Items: requires every loaded commit to be `WellFormed`, for the same reason.
- Text.IndexOf: counts positions in Unicode scalar values, the elements of a Dafny `string`, rather than in the UTF-16 code units of a C# string. A character outside the Basic Multilingual Plane shifts the index (`IndexOf("\U{1F600}\nx", '\n')` is 1 here and 2 in C#). The prefixes `Description` and `DisplayName` cut are the same text either way. Strings holding lone surrogates cannot be represented.
- Commits.DisplayName: the username of a linked user is taken to be non-null, so a name is never null.
