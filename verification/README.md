# Book catalog core, modelled in Dafny

This project models the logic beneath a small React book catalog. The catalog keeps
a list of book records in browser storage and shows them in a dashboard. The
modelled logic decides which records the user sees and how the record list changes:

- **Filtering.** Three AND-combined criteria: a trimmed, case-insensitive substring
  search on title or author, an exact genre and an exact status.
- **Pagination.** One page is sliced out, and the page count and record count are
  recomputed.
- **Page-reset rule and stat cards.** The dashboard's effect sends the current page
  back to 1 once it runs past the last page. The dashboard also counts total,
  available, issued and distinct authors.
- **State reducer and provider.** The shared state is changed by tagged actions. The
  provider's `fetchBooks`/`addBook`/`updateBook`/`deleteBook` dispatch actions around
  a call to the record store.
- **Record store.** Create, update and delete work on the stored list. The store
  falls back to an eight-record seed when storage is empty or unreadable.
- **Book form.** The schema validator checks length bounds, enum membership and an
  integer year range. The model also covers default values, prefill when editing,
  and the submit-then-close sequencing.
- **Filter-criteria handlers.** The one-field updates, clear-all, the "filters active"
  flag and the option lists.

One module per source file. `Results`, `Text`, `Seqs` and `BookLists` hold shared
definitions: option/result wrappers, the JavaScript string operations used, a generic
order-preserving `Filter`, and id lookup on record lists. `SeedText` holds the
facts about the seed's titles and authors that the search "the" relies on. The pure source files
(the two hooks, the filter handlers and the schema) become functions and lemmas.
Code that updates state in place becomes a class:

- `BookService.LocalStore` is the storage slot.
- `BookContext.BookProvider` is the reducer's state.
- `BookForm.BookFormView` is the form's values and open flag.
- `Dashboard.DashboardView` is the dialog flags.

A method on one of these classes states its whole new state in terms of the
specification functions. The provider also keeps a ghost log of dispatched actions,
and its invariant is that the state is the start state with the log replayed through
the reducer.

Searching "the" over the seed keeps three records (`BookService.SeedSearchThe`):
"The Great Gatsby", "The Catcher in the Rye" and "The Murder of Roger Ackroyd".

## Model

| member | source | states |
|---|---|---|
| BookTypes.ParseGenre | src/types/book.ts:5 | a parsed genre name is the name of the genre returned |
| BookTypes.GenreNameRoundTrip | src/types/book.ts:5 | every genre's name parses back to that genre |
| BookTypes.ParseStatus | src/types/book.ts:7 | a parsed status name is the name of the status returned |
| BookTypes.StatusNameRoundTrip | src/types/book.ts:7 | every status's name parses back to that status |
| BookTypes.NewBook | src/services/bookService.ts:116-120 | a created record carries exactly the five form fields, the given id and the given time stamp |
| BookTypes.ApplyForm | src/services/bookService.ts:138-141 | an updated record carries exactly the new form fields and keeps its id and time stamp |
| Text.TrimBlank | src/hooks/useBookFiltering.ts:9 | a string trims to empty exactly when every character is white space |
| Text.Lower | src/hooks/useBookFiltering.ts:10-14 | lowercasing keeps the length, turns each upper-case ASCII letter into its lower-case letter (32 code points on), leaves no upper-case letter, and keeps every other character in place |
| Text.TrimStart | src/hooks/useBookFiltering.ts:9-10 | dropping leading white space leaves a suffix that is empty or starts with a non-space, and everything dropped is white space |
| Text.TrimEnd | src/hooks/useBookFiltering.ts:9-10 | dropping trailing white space leaves a prefix that is empty or ends with a non-space, and everything dropped is white space |
| Text.Trim | src/hooks/useBookFiltering.ts:9-10 | the trimmed string occurs inside the original with only white space before and after it, and is empty or starts and ends with a non-space character |
| Text.Contains | src/hooks/useBookFiltering.ts:13-14 | `includes` holds exactly when the term occurs at some index |
| Seqs.Filter | src/hooks/useBookFiltering.ts:11-25 | a filter result is no longer than its input, and every element kept is from the input and passes |
| Seqs.FilterMembership | src/hooks/useBookFiltering.ts:11-25 | an element is in a filter result exactly when it is in the input and passes |
| Seqs.FilterIsSubsequence | src/hooks/useBookFiltering.ts:11-25 | a filter result is an order-preserving subsequence of its input |
| Seqs.FilterIdempotent | src/hooks/useBookFiltering.ts:11-25 | filtering twice with one predicate equals filtering once |
| Seqs.FilterFuse | src/hooks/useBookFiltering.ts:11-25 | two successive filters equal one filter by the conjunction |
| Seqs.FilterCount | src/services/bookService.ts:153 | each element that passes occurs in the result as often as in the input, and a failing one not at all |
| Seqs.FilterLengthCountsIndices | src/components/Dashboard.tsx:92-98 | a filter's length is the number of positions whose element passes |
| Seqs.FilterSplit | src/components/Dashboard.tsx:92-98 | the elements that pass and those that fail a test add up to the whole list |
| Seqs.FilterKeepsLength | src/services/bookService.ts:153-155 | a filter keeps the length exactly when every element passes |
| BookLists.FindIndex | src/services/bookService.ts:132 | `findIndex` gives -1 exactly when no record has the id, else the first index whose record has it |
| BookLists.ReplaceById | src/context/BookContext.tsx:59-61 | replace-by-id keeps the length and the id at every position |
| BookLists.ReplaceByIdAt | src/context/BookContext.tsx:59-61 | replace-by-id keeps the length and puts the payload exactly at the positions with its id |
| BookLists.ReplaceByIdKeepsIds | src/context/BookContext.tsx:59-61 | replace-by-id keeps every position's id, so unique ids stay unique |
| BookLists.ReplaceByIdIsReplaceAtIndex | src/services/bookService.ts:132-143 | with unique ids, replace-by-id equals replacing at the index `findIndex` returns |
| BookLists.WithoutId | src/services/bookService.ts:153 | removing an id gives a list no longer than before with no record carrying the id |
| BookLists.WithoutIdSpec | src/services/bookService.ts:153 | removing an id leaves no record with it, keeps every other record as many times as it occurred, and keeps their order |
| BookLists.WithoutIdShorter | src/services/bookService.ts:153-157 | removing an id keeps the length exactly when no record has the id |
| BookLists.WithoutIdKeepsUniqueIds | src/context/BookContext.tsx:66 | removing by id keeps ids unique |
| BookLists.AppendFreshKeepsUniqueIds | src/context/BookContext.tsx:55 | appending a record whose id is absent keeps ids unique |
| BookLists.ReplaceAtKeepsUniqueIds | src/services/bookService.ts:143 | overwriting a position with a record of the same id keeps ids unique |
| Filtering.FilterBooks | src/hooks/useBookFiltering.ts:6-28 | the result is no longer than the input, and every kept record is from the input and meets every active criterion |
| Filtering.PassIsFilter | src/hooks/useBookFiltering.ts:9-26 | a conditional filter pass equals a filter by "criterion inactive or record matches" |
| Filtering.ThreePasses | src/hooks/useBookFiltering.ts:6-28 | three conditional passes in a row equal one filter by "each criterion inactive or met" |
| Filtering.FilterBooksIsOnePass | src/hooks/useBookFiltering.ts:6-28 | the three-pass chain equals one filter by the conjunction of the active criteria |
| Filtering.FilterBooksSubsequence | src/hooks/useBookFiltering.ts:6-28 | the result is an order-preserving subsequence of the input, with no record added or duplicated |
| Filtering.FilterBooksExact | src/hooks/useBookFiltering.ts:9-26 | a record is in the result exactly when it is in the input and meets every active criterion (sound and complete) |
| Filtering.FilterBooksSound | src/hooks/useBookFiltering.ts:9-26 | every kept record contains the trimmed lowercased term in its lowercased title or author, and has the selected genre and status |
| Filtering.FilterBooksIdempotent | src/hooks/useBookFiltering.ts:6-28 | filtering the result again with the same criteria changes nothing |
| Filtering.FilterBooksNoCriteria | src/hooks/useBookFiltering.ts:9-26 | a blank search with empty genre and status returns the input unchanged |
| Filtering.WhitespaceSearchIgnored | src/hooks/useBookFiltering.ts:9 | a whitespace-only search filters exactly like an empty one |
| Pagination.CeilDiv | src/hooks/useBookPagination.ts:13 | the integer ceiling division is the least page count covering the list, and is 0 only for 0 |
| Pagination.Paginate | src/hooks/useBookPagination.ts:9-21 | the page holds at most `booksPerPage` records, all from the list; the total count is the list's length; page and page size are the request's |
| Pagination.PageIsSlice | src/hooks/useBookPagination.ts:9-11 | page n is the slice of the list from (n-1)*size to n*size, both clamped to the length |
| Pagination.PageContents | src/hooks/useBookPagination.ts:9-11 | the page holds exactly the records at indices from (page-1)*size up to min(page*size, length) |
| Pagination.PaginationFields | src/hooks/useBookPagination.ts:13-19 | the total count is the length and the page count is ceil(length/size), 0 exactly for an empty list; page and size are unchanged |
| Pagination.PageSize | src/hooks/useBookPagination.ts:9-13 | a page holds at most `booksPerPage` records, every page before the last is full, and the last is non-empty |
| Pagination.PageBeyondLastIsEmpty | src/hooks/useBookPagination.ts:9-13 | a page past the page count is empty |
| Pagination.PagesUpToPrefix | src/hooks/useBookPagination.ts:9-11 | the first n pages together are the list's prefix of length min(n*size, length) |
| Pagination.PagesPartition | src/hooks/useBookPagination.ts:9-13 | pages 1 to the page count, concatenated, are the whole list |
| SearchAndFilter.WithSearch | src/components/SearchAndFilter.tsx:21-23 | the search change sets the search and keeps genre and status |
| SearchAndFilter.WithGenre | src/components/SearchAndFilter.tsx:25-27 | the genre change sets the genre and keeps search and status |
| SearchAndFilter.WithStatus | src/components/SearchAndFilter.tsx:29-31 | the status change sets the status and keeps search and genre |
| SearchAndFilter.LatestChangeWins | src/components/SearchAndFilter.tsx:21-31 | two changes of one field leave only the second |
| SearchAndFilter.ClearedFilters | src/components/SearchAndFilter.tsx:33-35 | cleared filters count as inactive |
| SearchAndFilter.HasActiveFilters | src/components/SearchAndFilter.tsx:37 | the filters are inactive exactly when search, genre and status are all empty |
| SearchAndFilter.ClearShowsEverything | src/components/SearchAndFilter.tsx:33-35 | cleared filters are inactive, and filtering with them returns the full list |
| SearchAndFilter.InactiveShowsEverything | src/components/SearchAndFilter.tsx:37 | when no filter is active, filtering returns the full list |
| SearchAndFilter.BlankSearchActiveButUnconstrained | src/components/SearchAndFilter.tsx:37 | a whitespace-only search counts as active, though filtering ignores it |
| SearchAndFilter.GenreOptionsExact | src/components/SearchAndFilter.tsx:5 | the genre options are exactly the six genre names |
| SearchAndFilter.StatusOptionsExact | src/components/SearchAndFilter.tsx:6 | the status options are exactly the two status names |
| SearchAndFilter.GenreOptionSelects | src/components/SearchAndFilter.tsx:25-27 | choosing a genre option alone keeps exactly the records of that genre |
| BookForm.IssuesExact | src/components/BookForm.tsx:8-25 | an issue is reported exactly when its schema rule is broken |
| BookForm.IssuesEmptyIff | src/components/BookForm.tsx:8-25 | no issue is reported exactly when the title has 2 to 200 characters, the author 2 to 100, the genre and status are enum names, and the year is an integer from 1900 to the current year |
| BookForm.IssuesNoRepeats | src/components/BookForm.tsx:8-25 | no issue is reported twice, so each broken rule gives exactly one issue |
| BookForm.CheckAllNoRepeats | src/components/BookForm.tsx:8-25 | checking rules listed once each reports each failure once |
| BookForm.SchemaOrderNoRepeats | src/components/BookForm.tsx:8-25 | the schema lists each rule once |
| BookForm.CheckAllExact | src/components/BookForm.tsx:8-25 | checking a list of rules reports a rule exactly when it is in the list and broken |
| BookForm.CheckAllNone | src/components/BookForm.tsx:8-25 | checking rules of which none is broken reports nothing |
| BookForm.Validate | src/components/BookForm.tsx:8-25 | validation succeeds exactly on acceptable values, giving form data that satisfies every rule and converts back to the same values; otherwise it fails listing every broken rule and nothing else |
| BookForm.ValidDataAccepted | src/components/BookForm.tsx:8-25 | form data satisfying every rule is accepted unchanged |
| BookForm.Defaults | src/components/BookForm.tsx:48-54 | the defaults are an empty title and author, Fiction, Available and the current year as a whole number |
| BookForm.Prefill | src/components/BookForm.tsx:57-67 | editing takes title, author, genre, status and year from the record, with genre and status parsing back to the record's; with no record the form is reset to the defaults |
| BookForm.DefaultsFailOnlyOnText | src/components/BookForm.tsx:48-54 | the defaults fail only on the empty title and empty author |
| BookForm.PrefillResubmits | src/components/BookForm.tsx:57-67 | a form prefilled from a record is accepted exactly when the record's fields satisfy the rules, and then yields those fields |
| BookForm.BookFormView.constructor | src/components/BookForm.tsx:48-67 | a new form holds the prefill for the record being edited, or the defaults, and is open with no issues |
| BookForm.BookFormView.PrefillFrom | src/components/BookForm.tsx:57-67 | the five values are taken from the record being edited and the shown issues kept, or the values are reset to the defaults and the issues cleared |
| BookForm.BookFormView.Submit | src/components/BookForm.tsx:69-76 | invalid values are not sent, and their issues are shown; the form closes only when `onSubmit` completes, and a rejection is swallowed with the form left open |
| BookService.StoredOrSeed | src/services/bookService.ts:9-19 | a saved list is read back as is; a missing or unreadable slot gives the eight seed records, carrying the generated ids in order |
| BookService.SeedBooks | src/services/bookService.ts:25-99 | the seed has exactly eight records, carrying the generated ids in order |
| BookService.SeedIdsUnique | src/services/bookService.ts:25-99 | distinct generated ids give a seed with unique ids |
| BookService.SeedHasRecordTheFormRejects | src/services/bookService.ts:77 | a seed record is dated 1813, and the form refuses it unedited as too early |
| SeedText.TheIsItsOwnTerm | src/hooks/useBookFiltering.ts:10 | the search "the" is its own lowercased, trimmed term |
| SeedText.TheInTitles | src/services/bookService.ts:29-84 | "the" occurs in the lowercased titles of "The Great Gatsby", "The Catcher in the Rye" and "The Murder of Roger Ackroyd" |
| SeedText.NoTheInMockingbird | src/services/bookService.ts:38-39 | "the" occurs in neither the lowercased title nor the lowercased author of "To Kill a Mockingbird" |
| SeedText.NoTheInDune | src/services/bookService.ts:65-66 | "the" occurs in neither the lowercased title nor the lowercased author of "Dune" |
| SeedText.NoTheInPride | src/services/bookService.ts:74-75 | "the" occurs in neither the lowercased title nor the lowercased author of "Pride and Prejudice" |
| SeedText.NoTheInSapiens | src/services/bookService.ts:92-93 | "the" occurs in neither the lowercased title nor the lowercased author of "Sapiens: A Brief History of Humankind" |
| SeedText.NoTheInAutobiography | src/services/bookService.ts:56-57 | "the" occurs in neither the lowercased title nor the lowercased author of "Agatha Christie: An Autobiography" |
| BookService.SeedMatchesThe | src/services/bookService.ts:27-98 | the search "the" matches the first, third and seventh seed records and no others |
| BookService.SeedSearchThe | src/services/bookService.ts:27-98 | searching "the" over the seed keeps exactly three records, in seed order |
| BookService.LocalStore.SaveBooks | src/services/bookService.ts:21-23 | the slot is overwritten with the list |
| BookService.LocalStore.GetDefaultBooks | src/services/bookService.ts:25-103 | the seed is returned and persisted |
| BookService.LocalStore.GetStoredBooks | src/services/bookService.ts:9-19 | the saved list is returned, or the seed when the slot is empty or unreadable; either way the slot then holds it |
| BookService.LocalStore.GetAllBooks | src/services/bookService.ts:105-109 | the stored list is returned unchanged |
| BookService.LocalStore.CreateBook | src/services/bookService.ts:111-125 | the new record, with the form fields and a fresh id and stamp, is appended and persisted |
| BookService.LocalStore.UpdateBook | src/services/bookService.ts:127-146 | an unknown id fails with "Book not found" and the list is kept; otherwise the form fields are applied at the first matching index only, keeping its id and stamp |
| BookService.LocalStore.DeleteBook | src/services/bookService.ts:148-160 | a present id persists the list without it; an absent id fails with "Book not found" and the list is kept |
| BookService.CreateKeepsUniqueIds | src/services/bookService.ts:115-123 | creating with a fresh id keeps the stored ids unique |
| BookService.UpdateChangesOneRecord | src/services/bookService.ts:131-145 | an update changes only the matching index, keeps its id and stamp, sets the five form fields, and keeps ids unique |
| BookContext.InitialState | src/context/BookContext.tsx:28-36 | the start state has no records, error or selection, is not loading, and asks for page 1 with a valid page size |
| BookContext.InitialStateIsNeutral | src/context/BookContext.tsx:28-36 | the start state has no records, error or selection; it is not loading; its filters constrain nothing; its pagination is page 1 of 1, 0 records, ten per page |
| BookContext.Reduce | src/context/BookContext.tsx:38-71 | every action changes at most its own field of the state |
| BookContext.SettersStorePayload | src/context/BookContext.tsx:40-53 | each setter stores its payload in its own field |
| BookContext.AddAppends | src/context/BookContext.tsx:54-55 | `ADD_BOOK` grows the list by one, keeps the old list as prefix and puts the payload last |
| BookContext.UpdateReplacesMatching | src/context/BookContext.tsx:56-62 | `UPDATE_BOOK` keeps length and order, puts the payload at every position with its id, and leaves all others unchanged |
| BookContext.DeleteRemovesMatching | src/context/BookContext.tsx:63-67 | `DELETE_BOOK` leaves no record with the id, keeps every other record as many times as it occurred, and keeps their order |
| BookContext.ReduceKeepsUniqueIds | src/context/BookContext.tsx:54-67 | update and delete keep ids unique, and add does too when the new id is absent |
| BookContext.UpdateMirrorsStore | src/context/BookContext.tsx:59-61 | with unique ids, the reducer's update equals the store's in-place replacement |
| BookContext.ErrorMessage | src/context/BookContext.tsx:107 | an Error's message is shown, and any other thrown value gets the fallback text |
| BookContext.ErrorOnlyFromSetError | src/context/BookContext.tsx:38-71 | a run of actions without `SET_ERROR` leaves the error field as it was |
| BookContext.LoadingOffAfterFinally | src/context/BookContext.tsx:111 | a run of actions that ends by clearing loading leaves loading off |
| BookContext.ProviderStateFromLog | src/context/BookContext.tsx:98-113 | a provider that never dispatched `SET_ERROR` shows no error, and one whose last dispatch cleared loading is not loading |
| BookContext.BookProvider.constructor | src/context/BookContext.tsx:98 | the provider starts in the initial state with an empty log |
| BookContext.BookProvider.Dispatch | src/context/BookContext.tsx:98 | the state becomes the reducer's result, and the action is logged |
| BookContext.BookProvider.FetchBooks | src/context/BookContext.tsx:100-113 | success stores the list and clears the error; failure stores the message and keeps the list; loading is set, then cleared |
| BookContext.BookProvider.AddBook | src/context/BookContext.tsx:115-128 | success appends the created record; failure keeps the list and is passed on; loading ends off and the error field is untouched |
| BookContext.BookProvider.UpdateBook | src/context/BookContext.tsx:130-143 | success replaces the records with the id; failure keeps the list and is passed on; loading ends off and the error field is untouched |
| BookContext.BookProvider.DeleteBook | src/context/BookContext.tsx:145-158 | success removes the records with the id; failure keeps the list and is passed on; loading ends off and the error field is untouched |
| BookContext.BookProvider.SetFilters | src/context/BookContext.tsx:160-162 | only the filters change |
| BookContext.BookProvider.SetPagination | src/context/BookContext.tsx:164-166 | only the pagination changes |
| BookContext.BookProvider.SetSelectedBook | src/context/BookContext.tsx:168-170 | only the selection changes |
| Dashboard.ResetPolicy | src/components/Dashboard.tsx:40-44 | only the page can change, and only to 1; a page from 1 on ends within a positive page count |
| Dashboard.Reconcile | src/components/Dashboard.tsx:40-46 | the stored pagination is a valid request carrying the filtered list's count and the stored page size, with the page within range whenever there is a page |
| Dashboard.ReconcileSpec | src/components/Dashboard.tsx:40-46 | the stored pagination has the filtered totals; its page changes exactly when it was past a positive page count, and then to 1; it stays in 1..page count whenever there are pages |
| Dashboard.ReconcileIdempotent | src/components/Dashboard.tsx:40-46 | reconciling the stored result again for the same list changes nothing |
| Dashboard.ResetGoesToFirstPage | src/components/Dashboard.tsx:41-42 | page 5 with 15 matching records at ten per page is stored as page 1 of 2, not the last page |
| Dashboard.ReconciledPageNotEmpty | src/components/Dashboard.tsx:40-46 | after reconciliation, a non-empty filtered list always shows a non-empty page |
| Dashboard.ComputeStats | src/components/Dashboard.tsx:83-108 | the total is the record count; the Available and Issued cards count the positions holding a record of that status and add up to the total; the Authors card counts the distinct author strings, at most the total and at least 1 when there are records |
| Dashboard.StatusCounts | src/components/Dashboard.tsx:92-98 | each status filter's length is the number of positions holding a record of that status |
| Dashboard.AuthorsByPosition | src/components/Dashboard.tsx:102-107 | the distinct authors are exactly the authors at the list's positions |
| Dashboard.AuthorsSnoc | src/components/Dashboard.tsx:102-107 | adding a record adds its author to the distinct authors |
| Dashboard.StatsAddRecord | src/components/Dashboard.tsx:83-108 | adding one record raises the total by one, its own status's card by one and the other not at all, and the Authors card by one exactly when its author is new |
| Dashboard.AuthorsBounded | src/components/Dashboard.tsx:102-107 | the distinct-author count is at most the total, and at least 1 when there are records |
| Dashboard.DashboardView.constructor | src/components/Dashboard.tsx:29-31 | the form and the delete dialog start closed, with nothing to delete |
| Dashboard.DashboardView.HandleAddBook | src/components/Dashboard.tsx:48-51 | the selection is cleared and the form opened |
| Dashboard.DashboardView.HandleEditBook | src/components/Dashboard.tsx:53-56 | the record is selected and the form opened |
| Dashboard.DashboardView.HandleDeleteBook | src/components/Dashboard.tsx:58-61 | the record is remembered and the delete dialog opened |
| Dashboard.DashboardView.CancelDelete | src/components/Dashboard.tsx:197-200 | the delete dialog closes and the remembered record is forgotten |
| Dashboard.DashboardView.CloseForm | src/components/Dashboard.tsx:188 | the form closes |
| Dashboard.DashboardView.HandleBookSubmit | src/components/Dashboard.tsx:63-69 | with a selection, the selected id is updated; without one, a record is added; a failure is passed on |
| Dashboard.DashboardView.HandleConfirmDelete | src/components/Dashboard.tsx:71-77 | the remembered record is deleted; only on success is the dialog closed and the record forgotten; with none remembered, nothing happens |
| Dashboard.DashboardView.HandlePageChange | src/components/Dashboard.tsx:79-81 | only the current page changes |
| Dashboard.DashboardView.SyncPagination | src/components/Dashboard.tsx:40-46 | the stored pagination becomes the reconciliation of the filtered records |

## Left out

- Rendering is not modelled: JSX, styling and toasts. `BookTable`, `Pagination`,
  `DeleteConfirmModal`, `LoadingSkeleton` and `App` are not part of this model.
- Storage I/O is not modelled: `localStorage`, `JSON.stringify`/`JSON.parse` and Date
  serialisation. The slot is the datatype `Blob`: missing (this also covers an empty
  string), unreadable (parsing throws), or a saved list. Text that parses to something
  other than a list of records is not modelled.
- Id and time generation (`generateId`, `Date.now`, `Math.random`, `new Date()`,
  `getFullYear`) are not modelled. The fresh id, the time stamp, the eight seed ids
  and the current year are parameters. Time stamps are opaque integers.
- Asynchrony is not modelled: simulated delays, and interleavings of several calls in
  flight. Each provider operation is one atomic method that takes the store's outcome
  as a parameter. The `SET_LOADING(true)` on entry shows up only in the ghost action
  log, not as an observable intermediate state.
- React machinery is not modelled: memoisation, effect scheduling and re-render loops,
  react-hook-form and zod internals, and context lookup. The pagination effect is one
  method, `Dashboard.DashboardView.SyncPagination`. Its repetition is covered by
  `Dashboard.ReconcileIdempotent`.
- `Text.Lower` lowercases ASCII letters only, not the full Unicode mapping of
  `toLowerCase`.
- `Text.Trim` removes the common white-space characters and line terminators, not
  every Unicode space separator.
- String length is the number of characters here, not UTF-16 code units.
- `BookForm.Validate`: the year input is a real number, so the integer rule is
  checked. NaN and infinite inputs are not modelled.
- `BookForm.Validate`: zod evaluates the latest-year bound once, when the module
  loads. The default year is taken at render. Both are the single `currentYear`
  parameter here.
- `Pagination.Paginate` requires `currentPage >= 1` and `booksPerPage > 0`. Slices
  with negative indices are not modelled.
- `Dashboard.DashboardView.SyncPagination` requires `currentPage >= 1` and
  `booksPerPage > 0`, for the same reason.
- `BookContext.BookProvider.AddBook` and `BookContext.BookProvider.UpdateBook` take
  the store's result as input. Their requires clauses state the store's promise: the
  returned record carries the submitted fields and, for an update, the requested id.
- `Dashboard.DashboardView.HandleBookSubmit` takes the store's result as input, and
  its requires clauses state the same promise.
