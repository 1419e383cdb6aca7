/**
 * The shared catalog state (src/context/BookContext.tsx): the state record, the
 * reducer over tagged actions, and the provider whose operations dispatch
 * actions around a call into the record store.
 */
module BookContext {
  import opened Results
  import opened BookTypes
  import opened BookLists
  import opened Seqs
  import Filtering
  import Pagination

  datatype BookState = BookState(
    books: seq<Book>,
    filteredBooks: seq<Book>,
    filters: BookFilters,
    pagination: PaginationInfo,
    selectedBook: Option<Book>,
    loading: bool,
    error: Option<string>)

  datatype BookAction =
    | SetLoading(isLoading: bool)
    | SetBooks(newBooks: seq<Book>)
    | SetFilteredBooks(newFiltered: seq<Book>)
    | SetFilters(newFilters: BookFilters)
    | SetPagination(newPagination: PaginationInfo)
    | SetSelectedBook(newSelected: Option<Book>)
    | SetError(newError: Option<string>)
    | AddBook(added: Book)
    | UpdateBook(updated: Book)
    | DeleteBook(deletedId: string)

  /** The state the provider starts from. */
  function InitialState(): (r: BookState)
    ensures r.books == [] && r.filteredBooks == [] && !r.loading && r.error.None? && r.selectedBook.None?
    ensures Pagination.ValidRequest(r.pagination) && r.pagination.currentPage == 1
  {
    BookState([], [], BookFilters("", "", ""), PaginationInfo(1, 1, 0, 10), None, false, None)
  }

  /**
   * The start state shows no records, no error and nothing selected; its filters
   * constrain nothing and its pagination is a valid request for page 1 of ten.
   */
  lemma InitialStateIsNeutral(books: seq<Book>)
    ensures var s := InitialState();
      && s.books == [] && s.filteredBooks == [] && !s.loading && s.error.None? && s.selectedBook.None?
      && Filtering.FilterBooks(books, s.filters) == books
      && Pagination.ValidRequest(s.pagination)
      && s.pagination.currentPage == 1 && s.pagination.booksPerPage == 10
      && s.pagination.totalPages == 1 && s.pagination.totalBooks == 0
  {
    Filtering.FilterBooksNoCriteria(books, InitialState().filters);
  }

  /** The fields of the state record. */
  datatype Field = Books | FilteredBooks | Filters | PaginationField | SelectedBook | Loading | Error

  /** The one field an action may change. */
  function Touches(a: BookAction): Field {
    match a
    case SetLoading(_) => Loading
    case SetBooks(_) => Books
    case SetFilteredBooks(_) => FilteredBooks
    case SetFilters(_) => Filters
    case SetPagination(_) => PaginationField
    case SetSelectedBook(_) => SelectedBook
    case SetError(_) => Error
    case AddBook(_) => Books
    case UpdateBook(_) => Books
    case DeleteBook(_) => Books
  }

  /** `s` and `r` agree on every field but `f`. */
  predicate SameExcept(s: BookState, r: BookState, f: Field) {
    && (f != Books ==> r.books == s.books)
    && (f != FilteredBooks ==> r.filteredBooks == s.filteredBooks)
    && (f != Filters ==> r.filters == s.filters)
    && (f != PaginationField ==> r.pagination == s.pagination)
    && (f != SelectedBook ==> r.selectedBook == s.selectedBook)
    && (f != Loading ==> r.loading == s.loading)
    && (f != Error ==> r.error == s.error)
  }

  /** `bookReducer`. */
  function Reduce(s: BookState, a: BookAction): (r: BookState)
    ensures SameExcept(s, r, Touches(a))
  {
    match a
    case SetLoading(v) => s.(loading := v)
    case SetBooks(v) => s.(books := v)
    case SetFilteredBooks(v) => s.(filteredBooks := v)
    case SetFilters(v) => s.(filters := v)
    case SetPagination(v) => s.(pagination := v)
    case SetSelectedBook(v) => s.(selectedBook := v)
    case SetError(v) => s.(error := v)
    case AddBook(b) => s.(books := s.books + [b])
    case UpdateBook(b) => s.(books := ReplaceById(s.books, b))
    case DeleteBook(id) => s.(books := WithoutId(s.books, id))
  }

  /** Each setter stores its payload in its own field. */
  lemma SettersStorePayload(s: BookState, a: BookAction)
    ensures a.SetLoading? ==> Reduce(s, a).loading == a.isLoading
    ensures a.SetBooks? ==> Reduce(s, a).books == a.newBooks
    ensures a.SetFilteredBooks? ==> Reduce(s, a).filteredBooks == a.newFiltered
    ensures a.SetFilters? ==> Reduce(s, a).filters == a.newFilters
    ensures a.SetPagination? ==> Reduce(s, a).pagination == a.newPagination
    ensures a.SetSelectedBook? ==> Reduce(s, a).selectedBook == a.newSelected
    ensures a.SetError? ==> Reduce(s, a).error == a.newError
  {
  }

  /** `ADD_BOOK` appends: one longer, the old list a prefix, the payload last. */
  lemma AddAppends(s: BookState, b: Book)
    ensures var r := Reduce(s, AddBook(b));
      && |r.books| == |s.books| + 1
      && r.books[..|s.books|] == s.books
      && r.books[|s.books|] == b
  {
  }

  /**
   * `UPDATE_BOOK` keeps length and order, puts the payload at every position
   * whose id is the payload's, and leaves every other record alone.
   */
  lemma UpdateReplacesMatching(s: BookState, b: Book)
    ensures var r := Reduce(s, UpdateBook(b));
      && |r.books| == |s.books|
      && (forall i :: 0 <= i < |s.books| && s.books[i].id == b.id ==> r.books[i] == b)
      && (forall i :: 0 <= i < |s.books| && s.books[i].id != b.id ==> r.books[i] == s.books[i])
  {
    ReplaceByIdAt(s.books, b);
  }

  /**
   * `DELETE_BOOK` leaves no record with the id and keeps every other record,
   * as many times as it occurred, in order.
   */
  lemma DeleteRemovesMatching(s: BookState, id: string)
    ensures var r := Reduce(s, DeleteBook(id));
      && !HasId(r.books, id)
      && IsSubsequence(r.books, s.books)
      && (forall b :: multiset(r.books)[b] == if b.id == id then 0 else multiset(s.books)[b])
  {
    assert Reduce(s, DeleteBook(id)).books == WithoutId(s.books, id);
    WithoutIdSpec(s.books, id);
  }

  /**
   * The list actions keep ids unique: update and delete always, add when the
   * new id is not already present.
   */
  lemma ReduceKeepsUniqueIds(s: BookState, a: BookAction)
    requires UniqueIds(s.books)
    requires a.AddBook? ==> !HasId(s.books, a.added.id)
    requires a.SetBooks? ==> UniqueIds(a.newBooks)
    ensures UniqueIds(Reduce(s, a).books)
  {
    match a
    case AddBook(b) => AppendFreshKeepsUniqueIds(s.books, b);
    case UpdateBook(b) => ReplaceByIdKeepsIds(s.books, b);
    case DeleteBook(id) => WithoutIdKeepsUniqueIds(s.books, id);
    case _ =>
  }

  /**
   * With unique ids, the reducer's update of a present id is the store's
   * in-place replacement at the id's index: state and store stay in step.
   */
  lemma UpdateMirrorsStore(books: seq<Book>, id: string, data: BookFormData)
    requires UniqueIds(books) && HasId(books, id)
    ensures var k := FindIndex(books, id);
      ReplaceById(books, ApplyForm(books[k], data)) == books[k := ApplyForm(books[k], data)]
  {
    var k := FindIndex(books, id);
    ReplaceByIdIsReplaceAtIndex(books, ApplyForm(books[k], data));
  }

  /** `error instanceof Error ? error.message : fallback`. */
  function ErrorMessage(e: Thrown, fallback: string): (m: string)
    ensures e.ErrorObject? ==> m == e.message
    ensures e.OtherValue? ==> m == fallback
  {
    match e
    case ErrorObject(message) => message
    case OtherValue => fallback
  }

  const FetchFailedMessage := "Failed to fetch books"

  /**
   * The provider: the reducer's state plus the operations the views call. Each
   * operation is one atomic step that receives the record store's outcome;
   * `log` records the actions dispatched, in order.
   */
  class BookProvider {
    var state: BookState
    ghost var log: seq<BookAction>

    /** The state is the start state with the logged actions applied in order. */
    ghost predicate Valid()
      reads this
    {
      state == Replay(InitialState(), log)
    }

    constructor ()
      ensures Valid()
      ensures state == InitialState() && log == []
    {
      state := InitialState();
      log := [];
    }

    method Dispatch(a: BookAction)
      requires Valid()
      modifies this
      ensures Valid()
      ensures state == Reduce(old(state), a)
      ensures log == old(log) + [a]
    {
      ReplayAppend(InitialState(), log, a);
      state := Reduce(state, a);
      log := log + [a];
    }

    /**
     * `fetchBooks`: on success store the list and clear the error; on failure
     * record the message and keep the list. Loading is on during the call and
     * off afterwards.
     */
    method FetchBooks(result: Result<seq<Book>, Thrown>)
      requires Valid()
      modifies this
      ensures Valid()
      ensures result.Ok? ==>
        && state == old(state).(books := result.value, error := None, loading := false)
        && log == old(log) + [SetLoading(true), SetBooks(result.value), SetError(None), SetLoading(false)]
      ensures result.Err? ==>
        && state == old(state).(error := Some(ErrorMessage(result.error, FetchFailedMessage)), loading := false)
        && log == old(log) + [SetLoading(true), SetError(Some(ErrorMessage(result.error, FetchFailedMessage))), SetLoading(false)]
    {
      Dispatch(SetLoading(true));
      match result {
        case Ok(books) =>
          Dispatch(SetBooks(books));
          Dispatch(SetError(None));
        case Err(e) =>
          var errorMessage := ErrorMessage(e, FetchFailedMessage);
          Dispatch(SetError(Some(errorMessage)));
      }
      Dispatch(SetLoading(false));
    }

    /**
     * `addBook`: append the created record; a failure leaves the list alone and
     * is passed on. Loading ends off; the error field is never touched.
     */
    method AddBook(data: BookFormData, result: Result<Book, Thrown>) returns (r: Outcome<Thrown>)
      requires result.Ok? ==> FormOf(result.value) == data
      requires Valid()
      modifies this
      ensures Valid()
      ensures result.Ok? ==>
        && r == Pass
        && state == old(state).(books := old(state).books + [result.value], loading := false)
        && log == old(log) + [SetLoading(true), BookAction.AddBook(result.value), SetLoading(false)]
      ensures result.Err? ==>
        && r == Fail(result.error)
        && state == old(state).(loading := false)
        && log == old(log) + [SetLoading(true), SetLoading(false)]
    {
      Dispatch(SetLoading(true));
      match result {
        case Ok(newBook) =>
          Dispatch(BookAction.AddBook(newBook));
          r := Pass;
        case Err(e) =>
          r := Fail(e);
      }
      Dispatch(SetLoading(false));
    }

    /**
     * `updateBook`: replace the records carrying `id` by the updated one; a
     * failure leaves the list alone and is passed on.
     */
    method UpdateBook(id: string, data: BookFormData, result: Result<Book, Thrown>)
      returns (r: Outcome<Thrown>)
      requires result.Ok? ==> result.value.id == id && FormOf(result.value) == data
      requires Valid()
      modifies this
      ensures Valid()
      ensures result.Ok? ==>
        && r == Pass
        && state == old(state).(books := ReplaceById(old(state).books, result.value), loading := false)
        && log == old(log) + [SetLoading(true), BookAction.UpdateBook(result.value), SetLoading(false)]
      ensures result.Err? ==>
        && r == Fail(result.error)
        && state == old(state).(loading := false)
        && log == old(log) + [SetLoading(true), SetLoading(false)]
    {
      Dispatch(SetLoading(true));
      match result {
        case Ok(updatedBook) =>
          Dispatch(BookAction.UpdateBook(updatedBook));
          r := Pass;
        case Err(e) =>
          r := Fail(e);
      }
      Dispatch(SetLoading(false));
    }

    /**
     * `deleteBook`: drop the records carrying `id` once the store has; a failure
     * leaves the list alone and is passed on.
     */
    method DeleteBook(id: string, result: Outcome<Thrown>) returns (r: Outcome<Thrown>)
      requires Valid()
      modifies this
      ensures Valid()
      ensures r == result
      ensures result.Pass? ==>
        && state == old(state).(books := WithoutId(old(state).books, id), loading := false)
        && log == old(log) + [SetLoading(true), BookAction.DeleteBook(id), SetLoading(false)]
      ensures result.Fail? ==>
        && state == old(state).(loading := false)
        && log == old(log) + [SetLoading(true), SetLoading(false)]
    {
      Dispatch(SetLoading(true));
      if result.Pass? {
        Dispatch(BookAction.DeleteBook(id));
      }
      r := result;
      Dispatch(SetLoading(false));
    }

    method SetFilters(filters: BookFilters)
      requires Valid()
      modifies this
      ensures Valid()
      ensures state == old(state).(filters := filters)
      ensures log == old(log) + [BookAction.SetFilters(filters)]
    {
      Dispatch(BookAction.SetFilters(filters));
    }

    method SetPagination(pagination: PaginationInfo)
      requires Valid()
      modifies this
      ensures Valid()
      ensures state == old(state).(pagination := pagination)
      ensures log == old(log) + [BookAction.SetPagination(pagination)]
    {
      Dispatch(BookAction.SetPagination(pagination));
    }

    method SetSelectedBook(book: Option<Book>)
      requires Valid()
      modifies this
      ensures Valid()
      ensures state == old(state).(selectedBook := book)
      ensures log == old(log) + [BookAction.SetSelectedBook(book)]
    {
      Dispatch(BookAction.SetSelectedBook(book));
    }
  }

  /**
   * Replaying a provider's log from its starting state gives its current state:
   * the reducer is the only way the state changes.
   */
  function Replay(s: BookState, log: seq<BookAction>): BookState
    decreases |log|
  {
    if log == [] then s else Replay(Reduce(s, log[0]), log[1..])
  }

  lemma {:induction false} ReplayAppend(s: BookState, log: seq<BookAction>, a: BookAction)
    ensures Replay(s, log + [a]) == Reduce(Replay(s, log), a)
    decreases |log|
  {
    if log != [] {
      assert (log + [a])[1..] == log[1..] + [a];
      ReplayAppend(Reduce(s, log[0]), log[1..], a);
    }
  }

  /**
   * Only `fetchBooks` writes the error: replaying any log without `SET_ERROR`
   * keeps the error field as it was.
   */
  lemma {:induction false} ErrorOnlyFromSetError(s: BookState, log: seq<BookAction>)
    requires forall i :: 0 <= i < |log| ==> !log[i].SetError?
    ensures Replay(s, log).error == s.error
    decreases |log|
  {
    if log != [] {
      ErrorOnlyFromSetError(Reduce(s, log[0]), log[1..]);
    }
  }

  /** Loading is off after any log that ends with `SET_LOADING(false)`. */
  lemma LoadingOffAfterFinally(s: BookState, log: seq<BookAction>)
    requires log != [] && log[|log| - 1] == SetLoading(false)
    ensures !Replay(s, log).loading
  {
    assert log == log[..|log| - 1] + [SetLoading(false)];
    ReplayAppend(s, log[..|log| - 1], SetLoading(false));
  }

  /**
   * What a provider's history says about its state: with no `SET_ERROR`
   * dispatched it shows no error, and when its last dispatch was
   * `SET_LOADING(false)` it is not loading.
   */
  lemma ProviderStateFromLog(p: BookProvider)
    requires p.Valid()
    ensures (forall i :: 0 <= i < |p.log| ==> !p.log[i].SetError?) ==> p.state.error.None?
    ensures p.log != [] && p.log[|p.log| - 1] == SetLoading(false) ==> !p.state.loading
  {
    if forall i :: 0 <= i < |p.log| ==> !p.log[i].SetError? {
      ErrorOnlyFromSetError(InitialState(), p.log);
    }
    if p.log != [] && p.log[|p.log| - 1] == SetLoading(false) {
      LoadingOffAfterFinally(InitialState(), p.log);
    }
  }
}
