/**
 * The dashboard (src/components/Dashboard.tsx): the page-reset rule applied
 * after each recomputation, the stat-card counts, and the handlers that open
 * and close the form and the delete dialog around the provider's operations.
 */
module Dashboard {
  import opened Results
  import opened BookTypes
  import opened BookLists
  import opened Seqs
  import opened Filtering
  import opened Pagination
  import BookContext

  /**
   * The effect's decision: a current page past a positive page count goes back
   * to page 1; anything else is stored as computed. Only the page can change,
   * and a page from 1 on ends up within a positive page count.
   */
  function ResetPolicy(u: PaginationInfo): (r: PaginationInfo)
    ensures r.(currentPage := u.currentPage) == u
    ensures r.currentPage != u.currentPage ==> r.currentPage == 1
    ensures u.currentPage >= 1 && u.totalPages > 0 ==> 1 <= r.currentPage <= u.totalPages
  {
    if u.currentPage > u.totalPages && u.totalPages > 0 then u.(currentPage := 1) else u
  }

  /**
   * What the effect stores: the recomputed pagination of the filtered list,
   * reset if needed. It is a valid request for the filtered list's totals and
   * the stored page size, whose page is within range whenever there is a page.
   */
  function Reconcile(filtered: seq<Book>, stored: PaginationInfo): (r: PaginationInfo)
    requires ValidRequest(stored)
    ensures ValidRequest(r)
    ensures r.totalBooks == |filtered| && r.booksPerPage == stored.booksPerPage
    ensures r.totalPages > 0 ==> r.currentPage <= r.totalPages
  {
    ResetPolicy(Paginate(filtered, stored).pagination)
  }

  /**
   * The stored pagination carries the filtered list's totals; its page changes
   * exactly when it was past a positive page count, and then to 1; afterwards
   * the page is within range whenever there is any page.
   */
  lemma ReconcileSpec(filtered: seq<Book>, stored: PaginationInfo)
    requires ValidRequest(stored)
    ensures var r := Reconcile(filtered, stored);
      var pages := CeilDiv(|filtered|, stored.booksPerPage);
      && r.totalPages == pages
      && r.totalBooks == |filtered|
      && r.booksPerPage == stored.booksPerPage
      && (r.currentPage != stored.currentPage <==> stored.currentPage > pages && pages > 0)
      && (r.currentPage != stored.currentPage ==> r.currentPage == 1)
      && (pages == 0 ==> r.currentPage == stored.currentPage)
      && (pages > 0 ==> 1 <= r.currentPage <= pages)
      && ValidRequest(r)
  {
    PaginationFields(filtered, stored);
  }

  /** Reconciling what reconciliation stored, for the same list, stores the same thing. */
  lemma ReconcileIdempotent(filtered: seq<Book>, stored: PaginationInfo)
    requires ValidRequest(stored)
    ensures ValidRequest(Reconcile(filtered, stored))
    ensures Reconcile(filtered, Reconcile(filtered, stored)) == Reconcile(filtered, stored)
  {
    ReconcileSpec(filtered, stored);
    var r := Reconcile(filtered, stored);
    ReconcileSpec(filtered, r);
  }

  /**
   * The reset goes to the first page, not the last: page 5 of ten per page over
   * 15 matching records is stored as page 1 of 2.
   */
  lemma ResetGoesToFirstPage(filtered: seq<Book>, stored: PaginationInfo)
    requires |filtered| == 15
    requires stored.currentPage == 5 && stored.booksPerPage == 10
    ensures Reconcile(filtered, stored).currentPage == 1
    ensures Reconcile(filtered, stored).totalPages == 2
  {
    ReconcileSpec(filtered, stored);
  }

  /** After reconciliation a non-empty filtered list always shows a non-empty page. */
  lemma ReconciledPageNotEmpty(filtered: seq<Book>, stored: PaginationInfo)
    requires ValidRequest(stored) && filtered != []
    ensures ValidRequest(Reconcile(filtered, stored))
    ensures Paginate(filtered, Reconcile(filtered, stored)).books != []
  {
    var r := Reconcile(filtered, stored);
    ReconcileSpec(filtered, stored);
    PaginationFields(filtered, stored);
    PageSize(filtered, r);
  }

  /** The four stat cards. */
  datatype Stats = Stats(total: int, available: int, issued: int, authors: int)

  predicate IsAvailable(b: Book) {
    b.status == Available
  }

  predicate IsIssued(b: Book) {
    b.status == Issued
  }

  /** The distinct author strings. */
  function AuthorSet(books: seq<Book>): set<string> {
    set b | b in books :: b.author
  }

  /**
   * The stat cards over all records: the total is the number of records, the
   * Available and Issued cards count the positions holding a record of that
   * status, and the Authors card counts the distinct author strings. The two
   * status counts add up to the total, and there are never more authors than
   * records, and at least one when there are records.
   */
  function ComputeStats(books: seq<Book>): (r: Stats)
    ensures r.total == |books|
    ensures r.available == |set k | 0 <= k < |books| && books[k].status == Available|
    ensures r.issued == |set k | 0 <= k < |books| && books[k].status == Issued|
    ensures r.authors == |set k | 0 <= k < |books| :: books[k].author|
    ensures r.available + r.issued == r.total
    ensures r.authors <= r.total && (books != [] ==> r.authors >= 1)
  {
    FilterSplit(books, IsAvailable, IsIssued);
    StatusCounts(books);
    AuthorsBounded(books);
    AuthorsByPosition(books);
    Stats(|books|, |Filter(books, IsAvailable)|, |Filter(books, IsIssued)|, |AuthorSet(books)|)
  }

  /** Each status filter keeps one record per position holding that status. */
  lemma StatusCounts(books: seq<Book>)
    ensures |Filter(books, IsAvailable)| == |set k | 0 <= k < |books| && books[k].status == Available|
    ensures |Filter(books, IsIssued)| == |set k | 0 <= k < |books| && books[k].status == Issued|
  {
    FilterLengthCountsIndices(books, IsAvailable);
    assert Positions(books, IsAvailable) == set k | 0 <= k < |books| && books[k].status == Available;
    FilterLengthCountsIndices(books, IsIssued);
    assert Positions(books, IsIssued) == set k | 0 <= k < |books| && books[k].status == Issued;
  }

  /** The distinct authors are the authors found at the positions of the list. */
  lemma AuthorsByPosition(books: seq<Book>)
    ensures AuthorSet(books) == set k | 0 <= k < |books| :: books[k].author
  {
    forall a | a in AuthorSet(books) ensures exists k :: 0 <= k < |books| && books[k].author == a {
      var b :| b in books && b.author == a;
      var k :| 0 <= k < |books| && books[k] == b;
    }
  }

  /**
   * Adding one record raises the total by one, the count of its own status by
   * one and the other status's count not at all, and the Authors card by one
   * exactly when its author is new.
   */
  lemma StatsAddRecord(books: seq<Book>, b: Book)
    ensures var before, after := ComputeStats(books), ComputeStats(books + [b]);
      && after.total == before.total + 1
      && after.available == before.available + (if b.status == Available then 1 else 0)
      && after.issued == before.issued + (if b.status == Issued then 1 else 0)
      && after.authors == before.authors + (if b.author in AuthorSet(books) then 0 else 1)
  {
    assert ComputeStats(books + [b]).available == ComputeStats(books).available + (if b.status == Available then 1 else 0) by {
      FilterSnoc(books, b, IsAvailable);
    }
    assert ComputeStats(books + [b]).issued == ComputeStats(books).issued + (if b.status == Issued then 1 else 0) by {
      FilterSnoc(books, b, IsIssued);
    }
    assert ComputeStats(books + [b]).authors == ComputeStats(books).authors + (if b.author in AuthorSet(books) then 0 else 1) by {
      AuthorsSnoc(books, b);
      var before := AuthorSet(books);
      if b.author in before {
        assert before + {b.author} == before;
      } else {
        assert |before + {b.author}| == |before| + 1;
      }
    }
  }

  /** Adding a record adds its author to the distinct authors. */
  lemma AuthorsSnoc(books: seq<Book>, b: Book)
    ensures AuthorSet(books + [b]) == AuthorSet(books) + {b.author}
  {
    assert forall c :: c in books + [b] <==> c in books || c == b;
  }

  /** There are never more authors than records, and at least one when there are records. */
  lemma {:induction false} AuthorsBounded(books: seq<Book>)
    ensures |AuthorSet(books)| <= |books|
    ensures books != [] ==> |AuthorSet(books)| >= 1
  {
    if books != [] {
      AuthorsBounded(books[1..]);
      assert AuthorSet(books) == {books[0].author} + AuthorSet(books[1..]) by {
        assert forall b :: b in books <==> b == books[0] || b in books[1..];
      }
      assert books[0].author in AuthorSet(books);
    }
  }

  /** The dashboard's own view state, over the provider it reads and drives. */
  class DashboardView {
    const provider: BookContext.BookProvider
    var showBookForm: bool
    var showDeleteModal: bool
    var bookToDelete: Option<Book>

    constructor (provider: BookContext.BookProvider)
      ensures this.provider == provider
      ensures !showBookForm && !showDeleteModal && bookToDelete.None?
    {
      this.provider := provider;
      showBookForm := false;
      showDeleteModal := false;
      bookToDelete := None;
    }

    /** `handleAddBook`: clear the selection and open the form. */
    method HandleAddBook()
      requires provider.Valid()
      modifies this, provider
      ensures provider.Valid()
      ensures provider.state == old(provider.state).(selectedBook := None)
      ensures showBookForm
      ensures showDeleteModal == old(showDeleteModal) && bookToDelete == old(bookToDelete)
    {
      provider.SetSelectedBook(None);
      showBookForm := true;
    }

    /** `handleEditBook`: select the record and open the form. */
    method HandleEditBook(book: Book)
      requires provider.Valid()
      modifies this, provider
      ensures provider.Valid()
      ensures provider.state == old(provider.state).(selectedBook := Some(book))
      ensures showBookForm
      ensures showDeleteModal == old(showDeleteModal) && bookToDelete == old(bookToDelete)
    {
      provider.SetSelectedBook(Some(book));
      showBookForm := true;
    }

    /** `handleDeleteBook`: remember the record and open the delete dialog. */
    method HandleDeleteBook(book: Book)
      modifies this
      ensures bookToDelete == Some(book) && showDeleteModal
      ensures showBookForm == old(showBookForm)
    {
      bookToDelete := Some(book);
      showDeleteModal := true;
    }

    /** The delete dialog's cancel: close it and forget the record. */
    method CancelDelete()
      modifies this
      ensures !showDeleteModal && bookToDelete.None?
      ensures showBookForm == old(showBookForm)
    {
      showDeleteModal := false;
      bookToDelete := None;
    }

    /**
     * The form's close (`onClose`): the form's own `open` flag
     * (`BookForm.BookFormView.open`) is this `showBookForm`.
     */
    method CloseForm()
      modifies this
      ensures !showBookForm
      ensures showDeleteModal == old(showDeleteModal) && bookToDelete == old(bookToDelete)
    {
      showBookForm := false;
    }

    /**
     * `handleBookSubmit`: update the selected record by its id when one is
     * selected, add a record otherwise; a failure is passed on to the form.
     */
    method HandleBookSubmit(data: BookFormData, result: Result<Book, Thrown>)
      returns (r: Outcome<Thrown>)
      requires provider.Valid()
      requires result.Ok? ==> FormOf(result.value) == data
      requires result.Ok? && provider.state.selectedBook.Some? ==>
        result.value.id == provider.state.selectedBook.value.id
      modifies provider
      ensures provider.Valid()
      ensures result.Err? ==> r == Fail(result.error) && provider.state == old(provider.state).(loading := false)
      ensures result.Ok? ==> r == Pass
      ensures result.Ok? && old(provider.state.selectedBook).Some? ==>
        provider.state == old(provider.state).(books := ReplaceById(old(provider.state.books), result.value), loading := false)
      ensures result.Ok? && old(provider.state.selectedBook).None? ==>
        provider.state == old(provider.state).(books := old(provider.state.books) + [result.value], loading := false)
    {
      if provider.state.selectedBook.Some? {
        r := provider.UpdateBook(provider.state.selectedBook.value.id, data, result);
      } else {
        r := provider.AddBook(data, result);
      }
    }

    /**
     * `handleConfirmDelete`: delete the remembered record; only when that
     * completes is the dialog closed and the record forgotten. With no record
     * remembered nothing happens.
     */
    method HandleConfirmDelete(result: Outcome<Thrown>) returns (r: Outcome<Thrown>)
      requires provider.Valid()
      modifies this, provider
      ensures provider.Valid()
      ensures showBookForm == old(showBookForm)
      ensures old(bookToDelete).None? ==>
        r == Pass && provider.state == old(provider.state)
        && showDeleteModal == old(showDeleteModal) && bookToDelete == old(bookToDelete)
      ensures old(bookToDelete).Some? && result.Pass? ==>
        && r == Pass
        && provider.state == old(provider.state).(books := WithoutId(old(provider.state.books), old(bookToDelete).value.id), loading := false)
        && !showDeleteModal && bookToDelete.None?
      ensures old(bookToDelete).Some? && result.Fail? ==>
        && r == result
        && provider.state == old(provider.state).(loading := false)
        && showDeleteModal == old(showDeleteModal) && bookToDelete == old(bookToDelete)
    {
      r := Pass;
      if bookToDelete.Some? {
        r := provider.DeleteBook(bookToDelete.value.id, result);
        if r.Pass? {
          showDeleteModal := false;
          bookToDelete := None;
        }
      }
    }

    /** `handlePageChange`: store the requested page, keeping the rest of the pagination. */
    method HandlePageChange(page: int)
      requires provider.Valid()
      modifies provider
      ensures provider.Valid()
      ensures provider.state == old(provider.state).(pagination := old(provider.state.pagination).(currentPage := page))
    {
      provider.SetPagination(provider.state.pagination.(currentPage := page));
    }

    /**
     * The pagination effect: filter the records, recompute the pagination for the
     * stored request, reset the page if it ran past the end, and store the result.
     */
    method SyncPagination()
      requires provider.Valid()
      requires ValidRequest(provider.state.pagination)
      modifies provider
      ensures provider.Valid()
      ensures provider.state == old(provider.state).(pagination :=
        Reconcile(FilterBooks(old(provider.state.books), old(provider.state.filters)), old(provider.state.pagination)))
    {
      var filteredBooks := FilterBooks(provider.state.books, provider.state.filters);
      var updatedPagination := Paginate(filteredBooks, provider.state.pagination).pagination;
      if updatedPagination.currentPage > updatedPagination.totalPages && updatedPagination.totalPages > 0 {
        provider.SetPagination(updatedPagination.(currentPage := 1));
      } else {
        provider.SetPagination(updatedPagination);
      }
    }
  }
}
