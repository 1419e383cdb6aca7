/** The visible page of a record list (src/hooks/useBookPagination.ts). */
module Pagination {
  import opened BookTypes

  /** What the hook returns: the page's records and the recomputed pagination. */
  datatype PageView = PageView(books: seq<Book>, pagination: PaginationInfo)

  /** Pages are numbered from 1 and hold a positive number of records. */
  predicate ValidRequest(p: PaginationInfo) {
    p.currentPage >= 1 && p.booksPerPage > 0
  }

  function Min(a: int, b: int): int {
    if a <= b then a else b
  }

  /** `s.slice(start, end)` for `0 <= start <= end`: both ends are clipped to the list. */
  function Slice(s: seq<Book>, start: nat, end: nat): seq<Book>
    requires start <= end
  {
    s[Min(start, |s|)..Min(end, |s|)]
  }

  /** `Math.ceil(n / d)` on integers: the fewest pages of `d` that hold `n` records. */
  function CeilDiv(n: nat, d: int): (r: nat)
    requires d > 0
    ensures r * d >= n
    ensures n > 0 ==> (r - 1) * d < n
    ensures r == 0 <==> n == 0
  {
    var q := (n + d - 1) / d;
    var m := (n + d - 1) % d;
    assert n + d - 1 == q * d + m && 0 <= m < d;
    assert (q - 1) * d == q * d - d;
    assert q == 0 ==> n + d - 1 == m;
    q
  }

  /** The first index of page `page`. */
  function PageStart(page: int, perPage: int): int {
    (page - 1) * perPage
  }

  /**
   * The hook's body: slice out the current page and recompute the totals. The
   * page holds at most a page's worth of the list's records; the totals are
   * recomputed from the list and the requested page and page size are kept.
   */
  function Paginate(books: seq<Book>, p: PaginationInfo): (r: PageView)
    requires ValidRequest(p)
    ensures |r.books| <= p.booksPerPage && |r.books| <= |books|
    ensures forall k :: 0 <= k < |r.books| ==> r.books[k] in books
    ensures r.pagination.totalBooks == |books|
    ensures r.pagination.(totalPages := p.totalPages, totalBooks := p.totalBooks) == p
  {
    var startIndex := PageStart(p.currentPage, p.booksPerPage);
    var endIndex := startIndex + p.booksPerPage;
    PageView(
      Slice(books, startIndex, endIndex),
      p.(totalPages := CeilDiv(|books|, p.booksPerPage), totalBooks := |books|))
  }

  function TotalPages(books: seq<Book>, p: PaginationInfo): int
    requires ValidRequest(p)
  {
    Paginate(books, p).pagination.totalPages
  }

  lemma StartIsNonNegative(page: int, perPage: int)
    requires page >= 1 && perPage > 0
    ensures PageStart(page, perPage) >= 0
    ensures PageStart(page + 1, perPage) == PageStart(page, perPage) + perPage
  {
  }

  lemma MulMonotone(a: int, b: int, c: int)
    requires a <= b && c >= 0
    ensures a * c <= b * c
  {
  }

  /** The page holds exactly the records at `[(cp-1)*per, min(cp*per, len))`, in order. */
  lemma PageContents(books: seq<Book>, p: PaginationInfo)
    requires ValidRequest(p)
    ensures var start := PageStart(p.currentPage, p.booksPerPage);
      var page := Paginate(books, p).books;
      && |page| == (if start < |books| then Min(start + p.booksPerPage, |books|) - start else 0)
      && forall k :: 0 <= k < |page| ==> page[k] == books[start + k]
  {
    StartIsNonNegative(p.currentPage, p.booksPerPage);
  }

  /** The recomputed pagination: totals from the list, page and page size as given. */
  lemma PaginationFields(books: seq<Book>, p: PaginationInfo)
    requires ValidRequest(p)
    ensures var q := Paginate(books, p).pagination;
      && q.totalBooks == |books|
      && q.currentPage == p.currentPage
      && q.booksPerPage == p.booksPerPage
      && q.totalPages * p.booksPerPage >= |books|
      && (|books| > 0 ==> (q.totalPages - 1) * p.booksPerPage < |books|)
      && (q.totalPages == 0 <==> |books| == 0)
  {
  }

  /** No page is larger than the page size, and every page before the last is full. */
  lemma PageSize(books: seq<Book>, p: PaginationInfo)
    requires ValidRequest(p)
    ensures |Paginate(books, p).books| <= p.booksPerPage
    ensures p.currentPage < TotalPages(books, p) ==> |Paginate(books, p).books| == p.booksPerPage
    ensures p.currentPage == TotalPages(books, p) ==> |Paginate(books, p).books| > 0
  {
    var per := p.booksPerPage;
    var cp := p.currentPage;
    var tp := TotalPages(books, p);
    PageContents(books, p);
    if cp < tp {
      MulMonotone(cp, tp - 1, per);
      assert PageStart(cp, per) + per == cp * per;
    }
    if cp == tp {
      assert PageStart(cp, per) == (tp - 1) * per;
    }
  }

  /** A page number past the last page shows nothing. */
  lemma PageBeyondLastIsEmpty(books: seq<Book>, p: PaginationInfo)
    requires ValidRequest(p) && p.currentPage > TotalPages(books, p)
    ensures Paginate(books, p).books == []
  {
    var per := p.booksPerPage;
    var tp := TotalPages(books, p);
    MulMonotone(tp, p.currentPage - 1, per);
    assert PageStart(p.currentPage, per) >= |books|;
  }

  /** The records on pages `1..n`, concatenated. */
  function PagesUpTo(books: seq<Book>, perPage: int, n: nat): seq<Book>
    requires perPage > 0
  {
    if n == 0 then []
    else PagesUpTo(books, perPage, n - 1) + Paginate(books, PaginationInfo(n, 0, 0, perPage)).books
  }

  lemma {:induction false} PagesUpToPrefix(books: seq<Book>, perPage: int, n: nat)
    requires perPage > 0
    ensures PagesUpTo(books, perPage, n) == books[..Min(n * perPage, |books|)]
  {
    if n > 0 {
      PagesUpToPrefix(books, perPage, n - 1);
      PageIsSlice(books, perPage, n);
      assert n * perPage == (n - 1) * perPage + perPage;
      PrefixSplit(books, Min((n - 1) * perPage, |books|), Min(n * perPage, |books|));
    }
  }

  /** A prefix is a shorter prefix followed by the slice between the two ends. */
  lemma PrefixSplit(s: seq<Book>, lo: nat, hi: nat)
    requires lo <= hi <= |s|
    ensures s[..hi] == s[..lo] + s[lo..hi]
  {
  }

  /** Page `n` is the slice between the ends of pages `n - 1` and `n`, clipped to the list. */
  lemma PageIsSlice(books: seq<Book>, perPage: int, n: nat)
    requires perPage > 0 && n >= 1
    ensures Paginate(books, PaginationInfo(n, 0, 0, perPage)).books
      == books[Min((n - 1) * perPage, |books|)..Min(n * perPage, |books|)]
  {
    assert PageStart(n, perPage) == (n - 1) * perPage;
    assert n * perPage == (n - 1) * perPage + perPage;
  }

  /** The pages `1..totalPages` partition the list: concatenated, they are the list. */
  lemma PagesPartition(books: seq<Book>, p: PaginationInfo)
    requires ValidRequest(p)
    ensures PagesUpTo(books, p.booksPerPage, TotalPages(books, p)) == books
  {
    PagesUpToPrefix(books, p.booksPerPage, TotalPages(books, p));
  }
}
