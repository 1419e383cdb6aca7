/** The filter controls (src/components/SearchAndFilter.tsx). */
module SearchAndFilter {
  import opened BookTypes
  import opened Text
  import opened Filtering

  /** The genre drop-down's options, in display order. */
  const Genres: seq<string> := ["Fiction", "Non-Fiction", "Mystery", "Romance", "Sci-Fi", "Biography"]

  /** The status drop-down's options, in display order. */
  const Statuses: seq<string> := ["Available", "Issued"]

  /** `handleSearchChange`: a new search text, the other criteria kept. */
  function WithSearch(f: BookFilters, search: string): (r: BookFilters)
    ensures r.search == search && r.genre == f.genre && r.status == f.status
  {
    f.(search := search)
  }

  /** `handleGenreChange`. */
  function WithGenre(f: BookFilters, genre: string): (r: BookFilters)
    ensures r.genre == genre && r.search == f.search && r.status == f.status
  {
    f.(genre := genre)
  }

  /** `handleStatusChange`. */
  function WithStatus(f: BookFilters, status: string): (r: BookFilters)
    ensures r.status == status && r.search == f.search && r.genre == f.genre
  {
    f.(status := status)
  }

  /** `clearFilters`: afterwards no filter is active. */
  function ClearedFilters(): (r: BookFilters)
    ensures !HasActiveFilters(r)
  {
    BookFilters("", "", "")
  }

  /** `hasActiveFilters`: false exactly when all three criteria are empty. */
  function HasActiveFilters(f: BookFilters): (r: bool)
    ensures !r <==> f == BookFilters("", "", "")
  {
    f.search != "" || f.genre != "" || f.status != ""
  }

  /** Each handler's change is overwritten by the next change of the same field. */
  lemma LatestChangeWins(f: BookFilters, a: string, b: string)
    ensures WithSearch(WithSearch(f, a), b) == WithSearch(f, b)
    ensures WithGenre(WithGenre(f, a), b) == WithGenre(f, b)
    ensures WithStatus(WithStatus(f, a), b) == WithStatus(f, b)
  {
  }

  /** After clearing, nothing is active and every record is shown. */
  lemma ClearShowsEverything(books: seq<Book>)
    ensures !HasActiveFilters(ClearedFilters())
    ensures FilterBooks(books, ClearedFilters()) == books
  {
    FilterBooksNoCriteria(books, ClearedFilters());
  }

  /** When no filter is active the list is shown unchanged. */
  lemma InactiveShowsEverything(books: seq<Book>, f: BookFilters)
    requires !HasActiveFilters(f)
    ensures FilterBooks(books, f) == books
  {
    FilterBooksNoCriteria(books, f);
  }

  /** The converse fails: a blank search counts as active yet constrains nothing. */
  lemma BlankSearchActiveButUnconstrained(books: seq<Book>)
    ensures HasActiveFilters(BookFilters(" ", "", ""))
    ensures FilterBooks(books, BookFilters(" ", "", "")) == books
  {
    FilterBooksNoCriteria(books, BookFilters(" ", "", ""));
  }

  /** The genre options are exactly the names of the six genres. */
  lemma GenreOptionsExact(s: string)
    ensures s in Genres <==> ParseGenre(s).Some?
    ensures forall g :: GenreName(g) in Genres
  {
  }

  /** The status options are exactly the names of the two statuses. */
  lemma StatusOptionsExact(s: string)
    ensures s in Statuses <==> ParseStatus(s).Some?
    ensures forall st :: StatusName(st) in Statuses
  {
  }

  /** Choosing a genre option alone shows exactly the records of that genre. */
  lemma GenreOptionSelects(books: seq<Book>, g: Genre, b: Book)
    ensures b in FilterBooks(books, WithGenre(ClearedFilters(), GenreName(g))) <==> b in books && b.genre == g
  {
    var f := WithGenre(ClearedFilters(), GenreName(g));
    FilterBooksExact(books, f, b);
    assert Trim("") == "";
    GenreNameRoundTrip(b.genre);
    GenreNameRoundTrip(g);
  }
}
