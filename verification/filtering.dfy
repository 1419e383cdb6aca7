/** The visible subset of the catalog (src/hooks/useBookFiltering.ts). */
module Filtering {
  import opened BookTypes
  import opened Text
  import opened Seqs

  /** The search box constrains only when something other than white space was typed. */
  predicate SearchActive(f: BookFilters) {
    Trim(f.search) != ""
  }

  /** The term looked for: the search text lowercased, then trimmed. */
  function SearchTerm(f: BookFilters): string {
    Trim(Lower(f.search))
  }

  predicate MatchesSearch(b: Book, term: string) {
    Contains(Lower(b.title), term) || Contains(Lower(b.author), term)
  }

  predicate MatchesGenre(b: Book, genre: string) {
    GenreName(b.genre) == genre
  }

  predicate MatchesStatus(b: Book, status: string) {
    StatusName(b.status) == status
  }

  /** All active criteria at once; an empty criterion imposes nothing. */
  predicate Matches(b: Book, f: BookFilters) {
    && (!SearchActive(f) || MatchesSearch(b, SearchTerm(f)))
    && (f.genre == "" || MatchesGenre(b, f.genre))
    && (f.status == "" || MatchesStatus(b, f.status))
  }

  /** One conditional pass: `filter` when the criterion is active, the input otherwise. */
  function Pass(active: bool, s: seq<Book>, p: Book -> bool): (r: seq<Book>)
    ensures |r| <= |s|
    ensures forall b :: b in r ==> b in s && (active ==> p(b))
  {
    if active then Filter(s, p) else s
  }

  /**
   * The hook's body: a search pass, then a genre pass, then a status pass.
   * Every record kept is one of the input's and meets every active criterion.
   */
  function FilterBooks(books: seq<Book>, f: BookFilters): (r: seq<Book>)
    ensures |r| <= |books|
    ensures forall b :: b in r ==> b in books && Matches(b, f)
  {
    var bySearch := Pass(SearchActive(f), books, (b: Book) => MatchesSearch(b, SearchTerm(f)));
    var byGenre := Pass(f.genre != "", bySearch, (b: Book) => MatchesGenre(b, f.genre));
    Pass(f.status != "", byGenre, (b: Book) => MatchesStatus(b, f.status))
  }

  lemma PassIsFilter(active: bool, s: seq<Book>, p: Book -> bool, q: Book -> bool)
    requires forall b :: q(b) == (!active || p(b))
    ensures Pass(active, s, p) == Filter(s, q)
  {
    if active {
      FilterCongruent(s, p, q);
    } else {
      FilterAllPass(s, q);
    }
  }

  /** Three conditional passes select what one pass by the conjunction `m` selects. */
  lemma ThreePasses(books: seq<Book>, a1: bool, p1: Book -> bool, a2: bool, p2: Book -> bool,
                    a3: bool, p3: Book -> bool, m: Book -> bool)
    requires forall b :: m(b) == ((!a1 || p1(b)) && (!a2 || p2(b)) && (!a3 || p3(b)))
    ensures Pass(a3, Pass(a2, Pass(a1, books, p1), p2), p3) == Filter(books, m)
  {
    var q1 := (b: Book) => !a1 || p1(b);
    var q2 := (b: Book) => !a2 || p2(b);
    var q3 := (b: Book) => !a3 || p3(b);
    var q12 := (b: Book) => q1(b) && q2(b);
    var s1 := Filter(books, q1);
    var s2 := Filter(books, q12);
    PassIsFilter(a1, books, p1, q1);
    PassIsFilter(a2, s1, p2, q2);
    FilterFuse(books, q1, q2, q12);
    PassIsFilter(a3, s2, p3, q3);
    FilterFuse(books, q12, q3, m);
  }

  /** The three passes select what one pass by the combined criteria selects. */
  lemma FilterBooksIsOnePass(books: seq<Book>, f: BookFilters)
    ensures FilterBooks(books, f) == Filter(books, (b: Book) => Matches(b, f))
  {
    ThreePasses(books, SearchActive(f), (b: Book) => MatchesSearch(b, SearchTerm(f)),
      f.genre != "", (b: Book) => MatchesGenre(b, f.genre),
      f.status != "", (b: Book) => MatchesStatus(b, f.status),
      (b: Book) => Matches(b, f));
  }

  /** The result is an order-preserving subsequence: nothing added, duplicated or reordered. */
  lemma FilterBooksSubsequence(books: seq<Book>, f: BookFilters)
    ensures IsSubsequence(FilterBooks(books, f), books)
    ensures multiset(FilterBooks(books, f)) <= multiset(books)
  {
    FilterBooksIsOnePass(books, f);
    FilterIsSubsequence(books, (b: Book) => Matches(b, f));
    SubsequenceMultiset(FilterBooks(books, f), books);
  }

  /** Soundness and completeness: a record is shown exactly when it is in the input and matches. */
  lemma FilterBooksExact(books: seq<Book>, f: BookFilters, b: Book)
    ensures b in FilterBooks(books, f) <==> b in books && Matches(b, f)
  {
    FilterBooksIsOnePass(books, f);
    FilterMembership(books, (b: Book) => Matches(b, f), b);
  }

  /** Each active criterion holds of every record kept. */
  lemma FilterBooksSound(books: seq<Book>, f: BookFilters)
    ensures forall b :: b in FilterBooks(books, f) ==>
      && (SearchActive(f) ==>
            Contains(Lower(b.title), Trim(Lower(f.search))) || Contains(Lower(b.author), Trim(Lower(f.search))))
      && (f.genre != "" ==> GenreName(b.genre) == f.genre)
      && (f.status != "" ==> StatusName(b.status) == f.status)
  {
    forall b | b in FilterBooks(books, f) {
      FilterBooksExact(books, f, b);
    }
  }

  /** Filtering the result again with the same criteria returns it unchanged. */
  lemma FilterBooksIdempotent(books: seq<Book>, f: BookFilters)
    ensures FilterBooks(FilterBooks(books, f), f) == FilterBooks(books, f)
  {
    var once := FilterBooks(books, f);
    FilterBooksIsOnePass(books, f);
    FilterBooksIsOnePass(once, f);
    FilterIdempotent(books, (b: Book) => Matches(b, f));
  }

  /** With a blank search and no genre or status, every record is shown, in order. */
  lemma FilterBooksNoCriteria(books: seq<Book>, f: BookFilters)
    requires AllSpace(f.search) && f.genre == "" && f.status == ""
    ensures FilterBooks(books, f) == books
  {
    TrimBlank(f.search);
  }

  /** A search made of white space only selects what an empty search selects. */
  lemma WhitespaceSearchIgnored(books: seq<Book>, f: BookFilters)
    requires AllSpace(f.search)
    ensures FilterBooks(books, f) == FilterBooks(books, f.(search := ""))
  {
    TrimBlank(f.search);
    assert Trim("") == "";
  }
}
