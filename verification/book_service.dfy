/**
 * The record store (src/services/bookService.ts): a list of records kept in
 * one storage slot, seeded with eight records when the slot is empty or
 * unreadable.
 */
module BookService {
  import opened Results
  import opened BookTypes
  import opened BookLists
  import opened Text
  import opened Seqs
  import opened Filtering
  import BookForm
  import SeedText

  /** The message of the error thrown by update and delete for an unknown id. */
  const NotFoundMessage := "Book not found"

  /**
   * The storage slot: never written, holding text that does not parse, or
   * holding a saved list.
   */
  datatype Blob = Missing | Unreadable | Saved(books: seq<Book>)

  const SeedCount := 8

  /** `getDefaultBooks`' eight literal records, with the ids the generator hands out. */
  function SeedBooks(ids: seq<string>): (r: seq<Book>)
    requires |ids| == SeedCount
    ensures |r| == SeedCount
    ensures forall k :: 0 <= k < SeedCount ==> r[k].id == ids[k]
  {
    [
      Book(ids[0], "The Great Gatsby", "F. Scott Fitzgerald", Fiction, 1925, Available, 1705276800000),
      Book(ids[1], "To Kill a Mockingbird", "Harper Lee", Fiction, 1960, Issued, 1705363200000),
      Book(ids[2], "The Catcher in the Rye", "J.D. Salinger", Fiction, 1951, Available, 1705449600000),
      Book(ids[3], "Agatha Christie: An Autobiography", "Agatha Christie", Biography, 1977, Available, 1705536000000),
      Book(ids[4], "Dune", "Frank Herbert", SciFi, 1965, Issued, 1705622400000),
      Book(ids[5], "Pride and Prejudice", "Jane Austen", Romance, 1813, Available, 1705708800000),
      Book(ids[6], "The Murder of Roger Ackroyd", "Agatha Christie", Mystery, 1926, Available, 1705795200000),
      Book(ids[7], "Sapiens: A Brief History of Humankind", "Yuval Noah Harari", NonFiction, 2011, Issued, 1705881600000)
    ]
  }

  /**
   * What `getStoredBooks` reads: the saved list as saved, or, when the slot is
   * empty or unreadable, the eight seed records carrying the generated ids.
   */
  function StoredOrSeed(blob: Blob, seedIds: seq<string>): (r: seq<Book>)
    requires |seedIds| == SeedCount
    ensures blob.Saved? ==> r == blob.books
    ensures !blob.Saved? ==> |r| == SeedCount && forall k :: 0 <= k < SeedCount ==> r[k].id == seedIds[k]
  {
    match blob
    case Saved(books) => books
    case _ => SeedBooks(seedIds)
  }

  /** Distinct generated ids give a seed with unique ids. */
  lemma SeedIdsUnique(ids: seq<string>)
    requires |ids| == SeedCount
    requires forall i, j :: 0 <= i < j < |ids| ==> ids[i] != ids[j]
    ensures UniqueIds(SeedBooks(ids))
  {
  }

  /**
   * One seed record lies below the form's earliest year: re-submitting it
   * unedited is refused with `YearTooEarly`.
   */
  lemma SeedHasRecordTheFormRejects(ids: seq<string>, currentYear: int)
    requires |ids| == SeedCount
    ensures SeedBooks(ids)[5].publishedYear == 1813 < BookForm.MinYear
    ensures BookForm.Validate(BookForm.Prefill(Some(SeedBooks(ids)[5]), currentYear), currentYear).Err?
    ensures BookForm.YearTooEarly in
      BookForm.Validate(BookForm.Prefill(Some(SeedBooks(ids)[5]), currentYear), currentYear).error
  {
    var v := BookForm.Prefill(Some(SeedBooks(ids)[5]), currentYear);
    assert BookForm.Fails(v, currentYear, BookForm.YearTooEarly);
  }

  /** The browser storage slot with the store's operations on it. */
  class LocalStore {
    var blob: Blob

    constructor (initial: Blob)
      ensures blob == initial
    {
      blob := initial;
    }

    /** `saveBooks`: overwrite the slot with the list. */
    method SaveBooks(books: seq<Book>)
      modifies this
      ensures blob == Saved(books)
    {
      blob := Saved(books);
    }

    /** `getDefaultBooks`: build the seed and persist it. */
    method GetDefaultBooks(seedIds: seq<string>) returns (books: seq<Book>)
      requires |seedIds| == SeedCount
      modifies this
      ensures books == SeedBooks(seedIds) && blob == Saved(books)
    {
      books := SeedBooks(seedIds);
      SaveBooks(books);
    }

    /** `getStoredBooks`: the saved list, or the seed (persisted) when none can be read. */
    method GetStoredBooks(seedIds: seq<string>) returns (books: seq<Book>)
      requires |seedIds| == SeedCount
      modifies this
      ensures books == StoredOrSeed(old(blob), seedIds)
      ensures blob == Saved(books)
    {
      match blob {
        case Saved(saved) =>
          books := saved;
        case Missing =>
          books := GetDefaultBooks(seedIds);
        case Unreadable =>
          books := GetDefaultBooks(seedIds);
      }
    }

    /** `getAllBooks`: the stored list, unchanged. */
    method GetAllBooks(seedIds: seq<string>) returns (books: seq<Book>)
      requires |seedIds| == SeedCount
      modifies this
      ensures books == StoredOrSeed(old(blob), seedIds)
      ensures blob == Saved(books)
    {
      books := GetStoredBooks(seedIds);
    }

    /** `createBook`: append a record with a new id and stamp, and persist. */
    method CreateBook(data: BookFormData, seedIds: seq<string>, newId: string, now: Timestamp)
      returns (newBook: Book)
      requires |seedIds| == SeedCount
      modifies this
      ensures newBook == NewBook(data, newId, now)
      ensures blob == Saved(StoredOrSeed(old(blob), seedIds) + [newBook])
    {
      var books := GetStoredBooks(seedIds);
      newBook := NewBook(data, newId, now);
      books := books + [newBook];
      SaveBooks(books);
    }

    /**
     * `updateBook`: replace the form fields of the first record with `id`, keeping
     * its id and stamp, and persist; throw "Book not found" when there is none.
     */
    method UpdateBook(id: string, data: BookFormData, seedIds: seq<string>)
      returns (r: Result<Book, string>)
      requires |seedIds| == SeedCount
      modifies this
      ensures var before := StoredOrSeed(old(blob), seedIds);
        var k := FindIndex(before, id);
        && (r.Err? <==> !HasId(before, id))
        && (k == -1 ==> r == Err(NotFoundMessage) && blob == Saved(before))
        && (k != -1 ==> r == Ok(ApplyForm(before[k], data)) && blob == Saved(before[k := r.value]))
    {
      var books := GetStoredBooks(seedIds);
      var bookIndex := FindIndex(books, id);
      if bookIndex == -1 {
        return Err(NotFoundMessage);
      }
      var updatedBook := ApplyForm(books[bookIndex], data);
      books := books[bookIndex := updatedBook];
      SaveBooks(books);
      r := Ok(updatedBook);
    }

    /**
     * `deleteBook`: persist the list without the records carrying `id`; throw
     * "Book not found", writing nothing more, when the list did not shrink.
     */
    method DeleteBook(id: string, seedIds: seq<string>) returns (r: Outcome<string>)
      requires |seedIds| == SeedCount
      modifies this
      ensures var before := StoredOrSeed(old(blob), seedIds);
        && (HasId(before, id) ==> r == Pass && blob == Saved(WithoutId(before, id)))
        && (!HasId(before, id) ==> r == Fail(NotFoundMessage) && blob == Saved(before))
    {
      var books := GetStoredBooks(seedIds);
      var filteredBooks := WithoutId(books, id);
      WithoutIdShorter(books, id);
      if |books| == |filteredBooks| {
        return Fail(NotFoundMessage);
      }
      SaveBooks(filteredBooks);
      r := Pass;
    }
  }

  /** Creating with a fresh id keeps ids unique in the store. */
  lemma CreateKeepsUniqueIds(before: seq<Book>, data: BookFormData, newId: string, now: Timestamp)
    requires UniqueIds(before) && !HasId(before, newId)
    ensures UniqueIds(before + [NewBook(data, newId, now)])
  {
    AppendFreshKeepsUniqueIds(before, NewBook(data, newId, now));
  }

  /**
   * An update changes only the first record with the id, keeps its id and stamp,
   * and keeps ids unique.
   */
  lemma UpdateChangesOneRecord(before: seq<Book>, id: string, data: BookFormData)
    requires HasId(before, id)
    ensures var k := FindIndex(before, id);
      var after := before[k := ApplyForm(before[k], data)];
      && |after| == |before|
      && after[k].id == before[k].id && after[k].createdAt == before[k].createdAt
      && FormOf(after[k]) == data
      && (forall i :: 0 <= i < |before| && i != k ==> after[i] == before[i])
      && (UniqueIds(before) ==> UniqueIds(after))
  {
    var k := FindIndex(before, id);
    if UniqueIds(before) {
      ReplaceAtKeepsUniqueIds(before, k, ApplyForm(before[k], data));
    }
  }

  /** The search term "the" on the seed. */
  lemma SearchTheIsActive()
    ensures SearchActive(BookFilters("the", "", ""))
    ensures SearchTerm(BookFilters("the", "", "")) == "the"
  {
    var f := BookFilters("the", "", "");
    assert SearchActive(f) by {
      SeedText.TheIsItsOwnTerm();
    }
    assert SearchTerm(f) == "the" by {
      SeedText.TheIsItsOwnTerm();
    }
  }

  /** Which seed records the search "the" matches, record by record. */
  lemma SeedMatchesThe(ids: seq<string>)
    requires |ids| == SeedCount
    ensures var seed := SeedBooks(ids);
      var f := BookFilters("the", "", "");
      && Matches(seed[0], f) && !Matches(seed[1], f) && Matches(seed[2], f) && !Matches(seed[3], f)
      && !Matches(seed[4], f) && !Matches(seed[5], f) && Matches(seed[6], f) && !Matches(seed[7], f)
  {
    SearchTheIsActive();
    SeedText.NoTheInMockingbird();
    SeedText.NoTheInAutobiography();
    SeedText.NoTheInDune();
    SeedText.NoTheInPride();
    SeedText.NoTheInSapiens();
    SeedText.TheInTitles();
  }

  /**
   * On the eight seed records, searching "the" keeps exactly three, in seed
   * order: "The Great Gatsby", "The Catcher in the Rye" and "The Murder of Roger Ackroyd".
   */
  lemma SeedSearchThe(ids: seq<string>)
    requires |ids| == SeedCount
    ensures var seed := SeedBooks(ids);
      FilterBooks(seed, BookFilters("the", "", "")) == [seed[0], seed[2], seed[6]]
  {
    var seed := SeedBooks(ids);
    var f := BookFilters("the", "", "");
    SeedMatchesThe(ids);
    FilterBooksIsOnePass(seed, f);
    KeepsFirstThirdSeventh(seed, (b: Book) => Matches(b, f));
  }
}
