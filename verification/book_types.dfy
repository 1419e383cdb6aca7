/** The record types of the catalog (src/types/book.ts). */
module BookTypes {
  import opened Results

  datatype Genre = Fiction | NonFiction | Mystery | Romance | SciFi | Biography

  datatype Status = Available | Issued

  /** Milliseconds since the epoch; the model treats it as an opaque stamp. */
  type Timestamp = int

  datatype Book = Book(
    id: string,
    title: string,
    author: string,
    genre: Genre,
    publishedYear: int,
    status: Status,
    createdAt: Timestamp)

  /** A record without its identity: what the form edits and the store receives. */
  datatype BookFormData = BookFormData(
    title: string,
    author: string,
    genre: Genre,
    publishedYear: int,
    status: Status)

  /** Search text plus a genre and a status name; the empty string means "any". */
  datatype BookFilters = BookFilters(search: string, genre: string, status: string)

  datatype PaginationInfo = PaginationInfo(
    currentPage: int,
    totalPages: int,
    totalBooks: int,
    booksPerPage: int)

  /** The string each genre carries in the source. */
  function GenreName(g: Genre): string {
    match g
    case Fiction => "Fiction"
    case NonFiction => "Non-Fiction"
    case Mystery => "Mystery"
    case Romance => "Romance"
    case SciFi => "Sci-Fi"
    case Biography => "Biography"
  }

  function StatusName(s: Status): string {
    match s
    case Available => "Available"
    case Issued => "Issued"
  }

  /** The genre whose name is `s`, if any (the enum check of the form schema). */
  function ParseGenre(s: string): (r: Option<Genre>)
    ensures r.Some? ==> GenreName(r.value) == s
  {
    if s == "Fiction" then Some(Fiction)
    else if s == "Non-Fiction" then Some(NonFiction)
    else if s == "Mystery" then Some(Mystery)
    else if s == "Romance" then Some(Romance)
    else if s == "Sci-Fi" then Some(SciFi)
    else if s == "Biography" then Some(Biography)
    else None
  }

  function ParseStatus(s: string): (r: Option<Status>)
    ensures r.Some? ==> StatusName(r.value) == s
  {
    if s == "Available" then Some(Available)
    else if s == "Issued" then Some(Issued)
    else None
  }

  /** Names and parsing are inverse: every genre name parses back to its genre. */
  lemma GenreNameRoundTrip(g: Genre)
    ensures ParseGenre(GenreName(g)) == Some(g)
  {
  }

  lemma StatusNameRoundTrip(s: Status)
    ensures ParseStatus(StatusName(s)) == Some(s)
  {
  }

  /** The five user-editable fields of a record. */
  function FormOf(b: Book): BookFormData {
    BookFormData(b.title, b.author, b.genre, b.publishedYear, b.status)
  }

  /** `{ ...bookData, id, createdAt }`: a new record built from form data. */
  function NewBook(data: BookFormData, id: string, createdAt: Timestamp): (r: Book)
    ensures FormOf(r) == data && r.id == id && r.createdAt == createdAt
  {
    Book(id, data.title, data.author, data.genre, data.publishedYear, data.status, createdAt)
  }

  /** `{ ...book, ...bookData }`: the form fields replaced, identity and stamp kept. */
  function ApplyForm(b: Book, data: BookFormData): (r: Book)
    ensures FormOf(r) == data && r.id == b.id && r.createdAt == b.createdAt
  {
    b.(title := data.title, author := data.author, genre := data.genre,
       publishedYear := data.publishedYear, status := data.status)
  }
}
