/** The add/edit form (src/components/BookForm.tsx): its schema, defaults and submission. */
module BookForm {
  import opened Results
  import opened BookTypes

  /**
   * The raw field values the form holds before validation. Genre and status
   * are the selected option strings; the year is the number input's value.
   */
  datatype FormValues = FormValues(
    title: string,
    author: string,
    genre: string,
    publishedYear: real,
    status: string)

  /** One failed check of the schema. */
  datatype Issue =
    | TitleTooShort | TitleTooLong
    | AuthorTooShort | AuthorTooLong
    | InvalidGenre
    | YearNotInteger | YearTooEarly | YearInFuture
    | InvalidStatus

  const MinTitleLength := 2
  const MaxTitleLength := 200
  const MinAuthorLength := 2
  const MaxAuthorLength := 100
  const MinYear := 1900

  predicate IsInteger(x: real) {
    x.Floor as real == x
  }

  /** Whether the schema check that reports `i` fails on `v`. */
  predicate Fails(v: FormValues, currentYear: int, i: Issue) {
    match i
    case TitleTooShort => |v.title| < MinTitleLength
    case TitleTooLong => |v.title| > MaxTitleLength
    case AuthorTooShort => |v.author| < MinAuthorLength
    case AuthorTooLong => |v.author| > MaxAuthorLength
    case InvalidGenre => ParseGenre(v.genre).None?
    case YearNotInteger => !IsInteger(v.publishedYear)
    case YearTooEarly => v.publishedYear < MinYear as real
    case YearInFuture => v.publishedYear > currentYear as real
    case InvalidStatus => ParseStatus(v.status).None?
  }

  function Check(v: FormValues, currentYear: int, i: Issue): seq<Issue> {
    if Fails(v, currentYear, i) then [i] else []
  }

  /** The schema's checks: field by field in schema order; within a field, check by check. */
  const SchemaOrder := [TitleTooShort, TitleTooLong, AuthorTooShort, AuthorTooLong, InvalidGenre,
                        YearNotInteger, YearTooEarly, YearInFuture, InvalidStatus]

  /** The failed checks among `checks`, in their order. */
  function CheckAll(v: FormValues, currentYear: int, checks: seq<Issue>): seq<Issue> {
    if checks == [] then [] else Check(v, currentYear, checks[0]) + CheckAll(v, currentYear, checks[1..])
  }

  /** Every failed check of the schema. */
  function Issues(v: FormValues, currentYear: int): seq<Issue> {
    CheckAll(v, currentYear, SchemaOrder)
  }

  /** Running a list of checks reports exactly those of them that fail. */
  lemma {:induction false} CheckAllExact(v: FormValues, currentYear: int, checks: seq<Issue>, i: Issue)
    ensures i in CheckAll(v, currentYear, checks) <==> i in checks && Fails(v, currentYear, i)
  {
    if checks != [] {
      CheckAllExact(v, currentYear, checks[1..], i);
      assert checks == [checks[0]] + checks[1..];
    }
  }

  /** Checks none of which fails report nothing. */
  lemma {:induction false} CheckAllNone(v: FormValues, currentYear: int, checks: seq<Issue>)
    requires forall i :: i in checks ==> !Fails(v, currentYear, i)
    ensures CheckAll(v, currentYear, checks) == []
  {
    if checks != [] {
      assert checks[0] in checks;
      CheckAllNone(v, currentYear, checks[1..]);
    }
  }

  /** No element occurs twice. */
  predicate NoRepeats(s: seq<Issue>) {
    forall a, b :: 0 <= a < b < |s| ==> s[a] != s[b]
  }

  /** Running checks that are listed once each reports each failure once. */
  lemma {:induction false} CheckAllNoRepeats(v: FormValues, currentYear: int, checks: seq<Issue>)
    requires NoRepeats(checks)
    ensures NoRepeats(CheckAll(v, currentYear, checks))
  {
    if checks != [] {
      var rest := checks[1..];
      assert forall a :: 0 <= a < |rest| ==> rest[a] == checks[a + 1];
      CheckAllNoRepeats(v, currentYear, rest);
      if Fails(v, currentYear, checks[0]) {
        var later := CheckAll(v, currentYear, rest);
        assert checks[0] !in rest;
        CheckAllExact(v, currentYear, rest, checks[0]);
        var r := [checks[0]] + later;
        assert forall a :: 0 < a < |r| ==> r[a] == later[a - 1] && r[a] in later;
      }
    }
  }

  /** Each broken rule is reported once: no issue occurs twice. */
  lemma IssuesNoRepeats(v: FormValues, currentYear: int)
    ensures NoRepeats(Issues(v, currentYear))
  {
    SchemaOrderNoRepeats();
    CheckAllNoRepeats(v, currentYear, SchemaOrder);
  }

  /** Each rule's place in the schema. */
  function Rank(i: Issue): nat {
    match i
    case TitleTooShort => 0
    case TitleTooLong => 1
    case AuthorTooShort => 2
    case AuthorTooLong => 3
    case InvalidGenre => 4
    case YearNotInteger => 5
    case YearTooEarly => 6
    case YearInFuture => 7
    case InvalidStatus => 8
  }

  /** The schema lists each rule once. */
  lemma SchemaOrderNoRepeats()
    ensures NoRepeats(SchemaOrder)
  {
    assert forall k :: 0 <= k < |SchemaOrder| ==> Rank(SchemaOrder[k]) == k;
  }

  /** An issue is reported exactly when its check fails. */
  lemma IssuesExact(v: FormValues, currentYear: int, i: Issue)
    ensures i in Issues(v, currentYear) <==> Fails(v, currentYear, i)
  {
    CheckAllExact(v, currentYear, SchemaOrder, i);
    assert i in SchemaOrder;
  }

  /** What the values must satisfy for the schema to accept them. */
  predicate Acceptable(v: FormValues, currentYear: int) {
    && MinTitleLength <= |v.title| <= MaxTitleLength
    && MinAuthorLength <= |v.author| <= MaxAuthorLength
    && ParseGenre(v.genre).Some?
    && IsInteger(v.publishedYear)
    && MinYear as real <= v.publishedYear <= currentYear as real
    && ParseStatus(v.status).Some?
  }

  lemma IssuesEmptyIff(v: FormValues, currentYear: int)
    ensures Issues(v, currentYear) == [] <==> Acceptable(v, currentYear)
  {
    if !Acceptable(v, currentYear) {
      var i :| Fails(v, currentYear, i) by {
        if |v.title| < MinTitleLength { assert Fails(v, currentYear, TitleTooShort); }
        else if |v.title| > MaxTitleLength { assert Fails(v, currentYear, TitleTooLong); }
        else if |v.author| < MinAuthorLength { assert Fails(v, currentYear, AuthorTooShort); }
        else if |v.author| > MaxAuthorLength { assert Fails(v, currentYear, AuthorTooLong); }
        else if ParseGenre(v.genre).None? { assert Fails(v, currentYear, InvalidGenre); }
        else if !IsInteger(v.publishedYear) { assert Fails(v, currentYear, YearNotInteger); }
        else if v.publishedYear < MinYear as real { assert Fails(v, currentYear, YearTooEarly); }
        else if v.publishedYear > currentYear as real { assert Fails(v, currentYear, YearInFuture); }
        else { assert Fails(v, currentYear, InvalidStatus); }
      }
      IssuesExact(v, currentYear, i);
    } else {
      CheckAllNone(v, currentYear, SchemaOrder);
    }
  }

  /** The values a form shows for already-typed form data. */
  function ValuesOfData(d: BookFormData): FormValues {
    FormValues(d.title, d.author, GenreName(d.genre), d.publishedYear as real, StatusName(d.status))
  }

  /** The form data satisfies the schema's bounds. */
  predicate ValidData(d: BookFormData, currentYear: int) {
    && MinTitleLength <= |d.title| <= MaxTitleLength
    && MinAuthorLength <= |d.author| <= MaxAuthorLength
    && MinYear <= d.publishedYear <= currentYear
  }

  /**
   * `bookSchema` applied to the values. It accepts exactly the acceptable
   * values, and then yields form data within the bounds that shows back as the
   * same values; otherwise it reports every failed check and nothing else.
   */
  function Validate(v: FormValues, currentYear: int): (r: Result<BookFormData, seq<Issue>>)
    ensures r.Ok? <==> Acceptable(v, currentYear)
    ensures r.Ok? ==> ValuesOfData(r.value) == v && ValidData(r.value, currentYear)
    ensures r.Err? ==> r.error != [] && forall i :: i in r.error <==> Fails(v, currentYear, i)
  {
    if Acceptable(v, currentYear) then
      Ok(BookFormData(v.title, v.author, ParseGenre(v.genre).value, v.publishedYear.Floor,
                      ParseStatus(v.status).value))
    else
      IssuesEmptyIff(v, currentYear);
      assert forall i :: i in Issues(v, currentYear) <==> Fails(v, currentYear, i) by {
        forall i ensures i in Issues(v, currentYear) <==> Fails(v, currentYear, i) {
          IssuesExact(v, currentYear, i);
        }
      }
      Err(Issues(v, currentYear))
  }

  /** Data within the bounds, shown in the form and validated, comes back unchanged. */
  lemma ValidDataAccepted(d: BookFormData, currentYear: int)
    requires ValidData(d, currentYear)
    ensures Validate(ValuesOfData(d), currentYear) == Ok(d)
  {
    GenreNameRoundTrip(d.genre);
    StatusNameRoundTrip(d.status);
  }

  /** `defaultValues`: empty text, the first genre, this year and "Available". */
  function Defaults(currentYear: int): (r: FormValues)
    ensures r.title == [] && r.author == []
    ensures ParseGenre(r.genre) == Some(Fiction) && ParseStatus(r.status) == Some(Available)
    ensures IsInteger(r.publishedYear) && r.publishedYear.Floor == currentYear
  {
    FormValues("", "", "Fiction", currentYear as real, "Available")
  }

  /** The defaults fail only on the empty title and author. */
  lemma DefaultsFailOnlyOnText(currentYear: int)
    requires currentYear >= MinYear
    ensures Issues(Defaults(currentYear), currentYear) == [TitleTooShort, AuthorTooShort]
  {
    var v := Defaults(currentYear);
    CheckAllNone(v, currentYear, SchemaOrder[3..]);
    assert SchemaOrder[2..][1..] == SchemaOrder[3..];
    assert CheckAll(v, currentYear, SchemaOrder[2..]) == [AuthorTooShort];
    assert SchemaOrder[1..][1..] == SchemaOrder[2..];
    assert CheckAll(v, currentYear, SchemaOrder[1..]) == [AuthorTooShort];
  }

  /**
   * The edit effect: the selected record's five fields, each shown so that it
   * reads back as the record's own value, or the defaults when adding.
   */
  function Prefill(book: Option<Book>, currentYear: int): (r: FormValues)
    ensures book.Some? ==>
      && r.title == book.value.title && r.author == book.value.author
      && ParseGenre(r.genre) == Some(book.value.genre)
      && IsInteger(r.publishedYear) && r.publishedYear.Floor == book.value.publishedYear
      && ParseStatus(r.status) == Some(book.value.status)
    ensures book.None? ==> r == Defaults(currentYear)
  {
    if book.Some? then
      GenreNameRoundTrip(book.value.genre);
      StatusNameRoundTrip(book.value.status);
      ValuesOfData(FormOf(book.value))
    else
      Defaults(currentYear)
  }

  /**
   * Editing a record and submitting it untouched re-submits its own fields,
   * provided the record is within the bounds.
   */
  lemma PrefillResubmits(b: Book, currentYear: int)
    ensures Validate(Prefill(Some(b), currentYear), currentYear).Ok? <==> ValidData(FormOf(b), currentYear)
    ensures ValidData(FormOf(b), currentYear) ==>
      Validate(Prefill(Some(b), currentYear), currentYear) == Ok(FormOf(b))
  {
    if ValidData(FormOf(b), currentYear) {
      ValidDataAccepted(FormOf(b), currentYear);
    }
    GenreNameRoundTrip(b.genre);
    StatusNameRoundTrip(b.status);
  }

  /**
   * The open form: its current values, the reported issues and whether it is
   * shown. `open` is the dashboard's `showBookForm` as the form sees it: the
   * form's close is the dashboard's `setShowBookForm(false)` (see
   * `Dashboard.DashboardView.CloseForm`).
   */
  class BookFormView {
    const currentYear: int
    var values: FormValues
    var issues: seq<Issue>
    var open: bool

    /** Mounting the form with `book` selected (or none): defaults, then the edit effect. */
    constructor (book: Option<Book>, currentYear: int)
      ensures this.currentYear == currentYear
      ensures values == Prefill(book, currentYear) && issues == [] && open
    {
      this.currentYear := currentYear;
      values := Defaults(currentYear);
      issues := [];
      open := true;
      new;
      PrefillFrom(book);
    }

    /**
     * The edit effect: five `setValue` calls for a record; otherwise `reset()`,
     * which also clears the reported issues.
     */
    method PrefillFrom(book: Option<Book>)
      modifies this`values, this`issues
      ensures values == Prefill(book, currentYear)
      ensures book.None? ==> issues == []
      ensures book.Some? ==> issues == old(issues)
    {
      match book {
        case Some(b) =>
          values := values.(title := b.title);
          values := values.(author := b.author);
          values := values.(genre := GenreName(b.genre));
          values := values.(publishedYear := b.publishedYear as real);
          values := values.(status := StatusName(b.status));
        case None =>
          values := Defaults(currentYear);
          issues := [];
      }
    }

    /**
     * `handleSubmit(handleFormSubmit)`: validate; when valid, hand the data to
     * `onSubmit` (whose outcome is given) and close only if it did not throw.
     * A rejection is swallowed and the form stays open.
     */
    method Submit(onSubmit: Outcome<Thrown>) returns (sent: Option<BookFormData>)
      modifies this`issues, this`open
      ensures var v := Validate(values, currentYear);
        && sent == (if v.Ok? then Some(v.value) else None)
        && issues == (if v.Ok? then [] else v.error)
        && open == (old(open) && !(v.Ok? && onSubmit.Pass?))
    {
      var v := Validate(values, currentYear);
      match v {
        case Err(e) =>
          issues := e;
          sent := None;
        case Ok(data) =>
          issues := [];
          sent := Some(data);
          if onSubmit.Pass? {
            open := false;
          }
      }
    }
  }
}
