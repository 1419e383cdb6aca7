/**
 * Operations on lists of records shared by the reducer
 * (src/context/BookContext.tsx) and the record store
 * (src/services/bookService.ts).
 */
module BookLists {
  import opened BookTypes
  import opened Seqs

  predicate HasId(books: seq<Book>, id: string) {
    exists i :: 0 <= i < |books| && books[i].id == id
  }

  /** No two records share an id. */
  predicate UniqueIds(books: seq<Book>) {
    forall i, j :: 0 <= i < j < |books| ==> books[i].id != books[j].id
  }

  /** `books.findIndex(book => book.id === id)`: the first match, or -1. */
  function FindIndex(books: seq<Book>, id: string): (r: int)
    ensures -1 <= r < |books|
    ensures r == -1 <==> !HasId(books, id)
    ensures r >= 0 ==> books[r].id == id && forall i :: 0 <= i < r ==> books[i].id != id
  {
    if books == [] then -1
    else if books[0].id == id then 0
    else
      var k := FindIndex(books[1..], id);
      assert forall i :: 0 < i < |books| ==> books[i] == books[1..][i - 1];
      if k == -1 then -1 else k + 1
  }

  /** `books.filter(book => book.id !== id)`: no record with the id is left. */
  function WithoutId(books: seq<Book>, id: string): (r: seq<Book>)
    ensures |r| <= |books|
    ensures !HasId(r, id)
  {
    var r := Filter(books, (b: Book) => b.id != id);
    assert forall i :: 0 <= i < |r| ==> r[i] in r;
    r
  }

  /** `books.map(book => book.id === b.id ? b : book)`: same length, same id at every position. */
  function ReplaceById(books: seq<Book>, b: Book): (r: seq<Book>)
    ensures |r| == |books|
    ensures forall i :: 0 <= i < |books| ==> r[i].id == books[i].id
  {
    if books == [] then []
    else
      assert forall i :: 0 < i < |books| ==> books[i] == books[1..][i - 1];
      [if books[0].id == b.id then b else books[0]] + ReplaceById(books[1..], b)
  }

  /** Replacing by id keeps length and order and touches exactly the entries with that id. */
  lemma {:induction false} ReplaceByIdAt(books: seq<Book>, b: Book)
    ensures |ReplaceById(books, b)| == |books|
    ensures forall i :: 0 <= i < |books| ==>
      ReplaceById(books, b)[i] == if books[i].id == b.id then b else books[i]
  {
    if books != [] {
      ReplaceByIdAt(books[1..], b);
    }
  }

  /** Replacing by id never changes the id found at any position. */
  lemma ReplaceByIdKeepsIds(books: seq<Book>, b: Book)
    ensures |ReplaceById(books, b)| == |books|
    ensures forall i :: 0 <= i < |books| ==> ReplaceById(books, b)[i].id == books[i].id
    ensures UniqueIds(books) ==> UniqueIds(ReplaceById(books, b))
  {
    ReplaceByIdAt(books, b);
  }

  /**
   * With unique ids, replacing every entry with `b`'s id is the store's
   * replacement at the first matching index.
   */
  lemma ReplaceByIdIsReplaceAtIndex(books: seq<Book>, b: Book)
    requires UniqueIds(books) && HasId(books, b.id)
    ensures ReplaceById(books, b) == books[FindIndex(books, b.id) := b]
  {
    ReplaceByIdAt(books, b);
  }

  /**
   * Removing by id drops every entry with that id and keeps each other record
   * as many times as it occurred, in order.
   */
  lemma WithoutIdSpec(books: seq<Book>, id: string)
    ensures !HasId(WithoutId(books, id), id)
    ensures IsSubsequence(WithoutId(books, id), books)
    ensures forall b :: multiset(WithoutId(books, id))[b] == if b.id == id then 0 else multiset(books)[b]
  {
    FilterIsSubsequence(books, (b: Book) => b.id != id);
    forall b ensures multiset(WithoutId(books, id))[b] == if b.id == id then 0 else multiset(books)[b] {
      FilterCount(books, (b: Book) => b.id != id, b);
    }
  }

  /** The store's not-found test: removing changes the length exactly when the id is present. */
  lemma WithoutIdShorter(books: seq<Book>, id: string)
    ensures |WithoutId(books, id)| == |books| <==> !HasId(books, id)
    ensures HasId(books, id) ==> |WithoutId(books, id)| < |books|
  {
    FilterKeepsLength(books, (b: Book) => b.id != id);
    if HasId(books, id) {
      var i :| 0 <= i < |books| && books[i].id == id;
      assert books[i] in books;
    }
  }

  /** Filtering a list with unique ids leaves a list with unique ids. */
  lemma {:induction false} FilterKeepsUniqueIds(books: seq<Book>, p: Book -> bool)
    requires UniqueIds(books)
    ensures UniqueIds(Filter(books, p))
  {
    if books != [] {
      var rest := books[1..];
      assert UniqueIds(rest) by {
        forall i, j | 0 <= i < j < |rest| ensures rest[i].id != rest[j].id {
          assert rest[i] == books[i + 1] && rest[j] == books[j + 1];
        }
      }
      FilterKeepsUniqueIds(rest, p);
      if p(books[0]) {
        var tail := Filter(rest, p);
        forall k | 0 <= k < |tail| ensures tail[k].id != books[0].id {
          assert tail[k] in tail;
          var m :| 0 <= m < |rest| && rest[m] == tail[k];
          assert rest[m] == books[m + 1];
        }
        assert Filter(books, p) == [books[0]] + tail;
      } else {
        assert Filter(books, p) == Filter(rest, p);
      }
    }
  }

  lemma WithoutIdKeepsUniqueIds(books: seq<Book>, id: string)
    requires UniqueIds(books)
    ensures UniqueIds(WithoutId(books, id))
  {
    FilterKeepsUniqueIds(books, (b: Book) => b.id != id);
  }

  /** Appending a record whose id is new keeps ids unique. */
  lemma AppendFreshKeepsUniqueIds(books: seq<Book>, b: Book)
    requires UniqueIds(books) && !HasId(books, b.id)
    ensures UniqueIds(books + [b])
  {
    var r := books + [b];
    forall i, j | 0 <= i < j < |r| ensures r[i].id != r[j].id {
      if j == |books| {
        assert r[i] == books[i];
      } else {
        assert r[i] == books[i] && r[j] == books[j];
      }
    }
  }

  /** Overwriting one position with a record carrying the same id keeps ids unique. */
  lemma ReplaceAtKeepsUniqueIds(books: seq<Book>, k: int, b: Book)
    requires UniqueIds(books) && 0 <= k < |books| && books[k].id == b.id
    ensures UniqueIds(books[k := b])
  {
  }
}
