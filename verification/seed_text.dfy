/**
 * Which seed titles and authors (src/services/bookService.ts) contain "the"
 * once lowercased: the facts the seed search below rests on.
 */
module SeedText {
  import opened Text

  /** "the" is already lower-case and has no white space to trim. */
  lemma TheIsItsOwnTerm()
    ensures Lower("the") == "the" && Trim("the") == "the"
  {
    LowerNoUpper("the");
    TrimNoSpaceEnds("the");
  }

  /** "the" needs an h, which neither the title nor the author has. */
  lemma NoTheInMockingbird()
    ensures !Contains(Lower("To Kill a Mockingbird"), "the") && !Contains(Lower("Harper Lee"), "the")
  {
    NotContainsLowerWithout("To Kill a Mockingbird", "the", 'h');
    NotContainsLowerWithout("Harper Lee", "the", 't');
  }

  /**
   * Split at an r and an n, letters "the" lacks: no piece has both an h and
   * an e, so no occurrence fits in a piece or straddles a split.
   */
  lemma NoTheInAutobiography()
    ensures !Contains(Lower("Agatha Christie: An Autobiography"), "the") && !Contains(Lower("Agatha Christie"), "the")
  {
    ChristieSplits();
    ChristieTitlePieces();
    ChristieAuthorPieces();
  }

  lemma ChristieSplits()
    ensures "Agatha Christie: An Autobiography" == "Agatha Ch" + ['r'] + ("istie: A" + ['n'] + " Autobiography")
    ensures "Agatha Christie" == "Agatha Ch" + ['r'] + "istie"
  {
  }

  lemma ChristieTitlePieces()
    ensures !Contains(Lower("Agatha Ch" + ['r'] + ("istie: A" + ['n'] + " Autobiography")), "the")
  {
    NotContainsLowerWithout("Agatha Ch", "the", 'e');
    ChristieTitleTail();
    NotContainsLowerJoin("Agatha Ch", 'r', "istie: A" + ['n'] + " Autobiography", "the");
  }

  lemma ChristieTitleTail()
    ensures !Contains(Lower("istie: A" + ['n'] + " Autobiography"), "the")
  {
    NotContainsLowerWithout("istie: A", "the", 'h');
    NotContainsLowerWithout(" Autobiography", "the", 'e');
    NotContainsLowerJoin("istie: A", 'n', " Autobiography", "the");
  }

  lemma ChristieAuthorPieces()
    ensures !Contains(Lower("Agatha Ch" + ['r'] + "istie"), "the")
  {
    NotContainsLowerWithout("Agatha Ch", "the", 'e');
    NotContainsLowerWithout("istie", "the", 'h');
    NotContainsLowerJoin("Agatha Ch", 'r', "istie", "the");
  }

  /** The author splits at a b into a piece without a t and a piece without an h. */
  lemma NoTheInDune()
    ensures !Contains(Lower("Dune"), "the") && !Contains(Lower("Frank Herbert"), "the")
  {
    NotContainsLowerWithout("Dune", "the", 't');
    HerbertSplits();
    HerbertPieces();
  }

  lemma HerbertSplits()
    ensures "Frank Herbert" == "Frank Her" + ['b'] + "ert"
  {
  }

  lemma HerbertPieces()
    ensures !Contains(Lower("Frank Her" + ['b'] + "ert"), "the")
  {
    NotContainsLowerWithout("Frank Her", "the", 't');
    NotContainsLowerWithout("ert", "the", 'h');
    NotContainsLowerJoin("Frank Her", 'b', "ert", "the");
  }

  lemma NoTheInPride()
    ensures !Contains(Lower("Pride and Prejudice"), "the") && !Contains(Lower("Jane Austen"), "the")
  {
    NotContainsLowerWithout("Pride and Prejudice", "the", 't');
    NotContainsLowerWithout("Jane Austen", "the", 'h');
  }

  /** The title splits at an s into a piece without a t and a piece without an e. */
  lemma NoTheInSapiens()
    ensures !Contains(Lower("Sapiens: A Brief History of Humankind"), "the") && !Contains(Lower("Yuval Noah Harari"), "the")
  {
    SapiensSplits();
    SapiensPieces();
    NotContainsLowerWithout("Yuval Noah Harari", "the", 't');
  }

  lemma SapiensSplits()
    ensures "Sapiens: A Brief History of Humankind" == "Sapiens: A Brief Hi" + ['s'] + "tory of Humankind"
  {
  }

  lemma SapiensPieces()
    ensures !Contains(Lower("Sapiens: A Brief Hi" + ['s'] + "tory of Humankind"), "the")
  {
    SapiensParts();
    NotContainsLowerJoin("Sapiens: A Brief Hi", 's', "tory of Humankind", "the");
  }

  lemma SapiensParts()
    ensures !Contains(Lower("Sapiens: A Brief Hi"), "the") && !Contains(Lower("tory of Humankind"), "the")
  {
    NotContainsLowerWithout("Sapiens: A Brief Hi", "the", 't');
    NotContainsLowerWithout("tory of Humankind", "the", 'e');
  }

  /** The three titles that begin with "The". */
  lemma TheInTitles()
    ensures Contains(Lower("The Great Gatsby"), "the")
    ensures Contains(Lower("The Catcher in the Rye"), "the")
    ensures Contains(Lower("The Murder of Roger Ackroyd"), "the")
  {
    ContainsLowerAtStart("The Great Gatsby", "the");
    ContainsLowerAtStart("The Catcher in the Rye", "the");
    ContainsLowerAtStart("The Murder of Roger Ackroyd", "the");
  }
}
