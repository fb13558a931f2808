/**
  The `stats` counters of `convert_to_flat_array`: what each one counts,
  stated over the input document and over the returned books.
 */
module Counters {
  import opened Registry
  import opened StableSorting
  import opened Documents
  import opened Converter
  import Text

  /** The number of verses of the chapter with key `k` (none for a key `c` lacks). */
  function VersesOfChapter(c: Chapters): string -> nat {
    k => if k in c.values then |c.values[k].keys| else 0
  }

  /** The number of chapters of the input book called `b`. */
  function ChaptersOfBook(input: Input): string -> nat {
    b => if b in input.values then |input.values[b].keys| else 0
  }

  /** The number of verses of the input book called `b`. */
  function VersesOfBook(input: Input): string -> nat {
    b => if b in input.values then SumBy(input.values[b].keys, VersesOfChapter(input.values[b])) else 0
  }

  /** The lines of the chapters with keys `ks` are as many as those chapters' verses. */
  lemma {:induction false} ChaptersOfVerses(c: Chapters, ks: seq<string>)
    requires WellFormedChapters(c)
    requires forall k :: k in ks ==> k in c.values
    ensures SumBy(ChaptersOf(c, ks), LineCount) == SumBy(ks, VersesOfChapter(c))
  {
    if ks != [] {
      var init := ks[..|ks| - 1];
      ChaptersOfVerses(c, init);
      var r := ChaptersOf(c, ks);
      assert r[..|r| - 1] == ChaptersOf(c, init);
      assert LineCount(r[|r| - 1]) == VersesOfChapter(c)(ks[|ks| - 1]);
    }
  }

  /** A book's chapter lists hold exactly as many lines as its input chapters hold verses. */
  lemma ChapterListVerses(c: Chapters)
    requires WellFormedChapters(c)
    ensures SumBy(ChapterList(c), LineCount) == SumBy(c.keys, VersesOfChapter(c))
  {
    SortedKeysSameKeys(c.keys);
    ChaptersOfVerses(c, SortedKeys(c.keys));
    SumByStableSort(c.keys, Text.DecimalValue, VersesOfChapter(c));
  }

  /** Every book is counted in exactly one testament. */
  lemma {:induction false} TestamentsAddUp(books: seq<Book>)
    ensures Tally(books).oldTestament + Tally(books).newTestament == Tally(books).books
  {
    if books != [] {
      TestamentsAddUp(books[..|books| - 1]);
    }
  }

  /** `stats['books']`, `stats['chapters']` and `stats['verses']` are the
      numbers of books, chapters and verses of the input document, and the two
      testament counters add up to the number of books. */
  lemma TallyMatchesInput(input: Input)
    requires WellFormedInput(input)
    ensures Tally(BooksInOrder(input)).books == |input.keys|
    ensures Tally(BooksInOrder(input)).chapters == SumBy(input.keys, ChaptersOfBook(input))
    ensures Tally(BooksInOrder(input)).verses == SumBy(input.keys, VersesOfBook(input))
    ensures Tally(BooksInOrder(input)).oldTestament + Tally(BooksInOrder(input)).newTestament
         == |input.keys|
  {
    var books := BooksInOrder(input);
    BooksInOrderAt(input);
    forall m | 0 <= m < |books| ensures ChapterCount(books[m]) == ChaptersOfBook(input)(input.keys[m]) {
      assert books[m] == BookAt(input, m);
    }
    SumByPointwise(books, ChapterCount, input.keys, ChaptersOfBook(input));
    forall m | 0 <= m < |books| ensures VerseCount(books[m]) == VersesOfBook(input)(input.keys[m]) {
      assert books[m] == BookAt(input, m);
      ChapterListVerses(input.values[input.keys[m]]);
    }
    SumByPointwise(books, VerseCount, input.keys, VersesOfBook(input));
    TestamentsAddUp(books);
  }

  /** A book counts as New Testament exactly when its (possibly aliased) name
      is one of the registry's last 27 names. */
  lemma NewTestamentBook(input: Input, j: nat)
    requires WellFormedInput(input) && j < |input.keys|
    ensures NewCount(BookAt(input, j)) == 1 <==>
              exists i :: 39 <= i < |BookInfo| && BookInfo[i].0 == CanonicalName(input.keys[j])
  {
    var canonical := CanonicalName(input.keys[j]);
    BookLookupSpec(canonical);
    RegistryShape();
    if BookLookup(canonical).Some? {
      var i := BookLookup(canonical).value.0 - 1;
      assert BookInfo[i].0 == canonical;
      RegistryNamesDistinct();
    }
  }
}
