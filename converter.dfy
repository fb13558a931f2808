/**
  `convert_to_flat_array`: normalises each book name, resolves it against the
  registry, flattens its chapters and verses in ascending numeric key order,
  tallies the counters and finally sorts the books by book number.

  The functions state what the conversion produces; the methods are the
  conversion itself, loop by loop, each proved to produce what its function
  states.
 */
module Converter {
  import Text
  import opened Registry
  import opened StableSorting
  import opened Documents

  /** `f"{verse_num} {verse_text}"` */
  function VerseLine(key: string, text: string): string {
    key + " " + text
  }

  /** The position of the first space in `line`, or its length when it has none. */
  function FirstSpace(line: string): (r: nat)
    ensures r <= |line|
    ensures forall k :: 0 <= k < r ==> line[k] != ' '
    ensures r < |line| ==> line[r] == ' '
  {
    if line == [] || line[0] == ' ' then 0 else 1 + FirstSpace(line[1..])
  }

  /** Reads a verse line back: the key before the first space and the text after it. */
  function SplitVerseLine(line: string): (string, string) {
    var n := FirstSpace(line);
    (line[..n], if n < |line| then line[n + 1..] else "")
  }

  /** A verse line gives back its key and its text, whatever the text holds. */
  lemma VerseLineRoundTrip(key: string, text: string)
    requires Text.IsDecimal(key)
    ensures SplitVerseLine(VerseLine(key, text)) == (key, text)
  {
    var line := VerseLine(key, text);
    assert line[|key|] == ' ';
    assert forall k :: 0 <= k < |key| ==> line[k] == key[k];
    assert FirstSpace(line) == |key|;
    assert line[..|key|] == key;
    assert line[|key| + 1..] == text;
  }

  /** `sorted(keys, key=int)` */
  function SortedKeys(keys: seq<string>): seq<string> {
    StableSort(keys, Text.DecimalValue)
  }

  /** The sorted keys are the same keys. */
  lemma SortedKeysSameKeys(keys: seq<string>)
    ensures |SortedKeys(keys)| == |keys|
    ensures forall k :: k in SortedKeys(keys) <==> k in keys
  {
    StableSortPermutation(keys, Text.DecimalValue);
  }

  /** The lines of the verses with keys `ks`, in that order. */
  function LinesOf(v: Verses, ks: seq<string>): (r: seq<string>)
    requires forall k :: k in ks ==> k in v.values
    ensures |r| == |ks|
  {
    if ks == [] then []
    else
      var last := ks[|ks| - 1];
      LinesOf(v, ks[..|ks| - 1]) + [VerseLine(last, v.values[last])]
  }

  /** The `i`-th line is the verse with the `i`-th key. */
  lemma {:induction false} LinesOfAt(v: Verses, ks: seq<string>, i: nat)
    requires forall k :: k in ks ==> k in v.values
    requires i < |ks|
    ensures LinesOf(v, ks)[i] == VerseLine(ks[i], v.values[ks[i]])
  {
    if i < |ks| - 1 {
      LinesOfAt(v, ks[..|ks| - 1], i);
    }
  }

  /** Extending the keys by one extends the lines by that verse's line. */
  lemma LinesOfSnoc(v: Verses, ks: seq<string>, i: nat)
    requires forall k :: k in ks ==> k in v.values
    requires i < |ks|
    ensures LinesOf(v, ks[..i + 1]) == LinesOf(v, ks[..i]) + [VerseLine(ks[i], v.values[ks[i]])]
  {
    assert ks[..i + 1][..i] == ks[..i];
  }

  /** The lines of one chapter, in ascending verse-key order. */
  function ChapterLines(v: Verses): (r: seq<string>)
    requires ValidDict(v)
    ensures |r| == |v.keys|
  {
    SortedKeysSameKeys(v.keys);
    LinesOf(v, SortedKeys(v.keys))
  }

  /** The line lists of the chapters with keys `ks`, in that order. */
  function ChaptersOf(c: Chapters, ks: seq<string>): (r: seq<seq<string>>)
    requires WellFormedChapters(c)
    requires forall k :: k in ks ==> k in c.values
    ensures |r| == |ks|
  {
    if ks == [] then []
    else
      var last := ks[|ks| - 1];
      ChaptersOf(c, ks[..|ks| - 1]) + [ChapterLines(c.values[last])]
  }

  /** The `i`-th line list is that of the chapter with the `i`-th key. */
  lemma {:induction false} ChaptersOfAt(c: Chapters, ks: seq<string>, i: nat)
    requires WellFormedChapters(c)
    requires forall k :: k in ks ==> k in c.values
    requires i < |ks|
    ensures ChaptersOf(c, ks)[i] == ChapterLines(c.values[ks[i]])
  {
    if i < |ks| - 1 {
      ChaptersOfAt(c, ks[..|ks| - 1], i);
    }
  }

  /** Extending the keys by one extends the line lists by that chapter's lines. */
  lemma ChaptersOfSnoc(c: Chapters, ks: seq<string>, i: nat)
    requires WellFormedChapters(c)
    requires forall k :: k in ks ==> k in c.values
    requires i < |ks|
    ensures ChaptersOf(c, ks[..i + 1]) == ChaptersOf(c, ks[..i]) + [ChapterLines(c.values[ks[i]])]
  {
    assert ks[..i + 1][..i] == ks[..i];
  }

  /** The chapters of one book, in ascending chapter-key order. */
  function ChapterList(c: Chapters): (r: seq<seq<string>>)
    requires WellFormedChapters(c)
    ensures |r| == |c.keys|
  {
    SortedKeysSameKeys(c.keys);
    ChaptersOf(c, SortedKeys(c.keys))
  }

  /** Lines 78-92: the name, book number and testament of an input book
      called `name`, when `appended` books have already been appended. */
  function Resolve(name: string, appended: nat): (string, int, Testament) {
    var canonical := CanonicalName(name);
    match BookLookup(canonical)
    case Some((number, testament)) => (canonical, number, testament)
    case None => (name, appended + 1, Old)
  }

  /** The book object built for the `j`-th input book; `j` books precede it in `books`. */
  function BookAt(input: Input, j: nat): (b: Book)
    requires WellFormedInput(input) && j < |input.keys|
    ensures |b.chapters| == |input.values[input.keys[j]].keys|
  {
    var name := input.keys[j];
    var (nameUsed, number, testament) := Resolve(name, j);
    Book(nameUsed, number, testament, ChapterList(input.values[name]))
  }

  /** The `books` list before the final sort: one book per input book, in input order. */
  function BooksInOrder(input: Input): (r: seq<Book>)
    requires WellFormedInput(input)
    ensures |r| == |input.keys|
  {
    seq(|input.keys|, j requires 0 <= j < |input.keys| => BookAt(input, j))
  }

  /** Each position of the list holds the book built from that input book. */
  lemma BooksInOrderAt(input: Input)
    requires WellFormedInput(input)
    ensures forall j {:trigger BookAt(input, j)} :: 0 <= j < |input.keys| ==> BooksInOrder(input)[j] == BookAt(input, j)
  {
  }

  /** The returned document. */
  function Convert(input: Input, bibleName: string): Bible
    requires WellFormedInput(input)
  {
    Bible(bibleName, StableSort(BooksInOrder(input), BookNumber))
  }

  function ChapterCount(b: Book): nat {
    |b.chapters|
  }

  function LineCount(chapter: seq<string>): nat {
    |chapter|
  }

  function VerseCount(b: Book): nat {
    SumBy(b.chapters, LineCount)
  }

  function OldCount(b: Book): nat {
    if b.testament == Old then 1 else 0
  }

  function NewCount(b: Book): nat {
    if b.testament == Old then 0 else 1
  }

  /** The counters after the books `books` have been processed. */
  function Tally(books: seq<Book>): Stats {
    Stats(|books|, SumBy(books, ChapterCount), SumBy(books, VerseCount),
          SumBy(books, OldCount), SumBy(books, NewCount))
  }

  lemma TallyAppend(books: seq<Book>, b: Book)
    ensures Tally(books + [b]) == Stats(
      Tally(books).books + 1, Tally(books).chapters + ChapterCount(b), Tally(books).verses + VerseCount(b),
      Tally(books).oldTestament + OldCount(b), Tally(books).newTestament + NewCount(b))
  {
    assert (books + [b])[..|books|] == books;
  }

  /** The inner loop: the numbered lines of one chapter. */
  method FlattenVerses(v: Verses) returns (verses: seq<string>)
    requires WellFormedVerses(v)
    ensures verses == ChapterLines(v)
  {
    var keys := SortedCopy(v.keys, Text.DecimalValue);
    SortedKeysSameKeys(v.keys);
    verses := [];
    for i := 0 to |keys|
      invariant verses == LinesOf(v, keys[..i])
    {
      var verseNum := keys[i];
      var verseText := v.values[verseNum];
      LinesOfSnoc(v, keys, i);
      verses := verses + [VerseLine(verseNum, verseText)];
    }
    assert keys[..|keys|] == keys;
  }

  /** The middle loop: the chapters of one book, and the number of lines they hold
      (the loop's contribution to `stats['verses']`). */
  method FlattenChapters(c: Chapters) returns (chapters: seq<seq<string>>, verseCount: nat)
    requires WellFormedChapters(c)
    ensures chapters == ChapterList(c)
    ensures verseCount == SumBy(chapters, LineCount)
  {
    var keys := SortedCopy(c.keys, Text.DecimalValue);
    SortedKeysSameKeys(c.keys);
    chapters := [];
    verseCount := 0;
    for i := 0 to |keys|
      invariant chapters == ChaptersOf(c, keys[..i])
      invariant verseCount == SumBy(chapters, LineCount)
    {
      var chapterNum := keys[i];
      var verses := FlattenVerses(c.values[chapterNum]);
      ChaptersOfSnoc(c, keys, i);
      assert (chapters + [verses])[..i] == chapters;
      chapters := chapters + [verses];
      verseCount := verseCount + |verses|;
    }
    assert keys[..|keys|] == keys;
  }

  /** The books the outer loop is to build, `expected[j]` from the `j`-th input book. */
  ghost predicate BuildsBooks(input: Input, expected: seq<Book>)
    requires WellFormedInput(input)
  {
    && |expected| == |input.keys|
    && forall j {:trigger BookAt(input, j)} :: 0 <= j < |input.keys| ==> expected[j] == BookAt(input, j)
  }

  /** One pass of the outer loop: resolves the `i`-th input book's name,
      flattens its chapters and adds the book to the counters. `i` books
      precede it in `books`, so `i` is the `len(books)` of line 90. */
  method BuildBook(input: Input, i: nat, stats: Stats, ghost expected: seq<Book>) returns (book: Book, stats': Stats)
    requires WellFormedInput(input) && BuildsBooks(input, expected) && i < |input.keys|
    ensures book == expected[i]
    ensures stats' == Stats(stats.books + 1, stats.chapters + ChapterCount(book),
                            stats.verses + VerseCount(book), stats.oldTestament + OldCount(book),
                            stats.newTestament + NewCount(book))
  {
    var bookName := input.keys[i];
    var chaptersDict := input.values[bookName];
    var (bookNameUsed, bookNumber, testament) := Resolve(bookName, i);
    var chapters, verseCount := FlattenChapters(chaptersDict);
    book := Book(bookNameUsed, bookNumber, testament, chapters);
    assert book == BookAt(input, i);
    stats' := stats.(books := stats.books + 1, chapters := stats.chapters + |chapters|,
                     verses := stats.verses + verseCount);
    if testament == Old {
      stats' := stats'.(oldTestament := stats'.oldTestament + 1);
    } else {
      stats' := stats'.(newTestament := stats'.newTestament + 1);
    }
  }

  /** The outer loop of `convert_to_flat_array`: one book per input book, in
      input order, with the counters tallied along the way. */
  method CollectBooks(input: Input, ghost expected: seq<Book>) returns (books: seq<Book>, stats: Stats)
    requires WellFormedInput(input) && BuildsBooks(input, expected)
    ensures books == expected
    ensures stats == Tally(books)
  {
    books := [];
    stats := Stats(0, 0, 0, 0, 0);
    for i := 0 to |input.keys|
      invariant books == expected[..i]
      invariant stats == Tally(books)
    {
      var book;
      book, stats := BuildBook(input, |books|, stats, expected);
      TallyAppend(books, book);
      assert expected[..i + 1] == books + [book];
      books := books + [book];
    }
    assert expected[..|input.keys|] == expected;
  }

  /** The final sort does not change any counter: the counters describe the
      returned books as much as the books built. */
  lemma TallySorted(input: Input, bibleName: string)
    requires WellFormedInput(input)
    ensures Tally(Convert(input, bibleName).books) == Tally(BooksInOrder(input))
  {
    var books := BooksInOrder(input);
    SumByStableSort(books, BookNumber, ChapterCount);
    SumByStableSort(books, BookNumber, VerseCount);
    SumByStableSort(books, BookNumber, OldCount);
    SumByStableSort(books, BookNumber, NewCount);
  }

  /** `convert_to_flat_array(input_data, bible_name="King James Version")`,
      returning also the counters it tallies (the source only prints them). */
  method ConvertToFlatArray(input: Input, bibleName: string := "King James Version") returns (bible: Bible, stats: Stats)
    requires WellFormedInput(input)
    ensures bible == Convert(input, bibleName)
    ensures stats == Tally(BooksInOrder(input))
    ensures stats == Tally(bible.books)
  {
    var books;
    BooksInOrderAt(input);
    books, stats := CollectBooks(input, BooksInOrder(input));
    var a := new Book[|books|](k requires 0 <= k < |books| => books[k]);
    assert a[..] == books;
    SortInPlace(a, BookNumber);
    bible := Bible(bibleName, a[..]);
    TallySorted(input, bibleName);
  }
}
