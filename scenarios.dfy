/**
  Concrete conversions: the documented example, the alias and fallback edge
  cases, and the two ways book numbers can coincide.
 */
module Scenarios {
  import Text
  import opened Registry
  import opened StableSorting
  import opened Documents
  import opened Converter

  /** A book without chapters. */
  const NoChapters: Chapters := Dict([], map[])

  /** An input document holding the named books, none with chapters. */
  function Books2(a: string, b: string): (input: Input)
    requires a != b
    ensures WellFormedInput(input)
  {
    Dict([a, b], map[a := NoChapters, b := NoChapters])
  }

  /** A chapter of one verse is one line. */
  lemma OneVerse(key: string, text: string)
    ensures ValidDict(Dict([key], map[key := text]))
    ensures ChapterLines(Dict([key], map[key := text])) == [VerseLine(key, text)]
  {
    var v: Verses := Dict([key], map[key := text]);
    assert SortedKeys([key]) == [key];
    assert [key][..0] == [];
    LinesOfAt(v, [key], 0);
  }

  /** A book of one chapter has one line list. */
  lemma OneChapter(key: string, v: Verses)
    requires WellFormedVerses(v) && Text.IsDecimal(key)
    ensures WellFormedChapters(Dict([key], map[key := v]))
    ensures ChapterList(Dict([key], map[key := v])) == [ChapterLines(v)]
  {
    var c: Chapters := Dict([key], map[key := v]);
    assert SortedKeys([key]) == [key];
    ChaptersOfAt(c, [key], 0);
  }

  lemma FirstBook(appended: nat)
    ensures Resolve("Genesis", appended) == ("Genesis", 1, Old)
  {
    assert LookupKey("Genesis") == "genesis";
    LookupRegistered(0);
  }

  /** The chapters of the example book: one chapter of one line. */
  lemma GenesisChapters()
    ensures var c := Dict(["1"], map["1" := Dict(["1"], map["1" := "In the beginning..."])]);
            WellFormedChapters(c) && ChapterList(c) == [["1 In the beginning..."]]
  {
    var v: Verses := Dict(["1"], map["1" := "In the beginning..."]);
    OneVerse("1", "In the beginning...");
    assert WellFormedVerses(v);
    OneChapter("1", v);
    assert VerseLine("1", "In the beginning...") == "1 In the beginning...";
  }

  /** `{"Genesis": {"1": {"1": "In the beginning..."}}}` gives a document with
      one book, Genesis, number 1, Old Testament, holding one chapter of one line. */
  lemma GenesisExample()
    ensures var input := Dict(["Genesis"], map["Genesis" := Dict(["1"], map["1" := Dict(["1"], map["1" := "In the beginning..."])])]);
            WellFormedInput(input) &&
            Convert(input, "Test Version")
            == Bible("Test Version", [Book("Genesis", 1, Old, [["1 In the beginning..."]])])
  {
    var c: Chapters := Dict(["1"], map["1" := Dict(["1"], map["1" := "In the beginning..."])]);
    var input: Input := Dict(["Genesis"], map["Genesis" := c]);
    GenesisChapters();
    assert WellFormedInput(input);
    FirstBook(0);
    assert input.keys[0] == "Genesis" && input.values["Genesis"] == c;
    assert BookAt(input, 0) == Book("Genesis", 1, Old, [["1 In the beginning..."]]);
    assert BooksInOrder(input) == [BookAt(input, 0)];
  }

  /** An empty document gives no books and zero counters. */
  lemma EmptyInput(bibleName: string)
    ensures WellFormedInput(Dict([], map[]))
    ensures Convert(Dict([], map[]), bibleName) == Bible(bibleName, [])
    ensures Tally(BooksInOrder(Dict([], map[]))) == Stats(0, 0, 0, 0, 0)
  {
    assert BooksInOrder(Dict([], map[])) == [];
  }

  /** Called without a name, the converter names the document "King James Version". */
  method DefaultBibleName() returns (bible: Bible)
    ensures bible == Bible("King James Version", [])
  {
    var stats;
    bible, stats := ConvertToFlatArray(Dict([], map[]));
    EmptyInput("King James Version");
  }

  /** `" PSALM "` is an alias once stripped and lower-cased: Psalms, 19, Old. */
  lemma PaddedAlias(appended: nat)
    ensures Resolve(" PSALM ", appended) == ("Psalms", 19, Old)
  {
    PaddedKey();
    LookupRegistered(18);
  }

  /** Stripping and lower-casing `" PSALM "` gives the alias key `"psalm"`. */
  lemma PaddedKey()
    ensures LookupKey(" PSALM ") == "psalm"
  {
    assert Text.LeadingSpaces(" PSALM ") == 1;
    assert Text.TrimStart(" PSALM ") == "PSALM ";
    assert Text.TrailingSpaces("PSALM ") == 1;
    assert Text.Strip(" PSALM ") == "PSALM";
  }

  /** The last registry book: Revelation, 66, New. */
  lemma LastBook(appended: nat)
    ensures Resolve("Revelation", appended) == ("Revelation", 66, New)
  {
    assert LookupKey("Revelation") == "revelation";
    LookupRegistered(65);
  }

  /** A registry name with a leading space is not an alias, and the registry
      lookup is exact, so it is kept as given with a synthetic number. */
  lemma PaddedNameUnrecognised(appended: nat)
    ensures Resolve(" Genesis", appended) == (" Genesis", appended + 1, Old)
  {
    assert LookupKey(" Genesis") == "genesis";
    assert RegistryPosition(" Genesis") == -1;
    NotRegistered(" Genesis");
    BookLookupSpec(" Genesis");
  }

  /** Registry lookup is case-sensitive: a lower-cased registry name that is
      not an alias is unrecognised. */
  lemma LowerCaseNameUnrecognised(appended: nat)
    ensures Resolve("genesis", appended) == ("genesis", appended + 1, Old)
  {
    assert LookupKey("genesis") == "genesis";
    assert RegistryPosition("genesis") == -1;
    NotRegistered("genesis");
    BookLookupSpec("genesis");
  }

  /** A book the registry does not know is kept, numbered one past the books
      before it, as Old Testament. */
  lemma UnknownBook(appended: nat)
    ensures Resolve("Enoch", appended) == ("Enoch", appended + 1, Old)
  {
    assert LookupKey("Enoch") == "enoch";
    assert RegistryPosition("Enoch") == -1;
    NotRegistered("Enoch");
    BookLookupSpec("Enoch");
  }

  /** The book built for `name` with no chapters after `appended` others. */
  function Chapterless(name: string, appended: nat): Book {
    var (nameUsed, number, testament) := Resolve(name, appended);
    Book(nameUsed, number, testament, [])
  }

  /** Two books without chapters are converted to their two books, sorted. */
  lemma TwoBooks(a: string, b: string, bibleName: string)
    requires a != b
    ensures Convert(Books2(a, b), bibleName).books
         == StableSort([Chapterless(a, 0), Chapterless(b, 1)], BookNumber)
  {
    var input := Books2(a, b);
    assert ChapterList(NoChapters) == [];
    assert BookAt(input, 0) == Chapterless(a, 0);
    assert BookAt(input, 1) == Chapterless(b, 1);
    assert BooksInOrder(input) == [Chapterless(a, 0), Chapterless(b, 1)];
  }

  /** Two books with the same number keep their order. */
  lemma SortTie(x: Book, y: Book)
    requires x.bookNumber == y.bookNumber
    ensures StableSort([x, y], BookNumber) == [x, y]
  {
    assert [x, y][..1] == [x];
    assert [x][..0] == [];
    assert StableSort([x], BookNumber) == [x];
    assert [x][1..] == [];
    assert Insert([x], y, BookNumber) == [x] + Insert([], y, BookNumber);
  }

  /** A synthetic number can equal a registry number: Enoch first gets 1, as
      Genesis does, and the stable sort keeps them in input order. */
  lemma SyntheticNumberCollides()
    ensures Convert(Books2("Enoch", "Genesis"), "KJV").books
         == [Book("Enoch", 1, Old, []), Book("Genesis", 1, Old, [])]
  {
    TwoBooks("Enoch", "Genesis", "KJV");
    UnknownBook(0);
    FirstBook(1);
    SortTie(Chapterless("Enoch", 0), Chapterless("Genesis", 1));
  }

  /** Two spellings of one book both resolve to it: the result holds two
      books named Psalms, both numbered 19. */
  lemma AliasAndNameCollide()
    ensures Convert(Books2("Psalm", "Psalms"), "KJV").books
         == [Book("Psalms", 19, Old, []), Book("Psalms", 19, Old, [])]
  {
    TwoBooks("Psalm", "Psalms", "KJV");
    PsalmsBook("Psalm", 0);
    PsalmsBook("Psalms", 1);
    SortTie(Chapterless("Psalm", 0), Chapterless("Psalms", 1));
  }

  /** Either spelling gives the registry's book 19. */
  lemma PsalmsBook(name: string, appended: nat)
    requires name == "Psalm" || name == "Psalms"
    ensures Chapterless(name, appended) == Book("Psalms", 19, Old, [])
  {
    PsalmsSpellings(name);
    LookupRegistered(18);
  }

  /** "Psalm" and "Psalms" are both keys of the alias table. */
  lemma PsalmsSpellings(name: string)
    requires name == "Psalm" || name == "Psalms"
    ensures CanonicalName(name) == "Psalms"
  {
    if name == "Psalm" {
      assert LookupKey(name) == "psalm";
    } else {
      assert LookupKey(name) == "psalms";
    }
  }

  /** Verse keys are ordered by their integer value, not as text: "2" comes before "10". */
  lemma NumericNotTextualOrder()
    ensures ChapterLines(Dict(["10", "2"], map["10" := "b", "2" := "a"])) == ["2 a", "10 b"]
  {
    var v: Verses := Dict(["10", "2"], map["10" := "b", "2" := "a"]);
    assert Text.DecimalValue("10") == 10 && Text.DecimalValue("2") == 2;
    assert ["10", "2"][..1] == ["10"];
    assert StableSort(["10"], Text.DecimalValue) == ["10"];
    var ks := SortedKeys(v.keys);
    assert ks == ["2", "10"];
    LinesOfAt(v, ks, 0);
    LinesOfAt(v, ks, 1);
    assert VerseLine("2", "a") == "2 a";
    assert VerseLine("10", "b") == "10 b";
  }
}
