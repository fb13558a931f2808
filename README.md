# Bible converter: `convert_to_flat_array` in Dafny

`bible_converter.py` turns a nested Bible document, `{book: {chapter: {verse: text}}}`,
into a "flat array" document:

- `{name, books}`, where each book is `{name, book_number, testament, chapters}`;
- each chapter is a list of strings `"<verse key> <verse text>"`.

This project models the function that does that, `convert_to_flat_array`, together
with the two constant tables it reads: the registry of the 66 canonical books
(`BOOK_INFO`) and the alias table (`BOOK_NAME_ALIASES`).

For each input book, in the input's iteration order, the function does four things:

1. It strips and lower-cases the name and looks the result up in the alias table.
   A hit replaces the name by the alias target. A miss keeps the name exactly as given.
2. It looks the (possibly replaced) name up in the registry. A registry name gets its
   1-based position as its book number and the registry's testament. Any other name
   gets `len(books) + 1` and `"Old"`.
3. It sorts the chapter keys, and within each chapter the verse keys, by `int()`.
   It writes each verse as `key + " " + text`.
4. It appends the book and updates the `stats` counters.

Finally it sorts the books by book number, with Python's stable `list.sort`.

The model is imperative where the source is:

- `Converter.ConvertToFlatArray` is built from one method per loop:
  `CollectBooks` (outer loop), `BuildBook` (one pass of it), `FlattenChapters` and
  `FlattenVerses`.
- It then sorts an `array` in place with a stable insertion sort
  (`StableSorting.SortInPlace`).
- Each method is proved against a pure specification function: `Convert`,
  `BooksInOrder`, `BookAt`, `ChapterList`, `ChapterLines`, `StableSort` and `Tally`.
- The properties of those functions are proved as lemmas in the modules
  `Properties`, `Counters` and `Scenarios`.

Modules:

- `Text`: `strip()`, `lower()`, and `int()`/`str()` on decimal keys, all on ASCII.
- `Registry`: `BOOK_INFO`, `BOOK_NAME_ALIASES`, `book_lookup`, and the name normalisation.
- `Documents`: the input and output documents. A Python dict is modelled as its keys
  in iteration order plus a map.
- `StableSorting`: the stable sort. `StableSort` is the reference definition;
  `SortInPlace` and `SortedCopy` are the in-place algorithm.
- `Converter`: the conversion, as functions and as methods.
- `Properties`, `Counters`, `Scenarios`: what the conversion guarantees, and concrete cases.

Behaviour of the code that a reader might not expect, all modelled as written:

- Book numbers are not unique, not even among registry books:
  - An unrecognised book's fallback number can equal a registry number:
    `{"Enoch", "Genesis"}` gives two books numbered 1 (`Scenarios.SyntheticNumberCollides`).
  - Two spellings of one book both resolve to it: `{"Psalm", "Psalms"}` gives two books
    named Psalms, numbered 19 (`Scenarios.AliasAndNameCollide`).
  - What does hold: two different registry names never share a number
    (`Registry.LookupNumbersDistinct`), and the sort keeps equal numbers in input order.
- Only alias lookup ignores case and surrounding whitespace. Registry lookup is exact,
  so `" Genesis"` and `"genesis"` are unrecognised, and they are kept untrimmed.
- Keys with leading zeros (`"01"` and `"1"`) have equal `int()` values.
  They keep their input order (stable sort). Strictly ascending order is proved only
  for keys written as `str(n)` writes them.

## Model

| member | source | states |
|---|---|---|
| Registry.RegistryShape | bible_converter.py:14-34 | the registry has 66 books; position i is Old Testament exactly when i < 39 |
| Registry.RegistryNamesDistinct | bible_converter.py:14-34 | no name occurs twice in the registry |
| Registry.NotRegistered | bible_converter.py:14-34 | a string whose (length, first, third character) matches no registry entry is not a registry name |
| Registry.FindBookSpec | bible_converter.py:62 | the comprehension's lookup finds the last position holding the name, or reports that none holds it |
| Registry.FindBookSameIndex | bible_converter.py:62 | two names found at the same position are equal |
| Registry.BookLookupSpec | bible_converter.py:62 | `book_lookup` finds exactly the registry names, with number = position + 1 and the entry's testament |
| Registry.LookupRegistered | bible_converter.py:62 | the i-th registry name maps to (i + 1, its testament) |
| Registry.LookupNumbersDistinct | bible_converter.py:62 | two names with the same registry number are the same name |
| Registry.AliasTargetsRegistered | bible_converter.py:38-44 | every alias target is a registry name |
| Registry.CanonicalNameSpec | bible_converter.py:78-79 | an aliased name becomes a registry name; any other name is returned unchanged |
| Registry.LookupKeyIgnoresSpace | bible_converter.py:78 | whitespace around a name does not change `name.strip().lower()` |
| Registry.LookupKeyIgnoresCase | bible_converter.py:78 | names that differ only in the case of their letters have the same `strip().lower()` key |
| Registry.AliasIgnoresCaseAndSpace | bible_converter.py:78-79 | a name re-cased and padded with whitespace is an alias exactly when the name is, and then has the same alias target |
| Registry.BookLookup | bible_converter.py:62 | no contract of its own; characterised by `Registry.BookLookupSpec`, `LookupRegistered` and `LookupNumbersDistinct` |
| Registry.CanonicalName | bible_converter.py:79 | no contract of its own; characterised by `Registry.CanonicalNameSpec` and `AliasIgnoresCaseAndSpace` |
| Text.Strip | bible_converter.py:78 | no contract of its own; characterised by `Text.StripSlice` and `StripPadding` |
| Text.StripPadding | bible_converter.py:78 | whitespace on either side of a string does not survive `strip()` |
| Text.StripLower | bible_converter.py:78 | strings equal after `lower()` are equal after `strip().lower()` |
| Text.Lower | bible_converter.py:78 | no contract of its own; characterised by `Text.LowerSpec` and `LowerIdempotent` |
| Text.DecimalValue | bible_converter.py:96 | no contract of its own; `int()` of a key, characterised by `Text.DecimalValueNonNegative`, `DecimalValueOfDecimal`, `DecimalOfDecimalValue` and `DecimalValueInjective` |
| Text.LeadingSpacesSpec | bible_converter.py:78 | the counted prefix is whitespace and is followed by a non-space |
| Text.TrailingSpacesSpec | bible_converter.py:78 | the counted suffix is whitespace and is preceded by a non-space |
| Text.StripSlice | bible_converter.py:78 | `strip()` is a slice of the name with only whitespace cut off on each side, and neither starts nor ends with whitespace |
| Text.LowerSpec | bible_converter.py:78 | `lower()` keeps the length, maps A-Z to a-z, keeps every other character and leaves no upper-case letter |
| Text.LowerIdempotent | bible_converter.py:78 | lower-casing twice equals lower-casing once |
| Text.DecimalValueNonNegative | bible_converter.py:96 | `int()` of a decimal key is never negative |
| Text.DecimalValueOfDecimal | bible_converter.py:96 | `int(str(n)) == n` |
| Text.DecimalOfDecimalValue | bible_converter.py:96 | `str(int(k)) == k` for a key without leading zeros |
| Text.DecimalValueInjective | bible_converter.py:96 | distinct keys without leading zeros have distinct `int()` values |
| StableSorting.StableSortPermutation | bible_converter.py:133 | the sort only reorders: same multiset, same members |
| StableSorting.StableSortSorted | bible_converter.py:133 | the sort's result ascends by the key |
| StableSorting.StableSortStable | bible_converter.py:133 | for every key value, the elements with that key keep their input order |
| StableSorting.InsertPermutation | bible_converter.py:133 | one insertion adds exactly the inserted element |
| StableSorting.InsertSorted | bible_converter.py:133 | inserting into a sorted list keeps it sorted |
| StableSorting.InsertStable | bible_converter.py:133 | inserting places the element after every element with the same key |
| StableSorting.InsertAt | bible_converter.py:133 | insertion puts the element exactly between the not-larger and the larger keys |
| StableSorting.SumByStableSort | bible_converter.py:121-126 | sorting does not change a sum over the elements |
| StableSorting.SumByPointwise | bible_converter.py:121-126 | sums over two lists agree when their summands agree pointwise |
| StableSorting.ShiftLarger | bible_converter.py:133 | the inner loop of an insertion step moves the larger elements one place right, changing nothing else |
| StableSorting.InsertIntoPrefix | bible_converter.py:133 | one step of the in-place sort leaves the prefix equal to `Insert` of its old value, the rest unchanged |
| StableSorting.SortInPlace | bible_converter.py:133 | `books.sort(key=...)` leaves the array equal to `StableSort` of its old contents |
| StableSorting.SortedCopy | bible_converter.py:96 | `sorted(keys, key=int)` returns `StableSort` of the keys |
| Converter.VerseLine | bible_converter.py:104 | no contract of its own; characterised by `Converter.VerseLineRoundTrip` and `Properties.ChapterLineAt` |
| Converter.SortedKeys | bible_converter.py:96 | no contract of its own; characterised by `Converter.SortedKeysSameKeys`, `Properties.SortedKeysOrder` and `NumericOrderStrict` |
| Converter.Resolve | bible_converter.py:78-92 | no contract of its own; characterised by `Properties.ResolveRecognised`, `ResolveUnrecognised` and `ResolveAlias` |
| Converter.FirstSpace | bible_converter.py:104 | the returned position is the first space, or the length when there is none |
| Converter.VerseLineRoundTrip | bible_converter.py:104 | a verse line splits back into its key and its unaltered text |
| Converter.SortedKeysSameKeys | bible_converter.py:96 | the sorted keys are the same keys, as many |
| Converter.LinesOfAt | bible_converter.py:100-105 | the i-th line is the i-th key's verse written as `key + " " + text` |
| Converter.ChaptersOfAt | bible_converter.py:95-107 | the i-th chapter is the line list of the i-th key's chapter |
| Converter.TallyAppend | bible_converter.py:121-126 | appending a book adds one book, its chapters, its verses and one to its testament's counter |
| Converter.TallySorted | bible_converter.py:133 | the final sort changes no counter |
| Converter.FlattenVerses | bible_converter.py:100-105 | the inner loop returns exactly the chapter's lines in sorted key order |
| Converter.FlattenChapters | bible_converter.py:95-108 | the middle loop returns the book's chapters in sorted key order, and its `stats['verses']` increment is their total length |
| Converter.BuildBook | bible_converter.py:76-126 | one pass builds the book `BookAt` describes and adds it to each counter |
| Converter.CollectBooks | bible_converter.py:64-126 | the outer loop builds one book per input book, in input order, and the counters equal `Tally` of them |
| Converter.ConvertToFlatArray | bible_converter.py:46-148 | the result is `Convert(input, name)`, the name defaulting to "King James Version", and the counters describe both the books built and the books returned |
| Properties.ConvertShape | bible_converter.py:145-148 | the result carries the given name and one book per input book; empty input gives no books |
| Properties.ConvertOrder | bible_converter.py:133 | the books come out ascending by number, as a permutation of the books built, equal numbers in input order |
| Properties.ResolveRecognised | bible_converter.py:84-86 | a name whose canonical form is the i-th registry name gets that name, number i + 1 and its testament |
| Properties.ResolveUnrecognised | bible_converter.py:87-92 | any other name is not an alias and gets its own name, `len(books) + 1` and Old |
| Properties.ResolveAlias | bible_converter.py:38-44 | an aliased name resolves to Psalms/19/Old or Song of Solomon/22/Old, whatever its case and surrounding spaces |
| Properties.RecognisedBookInOutput | bible_converter.py:84-86 | a recognised input book appears in the result under its registry name, number and testament, with its chapters |
| Properties.UnrecognisedBookInOutput | bible_converter.py:87-92 | an unrecognised input book is never dropped: it appears under its own name, numbered one past the books before it, as Old |
| Properties.BookInOutput | bible_converter.py:118 | every book built appears in the result |
| Properties.SortedKeysOrder | bible_converter.py:96 | the sorted keys are the same keys, ascending by `int()`, with equal values in input order |
| Properties.NumericOrderStrict | bible_converter.py:96 | with distinct keys without leading zeros, the order is strictly ascending |
| Properties.ChapterLineAt | bible_converter.py:100-105 | the i-th line of a chapter is the i-th sorted key's verse, and reads back to that key |
| Properties.ChapterLinesContents | bible_converter.py:100-105 | a chapter's lines are exactly its verses, each `key + " " + text` with the text unaltered, in ascending key order |
| Properties.ChapterLinesStrict | bible_converter.py:101 | with keys without leading zeros, a chapter's verse keys strictly ascend |
| Properties.ChapterListAt | bible_converter.py:95-107 | the i-th chapter of a book holds the lines of the chapter with the i-th sorted key |
| Properties.ChapterListContents | bible_converter.py:95-107 | a book has one line list per input chapter, every chapter is there, in ascending key order |
| Counters.ChaptersOfVerses | bible_converter.py:108 | the line lists of some chapters hold as many lines as those chapters have verses |
| Counters.ChapterListVerses | bible_converter.py:108 | a book's line lists hold exactly its input verses |
| Counters.TestamentsAddUp | bible_converter.py:121-126 | `old_testament + new_testament == books` |
| Counters.TallyMatchesInput | bible_converter.py:65-71 | `stats` counts the input's books, chapters and verses, and the testaments add up to the books |
| Counters.NewTestamentBook | bible_converter.py:123-126 | a book counts as New Testament exactly when its canonical name is one of the registry's last 27 |
| Scenarios.OneVerse | bible_converter.py:100-105 | a one-verse chapter gives one line |
| Scenarios.OneChapter | bible_converter.py:95-107 | a one-chapter book gives one line list |
| Scenarios.FirstBook | bible_converter.py:84-86 | Genesis resolves to Genesis, 1, Old |
| Scenarios.GenesisChapters | bible_converter.py:95-107 | the example's chapters become `[["1 In the beginning..."]]` |
| Scenarios.GenesisExample | bible_converter.py:46-148 | the one-verse Genesis document converts to one book, Genesis, 1, Old, with that one line |
| Scenarios.DefaultBibleName | bible_converter.py:46 | called without a name, the converter names the document "King James Version" |
| Scenarios.EmptyInput | bible_converter.py:145-148 | an empty document gives no books and all counters zero |
| Scenarios.PaddedKey | bible_converter.py:78 | `" PSALM ".strip().lower()` is `"psalm"` |
| Scenarios.PaddedAlias | bible_converter.py:78-86 | `" PSALM "` resolves to Psalms, 19, Old |
| Scenarios.LastBook | bible_converter.py:84-86 | Revelation resolves to Revelation, 66, New |
| Scenarios.PaddedNameUnrecognised | bible_converter.py:79-92 | `" Genesis"` is unrecognised and kept with its leading space |
| Scenarios.LowerCaseNameUnrecognised | bible_converter.py:84-92 | `"genesis"` is unrecognised: registry lookup is case-sensitive |
| Scenarios.UnknownBook | bible_converter.py:87-92 | Enoch is kept as Enoch, numbered one past the books before it, Old |
| Scenarios.TwoBooks | bible_converter.py:76-133 | a two-book document converts to its two resolved books, sorted |
| Scenarios.SortTie | bible_converter.py:133 | two books with equal numbers keep their order |
| Scenarios.SyntheticNumberCollides | bible_converter.py:90 | Enoch then Genesis gives two books numbered 1, in input order |
| Scenarios.PsalmsSpellings | bible_converter.py:38-44 | "Psalm" and "Psalms" both become Psalms |
| Scenarios.PsalmsBook | bible_converter.py:38-44 | either spelling builds book 19, Psalms |
| Scenarios.AliasAndNameCollide | bible_converter.py:79-86 | Psalm then Psalms gives two books named Psalms, both numbered 19 |
| Scenarios.NumericNotTextualOrder | bible_converter.py:101 | verse "2" comes before verse "10" |

## Left out

- Loading, saving and `main` (bible_converter.py:151-256) are not part of this model.
  They are file I/O, JSON parsing and serialisation, directory creation, a
  floating-point size report and the command line.
- The progress and summary `print` calls inside `convert_to_flat_array` are left out.
  They only write to the console.
- The `stats` dict is only printed by the source. `Converter.ConvertToFlatArray`
  returns it as a second result, so that what it counts can be stated.
- Keys must be non-empty ASCII digit strings: `WellFormedVerses` and
  `WellFormedChapters` require this. Python's `int()` also accepts signs, surrounding
  whitespace, underscores between digits, and non-ASCII Unicode decimal digits
  (such as Arabic-Indic "١٢"). Keys it rejects raise `ValueError` in the source.
  Neither case is modelled.
- `strip()` and `lower()` are modelled on ASCII only: the whitespace of
  `str.isspace()` below 128, and A-Z case folding. Unicode whitespace and case
  mappings are left out.
- Python's Timsort is replaced by a stable insertion sort. It gives the same result,
  because a stable sort by a key is unique.
- Input and output are typed values (`Documents.Dict`, `Book`, `Bible`). Malformed
  JSON shapes, such as a chapter that is not a dict, are excluded by the types.
