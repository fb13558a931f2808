/**
  What `convert_to_flat_array` promises about its result, stated over the
  functions of `Converter` and proved for every well-formed input.
 */
module Properties {
  import Text
  import opened Registry
  import opened StableSorting
  import opened Documents
  import opened Converter

  /** The result carries the given name and one book per input book; an empty
      input gives no books. */
  lemma ConvertShape(input: Input, bibleName: string)
    requires WellFormedInput(input)
    ensures Convert(input, bibleName).name == bibleName
    ensures |Convert(input, bibleName).books| == |input.keys|
    ensures input.keys == [] <==> Convert(input, bibleName).books == []
  {
  }

  /** `books.sort(key=book_number)`: the books come out in ascending book
      number, as a reordering of the books built, and books sharing a number
      keep the order in which they were built. */
  lemma ConvertOrder(input: Input, bibleName: string)
    requires WellFormedInput(input)
    ensures SortedBy(Convert(input, bibleName).books, BookNumber)
    ensures multiset(Convert(input, bibleName).books) == multiset(BooksInOrder(input))
    ensures forall k :: WithKey(Convert(input, bibleName).books, BookNumber, k)
                     == WithKey(BooksInOrder(input), BookNumber, k)
  {
    StableSortSorted(BooksInOrder(input), BookNumber);
    StableSortPermutation(BooksInOrder(input), BookNumber);
    forall k ensures WithKey(Convert(input, bibleName).books, BookNumber, k)
                  == WithKey(BooksInOrder(input), BookNumber, k) {
      StableSortStable(BooksInOrder(input), BookNumber, k);
    }
  }

  /** How an input book is resolved. A name whose canonical form is the
      registry's `i`-th name gets that name, number `i + 1` and its testament. */
  lemma ResolveRecognised(name: string, appended: nat, i: nat)
    requires i < |BookInfo| && CanonicalName(name) == BookInfo[i].0
    ensures Resolve(name, appended) == (BookInfo[i].0, i + 1, BookInfo[i].1)
  {
    LookupRegistered(i);
  }

  /** Any other name is kept exactly as given (it is not an alias), is
      numbered one past the books already appended, and counts as Old Testament. */
  lemma ResolveUnrecognised(name: string, appended: nat)
    requires forall i :: 0 <= i < |BookInfo| ==> BookInfo[i].0 != CanonicalName(name)
    ensures LookupKey(name) !in BookNameAliases
    ensures Resolve(name, appended) == (name, appended + 1, Old)
  {
    BookLookupSpec(CanonicalName(name));
    CanonicalNameSpec(name);
  }

  /** A name whose stripped, lower-cased form is an alias resolves to the
      alias target's registry entry, whatever its case and surrounding spaces. */
  lemma ResolveAlias(name: string, appended: nat)
    requires LookupKey(name) in BookNameAliases
    ensures BookNameAliases[LookupKey(name)] == "Psalms" ==> Resolve(name, appended) == ("Psalms", 19, Old)
    ensures BookNameAliases[LookupKey(name)] != "Psalms" ==> Resolve(name, appended) == ("Song of Solomon", 22, Old)
  {
    LookupRegistered(18);
    LookupRegistered(21);
  }

  /** The registry's `i`-th book, however it was spelled in the input, appears
      in the result under its registry name, number and testament, holding the
      input book's chapters. */
  lemma RecognisedBookInOutput(input: Input, bibleName: string, j: nat, i: nat)
    requires WellFormedInput(input) && j < |input.keys|
    requires i < |BookInfo| && CanonicalName(input.keys[j]) == BookInfo[i].0
    ensures Book(BookInfo[i].0, i + 1, BookInfo[i].1, ChapterList(input.values[input.keys[j]]))
            in Convert(input, bibleName).books
  {
    ResolveRecognised(input.keys[j], j, i);
    BookInOutput(input, bibleName, j);
  }

  /** A book the registry does not know appears in the result under its input
      name, numbered one past the books appended before it, as Old Testament. */
  lemma UnrecognisedBookInOutput(input: Input, bibleName: string, j: nat)
    requires WellFormedInput(input) && j < |input.keys|
    requires forall i :: 0 <= i < |BookInfo| ==> BookInfo[i].0 != CanonicalName(input.keys[j])
    ensures Book(input.keys[j], j + 1, Old, ChapterList(input.values[input.keys[j]]))
            in Convert(input, bibleName).books
  {
    ResolveUnrecognised(input.keys[j], j);
    BookInOutput(input, bibleName, j);
  }

  /** Every book built appears in the result. */
  lemma BookInOutput(input: Input, bibleName: string, j: nat)
    requires WellFormedInput(input) && j < |input.keys|
    ensures BookAt(input, j) in Convert(input, bibleName).books
  {
    assert BooksInOrder(input)[j] == BookAt(input, j);
    StableSortPermutation(BooksInOrder(input), BookNumber);
  }

  /** `ks` lists `keys` in `sorted(keys, key=int)` order: the same keys,
      ascending by integer value, keys of equal value in their input order. */
  ghost predicate NumericOrder(ks: seq<string>, keys: seq<string>) {
    && multiset(ks) == multiset(keys)
    && SortedBy(ks, Text.DecimalValue)
    && forall n :: WithKey(ks, Text.DecimalValue, n) == WithKey(keys, Text.DecimalValue, n)
  }

  lemma SortedKeysOrder(keys: seq<string>)
    ensures NumericOrder(SortedKeys(keys), keys)
  {
    StableSortPermutation(keys, Text.DecimalValue);
    StableSortSorted(keys, Text.DecimalValue);
    forall n ensures WithKey(SortedKeys(keys), Text.DecimalValue, n) == WithKey(keys, Text.DecimalValue, n) {
      StableSortStable(keys, Text.DecimalValue, n);
    }
  }

  /** With distinct keys written without leading zeros (as `str(n)` writes
      them), the order is strictly ascending. */
  lemma NumericOrderStrict(ks: seq<string>, keys: seq<string>)
    requires NumericOrder(ks, keys) && Distinct(keys)
    requires forall k :: k in keys ==> Text.IsCanonicalDecimal(k)
    ensures forall m, n :: 0 <= m < n < |ks| ==> Text.DecimalValue(ks[m]) < Text.DecimalValue(ks[n])
  {
    DistinctPermutation(keys, ks);
    forall m, n | 0 <= m < n < |ks| ensures Text.DecimalValue(ks[m]) < Text.DecimalValue(ks[n]) {
      assert ks[m] in multiset(ks) && ks[n] in multiset(ks);
      assert ks[m] in keys && ks[n] in keys;
      assert ks[m] != ks[n];
      Text.DecimalValueInjective(ks[m], ks[n]);
      SortedAt(ks, Text.DecimalValue, m, n);
    }
  }

  /** The `i`-th line of a chapter is the verse with the `i`-th sorted key,
      and reading the line back gives that key. */
  lemma ChapterLineAt(v: Verses, i: nat)
    requires WellFormedVerses(v) && i < |v.keys|
    ensures SortedKeys(v.keys)[i] in v.values
    ensures ChapterLines(v)[i] == VerseLine(SortedKeys(v.keys)[i], v.values[SortedKeys(v.keys)[i]])
    ensures SplitVerseLine(ChapterLines(v)[i]).0 == SortedKeys(v.keys)[i]
  {
    SortedKeysSameKeys(v.keys);
    LinesOfAt(v, SortedKeys(v.keys), i);
    var k := SortedKeys(v.keys)[i];
    VerseLineRoundTrip(k, v.values[k]);
  }

  /** The lines of a chapter are exactly its verses, each written as its key,
      a space and its text, in ascending numeric order of the keys. */
  lemma ChapterLinesContents(v: Verses)
    requires WellFormedVerses(v)
    ensures |ChapterLines(v)| == |v.keys|
    ensures forall k :: k in v.keys ==> VerseLine(k, v.values[k]) in ChapterLines(v)
    ensures forall line :: line in ChapterLines(v) ==>
              && SplitVerseLine(line).0 in v.values
              && line == VerseLine(SplitVerseLine(line).0, v.values[SplitVerseLine(line).0])
    ensures forall m, n :: 0 <= m < n < |ChapterLines(v)| ==>
              Text.DecimalValue(SplitVerseLine(ChapterLines(v)[m]).0)
              <= Text.DecimalValue(SplitVerseLine(ChapterLines(v)[n]).0)
  {
    var ks := SortedKeys(v.keys);
    var lines := ChapterLines(v);
    StableSortSorted(v.keys, Text.DecimalValue);
    SortedKeysSameKeys(v.keys);
    forall k | k in v.keys ensures VerseLine(k, v.values[k]) in lines {
      var i :| 0 <= i < |ks| && ks[i] == k;
      ChapterLineAt(v, i);
    }
    forall line | line in lines
      ensures SplitVerseLine(line).0 in v.values
      ensures line == VerseLine(SplitVerseLine(line).0, v.values[SplitVerseLine(line).0])
    {
      var i :| 0 <= i < |lines| && lines[i] == line;
      ChapterLineAt(v, i);
    }
    forall m, n | 0 <= m < n < |lines|
      ensures Text.DecimalValue(SplitVerseLine(lines[m]).0) <= Text.DecimalValue(SplitVerseLine(lines[n]).0)
    {
      ChapterLineAt(v, m);
      ChapterLineAt(v, n);
    }
  }

  /** With keys written without leading zeros, the verse keys of the lines
      strictly ascend. */
  lemma ChapterLinesStrict(v: Verses)
    requires WellFormedVerses(v)
    requires forall k :: k in v.keys ==> Text.IsCanonicalDecimal(k)
    ensures forall m, n :: 0 <= m < n < |ChapterLines(v)| ==>
              Text.DecimalValue(SplitVerseLine(ChapterLines(v)[m]).0)
              < Text.DecimalValue(SplitVerseLine(ChapterLines(v)[n]).0)
  {
    var ks := SortedKeys(v.keys);
    SortedKeysOrder(v.keys);
    NumericOrderStrict(ks, v.keys);
    forall i | 0 <= i < |ks| ensures SplitVerseLine(ChapterLines(v)[i]).0 == ks[i] {
      ChapterLineAt(v, i);
    }
  }

  /** The `i`-th chapter of a book holds the lines of the chapter with the
      `i`-th sorted key. */
  lemma ChapterListAt(c: Chapters, i: nat)
    requires WellFormedChapters(c) && i < |c.keys|
    ensures SortedKeys(c.keys)[i] in c.values
    ensures ChapterList(c)[i] == ChapterLines(c.values[SortedKeys(c.keys)[i]])
  {
    SortedKeysSameKeys(c.keys);
    ChaptersOfAt(c, SortedKeys(c.keys), i);
  }

  /** The chapters of a book are the line lists of its chapters, listed in
      `sorted(keys, key=int)` order of the chapter keys. */
  lemma ChapterListContents(c: Chapters)
    requires WellFormedChapters(c)
    ensures |ChapterList(c)| == |c.keys|
    ensures forall k :: k in c.keys ==> ChapterLines(c.values[k]) in ChapterList(c)
    ensures NumericOrder(SortedKeys(c.keys), c.keys)
    ensures forall m :: 0 <= m < |c.keys| ==>
              SortedKeys(c.keys)[m] in c.values && ChapterList(c)[m] == ChapterLines(c.values[SortedKeys(c.keys)[m]])
  {
    var ks := SortedKeys(c.keys);
    SortedKeysOrder(c.keys);
    SortedKeysSameKeys(c.keys);
    forall m | 0 <= m < |c.keys|
      ensures ks[m] in c.values && ChapterList(c)[m] == ChapterLines(c.values[ks[m]])
    {
      ChapterListAt(c, m);
    }
    forall k | k in c.keys ensures ChapterLines(c.values[k]) in ChapterList(c) {
      var i :| 0 <= i < |ks| && ks[i] == k;
      ChapterListAt(c, i);
    }
  }
}
