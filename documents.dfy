/**
  The input and output documents of the converter.

  The input is nested JSON, `{book: {chapter: {verse: text}}}`, loaded into
  Python dicts; a dict is modelled as its keys in insertion (iteration) order
  together with the map from key to value. The output is
  `{name, books: [{name, book_number, testament, chapters: [[line]]}]}`.
 */
module Documents {
  import Text
  import opened Registry

  /** A Python dict with string keys: `keys` in iteration order, `values` the mapping. */
  datatype Dict<V> = Dict(keys: seq<string>, values: map<string, V>)

  /** The keys are distinct and are exactly the keys of the mapping. */
  ghost predicate ValidDict<V>(d: Dict<V>) {
    && (forall i, j :: 0 <= i < j < |d.keys| ==> d.keys[i] != d.keys[j])
    && (forall k :: k in d.values <==> k in d.keys)
  }

  /** verse number -> verse text */
  type Verses = Dict<string>
  /** chapter number -> verses */
  type Chapters = Dict<Verses>
  /** book name -> chapters */
  type Input = Dict<Chapters>

  /** `int()` succeeds on every verse key. */
  ghost predicate WellFormedVerses(v: Verses) {
    ValidDict(v) && forall k :: k in v.keys ==> Text.IsDecimal(k)
  }

  /** `int()` succeeds on every chapter key, and every chapter is well formed. */
  ghost predicate WellFormedChapters(c: Chapters) {
    && ValidDict(c)
    && (forall k :: k in c.keys ==> Text.IsDecimal(k))
    && (forall k :: k in c.values ==> WellFormedVerses(c.values[k]))
  }

  /** The shape the converter's callers supply. */
  ghost predicate WellFormedInput(input: Input) {
    ValidDict(input) && forall b :: b in input.values ==> WellFormedChapters(input.values[b])
  }

  /** One output book; each chapter is the list of its verse lines. */
  datatype Book = Book(name: string, bookNumber: int, testament: Testament, chapters: seq<seq<string>>)

  /** The output document. */
  datatype Bible = Bible(name: string, books: seq<Book>)

  /** The converter's `stats` counters. */
  datatype Stats = Stats(books: nat, chapters: nat, verses: nat, oldTestament: nat, newTestament: nat)

  /** The sort key of `books.sort(key=lambda x: x["book_number"])`. */
  function BookNumber(b: Book): int {
    b.bookNumber
  }
}
