/**
  The two constant tables the converter reads: the canonical registry of the 66
  books in order (`BOOK_INFO`) and the alias table of lower-cased alternate
  spellings (`BOOK_NAME_ALIASES`), with the name normalisation and the
  registry lookup (`book_lookup`) built on them.
 */
module Registry {
  import Text

  datatype Option<T> = None | Some(value: T)

  datatype Testament = Old | New

  /** The canonical books in order; a book's number is its position plus one.
      (Written as a concatenation of rows of four so that the verifier can
      index into it.) */
  const BookInfo: seq<(string, Testament)> :=
    // Old Testament (39 books)
    [("Genesis", Old), ("Exodus", Old), ("Leviticus", Old), ("Numbers", Old)] +
    [("Deuteronomy", Old), ("Joshua", Old), ("Judges", Old), ("Ruth", Old)] +
    [("1 Samuel", Old), ("2 Samuel", Old), ("1 Kings", Old), ("2 Kings", Old)] +
    [("1 Chronicles", Old), ("2 Chronicles", Old), ("Ezra", Old), ("Nehemiah", Old)] +
    [("Esther", Old), ("Job", Old), ("Psalms", Old), ("Proverbs", Old)] +
    [("Ecclesiastes", Old), ("Song of Solomon", Old), ("Isaiah", Old), ("Jeremiah", Old)] +
    [("Lamentations", Old), ("Ezekiel", Old), ("Daniel", Old), ("Hosea", Old)] +
    [("Joel", Old), ("Amos", Old), ("Obadiah", Old), ("Jonah", Old)] +
    [("Micah", Old), ("Nahum", Old), ("Habakkuk", Old), ("Zephaniah", Old)] +
    [("Haggai", Old), ("Zechariah", Old), ("Malachi", Old)] +
    // New Testament (27 books)
    [("Matthew", New), ("Mark", New), ("Luke", New), ("John", New)] +
    [("Acts", New), ("Romans", New), ("1 Corinthians", New), ("2 Corinthians", New)] +
    [("Galatians", New), ("Ephesians", New), ("Philippians", New), ("Colossians", New)] +
    [("1 Thessalonians", New), ("2 Thessalonians", New), ("1 Timothy", New), ("2 Timothy", New)] +
    [("Titus", New), ("Philemon", New), ("Hebrews", New), ("James", New)] +
    [("1 Peter", New), ("2 Peter", New), ("1 John", New), ("2 John", New)] +
    [("3 John", New), ("Jude", New), ("Revelation", New)]

  /** Lower-cased alternate spellings and the canonical name each stands for. */
  const BookNameAliases: map<string, string> := map[
    "psalm" := "Psalms",
    "psalms" := "Psalms",
    "song of songs" := "Song of Solomon",
    "song of solomon" := "Song of Solomon"
  ]

  /** The registry has 66 books: the first 39 Old Testament, the last 27 New Testament. */
  lemma RegistryShape()
    ensures |BookInfo| == 66
    ensures forall i :: 0 <= i < |BookInfo| ==> (BookInfo[i].1 == Old <==> i < 39)
  {
    forall i | 0 <= i < |BookInfo| ensures BookInfo[i].1 == Old <==> i < 39 {
      assert i == 0 || i == 1 || i == 2 || i == 3 || i == 4 || i == 5 || i == 6 || i == 7
        || i == 8 || i == 9 || i == 10 || i == 11 || i == 12 || i == 13 || i == 14
        || i == 15 || i == 16 || i == 17 || i == 18 || i == 19 || i == 20 || i == 21
        || i == 22 || i == 23 || i == 24 || i == 25 || i == 26 || i == 27 || i == 28
        || i == 29 || i == 30 || i == 31 || i == 32 || i == 33 || i == 34 || i == 35
        || i == 36 || i == 37 || i == 38 || i == 39 || i == 40 || i == 41 || i == 42
        || i == 43 || i == 44 || i == 45 || i == 46 || i == 47 || i == 48 || i == 49
        || i == 50 || i == 51 || i == 52 || i == 53 || i == 54 || i == 55 || i == 56
        || i == 57 || i == 58 || i == 59 || i == 60 || i == 61 || i == 62 || i == 63
        || i == 64 || i == 65;
    }
  }

  /** The position of a registry name, told apart by its length and its first
      and third characters; -1 for a string that matches no registry entry by
      those three. Used only to prove facts about the registry cheaply. */
  ghost function RegistryPosition(name: string): int {
    if |name| < 3 then -1 else
    match (|name|, name[0], name[2])
      case (7, 'G', 'n') => 0
      case (6, 'E', 'o') => 1
      case (9, 'L', 'v') => 2
      case (7, 'N', 'm') => 3
      case (11, 'D', 'u') => 4
      case (6, 'J', 's') => 5
      case (6, 'J', 'd') => 6
      case (4, 'R', 't') => 7
      case (8, '1', 'S') => 8
      case (8, '2', 'S') => 9
      case (7, '1', 'K') => 10
      case (7, '2', 'K') => 11
      case (12, '1', 'C') => 12
      case (12, '2', 'C') => 13
      case (4, 'E', 'r') => 14
      case (8, 'N', 'h') => 15
      case (6, 'E', 't') => 16
      case (3, 'J', 'b') => 17
      case (6, 'P', 'a') => 18
      case (8, 'P', 'o') => 19
      case (12, 'E', 'c') => 20
      case (15, 'S', 'n') => 21
      case (6, 'I', 'a') => 22
      case (8, 'J', 'r') => 23
      case (12, 'L', 'm') => 24
      case (7, 'E', 'e') => 25
      case (6, 'D', 'n') => 26
      case (5, 'H', 's') => 27
      case (4, 'J', 'e') => 28
      case (4, 'A', 'o') => 29
      case (7, 'O', 'a') => 30
      case (5, 'J', 'n') => 31
      case (5, 'M', 'c') => 32
      case (5, 'N', 'h') => 33
      case (8, 'H', 'b') => 34
      case (9, 'Z', 'p') => 35
      case (6, 'H', 'g') => 36
      case (9, 'Z', 'c') => 37
      case (7, 'M', 'l') => 38
      case (7, 'M', 't') => 39
      case (4, 'M', 'r') => 40
      case (4, 'L', 'k') => 41
      case (4, 'J', 'h') => 42
      case (4, 'A', 't') => 43
      case (6, 'R', 'm') => 44
      case (13, '1', 'C') => 45
      case (13, '2', 'C') => 46
      case (9, 'G', 'l') => 47
      case (9, 'E', 'h') => 48
      case (11, 'P', 'i') => 49
      case (10, 'C', 'l') => 50
      case (15, '1', 'T') => 51
      case (15, '2', 'T') => 52
      case (9, '1', 'T') => 53
      case (9, '2', 'T') => 54
      case (5, 'T', 't') => 55
      case (8, 'P', 'i') => 56
      case (7, 'H', 'b') => 57
      case (5, 'J', 'm') => 58
      case (7, '1', 'P') => 59
      case (7, '2', 'P') => 60
      case (6, '1', 'J') => 61
      case (6, '2', 'J') => 62
      case (6, '3', 'J') => 63
      case (4, 'J', 'd') => 64
      case (10, 'R', 'v') => 65
      case _ => -1
  }

  lemma RegistryPositionOfEntry()
    ensures forall i :: 0 <= i < |BookInfo| ==> RegistryPosition(BookInfo[i].0) == i
  {
    RegistryPositionFirstHalf();
    RegistryPositionSecondHalf();
  }

  lemma RegistryPositionFirstHalf()
    ensures forall i :: 0 <= i < 33 ==> RegistryPosition(BookInfo[i].0) == i
  {
    forall i | 0 <= i < 33 ensures RegistryPosition(BookInfo[i].0) == i {
      assert i == 0 || i == 1 || i == 2 || i == 3 || i == 4 || i == 5 || i == 6 || i == 7
        || i == 8 || i == 9 || i == 10 || i == 11 || i == 12 || i == 13 || i == 14
        || i == 15 || i == 16 || i == 17 || i == 18 || i == 19 || i == 20 || i == 21
        || i == 22 || i == 23 || i == 24 || i == 25 || i == 26 || i == 27 || i == 28
        || i == 29 || i == 30 || i == 31 || i == 32;
    }
  }

  lemma RegistryPositionSecondHalf()
    ensures forall i :: 33 <= i < 66 ==> RegistryPosition(BookInfo[i].0) == i
  {
    forall i | 33 <= i < 66 ensures RegistryPosition(BookInfo[i].0) == i {
      assert i == 33 || i == 34 || i == 35 || i == 36 || i == 37 || i == 38 || i == 39
        || i == 40 || i == 41 || i == 42 || i == 43 || i == 44 || i == 45 || i == 46
        || i == 47 || i == 48 || i == 49 || i == 50 || i == 51 || i == 52 || i == 53
        || i == 54 || i == 55 || i == 56 || i == 57 || i == 58 || i == 59 || i == 60
        || i == 61 || i == 62 || i == 63 || i == 64 || i == 65;
    }
  }

  /** No name appears twice in the registry. */
  lemma RegistryNamesDistinct()
    ensures forall i, j :: 0 <= i < j < |BookInfo| ==> BookInfo[i].0 != BookInfo[j].0
  {
    RegistryPositionOfEntry();
  }

  /** A name whose registry position is -1 is not a registry name. */
  lemma NotRegistered(name: string)
    requires RegistryPosition(name) == -1
    ensures forall i :: 0 <= i < |BookInfo| ==> BookInfo[i].0 != name
  {
    RegistryPositionOfEntry();
  }

  /** The last position below `n` of `table` holding `name`: a dict
      comprehension over the registry keeps the last entry for a repeated key. */
  function FindBook(table: seq<(string, Testament)>, name: string, n: nat): (r: Option<nat>)
    requires n <= |table|
    ensures r.Some? ==> r.value < n
  {
    if n == 0 then None
    else if table[n - 1].0 == name then Some(n - 1)
    else FindBook(table, name, n - 1)
  }

  /** `FindBook` finds the last position below `n` holding `name`, or reports
      that none holds it. */
  lemma {:induction false} FindBookSpec(table: seq<(string, Testament)>, name: string, n: nat)
    requires n <= |table|
    ensures FindBook(table, name, n).Some? ==> table[FindBook(table, name, n).value].0 == name
    ensures FindBook(table, name, n).Some? ==>
              forall m :: FindBook(table, name, n).value < m < n ==> table[m].0 != name
    ensures FindBook(table, name, n).None? <==> forall m :: 0 <= m < n ==> table[m].0 != name
  {
    if n > 0 && table[n - 1].0 != name {
      FindBookSpec(table, name, n - 1);
    }
  }

  /** Two names found at the same position are the same name. */
  lemma FindBookSameIndex(table: seq<(string, Testament)>, a: string, b: string, n: nat)
    requires n <= |table|
    requires FindBook(table, a, n).Some? && FindBook(table, b, n).Some?
    requires FindBook(table, a, n).value == FindBook(table, b, n).value
    ensures a == b
  {
    FindBookSpec(table, a, n);
    FindBookSpec(table, b, n);
  }

  /** `book_lookup.get(name)`: the 1-based book number and the testament of a
      registry name, or None for any other string. */
  function BookLookup(name: string): Option<(int, Testament)> {
    match FindBook(BookInfo, name, |BookInfo|)
    case Some(i) => Some((i + 1, BookInfo[i].1))
    case None => None
  }

  /** A name is found exactly when the registry holds it, and then at the
      position (book number minus one) where it holds it, with its testament. */
  lemma BookLookupSpec(name: string)
    ensures BookLookup(name).Some? ==>
              var (number, testament) := BookLookup(name).value;
              1 <= number <= |BookInfo| && BookInfo[number - 1] == (name, testament)
    ensures BookLookup(name).None? <==> forall i :: 0 <= i < |BookInfo| ==> BookInfo[i].0 != name
  {
    FindBookSpec(BookInfo, name, |BookInfo|);
  }

  /** Every registry entry is found at its own position, with its own testament. */
  lemma LookupRegistered(i: nat)
    requires i < |BookInfo|
    ensures BookLookup(BookInfo[i].0) == Some((i + 1, BookInfo[i].1))
  {
    RegistryNamesDistinct();
    BookLookupSpec(BookInfo[i].0);
  }

  /** Two registry names never share a number: equal numbers mean equal names. */
  lemma LookupNumbersDistinct(a: string, b: string)
    requires BookLookup(a).Some? && BookLookup(b).Some?
    requires BookLookup(a).value.0 == BookLookup(b).value.0
    ensures a == b
  {
    FindBookSameIndex(BookInfo, a, b, |BookInfo|);
  }

  /** The key the alias table is consulted with: `name.strip().lower()`. */
  function LookupKey(name: string): string {
    Text.Lower(Text.Strip(name))
  }

  /** `BOOK_NAME_ALIASES.get(LookupKey(name), name)`: the alias target, or the
      name itself, unchanged (not stripped, not lower-cased), when the key is
      not an alias. */
  function CanonicalName(name: string): string {
    var key := LookupKey(name);
    if key in BookNameAliases then BookNameAliases[key] else name
  }

  /** Every alias leads to a registry name. */
  lemma AliasTargetsRegistered()
    ensures forall k :: k in BookNameAliases ==> BookLookup(BookNameAliases[k]).Some?
  {
    LookupRegistered(18);
    LookupRegistered(21);
  }

  /** A name whose key is an alias becomes a registry name; any other name is
      kept exactly as given. */
  lemma CanonicalNameSpec(name: string)
    ensures LookupKey(name) in BookNameAliases ==> BookLookup(CanonicalName(name)).Some?
    ensures LookupKey(name) !in BookNameAliases ==> CanonicalName(name) == name
  {
    AliasTargetsRegistered();
  }

  /** Whitespace around a name does not change its alias key. */
  lemma LookupKeyIgnoresSpace(p: string, name: string, q: string)
    requires Text.AllSpace(p) && Text.AllSpace(q)
    ensures LookupKey(p + name + q) == LookupKey(name)
  {
    Text.StripPadding(p, name, q);
  }

  /** Names that differ only in the case of their letters have the same alias key. */
  lemma LookupKeyIgnoresCase(a: string, b: string)
    requires Text.Lower(a) == Text.Lower(b)
    ensures LookupKey(a) == LookupKey(b)
  {
    Text.StripLower(a, b);
  }

  /** Alias matching ignores case and surrounding whitespace: `b`, re-cased to
      `a` and padded with whitespace, is an alias exactly when `b` is, and then
      has the same alias target. */
  lemma AliasIgnoresCaseAndSpace(p: string, a: string, q: string, b: string)
    requires Text.AllSpace(p) && Text.AllSpace(q) && Text.Lower(a) == Text.Lower(b)
    ensures LookupKey(p + a + q) in BookNameAliases <==> LookupKey(b) in BookNameAliases
    ensures LookupKey(b) in BookNameAliases ==> CanonicalName(p + a + q) == CanonicalName(b)
  {
    LookupKeyIgnoresSpace(p, a, q);
    LookupKeyIgnoresCase(a, b);
  }
}
