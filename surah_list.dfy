/** The chapter list of the home page: the search filter over the loaded
    chapters, the sort by one of four keys in either direction, the sort-menu
    state machine and its label. */
module SurahList {
  import opened Seqs
  import opened Strings
  import opened Decimal

  /** One chapter as the remote API describes it. */
  datatype Surah = Surah(
    nomor: nat,          // chapter number
    nama: string,        // name in Arabic script
    namaLatin: string,   // transliterated name
    jumlahAyat: nat,     // number of verses
    tempatTurun: string, // place of revelation
    arti: string,        // meaning of the name
    audio: string)       // recitation URL

  datatype SortKey = Nomor | NamaLatin | TempatTurun | JumlahAyat

  datatype Direction = Asc | Desc

  /** The search test: the query, lower-cased, occurs in the lower-cased Latin
      name or meaning, or the query as typed occurs in the decimal chapter number.
      The empty query matches every chapter. */
  predicate Matches(x: Surah, query: string)
    ensures query == [] ==> Matches(x, query)
  {
    Contains(Lower(x.namaLatin), Lower(query)) ||
    Contains(Lower(x.arti), Lower(query)) ||
    Contains(Digits(x.nomor), query)
  }

  /** The chapters that survive the search: all of them, in order, for a blank
      query; otherwise the matching ones, in order. The search only ever drops
      chapters, and for a non-blank query every survivor matches it. */
  function Select(surahs: seq<Surah>, query: string): (r: seq<Surah>)
    ensures multiset(r) <= multiset(surahs)
    ensures Trim(query) != [] ==> forall i :: 0 <= i < |r| ==> Matches(r[i], query)
  {
    if Trim(query) == [] then surahs
    else
      var r := Keep(surahs, x => Matches(x, query));
      assert multiset(r) <= multiset(surahs) by {
        forall x ensures multiset(r)[x] <= multiset(surahs)[x] {
          KeepCount(surahs, x => Matches(x, query), x);
        }
      }
      r
  }

  /** Lower-casing the query does not change which chapters match: the name
      and meaning are compared lower-cased, and a query with an upper-case
      letter in it occurs in no chapter number either way. */
  lemma MatchIgnoresCase(x: Surah, query: string)
    ensures Matches(x, Lower(query)) == Matches(x, query)
  {
    LowerIdempotent(query);
    var d, low := Digits(x.nomor), Lower(query);
    if low != query {
      assert exists i :: 0 <= i < |query| && low[i] != query[i];
      var i :| 0 <= i < |query| && low[i] != query[i];
      assert !IsDigit(query[i]) && !IsDigit(low[i]);
      assert !Contains(d, query) by {
        if Contains(d, query) {
          ContainsHasChar(d, query, i);
        }
      }
      assert !Contains(d, low) by {
        if Contains(d, low) {
          ContainsHasChar(d, low, i);
        }
      }
    }
  }

  /** The two chapters agree on the sort key: the comparator ties them. */
  predicate SameKey(a: Surah, b: Surah, key: SortKey) {
    match key
    case Nomor => a.nomor == b.nomor
    case JumlahAyat => a.jumlahAyat == b.jumlahAyat
    case NamaLatin => a.namaLatin == b.namaLatin
    case TempatTurun => a.tempatTurun == b.tempatTurun
  }

  /** The comparator passed to `sort`, before the direction is applied:
      differences of the numeric keys, `localeCompare` of the text keys. It
      ties exactly the chapters that agree on the key, and orders the numeric
      keys by value. */
  function Compare(a: Surah, b: Surah, key: SortKey): (r: int)
    ensures r == 0 <==> SameKey(a, b, key)
    ensures key == Nomor ==> (r <= 0 <==> a.nomor <= b.nomor)
    ensures key == JumlahAyat ==> (r <= 0 <==> a.jumlahAyat <= b.jumlahAyat)
  {
    LexCompareAntisymmetric(a.namaLatin, b.namaLatin);
    LexCompareAntisymmetric(a.tempatTurun, b.tempatTurun);
    match key
    case Nomor => a.nomor - b.nomor
    case JumlahAyat => a.jumlahAyat - b.jumlahAyat
    case NamaLatin => LexCompare(a.namaLatin, b.namaLatin)
    case TempatTurun => LexCompare(a.tempatTurun, b.tempatTurun)
  }

  /** The comparator with the direction applied: negated for descending order,
      so that it still ties exactly the chapters that agree on the key. */
  function Oriented(a: Surah, b: Surah, key: SortKey, dir: Direction): (r: int)
    ensures r == 0 <==> SameKey(a, b, key)
    ensures r == 0 || (r < 0 <==> (if dir == Asc then Compare(a, b, key) < 0 else Compare(a, b, key) > 0))
  {
    if dir == Asc then Compare(a, b, key) else -Compare(a, b, key)
  }

  /** Swapping the two chapters negates the comparator, so it is a consistent
      comparator as `Array.prototype.sort` requires. */
  lemma OrientedAntisymmetric(a: Surah, b: Surah, key: SortKey, dir: Direction)
    ensures Oriented(b, a, key, dir) == -Oriented(a, b, key, dir)
  {
    match key
    case NamaLatin => LexCompareAntisymmetric(a.namaLatin, b.namaLatin);
    case TempatTurun => LexCompareAntisymmetric(a.tempatTurun, b.tempatTurun);
    case _ =>
  }

  /** No neighbouring pair is out of order under the comparator. */
  predicate Sorted(s: seq<Surah>, key: SortKey, dir: Direction) {
    forall k :: 0 < k < |s| ==> Oriented(s[k - 1], s[k], key, dir) <= 0
  }

  /** The first `n` elements of `s` are in order under the comparator `cmp`. */
  predicate SortedPrefix(s: seq<Surah>, n: int, cmp: (Surah, Surah) -> int) {
    forall k :: 0 < k < n && k < |s| ==> cmp(s[k - 1], s[k]) <= 0
  }

  /** The chapters of `s` that the comparator ties with `v`, in their order in `s`. */
  function Ties(s: seq<Surah>, v: Surah, key: SortKey): seq<Surah> {
    Keep(s, x => SameKey(x, v, key))
  }

  /** `filtered.sort(comparator)` on a copy of `s`: an insertion sort in place
      on a fresh array. The result is a sorted permutation of `s` and, like the
      built-in sort, stable: chapters the comparator ties stay in their
      original relative order. */
  method SortCopy(s: seq<Surah>, key: SortKey, dir: Direction) returns (r: seq<Surah>)
    ensures multiset(r) == multiset(s)
    ensures Sorted(r, key, dir)
    ensures forall v :: Ties(r, v, key) == Ties(s, v, key)
  {
    var cmp := (x, y) => Oriented(x, y, key, dir);
    forall x, y ensures cmp(y, x) == -cmp(x, y) {
      OrientedAntisymmetric(x, y, key, dir);
    }
    var a := new Surah[|s|](i requires 0 <= i < |s| => s[i]);
    assert a[..] == s;
    var i := 0;
    while i < a.Length
      invariant 0 <= i <= a.Length
      invariant multiset(a[..]) == multiset(s)
      invariant SortedPrefix(a[..], i, cmp)
      invariant forall v :: Ties(a[..], v, key) == Ties(s, v, key)
    {
      Insert(a, i, cmp, key);
      i := i + 1;
    }
    r := a[..];
  }

  /** One insertion step: moves `a[i]` down past every neighbour that the
      comparator puts after it, so that the sorted prefix grows by one. */
  method Insert(a: array<Surah>, i: nat, cmp: (Surah, Surah) -> int, key: SortKey)
    requires forall x, y :: cmp(y, x) == -cmp(x, y)
    requires forall x, y :: cmp(x, y) != 0 ==> !SameKey(x, y, key)
    requires i < a.Length && SortedPrefix(a[..], i, cmp)
    modifies a
    ensures SortedPrefix(a[..], i + 1, cmp)
    ensures multiset(a[..]) == multiset(old(a[..]))
    ensures forall v :: Ties(a[..], v, key) == Ties(old(a[..]), v, key)
  {
    ghost var original := a[..];
    var j := i;
    while j > 0 && cmp(a[j - 1], a[j]) > 0
      invariant 0 <= j <= i
      invariant multiset(a[..]) == multiset(original)
      invariant Inserting(a[..], j, i, cmp)
      invariant forall v :: Ties(a[..], v, key) == Ties(original, v, key)
    {
      ghost var before := a[..];
      SwapDown(a, j);
      InsertingStep(before, j, i, cmp);
      SwapKeepsTies(before, j, key);
      j := j - 1;
    }
    InsertingDone(a[..], j, i, cmp);
  }

  /** The state of an insertion step with the moving element at `j`: sorted
      below it, sorted from just above it to `i`, the element is in order with
      its upper neighbour, and its two neighbours are in order with each other. */
  ghost predicate Inserting(s: seq<Surah>, j: int, i: int, cmp: (Surah, Surah) -> int) {
    0 <= j <= i < |s| &&
    (forall k :: 0 < k < j ==> cmp(s[k - 1], s[k]) <= 0) &&
    (forall k :: j + 1 < k <= i ==> cmp(s[k - 1], s[k]) <= 0) &&
    (j < i ==> cmp(s[j], s[j + 1]) <= 0) &&
    (0 < j < i ==> cmp(s[j - 1], s[j + 1]) <= 0)
  }

  /** Moving the element one place down keeps the insertion state. */
  lemma InsertingStep(s: seq<Surah>, j: int, i: int, cmp: (Surah, Surah) -> int)
    requires Inserting(s, j, i, cmp) && 0 < j && cmp(s[j - 1], s[j]) > 0
    requires cmp(s[j], s[j - 1]) == -cmp(s[j - 1], s[j])
    ensures Inserting(s[j - 1 := s[j]][j := s[j - 1]], j - 1, i, cmp)
  {
  }

  /** Once the element is in order with its lower neighbour, the prefix up to `i` is sorted. */
  lemma InsertingDone(s: seq<Surah>, j: int, i: int, cmp: (Surah, Surah) -> int)
    requires Inserting(s, j, i, cmp) && (j == 0 || cmp(s[j - 1], s[j]) <= 0)
    ensures SortedPrefix(s, i + 1, cmp)
  {
  }

  /** Exchanging two neighbours that the comparator does not tie leaves every
      group of tied chapters in the same order. */
  lemma SwapKeepsTies(s: seq<Surah>, j: int, key: SortKey)
    requires 0 < j < |s| && !SameKey(s[j - 1], s[j], key)
    ensures forall v :: Ties(s[j - 1 := s[j]][j := s[j - 1]], v, key) == Ties(s, v, key)
  {
    forall v ensures Ties(s[j - 1 := s[j]][j := s[j - 1]], v, key) == Ties(s, v, key) {
      KeepSwapNeighbours(s, j, x => SameKey(x, v, key));
    }
  }

  /** Exchanges `a[j - 1]` and `a[j]`. */
  method SwapDown(a: array<Surah>, j: nat)
    requires 0 < j < a.Length
    modifies a
    ensures a[..] == old(a[..])[j - 1 := old(a[j])][j := old(a[j - 1])]
    ensures multiset(a[..]) == multiset(old(a[..]))
  {
    a[j - 1], a[j] := a[j], a[j - 1];
  }

  /** The body of the list effect once chapters are loaded: the surviving
      chapters, sorted. */
  method FilterAndSort(surahs: seq<Surah>, query: string, key: SortKey, dir: Direction)
    returns (r: seq<Surah>)
    ensures multiset(r) == multiset(Select(surahs, query))
    ensures Sorted(r, key, dir)
    ensures forall v :: Ties(r, v, key) == Ties(Select(surahs, query), v, key)
  {
    var filtered := surahs;
    if Trim(query) != [] {
      filtered := Keep(filtered, x => Matches(x, query));
    }
    r := SortCopy(filtered, key, dir);
  }

  /** A blank query (empty or white space only) drops nothing. */
  lemma BlankQueryKeepsAll(surahs: seq<Surah>, query: string)
    requires AllSpace(query)
    ensures Select(surahs, query) == surahs
  {
    TrimEmptyIff(query);
  }

  /** A non-blank query keeps each matching chapter as often as it occurs, and
      no other chapter; the survivors keep their relative order. */
  lemma SearchKeepsMatches(surahs: seq<Surah>, query: string, x: Surah)
    requires !AllSpace(query)
    ensures multiset(Select(surahs, query))[x] == if Matches(x, query) then multiset(surahs)[x] else 0
    ensures x in Select(surahs, query) <==> x in surahs && Matches(x, query)
    ensures IsSubsequence(Select(surahs, query), surahs)
  {
    TrimEmptyIff(query);
    KeepCount(surahs, x => Matches(x, query), x);
    KeepMember(surahs, x => Matches(x, query), x);
    KeepIsSubsequence(surahs, x => Matches(x, query));
  }

  lemma {:induction false} LowerOnlyMakesLetters(s: string, c: char)
    requires !('a' <= c <= 'z')
    ensures c in Lower(s) ==> c in s
  {
    if c in Lower(s) {
      var i :| 0 <= i < |s| && Lower(s)[i] == c;
      assert s[i] == c;
    }
  }

  lemma ContainsHasChar(s: string, t: string, i: nat)
    requires Contains(s, t) && i < |t|
    ensures t[i] in s
  {
    var k :| OccursAt(s, t, k);
    assert s[k + i] == s[k..k + |t|][i];
  }

  /** Only the blankness test trims the query: a white-space character in a
      query that some chapter matches must occur in that chapter's Latin name
      or meaning (a chapter number has no white space). */
  lemma UntrimmedQueryMatching(x: Surah, query: string, i: nat)
    requires Matches(x, query) && i < |query| && IsSpace(query[i])
    ensures query[i] in x.namaLatin || query[i] in x.arti
  {
    var c := query[i];
    assert Lower(query)[i] == c;
    if Contains(Lower(x.namaLatin), Lower(query)) {
      ContainsHasChar(Lower(x.namaLatin), Lower(query), i);
      LowerOnlyMakesLetters(x.namaLatin, c);
    } else if Contains(Lower(x.arti), Lower(query)) {
      ContainsHasChar(Lower(x.arti), Lower(query), i);
      LowerOnlyMakesLetters(x.arti, c);
    } else {
      ContainsHasChar(Digits(x.nomor), query, i);
      assert false;
    }
  }

  /** The value of a numeric sort key. */
  function NumericKey(x: Surah, key: SortKey): nat
    requires key == Nomor || key == JumlahAyat
  {
    if key == Nomor then x.nomor else x.jumlahAyat
  }

  /** For the numeric keys a sorted list is ordered throughout, not only
      between neighbours: non-decreasing ascending, non-increasing descending. */
  lemma {:induction false} SortedByNumericKey(s: seq<Surah>, key: SortKey, dir: Direction)
    requires key == Nomor || key == JumlahAyat
    requires Sorted(s, key, dir)
    ensures forall i, j :: 0 <= i < j < |s| ==>
      if dir == Asc then NumericKey(s[i], key) <= NumericKey(s[j], key)
      else NumericKey(s[i], key) >= NumericKey(s[j], key)
  {
    if |s| > 1 {
      SortedByNumericKey(s[..|s| - 1], key, dir);
      var n := |s| - 1;
      assert Oriented(s[n - 1], s[n], key, dir) <= 0;
      forall i, j | 0 <= i < j < |s|
        ensures if dir == Asc then NumericKey(s[i], key) <= NumericKey(s[j], key)
                else NumericKey(s[i], key) >= NumericKey(s[j], key)
      {
        if j < n {
          assert s[i] == s[..n][i] && s[j] == s[..n][j];
        } else if i < n - 1 {
          assert s[i] == s[..n][i] && s[n - 1] == s[..n][n - 1];
        }
      }
    }
  }

  /** The sort menu's state: which key and which direction. */
  datatype SortState = SortState(sortBy: SortKey, direction: Direction)

  const InitialSort := SortState(Nomor, Asc)

  function Flip(d: Direction): Direction {
    if d == Asc then Desc else Asc
  }

  /** `handleSort(option)`: choosing the current key flips the direction;
      choosing another key selects it in ascending order. */
  function NextSort(st: SortState, option: SortKey): (r: SortState)
    ensures r.sortBy == option
  {
    if st.sortBy == option then SortState(st.sortBy, Flip(st.direction))
    else SortState(option, Asc)
  }

  /** Re-choosing the current key keeps it and reverses the direction; doing so
      twice restores the state. */
  lemma SameKeyToggles(st: SortState)
    ensures NextSort(st, st.sortBy) == SortState(st.sortBy, Flip(st.direction))
    ensures NextSort(st, st.sortBy).direction != st.direction
    ensures NextSort(NextSort(st, st.sortBy), st.sortBy) == st
  {
  }

  /** Choosing a different key always starts ascending, whatever the direction was. */
  lemma NewKeyStartsAscending(st: SortState, option: SortKey)
    requires option != st.sortBy
    ensures NextSort(st, option) == SortState(option, Asc)
  {
  }

  /** `getSortLabel`: the menu caption of each key, never empty. */
  function SortLabel(key: SortKey): (r: string)
    ensures r != []
  {
    match key
    case Nomor => "Nomor Surah"
    case NamaLatin => "Nama Surah"
    case TempatTurun => "Tempat Turun"
    case JumlahAyat => "Jumlah Ayat"
  }

  /** Each key has its own caption. */
  lemma SortLabelsDistinct(a: SortKey, b: SortKey)
    requires a != b
    ensures SortLabel(a) != SortLabel(b)
  {
  }

  /** The state of the list component. */
  class SurahListView {
    var surahs: seq<Surah>
    var filteredSurahs: seq<Surah>
    var searchQuery: string
    var sortBy: SortKey
    var sortDirection: Direction

    /** Nothing loaded, empty query, sorted by chapter number ascending. */
    constructor ()
      ensures surahs == [] && filteredSurahs == [] && searchQuery == []
      ensures SortState(sortBy, sortDirection) == InitialSort
    {
      surahs, filteredSurahs, searchQuery := [], [], [];
      sortBy, sortDirection := Nomor, Asc;
    }

    /** A successful fetch shows the chapters as received. */
    method Loaded(data: seq<Surah>)
      modifies this`surahs, this`filteredSurahs
      ensures surahs == data && filteredSurahs == data
    {
      surahs := data;
      filteredSurahs := data;
    }

    /** Typing in the search box. */
    method SetSearchQuery(query: string)
      modifies this`searchQuery
      ensures searchQuery == query
    {
      searchQuery := query;
    }

    /** `handleSort`: the sort menu's two state fields move as `NextSort` says. */
    method HandleSort(option: SortKey)
      modifies this`sortBy, this`sortDirection
      ensures SortState(sortBy, sortDirection) == NextSort(old(SortState(sortBy, sortDirection)), option)
    {
      if sortBy == option {
        sortDirection := if sortDirection == Asc then Desc else Asc;
      } else {
        sortBy := option;
        sortDirection := Asc;
      }
    }

    /** The list effect: with nothing loaded the shown list is left as it is;
        otherwise it becomes the surviving chapters sorted by the current key
        and direction. The loaded chapters themselves are never reordered. */
    method Refresh()
      modifies this`filteredSurahs
      ensures surahs == old(surahs)
      ensures surahs == [] ==> filteredSurahs == old(filteredSurahs)
      ensures old(surahs) != [] ==> multiset(filteredSurahs) == multiset(Select(old(surahs), old(searchQuery)))
      ensures old(surahs) != [] ==> Sorted(filteredSurahs, old(sortBy), old(sortDirection))
      ensures old(surahs) != [] ==> forall v :: Ties(filteredSurahs, v, old(sortBy)) == Ties(Select(old(surahs), old(searchQuery)), v, old(sortBy))
    {
      if surahs != [] {
        filteredSurahs := FilterAndSort(surahs, searchQuery, sortBy, sortDirection);
      }
    }
  }
}
