/** The prayer-times dialog: its fixed city list and the name search over it,
    the built-in schedule per city with its Jakarta fallback, the Indonesian
    prayer names, and the name shown for the selected city. */
module PrayerTimes {
  import opened Wrappers
  import opened Seqs
  import opened Strings

  datatype City = City(id: string, name: string)

  /** One day's schedule, each time as "HH:MM" text. */
  datatype Schedule = Schedule(fajr: string, sunrise: string, dhuhr: string,
                               asr: string, maghrib: string, isha: string)

  /** `popularCities`, in display order. */
  const PopularCities: seq<City> := [
    City("jakarta", "Jakarta"),
    City("surabaya", "Surabaya"),
    City("bandung", "Bandung"),
    City("medan", "Medan"),
    City("semarang", "Semarang"),
    City("makassar", "Makassar"),
    City("yogyakarta", "Yogyakarta"),
    City("palembang", "Palembang")
  ]

  /** The city the dialog opens with. */
  const InitialCity: string := "jakarta"

  /** `mockTimes`: the built-in schedule, keyed by city id. */
  const MockTimes: map<string, Schedule> := map[
    "jakarta" := Schedule("04:38", "05:52", "12:04", "15:24", "18:09", "19:19"),
    "surabaya" := Schedule("04:21", "05:35", "11:47", "15:07", "17:52", "19:02"),
    "bandung" := Schedule("04:42", "05:56", "12:08", "15:28", "18:13", "19:23"),
    "medan" := Schedule("05:12", "06:26", "12:38", "15:58", "18:43", "19:53"),
    "semarang" := Schedule("04:30", "05:44", "11:56", "15:16", "18:01", "19:11"),
    "makassar" := Schedule("04:53", "06:07", "12:19", "15:39", "18:24", "19:34"),
    "yogyakarta" := Schedule("04:35", "05:49", "12:01", "15:21", "18:06", "19:16"),
    "palembang" := Schedule("04:47", "06:01", "12:13", "15:33", "18:18", "19:28")
  ]

  /** The city-name search: the lower-cased query occurs in the lower-cased
      name. The empty query matches every city, and a query longer than the
      name matches none. */
  predicate NameMatches(c: City, query: string)
    ensures query == [] ==> NameMatches(c, query)
    ensures NameMatches(c, query) ==> |query| <= |c.name|
  {
    assert query == [] ==> OccursAt(Lower(c.name), Lower(query), 0);
    Contains(Lower(c.name), Lower(query))
  }

  /** The search ignores the case of the query. */
  lemma CityMatchIgnoresCase(c: City, query: string)
    ensures NameMatches(c, Lower(query)) == NameMatches(c, query)
  {
    LowerIdempotent(query);
  }

  /** The city list shown for a search query: every city for a blank query,
      otherwise the cities whose name contains the query, in list order. The
      search only ever drops cities, and for a non-blank query every city left
      matches it. */
  function FilterCities(query: string): (r: seq<City>)
    ensures multiset(r) <= multiset(PopularCities)
    ensures Trim(query) != [] ==> forall i :: 0 <= i < |r| ==> NameMatches(r[i], query)
  {
    if Trim(query) == [] then PopularCities
    else
      var r := Keep(PopularCities, c => NameMatches(c, query));
      assert multiset(r) <= multiset(PopularCities) by {
        forall c ensures multiset(r)[c] <= multiset(PopularCities)[c] {
          KeepCount(PopularCities, c => NameMatches(c, query), c);
        }
      }
      r
  }

  /** Typing a listed city's name, in any case, keeps that city in the list. */
  lemma SearchByNameFindsCity(i: nat, query: string)
    requires i < |PopularCities|
    requires Lower(query) == Lower(PopularCities[i].name)
    ensures PopularCities[i] in FilterCities(query)
  {
    var c := PopularCities[i];
    PopularNameNonEmpty(i);
    OwnNameMatches(c, query);
    KeepMember(PopularCities, c => NameMatches(c, query), c);
  }

  /** A query equal to a capitalised name up to case is not blank and matches it. */
  lemma OwnNameMatches(c: City, query: string)
    requires c.name != [] && 'A' <= c.name[0] <= 'Z'
    requires Lower(query) == Lower(c.name)
    ensures Trim(query) != [] && NameMatches(c, query)
  {
    assert 'a' <= LowerChar(query[0]) <= 'z' by {
      assert LowerChar(query[0]) == Lower(query)[0] == Lower(c.name)[0] == LowerChar(c.name[0]);
    }
    assert !AllSpace(query) by {
      assert !IsSpace(query[0]);
    }
    TrimEmptyIff(query);
    assert OccursAt(Lower(c.name), Lower(query), 0);
  }

  /** A blank query (empty or white space only) shows every city, in order. */
  lemma BlankQueryShowsAll(query: string)
    requires AllSpace(query)
    ensures FilterCities(query) == PopularCities
  {
    TrimEmptyIff(query);
  }

  /** A non-blank query keeps exactly the cities whose name matches, in list
      order; the city id plays no part. */
  lemma SearchKeepsMatchingCities(query: string)
    requires !AllSpace(query)
    ensures forall c :: c in FilterCities(query) <==> c in PopularCities && NameMatches(c, query)
    ensures IsSubsequence(FilterCities(query), PopularCities)
  {
    TrimEmptyIff(query);
    forall c ensures c in FilterCities(query) <==> c in PopularCities && NameMatches(c, query) {
      KeepMember(PopularCities, c => NameMatches(c, query), c);
    }
    KeepIsSubsequence(PopularCities, c => NameMatches(c, query));
  }

  /** The built-in schedules are exactly those of the listed cities. */
  lemma EveryCityHasSchedule()
    ensures forall c :: c in PopularCities ==> c.id in MockTimes
    ensures forall id :: id in MockTimes ==> exists c :: c in PopularCities && c.id == id
  {
    forall id | id in MockTimes
      ensures exists c :: c in PopularCities && c.id == id
    {
      var i := if id == "jakarta" then 0 else if id == "surabaya" then 1
        else if id == "bandung" then 2 else if id == "medan" then 3
        else if id == "semarang" then 4 else if id == "makassar" then 5
        else if id == "yogyakarta" then 6 else 7;
      assert PopularCities[i].id == id;
    }
  }

  /** `mockTimes[selectedCity] || mockTimes.jakarta`. */
  function ScheduleFor(cityId: string): (r: Schedule)
    ensures cityId in MockTimes ==> r == MockTimes[cityId]
    ensures cityId !in MockTimes ==> r == MockTimes["jakarta"]
  {
    if cityId in MockTimes then MockTimes[cityId] else MockTimes["jakarta"]
  }

  /** The Indonesian names of the six schedule keys. */
  const PrayerNames: map<string, string> := map[
    "fajr" := "Subuh",
    "sunrise" := "Terbit",
    "dhuhr" := "Dzuhur",
    "asr" := "Ashar",
    "maghrib" := "Maghrib",
    "isha" := "Isya"
  ]

  /** `formatPrayerName`: the Indonesian name of a known key, any other text unchanged. */
  function FormatPrayerName(name: string): (r: string)
    ensures name in PrayerNames ==> r == PrayerNames[name]
    ensures name !in PrayerNames ==> r == name
  {
    if name in PrayerNames && PrayerNames[name] != "" then PrayerNames[name] else name
  }

  /** Distinct keys are shown under distinct names. */
  lemma PrayerNamesDistinct(a: string, b: string)
    requires a in PrayerNames && b in PrayerNames && a != b
    ensures FormatPrayerName(a) != FormatPrayerName(b)
  {
  }

  /** `popularCities.find(c => c.id === id)`. */
  function FindCity(cities: seq<City>, id: string): (r: Option<City>)
    ensures r.Some? ==> r.value in cities && r.value.id == id
    ensures r.None? <==> forall c :: c in cities ==> c.id != id
    ensures r.Some? ==> exists i :: 0 <= i < |cities| && cities[i] == r.value
                          && forall j :: 0 <= j < i ==> cities[j].id != id
  {
    if cities == [] then None
    else if cities[0].id == id then Some(cities[0])
    else
      var r := FindCity(cities[1..], id);
      assert r.Some? ==> exists i :: 0 <= i < |cities| && cities[i] == r.value
                          && forall j :: 0 <= j < i ==> cities[j].id != id by {
        if r.Some? {
          var i :| 0 <= i < |cities[1..]| && cities[1..][i] == r.value
                   && forall j :: 0 <= j < i ==> cities[1..][j].id != id;
          assert cities[i + 1] == r.value;
          assert forall j :: 0 <= j < i + 1 ==> cities[j].id != id by {
            forall j | 0 <= j < i + 1 ensures cities[j].id != id {
              if j > 0 { assert cities[j] == cities[1..][j - 1]; }
            }
          }
        }
      }
      r
  }

  /** The heading of the schedule tab: the name of the first listed city with
      the selected id, or "Jakarta" when there is none (or its name is empty). */
  function DisplayedCityName(selected: string): (r: string)
    ensures r != ""
    ensures r == "Jakarta" || exists c :: c in PopularCities && c.id == selected && r == c.name
    ensures (forall c :: c in PopularCities ==> c.id != selected) ==> r == "Jakarta"
  {
    var found := FindCity(PopularCities, selected);
    if found.Some? && found.value.name != "" then found.value.name else "Jakarta"
  }

  /** `find` returns the element at `i` when no earlier element has its id. */
  lemma {:induction false} FindCityAt(cities: seq<City>, i: nat)
    requires i < |cities|
    requires forall j :: 0 <= j < i ==> cities[j].id != cities[i].id
    ensures FindCity(cities, cities[i].id) == Some(cities[i])
  {
    if i > 0 {
      FindCityAt(cities[1..], i - 1);
    }
  }

  /** The ids of the listed cities already differ in their first two letters. */
  lemma PopularIdsDistinct(i: nat, j: nat)
    requires j < i < |PopularCities|
    ensures PopularCities[j].id != PopularCities[i].id
  {
    var a, b := PopularCities[j].id, PopularCities[i].id;
    assert a[0] != b[0] || a[1] != b[1] by {
      if j == 0 {} else if j == 1 {} else if j == 2 {} else if j == 3 {}
      else if j == 4 {} else if j == 5 {} else {}
    }
  }

  /** Every listed city has a name that starts with a capital letter. */
  lemma PopularNameNonEmpty(i: nat)
    requires i < |PopularCities|
    ensures PopularCities[i].name != "" && 'A' <= PopularCities[i].name[0] <= 'Z'
  {
    assert |PopularCities[i].name| > 0 && 'A' <= PopularCities[i].name[0] <= 'Z' by {
      if i == 0 {} else if i == 1 {} else if i == 2 {} else if i == 3 {}
      else if i == 4 {} else if i == 5 {} else if i == 6 {} else {}
    }
  }

  /** For a listed city the heading is that city's own name. */
  lemma DisplayedNameOfListedCity(i: nat)
    requires i < |PopularCities|
    ensures DisplayedCityName(PopularCities[i].id) == PopularCities[i].name
  {
    forall j | 0 <= j < i ensures PopularCities[j].id != PopularCities[i].id {
      PopularIdsDistinct(i, j);
    }
    FindCityAt(PopularCities, i);
    PopularNameNonEmpty(i);
  }

  /** The dialog opens on Jakarta, with Jakarta's schedule. */
  lemma InitialSelection()
    ensures DisplayedCityName(InitialCity) == "Jakarta"
    ensures ScheduleFor(InitialCity) == MockTimes["jakarta"]
  {
  }
}
