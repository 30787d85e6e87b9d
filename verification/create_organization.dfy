/**
 * The organization form (components/common/CreateOrganizationModal.tsx): the sorted
 * country list and its name-to-code map, the country -> city cascade with its memo of
 * one, the timezone options, the initial form values, and the submit payload that
 * drops empty fields.
 */
module CreateOrganization {
  import opened Wrappers
  import opened Strings
  import opened Collation
  import CustomSelect

  // ---------------------------------------------------------------------------
  // Countries

  /** A country of the reference list: display name and ISO code. */
  datatype Country = Country(name: string, code: string)

  /** Ascending by name; equal names may appear in any order. */
  predicate SortedByName(s: seq<Country>) {
    forall i, j :: 0 <= i < j < |s| ==> !LexLess(s[j].name, s[i].name)
  }

  /** A name that sorts before the head of a sorted list sorts before every entry of it. */
  lemma BelowHeadIsBelowAll(c: Country, s: seq<Country>)
    requires SortedByName(s) && s != [] && LexLess(c.name, s[0].name)
    ensures forall j :: 0 <= j < |s| ==> LexLess(c.name, s[j].name)
  {
    forall j | 0 < j < |s| ensures LexLess(c.name, s[j].name) {
      LexLessTotal(s[0].name, s[j].name);
      if LexLess(s[0].name, s[j].name) {
        LexLessTransitive(c.name, s[0].name, s[j].name);
      }
    }
  }

  /** Inserts `c` after every entry whose name does not sort after its own. */
  function InsertByName(c: Country, s: seq<Country>): (r: seq<Country>)
    requires SortedByName(s)
    ensures SortedByName(r)
    ensures multiset(r) == multiset(s) + multiset{c}
  {
    if s == [] then [c]
    else if LexLess(c.name, s[0].name) then
      BelowHeadIsBelowAll(c, s);
      assert forall j :: 0 <= j < |s| ==> !LexLess(s[j].name, c.name) by {
        forall j | 0 <= j < |s| ensures !LexLess(s[j].name, c.name) {
          LexLessAsymmetric(c.name, s[j].name);
        }
      }
      [c] + s
    else
      assert SortedByName(s[1..]);
      var t := InsertByName(c, s[1..]);
      assert s == [s[0]] + s[1..];
      assert forall j :: 0 <= j < |t| ==> !LexLess(t[j].name, s[0].name) by {
        forall j | 0 <= j < |t| ensures !LexLess(t[j].name, s[0].name) {
          assert t[j] in multiset(t);
          if t[j] != c {
            assert t[j] in multiset(s[1..]);
            var k :| 0 <= k < |s[1..]| && s[1..][k] == t[j];
            assert s[k + 1] == t[j];
          }
        }
      }
      [s[0]] + t
  }

  /** `countries`: the reference list sorted by name. */
  function SortCountries(all: seq<Country>): (r: seq<Country>)
    ensures SortedByName(r)
    ensures multiset(r) == multiset(all)
  {
    if all == [] then []
    else
      assert all == all[..|all| - 1] + [all[|all| - 1]];
      InsertByName(all[|all| - 1], SortCountries(all[..|all| - 1]))
  }

  /** The entries of `s` named `name`, in their order in `s`. */
  function Named(s: seq<Country>, name: string): seq<Country> {
    if s == [] then []
    else (if s[0].name == name then [s[0]] else []) + Named(s[1..], name)
  }

  lemma {:induction false} NamedConcat(a: seq<Country>, b: seq<Country>, name: string)
    ensures Named(a + b, name) == Named(a, name) + Named(b, name)
  {
    if a == [] {
      assert a + b == b;
    } else {
      var head := if a[0].name == name then [a[0]] else [];
      assert (a + b)[0] == a[0] && (a + b)[1..] == a[1..] + b;
      assert Named(a + b, name) == head + Named(a[1..] + b, name);
      NamedConcat(a[1..], b, name);
      assert Named(a, name) == head + Named(a[1..], name);
    }
  }

  /** No entry of `s` is named `name`. */
  lemma {:induction false} NamedEmpty(s: seq<Country>, name: string)
    requires forall j :: 0 <= j < |s| ==> s[j].name != name
    ensures Named(s, name) == []
  {
    if s != [] {
      NamedEmpty(s[1..], name);
    }
  }

  /** Insertion goes after every entry of the same name, so those keep their order before it. */
  lemma {:induction false} InsertByNameStable(c: Country, s: seq<Country>, name: string)
    requires SortedByName(s)
    ensures Named(InsertByName(c, s), name) == Named(s, name) + (if c.name == name then [c] else [])
  {
    if s == [] {
      assert InsertByName(c, s) == [c];
      assert Named([c], name) == (if c.name == name then [c] else []) + Named([], name);
    } else if LexLess(c.name, s[0].name) {
      assert InsertByName(c, s) == [c] + s;
      NamedConcat([c], s, name);
      assert Named([c], name) == (if c.name == name then [c] else []) + Named([], name);
      if c.name == name {
        BelowHeadIsBelowAll(c, s);
        LexLessIrreflexive(c.name);
        NamedEmpty(s, name);
      }
    } else {
      assert SortedByName(s[1..]);
      var t := InsertByName(c, s[1..]);
      assert InsertByName(c, s) == [s[0]] + t;
      NamedConcat([s[0]], t, name);
      assert Named([s[0]], name) == (if s[0].name == name then [s[0]] else []) + Named([], name);
      InsertByNameStable(c, s[1..], name);
    }
  }

  /** The sort is stable: entries that share a name keep their relative order. */
  lemma {:induction false} SortCountriesStable(all: seq<Country>, name: string)
    ensures Named(SortCountries(all), name) == Named(all, name)
  {
    if all != [] {
      var init := all[..|all| - 1];
      var last := all[|all| - 1];
      assert all == init + [last];
      SortCountriesStable(init, name);
      InsertByNameStable(last, SortCountries(init), name);
      NamedConcat(init, [last], name);
    }
  }

  /** `countryMap`: name -> code, filled in list order, so a later entry overwrites an earlier one with the same name. */
  function CountryMap(countries: seq<Country>): map<string, string> {
    if countries == [] then map[]
    else
      var n := |countries| - 1;
      CountryMap(countries[..n])[countries[n].name := countries[n].code]
  }

  /** The map knows exactly the names of the list. */
  lemma {:induction false} CountryMapKeys(countries: seq<Country>, name: string)
    ensures name in CountryMap(countries) <==> exists i :: 0 <= i < |countries| && countries[i].name == name
  {
    if countries != [] {
      var n := |countries| - 1;
      CountryMapKeys(countries[..n], name);
      if exists i :: 0 <= i < n && countries[..n][i].name == name {
        var i :| 0 <= i < n && countries[..n][i].name == name;
        assert countries[i].name == name;
      }
      if exists i :: 0 <= i < |countries| && countries[i].name == name {
        var i :| 0 <= i < |countries| && countries[i].name == name;
        if i < n {
          assert countries[..n][i].name == name;
        }
      }
    }
  }

  /** A name maps to the code of its last entry in the list. */
  lemma {:induction false} CountryMapLastWins(countries: seq<Country>, i: int)
    requires 0 <= i < |countries|
    requires forall j :: i < j < |countries| ==> countries[j].name != countries[i].name
    ensures countries[i].name in CountryMap(countries)
    ensures CountryMap(countries)[countries[i].name] == countries[i].code
  {
    var n := |countries| - 1;
    if i < n {
      CountryMapLastWins(countries[..n], i);
    }
  }

  // ---------------------------------------------------------------------------
  // The city list loaded for a country

  function TrimAll(names: seq<string>): (r: seq<string>)
    ensures |r| == |names| && forall i :: 0 <= i < |names| ==> r[i] == Trim(names[i])
  {
    seq(|names|, i requires 0 <= i < |names| => Trim(names[i]))
  }

  /** No value appears twice. */
  predicate Distinct(s: seq<string>) {
    forall i, j :: 0 <= i < j < |s| ==> s[i] != s[j]
  }

  /**
   * The city list a load produces from the raw city names of a country: the trimmed names,
   * each once, in ascending order, with `currentCity` in front when it is given and missing.
   */
  function LoadedCities(raw: seq<string>, currentCity: string): (r: seq<string>)
    ensures Distinct(r)
    ensures forall y :: y in r <==> y in TrimAll(raw) || (y == currentCity && currentCity != "")
    ensures currentCity == "" || currentCity in TrimAll(raw) ==> StrictlySorted(r)
    ensures currentCity != "" && currentCity !in TrimAll(raw) ==>
              r[0] == currentCity && StrictlySorted(r[1..]) && currentCity !in r[1..]
  {
    var unique := UniqueSorted(TrimAll(raw));
    forall i, j | 0 <= i < j < |unique| ensures unique[i] != unique[j] {
      StrictlySortedDistinct(unique, i, j);
    }
    if currentCity != "" && currentCity !in unique then [currentCity] + unique else unique
  }

  /** The loaded list without the prepended current city is THE sorted list of the trimmed names:
      any other strictly ascending list of the same names is equal to it. */
  lemma LoadedCitiesDetermined(raw: seq<string>, currentCity: string, sorted: seq<string>)
    requires StrictlySorted(sorted)
    requires forall y :: y in sorted <==> y in TrimAll(raw)
    ensures currentCity == "" || currentCity in TrimAll(raw) ==> LoadedCities(raw, currentCity) == sorted
    ensures currentCity != "" && currentCity !in TrimAll(raw) ==> LoadedCities(raw, currentCity) == [currentCity] + sorted
  {
    var r := LoadedCities(raw, currentCity);
    if currentCity == "" || currentCity in TrimAll(raw) {
      StrictlySortedUnique(r, sorted);
    } else {
      forall y ensures y in r[1..] <==> y in sorted {
        if y in sorted {
          assert y != currentCity && y in r;
          var k :| 0 <= k < |r| && r[k] == y;
          assert k != 0;
          assert r[1..][k - 1] == y;
        }
        if y in r[1..] {
          assert y in r && y != currentCity;
        }
      }
      StrictlySortedUnique(r[1..], sorted);
      assert r == [r[0]] + r[1..];
    }
  }

  /** What the city select is reduced to: the loaded options and the country they belong to. */
  datatype CityState = CityState(options: seq<string>, country: string)

  /** The reference data a load reads: the name -> code map and the cities of each code. */
  predicate KnownCountry(countryMap: map<string, string>, countryName: string) {
    countryName in countryMap && countryMap[countryName] != ""
  }

  function CitiesOfCode(citiesOf: map<string, seq<string>>, code: string): seq<string> {
    if code in citiesOf then citiesOf[code] else []
  }

  /**
   * `loadCitiesForCountry` as a state transition: an empty name clears, an unknown name
   * records the name with no cities, a repeat request with cities already loaded changes
   * nothing, and otherwise the country's cities are loaded.
   */
  function NextCityState(countryMap: map<string, string>, citiesOf: map<string, seq<string>>,
                         s: CityState, countryName: string, currentCity: string): CityState
  {
    if countryName == "" then CityState([], "")
    else if !KnownCountry(countryMap, countryName) then CityState([], countryName)
    else if s.country == countryName && |s.options| > 0 then s
    else CityState(LoadedCities(CitiesOfCode(citiesOf, countryMap[countryName]), currentCity), countryName)
  }

  lemma EmptyCountryClears(countryMap: map<string, string>, citiesOf: map<string, seq<string>>,
                           s: CityState, currentCity: string)
    ensures NextCityState(countryMap, citiesOf, s, "", currentCity) == CityState([], "")
  {
  }

  lemma UnknownCountryRecorded(countryMap: map<string, string>, citiesOf: map<string, seq<string>>,
                               s: CityState, countryName: string, currentCity: string)
    requires countryName != "" && countryName !in countryMap
    ensures NextCityState(countryMap, citiesOf, s, countryName, currentCity) == CityState([], countryName)
  {
  }

  lemma RepeatLoadChangesNothing(countryMap: map<string, string>, citiesOf: map<string, seq<string>>,
                                 s: CityState, currentCity: string)
    requires s.country != "" && KnownCountry(countryMap, s.country) && s.options != []
    ensures NextCityState(countryMap, citiesOf, s, s.country, currentCity) == s
  {
  }

  /** After a load of a known country the list holds each trimmed city name of that country once,
      ascending, led by the current city when that one was given and is not among them. */
  lemma LoadedStateHoldsCities(countryMap: map<string, string>, citiesOf: map<string, seq<string>>,
                               s: CityState, countryName: string, currentCity: string)
    requires countryName != "" && KnownCountry(countryMap, countryName)
    requires !(s.country == countryName && s.options != [])
    ensures var next := NextCityState(countryMap, citiesOf, s, countryName, currentCity);
      var names := TrimAll(CitiesOfCode(citiesOf, countryMap[countryName]));
      && next.country == countryName
      && Distinct(next.options)
      && (forall y :: y in next.options <==> y in names || (y == currentCity && currentCity != ""))
      && (currentCity == "" || currentCity in names ==> StrictlySorted(next.options))
      && (currentCity != "" && currentCity !in names ==> next.options[0] == currentCity && StrictlySorted(next.options[1..]))
  {
  }

  /** The memo of one makes a load idempotent: once a known country has produced a non-empty
      list, asking for it again, with any current city, leaves the state as it is. */
  lemma {:induction false} LoadTwiceIsLoadOnce(countryMap: map<string, string>, citiesOf: map<string, seq<string>>,
                                               s: CityState, countryName: string, currentCity: string, laterCity: string)
    requires NextCityState(countryMap, citiesOf, s, countryName, currentCity).options != []
    ensures var once := NextCityState(countryMap, citiesOf, s, countryName, currentCity);
      NextCityState(countryMap, citiesOf, once, countryName, laterCity) == once
  {
    var once := NextCityState(countryMap, citiesOf, s, countryName, currentCity);
    assert countryName != "" && KnownCountry(countryMap, countryName);
    assert once.country == countryName;
  }

  /** The city select's placeholder text. */
  function CityPlaceholder(isLoadingCities: bool, cityOptions: seq<string>): string {
    if isLoadingCities then "Loading cities..."
    else if |cityOptions| > 0 then "Select city"
    else "Select a country first"
  }

  /** With no country chosen, the city select is disabled and asks for a country first. */
  lemma NoCountryDisablesCitySelect(countryMap: map<string, string>, citiesOf: map<string, seq<string>>,
                                    s: CityState, currentCity: string, isViewMode: bool)
    ensures var next := NextCityState(countryMap, citiesOf, s, "", currentCity);
      && CityPlaceholder(false, next.options) == "Select a country first"
      && CitySelectDisabled(false, next.options, isViewMode)
  {
  }

  /** The city select is disabled while loading, when it has no options, and in view mode. */
  predicate CitySelectDisabled(isLoadingCities: bool, cityOptions: seq<string>, isViewMode: bool) {
    isLoadingCities || |cityOptions| == 0 || isViewMode
  }

  /**
   * The modal's city-cascade state. The reference data (`countryMap`, built once from the
   * country list, and the city lookup keyed by ISO code) is fixed; `cityOptions`,
   * `isLoadingCities`, `currentCountryForCities` and `countryRef` are the component state;
   * `countryField` and `cityField` are the form's `country` and `city` values.
   */
  class CityCascade {
    const countryMap: map<string, string>
    const citiesOf: map<string, seq<string>>
    var cityOptions: seq<string>
    var isLoadingCities: bool
    var currentCountryForCities: string
    var countryRef: string
    var countryField: string
    var cityField: string

    /** The ref mirrors the remembered country; a load has finished between events; cities are
        only ever listed for a country whose code is known. */
    ghost predicate Valid()
      reads this
    {
      && countryRef == currentCountryForCities
      && !isLoadingCities
      && (cityOptions != [] ==> KnownCountry(countryMap, currentCountryForCities))
    }

    function State(): CityState
      reads this
    {
      CityState(cityOptions, currentCountryForCities)
    }

    constructor (countries: seq<Country>, citiesOf: map<string, seq<string>>)
      ensures Valid()
      ensures countryMap == CountryMap(SortCountries(countries)) && this.citiesOf == citiesOf
      ensures State() == CityState([], "") && countryField == "" && cityField == ""
    {
      countryMap := CountryMap(SortCountries(countries));
      this.citiesOf := citiesOf;
      cityOptions := [];
      isLoadingCities := false;
      currentCountryForCities := "";
      countryRef := "";
      countryField := "";
      cityField := "";
    }

    /** `loadCitiesForCountry`, with the deferred part run at once. */
    method LoadCitiesForCountry(countryName: string, currentCity: string)
      requires Valid()
      modifies this
      ensures Valid()
      ensures State() == NextCityState(countryMap, citiesOf, old(State()), countryName, currentCity)
      ensures countryField == old(countryField) && cityField == old(cityField)
    {
      if countryName == "" {
        cityOptions := [];
        currentCountryForCities := "";
        countryRef := "";
        return;
      }
      if countryName !in countryMap || countryMap[countryName] == "" {
        cityOptions := [];
        currentCountryForCities := countryName;
        countryRef := countryName;
        return;
      }
      if currentCountryForCities == countryName && |cityOptions| > 0 {
        return;
      }
      isLoadingCities := true;
      currentCountryForCities := countryName;
      countryRef := countryName;
      var cities := CitiesOfCode(citiesOf, countryMap[countryName]);
      cityOptions := LoadedCities(cities, currentCity);
      isLoadingCities := false;
    }

    /** The country select's `onChange`: set the country, clear the city, load that country's cities. */
    method OnCountryChange(value: string)
      requires Valid()
      modifies this
      ensures Valid()
      ensures countryField == value && cityField == ""
      ensures State() == NextCityState(countryMap, citiesOf, old(State()), value, "")
    {
      countryField := value;
      cityField := "";
      LoadCitiesForCountry(value, "");
    }

    /** The effect run when the modal opens or closes, or the initial country or city changes. */
    method OnOpenChange(isOpen: bool, initialCountry: string, initialCity: string)
      requires Valid()
      modifies this
      ensures Valid()
      ensures isOpen ==> State() == NextCityState(countryMap, citiesOf, old(State()), initialCountry, initialCity)
      ensures !isOpen ==> State() == CityState([], "")
      ensures countryField == old(countryField) && cityField == old(cityField)
    {
      if isOpen {
        if initialCountry != "" {
          LoadCitiesForCountry(initialCountry, initialCity);
        } else {
          cityOptions := [];
          currentCountryForCities := "";
          countryRef := "";
        }
      } else {
        cityOptions := [];
        currentCountryForCities := "";
        countryRef := "";
        isLoadingCities := false;
      }
    }
  }

  // ---------------------------------------------------------------------------
  // Initial values

  /** The form's values. */
  datatype FormValues = FormValues(
    organizationType: string, name: string, email: string, phone: string,
    country: string, city: string, timezone: string, address: string,
    venueTemplate: string, isActive: bool)

  const DefaultInitialValues: FormValues :=
    FormValues("Hospital", "", "", "", "", "", "America/New_York", "", "", true)

  datatype Mode = CreateMode | EditMode | ViewMode

  /** The venue template of a loaded organization: its id, or a populated object that may carry `_id`. */
  datatype VenueTemplateRef = TemplateId(id: string) | TemplateObject(objectId: Option<string>)

  /** An organization as the server returns it; every field may be missing. */
  datatype OrganizationRecord = OrganizationRecord(
    organizationType: Option<string>, name: Option<string>, email: Option<string>, phone: Option<string>,
    country: Option<string>, city: Option<string>, timezone: Option<string>, address: Option<string>,
    venueTemplate: Option<VenueTemplateRef>, isActive: Option<bool>)

  /** JavaScript's `v || d` on an optional string: `d` when `v` is missing or empty. */
  function OrElse(v: Option<string>, d: string): string {
    if v.Some? && v.value != "" then v.value else d
  }

  /** `!!organizationId` */
  predicate HasId(organizationId: Option<string>) {
    organizationId.Some? && organizationId.value != ""
  }

  function VenueTemplateId(v: Option<VenueTemplateRef>): string {
    match v
    case None => ""
    case Some(TemplateId(id)) => id
    case Some(TemplateObject(objectId)) => OrElse(objectId, "")
  }

  /** `initialValues`: the loaded organization's fields in edit and view mode, else the defaults. */
  function InitialValues(mode: Mode, organizationId: Option<string>, org: Option<OrganizationRecord>): (v: FormValues)
    ensures v.timezone != "" && v.organizationType != ""
    ensures mode == CreateMode || !HasId(organizationId) || org.None? ==> v == DefaultInitialValues
  {
    if (mode == EditMode || mode == ViewMode) && HasId(organizationId) && org.Some? then
      var o := org.value;
      FormValues(
        OrElse(o.organizationType, "Hospital"),
        OrElse(o.name, ""),
        OrElse(o.email, ""),
        OrElse(o.phone, ""),
        OrElse(o.country, DefaultInitialValues.country),
        OrElse(o.city, ""),
        OrElse(o.timezone, DefaultInitialValues.timezone),
        OrElse(o.address, ""),
        VenueTemplateId(o.venueTemplate),
        o.isActive.GetOr(true))
    else DefaultInitialValues
  }

  /** In edit and view mode every non-empty field of the loaded organization is kept as is,
      and a missing `isActive` reads as active. */
  lemma InitialValuesKeepLoadedFields(mode: Mode, organizationId: Option<string>, o: OrganizationRecord)
    requires mode == EditMode || mode == ViewMode
    requires HasId(organizationId)
    ensures var v := InitialValues(mode, organizationId, Some(o));
      && (o.organizationType.Some? && o.organizationType.value != "" ==> v.organizationType == o.organizationType.value)
      && (o.name.Some? && o.name.value != "" ==> v.name == o.name.value)
      && (o.email.Some? && o.email.value != "" ==> v.email == o.email.value)
      && (o.phone.Some? && o.phone.value != "" ==> v.phone == o.phone.value)
      && (o.country.Some? && o.country.value != "" ==> v.country == o.country.value)
      && (o.city.Some? && o.city.value != "" ==> v.city == o.city.value)
      && (o.timezone.Some? && o.timezone.value != "" ==> v.timezone == o.timezone.value)
      && (o.address.Some? && o.address.value != "" ==> v.address == o.address.value)
      && (forall id :: id != "" && o.venueTemplate == Some(TemplateId(id)) ==> v.venueTemplate == id)
      && (forall id :: id != "" && o.venueTemplate == Some(TemplateObject(Some(id))) ==> v.venueTemplate == id)
      && (o.isActive.Some? ==> v.isActive == o.isActive.value)
      && (o.isActive.None? ==> v.isActive)
  {
  }

  /** The fields the loaded organization leaves missing or empty take their defaults. */
  lemma InitialValuesFillGaps(mode: Mode, organizationId: Option<string>, o: OrganizationRecord)
    requires mode == EditMode || mode == ViewMode
    requires HasId(organizationId)
    ensures var v := InitialValues(mode, organizationId, Some(o));
      && (OrElse(o.organizationType, "") == "" ==> v.organizationType == "Hospital")
      && (OrElse(o.name, "") == "" ==> v.name == "")
      && (OrElse(o.email, "") == "" ==> v.email == "")
      && (OrElse(o.phone, "") == "" ==> v.phone == "")
      && (OrElse(o.country, "") == "" ==> v.country == DefaultInitialValues.country)
      && (OrElse(o.city, "") == "" ==> v.city == "")
      && (OrElse(o.timezone, "") == "" ==> v.timezone == "America/New_York")
      && (OrElse(o.address, "") == "" ==> v.address == "")
      && (o.venueTemplate.None? || o.venueTemplate == Some(TemplateObject(None)) ==> v.venueTemplate == "")
  {
  }

  // ---------------------------------------------------------------------------
  // Timezones

  /** An entry of the timezone reference list. */
  datatype Timezone = Timezone(labelText: string, tzCode: string)

  function TimezoneOption(z: Timezone): CustomSelect.RawOption {
    CustomSelect.Labeled(z.labelText, Some(z.tzCode), None)
  }

  /** Some entry of the list has `value` as its code. */
  predicate ListsZone(zones: seq<Timezone>, value: string) {
    exists i :: 0 <= i < |zones| && zones[i].tzCode == value
  }

  /**
   * `timezoneOptions`: one `{name: label, value: code}` per zone, in order; a non-empty initial
   * timezone that no zone carries is put in front as `{name: tz, value: tz}`.
   */
  function TimezoneOptions(zones: seq<Timezone>, initialTimezone: string): (r: seq<CustomSelect.RawOption>)
    ensures var mapped := seq(|zones|, i requires 0 <= i < |zones| => TimezoneOption(zones[i]));
      if initialTimezone != "" && !ListsZone(zones, initialTimezone)
      then r == [CustomSelect.Labeled(initialTimezone, Some(initialTimezone), None)] + mapped
      else r == mapped
  {
    var mapped := seq(|zones|, i requires 0 <= i < |zones| => TimezoneOption(zones[i]));
    if initialTimezone != "" && !ListsZone(zones, initialTimezone) then
      [CustomSelect.Labeled(initialTimezone, Some(initialTimezone), None)] + mapped
    else mapped
  }

  /** Whatever the list, the timezone select can show the form's initial timezone:
      some normalised option carries it as its value. */
  lemma InitialTimezoneSelectable(zones: seq<Timezone>, mode: Mode, organizationId: Option<string>,
                                  org: Option<OrganizationRecord>)
    ensures var tz := InitialValues(mode, organizationId, org).timezone;
      exists i :: 0 <= i < |CustomSelect.NormalizeAll(TimezoneOptions(zones, tz))| &&
        CustomSelect.NormalizeAll(TimezoneOptions(zones, tz))[i].value == tz
  {
    var tz := InitialValues(mode, organizationId, org).timezone;
    var opts := CustomSelect.NormalizeAll(TimezoneOptions(zones, tz));
    if ListsZone(zones, tz) {
      var i :| 0 <= i < |zones| && zones[i].tzCode == tz;
      assert opts[i].value == tz;
    } else {
      assert opts[0].value == tz;
    }
  }

  // ---------------------------------------------------------------------------
  // Submit

  /** A value of the submitted record. */
  datatype FieldValue = Text(text: string) | Flag(flag: bool) | Null

  /** `payload[key] === "" || payload[key] === null` */
  predicate IsEmptyValue(v: FieldValue) {
    v == Text("") || v == Null
  }

  /** `{ ...values }` as a key -> value record. */
  function FormPayload(v: FormValues): map<string, FieldValue> {
    map["organizationType" := Text(v.organizationType), "name" := Text(v.name), "email" := Text(v.email),
        "phone" := Text(v.phone), "country" := Text(v.country), "city" := Text(v.city),
        "timezone" := Text(v.timezone), "address" := Text(v.address),
        "venueTemplate" := Text(v.venueTemplate), "isActive" := Flag(v.isActive)]
  }

  /** `handleSubmit`'s clean-up: every key whose value is "" or null is deleted; the rest is kept unchanged. */
  method StripEmptyFields(values: map<string, FieldValue>) returns (payload: map<string, FieldValue>)
    ensures forall k :: k in payload <==> k in values && !IsEmptyValue(values[k])
    ensures forall k :: k in payload ==> payload[k] == values[k]
  {
    payload := values;
    var keys := values.Keys;
    while keys != {}
      invariant keys <= values.Keys
      invariant forall k :: k in payload <==> k in values && (k in keys || !IsEmptyValue(values[k]))
      invariant forall k :: k in payload ==> payload[k] == values[k]
      decreases keys
    {
      var k :| k in keys;
      if IsEmptyValue(payload[k]) {
        payload := payload - {k};
      }
      keys := keys - {k};
    }
  }

  /** The mutation `handleSubmit` sends. */
  datatype MutationRequest =
    | UpdateOrganization(id: string, data: map<string, FieldValue>)
    | CreateOrganizationRequest(data: map<string, FieldValue>)

  /** `handleSubmit`: an update of the organization in edit mode with an id, a create otherwise;
      either way only the non-empty fields are sent. */
  method SubmitRequest(mode: Mode, organizationId: Option<string>, values: FormValues) returns (req: MutationRequest)
    ensures req.UpdateOrganization? <==> mode == EditMode && HasId(organizationId)
    ensures req.UpdateOrganization? ==> req.id == organizationId.value
    ensures forall k :: k in req.data <==> k in FormPayload(values) && !IsEmptyValue(FormPayload(values)[k])
    ensures forall k :: k in req.data ==> req.data[k] == FormPayload(values)[k]
    ensures values.phone == "" ==> "phone" !in req.data
    ensures "isActive" in req.data
  {
    var payload := StripEmptyFields(FormPayload(values));
    assert FormPayload(values)["phone"] == Text(values.phone);
    assert FormPayload(values)["isActive"] == Flag(values.isActive);
    if mode == EditMode && HasId(organizationId) {
      req := UpdateOrganization(organizationId.value, payload);
    } else {
      req := CreateOrganizationRequest(payload);
    }
  }
}
