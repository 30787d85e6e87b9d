# Karepilot dashboard: form, selection and overview logic in Dafny

This project models the decision logic of several screens of the Karepilot venue-management
dashboard and proves properties of it:

- **Organization form** (`CreateOrganization`):
  - the country list sorted by name, and the name-to-ISO-code map built from it;
  - the country-to-city cascade, with its memo of one country, as a class whose methods are proved against a state-transition function;
  - the loaded city list: trimmed, de-duplicated, sorted, with the current city put in front when it is missing;
  - the initial values in create, edit and view mode;
  - the timezone options, which always offer the initial timezone;
  - the submit step: a loop deletes the empty fields, and the request is an update or a create depending on mode and id.
- **Dropdown** (`CustomSelect`):
  - option normalisation;
  - case-insensitive search capped at 500 rendered options;
  - the text on the closed control;
  - the open/closed and search-query state as a class driven by clicks, typing, Enter, Escape and outside clicks.
- **Floor-plan schemas** (`FloorPlanValidation`): file type and size tests, the map-scale pattern, the length limits, and the create schema as the update schema plus a required file.
- **Point-of-interest schema** (`PointOfInterestValidation`): six required fields, an optional but not nullable e-mail, and the coordinate ranges.
- **Shared field rule** (`SchemaRules`): Yup's required string, used by both schemas.
- **Coordinate test** (`Coordinates`): the latitude/longitude test both schemas share.
- **Organizations overview** (`OrganizationsOverview`):
  - the percentage-change label, with `toFixed(1)` modelled exactly over the reals;
  - the relative-time unit bands, with `Math.round`;
  - activity texts, colours, authors and timestamps;
  - the venue-type distribution;
  - the four summary statistics.
- **Report page** (`GenerateReport`): single selection over report templates and toggling of report sections, as pure list transforms plus a class holding the page state.

Helper modules:

- `Wrappers`: `Option`.
- `Strings`:
  - the ECMAScript `trim` whitespace set;
  - ASCII lower-casing and substring search;
  - decimal printing of integers, proved to read back.
- `Collation`: the order that stands in for `localeCompare`, and strictly sorted duplicate-free lists.

Outside inputs are parameters of the functions that use them:

- the country, city and timezone reference lists;
- the current time;
- `parseFloat` and `new Date(...)`;
- the e-mail pattern.

## Model

| member | source | states |
|---|---|---|
| Strings.Trim | components/common/CustomSelect.tsx:103-104 | never longer than the input, and neither end of the result is whitespace |
| Strings.TrimCutsOnlyWhitespace | components/common/CustomSelect.tsx:103-104 | the trimmed string is a contiguous slice of the input with only whitespace outside it |
| Strings.TrimKeepsTrimmed | components/common/CustomSelect.tsx:103-104 | a string without whitespace at either end is unchanged |
| Strings.TrimIdempotent | components/common/CustomSelect.tsx:103-104 | trimming twice is trimming once |
| Strings.TrimEmptyIffBlank | lib/validations/floorPlans.ts:56 | trimming gives "" exactly when every character is whitespace |
| Strings.Lower | components/common/CustomSelect.tsx:104-106 | same length, each character lower-cased |
| Strings.LowerIdempotent | lib/validations/floorPlans.ts:29 | lower-casing a lower-cased string changes nothing |
| Strings.ContainsIffOccurs | components/common/CustomSelect.tsx:106 | `includes` holds exactly when the needle occurs at some position |
| Strings.NatToStringRoundTrip | app/organizations/components/OrganizationsPageContent.tsx:30 | the printed digits of a number read back as that number |
| Strings.IntToStringInjective | app/organizations/components/OrganizationsPageContent.tsx:30 | distinct integers print differently |
| Collation.LexLessTransitive | components/common/CreateOrganizationModal.tsx:101 | the stand-in for `localeCompare` is transitive |
| Collation.LexLessTotal | components/common/CreateOrganizationModal.tsx:101 | any two distinct names are ordered one way or the other |
| Collation.UniqueSorted | components/common/CreateOrganizationModal.tsx:153-155 | `Array.from(new Set(...)).sort()`: strictly ascending and holding exactly the input's values |
| Collation.StrictlySortedUnique | components/common/CreateOrganizationModal.tsx:153-155 | two strictly ascending lists with the same members are equal |
| CustomSelect.NormalizeAll | components/common/CustomSelect.tsx:80-98 | one normalised option per input option, in order |
| CustomSelect.NormalizedFields | components/common/CustomSelect.tsx:84-96 | a string option is its own name and value with no icon; an object option keeps name and icon, and its value defaults to its name |
| CustomSelect.FilterByName | components/common/CustomSelect.tsx:105-107 | the result is an order-preserving subsequence holding exactly the options whose lower-cased name contains the query, each as many times as the input holds it |
| CustomSelect.FilteredOptions | components/common/CustomSelect.tsx:100-111 | at most 500 options; with no search or a blank query, the first 500 options; otherwise the first 500 matches of the trimmed lower-cased query |
| CustomSelect.SearchShowsExactlyTheMatches | components/common/CustomSelect.tsx:103-110 | with a non-blank query every shown option matches, and with at most 500 matches every match is shown |
| CustomSelect.FindByValue | components/common/CustomSelect.tsx:113 | the index of the first option with the value, or none when no option has it |
| CustomSelect.DisplayValue | components/common/CustomSelect.tsx:113-114 | the name of the first option carrying the value, else the raw value |
| CustomSelect.ButtonText | components/common/CustomSelect.tsx:152-156 | the placeholder for an empty value, else the display value |
| CustomSelect.ErrorNeedsTouchAndMessage | components/common/CustomSelect.tsx:78 | no error text on an untouched field, and none without a non-empty message |
| CustomSelect.SelectControl.constructor | components/common/CustomSelect.tsx:34-35 | starts closed with an empty query and the normalised options |
| CustomSelect.SelectControl.Filtered | components/common/CustomSelect.tsx:100-111 | the rendered list never exceeds 500 options |
| CustomSelect.SelectControl.Click | components/common/CustomSelect.tsx:124-129 | a disabled control ignores the click; otherwise the list toggles and the query is kept |
| CustomSelect.SelectControl.TypeQuery | components/common/CustomSelect.tsx:170-179 | the query changes only through the search box of an open, searchable control |
| CustomSelect.SelectControl.PressEnter | components/common/CustomSelect.tsx:180-187 | Enter commits the first rendered option's value and closes with the query cleared; with nothing rendered nothing changes |
| CustomSelect.SelectControl.ChooseOption | components/common/CustomSelect.tsx:212-222 | clicking a rendered option commits its value, closes and clears the query |
| CustomSelect.SelectControl.PressEscape | components/common/CustomSelect.tsx:39-56 | Escape on an open list closes it and clears the query; a closed list ignores it |
| CustomSelect.SelectControl.ClickOutside | components/common/CustomSelect.tsx:39-50 | an outside mouse-down on an open list closes it and clears the query; a closed list ignores it |
| CustomSelect.NotSearchableShowsPrefix | components/common/CustomSelect.tsx:103-110 | a control that is not searchable always shows the first 500 options |
| CustomSelect.SearchExample | components/common/CustomSelect.tsx:103-107 | "spr" finds "Springfield" and not "Boston" |
| CreateOrganization.InsertByName | components/common/CreateOrganizationModal.tsx:96-101 | inserting into a name-sorted list keeps it sorted and adds exactly the new country |
| CreateOrganization.SortCountries | components/common/CreateOrganizationModal.tsx:94-102 | the country list is sorted by name and is a permutation of the reference list |
| CreateOrganization.InsertByNameStable | components/common/CreateOrganizationModal.tsx:101 | an inserted country goes after every entry of the same name, which keep their order |
| CreateOrganization.SortCountriesStable | components/common/CreateOrganizationModal.tsx:94-102 | the sort is stable: entries sharing a name keep their input order |
| CreateOrganization.CountryMapKeys | components/common/CreateOrganizationModal.tsx:104-108 | the map's keys are exactly the country names |
| CreateOrganization.CountryMapLastWins | components/common/CreateOrganizationModal.tsx:104-108 | a name maps to the code of its last entry |
| CreateOrganization.TrimAll | components/common/CreateOrganizationModal.tsx:154 | each city name trimmed, in order |
| CreateOrganization.LoadedCities | components/common/CreateOrganizationModal.tsx:147-161 | the loaded list has no duplicates and holds exactly the trimmed names plus a given current city. It is ascending when the current city is empty or listed; otherwise the current city leads an ascending rest that does not contain it |
| CreateOrganization.LoadedCitiesDetermined | components/common/CreateOrganizationModal.tsx:153-159 | the loaded list is the unique ascending list of the trimmed names, with the missing current city in front |
| CreateOrganization.EmptyCountryClears | components/common/CreateOrganizationModal.tsx:121-126 | loading for an empty name clears the options and the remembered country |
| CreateOrganization.UnknownCountryRecorded | components/common/CreateOrganizationModal.tsx:128-135 | an unknown name is remembered with no cities |
| CreateOrganization.RepeatLoadChangesNothing | components/common/CreateOrganizationModal.tsx:137-139 | asking again for the remembered country with cities loaded changes nothing |
| CreateOrganization.LoadedStateHoldsCities | components/common/CreateOrganizationModal.tsx:141-161 | a load of a known country remembers it and lists its trimmed cities once each, ascending, led by a missing current city |
| CreateOrganization.LoadTwiceIsLoadOnce | components/common/CreateOrganizationModal.tsx:137-161 | once a load produced cities, repeating it with any current city is a no-op |
| CreateOrganization.NoCountryDisablesCitySelect | components/common/CreateOrganizationModal.tsx:479-488 | with no country the city select is disabled and asks for a country first |
| CreateOrganization.CityCascade.constructor | components/common/CreateOrganizationModal.tsx:104-118 | the map is built from the sorted country list; no cities and no remembered country |
| CreateOrganization.CityCascade.LoadCitiesForCountry | components/common/CreateOrganizationModal.tsx:120-169 | the new state is the transition function applied to the old state; the ref mirrors the remembered country; the form fields are untouched |
| CreateOrganization.CityCascade.OnCountryChange | components/common/CreateOrganizationModal.tsx:449-453 | sets the country, clears the city and loads that country's cities |
| CreateOrganization.CityCascade.OnOpenChange | components/common/CreateOrganizationModal.tsx:198-213 | on open, loads the initial country (or clears for none); on close, clears |
| CreateOrganization.InitialValues | components/common/CreateOrganizationModal.tsx:174-195 | the timezone and type are never empty; create mode, a missing id or missing data give the defaults |
| CreateOrganization.InitialValuesKeepLoadedFields | components/common/CreateOrganizationModal.tsx:174-189 | in edit and view mode every non-empty loaded field is kept: type, name, e-mail, phone, country, city, timezone, address, the venue template id (a string or an object's `_id`) and `isActive`, which defaults to true |
| CreateOrganization.InitialValuesFillGaps | components/common/CreateOrganizationModal.tsx:174-189 | in edit and view mode a missing or empty loaded field takes its default: "Hospital", the default country and timezone, else "" |
| CreateOrganization.TimezoneOptions | components/common/CreateOrganizationModal.tsx:215-232 | one option per zone in order, with a non-empty unlisted initial timezone put in front |
| CreateOrganization.InitialTimezoneSelectable | components/common/CreateOrganizationModal.tsx:215-232 | some option always carries the initial timezone as its value |
| CreateOrganization.StripEmptyFields | components/common/CreateOrganizationModal.tsx:241-247 | a key is kept exactly when its value is neither "" nor null, with its value unchanged |
| CreateOrganization.SubmitRequest | components/common/CreateOrganizationModal.tsx:240-259 | an update exactly in edit mode with an id, else a create. Only non-empty fields are sent: an empty phone never is, `isActive` always is |
| Coordinates.LatitudeRule | lib/validations/floorPlans.ts:53-60 | blank passes; otherwise only a number in [-90, 90] passes |
| Coordinates.LongitudeRule | lib/validations/floorPlans.ts:61-68 | blank passes; otherwise only a number in [-180, 180] passes |
| Coordinates.LatitudeWithinLongitude | lib/validations/floorPlans.ts:53-68 | every valid latitude is a valid longitude |
| Coordinates.BlankMeansWhitespaceOnly | lib/validations/floorPlans.ts:56 | whitespace-only text passes |
| FloorPlanValidation.AbsentFilePasses | lib/validations/floorPlans.ts:17-36 | no file passes both file tests |
| FloorPlanValidation.FileLimits | lib/validations/floorPlans.ts:19-35 | size passes exactly up to 10485760 bytes; seven MIME types and seven extensions; a listed MIME type passes |
| FloorPlanValidation.ExtensionIgnoresCase | lib/validations/floorPlans.ts:28-31 | names that lower-case alike get the same verdict, and every name gets the verdict of its lower-cased form |
| FloorPlanValidation.UpperCaseExtensionAccepted | lib/validations/floorPlans.ts:28-31 | an example: "PLAN.PDF" is accepted whatever its MIME type |
| FloorPlanValidation.ScaleOf | lib/validations/floorPlans.ts:48 | a printed ratio 1:n matches the scale pattern |
| FloorPlanValidation.ScaleRoundTrip | lib/validations/floorPlans.ts:48 | the scale's digits read back as n |
| FloorPlanValidation.CreateIsUpdatePlusFile | lib/validations/floorPlans.ts:38-109 | the create schema accepts exactly what the update schema accepts with a file that passes both tests |
| FloorPlanValidation.UpdateIgnoresFile | lib/validations/floorPlans.ts:75-109 | the update schema's verdict does not depend on the file |
| FloorPlanValidation.LengthLimits | lib/validations/floorPlans.ts:42-71 | map name 2..120 characters, description at most 500, tags at most 40 |
| FloorPlanValidation.BadScaleRejected | lib/validations/floorPlans.ts:46-48 | a scale not matching "1:" and digits rejects the form |
| PointOfInterestValidation.AcceptedExactly | lib/validations/pointOfInterest.ts:3-29 | accepted exactly when the six required fields are present, the e-mail passes and both coordinates pass |
| PointOfInterestValidation.MissingRequiredFails | lib/validations/pointOfInterest.ts:4-9 | any missing or empty required field rejects the form |
| PointOfInterestValidation.AbsentEmailNeverFails | lib/validations/pointOfInterest.ts:10 | a missing or empty e-mail passes, and the verdict is then that of the other fields |
| PointOfInterestValidation.NullEmailRejected | lib/validations/pointOfInterest.ts:10 | a `null` e-mail fails, since the field is optional but not nullable |
| PointOfInterestValidation.NullLatitudePasses | lib/validations/pointOfInterest.ts:11-15 | a null or empty latitude passes |
| PointOfInterestValidation.CoordinatesIndependent | lib/validations/pointOfInterest.ts:11-28 | changing one coordinate never changes the verdict on the other |
| OrganizationsOverview.Tenths | app/organizations/components/OrganizationsPageContent.tsx:30 | the nearest number of tenths to the magnitude, ties going up |
| OrganizationsOverview.Fixed1 | app/organizations/components/OrganizationsPageContent.tsx:30 | ends in a point and one digit; starts with "-" exactly for a negative value |
| OrganizationsOverview.Fixed1ReadsBack | app/organizations/components/OrganizationsPageContent.tsx:30 | the printed digits read back as the rounded tenths |
| OrganizationsOverview.FormatPercentage | app/organizations/components/OrganizationsPageContent.tsx:25-33 | always ends in "%"; "0%" for a non-finite value; starts with "+" exactly when the value is finite and positive |
| OrganizationsOverview.IntegerChangeText | app/organizations/components/OrganizationsPageContent.tsx:29-32 | an integer change is printed by `toString`, with "+" only when positive |
| OrganizationsOverview.IntegerChangeHasNoDecimals | app/organizations/components/OrganizationsPageContent.tsx:29-32 | an integer prints without a point, and its digits read back as its magnitude |
| OrganizationsOverview.FractionalChangeHasOneDecimal | app/organizations/components/OrganizationsPageContent.tsx:29-30 | a non-integer prints with exactly one decimal |
| OrganizationsOverview.PositiveFractionExample | app/organizations/components/OrganizationsPageContent.tsx:25-33 | 12.34 gives "+12.3%" |
| OrganizationsOverview.NegativeFractionExample | app/organizations/components/OrganizationsPageContent.tsx:25-33 | -2.5 gives "-2.5%", with no "+" |
| OrganizationsOverview.UnitFor | app/organizations/components/OrganizationsPageContent.tsx:46-67 | the longest unit not longer than the difference, seconds below a minute |
| OrganizationsOverview.BandsPartition | app/organizations/components/OrganizationsPageContent.tsx:46-67 | the seven bands are disjoint and cover every difference |
| OrganizationsOverview.RoundDiv | app/organizations/components/OrganizationsPageContent.tsx:43-50 | `Math.round(n / d)`: within half a unit of n/d, halves going up |
| OrganizationsOverview.FormatRelativeTime | app/organizations/components/OrganizationsPageContent.tsx:35-67 | blank exactly for an unparseable date; otherwise the band's unit and the difference rounded to that unit |
| OrganizationsOverview.CoarseUnitsNeverSayZero | app/organizations/components/OrganizationsPageContent.tsx:43-67 | above seconds the count is never 0, and its sign is the difference's |
| OrganizationsOverview.ActivityColor | app/organizations/components/OrganizationsPageContent.tsx:207 | the table's colour, or "bg-blue-500" for any other type |
| OrganizationsOverview.ColorFallsBackToCreated | app/organizations/components/OrganizationsPageContent.tsx:19-23 | only updates and deactivations differ from the creation colour |
| OrganizationsOverview.ActivityText | app/organizations/components/OrganizationsPageContent.tsx:73-87 | "T deactivated: N", "T updated: N", and "New t added: N" with the type lower-cased for every other activity type |
| OrganizationsOverview.UnknownTypeReadsAsCreated | app/organizations/components/OrganizationsPageContent.tsx:78-86 | any other type reads like a creation, "New " plus the lower-cased type |
| OrganizationsOverview.Author | app/organizations/components/OrganizationsPageContent.tsx:203-205 | "System" without an actor; otherwise the trimmed "first last" |
| OrganizationsOverview.AuthorIsTrimmedFullName | app/organizations/components/OrganizationsPageContent.tsx:203-205 | a named actor's author is a slice of "first last" with only whitespace cut away |
| OrganizationsOverview.CleanNamesShownVerbatim | app/organizations/components/OrganizationsPageContent.tsx:203-205 | names without surrounding whitespace are shown as "first last" exactly |
| OrganizationsOverview.NamelessActorHasEmptyAuthor | app/organizations/components/OrganizationsPageContent.tsx:203-205 | an actor with empty names gives an empty author, not "System" |
| OrganizationsOverview.Timestamp | app/organizations/components/OrganizationsPageContent.tsx:195 | `updatedAt` unless missing or empty, else `createdAt` |
| OrganizationsOverview.Activities | app/organizations/components/OrganizationsPageContent.tsx:189-210 | nothing without recent activity; otherwise one item per record in order |
| OrganizationsOverview.CountFor | app/organizations/components/OrganizationsPageContent.tsx:172-182 | 0 when no entry is for the type |
| OrganizationsOverview.CountForLastEntry | app/organizations/components/OrganizationsPageContent.tsx:172-182 | a later entry overwrites an earlier one: the count is that of the type's last entry |
| OrganizationsOverview.Distribution | app/organizations/components/OrganizationsPageContent.tsx:171-187 | one entry per venue type, in order; a dash while busy, else the server count |
| OrganizationsOverview.UnreportedTypeCountsZero | app/organizations/components/OrganizationsPageContent.tsx:182 | an unreported type shows 0 once settled |
| OrganizationsOverview.Stats | app/organizations/components/OrganizationsPageContent.tsx:128-169 | empty without data; otherwise exactly total, active, hospitals and other venues, each with its count and formatted change |
| OrganizationsOverview.StatChangesArePercentages | app/organizations/components/OrganizationsPageContent.tsx:128-169 | every change label ends in "%", "0%" for a non-finite change |
| GenerateReport.SelectTemplate | app/analytics/generate-report/components/GenerateReportPageContent.tsx:26-33 | length, order and every field but the flag kept; selected exactly when the id matches |
| GenerateReport.CountMarked | app/analytics/generate-report/components/GenerateReportPageContent.tsx:26-33 | with distinct ids, the templates flagged by id number one if the id is present, else none |
| GenerateReport.SelectLeavesOne | app/analytics/generate-report/components/GenerateReportPageContent.tsx:26-33 | with distinct ids and the id present exactly one template is selected; an absent id leaves none |
| GenerateReport.SelectLastWins | app/analytics/generate-report/components/GenerateReportPageContent.tsx:26-33 | the last selection wins; selecting twice is selecting once |
| GenerateReport.ToggleSection | app/analytics/generate-report/components/GenerateReportPageContent.tsx:35-43 | a matching section flips its tick; every other section is unchanged |
| GenerateReport.ToggleTwiceRestores | app/analytics/generate-report/components/GenerateReportPageContent.tsx:35-43 | toggling twice restores the list |
| GenerateReport.ToggleAbsentIsNoOp | app/analytics/generate-report/components/GenerateReportPageContent.tsx:35-43 | toggling an absent id changes nothing |
| GenerateReport.TogglesCommute | app/analytics/generate-report/components/GenerateReportPageContent.tsx:35-43 | toggles of two sections commute |
| GenerateReport.ReportPage.constructor | app/analytics/generate-report/components/GenerateReportPageContent.tsx:18-19 | the page starts from the reference templates and sections |
| GenerateReport.ReportPage.HandleTemplateSelect | app/analytics/generate-report/components/GenerateReportPageContent.tsx:26-33 | templates replaced by their selection; sections untouched; one selected for a present id with distinct ids |
| GenerateReport.ReportPage.HandleSectionToggle | app/analytics/generate-report/components/GenerateReportPageContent.tsx:35-43 | sections replaced by their toggle; templates untouched |

## Left out

- Network and side effects: the RTK Query mutations and queries, toasts and `console` output are not modelled. `SubmitRequest` returns the request it would send.
- The `setTimeout` deferral of the city load, and the stale-load race it allows, are not modelled. The load runs synchronously, so `isLoadingCities` is false between events.
- The `try`/`catch` around the city lookup is not modelled: the lookup is a total map from ISO code to city names.
- CustomSelect.SelectControl: the options, `searchable` and `disabled` are fixed for the object's life. In the page, the city select's options and `disabled` change after every city load; the model covers that through `CreateOrganization.CityCascade` and `CitySelectDisabled`, not through a control that sees its props change.
- DOM behaviour is not modelled: event-listener registration and removal, focus, `stopPropagation`/`preventDefault`, and all JSX rendering. This includes the "No options" texts, the 500-option banner, the modal titles and the choice of validation schema.
- The country, city and timezone reference libraries are inputs (`country-state-city`, `timezones-list`), as are the overview's venue-type and stat metadata.
- Collation.LexLess: `localeCompare` is replaced by code-point lexicographic order. Locale collation is not modelled.
- Strings.Lower: `toLowerCase` lowers ASCII letters only.
- String lengths count Unicode scalar values. JavaScript counts UTF-16 code units, so length limits differ for characters outside the Basic Multilingual Plane.
- `parseFloat`, `new Date(...)` and the current time are parameters. Their parsing rules are not modelled.
- The e-mail pattern of Yup is a parameter. Yup's coercion and its other internals are not modelled.
- Floating point: numbers are exact reals and exact integers.
  - OrganizationsOverview.Fixed1 rounds the exact decimal value. JavaScript rounds the nearest binary double, so for example 0.35 prints as "0.3" there and as "0.4" here.
  - OrganizationsOverview.FormatPercentage prints integers in full. JavaScript switches to exponent form from 1e21 on.
  - OrganizationsOverview.RoundDiv divides exactly. JavaScript divides in binary floating point; the two agree for differences below 2^50 milliseconds.
- OrganizationsOverview.FormatRelativeTime returns the count and unit passed to `Intl.RelativeTimeFormat`. The localized wording ("in 3 days", "yesterday") is not modelled.
- OrganizationsOverview.ActivityColor looks the type up as a map key. Prototype properties of the JavaScript object, such as "toString", are not modelled.
- OrganizationsOverview.Distribution takes the busy flag as an input. The page computes it as `isLoading || isFetching`.
