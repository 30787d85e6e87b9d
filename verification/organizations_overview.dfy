/**
 * The derived data of the organizations overview page
 * (app/organizations/components/OrganizationsPageContent.tsx): the percentage-change label,
 * the relative-time unit bands, the activity texts, colours and authors, the venue-type
 * distribution and the four summary statistics.
 */
module OrganizationsOverview {
  import opened Wrappers
  import opened Strings

  /** A JavaScript number: a finite value, `NaN`, or an infinity of either sign. */
  datatype JsNumber = Finite(value: real) | NaN | Inf(positive: bool)

  function Abs(x: real): (r: real)
    ensures r >= 0.0 && (r == x || r == -x)
  {
    if x < 0.0 then -x else x
  }

  /** `Number.isInteger` on a finite value. */
  predicate IsInteger(x: real) {
    x == x.Floor as real
  }

  /** The number of tenths `toFixed(1)` prints for `|x|`: the nearest one, ties going up. */
  function Tenths(x: real): (n: nat)
    ensures (n as real) - 0.5 <= Abs(x) * 10.0 < (n as real) + 0.5
  {
    var t := (Abs(x) * 10.0 + 0.5).Floor;
    assert t >= 0 by {
      assert (0 as real) <= Abs(x) * 10.0 + 0.5;
    }
    t
  }

  /** `Number.prototype.toFixed(1)`: a minus sign for a negative value, the whole tenths, a point, one digit. */
  function Fixed1(x: real): (r: string)
    ensures |r| >= 3 && r[|r| - 2] == '.' && IsDigit(r[|r| - 1])
    ensures r[0] == '-' <==> x < 0.0
    ensures r[0] != '+'
  {
    var n := Tenths(x);
    (if x < 0.0 then "-" else "") + NatToString(n / 10) + "." + [DigitChar(n % 10)]
  }

  /** Reading the digits `toFixed(1)` printed gives back the tenths, within half a tenth of `|x|`. */
  lemma Fixed1ReadsBack(x: real)
    ensures var r := Fixed1(x);
            var start := if x < 0.0 then 1 else 0;
            && (forall i :: start <= i < |r| - 2 ==> IsDigit(r[i]))
            && DigitsValue(r[start..|r| - 2]) * 10 + DigitValue(r[|r| - 1]) == Tenths(x)
  {
    var r := Fixed1(x);
    var n := Tenths(x);
    var start := if x < 0.0 then 1 else 0;
    assert r[start..|r| - 2] == NatToString(n / 10);
    NatToStringRoundTrip(n / 10);
  }

  /** `formatPercentage`: "0%" for a non-finite value; otherwise a "+" for a positive value, the
      number (integers as they are, others to one decimal) and "%". */
  function FormatPercentage(v: JsNumber): (r: string)
    ensures |r| >= 2 && r[|r| - 1] == '%'
    ensures !v.Finite? ==> r == "0%"
    ensures r[0] == '+' <==> v.Finite? && v.value > 0.0
  {
    match v
    case Finite(x) =>
      var formatted := if IsInteger(x) then IntToString(x.Floor) else Fixed1(x);
      (if x > 0.0 then "+" else "") + formatted + "%"
    case _ => "0%"
  }

  /** An integer change is printed by `toString`: a "+" when positive, then its decimal form. */
  lemma IntegerChangeText(k: int)
    ensures FormatPercentage(Finite(k as real)) == (if k > 0 then "+" else "") + IntToString(k) + "%"
  {
    assert (k as real).Floor == k;
    assert IsInteger(k as real);
  }

  /** A sign, decimal digits and "%": no point anywhere, and the digits sit between sign and "%". */
  lemma SignedDigitsShape(sign: string, digits: string)
    requires |sign| <= 1 && forall i :: 0 <= i < |sign| ==> sign[i] == '+' || sign[i] == '-'
    requires forall i :: 0 <= i < |digits| ==> IsDigit(digits[i])
    ensures var t := sign + digits + "%";
            && (forall i :: 0 <= i < |t| ==> t[i] != '.')
            && (forall i :: |sign| <= i < |t| - 1 ==> IsDigit(t[i]))
            && t[|sign|..|t| - 1] == digits
  {
    var t := sign + digits + "%";
    forall i | 0 <= i < |t|
      ensures t[i] != '.'
      ensures |sign| <= i < |t| - 1 ==> IsDigit(t[i])
    {
      if |sign| <= i < |t| - 1 {
        assert t[i] == digits[i - |sign|];
      }
    }
  }

  /** An integer change prints without a decimal point, and its digits read back as the change. */
  lemma IntegerChangeHasNoDecimals(k: int)
    ensures var r := FormatPercentage(Finite(k as real));
            var start := if k != 0 then 1 else 0;
            && (forall i :: 0 <= i < |r| ==> r[i] != '.')
            && (forall i :: start <= i < |r| - 1 ==> IsDigit(r[i]))
            && DigitsValue(r[start..|r| - 1]) == AbsInt(k)
  {
    IntegerChangeText(k);
    var digits := NatToString(AbsInt(k));
    var sign := if k > 0 then "+" else if k < 0 then "-" else "";
    assert (if k > 0 then "+" else "") + IntToString(k) == sign + digits;
    SignedDigitsShape(sign, digits);
    NatToStringRoundTrip(AbsInt(k));
  }

  /** A change with a fractional part prints with exactly one decimal. */
  lemma FractionalChangeHasOneDecimal(x: real)
    requires !IsInteger(x)
    ensures var r := FormatPercentage(Finite(x));
            |r| >= 4 && r[|r| - 3] == '.' && IsDigit(r[|r| - 2])
  {
  }

  /** A change of 12.34 prints as "+12.3%". */
  lemma PositiveFractionExample(x: real)
    requires x == 12.34
    ensures FormatPercentage(Finite(x)) == "+12.3%"
  {
    assert !IsInteger(x) by {
      assert x.Floor == 12;
    }
    assert Tenths(x) == 123;
    assert NatToString(12) == "12";
    assert Fixed1(x) == "12.3";
  }

  /** A change of -2.5 prints as "-2.5%", with no "+". */
  lemma NegativeFractionExample(x: real)
    requires x == -2.5
    ensures FormatPercentage(Finite(x)) == "-2.5%"
  {
    assert !IsInteger(x) by {
      assert x.Floor == -3;
    }
    assert Tenths(x) == 25;
    assert NatToString(2) == "2";
    assert Fixed1(x) == "-2.5";
  }

  // ----- Relative time -----

  datatype TimeUnit = Second | Minute | Hour | Day | Week | Month | Year

  /** The length of each unit in seconds (a month is 30.4375 days, a year 365.25 days). */
  function UnitSeconds(u: TimeUnit): (r: nat)
    ensures r >= 1
  {
    match u
    case Second => 1
    case Minute => 60
    case Hour => 3600
    case Day => 86400
    case Week => 604800
    case Month => 2629800
    case Year => 31557600
  }

  function Rank(u: TimeUnit): nat {
    match u
    case Second => 0
    case Minute => 1
    case Hour => 2
    case Day => 3
    case Week => 4
    case Month => 5
    case Year => 6
  }

  /** The unit for a difference of `absSeconds` seconds: the longest unit that fits in it,
      and seconds below a minute. */
  function UnitFor(absSeconds: nat): (r: TimeUnit)
    ensures r == Second || UnitSeconds(r) <= absSeconds
    ensures forall v :: Rank(v) > Rank(r) ==> absSeconds < UnitSeconds(v)
  {
    if 60 <= absSeconds < 3600 then Minute
    else if 3600 <= absSeconds < 86400 then Hour
    else if 86400 <= absSeconds < 604800 then Day
    else if 604800 <= absSeconds < 2629800 then Week
    else if 2629800 <= absSeconds < 31557600 then Month
    else if absSeconds >= 31557600 then Year
    else Second
  }

  /** The band of each unit, stated on its own. */
  predicate InBand(absSeconds: nat, u: TimeUnit) {
    match u
    case Second => absSeconds < 60
    case Minute => 60 <= absSeconds < 3600
    case Hour => 3600 <= absSeconds < 86400
    case Day => 86400 <= absSeconds < 604800
    case Week => 604800 <= absSeconds < 2629800
    case Month => 2629800 <= absSeconds < 31557600
    case Year => 31557600 <= absSeconds
  }

  /** The bands are disjoint and cover every difference: the chosen unit is the one band holding it. */
  lemma BandsPartition(absSeconds: nat, u: TimeUnit)
    ensures InBand(absSeconds, UnitFor(absSeconds))
    ensures InBand(absSeconds, u) <==> u == UnitFor(absSeconds)
  {
  }

  /** `Math.round(n / d)`: the nearest integer, halves going up. */
  function RoundDiv(n: int, d: nat): (r: int)
    requires d > 0
    ensures 2 * d * r - d <= 2 * n < 2 * d * r + d
  {
    var q := (2 * n + d) / (2 * d);
    assert 2 * d * q <= 2 * n + d < 2 * d * q + 2 * d by {
      var m := (2 * n + d) % (2 * d);
      assert 2 * n + d == 2 * d * q + m && 0 <= m < 2 * d;
    }
    q
  }

  function AbsInt(i: int): (r: nat)
    ensures r == i || r == -i
  {
    if i < 0 then -i else i
  }

  /** What `formatRelativeTime` hands to `Intl.RelativeTimeFormat`, or the empty result for an
      unparseable date. */
  datatype RelativeTime = Blank | Relative(value: int, unit: TimeUnit)

  /** `formatRelativeTime`: `parseDate` stands for `new Date(...).getTime()` (None for an
      invalid date) and `now` for the current time, both in milliseconds. */
  function FormatRelativeTime(input: string, now: int, parseDate: string -> Option<int>): (r: RelativeTime)
    ensures r.Blank? <==> parseDate(input).None?
    ensures r.Relative? ==>
      var seconds := RoundDiv(parseDate(input).value - now, 1000);
      && r.unit == UnitFor(AbsInt(seconds))
      && 2 * UnitSeconds(r.unit) * r.value - UnitSeconds(r.unit) <= 2 * seconds
      && 2 * seconds < 2 * UnitSeconds(r.unit) * r.value + UnitSeconds(r.unit)
  {
    match parseDate(input)
    case None => Blank
    case Some(time) =>
      var seconds := RoundDiv(time - now, 1000);
      var unit := UnitFor(AbsInt(seconds));
      Relative(if unit == Second then seconds else RoundDiv(seconds, UnitSeconds(unit)), unit)
  }

  /** Outside the seconds band the rounded count is never zero, and its sign is the sign of the difference. */
  lemma {:induction false} CoarseUnitsNeverSayZero(input: string, now: int, parseDate: string -> Option<int>)
    requires parseDate(input).Some?
    ensures var r := FormatRelativeTime(input, now, parseDate);
            var seconds := RoundDiv(parseDate(input).value - now, 1000);
            && (r.unit != Second ==> r.value != 0)
            && (r.value > 0 ==> seconds > 0)
            && (r.value < 0 ==> seconds < 0)
  {
    var r := FormatRelativeTime(input, now, parseDate);
    var seconds := RoundDiv(parseDate(input).value - now, 1000);
    var u := UnitSeconds(r.unit);
    if r.unit != Second {
      assert u <= AbsInt(seconds);
    }
  }

  // ----- Activities -----

  /** The colour table; a type not in it gets "bg-blue-500". */
  const ActivityColors: map<string, string> :=
    map["created" := "bg-blue-500", "updated" := "bg-green-500", "deactivated" := "bg-red-500"]

  function ActivityColor(activityType: string): (r: string)
    ensures activityType in ActivityColors ==> r == ActivityColors[activityType]
    ensures activityType !in ActivityColors ==> r == "bg-blue-500"
  {
    if activityType in ActivityColors then ActivityColors[activityType] else "bg-blue-500"
  }

  /** Only updates and deactivations get their own colour; everything else is drawn like a creation. */
  lemma ColorFallsBackToCreated(activityType: string)
    ensures activityType != "updated" && activityType != "deactivated" ==>
              ActivityColor(activityType) == ActivityColor("created")
    ensures activityType == "updated" ==> ActivityColor(activityType) == "bg-green-500"
    ensures activityType == "deactivated" ==> ActivityColor(activityType) == "bg-red-500"
  {
  }

  /** `getActivityText`: "T deactivated: N", "T updated: N", and "New t added: N" for every other
      type, with the organization type lower-cased in the last. */
  function ActivityText(name: string, organizationType: string, activityType: string): (r: string)
    ensures EndsWith(r, ": " + name)
    ensures activityType == "deactivated" ==> r == organizationType + " deactivated: " + name
    ensures activityType == "updated" ==> r == organizationType + " updated: " + name
    ensures activityType != "deactivated" && activityType != "updated" ==>
              r == "New " + Lower(organizationType) + " added: " + name
  {
    if activityType == "deactivated" then organizationType + " deactivated: " + name
    else if activityType == "updated" then organizationType + " updated: " + name
    else "New " + Lower(organizationType) + " added: " + name
  }

  /** Any type other than "deactivated" and "updated" is described as a creation, which names the
      organization type in lower case. */
  lemma UnknownTypeReadsAsCreated(name: string, organizationType: string, activityType: string)
    requires activityType != "deactivated" && activityType != "updated"
    ensures ActivityText(name, organizationType, activityType) == ActivityText(name, organizationType, "created")
    ensures StartsWith(ActivityText(name, organizationType, activityType), "New " + Lower(organizationType))
  {
  }

  datatype Actor = Actor(firstName: string, lastName: string)

  /** One entry of the server's recent activity; an empty `updatedAt` counts as missing. */
  datatype ActivityRecord = ActivityRecord(
    id: string, name: string, organizationType: string, activityType: string,
    actor: Option<Actor>, createdAt: string, updatedAt: Option<string>)

  datatype ActivityItem = ActivityItem(id: string, text: string, author: string, time: RelativeTime, color: string)

  /** The author line: "System" without an actor, otherwise the trimmed full name. */
  function Author(actor: Option<Actor>): (r: string)
    ensures actor.None? ==> r == "System"
    ensures actor.Some? ==> r == Trim(actor.value.firstName + " " + actor.value.lastName)
    ensures r == [] || (!IsWhitespace(r[0]) && !IsWhitespace(r[|r| - 1]))
  {
    match actor
    case None => "System"
    case Some(a) => Trim(a.firstName + " " + a.lastName)
  }

  /** A named actor's author line is the full name "first last" with only the surrounding
      whitespace cut: a contiguous slice of it, and nothing but whitespace left outside. */
  lemma AuthorIsTrimmedFullName(a: Actor)
    ensures exists lo, hi :: SliceOfWhitespaceCut(a.firstName + " " + a.lastName, Author(Some(a)), lo, hi)
    ensures |Author(Some(a))| <= |a.firstName| + 1 + |a.lastName|
  {
    var full := a.firstName + " " + a.lastName;
    TrimCutsOnlyWhitespace(full);
    var lo, hi :| SliceOfWhitespaceCut(full, Trim(full), lo, hi);
    assert SliceOfWhitespaceCut(full, Author(Some(a)), lo, hi);
  }

  /** An actor whose names carry no surrounding whitespace, and whose first name is not empty,
      is shown as "first last" exactly. */
  lemma CleanNamesShownVerbatim(a: Actor)
    requires |a.firstName| > 0 && |a.lastName| > 0
    requires !IsWhitespace(a.firstName[0]) && !IsWhitespace(a.lastName[|a.lastName| - 1])
    ensures Author(Some(a)) == a.firstName + " " + a.lastName
  {
    var full := a.firstName + " " + a.lastName;
    assert full[0] == a.firstName[0] && full[|full| - 1] == a.lastName[|a.lastName| - 1];
    TrimKeepsTrimmed(full);
  }

  /** An actor whose names are both empty gives an empty author, not "System". */
  lemma NamelessActorHasEmptyAuthor(a: Actor)
    requires a.firstName == "" && a.lastName == ""
    ensures Author(Some(a)) == ""
  {
    assert a.firstName + " " + a.lastName == [' '];
  }

  /** The time an activity is dated by: `updatedAt`, unless missing or empty, else `createdAt`. */
  function Timestamp(rec: ActivityRecord): (r: string)
    ensures rec.updatedAt.Some? && rec.updatedAt.value != "" ==> r == rec.updatedAt.value
    ensures rec.updatedAt.None? || rec.updatedAt.value == "" ==> r == rec.createdAt
  {
    if rec.updatedAt.Some? && rec.updatedAt.value != "" then rec.updatedAt.value else rec.createdAt
  }

  function ToItem(rec: ActivityRecord, now: int, parseDate: string -> Option<int>): ActivityItem {
    ActivityItem(rec.id, ActivityText(rec.name, rec.organizationType, rec.activityType),
                 Author(rec.actor), FormatRelativeTime(Timestamp(rec), now, parseDate),
                 ActivityColor(rec.activityType))
  }

  /** The `activities` list: nothing without recent activity, otherwise one item per record, in order. */
  function Activities(recent: Option<seq<ActivityRecord>>, now: int, parseDate: string -> Option<int>): (r: seq<ActivityItem>)
    ensures recent.None? ==> r == []
    ensures recent.Some? ==> |r| == |recent.value|
    ensures recent.Some? ==> forall i :: 0 <= i < |r| ==> r[i] == ToItem(recent.value[i], now, parseDate)
  {
    match recent
    case None => []
    case Some(recs) => seq(|recs|, i requires 0 <= i < |recs| => ToItem(recs[i], now, parseDate))
  }

  // ----- Venue-type distribution -----

  datatype DistributionItem = DistributionItem(organizationType: string, count: int)

  /** `new Map(entries).get(type) ?? 0`: the count of the last entry for the type, or 0. */
  function CountFor(items: seq<DistributionItem>, venueType: string): (r: int)
    ensures (forall i :: 0 <= i < |items| ==> items[i].organizationType != venueType) ==> r == 0
  {
    if items == [] then 0
    else if items[|items| - 1].organizationType == venueType then items[|items| - 1].count
    else CountFor(items[..|items| - 1], venueType)
  }

  /** No entry after position `i` is for the type. */
  predicate LastEntryFor(items: seq<DistributionItem>, venueType: string, i: int) {
    && 0 <= i < |items| && items[i].organizationType == venueType
    && forall j :: i < j < |items| ==> items[j].organizationType != venueType
  }

  /** A later entry for the same type overwrites an earlier one: the count is that of the last entry. */
  lemma {:induction false} CountForLastEntry(items: seq<DistributionItem>, venueType: string, i: int)
    requires LastEntryFor(items, venueType, i)
    ensures CountFor(items, venueType) == items[i].count
  {
    var n := |items| - 1;
    if i < n {
      assert items[n].organizationType != venueType;
      assert LastEntryFor(items[..n], venueType, i);
      CountForLastEntry(items[..n], venueType, i);
    }
  }

  /** The reference data for one venue type. */
  datatype VenueTypeMeta = VenueTypeMeta(venueType: string, id: string, title: string, description: string)

  /** A count cell: a number, or the dash shown while the query is busy. */
  datatype CountCell = Count(n: int) | Dash

  datatype VenueEntry = VenueEntry(id: string, title: string, count: CountCell, description: string)

  /** The `distribution` list: one entry per venue type of the reference data, in order. */
  function Distribution(venueTypes: seq<VenueTypeMeta>, items: Option<seq<DistributionItem>>, isBusy: bool): (r: seq<VenueEntry>)
    ensures |r| == |venueTypes|
    ensures forall i :: 0 <= i < |r| ==>
      && r[i].id == venueTypes[i].id && r[i].title == venueTypes[i].title
      && r[i].description == venueTypes[i].description
      && (isBusy ==> r[i].count == Dash)
      && (!isBusy ==> r[i].count == Count(CountFor(items.GetOr([]), venueTypes[i].venueType)))
  {
    seq(|venueTypes|, i requires 0 <= i < |venueTypes| =>
      var m := venueTypes[i];
      VenueEntry(m.id, m.title, if isBusy then Dash else Count(CountFor(items.GetOr([]), m.venueType)), m.description))
  }

  /** Without data, or for a type the server did not report, the count is 0 once the query settles. */
  lemma UnreportedTypeCountsZero(venueTypes: seq<VenueTypeMeta>, items: Option<seq<DistributionItem>>, i: nat)
    requires i < |venueTypes|
    requires items.None? || forall k :: 0 <= k < |items.value| ==> items.value[k].organizationType != venueTypes[i].venueType
    ensures Distribution(venueTypes, items, false)[i].count == Count(0)
  {
  }

  // ----- Summary statistics -----

  datatype Metric = Metric(count: int, change: JsNumber)
  datatype Summary = Summary(total: Metric, active: Metric, hospitals: Metric, otherVenues: Metric)
  datatype StatKind = Total | Active | Hospitals | OtherVenues
  datatype StatItem = StatItem(kind: StatKind, value: int, change: string, note: string)

  function MetricOf(s: Summary, k: StatKind): Metric {
    match k
    case Total => s.total
    case Active => s.active
    case Hospitals => s.hospitals
    case OtherVenues => s.otherVenues
  }

  const StatOrder: seq<StatKind> := [Total, Active, Hospitals, OtherVenues]

  function StatFor(s: Summary, k: StatKind): StatItem {
    StatItem(k, MetricOf(s, k).count, FormatPercentage(MetricOf(s, k).change), "from last week")
  }

  /** The `stats` list: empty without data, otherwise total, active, hospitals and other venues, in that order. */
  function Stats(summary: Option<Summary>): (r: seq<StatItem>)
    ensures summary.None? ==> r == []
    ensures summary.Some? ==> |r| == 4 && forall i :: 0 <= i < 4 ==>
      && r[i].kind == StatOrder[i]
      && r[i].value == MetricOf(summary.value, StatOrder[i]).count
      && r[i].change == FormatPercentage(MetricOf(summary.value, StatOrder[i]).change)
      && r[i].note == "from last week"
  {
    match summary
    case None => []
    case Some(s) => [StatFor(s, Total), StatFor(s, Active), StatFor(s, Hospitals), StatFor(s, OtherVenues)]
  }

  /** Every statistic's change label ends in "%", and a non-finite change shows as "0%". */
  lemma StatChangesArePercentages(s: Summary, i: nat)
    requires i < 4
    ensures var item := Stats(Some(s))[i];
            && item.change[|item.change| - 1] == '%'
            && (!MetricOf(s, item.kind).change.Finite? ==> item.change == "0%")
  {
  }
}
