/**
 * The first development version of the bot: every deal is one JSON record
 * appended to a list by the `!sold` command. Leaderboards cut the list to a
 * day, a Monday-start week or a month of local time, group it by closer or
 * by setter, and split it into solar-plus-battery and battery-only deals;
 * `!mystats` counts the deals a user closed or set.
 *
 * The JSON file, the clock and the chat platform are parameters: records
 * are values whose optional fields mirror keys that may be missing, the
 * caller passes the current time as an ISO string, the ISO parser and the
 * float parser as partial functions, and the conversion of a local
 * midnight to UTC as a function.
 */
module SolarDealTrackerDev {
  import opened Wrappers
  import opened Text
  import opened Lists
  import Sorting
  import opened Grouping
  import Calendar

  /** The `kw` entry of a record: absent or null, a number, or a string. */
  datatype KwField = Missing | Number(value: real) | KwText(text: string)

  /** One record of the deals file; `None` stands for a key that is absent or null. */
  datatype Deal = Deal(
    id: int,
    timestamp: Option<string>,
    closer: Option<string>,
    setter: Option<string>,
    kw: KwField,
    dealType: Option<string>,
    customer: string,
    channelId: int,
    guildId: Option<int>)

  const BatteryOnly: string := "battery_only"
  const SolarBattery: string := "solar_battery"

  // ---------------------------------------------------------------------
  // Deal types
  // ---------------------------------------------------------------------

  /** `_deal_type`: a deal without solar panels is one of exactly zero kW. */
  function DealType(kw: real): (t: string)
    ensures t == BatteryOnly <==> kw == 0.0
    ensures t == BatteryOnly || t == SolarBattery
  {
    if kw == 0.0 then BatteryOnly else SolarBattery
  }

  /**
   * `float(d.get("kw") or 0.0)`: a missing, null, zero or empty entry reads
   * as 0.0, a number as itself and any other string as `parseFloat` reads
   * it; `None` when `float` raises.
   */
  function KwNumber(kw: KwField, parseFloat: string -> Option<real>): Option<real> {
    match kw
    case Missing => Some(0.0)
    case Number(x) => Some(x)
    case KwText(t) => if t == [] then Some(0.0) else parseFloat(t)
  }

  /**
   * The type a record is counted under: the stored `deal_type` when there
   * is one, otherwise the type its kW gives; `None` when that kW cannot be
   * read, where the loops of `_count_by_type` and `_split_deals_by_type` raise.
   */
  function TypeOf(d: Deal, parseFloat: string -> Option<real>): (r: Option<string>)
    ensures d.dealType.Some? ==> r == d.dealType
    ensures d.dealType.None? ==> (r.Some? <==> KwNumber(d.kw, parseFloat).Some?)
    ensures d.dealType.None? ==> (r == Some(BatteryOnly) <==> KwNumber(d.kw, parseFloat) == Some(0.0))
  {
    match d.dealType
    case Some(t) => Some(t)
    case None =>
      match KwNumber(d.kw, parseFloat)
      case None => None
      case Some(kw) => Some(DealType(kw))
  }

  function IsBattery(parseFloat: string -> Option<real>): Deal -> bool {
    (d: Deal) => TypeOf(d, parseFloat) == Some(BatteryOnly)
  }

  /** Every record whose type is not `"battery_only"` counts as solar plus battery, whatever else its type says. */
  function IsSolar(parseFloat: string -> Option<real>): Deal -> bool {
    (d: Deal) => TypeOf(d, parseFloat) != Some(BatteryOnly)
  }

  /** Every record lands in exactly one of the two types, so the two lists add up to the input. */
  lemma TypePartition(deals: seq<Deal>, parseFloat: string -> Option<real>)
    ensures |Where(deals, IsSolar(parseFloat))| + |Where(deals, IsBattery(parseFloat))| == |deals|
    ensures multiset(Where(deals, IsSolar(parseFloat))) + multiset(Where(deals, IsBattery(parseFloat))) == multiset(deals)
  {
    WherePartition(deals, IsSolar(parseFloat), IsBattery(parseFloat));
  }

  /** Every record's type can be worked out. */
  predicate AllTyped(deals: seq<Deal>, parseFloat: string -> Option<real>) {
    forall i :: 0 <= i < |deals| ==> TypeOf(deals[i], parseFloat).Some?
  }

  /**
   * `_count_by_type`: the number of solar-plus-battery and of battery-only
   * records, or `None` when some record's type cannot be worked out.
   */
  method CountByType(deals: seq<Deal>, parseFloat: string -> Option<real>) returns (r: Option<(nat, nat)>)
    ensures r.None? <==> !AllTyped(deals, parseFloat)
    ensures r.Some? ==> r.value == (|Where(deals, IsSolar(parseFloat))|, |Where(deals, IsBattery(parseFloat))|)
  {
    var solar, battery := 0, 0;
    for i := 0 to |deals|
      invariant AllTyped(deals[..i], parseFloat)
      invariant solar == |Where(deals[..i], IsSolar(parseFloat))|
      invariant battery == |Where(deals[..i], IsBattery(parseFloat))|
    {
      var d := deals[i];
      var dtype := TypeOf(d, parseFloat);
      PrefixStep(deals, i, parseFloat);
      if dtype.None? {
        assert !AllTyped(deals, parseFloat) by { assert TypeOf(deals[i], parseFloat).None?; }
        return None;
      }
      if dtype.value == BatteryOnly {
        battery := battery + 1;
      } else {
        solar := solar + 1;
      }
    }
    assert deals[..|deals|] == deals;
    r := Some((solar, battery));
  }

  /**
   * `_split_deals_by_type`: the solar-plus-battery records and the
   * battery-only records, each list in the input's order, or `None` when
   * some record's type cannot be worked out.
   */
  method SplitByType(deals: seq<Deal>, parseFloat: string -> Option<real>) returns (r: Option<(seq<Deal>, seq<Deal>)>)
    ensures r.None? <==> !AllTyped(deals, parseFloat)
    ensures r.Some? ==> r.value == (Where(deals, IsSolar(parseFloat)), Where(deals, IsBattery(parseFloat)))
  {
    var solar, battery := [], [];
    for i := 0 to |deals|
      invariant AllTyped(deals[..i], parseFloat)
      invariant solar == Where(deals[..i], IsSolar(parseFloat))
      invariant battery == Where(deals[..i], IsBattery(parseFloat))
    {
      var d := deals[i];
      var dtype := TypeOf(d, parseFloat);
      PrefixStep(deals, i, parseFloat);
      if dtype.None? {
        assert !AllTyped(deals, parseFloat) by { assert TypeOf(deals[i], parseFloat).None?; }
        return None;
      }
      if dtype.value == BatteryOnly {
        battery := battery + [d];
      } else {
        solar := solar + [d];
      }
    }
    assert deals[..|deals|] == deals;
    r := Some((solar, battery));
  }

  /** Walking one record further: it must be typed, and it joins the list of its type. */
  lemma PrefixStep(deals: seq<Deal>, i: nat, parseFloat: string -> Option<real>)
    requires i < |deals|
    ensures AllTyped(deals[..i + 1], parseFloat) <==> AllTyped(deals[..i], parseFloat) && TypeOf(deals[i], parseFloat).Some?
    ensures Where(deals[..i + 1], IsSolar(parseFloat)) ==
      Where(deals[..i], IsSolar(parseFloat)) + (if TypeOf(deals[i], parseFloat) != Some(BatteryOnly) then [deals[i]] else [])
    ensures Where(deals[..i + 1], IsBattery(parseFloat)) ==
      Where(deals[..i], IsBattery(parseFloat)) + (if TypeOf(deals[i], parseFloat) == Some(BatteryOnly) then [deals[i]] else [])
  {
    assert deals[..i + 1] == deals[..i] + [deals[i]];
    SplitStep(deals[..i], deals[i], parseFloat);
  }

  /** One more record goes to the end of the list of its type and leaves the other list alone. */
  lemma SplitStep(prefix: seq<Deal>, d: Deal, parseFloat: string -> Option<real>)
    ensures Where(prefix + [d], IsSolar(parseFloat)) ==
      Where(prefix, IsSolar(parseFloat)) + (if TypeOf(d, parseFloat) != Some(BatteryOnly) then [d] else [])
    ensures Where(prefix + [d], IsBattery(parseFloat)) ==
      Where(prefix, IsBattery(parseFloat)) + (if TypeOf(d, parseFloat) == Some(BatteryOnly) then [d] else [])
  {
    WhereSnoc(prefix, d, IsSolar(parseFloat));
    WhereSnoc(prefix, d, IsBattery(parseFloat));
  }

  /** The counts `_count_by_type` reports are the lengths of the lists `_split_deals_by_type` returns, and they add up to the number of records. */
  lemma CountIsSplit(deals: seq<Deal>, parseFloat: string -> Option<real>, counts: (nat, nat), lists: (seq<Deal>, seq<Deal>))
    requires counts == (|Where(deals, IsSolar(parseFloat))|, |Where(deals, IsBattery(parseFloat))|)
    requires lists == (Where(deals, IsSolar(parseFloat)), Where(deals, IsBattery(parseFloat)))
    ensures counts.0 == |lists.0| && counts.1 == |lists.1|
    ensures counts.0 + counts.1 == |deals|
  {
    TypePartition(deals, parseFloat);
  }

  // ---------------------------------------------------------------------
  // Per-person leaderboards
  // ---------------------------------------------------------------------

  /** Which field `_aggregate_by_person` groups by: `"closer"` or `"setter"`. */
  datatype Role = CloserRole | SetterRole

  function PersonOf(d: Deal, role: Role): Option<string> {
    match role
    case CloserRole => d.closer
    case SetterRole => d.setter
  }

  /** The group of a record: the person's name exactly as stored; a missing or empty name has none. */
  function PersonKey(role: Role): Deal -> Option<string> {
    (d: Deal) => if PersonOf(d, role) == Some([]) then None else PersonOf(d, role)
  }

  function PersonName(role: Role): Deal -> string {
    (d: Deal) => PersonOf(d, role).GetOr([])
  }

  function HasPerson(role: Role): Deal -> bool {
    (d: Deal) => PersonOf(d, role).Some? && PersonOf(d, role).value != []
  }

  /** A record's kW on the leaderboard: what `float` reads, and 0.0 where it raises. */
  function BoardKw(parseFloat: string -> Option<real>): Deal -> real {
    (d: Deal) => KwNumber(d.kw, parseFloat).GetOr(0.0)
  }

  /** The leaderboard order: more deals first, then names in order ignoring case. */
  predicate ByDealsThenName(a: Row<string>, b: Row<string>) {
    a.deals > b.deals || (a.deals == b.deals && StrLe(Lower(a.name), Lower(b.name)))
  }

  lemma ByDealsThenNamePreorder(rows: seq<Row<string>>)
    ensures Sorting.TotalPreorderOn(rows, ByDealsThenName)
  {
    forall a, b | a in rows && b in rows
      ensures ByDealsThenName(a, b) || ByDealsThenName(b, a)
    {
      StrLeTotal(Lower(a.name), Lower(b.name));
    }
    forall a, b, c | a in rows && b in rows && c in rows && ByDealsThenName(a, b) && ByDealsThenName(b, c)
      ensures ByDealsThenName(a, c)
    {
      if a.deals == b.deals && b.deals == c.deals {
        StrLeTrans(Lower(a.name), Lower(b.name), Lower(c.name));
      }
    }
  }

  /** A group is named after its key: every record in it carries that name. */
  lemma {:induction false} NameIsKey(deals: seq<Deal>, role: Role, k: string)
    requires CountIn(deals, PersonKey(role), k) > 0
    ensures FirstName(deals, PersonKey(role), PersonName(role), k) == k
  {
    var init := deals[..|deals| - 1];
    if CountIn(init, PersonKey(role), k) > 0 {
      NameIsKey(init, role, k);
    }
  }

  /**
   * `_aggregate_by_person` (and `_aggregate_by_closer`,
   * `_aggregate_by_setter`): one row per person named on at least one
   * record, holding that name, the number of their records and the kW
   * total; records without the name are skipped; the counts add up to the
   * records kept; rows ordered by deals descending, then by lower-cased
   * name.
   */
  method AggregateByPerson(deals: seq<Deal>, role: Role, parseFloat: string -> Option<real>) returns (rows: seq<Row<string>>)
    ensures DistinctKeys(rows)
    ensures forall k :: Lookup(rows, k) == Expected(deals, PersonKey(role), PersonName(role), BoardKw(parseFloat), k)
    ensures forall k :: Lookup(rows, k).Some? ==> Lookup(rows, k).value.name == k
    ensures TotalDeals(rows) == |Where(deals, HasPerson(role))|
    ensures Sorting.Sorted(rows, ByDealsThenName)
  {
    var counts := Group(deals, PersonKey(role), PersonName(role), BoardKw(parseFloat));
    GroupedIsWhere(deals, PersonKey(role), HasPerson(role));
    SortKeepsRows(counts, ByDealsThenName);
    ByDealsThenNamePreorder(counts);
    Sorting.SortSorted(counts, ByDealsThenName);
    rows := Sorting.Sort(counts, ByDealsThenName);
    forall k | Lookup(rows, k).Some? ensures Lookup(rows, k).value.name == k {
      NameIsKey(deals, role, k);
    }
  }

  /** No row is keyed by the empty name. */
  lemma EmptyNameSkipped(deals: seq<Deal>, role: Role, parseFloat: string -> Option<real>)
    ensures Expected(deals, PersonKey(role), PersonName(role), BoardKw(parseFloat), []) == None
  {
    OutsideGroupCountsNothing(deals, PersonKey(role), []);
  }

  // ---------------------------------------------------------------------
  // Periods
  // ---------------------------------------------------------------------

  /** The kinds `_period_bounds` knows, compared lower-cased; any other raises. */
  function PeriodKind(kind: string): Option<Calendar.Kind> {
    var k := Lower(kind);
    if k == "day" then Some(Calendar.Day)
    else if k == "week" then Some(Calendar.Week)
    else if k == "month" then Some(Calendar.Month)
    else None
  }

  function PeriodTitle(k: Calendar.Kind): string {
    match k
    case Day => "Daily Blitz Scoreboard"
    case Week => "Weekly Blitz Scoreboard"
    case Month => "Monthly Blitz Scoreboard"
  }

  /**
   * `_period_bounds`: the local period of kind `kind` around the local date
   * `d`, as a half-open range of local midnights, each turned into UTC by
   * `toUtc`; `None` for a kind other than day, week or month, where the
   * source raises `ValueError`.
   */
  function PeriodBounds(kind: string, d: Calendar.Date, toUtc: Calendar.Date -> Calendar.Instant): (w: Option<Calendar.Window>)
    requires Calendar.Valid(d)
    ensures w.None? <==> Lower(kind) !in {"day", "week", "month"}
    ensures w.Some? ==> Calendar.Valid(w.value.startLocal) && Calendar.Valid(w.value.endLocal)
    ensures w.Some? ==> Calendar.InPeriod(d, Calendar.Period(w.value.startLocal, w.value.endLocal))
    ensures w.Some? ==> w.value.startUtc == toUtc(w.value.startLocal) && w.value.endUtc == toUtc(w.value.endLocal)
  {
    match PeriodKind(kind)
    case None => None
    case Some(k) =>
      var p := Calendar.Bounds(k, d);
      Some(Calendar.Window(toUtc(p.start), toUtc(p.end), p.start, p.end, PeriodTitle(k)))
  }

  /**
   * A day is `[d, d+1)`; a week runs from the Monday on or before `d` for
   * seven days; a month from its first day to the first day of the next,
   * December rolling into January of the next year.
   */
  lemma PeriodBoundsByKind(kind: string, d: Calendar.Date, toUtc: Calendar.Date -> Calendar.Instant)
    requires Calendar.Valid(d)
    ensures var w := PeriodBounds(kind, d, toUtc); var k := Lower(kind);
      && (k == "day" ==>
            w.value.startLocal == d && Calendar.Ordinal(w.value.endLocal) == Calendar.Ordinal(d) + 1)
      && (k == "week" ==>
            && Calendar.Weekday(w.value.startLocal) == 0
            && Calendar.Ordinal(d) - 6 <= Calendar.Ordinal(w.value.startLocal) <= Calendar.Ordinal(d)
            && Calendar.Ordinal(w.value.endLocal) == Calendar.Ordinal(w.value.startLocal) + 7)
      && (k == "month" ==>
            && w.value.startLocal == Calendar.Date(d.year, d.month, 1)
            && w.value.endLocal == (if d.month == 12 then Calendar.Date(d.year + 1, 1, 1) else Calendar.Date(d.year, d.month + 1, 1)))
  {
    Calendar.DayBounds(d);
    Calendar.WeekBounds(d);
    Calendar.MonthBounds(d);
  }

  /** What `_filter_deals_by_period` keeps: a record whose timestamp is present, parses, and lies in `[startUtc, endUtc)`. */
  function Stamped(startUtc: Calendar.Instant, endUtc: Calendar.Instant, parse: string -> Option<Calendar.Instant>): Deal -> bool {
    (d: Deal) =>
      && d.timestamp.Some?
      && d.timestamp.value != []
      && parse(d.timestamp.value).Some?
      && startUtc <= parse(d.timestamp.value).value < endUtc
  }

  /**
   * `_filter_deals_by_period`: the records of the period, in the order of
   * the file, whatever their guild or type; `None` when the kind is not
   * one `_period_bounds` knows.
   */
  method FilterByPeriod(deals: seq<Deal>, kind: string, d: Calendar.Date, toUtc: Calendar.Date -> Calendar.Instant,
                        parse: string -> Option<Calendar.Instant>)
    returns (r: Option<seq<Deal>>)
    requires Calendar.Valid(d)
    ensures r.None? <==> PeriodBounds(kind, d, toUtc).None?
    ensures r.Some? ==> r.value == Where(deals, Stamped(PeriodBounds(kind, d, toUtc).value.startUtc, PeriodBounds(kind, d, toUtc).value.endUtc, parse))
  {
    var bounds := PeriodBounds(kind, d, toUtc);
    if bounds.None? {
      return None;
    }
    var startUtc, endUtc := bounds.value.startUtc, bounds.value.endUtc;
    var filtered := [];
    for i := 0 to |deals|
      invariant filtered == Where(deals[..i], Stamped(startUtc, endUtc, parse))
    {
      var deal := deals[i];
      assert deals[..i + 1][..i] == deals[..i];
      if deal.timestamp.None? || deal.timestamp.value == [] {
        continue;
      }
      var dt := parse(deal.timestamp.value);
      if dt.None? {
        continue;
      }
      if startUtc <= dt.value < endUtc {
        filtered := filtered + [deal];
      }
    }
    assert deals[..|deals|] == deals;
    r := Some(filtered);
  }

  // ---------------------------------------------------------------------
  // !mystats
  // ---------------------------------------------------------------------

  function ClosedBy(user: string): Deal -> bool {
    (d: Deal) => d.closer == Some(user)
  }

  function SetBy(user: string): Deal -> bool {
    (d: Deal) => d.setter == Some(user)
  }

  function ClosedAndSetBy(user: string): Deal -> bool {
    (d: Deal) => d.closer == Some(user) && d.setter == Some(user)
  }

  /** The records `!mystats` counts for the user: those they closed or set. */
  function Mine(user: string): Deal -> bool {
    (d: Deal) => d.closer == Some(user) || d.setter == Some(user)
  }

  /**
   * A record the user both closed and set is counted once: the user's
   * count is their closed records plus their set records, less the
   * records that are both.
   */
  lemma MyDealsCountedOnce(deals: seq<Deal>, user: string)
    ensures |Where(deals, Mine(user))| ==
      |Where(deals, ClosedBy(user))| + |Where(deals, SetBy(user))| - |Where(deals, ClosedAndSetBy(user))|
  {
    WhereEither(deals, ClosedBy(user), SetBy(user), Mine(user), ClosedAndSetBy(user));
  }

  // ---------------------------------------------------------------------
  // The deals file
  // ---------------------------------------------------------------------

  /** The record `sold` builds: kW as given (0.0 when left out) and the type it implies. */
  function NewDeal(id: int, now: string, closer: string, setter: string, kw: Option<real>, customer: string,
                   channelId: int, guildId: Option<int>): Deal
  {
    var k := kw.GetOr(0.0);
    Deal(id, Some(now), Some(closer), Some(setter), Number(k), Some(DealType(k)), customer, channelId, guildId)
  }

  /** A logged deal counts as battery-only exactly when it was logged with zero kW, or without kW. */
  lemma NewDealType(id: int, now: string, closer: string, setter: string, kw: Option<real>, customer: string,
                    channelId: int, guildId: Option<int>, parseFloat: string -> Option<real>)
    ensures IsBattery(parseFloat)(NewDeal(id, now, closer, setter, kw, customer, channelId, guildId)) <==> kw.GetOr(0.0) == 0.0
    ensures BoardKw(parseFloat)(NewDeal(id, now, closer, setter, kw, customer, channelId, guildId)) == kw.GetOr(0.0)
  {
  }

  /** Every record's id is its position in the file, counted from 1. */
  predicate IdsArePositions(deals: seq<Deal>) {
    forall i :: 0 <= i < |deals| ==> deals[i].id == i + 1
  }

  /** With ids numbered by position, no two records share an id. */
  lemma PositionsAreDistinct(deals: seq<Deal>)
    requires IdsArePositions(deals)
    ensures forall i, j :: 0 <= i < j < |deals| ==> deals[i].id != deals[j].id
  {
  }

  /** The list of deals in `data/deals.json`, oldest first. */
  class DealLog {
    var deals: seq<Deal>

    constructor ()
      ensures deals == []
    {
      deals := [];
    }

    /**
     * `sold`: appends one record whose id is the number of records before
     * it plus one; the records already there stay as they were.
     */
    method Sold(now: string, closer: string, setter: string, kw: Option<real>, customer: string,
                channelId: int, guildId: Option<int>) returns (id: int)
      modifies this
      ensures id == |old(deals)| + 1
      ensures deals == old(deals) + [NewDeal(id, now, closer, setter, kw, customer, channelId, guildId)]
      ensures IdsArePositions(old(deals)) ==> IdsArePositions(deals)
    {
      var deal := NewDeal(0, now, closer, setter, kw, customer, channelId, guildId);
      id := |deals| + 1;
      deal := deal.(id := id);
      deals := deals + [deal];
    }
  }
}
