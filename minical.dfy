/**
 The extension class `Tribe__Extension__Advance_Minical`: it settles on the
 month the mini calendar widget opens on, writes that month into the widget's
 settings, and rewrites the widget's list query so that it covers that month.

 What it reads from its environment comes in as parameters: whether the
 request is an admin one (`is_admin()`), the current month (`date('Y-m')`),
 the month of the next upcoming event if there is one (`tribe_get_events`
 with `tribe_get_start_date`), the last day of a month (`strtotime` with
 `Tribe__Date_Utils::get_last_day_of_month`) and `tribe_end_of_day`.
 */
module Minical {
  import opened Php
  import opened DateShape
  import opened Hooks

  const MiniCalendarIdBase := "tribe-mini-calendar"
  const ListTemplate := "mini-calendar/list.php"
  const EventDateKey := "eventDate"
  const StartDateKey := "start_date"
  const EndDateKey := "end_date"

  // ---------------------------------------------------------------------------
  // Target date: next_upcoming_date and set_target_date

  /**
   `next_upcoming_date`: the next event's month when it is later than the
   current month, otherwise the current month, so that an event already under
   way does not rewind the calendar. The result is the later of the two.
   */
  function NextUpcomingDate(currentMonth: string, nextEventMonth: Option<string>): (r: string)
    ensures r == currentMonth || (nextEventMonth.Some? && r == nextEventMonth.value)
    ensures nextEventMonth.None? ==> r == currentMonth
    ensures !StrLess(r, currentMonth)
    ensures nextEventMonth.Some? ==> !StrLess(r, nextEventMonth.value)
  {
    match nextEventMonth
    case None =>
      StrLessIrreflexive(currentMonth);
      currentMonth
    case Some(next) =>
      StrLessIrreflexive(currentMonth);
      StrLessIrreflexive(next);
      StrLessAsymmetric(currentMonth, next);
      if StrLess(currentMonth, next) then next else currentMonth
  }

  /** The check `set_target_date` makes: a string of the `YYYY-MM[-DD]` shape. */
  function IsTargetShaped(target: Value): (r: bool)
    ensures !target.Str? ==> !r
    ensures r ==> |target.s| == 7 || |target.s| == 8 || |target.s| == 10 || |target.s| == 11
    ensures target.Str? && (MonthForm(target.s) || DayForm(target.s)) ==> r
  {
    target.Str? && MatchesTargetShape(target.s)
  }

  /** The target date `set_target_date` leaves behind. */
  function ResolvedTarget(target: Value, currentMonth: string, nextEventMonth: Option<string>): (r: Value)
    ensures r.Str?
    ensures IsTargetShaped(target) ==> r == target
    ensures r != target ==> !StrLess(r.s, currentMonth)
  {
    if IsTargetShaped(target) then target
    else Str(NextUpcomingDate(currentMonth, nextEventMonth))
  }

  /** The months `date('Y-m')` and `tribe_get_start_date(..., 'Y-m')` hand over. */
  predicate MonthInputs(currentMonth: string, nextEventMonth: Option<string>)
  {
    MonthForm(currentMonth) && (nextEventMonth.Some? ==> MonthForm(nextEventMonth.value))
  }

  /**
   With months as `date` prints them, `set_target_date` leaves the target
   alone exactly when it is a string of the expected shape.
   */
  lemma ResolvedTargetKeepsExactlyShaped(target: Value, currentMonth: string, nextEventMonth: Option<string>)
    requires MonthInputs(currentMonth, nextEventMonth)
    ensures ResolvedTarget(target, currentMonth, nextEventMonth) == target <==> IsTargetShaped(target)
  {
  }

  /** Running `set_target_date` a second time changes nothing. */
  lemma ResolvedTargetIdempotent(target: Value, currentMonth: string, nextEventMonth: Option<string>)
    ensures var once := ResolvedTarget(target, currentMonth, nextEventMonth);
            ResolvedTarget(once, currentMonth, nextEventMonth) == once
  {
  }

  /** The test is on shape only: a month 13 or a day 31 in February is kept. */
  lemma OutOfRangeTargetsKept(currentMonth: string, nextEventMonth: Option<string>)
    ensures ResolvedTarget(Str("2018-13"), currentMonth, nextEventMonth) == Str("2018-13")
    ensures ResolvedTarget(Str("2018-02-31"), currentMonth, nextEventMonth) == Str("2018-02-31")
  {
    assert MonthForm("2018-13");
    assert "2018-02-31"[..7] == "2018-02";
    assert DayForm("2018-02-31");
  }

  /** `$` also matches before a final line feed, so a target ending in one is kept too. */
  lemma TrailingNewlineTargetKept(currentMonth: string, nextEventMonth: Option<string>)
    ensures ResolvedTarget(Str("2018-05\n"), currentMonth, nextEventMonth) == Str("2018-05\n")
  {
  }

  /** Anything else is replaced by the next upcoming month: a non-string, a short month, a trailing blank. */
  lemma MisshapenTargetsReplaced(currentMonth: string, nextEventMonth: Option<string>)
    ensures ResolvedTarget(Bool(false), currentMonth, nextEventMonth) == Str(NextUpcomingDate(currentMonth, nextEventMonth))
    ensures ResolvedTarget(Str("2018-5"), currentMonth, nextEventMonth) == Str(NextUpcomingDate(currentMonth, nextEventMonth))
    ensures ResolvedTarget(Str("2018-05 "), currentMonth, nextEventMonth) == Str(NextUpcomingDate(currentMonth, nextEventMonth))
    ensures ResolvedTarget(Str("18-05-01"), currentMonth, nextEventMonth) == Str(NextUpcomingDate(currentMonth, nextEventMonth))
  {
  }

  /**
   Since both months are `YYYY-MM` strings, the string comparison in
   `next_upcoming_date` picks the chronologically later month.
   */
  lemma NextUpcomingIsLaterMonth(y: nat, m: nat, ny: nat, nm: nat)
    requires y < 10000 && m < 100 && ny < 10000 && nm < 100
    ensures NextUpcomingDate(FormatMonth(y, m), Some(FormatMonth(ny, nm)))
            == if ny > y || (ny == y && nm > m) then FormatMonth(ny, nm) else FormatMonth(y, m)
  {
    MonthOrderIsChronological(y, m, ny, nm);
  }

  // ---------------------------------------------------------------------------
  // Widget filter: advance_minical

  /**
   The `$instance` that `widget_display_callback` passes on: the widget's
   settings array, or `false` when an earlier filter suppressed the widget.
   */
  datatype Instance = Suppressed | Settings(entries: map<string, Value>)

  /** The entries PHP sees when it indexes the instance: none at all for `false`. */
  function Entries(instance: Instance): (r: map<string, Value>)
    ensures instance.Suppressed? ==> r == map[]
    ensures instance.Settings? ==> r == instance.entries
  {
    if instance.Settings? then instance.entries else map[]
  }

  /**
   When `advance_minical` alters the instance: the mini calendar without an
   `eventDate`, and a target other than this month.
   */
  function Advances(instance: Instance, widgetIdBase: string, currentMonth: string, target: Value): (r: bool)
    ensures widgetIdBase != MiniCalendarIdBase ==> !r
    ensures IsSet(Entries(instance), EventDateKey) ==> !r
    ensures target == Str(currentMonth) ==> !r
    ensures widgetIdBase == MiniCalendarIdBase && !IsSet(Entries(instance), EventDateKey) && target != Str(currentMonth) ==> r
  {
    widgetIdBase == MiniCalendarIdBase && !IsSet(Entries(instance), EventDateKey) && Str(currentMonth) != target
  }

  /**
   The settings `advance_minical` returns. Writing a key into `false` makes
   PHP turn it into an array holding only that key.
   */
  function AdvancedInstance(instance: Instance, widgetIdBase: string, currentMonth: string, target: Value)
    : (r: Instance)
    ensures !Advances(instance, widgetIdBase, currentMonth, target) ==> r == instance
    ensures Advances(instance, widgetIdBase, currentMonth, target) ==>
              r.Settings? && r.entries.Keys == Entries(instance).Keys + {EventDateKey} && r.entries[EventDateKey] == target
    ensures forall k :: k in Entries(instance) && k != EventDateKey ==> k in Entries(r) && Entries(r)[k] == Entries(instance)[k]
  {
    if Advances(instance, widgetIdBase, currentMonth, target)
    then Settings(Entries(instance)[EventDateKey := target])
    else instance
  }

  /**
   A mini calendar that an earlier filter suppressed comes back, with
   `eventDate` as its only setting, whenever the target is not this month.
   */
  lemma SuppressedWidgetRevived(currentMonth: string, target: Value)
    requires target != Str(currentMonth)
    ensures AdvancedInstance(Suppressed, MiniCalendarIdBase, currentMonth, target) == Settings(map[EventDateKey := target])
  {
  }

  /** Filtering the settings a second time changes nothing further. */
  lemma AdvancedInstanceIdempotent(instance: Instance, widgetIdBase: string, currentMonth: string, target: Value)
    ensures var once := AdvancedInstance(instance, widgetIdBase, currentMonth, target);
            AdvancedInstance(once, widgetIdBase, currentMonth, target) == once
  {
  }

  // ---------------------------------------------------------------------------
  // Template gate: modify_list_query

  /** The `strpos` test of `modify_list_query`: the template path contains `mini-calendar/list.php`. */
  function IsListTemplate(template: string): (r: bool)
    ensures r <==> exists j :: OccursAt(template, ListTemplate, j)
  {
    StrPos(template, ListTemplate).Some?
  }

  // ---------------------------------------------------------------------------
  // Month range: amend_list_query

  /** `$this->target_date . '-01'`. */
  function StartDate(target: Value): (r: string)
    ensures |r| == |ToPhpString(target)| + 3
    ensures r[..|ToPhpString(target)|] == ToPhpString(target) && r[|ToPhpString(target)|..] == "-01"
  {
    ToPhpString(target) + "-01"
  }

  /** `substr_replace( $start_date, $last_day, -2 )`: the end date before `tribe_end_of_day`. */
  function EndDateBeforeEndOfDay(startDate: string, lastDay: string): (r: string)
    ensures |startDate| >= 2 ==> |r| == |startDate| - 2 + |lastDay|
    ensures |startDate| >= 2 ==> r[..|startDate| - 2] == startDate[..|startDate| - 2] && r[|startDate| - 2..] == lastDay
    ensures |startDate| < 2 ==> r == lastDay
  {
    SubstrReplace(startDate, lastDay, -2)
  }

  /** The end date before `tribe_end_of_day` is the target, a dash, and the last day. */
  lemma EndDateIsTargetAndLastDay(target: Value, lastDay: string)
    ensures EndDateBeforeEndOfDay(StartDate(target), lastDay) == ToPhpString(target) + "-" + lastDay
  {
  }

  /**
   For a `YYYY-MM` target and a two-character last day, the start and end date
   agree on `YYYY-MM-` and both are ten characters long.
   */
  lemma EndDateSharesMonth(target: string, lastDay: string)
    requires MonthForm(target) && |lastDay| == 2
    ensures var start := StartDate(Str(target));
            var end := EndDateBeforeEndOfDay(start, lastDay);
            |start| == 10 && |end| == 10 && end[..8] == start[..8] == target + "-" && end[8..] == lastDay
  {
  }

  /**
   For a month printed by `date('Y-m')` the query covers that month: it starts
   on day 01 and ends on the given last day, both printed as `date('Y-m-d')`
   would, and both pass the target shape test.
   */
  lemma MonthRangeOfFormattedTarget(y: nat, m: nat, lastDay: nat)
    requires y < 10000 && m < 100 && lastDay < 100
    ensures StartDate(Str(FormatMonth(y, m))) == FormatDay(y, m, 1)
    ensures EndDateBeforeEndOfDay(StartDate(Str(FormatMonth(y, m))), Pad(lastDay, 2)) == FormatDay(y, m, lastDay)
    ensures MatchesTargetShape(FormatDay(y, m, 1)) && MatchesTargetShape(FormatDay(y, m, lastDay))
  {
  }

  /**
   A `YYYY-MM-DD` target passes the shape test too, but then the start date
   is that day with `-01` appended, and the end date keeps the day as well.
   */
  lemma DayTargetRange(target: string, lastDay: string)
    requires DayForm(target)
    ensures StartDate(Str(target)) == target + "-01"
    ensures EndDateBeforeEndOfDay(StartDate(Str(target)), lastDay) == target + "-" + lastDay
    ensures !MatchesTargetShape(StartDate(Str(target)))
  {
    EndDateIsTargetAndLastDay(Str(target), lastDay);
  }

  /** The query variables `amend_list_query` leaves behind. */
  function AmendedQueryVars(vars: map<string, Value>, target: Value, lastDayOf: string -> string, endOfDay: string -> string)
    : (r: map<string, Value>)
    ensures r.Keys == vars.Keys + {StartDateKey, EndDateKey}
    ensures r[StartDateKey] == Str(StartDate(target))
    ensures r[EndDateKey] == Str(endOfDay(EndDateBeforeEndOfDay(StartDate(target), lastDayOf(StartDate(target)))))
    ensures forall k :: k in vars && k != StartDateKey && k != EndDateKey ==> k in r && r[k] == vars[k]
  {
    var start := StartDate(target);
    var withStart := vars[StartDateKey := Str(start)];
    withStart[EndDateKey := Str(endOfDay(EndDateBeforeEndOfDay(start, lastDayOf(start))))]
  }

  /** The rewrite depends only on the target, so applying it twice is as applying it once. */
  lemma AmendedQueryVarsIdempotent(vars: map<string, Value>, target: Value, lastDayOf: string -> string, endOfDay: string -> string)
    ensures var once := AmendedQueryVars(vars, target, lastDayOf, endOfDay);
            AmendedQueryVars(once, target, lastDayOf, endOfDay) == once
  {
  }

  // ---------------------------------------------------------------------------
  // The objects

  /** The `WP_Query` whose `query_vars` the extension overwrites. */
  class Query {
    var queryVars: map<string, Value>

    constructor (vars: map<string, Value>)
      ensures queryVars == vars
    {
      queryVars := vars;
    }
  }

  /** `Tribe__Extension__Advance_Minical`, with its single field `target_date`. */
  class Extension {
    var targetDate: Value

    /** `protected $target_date = false`. */
    constructor ()
      ensures targetDate == Bool(false)
    {
      targetDate := Bool(false);
    }

    /**
     `init`: nothing in an admin request; otherwise stores the target date
     and hooks `set_target_date` on `wp_loaded` and `advance_minical` on
     `widget_display_callback`.
     */
    method Init(wp: Registry, isAdmin: bool, target: Value)
      modifies this, wp
      ensures isAdmin ==> targetDate == old(targetDate) && wp.entries == old(wp.entries)
      ensures !isAdmin ==> targetDate == target
      ensures !isAdmin ==>
                wp.entries == old(wp.entries) + {Registration(WpLoaded, Callback.SetTargetDate), Registration(WidgetDisplayCallback, Callback.AdvanceMinical)}
    {
      if isAdmin {
        return;
      }
      targetDate := target;
      wp.Add(WpLoaded, Callback.SetTargetDate);
      wp.Add(WidgetDisplayCallback, Callback.AdvanceMinical);
    }

    /** `set_target_date`: keeps a well-shaped target, otherwise takes `next_upcoming_date`. */
    method SetTargetDate(currentMonth: string, nextEventMonth: Option<string>)
      modifies this
      ensures targetDate == ResolvedTarget(old(targetDate), currentMonth, nextEventMonth)
      ensures IsTargetShaped(old(targetDate)) ==> targetDate == old(targetDate)
      ensures !IsTargetShaped(old(targetDate)) ==> targetDate == Str(NextUpcomingDate(currentMonth, nextEventMonth))
    {
      if !IsTargetShaped(targetDate) {
        targetDate := Str(NextUpcomingDate(currentMonth, nextEventMonth));
      }
    }

    /**
     `advance_minical`: the filtered settings, and `modify_list_query` hooked
     on `tribe_before_get_template_part` exactly when `Advances` holds.
     */
    method AdvanceMinical(wp: Registry, instance: Instance, widgetIdBase: string, currentMonth: string)
      returns (r: Instance)
      modifies wp
      ensures r == AdvancedInstance(instance, widgetIdBase, currentMonth, targetDate)
      ensures wp.entries == old(wp.entries)
                + (if Advances(instance, widgetIdBase, currentMonth, targetDate)
                   then {Registration(BeforeGetTemplatePart, Callback.ModifyListQuery)} else {})
    {
      if widgetIdBase != MiniCalendarIdBase || IsSet(Entries(instance), EventDateKey) {
        return instance;
      }
      if Str(currentMonth) == targetDate {
        return instance;
      }
      wp.Add(BeforeGetTemplatePart, Callback.ModifyListQuery);
      r := Settings(Entries(instance)[EventDateKey := targetDate]);
    }

    /** `modify_list_query`: hooks `amend_list_query` on `parse_query` only for the mini calendar's list template. */
    method ModifyListQuery(wp: Registry, template: string)
      modifies wp
      ensures wp.entries == old(wp.entries)
                + (if IsListTemplate(template) then {Registration(ParseQuery, Callback.AmendListQuery)} else {})
    {
      if StrPos(template, ListTemplate).None? {
        return;
      }
      wp.Add(ParseQuery, Callback.AmendListQuery);
    }

    /**
     `amend_list_query`: unhooks itself from `parse_query`, then sets the
     query's `start_date` and `end_date` to the target month's range.
     */
    method AmendListQuery(wp: Registry, query: Query, lastDayOf: string -> string, endOfDay: string -> string)
      modifies wp, query
      ensures wp.entries == old(wp.entries) - {Registration(ParseQuery, Callback.AmendListQuery)}
      ensures query.queryVars == AmendedQueryVars(old(query.queryVars), targetDate, lastDayOf, endOfDay)
    {
      wp.Remove(ParseQuery, Callback.AmendListQuery);
      var theQuery := query.queryVars;
      theQuery := theQuery[StartDateKey := Str(ToPhpString(targetDate) + "-01")];
      var lastDay := lastDayOf(theQuery[StartDateKey].s);
      theQuery := theQuery[EndDateKey := Str(SubstrReplace(theQuery[StartDateKey].s, lastDay, -2))];
      theQuery := theQuery[EndDateKey := Str(endOfDay(theQuery[EndDateKey].s))];
      query.queryVars := theQuery;
    }

    /**
     `parse_query` firing, as far as this extension's callback goes: the
     query is amended if `amend_list_query` is hooked, and since that unhooks
     it, a later firing leaves the next query alone.
     */
    method FireParseQuery(wp: Registry, query: Query, lastDayOf: string -> string, endOfDay: string -> string)
      modifies wp, query
      ensures wp.entries == old(wp.entries) - {Registration(ParseQuery, Callback.AmendListQuery)}
      ensures Registration(ParseQuery, Callback.AmendListQuery) in old(wp.entries) ==>
                query.queryVars == AmendedQueryVars(old(query.queryVars), targetDate, lastDayOf, endOfDay)
      ensures Registration(ParseQuery, Callback.AmendListQuery) !in old(wp.entries) ==>
                query.queryVars == old(query.queryVars)
    {
      if wp.IsRegistered(ParseQuery, Callback.AmendListQuery) {
        AmendListQuery(wp, query, lastDayOf, endOfDay);
      }
    }

    /** The list query is amended on the first `parse_query` after the gate opens, and not on the next one. */
    method AmendsOnce(wp: Registry, template: string, first: Query, second: Query,
                      lastDayOf: string -> string, endOfDay: string -> string)
      requires first != second
      modifies wp, first, second
      ensures IsListTemplate(template) ==>
                first.queryVars == AmendedQueryVars(old(first.queryVars), targetDate, lastDayOf, endOfDay)
      ensures second.queryVars == old(second.queryVars)
    {
      ModifyListQuery(wp, template);
      FireParseQuery(wp, first, lastDayOf, endOfDay);
      FireParseQuery(wp, second, lastDayOf, endOfDay);
    }
  }
}
