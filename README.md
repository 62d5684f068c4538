# Advance Mini Calendar Widget, modelled in Dafny

The Events Calendar: Advance Mini Calendar Widget is a WordPress extension of
The Events Calendar. Its only class, `Tribe__Extension__Advance_Minical`, makes
the mini calendar widget open on the month of the next upcoming event instead
of the current month. It works in three steps:

- it settles on a target month (`set_target_date`, `next_upcoming_date`);
- it writes that month into the widget's settings as `eventDate` (`advance_minical`);
- when the widget's list template loads, it rewrites the list query's
  `start_date` and `end_date` to cover that month, once (`modify_list_query`,
  `amend_list_query`).

The model has four modules:

- `Php` (php.dfy): the PHP values the class handles (`Value`), `isset`, string
  order (`StrLess`, which is `strcmp` order), `strpos` and `substr_replace`.
- `DateShape` (date_shape.dfy): the shape test of the regular expression
  `#^\d{4}-\d{2}(-\d{2})?$# ` (`MatchesTargetShape`), and zero-padded decimal
  printing as `date('Y-m')` does it (`Pad`, `FormatMonth`, `FormatDay`), with
  the proof that string order on such months is chronological order.
- `Hooks` (hooks.dfy): the hook registry as a class holding a set of
  (hook, callback) registrations.
- `Minical` (minical.dfy): the extension as a class `Extension` with its one
  field `targetDate`, the `WP_Query` as a class `Query` with its `queryVars`,
  and the pure decisions the methods are specified by (`NextUpcomingDate`,
  `ResolvedTarget`, `AdvancedInstance`, `IsListTemplate`, `AmendedQueryVars`).

The class's environment comes in as parameters:

- `isAdmin` stands for `is_admin()`;
- `currentMonth` stands for `date('Y-m')`;
- `nextEventMonth` stands for the month of the next event, `None` when
  `tribe_get_events` finds none;
- the widget's `id_base` is a string;
- `lastDayOf` stands for `Tribe__Date_Utils::get_last_day_of_month(strtotime(...))`;
- `endOfDay` stands for `tribe_end_of_day`.

The last two are uninterpreted functions on strings.

Behaviour of the code that the model keeps and proves:

- The target test looks at shape only. `2018-13` and `2018-02-31` are kept
  (`OutOfRangeTargetsKept`).
- The regular expression has no `D` modifier, so `$` also matches before a final
  line feed, and `"2018-05\n"` is kept (`TrailingNewlineTargetKept`). The blank
  after the closing `#` is a modifier position that PHP skips.
- A `YYYY-MM-DD` target passes the test. The query then starts on
  `YYYY-MM-DD-01`, which is not a date (`DayTargetRange`).
- The settings `advance_minical` receives are an array, or `false` when an
  earlier filter suppressed the widget (`Instance`). `isset` on `false` fails,
  and writing `eventDate` into `false` makes PHP build an array holding only
  that key. So a suppressed mini calendar comes back whenever the target is
  not the current month (`SuppressedWidgetRevived`).
- `advance_minical` compares the target with the current month strictly
  (`===`). A target that is a day of the current month, such as `2018-05-20`
  in May 2018, still advances the widget.

## Model

| member | source | states |
|---|---|---|
| `Minical.NextUpcomingDate` | tribe-ext-advance-mini-calendar.php:165-174 | the result is the current month or the next event's month; it is the current month when no event is found; it is never less than the current month and never less than the next event's month, so it is the later of the two |
| `Minical.ResolvedTarget` | tribe-ext-advance-mini-calendar.php:78-80 | the target afterwards is always a string; a string of the `YYYY-MM[-DD]` shape is kept; a replaced target is never earlier than the current month |
| `Minical.ResolvedTargetKeepsExactlyShaped` | tribe-ext-advance-mini-calendar.php:78-80 | with months as `date('Y-m')` prints them, the target is left unchanged if and only if it is a string of the expected shape |
| `Minical.ResolvedTargetIdempotent` | tribe-ext-advance-mini-calendar.php:76-81 | for every target and every pair of months, running `set_target_date` a second time changes nothing |
| `Minical.IsTargetShaped` | tribe-ext-advance-mini-calendar.php:78 | a value that is not a string never passes; a passing string has 7, 8, 10 or 11 characters; every `YYYY-MM` or `YYYY-MM-DD` string passes |
| `DateShape.MatchesTargetShape` | tribe-ext-advance-mini-calendar.php:78 | the regular expression accepts exactly the strings of 7, 8, 10 or 11 characters with digits at 0-3, a dash at 4 and digits at 5-6; with a dash at 7 and digits at 8-9 when 10 or 11 long; and a final line feed when 8 or 11 long |
| `Minical.OutOfRangeTargetsKept` | tribe-ext-advance-mini-calendar.php:78 | the test is on shape only: `2018-13` and `2018-02-31` are kept |
| `Minical.TrailingNewlineTargetKept` | tribe-ext-advance-mini-calendar.php:78 | `$` without the `D` modifier accepts a final line feed, so `"2018-05\n"` is kept |
| `Minical.MisshapenTargetsReplaced` | tribe-ext-advance-mini-calendar.php:78-80 | `false`, `2018-5`, `"2018-05 "` and `18-05-01` are each replaced by the next upcoming month |
| `Minical.NextUpcomingIsLaterMonth` | tribe-ext-advance-mini-calendar.php:170-171 | for two months printed as `Y-m`, the string comparison picks the chronologically later month |
| `Php.IsSet` | tribe-ext-advance-mini-calendar.php:96 | a missing key or one holding null is not set; a key holding any boolean or any string is set |
| `Minical.Entries` | tribe-ext-advance-mini-calendar.php:96-106 | the keys PHP sees when it indexes the settings: none for `false`, the array's own entries otherwise |
| `Minical.Advances` | tribe-ext-advance-mini-calendar.php:96-102 | another widget, an `eventDate` that `isset` sees (any non-null value), or a target equal to the current month each stop the filter; the mini calendar whose `eventDate` is missing or null, with another target, always passes |
| `Minical.AdvancedInstance` | tribe-ext-advance-mini-calendar.php:94-109 | for another widget, an `eventDate` already set, or a target equal to the current month, the settings (array or `false`) come back unchanged; otherwise the result is an array in which `eventDate` is the target, it is the only key added, and every other key keeps its value |
| `Minical.SuppressedWidgetRevived` | tribe-ext-advance-mini-calendar.php:96-106 | a mini calendar whose settings are `false` comes back as an array holding only `eventDate` when the target is not the current month |
| `Minical.AdvancedInstanceIdempotent` | tribe-ext-advance-mini-calendar.php:96-106 | filtering the settings a second time changes nothing further |
| `Minical.IsListTemplate` | tribe-ext-advance-mini-calendar.php:122 | true if and only if `mini-calendar/list.php` occurs somewhere in the template path |
| `Minical.AmendedQueryVars` | tribe-ext-advance-mini-calendar.php:141-148 | `start_date` is the target with `-01` appended; `end_date` is `tribe_end_of_day` of the start date with its last two characters replaced by the last day; only those two keys are added and every other query variable keeps its value |
| `Minical.AmendedQueryVarsIdempotent` | tribe-ext-advance-mini-calendar.php:141-148 | rewriting an already rewritten query gives the same query variables |
| `Php.ToPhpString` | tribe-ext-advance-mini-calendar.php:143 | a string converts to itself, null and `false` to the empty string, `true` to `1` |
| `Minical.StartDate` | tribe-ext-advance-mini-calendar.php:143 | the start date is the target converted to a string, followed by exactly `-01` |
| `Minical.EndDateBeforeEndOfDay` | tribe-ext-advance-mini-calendar.php:145 | the start date with its last two characters dropped, followed by exactly the last day; just the last day when the start date is shorter than two characters |
| `Minical.EndDateIsTargetAndLastDay` | tribe-ext-advance-mini-calendar.php:143-145 | before `tribe_end_of_day`, the end date is the target, a dash and the last day |
| `Minical.EndDateSharesMonth` | tribe-ext-advance-mini-calendar.php:143-145 | for a `YYYY-MM` target and a two-character last day, start and end date are ten characters long and share the prefix `YYYY-MM-` |
| `Minical.MonthRangeOfFormattedTarget` | tribe-ext-advance-mini-calendar.php:143-145 | for a month printed by `date('Y-m')`, the range runs from day 01 to the last day, both as `date('Y-m-d')` prints them and both passing the target shape test |
| `Minical.DayTargetRange` | tribe-ext-advance-mini-calendar.php:143-145 | every `YYYY-MM-DD` target gives the start date `YYYY-MM-DD-01`, which fails the shape test, and the end date `YYYY-MM-DD-` followed by the last day |
| `Minical.Extension.constructor` | tribe-ext-advance-mini-calendar.php:39 | a new extension's target date is `false` |
| `Minical.Extension.Init` | tribe-ext-advance-mini-calendar.php:57-68 | in an admin request nothing changes; otherwise the target is stored and `set_target_date` is hooked on `wp_loaded` and `advance_minical` on `widget_display_callback`, nothing else |
| `Minical.Extension.SetTargetDate` | tribe-ext-advance-mini-calendar.php:76-81 | the field becomes `ResolvedTarget` of its old value: kept when well-shaped, otherwise the next upcoming month |
| `Minical.Extension.AdvanceMinical` | tribe-ext-advance-mini-calendar.php:94-109 | returns `AdvancedInstance`; hooks `modify_list_query` on `tribe_before_get_template_part` exactly when `Advances` holds, and registers nothing otherwise |
| `Minical.Extension.ModifyListQuery` | tribe-ext-advance-mini-calendar.php:120-127 | hooks `amend_list_query` on `parse_query` if and only if the template is the mini calendar list; registers nothing otherwise |
| `Minical.Extension.AmendListQuery` | tribe-ext-advance-mini-calendar.php:136-149 | unhooks itself from `parse_query`, leaving every other registration, and sets the query variables to `AmendedQueryVars` of the old ones |
| `Minical.Extension.FireParseQuery` | tribe-ext-advance-mini-calendar.php:138-139 | afterwards `amend_list_query` is unhooked and every other registration stays; the query is amended when the callback was hooked and left unchanged when it was not |
| `Minical.Extension.AmendsOnce` | tribe-ext-advance-mini-calendar.php:122-139 | after the list-template gate, the first `parse_query` amends its query and a second one leaves its query untouched |
| `Hooks.Registry.Add` | tribe-ext-advance-mini-calendar.php:65-66 | `add_action`/`add_filter` adds one registration and keeps the rest |
| `Hooks.Registry.Remove` | tribe-ext-advance-mini-calendar.php:139 | `remove_action` removes one registration and keeps the rest |
| `Php.StrPos` | tribe-ext-advance-mini-calendar.php:122 | `strpos` returns an offset at which the needle occurs with no earlier occurrence, or nothing if and only if the needle occurs nowhere |
| `Php.StrPosFrom` | tribe-ext-advance-mini-calendar.php:122 | the search from a given offset finds the first occurrence at or after it, or none exists there |
| `Php.StrLess` | tribe-ext-advance-mini-calendar.php:171 | `$a < $b` on non-numeric strings is strcmp order: nothing is less than the empty string, a proper prefix comes first, and differing first characters decide |
| `Php.StrLessIrreflexive` | tribe-ext-advance-mini-calendar.php:171 | no string is less than itself |
| `Php.StrLessAsymmetric` | tribe-ext-advance-mini-calendar.php:171 | string order never goes both ways |
| `Php.StrLessTotal` | tribe-ext-advance-mini-calendar.php:171 | of two different strings, one is less than the other |
| `Php.StrLessTransitive` | tribe-ext-advance-mini-calendar.php:171 | string order is transitive |
| `Php.StrLessConcat` | tribe-ext-advance-mini-calendar.php:171 | strings with equally long leading parts compare by those parts first, then by the rest |
| `Php.ReplaceOffset` | tribe-ext-advance-mini-calendar.php:145 | `substr_replace` with a start of `-2` begins two characters before the end, clamped to the string |
| `Php.SubstrReplace` | tribe-ext-advance-mini-calendar.php:145 | the result keeps the string up to the offset and then is exactly the replacement |
| `DateShape.Pad` | tribe-ext-advance-mini-calendar.php:165 | a number printed as `date` prints `Y`, `m` or `d` is exactly the given width and all digits |
| `DateShape.PadValue` | tribe-ext-advance-mini-calendar.php:165 | a padded number that fits reads back as that number |
| `DateShape.ValuePad` | tribe-ext-advance-mini-calendar.php:78 | every digit string is the padding of the number it denotes |
| `DateShape.PadOrder` | tribe-ext-advance-mini-calendar.php:171 | equally wide padded numbers compare as strings exactly as the numbers compare |
| `DateShape.FormatMonth` | tribe-ext-advance-mini-calendar.php:165 | what `date('Y-m')` prints has the `YYYY-MM` shape, with the padded year before the dash and the padded month after it |
| `DateShape.FormatDay` | tribe-ext-advance-mini-calendar.php:162 | what `date('Y-m-d')` prints has the `YYYY-MM-DD` shape, with the month's `Y-m` before the second dash and the padded day after it |
| `DateShape.FormatMonthRoundTrip` | tribe-ext-advance-mini-calendar.php:165 | what `date('Y-m')` prints passes the target shape test, and its year and month read back |
| `DateShape.MonthFormIsFormatted` | tribe-ext-advance-mini-calendar.php:78 | every string of the `YYYY-MM` shape is what `date('Y-m')` prints for its year and month |
| `DateShape.FormatDayMatches` | tribe-ext-advance-mini-calendar.php:78 | what `date('Y-m-d')` prints passes the target shape test |
| `DateShape.MonthOrderIsChronological` | tribe-ext-advance-mini-calendar.php:171 | a `Y-m` month string is less than another exactly when it names an earlier month |

## Left out

- The `class_exists` load guard and `construct()`, which only declare required plugins and a version (tribe-ext-advance-mini-calendar.php:30-33, 45-52).
- The WordPress hook machinery: priorities (`20`, `5`), argument counts and the order and moment in which hooks fire. Registrations are a set of (hook, callback) pairs, and `FireParseQuery` covers one firing of `parse_query` for this extension's callback only.
- `is_admin()`, `date('Y-m')` and `date(DBDATEFORMAT)` read the environment and the clock; they are parameters.
- `tribe_get_events` and `tribe_get_start_date` query the host plugin's database; they become the optional month `nextEventMonth`.
- `strtotime`, `Tribe__Date_Utils::get_last_day_of_month` and `tribe_end_of_day` are library code not part of this model; the first two together are the parameter `lastDayOf`, and the last is the parameter `endOfDay`.
- PHP values other than strings, booleans and null are not modelled, in `target_date`, in the widget's settings or in the query variables (integers, floats, arrays, objects). In `target_date` they would fail `is_string`, as `false` does. Settings and query variables other than `eventDate`, `start_date` and `end_date` are only carried over, never read.
- Writing into a `false` instance is deprecated from PHP 8.1 on, with a notice; the model follows the array that PHP still builds.
- `Instance` has only the array and `false` cases. An earlier filter may also hand on `null` (which PHP indexes and writes into as it does `false`, without the notice) or another non-array value; those are not modelled.
- `NextUpcomingDate`: PHP compares two numeric strings as numbers. Strings printed as `Y-m` contain a dash and are never numeric, so the model uses `strcmp` order throughout.
- `StrLess`: characters are compared by code point, which agrees with PHP's byte order on ASCII; multi-byte encodings are not modelled.
