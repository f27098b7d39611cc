/**
 * The settings screen (src/screens/SettingsScreen.tsx): plan statistics, the
 * user-name form, and the daily-notification time. The provider's `settings`
 * and `updateSettings` are not part of the state provider modelled here, so
 * the screen reads `settings` as given and records each `updateSettings`,
 * scheduling and cancelling call as an effect, in call order.
 */
module SettingsScreen {
  import opened Types
  import opened Strings
  import KeyValue
  import AppContext

  // ---------------------------------------------------------------------------
  // calculateStats

  datatype Stats = Stats(totalPlans: nat, totalTasks: nat, completedTasks: nat)

  /** `tasks.filter(task => task.done).length` */
  function DoneCount(tasks: seq<Task>): (n: nat)
    ensures n <= |tasks|
  {
    if tasks == [] then 0 else (if tasks[0].done then 1 else 0) + DoneCount(tasks[1..])
  }

  function Length(tasks: seq<Task>): nat {
    |tasks|
  }

  /** The sum of `measure` over the plans of the given dates, in no particular order. */
  ghost function SumOver(plans: Plans, dates: set<string>, measure: seq<Task> -> nat): nat
    requires dates <= plans.Keys
    decreases dates
  {
    if dates == {} then 0
    else
      var d :| d in dates;
      measure(plans[d]) + SumOver(plans, dates - {d}, measure)
  }

  /** The sum does not depend on which date is taken first. */
  lemma {:induction false} SumOverRemove(plans: Plans, dates: set<string>, measure: seq<Task> -> nat, d: string)
    requires dates <= plans.Keys && d in dates
    ensures SumOver(plans, dates, measure) == measure(plans[d]) + SumOver(plans, dates - {d}, measure)
    decreases dates
  {
    var e :| e in dates && SumOver(plans, dates, measure) == measure(plans[e]) + SumOver(plans, dates - {e}, measure);
    if e != d {
      SumOverRemove(plans, dates - {e}, measure, d);
      SumOverRemove(plans, dates - {d}, measure, e);
      assert dates - {e} - {d} == dates - {d} - {e};
    }
  }

  ghost function TotalTasks(plans: Plans): nat {
    SumOver(plans, plans.Keys, Length)
  }

  ghost function CompletedTasks(plans: Plans): nat {
    SumOver(plans, plans.Keys, DoneCount)
  }

  /**
   * calculateStats: the number of dates (empty plans included), the number
   * of tasks, and the number of done tasks, accumulated date by date.
   */
  method CalculateStats(plans: Plans) returns (stats: Stats)
    ensures stats.totalPlans == |plans.Keys|
    ensures stats.totalTasks == TotalTasks(plans)
    ensures stats.completedTasks == CompletedTasks(plans)
  {
    var totalTasks: nat := 0;
    var completedTasks: nat := 0;
    var remaining := plans.Keys;
    while remaining != {}
      invariant remaining <= plans.Keys
      invariant totalTasks + SumOver(plans, remaining, Length) == TotalTasks(plans)
      invariant completedTasks + SumOver(plans, remaining, DoneCount) == CompletedTasks(plans)
      decreases remaining
    {
      var date :| date in remaining;
      SumOverRemove(plans, remaining, Length, date);
      SumOverRemove(plans, remaining, DoneCount, date);
      var tasks := plans[date];
      totalTasks := totalTasks + |tasks|;
      completedTasks := completedTasks + DoneCount(tasks);
      remaining := remaining - {date};
    }
    stats := Stats(|plans.Keys|, totalTasks, completedTasks);
  }

  lemma {:induction false} SumOverDominated(plans: Plans, dates: set<string>)
    requires dates <= plans.Keys
    ensures SumOver(plans, dates, DoneCount) <= SumOver(plans, dates, Length)
    decreases dates
  {
    if dates != {} {
      var d :| d in dates;
      SumOverRemove(plans, dates, DoneCount, d);
      SumOverRemove(plans, dates, Length, d);
      SumOverDominated(plans, dates - {d});
    }
  }

  /** Never more done tasks than tasks. */
  lemma CompletedAtMostTotal(plans: Plans)
    ensures CompletedTasks(plans) <= TotalTasks(plans)
  {
    SumOverDominated(plans, plans.Keys);
  }

  /**
   * The success rate, `Math.round(completed / total * 100)`, shown only when
   * there are tasks. Computed exactly: the nearest integer, halves rounded up.
   */
  function SuccessRate(stats: Stats): (rate: Option<nat>)
    ensures rate.Some? <==> stats.totalTasks > 0
    ensures rate.Some? ==>
      2 * stats.totalTasks * rate.value <= 200 * stats.completedTasks + stats.totalTasks
      < 2 * stats.totalTasks * (rate.value + 1)
  {
    if stats.totalTasks == 0 then None
    else
      var t, c := stats.totalTasks, stats.completedTasks;
      var r := (200 * c + t) / (2 * t);
      assert 2 * t * r <= 200 * c + t < 2 * t * (r + 1);
      Some(r)
  }

  /** With completed ≤ total the rate is a percentage: 0 with nothing done, 100 with everything done. */
  lemma SuccessRateIsPercentage(stats: Stats)
    requires 0 < stats.totalTasks && stats.completedTasks <= stats.totalTasks
    ensures SuccessRate(stats).value <= 100
    ensures stats.completedTasks == 0 ==> SuccessRate(stats).value == 0
    ensures stats.completedTasks == stats.totalTasks ==> SuccessRate(stats).value == 100
  {
    var t, c, r := stats.totalTasks, stats.completedTasks, SuccessRate(stats).value;
    var w := 2 * t;
    assert w * r <= 200 * c + t < w * (r + 1);
    assert w * 101 == 202 * t && w * 100 == 200 * t;
    assert r <= 100 by {
      if r > 100 {
        MulMonotone(w, 101, r);
      }
    }
    if c == 0 {
      assert r == 0 by {
        if r > 0 {
          MulMonotone(w, 1, r);
        }
      }
    }
    if c == t {
      assert r >= 100 by {
        if r < 100 {
          MulMonotone(w, r + 1, 100);
        }
      }
    }
  }

  lemma MulMonotone(a: nat, b: nat, c: nat)
    requires b <= c
    ensures a * b <= a * c
  {
    assert a * c == a * b + a * (c - b);
  }

  /** The statistics on the whole: the rate of real plans is always a percentage. */
  lemma StatsRate(plans: Plans, stats: Stats)
    requires stats == Stats(|plans.Keys|, TotalTasks(plans), CompletedTasks(plans))
    ensures SuccessRate(stats).Some? ==> SuccessRate(stats).value <= 100
  {
    CompletedAtMostTotal(plans);
    if stats.totalTasks > 0 {
      SuccessRateIsPercentage(stats);
    }
  }

  // ---------------------------------------------------------------------------
  // parseInt, validation and formatting of the notification time

  predicate IsHexLetter(c: char) {
    ('a' <= c <= 'f') || ('A' <= c <= 'F')
  }

  predicate IsRadixDigit(c: char, hex: bool) {
    IsDigit(c) || (hex && IsHexLetter(c))
  }

  function RadixDigitValue(c: char, hex: bool): (v: nat)
    requires IsRadixDigit(c, hex)
    ensures v < (if hex then 16 else 10)
  {
    if IsDigit(c) then DigitOf(c)
    else if 'a' <= c <= 'f' then c as int - 'a' as int + 10
    else c as int - 'A' as int + 10
  }

  /** The longest prefix made of digits of the radix. */
  function DigitPrefix(s: string, hex: bool): (z: string)
    ensures |z| <= |s| && z == s[..|z|]
    ensures forall i :: 0 <= i < |z| ==> IsRadixDigit(z[i], hex)
    ensures |z| < |s| ==> !IsRadixDigit(s[|z|], hex)
  {
    if s != [] && IsRadixDigit(s[0], hex) then [s[0]] + DigitPrefix(s[1..], hex) else []
  }

  function RadixValue(z: string, hex: bool): nat
    requires forall i :: 0 <= i < |z| ==> IsRadixDigit(z[i], hex)
  {
    if z == [] then 0
    else (if hex then 16 else 10) * RadixValue(z[..|z| - 1], hex) + RadixDigitValue(z[|z| - 1], hex)
  }

  /** The unsigned part of parseInt: an optional "0x"/"0X" prefix, then the longest run of digits. */
  function ParseMagnitude(u: string): (r: Option<nat>)
    ensures u == [] ==> r == None
    ensures u != [] && !IsDigit(u[0]) ==> r == None
  {
    var hex := |u| >= 2 && u[0] == '0' && (u[1] == 'x' || u[1] == 'X');
    var z := DigitPrefix(if hex then u[2..] else u, hex);
    if z == [] then None else Some(RadixValue(z, hex))
  }

  /** parseInt after the white space: one optional sign, then the magnitude. */
  function ParseSigned(t: string): (r: Option<int>)
    ensures t == [] ==> r == None
  {
    if t != [] && (t[0] == '-' || t[0] == '+') then
      var v := ParseMagnitude(t[1..]);
      if v.None? then None
      else
        var n: int := v.value;
        Some(if t[0] == '-' then -n else n)
    else
      var v := ParseMagnitude(t);
      if v.None? then None else Some(v.value)
  }

  /**
   * `parseInt(s)` with no radix: leading white space is skipped, one sign is
   * read, then the magnitude; None (NaN) when no digit follows.
   */
  function ParseInt(s: string): (r: Option<int>)
    ensures AllSpace(s) ==> r == None
  {
    ParseSigned(TrimStart(s))
  }

  /** Without white space or sign in front, parseInt reads the magnitude. */
  lemma ParseIntUnsigned(s: string)
    requires s != [] && !IsSpace(s[0]) && s[0] != '-' && s[0] != '+'
    ensures ParseInt(s) == ParseMagnitude(s)
  {
    assert TrimStart(s) == s;
  }

  /** Decimal digits followed by something that is not a digit read as the digits' value. */
  lemma MagnitudeOfDigits(digits: string, rest: string)
    requires digits != [] && AllDigits(digits)
    requires rest == [] || !IsDigit(rest[0])
    requires digits == "0" && rest != [] ==> rest[0] != 'x' && rest[0] != 'X'
    ensures ParseMagnitude(digits + rest) == Some(DigitsValue(digits))
  {
    var s := digits + rest;
    assert !(|s| >= 2 && s[0] == '0' && (s[1] == 'x' || s[1] == 'X')) by {
      if |s| >= 2 && s[0] == '0' {
        if |digits| >= 2 {
          assert s[1] == digits[1];
        } else {
          assert digits == "0";
          assert s[1] == rest[0];
        }
      }
    }
    DigitPrefixStops(digits, rest);
    RadixValueDecimal(digits);
  }

  /** On plain decimal digits parseInt reads their decimal value. */
  lemma ParseIntDecimal(s: string)
    requires s != [] && AllDigits(s)
    ensures ParseInt(s) == Some(DigitsValue(s))
  {
    assert s + [] == s;
    MagnitudeOfDigits(s, []);
    ParseIntUnsigned(s);
  }

  /**
   * Reading stops at the first character that is not a digit: "12abc" reads
   * as 12 (but "0x1" is read in base 16).
   */
  lemma ParseIntStopsAtNonDigit(digits: string, rest: string)
    requires digits != [] && AllDigits(digits)
    requires rest == [] || !IsDigit(rest[0])
    requires digits == "0" && rest != [] ==> rest[0] != 'x' && rest[0] != 'X'
    ensures ParseInt(digits + rest) == Some(DigitsValue(digits))
  {
    MagnitudeOfDigits(digits, rest);
    ParseIntUnsigned(digits + rest);
  }

  lemma {:induction false} DigitPrefixStops(digits: string, rest: string)
    requires AllDigits(digits)
    requires rest == [] || !IsDigit(rest[0])
    ensures DigitPrefix(digits + rest, false) == digits
    decreases |digits|
  {
    var s := digits + rest;
    if digits != [] {
      assert s[1..] == digits[1..] + rest;
      DigitPrefixStops(digits[1..], rest);
    } else {
      assert s == rest;
    }
  }

  lemma {:induction false} DigitPrefixAll(s: string)
    requires AllDigits(s)
    ensures DigitPrefix(s, false) == s
  {
    if s != [] {
      DigitPrefixAll(s[1..]);
    }
  }

  lemma {:induction false} RadixValueDecimal(s: string)
    requires AllDigits(s)
    ensures RadixValue(s, false) == DigitsValue(s)
  {
    if s != [] {
      RadixValueDecimal(s[..|s| - 1]);
    }
  }

  const HourError: string := "Saat 0-23 arasında olmalı"
  const MinuteError: string := "Dakika 0-59 arasında olmalı"

  /** handleSaveNotificationTime's checks: the hour first, then the minute. */
  function ValidateTime(hourText: string, minuteText: string): (r: Result<(int, int)>)
    ensures r.Ok? ==> 0 <= r.value.0 <= 23 && 0 <= r.value.1 <= 59
    ensures r.Err? ==> r.message == HourError || r.message == MinuteError
  {
    var hour := ParseInt(hourText);
    var minute := ParseInt(minuteText);
    if hour.None? || hour.value < 0 || hour.value > 23 then Err(HourError)
    else if minute.None? || minute.value < 0 || minute.value > 59 then Err(MinuteError)
    else Ok((hour.value, minute.value))
  }

  /**
   * The time is accepted exactly when both inputs parse into range; it is
   * then what they parse to, and otherwise the hour's complaint comes first.
   */
  lemma ValidateTimeExactly(hourText: string, minuteText: string)
    ensures var r := ValidateTime(hourText, minuteText);
      && (r.Ok? <==>
          && ParseInt(hourText).Some? && 0 <= ParseInt(hourText).value <= 23
          && ParseInt(minuteText).Some? && 0 <= ParseInt(minuteText).value <= 59)
      && (r.Ok? ==> r.value == (ParseInt(hourText).value, ParseInt(minuteText).value))
      && (r.Err? ==> r.message == (if ParseInt(hourText).Some? && 0 <= ParseInt(hourText).value <= 23
                                   then MinuteError else HourError))
  {
  }

  /** The saved time string: both raw inputs padded to two characters, joined by ':'. */
  function FormatTime(hourText: string, minuteText: string): (r: string)
    ensures |hourText| <= 2 && |minuteText| <= 2 ==>
      |r| == 5 && r[2] == ':' && r[..2] == PadStart2(hourText) && r[3..] == PadStart2(minuteText)
  {
    PadStart2(hourText) + ":" + PadStart2(minuteText)
  }

  /** `const [hour, minute] = time.split(':')` with the fallbacks '08' and '00'. */
  function SplitTime(time: string): (r: (string, string))
    ensures r.0 != [] && r.1 != []
    ensures ':' !in time ==> r == (if time == [] then "08" else time, "00")
  {
    var parts := Split(time, ':');
    var hour := parts[0];
    var minute := if |parts| > 1 then parts[1] else "";
    (if hour == "" then "08" else hour, if minute == "" then "00" else minute)
  }

  /**
   * A stored time "h:m..." gives the text before the first ':' as the hour and the
   * text up to the second ':' as the minute, each replaced by its default when empty.
   */
  lemma SplitTimeFields(h: string, m: string, rest: string)
    requires ':' !in h && ':' !in m && (rest == [] || rest[0] == ':')
    ensures SplitTime(h + ":" + m + rest) == (if h == [] then "08" else h, if m == [] then "00" else m)
  {
    assert h + ":" + m + rest == h + [':'] + (m + rest);
    SplitAt(h, ':', m + rest);
    if rest == [] {
      assert m + rest == m;
    } else {
      assert m + rest == m + [':'] + rest[1..];
      SplitAt(m, ':', rest[1..]);
    }
  }

  /** A one-character input that parseInt accepts is a digit. */
  lemma OneCharAccepted(c: char)
    ensures !IsDigit(c) ==> ParseInt([c]) == None
  {
    if !IsDigit(c) {
      if IsSpace(c) {
        assert AllSpace([c]);
      } else if c == '-' || c == '+' {
        LoneSign(c);
      } else {
        ParseIntUnsigned([c]);
      }
    }
  }

  lemma LoneSign(c: char)
    requires c == '-' || c == '+'
    ensures ParseInt([c]) == None
  {
    assert TrimStart([c]) == [c];
    assert ParseMagnitude([c][1..]) == None;
  }

  /**
   * A time accepted from inputs of at most two characters (no ':') is saved
   * so that the screen reads back the padded inputs, and they validate to
   * the same hour and minute.
   */
  lemma SavedTimeReadsBack(hourText: string, minuteText: string)
    requires |hourText| <= 2 && |minuteText| <= 2
    requires ':' !in hourText && ':' !in minuteText
    requires ValidateTime(hourText, minuteText).Ok?
    ensures SplitTime(FormatTime(hourText, minuteText)) == (PadStart2(hourText), PadStart2(minuteText))
    ensures ValidateTime(PadStart2(hourText), PadStart2(minuteText)) == ValidateTime(hourText, minuteText)
  {
    var h, m := PadStart2(hourText), PadStart2(minuteText);
    assert ':' !in h && ':' !in m;
    SplitAt(h, ':', m);
    assert Split(m, ':') == [m];
    PaddedParsesAlike(hourText);
    PaddedParsesAlike(minuteText);
  }

  /** Padding an accepted input of at most two characters does not change what parseInt reads. */
  lemma PaddedParsesAlike(s: string)
    requires |s| <= 2
    ensures ParseInt(s).Some? ==> ParseInt(PadStart2(s)) == ParseInt(s)
  {
    if |s| == 1 && ParseInt(s).Some? {
      OneCharAccepted(s[0]);
      assert s == [s[0]];
      var p := PadStart2(s);
      assert p == "0" + s;
      LeadingZero(s);
      ParseIntDecimal(p);
      ParseIntDecimal(s);
    } else if |s| == 0 {
      assert AllSpace(s);
    }
  }

  // ---------------------------------------------------------------------------
  // The screen

  /** The fields of the provider's settings the screen reads. */
  datatype Settings = Settings(notificationsEnabled: bool, notificationTime: string)

  /** What the screen asks of the world, in order. */
  datatype Effect =
    | ScheduleDaily(hour: Option<int>, minute: Option<int>)  // scheduleDailyNotification
    | CancelAll                                              // cancelAllNotifications
    | SetEnabled(enabled: bool)                              // updateSettings({ notificationsEnabled })
    | SetTime(time: string)                                  // updateSettings({ notificationTime })

  class SettingsScreen {
    var nameInput: string
    var isEditing: bool
    var hourInput: string
    var minuteInput: string
    var isInitialized: bool
    var settings: Settings
    var effects: seq<Effect>
    const app: AppContext.AppProvider

    constructor (app: AppContext.AppProvider, settings: Settings)
      ensures this.app == app && this.settings == settings
      ensures nameInput == "" && !isEditing && hourInput == "08" && minuteInput == "00"
      ensures !isInitialized && effects == []
    {
      this.app := app;
      this.settings := settings;
      nameInput := "";
      isEditing := false;
      hourInput := "08";
      minuteInput := "00";
      isInitialized := false;
      effects := [];
    }

    /** The effect on `username`: no name opens the editor, a name fills the input. */
    method SyncName()
      modifies this
      ensures var u := app.username;
        if u.None? || u.value == "" then isEditing && nameInput == old(nameInput)
        else nameInput == u.value && isEditing == old(isEditing)
      ensures hourInput == old(hourInput) && minuteInput == old(minuteInput)
      ensures isInitialized == old(isInitialized) && settings == old(settings) && effects == old(effects)
    {
      var u := app.username;
      if u.None? || u.value == "" {
        isEditing := true;
      } else {
        nameInput := u.value;
      }
    }

    /** The effect on `notificationTime`: the time inputs are filled once, from the stored time. */
    method InitFromSettings()
      modifies this
      ensures if !old(isInitialized) && settings.notificationTime != "" then
          && (hourInput, minuteInput) == SplitTime(settings.notificationTime)
          && isInitialized
        else
          hourInput == old(hourInput) && minuteInput == old(minuteInput) && isInitialized == old(isInitialized)
      ensures nameInput == old(nameInput) && isEditing == old(isEditing)
      ensures settings == old(settings) && effects == old(effects)
    {
      if !isInitialized && settings.notificationTime != "" {
        var parts := SplitTime(settings.notificationTime);
        hourInput := parts.0;
        minuteInput := parts.1;
        isInitialized := true;
      }
    }

    /** handleSaveName: a blank name is rejected; otherwise the trimmed name goes to the provider. */
    method SaveName(writeFails: bool)
      modifies this, app, app.store
      ensures AllSpace(old(nameInput)) ==>
        && app.username == old(app.username) && app.store.items == old(app.store.items)
        && isEditing == old(isEditing)
      ensures !AllSpace(old(nameInput)) ==>
        && app.username == Some(Trim(old(nameInput)))
        && app.store.items == (if writeFails then old(app.store.items)
                               else old(app.store.items)[AppContext.UsernameKey := KeyValue.Text(Trim(old(nameInput)))])
        && isEditing == (writeFails && old(isEditing))
      ensures app.plans == old(app.plans) && app.isLoading == old(app.isLoading)
      ensures nameInput == old(nameInput) && hourInput == old(hourInput) && minuteInput == old(minuteInput)
      ensures isInitialized == old(isInitialized) && settings == old(settings) && effects == old(effects)
    {
      var name := Trim(nameInput);
      if name == "" {
        return;
      }
      var ok := app.SetUsername(name, writeFails);
      if ok {
        isEditing := false;
      }
    }

    /**
     * handleToggleNotifications: enabling needs permission and then schedules
     * at the parsed inputs and records the setting; disabling cancels first,
     * then records the setting.
     */
    method ToggleNotifications(enabled: bool, hasPermission: bool)
      modifies this
      ensures enabled && !hasPermission ==> effects == old(effects)
      ensures enabled && hasPermission ==>
        effects == old(effects) + [ScheduleDaily(ParseInt(hourInput), ParseInt(minuteInput)), SetEnabled(true)]
      ensures !enabled ==> effects == old(effects) + [CancelAll, SetEnabled(false)]
      ensures nameInput == old(nameInput) && isEditing == old(isEditing)
      ensures hourInput == old(hourInput) && minuteInput == old(minuteInput)
      ensures isInitialized == old(isInitialized) && settings == old(settings)
    {
      if enabled {
        if !hasPermission {
          return;
        }
        effects := effects + [ScheduleDaily(ParseInt(hourInput), ParseInt(minuteInput)), SetEnabled(true)];
      } else {
        effects := effects + [CancelAll, SetEnabled(false)];
      }
    }

    /**
     * handleSaveNotificationTime: an invalid hour or minute changes nothing;
     * otherwise the padded time is recorded, and rescheduled when
     * notifications are on.
     */
    method SaveNotificationTime()
      modifies this
      ensures var checked := ValidateTime(hourInput, minuteInput);
        effects == old(effects) +
          (if checked.Err? then [] else
             [SetTime(FormatTime(hourInput, minuteInput))] +
             (if settings.notificationsEnabled then [ScheduleDaily(Some(checked.value.0), Some(checked.value.1))] else []))
      ensures nameInput == old(nameInput) && isEditing == old(isEditing)
      ensures hourInput == old(hourInput) && minuteInput == old(minuteInput)
      ensures isInitialized == old(isInitialized) && settings == old(settings)
    {
      var hourText, minuteText := hourInput, minuteInput;
      var checked := ValidateTime(hourText, minuteText);
      if checked.Ok? {
        var saved := [SetTime(FormatTime(hourText, minuteText))];
        var scheduled := if settings.notificationsEnabled then [ScheduleDaily(Some(checked.value.0), Some(checked.value.1))] else [];
        effects := effects + (saved + scheduled);
      }
    }
  }
}
