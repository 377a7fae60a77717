/**
  The validation the planner's forms perform before anything is saved: the habit
  name check, the preferred-times normaliser, the reminder cross-field rules, the
  comma-joined weekday and month selections, the event end-after-start rule, and
  the check-in minute rule.
*/
module Forms {
  import opened Wrappers
  import opened Text
  import opened Collections
  import opened Models

  // ------------------------------------------------------------ EventForm

  const EndBeforeStartMessage: string := "End time must be after start time."

  /** `EventForm.clean`: an end that is given must come strictly after a given start. */
  function EventEndError(start: Option<DateTime>, end: Option<DateTime>): (e: Option<string>)
    ensures e.Some? <==> start.Some? && end.Some? && !Before(start.value, end.value)
    ensures e.Some? ==> e.value == EndBeforeStartMessage
  {
    if start.Some? && end.Some? && (end.value == start.value || Before(end.value, start.value)) then
      Some(EndBeforeStartMessage)
    else
      None
  }

  // ---------------------------------------------------- the instance's key

  /**
    `if self.instance.pk:`: Python takes a missing key and a key of 0 alike as false, so
    only an instance with a non-zero key counts as saved.
  */
  predicate IsSaved(pk: Option<nat>) {
    pk.Some? && pk.value != 0
  }

  // ------------------------------------------------------ HabitForm: name

  const NameRequiredMessage: string := "Name is required."
  const NameDuplicateMessage: string := "You already have a habit with this name."

  /** Another habit of the same owner (not the one being edited) has this name, ignoring case. */
  predicate NameClash(habits: seq<Habit>, user: Option<UserId>, editing: Option<nat>, name: string) {
    exists h :: h in habits
      && (user.None? || h.owner == user.value)
      && (!IsSaved(editing) || h.id != editing.value)
      && EqualsIgnoreCase(h.name, name)
  }

  /** The query set `clean_name` searches: the user's habits (all of them without a user), minus the one being edited. */
  function NameQuerySet(habits: seq<Habit>, user: Option<UserId>, editing: Option<nat>): (qs: seq<Habit>)
    ensures forall h :: h in qs <==>
      h in habits && (user.None? || h.owner == user.value) && (!IsSaved(editing) || h.id != editing.value)
  {
    var owned := if user.Some? then Filter(habits, (h: Habit) => h.owner == user.value) else habits;
    if IsSaved(editing) then Filter(owned, (h: Habit) => h.id != editing.value) else owned
  }

  /**
    `HabitForm.clean_name`: the trimmed name, unless it is empty or another habit in the
    query set (the user's, without the one being edited) matches it case-insensitively.
  */
  function CleanName(raw: string, user: Option<UserId>, editing: Option<nat>, habits: seq<Habit>): (r: Result<string, string>)
    ensures r.Ok? <==> Strip(raw) != "" && !NameClash(habits, user, editing, Strip(raw))
    ensures r.Ok? ==> r.value == Strip(raw)
    ensures r == Err(NameRequiredMessage) <==> Strip(raw) == ""
    ensures r.Err? ==> r.error == NameRequiredMessage || r.error == NameDuplicateMessage
  {
    var name := Strip(raw);
    if name == "" then Err(NameRequiredMessage)
    else if exists h :: h in NameQuerySet(habits, user, editing) && EqualsIgnoreCase(h.name, name) then
      Err(NameDuplicateMessage)
    else Ok(name)
  }

  /** A name the form accepts can be stored without breaking the (owner, name) constraint. */
  lemma AcceptedNameIsFree(raw: string, u: UserId, editing: Option<nat>, habits: seq<Habit>)
    requires CleanName(raw, Some(u), editing, habits).Ok?
    ensures forall h :: h in habits && h.owner == u && (!IsSaved(editing) || h.id != editing.value) ==>
              h.name != CleanName(raw, Some(u), editing, habits).value
  {
  }

  /** Stripping one blank from each end of a trimmed word gives the word. */
  lemma StripPadded(word: string, padded: string)
    requires Trimmed(word) && padded == " " + word + " "
    ensures Strip(padded) == word
  {
    assert padded[1..] == word + " ";
    assert LStrip(word + " ") == word + " ";
    assert (word + " ")[..|word|] == word;
    assert RStrip(word + " ") == RStrip(word);
  }

  lemma FoldTraining()
    ensures EqualsIgnoreCase("Training", "training")
  {
    assert Fold('T') == 't';
  }

  /** A second habit whose name differs from an existing one only in case (and surrounding blanks) is refused. */
  lemma CaseOnlyDifferenceIsDuplicate(habits: seq<Habit>, h: Habit)
    requires h in habits && h.name == "Training"
    ensures CleanName(" training ", Some(h.owner), None, habits) == Err(NameDuplicateMessage)
  {
    StripPadded("training", " training ");
    FoldTraining();
  }

  /** A habit whose key is 0 counts as unsaved, so keeping its own name clashes with itself. */
  lemma KeyZeroClashesWithItself(habits: seq<Habit>, h: Habit)
    requires h in habits && h.id == 0 && Trimmed(h.name)
    ensures CleanName(h.name, Some(h.owner), Some(h.id), habits) == Err(NameDuplicateMessage)
  {
    assert EqualsIgnoreCase(h.name, h.name);
  }

  // -------------------------------------------- HabitForm: preferred times

  const PreferredTimesMessage: string :=
    "Preferred times must be comma-separated in HH:MM format (e.g. 08:00,20:00)."

  /** `hh, mm = p.split(":")` succeeds, and `int(hh)` is in 0..23 and `int(mm)` in 0..59. */
  predicate IsClockTime(p: string) {
    var hm := Split(p, ':');
    && |hm| == 2
    && ParseInt(hm[0]).Some? && 0 <= ParseInt(hm[0]).value <= 23
    && ParseInt(hm[1]).Some? && 0 <= ParseInt(hm[1]).value <= 59
  }

  /** Every item is a valid time; the loop over the items raises on the first that is not. */
  predicate AllClockTimes(parts: seq<string>) {
    |parts| == 0 || (IsClockTime(parts[0]) && AllClockTimes(parts[1..]))
  }

  lemma {:induction false} AllClockTimesMembers(parts: seq<string>)
    ensures AllClockTimes(parts) <==> forall p :: p in parts ==> IsClockTime(p)
  {
    if |parts| > 0 {
      AllClockTimesMembers(parts[1..]);
      assert forall p :: p in parts <==> p == parts[0] || p in parts[1..];
    }
  }

  /** Puts `x` into a strictly sorted sequence unless it is there already. */
  function InsertUnique(x: string, s: seq<string>): (r: seq<string>)
    requires StrictlySorted(s)
    ensures StrictlySorted(r)
    ensures forall y :: y in r <==> y == x || y in s
  {
    if |s| == 0 then [x]
    else if x == s[0] then s
    else if Less(x, s[0]) then
      assert forall j :: 0 < j < |s| ==> Less(x, s[j]) by {
        forall j | 0 < j < |s| ensures Less(x, s[j]) { LessTransitive(x, s[0], s[j]); }
      }
      [x] + s
    else
      LessTrichotomous(x, s[0]);
      var rest := InsertUnique(x, s[1..]);
      assert forall y :: y in rest ==> Less(s[0], y) by {
        forall y | y in rest ensures Less(s[0], y) {
          if y != x {
            var j :| 0 <= j < |s[1..]| && s[1..][j] == y;
            assert s[j + 1] == y;
          }
        }
      }
      assert forall j :: 0 < j < |[s[0]] + rest| ==> ([s[0]] + rest)[j] in rest;
      [s[0]] + rest
  }

  /** `sorted(set(xs))`: the distinct elements of `xs` in ascending string order. */
  function SortedSet(xs: seq<string>): (r: seq<string>)
    ensures StrictlySorted(r)
    ensures forall y :: y in r <==> y in xs
  {
    if |xs| == 0 then [] else InsertUnique(xs[0], SortedSet(xs[1..]))
  }

  lemma {:induction false} SortedSetOfSorted(xs: seq<string>)
    requires StrictlySorted(xs)
    ensures SortedSet(xs) == xs
  {
    if |xs| > 0 {
      SortedSetOfSorted(xs[1..]);
      if |xs| > 1 {
        assert Less(xs[0], xs[1]);
        LessIrreflexive(xs[0]);
      }
      assert [xs[0]] + xs[1..] == xs;
    }
  }

  /** `HabitForm.clean_preferred_times`. */
  function CleanPreferredTimes(raw: string): (r: Result<string, string>)
    ensures r.Err? <==> !AllClockTimes(CommaItems(Strip(raw)))
  {
    var times := Strip(raw);
    if |times| == 0 then
      NoItemsOfEmpty(times);
      Ok("")
    else
      var parts := CommaItems(times);
      if !AllClockTimes(parts) then Err(PreferredTimesMessage)
      else Ok(Join(SortedSet(parts), ","))
  }

  /** A blank field is accepted and stored as the empty string. */
  lemma PreferredTimesBlank(raw: string)
    requires forall k :: 0 <= k < |raw| ==> IsSpace(raw[k])
    ensures CleanPreferredTimes(raw) == Ok("")
  {
    assert Strip(raw) == [];
  }

  /** A single item that is not a valid time rejects the whole field. */
  lemma PreferredTimesRejectsBadItem(raw: string, p: string)
    requires p in CommaItems(Strip(raw)) && !IsClockTime(p)
    ensures CleanPreferredTimes(raw) == Err(PreferredTimesMessage)
  {
    AllClockTimesMembers(CommaItems(Strip(raw)));
  }

  /** An accepted value, blank or not, is the sorted distinct items joined with ",". */
  lemma PreferredTimesValue(raw: string)
    requires CleanPreferredTimes(raw).Ok?
    ensures CleanPreferredTimes(raw).value == Join(SortedSet(CommaItems(Strip(raw))), ",")
  {
    var times := Strip(raw);
    if |times| == 0 {
      BlankHasNoItems(times);
    }
  }

  lemma BlankHasNoItems(times: string)
    requires |times| == 0
    ensures Join(SortedSet(CommaItems(times)), ",") == ""
  {
    NoItemsOfEmpty(times);
    SortedSetOfNone(CommaItems(times));
  }

  lemma SortedSetOfNone(items: seq<string>)
    requires |items| == 0
    ensures Join(SortedSet(items), ",") == ""
  {
  }

  /** Joining the sorted distinct items with "," and reading the result back gives those items. */
  lemma ItemsOfSortedSet(parts: seq<string>)
    requires forall i :: 0 <= i < |parts| ==> Trimmed(parts[i]) && ',' !in parts[i]
    ensures CommaItems(Join(SortedSet(parts), ",")) == SortedSet(parts)
  {
    var sorted := SortedSet(parts);
    if |sorted| == 0 {
      ItemsOfNone(sorted);
    } else {
      SortedSetKeepsItems(parts);
      CommaItemsOfJoin(sorted);
    }
  }

  /** The sorted distinct items are still trimmed and comma-free. */
  lemma SortedSetKeepsItems(parts: seq<string>)
    requires forall i :: 0 <= i < |parts| ==> Trimmed(parts[i]) && ',' !in parts[i]
    ensures forall i :: 0 <= i < |SortedSet(parts)| ==> Trimmed(SortedSet(parts)[i]) && ',' !in SortedSet(parts)[i]
  {
    var sorted := SortedSet(parts);
    forall i | 0 <= i < |sorted| ensures Trimmed(sorted[i]) && ',' !in sorted[i] {
      var x := sorted[i];
      assert x in parts;
      var k :| 0 <= k < |parts| && parts[k] == x;
    }
  }

  lemma ItemsOfNone(xs: seq<string>)
    requires |xs| == 0
    ensures CommaItems(Join(xs, ",")) == xs
  {
    NoItemsOfEmpty(Join(xs, ","));
  }

  /**
    An accepted value is normalised: its items are in strictly increasing string
    order, are exactly the trimmed non-empty items of the input, and are all valid times.
  */
  lemma PreferredTimesNormalised(raw: string)
    requires CleanPreferredTimes(raw).Ok?
    ensures var items := CommaItems(CleanPreferredTimes(raw).value);
      && StrictlySorted(items)
      && (forall x :: x in items <==> x in CommaItems(Strip(raw)))
      && (forall x :: x in items ==> IsClockTime(x))
  {
    PreferredTimesValue(raw);
    ItemsOfSortedSet(CommaItems(Strip(raw)));
    AllClockTimesMembers(CommaItems(Strip(raw)));
  }

  /** Normalising an accepted value again returns it unchanged. */
  lemma PreferredTimesIdempotent(raw: string)
    requires CleanPreferredTimes(raw).Ok?
    ensures CleanPreferredTimes(CleanPreferredTimes(raw).value) == CleanPreferredTimes(raw)
  {
    var times := Strip(raw);
    if times != "" {
      var parts := CommaItems(times);
      var sorted := SortedSet(parts);
      var v := Join(sorted, ",");
      assert CleanPreferredTimes(raw) == Ok(v);
      if |sorted| > 0 {
        forall i | 0 <= i < |sorted| ensures Trimmed(sorted[i]) {
          assert sorted[i] in parts;
        }
        JoinOfTrimmed(sorted, ",");
        assert Strip(v) == v;
        ItemsOfSortedSet(parts);
        SortedSetOfSorted(sorted);
        AllClockTimesMembers(parts);
        AllClockTimesMembers(sorted);
      }
    }
  }

  /** A five-character `HH:MM` of digits is a valid time exactly when the hour is at most 23 and the minute at most 59. */
  lemma DigitClock(p: string)
    requires |p| == 5 && p[2] == ':'
    requires IsDigit(p[0]) && IsDigit(p[1]) && IsDigit(p[3]) && IsDigit(p[4])
    ensures IsClockTime(p) <==>
      10 * DigitValue(p[0]) + DigitValue(p[1]) <= 23 && 10 * DigitValue(p[3]) + DigitValue(p[4]) <= 59
  {
    var hh, mm := p[..2], p[3..];
    assert hh + ":" + mm == p;
    SplitAtOne(hh, mm, ':');
    TwoDigitValue(hh);
    TwoDigitValue(mm);
  }

  /** A one-digit hour is accepted too: `int("8")` is 8. */
  lemma EightOClock()
    ensures IsClockTime("8:00")
  {
    SplitAtOne("8", "00", ':');
    assert "8" + ":" + "00" == "8:00";
    OneDigitValue("8");
    TwoDigitValue("00");
  }

  lemma TimesOfTheExamples()
    ensures IsClockTime("08:00") && IsClockTime("20:00") && IsClockTime("23:59")
    ensures !IsClockTime("24:00") && !IsClockTime("12:60")
  {
    DigitClock("08:00");
    DigitClock("20:00");
    DigitClock("23:59");
    DigitClock("24:00");
    DigitClock("12:60");
  }

  /** In a strictly sorted sequence, a smaller element sits before a larger one. */
  lemma SortedPositions(s: seq<string>, a: string, b: string)
    requires StrictlySorted(s) && a in s && b in s && Less(a, b)
    ensures exists i, j :: 0 <= i < j < |s| && s[i] == a && s[j] == b
  {
    var i :| 0 <= i < |s| && s[i] == a;
    var j :| 0 <= j < |s| && s[j] == b;
    LessIrreflexive(a);
    if j < i {
      LessAsymmetric(a, b);
    }
  }

  /** Two accepted items keep their string order in the stored value. */
  lemma PreferredTimesOrder(raw: string, a: string, b: string)
    requires CleanPreferredTimes(raw).Ok?
    requires a in CommaItems(Strip(raw)) && b in CommaItems(Strip(raw)) && Less(a, b)
    ensures var items := CommaItems(CleanPreferredTimes(raw).value);
      exists i, j :: 0 <= i < j < |items| && items[i] == a && items[j] == b
  {
    PreferredTimesNormalised(raw);
    SortedPositions(CommaItems(CleanPreferredTimes(raw).value), a, b);
  }

  /** The order is textual: given both `"8:00"` and `"20:00"`, the stored value lists `"20:00"` first. */
  lemma EightIsStoredAfterTwenty(raw: string)
    requires CleanPreferredTimes(raw).Ok?
    requires "8:00" in CommaItems(Strip(raw)) && "20:00" in CommaItems(Strip(raw))
    ensures var items := CommaItems(CleanPreferredTimes(raw).value);
      exists i, j :: 0 <= i < j < |items| && items[i] == "20:00" && items[j] == "8:00"
  {
    assert Less("20:00", "8:00");
    PreferredTimesOrder(raw, "20:00", "8:00");
  }

  lemma {:induction false} StrictlySortedCardinality(s: seq<string>)
    requires StrictlySorted(s)
    ensures |set x | x in s| == |s|
  {
    if |s| > 0 {
      StrictlySortedCardinality(s[1..]);
      LessIrreflexive(s[0]);
      assert s[0] !in s[1..];
      assert (set x | x in s) == {s[0]} + (set x | x in s[1..]);
    }
  }

  /**
    Deduplication is on the text: the stored value holds one item per distinct text
    among the input's items, so `"8:00"` and `"08:00"` both survive.
  */
  lemma PreferredTimesDedupIsTextual(raw: string)
    requires CleanPreferredTimes(raw).Ok?
    ensures |CommaItems(CleanPreferredTimes(raw).value)| == |set x | x in CommaItems(Strip(raw))|
  {
    PreferredTimesNormalised(raw);
    SortedDistinctCount(CommaItems(CleanPreferredTimes(raw).value), CommaItems(Strip(raw)));
  }

  /** A strictly sorted sequence with the same members as `xs` has one entry per distinct member of `xs`. */
  lemma SortedDistinctCount(items: seq<string>, xs: seq<string>)
    requires StrictlySorted(items)
    requires forall x :: x in items <==> x in xs
    ensures |items| == |set x | x in xs|
  {
    StrictlySortedCardinality(items);
    assert (set x | x in items) == (set x | x in xs);
  }

  // ------------------------------------------- HabitForm: reminder rules

  datatype HabitFormField = ReminderStartField | ReminderRepeatField | ReminderUntilField

  datatype FieldError = FieldError(field: HabitFormField, message: string)

  const ReminderStartMessage: string := "Reminder start is required when reminders are enabled."
  const ReminderRepeatMessage: string := "Enable reminders before choosing a repeat option."
  const ReminderUntilMessage: string := "Reminder 'until' date cannot be before reminder start date."

  function MessageFor(f: HabitFormField): string {
    match f
    case ReminderStartField => ReminderStartMessage
    case ReminderRepeatField => ReminderRepeatMessage
    case ReminderUntilField => ReminderUntilMessage
  }

  /**
    The form's `cleaned_data` as `HabitForm.clean` sees and extends it; a field that is
    absent reads as `None`. The frequency `clean` reads only for a branch that does nothing,
    so it is not carried.
  */
  datatype HabitCleaned = HabitCleaned(
    reminderEnabled: bool,
    reminderStart: Option<DateTime>,
    reminderRepeat: Option<string>,
    reminderUntil: Option<Date>,
    weekdaysList: seq<string>,
    monthsList: seq<string>,
    preferredWeekdays: Option<string>,
    preferredMonths: Option<string>)

  predicate HasError(errors: seq<FieldError>, f: HabitFormField) {
    exists e :: e in errors && e.field == f
  }

  /** A repeat other than "none" was chosen (`reminder_repeat and reminder_repeat != "none"`). */
  predicate RepeatChosen(repeat: Option<string>) {
    repeat.Some? && repeat.value != "" && repeat.value != "none"
  }

  /** The three reminder rules hold of the cleaned values. */
  predicate RemindersAccepted(c: HabitCleaned) {
    && !(c.reminderEnabled && c.reminderStart.None?)
    && !(!c.reminderEnabled && RepeatChosen(c.reminderRepeat))
    && !(c.reminderStart.Some? && c.reminderUntil.Some? && DateBefore(c.reminderUntil.value, DateOf(c.reminderStart.value)))
  }

  /**
    `HabitForm.clean`: stores the comma-joined selections in the cleaned data and adds one
    error per broken reminder rule; the rules are checked independently, on the values read
    at the start, so errors accumulate. Adding an error to a field also drops that field
    from the cleaned data.
  */
  method HabitClean(cleaned: HabitCleaned) returns (out: HabitCleaned, errors: seq<FieldError>)
    ensures out.(reminderStart := cleaned.reminderStart, reminderRepeat := cleaned.reminderRepeat,
                 reminderUntil := cleaned.reminderUntil)
            == cleaned.(preferredWeekdays := Some(Join(cleaned.weekdaysList, ",")),
                         preferredMonths := Some(Join(cleaned.monthsList, ",")))
    ensures out.reminderStart == if HasError(errors, ReminderStartField) then None else cleaned.reminderStart
    ensures out.reminderRepeat == if HasError(errors, ReminderRepeatField) then None else cleaned.reminderRepeat
    ensures out.reminderUntil == if HasError(errors, ReminderUntilField) then None else cleaned.reminderUntil
    ensures HasError(errors, ReminderStartField) <==> cleaned.reminderEnabled && cleaned.reminderStart.None?
    ensures HasError(errors, ReminderRepeatField) <==> !cleaned.reminderEnabled && RepeatChosen(cleaned.reminderRepeat)
    ensures HasError(errors, ReminderUntilField) <==>
              cleaned.reminderStart.Some? && cleaned.reminderUntil.Some? &&
              DateBefore(cleaned.reminderUntil.value, DateOf(cleaned.reminderStart.value))
    ensures forall i, j :: 0 <= i < j < |errors| ==> errors[i].field != errors[j].field
    ensures forall e :: e in errors ==> e.message == MessageFor(e.field)
    ensures errors == [] <==> RemindersAccepted(cleaned)
  {
    var startError := cleaned.reminderEnabled && cleaned.reminderStart.None?;
    var repeatError := !cleaned.reminderEnabled && RepeatChosen(cleaned.reminderRepeat);
    var untilError := cleaned.reminderStart.Some? && cleaned.reminderUntil.Some?
                      && DateBefore(cleaned.reminderUntil.value, DateOf(cleaned.reminderStart.value));
    out := cleaned;
    out := out.(preferredWeekdays := Some(Join(cleaned.weekdaysList, ",")));
    out := out.(preferredMonths := Some(Join(cleaned.monthsList, ",")));
    errors := [];
    if startError {
      errors := errors + [FieldError(ReminderStartField, ReminderStartMessage)];
      out := out.(reminderStart := None);
    }
    if repeatError {
      errors := errors + [FieldError(ReminderRepeatField, ReminderRepeatMessage)];
      out := out.(reminderRepeat := None);
    }
    if untilError {
      errors := errors + [FieldError(ReminderUntilField, ReminderUntilMessage)];
      out := out.(reminderUntil := None);
    }
    assert HasError(errors, ReminderStartField) == startError;
    assert HasError(errors, ReminderRepeatField) == repeatError;
    assert HasError(errors, ReminderUntilField) == untilError;
  }

  /** Reminder values the form accepts, once stored, satisfy the habit's reminder invariant. */
  lemma AcceptedRemindersAreConsistent(c: HabitCleaned, h: Habit)
    requires RemindersAccepted(c)
    requires h.reminderEnabled == c.reminderEnabled && h.reminderStart == c.reminderStart
    requires h.reminderUntil == c.reminderUntil && c.reminderRepeat == Some(RepeatCode(h.reminderRepeat))
    ensures ReminderConsistent(h)
  {
    if h.reminderRepeat != NoRepeat {
      assert ParseRepeat("none") == Some(NoRepeat);
      assert RepeatCode(h.reminderRepeat) != "none";
      assert RepeatCode(h.reminderRepeat) != "";
    }
  }

  // ---------------------------------------- HabitForm: weekday/month selections

  /** `HabitForm.WEEKDAYS`: (code, label) choices. */
  const WeekdayChoices: seq<(string, string)> :=
    [("mon", "Mon"), ("tue", "Tue"), ("wed", "Wed"), ("thu", "Thu"), ("fri", "Fri"), ("sat", "Sat"), ("sun", "Sun")]

  /** `HabitForm.MONTHS`: (code, label) choices. */
  const MonthChoices: seq<(string, string)> :=
    [("1", "Jan"), ("2", "Feb"), ("3", "Mar"), ("4", "Apr"), ("5", "May"), ("6", "Jun"),
     ("7", "Jul"), ("8", "Aug"), ("9", "Sep"), ("10", "Oct"), ("11", "Nov"), ("12", "Dec")]

  predicate IsChoice(choices: seq<(string, string)>, code: string) {
    exists i :: 0 <= i < |choices| && choices[i].0 == code
  }

  /** `HabitForm.save`: the selections are stored comma-joined; no other field of the habit changes. */
  function SaveSelections(instance: Habit, weekdays: seq<string>, months: seq<string>): (h: Habit)
    ensures h.(preferredWeekdays := instance.preferredWeekdays, preferredMonths := instance.preferredMonths) == instance
    ensures weekdays == [] ==> h.preferredWeekdays == ""
    ensures months == [] ==> h.preferredMonths == ""
  {
    instance.(preferredWeekdays := Join(weekdays, ","), preferredMonths := Join(months, ","))
  }

  /**
    `HabitForm.__init__`: when the form edits a saved habit (its key is `pk`), a non-empty
    stored selection is split back into the list the checkboxes start from.
  */
  function InitialSelection(pk: Option<nat>, stored: string): Option<seq<string>>
  {
    if !IsSaved(pk) || stored == "" then None else Some(Split(stored, ','))
  }

  /** Joining choice codes and splitting the result gives the codes back. */
  lemma {:induction false} SelectionRoundTrip(choices: seq<(string, string)>, pk: Option<nat>, codes: seq<string>)
    requires choices == WeekdayChoices || choices == MonthChoices
    requires forall i :: 0 <= i < |codes| ==> IsChoice(choices, codes[i])
    ensures InitialSelection(pk, Join(codes, ",")) == if !IsSaved(pk) || codes == [] then None else Some(codes)
  {
    forall i | 0 <= i < |codes| ensures codes[i] != "" && ',' !in codes[i] {
      var k :| 0 <= k < |choices| && choices[k].0 == codes[i];
    }
    if codes != [] {
      SplitJoin(codes, ',');
    }
  }

  /** Saving a selection and opening the habit for editing again shows the same selection. */
  lemma SavedSelectionRoundTrip(instance: Habit, weekdays: seq<string>, months: seq<string>)
    requires forall i :: 0 <= i < |weekdays| ==> IsChoice(WeekdayChoices, weekdays[i])
    requires forall i :: 0 <= i < |months| ==> IsChoice(MonthChoices, months[i])
    ensures InitialSelection(Some(instance.id), SaveSelections(instance, weekdays, months).preferredWeekdays)
            == if instance.id == 0 || weekdays == [] then None else Some(weekdays)
    ensures InitialSelection(Some(instance.id), SaveSelections(instance, weekdays, months).preferredMonths)
            == if instance.id == 0 || months == [] then None else Some(months)
  {
    SelectionRoundTrip(WeekdayChoices, Some(instance.id), weekdays);
    SelectionRoundTrip(MonthChoices, Some(instance.id), months);
  }

  /**
    `HabitForm.save(commit)` of a new habit: the selections are joined into the instance,
    which is inserted when `commit` is set and handed back unsaved otherwise.
  */
  function HabitFormSaveOutcome(t: Tables, instance: Habit, weekdays: seq<string>, months: seq<string>,
                                commit: bool): (Tables, Result<Habit, DbError>)
  {
    var h := SaveSelections(instance, weekdays, months);
    if commit then SaveHabitOutcome(t, h) else (t, Ok(h))
  }

  /**
    A new habit whose name the form accepted for its owner (`HabitCreateView.form_valid`
    sets the owner to the requesting user) is inserted with its joined selections, and the
    tables keep every constraint, (owner, name) among them.
  */
  lemma AcceptedHabitSaves(t: Tables, raw: string, instance: Habit, weekdays: seq<string>, months: seq<string>)
    requires TablesValid(t)
    requires CleanName(raw, Some(instance.owner), None, t.habits).Ok?
    requires instance.name == CleanName(raw, Some(instance.owner), None, t.habits).value
    ensures var (t', r) := HabitFormSaveOutcome(t, instance, weekdays, months, true);
      && r == Ok(SaveSelections(instance, weekdays, months).(id := t.nextId))
      && t'.habits == t.habits + [r.value]
      && TablesValid(t')
  {
    AcceptedNameIsFree(raw, instance.owner, None, t.habits);
    SaveHabitKeepsValid(t, SaveSelections(instance, weekdays, months));
  }

  /** Without `commit`, the habit is handed back with its selections and nothing is written. */
  lemma UncommittedSaveWritesNothing(t: Tables, instance: Habit, weekdays: seq<string>, months: seq<string>)
    ensures var (t', r) := HabitFormSaveOutcome(t, instance, weekdays, months, false);
      t' == t && r.Ok? && r.value.id == instance.id
      && r.value.preferredWeekdays == Join(weekdays, ",") && r.value.preferredMonths == Join(months, ",")
  {
  }

  // ------------------------------------------------------ HabitCheckinForm

  const DuplicateMinuteMessage: string :=
    "A check-in for this habit at the same minute already exists. Choose a different time."

  /**
    `HabitCheckinForm.clean_performed_at`: the time cut to the minute, unless another
    check-in of the habit (not the one being edited) already sits at that minute.
  */
  function CleanPerformedAt(performedAt: Option<DateTime>, habit: Option<nat>, editing: Option<nat>,
                            checkins: seq<Checkin>): (r: Result<Option<DateTime>, string>)
    ensures r.Ok? ==> r.value == if performedAt.Some? then Some(TruncateToMinute(performedAt.value)) else None
    ensures r.Err? <==> performedAt.Some? && habit.Some? &&
                        exists k :: k in checkins && k.habit == habit.value && (!IsSaved(editing) || k.id != editing.value)
                                    && k.performedAt == TruncateToMinute(performedAt.value)
    ensures r.Err? ==> r.error == DuplicateMinuteMessage
  {
    var at := if performedAt.Some? then Some(performedAt.value.(second := 0, microsecond := 0)) else None;
    if habit.Some? && at.Some? then
      var qs := Filter(checkins, (k: Checkin) => k.habit == habit.value && k.performedAt == at.value);
      var qs' := if IsSaved(editing) then Filter(qs, (k: Checkin) => k.id != editing.value) else qs;
      if |qs'| > 0 then
        assert qs'[0] in qs';
        Err(DuplicateMinuteMessage)
      else Ok(at)
    else Ok(at)
  }

  /** Two times in the same minute collide: once one is stored, the other is refused. */
  lemma SameMinuteIsRefused(t: Tables, habit: nat, first: DateTime, second: DateTime, done: bool)
    requires SameMinute(first, second)
    requires SaveCheckinOutcome(t, habit, first, done).1.Ok?
    ensures CleanPerformedAt(Some(second), Some(habit), None, SaveCheckinOutcome(t, habit, first, done).0.checkins)
            == Err(DuplicateMinuteMessage)
  {
    var stored := SaveCheckinOutcome(t, habit, first, done).1.value;
    assert stored in SaveCheckinOutcome(t, habit, first, done).0.checkins;
  }

  /** The example of 12:00:05 and 12:00:45 on the same day. */
  lemma TwelveOhFiveAndTwelveOhFortyFive(t: Tables, habit: nat)
    requires SaveCheckinOutcome(t, habit, DateTime(2024, 3, 10, 12, 0, 5, 0), true).1.Ok?
    ensures CleanPerformedAt(Some(DateTime(2024, 3, 10, 12, 0, 45, 0)), Some(habit), None,
                             SaveCheckinOutcome(t, habit, DateTime(2024, 3, 10, 12, 0, 5, 0), true).0.checkins).Err?
  {
    SameMinuteIsRefused(t, habit, DateTime(2024, 3, 10, 12, 0, 5, 0), DateTime(2024, 3, 10, 12, 0, 45, 0), true);
  }

  /** A time the form accepts for an existing habit is stored without tripping the unique constraint. */
  lemma AcceptedTimeSaves(t: Tables, habit: nat, at: DateTime, done: bool)
    requires habit in HabitIds(t.habits)
    requires CleanPerformedAt(Some(at), Some(habit), None, t.checkins).Ok?
    ensures SaveCheckinOutcome(t, habit, at, done).1.Ok?
  {
  }
}
