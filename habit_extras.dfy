/**
  The template filters that turn a habit's stored preference strings into
  display text: weekday codes to short day names, month numbers to short month
  names, and `HH:MM` times to a twelve-hour reading with AM or PM.
*/
module HabitExtras {
  import opened Wrappers
  import opened Text
  import opened Models
  import opened Forms

  /** `WEEKDAY_MAP`. */
  const WeekdayMap: map<string, string> :=
    map["mon" := "Mon", "tue" := "Tue", "wed" := "Wed", "thu" := "Thu",
        "fri" := "Fri", "sat" := "Sat", "sun" := "Sun"]

  /** `MONTH_MAP`. */
  const MonthMap: map<string, string> :=
    map["1" := "Jan", "2" := "Feb", "3" := "Mar", "4" := "Apr",
        "5" := "May", "6" := "Jun", "7" := "Jul", "8" := "Aug",
        "9" := "Sep", "10" := "Oct", "11" := "Nov", "12" := "Dec"]

  /** `m.get(x, x)`: the label of a known code, anything else unchanged. */
  function LabelOf(m: map<string, string>, x: string): string {
    if x in m then m[x] else x
  }

  function ItemLabels(m: map<string, string>, items: seq<string>): (r: seq<string>)
    ensures |r| == |items|
    ensures forall i :: 0 <= i < |items| ==> r[i] == LabelOf(m, items[i])
  {
    seq(|items|, i requires 0 <= i < |items| => LabelOf(m, items[i]))
  }

  /** The shared body of `weekday_labels` and `month_labels`. */
  function Labels(m: map<string, string>, csv: string): (r: string)
    ensures csv == "" ==> r == ""
  {
    if csv == "" then "" else Join(ItemLabels(m, CommaItems(csv)), ", ")
  }

  /** `weekday_labels`. */
  function WeekdayLabels(csv: string): (r: string)
    ensures csv == "" ==> r == ""
  {
    Labels(WeekdayMap, csv)
  }

  /** `month_labels`. */
  function MonthLabels(csv: string): (r: string)
    ensures csv == "" ==> r == ""
  {
    Labels(MonthMap, csv)
  }

  /** A stored selection of trimmed, comma-free codes is shown as the labels of those codes, in order. */
  lemma LabelsOfStoredCodes(m: map<string, string>, codes: seq<string>)
    requires forall i :: 0 <= i < |codes| ==> Trimmed(codes[i]) && ',' !in codes[i]
    ensures Labels(m, Join(codes, ",")) == Join(ItemLabels(m, codes), ", ")
  {
    if |codes| > 0 {
      JoinOfTrimmed(codes, ",");
      CommaItemsOfJoin(codes);
    }
  }

  /** Every weekday choice of the habit form is labelled with the label the form shows for it. */
  lemma WeekdayMapAgreesWithChoices()
    ensures forall k :: 0 <= k < |WeekdayChoices| ==>
      WeekdayChoices[k].0 in WeekdayMap && WeekdayMap[WeekdayChoices[k].0] == WeekdayChoices[k].1
  {
  }

  /** Every month choice of the habit form is labelled with the label the form shows for it. */
  lemma MonthMapAgreesWithChoices()
    ensures forall k :: 0 <= k < |MonthChoices| ==>
      MonthChoices[k].0 in MonthMap && MonthMap[MonthChoices[k].0] == MonthChoices[k].1
  {
  }

  lemma ChoiceCodesAreTrimmed(choices: seq<(string, string)>, codes: seq<string>)
    requires choices == WeekdayChoices || choices == MonthChoices
    requires forall i :: 0 <= i < |codes| ==> IsChoice(choices, codes[i])
    ensures forall i :: 0 <= i < |codes| ==> Trimmed(codes[i]) && ',' !in codes[i]
  {
    forall i | 0 <= i < |codes| ensures Trimmed(codes[i]) && ',' !in codes[i] {
      var k :| 0 <= k < |choices| && choices[k].0 == codes[i];
    }
  }

  /** The weekdays a habit form saved are displayed with the form's own labels, in the saved order. */
  lemma SavedWeekdaysDisplay(h: Habit, weekdays: seq<string>, months: seq<string>)
    requires forall i :: 0 <= i < |weekdays| ==> IsChoice(WeekdayChoices, weekdays[i])
    ensures var shown := WeekdayLabels(SaveSelections(h, weekdays, months).preferredWeekdays);
      shown == Join(ItemLabels(WeekdayMap, weekdays), ", ")
      && forall i, k :: 0 <= i < |weekdays| && 0 <= k < |WeekdayChoices| && WeekdayChoices[k].0 == weekdays[i] ==>
           ItemLabels(WeekdayMap, weekdays)[i] == WeekdayChoices[k].1
  {
    ChoiceCodesAreTrimmed(WeekdayChoices, weekdays);
    LabelsOfStoredCodes(WeekdayMap, weekdays);
    WeekdayMapAgreesWithChoices();
  }

  /** The months a habit form saved are displayed with the form's own labels, in the saved order. */
  lemma SavedMonthsDisplay(h: Habit, weekdays: seq<string>, months: seq<string>)
    requires forall i :: 0 <= i < |months| ==> IsChoice(MonthChoices, months[i])
    ensures var shown := MonthLabels(SaveSelections(h, weekdays, months).preferredMonths);
      shown == Join(ItemLabels(MonthMap, months), ", ")
      && forall i, k :: 0 <= i < |months| && 0 <= k < |MonthChoices| && MonthChoices[k].0 == months[i] ==>
           ItemLabels(MonthMap, months)[i] == MonthChoices[k].1
  {
    ChoiceCodesAreTrimmed(MonthChoices, months);
    LabelsOfStoredCodes(MonthMap, months);
    MonthMapAgreesWithChoices();
  }

  // ------------------------------------------------------------ time_labels

  /** `h % 12`, with 0 shown as 12. */
  function TwelveHour(h: int): (r: nat)
    ensures 1 <= r <= 12
    ensures r % 12 == h % 12
  {
    if h % 12 == 0 then 12 else h % 12
  }

  function Meridiem(h: int): string {
    if h >= 12 then "PM" else "AM"
  }

  /**
    One item as the loop body of `time_labels` renders it: `H:MM AM` or `H:MM PM`, or the item
    unchanged when it does not split into exactly two parts around ":" or the hour is not an integer.
  */
  function TimeLabel(t: string): string {
    var hm := Split(t, ':');
    if |hm| != 2 then t
    else match ParseInt(hm[0])
      case None => t
      case Some(h) => NatToString(TwelveHour(h)) + ":" + hm[1] + " " + Meridiem(h)
  }

  /** The rendered items, in order. */
  function TimeItemLabels(items: seq<string>): (r: seq<string>)
    ensures |r| == |items|
  {
    if |items| == 0 then [] else TimeItemLabels(items[..|items| - 1]) + [TimeLabel(items[|items| - 1])]
  }

  /** What `time_labels` returns. */
  function TimeLabelsText(csv: string): string {
    if csv == "" then "" else Join(TimeItemLabels(CommaItems(csv)), ", ")
  }

  /** `time_labels`: renders every item in turn, collecting the results in `out`. */
  method TimeLabels(csv: string) returns (r: string)
    ensures r == TimeLabelsText(csv)
    ensures csv == "" ==> r == ""
  {
    if csv == "" {
      return "";
    }
    var items := CommaItems(csv);
    var out: seq<string> := [];
    var k := 0;
    while k < |items|
      invariant 0 <= k <= |items|
      invariant out == TimeItemLabels(items[..k])
    {
      var t := items[k];
      var hm := Split(t, ':');
      var shown: string;
      if |hm| != 2 {
        shown := t;
      } else {
        var parsed := ParseInt(hm[0]);
        if parsed.None? {
          shown := t;
        } else {
          var h := parsed.value;
          var ampm := if h >= 12 then "PM" else "AM";
          h := h % 12;
          if h == 0 {
            h := 12;
          }
          assert h == TwelveHour(parsed.value) && ampm == Meridiem(parsed.value);
          shown := NatToString(h) + ":" + hm[1] + " " + ampm;
        }
      }
      assert shown == TimeLabel(t);
      TimeItemLabelsSnoc(items, k);
      out := out + [shown];
      k := k + 1;
    }
    assert items[..k] == items;
    r := Join(out, ", ");
  }

  /** Rendering one more item appends its label. */
  lemma TimeItemLabelsSnoc(items: seq<string>, k: nat)
    requires k < |items|
    ensures TimeItemLabels(items[..k + 1]) == TimeItemLabels(items[..k]) + [TimeLabel(items[k])]
  {
    assert items[..k + 1][..k] == items[..k];
  }

  /** Item `i` of the rendered items is item `i` rendered. */
  lemma {:induction false} TimeItemLabelsAt(items: seq<string>, i: int)
    requires 0 <= i < |items|
    ensures TimeItemLabels(items)[i] == TimeLabel(items[i])
  {
    var n := |items| - 1;
    var front := items[..n];
    var last := TimeLabel(items[n]);
    var labels := TimeItemLabels(front);
    assert TimeItemLabels(items) == labels + [last];
    if i < n {
      TimeItemLabelsAt(front, i);
      assert front[i] == items[i];
      assert (labels + [last])[i] == labels[i];
    }
  }

  /** The reading of an hour of the day on a twelve-hour clock, written out case by case. */
  function ClockFace(h: int, mm: string): string
    requires 0 <= h <= 23
  {
    if h == 0 then "12:" + mm + " AM"
    else if h < 12 then NatToString(h) + ":" + mm + " AM"
    else if h == 12 then "12:" + mm + " PM"
    else NatToString(h - 12) + ":" + mm + " PM"
  }

  lemma TwelveText()
    ensures NatToString(12) == "12"
  {
  }

  /** `h % 12` (0 shown as 12) and the meridiem give the clock reading of every hour of the day. */
  lemma TwelveHourClockFace(h: int, mm: string)
    requires 0 <= h <= 23
    ensures NatToString(TwelveHour(h)) + ":" + mm + " " + Meridiem(h) == ClockFace(h, mm)
  {
    TwelveText();
    if h == 0 || h == 12 {
      assert TwelveHour(h) == 12;
    } else if h < 12 {
      assert TwelveHour(h) == h;
    } else {
      assert TwelveHour(h) == h - 12;
    }
  }

  /** The minute text is copied as it is, and the hour is read on a twelve-hour clock. */
  lemma TimeLabelOfParts(hh: string, mm: string)
    requires ':' !in hh && ':' !in mm
    requires ParseInt(hh).Some?
    ensures TimeLabel(hh + ":" + mm) ==
      NatToString(TwelveHour(ParseInt(hh).value)) + ":" + mm + " " + Meridiem(ParseInt(hh).value)
  {
    SplitAtOne(hh, mm, ':');
  }

  /** Every time the habit form accepts is displayed as its twelve-hour clock reading. */
  lemma TimeLabelOfClockTime(t: string)
    requires IsClockTime(t)
    ensures TimeLabel(t) == ClockFace(ParseInt(Split(t, ':')[0]).value, Split(t, ':')[1])
  {
    var hm := Split(t, ':');
    var h := ParseInt(hm[0]).value;
    assert TimeLabel(t) == NatToString(TwelveHour(h)) + ":" + hm[1] + " " + Meridiem(h);
    TwelveHourClockFace(h, hm[1]);
  }

  /** Every item of an accepted preferred-times value is displayed as its clock reading. */
  lemma StoredTimesDisplay(raw: string)
    requires CleanPreferredTimes(raw).Ok?
    ensures var items := CommaItems(CleanPreferredTimes(raw).value);
      forall i :: 0 <= i < |items| ==>
        IsClockTime(items[i]) &&
        TimeItemLabels(items)[i] == ClockFace(ParseInt(Split(items[i], ':')[0]).value, Split(items[i], ':')[1])
  {
    PreferredTimesNormalised(raw);
    var items := CommaItems(CleanPreferredTimes(raw).value);
    forall i | 0 <= i < |items|
      ensures IsClockTime(items[i])
      ensures TimeItemLabels(items)[i] == ClockFace(ParseInt(Split(items[i], ':')[0]).value, Split(items[i], ':')[1])
    {
      assert items[i] in items;
      TimeItemLabelsAt(items, i);
      TimeLabelOfClockTime(items[i]);
    }
  }

  /** An item without a colon is shown unchanged. */
  lemma TimeLabelWithoutColon(t: string)
    requires ':' !in t
    ensures TimeLabel(t) == t
  {
    SplitWithoutSeparator(t, ':');
  }

  /** An item whose hour is not an integer is shown unchanged. */
  lemma TimeLabelOfNonIntegerHour(hh: string, mm: string)
    requires ':' !in hh && ':' !in mm
    requires ParseInt(hh).None?
    ensures TimeLabel(hh + ":" + mm) == hh + ":" + mm
  {
    SplitAtOne(hh, mm, ':');
  }

  /** An item with two or more colons splits into more than two parts, and is shown unchanged. */
  lemma TimeLabelOfManyColons(parts: seq<string>)
    requires |parts| >= 3
    requires forall i :: 0 <= i < |parts| ==> ':' !in parts[i]
    ensures TimeLabel(Join(parts, ":")) == Join(parts, ":")
  {
    SplitJoin(parts, ':');
  }

  lemma EightText()
    ensures NatToString(8) == "8"
  {
  }

  lemma ParseEight()
    ensures ParseInt("08") == Some(8)
  {
    TwoDigitValue("08");
  }

  lemma ParseTwenty()
    ensures ParseInt("20") == Some(20)
  {
    TwoDigitValue("20");
  }

  lemma EightAmText()
    ensures NatToString(TwelveHour(8)) + ":" + "00" + " " + Meridiem(8) == "8:00 AM"
  {
    EightText();
  }

  lemma EightPmText()
    ensures NatToString(TwelveHour(20)) + ":" + "00" + " " + Meridiem(20) == "8:00 PM"
  {
    EightText();
  }

  lemma EightPmAmText()
    ensures NatToString(TwelveHour(8)) + ":" + "00 PM" + " " + Meridiem(8) == "8:00 PM AM"
  {
    EightText();
  }

  /** `"08:00"` reads as 8 AM. */
  lemma MorningLabel(t: string)
    requires t == "08:00"
    ensures TimeLabel(t) == "8:00 AM"
  {
    var hh, mm := "08", "00";
    assert hh + ":" + mm == t;
    ParseEight();
    TimeLabelOfParts(hh, mm);
    EightAmText();
  }

  /** `"20:00"` reads as 8 PM. */
  lemma EveningLabel(t: string)
    requires t == "20:00"
    ensures TimeLabel(t) == "8:00 PM"
  {
    var hh, mm := "20", "00";
    assert hh + ":" + mm == t;
    ParseTwenty();
    TimeLabelOfParts(hh, mm);
    EightPmText();
  }

  lemma JoinOfTwo(a: string, b: string, sep: string)
    ensures Join([a, b], sep) == a + sep + b
  {
    assert [a, b][1..] == [b];
  }

  lemma TimeItemLabelsOfTwo(items: seq<string>)
    requires |items| == 2
    ensures TimeItemLabels(items) == [TimeLabel(items[0]), TimeLabel(items[1])]
  {
    assert items[..1][..0] == [];
  }

  lemma ExampleTimesAreItems(a: string, b: string)
    requires a == "08:00" && b == "20:00"
    ensures Trimmed(a) && Trimmed(b) && ',' !in a && ',' !in b
  {
  }

  /** The documented example: the stored value `"08:00,20:00"` is displayed as `"8:00 AM, 8:00 PM"`. */
  lemma DocumentedExample(a: string, b: string)
    requires a == "08:00" && b == "20:00"
    ensures TimeLabelsText(a + "," + b) == "8:00 AM, 8:00 PM"
  {
    JoinOfTwo(a, b, ",");
    ExampleTimesAreItems(a, b);
    CommaItemsOfJoin([a, b]);
    TimeItemLabelsOfTwo([a, b]);
    MorningLabel(a);
    EveningLabel(b);
    JoinOfTwo("8:00 AM", "8:00 PM", ", ");
  }

  /**
    A twelve-hour text such as `"08:00 PM"` does split into two parts around ":", and its
    hour parses, so it is not shown unchanged: the minute part is kept and a second
    meridiem is appended.
  */
  lemma TwelveHourTextGetsSecondMeridiem(t: string)
    requires t == "08:00 PM"
    ensures TimeLabel(t) == "8:00 PM AM"
  {
    var hh, mm := "08", "00 PM";
    assert hh + ":" + mm == t;
    ParseEight();
    TimeLabelOfParts(hh, mm);
    EightPmAmText();
  }
}
