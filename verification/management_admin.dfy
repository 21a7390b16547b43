/** The pure display helpers of the management admin: the shortened day list and the
    duration column of the timetable admin. The class info and the bilingual name column
    share their formats with ManagementModels (`ClassInfo`, `SlashPair`).
 */
module ManagementAdmin {
  import opened Wrappers
  import opened Text
  import opened Seqs
  import opened ManagementModels
  import opened ManagementSerializers

  /** The text after the third day when more than three are selected: `"... (+n)"`. */
  function MoreDays(n: int): (r: string)
    ensures StartsWith(r, "... (+") && r[|r| - 1] == ')'
    ensures ParseInt(r[6..|r| - 1]) == Some(n)
  {
    var digits := IntToString(n);
    ParseIntOfIntToString(n);
    SliceMiddle("... (+", digits, ")");
    "... (+" + digits + ")"
  }

  /** `get_days_display_short`: "No days" for none, all labels comma-joined for up to
      three, otherwise the first three joined and the number left out. */
  function DaysShort(days: seq<string>): (r: string)
    ensures days == [] ==> r == "No days"
    ensures 1 <= |days| <= 3 ==> r == Join(DaysDisplay(days), ", ")
    ensures |days| > 3 ==>
              StartsWith(r, Join(DaysDisplay(days)[..3], ", ")) &&
              r[|Join(DaysDisplay(days)[..3], ", ")|..] == MoreDays(|days| - 3)
  {
    var shown := DaysDisplay(days);
    if |shown| > 3 then
      var head := Join(shown[..3], ", ");
      var r := head + MoreDays(|shown| - 3);
      assert r[..|head|] == head && r[|head|..] == MoreDays(|shown| - 3);
      r
    else if |shown| > 0 then Join(shown, ", ")
    else "No days"
  }

  /** Days past the third change only the count at the end: the short display of a longer
      list is that of its first three days followed by the number left out. */
  lemma DaysShortTruncates(days: seq<string>)
    requires |days| > 3
    ensures DaysShort(days) == DaysShort(days[..3]) + MoreDays(|days| - 3)
  {
    assert days == days[..3] + days[3..];
    MapDaysConcat(WeekdayChoices, days[..3], days[3..]);
    assert DaysDisplay(days)[..3] == DaysDisplay(days[..3]);
  }

  /** `get_duration` of the timetable admin: "-" when a time is missing, otherwise the same
      text as the serializer. */
  function AdminDuration(start: Option<Time>, end: Option<Time>): (r: string)
    ensures start.None? || end.None? ==> r == "-"
  {
    match (start, end)
    case (Some(s), Some(e)) =>
      var p := DurationParts(s, e);
      HoursMinutes(p.0, p.1)
    case _ => "-"
  }

  /** The admin and the serializer agree whenever both times are set, and differ only in
      the text for a missing time. */
  lemma AdminDurationAgrees(start: Option<Time>, end: Option<Time>)
    ensures start.Some? && end.Some? ==> AdminDuration(start, end) == Duration(start, end)
    ensures start.None? || end.None? ==> AdminDuration(start, end) != Duration(start, end)
  {
  }
}
