/** The management serializers' derived fields and the timetable `validate` rule.

 - Timetable: duration arithmetic from hour and minute (seconds are ignored), the
   start/end and weekday validation.
 - University and Organ: the representative's combined name.
 - Class detail: registration counts and the payment total under an optional month filter.
 - Entrance detail: one entry per registration with that student's payments to this
   entrance summed.
 - Display names of the serializers resolve `ko or uz`.
 */
module ManagementSerializers {
  import opened Wrappers
  import opened Text
  import opened Seqs
  import opened Bilingual
  import opened ManagementModels
  import opened Finance

  // ---------------------------------------------------------------------------
  // Times and durations

  datatype TimeOfDay = TimeOfDay(hour: int, minute: int, second: int)

  predicate ValidTime(t: TimeOfDay) {
    0 <= t.hour < 24 && 0 <= t.minute < 60 && 0 <= t.second < 60
  }

  /** A `datetime.time` value (microseconds are not modelled). */
  type Time = t: TimeOfDay | ValidTime(t) witness TimeOfDay(0, 0, 0)

  function MinuteOfDay(t: Time): int {
    t.hour * 60 + t.minute
  }

  /** The position of a time within the day; times compare by it. */
  function SecondOfDay(t: Time): int {
    MinuteOfDay(t) * 60 + t.second
  }

  /** `duration // 60` and `duration % 60` of the minute difference; Python's floor
      division agrees with Euclidean division for the positive divisor 60. */
  function DurationParts(start: Time, end: Time): (r: (int, int))
    ensures 60 * r.0 + r.1 == MinuteOfDay(end) - MinuteOfDay(start)
    ensures 0 <= r.1 < 60
  {
    var d := MinuteOfDay(end) - MinuteOfDay(start);
    (d / 60, d % 60)
  }

  /** Hours and minutes are the only split of the difference with minutes in 0..59. */
  lemma DurationPartsUnique(start: Time, end: Time, h: int, m: int)
    ensures DurationParts(start, end) == (h, m) <==>
            60 * h + m == MinuteOfDay(end) - MinuteOfDay(start) && 0 <= m < 60
  {
    var r := DurationParts(start, end);
    if 60 * h + m == MinuteOfDay(end) - MinuteOfDay(start) && 0 <= m < 60 {
      assert 60 * (h - r.0) == r.1 - m;
      assert -60 < r.1 - m < 60;
    }
  }

  /** `f"{hours}h {minutes}m"`. */
  function HoursMinutes(h: int, m: int): (r: string)
    ensures StartsWith(r, IntToString(h)) && r[|r| - 1] == 'm'
    ensures var hs, ms := IntToString(h), IntToString(m);
            && |r| == |hs| + |ms| + 3
            && r[|hs|..|hs| + 2] == "h " && r[|hs| + 2..|r| - 1] == ms
  {
    var hs, ms := IntToString(h), IntToString(m);
    var r := hs + "h " + ms + "m";
    assert r[|hs|..|hs| + 2] == "h ";
    assert r[|hs| + 2..|r| - 1] == ms;
    r
  }

  /** Reads `"{h}h {m}m"` back: the hours before the first 'h', the minutes between the
      following space and the final 'm'. */
  function ParseHoursMinutes(s: string): (r: Option<(int, int)>)
    ensures r.Some? ==> |s| > 0 && s[|s| - 1] == 'm'
  {
    if |s| == 0 || s[|s| - 1] != 'm' then None
    else
      match FirstIndex(s, 'h')
      case None => None
      case Some(k) =>
        if k + 2 > |s| - 1 || s[k + 1] != ' ' then None
        else
          match (ParseInt(s[..k]), ParseInt(s[k + 2..|s| - 1]))
          case (Some(h), Some(m)) => Some((h, m))
          case _ => None
  }

  /** Both numbers read back from the rendered duration. */
  lemma HoursMinutesReadsBack(h: int, m: int)
    ensures ParseHoursMinutes(HoursMinutes(h, m)) == Some((h, m))
  {
    var r, hs := HoursMinutes(h, m), IntToString(h);
    IntToStringSymbols(h);
    forall j | 0 <= j < |hs| ensures r[j] != 'h' {
      assert r[j] == r[..|hs|][j];
    }
    assert r[|hs|] == r[|hs|..|hs| + 2][0];
    assert r[|hs| + 1] == r[|hs|..|hs| + 2][1];
    FirstIndexAt(r, 'h', |hs|);
    ParseIntOfIntToString(h);
    ParseIntOfIntToString(m);
  }

  /** `get_duration` of the timetable serializer: "0h 0m" unless both times are present. */
  function Duration(start: Option<Time>, end: Option<Time>): (r: string)
    ensures start.None? || end.None? ==> r == "0h 0m"
    ensures start.Some? && end.Some? ==>
              exists h, m :: r == HoursMinutes(h, m) && 60 * h + m == MinuteOfDay(end.value) - MinuteOfDay(start.value) && 0 <= m < 60
  {
    match (start, end)
    case (Some(s), Some(e)) =>
      var p := DurationParts(s, e);
      HoursMinutes(p.0, p.1)
    case _ => "0h 0m"
  }

  /** A rendered duration reads back as the hours and minutes between the two times. */
  lemma DurationReadsBack(start: Time, end: Time)
    ensures ParseHoursMinutes(Duration(Some(start), Some(end))).Some?
    ensures var (h, m) := ParseHoursMinutes(Duration(Some(start), Some(end))).value;
            60 * h + m == MinuteOfDay(end) - MinuteOfDay(start) && 0 <= m < 60
  {
    var p := DurationParts(start, end);
    HoursMinutesReadsBack(p.0, p.1);
  }

  // ---------------------------------------------------------------------------
  // Timetable validation

  /** The `days` value of the request data: absent, a list, or anything else. */
  datatype DaysInput = DaysAbsent | DaysList(days: seq<string>) | DaysNotList

  datatype TimetableData = TimetableData(start: Option<Time>, end: Option<Time>, days: DaysInput)

  datatype TimetableError = EndNotAfterStart | DaysNotAList | InvalidDay(day: string)

  datatype TimetableCheck = Accepted | Rejected(error: TimetableError)

  predicate IsWeekday(d: string) {
    d in WeekdayKeys
  }

  /** The first day that is not one of the seven weekday keys. */
  function FirstInvalidDay(days: seq<string>): (r: Option<nat>)
    ensures r.None? <==> forall i :: 0 <= i < |days| ==> IsWeekday(days[i])
    ensures r.Some? ==> r.value < |days| && !IsWeekday(days[r.value]) &&
                        forall i :: 0 <= i < r.value ==> IsWeekday(days[i])
  {
    if |days| == 0 then None
    else if !IsWeekday(days[0]) then Some(0)
    else
      match FirstInvalidDay(days[1..])
      case None => None
      case Some(k) => Some(k + 1)
  }

  /** The times of a timetable are in order when both are present. */
  predicate TimesOrdered(d: TimetableData) {
    d.start.Some? && d.end.Some? ==> SecondOfDay(d.start.value) < SecondOfDay(d.end.value)
  }

  /** `ClassTimeTableCreateUpdateSerializer.validate`: times first, then the shape of
      `days` (absent means `[]`), then each day in order. */
  function ValidateTimetable(d: TimetableData): (r: TimetableCheck)
    ensures r.Accepted? <==> TimesOrdered(d) && !d.days.DaysNotList? &&
                             (d.days.DaysList? ==> forall i :: 0 <= i < |d.days.days| ==> IsWeekday(d.days.days[i]))
    ensures r == Rejected(EndNotAfterStart) <==> !TimesOrdered(d)
    ensures r == Rejected(DaysNotAList) <==> TimesOrdered(d) && d.days.DaysNotList?
    ensures r.Rejected? && r.error.InvalidDay? ==>
              TimesOrdered(d) && d.days.DaysList? && r.error.day in d.days.days && !IsWeekday(r.error.day)
    ensures r.Rejected? && r.error.InvalidDay? ==>
              exists k :: 0 <= k < |d.days.days| && d.days.days[k] == r.error.day &&
                          forall i :: 0 <= i < k ==> IsWeekday(d.days.days[i])
  {
    if !TimesOrdered(d) then Rejected(EndNotAfterStart)
    else
      match d.days
      case DaysNotList => Rejected(DaysNotAList)
      case DaysAbsent => Accepted
      case DaysList(days) =>
        match FirstInvalidDay(days)
        case None => Accepted
        case Some(k) => Rejected(InvalidDay(days[k]))
  }

  /** An accepted timetable never has a negative duration. */
  lemma AcceptedDurationNonNegative(d: TimetableData)
    requires ValidateTimetable(d).Accepted? && d.start.Some? && d.end.Some?
    ensures DurationParts(d.start.value, d.end.value).0 >= 0
  {
    var s, e := d.start.value, d.end.value;
    assert MinuteOfDay(s) * 60 + s.second < MinuteOfDay(e) * 60 + e.second;
    assert 60 * (MinuteOfDay(e) - MinuteOfDay(s)) > s.second - e.second > -60;
  }

  /** Seconds count for the order check but not for the duration: a timetable that ends
      thirty seconds after it starts is accepted and lasts "0h 0m". */
  lemma SecondsOnlyDuration()
    ensures ValidateTimetable(TimetableData(Some(TimeOfDay(10, 0, 0)), Some(TimeOfDay(10, 0, 30)), DaysAbsent)).Accepted?
    ensures Duration(Some(TimeOfDay(10, 0, 0)), Some(TimeOfDay(10, 0, 30))) == HoursMinutes(0, 0)
  {
    var s: Time := TimeOfDay(10, 0, 0);
    var e: Time := TimeOfDay(10, 0, 30);
    DurationPartsUnique(s, e, 0, 0);
  }

  /** Every day of an accepted list displays as its bilingual label, never passed through. */
  lemma AcceptedDaysDisplayLabels(d: TimetableData)
    requires ValidateTimetable(d).Accepted? && d.days.DaysList?
    ensures forall i :: 0 <= i < |d.days.days| ==>
              d.days.days[i] in WeekdayChoices && DaysDisplay(d.days.days)[i] == WeekdayChoices[d.days.days[i]]
  {
    WeekdayTablesAgree();
  }

  // ---------------------------------------------------------------------------
  // Representative name

  const SpaceOrSlash: set<char> := {' ', '/'}

  /** `get_representative_name` of University and Organ: `"{ko or ''} / {uz or ''}"` with
      spaces and slashes stripped from both ends. */
  function RepresentativeName(ko: Option<string>, uz: Option<string>): (r: string)
    ensures r != "" ==> r[0] !in SpaceOrSlash && r[|r| - 1] !in SpaceOrSlash
    ensures |r| <= |ko.GetOr("")| + 3 + |uz.GetOr("")|
  {
    Strip(SlashPair(ko.GetOr(""), uz.GetOr("")), SpaceOrSlash)
  }

  /** Without either name the representative name is empty. */
  lemma RepresentativeNameEmpty(ko: Option<string>, uz: Option<string>)
    requires ko.GetOr("") == "" && uz.GetOr("") == ""
    ensures RepresentativeName(ko, uz) == ""
  {
    var s := SlashPair("", "");
    assert s == " / ";
    StripAll(s, SpaceOrSlash);
  }

  /** Names that begin and end with other characters are kept whole around " / ". */
  lemma RepresentativeNameBoth(ko: string, uz: string)
    requires ko != "" && ko[0] !in SpaceOrSlash
    requires uz != "" && uz[|uz| - 1] !in SpaceOrSlash
    ensures RepresentativeName(Some(ko), Some(uz)) == SlashPair(ko, uz)
  {
    var s := SlashPair(ko, uz);
    assert s[0] == ko[0];
    assert s[|s| - 1] == uz[|uz| - 1];
    StripKeeps(s, SpaceOrSlash);
  }

  /** With only the Uzbek name, the leading " / " is stripped away. */
  lemma RepresentativeNameUzOnly(uz: string)
    requires uz != "" && uz[0] !in SpaceOrSlash && uz[|uz| - 1] !in SpaceOrSlash
    ensures RepresentativeName(None, Some(uz)) == uz
  {
    var s := SlashPair("", uz);
    assert s == " / " + uz;
    StripRemovesPrefix(" / ", uz);
  }

  lemma StripRemovesPrefix(pre: string, s: string)
    requires forall k :: 0 <= k < |pre| ==> pre[k] in SpaceOrSlash
    requires s != "" && s[0] !in SpaceOrSlash && s[|s| - 1] !in SpaceOrSlash
    ensures Strip(pre + s, SpaceOrSlash) == s
  {
    var t := pre + s;
    var r := Strip(t, SpaceOrSlash);
    StripLeftOfPrefix(pre, s);
    StripKeeps(s, SpaceOrSlash);
  }

  lemma {:induction false} StripLeftOfPrefix(pre: string, s: string)
    requires forall k :: 0 <= k < |pre| ==> pre[k] in SpaceOrSlash
    requires s != "" && s[0] !in SpaceOrSlash
    ensures StripLeft(pre + s, SpaceOrSlash) == StripLeft(s, SpaceOrSlash)
  {
    if |pre| > 0 {
      assert (pre + s)[1..] == pre[1..] + s;
      StripLeftOfPrefix(pre[1..], s);
    } else {
      assert pre + s == s;
    }
  }

  // ---------------------------------------------------------------------------
  // Class detail counts and totals

  predicate IsActive(r: ClassRegistration) {
    r.state == 1
  }

  /** `total_students`: the class's registrations. */
  function TotalStudents(regs: seq<ClassRegistration>): (n: nat)
    ensures n == |regs|
  {
    |regs|
  }

  /** `active_students`: registrations in state 1; never more than the total, and equal to
      it exactly when every registration is active. */
  function ActiveStudents(regs: seq<ClassRegistration>): (n: nat)
    ensures n <= TotalStudents(regs)
    ensures n == TotalStudents(regs) <==> forall i :: 0 <= i < |regs| ==> IsActive(regs[i])
  {
    if forall i :: 0 <= i < |regs| ==> IsActive(regs[i]) then
      FilterAll(regs, IsActive);
      Count(regs, IsActive)
    else
      var i :| 0 <= i < |regs| && !IsActive(regs[i]);
      FilterShorter(regs, IsActive, i);
      Count(regs, IsActive)
  }

  /** The total is the active registrations plus those in any other state. */
  lemma TotalStudentsSplit(regs: seq<ClassRegistration>)
    ensures TotalStudents(regs) == ActiveStudents(regs) + Count(regs, Not(IsActive))
  {
    CountSplit(regs, IsActive);
  }

  function MonthIs(m: int): ClassPayment -> bool {
    (p: ClassPayment) => p.paymentMonth == m
  }

  /** `get_payments`: the class's payments, narrowed to one payment month when a filter is
      given, in table order. */
  function ListedPayments(payments: seq<ClassPayment>, month: Option<int>): (r: seq<ClassPayment>)
    ensures month.None? ==> r == payments
    ensures month.Some? ==> forall i :: 0 <= i < |r| ==> r[i] in payments && r[i].paymentMonth == month.value
    ensures month.Some? ==> forall i :: 0 <= i < |payments| && payments[i].paymentMonth == month.value ==> payments[i] in r
  {
    match month
    case None => payments
    case Some(m) => Filter(payments, MonthIs(m))
  }

  /** `get_total_payments`: the sum of the payments the list shows. Under a filter it is the
      sum over all of the class's payments counting only those of the filtered month. */
  function TotalPayments(payments: seq<ClassPayment>, month: Option<int>): (t: int)
    ensures month.None? ==> t == SumBy(payments, ClassAmount)
    ensures month.Some? ==> t == SumBy(payments, Masked(MonthIs(month.value), ClassAmount))
  {
    match month
    case None => SumBy(payments, ClassAmount)
    case Some(m) =>
      SumByMasked(payments, MonthIs(m), ClassAmount);
      SumBy(Filter(payments, MonthIs(m)), ClassAmount)
  }

  /** The total shown equals the sum of the payments listed beside it. */
  lemma TotalMatchesList(payments: seq<ClassPayment>, month: Option<int>)
    ensures TotalPayments(payments, month) == SumBy(ListedPayments(payments, month), ClassAmount)
  {
    if month.Some? {
      SumByMasked(payments, MonthIs(month.value), ClassAmount);
    }
  }

  /** The filtered total and the total of the other months add up to the unfiltered total. */
  lemma TotalPaymentsSplit(payments: seq<ClassPayment>, m: int)
    ensures TotalPayments(payments, Some(m)) + SumBy(Filter(payments, Not(MonthIs(m))), ClassAmount) ==
            TotalPayments(payments, None)
  {
    TotalMatchesList(payments, Some(m));
    SumBySplit(payments, MonthIs(m), ClassAmount);
  }

  // ---------------------------------------------------------------------------
  // Entrance students

  /** A registration to an entrance with its student. */
  datatype EntranceRow = EntranceRow(registration: EnteranceRegistration, student: Student)

  /** A student as `get_students` lists it, with the per-entrance annotations. */
  datatype StudentEntry = StudentEntry(
    student: Student,
    paymentAmount: int,
    status: StateShown,
    date: int,
    bonus: Option<string>,
    recommend: Option<string>)

  function PaidBy(studentId: nat): EntrancePayment -> bool {
    (p: EntrancePayment) => p.student.id == studentId
  }

  function PaidFor(enteranceId: nat): EntrancePayment -> bool {
    (p: EntrancePayment) => p.enterance.id == enteranceId
  }

  /** What `get_state_display()` hands back: a choice's label, or the stored integer itself
      when it is not one of the choices (the method field passes it on unconverted). */
  datatype StateShown = StateLabel(text: string) | StateNumber(value: int)

  /** `get_state_display()` of a registration: the label of a known state, the number
      otherwise. */
  function StateDisplay(state: int): (r: StateShown)
    ensures r.StateLabel? <==> state in EnteranceStates
    ensures r.StateLabel? ==> r.text == EnteranceStates[state]
    ensures r.StateNumber? ==> r.value == state
  {
    if state in EnteranceStates then StateLabel(EnteranceStates[state]) else StateNumber(state)
  }

  /** The state can be recovered from what is displayed: a label names exactly one state. */
  lemma StateDisplayInjective(a: int, b: int)
    requires StateDisplay(a) == StateDisplay(b)
    ensures a == b
  {
    if a in EnteranceStates && b in EnteranceStates {
      assert EnteranceStates[a] == EnteranceStates[b];
      assert a == 1 || a == 2 || a == 3;
    }
  }

  /** The inner loop of `get_students`: over the student's payments, add those made for
      this entrance. The result is the sum of the payments made by this student for this
      entrance. */
  function StudentPaymentAmount(payments: seq<EntrancePayment>, studentId: nat, enteranceId: nat): (t: int)
    ensures t == SumBy(Filter(payments, And(PaidBy(studentId), PaidFor(enteranceId))), EntranceAmount)
  {
    var own := Filter(payments, PaidBy(studentId));
    SumByMasked(own, PaidFor(enteranceId), EntranceAmount);
    FilterFilter(payments, PaidBy(studentId), PaidFor(enteranceId));
    SumBy(own, Masked(PaidFor(enteranceId), EntranceAmount))
  }

  function EntryOf(e: Enterance, payments: seq<EntrancePayment>, row: EntranceRow): StudentEntry {
    StudentEntry(
      row.student,
      StudentPaymentAmount(payments, row.student.id, e.id),
      StateDisplay(row.registration.state),
      row.registration.date,
      row.registration.bonus,
      row.registration.recommend)
  }

  /** `EnteranceSerializer.get_students`: one entry per registration, in order. */
  function EntranceStudents(e: Enterance, rows: seq<EntranceRow>, payments: seq<EntrancePayment>): (r: seq<StudentEntry>)
    ensures |r| == |rows|
    ensures forall i :: 0 <= i < |rows| ==>
              r[i].student == rows[i].student &&
              r[i].paymentAmount == SumBy(Filter(payments, And(PaidBy(rows[i].student.id), PaidFor(e.id))), EntranceAmount) &&
              r[i].date == rows[i].registration.date
    ensures forall i :: 0 <= i < |rows| ==>
              r[i].status == StateDisplay(rows[i].registration.state) &&
              r[i].bonus == rows[i].registration.bonus &&
              r[i].recommend == rows[i].registration.recommend
  {
    seq(|rows|, i requires 0 <= i < |rows| => EntryOf(e, payments, rows[i]))
  }

  /** A payment for another entrance, or by another student, does not change an entry's
      amount. */
  lemma OtherPaymentIgnored(payments: seq<EntrancePayment>, p: EntrancePayment, studentId: nat, enteranceId: nat)
    requires p.student.id != studentId || p.enterance.id != enteranceId
    ensures StudentPaymentAmount(payments + [p], studentId, enteranceId) ==
            StudentPaymentAmount(payments, studentId, enteranceId)
  {
    var q := And(PaidBy(studentId), PaidFor(enteranceId));
    FilterConcat(payments, [p], q);
    FilterNone([p], q);
    assert Filter(payments, q) + [] == Filter(payments, q);
  }

  /** A payment by the student for this entrance raises the entry's amount by its amount. */
  lemma OwnPaymentCounted(payments: seq<EntrancePayment>, p: EntrancePayment)
    ensures StudentPaymentAmount(payments + [p], p.student.id, p.enterance.id) ==
            StudentPaymentAmount(payments, p.student.id, p.enterance.id) + p.amount
  {
    var q := And(PaidBy(p.student.id), PaidFor(p.enterance.id));
    FilterConcat(payments, [p], q);
    FilterCons(p, [], q);
    assert [p] + [] == [p];
    SumByConcat(Filter(payments, q), [p], EntranceAmount);
    SumByCons(p, [], EntranceAmount);
  }

  // ---------------------------------------------------------------------------
  // Display names

  /** `get_name` of the student serializer: `name_ko or name_uz`. Unlike the model getter
      it falls back to the Uzbek name. */
  function StudentDisplayName(s: Student): (r: string)
    ensures s.nameKo != "" ==> r == StudentName(s, "ko")
    ensures s.nameKo == "" ==> r == StudentName(s, "uz")
    ensures r == "" <==> s.nameKo == "" && s.nameUz == ""
  {
    Resolve(s.nameKo, s.nameUz)
  }

  /** `get_guardian_name` of the student serializer. */
  function GuardianDisplayName(s: Student): (r: string)
    ensures s.guardianNameKo != "" ==> r == GuardianName(s, "ko")
    ensures s.guardianNameKo == "" ==> r == GuardianName(s, "uz")
  {
    Resolve(s.guardianNameKo, s.guardianNameUz)
  }
}
