/** The management app's records and their model-level helpers: the language getters, the
    `__str__` formats, the choice displays, the weekday mappings of a class timetable and
    the uniqueness constraints of the registration tables.

 `get_FOO_display()` of a field with choices returns the label of a known value and passes
 any other value through unchanged; the choice tables are maps here.
 */
module ManagementModels {
  import opened Wrappers
  import opened Text
  import opened Seqs
  import opened Bilingual

  /** Every attribute name a piece of code reads resolves on the row; reading one that does
      not raises. */
  predicate FieldsResolve(fields: seq<string>, names: set<string>) {
    forall i :: 0 <= i < |fields| ==> fields[i] in names
  }

  datatype University = University(
    id: nat,
    nameKo: string,
    nameUz: string,
    representativeKo: Option<string>,
    representativeUz: Option<string>)

  datatype Student = Student(
    id: nat,
    studentId: string,
    nameKo: string,
    nameUz: string,
    guardianNameKo: string,
    guardianNameUz: string)

  datatype AttachedDocument = AttachedDocument(documentNameKo: string, documentNameUz: string)

  datatype Enterance = Enterance(id: nat, university: University, years: int, kind: string, order: string)

  /** A class; `group` is a nullable integer column. */
  datatype Class = Class(id: nat, level: string, lecture: string, group: Option<int>)

  // ---------------------------------------------------------------------------
  // Language getters: strict selection, no fallback

  /** `Student.get_name(language)`. */
  function StudentName(s: Student, language: string): (r: string)
    ensures language == "ko" ==> r == s.nameKo
    ensures language != "ko" ==> r == s.nameUz
  {
    Select(language, s.nameKo, s.nameUz)
  }

  /** `Student.get_guardian_name(language)`. */
  function GuardianName(s: Student, language: string): (r: string)
    ensures language == "ko" ==> r == s.guardianNameKo
    ensures language != "ko" ==> r == s.guardianNameUz
  {
    Select(language, s.guardianNameKo, s.guardianNameUz)
  }

  /** `AttachedDocument.get_document_name(language)`. */
  function DocumentName(d: AttachedDocument, language: string): (r: string)
    ensures language == "ko" ==> r == d.documentNameKo
    ensures language != "ko" ==> r == d.documentNameUz
  {
    Select(language, d.documentNameKo, d.documentNameUz)
  }

  /** Under "ko" the getters return an empty Korean name as it is, with no fallback. */
  lemma StudentNameNoFallback(s: Student)
    requires s.nameKo == "" && s.nameUz != ""
    ensures StudentName(s, "ko") == ""
  {
  }

  // ---------------------------------------------------------------------------
  // __str__ and display strings

  /** `"{name_ko or name_uz} ({id})"`, the `__str__` of Student and Employee. */
  function NameWithId(ko: string, uz: string, id: string): (r: string)
    ensures |r| == |Resolve(ko, uz)| + |id| + 3
    ensures r[..|Resolve(ko, uz)|] == Resolve(ko, uz)
    ensures r[|Resolve(ko, uz)|..] == " (" + id + ")"
  {
    Resolve(ko, uz) + " (" + id + ")"
  }

  function StudentStr(s: Student): (r: string)
    ensures |r| >= |s.studentId| + 3
    ensures r[|r| - |s.studentId| - 1..] == s.studentId + ")"
    ensures s.nameKo != "" ==> StartsWith(r, s.nameKo)
    ensures s.nameKo == "" ==> StartsWith(r, s.nameUz)
    ensures r[..|r| - |s.studentId| - 3] == (if s.nameKo != "" then s.nameKo else s.nameUz)
    ensures r[|r| - |s.studentId| - 3..] == " (" + s.studentId + ")"
  {
    var r := NameWithId(s.nameKo, s.nameUz, s.studentId);
    assert r[|r| - |s.studentId| - 1..] == (" (" + s.studentId + ")")[2..];
    r
  }

  /** `"{ko} / {uz}"`: University `__str__` and the admin's `get_name_display`. */
  function SlashPair(ko: string, uz: string): (r: string)
    ensures |r| == |ko| + 3 + |uz|
    ensures r[..|ko|] == ko && r[|ko|..|ko| + 3] == " / " && r[|ko| + 3..] == uz
  {
    ko + " / " + uz
  }

  /** Both halves of a pair can be read back from `SlashPair` once the Korean length is known. */
  lemma SlashPairInjective(ko1: string, uz1: string, ko2: string, uz2: string)
    requires |ko1| == |ko2| && SlashPair(ko1, uz1) == SlashPair(ko2, uz2)
    ensures ko1 == ko2 && uz1 == uz2
  {
    assert ko1 == SlashPair(ko1, uz1)[..|ko1|];
    assert uz1 == SlashPair(ko1, uz1)[|ko1| + 3..];
  }

  function UniversityStr(u: University): (r: string)
    ensures StartsWith(r, u.nameKo)
    ensures |r| >= |u.nameUz| && r[|r| - |u.nameUz|..] == u.nameUz
    ensures |r| == |u.nameKo| + 3 + |u.nameUz| && r[|u.nameKo|..|u.nameKo| + 3] == " / "
  {
    SlashPair(u.nameKo, u.nameUz)
  }

  /** Two universities whose Korean names have the same length print alike only when both
      names agree. */
  lemma UniversityStrInjective(a: University, b: University)
    requires |a.nameKo| == |b.nameKo| && UniversityStr(a) == UniversityStr(b)
    ensures a.nameKo == b.nameKo && a.nameUz == b.nameUz
  {
    SlashPairInjective(a.nameKo, a.nameUz, b.nameKo, b.nameUz);
  }

  /** `get_FOO_display()`: the label of a known value, the value itself otherwise. */
  function Display(options: map<string, string>, value: string): (r: string)
    ensures value in options ==> r == options[value]
    ensures value !in options ==> r == value
  {
    if value in options then options[value] else value
  }

  const KindOptions: map<string, string> :=
    map["language" := "Language", "collegue" := "Collegue", "university" := "University",
        "graduate" := "Graduate"]

  const OrderOptions: map<string, string> :=
    map["1" := "1st", "2" := "2nd", "3" := "3rd", "4" := "4th", "spring" := "Spring",
        "winter" := "Winter"]

  const LevelOptions: map<string, string> :=
    map["low" := "Low", "intermediate" := "Intermediate", "high" := "High"]

  const LectureOptions: map<string, string> :=
    map["topik" := "TOPIK", "aboard" := "Aboard", "nurse" := "Nurse", "it" := "IT",
        "others" := "Others"]

  /** Python `f"{x}"` of a nullable integer. */
  function ShowNullableInt(x: Option<int>): string {
    match x
    case Some(v) => IntToString(v)
    case None => "None"
  }

  /** `"{years} - {kind label} ({order label})"`, the finance list's entrance summary. */
  function EnteranceInfo(e: Enterance): (r: string)
    ensures var y, k, o := IntToString(e.years), Display(KindOptions, e.kind), Display(OrderOptions, e.order);
            && |r| == |y| + |k| + |o| + 6
            && r[..|y|] == y && r[|y|..|y| + 3] == " - "
            && r[|y| + 3..|y| + 3 + |k|] == k && r[|y| + 3 + |k|..|y| + 5 + |k|] == " ("
            && r[|y| + 5 + |k|..|r| - 1] == o && r[|r| - 1..] == ")"
  {
    var y, k, o := IntToString(e.years), Display(KindOptions, e.kind), Display(OrderOptions, e.order);
    Concat6(y, " - ", k, " (", o, ")");
    y + " - " + k + " (" + o + ")"
  }

  /** The entrance summary starts with the intake year, which reads back as a number. */
  lemma EnteranceInfoReadsBack(e: Enterance)
    ensures ParseInt(FirstWord(EnteranceInfo(e))) == Some(e.years)
  {
    var r, y := EnteranceInfo(e), IntToString(e.years);
    IntToStringNoSpace(e.years);
    assert r[|y|] == r[|y|..|y| + 3][0];
    FirstWordAt(r, y);
    ParseIntOfIntToString(e.years);
  }

  /** `"Group {group} - {level label} {lecture label}"`; a missing group reads "None". */
  function ClassInfo(c: Class): (r: string)
    ensures StartsWith(r, "Group ")
    ensures c.group.None? ==> StartsWith(r, "Group None - ")
    ensures var g, l, t := ShowNullableInt(c.group), Display(LevelOptions, c.level), Display(LectureOptions, c.lecture);
            && |r| == |g| + |l| + |t| + 10
            && r[..6] == "Group " && r[6..6 + |g|] == g && r[6 + |g|..9 + |g|] == " - "
            && r[9 + |g|..9 + |g| + |l|] == l && r[9 + |g| + |l|..10 + |g| + |l|] == " " && r[10 + |g| + |l|..] == t
  {
    var g, l, t := ShowNullableInt(c.group), Display(LevelOptions, c.level), Display(LectureOptions, c.lecture);
    Concat6("Group ", g, " - ", l, " ", t);
    var r := "Group " + g + " - " + l + " " + t;
    assert c.group.None? ==> r[..13] == r[..6] + r[6..10] + r[10..13];
    r
  }

  /** The group number reads back from the class summary; a missing group reads "None". */
  lemma ClassInfoReadsBack(c: Class)
    ensures c.group.Some? ==> ParseInt(FirstWord(ClassInfo(c)[6..])) == c.group
    ensures c.group.None? ==> FirstWord(ClassInfo(c)[6..]) == "None"
  {
    var r, g := ClassInfo(c), ShowNullableInt(c.group);
    var s := r[6..];
    assert s[..|g|] == r[6..6 + |g|];
    assert s[|g|] == r[6 + |g|..9 + |g|][0];
    match c.group
    case Some(v) =>
      IntToStringNoSpace(v);
      FirstWordAt(s, g);
      ParseIntOfIntToString(v);
    case None =>
      FirstWordAt(s, g);
  }

  // ---------------------------------------------------------------------------
  // Weekdays of a class timetable

  const WeekdayKeys: seq<string> :=
    ["monday", "tuesday", "wednesday", "thursday", "friday", "saturday", "sunday"]

  const KoreanDays: map<string, string> :=
    map["monday" := "월요일", "tuesday" := "화요일", "wednesday" := "수요일",
        "thursday" := "목요일", "friday" := "금요일", "saturday" := "토요일",
        "sunday" := "일요일"]

  const UzbekDays: map<string, string> :=
    map["monday" := "Душанба", "tuesday" := "Сешанба", "wednesday" := "Чоршанба",
        "thursday" := "Пайшанба", "friday" := "Жума", "saturday" := "Шанба",
        "sunday" := "Якшанба"]

  /** `WEEKDAY_CHOICES`: the bilingual label of each key. */
  const WeekdayChoices: map<string, string> :=
    map["monday" := "월요일 / Душанба", "tuesday" := "화요일 / Сешанба",
        "wednesday" := "수요일 / Чоршанба", "thursday" := "목요일 / Пайшанба",
        "friday" := "금요일 / Жума", "saturday" := "토요일 / Шанба",
        "sunday" := "일요일 / Якшанба"]

  /** The three weekday tables cover the same seven keys, and each bilingual label is the
      Korean name, " / ", then the Uzbek name. */
  lemma WeekdayTablesAgree()
    ensures forall k :: k in WeekdayKeys <==> k in WeekdayChoices
    ensures forall k :: k in WeekdayKeys <==> k in KoreanDays
    ensures forall k :: k in WeekdayKeys <==> k in UzbekDays
    ensures forall k :: k in WeekdayKeys ==> WeekdayChoices[k] == SlashPair(KoreanDays[k], UzbekDays[k])
  {
    WeekdayKeysCovered();
    forall k | k in WeekdayKeys ensures WeekdayChoices[k] == SlashPair(KoreanDays[k], UzbekDays[k]) {
      DayLabelAgrees(k);
    }
  }

  lemma DayLabelAgrees(k: string)
    requires k in WeekdayKeys
    ensures k in WeekdayChoices && k in KoreanDays && k in UzbekDays
    ensures WeekdayChoices[k] == SlashPair(KoreanDays[k], UzbekDays[k])
  {
    WeekdayKeysCovered();
    if k == "monday" {
      DayLabelMonday();
    } else if k == "tuesday" {
      DayLabelTuesday();
    } else if k == "wednesday" {
      DayLabelWednesday();
    } else if k == "thursday" {
      DayLabelThursday();
    } else if k == "friday" {
      DayLabelFriday();
    } else if k == "saturday" {
      DayLabelSaturday();
    } else {
      DayLabelSunday();
    }
  }

  lemma DayLabelMonday()
    ensures WeekdayChoices["monday"] == SlashPair(KoreanDays["monday"], UzbekDays["monday"])
  {
  }

  lemma DayLabelTuesday()
    ensures WeekdayChoices["tuesday"] == SlashPair(KoreanDays["tuesday"], UzbekDays["tuesday"])
  {
  }

  lemma DayLabelWednesday()
    ensures WeekdayChoices["wednesday"] == SlashPair(KoreanDays["wednesday"], UzbekDays["wednesday"])
  {
  }

  lemma DayLabelThursday()
    ensures WeekdayChoices["thursday"] == SlashPair(KoreanDays["thursday"], UzbekDays["thursday"])
  {
  }

  lemma DayLabelFriday()
    ensures WeekdayChoices["friday"] == SlashPair(KoreanDays["friday"], UzbekDays["friday"])
  {
  }

  lemma DayLabelSaturday()
    ensures WeekdayChoices["saturday"] == SlashPair(KoreanDays["saturday"], UzbekDays["saturday"])
  {
  }

  lemma DayLabelSunday()
    ensures WeekdayChoices["sunday"] == SlashPair(KoreanDays["sunday"], UzbekDays["sunday"])
  {
  }

  lemma WeekdayKeysCovered()
    ensures forall k :: k in WeekdayKeys <==> k in WeekdayChoices
    ensures forall k :: k in WeekdayKeys <==> k in KoreanDays
    ensures forall k :: k in WeekdayKeys <==> k in UzbekDays
  {
  }

  /** `[mapping.get(day, day) for day in days]`, shared by the three day displays. */
  function MapDays(mapping: map<string, string>, days: seq<string>): (r: seq<string>)
    ensures |r| == |days|
    ensures forall i :: 0 <= i < |days| ==> r[i] == Display(mapping, days[i])
  {
    seq(|days|, i requires 0 <= i < |days| => Display(mapping, days[i]))
  }

  /** `get_days_display`, `get_days_display_ko`, `get_days_display_uz`. */
  function DaysDisplay(days: seq<string>): (r: seq<string>)
    ensures |r| == |days|
    ensures forall i :: 0 <= i < |days| && days[i] !in WeekdayChoices ==> r[i] == days[i]
  {
    MapDays(WeekdayChoices, days)
  }

  function DaysDisplayKo(days: seq<string>): (r: seq<string>)
    ensures |r| == |days|
    ensures forall i :: 0 <= i < |days| && days[i] !in KoreanDays ==> r[i] == days[i]
  {
    MapDays(KoreanDays, days)
  }

  function DaysDisplayUz(days: seq<string>): (r: seq<string>)
    ensures |r| == |days|
    ensures forall i :: 0 <= i < |days| && days[i] !in UzbekDays ==> r[i] == days[i]
  {
    MapDays(UzbekDays, days)
  }

  /** Elementwise, each bilingual day label is the Korean display, " / ", then the Uzbek
      display, for every valid day. */
  lemma DaysDisplayCombines(days: seq<string>)
    requires forall i :: 0 <= i < |days| ==> days[i] in WeekdayKeys
    ensures forall i :: 0 <= i < |days| ==>
              DaysDisplay(days)[i] == SlashPair(DaysDisplayKo(days)[i], DaysDisplayUz(days)[i])
  {
    WeekdayTablesAgree();
  }

  /** The mapping is elementwise: it commutes with concatenation. */
  lemma MapDaysConcat(mapping: map<string, string>, a: seq<string>, b: seq<string>)
    ensures MapDays(mapping, a + b) == MapDays(mapping, a) + MapDays(mapping, b)
  {
  }

  // ---------------------------------------------------------------------------
  // Registrations and their uniqueness constraints

  datatype EnteranceRegistration = EnteranceRegistration(
    enterance: nat, student: nat, date: int, state: int,
    bonus: Option<string>, recommend: Option<string>)

  datatype ClassRegistration = ClassRegistration(student: nat, classId: nat, state: int)

  const EnteranceStates: map<int, string> := map[1 := "Go", 2 := "Pass", 3 := "NP"]

  /** `unique_together = ("enterance", "student")`. */
  predicate UniqueEnteranceRegistrations(regs: seq<EnteranceRegistration>) {
    forall i, j :: 0 <= i < j < |regs| ==>
      (regs[i].enterance, regs[i].student) != (regs[j].enterance, regs[j].student)
  }

  /** `unique_together = ("student", "class_model")`. */
  predicate UniqueClassRegistrations(regs: seq<ClassRegistration>) {
    forall i, j :: 0 <= i < j < |regs| ==>
      (regs[i].student, regs[i].classId) != (regs[j].student, regs[j].classId)
  }

  /** Inserting a registration: the database refuses a second row for the same pair. */
  function RegisterForEnterance(regs: seq<EnteranceRegistration>, r: EnteranceRegistration): (res: Option<seq<EnteranceRegistration>>)
    ensures res.None? <==> exists i :: 0 <= i < |regs| && regs[i].enterance == r.enterance && regs[i].student == r.student
    ensures res.Some? ==> res.value == regs + [r]
    ensures res.Some? && UniqueEnteranceRegistrations(regs) ==> UniqueEnteranceRegistrations(res.value)
  {
    if exists i :: 0 <= i < |regs| && regs[i].enterance == r.enterance && regs[i].student == r.student then None
    else
      var res := regs + [r];
      assert forall i :: 0 <= i < |regs| ==> res[i] == regs[i];
      Some(res)
  }

  function RegisterForClass(regs: seq<ClassRegistration>, r: ClassRegistration): (res: Option<seq<ClassRegistration>>)
    ensures res.None? <==> exists i :: 0 <= i < |regs| && regs[i].student == r.student && regs[i].classId == r.classId
    ensures res.Some? ==> res.value == regs + [r]
    ensures res.Some? && UniqueClassRegistrations(regs) ==> UniqueClassRegistrations(res.value)
  {
    if exists i :: 0 <= i < |regs| && regs[i].student == r.student && regs[i].classId == r.classId then None
    else
      var res := regs + [r];
      assert forall i :: 0 <= i < |regs| ==> res[i] == regs[i];
      Some(res)
  }
}
