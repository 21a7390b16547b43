/** The management views that carry decisions of their own: the student list's two access
    levels and the class detail with its month filter.

 The finance view is in Finance; login, token claims and logout are in Accounts.
 */
module ManagementViews {
  import opened Wrappers
  import opened Text
  import opened Seqs
  import opened Access
  import opened ManagementModels
  import opened Finance
  import opened ManagementSerializers

  // ---------------------------------------------------------------------------
  // Students list

  datatype StudentsPage = StudentsPage(students: seq<Student>, totalCount: nat, accessLevel: string)

  /** `students_list`: every student and "full" for upsight staff; the first student only
      and "limited" for anyone else. */
  function StudentsList(u: User, students: seq<Student>): (r: StudentsPage)
    ensures InGroup(u, UpsightStaff) ==> r.students == students && r.accessLevel == "full"
    ensures !InGroup(u, UpsightStaff) ==>
              r.accessLevel == "limited" && |r.students| <= 1 &&
              (students != [] ==> r.students == [students[0]]) &&
              (students == [] ==> r.students == [])
    ensures r.totalCount == |r.students|
  {
    if InGroup(u, UpsightStaff) then StudentsPage(students, |students|, "full")
    else
      var page := if |students| == 0 then [] else students[..1];
      StudentsPage(page, |page|, "limited")
  }

  /** The limited list is the start of the full list. */
  lemma LimitedIsPrefix(u: User, v: User, students: seq<Student>)
    requires !InGroup(u, UpsightStaff) && InGroup(v, UpsightStaff)
    ensures var limited := StudentsList(u, students).students;
            limited == StudentsList(v, students).students[..|limited|]
  {
  }

  // ---------------------------------------------------------------------------
  // Class detail

  /** The `month` query parameter: absent or empty means no filter; otherwise it must parse
      as an integer and be at least 1. */
  function MonthFilter(param: Option<string>): (r: Outcome<Option<int>>)
    ensures r.Ok? || r.BadRequest?
    ensures r == Ok(None) <==> param.None? || param.value == ""
    ensures r.Ok? && r.value.Some? ==>
              param.Some? && ParseInt(param.value) == Some(r.value.value) && r.value.value >= 1
    ensures r.BadRequest? <==>
              param.Some? && param.value != "" &&
              (ParseInt(param.value).None? || ParseInt(param.value).value < 1)
  {
    match param
    case None => Ok(None)
    case Some(text) =>
      if text == "" then Ok(None)
      else
        match ParseInt(text)
        case None => BadRequest
        case Some(m) => if m < 1 then BadRequest else Ok(Some(m))
  }

  /** Every positive month written out in decimal is accepted as that month. */
  lemma MonthFilterAccepts(m: int)
    requires m >= 1
    ensures MonthFilter(Some(IntToString(m))) == Ok(Some(m))
  {
    ParseIntOfIntToString(m);
  }

  /** Month 0 and negative months are rejected. */
  lemma MonthFilterRejectsNonPositive(m: int)
    requires m < 1
    ensures MonthFilter(Some(IntToString(m))) == BadRequest
  {
    ParseIntOfIntToString(m);
  }

  datatype ClassDetailPage = ClassDetailPage(
    classModel: Class,
    payments: seq<ClassPayment>,
    registrations: seq<ClassRegistration>,
    totalStudents: nat,
    activeStudents: nat,
    totalPayments: int,
    filteredByMonth: Option<int>)

  function ForClass(classId: nat): ClassPayment -> bool {
    (p: ClassPayment) => p.classModel.id == classId
  }

  function RegisteredIn(classId: nat): ClassRegistration -> bool {
    (r: ClassRegistration) => r.classId == classId
  }

  /** The payments a detail page selects: the class's, and of the month when one is given. */
  function Selected(classId: nat, m: Option<int>): ClassPayment -> bool {
    match m
    case None => ForClass(classId)
    case Some(month) => And(ForClass(classId), MonthIs(month))
  }

  function FindClass(classes: seq<Class>, id: nat): (r: Option<Class>)
    ensures r.Some? ==> r.value in classes && r.value.id == id
    ensures r.None? ==> forall i :: 0 <= i < |classes| ==> classes[i].id != id
  {
    if |classes| == 0 then None
    else if classes[0].id == id then Some(classes[0])
    else FindClass(classes[1..], id)
  }

  /** `class_detail`: the month parameter is checked before the class is looked up, so a
      bad month is a bad request even for a class that does not exist. */
  function ClassDetail(classes: seq<Class>, payments: seq<ClassPayment>, regs: seq<ClassRegistration>,
                       classId: nat, month: Option<string>): (r: Outcome<ClassDetailPage>)
    ensures r.BadRequest? <==> MonthFilter(month).BadRequest?
    ensures r.NotFound? <==> MonthFilter(month).Ok? && FindClass(classes, classId).None?
    ensures !r.Forbidden?
    ensures r.Ok? ==> r.value.classModel.id == classId && r.value.classModel in classes
    ensures r.Ok? ==> r.value.filteredByMonth == MonthFilter(month).value
    ensures r.Ok? ==> (r.value.filteredByMonth.Some? <==> month.Some? && month.value != "")
    ensures r.Ok? ==> DetailPageOf(r.value, payments, regs, classId)
  {
    match MonthFilter(month)
    case Ok(m) =>
      (match FindClass(classes, classId)
       case None => NotFound
       case Some(c) => Ok(DetailPage(c, payments, regs, classId, m)))
    case _ => BadRequest
  }

  /** The page lists exactly the class's payments in the selected month, with their total,
      and exactly the class's registrations, with their counts. */
  predicate DetailPageOf(p: ClassDetailPage, payments: seq<ClassPayment>, regs: seq<ClassRegistration>, classId: nat) {
    DetailPageLists(p, payments, regs, classId) && DetailPageCounts(p, payments, regs, classId)
  }

  /** Which payments and registrations appear on the page. */
  predicate DetailPageLists(p: ClassDetailPage, payments: seq<ClassPayment>, regs: seq<ClassRegistration>, classId: nat) {
    && (forall i :: 0 <= i < |p.payments| ==>
          p.payments[i] in payments && p.payments[i].classModel.id == classId &&
          (p.filteredByMonth.Some? ==> p.payments[i].paymentMonth == p.filteredByMonth.value))
    && (forall i :: 0 <= i < |payments| ==>
          (payments[i].classModel.id == classId &&
           (p.filteredByMonth.Some? ==> payments[i].paymentMonth == p.filteredByMonth.value)) ==>
          payments[i] in p.payments)
    && (forall i :: 0 <= i < |p.registrations| ==>
          p.registrations[i] in regs && p.registrations[i].classId == classId)
    && (forall i :: 0 <= i < |regs| && regs[i].classId == classId ==> regs[i] in p.registrations)
  }

  /** How many of them appear, and the counts and total shown beside them. */
  predicate DetailPageCounts(p: ClassDetailPage, payments: seq<ClassPayment>, regs: seq<ClassRegistration>, classId: nat) {
    && |p.payments| == Count(payments, Selected(classId, p.filteredByMonth))
    && p.totalPayments == SumBy(p.payments, ClassAmount)
    && p.totalPayments == SumBy(payments, Masked(Selected(classId, p.filteredByMonth), ClassAmount))
    && p.totalStudents == |p.registrations| == Count(regs, RegisteredIn(classId))
    && p.activeStudents == Count(p.registrations, IsActive) <= p.totalStudents
  }

  /** The body of a found class's detail page. */
  function DetailPage(c: Class, payments: seq<ClassPayment>, regs: seq<ClassRegistration>,
                      classId: nat, m: Option<int>): (p: ClassDetailPage)
    ensures p.classModel == c && p.filteredByMonth == m
    ensures DetailPageOf(p, payments, regs, classId)
  {
    var own := Filter(payments, ForClass(classId));
    var mine := Filter(regs, RegisteredIn(classId));
    var page := ClassDetailPage(c, ListedPayments(own, m), mine, TotalStudents(mine),
                                ActiveStudents(mine), TotalPayments(own, m), m);
    assert DetailPageLists(page, payments, regs, classId) by {
      ListedOfClass(payments, classId, m);
    }
    assert DetailPageCounts(page, payments, regs, classId) by {
      TotalMatchesList(own, m);
      ListedSelected(payments, classId, m);
    }
    page
  }

  /** The listed payments are exactly the class's payments of the selected month. */
  lemma ListedOfClass(payments: seq<ClassPayment>, classId: nat, m: Option<int>)
    ensures var l := ListedPayments(Filter(payments, ForClass(classId)), m);
            && (forall i :: 0 <= i < |l| ==>
                  l[i] in payments && l[i].classModel.id == classId && (m.Some? ==> l[i].paymentMonth == m.value))
            && (forall i :: 0 <= i < |payments| ==>
                  (payments[i].classModel.id == classId && (m.Some? ==> payments[i].paymentMonth == m.value)) ==>
                  payments[i] in l)
  {
    var own := Filter(payments, ForClass(classId));
    var l := ListedPayments(own, m);
    if m.Some? {
      forall i | 0 <= i < |payments| && payments[i].classModel.id == classId && payments[i].paymentMonth == m.value
        ensures payments[i] in l
      {
        var k :| 0 <= k < |own| && own[k] == payments[i];
      }
      forall i | 0 <= i < |l| ensures l[i] in payments && l[i].classModel.id == classId {
        var k :| 0 <= k < |own| && own[k] == l[i];
      }
    }
  }

  /** The listed payments are the selected ones, in table order, and their sum is the
      selected payments' share of the whole table. */
  lemma ListedSelected(payments: seq<ClassPayment>, classId: nat, m: Option<int>)
    ensures ListedPayments(Filter(payments, ForClass(classId)), m) == Filter(payments, Selected(classId, m))
    ensures SumBy(ListedPayments(Filter(payments, ForClass(classId)), m), ClassAmount) ==
            SumBy(payments, Masked(Selected(classId, m), ClassAmount))
  {
    if m.Some? {
      FilterFilter(payments, ForClass(classId), MonthIs(m.value));
    }
    SumByMasked(payments, Selected(classId, m), ClassAmount);
  }

  /** Filtering by a month keeps the registrations and their counts, lists a part of the
      unfiltered payments, and its total plus the other months' total is the unfiltered total. */
  lemma DetailPageMonthSplit(c: Class, payments: seq<ClassPayment>, regs: seq<ClassRegistration>, classId: nat, m: int)
    ensures var all, one := DetailPage(c, payments, regs, classId, None), DetailPage(c, payments, regs, classId, Some(m));
            && one.registrations == all.registrations
            && one.totalStudents == all.totalStudents && one.activeStudents == all.activeStudents
            && (forall i :: 0 <= i < |one.payments| ==> one.payments[i] in all.payments)
            && one.totalPayments + SumBy(Filter(all.payments, Not(MonthIs(m))), ClassAmount) == all.totalPayments
  {
    var own := Filter(payments, ForClass(classId));
    TotalPaymentsSplit(own, m);
  }

  // ---------------------------------------------------------------------------
  // The class detail serializer's field list

  /** The fields `ClassDetailSerializer` lists: those of `ClassSerializer`, then its own. */
  const ClassDetailFields: seq<string> :=
    ["id", "teacher_first", "teacher_first_name", "teacher_second", "teacher_second_name",
     "level", "level_display", "lecture", "lecture_display", "group", "opening_date", "period",
     "tuition_fee", "textbook_first", "textbook_second", "classroom", "timetables",
     "payments", "student_registrations", "total_students", "active_students", "total_payments",
     "current_month"]

  /** The names a listed field can resolve to: the columns and reverse relations of Class and
      the fields the two serializers declare. */
  const ClassDetailNames: set<string> :=
    {"id", "teacher_first", "teacher_second", "level", "lecture", "group", "opening_date", "period",
     "tuition_fee", "textbook_first", "textbook_second", "classroom", "timetables", "payments",
     "student_registrations", "teacher_first_name", "teacher_second_name", "level_display",
     "lecture_display", "total_students", "active_students", "total_payments"}

  /** What `class_detail` answers once its exception handler is taken into account. */
  datatype ClassDetailResponse = Served(outcome: Outcome<ClassDetailPage>) | ServerError

  /** `class_detail` as written: the serializer of a found class is built from a field list
      with a name Class does not have, `serializer.data` raises, and the handler answers 500. */
  function ClassDetailAsWritten(classes: seq<Class>, payments: seq<ClassPayment>, regs: seq<ClassRegistration>,
                                classId: nat, month: Option<string>): (r: ClassDetailResponse)
    ensures r.ServerError? <==> MonthFilter(month).Ok? && FindClass(classes, classId).Some? &&
                                !FieldsResolve(ClassDetailFields, ClassDetailNames)
    ensures r.Served? ==> r.outcome == ClassDetail(classes, payments, regs, classId, month)
  {
    match MonthFilter(month)
    case Ok(_) =>
      (match FindClass(classes, classId)
       case None => Served(NotFound)
       case Some(_) =>
         if FieldsResolve(ClassDetailFields, ClassDetailNames) then Served(ClassDetail(classes, payments, regs, classId, month))
         else ServerError)
    case _ => Served(BadRequest)
  }

  /** "current_month" resolves to nothing, so every found class is answered with a 500 and
      no detail page is ever served. */
  lemma ClassDetailAsWrittenFails(classes: seq<Class>, payments: seq<ClassPayment>, regs: seq<ClassRegistration>,
                                  classId: nat, month: Option<string>)
    requires MonthFilter(month).Ok? && FindClass(classes, classId).Some?
    ensures ClassDetailAsWritten(classes, payments, regs, classId, month) == ServerError
    ensures ClassDetail(classes, payments, regs, classId, month).Ok?
  {
    CurrentMonthUnresolved();
  }

  lemma CurrentMonthUnresolved()
    ensures !FieldsResolve(ClassDetailFields, ClassDetailNames)
  {
    assert ClassDetailFields[22] == "current_month";
  }

  /** Without "current_month" every listed field resolves: the list `ClassDetail` serves. */
  lemma CorrectedFieldsResolve()
    ensures ClassDetailFields[|ClassDetailFields| - 1] !in ClassDetailNames
    ensures FieldsResolve(ClassDetailFields[..|ClassDetailFields| - 1], ClassDetailNames)
  {
    var fs := ClassDetailFields[..|ClassDetailFields| - 1];
    forall i | 0 <= i < |fs| ensures fs[i] in ClassDetailNames {
      assert fs[i] == ClassDetailFields[i];
    }
  }
}
