/** The finance overview: entrance payments and class payments merged into one list of
    tagged records, newest first, with per-kind totals and counts.

 Amounts are `DecimalField(decimal_places=2)` columns and are modelled as exact integers
 (cents); dates are day numbers. Each record carries the fields of its own kind and nulls
 for the other kind's fields.
 */
module Finance {
  import opened Wrappers
  import opened Text
  import opened Seqs
  import opened Sorting
  import opened Access
  import opened Bilingual
  import opened ManagementModels

  datatype EntrancePayment = EntrancePayment(
    id: nat, date: int, amount: int, student: Student, enterance: Enterance)

  /** A class payment; `paymentMonth` is read by the finance view and the payment
      serializer although the table has no such column. */
  datatype ClassPayment = ClassPayment(
    id: nat, date: int, amount: int, student: Student, classModel: Class, paymentMonth: int)

  datatype PaymentType = Entrance | ClassFee

  /** The `payment_type` text of a record. */
  function PaymentTypeName(t: PaymentType): (r: string)
    ensures r == "entrance" <==> t == Entrance
    ensures r == "class" <==> t == ClassFee
  {
    match t
    case Entrance => "entrance"
    case ClassFee => "class"
  }

  /** One row of the merged list. */
  datatype FinanceRecord = FinanceRecord(
    id: string,
    originalId: nat,
    date: int,
    amount: int,
    paymentType: PaymentType,
    studentId: string,
    studentNameKo: string,
    studentNameUz: string,
    universityName: Option<string>,
    enteranceInfo: Option<string>,
    paymentMonth: Option<int>,
    paymentMonthDisplay: Option<string>,
    classInfo: Option<string>)

  // ---------------------------------------------------------------------------
  // Record ids

  function IdPrefix(t: PaymentType): string {
    match t
    case Entrance => "entrance_"
    case ClassFee => "class_"
  }

  /** `f"entrance_{payment.id}"` and `f"class_{payment.id}"`. */
  function RecordId(t: PaymentType, id: nat): (r: string)
    ensures StartsWith(r, IdPrefix(t))
  {
    IdPrefix(t) + IntToString(id)
  }

  /** Reading a record id back into its kind and original id. */
  function ParseRecordId(s: string): (r: Option<(PaymentType, int)>)
    ensures r.Some? ==> StartsWith(s, IdPrefix(r.value.0))
  {
    if StartsWith(s, "entrance_") then
      match ParseInt(s[9..])
      case Some(n) => Some((Entrance, n))
      case None => None
    else if StartsWith(s, "class_") then
      match ParseInt(s[6..])
      case Some(n) => Some((ClassFee, n))
      case None => None
    else None
  }

  /** A record id reads back as the kind and original id it was built from. */
  lemma RecordIdRoundTrip(t: PaymentType, id: nat)
    ensures ParseRecordId(RecordId(t, id)) == Some((t, id as int))
  {
    ParseIntOfIntToString(id);
    match t
    case Entrance => EntranceIdRoundTrip(id);
    case ClassFee => ClassIdRoundTrip(id);
  }

  lemma EntranceIdRoundTrip(id: nat)
    requires ParseInt(IntToString(id)) == Some(id as int)
    ensures ParseRecordId(RecordId(Entrance, id)) == Some((Entrance, id as int))
  {
    var s := RecordId(Entrance, id);
    assert s[9..] == IntToString(id);
  }

  lemma ClassIdRoundTrip(id: nat)
    requires ParseInt(IntToString(id)) == Some(id as int)
    ensures ParseRecordId(RecordId(ClassFee, id)) == Some((ClassFee, id as int))
  {
    var digits := IntToString(id);
    var s := "class_" + digits;
    assert RecordId(ClassFee, id) == s;
    assert s[..6] == "class_";
    assert s[6..] == digits;
    NotEntranceId(s);
  }

  lemma NotEntranceId(s: string)
    requires |s| > 0 && s[0] == 'c'
    ensures !StartsWith(s, "entrance_")
  {
    if |s| >= 9 {
      assert s[..9][0] == 'c';
    }
  }

  /** No two payments share a record id: equal ids mean the same kind and original id. */
  lemma RecordIdInjective(t1: PaymentType, id1: nat, t2: PaymentType, id2: nat)
    requires RecordId(t1, id1) == RecordId(t2, id2)
    ensures t1 == t2 && id1 == id2
  {
    RecordIdRoundTrip(t1, id1);
    RecordIdRoundTrip(t2, id2);
  }

  /** `f"Month {payment_month}"`, shared by the finance view and the class payment
      serializer. */
  function PaymentMonthDisplay(m: int): (r: string)
    ensures StartsWith(r, "Month ")
    ensures ParseInt(r[6..]) == Some(m)
  {
    ParseIntOfIntToString(m);
    assert ("Month " + IntToString(m))[6..] == IntToString(m);
    "Month " + IntToString(m)
  }

  // ---------------------------------------------------------------------------
  // Records

  function FromEntrance(p: EntrancePayment): (r: FinanceRecord)
    ensures r.paymentType == Entrance && r.id == RecordId(Entrance, p.id) && r.originalId == p.id
    ensures r.date == p.date && r.amount == p.amount && r.studentId == p.student.studentId
    ensures r.universityName == Some(UniversityStr(p.enterance.university))
    ensures r.enteranceInfo == Some(EnteranceInfo(p.enterance))
    ensures r.studentNameKo == p.student.nameKo && r.studentNameUz == p.student.nameUz
    ensures r.paymentMonth.None? && r.paymentMonthDisplay.None? && r.classInfo.None?
  {
    FinanceRecord(
      RecordId(Entrance, p.id), p.id, p.date, p.amount, Entrance,
      p.student.studentId, p.student.nameKo, p.student.nameUz,
      Some(UniversityStr(p.enterance.university)), Some(EnteranceInfo(p.enterance)),
      None, None, None)
  }

  function FromClass(p: ClassPayment): (r: FinanceRecord)
    ensures r.paymentType == ClassFee && r.id == RecordId(ClassFee, p.id) && r.originalId == p.id
    ensures r.date == p.date && r.amount == p.amount && r.studentId == p.student.studentId
    ensures r.studentNameKo == p.student.nameKo && r.studentNameUz == p.student.nameUz
    ensures r.universityName.None? && r.enteranceInfo.None?
    ensures r.paymentMonth == Some(p.paymentMonth)
    ensures r.paymentMonthDisplay == Some(PaymentMonthDisplay(p.paymentMonth))
    ensures r.classInfo == Some(ClassInfo(p.classModel))
  {
    FinanceRecord(
      RecordId(ClassFee, p.id), p.id, p.date, p.amount, ClassFee,
      p.student.studentId, p.student.nameKo, p.student.nameUz,
      None, None,
      Some(p.paymentMonth), Some(PaymentMonthDisplay(p.paymentMonth)), Some(ClassInfo(p.classModel)))
  }

  /** Every record carries exactly the fields of its own kind. */
  predicate KindFieldsConsistent(r: FinanceRecord) {
    && (r.paymentType == Entrance <==> r.universityName.Some?)
    && (r.paymentType == Entrance <==> r.enteranceInfo.Some?)
    && (r.paymentType == ClassFee <==> r.paymentMonth.Some?)
    && (r.paymentType == ClassFee <==> r.paymentMonthDisplay.Some?)
    && (r.paymentType == ClassFee <==> r.classInfo.Some?)
    && StartsWith(r.id, IdPrefix(r.paymentType))
  }

  /** `get_student_name` of the finance serializer: `ko or uz`. */
  function RecordStudentName(r: FinanceRecord): (n: string)
    ensures n == r.studentNameKo || n == r.studentNameUz
    ensures r.studentNameKo != "" ==> n == r.studentNameKo
    ensures n == "" <==> r.studentNameKo == "" && r.studentNameUz == ""
  {
    Resolve(r.studentNameKo, r.studentNameUz)
  }

  function DateOf(r: FinanceRecord): int { r.date }

  function AmountOf(r: FinanceRecord): int { r.amount }

  function IsEntrance(r: FinanceRecord): bool { r.paymentType == Entrance }

  function IsClass(r: FinanceRecord): bool { r.paymentType == ClassFee }

  function EntranceAmount(p: EntrancePayment): int { p.amount }

  function ClassAmount(p: ClassPayment): int { p.amount }

  /** The entrance records followed by the class records, each in table order. */
  function Merge(es: seq<EntrancePayment>, cs: seq<ClassPayment>): (r: seq<FinanceRecord>)
    ensures |r| == |es| + |cs|
    ensures forall i :: 0 <= i < |es| ==> r[i] == FromEntrance(es[i])
    ensures forall i :: 0 <= i < |cs| ==> r[|es| + i] == FromClass(cs[i])
  {
    MapBoth(es, FromEntrance, cs, FromClass)
  }

  /** `payments_data.sort(key=lambda x: x['date'], reverse=True)`. */
  function PaymentsData(es: seq<EntrancePayment>, cs: seq<ClassPayment>): (r: seq<FinanceRecord>)
    ensures |r| == |es| + |cs|
    ensures multiset(r) == multiset(Merge(es, cs))
    ensures SortedDesc(r, DateOf)
  {
    SortDesc(Merge(es, cs), DateOf)
  }

  /** The response body of the finance view. */
  datatype FinanceReport = FinanceReport(
    payments: seq<FinanceRecord>,
    totalCount: nat,
    totalAmount: int,
    entranceTotal: int,
    classTotal: int,
    entranceCount: nat,
    classCount: nat)

  /** `finance_payments_list`: upsight staff only; totals and counts computed over the
      sorted list. */
  function FinancePaymentsList(u: User, es: seq<EntrancePayment>, cs: seq<ClassPayment>): (r: Outcome<FinanceReport>)
    ensures r.Forbidden? <==> !InGroup(u, UpsightStaff)
    ensures r.Ok? <==> InGroup(u, UpsightStaff)
    ensures r.Ok? ==> r.value.payments == PaymentsData(es, cs)
    ensures r.Ok? ==> r.value.totalCount == |r.value.payments| == |es| + |cs|
    ensures r.Ok? ==> r.value.totalAmount == r.value.entranceTotal + r.value.classTotal
    ensures r.Ok? ==> r.value.entranceTotal == SumBy(es, EntranceAmount)
    ensures r.Ok? ==> r.value.classTotal == SumBy(cs, ClassAmount)
    ensures r.Ok? ==> r.value.entranceCount == |es| && r.value.classCount == |cs|
    ensures r.Ok? ==> r.value.entranceCount + r.value.classCount == r.value.totalCount
  {
    if !InGroup(u, UpsightStaff) then Forbidden
    else
      var data := PaymentsData(es, cs);
      TotalsAgree(es, cs);
      CountsAgree(es, cs);
      Ok(FinanceReport(
        data, |data|,
        SumBy(data, AmountOf),
        SumBy(Filter(data, IsEntrance), AmountOf),
        SumBy(Filter(data, IsClass), AmountOf),
        Count(data, IsEntrance),
        Count(data, IsClass)))
  }
  // ---------------------------------------------------------------------------
  // The class payment attributes the view reads

  /** The attributes a ClassPayment row has: its columns and foreign keys. */
  const ClassPaymentAttributes: set<string> := {"id", "date", "amount", "student", "class_model"}

  /** The attributes `finance_payments_list` reads from each class payment, in order. */
  const ClassPaymentReads: seq<string> :=
    ["id", "date", "amount", "student", "payment_month", "class_model"]

  /** What `finance_payments_list` answers once its exception handler is taken into account. */
  datatype FinanceResponse = FinanceServed(outcome: Outcome<FinanceReport>) | FinanceServerError

  /** `finance_payments_list` as written: the first class payment's missing `payment_month`
      raises inside the loop, and the handler answers 500. */
  function FinancePaymentsListAsWritten(u: User, es: seq<EntrancePayment>, cs: seq<ClassPayment>): (r: FinanceResponse)
    ensures r.FinanceServerError? <==> InGroup(u, UpsightStaff) && cs != [] &&
                                       !FieldsResolve(ClassPaymentReads, ClassPaymentAttributes)
    ensures r.FinanceServed? ==> r.outcome == FinancePaymentsList(u, es, cs)
  {
    if InGroup(u, UpsightStaff) && cs != [] && !FieldsResolve(ClassPaymentReads, ClassPaymentAttributes) then
      FinanceServerError
    else FinanceServed(FinancePaymentsList(u, es, cs))
  }

  /** "payment_month" names nothing on ClassPayment, so any class payment turns the
      upsight_staff report, which the intended view produces, into a server error. */
  lemma FinanceAsWrittenFails(u: User, es: seq<EntrancePayment>, cs: seq<ClassPayment>)
    requires InGroup(u, UpsightStaff) && cs != []
    ensures FinancePaymentsListAsWritten(u, es, cs) == FinanceServerError
    ensures FinancePaymentsList(u, es, cs).Ok?
  {
    assert ClassPaymentReads[4] == "payment_month" && "payment_month" !in ClassPaymentAttributes;
  }

  /** With `payment_month` a column of ClassPayment, every attribute the view reads resolves. */
  lemma CorrectedPaymentReadsResolve()
    ensures FieldsResolve(ClassPaymentReads, ClassPaymentAttributes + {"payment_month"})
  {
  }


  // ---------------------------------------------------------------------------
  // Properties of the merged list

  lemma MergeKinds(es: seq<EntrancePayment>, cs: seq<ClassPayment>)
    ensures Filter(Map(es, FromEntrance), IsEntrance) == Map(es, FromEntrance)
    ensures Filter(Map(cs, FromClass), IsEntrance) == []
    ensures Filter(Map(es, FromEntrance), IsClass) == []
    ensures Filter(Map(cs, FromClass), IsClass) == Map(cs, FromClass)
  {
    EntranceRecordsKind(es);
    ClassRecordsKind(cs);
  }

  lemma EntranceRecordsKind(es: seq<EntrancePayment>)
    ensures Filter(Map(es, FromEntrance), IsEntrance) == Map(es, FromEntrance)
    ensures Filter(Map(es, FromEntrance), IsClass) == []
  {
    var m := Map(es, FromEntrance);
    assert forall i :: 0 <= i < |m| ==> m[i].paymentType == Entrance;
    FilterAll(m, IsEntrance);
    FilterNone(m, IsClass);
  }

  lemma ClassRecordsKind(cs: seq<ClassPayment>)
    ensures Filter(Map(cs, FromClass), IsClass) == Map(cs, FromClass)
    ensures Filter(Map(cs, FromClass), IsEntrance) == []
  {
    var m := Map(cs, FromClass);
    assert forall i :: 0 <= i < |m| ==> m[i].paymentType == ClassFee;
    FilterAll(m, IsClass);
    FilterNone(m, IsEntrance);
  }

  /** The sum of one kind over the sorted list is that kind's table total. */
  lemma KindTotal(es: seq<EntrancePayment>, cs: seq<ClassPayment>, p: FinanceRecord -> bool,
                  part: seq<FinanceRecord>)
    requires Filter(Merge(es, cs), p) == part
    ensures SumBy(Filter(PaymentsData(es, cs), p), AmountOf) == SumBy(part, AmountOf)
  {
    var m := Merge(es, cs);
    SumByMasked(PaymentsData(es, cs), p, AmountOf);
    SortDescSum(m, DateOf, Masked(p, AmountOf));
    SumByMasked(m, p, AmountOf);
  }

  /** Sorting keeps the total, and each kind's total is the sum of its own table. */
  lemma TotalsAgree(es: seq<EntrancePayment>, cs: seq<ClassPayment>)
    ensures SumBy(PaymentsData(es, cs), AmountOf) ==
            SumBy(Filter(PaymentsData(es, cs), IsEntrance), AmountOf) +
            SumBy(Filter(PaymentsData(es, cs), IsClass), AmountOf)
    ensures SumBy(Filter(PaymentsData(es, cs), IsEntrance), AmountOf) == SumBy(es, EntranceAmount)
    ensures SumBy(Filter(PaymentsData(es, cs), IsClass), AmountOf) == SumBy(cs, ClassAmount)
  {
    var me := Map(es, FromEntrance);
    var mc := Map(cs, FromClass);
    EntranceTotal(es, cs);
    ClassTotal(es, cs);
    MergeIsConcat(es, cs);
    SortDescSum(Merge(es, cs), DateOf, AmountOf);
    SumByConcat(me, mc, AmountOf);
    SumByMap(es, FromEntrance, AmountOf, EntranceAmount);
    SumByMap(cs, FromClass, AmountOf, ClassAmount);
  }

  lemma EntranceTotal(es: seq<EntrancePayment>, cs: seq<ClassPayment>)
    ensures SumBy(Filter(PaymentsData(es, cs), IsEntrance), AmountOf) == SumBy(es, EntranceAmount)
  {
    var me := Map(es, FromEntrance);
    var mc := Map(cs, FromClass);
    MergeIsConcat(es, cs);
    MergeKinds(es, cs);
    FilterConcat(me, mc, IsEntrance);
    assert me + [] == me;
    KindTotal(es, cs, IsEntrance, me);
    SumByMap(es, FromEntrance, AmountOf, EntranceAmount);
  }

  lemma ClassTotal(es: seq<EntrancePayment>, cs: seq<ClassPayment>)
    ensures SumBy(Filter(PaymentsData(es, cs), IsClass), AmountOf) == SumBy(cs, ClassAmount)
  {
    var me := Map(es, FromEntrance);
    var mc := Map(cs, FromClass);
    MergeIsConcat(es, cs);
    MergeKinds(es, cs);
    FilterConcat(me, mc, IsClass);
    assert [] + mc == mc;
    KindTotal(es, cs, IsClass, mc);
    SumByMap(cs, FromClass, AmountOf, ClassAmount);
  }

  /** The merged list is the two mapped tables, one after the other. */
  lemma MergeIsConcat(es: seq<EntrancePayment>, cs: seq<ClassPayment>)
    ensures Merge(es, cs) == Map(es, FromEntrance) + Map(cs, FromClass)
  {
    MapBothConcat(es, FromEntrance, cs, FromClass);
  }

  /** Each kind's count over the sorted list is the size of its table. */
  lemma CountsAgree(es: seq<EntrancePayment>, cs: seq<ClassPayment>)
    ensures Count(PaymentsData(es, cs), IsEntrance) == |es|
    ensures Count(PaymentsData(es, cs), IsClass) == |cs|
  {
    var me := Map(es, FromEntrance);
    var mc := Map(cs, FromClass);
    MergeIsConcat(es, cs);
    MergeKinds(es, cs);
    FilterConcat(me, mc, IsEntrance);
    FilterConcat(me, mc, IsClass);
    SortDescCount(Merge(es, cs), DateOf, IsEntrance);
    SortDescCount(Merge(es, cs), DateOf, IsClass);
  }

  /** Every record of the list has the field layout of its kind. */
  lemma RecordsConsistent(es: seq<EntrancePayment>, cs: seq<ClassPayment>)
    ensures forall r :: r in PaymentsData(es, cs) ==> KindFieldsConsistent(r)
  {
    var m := Merge(es, cs);
    forall r | r in PaymentsData(es, cs) ensures KindFieldsConsistent(r) {
      SortDescSameElements(m, DateOf, r);
      var i :| 0 <= i < |m| && m[i] == r;
      if i < |es| {
        assert r == FromEntrance(es[i]);
      } else {
        assert r == FromClass(cs[i - |es|]);
      }
    }
  }

  /** The sort is stable: among records of one date, the entrance records come first, in
      table order, then the class records, in table order. */
  lemma SameDateOrder(es: seq<EntrancePayment>, cs: seq<ClassPayment>, d: int)
    ensures Filter(PaymentsData(es, cs), KeyIs(DateOf, d)) ==
            Filter(Map(es, FromEntrance), KeyIs(DateOf, d)) + Filter(Map(cs, FromClass), KeyIs(DateOf, d))
  {
    MergeIsConcat(es, cs);
    SortDescStable(Merge(es, cs), DateOf, d);
    FilterConcat(Map(es, FromEntrance), Map(cs, FromClass), KeyIs(DateOf, d));
  }
}
