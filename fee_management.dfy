/** The fee screen of the finance office: the total fee of a student from
    the fee structure of its class, the amount paid from its payments, the
    amount due, and the payment form with the payment it records. All
    amounts are integers. */
module FeeManagement {
  import opened Seqs

  /** One row of the fee structure table. */
  datatype FeeStructure = FeeStructure(
    id: string,
    standard: string,
    admission_fee: int,
    tuition_fee: int,
    books_fee: int,
    uniform_fee: int,
    transport_fee: int)

  /** The fields of a student the fee screen reads. */
  datatype FeeStudent = FeeStudent(id: string, current_class: string)

  /** A fee payment, with the fields the screen reads and the recording
      form sends. */
  datatype Payment = Payment(student_id: string, amount: int, payment_mode: string, payment_status: string)

  /** The state of the payment form. */
  datatype PaymentForm = PaymentForm(amount: int, payment_mode: string)

  /** The five components of a fee structure added up, as the Total column
      of the table shows them. */
  function StructureTotal(f: FeeStructure): int {
    f.admission_fee + f.tuition_fee + f.books_fee + f.uniform_fee + f.transport_fee
  }

  function ForClass(standard: string): FeeStructure -> bool {
    (f: FeeStructure) => f.standard == standard
  }

  /** `calculateTotalFee`: 0 when no structure is for the student's class,
      otherwise the table total of the first structure that is. */
  function TotalFee(structures: seq<FeeStructure>, student: FeeStudent): (r: int)
    ensures (forall k :: 0 <= k < |structures| ==> structures[k].standard != student.current_class) ==> r == 0
    ensures forall k :: 0 <= k < |structures| && structures[k].standard == student.current_class &&
                        (forall j :: 0 <= j < k ==> structures[j].standard != student.current_class) ==>
                          r == StructureTotal(structures[k])
  {
    match Find(structures, ForClass(student.current_class))
    case None => 0
    case Some(f) => StructureTotal(f)
  }

  /** A payment that counts towards the student's paid amount. */
  function PaidBy(studentId: string): Payment -> bool {
    (p: Payment) => p.student_id == studentId && p.payment_status == "paid"
  }

  function SumAmounts(s: seq<Payment>): int {
    if s == [] then 0 else s[0].amount + SumAmounts(s[1..])
  }

  lemma {:induction false} SumAmountsSnoc(s: seq<Payment>, x: Payment)
    ensures SumAmounts(s + [x]) == SumAmounts(s) + x.amount
  {
    if s == [] {
      assert [x][1..] == [];
    } else {
      assert (s + [x])[1..] == s[1..] + [x];
      SumAmountsSnoc(s[1..], x);
    }
  }

  /** `calculatePaid`: the amounts of the student's payments whose status is
      `paid`, added up; nothing else is counted. */
  function PaidAmount(payments: seq<Payment>, studentId: string): (r: int)
    ensures (forall k :: 0 <= k < |payments| ==> !PaidBy(studentId)(payments[k])) ==> r == 0
  {
    FilterCount(payments, PaidBy(studentId));
    SumAmounts(Filter(payments, PaidBy(studentId)))
  }

  /** A later payment adds its amount exactly when it is the student's and
      `paid`; any other payment leaves the paid amount alone. */
  lemma PaidAmountSnoc(payments: seq<Payment>, p: Payment, studentId: string)
    ensures PaidAmount(payments + [p], studentId) ==
              PaidAmount(payments, studentId) + (if p.student_id == studentId && p.payment_status == "paid" then p.amount else 0)
  {
    FilterSnoc(payments, p, PaidBy(studentId));
    var f := Filter(payments, PaidBy(studentId));
    if PaidBy(studentId)(p) {
      SumAmountsSnoc(f, p);
    } else {
      assert f + [] == f;
    }
  }

  /** With no negative amounts the paid amount is not negative. */
  lemma {:induction false} PaidAmountNonNegative(payments: seq<Payment>, studentId: string)
    requires forall k :: 0 <= k < |payments| ==> payments[k].amount >= 0
    ensures PaidAmount(payments, studentId) >= 0
  {
    if payments != [] {
      var n := |payments| - 1;
      assert payments == payments[..n] + [payments[n]];
      PaidAmountNonNegative(payments[..n], studentId);
      PaidAmountSnoc(payments[..n], payments[n], studentId);
    }
  }

  /** The Due card: total minus paid, not clamped at zero, so it is negative
      whenever more was paid than the structure asks for. */
  function Due(structures: seq<FeeStructure>, payments: seq<Payment>, student: FeeStudent): (r: int)
    ensures r + PaidAmount(payments, student.id) == TotalFee(structures, student)
    ensures PaidAmount(payments, student.id) > TotalFee(structures, student) ==> r < 0
  {
    TotalFee(structures, student) - PaidAmount(payments, student.id)
  }

  /** The payment form opens on the amount due, paid in cash. */
  function InitialPaymentForm(totalFee: int, paidAmount: int): (r: PaymentForm)
    ensures r.amount + paidAmount == totalFee
    ensures r.payment_mode == "cash"
  {
    PaymentForm(totalFee - paidAmount, "cash")
  }

  /** The payment the form records: always with status `paid`. */
  function RecordedPayment(student: FeeStudent, form: PaymentForm): (r: Payment)
    ensures r.student_id == student.id && r.payment_status == "paid"
    ensures r.amount == form.amount && r.payment_mode == form.payment_mode
  {
    Payment(student.id, form.amount, form.payment_mode, "paid")
  }

  /** Recording the form as it opens settles the fee: the due amount becomes
      zero, whatever it was before. */
  lemma CollectingDueSettles(structures: seq<FeeStructure>, payments: seq<Payment>, student: FeeStudent)
    ensures var form := InitialPaymentForm(TotalFee(structures, student), PaidAmount(payments, student.id));
            Due(structures, payments + [RecordedPayment(student, form)], student) == 0
  {
    var form := InitialPaymentForm(TotalFee(structures, student), PaidAmount(payments, student.id));
    PaidAmountSnoc(payments, RecordedPayment(student, form), student.id);
  }
}
