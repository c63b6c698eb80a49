/**
 * The record schema of the savings-and-loans application: members and staff,
 * savings entries, monthly savings targets, loans and welfare contributions,
 * with the constraints and defaults their field declarations carry.
 */
module Models {
  import opened Wrappers
  import opened Calendar
  import Digits

  /** A money amount in hundredths of a shilling (a two-place decimal). */
  type Cents = int

  /**
   * `DecimalField(max_digits=10, decimal_places=2)`: at most ten digits in all,
   * two after the point, so the largest magnitude is 99,999,999.99.
   */
  const MaxDigits: nat := 10
  const MaxAmount: Cents := 99_999_999_99

  predicate FitsAmount(c: Cents) {
    -MaxAmount <= c <= MaxAmount
  }

  /** An amount fits the column exactly when its digits (in cents) number at most ten. */
  lemma FitsAmountIsMaxDigits(c: Cents)
    ensures FitsAmount(c) <==> |Digits.NatToString(if c < 0 then -c else c)| <= MaxDigits
  {
    Digits.DigitCountBound(if c < 0 then -c else c, MaxDigits);
    assert Digits.Pow10(MaxDigits) == MaxAmount + 1;
  }

  /** An account of the identity collaborator: a member or a staff user. */
  datatype User = User(username: string, isStaff: bool)

  /** One savings entry; `dateSaved` is stamped when the row is created. */
  datatype Savings = Savings(user: string, amount: Cents, dateSaved: Instant, description: string)

  /** A member's savings goal for one calendar month (`month` is 1..12). */
  datatype SavingsTarget = SavingsTarget(user: string, month: int, year: int, amount: Cents, createdAt: Instant)

  datatype LoanStatus = Pending | Approved | Rejected

  /** The status a new loan gets (`default='PENDING'`). */
  const DefaultStatus: LoanStatus := Pending

  /** A loan application; the approver and the approval date stay empty until a decision. */
  datatype Loan = Loan(
    id: nat,
    user: string,
    amount: Cents,
    purpose: string,
    dateApplied: Instant,
    dueDate: Option<Instant>,
    status: LoanStatus,
    approvedBy: Option<string>,
    approvalDate: Option<Instant>)

  /** A welfare-fund contribution; `dateContributed` defaults to the time of creation. */
  datatype WelfareContribution = WelfareContribution(user: string, amount: Cents, dateContributed: Instant)

  // ---------------------------------------------------------------------------
  // Loan status choices
  // ---------------------------------------------------------------------------

  /** The value stored in the `status` column. */
  function StatusName(st: LoanStatus): string {
    match st
    case Pending => "PENDING"
    case Approved => "APPROVED"
    case Rejected => "REJECTED"
  }

  /** The status a query-string value names, if it is one of the three choices. */
  function StatusFromName(name: string): (r: Option<LoanStatus>)
    ensures r.Some? ==> StatusName(r.value) == name
    ensures r.None? ==> forall st: LoanStatus :: StatusName(st) != name
  {
    if name == "PENDING" then Some(Pending)
    else if name == "APPROVED" then Some(Approved)
    else if name == "REJECTED" then Some(Rejected)
    else None
  }

  lemma StatusNameRoundTrip(st: LoanStatus)
    ensures StatusFromName(StatusName(st)) == Some(st)
  {
  }

  // ---------------------------------------------------------------------------
  // Creating and deciding loans
  // ---------------------------------------------------------------------------

  /** Days between an application and its due date. */
  const LoanTermDays: int := 30

  /**
   * A fresh loan row: pending, no approver, applied now and due at the start
   * of the day 30 days after today (a date stored into a DateTimeField).
   */
  function NewLoan(id: nat, user: string, amount: Cents, purpose: string, now: Instant): (l: Loan)
    ensures l.id == id && l.user == user && l.amount == amount && l.purpose == purpose
    ensures l.status == Pending && l.approvedBy.None? && l.approvalDate.None?
    ensures l.dateApplied == now
    ensures l.dueDate.Some? && DayOf(l.dueDate.value) == DayOf(now) + LoanTermDays
    ensures now < l.dueDate.value
  {
    Loan(id, user, amount, purpose, now, Some(StartOfDay(DayOf(now) + LoanTermDays)), DefaultStatus, None, None)
  }

  /** A loan after a staff decision: status, approver and approval date overwritten, nothing else. */
  function Decide(l: Loan, st: LoanStatus, staff: string, now: Instant): (d: Loan)
    ensures d.status == st && d.approvedBy == Some(staff) && d.approvalDate == Some(now)
    ensures d.id == l.id && d.user == l.user && d.amount == l.amount && d.purpose == l.purpose
    ensures d.dateApplied == l.dateApplied && d.dueDate == l.dueDate
  {
    l.(status := st, approvedBy := Some(staff), approvalDate := Some(now))
  }

  /** A second decision replaces the first whatever it was: nothing checks for PENDING. */
  lemma LastDecisionWins(l: Loan, first: LoanStatus, second: LoanStatus, a: string, b: string, t1: Instant, t2: Instant)
    ensures Decide(Decide(l, first, a, t1), second, b, t2) == Decide(l, second, b, t2)
  {
  }

  // ---------------------------------------------------------------------------
  // Table constraints
  // ---------------------------------------------------------------------------

  function Usernames(users: seq<User>): set<string> {
    set u | u in users :: u.username
  }

  predicate UniqueUsernames(users: seq<User>) {
    forall i, j :: 0 <= i < j < |users| ==> users[i].username != users[j].username
  }

  /** Two targets for the same (user, month, year). */
  predicate SameSlot(a: SavingsTarget, b: SavingsTarget) {
    a.user == b.user && a.month == b.month && a.year == b.year
  }

  /** `unique_together = ('user', 'month', 'year')`. */
  predicate UniqueTargets(ts: seq<SavingsTarget>) {
    forall i, j :: 0 <= i < j < |ts| ==> !SameSlot(ts[i], ts[j])
  }

  predicate DistinctLoanIds(loans: seq<Loan>, nextId: nat) {
    && (forall i :: 0 <= i < |loans| ==> loans[i].id < nextId)
    && (forall i, j :: 0 <= i < j < |loans| ==> loans[i].id != loans[j].id)
  }

  /**
   * A loan is still pending exactly when no approver and no approval date are
   * recorded.  The schema does not impose this (deleting an approver's account
   * sets `approved_by` to null), but every row the loan views write keeps it.
   */
  predicate DecisionStamped(l: Loan) {
    (l.status == Pending) <==> (l.approvedBy.None? && l.approvalDate.None?)
  }

  predicate AllStamped(loans: seq<Loan>) {
    forall l :: l in loans ==> DecisionStamped(l)
  }

  /** A fresh application is pending and unstamped. */
  lemma NewLoanStamped(id: nat, user: string, amount: Cents, purpose: string, now: Instant)
    ensures DecisionStamped(NewLoan(id, user, amount, purpose, now))
  {
  }

  /** An approval or a rejection stamps the loan, whatever it held before. */
  lemma DecideStamped(l: Loan, st: LoanStatus, staff: string, now: Instant)
    ensures DecisionStamped(Decide(l, st, staff, now)) <==> st != Pending
  {
  }

  /** Every row satisfies the schema, and every foreign key names a registered user. */
  predicate Consistent(users: seq<User>, savings: seq<Savings>, targets: seq<SavingsTarget>,
                       loans: seq<Loan>, welfare: seq<WelfareContribution>, nextLoanId: nat)
  {
    var names := Usernames(users);
    && UniqueUsernames(users)
    && (forall s :: s in savings ==> s.user in names && FitsAmount(s.amount))
    && (forall t :: t in targets ==> t.user in names && FitsAmount(t.amount) && 1 <= t.month <= 12)
    && UniqueTargets(targets)
    && (forall l :: l in loans ==> l.user in names && FitsAmount(l.amount))
    && (forall l :: l in loans && l.approvedBy.Some? ==> l.approvedBy.value in names)
    && DistinctLoanIds(loans, nextLoanId)
    && (forall w :: w in welfare ==> w.user in names && FitsAmount(w.amount))
  }
}
