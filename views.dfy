/**
 * The request handlers of the application as methods of one record store.
 *
 * A request is modelled by its parameters: the signed-in account (`actor`),
 * the clock reading (`now`), the form fields of a POST (`Some(...)`; `None`
 * is a GET) and the query-string values (`None` when absent).  A handler
 * returns the page it renders, the route it redirects to, or the failure
 * that aborts the request.
 */
module Views {
  import opened Wrappers
  import opened Calendar
  import opened Aggregates
  import opened Models
  import opened Queries

  datatype Route =
    | LoginRoute
    | DashboardRoute
    | AdminDashboardRoute
    | ApplyLoanRoute
    | UserLoansRoute
    | WelfareContributionRoute
    | StaffLoginRoute

  /**
   * Why a request fails instead of answering.  `NoReverseMatch` is raised
   * after the handler's write, the others before any write.
   * `UsernameMissing` is the `ValueError` that `create_user` raises for an
   * empty username.
   */
  datatype Failure =
    | LoanDoesNotExist
    | AmountOutOfRange
    | PurposeMissing
    | NoReverseMatch
    | UsernameMissing

  datatype Response<T> = Render(page: T) | Redirect(route: Route) | Fail(failure: Failure)

  datatype RegisterPage = RegisterPage(duplicate: bool)

  datatype DashboardPage = DashboardPage(
    totalSavings: int,
    targetSavings: int,
    progress: real,
    remaining: int,
    midMonthWarning: bool,
    chartLabels: seq<Month>,
    chartSavings: seq<int>,
    chartTargets: seq<int>)

  datatype SavingsPage = SavingsPage(totalSavings: int)

  /** The target form: the month and the amount of the target being edited (none for an unsaved one). */
  datatype TargetForm = TargetForm(month: Month, amount: Option<Cents>)

  datatype TargetHistoryPage = TargetHistoryPage(targets: seq<SavingsTarget>)

  datatype ApplyLoanPage = ApplyLoanPage(loanLimit: int)

  /** The fields of a loan application; `purpose` is absent when the form omits it. */
  datatype LoanForm = LoanForm(amount: Cents, purpose: Option<string>)

  datatype AdminDashboardPage = AdminDashboardPage(
    allLoans: seq<Loan>,
    loanCounts: seq<(LoanStatus, int)>,
    loanAmounts: seq<(LoanStatus, int)>,
    selectedStatus: string)

  datatype UserLoansPage = UserLoansPage(userLoans: seq<Loan>, selectedStatus: string)

  /** One member's line of the admin savings page for the current month. */
  datatype MemberRow = MemberRow(user: string, savings: int, target: int, metTarget: bool)

  datatype AdminSavingsPage = AdminSavingsPage(
    savingsList: seq<Savings>,
    totalAmount: int,
    perUser: seq<(string, int)>,
    monthly: seq<(Month, int)>,
    userData: seq<MemberRow>,
    month: Month)

  datatype WelfareContributionPage = WelfareContributionPage(contributions: seq<WelfareContribution>, totalContributed: int)

  datatype WelfareContributePage = WelfareContributePage(currentMonth: Month)

  datatype AdminWelfarePage = AdminWelfarePage(
    contributions: seq<WelfareContribution>,
    monthly: seq<(Month, int)>,
    totalAmount: int)

  /** An absent or empty query-string value applies no filter (`if user_filter:`). */
  function FilterText(param: Option<string>): string {
    param.GetOr("")
  }


  /** The accounts `User.objects.filter(is_staff=False)` lists, in registration order. */
  function Members(users: seq<User>): (r: seq<User>)
    ensures forall u :: u in r <==> u in users && !u.isStaff
    ensures forall u :: multiset(r)[u] == if u.isStaff then 0 else multiset(users)[u]
  {
    Filter(users, (u: User) => !u.isStaff)
  }

  /** A member's line for month `m`: the month's savings, the month's target and whether it is met. */
  function MemberLine(ss: seq<Savings>, ts: seq<SavingsTarget>, name: string, m: Month): (row: MemberRow)
    ensures row.user == name
    ensures row.savings == MonthSavingsTotal(ss, name, m) && row.target == TargetAmountFor(ts, name, m)
    ensures row.metTarget <==> row.target > 0 && row.savings >= row.target
  {
    var saved := MonthSavingsTotal(ss, name, m);
    var target := TargetAmountFor(ts, name, m);
    MemberRow(name, saved, target, MetTarget(saved, target))
  }

  /**
   * The dashboard chart loop: for each target of `chart` (the member's
   * targets, oldest month first), the month, that month's savings looked up
   * in `monthly` (0 when the month has none) and the target amount.
   */
  method ChartSeries(monthly: seq<(Month, int)>, chart: seq<SavingsTarget>)
    returns (labels: seq<Month>, values: seq<int>, goals: seq<int>)
    ensures |labels| == |values| == |goals| == |chart|
    ensures forall i :: 0 <= i < |chart| ==>
      && labels[i] == TargetMonth(chart[i])
      && values[i] == FirstMatch(monthly, TargetMonth(chart[i]))
      && goals[i] == chart[i].amount
  {
    labels, values, goals := [], [], [];
    var k := 0;
    while k < |chart|
      invariant 0 <= k <= |chart|
      invariant |labels| == |values| == |goals| == k
      invariant forall i :: 0 <= i < k ==> labels[i] == TargetMonth(chart[i])
      invariant forall i :: 0 <= i < k ==> values[i] == FirstMatch(monthly, TargetMonth(chart[i]))
      invariant forall i :: 0 <= i < k ==> goals[i] == chart[i].amount
    {
      var t := chart[k];
      labels := labels + [TargetMonth(t)];
      values := values + [FirstMatch(monthly, TargetMonth(t))];
      goals := goals + [t.amount];
      k := k + 1;
    }
  }

  class RecordStore {
    var users: seq<User>
    var savings: seq<Savings>
    var targets: seq<SavingsTarget>
    var loans: seq<Loan>
    var welfare: seq<WelfareContribution>
    /** The id the next loan row receives. */
    var nextLoanId: nat

    ghost predicate Valid()
      reads this
    {
      Consistent(users, savings, targets, loans, welfare, nextLoanId)
    }

    /** A store holding the given rows. */
    constructor (us: seq<User>, ss: seq<Savings>, ts: seq<SavingsTarget>, ls: seq<Loan>,
                 ws: seq<WelfareContribution>, nextId: nat)
      requires Consistent(us, ss, ts, ls, ws, nextId)
      ensures Valid()
      ensures users == us && savings == ss && targets == ts && loans == ls && welfare == ws && nextLoanId == nextId
    {
      users, savings, targets, loans, welfare, nextLoanId := us, ss, ts, ls, ws, nextId;
    }

    // -------------------------------------------------------------------------
    // Accounts
    // -------------------------------------------------------------------------

    /**
     * `register`: a new member account unless the username is taken.  The
     * taken check comes first; a free but empty username then makes
     * `create_user` raise before anything is written.
     */
    method Register(username: string) returns (r: Response<RegisterPage>)
      requires Valid()
      modifies this
      ensures Valid()
      ensures username in Usernames(old(users)) ==> r == Render(RegisterPage(true)) && users == old(users)
      ensures username !in Usernames(old(users)) && username == "" ==> r == Fail(UsernameMissing) && users == old(users)
      ensures username !in Usernames(old(users)) && username != "" ==>
        r == Redirect(LoginRoute) && users == old(users) + [User(username, false)]
      ensures savings == old(savings) && targets == old(targets) && loans == old(loans)
      ensures welfare == old(welfare) && nextLoanId == old(nextLoanId)
    {
      if username in Usernames(users) {
        return Render(RegisterPage(true));
      }
      if username == "" {
        return Fail(UsernameMissing);
      }
      var u := User(username, false);
      forall i | 0 <= i < |users| ensures users[i].username != username {
        assert users[i] in users;
      }
      assert Usernames(users + [u]) == Usernames(users) + {username} by {
        forall n ensures n in Usernames(users + [u]) <==> n in Usernames(users) + {username} {
          if n in Usernames(users + [u]) {
            var v :| v in users + [u] && v.username == n;
          }
          if n == username {
            assert (users + [u])[|users|] == u;
          }
        }
      }
      users := users + [u];
      r := Redirect(LoginRoute);
    }

    // -------------------------------------------------------------------------
    // Member pages
    // -------------------------------------------------------------------------

    /**
     * `dashboard`: this month's savings against this month's target, and a
     * chart with one point per target month, oldest first.
     */
    method Dashboard(actor: User, now: Instant) returns (r: Response<DashboardPage>)
      ensures actor.isStaff ==> r == Redirect(AdminDashboardRoute)
      ensures !actor.isStaff ==> r.Render?
      ensures r.Render? ==>
        var u, m, p := actor.username, MonthOf(now), r.page;
        && p.totalSavings == MonthSavingsTotal(savings, u, m)
        && p.targetSavings == TargetAmountFor(targets, u, m)
        && p.progress == Progress(p.totalSavings, p.targetSavings)
        && p.remaining == Remaining(p.totalSavings, p.targetSavings)
        && p.midMonthWarning == MidMonthWarning(now, p.totalSavings)
      ensures r.Render? ==>
        var u, chart, p := actor.username, ChartTargets(targets, actor.username), r.page;
        && |p.chartLabels| == |p.chartSavings| == |p.chartTargets| == |chart| == |TargetsOf(targets, u)|
        && (forall i :: 0 <= i < |chart| ==>
              && p.chartLabels[i] == TargetMonth(chart[i])
              && p.chartSavings[i] == MonthSavingsTotal(savings, u, TargetMonth(chart[i]))
              && p.chartTargets[i] == chart[i].amount)
    {
      if actor.isStaff {
        return Redirect(AdminDashboardRoute);
      }
      var u, m := actor.username, MonthOf(now);
      var total := MonthSavingsTotal(savings, u, m);
      var target := TargetAmountFor(targets, u, m);
      var progress := Progress(total, target);
      var remaining := Remaining(total, target);
      var warning := false;
      if DayOfMonth(now) >= MidMonthDay && total == 0 {
        warning := true;
      }

      var chart := ChartTargets(targets, u);
      var labels, values, goals := ChartSeries(MonthlySavings(SavingsOf(savings, u)), chart);
      forall i | 0 <= i < |chart| ensures values[i] == MonthSavingsTotal(savings, u, TargetMonth(chart[i])) {
        ChartLookup(savings, u, TargetMonth(chart[i]));
      }
      r := Render(DashboardPage(total, target, progress, remaining, warning, labels, values, goals));
    }

    /** `savings_view`: the member's lifetime savings; a POST only asks for payment and records nothing. */
    method SavingsView(actor: User, posted: Option<Cents>) returns (r: Response<SavingsPage>)
      ensures r == Render(SavingsPage(SavingsTotal(savings, actor.username)))
    {
      r := Render(SavingsPage(SavingsTotal(savings, actor.username)));
    }

    /**
     * `set_target`: a POST sets the amount of this month's target, creating
     * the target if the month has none; a GET shows the form and writes nothing.
     */
    method SetTarget(actor: User, now: Instant, posted: Option<Cents>) returns (r: Response<TargetForm>)
      requires Valid() && actor in users
      modifies this
      ensures Valid()
      ensures users == old(users) && savings == old(savings) && loans == old(loans)
      ensures welfare == old(welfare) && nextLoanId == old(nextLoanId)
      ensures posted.None? ==> targets == old(targets)
      ensures posted.None? ==>
        r == Render(TargetForm(MonthOf(now),
               match TargetIndex(old(targets), actor.username, MonthOf(now))
               case Some(i) => Some(old(targets)[i].amount)
               case None => None))
      ensures posted.Some? && !FitsAmount(posted.value) ==> targets == old(targets) && r == Fail(AmountOutOfRange)
      ensures posted.Some? && FitsAmount(posted.value) ==>
        targets == UpsertTarget(old(targets), actor.username, MonthOf(now), posted.value, now) && r == Redirect(DashboardRoute)
    {
      var m := MonthOf(now);
      var found := TargetIndex(targets, actor.username, m);
      if posted.None? {
        var shown := match found case Some(i) => Some(targets[i].amount) case None => None;
        return Render(TargetForm(m, shown));
      }
      var amount := posted.value;
      if !FitsAmount(amount) {
        return Fail(AmountOutOfRange);
      }
      assert actor.username in Usernames(users);
      match found {
        case Some(i) =>
          targets := targets[i := targets[i].(amount := amount)];
        case None =>
          targets := targets + [SavingsTarget(actor.username, m.month, m.year, amount, now)];
      }
      r := Redirect(DashboardRoute);
    }

    /** `target_history`: the member's targets, latest month first. */
    method TargetHistoryView(actor: User) returns (r: Response<TargetHistoryPage>)
      ensures r.Render?
      ensures r.page.targets == TargetHistory(targets, actor.username)
      ensures SortedBy(r.page.targets, NewestTargetFirst)
      ensures multiset(r.page.targets) == multiset(TargetsOf(targets, actor.username))
      ensures forall t :: t in r.page.targets <==> t in targets && t.user == actor.username
    {
      r := Render(TargetHistoryPage(TargetHistory(targets, actor.username)));
    }

    // -------------------------------------------------------------------------
    // Loans
    // -------------------------------------------------------------------------

    /**
     * `apply_loan`: staff are sent to the admin dashboard; a GET shows the
     * limit; an amount above three times the member's savings is refused and
     * writes nothing; otherwise exactly one pending loan due in 30 days is added.
     */
    method ApplyLoan(actor: User, now: Instant, posted: Option<LoanForm>) returns (r: Response<ApplyLoanPage>)
      requires Valid() && actor in users
      modifies this
      ensures Valid()
      ensures users == old(users) && savings == old(savings) && targets == old(targets) && welfare == old(welfare)
      ensures actor.isStaff ==> r == Redirect(AdminDashboardRoute)
      ensures !actor.isStaff && posted.None? ==> r == Render(ApplyLoanPage(LoanLimit(savings, actor.username)))
      ensures !actor.isStaff && posted.Some? && OverLimit(posted.value.amount, LoanLimit(savings, actor.username)) ==>
        r == Redirect(ApplyLoanRoute)
      ensures r.Redirect? && r.route == UserLoansRoute <==>
        !actor.isStaff && posted.Some? && !OverLimit(posted.value.amount, LoanLimit(savings, actor.username)) &&
        FitsAmount(posted.value.amount) && posted.value.purpose.Some?
      ensures r.Redirect? && r.route == UserLoansRoute ==>
        && loans == old(loans) + [NewLoan(old(nextLoanId), actor.username, posted.value.amount, posted.value.purpose.value, now)]
        && nextLoanId == old(nextLoanId) + 1
      ensures !(r.Redirect? && r.route == UserLoansRoute) ==> loans == old(loans) && nextLoanId == old(nextLoanId)
      ensures AllStamped(old(loans)) ==> AllStamped(loans)
    {
      if actor.isStaff {
        return Redirect(AdminDashboardRoute);
      }
      var limit := LoanLimit(savings, actor.username);
      if posted.None? {
        return Render(ApplyLoanPage(limit));
      }
      var form := posted.value;
      if OverLimit(form.amount, limit) {
        return Redirect(ApplyLoanRoute);
      }
      if !FitsAmount(form.amount) {
        return Fail(AmountOutOfRange);
      }
      if form.purpose.None? {
        return Fail(PurposeMissing);
      }
      var loan := NewLoan(nextLoanId, actor.username, form.amount, form.purpose.value, now);
      NewLoanStamped(nextLoanId, actor.username, form.amount, form.purpose.value, now);
      assert actor.username in Usernames(users);
      loans := loans + [loan];
      nextLoanId := nextLoanId + 1;
      r := Redirect(UserLoansRoute);
    }

    /** `approve_loan` and `reject_loan`: overwrite status, approver and approval date, whatever the status was. */
    method DecideLoan(actor: User, now: Instant, loanId: nat, decision: LoanStatus) returns (r: Response<()>)
      requires Valid() && actor in users && decision != Pending
      modifies this
      ensures Valid()
      ensures users == old(users) && savings == old(savings) && targets == old(targets)
      ensures welfare == old(welfare) && nextLoanId == old(nextLoanId)
      ensures !actor.isStaff ==> r == Redirect(StaffLoginRoute) && loans == old(loans)
      ensures actor.isStaff && LoanIndex(old(loans), loanId).None? ==> r == Fail(LoanDoesNotExist) && loans == old(loans)
      ensures actor.isStaff && LoanIndex(old(loans), loanId).Some? ==>
        var i := LoanIndex(old(loans), loanId).value;
        && r == Redirect(AdminDashboardRoute)
        && loans == old(loans)[i := Decide(old(loans)[i], decision, actor.username, now)]
      ensures AllStamped(old(loans)) ==> AllStamped(loans)
    {
      if !actor.isStaff {
        return Redirect(StaffLoginRoute);
      }
      var found := LoanIndex(loans, loanId);
      if found.None? {
        return Fail(LoanDoesNotExist);
      }
      var i := found.value;
      assert actor.username in Usernames(users);
      assert loans[i] in loans;
      var decided := Decide(loans[i], decision, actor.username, now);
      DecideStamped(loans[i], decision, actor.username, now);
      assert forall j :: 0 <= j < |loans| && j != i ==> loans[i := decided][j] == loans[j];
      forall l | l in loans[i := decided] ensures l in loans || l == decided {
        var j :| 0 <= j < |loans| && loans[i := decided][j] == l;
      }
      loans := loans[i := decided];
      r := Redirect(AdminDashboardRoute);
    }

    /** `approve_loan`. */
    method ApproveLoan(actor: User, now: Instant, loanId: nat) returns (r: Response<()>)
      requires Valid() && actor in users
      modifies this
      ensures Valid()
      ensures users == old(users) && savings == old(savings) && targets == old(targets)
      ensures welfare == old(welfare) && nextLoanId == old(nextLoanId)
      ensures !actor.isStaff ==> r == Redirect(StaffLoginRoute) && loans == old(loans)
      ensures actor.isStaff && LoanIndex(old(loans), loanId).None? ==> r == Fail(LoanDoesNotExist) && loans == old(loans)
      ensures actor.isStaff && LoanIndex(old(loans), loanId).Some? ==>
        var i := LoanIndex(old(loans), loanId).value;
        && r == Redirect(AdminDashboardRoute)
        && loans == old(loans)[i := Decide(old(loans)[i], Approved, actor.username, now)]
      ensures AllStamped(old(loans)) ==> AllStamped(loans)
    {
      r := DecideLoan(actor, now, loanId, Approved);
    }

    /** `reject_loan`. */
    method RejectLoan(actor: User, now: Instant, loanId: nat) returns (r: Response<()>)
      requires Valid() && actor in users
      modifies this
      ensures Valid()
      ensures users == old(users) && savings == old(savings) && targets == old(targets)
      ensures welfare == old(welfare) && nextLoanId == old(nextLoanId)
      ensures !actor.isStaff ==> r == Redirect(StaffLoginRoute) && loans == old(loans)
      ensures actor.isStaff && LoanIndex(old(loans), loanId).None? ==> r == Fail(LoanDoesNotExist) && loans == old(loans)
      ensures actor.isStaff && LoanIndex(old(loans), loanId).Some? ==>
        var i := LoanIndex(old(loans), loanId).value;
        && r == Redirect(AdminDashboardRoute)
        && loans == old(loans)[i := Decide(old(loans)[i], Rejected, actor.username, now)]
      ensures AllStamped(old(loans)) ==> AllStamped(loans)
    {
      r := DecideLoan(actor, now, loanId, Rejected);
    }

    /**
     * `admin_dashboard`: the loans of the selected status (PENDING when the
     * parameter is absent or empty, every loan when it names no status),
     * newest first, with counts and amounts per status.
     */
    method AdminDashboard(actor: User, statusParam: Option<string>) returns (r: Response<AdminDashboardPage>)
      ensures !actor.isStaff ==> r == Redirect(StaffLoginRoute)
      ensures actor.isStaff ==> r.Render? && r.page.selectedStatus == AdminStatusSelection(statusParam)
      ensures r.Render? ==>
        && SortedBy(r.page.allLoans, NewestAppliedFirst)
        && multiset(r.page.allLoans) == multiset(WithStatusName(loans, r.page.selectedStatus))
        && r.page.loanCounts == StatusCounts(loans)
        && r.page.loanAmounts == StatusAmounts(loans)
    {
      if !actor.isStaff {
        return Redirect(StaffLoginRoute);
      }
      var selected := AdminStatusSelection(statusParam);
      r := Render(AdminDashboardPage(AdminLoanList(loans, selected), StatusCounts(loans), StatusAmounts(loans), selected));
    }

    /**
     * `user_loans`: staff are sent to the admin dashboard; a member sees
     * their own loans, newest first, of the selected status (PENDING only
     * when the parameter is absent).
     */
    method UserLoans(actor: User, statusParam: Option<string>) returns (r: Response<UserLoansPage>)
      ensures actor.isStaff ==> r == Redirect(AdminDashboardRoute)
      ensures !actor.isStaff ==> r.Render? && r.page.selectedStatus == UserStatusSelection(statusParam)
      ensures r.Render? ==>
        && SortedBy(r.page.userLoans, NewestAppliedFirst)
        && (forall l :: l in r.page.userLoans <==>
              (l in loans && l.user == actor.username &&
               (StatusFromName(r.page.selectedStatus).Some? ==> StatusName(l.status) == r.page.selectedStatus)))
        && (forall l :: multiset(r.page.userLoans)[l] ==
              (if l.user == actor.username &&
                  (StatusFromName(r.page.selectedStatus).Some? ==> StatusName(l.status) == r.page.selectedStatus)
               then multiset(loans)[l] else 0))
    {
      if actor.isStaff {
        return Redirect(AdminDashboardRoute);
      }
      var selected := UserStatusSelection(statusParam);
      r := Render(UserLoansPage(UserLoanList(loans, actor.username, selected), selected));
    }

    // -------------------------------------------------------------------------
    // Admin savings
    // -------------------------------------------------------------------------

    /**
     * `admin_savings_view`: the filtered savings list and its total, the
     * per-member totals, the monthly chart and one line per non-staff
     * account with its savings and target for the current month.
     */
    method AdminSavingsView(actor: User, now: Instant, userParam: Option<string>, startDay: Option<int>, endDay: Option<int>)
      returns (r: Response<AdminSavingsPage>)
      ensures !actor.isStaff ==> r == Redirect(StaffLoginRoute)
      ensures actor.isStaff ==> r.Render?
      ensures r.Render? ==>
        var f, p := FilterText(userParam), r.page;
        && p.savingsList == AdminSavingsList(savings, f, startDay, endDay)
        && p.totalAmount == SumBy(Filter(savings, (s: Savings) => SavingsMatch(s, f, startDay, endDay)), SavingsAmount)
        && p.perUser == PerUserTotals(savings, f)
        && p.monthly == MonthlySavings(savings)
        && p.month == MonthOf(now)
      ensures r.Render? ==>
        var members, rows, m := Members(users), r.page.userData, MonthOf(now);
        && |rows| == |members|
        && (forall i :: 0 <= i < |rows| ==> rows[i] == MemberLine(savings, targets, members[i].username, m))
    {
      if !actor.isStaff {
        return Redirect(StaffLoginRoute);
      }
      var m := MonthOf(now);
      var f := FilterText(userParam);
      var list := AdminSavingsList(savings, f, startDay, endDay);
      AdminSavingsTotal(savings, f, startDay, endDay);
      var total := SumBy(list, SavingsAmount);

      var rows := MemberRows(Members(users), m);
      r := Render(AdminSavingsPage(list, total, PerUserTotals(savings, f), MonthlySavings(savings), rows, m));
    }

    /** The admin savings loop: one line per account of `members` with its savings and target for month `m`. */
    method MemberRows(members: seq<User>, m: Month) returns (rows: seq<MemberRow>)
      ensures |rows| == |members|
      ensures forall i :: 0 <= i < |rows| ==> rows[i] == MemberLine(savings, targets, members[i].username, m)
    {
      rows := [];
      var k := 0;
      while k < |members|
        invariant 0 <= k <= |members|
        invariant |rows| == k
        invariant forall i :: 0 <= i < k ==> rows[i] == MemberLine(savings, targets, members[i].username, m)
      {
        var name := members[k].username;
        var saved := MonthSavingsTotal(savings, name, m);
        var target := TargetAmountFor(targets, name, m);
        rows := rows + [MemberRow(name, saved, target, saved >= target && target > 0)];
        k := k + 1;
      }
    }

    // -------------------------------------------------------------------------
    // Welfare
    // -------------------------------------------------------------------------

    /** Adds one contribution by `actor` dated `now`, or fails when the amount does not fit the column. */
    method RecordContribution(actor: User, now: Instant, amount: Cents) returns (ok: bool)
      requires Valid() && actor in users
      modifies this
      ensures Valid()
      ensures users == old(users) && savings == old(savings) && targets == old(targets)
      ensures loans == old(loans) && nextLoanId == old(nextLoanId)
      ensures ok == FitsAmount(amount)
      ensures ok ==> welfare == old(welfare) + [WelfareContribution(actor.username, amount, now)]
      ensures !ok ==> welfare == old(welfare)
    {
      if !FitsAmount(amount) {
        return false;
      }
      assert actor.username in Usernames(users);
      welfare := welfare + [WelfareContribution(actor.username, amount, now)];
      ok := true;
    }

    /**
     * `welfare_contribution_view`: a POST records one contribution; a GET
     * lists the member's contributions, newest first, with their total.
     */
    method WelfareContributionView(actor: User, now: Instant, posted: Option<Cents>) returns (r: Response<WelfareContributionPage>)
      requires Valid() && actor in users
      modifies this
      ensures Valid()
      ensures users == old(users) && savings == old(savings) && targets == old(targets)
      ensures loans == old(loans) && nextLoanId == old(nextLoanId)
      ensures posted.None? ==> welfare == old(welfare)
      ensures posted.None? ==>
        r == Render(WelfareContributionPage(ContributionHistory(welfare, actor.username), WelfareTotal(welfare, actor.username)))
      ensures posted.Some? && FitsAmount(posted.value) ==>
        welfare == old(welfare) + [WelfareContribution(actor.username, posted.value, now)] && r == Redirect(WelfareContributionRoute)
      ensures posted.Some? && !FitsAmount(posted.value) ==> welfare == old(welfare) && r == Fail(AmountOutOfRange)
    {
      if posted.Some? {
        var ok := RecordContribution(actor, now, posted.value);
        return if ok then Redirect(WelfareContributionRoute) else Fail(AmountOutOfRange);
      }
      r := Render(WelfareContributionPage(ContributionHistory(welfare, actor.username), WelfareTotal(welfare, actor.username)));
    }

    /**
     * `welfare_contribute`: a POST records one contribution and then fails
     * building its redirect, since no URL pattern is named `welfare_contribute`
     * (the row stays written); a GET shows the current month.
     */
    method WelfareContribute(actor: User, now: Instant, posted: Option<Cents>) returns (r: Response<WelfareContributePage>)
      requires Valid() && actor in users
      modifies this
      ensures Valid()
      ensures users == old(users) && savings == old(savings) && targets == old(targets)
      ensures loans == old(loans) && nextLoanId == old(nextLoanId)
      ensures posted.None? ==> welfare == old(welfare) && r == Render(WelfareContributePage(MonthOf(now)))
      ensures posted.Some? && FitsAmount(posted.value) ==>
        welfare == old(welfare) + [WelfareContribution(actor.username, posted.value, now)] && r == Fail(NoReverseMatch)
      ensures posted.Some? && !FitsAmount(posted.value) ==> welfare == old(welfare) && r == Fail(AmountOutOfRange)
    {
      if posted.Some? {
        var ok := RecordContribution(actor, now, posted.value);
        return if ok then Fail(NoReverseMatch) else Fail(AmountOutOfRange);
      }
      r := Render(WelfareContributePage(MonthOf(now)));
    }

    /**
     * `admin_welfare_view`: the filtered contributions, newest first, their
     * total and the monthly chart over all contributions.
     */
    method AdminWelfareView(actor: User, userParam: Option<string>, startDay: Option<int>, endDay: Option<int>)
      returns (r: Response<AdminWelfarePage>)
      ensures !actor.isStaff ==> r == Redirect(StaffLoginRoute)
      ensures actor.isStaff ==> r.Render?
      ensures r.Render? ==>
        var f, p := FilterText(userParam), r.page;
        var matching := Filter(welfare, (w: WelfareContribution) => ContributionMatch(w, f, startDay, endDay));
        && SortedBy(p.contributions, NewestContributedFirst)
        && multiset(p.contributions) == multiset(matching)
        && p.totalAmount == SumBy(matching, ContributionAmount)
        && p.monthly == MonthlyWelfare(welfare)
    {
      if !actor.isStaff {
        return Redirect(StaffLoginRoute);
      }
      var f := FilterText(userParam);
      var list := AdminWelfareList(welfare, f, startDay, endDay);
      SumByPermutation(list, Filter(welfare, (w: WelfareContribution) => ContributionMatch(w, f, startDay, endDay)), ContributionAmount);
      r := Render(AdminWelfarePage(list, MonthlyWelfare(welfare), SumBy(list, ContributionAmount)));
    }
  }
}
